/** Inclusion proofs: generation, verification, completeness and soundness. */
module Proofs {
  import opened Octets
  import opened Bits
  import opened Positions
  import opened Mmr
  import opened Wrappers

  datatype InclusionProof = InclusionProof(
    leafIndex: U64,
    leafHash: Hash,
    siblings: seq<Hash>,
    peaks: seq<Hash>,
    mmrSize: U64)

  // ----- what generation computes -----

  lemma {:induction false} ParentIsLater(c: Coord)
    requires ValidCoord(c)
    ensures PosOf(c) < PosOf(ParentOf(c))
    ensures SiblingOf(c).leaf <= ParentOf(c).leaf && c.leaf <= ParentOf(c).leaf
    ensures SiblingOf(c).height == c.height && ParentOf(c).height == c.height + 1
    ensures PosOf(SiblingOf(c)) < PosOf(ParentOf(c))
  {
    hide CoordOf, Pow2, TrailingOnes, Ones;
    FamilyDistances(c);
  }

  /** The node `k` levels above `c`. */
  ghost function Ancestor(c: Coord, k: nat): (d: Coord)
    requires ValidCoord(c)
    ensures ValidCoord(d)
    decreases k
  {
    if k == 0 then c else Ancestor(ParentOf(c), k - 1)
  }

  lemma {:induction false} AncestorUnfold(c: Coord, k: nat)
    requires ValidCoord(c)
    ensures Ancestor(c, 0) == c && (k > 0 ==> Ancestor(c, k) == Ancestor(ParentOf(c), k - 1))
  {
    hide ParentOf, TrailingOnes;
  }

  /** The hashes next to the way from `c` up to its peak. */
  ghost function Path(leaves: seq<Bytes>, c: Coord): seq<Hash>
    requires ValidCoord(c) && c.leaf < |leaves|
    decreases LeafPos(|leaves|) - PosOf(c)
  {
    if ParentOf(c).leaf >= |leaves| then []
    else
      ParentIsLater(c);
      CoordWithin(ParentOf(c), |leaves|);
      [NodeAt(leaves, SiblingOf(c))] + Path(leaves, ParentOf(c))
  }

  ghost function ProofOf(leaves: seq<Bytes>, i: nat): InclusionProof
    requires i < |leaves| <= MAX_LEAVES
  {
    SizeBound(|leaves|);
    InclusionProof(i, NodeAt(leaves, Coord(i, 0)), Path(leaves, Coord(i, 0)),
                   PeaksLeftToRight(leaves), LeafPos(|leaves|))
  }

  /** Walks up from a stored node, collecting siblings until the parent lies beyond the range. */
  method CollectSiblings(m: MMR, start: U64, ghost leaves: seq<Bytes>, ghost c: Coord) returns (r: Option<seq<Hash>>)
    requires m.Represents(leaves)
    requires ValidCoord(c) && c.leaf < |leaves| && start == PosOf(c)
    ensures r == Some(Path(leaves, c))
  {
    hide Ones, CoordOf, PosOf, NodeAt, NodesOf, LeafPos, TrailingOnes, PeaksOf, ParentOf, SiblingOf, Path;
    var siblings: seq<Hash> := [];
    var currentPos := start;
    ghost var at := c;
    while true
      invariant ValidCoord(at) && at.leaf < |leaves| && currentPos == PosOf(at)
      invariant siblings + Path(leaves, at) == Path(leaves, c)
      decreases LeafPos(|leaves|) - currentPos
    {
      CoordUnique(at);
      NoOverflow(at);
      CoordWithin(at, |leaves|);
      CoordWithin(ParentOf(at), |leaves|);
      ParentIsLater(at);
      PathUnfold(leaves, at);
      var parentPos, siblingPos := Family(currentPos);
      if parentPos >= m.size {
        assert siblings + [] == siblings;
        break;
      }
      StoredNode(leaves, SiblingOf(at));
      if siblingPos in m.nodes {
        siblings := siblings + [m.nodes[siblingPos]];
      } else {
        return None;
      }
      currentPos := parentPos;
      at := ParentOf(at);
    }
    r := Some(siblings);
  }

  /** Generation fails exactly on an index that is out of range; no node is ever missing. The proof is one of the
      requested leaf: its index, the node stored at its position, the size and the peaks of the range, and on every
      level up to the peak the node stored at the position of the sibling. */
  method GenerateInclusionProof(m: MMR, leafIndex: U64, ghost leaves: seq<Bytes>) returns (r: Option<InclusionProof>)
    requires m.Represents(leaves)
    ensures r.Some? <==> leafIndex < |leaves|
    ensures r.Some? ==> r.value == ProofOf(leaves, leafIndex)
    ensures r.Some? ==>
              var pos := 2 * leafIndex - Ones(leafIndex);
              && r.value.leafIndex == leafIndex && pos in m.nodes && r.value.leafHash == m.nodes[pos]
              && r.value.mmrSize == m.size && r.value.peaks == PeaksLeftToRight(leaves)
    ensures r.Some? ==>
              var c, k := Coord(leafIndex, 0), |r.value.siblings|;
              && PosOf(Ancestor(c, k)) < m.size <= PosOf(ParentOf(Ancestor(c, k)))
              && forall j :: 0 <= j < k ==>
                   && PosOf(SiblingOf(Ancestor(c, j))) in m.nodes
                   && r.value.siblings[j] == m.nodes[PosOf(SiblingOf(Ancestor(c, j)))]
  {
    hide Ones, CoordOf, NodeAt, NodesOf, LeafPos, TrailingOnes, PeaksOf, PeaksLeftToRight, Path;
    if leafIndex >= m.numLeaves {
      return None;
    }
    var leafPos := LeafIndexToMmrIndex(leafIndex);
    ghost var c := Coord(leafIndex, 0);
    CoordUnique(c);
    var leaf := IsLeaf(leafPos);
    if !leaf {
      return None;
    }
    StoredNode(leaves, c);
    if leafPos !in m.nodes {
      return None;
    }
    var leafHash := m.nodes[leafPos];
    var siblings := CollectSiblings(m, leafPos, leaves, c);
    if siblings.None? {
      return None;
    }
    SizeBound(|leaves|);
    var lr := m.PeaksLR(leaves);
    r := Some(InclusionProof(leafIndex, leafHash, siblings.value, lr, m.size));
    PathStored(leaves, c);
    LeafPosIs(leafIndex);
  }

  lemma {:induction false} LeafPosIs(i: nat)
    ensures LeafPos(i) == 2 * i - Ones(i)
  {
    hide Ones;
  }

  /** The path of a node goes up to the node whose parent is beyond the range, one stored sibling on every level. */
  lemma {:induction false} PathStored(leaves: seq<Bytes>, c: Coord)
    requires ValidCoord(c) && c.leaf < |leaves|
    ensures var k, n := |Path(leaves, c)|, LeafPos(|leaves|);
            && PosOf(Ancestor(c, k)) < n <= PosOf(ParentOf(Ancestor(c, k)))
            && forall j :: 0 <= j < k ==>
                 && PosOf(SiblingOf(Ancestor(c, j))) in NodesOf(leaves)
                 && Path(leaves, c)[j] == NodesOf(leaves)[PosOf(SiblingOf(Ancestor(c, j)))]
    decreases LeafPos(|leaves|) - PosOf(c)
  {
    hide Ones, CoordOf, NodeAt, LeafPos, TrailingOnes, ParentOf, SiblingOf, Path, Ancestor, NodesOf;
    PathUnfold(leaves, c);
    ParentIsLater(c);
    CoordWithin(c, |leaves|);
    CoordWithin(ParentOf(c), |leaves|);
    var k := |Path(leaves, c)|;
    AncestorUnfold(c, k);
    if ParentOf(c).leaf < |leaves| {
      PathStored(leaves, ParentOf(c));
      StoredNode(leaves, SiblingOf(c));
      forall j | 0 <= j < k
        ensures PosOf(SiblingOf(Ancestor(c, j))) in NodesOf(leaves)
        ensures Path(leaves, c)[j] == NodesOf(leaves)[PosOf(SiblingOf(Ancestor(c, j)))]
      {
        AncestorUnfold(c, j);
      }
    }
  }

  lemma {:induction false} PathUnfold(leaves: seq<Bytes>, c: Coord)
    requires ValidCoord(c) && c.leaf < |leaves|
    ensures ParentOf(c).leaf >= |leaves| ==> Path(leaves, c) == []
    ensures ParentOf(c).leaf < |leaves| ==>
              && SiblingOf(c).leaf < |leaves|
              && Path(leaves, c) == [NodeAt(leaves, SiblingOf(c))] + Path(leaves, ParentOf(c))
  {
    hide Ones, CoordOf, NodeAt, LeafPos, TrailingOnes, ParentOf, SiblingOf;
    ParentIsLater(c);
  }

  // ----- what verification computes -----

  ghost function ParentPos(pos: U64): U64 {
    PosOf(ParentOf(CoordOf(pos))) % TWO64
  }

  ghost function SiblingPos(pos: U64): U64 {
    PosOf(SiblingOf(CoordOf(pos))) % TWO64
  }

  /** The hash one level up; the side is decided by the position of the sibling. */
  ghost function HashUp(pos: U64, hash: Hash, sibling: Hash): Hash {
    if !IsRightChild(CoordOf(SiblingPos(pos))) then ParentNode(ParentPos(pos), sibling, hash)
    else ParentNode(ParentPos(pos), hash, sibling)
  }

  ghost function Climb(pos: U64, hash: Hash, siblings: seq<Hash>): Hash
    decreases |siblings|
  {
    if siblings == [] then hash
    else Climb(ParentPos(pos), HashUp(pos, hash, siblings[0]), siblings[1..])
  }

  ghost predicate Present(nodes: map<nat, Hash>, positions: seq<nat>) {
    forall i :: 0 <= i < |positions| ==> positions[i] in nodes
  }

  ghost function Select(nodes: map<nat, Hash>, positions: seq<nat>): (s: seq<Hash>)
    requires Present(nodes, positions)
    ensures |s| == |positions|
    ensures forall i :: 0 <= i < |s| ==> s[i] == nodes[positions[i]]
  {
    seq(|positions|, (i: nat) requires i < |positions| => nodes[positions[i]])
  }

  /** What a verifier holding `nodes` accepts: the climb ends in a listed peak, and the listed peaks
      are the stored nodes at the peak positions of the claimed size. */
  ghost predicate Accepts(nodes: map<nat, Hash>, proof: InclusionProof) {
    AcceptsAt(nodes, proof, GreedyPeaks(0, proof.mmrSize))
  }

  /** The same with any positions that the computation of the peak positions may yield. */
  ghost predicate AcceptsAt(nodes: map<nat, Hash>, proof: InclusionProof, positions: seq<nat>) {
    && Climb(LeafPos(proof.leafIndex) % TWO64, proof.leafHash, proof.siblings) in proof.peaks
    && Present(nodes, positions)
    && proof.peaks == Select(nodes, positions)
  }

  method VerifyInclusionProof(m: MMR, proof: InclusionProof) returns (ok: bool)
    ensures ok <==> Accepts(m.nodes, proof)
  {
    hide Ones, CoordOf, GreedyPeaks, LeafPos, LE64, HashBytes, ParentPos, SiblingPos, IsRightChild;
    var nodePos := LeafIndexToMmrIndex(proof.leafIndex);
    var currentHash := proof.leafHash;
    var currentPos: U64 := nodePos;
    for i := 0 to |proof.siblings|
      invariant Climb(currentPos, currentHash, proof.siblings[i..]) == Climb(nodePos, proof.leafHash, proof.siblings)
    {
      var sibling := proof.siblings[i];
      assert proof.siblings[i..][1..] == proof.siblings[i + 1..];
      var parentPos, siblingPos := ClimbFamily(currentPos);
      var left := IsLeftSibling(siblingPos);
      if left {
        currentHash := ParentNode(parentPos, sibling, currentHash);
      } else {
        currentHash := ParentNode(parentPos, currentHash, sibling);
      }
      currentPos := parentPos;
    }

    var peakFound := false;
    for i := 0 to |proof.peaks|
      invariant peakFound <==> currentHash in proof.peaks[..i]
    {
      if proof.peaks[i] == currentHash {
        peakFound := true;
      }
    }
    assert proof.peaks[..|proof.peaks|] == proof.peaks;
    if !peakFound {
      return false;
    }

    var positions := PeakPositionsAtSize(proof.mmrSize);
    var expectedPeaks: seq<Hash> := [];
    for i := 0 to |positions|
      invariant Present(m.nodes, positions[..i])
      invariant |expectedPeaks| == i
      invariant forall j :: 0 <= j < i ==> expectedPeaks[j] == m.nodes[positions[j]]
    {
      if positions[i] !in m.nodes {
        return false;
      }
      expectedPeaks := expectedPeaks + [m.nodes[positions[i]]];
    }
    assert positions[..|positions|] == positions;
    assert expectedPeaks == Select(m.nodes, positions);
    if proof.peaks != expectedPeaks {
      return false;
    }

    var expectedRoot := BagPeaksWithSize(expectedPeaks, proof.mmrSize);
    var proofRoot := BagPeaksWithSize(proof.peaks, proof.mmrSize);
    ok := expectedRoot == proofRoot;
  }

  method ClimbFamily(pos: U64) returns (parent: U64, sibling: U64)
    ensures parent == ParentPos(pos) && sibling == SiblingPos(pos)
  {
    hide Ones, PosOf, ParentOf, SiblingOf, CoordOf;
    parent, sibling := Family(pos);
  }

  // ----- completeness -----

  /** On a genuine node the verifier recomputes the parent. */
  lemma {:induction false} HashUpGenuine(leaves: seq<Bytes>, c: Coord)
    requires ValidCoord(c) && ParentOf(c).leaf < |leaves| <= MAX_LEAVES
    ensures c.leaf < |leaves| && SiblingOf(c).leaf < |leaves| && PosOf(c) < TWO64
    ensures ParentPos(PosOf(c)) == PosOf(ParentOf(c))
    ensures HashUp(PosOf(c), NodeAt(leaves, c), NodeAt(leaves, SiblingOf(c))) == NodeAt(leaves, ParentOf(c))
  {
    hide Ones, CoordOf, NodeAt, LeafPos, TrailingOnes, ParentOf, SiblingOf, LE64, HashBytes, LeftChild, RightChild,
      IsRightChild;
    ParentIsLater(c);
    NoOverflow(c);
    CoordUnique(c);
    CoordUnique(SiblingOf(c));
    SiblingsAgree(c);
    NodeUnfold(leaves, ParentOf(c));
  }

  lemma {:induction false} ClimbCons(pos: U64, hash: Hash, first: Hash, rest: seq<Hash>)
    ensures Climb(pos, hash, [first] + rest) == Climb(ParentPos(pos), HashUp(pos, hash, first), rest)
  {
    hide Ones, CoordOf, ParentPos, HashUp;
    assert ([first] + rest)[1..] == rest;
  }

  lemma {:induction false} ClimbReachesPeak(leaves: seq<Bytes>, c: Coord)
    requires ValidCoord(c) && c.leaf < |leaves| <= MAX_LEAVES
    ensures PosOf(c) < TWO64
    ensures Climb(PosOf(c), NodeAt(leaves, c), Path(leaves, c)) in PeaksLeftToRight(leaves)
    decreases LeafPos(|leaves|) - PosOf(c)
  {
    hide Ones, CoordOf, NodeAt, LeafPos, TrailingOnes, ParentOf, SiblingOf, Path, Climb, ParentPos, HashUp, PeakHashes,
      BitLen, PeakLeaf, Bit;
    NoOverflow(c);
    PathUnfold(leaves, c);
    CoordWithin(c, |leaves|);
    CoordWithin(ParentOf(c), |leaves|);
    ParentIsLater(c);
    if ParentOf(c).leaf >= |leaves| {
      PeaksHaveNoParent(|leaves|, c);
      ClimbNothing(PosOf(c), NodeAt(leaves, c));
      BitsWithinLength(|leaves|, c.height);
      PeakListed(leaves, c.height, BitLen(|leaves|));
    } else {
      HashUpGenuine(leaves, c);
      ClimbCons(PosOf(c), NodeAt(leaves, c), NodeAt(leaves, SiblingOf(c)), Path(leaves, ParentOf(c)));
      ClimbReachesPeak(leaves, ParentOf(c));
    }
  }

  lemma {:induction false} ClimbNothing(pos: U64, hash: Hash)
    ensures Climb(pos, hash, []) == hash
  {
  }

  lemma {:induction false} PeakListed(leaves: seq<Bytes>, h: nat, k: nat)
    requires h < k && Bit(|leaves|, h)
    ensures PeakHash(leaves, h) in PeakHashes(leaves, k)
    decreases k
  {
    hide Ones, CoordOf, PeakHash, Bit, PeakHashes;
    PeakHashesStep(leaves, k - 1);
    if h < k - 1 { PeakListed(leaves, h, k - 1); }
  }

  lemma {:induction false} PeaksAreStored(leaves: seq<Bytes>, more: seq<Bytes>, k: nat)
    ensures var positions := PeakPositions(0, |leaves|, k);
            && Present(NodesOf(leaves + more), positions)
            && PeakHashes(leaves, k) == Select(NodesOf(leaves + more), positions)
    decreases k
  {
    hide Ones, CoordOf, PeakHash, Bit, PeakHashes, PeakPositions, NodeAt, LeafPos, TrailingOnes, PeakCoord;
    var n, nodes := |leaves|, NodesOf(leaves + more);
    if k == 0 {
      NoPeaksBelowZero(leaves);
    } else {
      PeaksAreStored(leaves, more, k - 1);
      PeakHashesStep(leaves, k - 1);
      if Bit(n, k - 1) {
        PeakPositionsHead(0, n, k - 1);
        PeakStored(leaves, more, k - 1);
      } else {
        PeakPositionsSkip(0, n, k - 1);
      }
    }
  }

  lemma {:induction false} NoPeaksBelowZero(leaves: seq<Bytes>)
    ensures PeakHashes(leaves, 0) == [] && PeakPositions(0, |leaves|, 0) == []
  {
  }

  lemma {:induction false} PeakStored(leaves: seq<Bytes>, more: seq<Bytes>, h: nat)
    requires Bit(|leaves|, h)
    ensures var pos, nodes := PosOf(PeakCoord(|leaves|, h)), NodesOf(leaves + more);
            pos in nodes && nodes[pos] == PeakHash(leaves, h)
  {
    hide Ones, CoordOf, Bit, NodeAt, LeafPos, TrailingOnes, PeakLeaf;
    var c := PeakCoord(|leaves|, h);
    StoredNode(leaves + more, c);
    NodePersists(leaves, more, c);
  }

  /** For every index in range the generated proof is accepted, on the range it was generated on and after any number of
      further appends, and it is a proof of the leaf with this index. */
  lemma {:induction false} Completeness(leaves: seq<Bytes>, more: seq<Bytes>, i: nat)
    requires i < |leaves| <= MAX_LEAVES
    ensures Accepts(NodesOf(leaves + more), ProofOf(leaves, i))
    ensures var p := ProofOf(leaves, i);
            && p.leafIndex == i && p.leafHash == HashBytes(LE64(LeafPos(i)) + HashBytes(leaves[i]))
            && Genuine(leaves, p) && p.mmrSize == LeafPos(|leaves|)
  {
    hide Genuine, ProofOf, LE64, HashBytes, Ones, CoordOf, NodeAt, LeafPos, TrailingOnes, Path, Climb, PeakHashes,
      PeakPositions, GreedyPeaks, BitLen;
    NamesItsLeaf(leaves, i);
    GeneratedIsAccepted(leaves, more, i);
  }

  lemma {:induction false} GeneratedIsAccepted(leaves: seq<Bytes>, more: seq<Bytes>, i: nat)
    requires i < |leaves| <= MAX_LEAVES
    ensures Accepts(NodesOf(leaves + more), ProofOf(leaves, i))
  {
    hide Ones, CoordOf, NodeAt, LeafPos, TrailingOnes, Path, Climb, PeakHashes,
      PeakPositions, GreedyPeaks, BitLen;
    var c := Coord(i, 0);
    NoOverflow(c);
    ClimbReachesPeak(leaves, c);
    GreedyFindsPeaks(0, |leaves|);
    PeaksAreStored(leaves, more, BitLen(|leaves|));
  }

  lemma {:induction false} NamesItsLeaf(leaves: seq<Bytes>, i: nat)
    requires i < |leaves| <= MAX_LEAVES
    ensures var p := ProofOf(leaves, i);
            && Genuine(leaves, p) && p.leafIndex == i && p.mmrSize == LeafPos(|leaves|)
            && p.leafHash == HashBytes(LE64(LeafPos(i)) + HashBytes(leaves[i]))
  {
    hide Ones, CoordOf, NodeAt, LeafPos, TrailingOnes, Path, PeakHashes, BitLen, NodesOf, LE64, HashBytes;
    NodeUnfold(leaves, Coord(i, 0));
  }

  // ----- soundness -----

  /** A node whose hash has the form of a parent is an inner node at exactly the hashed position,
      and the hashed children are its children. */
  lemma {:induction false} ParentHashIsGenuine(leaves: seq<Bytes>, d: Coord, pos: U64, left: Hash, right: Hash)
    requires ValidCoord(d) && d.leaf < |leaves| <= MAX_LEAVES
    requires NodeAt(leaves, d) == ParentNode(pos, left, right)
    ensures d.height > 0 && pos == PosOf(d)
    ensures left == NodeAt(leaves, LeftChild(d)) && right == NodeAt(leaves, RightChild(d))
  {
    hide Ones, CoordOf, NodeAt, LeafPos, TrailingOnes, LE64, HashBytes, LeftChild, RightChild;
    NoOverflow(d);
    NodeUnfold(leaves, d);
    if d.height == 0 {
      LeafIsNotParent(PosOf(d), HashBytes(leaves[d.leaf]), pos, left, right);
    } else {
      ChildShape(d);
      ParentNodeInjective(PosOf(d), NodeAt(leaves, LeftChild(d)), NodeAt(leaves, RightChild(d)), pos, left, right);
      LE64Injective(PosOf(d), pos);
    }
  }

  /** `d` is the inner node that the first step of the climb computes. */
  ghost predicate FirstStep(leaves: seq<Bytes>, pos: U64, hash: Hash, sibling: Hash, d: Coord)
    requires ValidCoord(d) && d.leaf < |leaves|
  {
    d.height > 0 && PosOf(d) == ParentPos(pos) && NodeAt(leaves, d) == HashUp(pos, hash, sibling)
  }

  /** If a climb of at least one step ends in a stored node, its first step computed a stored node:
      positions are part of every hash, so the whole way up is forced. */
  lemma {:induction false} ClimbIsGenuine(leaves: seq<Bytes>, pos: U64, hash: Hash, siblings: seq<Hash>, d: Coord)
    returns (e: Coord)
    requires ValidCoord(d) && d.leaf < |leaves| <= MAX_LEAVES
    requires siblings != [] && Climb(pos, hash, siblings) == NodeAt(leaves, d)
    ensures ValidCoord(e) && e.leaf < |leaves|
    ensures FirstStep(leaves, pos, hash, siblings[0], e)
    decreases |siblings|
  {
    hide Ones, CoordOf, NodeAt, LeafPos, TrailingOnes, LE64, HashBytes, LeftChild, RightChild, Climb, ParentPos,
      SiblingPos, IsRightChild;
    var first, rest := siblings[0], siblings[1..];
    assert siblings == [first] + rest;
    ClimbCons(pos, hash, first, rest);
    var up := HashUp(pos, hash, first);
    var left, right := HashUpShape(pos, hash, first);
    e := d;
    if rest == [] {
      ClimbNothing(ParentPos(pos), up);
    } else {
      var f := ClimbIsGenuine(leaves, ParentPos(pos), up, rest, d);
      var l, r := HashUpShape(ParentPos(pos), up, rest[0]);
      ParentHashIsGenuine(leaves, f, ParentPos(ParentPos(pos)), l, r);
      ChildShape(f);
      e := if l == up then LeftChild(f) else RightChild(f);
    }
    ParentHashIsGenuine(leaves, e, ParentPos(pos), left, right);
  }

  lemma {:induction false} HashUpShape(pos: U64, hash: Hash, sibling: Hash) returns (left: Hash, right: Hash)
    ensures HashUp(pos, hash, sibling) == ParentNode(ParentPos(pos), left, right)
    ensures left == hash || right == hash
  {
    hide Ones, CoordOf, ParentPos, SiblingPos, IsRightChild, LE64, HashBytes;
    if !IsRightChild(CoordOf(SiblingPos(pos))) {
      left, right := sibling, hash;
    } else {
      left, right := hash, sibling;
    }
  }

  lemma {:induction false} SetTrailingBound(p: nat, k: nat)
    requires p < Pow2(k) && TrailingOnes(p) < k
    ensures p + Pow2(TrailingOnes(p)) < Pow2(k)
    decreases k
  {
    hide TrailingOnes, Pow2;
    TrailingHalf(p, k);
    if p % 2 == 1 { SetTrailingBound(p / 2, k - 1); }
  }

  lemma {:induction false} TrailingHalf(p: nat, k: nat)
    requires k > 0
    ensures Pow2(k) == 2 * Pow2(k - 1)
    ensures p % 2 == 0 ==> Pow2(TrailingOnes(p)) == 1
    ensures p % 2 == 1 ==>
              TrailingOnes(p) == TrailingOnes(p / 2) + 1 && Pow2(TrailingOnes(p)) == 2 * Pow2(TrailingOnes(p / 2))
  {
  }

  /** The perfect tree over 2^63 leaves fills the positions up to 2^64 - 2. */
  lemma {:induction false} FullTree()
    ensures Pow2(63) == TWO63
    ensures LeafPos(TWO63) == TWO64 - 1
    ensures TrailingOnes(TWO63) == 0
  {
    hide Pow2, Ones, TrailingOnes;
    Pow2Of64();
    TrailingOnesOfEven(TWO63);
    SmallOnes();
    TopBit(63, 0);
  }

  lemma {:induction false} SmallOnes()
    ensures Ones(0) == 0 && Ones(1) == 1 && TrailingOnes(0) == 0
  {
  }

  lemma {:induction false} TrailingOnesOfEven(n: nat)
    requires n % 2 == 0
    ensures TrailingOnes(n) == 0
  {
  }

  lemma {:induction false} LastTreeNode(c: Coord)
    requires ValidCoord(c) && c.leaf < TWO63 <= c.leaf + Pow2(c.height)
    requires c.height == TrailingOnes(c.leaf) >= 63
    ensures PosOf(c) == TWO64 - 2 && Pow2(c.height) == TWO63
  {
    hide Ones, CoordOf, LeafPos, TrailingOnes, Pow2;
    FullTree();
    BitAtTrailing(c.leaf, c.height);
    Pow2Monotone(63, c.height);
    assert c.leaf == TWO63 - 1;
    NextLeafPos(c.leaf);
  }

  /** The parent computation of a uint64 position overflows only at the last two positions. */
  lemma {:induction false} ParentWrapCases(c: Coord)
    requires ValidCoord(c) && PosOf(c) < TWO64
    ensures || PosOf(ParentOf(c)) < TWO64
            || PosOf(ParentOf(c)) == TWO64 + 1
            || PosOf(ParentOf(c)) == TWO64 + TWO64 - 2
  {
    hide Ones, CoordOf, LeafPos, TrailingOnes, Pow2;
    FullTree();
    FamilyDistances(c);
    if c.leaf >= TWO63 {
      if c.leaf > TWO63 {
        LeafPosMonotone(TWO63, c.leaf);
      }
      assert c == Coord(TWO63, 0);
      assert Pow2(0) == 1 by { Pow2Zero(); }
    } else {
      CoordWithin(ParentOf(c), TWO63);
      if !IsRightChild(c) {
        if c.height < 63 {
          SetTrailingBound(c.leaf, 63);
        } else {
          BitAtTrailing(c.leaf, c.height);
          Pow2Monotone(63, c.height);
          LastTreeNode(c);
        }
      }
    }
  }

  /** A uint64 position whose parent computation lands on a stored inner node did not overflow. */
  lemma {:induction false} ParentDidNotWrap(pos: U64, e: Coord)
    requires ValidCoord(e) && e.leaf < MAX_LEAVES && e.height > 0 && PosOf(e) == ParentPos(pos)
    ensures PosOf(ParentOf(CoordOf(pos))) < TWO64
  {
    hide Ones, CoordOf, LeafPos, TrailingOnes, Pow2, ParentOf, PosOf;
    NoOverflow(e);
    ParentWrapCases(CoordOf(pos));
    CoordUnique(e);
    PositionOne();
  }

  lemma {:induction false} PositionOne()
    ensures CoordOf(1) == Coord(1, 0)
  {
    assert PosOf(Coord(1, 0)) == 1;
    hide CoordOf, Ones, TrailingOnes;
    CoordUnique(Coord(1, 0));
  }

  /** The accepted leaf hash is the node stored at the position that the code derives from the leaf
      index, for every uint64 index. */
  lemma {:induction false} AcceptedHashIsStored(leaves: seq<Bytes>, proof: InclusionProof, positions: seq<nat>)
    requires |leaves| <= MAX_LEAVES
    requires AcceptsAt(NodesOf(leaves), proof, positions) && proof.siblings != []
    ensures var pos := LeafPos(proof.leafIndex) % TWO64;
            pos in NodesOf(leaves) && NodesOf(leaves)[pos] == proof.leafHash
  {
    hide Ones, CoordOf, LeafPos, TrailingOnes, Climb, GreedyPeaks, NodeAt, ParentPos, SiblingPos, ParentOf, SiblingOf,
      HashUp, LE64, HashBytes, IsRightChild, LeftChild, RightChild;
    var nodes := NodesOf(leaves);
    var pos := LeafPos(proof.leafIndex) % TWO64;
    var d := AcceptedPeak(leaves, proof, positions);
    var e := ClimbIsGenuine(leaves, pos, proof.leafHash, proof.siblings, d);
    ParentDidNotWrap(pos, e);
    var c := CoordOf(pos);
    FirstStepForces(leaves, pos, proof.leafHash, proof.siblings[0], e);
    StoredNode(leaves, c);
  }

  lemma {:induction false} AcceptedPeak(leaves: seq<Bytes>, proof: InclusionProof, positions: seq<nat>)
    returns (d: Coord)
    requires AcceptsAt(NodesOf(leaves), proof, positions)
    ensures ValidCoord(d) && d.leaf < |leaves|
    ensures NodeAt(leaves, d) == Climb(LeafPos(proof.leafIndex) % TWO64, proof.leafHash, proof.siblings)
  {
    hide Ones, CoordOf, LeafPos, TrailingOnes, Climb, GreedyPeaks, NodeAt;
    var top := Climb(LeafPos(proof.leafIndex) % TWO64, proof.leafHash, proof.siblings);
    var i :| 0 <= i < |proof.peaks| && proof.peaks[i] == top;
    assert proof.peaks[i] == NodesOf(leaves)[positions[i]];
    d := CoordOf(positions[i]);
    CoordWithin(d, |leaves|);
  }

  /** Where nothing overflows, the side of a hash is the side of its node. */
  lemma {:induction false} HashUpSide(pos: U64, hash: Hash, sibling: Hash)
    requires PosOf(ParentOf(CoordOf(pos))) < TWO64
    ensures ParentPos(pos) == PosOf(ParentOf(CoordOf(pos)))
    ensures HashUp(pos, hash, sibling) == if IsRightChild(CoordOf(pos)) then ParentNode(ParentPos(pos), sibling, hash)
                                          else ParentNode(ParentPos(pos), hash, sibling)
  {
    hide Ones, CoordOf, LeafPos, TrailingOnes, ParentOf, SiblingOf, LE64, HashBytes, IsRightChild, LeftChild,
      RightChild;
    var c := CoordOf(pos);
    ParentIsLater(c);
    SiblingsAgree(c);
    CoordUnique(SiblingOf(c));
  }

  lemma {:induction false} FirstStepForces(leaves: seq<Bytes>, pos: U64, hash: Hash, sibling: Hash, e: Coord)
    requires ValidCoord(e) && e.leaf < |leaves| <= MAX_LEAVES
    requires FirstStep(leaves, pos, hash, sibling, e)
    requires PosOf(ParentOf(CoordOf(pos))) < TWO64
    ensures CoordOf(pos).leaf < |leaves| && NodeAt(leaves, CoordOf(pos)) == hash
    ensures e == ParentOf(CoordOf(pos)) && SiblingOf(CoordOf(pos)).leaf < |leaves|
    ensures NodeAt(leaves, SiblingOf(CoordOf(pos))) == sibling
  {
    hide Ones, CoordOf, LeafPos, TrailingOnes, NodeAt, ParentOf, SiblingOf, LE64, HashBytes, IsRightChild, LeftChild,
      RightChild, HashUp, ParentPos, PosOf, ParentNode;
    var c := CoordOf(pos);
    HashUpSide(pos, hash, sibling);
    ParentIsLater(c);
    CoordUnique(e);
    CoordUnique(ParentOf(c));
    SiblingsAgree(c);
    if IsRightChild(c) {
      ParentHashIsGenuine(leaves, e, ParentPos(pos), sibling, hash);
    } else {
      ParentHashIsGenuine(leaves, e, ParentPos(pos), hash, sibling);
    }
  }

  /** The proof names a leaf of the range, with the hash of that leaf. */
  ghost predicate Genuine(leaves: seq<Bytes>, proof: InclusionProof) {
    && proof.leafIndex < |leaves|
    && proof.leafHash == NodeAt(leaves, Coord(proof.leafIndex, 0))
  }

  /** Soundness, whatever size and peaks the proof carries and whichever positions the verifier computes from the size:
      an accepted proof with a sibling is genuine exactly when its index is below 2^63. From there on the doubling of
      the index overflows, and the proof speaks of another position. */
  lemma {:induction false} Soundness(leaves: seq<Bytes>, proof: InclusionProof, positions: seq<nat>)
    requires |leaves| <= MAX_LEAVES
    requires AcceptsAt(NodesOf(leaves), proof, positions) && proof.siblings != []
    ensures Genuine(leaves, proof) <==> proof.leafIndex < TWO63
  {
    hide Ones, CoordOf, LeafPos, TrailingOnes, NodeAt, AcceptsAt;
    if proof.leafIndex < TWO63 {
      var c := Coord(proof.leafIndex, 0);
      LeafPosBelow(proof.leafIndex);
      AcceptedHashIsStored(leaves, proof, positions);
      CoordWithin(c, |leaves|);
      NodeAtCoord(leaves, c);
    }
  }

  /** The verifier itself. */
  lemma {:induction false} AcceptedIsGenuine(leaves: seq<Bytes>, proof: InclusionProof)
    requires |leaves| <= MAX_LEAVES && Accepts(NodesOf(leaves), proof) && proof.siblings != []
    ensures Genuine(leaves, proof) <==> proof.leafIndex < TWO63
  {
    hide NodesOf, GreedyPeaks, Genuine, AcceptsAt;
    Soundness(leaves, proof, GreedyPeaks(0, proof.mmrSize));
  }

  /** Climbing along the first siblings of the path reaches the ancestor of that level. */
  lemma {:induction false} ClimbAlongPath(leaves: seq<Bytes>, c: Coord, siblings: seq<Hash>)
    requires ValidCoord(c) && c.leaf < |leaves| <= MAX_LEAVES && siblings <= Path(leaves, c)
    ensures PosOf(c) < TWO64 && Ancestor(c, |siblings|).leaf < |leaves|
    ensures Climb(PosOf(c), NodeAt(leaves, c), siblings) == NodeAt(leaves, Ancestor(c, |siblings|))
    decreases |siblings|
  {
    hide Ones, CoordOf, NodeAt, LeafPos, TrailingOnes, ParentOf, SiblingOf, Path, Climb, ParentPos, HashUp, Ancestor;
    NoOverflow(c);
    AncestorUnfold(c, |siblings|);
    PathUnfold(leaves, c);
    if siblings == [] {
      ClimbNothing(PosOf(c), NodeAt(leaves, c));
    } else {
      var first, rest := siblings[0], siblings[1..];
      assert siblings == [first] + rest;
      HashUpGenuine(leaves, c);
      ClimbCons(PosOf(c), NodeAt(leaves, c), first, rest);
      ClimbAlongPath(leaves, ParentOf(c), rest);
    }
  }

  /** A climb from a stored node that ends in a stored node follows the path. */
  lemma {:induction false} ClimbFollowsPath(leaves: seq<Bytes>, c: Coord, siblings: seq<Hash>, d: Coord)
    requires ValidCoord(c) && c.leaf < |leaves| <= MAX_LEAVES && ValidCoord(d) && d.leaf < |leaves| && PosOf(c) < TWO64
    requires Climb(PosOf(c), NodeAt(leaves, c), siblings) == NodeAt(leaves, d)
    ensures siblings <= Path(leaves, c)
    decreases |siblings|
  {
    hide Ones, CoordOf, NodeAt, LeafPos, TrailingOnes, ParentOf, SiblingOf, Path, Climb, ParentPos, SiblingPos, HashUp,
      PosOf, IsRightChild;
    if siblings != [] {
      var first, rest := siblings[0], siblings[1..];
      assert siblings == [first] + rest;
      var pos := PosOf(c);
      var e := ClimbIsGenuine(leaves, pos, NodeAt(leaves, c), siblings, d);
      ParentDidNotWrap(pos, e);
      CoordUnique(c);
      FirstStepForces(leaves, pos, NodeAt(leaves, c), first, e);
      PathUnfold(leaves, c);
      HashUpGenuine(leaves, c);
      ClimbCons(pos, NodeAt(leaves, c), first, rest);
      ParentValid(c);
      NoOverflow(ParentOf(c));
      ClimbFollowsPath(leaves, ParentOf(c), rest, d);
    }
  }

  lemma {:induction false} ParentValid(c: Coord)
    requires ValidCoord(c)
    ensures ValidCoord(ParentOf(c))
  {
    hide Ones, TrailingOnes, Pow2;
  }

  /** The peaks of the proof are the stored nodes at the peak positions of its size. */
  ghost predicate PeaksStored(nodes: map<nat, Hash>, proof: InclusionProof) {
    var positions := GreedyPeaks(0, proof.mmrSize);
    Present(nodes, positions) && proof.peaks == Select(nodes, positions)
  }

  /** Exactly what is accepted below index 2^63: a proof with siblings that names a leaf with its hash, whose siblings
      are the first ones of the path of that leaf, and whose peaks are stored at the peak positions of its size and
      contain the node reached. The size itself need not be one that a range ever has. */
  lemma {:induction false} AcceptsExactly(leaves: seq<Bytes>, proof: InclusionProof)
    requires |leaves| <= MAX_LEAVES && proof.leafIndex < TWO63 && proof.siblings != []
    ensures Accepts(NodesOf(leaves), proof) <==>
              && Genuine(leaves, proof) && PeaksStored(NodesOf(leaves), proof)
              && proof.siblings <= Path(leaves, Coord(proof.leafIndex, 0))
              && Ancestor(Coord(proof.leafIndex, 0), |proof.siblings|).leaf < |leaves|
              && NodeAt(leaves, Ancestor(Coord(proof.leafIndex, 0), |proof.siblings|)) in proof.peaks
  {
    hide Ones, CoordOf, LeafPos, TrailingOnes, NodeAt, Path, Climb, GreedyPeaks, Ancestor, ParentOf, SiblingOf;
    var c := Coord(proof.leafIndex, 0);
    LeafPosBelow(proof.leafIndex);
    if Accepts(NodesOf(leaves), proof) {
      Soundness(leaves, proof, GreedyPeaks(0, proof.mmrSize));
      var d := AcceptedPeak(leaves, proof, GreedyPeaks(0, proof.mmrSize));
      ClimbFollowsPath(leaves, c, proof.siblings, d);
      ClimbAlongPath(leaves, c, proof.siblings);
    } else if Genuine(leaves, proof) && proof.siblings <= Path(leaves, c) {
      ClimbAlongPath(leaves, c, proof.siblings);
    }
  }

  lemma {:induction false} SmallRanges()
    ensures LeafPos(1) == 1 && LeafPos(3) == 4 && LeafPos(4) == 7
    ensures LargestTree(5) == 3 && LargestTree(2) == 1 && LargestTree(1) == 1
  {
    hide CoordOf, Ones, BitLen, Pow2, LargestTree;
    SmallCounts();
    SmallLengths();
    LargestTreeSize(5);
    LargestTreeSize(2);
    LargestTreeSize(1);
  }

  lemma {:induction false} SmallCounts()
    ensures Ones(1) == 1 && Ones(3) == 2 && Ones(4) == 1 && Pow2(1) == 2 && Pow2(2) == 4
  {
    assert Ones(0) == 0 && Ones(1) == 1;
    assert Ones(2) == 1 && Ones(3) == 2;
  }

  lemma {:induction false} SmallLengths()
    ensures BitLen(2) == 2 && BitLen(3) == 2 && BitLen(6) == 3
  {
    assert BitLen(0) == 0 && BitLen(1) == 1;
    assert BitLen(2) == 2 && BitLen(3) == 2;
  }

  lemma {:induction false} PeaksOfFive()
    ensures GreedyPeaks(0, 5) == [2, 3, 4]
  {
    hide GreedyPeaks, LargestTree, Ones, BitLen, Pow2;
    SmallRanges();
    GreedyHead(0, 5);
    GreedyHead(3, 2);
    GreedyHead(4, 1);
    NothingGreedy(5);
  }

  /** No range has five nodes, yet every range of at least four leaves accepts a proof that claims this size. */
  lemma {:induction false} OddSizeIsAccepted(leaves: seq<Bytes>) returns (proof: InclusionProof)
    requires 4 <= |leaves| <= MAX_LEAVES
    ensures Accepts(NodesOf(leaves), proof) && proof.siblings != [] && proof.mmrSize == 5
    ensures forall n: nat :: LeafPos(n) != 5
  {
    hide Ones, CoordOf, LeafPos, NodeAt, Path, Climb, GreedyPeaks, Ancestor, ParentOf, SiblingOf, LargestTree, Accepts;
    var c, nodes := Coord(0, 0), NodesOf(leaves);
    SmallRanges();
    PeaksOfFive();
    OverflowedIndex();
    PathUnfold(leaves, c);
    AncestorUnfold(c, 1);
    AncestorUnfold(ParentOf(c), 0);
    StoredNode(leaves, Coord(1, 1));
    if |leaves| > 4 { LeafPosMonotone(4, |leaves|); }
    assert Present(nodes, [2, 3, 4]);
    var peaks := Select(nodes, [2, 3, 4]);
    proof := InclusionProof(0, NodeAt(leaves, c), [NodeAt(leaves, SiblingOf(c))], peaks, 5);
    assert peaks[0] == nodes[2];
    AcceptsExactly(leaves, proof);
    forall n: nat
      ensures LeafPos(n) != 5
    {
      if n < 3 { LeafPosMonotone(n, 3); }
      if n > 4 { LeafPosMonotone(4, n); }
    }
  }

  lemma {:induction false} LeafPosBelow(i: nat)
    requires i < TWO63
    ensures LeafPos(i) < TWO64
  {
    hide CoordOf, Ones;
  }

  /** An index of 2^63 or more can be accepted: the proof of leaf 0 passes as one of 2^63 + 1. */
  lemma {:induction false} OverflowedIndexIsAccepted(leaves: seq<Bytes>) returns (proof: InclusionProof)
    requires 2 <= |leaves| <= MAX_LEAVES
    ensures Accepts(NodesOf(leaves), proof) && proof.siblings != []
    ensures proof.leafIndex == TWO63 + 1
  {
    hide Ones, CoordOf, LeafPos, NodeAt, Climb, GreedyPeaks, Path, PeakHashes, BitLen, ParentOf, SiblingOf;
    proof := ProofOf(leaves, 0).(leafIndex := TWO63 + 1);
    Completeness(leaves, [], 0);
    assert leaves + [] == leaves;
    OverflowedIndex();
    NoOverflow(Coord(0, 0));
    PathUnfold(leaves, Coord(0, 0));
  }

  lemma {:induction false} OverflowedIndex()
    ensures LeafPos(TWO63 + 1) % TWO64 == 0 == LeafPos(0)
    ensures ParentOf(Coord(0, 0)) == Coord(1, 1)
  {
    hide Pow2, Ones, TrailingOnes;
    SmallOnes();
    Pow2Zero();
    FullTree();
    TopBit(63, 1);
  }

  /** Without siblings the verifier only checks that the hash is a peak, so for every non-empty range
      it accepts a proof for an index that does not exist. Soundness for a given number of siblings
      is exactly having at least one. */
  lemma {:induction false} SoundnessNeedsSiblings(leaves: seq<Bytes>, k: nat)
    requires 0 < |leaves| <= MAX_LEAVES
    ensures (forall proof: InclusionProof ::
               Accepts(NodesOf(leaves), proof) && |proof.siblings| == k && proof.leafIndex < TWO63
               ==> Genuine(leaves, proof))
       <==> k >= 1
  {
    hide Ones, CoordOf, Genuine, Accepts, AcceptsAt, NodesOf;
    if k >= 1 {
      forall proof: InclusionProof | Accepts(NodesOf(leaves), proof) && |proof.siblings| == k && proof.leafIndex < TWO63
        ensures Genuine(leaves, proof)
      {
        AcceptedIsGenuine(leaves, proof);
      }
    } else {
      var accepted := SiblingFreeAcceptance(leaves);
      assert Accepts(NodesOf(leaves), accepted) && |accepted.siblings| == k && accepted.leafIndex < TWO63;
    }
  }

  lemma {:induction false} SiblingFreeAcceptance(leaves: seq<Bytes>) returns (proof: InclusionProof)
    requires 0 < |leaves| <= MAX_LEAVES
    ensures Accepts(NodesOf(leaves), proof) && proof.siblings == [] && proof.leafIndex < TWO63
    ensures !Genuine(leaves, proof)
  {
    hide Ones, CoordOf, LeafPos, NodeAt, Climb, GreedyPeaks, Path, PeakHashes;
    var honest := ProofOf(leaves, 0);
    Completeness(leaves, [], 0);
    assert leaves + [] == leaves;
    proof := InclusionProof(|leaves|, honest.peaks[0], [], honest.peaks, honest.mmrSize);
    ClimbNothing(LeafPos(|leaves|) % TWO64, honest.peaks[0]);
  }
}
