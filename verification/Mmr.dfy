/** The Merkle Mountain Range: an append-only list of leaves kept as a forest of perfect trees.

    The forest is first described directly on the list of leaves: `NodeAt` is the hash of every
    node, `RootOf` is the root, found by cutting the list at its largest power of two.
    The class keeps the forest incrementally with a binary-counter carry loop and is proved to hold
    exactly the described nodes, peaks and root after every append. */
module Mmr {
  import opened Octets
  import opened Bits
  import opened Positions

  function LeafNode(pos: nat, leafHash: Hash): Hash {
    HashBytes(LE64(pos) + leafHash)
  }

  function ParentNode(pos: nat, left: Hash, right: Hash): Hash {
    HashBytes(LE64(pos) + left + right)
  }

  lemma {:induction false} LE64Injective(p: nat, q: nat)
    requires p < TWO64 && q < TWO64 && LE64(p) == LE64(q)
    ensures p == q
  {
    LE64RoundTrip(p);
    LE64RoundTrip(q);
  }

  lemma {:induction false} LeafNodeInjective(p: nat, a: Hash, q: nat, b: Hash)
    requires LeafNode(p, a) == LeafNode(q, b)
    ensures LE64(p) == LE64(q) && a == b
  {
    hide Ones, CoordOf, LE64;
    HashInjective(LE64(p) + a, LE64(q) + b);
    SplitUnique(LE64(p), a, LE64(q), b);
  }

  lemma {:induction false} ParentNodeInjective(p: nat, a: Hash, b: Hash, q: nat, c: Hash, d: Hash)
    requires ParentNode(p, a, b) == ParentNode(q, c, d)
    ensures LE64(p) == LE64(q) && a == c && b == d
  {
    hide Ones, CoordOf, LE64;
    HashInjective(LE64(p) + a + b, LE64(q) + c + d);
    SplitUnique(LE64(p) + a, b, LE64(q) + c, d);
    SplitUnique(LE64(p), a, LE64(q), c);
  }

  /** 40-byte and 72-byte preimages differ. */
  lemma {:induction false} LeafIsNotParent(p: nat, a: Hash, q: nat, c: Hash, d: Hash)
    ensures LeafNode(p, a) != ParentNode(q, c, d)
  {
    var leaf, parent := LE64(p) + a, LE64(q) + c + d;
    assert |leaf| == 40 && |parent| == 72;
    if HashBytes(leaf) == HashBytes(parent) {
      HashInjective(leaf, parent);
    }
  }

  // ----- nodes -----

  /** The hash of a node, as a function of the leaves alone. */
  ghost function NodeAt(leaves: seq<Bytes>, c: Coord): (h: Hash)
    requires ValidCoord(c) && c.leaf < |leaves|
    decreases c.height
  {
    if c.height == 0 then LeafNode(PosOf(c), HashBytes(leaves[c.leaf]))
    else ParentNode(PosOf(c), NodeAt(leaves, LeftChild(c)), NodeAt(leaves, RightChild(c)))
  }

  lemma {:induction false} NodeNotZero(leaves: seq<Bytes>, c: Coord)
    requires ValidCoord(c) && c.leaf < |leaves|
    ensures NodeAt(leaves, c) != ZERO
  {
    hide Ones, CoordOf, PosOf, LeftChild, RightChild, HashBytes, LE64;
  }

  /** Later leaves do not change a node. */
  lemma {:induction false} NodePersists(leaves: seq<Bytes>, more: seq<Bytes>, c: Coord)
    requires ValidCoord(c) && c.leaf < |leaves|
    ensures NodeAt(leaves + more, c) == NodeAt(leaves, c)
    decreases c.height
  {
    hide Ones, CoordOf, PosOf, LeftChild, RightChild, HashBytes, LE64, ValidCoord;
    if c.height > 0 {
      ChildShape(c);
      NodePersists(leaves, more, LeftChild(c));
      NodePersists(leaves, more, RightChild(c));
    }
  }

  lemma {:induction false} ChildShape(c: Coord)
    requires ValidCoord(c) && c.height > 0
    ensures LeftChild(c).height == RightChild(c).height == c.height - 1
    ensures RightChild(c).leaf == c.leaf
  {
  }

  ghost function NodeAtPos(leaves: seq<Bytes>, pos: nat): Hash
    requires pos < LeafPos(|leaves|)
  {
    CoordWithin(CoordOf(pos), |leaves|);
    NodeAt(leaves, CoordOf(pos))
  }

  ghost function NodesUpTo(leaves: seq<Bytes>, size: nat): map<nat, Hash>
    requires size <= LeafPos(|leaves|)
  {
    map pos: nat | pos < size :: NodeAtPos(leaves, pos)
  }

  ghost function NodesOf(leaves: seq<Bytes>): map<nat, Hash> {
    NodesUpTo(leaves, LeafPos(|leaves|))
  }

  lemma {:induction false} NodesPersist(leaves: seq<Bytes>, more: seq<Bytes>)
    ensures LeafPos(|leaves|) <= LeafPos(|leaves + more|)
    ensures NodesUpTo(leaves + more, LeafPos(|leaves|)) == NodesOf(leaves)
  {
    hide Ones, CoordOf, LeafPos, NodeAt;
    var n := |leaves|;
    if |more| > 0 {
      LeafPosMonotone(n, |leaves + more|);
    } else {
      assert leaves + more == leaves;
    }
    forall pos: nat | pos < LeafPos(n)
      ensures NodeAtPos(leaves + more, pos) == NodeAtPos(leaves, pos)
    {
      CoordWithin(CoordOf(pos), n);
      NodePersists(leaves, more, CoordOf(pos));
    }
  }

  lemma {:induction false} NodeAtCoord(leaves: seq<Bytes>, c: Coord)
    requires ValidCoord(c) && c.leaf < |leaves|
    ensures PosOf(c) < LeafPos(|leaves|)
    ensures NodeAtPos(leaves, PosOf(c)) == NodeAt(leaves, c)
  {
    hide Ones, CoordOf, NodeAt, LeafPos, TrailingOnes;
    CoordWithin(c, |leaves|);
    CoordUnique(c);
  }

  lemma {:induction false} StoredNode(leaves: seq<Bytes>, c: Coord)
    requires ValidCoord(c) && c.leaf < |leaves|
    ensures PosOf(c) in NodesOf(leaves) && NodesOf(leaves)[PosOf(c)] == NodeAt(leaves, c)
  {
    hide Ones, CoordOf, NodeAt, LeafPos, TrailingOnes;
    NodeAtCoord(leaves, c);
  }

  // ----- peaks -----

  ghost function PeakHash(leaves: seq<Bytes>, h: nat): Hash {
    if Bit(|leaves|, h) then NodeAt(leaves, PeakCoord(|leaves|, h)) else ZERO
  }

  /** The peak array: slot `h` holds the perfect tree of height `h` if there is one. */
  ghost function PeaksOf(leaves: seq<Bytes>): (s: seq<Hash>)
    ensures |s| == BitLen(|leaves|)
    ensures forall h :: 0 <= h < |s| ==> s[h] == PeakHash(leaves, h)
  {
    seq(BitLen(|leaves|), (h: nat) => PeakHash(leaves, h))
  }

  lemma {:induction false} PeakIsZero(leaves: seq<Bytes>, h: nat)
    ensures PeakHash(leaves, h) == ZERO <==> !Bit(|leaves|, h)
  {
    hide Ones, CoordOf, Bit, NodeAt;
    if Bit(|leaves|, h) {
      NodeNotZero(leaves, PeakCoord(|leaves|, h));
    }
  }

  /** The peaks of heights below `k`, highest first. */
  ghost function PeakHashes(leaves: seq<Bytes>, k: nat): seq<Hash>
    decreases k
  {
    if k == 0 then []
    else (if Bit(|leaves|, k - 1) then [PeakHash(leaves, k - 1)] else []) + PeakHashes(leaves, k - 1)
  }

  ghost function PeaksLeftToRight(leaves: seq<Bytes>): seq<Hash> {
    PeakHashes(leaves, BitLen(|leaves|))
  }

  /** Zero entries are skipped, the rest is folded from the right. */
  function Bag(peaks: seq<Hash>): Hash {
    if peaks == [] then ZERO
    else
      var rest := Bag(peaks[1..]);
      if peaks[0] == ZERO then rest
      else if rest == ZERO then peaks[0]
      else HashBytes(peaks[0] + rest)
  }

  function BagWithSize(peaks: seq<Hash>, size: nat): Hash {
    HashBytes(LE64(size) + Bag(peaks))
  }

  // ----- the root, directly on the list of leaves -----

  /** The perfect tree over the `2^k` leaves from `lo` on. */
  ghost function Tree(leaves: seq<Bytes>, lo: nat, k: nat): Hash
    requires lo + Pow2(k) <= |leaves|
    decreases k
  {
    if k == 0 then LeafNode(LeafPos(lo), HashBytes(leaves[lo]))
    else
      ParentNode(LeafPos(lo + Pow2(k) - 1) + k,
                 Tree(leaves, lo, k - 1), Tree(leaves, lo + Pow2(k - 1), k - 1))
  }

  /** The range over the `n` leaves from `lo` on: the largest perfect tree that fits, then the rest. */
  ghost function Range(leaves: seq<Bytes>, lo: nat, n: nat): Hash
    requires lo + n <= |leaves|
    decreases n
  {
    if n == 0 then ZERO
    else
      TopBitOf(n);
      var k := BitLen(n) - 1;
      var first := Tree(leaves, lo, k);
      if n == Pow2(k) then first
      else HashBytes(first + Range(leaves, lo + Pow2(k), n - Pow2(k)))
  }

  ghost function RootOf(leaves: seq<Bytes>): Hash {
    if leaves == [] then ZERO
    else HashBytes(LE64(LeafPos(|leaves|)) + Range(leaves, 0, |leaves|))
  }

  lemma {:induction false} NodeUnfold(leaves: seq<Bytes>, c: Coord)
    requires ValidCoord(c) && c.leaf < |leaves|
    ensures c.height == 0 ==> NodeAt(leaves, c) == LeafNode(PosOf(c), HashBytes(leaves[c.leaf]))
    ensures c.height > 0 ==>
              NodeAt(leaves, c) == ParentNode(PosOf(c), NodeAt(leaves, LeftChild(c)), NodeAt(leaves, RightChild(c)))
  {
    hide CoordOf, TrailingOnes, ValidCoord, LeftChild, RightChild, LE64, HashBytes, Ones;
  }

  lemma {:induction false} TreeUnfold(leaves: seq<Bytes>, lo: nat, k: nat)
    requires k > 0 && lo + Pow2(k) <= |leaves|
    ensures Pow2(k) == 2 * Pow2(k - 1)
    ensures Tree(leaves, lo, k)
         == ParentNode(LeafPos(lo + 2 * Pow2(k - 1) - 1) + k,
                       Tree(leaves, lo, k - 1), Tree(leaves, lo + Pow2(k - 1), k - 1))
  {
    hide Ones, CoordOf, LE64, HashBytes, LeafPos, Pow2;
    Pow2Steps(k - 1);
  }

  lemma {:induction false} SingletonTree(leaves: seq<Bytes>, lo: nat)
    requires lo < |leaves|
    ensures Pow2(0) == 1
    ensures Tree(leaves, lo, 0) == LeafNode(LeafPos(lo), HashBytes(leaves[lo]))
  {
    hide Ones, CoordOf, LE64, HashBytes, LeafPos;
  }

  lemma {:induction false} TreeCoords(last: nat, k: nat)
    requires 0 < k <= TrailingOnes(last)
    ensures LeftChild(Coord(last, k)) == Coord(last - Pow2(k - 1), k - 1)
    ensures RightChild(Coord(last, k)) == Coord(last, k - 1)
    ensures Pow2(k - 1) <= last && k - 1 <= TrailingOnes(last - Pow2(k - 1))
  {
    hide Ones, CoordOf, Pow2, TrailingOnes;
    ClearTrailing(last, k - 1);
  }

  lemma {:induction false} TreeIsNode(leaves: seq<Bytes>, lo: nat, k: nat)
    requires lo + Pow2(k) <= |leaves|
    requires k <= TrailingOnes(lo + Pow2(k) - 1)
    ensures Tree(leaves, lo, k) == NodeAt(leaves, Coord(lo + Pow2(k) - 1, k))
    decreases k
  {
    hide CoordOf, Tree, NodeAt, Pow2, TrailingOnes, LE64, HashBytes, Ones, LeftChild, RightChild, LeafNode, ParentNode;
    var c := Coord(lo + Pow2(k) - 1, k);
    NodeUnfold(leaves, c);
    if k == 0 {
      SingletonTree(leaves, lo);
    } else {
      TreeUnfold(leaves, lo, k);
      TreeCoords(lo + Pow2(k) - 1, k);
      TreeIsNode(leaves, lo, k - 1);
      TreeIsNode(leaves, lo + Pow2(k - 1), k - 1);
    }
  }

  /** `n` modulo `2^k`: the number of leaves under the peaks of heights below `k`. */
  function Low(n: nat, k: nat): (r: nat)
    ensures r <= n
    decreases k
  {
    if k == 0 then 0 else n % 2 + 2 * Low(n / 2, k - 1)
  }

  lemma {:induction false} LowStep(n: nat, k: nat)
    ensures Low(n, k) < Pow2(k)
    ensures Low(n, k + 1) == Low(n, k) + (if Bit(n, k) then Pow2(k) else 0)
    decreases k
  {
    if k > 0 { LowStep(n / 2, k - 1); }
  }

  lemma {:induction false} LowAll(n: nat)
    ensures Low(n, BitLen(n)) == n
  {
    if n > 0 { LowAll(n / 2); }
  }

  lemma {:induction false} PeakLeafByLow(n: nat, h: nat)
    requires Bit(n, h)
    ensures PeakLeaf(n, h) == n - Low(n, h) - 1
    decreases h
  {
    if h > 0 { PeakLeafByLow(n / 2, h - 1); }
  }

  lemma {:induction false} RangeUnfold(leaves: seq<Bytes>, lo: nat, k: nat, m: nat)
    requires m < Pow2(k) && lo + Pow2(k) + m <= |leaves|
    ensures Range(leaves, lo, Pow2(k) + m)
         == if m == 0 then Tree(leaves, lo, k)
            else HashBytes(Tree(leaves, lo, k) + Range(leaves, lo + Pow2(k), m))
  {
    hide CoordOf, Pow2, HashBytes, Tree, BitLen, Ones;
    TopBit(k, m);
  }

  lemma {:induction false} LowSplit(n: nat, k: nat)
    requires Bit(n, k)
    ensures Low(n, k) < Pow2(k)
    ensures Low(n, k + 1) == Pow2(k) + Low(n, k)
    ensures PeakLeaf(n, k) == n - Low(n, k) - 1
  {
    hide Ones, CoordOf, Low, PeakLeaf, Pow2, Bit;
    LowStep(n, k);
    PeakLeafByLow(n, k);
  }

  lemma {:induction false} RangeStep(leaves: seq<Bytes>, k: nat, m: nat)
    requires Bit(|leaves|, k) && m == Low(|leaves|, k)
    ensures m < Pow2(k) && Pow2(k) + m <= |leaves|
    ensures Range(leaves, |leaves| - Pow2(k) - m, Pow2(k) + m)
         == if m == 0 then PeakHash(leaves, k)
            else HashBytes(PeakHash(leaves, k) + Range(leaves, |leaves| - m, m))
  {
    hide Ones, CoordOf, Low, PeakLeaf, Pow2, Bit, Range, Tree, NodeAt, HashBytes, TrailingOnes, LeafPos;
    LowSplit(|leaves|, k);
    assert Low(|leaves|, k + 1) <= |leaves|;
    var lo := |leaves| - Pow2(k) - m;
    RangeUnfold(leaves, lo, k, m);
    TreeIsNode(leaves, lo, k);
  }

  lemma {:induction false} BagCons(first: Hash, rest: seq<Hash>)
    requires first != ZERO
    ensures Bag([first] + rest) == if Bag(rest) == ZERO then first else HashBytes(first + Bag(rest))
  {
    assert ([first] + rest)[1..] == rest;
  }

  lemma {:induction false} PeakHashesStep(leaves: seq<Bytes>, k: nat)
    ensures PeakHashes(leaves, k + 1)
         == if Bit(|leaves|, k) then [PeakHash(leaves, k)] + PeakHashes(leaves, k) else PeakHashes(leaves, k)
  {
    hide Ones, CoordOf, Bit, PeakHash;
  }

  lemma {:induction false} BagIsRange(leaves: seq<Bytes>, k: nat)
    ensures Bag(PeakHashes(leaves, k)) == Range(leaves, |leaves| - Low(|leaves|, k), Low(|leaves|, k))
    ensures Low(|leaves|, k) != 0 ==> Bag(PeakHashes(leaves, k)) != ZERO
    decreases k
  {
    hide *;
    var n := |leaves|;
    EmptyRange(leaves, n);
    if k > 0 {
      BagIsRange(leaves, k - 1);
      PeakHashesStep(leaves, k - 1);
      LowStep(n, k - 1);
      if Bit(n, k - 1) {
        RangeStep(leaves, k - 1, Low(n, k - 1));
        PeakIsZero(leaves, k - 1);
        BagCons(PeakHash(leaves, k - 1), PeakHashes(leaves, k - 1));
      }
    }
  }

  lemma {:induction false} EmptyRange(leaves: seq<Bytes>, lo: nat)
    requires lo <= |leaves|
    ensures Range(leaves, lo, 0) == ZERO
    ensures Bag(PeakHashes(leaves, 0)) == ZERO && Low(|leaves|, 0) == 0
  {
  }

  /** Bagging the peaks left to right gives the root of the leaf list. */
  lemma {:induction false} BaggedPeaksAreTheRoot(leaves: seq<Bytes>)
    requires leaves != []
    ensures BagWithSize(PeaksLeftToRight(leaves), LeafPos(|leaves|)) == RootOf(leaves)
  {
    hide Ones, CoordOf, Bag, Range, LE64, HashBytes, LeafPos, BitLen, Low, PeakHashes;
    LowAll(|leaves|);
    BagIsRange(leaves, BitLen(|leaves|));
  }

  // ----- the root determines the leaves -----

  lemma {:induction false} TreeBinding(a: seq<Bytes>, b: seq<Bytes>, lo: nat, k: nat)
    requires lo + Pow2(k) <= |a| && |a| == |b|
    requires Tree(a, lo, k) == Tree(b, lo, k)
    ensures forall i :: lo <= i < lo + Pow2(k) ==> a[i] == b[i]
    decreases k
  {
    hide Ones, CoordOf, Tree, Pow2, LE64, HashBytes, LeafPos;
    if k == 0 {
      SingletonTree(a, lo);
      SingletonTree(b, lo);
      LeafNodeInjective(LeafPos(lo), HashBytes(a[lo]), LeafPos(lo), HashBytes(b[lo]));
      HashInjective(a[lo], b[lo]);
    } else {
      TreeUnfold(a, lo, k);
      TreeUnfold(b, lo, k);
      var pos, mid := LeafPos(lo + Pow2(k) - 1) + k, lo + Pow2(k - 1);
      ParentNodeInjective(pos, Tree(a, lo, k - 1), Tree(a, mid, k - 1),
                          pos, Tree(b, lo, k - 1), Tree(b, mid, k - 1));
      TreeBinding(a, b, lo, k - 1);
      TreeBinding(a, b, mid, k - 1);
    }
  }

  lemma {:induction false} RangeBinding(a: seq<Bytes>, b: seq<Bytes>, lo: nat, n: nat)
    requires lo + n <= |a| && |a| == |b|
    requires Range(a, lo, n) == Range(b, lo, n)
    ensures forall i :: lo <= i < lo + n ==> a[i] == b[i]
    decreases n
  {
    hide Ones, CoordOf, Tree, Pow2, LE64, HashBytes, LeafPos, BitLen, Range;
    if n > 0 {
      TopBitOf(n);
      var k := BitLen(n) - 1;
      var m := n - Pow2(k);
      RangeUnfold(a, lo, k, m);
      RangeUnfold(b, lo, k, m);
      if m > 0 {
        var restA, restB := Range(a, lo + Pow2(k), m), Range(b, lo + Pow2(k), m);
        HashInjective(Tree(a, lo, k) + restA, Tree(b, lo, k) + restB);
        SplitUnique(Tree(a, lo, k), restA, Tree(b, lo, k), restB);
        RangeBinding(a, b, lo + Pow2(k), m);
      }
      TreeBinding(a, b, lo, k);
    }
  }

  /** Two leaf lists with the same root are the same list, whatever their lengths. */
  lemma {:induction false} RootBinding(a: seq<Bytes>, b: seq<Bytes>)
    requires |a| <= MAX_LEAVES && |b| <= MAX_LEAVES
    requires RootOf(a) == RootOf(b)
    ensures a == b
  {
    hide Ones, CoordOf, Range, LE64, HashBytes, LeafPos;
    if a != [] && b != [] {
      var sizeA, sizeB := LeafPos(|a|), LeafPos(|b|);
      var restA, restB := Range(a, 0, |a|), Range(b, 0, |b|);
      HashInjective(LE64(sizeA) + restA, LE64(sizeB) + restB);
      SplitUnique(LE64(sizeA), restA, LE64(sizeB), restB);
      SizeBound(|a|);
      SizeBound(|b|);
      LE64Injective(sizeA, sizeB);
      LeafPosInjective(|a|, |b|);
      RangeBinding(a, b, 0, |a|);
    }
  }

  lemma {:induction false} SizeBound(n: nat)
    requires n <= MAX_LEAVES
    ensures LeafPos(n) <= TWO63
  {
    hide CoordOf, Ones;
  }

  // ----- what is hashed -----

  /** The node of a leaf is the hash of its position and the hash of the leaf. */
  lemma {:induction false} LeafPreimage(leaves: seq<Bytes>, i: nat)
    requires i < |leaves|
    ensures var pos := 2 * i - Ones(i);
            pos in NodesOf(leaves) && NodesOf(leaves)[pos] == HashBytes(LE64(pos) + HashBytes(leaves[i]))
  {
    hide Ones, CoordOf, TrailingOnes, LE64, HashBytes, NodeAt;
    var c := Coord(i, 0);
    StoredNode(leaves, c);
    NodeUnfold(leaves, c);
  }

  /** An inner node is the hash of its position, its left child and its right child: the child just before it, and the
      one a perfect tree before that. */
  lemma {:induction false} ParentPreimage(leaves: seq<Bytes>, c: Coord)
    requires ValidCoord(c) && c.leaf < |leaves| && c.height > 0
    ensures var nodes, pos := NodesOf(leaves), PosOf(c);
            && pos >= Pow2(c.height) && pos - Pow2(c.height) in nodes && pos - 1 in nodes && pos in nodes
            && nodes[pos] == HashBytes(LE64(pos) + nodes[pos - Pow2(c.height)] + nodes[pos - 1])
  {
    hide Ones, CoordOf, TrailingOnes, LE64, HashBytes, NodeAt, NodesOf, LeafPos, Pow2;
    StoredNode(leaves, c);
    NodeUnfold(leaves, c);
    ChildrenStand(c);
    StoredNode(leaves, LeftChild(c));
    StoredNode(leaves, RightChild(c));
  }

  /** Where the children of a node are. */
  lemma {:induction false} ChildrenStand(c: Coord)
    requires ValidCoord(c) && c.height > 0
    ensures PosOf(RightChild(c)) == PosOf(c) - 1 && PosOf(LeftChild(c)) == PosOf(c) - Pow2(c.height)
    ensures LeftChild(c).leaf <= c.leaf && RightChild(c).leaf == c.leaf
  {
    hide Ones, CoordOf, LeafPos, TrailingOnes, Pow2;
    var right := RightChild(c);
    FamilyDistances(right);
    SiblingsAgree(right);
    ChildOf(c);
    Pow2Steps(c.height - 1);
  }

  lemma {:induction false} ChildOf(c: Coord)
    requires ValidCoord(c) && c.height > 0
    ensures IsRightChild(RightChild(c)) && ParentOf(RightChild(c)) == c && SiblingOf(RightChild(c)) == LeftChild(c)
  {
    hide Ones, Pow2, TrailingOnes;
  }

  /** `accums` folds the peaks from the right: the last one stands for itself, each other one is hashed with what is
      to its right. */
  ghost predicate FoldsRight(peaks: seq<Hash>, accums: seq<Hash>) {
    && |accums| == |peaks| > 0 && accums[|peaks| - 1] == peaks[|peaks| - 1]
    && forall i :: 0 <= i < |peaks| - 1 ==> accums[i] == HashBytes(Raw(peaks[i]) + Raw(accums[i + 1]))
  }

  lemma {:induction false} BagFolds(peaks: seq<Hash>, accums: seq<Hash>)
    requires FoldsRight(peaks, accums) && ZERO !in peaks
    ensures Bag(peaks) == accums[0] && accums[0] != ZERO
  {
    hide HashBytes;
    assert peaks[0] in peaks;
    if |peaks| > 1 {
      assert forall i :: 0 <= i < |peaks| - 1 ==> accums[1..][i] == accums[i + 1] && peaks[1..][i] == peaks[i + 1];
      BagFolds(peaks[1..], accums[1..]);
    } else {
      assert peaks[1..] == [];
    }
  }

  lemma {:induction false} NoZeroPeaks(leaves: seq<Bytes>, k: nat)
    ensures ZERO !in PeakHashes(leaves, k)
  {
    hide PeakHash, Bit;
    if k > 0 {
      NoZeroPeaks(leaves, k - 1);
      PeakIsZero(leaves, k - 1);
    }
  }

  /** The root is the hash of the size and of the peaks, folded from the right. */
  lemma {:induction false} RootPreimage(leaves: seq<Bytes>, accums: seq<Hash>)
    requires leaves != [] && FoldsRight(PeaksLeftToRight(leaves), accums)
    ensures RootOf(leaves) == HashBytes(LE64(2 * |leaves| - Ones(|leaves|)) + accums[0])
  {
    hide HashBytes, LE64, Bag, RootOf, PeakHashes, Ones, FoldsRight;
    BaggedPeaksAreTheRoot(leaves);
    NoZeroPeaks(leaves, BitLen(|leaves|));
    BagFolds(PeaksLeftToRight(leaves), accums);
  }

  // ----- the leaf index map -----

  /** Position of the latest occurrence of each leaf hash. */
  function LeafIndexesOf(leaves: seq<Bytes>): map<Hash, nat> {
    if leaves == [] then map[]
    else LeafIndexesOf(leaves[..|leaves| - 1])[HashBytes(leaves[|leaves| - 1]) := |leaves| - 1]
  }

  // ----- one append -----

  lemma {:induction false} NodesExtend(leaves: seq<Bytes>, c: Coord)
    requires ValidCoord(c) && c.leaf < |leaves|
    ensures PosOf(c) < LeafPos(|leaves|)
    ensures NodesUpTo(leaves, PosOf(c) + 1) == NodesUpTo(leaves, PosOf(c))[PosOf(c) := NodeAt(leaves, c)]
  {
    hide Ones, CoordOf, LeafPos, TrailingOnes, NodeAt, NodeAtPos;
    NodeAtCoord(leaves, c);
  }

  /** One turn of the carry loop: the carried tree of height `h` and the peak of that height merge
      into the next node of leaf `n`. */
  lemma {:induction false} CarryMerges(leaves: seq<Bytes>, leaf: Bytes, h: nat)
    requires h <= TrailingOnes(|leaves|) && Bit(|leaves|, h)
    ensures h < TrailingOnes(|leaves|)
    ensures NodeAt(leaves + [leaf], Coord(|leaves|, h + 1))
         == ParentNode(LeafPos(|leaves|) + h + 1, PeakHash(leaves, h), NodeAt(leaves + [leaf], Coord(|leaves|, h)))
  {
    hide CoordOf, LE64, HashBytes, TrailingOnes, Ones, Pow2, Bit, NodeAt, LeftChild, RightChild, ParentNode;
    var all, n := leaves + [leaf], |leaves|;
    BitAtTrailing(n, h);
    NodeUnfold(all, Coord(n, h + 1));
    TreeCoords(n, h + 1);
    MergedPeak(n, h);
    NodePersists(leaves, [leaf], PeakCoord(n, h));
  }

  lemma {:induction false} MergedPeak(n: nat, h: nat)
    requires h < TrailingOnes(n) && Bit(n, h)
    ensures Pow2(h) <= n && PeakLeaf(n, h) == n - Pow2(h)
    decreases h
  {
    if h > 0 { MergedPeak(n / 2, h - 1); }
  }

  /** The peak array after the carry has stopped. */
  lemma {:induction false} CarryStops(leaves: seq<Bytes>, leaf: Bytes, before: seq<Hash>, after: seq<Hash>, h: nat)
    requires h == TrailingOnes(|leaves|)
    requires |before| == BitLen(|leaves|)
    requires forall j :: 0 <= j < h && j < |before| ==> before[j] == ZERO
    requires forall j :: h <= j < |before| ==> before[j] == PeakHash(leaves, j)
    requires var carry := NodeAt(leaves + [leaf], Coord(|leaves|, h));
             if h < |before| then after == before[h := carry] else after == before + [carry]
    ensures after == PeaksOf(leaves + [leaf])
  {
    hide Ones, CoordOf, NodeAt, TrailingOnes, BitLen, Bit, PeakLeaf, PeaksOf;
    var all, n := leaves + [leaf], |leaves|;
    BitLenOfSuccessor(n);
    assert |after| == BitLen(n + 1);
    forall j: nat | j < |after|
      ensures after[j] == PeakHash(all, j)
    {
      BitOfSuccessor(n, j);
      if Bit(n + 1, j) {
        PeakLeafOfSuccessor(n, j);
        if j > h {
          NodePersists(leaves, [leaf], PeakCoord(n, j));
        }
      }
    }
  }

  lemma {:induction false} LastLeafIndex(leaves: seq<Bytes>, leaf: Bytes)
    ensures var li, h := LeafIndexesOf(leaves), HashBytes(leaf);
            && (h in li <==> leaf in leaves)
            && (h in li ==> li[h] < |leaves| && leaves[li[h]] == leaf && leaf !in leaves[li[h] + 1..])
  {
    hide HashBytes;
    if leaves != [] {
      var n := |leaves| - 1;
      LastLeafIndex(leaves[..n], leaf);
      assert leaves == leaves[..n] + [leaves[n]];
      if HashBytes(leaf) == HashBytes(leaves[n]) {
        HashInjective(leaf, leaves[n]);
      } else if leaf in leaves[..n] {
        var i := LeafIndexesOf(leaves[..n])[HashBytes(leaf)];
        assert leaves[i + 1..] == leaves[..n][i + 1..] + [leaves[n]];
      }
    }
  }

  class MMR {
    var peaks: seq<Hash>
    var nodes: map<nat, Hash>
    var leafIndexes: map<Hash, nat>
    var numLeaves: nat
    var size: nat

    /** The fields are those of the mountain range over `leaves`. */
    ghost predicate Represents(leaves: seq<Bytes>)
      reads this
    {
      && |leaves| <= MAX_LEAVES
      && numLeaves == |leaves|
      && size == LeafPos(|leaves|)
      && peaks == PeaksOf(leaves)
      && nodes == NodesOf(leaves)
    }

    constructor ()
      ensures Represents([]) && leafIndexes == LeafIndexesOf([])
    {
      peaks, nodes, leafIndexes, numLeaves, size := [], map[], map[], 0, 0;
    }

    /** Finds exactly the leaves that were added, each at the place where it was added last. */
    method LeafIndex(leaf: Bytes, ghost leaves: seq<Bytes>) returns (found: bool, index: nat)
      requires leafIndexes == LeafIndexesOf(leaves)
      ensures found <==> leaf in leaves
      ensures found ==> index < |leaves| && leaves[index] == leaf && leaf !in leaves[index + 1..]
    {
      hide HashBytes, LeafIndexesOf;
      LastLeafIndex(leaves, leaf);
      var leafHash := HashBytes(leaf);
      if leafHash !in leafIndexes {
        return false, 0;
      }
      return true, leafIndexes[leafHash];
    }

    method PeaksLR(ghost leaves: seq<Bytes>) returns (result: seq<Hash>)
      requires Represents(leaves)
      ensures result == PeaksLeftToRight(leaves)
    {
      hide Ones, CoordOf, PeakHash, Bit, BitLen, LeafPos, NodesOf;
      result := [];
      for h := 0 to |peaks|
        invariant result == PeakHashes(leaves, h)
      {
        PeakIsZero(leaves, h);
        PeakHashesStep(leaves, h);
        if peaks[h] != ZERO {
          result := [peaks[h]] + result;
        }
      }
    }

    method Root(ghost leaves: seq<Bytes>) returns (root: Hash)
      requires Represents(leaves)
      ensures root == RootOf(leaves)
      ensures leaves == [] ==> root == ZERO
    {
      hide Ones, CoordOf, LE64, HashBytes, PeaksLeftToRight, Range, BagWithSize, NodesOf, PeaksOf;
      EmptySize(|leaves|);
      if size == 0 {
        return ZERO;
      }
      var lr := PeaksLR(leaves);
      root := BagPeaksWithSize(lr, size);
      BaggedPeaksAreTheRoot(leaves);
    }

    method AddLeaf(leaf: Bytes, ghost leaves: seq<Bytes>) returns (root: Hash)
      requires Represents(leaves) && |leaves| < MAX_LEAVES
      modifies this
      ensures Represents(leaves + [leaf])
      ensures leafIndexes == old(leafIndexes)[HashBytes(leaf) := old(numLeaves)]
      ensures root == RootOf(leaves + [leaf])
    {
      hide CoordOf, LeafNode, ParentNode, HashBytes, NodeAt, PeaksOf, PeakHash, TrailingOnes, BitLen, Bit, LeafPos,
        NodesUpTo, RootOf;
      ghost var all, n := leaves + [leaf], |leaves|;
      var leafHash := HashBytes(leaf);
      var leafIndex := numLeaves;
      var leafPos := size;
      size := size + 1;

      var leafPosHash := LeafNode(leafPos, leafHash);
      NodeUnfold(all, Coord(n, 0));
      NodesPersist(leaves, [leaf]);
      NodesExtend(all, Coord(n, 0));
      nodes := nodes[leafPos := leafPosHash];
      leafIndexes := leafIndexes[leafHash := leafIndex];

      var carry := leafPosHash;
      var height := 0;
      BitLenOfSuccessor(n);
      NextLeafPos(n);

      while true
        invariant height <= TrailingOnes(n)
        invariant size == LeafPos(n) + height + 1 <= LeafPos(n + 1)
        invariant carry == NodeAt(all, Coord(n, height))
        invariant nodes == NodesUpTo(all, size)
        invariant |peaks| == BitLen(n)
        invariant forall j :: 0 <= j < height && j < |peaks| ==> peaks[j] == ZERO
        invariant forall j :: height <= j < |peaks| ==> peaks[j] == PeakHash(leaves, j)
        invariant numLeaves == n
        invariant leafIndexes == old(leafIndexes)[leafHash := leafIndex]
        decreases |peaks| - height
      {
        ghost var before := peaks;
        BitAtTrailing(n, height);
        BitsWithinLength(n, height);
        PeakIsZero(leaves, height);
        if height >= |peaks| {
          peaks := peaks + [carry];
          CarryStops(leaves, leaf, before, peaks, height);
          break;
        }
        if peaks[height] == ZERO {
          peaks := peaks[height := carry];
          CarryStops(leaves, leaf, before, peaks, height);
          break;
        }

        var leftHash := peaks[height];
        var rightHash := carry;
        var parentPos := size;
        size := size + 1;
        var parentHash := ParentNode(parentPos, leftHash, rightHash);
        CarryMerges(leaves, leaf, height);
        NodesExtend(all, Coord(n, height + 1));
        nodes := nodes[parentPos := parentHash];
        peaks := peaks[height := ZERO];
        carry := parentHash;
        height := height + 1;
      }

      numLeaves := numLeaves + 1;
      root := Root(all);
    }
  }

  lemma {:induction false} EmptySize(n: nat)
    ensures LeafPos(n) == 0 <==> n == 0
  {
    if n > 0 { LeafPosMonotone(0, n); }
  }

  method BagPeaks(peaks: seq<Hash>) returns (accum: Hash)
    ensures accum == Bag(peaks)
  {
    accum := ZERO;
    var i := |peaks|;
    while i > 0
      invariant 0 <= i <= |peaks|
      invariant accum == Bag(peaks[i..])
    {
      i := i - 1;
      var peak := peaks[i];
      assert peaks[i..][1..] == peaks[i + 1..];
      if peak != ZERO {
        if accum == ZERO {
          accum := peak;
        } else {
          accum := HashBytes(peak + accum);
        }
      }
    }
  }

  method BagPeaksWithSize(peaks: seq<Hash>, size: nat) returns (root: Hash)
    ensures root == BagWithSize(peaks, size)
  {
    var peaksRoot := BagPeaks(peaks);
    root := HashBytes(LE64(size) + peaksRoot);
  }
}
