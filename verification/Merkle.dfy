/** The Merkle root of a list: leaves are hashed with their index, then levels are paired up, an odd
    last node being paired with itself. */
module Merkle {
  import opened Octets
  import opened Wrappers

  /** The hash of leaf `i`. */
  function IndexedLeaf(i: nat, leaf: Bytes): Hash {
    HashBytes(LE64(i) + leaf)
  }

  function IndexedLeaves(leaves: seq<Bytes>): (s: seq<Hash>)
    ensures |s| == |leaves|
    ensures forall i :: 0 <= i < |s| ==> s[i] == IndexedLeaf(i, leaves[i])
  {
    seq(|leaves|, (i: nat) requires i < |leaves| => IndexedLeaf(i, leaves[i]))
  }

  /** Node `i` of the next level. */
  function PairAt(nodes: seq<Hash>, i: nat): Hash
    requires 2 * i < |nodes|
  {
    HashPair(nodes[2 * i], if 2 * i + 1 < |nodes| then nodes[2 * i + 1] else nodes[2 * i])
  }

  function NextLevel(nodes: seq<Hash>): (s: seq<Hash>)
    ensures |s| == (|nodes| + 1) / 2
    ensures forall i :: 0 <= i < |s| ==> s[i] == PairAt(nodes, i)
  {
    seq((|nodes| + 1) / 2, (i: nat) requires i < (|nodes| + 1) / 2 => PairAt(nodes, i))
  }

  function Top(nodes: seq<Hash>): Hash
    requires nodes != []
    decreases |nodes|
  {
    if |nodes| == 1 then nodes[0] else Top(NextLevel(nodes))
  }

  function MerkleRoot(leaves: seq<Bytes>): Hash {
    if leaves == [] then ZERO else Top(IndexedLeaves(leaves))
  }

  // ----- the root, directly on the list -----

  /** The number of nodes `k` levels above `n` leaves. */
  function Width(n: nat, k: nat): nat {
    if k == 0 then n else (Width(n, k - 1) + 1) / 2
  }

  /** Node `i`, `k` levels above the leaves: a leaf is hashed after its index in eight bytes, the least significant
      first; above, the left child is hashed before the right one, or before itself where there is no right one. */
  ghost function NodeOver(leaves: seq<Bytes>, k: nat, i: nat): Hash
    requires i < Width(|leaves|, k)
    decreases k
  {
    if k == 0 then HashBytes(LE64(i) + leaves[i])
    else
      var left := NodeOver(leaves, k - 1, 2 * i);
      var right := if 2 * i + 1 < Width(|leaves|, k - 1) then NodeOver(leaves, k - 1, 2 * i + 1) else left;
      HashBytes(Raw(left) + Raw(right))
  }

  /** The nodes `k` levels above the leaves. */
  ghost predicate IsLevel(leaves: seq<Bytes>, nodes: seq<Hash>, k: nat) {
    |nodes| == Width(|leaves|, k) && forall i :: 0 <= i < |nodes| ==> nodes[i] == NodeOver(leaves, k, i)
  }

  lemma {:induction false} LevelUp(leaves: seq<Bytes>, nodes: seq<Hash>, k: nat)
    requires IsLevel(leaves, nodes, k)
    ensures IsLevel(leaves, NextLevel(nodes), k + 1)
  {
    hide HashBytes, LE64;
    var next := NextLevel(nodes);
    forall i | 0 <= i < |next|
      ensures next[i] == NodeOver(leaves, k + 1, i)
    {
      assert next[i] == PairAt(nodes, i);
    }
  }

  lemma {:induction false} WidthNext(n: nat, k: nat)
    ensures Width((n + 1) / 2, k) == Width(n, k + 1)
  {
    if k > 0 { WidthNext(n, k - 1); }
  }

  /** How far above `n` leaves there is only one node. */
  function Levels(n: nat): (k: nat)
    requires n > 0
    ensures Width(n, k) == 1
  {
    if n == 1 then 0
    else
      var k := Levels((n + 1) / 2);
      WidthNext(n, k);
      k + 1
  }

  lemma {:induction false} BaseLevel(leaves: seq<Bytes>)
    ensures IsLevel(leaves, IndexedLeaves(leaves), 0)
  {
    hide HashBytes, LE64;
  }

  /** The root is the node over the whole list. */
  lemma {:induction false} RootOverList(leaves: seq<Bytes>)
    requires leaves != []
    ensures MerkleRoot(leaves) == NodeOver(leaves, Levels(|leaves|), 0)
  {
    hide NodeOver, Width, Top, IndexedLeaves, IsLevel;
    BaseLevel(leaves);
    LevelsLead(leaves, IndexedLeaves(leaves), 0);
  }

  lemma {:induction false} LevelsLead(leaves: seq<Bytes>, nodes: seq<Hash>, k: nat)
    requires nodes != [] && IsLevel(leaves, nodes, k)
    ensures Width(|leaves|, k + Levels(|nodes|)) == 1
    ensures Top(nodes) == NodeOver(leaves, k + Levels(|nodes|), 0)
    decreases |nodes|
  {
    hide NodeOver, Width, NextLevel;
    if |nodes| > 1 {
      LevelUp(leaves, nodes, k);
      LevelsLead(leaves, NextLevel(nodes), k + 1);
    }
  }

  /** The root is the zero hash for the empty list, and else the node over the whole list. */
  method CalculateMerkleRoot(leaves: seq<Bytes>) returns (root: Hash)
    ensures root == MerkleRoot(leaves)
    ensures leaves == [] ==> root == ZERO
    ensures leaves != [] ==> root == NodeOver(leaves, Levels(|leaves|), 0)
  {
    hide IndexedLeaf, PairAt, Width, NodeOver;
    if |leaves| == 0 {
      return ZERO;
    }
    var nodes: seq<Hash> := [];
    for i := 0 to |leaves|
      invariant |nodes| == i
      invariant forall j :: 0 <= j < i ==> nodes[j] == IndexedLeaf(j, leaves[j])
    {
      nodes := nodes + [IndexedLeaf(i, leaves[i])];
    }
    assert nodes == IndexedLeaves(leaves);

    while |nodes| > 1
      invariant nodes != []
      invariant Top(nodes) == MerkleRoot(leaves)
      decreases |nodes|
    {
      var newNodes: seq<Hash> := [];
      var i := 0;
      while i < |nodes|
        invariant i == 2 * |newNodes| <= |nodes| + 1
        invariant forall j :: 0 <= j < |newNodes| ==> newNodes[j] == PairAt(nodes, j)
      {
        var left := nodes[i];
        var right := left;
        if i + 1 < |nodes| {
          right := nodes[i + 1];
        }
        PairAtMeans(nodes, |newNodes|, left, right);
        newNodes := newNodes + [HashPair(left, right)];
        i := i + 2;
      }
      assert newNodes == NextLevel(nodes);
      nodes := newNodes;
    }
    root := nodes[0];
    RootOverList(leaves);
  }

  lemma {:induction false} PairAtMeans(nodes: seq<Hash>, i: nat, left: Hash, right: Hash)
    requires 2 * i < |nodes| && left == nodes[2 * i]
    requires right == if 2 * i + 1 < |nodes| then nodes[2 * i + 1] else nodes[2 * i]
    ensures PairAt(nodes, i) == HashPair(left, right)
  {
  }

  // ----- the root determines the list -----

  /** `h` is a node `k` levels above the leaves: only leaf preimages are not 64 bytes long. */
  ghost predicate AtLevel(h: Hash, k: nat) {
    && h[0].Dig?
    && var pre := h[0].preimage;
       if k == 0 then |pre| != 64
       else |pre| == 64 && AtLevel(pre[..32], k - 1) && AtLevel(pre[32..], k - 1)
  }

  lemma {:induction false} LevelUnique(h: Hash, j: nat, k: nat)
    requires AtLevel(h, j) && AtLevel(h, k)
    ensures j == k
    decreases k
  {
    if j > 0 && k > 0 { LevelUnique(h[0].preimage[..32], j - 1, k - 1); }
  }

  lemma {:induction false} PairLevel(left: Hash, right: Hash, k: nat)
    requires AtLevel(left, k) && AtLevel(right, k)
    ensures AtLevel(HashPair(left, right), k + 1)
  {
    var l: Bytes := left;
    assert (l + right)[..32] == left && (l + right)[32..] == right;
  }

  ghost predicate AllAtLevel(nodes: seq<Hash>, k: nat) {
    forall i :: 0 <= i < |nodes| ==> AtLevel(nodes[i], k)
  }

  lemma {:induction false} PairInjective(a: seq<Hash>, i: nat, b: seq<Hash>, j: nat)
    requires 2 * i < |a| && 2 * j < |b| && PairAt(a, i) == PairAt(b, j)
    ensures a[2 * i] == b[2 * j]
    ensures (if 2 * i + 1 < |a| then a[2 * i + 1] else a[2 * i]) == (if 2 * j + 1 < |b| then b[2 * j + 1] else b[2 * j])
  {
    var p := if 2 * i + 1 < |a| then a[2 * i + 1] else a[2 * i];
    var q := if 2 * j + 1 < |b| then b[2 * j + 1] else b[2 * j];
    HashPairInjective(a[2 * i], p, b[2 * j], q);
  }

  lemma {:induction false} NextLevelKeeps(nodes: seq<Hash>, k: nat)
    requires AllAtLevel(nodes, k) && Distinct(nodes)
    ensures AllAtLevel(NextLevel(nodes), k + 1) && Distinct(NextLevel(nodes))
  {
    hide AtLevel, NextLevel;
    var next := NextLevel(nodes);
    forall i | 0 <= i < |next|
      ensures AtLevel(next[i], k + 1)
    {
      PairLevel(nodes[2 * i], if 2 * i + 1 < |nodes| then nodes[2 * i + 1] else nodes[2 * i], k);
    }
    forall i, j | 0 <= i < j < |next|
      ensures next[i] != next[j]
    {
      if next[i] == next[j] { PairInjective(nodes, i, nodes, j); }
    }
  }

  /** Pairing loses nothing on lists without repetition: a duplicated last node would be the
      repetition of its left neighbour. */
  lemma {:induction false} NextLevelInjective(a: seq<Hash>, b: seq<Hash>)
    requires Distinct(a) && Distinct(b) && NextLevel(a) == NextLevel(b)
    ensures a == b
  {
    hide PairAt;
    forall i | 0 <= i < |NextLevel(a)|
      ensures a[2 * i] == b[2 * i]
      ensures 2 * i + 1 < |a| <==> 2 * i + 1 < |b|
      ensures 2 * i + 1 < |a| ==> a[2 * i + 1] == b[2 * i + 1]
    {
      assert PairAt(a, i) == PairAt(b, i) by { assert NextLevel(a)[i] == NextLevel(b)[i]; }
      PairInjective(a, i, b, i);
    }
    if a != [] {
      var last := |NextLevel(a)| - 1;
      assert 2 * last + 1 < |a| <==> 2 * last + 1 < |b|;
    }
    assert |a| == |b|;
    forall i | 0 <= i < |a|
      ensures a[i] == b[i]
    {
      var h := i / 2;
      assert i == 2 * h || i == 2 * h + 1;
    }
  }

  lemma {:induction false} TopLevel(nodes: seq<Hash>, k: nat) returns (d: nat)
    requires nodes != [] && AllAtLevel(nodes, k) && Distinct(nodes)
    ensures AtLevel(Top(nodes), k + d)
    ensures |nodes| > 1 ==> d > 0
    decreases |nodes|
  {
    hide AtLevel, NextLevel;
    d := 0;
    if |nodes| > 1 {
      NextLevelKeeps(nodes, k);
      d := TopLevel(NextLevel(nodes), k + 1);
      d := d + 1;
    }
  }

  lemma {:induction false} TopInjective(a: seq<Hash>, b: seq<Hash>, k: nat)
    requires a != [] && b != []
    requires AllAtLevel(a, k) && AllAtLevel(b, k) && Distinct(a) && Distinct(b)
    requires Top(a) == Top(b)
    ensures a == b
    decreases |a|
  {
    hide AtLevel, NextLevel;
    var d := TopLevel(a, k);
    var e := TopLevel(b, k);
    LevelUnique(Top(a), k + d, k + e);
    if |a| > 1 && |b| > 1 {
      NextLevelKeeps(a, k);
      NextLevelKeeps(b, k);
      TopInjective(NextLevel(a), NextLevel(b), k + 1);
      NextLevelInjective(a, b);
    } else if |a| == 1 && |b| > 1 {
      LevelUnique(Top(a), k, k + e);
    } else if |b| == 1 && |a| > 1 {
      LevelUnique(Top(b), k, k + d);
    }
  }

  lemma {:induction false} IndexedLeavesAreBase(leaves: seq<Bytes>)
    requires |leaves| <= TWO64 && forall i :: 0 <= i < |leaves| ==> |leaves[i]| != 56
    ensures AllAtLevel(IndexedLeaves(leaves), 0) && Distinct(IndexedLeaves(leaves))
  {
    hide LE64;
    var s := IndexedLeaves(leaves);
    forall i, j | 0 <= i < j < |s|
      ensures s[i] != s[j]
    {
      if s[i] == s[j] { IndexedLeafInjective(i, leaves[i], j, leaves[j]); }
    }
  }

  lemma {:induction false} IndexedLeafInjective(i: nat, a: Bytes, j: nat, b: Bytes)
    requires i < TWO64 && j < TWO64 && IndexedLeaf(i, a) == IndexedLeaf(j, b)
    ensures i == j && a == b
  {
    hide LE64;
    HashInjective(LE64(i) + a, LE64(j) + b);
    SplitUnique(LE64(i), a, LE64(j), b);
    LE64RoundTrip(i);
    LE64RoundTrip(j);
  }

  /** Equal roots mean equal lists, of equal length, although an odd last node is duplicated. The
      only excluded leaf width is 56 bytes, where an indexed leaf would be as long as a pair. */
  lemma {:induction false} MerkleBinding(a: seq<Bytes>, b: seq<Bytes>)
    requires |a| <= TWO64 && |b| <= TWO64
    requires forall i :: 0 <= i < |a| ==> |a[i]| != 56
    requires forall i :: 0 <= i < |b| ==> |b[i]| != 56
    requires MerkleRoot(a) == MerkleRoot(b)
    ensures a == b
  {
    hide Top, IndexedLeaf, AtLevel;
    RootZeroMeansEmpty(a);
    RootZeroMeansEmpty(b);
    if a != [] && b != [] {
      IndexedLeavesAreBase(a);
      IndexedLeavesAreBase(b);
      TopInjective(IndexedLeaves(a), IndexedLeaves(b), 0);
      forall i | 0 <= i < |a|
        ensures a[i] == b[i]
      {
        IndexedLeafInjective(i, a[i], i, b[i]);
      }
    }
  }

  lemma {:induction false} TopNotZero(nodes: seq<Hash>)
    requires nodes != [] && forall i :: 0 <= i < |nodes| ==> nodes[i] != ZERO
    ensures Top(nodes) != ZERO
    decreases |nodes|
  {
    if |nodes| > 1 { TopNotZero(NextLevel(nodes)); }
  }

  /** The zero hash stands for the empty list only. */
  lemma {:induction false} RootZeroMeansEmpty(leaves: seq<Bytes>)
    ensures MerkleRoot(leaves) == ZERO <==> leaves == []
  {
    if leaves != [] { TopNotZero(IndexedLeaves(leaves)); }
  }
}
