/** The byte snapshot of a mountain range: writing, reading and the round trip. */
module Snapshot {
  import opened Octets
  import opened Bits
  import opened Positions
  import opened Mmr
  import opened Wrappers

  // ----- lists of hashes in a byte buffer -----

  function Enc(hs: seq<Hash>): (s: Bytes)
    ensures |s| == 32 * |hs|
  {
    if hs == [] then [] else Enc(hs[..|hs| - 1]) + hs[|hs| - 1]
  }

  /** `k` hashes from `offset` on. */
  function ReadAt(s: Bytes, offset: nat, k: nat): (hs: seq<Hash>)
    requires offset + 32 * k <= |s|
    ensures |hs| == k
    ensures forall i :: 0 <= i < k ==> hs[i] == s[offset + 32 * i..offset + 32 * i + 32]
  {
    seq(k, (i: nat) requires i < k => s[offset + 32 * i..offset + 32 * i + 32])
  }

  lemma {:induction false} ReadEnc(pre: Bytes, hs: seq<Hash>, post: Bytes)
    ensures ReadAt(pre + Enc(hs) + post, |pre|, |hs|) == hs
    decreases |hs|
  {
    if hs != [] {
      var init, last := hs[..|hs| - 1], hs[|hs| - 1];
      ReadEnc(pre, init, last + post);
      assert pre + Enc(init) + (last + post) == pre + Enc(hs) + post;
      var s := pre + Enc(hs) + post;
      assert s[|pre| + 32 * |init|..|pre| + 32 * |init| + 32] == last;
      assert ReadAt(s, |pre|, |hs|) == ReadAt(s, |pre|, |init|) + [last];
      assert hs == init + [last];
    }
  }

  lemma {:induction false} ReadLE64(pre: Bytes, v: nat, post: Bytes)
    requires v < TWO64
    ensures DecLE((pre + LE64(v) + post)[|pre|..|pre| + 8]) == v
  {
    hide LE64, DecLE;
    assert (pre + LE64(v) + post)[|pre|..|pre| + 8] == LE64(v);
    LE64RoundTrip(v);
  }

  // ----- the fields of a snapshot -----

  datatype Fields = Fields(
    peaks: seq<Hash>,
    nodes: map<nat, Hash>,
    leafIndexes: map<Hash, nat>,
    numLeaves: nat,
    size: nat)

  function FieldsOf(m: MMR): Fields
    reads m
  {
    Fields(m.peaks, m.nodes, m.leafIndexes, m.numLeaves, m.size)
  }

  /** The non-zero entries of a list, by position. */
  function NonZero(hs: seq<Hash>): map<nat, Hash> {
    map i: nat | i < |hs| && hs[i] != ZERO :: hs[i]
  }

  /** Last position of each entry of a list. */
  function LastIndex(hs: seq<Hash>): map<Hash, nat> {
    if hs == [] then map[] else LastIndex(hs[..|hs| - 1])[hs[|hs| - 1] := |hs| - 1]
  }

  function Encode(peaks: seq<Hash>, nodes: seq<Hash>, leaves: seq<Hash>): Bytes {
    LE64(|peaks|) + Enc(peaks) + LE64(|nodes|) + Enc(nodes) + LE64(|leaves|) + Enc(leaves)
  }

  /** What `Restore` reads. A buffer that ends too early gives nothing. */
  function Decode(s: Bytes): Option<Fields> {
    if |s| < 24 then None
    else
      var numPeaks := DecLE(s[..8]);
      var nodesAt := 8 + 32 * numPeaks;
      if nodesAt + 8 > |s| then None
      else
        var numNodes := DecLE(s[nodesAt..nodesAt + 8]);
        var leavesAt := nodesAt + 8 + 32 * numNodes;
        if leavesAt + 8 > |s| then None
        else
          var numLeaves := DecLE(s[leavesAt..leavesAt + 8]);
          if leavesAt + 8 + 32 * numLeaves > |s| then None
          else
            Some(Fields(ReadAt(s, 8, numPeaks), NonZero(ReadAt(s, nodesAt + 8, numNodes)),
                        LastIndex(ReadAt(s, leavesAt + 8, numLeaves)), numLeaves, numNodes))
  }

  /** A counted list of hashes somewhere in a byte string. */
  lemma {:induction false} ReadSection(pre: Bytes, hs: seq<Hash>, post: Bytes)
    requires |hs| < TWO64
    ensures var s := pre + LE64(|hs|) + Enc(hs) + post;
            && |s| == |pre| + 8 + 32 * |hs| + |post|
            && DecLE(s[|pre|..|pre| + 8]) == |hs| && ReadAt(s, |pre| + 8, |hs|) == hs
  {
    hide LE64, DecLE, Enc, ReadAt;
    var s, count := pre + LE64(|hs|) + Enc(hs) + post, LE64(|hs|);
    assert s == pre + count + (Enc(hs) + post);
    ReadLE64(pre, |hs|, Enc(hs) + post);
    ReadEnc(pre + count, hs, post);
  }

  lemma {:induction false} Regroup(a: Bytes, p: Bytes, b: Bytes, n: Bytes, c: Bytes, l: Bytes)
    ensures a + p + b + n + c + l == [] + a + p + (b + n + c + l)
    ensures a + p + b + n + c + l == (a + p) + b + n + (c + l)
    ensures a + p + b + n + c + l == (a + p + b + n) + c + l + []
  {
  }

  lemma {:induction false} DecodeEncode(peaks: seq<Hash>, nodes: seq<Hash>, leaves: seq<Hash>)
    requires |peaks| < TWO64 && |nodes| < TWO64 && |leaves| < TWO64
    ensures Decode(Encode(peaks, nodes, leaves))
         == Some(Fields(peaks, NonZero(nodes), LastIndex(leaves), |leaves|, |nodes|))
  {
    hide LE64, DecLE, Enc, NonZero, LastIndex, ReadAt;
    var a, b, c := LE64(|peaks|), LE64(|nodes|), LE64(|leaves|);
    var p, n, l := Enc(peaks), Enc(nodes), Enc(leaves);
    Regroup(a, p, b, n, c, l);
    ReadSection([], peaks, b + n + c + l);
    ReadSection(a + p, nodes, c + l);
    ReadSection(a + p + b + n, leaves, []);
    var s := Encode(peaks, nodes, leaves);
    assert s[0..8] == s[..8];
  }

  // ----- the ordered list of leaf hashes -----

  /** Different hashes have different indexes, all below `n`. */
  ghost predicate ValidIndexes(li: map<Hash, nat>, n: nat) {
    && (forall h :: h in li ==> li[h] < n)
    && (forall g, h :: g in li && h in li && li[g] == li[h] ==> g == h)
  }

  ghost predicate HasIndex(li: map<Hash, nat>, i: nat) {
    exists h :: h in li && li[h] == i
  }

  /** The hashes with an index below `n`, in the order of their indexes. */
  ghost function Ordered(li: map<Hash, nat>, n: nat): (hs: seq<Hash>)
    ensures |hs| <= n
  {
    if n == 0 then []
    else if HasIndex(li, n - 1) then
      var h :| h in li && li[h] == n - 1;
      Ordered(li, n - 1) + [h]
    else Ordered(li, n - 1)
  }

  /** The list that the snapshot stores: the buffer is zero where nothing is written. */
  ghost function LeafList(li: map<Hash, nat>, n: nat): (hs: seq<Hash>)
    ensures |hs| == n
  {
    var hs := Ordered(li, n);
    hs + seq(n - |hs|, (i: nat) => ZERO)
  }

  ghost function NodeList(leaves: seq<Bytes>): (hs: seq<Hash>)
    ensures |hs| == LeafPos(|leaves|)
  {
    seq(LeafPos(|leaves|), (pos: nat) requires pos < LeafPos(|leaves|) => NodeAtPos(leaves, pos))
  }

  ghost function SnapshotOf(leaves: seq<Bytes>, li: map<Hash, nat>): Bytes {
    Encode(PeaksOf(leaves), NodeList(leaves), LeafList(li, |leaves|))
  }

  /** A count of eight bytes and then the hashes, from `at` on. */
  ghost predicate SectionAt(s: Bytes, at: nat, hs: seq<Hash>) {
    && at + 8 + 32 * |hs| <= |s| && s[at..at + 8] == LE64(|hs|)
    && forall i :: 0 <= i < |hs| ==> s[at + 8 + 32 * i..at + 40 + 32 * i] == hs[i]
  }

  lemma {:induction false} HashesPlaced(pre: Bytes, hs: seq<Hash>, post: Bytes, i: nat)
    requires i < |hs|
    ensures var s, at := pre + Enc(hs) + post, |pre| + 32 * i; at + 32 <= |s| && s[at..at + 32] == hs[i]
  {
    hide Enc;
    ReadEnc(pre, hs, post);
    assert ReadAt(pre + Enc(hs) + post, |pre|, |hs|)[i] == hs[i];
  }

  lemma {:induction false} SectionPlaced(pre: Bytes, hs: seq<Hash>, post: Bytes)
    ensures SectionAt(pre + LE64(|hs|) + Enc(hs) + post, |pre|, hs)
  {
    hide LE64, Enc;
    var s, count := pre + LE64(|hs|) + Enc(hs) + post, LE64(|hs|);
    assert s == (pre + count) + Enc(hs) + post;
    assert s[|pre|..|pre| + 8] == count;
    forall i | 0 <= i < |hs|
      ensures s[|pre| + 8 + 32 * i..|pre| + 40 + 32 * i] == hs[i]
    {
      HashesPlaced(pre + count, hs, post, i);
    }
  }

  /** Where the parts of a snapshot are: the peaks by height, the nodes by position, then the leaf hashes by index. */
  lemma {:induction false} SnapshotLayout(leaves: seq<Bytes>, li: map<Hash, nat>)
    ensures var s, peaks, list := SnapshotOf(leaves, li), PeaksOf(leaves), LeafList(li, |leaves|);
            exists nodes: seq<Hash> ::
              && |nodes| == LeafPos(|leaves|)
              && (forall pos :: 0 <= pos < |nodes| ==> nodes[pos] == NodesOf(leaves)[pos])
              && SectionAt(s, 0, peaks) && SectionAt(s, 8 + 32 * |peaks|, nodes)
              && SectionAt(s, 16 + 32 * (|peaks| + |nodes|), list) && |s| == 24 + 32 * (|peaks| + |nodes| + |list|)
  {
    hide LE64, Enc, NodeAt, CoordOf, PeaksOf, LeafList, SectionAt, LeafPos;
    var peaks, nodes, list := PeaksOf(leaves), NodeList(leaves), LeafList(li, |leaves|);
    var a, p, b, n, c, l := LE64(|peaks|), Enc(peaks), LE64(|nodes|), Enc(nodes), LE64(|list|), Enc(list);
    Regroup(a, p, b, n, c, l);
    SectionPlaced([], peaks, b + n + c + l);
    SectionPlaced(a + p, nodes, c + l);
    SectionPlaced(a + p + b + n, list, []);
  }

  // ----- round trip of the forest -----

  lemma {:induction false} NodeListIsNodes(leaves: seq<Bytes>)
    ensures NonZero(NodeList(leaves)) == NodesOf(leaves)
  {
    hide NodeAt, LeafPos, CoordOf, TrailingOnes;
    forall pos: nat | pos < LeafPos(|leaves|)
      ensures NodeAtPos(leaves, pos) != ZERO
    {
      CoordWithin(CoordOf(pos), |leaves|);
      NodeNotZero(leaves, CoordOf(pos));
    }
  }

  lemma {:induction false} BitLenFits(n: nat)
    requires n <= MAX_LEAVES
    ensures BitLen(n) < TWO64
  {
    hide BitLen, Pow2;
    Pow2Of64();
    BitLenOfSmaller(n, 63);
  }

  /** Whatever the index map was, reading a snapshot back gives the same peaks, nodes and sizes. */
  lemma {:induction false} RoundTrip(leaves: seq<Bytes>, li: map<Hash, nat>)
    requires |leaves| <= MAX_LEAVES
    ensures Decode(SnapshotOf(leaves, li))
         == Some(Fields(PeaksOf(leaves), NodesOf(leaves), LastIndex(LeafList(li, |leaves|)), |leaves|,
                        LeafPos(|leaves|)))
  {
    hide Decode, Encode, PeaksOf, NodesOf, NodeList, LeafList, LastIndex, NonZero, LeafPos;
    SizeBound(|leaves|);
    BitLenFits(|leaves|);
    DecodeEncode(PeaksOf(leaves), NodeList(leaves), LeafList(li, |leaves|));
    NodeListIsNodes(leaves);
  }

  // ----- round trip of the index map -----

  function HashAll(leaves: seq<Bytes>): (hs: seq<Hash>)
    ensures |hs| == |leaves|
    ensures forall i :: 0 <= i < |hs| ==> hs[i] == HashBytes(leaves[i])
  {
    seq(|leaves|, (i: nat) requires i < |leaves| => HashBytes(leaves[i]))
  }

  /** `LastIndex` maps each entry to its last position, and nothing else. */
  lemma {:induction false} LastIndexMeaning(hs: seq<Hash>)
    ensures forall h :: h in LastIndex(hs) <==> h in hs
    ensures forall h :: h in hs ==> LastIndex(hs)[h] < |hs| && hs[LastIndex(hs)[h]] == h
    ensures forall h, j :: h in hs && LastIndex(hs)[h] < j < |hs| ==> hs[j] != h
    ensures ValidIndexes(LastIndex(hs), |hs|)
  {
    if hs != [] {
      var init := hs[..|hs| - 1];
      LastIndexMeaning(init);
      assert hs == init + [hs[|hs| - 1]];
    }
  }

  lemma {:induction false} LeafIndexesAreLastIndex(leaves: seq<Bytes>)
    ensures LeafIndexesOf(leaves) == LastIndex(HashAll(leaves))
  {
    hide HashBytes;
    if leaves != [] {
      var init := leaves[..|leaves| - 1];
      LeafIndexesAreLastIndex(init);
      assert HashAll(leaves)[..|leaves| - 1] == HashAll(init);
    }
  }

  /** Where an index map sends each entry of a list to its position, the ordering is the list. */
  lemma {:induction false} OrderedByPosition(hs: seq<Hash>, li: map<Hash, nat>, n: nat, bound: nat)
    requires n <= |hs| && ValidIndexes(li, bound)
    requires forall i :: 0 <= i < n ==> hs[i] in li && li[hs[i]] == i
    ensures Ordered(li, n) == hs[..n]
    decreases n
  {
    if n > 0 {
      OrderedByPosition(hs, li, n - 1, bound);
      assert hs[n - 1] in li && li[hs[n - 1]] == n - 1;
      assert HasIndex(li, n - 1);
      assert hs[..n] == hs[..n - 1] + [hs[n - 1]];
    }
  }

  /** Indexes that nobody has add nothing. */
  lemma {:induction false} OrderedGap(li: map<Hash, nat>, a: nat, b: nat)
    requires a <= b && forall i: nat :: a <= i < b ==> !HasIndex(li, i)
    ensures Ordered(li, b) == Ordered(li, a)
    decreases b
  {
    hide HasIndex;
    if a < b { OrderedGap(li, a, b - 1); }
  }

  /** An unused index shortens the ordering. */
  lemma {:induction false} OrderedWithGap(li: map<Hash, nat>, gap: nat, n: nat)
    requires gap < n && !HasIndex(li, gap)
    ensures |Ordered(li, n)| < n
    decreases n
  {
    if gap < n - 1 { OrderedWithGap(li, gap, n - 1); }
  }

  /** The index map survives the round trip exactly when no leaf was added twice. */
  lemma {:induction false} IndexRoundTrip(leaves: seq<Bytes>)
    ensures LastIndex(LeafList(LeafIndexesOf(leaves), |leaves|)) == LeafIndexesOf(leaves)
       <==> Distinct(leaves)
  {
    hide LastIndex, Ordered, LeafIndexesOf, HashBytes;
    var hs, li := HashAll(leaves), LeafIndexesOf(leaves);
    LeafIndexesAreLastIndex(leaves);
    LastIndexMeaning(hs);
    if Distinct(leaves) {
      forall i, j | 0 <= i < j < |hs|
        ensures hs[i] != hs[j]
      {
        if hs[i] == hs[j] { HashInjective(leaves[i], leaves[j]); }
      }
      forall i | 0 <= i < |hs|
        ensures hs[i] in li && li[hs[i]] == i
      {
        assert hs[i] in hs;
      }
      OrderedByPosition(hs, li, |hs|, |hs|);
      assert hs[..|hs|] == hs;
      assert LeafList(li, |hs|) == hs;
    } else {
      var i, j :| 0 <= i < j < |leaves| && leaves[i] == leaves[j];
      forall h | h in li
        ensures li[h] != i
      {
        assert hs[i] == hs[j];
      }
      OrderedWithGap(li, i, |leaves|);
      var list := LeafList(li, |leaves|);
      assert list[|leaves| - 1] == ZERO;
      LastIndexMeaning(list);
      assert ZERO in LastIndex(list);
      assert ZERO !in hs;
    }
  }

  /** The ordering lists each key at most once. */
  lemma {:induction false} OrderedKeys(li: map<Hash, nat>, n: nat)
    ensures Distinct(Ordered(li, n))
    ensures forall h :: h in Ordered(li, n) ==> h in li && li[h] < n
    decreases n
  {
    if n > 0 { OrderedKeys(li, n - 1); }
  }

  /** `k` distinct non-zero hashes followed by zeros. */
  ghost predicate Padded(list: seq<Hash>, k: nat) {
    && k <= |list|
    && (forall i, j :: 0 <= i < j < k ==> list[i] != list[j])
    && (forall i :: 0 <= i < k ==> list[i] != ZERO)
    && (forall i :: k <= i < |list| ==> list[i] == ZERO)
  }

  lemma {:induction false} PaddedIndexes(list: seq<Hash>, k: nat, back: map<Hash, nat>)
    requires Padded(list, k) && back == LastIndex(list)
    ensures forall i :: 0 <= i < k ==> list[i] in back && back[list[i]] == i
    ensures k < |list| ==> ZERO in back && back[ZERO] == |list| - 1
    ensures forall i :: k <= i < |list| - 1 ==> !HasIndex(back, i)
    ensures ValidIndexes(back, |list|)
  {
    hide LastIndex;
    LastIndexMeaning(list);
    forall i | 0 <= i < |list|
      ensures list[i] in back
    {
      assert list[i] in list;
    }
    if k < |list| {
      assert list[|list| - 1] == ZERO;
    }
  }

  lemma {:induction false} PaddedIsStable(list: seq<Hash>, k: nat)
    requires Padded(list, k)
    ensures LeafList(LastIndex(list), |list|) == list
  {
    hide Ordered, LastIndex, HasIndex, ValidIndexes;
    var back, n := LastIndex(list), |list|;
    PaddedIndexes(list, k, back);
    OrderedByPosition(list, back, k, n);
    if k < n {
      OrderedGap(back, k, n - 1);
      OrderedLast(back, n, ZERO);
    }
  }

  /** Taking a snapshot of a restored range gives the same bytes again. */
  lemma {:induction false} RestoredSnapshotIsStable(li: map<Hash, nat>, n: nat)
    requires ZERO !in li
    ensures ValidIndexes(LastIndex(LeafList(li, n)), n)
    ensures LeafList(LastIndex(LeafList(li, n)), n) == LeafList(li, n)
  {
    hide Ordered, LastIndex, HasIndex, ValidIndexes;
    var hs, list := Ordered(li, n), LeafList(li, n);
    OrderedKeys(li, n);
    forall i | 0 <= i < |hs|
      ensures list[i] == hs[i] != ZERO
    {
      assert hs[i] in hs;
    }
    PaddedIndexes(list, |hs|, LastIndex(list));
    PaddedIsStable(list, |hs|);
  }

  lemma {:induction false} OrderedLast(li: map<Hash, nat>, n: nat, h: Hash)
    requires n > 0 && ValidIndexes(li, n) && h in li && li[h] == n - 1
    ensures Ordered(li, n) == Ordered(li, n - 1) + [h]
  {
    assert HasIndex(li, n - 1);
  }

  // ----- writing -----

  /** The entries of the index map, sorted by index. */
  method SortedByIndex(li: map<Hash, nat>, ghost n: nat) returns (hs: seq<Hash>)
    requires ValidIndexes(li, n)
    ensures hs == Ordered(li, n)
  {
    hide Ordered, ValidIndexes;
    hs := [];
    var rest := li;
    ghost var from: nat := 0;
    assert Ordered(li, 0) == [] by { OrderedNothing(li); }
    while rest.Keys != {}
      invariant from <= n && hs == Ordered(li, from)
      invariant forall h :: h in rest ==> h in li && rest[h] == li[h] && li[h] >= from
      invariant forall h :: h in li && li[h] >= from ==> h in rest
      decreases |rest.Keys|
    {
      ghost var was := rest.Keys;
      SmallestIndex(rest);
      var h :| h in rest && forall g :: g in rest ==> rest[h] <= rest[g];
      NextIndex(li, rest, from, h, n);
      hs := hs + [h];
      from := li[h] + 1;
      rest := rest - {h};
      assert rest.Keys == was - {h};
    }
    OrderedGap(li, from, n);
  }

  /** The entry with the smallest index from `from` on comes next. */
  lemma {:induction false} NextIndex(li: map<Hash, nat>, rest: map<Hash, nat>, from: nat, h: Hash, n: nat)
    requires ValidIndexes(li, n) && h in rest && h in li && rest[h] == li[h] >= from
    requires forall g :: g in rest ==> rest[h] <= rest[g]
    requires forall g :: g in li && li[g] >= from ==> g in rest
    requires forall g :: g in rest ==> g in li && rest[g] == li[g]
    ensures li[h] < n && Ordered(li, li[h] + 1) == Ordered(li, from) + [h]
    ensures forall g :: g in li && g != h && li[g] >= from ==> li[g] > li[h]
  {
    hide Ordered;
    forall i: nat | from <= i < li[h]
      ensures !HasIndex(li, i)
    {
    }
    OrderedGap(li, from, li[h]);
    OrderedNext(li, li[h], h, n);
  }

  lemma {:induction false} OrderedNothing(li: map<Hash, nat>)
    ensures Ordered(li, 0) == []
  {
  }

  lemma {:induction false} OrderedNext(li: map<Hash, nat>, i: nat, h: Hash, n: nat)
    requires ValidIndexes(li, n) && h in li && li[h] == i
    ensures Ordered(li, i + 1) == Ordered(li, i) + [h]
  {
    assert HasIndex(li, i);
  }

  lemma {:induction false} SmallestIndex(li: map<Hash, nat>)
    requires li.Keys != {}
    ensures exists h :: h in li && forall g :: g in li ==> li[h] <= li[g]
    decreases |li.Keys|
  {
    var h :| h in li;
    var others := li - {h};
    assert others.Keys == li.Keys - {h};
    if others.Keys == {} {
      assert li.Keys == {h} by {
        assert li.Keys <= {h} + others.Keys;
      }
    } else {
      SmallestIndex(others);
      var k :| k in others && forall g :: g in others ==> others[k] <= others[g];
      var m := if li[h] <= li[k] then h else k;
      assert forall g :: g in li ==> g == h || g in others;
      assert m in li && forall g :: g in li ==> li[m] <= li[g];
    }
  }

  /** Copies `data` to `offset` of a buffer that is still zero there. */
  method Put(buf: array<Octet>, offset: nat, data: Bytes, ghost done: Bytes)
    requires offset == |done| && offset + |data| <= buf.Length
    requires buf[..] == done + Zeros(buf.Length - offset)
    modifies buf
    ensures buf[..] == done + data + Zeros(buf.Length - offset - |data|)
  {
    var i := 0;
    while i < |data|
      invariant 0 <= i <= |data|
      invariant buf[..] == done + data[..i] + Zeros(buf.Length - offset - i)
    {
      buf[offset + i] := data[i];
      i := i + 1;
    }
    assert data[..|data|] == data;
  }

  lemma {:induction false} EncAppend(hs: seq<Hash>, h: Hash)
    ensures Enc(hs + [h]) == Enc(hs) + h
  {
    assert (hs + [h])[..|hs|] == hs;
  }

  lemma {:induction false} EncPrefix(hs: seq<Hash>, i: nat)
    requires i < |hs|
    ensures Enc(hs[..i + 1]) == Enc(hs[..i]) + hs[i]
  {
    assert hs[..i + 1] == hs[..i] + [hs[i]];
    EncAppend(hs[..i], hs[i]);
  }

  /** Writes a list of hashes to a buffer that is still zero from `offset` on. */
  method PutAll(buf: array<Octet>, offset: nat, hs: seq<Hash>, ghost done: Bytes)
    requires offset == |done| && offset + 32 * |hs| <= buf.Length
    requires buf[..] == done + Zeros(buf.Length - offset)
    modifies buf
    ensures buf[..] == done + Enc(hs) + Zeros(buf.Length - offset - 32 * |hs|)
  {
    hide Enc, Zeros;
    EncNothing();
    assert done + [] == done;
    for i := 0 to |hs|
      invariant buf[..] == done + Enc(hs[..i]) + Zeros(buf.Length - offset - 32 * i)
    {
      EncPrefix(hs, i);
      Put(buf, offset + 32 * i, hs[i], done + Enc(hs[..i]));
      assert done + Enc(hs[..i]) + hs[i] == done + Enc(hs[..i + 1]);
    }
    assert hs[..|hs|] == hs;
  }

  lemma {:induction false} EncNothing()
    ensures Enc([]) == []
  {
  }

  /** Zero bytes at the end read as zero hashes. */
  lemma {:induction false} EncZeros(hs: seq<Hash>, k: nat)
    ensures Enc(hs + seq(k, (i: nat) => ZERO)) == Enc(hs) + Zeros(32 * k)
    decreases k
  {
    var zeros := seq(k, (i: nat) => ZERO);
    if k == 0 {
      assert hs + zeros == hs;
    } else {
      var fewer := seq(k - 1, (i: nat) => ZERO);
      assert hs + zeros == hs + fewer + [ZERO];
      EncZeros(hs, k - 1);
      EncAppend(hs + fewer, ZERO);
    }
  }

  /** The snapshot bytes. The order in which Go iterates over the index map plays no role. */
  method TakeSnapshot(m: MMR, ghost leaves: seq<Bytes>) returns (snapshot: Bytes)
    requires m.Represents(leaves) && ValidIndexes(m.leafIndexes, |leaves|)
    ensures snapshot == SnapshotOf(leaves, m.leafIndexes)
  {
    hide Enc, Zeros, LE64, NodeAt, CoordOf, PeaksOf, LeafPos, Ordered, ValidIndexes;
    var numPeaks, numNodes, numLeaves := |m.peaks|, m.size, m.numLeaves;
    var size := 8 + numPeaks * 32 + 8 + numNodes * 32 + 8 + numLeaves * 32;
    var buf := new Octet[size](i => Lit(0));
    assert buf[..] == [] + Zeros(size) by { AllZero(buf); }

    Put(buf, 0, LE64(numPeaks), []);
    ghost var done := [] + LE64(numPeaks);
    PutAll(buf, 8, m.peaks, done);
    done := done + Enc(m.peaks);
    var offset := 8 + numPeaks * 32;

    Put(buf, offset, LE64(numNodes), done);
    done := done + LE64(numNodes);
    offset := offset + 8;

    var nodes: seq<Hash> := [];
    for pos := 0 to m.size
      invariant |nodes| == pos && nodes == NodeList(leaves)[..pos]
    {
      nodes := nodes + [if pos in m.nodes then m.nodes[pos] else ZERO];
    }
    assert nodes == NodeList(leaves);
    PutAll(buf, offset, nodes, done);
    done := done + Enc(nodes);
    offset := offset + numNodes * 32;

    Put(buf, offset, LE64(numLeaves), done);
    done := done + LE64(numLeaves);
    offset := offset + 8;

    var hashes := SortedByIndex(m.leafIndexes, |leaves|);
    PutAll(buf, offset, hashes, done);
    ghost var missing := numLeaves - |hashes|;
    EncZeros(hashes, missing);
    assert [] + LE64(numPeaks) == LE64(numPeaks);
    snapshot := buf[..];
    assert snapshot == done + (Enc(hashes) + Zeros(32 * missing));
  }

  lemma {:induction false} AllZero(buf: array<Octet>)
    requires forall i :: 0 <= i < buf.Length ==> buf[i] == Lit(0)
    ensures buf[..] == [] + Zeros(buf.Length)
  {
  }

  // ----- reading -----

  lemma {:induction false} ReadAtNext(s: Bytes, offset: nat, k: nat)
    requires offset + 32 * (k + 1) <= |s|
    ensures ReadAt(s, offset, k + 1) == ReadAt(s, offset, k) + [s[offset + 32 * k..offset + 32 * k + 32]]
  {
  }

  /** Reads `count` hashes from `offset` on, failing when the buffer ends first. */
  method TakeAll(s: Bytes, offset: nat, count: nat) returns (r: Option<seq<Hash>>)
    requires offset <= |s|
    ensures r == if offset + 32 * count <= |s| then Some(ReadAt(s, offset, count)) else None
  {
    hide ReadAt;
    var hs: seq<Hash> := [];
    for i := 0 to count
      invariant offset + 32 * i <= |s|
      invariant hs == ReadAt(s, offset, i)
    {
      if offset + 32 * i + 32 > |s| {
        return None;
      }
      ReadAtNext(s, offset, i);
      hs := hs + [s[offset + 32 * i..offset + 32 * i + 32]];
    }
    r := Some(hs);
  }

  /** How reading a snapshot ends. */
  datatype Restored = Done | Refused | Panics

  /** All nodes are there but not the eight bytes of the leaf count, which the program reads without a check. */
  predicate CutBeforeLeaves(s: Bytes) {
    |s| >= 24 &&
    (var nodesAt := 8 + 32 * DecLE(s[..8]);
     nodesAt + 8 <= |s| &&
     (var leavesAt := nodesAt + 8 + 32 * DecLE(s[nodesAt..nodesAt + 8]);
      leavesAt <= |s| < leavesAt + 8))
  }

  /** Overwrites the fields of `m` by what the snapshot says, or leaves them alone. */
  method Restore(m: MMR, snapshot: Bytes) returns (r: Restored)
    modifies m
    ensures r.Done? <==> Decode(snapshot).Some?
    ensures r.Panics? <==> CutBeforeLeaves(snapshot)
    ensures r.Done? ==> FieldsOf(m) == Decode(snapshot).value
    ensures !r.Done? ==> unchanged(m)
  {
    hide DecLE, ReadAt, NonZero, LastIndex;
    if |snapshot| < 24 {
      return Refused;
    }
    var numPeaks := DecLE(snapshot[..8]);
    var offset := 8;
    var peaks := TakeAll(snapshot, offset, numPeaks);
    if peaks.None? {
      return Refused;
    }
    offset := offset + 32 * numPeaks;

    if offset + 8 > |snapshot| {
      return Refused;
    }
    var numNodes := DecLE(snapshot[offset..offset + 8]);
    offset := offset + 8;
    var list := TakeAll(snapshot, offset, numNodes);
    if list.None? {
      return Refused;
    }
    NothingRead(list.value);
    var nodes := map[];
    for pos := 0 to numNodes
      modifies {}
      invariant nodes == NonZero(list.value[..pos])
    {
      NonZeroNext(list.value, pos);
      if list.value[pos] != ZERO {
        nodes := nodes[pos := list.value[pos]];
      }
    }
    assert list.value[..numNodes] == list.value;
    offset := offset + 32 * numNodes;

    if offset + 8 > |snapshot| {
      return Panics;
    }
    var numLeaves := DecLE(snapshot[offset..offset + 8]);
    offset := offset + 8;
    var hashes := TakeAll(snapshot, offset, numLeaves);
    if hashes.None? {
      return Refused;
    }
    NothingRead(hashes.value);
    var leafIndexes := map[];
    for i := 0 to numLeaves
      modifies {}
      invariant leafIndexes == LastIndex(hashes.value[..i])
    {
      LastIndexNext(hashes.value, i);
      leafIndexes := leafIndexes[hashes.value[i] := i];
    }
    assert hashes.value[..numLeaves] == hashes.value;

    m.numLeaves := numLeaves;
    m.size := numNodes;
    m.peaks := peaks.value;
    m.nodes := nodes;
    m.leafIndexes := leafIndexes;
    r := Done;
  }

  lemma {:induction false} NothingRead(hs: seq<Hash>)
    ensures NonZero(hs[..0]) == map[] && LastIndex(hs[..0]) == map[]
  {
  }

  lemma {:induction false} NonZeroNext(hs: seq<Hash>, i: nat)
    requires i < |hs|
    ensures NonZero(hs[..i + 1]) == if hs[i] != ZERO then NonZero(hs[..i])[i := hs[i]] else NonZero(hs[..i])
  {
  }

  lemma {:induction false} LastIndexNext(hs: seq<Hash>, i: nat)
    requires i < |hs|
    ensures LastIndex(hs[..i + 1]) == LastIndex(hs[..i])[hs[i] := i]
  {
    assert hs[..i + 1][..i] == hs[..i];
  }

  // ----- what any byte string says -----

  /** A counted list of hashes is read at `at`. */
  ghost predicate ReadsSection(s: Bytes, at: nat, hs: seq<Hash>) {
    && at + 8 + 32 * |hs| <= |s| && DecLE(s[at..at + 8]) == |hs|
    && forall i :: 0 <= i < |hs| ==> s[at + 8 + 32 * i..at + 40 + 32 * i] == hs[i]
  }

  /** Peaks and nodes are read from the start. */
  ghost predicate ReadsNodes(s: Bytes, peaks: seq<Hash>, nodes: seq<Hash>) {
    ReadsSection(s, 0, peaks) && ReadsSection(s, 8 + 32 * |peaks|, nodes)
  }

  ghost predicate ReadsAll(s: Bytes, peaks: seq<Hash>, nodes: seq<Hash>, list: seq<Hash>) {
    ReadsNodes(s, peaks, nodes) && ReadsSection(s, 16 + 32 * (|peaks| + |nodes|), list)
  }

  /** The fields are those of the three lists: zero nodes are missing, and a leaf has its last index. */
  ghost predicate Says(f: Fields, peaks: seq<Hash>, nodes: seq<Hash>, list: seq<Hash>) {
    && f.peaks == peaks && f.size == |nodes| && f.numLeaves == |list|
    && (forall pos: nat :: pos in f.nodes <==> pos < |nodes| && nodes[pos] != ZERO)
    && (forall pos :: pos in f.nodes ==> f.nodes[pos] == nodes[pos])
    && (forall h :: h in f.leafIndexes <==> h in list)
    && (forall h :: h in f.leafIndexes ==> IsLast(list, h, f.leafIndexes[h]))
  }

  ghost predicate IsLast(list: seq<Hash>, h: Hash, i: nat) {
    i < |list| && list[i] == h && forall j :: i < j < |list| ==> list[j] != h
  }

  lemma {:induction false} LastIndexIsLast(list: seq<Hash>)
    ensures forall h :: h in LastIndex(list) <==> h in list
    ensures forall h :: h in LastIndex(list) ==> IsLast(list, h, LastIndex(list)[h])
  {
    if list != [] {
      var n := |list| - 1;
      LastIndexIsLast(list[..n]);
      assert list == list[..n] + [list[n]];
    }
  }

  lemma {:induction false} SectionIsReadAt(s: Bytes, at: nat, hs: seq<Hash>)
    ensures ReadsSection(s, at, hs) <==>
              && at + 8 + 32 * |hs| <= |s| && DecLE(s[at..at + 8]) == |hs|
              && hs == ReadAt(s, at + 8, |hs|)
  {
    hide DecLE;
  }

  lemma {:induction false} SectionThere(s: Bytes, at: nat) returns (hs: seq<Hash>)
    requires at + 8 <= |s| && at + 8 + 32 * DecLE(s[at..at + 8]) <= |s|
    ensures ReadsSection(s, at, hs)
  {
    hide DecLE;
    hs := ReadAt(s, at + 8, DecLE(s[at..at + 8]));
  }

  /** A byte string is a snapshot exactly if three counted lists of hashes can be read one after the other; what
      follows them does not matter. */
  lemma {:induction false} DecodesExactly(s: Bytes)
    ensures Decode(s).Some? <==> exists peaks, nodes, list :: ReadsAll(s, peaks, nodes, list)
    ensures forall peaks, nodes, list :: ReadsAll(s, peaks, nodes, list) ==>
              Decode(s).Some? && Says(Decode(s).value, peaks, nodes, list)
  {
    hide DecLE, ReadAt, LastIndex, ReadsSection, IsLast;
    forall peaks, nodes, list | ReadsAll(s, peaks, nodes, list)
      ensures Decode(s).Some? && Says(Decode(s).value, peaks, nodes, list)
    {
      SectionIsReadAt(s, 0, peaks);
      SectionIsReadAt(s, 8 + 32 * |peaks|, nodes);
      SectionIsReadAt(s, 16 + 32 * (|peaks| + |nodes|), list);
      assert s[0..8] == s[..8];
      LastIndexIsLast(list);
    }
    if Decode(s).Some? {
      assert s[0..8] == s[..8];
      var peaks := SectionThere(s, 0);
      SectionIsReadAt(s, 0, peaks);
      var nodes := SectionThere(s, 8 + 32 * |peaks|);
      SectionIsReadAt(s, 8 + 32 * |peaks|, nodes);
      var list := SectionThere(s, 16 + 32 * (|peaks| + |nodes|));
      assert ReadsAll(s, peaks, nodes, list);
    }
  }

  /** Reading panics exactly if peaks and nodes can be read and then fewer than eight bytes are left. */
  lemma {:induction false} PanicsExactly(s: Bytes)
    ensures CutBeforeLeaves(s) <==>
              && |s| >= 24
              && exists peaks, nodes :: ReadsNodes(s, peaks, nodes) && |s| < 24 + 32 * (|peaks| + |nodes|)
  {
    hide DecLE, ReadAt, ReadsSection;
    if |s| >= 8 {
      assert s[0..8] == s[..8];
    }
    if CutBeforeLeaves(s) {
      var peaks := SectionThere(s, 0);
      SectionIsReadAt(s, 0, peaks);
      var nodes := SectionThere(s, 8 + 32 * |peaks|);
      SectionIsReadAt(s, 8 + 32 * |peaks|, nodes);
      assert ReadsNodes(s, peaks, nodes);
    }
    forall peaks, nodes | |s| >= 24 && ReadsNodes(s, peaks, nodes) && |s| < 24 + 32 * (|peaks| + |nodes|)
      ensures CutBeforeLeaves(s)
    {
      SectionIsReadAt(s, 0, peaks);
      SectionIsReadAt(s, 8 + 32 * |peaks|, nodes);
    }
  }

  method NewMmrFromSnapshot(snapshot: Bytes) returns (m: MMR?, panics: bool)
    ensures m != null <==> Decode(snapshot).Some?
    ensures panics <==> CutBeforeLeaves(snapshot)
    ensures m != null ==> fresh(m) && FieldsOf(m) == Decode(snapshot).value
  {
    hide Decode, CutBeforeLeaves;
    m := new MMR();
    var r := Restore(m, snapshot);
    panics := r.Panics?;
    if !r.Done? {
      m := null;
    }
  }

  /** An object that holds what a snapshot of a mountain range says is that mountain range again,
      with a well-formed index map, so every later append gives the same root on both, and its own
      snapshot is the same byte string. */
  lemma {:induction false} RestoredRange(m: MMR, leaves: seq<Bytes>, li: map<Hash, nat>)
    requires |leaves| <= MAX_LEAVES && ZERO !in li
    requires Decode(SnapshotOf(leaves, li)).Some? ==> FieldsOf(m) == Decode(SnapshotOf(leaves, li)).value
    ensures Decode(SnapshotOf(leaves, li)).Some? && m.Represents(leaves)
    ensures ValidIndexes(m.leafIndexes, |leaves|)
    ensures SnapshotOf(leaves, m.leafIndexes) == SnapshotOf(leaves, li)
    ensures li == LeafIndexesOf(leaves) ==> (m.leafIndexes == li <==> Distinct(leaves))
  {
    hide Decode, Encode, PeaksOf, NodesOf, NodeList, LeafList, LastIndex, ValidIndexes, LeafIndexesOf, Distinct;
    RoundTrip(leaves, li);
    RestoredSnapshotIsStable(li, |leaves|);
    IndexRoundTrip(leaves);
  }
}
