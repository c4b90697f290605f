/** Positions of a Merkle Mountain Range.

    Nodes are numbered in the order in which they are created. Adding leaf `p` creates the nodes
    of heights 0, 1, ..., TrailingOnes(p) in that order, so a position is the same thing as a pair
    `(p, h)` with `h <= TrailingOnes(p)`: the node of height `h` whose last leaf is `p`.
    The bit arithmetic of the program is proved to compute with these pairs. */
module Positions {
  import opened Octets
  import opened Bits

  /** Position of leaf `p`, as an unbounded number. */
  function LeafPos(p: nat): nat {
    2 * p - Ones(p)
  }

  datatype Coord = Coord(leaf: nat, height: nat)

  predicate ValidCoord(c: Coord) {
    c.height <= TrailingOnes(c.leaf)
  }

  function PosOf(c: Coord): nat {
    LeafPos(c.leaf) + c.height
  }

  lemma {:induction false} FirstPosition()
    ensures LeafPos(0) == 0
  {
  }

  /** Walking the creation order reaches every position. */
  lemma {:induction false} CoordExists(pos: nat)
    ensures exists c :: ValidCoord(c) && PosOf(c) == pos
  {
    hide CoordOf, LeafPos, TrailingOnes;
    FirstPosition();
    if pos == 0 {
      assert ValidCoord(Coord(0, 0)) && PosOf(Coord(0, 0)) == 0;
    } else {
      CoordExists(pos - 1);
      var c :| ValidCoord(c) && PosOf(c) == pos - 1;
      if c.height < TrailingOnes(c.leaf) {
        var d := Coord(c.leaf, c.height + 1);
        assert ValidCoord(d) && PosOf(d) == pos;
      } else {
        NextLeafPos(c.leaf);
        var d := Coord(c.leaf + 1, 0);
        assert ValidCoord(d) && PosOf(d) == pos;
      }
    }
  }

  /** The coordinates of a position; `CoordUnique` shows that there is only one choice. */
  ghost function CoordOf(pos: nat): (c: Coord)
    ensures ValidCoord(c)
    ensures PosOf(c) == pos
  {
    CoordExists(pos);
    var c :| ValidCoord(c) && PosOf(c) == pos;
    c
  }

  lemma {:induction false} NextLeafPos(p: nat)
    ensures LeafPos(p + 1) == LeafPos(p) + TrailingOnes(p) + 1
  {
    hide Ones, TrailingOnes;
    OnesOfSuccessor(p);
  }

  lemma {:induction false} LeafPosMonotone(p: nat, q: nat)
    requires p < q
    ensures LeafPos(p) + TrailingOnes(p) < LeafPos(q)
    decreases q
  {
    hide LeafPos, TrailingOnes;
    NextLeafPos(q - 1);
    if p < q - 1 { LeafPosMonotone(p, q - 1); }
  }

  /** A position has only one pair of coordinates. */
  lemma {:induction false} CoordUnique(c: Coord)
    requires ValidCoord(c)
    ensures CoordOf(PosOf(c)) == c
  {
    hide CoordOf, Ones, TrailingOnes;
    var d := CoordOf(PosOf(c));
    if c.leaf < d.leaf {
      LeafPosMonotone(c.leaf, d.leaf);
    } else if d.leaf < c.leaf {
      LeafPosMonotone(d.leaf, c.leaf);
    }
  }

  /** With `n` leaves exactly the positions below `LeafPos(n)` exist. */
  lemma {:induction false} CoordWithin(c: Coord, n: nat)
    requires ValidCoord(c)
    ensures PosOf(c) < LeafPos(n) <==> c.leaf < n
  {
    hide LeafPos, TrailingOnes;
    if c.leaf < n {
      LeafPosMonotone(c.leaf, n);
    } else if n < c.leaf {
      LeafPosMonotone(n, c.leaf);
    }
  }

  lemma {:induction false} LeafPosInjective(p: nat, q: nat)
    requires LeafPos(p) == LeafPos(q)
    ensures p == q
  {
    hide CoordOf, Ones, TrailingOnes;
    CoordUnique(Coord(p, 0));
    CoordUnique(Coord(q, 0));
  }

  // ----- parents and siblings -----

  predicate IsRightChild(c: Coord) {
    c.height < TrailingOnes(c.leaf)
  }

  function ParentOf(c: Coord): (d: Coord)
    requires ValidCoord(c)
    ensures ValidCoord(d)
  {
    if IsRightChild(c) then Coord(c.leaf, c.height + 1)
    else
      SetTrailing(c.leaf);
      Coord(c.leaf + Pow2(c.height), c.height + 1)
  }

  function SiblingOf(c: Coord): (d: Coord)
    requires ValidCoord(c)
    ensures ValidCoord(d)
  {
    if IsRightChild(c) then
      ClearTrailing(c.leaf, c.height);
      Coord(c.leaf - Pow2(c.height), c.height)
    else
      SetTrailing(c.leaf);
      Coord(c.leaf + Pow2(c.height), c.height)
  }

  /** The two children of a node that is not a leaf: the left one is `LeftChild`, the right one
      has the same last leaf as the node itself. */
  function LeftChild(c: Coord): (d: Coord)
    requires ValidCoord(c) && c.height > 0
    ensures ValidCoord(d) && !IsRightChild(d)
    ensures d.leaf < c.leaf
  {
    ClearTrailing(c.leaf, c.height - 1);
    Coord(c.leaf - Pow2(c.height - 1), c.height - 1)
  }

  function RightChild(c: Coord): (d: Coord)
    requires ValidCoord(c) && c.height > 0
    ensures ValidCoord(d) && IsRightChild(d)
  {
    Coord(c.leaf, c.height - 1)
  }

  /** Siblings share their parent, have opposite sides, and are each other's sibling; they are the
      two children of that parent. */
  lemma {:induction false} SiblingsAgree(c: Coord)
    requires ValidCoord(c)
    ensures ParentOf(SiblingOf(c)) == ParentOf(c)
    ensures SiblingOf(SiblingOf(c)) == c
    ensures IsRightChild(SiblingOf(c)) <==> !IsRightChild(c)
    ensures RightChild(ParentOf(c)) == if IsRightChild(c) then c else SiblingOf(c)
    ensures LeftChild(ParentOf(c)) == if IsRightChild(c) then SiblingOf(c) else c
  {
    hide Ones, Pow2, TrailingOnes;
    if IsRightChild(c) {
      ClearTrailing(c.leaf, c.height);
    } else {
      SetTrailing(c.leaf);
    }
  }

  /** The distances that the program adds to a position to reach the parent and the sibling. */
  lemma {:induction false} FamilyDistances(c: Coord)
    requires ValidCoord(c)
    ensures IsRightChild(c) ==>
              && PosOf(ParentOf(c)) == PosOf(c) + 1
              && PosOf(SiblingOf(c)) == PosOf(c) + 1 - 2 * Pow2(c.height)
    ensures !IsRightChild(c) ==>
              && PosOf(ParentOf(c)) == PosOf(c) + 2 * Pow2(c.height)
              && PosOf(SiblingOf(c)) == PosOf(c) + 2 * Pow2(c.height) - 1
  {
    hide CoordOf, Pow2, Ones, TrailingOnes;
    if IsRightChild(c) {
      ClearTrailing(c.leaf, c.height);
    } else {
      SetTrailing(c.leaf);
    }
  }

  // ----- the program's arithmetic -----

  method CountOnes(x: nat) returns (count: nat)
    ensures count == Ones(x)
  {
    count := 0;
    var n := x;
    while n != 0
      invariant count + Ones(n) == Ones(x)
      decreases n
    {
      count := count + 1;
      ClearLowest(n);
      n := And(n, n - 1);
    }
  }

  /** uint64 arithmetic: the result is reduced modulo 2^64. */
  method LeafIndexToMmrIndex(leafIndex: U64) returns (pos: U64)
    ensures pos == LeafPos(leafIndex) % TWO64
    ensures leafIndex < TWO63 ==> pos == LeafPos(leafIndex)
  {
    hide Ones;
    var ones := CountOnes(leafIndex);
    pos := (2 * leafIndex - ones) % TWO64;
  }

  /** What the greedy loop has subtracted once it has chosen the bits `chosen` and still has `k`
      bits to choose: the total size of the perfect trees that the chosen bits stand for. */
  function Taken(chosen: nat, k: nat): nat
    decreases k
  {
    if k == 0 then LeafPos(chosen) else Taken(2 * chosen, k - 1)
  }

  lemma {:induction false} TakenClosedForm(chosen: nat, k: nat)
    ensures Taken(chosen, k) == 2 * (chosen * Pow2(k)) - Ones(chosen)
    decreases k
  {
    hide Ones;
    if k > 0 {
      TakenClosedForm(2 * chosen, k - 1);
      DoubleOnes(chosen);
      assert Taken(chosen, k) == Taken(2 * chosen, k - 1);
      assert Pow2(k) == 2 * Pow2(k - 1);
      MulDouble(chosen, Pow2(k - 1));
    }
  }

  /** Choosing a set bit subtracts one tree of `2^k - 1` nodes. */
  lemma {:induction false} TakenStep(chosen: nat, k: nat)
    requires k > 0
    ensures Pow2(k) == 2 * Pow2(k - 1)
    ensures Taken(2 * chosen, k - 1) == Taken(chosen, k)
    ensures Taken(2 * chosen + 1, k - 1) == Taken(chosen, k) + Pow2(k) - 1
    ensures TrailingOnes(2 * chosen) == 0
    ensures TrailingOnes(2 * chosen + 1) == 1 + TrailingOnes(chosen)
  {
    hide Ones, TrailingOnes;
    TakenClosedForm(2 * chosen + 1, k - 1);
    TakenClosedForm(2 * chosen, k - 1);
    DoubleOnes(chosen);
    assert Taken(chosen, k) == Taken(2 * chosen, k - 1);
    assert Pow2(k) == 2 * Pow2(k - 1);
    MulDouble(chosen, Pow2(k - 1));
  }

  lemma {:induction false} TakenEnds(chosen: nat, k: nat)
    ensures Taken(0, k) == 0
    ensures Taken(chosen, 0) == LeafPos(chosen)
    ensures Pow2(k) == 1 ==> k == 0
  {
    TakenClosedForm(0, k);
  }

  /** The greedy decomposition of a position: bitmap of the peaks left of it, and its height. */
  method PeakMapHeight(pos: U64) returns (peakMap: nat, height: nat)
    ensures Coord(peakMap, height) == CoordOf(pos)
    ensures height < 64
  {
    hide Pow2, Taken, TrailingOnes, Ones, BitLen, LeafPos, CoordOf;
    if pos == 0 {
      CoordOfZero();
      return 0, 0;
    }
    var size: nat := pos;
    var k := BitLen(size);
    BitLenBound(pos);
    TakenEnds(0, k);
    var peakSize := Pow2(k) - 1;
    peakMap := 0;
    while peakSize != 0
      invariant peakSize == Pow2(k) - 1
      invariant size + Taken(peakMap, k) == pos
      invariant size <= 2 * (Pow2(k) - 1) + TrailingOnes(peakMap)
      decreases k
    {
      if k == 0 {
        Pow2Zero();
      }
      TakenStep(peakMap, k);
      peakMap := 2 * peakMap;
      if size >= peakSize {
        size := size - peakSize;
        peakMap := peakMap + 1;
      }
      peakSize := peakSize / 2;
      k := k - 1;
    }
    TakenEnds(peakMap, k);
    height := size;
    CoordUnique(Coord(peakMap, height));
    HeightBound(Coord(peakMap, height));
  }

  lemma {:induction false} Pow2Zero()
    ensures Pow2(0) == 1
  {
  }

  lemma {:induction false} CoordOfZero()
    ensures CoordOf(0) == Coord(0, 0)
  {
    hide Ones, CoordOf;
    CoordUnique(Coord(0, 0));
  }

  lemma {:induction false} Pow2Of64()
    ensures Pow2(62) == TWO64 / 4
    ensures Pow2(63) == TWO63
    ensures Pow2(64) == TWO64
  {
    assert Pow2(8) == 256;
    Pow2Sum(8, 8);
    var w := Pow2(16);
    assert w == 65536;
    Pow2Sum(16, 16);
    var x := Pow2(32);
    assert x == w * w == TWO32;
    Pow2Sum(32, 32);
    assert Pow2(64) == x * x;
    assert Pow2(64) == 2 * Pow2(63);
  }

  lemma {:induction false} HeightBound(c: Coord)
    requires ValidCoord(c) && PosOf(c) < TWO64
    ensures c.height < 64
  {
    hide Ones, TrailingOnes, Pow2;
    BitAtTrailing(c.leaf, c.height);
    if c.height >= 64 {
      Pow2Monotone(64, c.height);
      Pow2Of64();
    }
  }

  method IsLeaf(pos: U64) returns (leaf: bool)
    ensures leaf <==> CoordOf(pos).height == 0
  {
    hide CoordOf, PosOf, ParentOf, SiblingOf, Pow2, TrailingOnes, Bit, And;
    var _, height := PeakMapHeight(pos);
    leaf := height == 0;
  }

  /** Height 0 is exactly where the leaves are. */
  lemma {:induction false} LeafPositions(pos: nat)
    ensures CoordOf(pos).height == 0 <==> exists p: nat :: LeafPos(p) == pos
  {
    hide CoordOf, LeafPos, TrailingOnes;
    var c := CoordOf(pos);
    if c.height == 0 {
      assert LeafPos(c.leaf) == pos;
    }
    forall p: nat | LeafPos(p) == pos
      ensures c.height == 0
    {
      CoordUnique(Coord(p, 0));
    }
  }

  /** Parent and sibling positions, in uint64 arithmetic. */
  method Family(pos: U64) returns (parent: U64, sibling: U64)
    ensures parent == PosOf(ParentOf(CoordOf(pos))) % TWO64
    ensures sibling == PosOf(SiblingOf(CoordOf(pos))) % TWO64
  {
    hide CoordOf, PosOf, ParentOf, SiblingOf, Pow2, TrailingOnes, Bit, And;
    var peakMap, height := PeakMapHeight(pos);
    var peak := Pow2(height);
    AndPow2(peakMap, height);
    BitAtTrailing(peakMap, height);
    FamilyDistances(CoordOf(pos));
    if And(peakMap, peak) != 0 {
      parent := (pos + 1) % TWO64;
      sibling := (pos + 1 - 2 * peak) % TWO64;
    } else {
      parent := (pos + 2 * peak) % TWO64;
      sibling := (pos + 2 * peak - 1) % TWO64;
    }
  }

  method IsLeftSibling(pos: U64) returns (left: bool)
    ensures left <==> !IsRightChild(CoordOf(pos))
  {
    hide CoordOf, PosOf, ParentOf, SiblingOf, Pow2, TrailingOnes, Bit, And;
    var peakMap, height := PeakMapHeight(pos);
    var peak := Pow2(height);
    AndPow2(peakMap, height);
    BitAtTrailing(peakMap, height);
    left := And(peakMap, peak) == 0;
  }

  /** Below 2^62 leaves no family computation overflows. */
  const MAX_LEAVES: nat := TWO64 / 4

  lemma {:induction false} NoOverflow(c: Coord)
    requires ValidCoord(c) && c.leaf < MAX_LEAVES
    ensures PosOf(c) < TWO63
    ensures PosOf(ParentOf(c)) < TWO64 && PosOf(SiblingOf(c)) < TWO64
  {
    hide Ones, TrailingOnes, Pow2, ParentOf, SiblingOf;
    BitAtTrailing(c.leaf, c.height);
    FamilyDistances(c);
    CoordWithin(c, MAX_LEAVES);
    if c.height >= 62 {
      Pow2Of64();
      Pow2Monotone(62, c.height);
      if c.height > 62 {
        Pow2Monotone(63, c.height);
      }
    }
  }

  // ----- peaks -----

  /** Last leaf of the peak of height `h` when there are `n` leaves. */
  function PeakLeaf(n: nat, h: nat): (p: nat)
    requires Bit(n, h)
    ensures p < n
    ensures h <= TrailingOnes(p)
  {
    if h == 0 then n - 1
    else
      var q := PeakLeaf(n / 2, h - 1);
      assert (2 * q + 1) / 2 == q;
      2 * q + 1
  }

  function PeakCoord(n: nat, h: nat): (c: Coord)
    requires Bit(n, h)
    ensures ValidCoord(c)
  {
    Coord(PeakLeaf(n, h), h)
  }

  /** The peaks are exactly the nodes without a parent. */
  lemma {:induction false} PeaksHaveNoParent(n: nat, c: Coord)
    requires ValidCoord(c) && c.leaf < n
    ensures ParentOf(c).leaf >= n <==> Bit(n, c.height) && PeakLeaf(n, c.height) == c.leaf
    decreases c.height
  {
    hide Ones;
    if c.height > 0 {
      var half := Coord(c.leaf / 2, c.height - 1);
      PeaksHaveNoParent(n / 2, half);
      assert c.leaf == 2 * half.leaf + 1;
      assert IsRightChild(c) <==> IsRightChild(half);
    }
  }

  lemma {:induction false} PeakLeafOfSuccessor(n: nat, h: nat)
    requires Bit(n + 1, h)
    ensures h == TrailingOnes(n) ==> PeakLeaf(n + 1, h) == n
    ensures h > TrailingOnes(n) ==> Bit(n, h) && PeakLeaf(n + 1, h) == PeakLeaf(n, h)
  {
    hide Ones;
    BitOfSuccessor(n, h);
    if h > 0 {
      if n % 2 == 0 {
        assert (n + 1) / 2 == n / 2;
      } else {
        assert (n + 1) / 2 == n / 2 + 1;
        PeakLeafOfSuccessor(n / 2, h - 1);
      }
    }
  }

  /** Positions of the peaks of heights below `k`, highest first, for `n` leaves whose first node
      is at position `base`. */
  function PeakPositions(base: nat, n: nat, k: nat): seq<nat>
    decreases k
  {
    if k == 0 then []
    else
      (if Bit(n, k - 1) then [base + PosOf(PeakCoord(n, k - 1))] else []) + PeakPositions(base, n, k - 1)
  }

  /** Size of the largest perfect tree with at most `remaining` nodes. */
  function LargestTree(remaining: nat): (r: nat)
    requires remaining > 0
    ensures 0 < r <= remaining
  {
    BitLenBound(remaining + 1);
    assert BitLen(remaining + 1) >= 2;
    Pow2(BitLen(remaining + 1) - 1) - 1
  }

  function GreedyPeaks(base: nat, remaining: nat): seq<nat>
    decreases remaining
  {
    if remaining == 0 then []
    else
      var treeSize := LargestTree(remaining);
      [base + treeSize - 1] + GreedyPeaks(base + treeSize, remaining - treeSize)
  }

  method PeakPositionsAtSize(size: nat) returns (peaks: seq<nat>)
    ensures peaks == GreedyPeaks(0, size)
  {
    hide GreedyPeaks, BitLen, Pow2, LargestTree;
    peaks := [];
    var pos: nat := 1;
    var remaining: nat := size;
    while remaining > 0
      invariant pos >= 1
      invariant peaks + GreedyPeaks(pos - 1, remaining) == GreedyPeaks(0, size)
    {
      GreedyHead(pos - 1, remaining);
      LargestTreeSize(remaining);
      var h := BitLen(remaining + 1) - 2;
      var treeSize: nat := Pow2(h + 1) - 1;
      var peakPos := pos + treeSize - 1;
      peaks := peaks + [peakPos - 1];
      pos := pos + treeSize;
      remaining := remaining - treeSize;
    }
    NothingGreedy(pos - 1);
  }

  lemma {:induction false} LargestTreeSize(remaining: nat)
    requires remaining > 0
    ensures BitLen(remaining + 1) >= 2 && LargestTree(remaining) == Pow2(BitLen(remaining + 1) - 1) - 1
    ensures 0 < LargestTree(remaining) <= remaining
  {
    hide Pow2;
  }

  lemma {:induction false} NothingGreedy(base: nat)
    ensures GreedyPeaks(base, 0) == []
  {
  }

  lemma {:induction false} PeakLeafBelowTop(k: nat, m: nat, j: nat)
    requires m < Pow2(k) && j < k && Bit(m, j)
    ensures Bit(Pow2(k) + m, j)
    ensures PeakLeaf(Pow2(k) + m, j) == Pow2(k) + PeakLeaf(m, j)
  {
    TopBitBits(k, m, j);
    if j > 0 {
      assert (Pow2(k) + m) / 2 == Pow2(k - 1) + m / 2;
      PeakLeafBelowTop(k - 1, m / 2, j - 1);
    }
  }

  lemma {:induction false} PeakPositionBelowTop(k: nat, m: nat, j: nat)
    requires m < Pow2(k) && j < k && Bit(m, j)
    ensures Bit(Pow2(k) + m, j)
    ensures PosOf(PeakCoord(Pow2(k) + m, j)) == 2 * Pow2(k) - 1 + PosOf(PeakCoord(m, j))
  {
    hide CoordOf, Pow2, Ones, Bit, PeakLeaf;
    PeakLeafBelowTop(k, m, j);
    TopBit(k, PeakLeaf(m, j));
  }

  lemma {:induction false} PeakPositionsBelowTop(base: nat, k: nat, m: nat, j: nat)
    requires m < Pow2(k) && j <= k
    ensures PeakPositions(base, Pow2(k) + m, j) == PeakPositions(base + 2 * Pow2(k) - 1, m, j)
    decreases j
  {
    if j > 0 {
      hide *;
      PeakPositionsBelowTop(base, k, m, j - 1);
      TopBitBits(k, m, j - 1);
      var n, shifted := Pow2(k) + m, base + 2 * Pow2(k) - 1;
      if Bit(m, j - 1) {
        PeakPositionBelowTop(k, m, j - 1);
        PeakPositionsHead(base, n, j - 1);
        PeakPositionsHead(shifted, m, j - 1);
      } else {
        PeakPositionsSkip(base, n, j - 1);
        PeakPositionsSkip(shifted, m, j - 1);
      }
    }
  }

  lemma {:induction false} TopPeak(k: nat, m: nat)
    requires m < Pow2(k)
    ensures Bit(Pow2(k) + m, k)
    ensures PeakLeaf(Pow2(k) + m, k) == Pow2(k) - 1
  {
    if k > 0 {
      TopPeak(k - 1, m / 2);
      assert (Pow2(k) + m) / 2 == Pow2(k - 1) + m / 2;
      assert Bit(Pow2(k) + m, k);
    }
  }

  lemma {:induction false} OnesBelowPow2(k: nat)
    ensures Ones(Pow2(k) - 1) == k
  {
    hide Pow2, Ones;
    if k > 0 {
      OnesBelowPow2(k - 1);
      DoubleOnes(Pow2(k - 1) - 1);
      Pow2Steps(k - 1);
    } else {
      NoOnes();
    }
  }

  lemma {:induction false} NoOnes()
    ensures Pow2(0) == 1 && Ones(0) == 0
  {
  }

  lemma {:induction false} NoPeaksAboveLength(base: nat, n: nat, k: nat)
    requires BitLen(n) <= k
    ensures PeakPositions(base, n, k) == PeakPositions(base, n, BitLen(n))
    decreases k
  {
    hide *;
    if BitLen(n) < k {
      BitsWithinLength(n, k - 1);
      PeakPositionsSkip(base, n, k - 1);
      NoPeaksAboveLength(base, n, k - 1);
    }
  }

  lemma {:induction false} LargestTreeOf(k: nat, m: nat)
    requires m < Pow2(k)
    ensures LeafPos(Pow2(k) + m) == 2 * Pow2(k) - 1 + LeafPos(m)
    ensures LargestTree(LeafPos(Pow2(k) + m)) == 2 * Pow2(k) - 1
  {
    hide CoordOf, Pow2, Ones, BitLen, LargestTree;
    TopBit(k, m);
    Pow2Steps(k);
    var size := LeafPos(Pow2(k) + m);
    BitLenUnique(size + 1, k + 1);
    LargestTreeSize(size);
  }

  lemma {:induction false} Pow2Steps(k: nat)
    ensures Pow2(k + 1) == 2 * Pow2(k) && Pow2(k + 2) == 4 * Pow2(k)
  {
  }

  lemma {:induction false} GreedyHead(base: nat, remaining: nat)
    requires remaining > 0
    ensures var size := LargestTree(remaining);
            GreedyPeaks(base, remaining) == [base + size - 1] + GreedyPeaks(base + size, remaining - size)
  {
  }

  lemma {:induction false} GreedyStep(base: nat, k: nat, m: nat)
    requires m < Pow2(k)
    ensures GreedyPeaks(base, LeafPos(Pow2(k) + m))
         == [base + 2 * Pow2(k) - 2] + GreedyPeaks(base + 2 * Pow2(k) - 1, LeafPos(m))
  {
    hide *;
    LargestTreeOf(k, m);
    GreedyHead(base, LeafPos(Pow2(k) + m));
  }

  lemma {:induction false} TopPeakPosition(k: nat, m: nat)
    requires m < Pow2(k)
    ensures Bit(Pow2(k) + m, k)
    ensures PosOf(PeakCoord(Pow2(k) + m, k)) == 2 * Pow2(k) - 2
  {
    hide Ones, Bit, PeakLeaf, Pow2;
    TopPeak(k, m);
    OnesBelowPow2(k);
  }

  lemma {:induction false} PeakPositionsSkip(base: nat, n: nat, k: nat)
    requires !Bit(n, k)
    ensures PeakPositions(base, n, k + 1) == PeakPositions(base, n, k)
  {
  }

  lemma {:induction false} PeakPositionsHead(base: nat, n: nat, k: nat)
    requires Bit(n, k)
    ensures PeakPositions(base, n, k + 1) == [base + PosOf(PeakCoord(n, k))] + PeakPositions(base, n, k)
  {
  }

  lemma {:induction false} PeakPositionsStep(base: nat, k: nat, m: nat, n: nat)
    requires m < Pow2(k) && n == Pow2(k) + m
    ensures PeakPositions(base, n, k + 1)
         == [base + 2 * Pow2(k) - 2] + PeakPositions(base + 2 * Pow2(k) - 1, m, BitLen(m))
  {
    hide *;
    TopPeakPosition(k, m);
    PeakPositionsHead(base, n, k);
    PeakPositionsTail(base, k, m);
  }

  lemma {:induction false} PeakPositionsTail(base: nat, k: nat, m: nat)
    requires m < Pow2(k)
    ensures PeakPositions(base, Pow2(k) + m, k) == PeakPositions(base + 2 * Pow2(k) - 1, m, BitLen(m))
  {
    var shifted := base + 2 * Pow2(k) - 1;
    var whole, low := PeakPositions(base, Pow2(k) + m, k), PeakPositions(shifted, m, k);
    assert whole == low by { PeakPositionsBelowTop(base, k, m, k); }
    assert low == PeakPositions(shifted, m, BitLen(m)) by {
      BitLenOfSmaller(m, k);
      NoPeaksAboveLength(shifted, m, k);
    }
  }

  /** The greedy size decomposition finds exactly the peaks of the binary counter. */
  lemma {:induction false} GreedyFindsPeaks(base: nat, n: nat)
    ensures GreedyPeaks(base, LeafPos(n)) == PeakPositions(base, n, BitLen(n))
    decreases n
  {
    hide *;
    if n == 0 {
      NoPeaksWhenEmpty(base);
    } else {
      TopBitOf(n);
      var k := BitLen(n) - 1;
      var m := n - Pow2(k);
      GreedyStep(base, k, m);
      PeakPositionsStep(base, k, m, n);
      GreedyFindsPeaks(base + 2 * Pow2(k) - 1, m);
    }
  }

  lemma {:induction false} NoPeaksWhenEmpty(base: nat)
    ensures GreedyPeaks(base, LeafPos(0)) == [] == PeakPositions(base, 0, BitLen(0))
  {
  }

  lemma {:induction false} BitLenOfSmaller(m: nat, k: nat)
    requires m < Pow2(k)
    ensures BitLen(m) <= k
  {
    BitLenBound(m);
    if m > 0 {
      var top: nat := BitLen(m) - 1;
      if top >= k {
        Pow2Monotone(k, top);
      }
    }
  }
}
