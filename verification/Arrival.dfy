/** Orders in which the heights of a range arrive from a pool of workers, and what becomes of them when they are cut
    into batches: the finalized height after each batch is the greatest height of that batch. */
module Arrival {
  import opened Wrappers
  import opened Division

  /** `count` heights from `start` on. */
  function Span(start: nat, count: nat): (s: set<nat>)
    ensures forall h :: h in s <==> start <= h < start + count
  {
    if count == 0 then {} else Span(start, count - 1) + {start + count - 1}
  }

  function HeightSet(hs: seq<nat>): set<nat> {
    set h | h in hs
  }

  ghost predicate IsGreatest(h: nat, hs: seq<nat>) {
    h in hs && forall g :: g in hs ==> g <= h
  }

  // ----- batches -----

  /** The batch that is committed last, when a list is cut into batches of `n` from its start. */
  function LastBatch(hs: seq<nat>, n: nat): seq<nat>
    requires n > 0
    decreases |hs|
  {
    if |hs| <= n then hs else LastBatch(hs[n..], n)
  }

  /** A list of `a` results has been cut into full batches. */
  ghost predicate Cut(a: nat, n: nat)
    requires n > 0
    decreases a
  {
    a == 0 || (a >= n && Cut(a - n, n))
  }

  lemma {:induction false} LastBatchAfterCut(hs: seq<nat>, a: nat, n: nat)
    requires n > 0 && Cut(a, n) && a < |hs| <= a + n
    ensures LastBatch(hs, n) == hs[a..]
    decreases a
  {
    if a > 0 {
      LastBatchAfterCut(hs[n..], a - n, n);
      assert hs[n..][a - n..] == hs[a..];
    } else {
      assert hs[0..] == hs;
    }
  }

  lemma {:induction false} LastBatchMembers(hs: seq<nat>, n: nat)
    requires n > 0
    ensures forall h :: h in LastBatch(hs, n) ==> h in hs
    decreases |hs|
  {
    if |hs| > n { LastBatchMembers(hs[n..], n); }
  }

  lemma {:induction false} ShortBatch(hs: seq<nat>, n: nat)
    requires n > 0 && |hs| <= n
    ensures LastBatch(hs, n) == hs
  {
  }

  lemma {:induction false} BatchKeys(keys: set<nat>, hs: seq<nat>, a: nat)
    requires a <= |hs|
    ensures keys + HeightSet(hs[..a]) + HeightSet(hs[a..]) == keys + HeightSet(hs)
  {
    hide HeightSet;
    HeightSetSplit(hs, a);
  }

  lemma {:induction false} HeightSetSplit(hs: seq<nat>, a: nat)
    requires a <= |hs|
    ensures HeightSet(hs) == HeightSet(hs[..a]) + HeightSet(hs[a..])
  {
    assert hs == hs[..a] + hs[a..];
  }

  lemma {:induction false} CutMore(a: nat, n: nat)
    requires n > 0 && Cut(a, n)
    ensures Cut(a + n, n)
  {
  }

  lemma {:induction false} CutBack(a: nat, n: nat)
    requires n > 0 && a > 0 && Cut(a, n)
    ensures a >= n && Cut(a - n, n)
  {
  }

  // ----- ranges -----

  /** A list of different heights is no longer than the range they are from. */
  lemma {:induction false} RangeLength(hs: seq<nat>, next: nat, bound: nat)
    requires next <= bound && Distinct(hs) && (forall h :: h in hs ==> next <= h < bound)
    ensures |hs| <= bound - next
    decreases bound
  {
    assert hs != [] ==> hs[0] in hs;
    if hs != [] {
      if bound - 1 in hs {
        var i :| 0 <= i < |hs| && hs[i] == bound - 1;
        var rest := hs[..i] + hs[i + 1..];
        assert forall h :: h in rest ==> h in hs && h != bound - 1;
        RangeLength(rest, next, bound - 1);
      } else {
        RangeLength(hs, next, bound - 1);
      }
    }
  }

  lemma {:induction false} DistinctFills(hs: seq<nat>, start: nat, count: nat)
    requires Distinct(hs) && |hs| == count && forall h :: h in hs ==> start <= h < start + count
    ensures HeightSet(hs) == Span(start, count)
  {
    hide Span;
    forall h | start <= h < start + count
      ensures h in hs
    {
      if h !in hs {
        var more := hs + [h];
        RangeLength(more, start, start + count);
      }
    }
  }

  lemma {:induction false} FullSpanEnds(hs: seq<nat>, start: nat, count: nat, f: nat)
    requires count > 0 && HeightSet(hs) == Span(start, count) && IsGreatest(f, hs)
    ensures f == start + count - 1
  {
    hide Span;
    assert start + count - 1 in HeightSet(hs) && f in HeightSet(hs);
  }

  lemma {:induction false} EndIsFinalized(hs: seq<nat>, next: nat, end: nat, n: nat, finalized: nat)
    requires next <= end && n > 0 && Distinct(hs) && HeightSet(hs) == Span(next, end - next + 1)
    requires IsGreatest(finalized, LastBatch(hs, n))
    ensures finalized == end <==> end in LastBatch(hs, n)
    ensures end - next < n ==> finalized == end
  {
    hide Distinct, Span;
    LastBatchMembers(hs, n);
    assert forall h :: h in hs <==> h in HeightSet(hs);
    RangeLength(hs, next, end + 1);
  }

  ghost predicate Fills(hs: seq<nat>, next: nat, end: nat) {
    Distinct(hs) && forall h :: h in hs <==> next <= h <= end
  }

  // ----- the pool of workers -----

  /** The heights that `hs[i]` overtakes: smaller ones of the range that have not arrived before it. */
  ghost function Overtaken(hs: seq<nat>, i: nat, start: nat): set<nat>
    requires i < |hs|
  {
    set g: nat | g in Span(start, if hs[i] < start then 0 else hs[i] - start) && g !in hs[..i]
  }

  /** With `w` workers who take the messages in order, one at a time, a height overtakes fewer than `w` others: each of
      those is still with another worker. */
  ghost predicate Possible(hs: seq<nat>, start: nat, w: nat) {
    forall i :: 0 <= i < |hs| ==> |Overtaken(hs, i, start)| < w
  }

  lemma {:induction false} SubsetSize<T>(a: set<T>, b: set<T>)
    requires a <= b
    ensures |a| <= |b|
    decreases |a|
  {
    if a != {} {
      var x :| x in a;
      SubsetSize(a - {x}, b - {x});
    }
  }

  lemma {:induction false} PossibleNext(hs: seq<nat>, h: nat, held: set<nat>, start: nat, w: nat)
    requires Possible(hs, start, w) && h in held && |held| <= w
    requires forall g :: start <= g < h ==> g in hs || g in held
    ensures Possible(hs + [h], start, w)
  {
    hide Span;
    var all := hs + [h];
    forall i | 0 <= i < |all|
      ensures |Overtaken(all, i, start)| < w
    {
      if i < |hs| {
        assert all[..i] == hs[..i];
        assert Overtaken(all, i, start) == Overtaken(hs, i, start);
      } else {
        assert all[..i] == hs;
        SubsetSize(Overtaken(all, i, start), held - {h});
      }
    }
  }

  lemma {:induction false} PossiblePrefix(hs: seq<nat>, more: seq<nat>, start: nat, w: nat)
    requires Possible(hs + more, start, w)
    ensures Possible(hs, start, w)
  {
    hide Span;
    forall i | 0 <= i < |hs|
      ensures |Overtaken(hs, i, start)| < w
    {
      assert (hs + more)[..i] == hs[..i];
      assert Overtaken(hs + more, i, start) == Overtaken(hs, i, start);
    }
  }

  // ----- the size of the last batch -----

  /** The number of heights in the last batch of a range that ends `length` above its start. */
  function LastSize(length: nat, n: nat): (r: nat)
    requires n > 0
    ensures 0 < r <= n
  {
    length % n + 1
  }

  lemma {:induction false} LastBatchIs(hs: seq<nat>, n: nat)
    requires n > 0 && hs != []
    ensures LastSize(|hs| - 1, n) <= |hs|
    ensures LastBatch(hs, n) == hs[|hs| - LastSize(|hs| - 1, n)..]
    decreases |hs|
  {
    if |hs| > n {
      RemainderLess(|hs| - 1, n);
      LastBatchIs(hs[n..], n);
      var r := LastSize(|hs| - 1, n);
      assert hs[n..][|hs| - n - r..] == hs[|hs| - r..];
    } else {
      RemainderSmall(|hs| - 1, n);
      assert hs[0..] == hs;
    }
  }

  lemma {:induction false} FillsLength(hs: seq<nat>, next: nat, end: nat)
    requires next <= end && Fills(hs, next, end)
    ensures |hs| == end - next + 1 && HeightSet(hs) == Span(next, end - next + 1)
  {
    hide Span;
    RangeLength(hs, next, end + 1);
    assert HeightSet(hs) == Span(next, end - next + 1);
    DistinctSize(hs);
    SpanSize(next, end - next + 1);
  }

  lemma {:induction false} SpanSize(start: nat, count: nat)
    ensures |Span(start, count)| == count
  {
    hide Span;
    if count == 0 {
      assert Span(start, 0) == {};
    } else {
      SpanSize(start, count - 1);
      SpanNext(start, count);
    }
  }

  lemma {:induction false} SpanNext(start: nat, count: nat)
    requires count > 0
    ensures Span(start, count) == Span(start, count - 1) + {start + count - 1}
    ensures start + count - 1 !in Span(start, count - 1)
  {
  }

  lemma {:induction false} DistinctSize(hs: seq<nat>)
    requires Distinct(hs)
    ensures |HeightSet(hs)| == |hs|
  {
    if hs != [] {
      var init, h := hs[..|hs| - 1], hs[|hs| - 1];
      DistinctSize(init);
      assert hs == init + [h];
      assert HeightSet(hs) == HeightSet(init) + {h} && h !in init;
    }
  }

  // ----- when the finalized height is the end of the range -----

  function Up(from: nat, count: nat): (hs: seq<nat>)
    ensures |hs| == count && forall i :: 0 <= i < count ==> hs[i] == from + i
  {
    seq(count, (i: nat) => from + i)
  }

  /** Ascending order, except that the last height overtakes the `r` heights before it. */
  function EndEarly(next: nat, end: nat, r: nat): (hs: seq<nat>)
    requires next + r <= end
    ensures |hs| == end - next + 1
    ensures forall i :: 0 <= i < |hs| ==>
              hs[i] == if i < end - r - next then next + i else if i == end - r - next then end else next + i - 1
  {
    Up(next, end - r - next) + [end] + Up(end - r, r)
  }

  lemma {:induction false} EndEarlyFills(next: nat, end: nat, r: nat)
    requires next + r <= end
    ensures Fills(EndEarly(next, end, r), next, end)
  {
    hide EndEarly;
    var hs, k := EndEarly(next, end, r), end - r - next;
    forall h | next <= h <= end
      ensures h in hs
    {
      var i := if h - next < k then h - next else if h == end then k else h - next + 1;
      assert hs[i] == h;
    }
  }

  lemma {:induction false} EndEarlyPossible(next: nat, end: nat, r: nat, w: nat)
    requires next + r <= end && r < w
    ensures Possible(EndEarly(next, end, r), next, w)
  {
    hide EndEarly, Span;
    var hs, k := EndEarly(next, end, r), end - r - next;
    forall i | 0 <= i < |hs|
      ensures |Overtaken(hs, i, next)| < w
    {
      assert forall j :: 0 <= j < i ==> hs[j] == hs[..i][j];
      forall g | g in Overtaken(hs, i, next)
        ensures i == k && g in Span(end - r, r)
      {
        var j := if g - next < k then g - next else g - next + 1;
        assert hs[j] == g;
      }
      SubsetSize(Overtaken(hs, i, next), Span(end - r, r));
      SpanSize(end - r, r);
    }
  }

  /** What comes after the end of the range has been overtaken by it. */
  lemma {:induction false} EndOvertakes(hs: seq<nat>, next: nat, end: nat, i: nat, r: nat)
    requires next <= end && Fills(hs, next, end) && i < |hs| - r && r <= |hs| && hs[i] == end
    ensures |Overtaken(hs, i, next)| >= r
  {
    hide Span;
    var rest := hs[|hs| - r..];
    forall j | 0 <= j < |rest|
      ensures rest[j] in Overtaken(hs, i, next)
    {
      var g := rest[j];
      assert g == hs[|hs| - r + j] && g in hs;
    }
    assert Distinct(rest);
    DistinctSize(rest);
    assert HeightSet(rest) <= Overtaken(hs, i, next);
    SubsetSize(HeightSet(rest), Overtaken(hs, i, next));
  }

  /** In every order that `w` workers can produce, the last height is in the last batch, so that the finalized height is
      the end of the range, exactly when the range fits one batch or the last batch is too large to be overtaken. */
  lemma {:induction false} AlwaysFinalized(next: nat, end: nat, n: nat, w: nat)
    requires next <= end && n > 0 && w > 0
    ensures (forall hs :: Fills(hs, next, end) && Possible(hs, next, w) ==> end in LastBatch(hs, n))
       <==> end - next < n || w <= (end - next) % n + 1
  {
    hide Distinct, EndEarly, LastBatch, Overtaken;
    var r := LastSize(end - next, n);
    if end - next < n || w <= r {
      forall hs | Fills(hs, next, end) && Possible(hs, next, w)
        ensures end in LastBatch(hs, n)
      {
        FillsLength(hs, next, end);
        LastBatchIs(hs, n);
        if end - next < n { RemainderSmall(end - next, n); }
        var i :| 0 <= i < |hs| && hs[i] == end;
        if i < |hs| - r {
          EndOvertakes(hs, next, end, i, r);
        } else {
          assert hs[|hs| - r..][i - (|hs| - r)] == end;
        }
      }
    } else {
      var hs := EndEarly(next, end, r);
      EndEarlyFills(next, end, r);
      EndEarlyPossible(next, end, r, w);
      LastBatchIs(hs, n);
    }
  }

  // ----- when a stopped copy has no holes -----

  /** The committer stopped after the first `a` results: between two batches, or at the end. */
  ghost predicate StopsAt(hs: seq<nat>, a: nat, n: nat)
    requires n > 0
  {
    0 < a <= |hs| && (Cut(a, n) || a == |hs|)
  }

  /** After the first `a` results no height up to the finalized one is missing. */
  ghost predicate NoHoles(hs: seq<nat>, a: nat, n: nat, next: nat)
    requires n > 0 && a <= |hs|
  {
    forall f: nat, h: nat :: IsGreatest(f, LastBatch(hs[..a], n)) && next <= h <= f ==> h in hs[..a]
  }

  /** The first height comes only after the `n` heights above it. */
  function StartLate(next: nat, end: nat, n: nat): (hs: seq<nat>)
    requires next + n <= end
    ensures |hs| == end - next + 1
    ensures forall i :: 0 <= i < |hs| ==> hs[i] == if i < n then next + 1 + i else if i == n then next else next + i
  {
    Up(next + 1, n) + [next] + Up(next + n + 1, end - next - n)
  }

  lemma {:induction false} StartLateFills(next: nat, end: nat, n: nat)
    requires next + n <= end
    ensures Fills(StartLate(next, end, n), next, end)
  {
    hide StartLate;
    var hs := StartLate(next, end, n);
    forall h | next <= h <= end
      ensures h in hs
    {
      var i := if h == next then n else if h <= next + n then h - next - 1 else h - next;
      assert hs[i] == h;
    }
  }

  lemma {:induction false} StartLatePossible(next: nat, end: nat, n: nat)
    requires next + n <= end
    ensures Possible(StartLate(next, end, n), next, 2)
  {
    hide StartLate, Span;
    var hs := StartLate(next, end, n);
    forall i | 0 <= i < |hs|
      ensures |Overtaken(hs, i, next)| < 2
    {
      assert forall j :: 0 <= j < i ==> hs[j] == hs[..i][j];
      forall g | g in Overtaken(hs, i, next)
        ensures g == next
      {
        var j := if g == next then n else if g <= next + n then g - next - 1 else g - next;
        assert hs[j] == g;
      }
      SubsetSize(Overtaken(hs, i, next), {next});
    }
  }

  lemma {:induction false} OneWorkerAscends(hs: seq<nat>, a: nat, n: nat, next: nat)
    requires n > 0 && a <= |hs| && Possible(hs, next, 1)
    ensures NoHoles(hs, a, n, next)
  {
    hide Span, LastBatch;
    forall f: nat, h: nat | IsGreatest(f, LastBatch(hs[..a], n)) && next <= h <= f
      ensures h in hs[..a]
    {
      LastBatchMembers(hs[..a], n);
      var i :| 0 <= i < a && hs[..a][i] == f;
      var overtaken := Overtaken(hs, i, next);
      assert |overtaken| < 1 && overtaken == {};
      assert h < f ==> h in hs[..i] || h in overtaken;
      assert hs[..i] <= hs[..a];
    }
  }

  /** The whole range has no holes. */
  lemma {:induction false} WholeRange(hs: seq<nat>, n: nat, next: nat, end: nat)
    requires n > 0 && Fills(hs, next, end)
    ensures NoHoles(hs, |hs|, n, next)
  {
    hide Distinct, LastBatch;
    assert hs[..|hs|] == hs;
    LastBatchMembers(hs, n);
  }

  /** Wherever it is stopped, a copy leaves no missing height below the finalized one, in every order that `w` workers
      can produce, exactly when the range fits one batch or there is only one worker. */
  lemma {:induction false} NeverHoles(next: nat, end: nat, n: nat, w: nat)
    requires next <= end && n > 0 && w > 0
    ensures (forall hs, a ::
               Fills(hs, next, end) && Possible(hs, next, w) && StopsAt(hs, a, n) ==> NoHoles(hs, a, n, next))
       <==> end - next < n || w == 1
  {
    hide Distinct, StartLate, LastBatch, Overtaken, NoHoles;
    if end - next < n || w == 1 {
      forall hs, a | Fills(hs, next, end) && Possible(hs, next, w) && StopsAt(hs, a, n)
        ensures NoHoles(hs, a, n, next)
      {
        if w == 1 {
          OneWorkerAscends(hs, a, n, next);
        } else {
          FillsLength(hs, next, end);
          if Cut(a, n) { CutBack(a, n); }
          WholeRange(hs, n, next, end);
        }
      }
    } else {
      var hs := StartLate(next, end, n);
      StartLateFills(next, end, n);
      StartLatePossible(next, end, n);
      MoreWorkers(hs, next, 2, w);
      HoleAtStart(next, end, n);
    }
  }

  lemma {:induction false} MoreWorkers(hs: seq<nat>, start: nat, v: nat, w: nat)
    requires Possible(hs, start, v) && v <= w
    ensures Possible(hs, start, w)
  {
    hide Overtaken;
  }

  lemma {:induction false} HoleAtStart(next: nat, end: nat, n: nat)
    requires n > 0 && next + n <= end
    ensures var hs := StartLate(next, end, n); StopsAt(hs, n, n) && !NoHoles(hs, n, n, next)
  {
    hide StartLate;
    var hs := StartLate(next, end, n);
    var first := hs[..n];
    assert LastBatch(first, n) == first;
    assert first[n - 1] == next + n;
    assert IsGreatest(next + n, first);
    assert next !in first;
    assert Cut(n, n);
  }

  // ----- the pool as a machine -----

  /** How many messages have been taken from the stream, which heights the workers hold, and what they have sent. */
  datatype Pool = Pool(taken: nat, held: set<nat>, sent: seq<nat>)

  datatype PoolEvent = Take | Send(h: nat)

  predicate CanHappen(s: Pool, e: PoolEvent, count: nat, w: nat) {
    match e
    case Take => s.taken < count && |s.held| < w
    case Send(h) => h in s.held
  }

  function PoolStep(s: Pool, e: PoolEvent, start: nat): Pool {
    match e
    case Take => s.(taken := s.taken + 1, held := s.held + {start + s.taken})
    case Send(h) => s.(held := s.held - {h}, sent := s.sent + [h])
  }

  /** The pool after a list of events; an event that cannot happen is skipped. */
  function PoolAfter(events: seq<PoolEvent>, start: nat, count: nat, w: nat): Pool {
    if events == [] then Pool(0, {}, [])
    else
      var s := PoolAfter(events[..|events| - 1], start, count, w);
      var e := events[|events| - 1];
      if CanHappen(s, e, count, w) then PoolStep(s, e, start) else s
  }

  ghost predicate PoolInv(s: Pool, start: nat, w: nat) {
    && |s.held| <= w && Possible(s.sent, start, w)
    && (forall g :: g in s.held <==> start <= g < start + s.taken && g !in s.sent)
    && (forall h :: h in s.sent ==> h < start + s.taken)
  }

  lemma {:induction false} TakeKeepsInv(s: Pool, start: nat, count: nat, w: nat)
    requires PoolInv(s, start, w) && CanHappen(s, Take, count, w)
    ensures PoolInv(PoolStep(s, Take, start), start, w)
  {
    hide Possible;
  }

  lemma {:induction false} SendKeepsInv(s: Pool, h: nat, start: nat, w: nat)
    requires PoolInv(s, start, w) && h in s.held
    ensures PoolInv(PoolStep(s, Send(h), start), start, w)
  {
    hide Possible;
    PossibleNext(s.sent, h, s.held, start, w);
  }

  lemma {:induction false} PoolKeepsInv(events: seq<PoolEvent>, start: nat, count: nat, w: nat)
    ensures PoolInv(PoolAfter(events, start, count, w), start, w)
  {
    hide PoolInv, PoolStep;
    if events == [] {
      PoolInvStarts(start, w);
    } else {
      var init, e := events[..|events| - 1], events[|events| - 1];
      var s := PoolAfter(init, start, count, w);
      PoolKeepsInv(init, start, count, w);
      if CanHappen(s, e, count, w) {
        match e
        case Take => TakeKeepsInv(s, start, count, w);
        case Send(h) => SendKeepsInv(s, h, start, w);
      }
    }
  }

  lemma {:induction false} PoolInvStarts(start: nat, w: nat)
    ensures PoolInv(Pool(0, {}, []), start, w)
  {
  }

  lemma {:induction false} PoolNext(events: seq<PoolEvent>, e: PoolEvent, start: nat, count: nat, w: nat)
    ensures var s := PoolAfter(events, start, count, w);
            PoolAfter(events + [e], start, count, w) == if CanHappen(s, e, count, w) then PoolStep(s, e, start) else s
  {
    assert (events + [e])[..|events|] == events;
  }

  /** Taking messages until height `h` is held, while only heights that `h` overtakes are held before it. */
  lemma {:induction false} TakeUntil(events: seq<PoolEvent>, h: nat, start: nat, count: nat, w: nat, over: set<nat>)
    returns (more: seq<PoolEvent>)
    requires start <= h < start + count && |over| < w && PoolAfter(events, start, count, w).taken <= h - start
    requires h !in PoolAfter(events, start, count, w).sent
    requires forall g :: start <= g < h && g !in PoolAfter(events, start, count, w).sent ==> g in over
    ensures PoolAfter(more, start, count, w).sent == PoolAfter(events, start, count, w).sent
    ensures PoolAfter(more, start, count, w).taken == h - start + 1 && h in PoolAfter(more, start, count, w).held
    decreases h - PoolAfter(events, start, count, w).taken
  {
    hide PoolAfter, Possible;
    var s := PoolAfter(events, start, count, w);
    PoolKeepsInv(events, start, count, w);
    SubsetSize(s.held, over);
    PoolNext(events, Take, start, count, w);
    more := events + [Take];
    if s.taken < h - start { more := TakeUntil(more, h, start, count, w, over); }
  }

  /** The pool produces the first `i` heights of a possible order, taking no message before it has to. */
  lemma {:induction false} Produce(hs: seq<nat>, i: nat, start: nat, count: nat, w: nat)
    returns (events: seq<PoolEvent>)
    requires w > 0 && i <= |hs| && Distinct(hs) && Possible(hs, start, w)
    requires forall h :: h in hs ==> start <= h < start + count
    ensures var s := PoolAfter(events, start, count, w);
            s.sent == hs[..i] && (s.taken == 0 || exists j :: 0 <= j < i && s.taken == hs[j] - start + 1)
  {
    hide PoolAfter, Possible, Overtaken;
    events := [];
    if i == 0 {
      PoolStarts(start, count, w);
      assert hs[..0] == [];
    } else {
      var h := hs[i - 1];
      assert h in hs;
      NotBefore(hs, i - 1);
      events := Produce(hs, i - 1, start, count, w);
      var s := PoolAfter(events, start, count, w);
      PoolKeepsInv(events, start, count, w);
      if s.taken <= h - start {
        var over := OvertakenIs(hs, i - 1, start, w);
        events := TakeUntil(events, h, start, count, w, over);
      }
      PoolNext(events, Send(h), start, count, w);
      events := events + [Send(h)];
      assert hs[..i] == hs[..i - 1] + [h];
      assert hs[i - 1] == h;
    }
  }

  lemma {:induction false} NotBefore(hs: seq<nat>, i: nat)
    requires Distinct(hs) && i < |hs|
    ensures hs[i] !in hs[..i]
  {
  }

  lemma {:induction false} PoolStarts(start: nat, count: nat, w: nat)
    ensures PoolAfter([], start, count, w) == Pool(0, {}, [])
  {
  }

  lemma {:induction false} OvertakenIs(hs: seq<nat>, i: nat, start: nat, w: nat) returns (over: set<nat>)
    requires i < |hs| && Possible(hs, start, w)
    ensures |over| < w && forall g :: start <= g < hs[i] && g !in hs[..i] ==> g in over
  {
    hide Span;
    over := Overtaken(hs, i, start);
  }

  ghost predicate Produced(hs: seq<nat>, start: nat, count: nat, w: nat) {
    exists events :: PoolAfter(events, start, count, w).sent == hs
  }

  /** The pool of `w` workers produces exactly the possible orders. */
  lemma {:induction false} PoolProduces(hs: seq<nat>, next: nat, end: nat, w: nat)
    requires next <= end && w > 0 && Fills(hs, next, end)
    ensures Possible(hs, next, w) <==> Produced(hs, next, end - next + 1, w)
  {
    hide PoolAfter, Possible;
    var count := end - next + 1;
    if Produced(hs, next, count, w) {
      var events :| PoolAfter(events, next, count, w).sent == hs;
      PoolKeepsInv(events, next, count, w);
    }
    if Possible(hs, next, w) {
      var events := Produce(hs, |hs|, next, count, w);
      assert hs[..|hs|] == hs;
    }
  }
}
