/** Delivery of block headers to one subscriber: the thread that commits and publishes blocks runs beside the
    thread that serves the subscription, and every interleaving of their steps is a list of events. */
module HeaderFeed {
  /** Where the publishing thread is. Between `Committed(h)` and `Sending(h, ...)` it copies the subscriber map. */
  datatype Publisher =
    | Quiet
    | Committed(h: nat)
    | Sending(h: nat, included: bool)
    | Slow(h: nat)

  /** Where the serving thread is. */
  datatype Server = NotYet | Subscribed | History | Live | Gone

  /** `fin` is the finalized height that the server read after subscribing and `height` its loop variable in the
      replay of history. `firstLive` and `liveCount` only record what happened: the first height for which the
      publisher will see this subscriber, and how many headers came through the channel. */
  datatype Feed = Feed(
    start: nat,
    finalized: nat,
    publisher: Publisher,
    registered: bool,
    channel: seq<nat>,
    closed: bool,
    server: Server,
    fin: nat,
    height: nat,
    sent: seq<nat>,
    firstLive: nat,
    liveCount: nat)

  const CAPACITY: nat := 100

  datatype Event =
    | Commit
    | CopySubscribers
    | SendHeader
    | SendTimesOut
    | DisconnectSlow
    | Subscribe
    | ReadFinalized
    | SendHistory
    | EndHistory
    | Receive
    | SeeClosed
    | ClientLeaves

  function Initial(start: nat, finalized: nat): Feed {
    Feed(start, finalized, Quiet, false, [], false, NotYet, 0, start, [], 0, 0)
  }

  predicate Active(s: Server) {
    s.Subscribed? || s.History? || s.Live?
  }

  predicate Enabled(s: Feed, e: Event) {
    match e
    case Commit => s.publisher.Quiet?
    case CopySubscribers => s.publisher.Committed?
    case SendHeader => s.publisher.Sending? && (!s.publisher.included || s.closed || |s.channel| < CAPACITY)
    case SendTimesOut => s.publisher.Sending? && s.publisher.included
    case DisconnectSlow => s.publisher.Slow?
    case Subscribe => s.server.NotYet?
    case ReadFinalized => s.server.Subscribed?
    case SendHistory => s.server.History? && s.height <= s.fin
    case EndHistory => s.server.History? && s.height > s.fin
    case Receive => s.server.Live? && s.channel != []
    case SeeClosed => s.server.Live? && s.channel == [] && s.closed
    case ClientLeaves => Active(s.server)
  }

  /** Removing a subscriber closes its channel; a second removal does nothing. */
  function Unregister(s: Feed): Feed {
    if s.registered then s.(registered := false, closed := true) else s
  }

  function Do(s: Feed, e: Event): Feed
    requires Enabled(s, e)
  {
    match e
    case Commit => s.(finalized := s.finalized + 1, publisher := Committed(s.finalized + 1))
    case CopySubscribers => s.(publisher := Sending(s.publisher.h, s.registered))
    case SendHeader =>
      if s.publisher.included && !s.closed then s.(publisher := Quiet, channel := s.channel + [s.publisher.h])
      else s.(publisher := Quiet)
    case SendTimesOut => s.(publisher := Slow(s.publisher.h))
    case DisconnectSlow => Unregister(s).(publisher := Quiet)
    case Subscribe =>
      s.(registered := true, server := Subscribed,
         firstLive := if s.publisher.Committed? then s.finalized else s.finalized + 1)
    case ReadFinalized => s.(fin := s.finalized, server := if s.start > 0 then History else Live)
    case SendHistory => s.(height := s.height + 1, sent := s.sent + [s.height])
    case EndHistory => s.(server := Live)
    case Receive => s.(channel := s.channel[1..], sent := s.sent + [s.channel[0]], liveCount := s.liveCount + 1)
    case SeeClosed => Unregister(s).(server := Gone)
    case ClientLeaves => Unregister(s).(server := Gone)
  }

  /** The state after a list of events; an event that cannot happen is skipped. */
  function After(start: nat, finalized: nat, events: seq<Event>): Feed {
    if events == [] then Initial(start, finalized)
    else
      var s := After(start, finalized, events[..|events| - 1]);
      var e := events[|events| - 1];
      if Enabled(s, e) then Do(s, e) else s
  }

  // ----- what every interleaving keeps -----

  function Range(lo: nat, hi: nat): (r: seq<nat>)
    ensures |r| == if lo <= hi then hi - lo else 0
    ensures forall i :: 0 <= i < |r| ==> r[i] == lo + i
  {
    if lo <= hi then seq(hi - lo, (i: nat) => lo + i) else []
  }

  /** The height after the last one that history replay covers. */
  function HistoryEnd(start: nat, fin: nat): nat {
    if start == 0 || start > fin then start else fin + 1
  }

  /** The next height that this subscriber would be sent through its channel. */
  function NextLive(s: Feed): nat {
    s.firstLive + s.liveCount + |s.channel|
  }

  /** The publisher is about to continue the channel without a gap. */
  ghost predicate InStep(s: Feed) {
    match s.publisher
    case Quiet => NextLive(s) == s.finalized + 1
    case Committed(h) => NextLive(s) == h
    case Sending(h, included) => NextLive(s) == if included then h else h + 1
    case Slow(h) => NextLive(s) == h
  }

  /** What was sent: some of history, then the channel from its first height on. */
  ghost predicate Delivered(s: Feed) {
    s.sent == Range(s.start, s.height) + Range(s.firstLive, s.firstLive + s.liveCount)
  }

  ghost predicate ServerInv(s: Feed) {
    && s.start <= s.height
    && (s.height > s.start ==> s.height <= s.fin + 1)
    && (s.server.NotYet? || s.server.Subscribed? ==> s.height == s.start && s.liveCount == 0)
    && (s.server.History? ==> 0 < s.start && s.height <= HistoryEnd(s.start, s.fin) && s.liveCount == 0)
    && (s.server.Live? || s.liveCount > 0 ==> s.height == HistoryEnd(s.start, s.fin))
    && (s.server.History? || s.server.Live? || s.liveCount > 0 ==> s.firstLive <= s.fin + 1)
  }

  ghost predicate PublisherInv(s: Feed) {
    && (!s.publisher.Quiet? ==> s.publisher.h == s.finalized)
    && (s.server.NotYet? ==>
          && !s.registered && !s.closed && s.channel == [] && s.firstLive == 0 && s.liveCount == 0
          && !s.publisher.Slow? && (s.publisher.Sending? ==> !s.publisher.included))
    && (!s.server.NotYet? ==> s.firstLive <= s.finalized + 1 && (s.registered <==> !s.closed))
    && (s.registered ==> InStep(s))
  }

  ghost predicate Inv(s: Feed) {
    && PublisherInv(s) && ServerInv(s) && Delivered(s)
    && s.channel == Range(s.firstLive + s.liveCount, NextLive(s))
  }

  lemma {:induction false} RangeNext(lo: nat, hi: nat)
    requires lo <= hi
    ensures Range(lo, hi + 1) == Range(lo, hi) + [hi]
    ensures Range(lo, hi + 1)[1..] == Range(lo + 1, hi + 1)
  {
  }

  lemma {:induction false} StepKeepsPublisher(s: Feed, e: Event)
    requires Inv(s) && Enabled(s, e)
    ensures PublisherInv(Do(s, e))
    ensures Do(s, e).channel == Range(Do(s, e).firstLive + Do(s, e).liveCount, NextLive(Do(s, e)))
  {
    hide ServerInv, Delivered, Range;
    var t := Do(s, e);
    EmptyRanges(t.firstLive + t.liveCount);
    if e.SendHeader? {
      RangeNext(s.firstLive + s.liveCount, NextLive(s));
    } else if e.Receive? {
      RangeNext(s.firstLive + s.liveCount, NextLive(s) - 1);
    }
  }

  lemma {:induction false} RangeMembers(lo: nat, hi: nat)
    ensures forall k :: k in Range(lo, hi) <==> lo <= k < hi
  {
    forall k | lo <= k < hi
      ensures k in Range(lo, hi)
    {
      assert Range(lo, hi)[k - lo] == k;
    }
  }

  lemma {:induction false} EmptyRanges(lo: nat)
    ensures Range(lo, lo) == []
  {
  }

  lemma {:induction false} StepKeepsServer(s: Feed, e: Event)
    requires Inv(s) && Enabled(s, e)
    ensures ServerInv(Do(s, e))
  {
    hide Range, Delivered, InStep, NextLive;
  }

  lemma {:induction false} StepKeepsDelivered(s: Feed, e: Event)
    requires Inv(s) && Enabled(s, e)
    ensures Delivered(Do(s, e))
  {
    hide PublisherInv, Range, HistoryEnd;
    var t := Do(s, e);
    if e.SendHistory? {
      RangeNext(s.start, s.height);
      EmptyRanges(s.firstLive);
    } else if e.Receive? {
      RangeNext(s.firstLive, s.firstLive + s.liveCount);
      assert s.channel[0] == s.firstLive + s.liveCount;
    } else if e.Subscribe? {
      EmptyRanges(s.firstLive);
      EmptyRanges(t.firstLive);
    } else {
      assert t.sent == s.sent && t.start == s.start && t.height == s.height && t.firstLive == s.firstLive;
    }
  }

  /** In every interleaving the headers sent are a run of history from the start height, followed by the
      published heights from `firstLive` on, and the channel continues them. */
  lemma {:induction false} DeliveryShape(start: nat, finalized: nat, events: seq<Event>)
    ensures Inv(After(start, finalized, events))
    ensures After(start, finalized, events).start == start
  {
    hide Inv, Do, Enabled;
    if events == [] {
      InitialInv(start, finalized);
    } else {
      var s, e := After(start, finalized, events[..|events| - 1]), events[|events| - 1];
      DeliveryShape(start, finalized, events[..|events| - 1]);
      if Enabled(s, e) { StepKeepsInv(s, e); }
    }
  }

  lemma {:induction false} InitialInv(start: nat, finalized: nat)
    ensures Inv(Initial(start, finalized))
  {
  }

  lemma {:induction false} StepKeepsInv(s: Feed, e: Event)
    requires Inv(s) && Enabled(s, e)
    ensures Inv(Do(s, e)) && Do(s, e).start == s.start
  {
    hide PublisherInv, ServerInv, Delivered, Range, NextLive;
    StepKeepsPublisher(s, e);
    StepKeepsServer(s, e);
    StepKeepsDelivered(s, e);
  }

  // ----- no gaps, no repetition -----

  /** The heights are an interval that begins at `start`. */
  ghost predicate IntervalFrom(start: nat, heights: seq<nat>) {
    forall h :: h in heights ==> start <= h && forall k :: start <= k <= h ==> k in heights
  }

  /** Only heights that history replay covered can be sent twice. */
  lemma {:induction false} RepeatsAreOld(start: nat, finalized: nat, events: seq<Event>, i: nat, j: nat)
    requires i < j < |After(start, finalized, events).sent|
    requires After(start, finalized, events).sent[i] == After(start, finalized, events).sent[j]
    ensures After(start, finalized, events).sent[i] <= After(start, finalized, events).fin
  {
    hide After;
    DeliveryShape(start, finalized, events);
    var s := After(start, finalized, events);
    assert i < |Range(s.start, s.height)|;
  }

  /** What was sent has no gap and nothing below the start height exactly when no live header came yet or the
      first live height is not below the start height. */
  lemma {:induction false} GapFreeExactly(start: nat, finalized: nat, events: seq<Event>)
    requires start > 0
    ensures var s := After(start, finalized, events);
            IntervalFrom(start, s.sent) <==> s.liveCount == 0 || start <= s.firstLive
  {
    hide After, PublisherInv, NextLive, Range;
    DeliveryShape(start, finalized, events);
    var s := After(start, finalized, events);
    RangeMembers(s.start, s.height);
    RangeMembers(s.firstLive, s.firstLive + s.liveCount);
    if s.liveCount > 0 {
      assert s.firstLive in s.sent;
    }
  }

  /** A registered subscriber that has caught up with its channel while nothing is being published has been sent
      every height from its start height to the finalized one. */
  lemma {:induction false} NothingIsMissed(start: nat, finalized: nat, events: seq<Event>, h: nat)
    requires start > 0
    requires var s := After(start, finalized, events);
             s.server.Live? && s.registered && s.publisher.Quiet? && s.channel == [] && start <= h <= s.finalized
    ensures h in After(start, finalized, events).sent
  {
    hide After, Range;
    DeliveryShape(start, finalized, events);
    var s := After(start, finalized, events);
    RangeMembers(s.start, s.height);
    RangeMembers(s.firstLive, s.firstLive + s.liveCount);
  }

  function Step(s: Feed, e: Event): Feed {
    if Enabled(s, e) then Do(s, e) else s
  }

  lemma {:induction false} AfterNext(start: nat, finalized: nat, events: seq<Event>, e: Event)
    ensures After(start, finalized, events + [e]) == Step(After(start, finalized, events), e)
  {
    hide Enabled, Do;
    assert (events + [e])[..|events|] == events;
  }

  /** The first height that the publisher would send to a subscriber that registers now. */
  function FirstLiveAt(s: Feed): nat {
    if s.publisher.Committed? then s.finalized else s.finalized + 1
  }

  lemma {:induction false} StepKeepsFirstLive(s: Feed, e: Event)
    ensures !s.server.NotYet? ==> !Step(s, e).server.NotYet? && Step(s, e).firstLive == s.firstLive
    ensures s.server.NotYet? && e.Subscribe? ==> !Step(s, e).server.NotYet? && Step(s, e).firstLive == FirstLiveAt(s)
  {
  }

  lemma {:induction false} FirstLiveIsFixed(start: nat, finalized: nat, before: seq<Event>, after: seq<Event>)
    requires After(start, finalized, before).server.NotYet?
    ensures var s, t := After(start, finalized, before), After(start, finalized, before + [Subscribe] + after);
            !t.server.NotYet? && t.firstLive == FirstLiveAt(s)
    decreases |after|
  {
    hide After, Step, FirstLiveAt;
    var events := before + [Subscribe];
    if after == [] {
      AfterNext(start, finalized, before, Subscribe);
      StepKeepsFirstLive(After(start, finalized, before), Subscribe);
      assert events + after == events;
    } else {
      var init, e := after[..|after| - 1], after[|after| - 1];
      FirstLiveIsFixed(start, finalized, before, init);
      AfterNext(start, finalized, events + init, e);
      StepKeepsFirstLive(After(start, finalized, events + init), e);
      assert events + after == events + init + [e];
    }
  }

  function Steps(s: Feed, events: seq<Event>): Feed {
    if events == [] then s else Step(Steps(s, events[..|events| - 1]), events[|events| - 1])
  }

  lemma {:induction false} AfterSteps(start: nat, finalized: nat, before: seq<Event>, after: seq<Event>)
    ensures After(start, finalized, before + after) == Steps(After(start, finalized, before), after)
    decreases |after|
  {
    hide Step, After;
    if after == [] {
      assert before + after == before;
    } else {
      var init, e := after[..|after| - 1], after[|after| - 1];
      AfterSteps(start, finalized, before, init);
      AfterNext(start, finalized, before + init, e);
      assert before + after == before + init + [e];
    }
  }

  /** Read the finalized height, find no history, let the publisher finish, and wait for one more block. */
  const TO_FIRST_LIVE: seq<Event> :=
    [ReadFinalized, EndHistory, CopySubscribers, SendHeader, Commit, CopySubscribers, SendHeader, Receive]

  lemma {:induction false} StepsUnfold(s: Feed)
    ensures Steps(s, TO_FIRST_LIVE)
         == Step(Step(Step(Step(Step(Step(Step(Step(s, ReadFinalized), EndHistory),
                 CopySubscribers), SendHeader), Commit), CopySubscribers), SendHeader), Receive)
  {
    hide Step;
    var t := TO_FIRST_LIVE;
    assert t[..7][..6] == t[..6] && t[..6][..5] == t[..5] && t[..5][..4] == t[..4];
    assert t[..4][..3] == t[..3] && t[..3][..2] == t[..2] && t[..2][..1] == t[..1];
    assert Steps(s, t[..1]) == Step(s, ReadFinalized);
    assert Steps(s, t[..2]) == Step(Steps(s, t[..1]), EndHistory);
    assert Steps(s, t[..3]) == Step(Steps(s, t[..2]), CopySubscribers);
    assert Steps(s, t[..4]) == Step(Steps(s, t[..3]), SendHeader);
    assert Steps(s, t[..5]) == Step(Steps(s, t[..4]), Commit);
    assert Steps(s, t[..6]) == Step(Steps(s, t[..5]), CopySubscribers);
    assert Steps(s, t[..7]) == Step(Steps(s, t[..6]), SendHeader);
  }

  /** The subscriber is live, still registered, and its channel has room. */
  ghost predicate Ready(s: Feed) {
    s.server.Live? && s.registered && !s.closed && |s.channel| <= 1 && s.liveCount == 0
  }

  lemma {:induction false} BecomesLive(s: Feed)
    requires s.server.Subscribed? && s.registered && !s.closed && s.channel == [] && s.liveCount == 0
    requires s.start == s.height > s.finalized
    ensures var t := Step(Step(s, ReadFinalized), EndHistory); Ready(t) && t.channel == [] && t.publisher == s.publisher
  {
  }

  lemma {:induction false} PublisherFinishes(s: Feed)
    requires Ready(s) && s.channel == [] && !s.publisher.Slow?
    ensures var t := Step(Step(s, CopySubscribers), SendHeader); Ready(t) && t.publisher.Quiet?
  {
  }

  lemma {:induction false} NextBlockArrives(s: Feed)
    requires Ready(s) && s.publisher.Quiet?
    ensures Step(Step(Step(Step(s, Commit), CopySubscribers), SendHeader), Receive).liveCount == 1
  {
    var t := Step(Step(s, Commit), CopySubscribers);
    assert t.publisher == Sending(s.finalized + 1, true) && Ready(t);
    assert Step(t, SendHeader).channel == s.channel + [s.finalized + 1];
  }

  lemma {:induction false} LiveHeaderArrives(s: Feed)
    requires Inv(s) && s.server.NotYet? && s.start > FirstLiveAt(s)
    ensures Steps(Step(s, Subscribe), TO_FIRST_LIVE).liveCount == 1
  {
    hide Step, Steps, TO_FIRST_LIVE, Delivered, Range;
    var t := Step(s, Subscribe);
    SubscribeStep(s);
    StepsUnfold(t);
    BecomesLive(t);
    PublisherFinishes(Step(Step(t, ReadFinalized), EndHistory));
    NextBlockArrives(Step(Step(Step(Step(t, ReadFinalized), EndHistory), CopySubscribers), SendHeader));
  }

  lemma {:induction false} SubscribeStep(s: Feed)
    requires Inv(s) && s.server.NotYet?
    ensures var t := Step(s, Subscribe);
            && t.server.Subscribed? && t.registered && !t.closed && t.channel == [] && t.liveCount == 0
            && t.start == t.height == s.start && t.finalized == s.finalized
            && t.publisher == s.publisher && !t.publisher.Slow?
  {
    hide Delivered, Range;
  }

  /** Whatever happens afterwards, a subscription is sent an interval from its start height exactly when at the
      moment of subscribing that height is finalized, or is the next one and no finalized block is still
      waiting to be published. */
  lemma {:induction false} AlwaysGapFree(start: nat, finalized: nat, before: seq<Event>)
    requires start > 0 && After(start, finalized, before).server.NotYet?
    ensures (forall after: seq<Event> ::
               IntervalFrom(start, After(start, finalized, before + [Subscribe] + after).sent))
       <==> start <= FirstLiveAt(After(start, finalized, before))
  {
    hide After, IntervalFrom, Inv, TO_FIRST_LIVE, Steps, Step;
    var s := After(start, finalized, before);
    DeliveryShape(start, finalized, before);
    forall after: seq<Event>
      ensures start <= FirstLiveAt(s) ==>
                IntervalFrom(start, After(start, finalized, before + [Subscribe] + after).sent)
    {
      FirstLiveIsFixed(start, finalized, before, after);
      GapFreeExactly(start, finalized, before + [Subscribe] + after);
    }
    if start > FirstLiveAt(s) {
      LiveHeaderArrives(s);
      AfterNext(start, finalized, before, Subscribe);
      AfterSteps(start, finalized, before + [Subscribe], TO_FIRST_LIVE);
      FirstLiveIsFixed(start, finalized, before, TO_FIRST_LIVE);
      GapFreeExactly(start, finalized, before + [Subscribe] + TO_FIRST_LIVE);
    }
  }

  /** One height above the finalized one is not enough: if the last block is committed but not yet published,
      the subscriber is sent that block although it asked for the next one. */
  lemma {:induction false} PendingPublishBreaksTheInterval(f: nat)
    ensures var s := After(f + 2, f,
                           [Commit, Subscribe, ReadFinalized, EndHistory, CopySubscribers, SendHeader, Receive]);
            s.finalized + 1 == f + 2 && s.sent == [f + 1] && !IntervalFrom(f + 2, s.sent)
  {
    hide After, Step, Do, Enabled;
    var e0 := [Commit];
    var e1 := e0 + [Subscribe];
    var e2 := e1 + [ReadFinalized];
    var e3 := e2 + [EndHistory];
    var e4 := e3 + [CopySubscribers];
    var e5 := e4 + [SendHeader];
    AfterNext(f + 2, f, [], Commit);
    AfterNext(f + 2, f, e0, Subscribe);
    AfterNext(f + 2, f, e1, ReadFinalized);
    AfterNext(f + 2, f, e2, EndHistory);
    AfterNext(f + 2, f, e3, CopySubscribers);
    AfterNext(f + 2, f, e4, SendHeader);
    AfterNext(f + 2, f, e5, Receive);
    assert [] + [Commit] == e0;
    assert e5 + [Receive] == [Commit, Subscribe, ReadFinalized, EndHistory, CopySubscribers, SendHeader, Receive];
    PendingPublish(f);
    assert f + 1 in [f + 1];
  }

  lemma {:induction false} PendingPublish(f: nat)
    ensures var s := Step(Step(Step(Step(Step(Step(Step(After(f + 2, f, []),
                       Commit), Subscribe), ReadFinalized), EndHistory), CopySubscribers), SendHeader), Receive);
            s.finalized == f + 1 && s.sent == [f + 1]
  {
    var s0 := Step(After(f + 2, f, []), Commit);
    var s1 := Step(s0, Subscribe);
    assert s1 == Feed(f + 2, f + 1, Committed(f + 1), true, [], false, Subscribed, 0, f + 2, [], f + 1, 0);
    var s3 := Step(Step(s1, ReadFinalized), EndHistory);
    assert s3 == s1.(fin := f + 1, server := Live);
    assert Step(Step(s3, CopySubscribers), SendHeader) == s3.(publisher := Quiet, channel := [f + 1]);
  }
}
