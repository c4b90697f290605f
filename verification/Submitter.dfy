/** The submitter: items from two queues are collected into batches of bounded size, and every item taken
    is answered exactly once on its own channel. */
module Submitter {
  import opened Octets
  import opened Codec
  import opened Wrappers

  datatype SubmissionResult = Stored(id: BlobId) | Failed

  /** A result channel with room for one result. A second send would block for ever; a send or a close after
      the close would panic. */
  class ResultChannel {
    var sent: seq<SubmissionResult>
    var closed: bool

    constructor ()
      ensures Unused()
    {
      sent, closed := [], false;
    }

    predicate Unused()
      reads this
    {
      sent == [] && !closed
    }

    predicate Answered(r: SubmissionResult)
      reads this
    {
      sent == [r] && closed
    }

    method Send(r: SubmissionResult)
      requires sent == [] && !closed
      modifies this
      ensures sent == [r] && !closed
    {
      sent := [r];
    }

    method Close()
      requires !closed
      modifies this
      ensures closed && sent == old(sent)
    {
      closed := true;
    }
  }

  datatype SubmissionItem = SubmissionItem(payload: Bytes, result: ResultChannel)

  /** What one turn of the loop finds ready. The choice among ready cases is free, and a batch that the turn
      submits is stored at some height or refused. */
  datatype Event =
    | PriorityItem(item: SubmissionItem, outcome: Option<U64>)
    | PriorityClosed
    | QueueItem(item: SubmissionItem, outcome: Option<U64>)
    | QueueClosed(outcome: Option<U64>)
    | Timer(outcome: Option<U64>)
    | Cancelled(outcome: Option<U64>)

  /** A batch, the height at which Celestia stored it, and the turn of the loop that submitted it. */
  datatype Submission = Submission(items: seq<SubmissionItem>, outcome: Option<U64>, turn: nat)

  predicate IsItem(e: Event) {
    e.PriorityItem? || e.QueueItem?
  }

  function EstimatedSize(item: SubmissionItem): nat {
    |item.payload| + 100
  }

  function TotalSize(items: seq<SubmissionItem>): nat {
    if items == [] then 0 else TotalSize(items[..|items| - 1]) + EstimatedSize(items[|items| - 1])
  }

  /** The items that the first turns take from the queues, in order. */
  function Taken(events: seq<Event>): seq<SubmissionItem> {
    if events == [] then []
    else
      var last := events[|events| - 1];
      Taken(events[..|events| - 1]) + if IsItem(last) then [last.item] else []
  }

  /** The answer to an item: its own commitment at the height of its batch, or the batch's failure. */
  function Answer(commit: Bytes -> Hash, item: SubmissionItem, outcome: Option<U64>): SubmissionResult {
    if outcome.Some? then Stored(BlobId(outcome.value, commit(item.payload))) else Failed
  }

  function Answers(commit: Bytes -> Hash, s: Submission): (r: seq<SubmissionResult>)
    ensures |r| == |s.items|
    ensures forall i :: 0 <= i < |r| ==> r[i] == Answer(commit, s.items[i], s.outcome)
  {
    seq(|s.items|, (i: nat) requires i < |s.items| => Answer(commit, s.items[i], s.outcome))
  }

  function AllItems(log: seq<Submission>): seq<SubmissionItem> {
    if log == [] then [] else AllItems(log[..|log| - 1]) + log[|log| - 1].items
  }

  function AllAnswers(commit: Bytes -> Hash, log: seq<Submission>): (r: seq<SubmissionResult>)
    ensures |r| == |AllItems(log)|
  {
    if log == [] then [] else AllAnswers(commit, log[..|log| - 1]) + Answers(commit, log[|log| - 1])
  }

  /** No two items share a channel. */
  ghost predicate OwnChannels(items: seq<SubmissionItem>) {
    forall i, j :: 0 <= i < j < |items| ==> items[i].result != items[j].result
  }

  function Channels(items: seq<SubmissionItem>): set<ResultChannel> {
    set i | 0 <= i < |items| :: items[i].result
  }

  /** The batch bound: only a batch of one item may be too large. */
  ghost predicate Fits(items: seq<SubmissionItem>, maxTxSize: nat) {
    |items| >= 2 ==> TotalSize(items) <= maxTxSize
  }

  /** The batches submitted so far, and the items collected for the next one. */
  datatype Batching = Batching(log: seq<Submission>, pending: seq<SubmissionItem>)

  /** An item joins the batch if it fits, and otherwise starts the next one. */
  function Join(s: Batching, maxTxSize: nat, item: SubmissionItem, outcome: Option<U64>, turn: nat): Batching {
    if TotalSize(s.pending) + EstimatedSize(item) > maxTxSize
    then Batching(s.log + [Submission(s.pending, outcome, turn)], [item])
    else Batching(s.log, s.pending + [item])
  }

  /** What is there is submitted. */
  function Clear(s: Batching, outcome: Option<U64>, turn: nat): Batching {
    if s.pending == [] then s else Batching(s.log + [Submission(s.pending, outcome, turn)], [])
  }

  function Turn(s: Batching, maxTxSize: nat, e: Event, turn: nat): Batching {
    match e
    case PriorityItem(item, outcome) => Join(s, maxTxSize, item, outcome, turn)
    case QueueItem(item, outcome) => Join(s, maxTxSize, item, outcome, turn)
    case PriorityClosed => s
    case QueueClosed(outcome) => Clear(s, outcome, turn)
    case Timer(outcome) => Clear(s, outcome, turn)
    case Cancelled(outcome) => Clear(s, outcome, turn)
  }

  /** The batches of a run. */
  function Batches(events: seq<Event>, maxTxSize: nat): Batching {
    if events == [] then Batching([], [])
    else
      var n := |events| - 1;
      Turn(Batches(events[..n], maxTxSize), maxTxSize, events[n], n)
  }

  /** What is collected after batch `i`. */
  function NextBatch(log: seq<Submission>, current: seq<SubmissionItem>, i: nat): seq<SubmissionItem>
    requires i < |log|
  {
    if i + 1 < |log| then log[i + 1].items else current
  }

  /** No batch of two items or more is too large, and no batch that an item ended would have held the next one too. */
  ghost predicate WellBatched(events: seq<Event>, maxTxSize: nat, log: seq<Submission>, current: seq<SubmissionItem>) {
    && Fits(current, maxTxSize)
    && forall i :: 0 <= i < |log| ==>
         && log[i].turn < |events| && Fits(log[i].items, maxTxSize)
         && ((events[log[i].turn].PriorityItem? || events[log[i].turn].QueueItem?) ==>
               TotalSize(log[i].items) + TotalSize(NextBatch(log, current, i)) > maxTxSize)
  }

  // ----- one batch -----

  /** The channel is closed after one result: the item's own commitment at the given height, or the failure. */
  ghost predicate ClosedWith(item: SubmissionItem, commit: Bytes -> Hash, outcome: Option<U64>)
    reads item.result
  {
    item.result.closed &&
    if outcome.Some? then item.result.sent == [Stored(BlobId(outcome.value, commit(item.payload)))]
    else item.result.sent == [Failed]
  }

  /** Celestia: one commitment for every message, in order; an empty batch is refused. */
  method StoreBatch(commit: Bytes -> Hash, msgs: seq<Bytes>, outcome: Option<U64>) returns (r: Option<(seq<Hash>, U64)>)
    ensures r.Some? <==> msgs != [] && outcome.Some?
    ensures r.Some? ==>
              && r.value.1 == outcome.value && |r.value.0| == |msgs|
              && forall i :: 0 <= i < |msgs| ==> r.value.0[i] == commit(msgs[i])
  {
    if msgs == [] {
      return None;
    }
    var commitments: seq<Hash> := [];
    for i := 0 to |msgs|
      invariant |commitments| == i && forall j :: 0 <= j < i ==> commitments[j] == commit(msgs[j])
    {
      commitments := commitments + [commit(msgs[i])];
    }
    if outcome.None? {
      return None;
    }
    r := Some((commitments, outcome.value));
  }

  /** Submits one batch: every item gets its own answer on its own channel. */
  method SubmitBatch(commit: Bytes -> Hash, batch: seq<SubmissionItem>, outcome: Option<U64>)
    requires OwnChannels(batch) && forall i :: 0 <= i < |batch| ==> batch[i].result.Unused()
    modifies Channels(batch)
    ensures forall i :: 0 <= i < |batch| ==> batch[i].result.Answered(Answer(commit, batch[i], outcome))
    ensures forall i :: 0 <= i < |batch| ==> ClosedWith(batch[i], commit, outcome)
  {
    var msgs: seq<Bytes> := [];
    for i := 0 to |batch|
      invariant |msgs| == i && forall j :: 0 <= j < i ==> msgs[j] == batch[j].payload
    {
      msgs := msgs + [batch[i].payload];
    }
    var stored := StoreBatch(commit, msgs, outcome);
    if stored.None? {
      for i := 0 to |batch|
        invariant forall j :: 0 <= j < i ==> batch[j].result.Answered(Answer(commit, batch[j], outcome))
        invariant forall j :: i <= j < |batch| ==> batch[j].result.Unused()
      {
        batch[i].result.Send(Failed);
        batch[i].result.Close();
      }
      return;
    }
    var (commitments, height) := stored.value;
    for i := 0 to |batch|
      invariant forall j :: 0 <= j < i ==> batch[j].result.Answered(Answer(commit, batch[j], outcome))
      invariant forall j :: i <= j < |batch| ==> batch[j].result.Unused()
    {
      batch[i].result.Send(Stored(BlobId(height, commitments[i])));
      batch[i].result.Close();
    }
  }

  // ----- the loop -----

  /** Of all items ever offered, those of the submitted batches are answered and the others are not. */
  ghost predicate Progress(commit: Bytes -> Hash, all: seq<SubmissionItem>, log: seq<Submission>)
    reads Channels(all)
  {
    && AllItems(log) <= all
    && (forall k :: 0 <= k < |AllItems(log)| ==> all[k].result.Answered(AllAnswers(commit, log)[k]))
    && (forall k :: |AllItems(log)| <= k < |all| ==> all[k].result.Unused())
  }

  lemma {:induction false} LogNext(commit: Bytes -> Hash, log: seq<Submission>, s: Submission)
    ensures AllItems(log + [s]) == AllItems(log) + s.items
    ensures AllAnswers(commit, log + [s]) == AllAnswers(commit, log) + Answers(commit, s)
  {
    hide Answers;
    assert (log + [s])[..|log|] == log;
  }

  /** Submits the current batch. */
  method Flush(commit: Bytes -> Hash, batch: seq<SubmissionItem>, outcome: Option<U64>, ghost all: seq<SubmissionItem>,
               ghost log: seq<Submission>, ghost turn: nat)
    requires OwnChannels(all) && Progress(commit, all, log) && AllItems(log) + batch <= all
    modifies Channels(all)
    ensures Progress(commit, all, log + [Submission(batch, outcome, turn)])
    ensures AllItems(log + [Submission(batch, outcome, turn)]) == AllItems(log) + batch
  {
    hide AllItems, AllAnswers, Answer, Channels, OwnChannels, ClosedWith;
    ghost var n, s := |AllItems(log)|, Submission(batch, outcome, turn);
    LogNext(commit, log, s);
    BatchChannels(all, n, batch);
    AnswersNext(commit, all, log, s);
    SubmitBatch(commit, batch, outcome);
  }

  lemma {:induction false} AnswersNext(commit: Bytes -> Hash, all: seq<SubmissionItem>, log: seq<Submission>,
                                       s: Submission)
    requires AllItems(log) + s.items <= all
    ensures var n, answers := |AllItems(log)|, AllAnswers(commit, log + [s]);
            && |answers| == n + |s.items|
            && (forall k :: 0 <= k < n ==> answers[k] == AllAnswers(commit, log)[k])
            && (forall k :: n <= k < n + |s.items| ==> answers[k] == Answer(commit, all[k], s.outcome))
  {
    hide AllAnswers, AllItems, Answer;
    LogNext(commit, log, s);
    assert forall i :: 0 <= i < |s.items| ==> (AllItems(log) + s.items)[|AllItems(log)| + i] == s.items[i];
  }

  /** The channels of a batch are among all channels and apart from those of the other items. */
  lemma {:induction false} BatchChannels(all: seq<SubmissionItem>, n: nat, batch: seq<SubmissionItem>)
    requires OwnChannels(all) && n + |batch| <= |all| && batch == all[n..n + |batch|]
    ensures OwnChannels(batch) && Channels(batch) <= Channels(all)
    ensures forall k :: 0 <= k < |all| && !(n <= k < n + |batch|) ==> all[k].result !in Channels(batch)
    ensures forall k :: n <= k < n + |batch| ==> all[k] == batch[k - n]
  {
    assert forall i :: 0 <= i < |batch| ==> batch[i] == all[n + i];
  }

  lemma {:induction false} TakenNext(events: seq<Event>, n: nat)
    requires n < |events|
    ensures Taken(events[..n + 1])
         == Taken(events[..n]) + if IsItem(events[n]) then [events[n].item] else []
  {
    assert events[..n + 1][..n] == events[..n];
  }

  lemma {:induction false} TakenIsPrefix(events: seq<Event>, n: nat)
    requires n <= |events|
    ensures Taken(events[..n]) <= Taken(events)
    decreases |events| - n
  {
    hide Taken;
    if n < |events| {
      TakenNext(events, n);
      TakenIsPrefix(events, n + 1);
    } else {
      assert events[..n] == events;
    }
  }

  lemma {:induction false} SizeNext(items: seq<SubmissionItem>, item: SubmissionItem)
    ensures TotalSize(items + [item]) == TotalSize(items) + EstimatedSize(item)
    ensures TotalSize([]) == 0
  {
    assert (items + [item])[..|items|] == items;
  }

  /** One item arrives: it joins the current batch if there is room, otherwise the batch is submitted and the
      item starts the next one. */
  method TakeItem(commit: Bytes -> Hash, maxTxSize: nat, item: SubmissionItem, outcome: Option<U64>,
                  batch: seq<SubmissionItem>, size: nat, ghost all: seq<SubmissionItem>, ghost log: seq<Submission>,
                  ghost turn: nat)
    returns (newBatch: seq<SubmissionItem>, newSize: nat, ghost newLog: seq<Submission>)
    requires OwnChannels(all) && Progress(commit, all, log) && AllItems(log) + batch <= all && size == TotalSize(batch)
    modifies Channels(all)
    ensures Progress(commit, all, newLog) && AllItems(newLog) + newBatch == AllItems(log) + batch + [item]
    ensures if TotalSize(batch) + |item.payload| + 100 > maxTxSize
            then newBatch == [item] && newLog == log + [Submission(batch, outcome, turn)]
            else newBatch == batch + [item] && newLog == log
    ensures newSize == TotalSize(newBatch)
  {
    hide Progress, AllItems, TotalSize, OwnChannels;
    newLog := log;
    var estimatedItemSize := |item.payload| + 100;
    if size + estimatedItemSize > maxTxSize {
      Flush(commit, batch, outcome, all, log, turn);
      newLog := log + [Submission(batch, outcome, turn)];
      SizeNext([], item);
      assert [] + [item] == [item];
      newBatch := [item];
      newSize := estimatedItemSize;
    } else {
      SizeNext(batch, item);
      newBatch := batch + [item];
      newSize := size + estimatedItemSize;
    }
    assert AllItems(newLog) + newBatch == AllItems(log) + batch + [item];
  }

  /** Submits what is left, if anything. */
  method FlushRest(commit: Bytes -> Hash, batch: seq<SubmissionItem>, outcome: Option<U64>,
                   ghost all: seq<SubmissionItem>, ghost log: seq<Submission>, ghost turn: nat)
    returns (ghost newLog: seq<Submission>)
    requires OwnChannels(all) && Progress(commit, all, log) && AllItems(log) + batch <= all
    modifies Channels(all)
    ensures Progress(commit, all, newLog) && AllItems(newLog) == AllItems(log) + batch
    ensures newLog == if batch == [] then log else log + [Submission(batch, outcome, turn)]
  {
    hide Progress, AllItems, OwnChannels;
    newLog := log;
    if |batch| > 0 {
      Flush(commit, batch, outcome, all, log, turn);
      newLog := log + [Submission(batch, outcome, turn)];
    } else {
      assert AllItems(log) + batch == AllItems(log);
    }
  }

  /** The loop over any sequence of events. At every turn the items taken from both queues are the submitted
      batches followed by the current one; when it returns, every item taken has exactly one answer, on its
      own channel and with its own commitment, and the channels of all other items are unused. */
  method Run(commit: Bytes -> Hash, maxTxSize: nat, events: seq<Event>)
    returns (returned: bool, ghost turns: nat, ghost log: seq<Submission>, ghost current: seq<SubmissionItem>)
    requires OwnChannels(Taken(events)) && forall i :: 0 <= i < |Taken(events)| ==> Taken(events)[i].result.Unused()
    modifies Channels(Taken(events))
    ensures turns <= |events| && Batches(events[..turns], maxTxSize) == Batching(log, current)
    ensures AllItems(log) + current == Taken(events[..turns])
    ensures WellBatched(events, maxTxSize, log, current)
    ensures returned ==> current == [] && turns > 0 && (events[turns - 1].QueueClosed? || events[turns - 1].Cancelled?)
    ensures !returned ==> turns == |events|
    ensures Progress(commit, Taken(events), log)
  {
    hide Progress, AllItems, OwnChannels, Taken, TotalSize, Batches, WellBatched;
    ghost var all := Taken(events);
    var currentBatch: seq<SubmissionItem>, currentBatchSize := [], 0;
    log := [];
    StartOfRun(commit, events, maxTxSize);
    for i := 0 to |events|
      invariant Batches(events[..i], maxTxSize) == Batching(log, currentBatch)
      invariant AllItems(log) + currentBatch == Taken(events[..i])
      invariant Progress(commit, all, log) && currentBatchSize == TotalSize(currentBatch)
    {
      TakenIsPrefix(events, i);
      TakenNext(events, i);
      BatchesNext(events, maxTxSize, i);
      match events[i]
      case PriorityItem(item, outcome) =>
        currentBatch, currentBatchSize, log :=
          TakeItem(commit, maxTxSize, item, outcome, currentBatch, currentBatchSize, all, log, i);
      case QueueItem(item, outcome) =>
        currentBatch, currentBatchSize, log :=
          TakeItem(commit, maxTxSize, item, outcome, currentBatch, currentBatchSize, all, log, i);
      case PriorityClosed =>
      case Timer(outcome) =>
        log := FlushRest(commit, currentBatch, outcome, all, log, i);
        currentBatch, currentBatchSize := [], 0;
        EmptyBatch();
        assert AllItems(log) + currentBatch == AllItems(log);
      case QueueClosed(outcome) =>
        log := FlushRest(commit, currentBatch, outcome, all, log, i);
        assert AllItems(log) + [] == AllItems(log);
        RunIsWellBatched(events, maxTxSize, i + 1);
        return true, i + 1, log, [];
      case Cancelled(outcome) =>
        log := FlushRest(commit, currentBatch, outcome, all, log, i);
        assert AllItems(log) + [] == AllItems(log);
        RunIsWellBatched(events, maxTxSize, i + 1);
        return true, i + 1, log, [];
    }
    assert events[..|events|] == events;
    RunIsWellBatched(events, maxTxSize, |events|);
    return false, |events|, log, currentBatch;
  }

  lemma {:induction false} EmptyBatch()
    ensures TotalSize([]) == 0
  {
  }

  lemma {:induction false} StartOfRun(commit: Bytes -> Hash, events: seq<Event>, maxTxSize: nat)
    requires forall i :: 0 <= i < |Taken(events)| ==> Taken(events)[i].result.Unused()
    ensures Progress(commit, Taken(events), []) && TotalSize([]) == 0
    ensures AllItems([]) + [] == Taken(events[..0]) && Batches(events[..0], maxTxSize) == Batching([], [])
  {
  }

  lemma {:induction false} BatchesNext(events: seq<Event>, maxTxSize: nat, n: nat)
    requires n < |events|
    ensures Batches(events[..n + 1], maxTxSize) == Turn(Batches(events[..n], maxTxSize), maxTxSize, events[n], n)
  {
    assert events[..n + 1][..n] == events[..n];
  }

  // ----- what the batches of a run are -----

  /** The estimated size of a batch: its payloads, and 100 bytes for each. */
  lemma {:induction false} SizeOfPayloads(items: seq<SubmissionItem>, payloads: seq<Bytes>)
    requires |payloads| == |items| && forall i :: 0 <= i < |items| ==> payloads[i] == items[i].payload
    ensures TotalSize(items) == |Concat(payloads)| + 100 * |items|
  {
    if items != [] {
      var n := |items| - 1;
      SizeOfPayloads(items[..n], payloads[..n]);
    }
  }

  /** When a turn ends a batch. An item ends it exactly if it does not fit; a timer, the end of the queue and a
      cancellation end what is there. The batch is all that was taken and not yet submitted. */
  lemma {:induction false} EndsExactly(events: seq<Event>, maxTxSize: nat, t: nat)
    requires t < |events|
    ensures var s, u, e := Batches(events[..t], maxTxSize), Batches(events[..t + 1], maxTxSize), events[t];
            var arrives := e.PriorityItem? || e.QueueItem?;
            && AllItems(s.log) + s.pending == Taken(events[..t])
            && AllItems(u.log) + u.pending == Taken(events[..t]) + (if arrives then [e.item] else [])
            && (u.log == s.log
                || (!e.PriorityClosed? && u.log == s.log + [Submission(s.pending, e.outcome, t)]
                    && u.pending == (if arrives then [e.item] else [])))
            && (u.log != s.log <==>
                if arrives then TotalSize(s.pending) + |e.item.payload| + 100 > maxTxSize
                else !e.PriorityClosed? && s.pending != [])
            && (arrives || e.PriorityClosed? || u.pending == [])
  {
    hide TotalSize, Taken, AllItems, Batches;
    BatchesNext(events, maxTxSize, t);
    BatchesTake(events, maxTxSize, t);
    BatchesTake(events, maxTxSize, t + 1);
    TakenNext(events, t);
  }

  lemma {:induction false} BatchesTake(events: seq<Event>, maxTxSize: nat, t: nat)
    requires t <= |events|
    ensures var s := Batches(events[..t], maxTxSize); AllItems(s.log) + s.pending == Taken(events[..t])
    decreases t
  {
    hide TotalSize, AllItems, Taken, Batches;
    if t == 0 {
      NoBatches(events, maxTxSize);
    } else {
      var s, u, n := Batches(events[..t - 1], maxTxSize), Batches(events[..t], maxTxSize), t - 1;
      BatchesNext(events, maxTxSize, n);
      BatchesTake(events, maxTxSize, n);
      TakenNext(events, n);
      assert AllItems(u.log) == if u.log == s.log then AllItems(s.log) else AllItems(s.log) + s.pending by {
        if u.log != s.log { ItemsNext(s.log, u.log[|s.log|]); }
      }
      assert AllItems(s.log) + s.pending + [] == AllItems(s.log) + s.pending;
    }
  }

  /** The batches have ascending turns; each holds all that was taken before its turn and was not submitted before
      it; none of two items or more is too large. */
  lemma {:induction false} BatchesInOrder(events: seq<Event>, maxTxSize: nat, t: nat)
    requires t <= |events|
    ensures var s := Batches(events[..t], maxTxSize);
            && Fits(s.pending, maxTxSize)
            && (forall i :: 0 <= i < |s.log| ==> s.log[i].turn < t && Fits(s.log[i].items, maxTxSize))
            && (forall i, j :: 0 <= i < j < |s.log| ==> s.log[i].turn < s.log[j].turn)
    decreases t
  {
    hide TotalSize, Batches, Taken;
    if t == 0 {
      assert Batches(events[..0], maxTxSize) == Batching([], []) by { NoBatches(events, maxTxSize); }
    } else {
      var s := Batches(events[..t - 1], maxTxSize);
      BatchesNext(events, maxTxSize, t - 1);
      BatchesInOrder(events, maxTxSize, t - 1);
      if IsItem(events[t - 1]) { SizeNext(s.pending, events[t - 1].item); }
    }
  }

  lemma {:induction false} NoBatches(events: seq<Event>, maxTxSize: nat)
    ensures Batches(events[..0], maxTxSize) == Batching([], [])
    ensures AllItems([]) + [] == Taken(events[..0])
  {
  }

  lemma {:induction false} ItemsNext(log: seq<Submission>, s: Submission)
    ensures AllItems(log + [s]) == AllItems(log) + s.items
  {
    assert (log + [s])[..|log|] == log;
  }

  /** A batch that an item ended and what was collected after it never fit together. */
  lemma {:induction false} NeighboursDoNotFit(events: seq<Event>, maxTxSize: nat, t: nat, i: nat)
    requires t <= |events| && i < |Batches(events[..t], maxTxSize).log|
    ensures var s := Batches(events[..t], maxTxSize);
            s.log[i].turn < t
            && (IsItem(events[s.log[i].turn]) ==>
                  var next := NextBatch(s.log, s.pending, i);
                  && next != [] && next[0] == events[s.log[i].turn].item
                  && TotalSize(s.log[i].items) + TotalSize(next) > maxTxSize)
    decreases t
  {
    hide TotalSize, Batches, Taken;
    if t == 0 {
      NoBatches(events, maxTxSize);
    } else {
      var s, u := Batches(events[..t - 1], maxTxSize), Batches(events[..t], maxTxSize);
      BatchesNext(events, maxTxSize, t - 1);
      if i < |s.log| {
        NeighboursDoNotFit(events, maxTxSize, t - 1, i);
        if IsItem(events[t - 1]) { SizeNext(s.pending, events[t - 1].item); }
      } else if IsItem(events[t - 1]) {
        SizeNext([], events[t - 1].item);
        assert [] + [events[t - 1].item] == u.pending;
      }
    }
  }

  lemma {:induction false} RunIsWellBatched(events: seq<Event>, maxTxSize: nat, t: nat)
    requires t <= |events|
    ensures WellBatched(events, maxTxSize, Batches(events[..t], maxTxSize).log, Batches(events[..t], maxTxSize).pending)
  {
    hide TotalSize, Batches, Fits, NextBatch;
    BatchesInOrder(events, maxTxSize, t);
    var s := Batches(events[..t], maxTxSize);
    forall i: nat | i < |s.log|
      ensures IsItem(events[s.log[i].turn]) ==>
                TotalSize(s.log[i].items) + TotalSize(NextBatch(s.log, s.pending, i)) > maxTxSize
    {
      NeighboursDoNotFit(events, maxTxSize, t, i);
    }
  }

  /** Every item of a batch has the answer of its batch: its own commitment at the height of the batch, or the
      failure. */
  lemma {:induction false} AnswersInPlace(commit: Bytes -> Hash, log: seq<Submission>, i: nat, j: nat)
    requires i < |log| && j < |log[i].items|
    ensures var k, item := |AllItems(log[..i])| + j, log[i].items[j];
            && k < |AllItems(log)| && AllItems(log)[k] == item
            && AllAnswers(commit, log)[k]
               == (if log[i].outcome.Some? then Stored(BlobId(log[i].outcome.value, commit(item.payload))) else Failed)
    decreases |log|
  {
    var init := log[..|log| - 1];
    if i < |init| {
      AnswersInPlace(commit, init, i, j);
      assert init[..i] == log[..i];
    }
  }
}
