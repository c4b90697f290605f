/** Whole histories of a node: processes that start, sync from Celestia or from another node, fail and stop, one after
    the other on the same disk. */
module History {
  import opened Codec
  import opened Content
  import opened Chain
  import opened Store
  import opened Resync
  import opened Node
  import opened Copies
  import opened RemoteSync
  import opened Wrappers
  import opened Arrival

  /** The database of height `top` with a finalized height that may lag behind, or an empty one. */
  ghost predicate LagDb(cfg: Config, db: Db, top: nat)
    requires ValidConfig(cfg)
  {
    && top <= MAX_HEIGHT && Reachable(cfg, top)
    && ((db == EMPTY_DB && top == 0) || (db.finalized <= top && db == DbAt(cfg, top).(finalized := db.finalized)))
  }

  lemma {:induction false} LagHolds(cfg: Config, db: Db, top: nat)
    requires ValidConfig(cfg) && LagDb(cfg, db, top)
    ensures Holds(cfg, db) && db.blocks.Keys == if db == EMPTY_DB then {} else Span(0, top + 1)
  {
    hide DbAt, Holds, Span, Reachable;
    EmptyHolds(cfg);
    CanonicalHolds(cfg, top);
    FinalizedIsSeparate(cfg, DbAt(cfg, top), db.finalized);
    NeverEmpty(cfg, top, db.finalized);
  }

  lemma {:induction false} NeverEmpty(cfg: Config, top: nat, f: nat)
    requires ValidConfig(cfg) && top <= MAX_HEIGHT
    ensures DbAt(cfg, top).(finalized := f) != EMPTY_DB
  {
    hide DbAt, BlockAt, BlockBytes, ContentAt;
    DbBlocks(cfg, top);
    assert 0 in DbAt(cfg, top).blocks;
  }

  lemma {:induction false} CanonicalIsLag(cfg: Config, db: Db)
    requires ValidConfig(cfg)
    ensures CanonicalDb(cfg, db) <==> LagDb(cfg, db, db.finalized)
  {
    hide DbAt, Reachable;
    if db.finalized <= MAX_HEIGHT { DbBlocks(cfg, db.finalized); }
    NothingToReach(cfg);
  }

  lemma {:induction false} NothingToReach(cfg: Config)
    requires ValidConfig(cfg)
    ensures Reachable(cfg, 0)
  {
    hide SyncAt, BodyAt;
  }

  lemma {:induction false} JoinedRange(top: nat, next: nat, end: nat)
    requires next <= top + 1 && next <= end
    ensures Span(0, top + 1) + Span(next, end - next + 1) == Span(0, Later(top, end) + 1)
  {
    hide Span;
  }

  lemma {:induction false} ReachesLater(cfg: Config, a: nat, b: nat)
    requires ValidConfig(cfg) && a <= MAX_HEIGHT && b <= MAX_HEIGHT && Reachable(cfg, a) && Reachable(cfg, b)
    ensures Reachable(cfg, Later(a, b))
  {
    hide SyncAt, BodyAt;
  }

  /** A database that has all blocks of the range beside those it had is that of the later height. */
  lemma {:induction false} CopyIsLag(cfg: Config, was: Db, db: Db, top: nat, end: nat)
    requires ValidConfig(cfg) && LagDb(cfg, was, top) && end <= MAX_HEIGHT && Reachable(cfg, end) && Holds(cfg, db)
    requires NextHeight(was.finalized) < end && db.finalized <= end
    requires db.blocks.Keys == was.blocks.Keys + Span(NextHeight(was.finalized), end - NextHeight(was.finalized) + 1)
    ensures LagDb(cfg, db, Later(top, end)) && db != EMPTY_DB
  {
    hide DbAt, Holds, Span, Reachable;
    LagHolds(cfg, was, top);
    JoinedRange(top, NextHeight(was.finalized), end);
    ReachesLater(cfg, top, end);
    NeverEmpty(cfg, top, was.finalized);
    if was == EMPTY_DB { assert {} + Span(0, end + 1) == Span(0, end + 1); }
    HeldIsCanonical(cfg, db, Later(top, end));
    NeverEmpty(cfg, Later(top, end), db.finalized);
  }

  /** The range that a sync would fetch fits one batch. */
  predicate FitsBatch(db: Db, source: Db, batchSize: nat) {
    source.finalized - NextHeight(db.finalized) < batchSize
  }

  /** The database holds blocks of the chain, all at heights that a node can reach. There may be holes. */
  ghost predicate Sound(cfg: Config, db: Db)
    requires ValidConfig(cfg)
  {
    Holds(cfg, db) && forall h :: h in db.blocks ==> h <= MAX_HEIGHT && Reachable(cfg, h)
  }

  lemma {:induction false} LagIsSound(cfg: Config, db: Db, top: nat)
    requires ValidConfig(cfg) && LagDb(cfg, db, top)
    ensures Sound(cfg, db)
  {
    hide DbAt, Holds, Span, Reachable;
    LagHolds(cfg, db, top);
    forall h | h in db.blocks
      ensures h <= MAX_HEIGHT && Reachable(cfg, h)
    {
      assert h in db.blocks.Keys;
      ReachesEarlier(cfg, h, top);
    }
  }

  lemma {:induction false} SoundMore(cfg: Config, was: Db, db: Db, source: Db)
    requires ValidConfig(cfg) && Sound(cfg, was) && Sound(cfg, source) && Holds(cfg, db)
    requires db.blocks.Keys <= was.blocks.Keys + source.blocks.Keys
    ensures Sound(cfg, db)
  {
    hide Holds, Reachable;
    assert forall h :: h in db.blocks ==> h in db.blocks.Keys;
  }

  /** One process that syncs from another node and ends. Between any two databases that hold blocks of the chain it
      leaves one that does; a receiver without holes has none afterwards if the copy completed or its range fits one
      batch. */
  method RunRemote(cfg: Config, db: Db, source: Db, batchSize: nat, workers: nat, mayFail: bool, ghost top: nat)
    returns (ok: bool, after: Db)
    requires ValidConfig(cfg) && batchSize > 0 && workers > 0 && Sound(cfg, db) && Sound(cfg, source)
    ensures Sound(cfg, after) && db.finalized <= after.finalized
    ensures NextHeight(db.finalized) >= source.finalized ==> ok && after == db
    ensures NextHeight(db.finalized) < source.finalized ==>
              && (!mayFail && RangeOf(db, source) <= source.blocks.Keys ==> ok)
              && (after == db || NextHeight(db.finalized) <= after.finalized <= source.finalized)
              && (ok ==> NextHeight(db.finalized) <= after.finalized)
              && (FitsBatch(db, source, batchSize) ==> after == db || after.finalized == source.finalized)
              && (FitsBatch(db, source, batchSize) && ok ==> after.finalized == source.finalized)
              && (LagDb(cfg, db, top) && ok ==> LagDb(cfg, after, Later(top, source.finalized)) && after != EMPTY_DB)
              && (LagDb(cfg, db, top) && FitsBatch(db, source, batchSize) ==>
                    after == db || (LagDb(cfg, after, Later(top, source.finalized)) && after != EMPTY_DB))
  {
    hide DbAt, Holds, Span, Reachable, GoodHashes, LagDb, Fills, IsGreatest, LastBatch, HeightSet, Copied, ValidConfig,
      Later, Sound;
    NoHashes(cfg);
    SoundHolds(cfg, db);
    SoundHolds(cfg, source);
    var state := new ChainState(db);
    var cache := new HashCache();
    var remote := new ChainState(source);
    var remoteCache := new HashCache();
    ghost var arrived, done;
    ok, arrived, done := SyncChainFromGrpc(state, cache, remote, remoteCache, batchSize, workers, mayFail, cfg);
    after := state.db;
    if NextHeight(db.finalized) < source.finalized {
      RemoteResult(cfg, db, after, source, batchSize, workers, ok, mayFail, arrived, done, top);
    }
  }

  /** The heights that a sync would fetch. */
  ghost function RangeOf(db: Db, source: Db): set<nat>
    requires NextHeight(db.finalized) < source.finalized
  {
    Span(NextHeight(db.finalized), source.finalized - NextHeight(db.finalized) + 1)
  }

  lemma {:induction false} SoundHolds(cfg: Config, db: Db)
    requires ValidConfig(cfg) && Sound(cfg, db)
    ensures Holds(cfg, db)
  {
    hide Holds, Reachable;
  }

  lemma {:induction false} RemoteResult(cfg: Config, db: Db, after: Db, source: Db, n: nat, w: nat, ok: bool,
                                        mayFail: bool, arrived: seq<nat>, done: nat, top: nat)
    requires ValidConfig(cfg) && n > 0 && NextHeight(db.finalized) < source.finalized && Sound(cfg, db)
             && Sound(cfg, source)
    requires SyncResult(cfg, db, after, source, n, w, ok, mayFail, arrived, done)
    ensures Sound(cfg, after) && (ok ==> NextHeight(db.finalized) <= after.finalized)
    ensures LagDb(cfg, db, top) && (ok || (FitsBatch(db, source, n) && after != db)) ==>
              LagDb(cfg, after, Later(top, source.finalized)) && after != EMPTY_DB
  {
    hide DbAt, Holds, Span, Reachable, LagDb, IsGreatest, LastBatch, HeightSet, Copied, Later, Fills, Possible,
      Distinct;
    var next, end := NextHeight(db.finalized), source.finalized;
    CopiedHolds(cfg, db, after, arrived, done, next, end - next + 1, n, w);
    SoundMore(cfg, db, after, source);
    if ok { FinalizedArrived(arrived, next, end, n, after.finalized); }
    if LagDb(cfg, db, top) && (ok || (FitsBatch(db, source, n) && after != db)) {
      assert end in Span(next, end - next + 1);
      assert end in after.blocks.Keys;
      CopyIsLag(cfg, db, after, top, end);
    }
  }

  lemma {:induction false} FinalizedArrived(arrived: seq<nat>, next: nat, end: nat, n: nat, f: nat)
    requires n > 0 && next <= end && Fills(arrived, next, end) && IsGreatest(f, LastBatch(arrived, n))
    ensures next <= f <= end
  {
    hide LastBatch, Distinct;
    LastBatchMembers(arrived, n);
  }

  /** Syncing again and again without failures: from the first time on the blocks are complete, also when the finalized
      height lags, and once past genesis the finalized height rises until at most the last block is missing. */
  method SyncRepeatedly(cfg: Config, db: Db, source: Db, batchSize: nat, workers: nat, times: nat, ghost top: nat)
    returns (after: Db)
    requires ValidConfig(cfg) && batchSize > 0 && workers > 0 && LagDb(cfg, db, top) && Sound(cfg, source)
    requires NextHeight(db.finalized) < source.finalized && RangeOf(db, source) <= source.blocks.Keys
    ensures times == 0 ==> after == db
    ensures times > 0 ==> LagDb(cfg, after, Later(top, source.finalized)) && after != EMPTY_DB
    ensures db.finalized <= after.finalized
    ensures db.finalized > 0 && times >= source.finalized - db.finalized ==> after.finalized >= source.finalized - 1
  {
    hide DbAt, Holds, Reachable, LagDb, Sound, Span;
    after := db;
    ghost var now: nat := top;
    for i := 0 to times
      invariant LagDb(cfg, after, now) && (i == 0 ==> after == db && now == top)
      invariant i > 0 ==> now == Later(top, source.finalized) && after != EMPTY_DB
      invariant db.finalized <= after.finalized
      invariant db.finalized > 0 ==> after.finalized >= source.finalized - 1 || after.finalized >= db.finalized + i
    {
      ghost var behind := NextHeight(after.finalized) < source.finalized;
      LagIsSound(cfg, after, now);
      if behind { SmallerRange(db, after, source); }
      var ok;
      ok, after := RunRemote(cfg, after, source, batchSize, workers, false, now);
      now := if behind then Later(now, source.finalized) else now;
    }
  }

  lemma {:induction false} SmallerRange(was: Db, db: Db, source: Db)
    requires was.finalized <= db.finalized && NextHeight(db.finalized) < source.finalized
    ensures RangeOf(db, source) <= RangeOf(was, source)
  {
    hide Span;
  }

  // ----- lives -----

  /** One process on the disk: calls of `SyncChain`, each with the number of attempts before it is stopped, the latest
      heights that Celestia reports, and whether anything may fail; or one sync from another node. */
  datatype Life = Local(calls: seq<Call>) | Remote(source: Db, mayFail: bool)

  datatype Call = Call(rounds: nat, tips: nat -> nat, mayFail: bool)

  /** The highest latest height that Celestia reports during a call. */
  ghost function Highest(tips: nat -> nat, n: nat): (hi: nat)
    ensures forall i :: 0 <= i <= n ==> tips(i) <= hi
  {
    if n == 0 then tips(0) else Later(Highest(tips, n - 1), tips(n))
  }

  /** One process that syncs from Celestia: a new process over the same disk, with an empty hash cache and no block in
      memory. */
  method RunLocal(cfg: Config, db: Db, calls: seq<Call>, ghost top: nat) returns (after: Db)
    requires ValidConfig(cfg) && IdleDb(cfg, db, top)
    ensures IdleDb(cfg, after, Later(top, after.finalized)) && db.finalized <= after.finalized
  {
    hide GoodHashes, IdleDb;
    NoHashes(cfg);
    IdleFinalized(cfg, db, top);
    var state := new ChainState(db);
    var node := new BlobcastChain(cfg, state);
    for j := 0 to |calls|
      invariant node.Idle(Later(top, state.db.finalized)) && fresh(state) && fresh(node.cache)
      invariant node.cfg == cfg && node.state == state && db.finalized <= state.db.finalized
    {
      var call := calls[j];
      var _ := node.SyncChain(call.rounds, call.tips, call.mayFail, Later(top, state.db.finalized), 0,
                              Highest(call.tips, call.rounds));
    }
    after := state.db;
  }

  lemma {:induction false} IdleFinalized(cfg: Config, db: Db, top: nat)
    requires ValidConfig(cfg) && IdleDb(cfg, db, top)
    ensures db.finalized <= top
  {
    hide DbAt, Reachable, Settled;
  }

  /** A history of local lives and of remote lives that fit one batch: whatever fails and stops, the database is the
      pure function of its finalized height and the Celestia data. The history ends early only before a remote life that
      does not fit one batch. */
  method RunNode(cfg: Config, lives: seq<Life>, batchSize: nat, workers: nat) returns (db: Db, done: nat)
    requires ValidConfig(cfg) && batchSize > 0 && workers > 0
    requires forall i :: 0 <= i < |lives| && lives[i].Remote? ==> Sound(cfg, lives[i].source)
    ensures CanonicalDb(cfg, db) && done <= |lives|
    ensures done < |lives| ==> lives[done].Remote? && !FitsBatch(db, lives[done].source, batchSize)
  {
    hide CanonicalDb, IdleDb, LagDb, Sound, FitsBatch;
    db := EMPTY_DB;
    EmptyIsCanonical(cfg);
    for i := 0 to |lives|
      invariant CanonicalDb(cfg, db)
    {
      match lives[i]
      case Local(calls) =>
        CanonicalIsIdle(cfg, db);
        ghost var was := db.finalized;
        db := RunLocal(cfg, db, calls, was);
        CanonicalIsIdle(cfg, db);
      case Remote(source, mayFail) =>
        if !FitsBatch(db, source, batchSize) {
          return db, i;
        }
        CanonicalIsLag(cfg, db);
        ghost var was := db.finalized;
        LagIsSound(cfg, db, was);
        var ok;
        ok, db := RunRemote(cfg, db, source, batchSize, workers, mayFail, was);
        CanonicalIsLag(cfg, db);
    }
    done := |lives|;
  }

  /** No manifest is rejected in its place and satisfied later. */
  ghost predicate Orderly(cfg: Config)
    requires ValidConfig(cfg)
  {
    forall h, top, p :: 0 < h <= top <= MAX_HEIGHT && 0 <= p < |BlobsAt(cfg, h)| ==> !Late(cfg, top, h, p)
  }

  lemma {:induction false} OrderlySettles(cfg: Config, db: Db, top: nat)
    requires ValidConfig(cfg) && Orderly(cfg) && LagDb(cfg, db, top)
    ensures IdleDb(cfg, db, top)
  {
    hide Late, Agrees, DbAt, SyncAt, BodyAt;
    forall h | db.finalized < h <= top
      ensures Agrees(cfg, top, h)
    {
      ResyncExactly(cfg, top, h);
    }
  }

  lemma {:induction false} IdleIsLag(cfg: Config, db: Db, top: nat)
    requires ValidConfig(cfg) && IdleDb(cfg, db, top)
    ensures LagDb(cfg, db, top)
  {
    hide DbAt, Reachable, Settled;
  }

  /** A history with remote lives of any size, on a chain on which no manifest comes late: the database is a pure
      function of its finalized height and of the height up to which it holds blocks. Only a copy of several batches
      that is stopped half-way ends it, with a database that holds blocks of the chain but may have holes. */
  method RunLagging(cfg: Config, lives: seq<Life>, batchSize: nat, workers: nat)
    returns (db: Db, done: nat, ghost top: nat)
    requires ValidConfig(cfg) && batchSize > 0 && workers > 0 && Orderly(cfg)
    requires forall i :: 0 <= i < |lives| && lives[i].Remote? ==> Sound(cfg, lives[i].source)
    ensures Sound(cfg, db) && done <= |lives|
    ensures done == |lives| ==> LagDb(cfg, db, top)
    ensures done < |lives| ==>
              && lives[done].Remote?
              && exists was :: LagDb(cfg, was, top) && was != db && !FitsBatch(was, lives[done].source, batchSize)
  {
    hide CanonicalDb, IdleDb, LagDb, Sound, FitsBatch, Orderly;
    db, top := EMPTY_DB, 0;
    EmptyIsCanonical(cfg);
    CanonicalIsLag(cfg, db);
    for i := 0 to |lives|
      invariant LagDb(cfg, db, top)
    {
      match lives[i]
      case Local(calls) =>
        OrderlySettles(cfg, db, top);
        db := RunLocal(cfg, db, calls, top);
        top := Later(top, db.finalized);
        IdleIsLag(cfg, db, top);
      case Remote(source, mayFail) =>
        var was, ok := db, false;
        LagIsSound(cfg, db, top);
        ok, db := RunRemote(cfg, was, source, batchSize, workers, mayFail, top);
        if !ok && !FitsBatch(was, source, batchSize) && db != was {
          return db, i, top;
        }
        top := if db == was then top else Later(top, source.finalized);
    }
    LagIsSound(cfg, db, top);
    done := |lives|;
  }
}
