/** What a node makes of the next block when its database holds any blocks of the chain: a copy that was stopped
    half-way can leave holes below the finalized height, stale snapshots and missing chunks. */
module Remake {
  import opened Octets
  import opened Codec
  import opened Content
  import opened Chain
  import opened Store
  import opened Resync
  import opened Copies
  import opened Wrappers
  import Mmr
  import Positions

  /** A block with this body before it is applied: everything but the parent hash and the state root. */
  function BlockOf(cfg: Config, h: U64, body: Body): Block
    requires h + cfg.offset < TWO64
  {
    Block(Header(1, cfg.chainId, h, h + cfg.offset, cfg.da.blocks(h + cfg.offset).time, ZERO,
                 IdsRoot(body.dirs), IdsRoot(body.files), IdsRoot(body.chunks), ZERO), body)
  }

  lemma {:induction false} BlockOfBody(cfg: Config, h: nat, body: Body)
    requires ValidConfig(cfg) && h <= MAX_HEIGHT
    ensures BlockOf(cfg, h, body).body == body
  {
  }

  /** The leaves of the mountain range that block `f + 1` extends: those of the nearest snapshot. */
  ghost function StoredLeaves(cfg: Config, db: Db, f: nat): Option<seq<Bytes>>
    requires ValidConfig(cfg) && f <= MAX_HEIGHT
  {
    if f == 0 then Some([])
    else match NearestMmr(db.mmrs, f) case None => None case Some(k) => Some(LeavesAt(cfg, k))
  }

  /** Block `f + 1` with this body, linked to block `f` and to the state with these leaves. */
  ghost function Linked(cfg: Config, f: nat, body: Body, leaves: seq<Bytes>): Block
    requires ValidConfig(cfg) && f < MAX_HEIGHT
  {
    var b := BlockOf(cfg, f + 1, body);
    b.(header := b.header.(parentHash := HashAt(cfg, f), stateRoot := Mmr.RootOf(leaves + BodyLeaves(body))))
  }

  /** The block that the node makes after block `f`, over what is stored. */
  ghost function Made(cfg: Config, db: Db, f: nat): Option<Block>
    requires ValidConfig(cfg) && f < MAX_HEIGHT
  {
    var s := SyncBlobs(cfg.da, db.content, f + 1 + cfg.offset, BlobsAt(cfg, f + 1));
    var leaves := StoredLeaves(cfg, db, f);
    if s.Failed? || leaves.None? then None else Some(Linked(cfg, f, s.body, leaves.value))
  }

  // ----- what the chain has at the same place -----

  lemma {:induction false} LinkedIsBlock(cfg: Config, f: nat)
    requires ValidConfig(cfg) && f < MAX_HEIGHT
    ensures Linked(cfg, f, BodyAt(cfg, f + 1), LeavesAt(cfg, f)) == BlockAt(cfg, f + 1)
    ensures LeavesAt(cfg, f + 1) == LeavesAt(cfg, f) + BodyLeaves(BodyAt(cfg, f + 1))
  {
    hide BodyAt, HeaderAt, HashAt, IdsRoot, Mmr.RootOf, BodyLeaves;
    LeavesNext(cfg, f);
    HeaderAtFields(cfg, f + 1);
  }

  lemma {:induction false} LeavesNext(cfg: Config, f: nat)
    requires ValidConfig(cfg) && f < MAX_HEIGHT
    ensures LeavesAt(cfg, f + 1) == LeavesAt(cfg, f) + BodyLeaves(BodyAt(cfg, f + 1))
  {
    hide BodyAt, BodyLeaves;
  }

  /** Two links are the same exactly when body and leaves are. */
  lemma {:induction false} LinkedExactly(cfg: Config, f: nat, a: Body, l: seq<Bytes>, b: Body, m: seq<Bytes>)
    requires ValidConfig(cfg) && f < MAX_HEIGHT
    requires |l| + 3 <= Positions.MAX_LEAVES && |m| + 3 <= Positions.MAX_LEAVES
    ensures Linked(cfg, f, a, l) == Linked(cfg, f, b, m) <==> a == b && l == m
  {
    hide HashAt, IdsRoot, Mmr.RootOf, BodyLeaves, ValidConfig;
    if Linked(cfg, f, a, l) == Linked(cfg, f, b, m) {
      FewLeaves(a);
      Mmr.RootBinding(l + BodyLeaves(a), m + BodyLeaves(a));
      SamePrefix(l, m, BodyLeaves(a));
    }
  }

  lemma {:induction false} FewLeaves(b: Body)
    ensures |BodyLeaves(b)| <= 3
  {
    hide IdsRoot;
  }

  lemma {:induction false} SamePrefix<T>(a: seq<T>, b: seq<T>, c: seq<T>)
    requires a + c == b + c
    ensures a == b
  {
    assert |a| == |b|;
    assert a == (a + c)[..|a|] && b == (b + c)[..|b|];
  }

  /** The leaves are the same at two heights exactly when no block between them has a body. */
  lemma {:induction false} SameLeaves(cfg: Config, g: nat, h: nat)
    requires ValidConfig(cfg) && g <= h <= MAX_HEIGHT
    ensures |LeavesAt(cfg, g)| <= |LeavesAt(cfg, h)|
    ensures LeavesAt(cfg, g) == LeavesAt(cfg, h) <==> forall j :: g < j <= h ==> BodyAt(cfg, j) == NO_BODY
    ensures |LeavesAt(cfg, g)| == |LeavesAt(cfg, h)| ==> LeavesAt(cfg, g) == LeavesAt(cfg, h)
    decreases h
  {
    hide BodyAt, LeavesAt, BodyLeaves;
    if g < h {
      SameLeaves(cfg, g, h - 1);
      LeavesNext(cfg, h - 1);
      BodyLeavesEmpty(BodyAt(cfg, h));
      var added := BodyLeaves(BodyAt(cfg, h));
      assert |LeavesAt(cfg, h)| == |LeavesAt(cfg, h - 1)| + |added|;
      if added == [] { assert LeavesAt(cfg, h - 1) + [] == LeavesAt(cfg, h - 1); }
    }
  }

  // ----- databases that hold blocks -----

  lemma {:induction false} HeldContentIsGenuine(cfg: Config, db: Db)
    requires ValidConfig(cfg) && Holds(cfg, db)
    ensures GenuineContent(cfg.da, db.content)
  {
    hide DbAt, ContentAt, BodyAt, HashAt, FileAccepted, DirAccepted, HashBytes, Complete, NothingElse, BlockAt,
      BlockBytes;
    DbBlocks(cfg, MAX_HEIGHT);
    ContentIsClosed(cfg, MAX_HEIGHT);
    HeldChunkKeys(cfg, db);
  }

  lemma {:induction false} HeldChunkKeys(cfg: Config, db: Db)
    requires ValidConfig(cfg) && Complete(cfg, db) && NothingElse(cfg, db)
    ensures db.content.chunkHashes.Keys == db.content.chunks.Keys
  {
    hide BodyAt, HashAt, SomeListsFile, SomeListsDir;
    forall k | SomeListsChunk(cfg, db.blocks.Keys, k)
      ensures k in db.content.chunks && k in db.content.chunkHashes
    {
      var h :| h in db.blocks.Keys && h <= MAX_HEIGHT && ListsChunk(cfg, h, k);
      assert h in db.blocks && Covers(cfg, db, h);
    }
  }

  /** Snapshots are those of the leaves of their heights, and stored blocks without one have no body. */
  ghost predicate SnapshotsFit(cfg: Config, db: Db)
    requires ValidConfig(cfg)
  {
    && (forall k :: k in db.mmrs ==> 0 < k <= MAX_HEIGHT && db.mmrs[k] == SnapshotBytes(LeavesAt(cfg, k)))
    && (forall j :: j in db.blocks && j !in db.mmrs ==> j <= MAX_HEIGHT && BodyAt(cfg, j) == NO_BODY)
  }

  lemma {:induction false} HeldSnapshots(cfg: Config, db: Db)
    requires ValidConfig(cfg) && Holds(cfg, db)
    ensures SnapshotsFit(cfg, db)
  {
    hide DbAt, BodyAt, BlockAt, HashAt, LeavesAt, SnapshotBytes, BlockBytes, ContentAt, BodyCovered, NothingElse;
    DbMmrs(cfg, MAX_HEIGHT);
  }

  /** No block with a body is missing between the nearest snapshot and height `f`. */
  ghost predicate NoBodyMissing(cfg: Config, db: Db, f: nat)
    requires ValidConfig(cfg) && f <= MAX_HEIGHT
  {
    f == 0 ||
    (NearestMmr(db.mmrs, f).Some?
     && forall j :: NearestMmr(db.mmrs, f).value < j <= f && j !in db.blocks ==> BodyAt(cfg, j) == NO_BODY)
  }

  lemma {:induction false} StoredLeavesExactly(cfg: Config, db: Db, f: nat)
    requires ValidConfig(cfg) && Holds(cfg, db) && f <= MAX_HEIGHT
    ensures StoredLeaves(cfg, db, f) == Some(LeavesAt(cfg, f)) <==> NoBodyMissing(cfg, db, f)
    ensures StoredLeaves(cfg, db, f).Some? ==> |StoredLeaves(cfg, db, f).value| <= |LeavesAt(cfg, f)|
  {
    hide LeavesAt, BodyAt, Holds, NearestMmr, SnapshotBytes;
    if f == 0 {
      NoLeavesAtGenesis(cfg);
    } else {
      HeldSnapshots(cfg, db);
      NearestIsGreatest(db.mmrs, f);
      var k := NearestMmr(db.mmrs, f);
      if k.Some? {
        SameLeaves(cfg, k.value, f);
        forall j | k.value < j <= f && j in db.blocks
          ensures BodyAt(cfg, j) == NO_BODY
        {
          assert j !in db.mmrs;
        }
      }
    }
  }

  lemma {:induction false} NoLeavesAtGenesis(cfg: Config)
    requires ValidConfig(cfg)
    ensures LeavesAt(cfg, 0) == []
  {
  }

  lemma {:induction false} LeavesFit(cfg: Config, h: nat)
    requires ValidConfig(cfg) && h <= MAX_HEIGHT
    ensures |LeavesAt(cfg, h)| <= Positions.MAX_LEAVES
    ensures h < MAX_HEIGHT ==> |LeavesAt(cfg, h)| + 3 <= Positions.MAX_LEAVES
  {
    hide LeavesAt;
  }

  /** Each blob of block `f + 1` is accepted over the stored content as it is on the chain. */
  ghost predicate SameAcceptance(cfg: Config, db: Db, f: nat)
    requires ValidConfig(cfg) && f < MAX_HEIGHT
  {
    SameVerdicts(cfg.da, db.content, ContentAt(cfg, f), f + 1 + cfg.offset, BlobsAt(cfg, f + 1))
  }

  /** Over any blocks of the chain that are stored, also with holes, the node makes the next block of the chain exactly
      when that block holds no garbage, no block with a body is missing between the nearest snapshot and the block
      before it, and each of its blobs is accepted over the stored content as it is on the chain. */
  lemma {:induction false} MadeExactly(cfg: Config, db: Db, f: nat)
    requires ValidConfig(cfg) && f < MAX_HEIGHT && Holds(cfg, db)
    ensures Made(cfg, db, f) == Some(BlockAt(cfg, f + 1)) <==>
              SyncAt(cfg, f + 1).Synced? && NoBodyMissing(cfg, db, f) && SameAcceptance(cfg, db, f)
  {
    hide Holds, SyncBlobs, SyncAt, ContentAt, BodyAt, LeavesAt, HeaderAt, StoredLeaves, NoBodyMissing, Linked,
      SameVerdicts, GenuineContent, Closed;
    var a, b, height, blobs := db.content, ContentAt(cfg, f), f + 1 + cfg.offset, BlobsAt(cfg, f + 1);
    ContentStep(cfg, f + 1);
    SyncedOverAny(cfg.da, a, b, height, blobs);
    StoredLeavesExactly(cfg, db, f);
    LinkedIsBlock(cfg, f);
    LeavesFit(cfg, f);
    if SyncAt(cfg, f + 1).Synced? {
      HeldContentIsGenuine(cfg, db);
      ClosedIsGenuine(cfg, f);
      SameBodyExactly(cfg.da, a, b, height, blobs);
      var leaves := StoredLeaves(cfg, db, f);
      if leaves.Some? {
        LinkedExactly(cfg, f, SyncBlobs(cfg.da, a, height, blobs).body, leaves.value, BodyAt(cfg, f + 1),
                      LeavesAt(cfg, f));
      }
    }
  }

  lemma {:induction false} ClosedIsGenuine(cfg: Config, f: nat)
    requires ValidConfig(cfg) && f <= MAX_HEIGHT
    ensures GenuineContent(cfg.da, ContentAt(cfg, f))
  {
    hide ContentAt, FileAccepted, DirAccepted, HashBytes;
    ContentIsClosed(cfg, f);
  }
}
