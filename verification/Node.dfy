/** The node: from Celestia blocks to committed chain state, one transaction per block, with failures and
    restarts anywhere. Every database it ever commits is the one that `Chain` assigns to its height. */
module Node {
  import opened Octets
  import opened Codec
  import opened Content
  import opened Chain
  import opened Store
  import opened Wrappers
  import opened Resync
  import opened Copies
  import opened Remake
  import Merkle
  import Mmr
  import Positions
  import Snapshot

  /** What may go wrong in the outside world while a block is made. */
  datatype Faults = Faults(getBlobs: bool, getHeader: bool, commit: bool)

  const NO_FAULTS: Faults := Faults(false, false, false)

  // ----- blobs -----

  method SyncChunk(tx: ChainStateTransaction, k: Hash, data: Bytes)
    requires tx.Open()
    modifies tx
    ensures tx.Open() && tx.pendingFiles == old(tx.pendingFiles)
    ensures tx.View() == old(tx.View()).(content := PutChunk(old(tx.View()).content, k, data))
  {
    tx.PutChunk(k, data, HashBytes(data));
  }

  lemma {:induction false} FileDataNext(c: Content, refs: seq<ChunkRef>, i: nat)
    requires i < |refs| && ChunksMatch(c, refs[..i]) && ChunkMatches(c, refs[i])
    ensures ChunksMatch(c, refs[..i + 1])
    ensures FileData(c, refs[..i + 1]) == FileData(c, refs[..i]) + c.chunks[refs[i].id.commitment]
  {
    hide ChunkMatches;
    assert refs[..i + 1][..i] == refs[..i];
    assert forall j :: 0 <= j < i ==> refs[..i + 1][j] == refs[..i][j];
  }

  method SyncFileManifest(tx: ChainStateTransaction, height: U64, k: Hash, m: FileManifest) returns (accepted: bool)
    requires tx.Open()
    modifies tx
    ensures tx.Open()
    ensures accepted <==> WholeFile(old(tx.View()).content, m)
    ensures accepted <==> FileAccepted(old(tx.View()).content, m)
    ensures var c := old(tx.View()).content;
            tx.View() == if accepted then old(tx.View()).(content := c.(files := c.files[BlobId(height, k) := m]))
                         else old(tx.View())
  {
    hide HashBytes, FileData, ApplyAll, WholeFile;
    ghost var c := tx.View().content;
    AcceptedFileIsWhole(c, m);
    var manifestId := new BlobIdRef(BlobId(height, k));
    var fileData: Bytes := [];
    NoChunks(c);
    for i := 0 to |m.chunks|
      invariant tx.Open() && unchanged(tx)
      invariant ChunksMatch(c, m.chunks[..i])
      invariant fileData == FileData(c, m.chunks[..i])
    {
      var chunk := m.chunks[i];
      var chunkData := tx.GetChunk(chunk.id.commitment);
      if chunkData.None? {
        assert !ChunkMatches(c, m.chunks[i]);
        return false;
      }
      var chunkHash := tx.GetChunkHash(chunk.id.commitment);
      if chunkHash.None? {
        assert !ChunkMatches(c, m.chunks[i]);
        return false;
      }
      if Raw(chunkHash.value) != chunk.hash {
        assert !ChunkMatches(c, m.chunks[i]);
        return false;
      }
      FileDataNext(c, m.chunks, i);
      fileData := fileData + chunkData.value;
    }
    assert m.chunks[..|m.chunks|] == m.chunks;
    if |fileData| != m.size {
      return false;
    }
    var fileHash := HashBytes(fileData);
    if Raw(fileHash) != m.hash {
      return false;
    }
    tx.PutFileManifest(manifestId, m);
    accepted := true;
  }

  lemma {:induction false} NoChunks(c: Content)
    ensures FileData(c, []) == []
  {
  }

  method SyncDirectoryManifest(tx: ChainStateTransaction, height: U64, k: Hash, d: DirManifest) returns (accepted: bool)
    requires tx.Open()
    modifies tx
    ensures tx.Open()
    ensures accepted <==> RootedDir(tx.state.db.content, d)
    ensures accepted <==> DirAccepted(tx.state.db.content, d)
    ensures var c := old(tx.View()).content;
            tx.View() == if accepted then old(tx.View()).(content := c.(dirs := c.dirs[BlobId(height, k) := d]))
                         else old(tx.View())
  {
    hide Merkle.MerkleRoot, ApplyAll, HashPair, RootedDir;
    ghost var c := tx.state.db.content;
    AcceptedDirIsRooted(c, d);
    var merkleLeaves: seq<Bytes> := [];
    for i := 0 to |d.files|
      invariant tx.Open() && unchanged(tx)
      invariant forall j :: 0 <= j < i ==> d.files[j].id in c.files
      invariant |merkleLeaves| == i
      invariant forall j :: 0 <= j < i ==>
                  merkleLeaves[j] == Raw(HashPair(d.files[j].path, c.files[d.files[j].id].hash))
    {
      var file := d.files[i];
      var fileId := new BlobIdRef(file.id);
      var found := tx.GetFileManifest(fileId);
      if found.None? {
        assert d.files[i].id !in c.files;
        return false;
      }
      merkleLeaves := merkleLeaves + [Raw(HashPair(file.path, found.value.hash))];
    }
    assert merkleLeaves == DirLeaves(c, d.files);
    var root := Merkle.CalculateMerkleRoot(merkleLeaves);
    if Raw(root) != d.hash {
      return false;
    }
    tx.PutDirectoryManifest(BlobId(height, k), d);
    accepted := true;
  }

  /** All blobs of one Celestia block, against a fresh transaction. */
  method SyncBlobsInto(tx: ChainStateTransaction, da: Celestia, height: U64, blobs: seq<Hash>) returns (r: Option<Body>)
    requires tx.Open() && tx.View() == tx.state.db
    modifies tx
    ensures tx.Open()
    ensures var s := SyncBlobs(da, tx.state.db.content, height, blobs);
            if s.Failed? then r.None?
            else r == Some(s.body) && tx.View() == tx.state.db.(content := s.content)
  {
    hide FileAccepted, DirAccepted, WholeFile, RootedDir, ApplyAll, HashBytes, PutChunk, SyncBlobs;
    ghost var committed := tx.state.db.content;
    var chunks: seq<BlobId>, files: seq<BlobId>, dirs: seq<BlobId> := [], [], [];
    NoBlobs(da, committed, height);
    for i := 0 to |blobs|
      invariant tx.Open()
      invariant SyncBlobs(da, committed, height, blobs[..i]) == Synced(tx.View().content, Body(dirs, files, chunks))
      invariant tx.View() == tx.state.db.(content := tx.View().content)
    {
      var k := blobs[i];
      var blobId := BlobId(height, k);
      BlobNext(da, committed, height, blobs, i);
      match da.open(k) {
        case Chunk(data) =>
          SyncChunk(tx, k, data);
          chunks := chunks + [blobId];
        case File(m) =>
          var accepted := SyncFileManifest(tx, height, k, m);
          if accepted {
            files := files + [blobId];
          }
        case Dir(d) =>
          var accepted := SyncDirectoryManifest(tx, height, k, d);
          if accepted {
            dirs := dirs + [blobId];
          }
        case Garbage =>
          GarbageFails(da, committed, height, blobs, i, |blobs|);
          assert blobs[..|blobs|] == blobs;
          return None;
      }
    }
    assert blobs[..|blobs|] == blobs;
    r := Some(Body(dirs, files, chunks));
  }

  lemma {:induction false} NoBlobs(da: Celestia, committed: Content, height: U64)
    ensures SyncBlobs(da, committed, height, []) == Synced(committed, NO_BODY)
  {
  }

  lemma {:induction false} GarbageFails(da: Celestia, committed: Content, height: U64, blobs: seq<Hash>, i: nat, n: nat)
    requires i < n <= |blobs| && da.open(blobs[i]).Garbage?
    ensures SyncBlobs(da, committed, height, blobs[..n]).Failed?
    decreases n
  {
    hide FileAccepted, DirAccepted;
    assert blobs[..n][..n - 1] == blobs[..n - 1];
    if i < n - 1 { GarbageFails(da, committed, height, blobs, i, n - 1); }
  }

  // ----- the state of the mountain range -----

  /** There is a mountain range to extend after block `h`. */
  ghost predicate HasRange(cfg: Config, h: nat)
    requires ValidConfig(cfg) && h <= MAX_HEIGHT
  {
    h == 0 || exists k :: 0 < k <= h && BodyAt(cfg, k) != NO_BODY
  }

  /** The nearest snapshot at or below a height is the replay of all leaves up to that height, and it
      exists exactly when some block up to there has a body. */
  lemma {:induction false} NearestSnapshotIsReplay(cfg: Config, f: nat, h: nat)
    requires ValidConfig(cfg) && 0 < h <= f <= MAX_HEIGHT
    ensures NearestMmr(DbAt(cfg, f).mmrs, h).Some? <==> HasRange(cfg, h)
    ensures var k := NearestMmr(DbAt(cfg, f).mmrs, h);
            k.Some? ==> DbAt(cfg, f).mmrs[k.value] == SnapshotBytes(LeavesAt(cfg, h))
  {
    hide DbAt, BodyAt, LeavesAt, SnapshotBytes, NearestMmr;
    var mmrs := DbAt(cfg, f).mmrs;
    DbMmrs(cfg, f);
    NearestIsGreatest(mmrs, h);
    var k := NearestMmr(mmrs, h);
    if k.Some? {
      forall j | k.value < j <= h
        ensures BodyAt(cfg, j) == NO_BODY
      {
        assert j !in mmrs;
      }
      LeavesUnchanged(cfg, k.value, h);
      assert k.value in mmrs;
    }
  }

  /** Restores the mountain range from the snapshot that `GetStateMMR` finds, which is that of the leaves of height
      `at`. */
  method RestoreState(state: ChainState, cfg: Config, height: nat, ghost at: nat) returns (m: Mmr.MMR)
    requires ValidConfig(cfg) && 0 < height <= MAX_HEIGHT && at <= MAX_HEIGHT
    requires var k := NearestMmr(state.db.mmrs, height);
             k.Some? && state.db.mmrs[k.value] == SnapshotBytes(LeavesAt(cfg, at))
    ensures fresh(m) && m.Represents(LeavesAt(cfg, at)) && m.leafIndexes == Mmr.LeafIndexesOf(LeavesAt(cfg, at))
  {
    hide BodyAt, LeavesAt, NearestMmr, Snapshot.Decode, Snapshot.SnapshotOf, Mmr.LeafIndexesOf, Distinct,
      Snapshot.ValidIndexes;
    ghost var leaves := LeavesAt(cfg, at);
    LeavesFit(cfg, at);
    LeavesDistinct(cfg, at);
    ZeroIsNoLeaf(leaves);
    Snapshot.RoundTrip(leaves, Mmr.LeafIndexesOf(leaves));
    m := state.GetStateMmr(height);
    Snapshot.RestoredRange(m, leaves, Mmr.LeafIndexesOf(leaves));
  }

  /** `GetStateMMR` on any database that holds blocks of the chain: the range of the nearest snapshot. */
  method GetStoredState(state: ChainState, cfg: Config, height: nat) returns (m: Mmr.MMR?)
    requires ValidConfig(cfg) && height <= MAX_HEIGHT && Holds(cfg, state.db)
    ensures m != null <==> StoredLeaves(cfg, state.db, height).Some?
    ensures m != null ==>
              var leaves := StoredLeaves(cfg, state.db, height).value;
              fresh(m) && m.Represents(leaves) && m.leafIndexes == Mmr.LeafIndexesOf(leaves)
  {
    hide BodyAt, LeavesAt, NearestMmr, Snapshot.Decode, SnapshotBytes, Mmr.LeafIndexesOf, Holds, Mmr.PeaksOf,
      Mmr.NodesOf;
    if height == 0 {
      m := state.GetStateMmr(0);
      return;
    }
    HeldSnapshots(cfg, state.db);
    var nearest := NearestMmr(state.db.mmrs, height);
    if nearest.None? {
      return null;
    }
    m := RestoreState(state, cfg, height, nearest.value);
  }

  /** `GetStateMMR` on a database with the snapshots of height `f`. */
  method GetStateMmrAt(state: ChainState, cfg: Config, ghost f: nat, height: nat) returns (m: Mmr.MMR?)
    requires ValidConfig(cfg) && height <= f <= MAX_HEIGHT && state.db.mmrs == DbAt(cfg, f).mmrs
    ensures m != null <==> HasRange(cfg, height)
    ensures m != null ==>
              && fresh(m) && m.Represents(LeavesAt(cfg, height))
              && m.leafIndexes == Mmr.LeafIndexesOf(LeavesAt(cfg, height))
  {
    hide DbAt, BodyAt, LeavesAt, NearestMmr, Snapshot.Decode, SnapshotBytes, Mmr.LeafIndexesOf, HasRange, Mmr.PeaksOf,
      Mmr.NodesOf;
    if height == 0 {
      NoLeavesAtGenesis(cfg);
      AlwaysRangeAtGenesis(cfg);
      m := state.GetStateMmr(0);
      return;
    }
    NearestSnapshotIsReplay(cfg, f, height);
    var nearest := NearestMmr(state.db.mmrs, height);
    if nearest.None? {
      return null;
    }
    m := RestoreState(state, cfg, height, height);
  }

  lemma {:induction false} AlwaysRangeAtGenesis(cfg: Config)
    requires ValidConfig(cfg)
    ensures HasRange(cfg, 0)
  {
  }

  /** A stored block of the chain is read back. */
  lemma {:induction false} HeldDecodes(cfg: Config, db: Db, h: nat)
    requires ValidConfig(cfg) && Holds(cfg, db) && h in db.blocks && h <= MAX_HEIGHT
    ensures DecodeBlock(db.blocks[h]) == Some(StoredBlock(BlockAt(cfg, h)))
  {
    hide DbAt, BodyAt, BlockAt, HashAt, LeavesAt, BlockBytes, DecodeBlock, ContentAt, Complete, NothingElse, IdsRoot,
      HeaderHash, Mmr.RootOf;
    DbBlocks(cfg, MAX_HEIGHT);
    StoredChainIsLinked(cfg, MAX_HEIGHT, h);
  }

  lemma {:induction false} StoredLeavesFit(cfg: Config, db: Db, f: nat)
    requires ValidConfig(cfg) && Holds(cfg, db) && f < MAX_HEIGHT && StoredLeaves(cfg, db, f).Some?
    ensures |StoredLeaves(cfg, db, f).value| + 3 <= Positions.MAX_LEAVES
  {
    hide StoredLeaves, Holds, LeavesAt, NoBodyMissing;
    StoredLeavesExactly(cfg, db, f);
    LeavesFit(cfg, f);
  }

  /** The database of a height holds its blocks, also when the finalized height lags. */
  lemma {:induction false} LagHoldsBlock(cfg: Config, db: Db, f: nat, top: nat)
    requires ValidConfig(cfg) && f <= top <= MAX_HEIGHT && db == DbAt(cfg, top).(finalized := f)
    ensures Holds(cfg, db) && f in db.blocks
  {
    hide DbAt, Holds, BlockAt, BlockBytes, ContentAt;
    CanonicalHolds(cfg, top);
    FinalizedIsSeparate(cfg, DbAt(cfg, top), f);
    DbBlocks(cfg, top);
  }

  /** On the database of a later height the nearest snapshot is that of all leaves, if there is one. */
  lemma {:induction false} LagLeaves(cfg: Config, db: Db, f: nat, top: nat)
    requires ValidConfig(cfg) && f <= top <= MAX_HEIGHT && db == DbAt(cfg, top).(finalized := f)
    ensures StoredLeaves(cfg, db, f) == if HasRange(cfg, f) then Some(LeavesAt(cfg, f)) else None
  {
    hide DbAt, BodyAt, LeavesAt, NearestMmr, SnapshotBytes;
    if f == 0 {
      NoLeavesAtGenesis(cfg);
    } else {
      NearestSnapshotIsReplay(cfg, top, f);
      if NearestMmr(DbAt(cfg, top).mmrs, f).Some? { NearestLeaves(cfg, top, f); }
    }
  }

  lemma {:induction false} NearestLeaves(cfg: Config, top: nat, f: nat)
    requires ValidConfig(cfg) && 0 < f <= top <= MAX_HEIGHT && NearestMmr(DbAt(cfg, top).mmrs, f).Some?
    ensures NearestMmr(DbAt(cfg, top).mmrs, f).value <= MAX_HEIGHT
    ensures LeavesAt(cfg, NearestMmr(DbAt(cfg, top).mmrs, f).value) == LeavesAt(cfg, f)
  {
    hide DbAt, BodyAt, LeavesAt, SnapshotBytes, NearestMmr;
    var mmrs := DbAt(cfg, top).mmrs;
    DbMmrs(cfg, top);
    NearestIsGreatest(mmrs, f);
    var k := NearestMmr(mmrs, f).value;
    forall j | k < j <= f
      ensures BodyAt(cfg, j) == NO_BODY
    {
      assert j !in mmrs;
    }
    LeavesUnchanged(cfg, k, f);
  }

  lemma {:induction false} ZeroIsNoLeaf(leaves: seq<Bytes>)
    ensures ZERO !in Mmr.LeafIndexesOf(leaves)
  {
    hide HashBytes;
    if leaves != [] { ZeroIsNoLeaf(leaves[..|leaves| - 1]); }
  }

  lemma {:induction false} LeafIndexesNext(leaves: seq<Bytes>, leaf: Bytes)
    ensures Mmr.LeafIndexesOf(leaves + [leaf]) == Mmr.LeafIndexesOf(leaves)[HashBytes(leaf) := |leaves|]
  {
    assert (leaves + [leaf])[..|leaves|] == leaves;
  }

  // ----- blocks -----

  ghost function ProducedBlock(cfg: Config, h: nat): Block
    requires ValidConfig(cfg) && h <= MAX_HEIGHT
  {
    BlockOf(cfg, h, BodyAt(cfg, h))
  }

  /** What syncing block `h` gives over the content of the height before it, or of a later height at which it would
      be made again as it was. */
  lemma {:induction false} ProducedAt(cfg: Config, h: nat, top: nat)
    requires ValidConfig(cfg) && 0 < h <= MAX_HEIGHT && h - 1 <= top <= MAX_HEIGHT
    requires h <= top ==> SyncAt(cfg, h).Synced? && Agrees(cfg, top, h)
    ensures var s := SyncBlobs(cfg.da, ContentAt(cfg, top), h + cfg.offset, BlobsAt(cfg, h));
            && (s.Synced? <==> SyncAt(cfg, h).Synced?)
            && (s.Synced? ==> s == Synced(ContentAt(cfg, Later(top, h)), BodyAt(cfg, h)))
  {
    hide SyncBlobs, SyncAt, ContentAt, BodyAt;
    ContentStep(cfg, h);
  }

  method MerkleRootOfIds(ids: seq<BlobId>) returns (root: Hash)
    ensures root == IdsRoot(ids)
  {
    hide Merkle.MerkleRoot, IdBytes;
    var bytes: seq<Bytes> := [];
    for i := 0 to |ids|
      invariant |bytes| == i
      invariant forall j :: 0 <= j < i ==> bytes[j] == IdBytes(ids[j])
    {
      bytes := bytes + [IdBytes(ids[i])];
    }
    assert bytes == AllIdBytes(ids);
    root := Merkle.CalculateMerkleRoot(bytes);
  }

  /** A new block with version 1 and the roots of its lists; the other header fields are zero. */
  method NewBlock(body: Body) returns (block: Block)
    ensures block == Block(Header(1, [], 0, 0, Time(0, 0), ZERO, IdsRoot(body.dirs), IdsRoot(body.files),
                                  IdsRoot(body.chunks), ZERO), body)
  {
    hide IdsRoot;
    var dirsRoot := MerkleRootOfIds(body.dirs);
    var filesRoot := MerkleRootOfIds(body.files);
    var chunksRoot := MerkleRootOfIds(body.chunks);
    block := Block(Header(1, [], 0, 0, Time(0, 0), ZERO, dirsRoot, filesRoot, chunksRoot, ZERO), body);
  }

  ghost predicate GoodHashes(cfg: Config, hashes: map<nat, Hash>)
    requires ValidConfig(cfg)
  {
    forall h :: h in hashes ==> h <= MAX_HEIGHT && hashes[h] == HashAt(cfg, h)
  }

  lemma {:induction false} GoodHashesNext(cfg: Config, hashes: map<nat, Hash>, h: nat, uncached: Hash)
    requires ValidConfig(cfg) && GoodHashes(cfg, hashes) && h <= MAX_HEIGHT && uncached == HashAt(cfg, h)
    ensures (if h in hashes then hashes[h] else uncached) == HashAt(cfg, h)
    ensures GoodHashes(cfg, hashes[h := HashAt(cfg, h)])
  {
    hide HashAt;
  }

  lemma {:induction false} NoHashes(cfg: Config)
    requires ValidConfig(cfg)
    ensures GoodHashes(cfg, map[])
  {
  }

  class BlobcastChain {
    const cfg: Config
    const state: ChainState
    const cache: HashCache

    /** Cached hashes are those of the chain, for committed and for merely attempted heights alike. */
    ghost predicate CacheOk()
      requires ValidConfig(cfg)
      reads this, cache
    {
      GoodHashes(cfg, cache.hashes)
    }

    ghost predicate Idle(top: nat)
      reads this, state, cache
    {
      ValidConfig(cfg) && state.pending == null && CacheOk() && IdleDb(cfg, state.db, top)
    }

    /** Between blocks: `next` is the height to make, `prev` the block before it if it is in memory. The content may
        be that of a later height `top`, as a copy from another node can leave it. */
    ghost predicate At(next: nat, prev: Option<Block>, top: nat)
      reads this, state, cache
    {
      && ValidConfig(cfg) && state.pending == null && CacheOk()
      && 0 < next <= MAX_HEIGHT + 1 && next - 1 <= top <= MAX_HEIGHT && Reachable(cfg, top)
      && Settled(cfg, next - 1, top) && state.db == DbAt(cfg, top).(finalized := next - 1)
      && (prev.Some? ==> prev.value == BlockAt(cfg, next - 1))
    }

    lemma {:induction false} WhenAt(next: nat, prev: Option<Block>, top: nat)
      requires At(next, prev, top)
      ensures Idle(top) && state.db.finalized == next - 1
    {
      hide GoodHashes, DbAt, Reachable, Settled;
    }

    lemma {:induction false} WhenIdle(top: nat)
      requires Idle(top) && state.db.finalized > 0
      ensures At(state.db.finalized + 1, None, top)
    {
      hide GoodHashes, DbAt, Reachable, Settled;
    }

    constructor (cfg: Config, state: ChainState)
      ensures this.cfg == cfg && this.state == state && fresh(cache) && cache.hashes == map[]
    {
      this.cfg, this.state := cfg, state;
      cache := new HashCache();
    }

    /** The genesis block, written over an earlier one if there is one. */
    method CreateGenesisBlock(tx: ChainStateTransaction, faults: Faults, ghost top: nat) returns (r: Option<Block>)
      requires ValidConfig(cfg) && top <= MAX_HEIGHT && CacheOk() && tx.Open() && tx.state == state
      requires (tx.View() == EMPTY_DB && top == 0) || tx.View() == DbAt(cfg, top).(finalized := 0)
      modifies tx, cache
      ensures CacheOk() && tx.Open()
      ensures r.Some? <==> !faults.getHeader
      ensures r.Some? ==> r.value == BlockAt(cfg, 0) && tx.View() == DbAt(cfg, top).(finalized := 0)
    {
      hide HeaderHash, BlockBytes, IdsRoot, ApplyAll, GoodHashes;
      if faults.getHeader {
        return None;
      }
      var block := NewBlock(NO_BODY);
      block := block.(header := block.header.(chainId := cfg.chainId, height := 0, celestiaHeight := cfg.offset,
                                              time := cfg.da.blocks(cfg.offset).time));
      assert block == BlockAt(cfg, 0) by { GenesisBlock(cfg, block); }
      StoredHash(cfg, 0);
      GoodHashesNext(cfg, cache.hashes, 0, HeaderHash(block.header));
      var hash := cache.Hash(block.header);
      GoodHashesNext(cfg, cache.hashes, 0, HeaderHash(block.header));
      hash := tx.PutBlock(0, block, cache);
      GenesisDb(cfg, top);
      r := Some(block);
    }

    /** Block `height` from its blobs, over whatever content is stored. */
    method ProduceBlock(tx: ChainStateTransaction, height: nat, celestiaHeight: nat, faults: Faults)
      returns (r: Option<Block>)
      requires ValidConfig(cfg) && 0 < height <= MAX_HEIGHT && celestiaHeight == height + cfg.offset
      requires tx.Open() && tx.state == state && tx.View() == state.db
      modifies tx
      ensures tx.Open()
      ensures var s := SyncBlobs(cfg.da, state.db.content, height + cfg.offset, BlobsAt(cfg, height));
              && (r.Some? <==> !faults.getBlobs && !faults.getHeader && s.Synced?)
              && (r.Some? ==> r.value == BlockOf(cfg, height, s.body) && tx.View() == state.db.(content := s.content))
    {
      hide ApplyAll, SyncBlobs, IdsRoot;
      if faults.getBlobs {
        return None;
      }
      var body := SyncBlobsInto(tx, cfg.da, celestiaHeight, cfg.da.blocks(celestiaHeight).blobs);
      if body.None? {
        return None;
      }
      var block := NewBlock(body.value);
      if faults.getHeader {
        return None;
      }
      block := block.(header := block.header.(chainId := cfg.chainId, height := height,
                                              celestiaHeight := celestiaHeight,
                                              time := cfg.da.blocks(celestiaHeight).time));
      r := Some(block);
    }

    /** The header of block `f + 1` with any body, linked to its predecessor and with its state root, and the snapshot
        to store if the state has changed, over any database that holds block `f`. The previous block may come from
        memory or from disk. */
    method LinkBlock(block: Block, prevBlock: Option<Block>, ghost f: nat)
      returns (r: Option<Block>, snapshot: Option<Bytes>)
      requires ValidConfig(cfg) && CacheOk() && f < MAX_HEIGHT && Holds(cfg, state.db) && f in state.db.blocks
      requires block == BlockOf(cfg, f + 1, block.body)
      requires prevBlock.Some? ==> prevBlock.value == BlockAt(cfg, f)
      modifies cache
      ensures CacheOk()
      ensures var leaves := StoredLeaves(cfg, state.db, f);
              && r == (if leaves.Some? then Some(Linked(cfg, f, block.body, leaves.value)) else None)
              && (r.Some? ==>
                    snapshot == if block.body == NO_BODY then None
                                else Some(SnapshotBytes(leaves.value + BodyLeaves(block.body))))
    {
      hide GoodHashes, HashAt, HeaderAt, BodyAt, LeavesAt, IdsRoot, HeaderHash, DecodeBlock, Holds, StoredLeaves,
        BodyLeaves, Mmr.RootOf, Mmr.LeafIndexesOf, Snapshot.SnapshotOf, Snapshot.ValidIndexes, Mmr.PeaksOf, Mmr.NodesOf;
      snapshot := None;
      HeaderAtFields(cfg, f);
      StoredHash(cfg, f);
      var prev := prevBlock;
      if prev.None? {
        prev := state.GetBlock(block.header.height - 1);
        HeldDecodes(cfg, state.db, f);
      }
      if prev.None? {
        return None, None;
      }
      if prev.value.header.height != block.header.height - 1 {
        return None, None;
      }
      GoodHashesNext(cfg, cache.hashes, f, HeaderHash(prev.value.header));
      var parentHash := cache.Hash(prev.value.header);

      var stateMmr := GetStoredState(state, cfg, block.header.height - 1);
      if stateMmr == null {
        return None, None;
      }
      ghost var leaves := StoredLeaves(cfg, state.db, f).value;
      StoredLeavesFit(cfg, state.db, f);
      var h := block.header;
      var root, changed := AddRoots(stateMmr, h.dirsRoot, h.filesRoot, h.chunksRoot, leaves, block.body);
      if changed {
        IndexesAreValid(leaves + BodyLeaves(block.body));
        var bytes := Snapshot.TakeSnapshot(stateMmr, leaves + BodyLeaves(block.body));
        snapshot := Some(bytes);
      }
      r := Some(block.(header := h.(parentHash := parentHash, stateRoot := root)));
    }

    /** Links the block, appends its roots to the state and writes both. */
    method ApplyBlock(tx: ChainStateTransaction, block: Block, prevBlock: Option<Block>, ghost f: nat, ghost top: nat)
      returns (r: Option<Block>)
      requires ValidConfig(cfg) && CacheOk() && f < MAX_HEIGHT && f <= top <= MAX_HEIGHT
      requires state.db == DbAt(cfg, top).(finalized := f)
      requires tx.Open() && tx.state == state && tx.View() == state.db.(content := ContentAt(cfg, Later(top, f + 1)))
      requires block == ProducedBlock(cfg, f + 1)
      requires prevBlock.Some? ==> prevBlock.value == BlockAt(cfg, f)
      modifies tx, cache
      ensures CacheOk() && tx.Open()
      ensures r == if HasRange(cfg, f) then Some(BlockAt(cfg, f + 1)) else None
      ensures r.Some? ==> tx.View() == DbAt(cfg, Later(top, f + 1)).(finalized := f)
    {
      hide GoodHashes, HashAt, ChainStateTransaction.Open, ChainStateTransaction.View, BlockOf, Holds, Linked,
        StoredLeaves, BodyLeaves, DbAt, BodyAt, HeaderAt, LeavesAt, ContentAt, HeaderHash, BlockBytes, HasRange,
        SnapshotBytes, Later, ValidConfig;
      LagHoldsBlock(cfg, state.db, f, top);
      LagLeaves(cfg, state.db, f, top);
      LinkedIsBlock(cfg, f);
      BlockOfBody(cfg, f + 1, BodyAt(cfg, f + 1));
      var applied, snapshot := LinkBlock(block, prevBlock, f);
      if applied.None? {
        return None;
      }
      StoreApplied(tx, applied.value, snapshot, f, top);
      r := applied;
    }

    /** Writes an applied block, and the snapshot if the state has changed. */
    method StoreApplied(tx: ChainStateTransaction, block: Block, snapshot: Option<Bytes>, ghost f: nat, ghost top: nat)
      requires ValidConfig(cfg) && CacheOk() && f < MAX_HEIGHT && f <= top <= MAX_HEIGHT && block == BlockAt(cfg, f + 1)
      requires snapshot == if BodyAt(cfg, f + 1) == NO_BODY then None else Some(SnapshotBytes(LeavesAt(cfg, f + 1)))
      requires tx.Open() && tx.View() == DbAt(cfg, top).(content := ContentAt(cfg, Later(top, f + 1)), finalized := f)
      modifies tx, cache
      ensures CacheOk() && tx.Open()
      ensures tx.View() == DbAt(cfg, Later(top, f + 1)).(finalized := f)
    {
      hide GoodHashes, HashAt, ChainStateTransaction.Open, ChainStateTransaction.View, DbAt, BodyAt, HeaderAt, LeavesAt,
        ContentAt, HeaderHash, BlockBytes, SnapshotBytes, Later, ValidConfig;
      HeaderAtFields(cfg, f + 1);
      if snapshot.Some? {
        tx.PutStateMmrRaw(block.header.height, snapshot.value);
      }
      StoredHash(cfg, f + 1);
      GoodHashesNext(cfg, cache.hashes, f + 1, HeaderHash(block.header));
      var hash := tx.PutBlock(block.header.height, block, cache);
      NextDb(cfg, f, top);
    }

    method FinalizeBlock(tx: ChainStateTransaction, height: nat)
      requires tx.Open()
      modifies tx
      ensures tx.Open() && tx.View() == old(tx.View()).(finalized := height)
    {
      tx.SetFinalizedHeight(height);
    }

    /** Produces, applies and finalizes block `height` in an open transaction. */
    method WriteBlock(tx: ChainStateTransaction, height: nat, prevBlock: Option<Block>, faults: Faults, ghost top: nat)
      returns (r: Option<Block>)
      requires ValidConfig(cfg) && CacheOk() && 0 < height <= MAX_HEIGHT && height - 1 <= top <= MAX_HEIGHT
      requires state.db == DbAt(cfg, top).(finalized := height - 1)
      requires height <= top ==> SyncAt(cfg, height).Synced? && Agrees(cfg, top, height)
      requires tx.Open() && tx.state == state && tx.View() == state.db
      requires prevBlock.Some? ==> prevBlock.value == BlockAt(cfg, height - 1)
      modifies tx, cache
      ensures CacheOk() && tx.Open()
      ensures r == if !faults.getBlobs && !faults.getHeader && SyncAt(cfg, height).Synced? && HasRange(cfg, height - 1)
                   then Some(BlockAt(cfg, height)) else None
      ensures r.Some? ==> tx.View() == DbAt(cfg, Later(top, height)).(finalized := height)
    {
      hide GoodHashes, ChainStateTransaction.Open, ChainStateTransaction.View, ValidConfig, DbAt, BlockAt, ContentAt,
        BodyAt, SyncAt, HasRange, BlockOf, Agrees, Later, SyncBlobs;
      DbBlocks(cfg, top);
      ProducedAt(cfg, height, top);
      r := ProduceBlock(tx, height, height + cfg.offset, faults);
      if r.None? {
        return;
      }
      r := ApplyBlock(tx, r.value, prevBlock, height - 1, top);
      if r.None? {
        return;
      }
      FinalizeBlock(tx, height);
    }

    /** One block, in one transaction: committed as a whole or not at all. Without faults it is committed
        exactly when its height is reachable. */
    method SyncHeight(nextHeight: nat, prevBlock: Option<Block>, faults: Faults, ghost top: nat)
      returns (r: Option<Block>)
      requires At(nextHeight, prevBlock, top) && nextHeight <= MAX_HEIGHT
      modifies state, cache
      ensures r.Some? ==> At(nextHeight + 1, r, Later(top, nextHeight)) && r.value == BlockAt(cfg, nextHeight)
      ensures r.None? ==> At(nextHeight, prevBlock, top)
      ensures faults == NO_FAULTS ==> (r.Some? <==> Reachable(cfg, nextHeight))
    {
      hide GoodHashes, ChainStateTransaction.Open, ChainStateTransaction.View, ValidConfig, DbAt, BlockAt, SyncAt,
        Reachable, HasRange, Agrees, Settled;
      NextIsReachable(cfg, nextHeight, top);
      var tx := state.BeginTransaction();
      var block := WriteBlock(tx, nextHeight, prevBlock, faults, top);
      if block.None? {
        var _ := tx.Abort();
        return None;
      }
      var ok := tx.Commit(faults.commit);
      if !ok {
        return None;
      }
      r := block;
    }

    /** Writes the genesis block, again if the process stopped before height 1 was finalized. */
    method SyncGenesis(faults: Faults, ghost top: nat) returns (r: Option<Block>)
      requires Idle(top) && state.db.finalized == 0
      modifies state, cache
      ensures r.Some? ==> At(1, r, top)
      ensures r.None? ==> Idle(top) && state.db == old(state.db)
      ensures faults == NO_FAULTS ==> r.Some?
    {
      hide GoodHashes, ChainStateTransaction.Open, ChainStateTransaction.View, DbAt, BlockAt, Reachable, Agrees;
      var tx := state.BeginTransaction();
      var block := CreateGenesisBlock(tx, faults, top);
      if block.None? {
        var _ := tx.Abort();
        return None;
      }
      var ok := tx.Commit(faults.commit);
      if !ok {
        return None;
      }
      r := block;
    }

    /** One call of `SyncChain`: genesis if needed, then historical catch-up, then live sync. In round `i` Celestia
        reports `tips(i)` as its latest height, between `lo` and `hi`; unless `mayFail` is false any call may fail, and
        after `rounds` attempts the process is stopped. Without failures and with enough rounds it gets as far as
        Celestia and the chain allow. */
    method SyncChain(rounds: nat, tips: nat -> nat, mayFail: bool, ghost top: nat, ghost lo: nat, ghost hi: nat)
      returns (nextHeight: nat)
      requires Idle(top) && forall i :: 0 <= i <= rounds ==> lo <= tips(i) <= hi
      modifies state, cache
      ensures Idle(Later(top, state.db.finalized))
      ensures old(state.db.finalized) <= state.db.finalized
      ensures nextHeight > 0 ==> state.db.finalized == nextHeight - 1
      ensures state.db.finalized == old(state.db.finalized) || state.db.finalized + cfg.offset <= hi
      ensures !mayFail && rounds >= lo ==> CaughtUp(cfg, state.db.finalized, lo)
    {
      hide BlobcastChain.Idle, BlobcastChain.At, BlockAt, Reachable;
      nextHeight := 0;
      var prevBlock: Option<Block> := None;
      FinalizedWithin(top);
      if state.db.finalized > 0 {
        WhenIdle(top);
        nextHeight := state.db.finalized + 1;
      } else {
        var faults: Faults := *;
        prevBlock := SyncGenesis(if mayFail then faults else NO_FAULTS, top);
        if prevBlock.None? {
          return;
        }
        nextHeight := 1;
      }

      var latest := tips(0);
      var live := false;
      ghost var now, first := top, nextHeight;
      for i := 0 to rounds
        invariant At(nextHeight, prevBlock, now) && nextHeight > 0 && now == Later(top, nextHeight - 1)
        invariant first == old(state.db.finalized) + 1 <= nextHeight && lo <= latest <= hi
        invariant nextHeight == first || nextHeight - 1 + cfg.offset <= hi
        invariant !mayFail ==> nextHeight + cfg.offset > lo || nextHeight >= first + i
      {
        if !live && nextHeight + cfg.offset >= latest {
          latest := tips(i);
        }
        if nextHeight + cfg.offset > latest {
          live := true;
          latest := tips(i + 1);
        } else {
          if nextHeight > MAX_HEIGHT {
            WhenAt(nextHeight, prevBlock, now);
            return;
          }
          var faults: Faults := *;
          var block := SyncHeight(nextHeight, prevBlock, if mayFail then faults else NO_FAULTS, now);
          if block.None? {
            WhenAt(nextHeight, prevBlock, now);
            return;
          }
          now := Later(now, nextHeight);
          prevBlock := block;
          nextHeight := nextHeight + 1;
        }
      }
      WhenAt(nextHeight, prevBlock, now);
    }

    lemma {:induction false} FinalizedWithin(top: nat)
      requires Idle(top)
      ensures state.db.finalized <= top
    {
      hide DbAt, Reachable, Settled;
    }
  }

  lemma {:induction false} EmptyIsCanonical(cfg: Config)
    requires ValidConfig(cfg)
    ensures CanonicalDb(cfg, EMPTY_DB)
  {
  }

  /** Any two histories that finalized the same height past genesis left the same database. */
  lemma {:induction false} SameHeightSameDb(cfg: Config, a: Db, b: Db)
    requires ValidConfig(cfg) && CanonicalDb(cfg, a) && CanonicalDb(cfg, b)
    requires a.finalized == b.finalized > 0
    ensures a == b
  {
  }

  /** The chain passes height 1 only if its first block has a body: with an empty first block there is no
      stored mountain range, and applying block 2 fails in every attempt. */
  lemma {:induction false} EmptyFirstBlockStopsTheChain(cfg: Config, db: Db)
    requires ValidConfig(cfg) && CanonicalDb(cfg, db)
    requires cfg.da.blocks(1 + cfg.offset).blobs == []
    ensures db.finalized <= 1
  {
    hide DbAt;
    assert SyncAt(cfg, 1) == Synced(NO_CONTENT, NO_BODY);
  }

  lemma {:induction false} StoredHash(cfg: Config, f: nat)
    requires ValidConfig(cfg) && f <= MAX_HEIGHT
    ensures HeaderHash(BlockAt(cfg, f).header) == HashAt(cfg, f)
    ensures HeaderHash(StoredBlock(BlockAt(cfg, f)).header) == HashAt(cfg, f)
  {
    hide HeaderAt, HeaderBytes, BodyAt;
    StoredHeaderBytes(HeaderAt(cfg, f));
  }

  lemma {:induction false} IndexesAreValid(leaves: seq<Bytes>)
    ensures Snapshot.ValidIndexes(Mmr.LeafIndexesOf(leaves), |leaves|)
  {
    hide Mmr.LeafIndexesOf, Snapshot.LastIndex, Snapshot.ValidIndexes, HashBytes;
    Snapshot.LeafIndexesAreLastIndex(leaves);
    Snapshot.LastIndexMeaning(Snapshot.HashAll(leaves));
  }

  /** Writing block `f + 1` to the database of `f`, or again to that of a later height. */
  lemma {:induction false} NextDb(cfg: Config, f: nat, top: nat)
    requires ValidConfig(cfg) && f < MAX_HEIGHT && f <= top <= MAX_HEIGHT
    ensures var db, next := DbAt(cfg, top), Later(top, f + 1);
            DbAt(cfg, next).(finalized := f) == WithBlock(db, f + 1, BlockAt(cfg, f + 1)).(
              mmrs := if BodyAt(cfg, f + 1) == NO_BODY then db.mmrs
                      else db.mmrs[f + 1 := SnapshotBytes(LeavesAt(cfg, f + 1))],
              content := ContentAt(cfg, next), finalized := f)
  {
    hide DbAt, BlockAt, BodyAt, LeavesAt, ContentAt, SnapshotBytes, BlockBytes, HeaderHash;
    if top == f {
      DbStep(cfg, f + 1);
    } else {
      SameBlockAgain(cfg, top, f + 1);
      DbBlocks(cfg, top);
    }
  }

  lemma {:induction false} DbStep(cfg: Config, f: nat)
    requires ValidConfig(cfg) && 0 < f <= MAX_HEIGHT
    ensures var db := DbAt(cfg, f - 1);
            DbAt(cfg, f) == WithBlock(db, f, BlockAt(cfg, f)).(
              mmrs := if BodyAt(cfg, f) == NO_BODY then db.mmrs else db.mmrs[f := SnapshotBytes(LeavesAt(cfg, f))],
              content := ContentAt(cfg, f), finalized := f)
  {
    hide BlockAt, BodyAt, LeavesAt, ContentAt, SnapshotBytes, BlockBytes, HeaderHash;
  }

  /** Below the top every height is reachable; above it, one more takes a block without garbage and a range. */
  lemma {:induction false} NextIsReachable(cfg: Config, next: nat, top: nat)
    requires ValidConfig(cfg) && 0 < next <= MAX_HEIGHT && next - 1 <= top <= MAX_HEIGHT && Reachable(cfg, top)
    requires Settled(cfg, next - 1, top)
    ensures Reachable(cfg, next) <==> SyncAt(cfg, next).Synced? && HasRange(cfg, next - 1)
    ensures next <= top ==> Reachable(cfg, next) && Agrees(cfg, top, next)
    ensures Settled(cfg, next, Later(top, next))
    ensures Reachable(cfg, next) ==> Reachable(cfg, Later(top, next))
  {
    hide SyncAt, BodyAt, Agrees, HasRange;
    ReachableNext(cfg, next - 1);
  }

  /** Reaching one more height takes a block without garbage and a mountain range to extend. */
  lemma {:induction false} ReachableNext(cfg: Config, f: nat)
    requires ValidConfig(cfg) && f < MAX_HEIGHT && Reachable(cfg, f)
    ensures Reachable(cfg, f + 1) <==> SyncAt(cfg, f + 1).Synced? && HasRange(cfg, f)
  {
    hide SyncAt, BodyAt;
    if f >= 1 {
      assert BodyAt(cfg, 1) != NO_BODY ==> HasRange(cfg, f);
    }
  }

  /** Appends the non-zero ones of the three roots: first that of the directories, then that of the files, then that
      of the chunks. */
  method AddRoots(m: Mmr.MMR, dirsRoot: Hash, filesRoot: Hash, chunksRoot: Hash, ghost leaves: seq<Bytes>,
                  ghost body: Body) returns (root: Hash, changed: bool)
    requires |leaves| + 3 <= Positions.MAX_LEAVES && m.Represents(leaves) && m.leafIndexes == Mmr.LeafIndexesOf(leaves)
    requires dirsRoot == IdsRoot(body.dirs) && filesRoot == IdsRoot(body.files) && chunksRoot == IdsRoot(body.chunks)
    modifies m
    ensures m.Represents(leaves + BodyLeaves(body)) && m.leafIndexes == Mmr.LeafIndexesOf(leaves + BodyLeaves(body))
    ensures root == Mmr.RootOf(leaves + BodyLeaves(body))
    ensures var dirsLeaf, filesLeaf, chunksLeaf := if dirsRoot == ZERO then [] else [Raw(dirsRoot)],
                                                   if filesRoot == ZERO then [] else [Raw(filesRoot)],
                                                   if chunksRoot == ZERO then [] else [Raw(chunksRoot)];
            m.Represents(leaves + dirsLeaf + filesLeaf + chunksLeaf)
            && root == Mmr.RootOf(leaves + dirsLeaf + filesLeaf + chunksLeaf)
    ensures changed <==> body != NO_BODY
  {
    hide IdsRoot, Mmr.RootOf, Mmr.LeafIndexesOf, HashBytes, Mmr.PeaksOf, Mmr.NodesOf;
    BodyLeavesEmpty(body);
    ghost var now := leaves;
    changed := false;
    if dirsRoot != ZERO {
      LeafIndexesNext(now, Raw(dirsRoot));
      var _ := m.AddLeaf(Raw(dirsRoot), now);
      now := now + [Raw(dirsRoot)];
      changed := true;
    }
    if filesRoot != ZERO {
      LeafIndexesNext(now, Raw(filesRoot));
      var _ := m.AddLeaf(Raw(filesRoot), now);
      now := now + [Raw(filesRoot)];
      changed := true;
    }
    if chunksRoot != ZERO {
      LeafIndexesNext(now, Raw(chunksRoot));
      var _ := m.AddLeaf(Raw(chunksRoot), now);
      now := now + [Raw(chunksRoot)];
      changed := true;
    }
    assert now == leaves + BodyLeaves(body);
    ghost var dirsLeaf := if dirsRoot == ZERO then [] else [Raw(dirsRoot)];
    ghost var filesLeaf := if filesRoot == ZERO then [] else [Raw(filesRoot)];
    ghost var chunksLeaf := if chunksRoot == ZERO then [] else [Raw(chunksRoot)];
    assert now == leaves + dirsLeaf + filesLeaf + chunksLeaf;
    root := m.Root(now);
  }

  lemma {:induction false} GenesisBlock(cfg: Config, block: Block)
    requires ValidConfig(cfg)
    requires block == Block(Header(1, cfg.chainId, 0, cfg.offset, cfg.da.blocks(cfg.offset).time, ZERO,
                                   IdsRoot([]), IdsRoot([]), IdsRoot([]), ZERO), NO_BODY)
    ensures block == BlockAt(cfg, 0)
  {
    hide IdsRoot;
  }

  lemma {:induction false} GenesisDb(cfg: Config, top: nat)
    requires ValidConfig(cfg) && top <= MAX_HEIGHT
    ensures WithBlock(EMPTY_DB, 0, BlockAt(cfg, 0)) == DbAt(cfg, 0).(finalized := 0)
    ensures WithBlock(DbAt(cfg, top).(finalized := 0), 0, BlockAt(cfg, 0)) == DbAt(cfg, top).(finalized := 0)
  {
    hide BlockBytes, HeaderHash, BodyAt, LeavesAt, ContentAt, SnapshotBytes, BlockAt;
    SameBlockAgain(cfg, top, 0);
  }

  /** Writing a block of the chain again changes nothing. */
  lemma {:induction false} SameBlockAgain(cfg: Config, top: nat, h: nat)
    requires ValidConfig(cfg) && h <= top <= MAX_HEIGHT
    ensures var db := DbAt(cfg, top);
            && db.blocks[h := BlockBytes(BlockAt(cfg, h))] == db.blocks
            && db.hashIndex[HeaderHash(BlockAt(cfg, h).header) := h] == db.hashIndex
            && (BodyAt(cfg, h) != NO_BODY && h > 0 ==> db.mmrs[h := SnapshotBytes(LeavesAt(cfg, h))] == db.mmrs)
  {
    hide DbAt, BodyAt, LeavesAt, ContentAt, SnapshotBytes, BlockBytes, HeaderHash, HeaderAt;
    DbBlocks(cfg, top);
    DbHashIndex(cfg, top);
    DbMmrs(cfg, top);
    StoredHash(cfg, h);
    assert HashAt(cfg, h) in DbAt(cfg, top).hashIndex;
  }

  /** No further block can be made: Celestia has no further one, or the next height cannot be reached. */
  ghost predicate CaughtUp(cfg: Config, f: nat, tip: nat)
    requires ValidConfig(cfg)
  {
    f + 1 + cfg.offset > tip || f >= MAX_HEIGHT || !Reachable(cfg, f + 1)
  }

  /** A reachable height that has caught up is the greatest reachable one whose Celestia block is there. */
  lemma {:induction false} CaughtUpIsGreatest(cfg: Config, f: nat, tip: nat)
    requires ValidConfig(cfg) && f <= MAX_HEIGHT
    ensures CaughtUp(cfg, f, tip) <==>
              forall g :: f < g <= MAX_HEIGHT && Reachable(cfg, g) ==> g + cfg.offset > tip
  {
    hide SyncAt, BodyAt, Reachable;
    if CaughtUp(cfg, f, tip) {
      forall g | f < g <= MAX_HEIGHT && Reachable(cfg, g)
        ensures g + cfg.offset > tip
      {
        ReachesEarlier(cfg, f + 1, g);
      }
    }
  }

  lemma {:induction false} ReachesEarlier(cfg: Config, a: nat, b: nat)
    requires ValidConfig(cfg) && a <= b <= MAX_HEIGHT && Reachable(cfg, b)
    ensures Reachable(cfg, a)
  {
    hide SyncAt, BodyAt;
  }

  /** Every block above `f` up to `top` would be made again as it was. */
  ghost predicate Settled(cfg: Config, f: nat, top: nat)
    requires ValidConfig(cfg) && top <= MAX_HEIGHT
  {
    forall h :: f < h <= top ==> Agrees(cfg, top, h)
  }

  /** The database of height `top`, with a finalized height that may lag; or nothing has been committed yet. */
  ghost predicate IdleDb(cfg: Config, db: Db, top: nat)
    requires ValidConfig(cfg)
  {
    && top <= MAX_HEIGHT && Reachable(cfg, top)
    && ((db == EMPTY_DB && top == 0)
        || (db.finalized <= top && db == DbAt(cfg, top).(finalized := db.finalized) && Settled(cfg, db.finalized, top)))
  }

  /** The database is the one of its finalized height, or nothing has been committed yet. */
  ghost predicate CanonicalDb(cfg: Config, db: Db)
    requires ValidConfig(cfg)
  {
    db == EMPTY_DB ||
    (db.finalized <= MAX_HEIGHT && Reachable(cfg, db.finalized) && db == DbAt(cfg, db.finalized))
  }

  lemma {:induction false} CanonicalIsIdle(cfg: Config, db: Db)
    requires ValidConfig(cfg)
    ensures CanonicalDb(cfg, db) <==> IdleDb(cfg, db, db.finalized)
  {
    hide DbAt;
    if db.finalized <= MAX_HEIGHT { DbBlocks(cfg, db.finalized); }
  }

  function Later(a: nat, b: nat): nat {
    if a < b then b else a
  }
}
