/** What a copy of blocks from another node stores: a database that holds any set of blocks of the chain is determined
    by that set, in whatever order the blocks came. */
module Copies {
  import opened Octets
  import opened Codec
  import opened Content
  import opened Chain
  import opened Store
  import opened Wrappers
  import opened Arrival

  // ----- what the source sends -----

  datatype ChunkWithHash = ChunkWithHash(data: Bytes, hash: Hash)

  /** One message of the stream. */
  datatype Response = Response(
    block: Block,
    hash: Hash,
    chunks: seq<ChunkWithHash>,
    files: seq<FileManifest>,
    dirs: seq<DirManifest>,
    mmr: Option<Bytes>)

  /** The message for height `h`, from the content that a node with height `h` or more has. */
  ghost function ResponseAt(cfg: Config, h: nat): Response
    requires ValidConfig(cfg) && h <= MAX_HEIGHT
  {
    var b := BodyAt(cfg, h);
    var open := cfg.da.open;
    Response(
      StoredBlock(BlockAt(cfg, h)), HashAt(cfg, h),
      seq(|b.chunks|, (i: nat) requires i < |b.chunks| => OpenChunk(cfg.da, b.chunks[i].commitment)),
      seq(|b.files|, (i: nat) requires i < |b.files| => OpenFile(cfg.da, b.files[i].commitment)),
      seq(|b.dirs|, (i: nat) requires i < |b.dirs| => OpenDir(cfg.da, b.dirs[i].commitment)),
      if h > 0 && b != NO_BODY then Some(SnapshotBytes(LeavesAt(cfg, h))) else None)
  }

  function OpenChunk(da: Celestia, k: Hash): ChunkWithHash {
    match da.open(k) case Chunk(d) => ChunkWithHash(d, HashBytes(d)) case _ => ChunkWithHash([], ZERO)
  }

  function OpenFile(da: Celestia, k: Hash): FileManifest {
    match da.open(k) case File(m) => m case _ => FileManifest([], 0, [], [])
  }

  function OpenDir(da: Celestia, k: Hash): DirManifest {
    match da.open(k) case Dir(m) => m case _ => DirManifest([], [], [])
  }

  // ----- what a worker makes of it -----

  datatype Processed = Processed(
    height: nat,
    block: Block,
    chunks: map<Hash, Bytes>,
    chunkHashes: map<Hash, Hash>,
    files: seq<(BlobId, FileManifest)>,
    dirs: seq<(BlobId, DirManifest)>,
    mmr: Option<Bytes>,
    hash: Hash)

  /** Chunks by commitment, a later one replacing an earlier one. */
  function ChunkMap(ids: seq<BlobId>, chunks: seq<ChunkWithHash>): map<Hash, Bytes>
    requires |ids| == |chunks|
  {
    if ids == [] then map[]
    else
      var n := |ids| - 1;
      ChunkMap(ids[..n], chunks[..n])[ids[n].commitment := chunks[n].data]
  }

  function ChunkHashMap(ids: seq<BlobId>, chunks: seq<ChunkWithHash>): map<Hash, Hash>
    requires |ids| == |chunks|
  {
    if ids == [] then map[]
    else
      var n := |ids| - 1;
      ChunkHashMap(ids[..n], chunks[..n])[ids[n].commitment := chunks[n].hash]
  }

  function Zip<A, B>(a: seq<A>, b: seq<B>): (r: seq<(A, B)>)
    requires |a| == |b|
    ensures |r| == |a|
    ensures forall i :: 0 <= i < |r| ==> r[i] == (a[i], b[i])
  {
    seq(|a|, (i: nat) requires i < |a| => (a[i], b[i]))
  }

  predicate CountsMatch(r: Response) {
    |r.chunks| == |r.block.body.chunks| && |r.files| == |r.block.body.files| && |r.dirs| == |r.block.body.dirs|
  }

  function ProcessedOf(r: Response): Processed
    requires CountsMatch(r)
  {
    var b := r.block.body;
    Processed(r.block.header.height, r.block, ChunkMap(b.chunks, r.chunks), ChunkHashMap(b.chunks, r.chunks),
              Zip(b.files, r.files), Zip(b.dirs, r.dirs), r.mmr, r.hash)
  }

  // ----- what a commit does -----

  /** The pairs of a list as a map, a later one replacing an earlier one. */
  function AsMap<K(==), V>(pairs: seq<(K, V)>): map<K, V> {
    if pairs == [] then map[] else AsMap(pairs[..|pairs| - 1])[pairs[|pairs| - 1].0 := pairs[|pairs| - 1].1]
  }

  function Merge(db: Db, p: Processed): Db {
    var c := db.content;
    db.(blocks := db.blocks[p.height := BlockBytes(p.block)],
        hashIndex := db.hashIndex[p.hash := p.height],
        mmrs := if p.mmr.Some? && p.height > 0 then db.mmrs[p.height := p.mmr.value] else db.mmrs,
        content := c.(chunks := c.chunks + p.chunks, chunkHashes := c.chunkHashes + p.chunkHashes,
                      files := c.files + AsMap(p.files), dirs := c.dirs + AsMap(p.dirs)))
  }

  // ----- any order gives the same database -----

  ghost predicate SubMap<K, V>(a: map<K, V>, b: map<K, V>) {
    forall k :: k in a ==> k in b && b[k] == a[k]
  }

  /** Everything in `db`, except the finalized height, is also in `t`. */
  ghost predicate Within(db: Db, t: Db) {
    && SubMap(db.blocks, t.blocks) && SubMap(db.hashIndex, t.hashIndex) && SubMap(db.mmrs, t.mmrs)
    && SubMap(db.content.chunks, t.content.chunks) && SubMap(db.content.chunkHashes, t.content.chunkHashes)
    && SubMap(db.content.files, t.content.files) && SubMap(db.content.dirs, t.content.dirs)
  }

  ghost predicate BodyCovered(c: Content, b: Body) {
    && (forall id :: id in b.chunks ==> id.commitment in c.chunks && id.commitment in c.chunkHashes)
    && (forall id :: id in b.files ==> id in c.files)
    && (forall id :: id in b.dirs ==> id in c.dirs)
  }

  /** All that belongs to block `h` is in `db`. */
  ghost predicate Covers(cfg: Config, db: Db, h: nat)
    requires ValidConfig(cfg) && h <= MAX_HEIGHT
  {
    && h in db.blocks && HashAt(cfg, h) in db.hashIndex
    && (BodyAt(cfg, h) != NO_BODY ==> h in db.mmrs)
    && BodyCovered(db.content, BodyAt(cfg, h))
  }

  lemma {:induction false} ChunkMapMeaning(da: Celestia, ids: seq<BlobId>, chunks: seq<ChunkWithHash>)
    requires |ids| == |chunks| && forall i :: 0 <= i < |ids| ==> chunks[i] == OpenChunk(da, ids[i].commitment)
    ensures forall k :: k in ChunkMap(ids, chunks) ==>
              ChunkMap(ids, chunks)[k] == OpenChunk(da, k).data && exists id :: id in ids && id.commitment == k
    ensures forall id :: id in ids ==> id.commitment in ChunkMap(ids, chunks)
  {
    hide OpenChunk;
    if ids != [] {
      var n := |ids| - 1;
      ChunkMapMeaning(da, ids[..n], chunks[..n]);
      assert ids == ids[..n] + [ids[n]];
    }
  }

  lemma {:induction false} ChunkHashMapMeaning(da: Celestia, ids: seq<BlobId>, chunks: seq<ChunkWithHash>)
    requires |ids| == |chunks| && forall i :: 0 <= i < |ids| ==> chunks[i] == OpenChunk(da, ids[i].commitment)
    ensures forall k :: k in ChunkHashMap(ids, chunks) ==>
              ChunkHashMap(ids, chunks)[k] == OpenChunk(da, k).hash && exists id :: id in ids && id.commitment == k
    ensures forall id :: id in ids ==> id.commitment in ChunkHashMap(ids, chunks)
  {
    hide OpenChunk;
    if ids != [] {
      var n := |ids| - 1;
      ChunkHashMapMeaning(da, ids[..n], chunks[..n]);
      assert ids == ids[..n] + [ids[n]];
    }
  }

  lemma {:induction false} AsMapMeaning<K, V>(keys: seq<K>, values: seq<V>)
    requires |keys| == |values|
    ensures forall k :: k in AsMap(Zip(keys, values)) ==>
              exists i :: 0 <= i < |keys| && keys[i] == k && values[i] == AsMap(Zip(keys, values))[k]
    ensures forall k :: k in keys ==> k in AsMap(Zip(keys, values))
    decreases |keys|
  {
    if keys != [] {
      var n := |keys| - 1;
      AsMapMeaning(keys[..n], values[..n]);
      assert Zip(keys, values)[..n] == Zip(keys[..n], values[..n]);
      assert keys == keys[..n] + [keys[n]];
    }
  }

  /** All that a body lists is stored, as its commitments open. */
  ghost predicate BodyServed(da: Celestia, c: Content, b: Body) {
    && (forall id :: id in b.chunks ==>
          && id.commitment in c.chunks && id.commitment in c.chunkHashes
          && OpenChunk(da, id.commitment) == ChunkWithHash(c.chunks[id.commitment], c.chunkHashes[id.commitment]))
    && (forall id :: id in b.files ==> id in c.files && OpenFile(da, id.commitment) == c.files[id])
    && (forall id :: id in b.dirs ==> id in c.dirs && OpenDir(da, id.commitment) == c.dirs[id])
  }

  /** What a block lists is in the content of every later height, as its commitment opens. */
  lemma {:induction false} ListedContent(cfg: Config, h: nat, end: nat)
    requires ValidConfig(cfg) && h <= end <= MAX_HEIGHT
    ensures BodyServed(cfg.da, ContentAt(cfg, end), BodyAt(cfg, h))
  {
    hide ContentAt, SyncAt, FileAccepted, DirAccepted, HashBytes;
    ContentIsClosed(cfg, end);
    if h > 0 {
      BodyIsListed(cfg, h);
      ContentGrows(cfg, h, end);
    }
  }

  lemma {:induction false} ResponseCounts(cfg: Config, h: nat)
    requires ValidConfig(cfg) && h <= MAX_HEIGHT
    ensures CountsMatch(ResponseAt(cfg, h))
    ensures ResponseAt(cfg, h).block.header.height == h
  {
    hide HeaderAt, BodyAt, HashAt, LeavesAt, SnapshotBytes;
    HeaderAtFields(cfg, h);
  }

  ghost function ProcessedAt(cfg: Config, h: nat): Processed
    requires ValidConfig(cfg) && h <= MAX_HEIGHT
  {
    ResponseCounts(cfg, h);
    ProcessedOf(ResponseAt(cfg, h))
  }

  lemma {:induction false} StoredBlockBytes(b: Block)
    ensures BlockBytes(StoredBlock(b)) == BlockBytes(b)
  {
    hide HeaderBytes, BodyBytes, LE32;
    StoredHeaderBytes(b.header);
  }

  lemma {:induction false} ProcessedFields(cfg: Config, h: nat)
    requires ValidConfig(cfg) && h <= MAX_HEIGHT
    ensures var p := ProcessedAt(cfg, h);
            && p.height == h && p.hash == HashAt(cfg, h) && BlockBytes(p.block) == BlockBytes(BlockAt(cfg, h))
            && p.block == StoredBlock(BlockAt(cfg, h))
            && p.mmr == (if BodyAt(cfg, h) != NO_BODY then Some(SnapshotBytes(LeavesAt(cfg, h))) else None)
  {
    hide HeaderAt, HashAt, LeavesAt, SnapshotBytes, BlockBytes, ChunkMap, ChunkHashMap, Zip, SyncAt;
    ResponseCounts(cfg, h);
    StoredBlockBytes(BlockAt(cfg, h));
  }

  lemma {:induction false} ProcessedContent(cfg: Config, h: nat, end: nat)
    requires ValidConfig(cfg) && h <= end <= MAX_HEIGHT
    ensures var p, c, b := ProcessedAt(cfg, h), ContentAt(cfg, end), BodyAt(cfg, h);
            && SubMap(p.chunks, c.chunks) && SubMap(p.chunkHashes, c.chunkHashes)
            && SubMap(AsMap(p.files), c.files) && SubMap(AsMap(p.dirs), c.dirs)
            && BodyCovered(Content(p.chunks, p.chunkHashes, AsMap(p.files), AsMap(p.dirs)), b)
  {
    hide ContentAt, BodyAt, HeaderAt, HashAt, LeavesAt, SnapshotBytes, ChunkMap, ChunkHashMap, AsMap, OpenChunk,
      OpenFile, OpenDir;
    var r, b := ResponseAt(cfg, h), BodyAt(cfg, h);
    ResponseCounts(cfg, h);
    ListedContent(cfg, h, end);
    ChunkMapMeaning(cfg.da, b.chunks, r.chunks);
    ChunkHashMapMeaning(cfg.da, b.chunks, r.chunks);
    AsMapMeaning(b.files, r.files);
    AsMapMeaning(b.dirs, r.dirs);
  }

  lemma {:induction false} SubMapMerge<K, V>(a: map<K, V>, b: map<K, V>, t: map<K, V>)
    requires SubMap(a, t) && SubMap(b, t)
    ensures SubMap(a + b, t)
  {
  }

  lemma {:induction false} MergeWithin(cfg: Config, db: Db, h: nat, end: nat)
    requires ValidConfig(cfg) && h <= end <= MAX_HEIGHT && Within(db, DbAt(cfg, end))
    ensures Within(Merge(db, ProcessedAt(cfg, h)), DbAt(cfg, end))
  {
    hide DbAt, ContentAt, BodyAt, ProcessedAt, BlockAt, HashAt, LeavesAt, SnapshotBytes, BlockBytes, AsMap, BodyCovered;
    var t, p, c := DbAt(cfg, end), ProcessedAt(cfg, h), db.content;
    DbBlocks(cfg, end);
    DbHashIndex(cfg, end);
    DbMmrs(cfg, end);
    NoBodyAtGenesis(cfg);
    ProcessedFields(cfg, h);
    ProcessedContent(cfg, h, end);
    assert h in t.blocks && HashAt(cfg, h) in t.hashIndex;
    hide SubMap;
    SubMapUpdate(db.blocks, t.blocks, h, BlockBytes(p.block));
    SubMapUpdate(db.hashIndex, t.hashIndex, p.hash, h);
    if p.mmr.Some? { SubMapUpdate(db.mmrs, t.mmrs, h, p.mmr.value); }
    SubMapMerge(c.chunks, p.chunks, t.content.chunks);
    SubMapMerge(c.chunkHashes, p.chunkHashes, t.content.chunkHashes);
    SubMapMerge(c.files, AsMap(p.files), t.content.files);
    SubMapMerge(c.dirs, AsMap(p.dirs), t.content.dirs);
  }

  lemma {:induction false} SubMapUpdate<K, V>(a: map<K, V>, t: map<K, V>, k: K, v: V)
    requires SubMap(a, t) && k in t && t[k] == v
    ensures SubMap(a[k := v], t)
  {
  }

  lemma {:induction false} NoBodyAtGenesis(cfg: Config)
    requires ValidConfig(cfg)
    ensures BodyAt(cfg, 0) == NO_BODY
  {
  }

  lemma {:induction false} MergeCovers(cfg: Config, db: Db, h: nat)
    requires ValidConfig(cfg) && h <= MAX_HEIGHT
    ensures Covers(cfg, Merge(db, ProcessedAt(cfg, h)), h)
    ensures forall g :: 0 <= g <= MAX_HEIGHT && Covers(cfg, db, g) ==> Covers(cfg, Merge(db, ProcessedAt(cfg, h)), g)
  {
    hide ContentAt, BodyAt, ProcessedAt, BlockAt, HashAt, LeavesAt, SnapshotBytes, BlockBytes, AsMap;
    NoBodyAtGenesis(cfg);
    ProcessedFields(cfg, h);
    ProcessedContent(cfg, h, h);
  }

  // ----- databases that hold blocks of the chain -----

  /** Everything that the chain can ever store. */
  ghost function Everything(cfg: Config): Db
    requires ValidConfig(cfg)
  {
    DbAt(cfg, MAX_HEIGHT)
  }

  ghost predicate ListsChunk(cfg: Config, h: nat, k: Hash)
    requires ValidConfig(cfg) && h <= MAX_HEIGHT
  {
    exists id :: id in BodyAt(cfg, h).chunks && id.commitment == k
  }

  /** `k` is a chunk of one of the blocks. */
  ghost predicate SomeListsChunk(cfg: Config, blocks: set<nat>, k: Hash)
    requires ValidConfig(cfg)
  {
    exists h :: h in blocks && h <= MAX_HEIGHT && ListsChunk(cfg, h, k)
  }

  ghost predicate SomeListsFile(cfg: Config, blocks: set<nat>, id: BlobId)
    requires ValidConfig(cfg)
  {
    exists h :: h in blocks && h <= MAX_HEIGHT && id in BodyAt(cfg, h).files
  }

  ghost predicate SomeListsDir(cfg: Config, blocks: set<nat>, id: BlobId)
    requires ValidConfig(cfg)
  {
    exists h :: h in blocks && h <= MAX_HEIGHT && id in BodyAt(cfg, h).dirs
  }

  /** Nothing is stored but what some stored block brings. */
  ghost predicate NothingElse(cfg: Config, db: Db)
    requires ValidConfig(cfg)
  {
    var c, blocks := db.content, db.blocks.Keys;
    && (forall x :: x in db.hashIndex ==> db.hashIndex[x] in blocks)
    && (forall h :: h in db.mmrs ==> h in blocks)
    && (forall k :: k in c.chunks ==> SomeListsChunk(cfg, blocks, k))
    && (forall k :: k in c.chunkHashes ==> SomeListsChunk(cfg, blocks, k))
    && (forall id :: id in c.files ==> SomeListsFile(cfg, blocks, id))
    && (forall id :: id in c.dirs ==> SomeListsDir(cfg, blocks, id))
  }

  /** Every stored block is complete. */
  ghost predicate Complete(cfg: Config, db: Db)
    requires ValidConfig(cfg)
  {
    forall h :: h in db.blocks ==> h <= MAX_HEIGHT && Covers(cfg, db, h)
  }

  /** The database holds some blocks of the chain, each with all that belongs to it, and nothing else. Neither the
      finalized height nor the set of blocks is restricted: there may be holes. */
  ghost predicate Holds(cfg: Config, db: Db)
    requires ValidConfig(cfg)
  {
    Within(db, Everything(cfg)) && Complete(cfg, db) && NothingElse(cfg, db)
  }

  lemma {:induction false} HeldChunks(cfg: Config, a: Db, b: Db)
    requires ValidConfig(cfg) && NothingElse(cfg, a) && Complete(cfg, b) && a.blocks.Keys == b.blocks.Keys
    ensures forall k :: k in a.content.chunks ==> k in b.content.chunks
    ensures forall k :: k in a.content.chunkHashes ==> k in b.content.chunkHashes
  {
    hide BodyAt, HashAt, SomeListsFile, SomeListsDir;
    forall k | SomeListsChunk(cfg, a.blocks.Keys, k)
      ensures k in b.content.chunks && k in b.content.chunkHashes
    {
      var h :| h in a.blocks.Keys && h <= MAX_HEIGHT && ListsChunk(cfg, h, k);
      assert h in b.blocks && Covers(cfg, b, h);
    }
  }

  lemma {:induction false} HeldManifests(cfg: Config, a: Db, b: Db)
    requires ValidConfig(cfg) && NothingElse(cfg, a) && Complete(cfg, b) && a.blocks.Keys == b.blocks.Keys
    ensures forall id :: id in a.content.files ==> id in b.content.files
    ensures forall id :: id in a.content.dirs ==> id in b.content.dirs
  {
    hide BodyAt, HashAt, SomeListsChunk;
    forall id | SomeListsFile(cfg, a.blocks.Keys, id)
      ensures id in b.content.files
    {
      var h :| h in a.blocks.Keys && h <= MAX_HEIGHT && id in BodyAt(cfg, h).files;
      assert h in b.blocks && Covers(cfg, b, h);
    }
    forall id | SomeListsDir(cfg, a.blocks.Keys, id)
      ensures id in b.content.dirs
    {
      var h :| h in a.blocks.Keys && h <= MAX_HEIGHT && id in BodyAt(cfg, h).dirs;
      assert h in b.blocks && Covers(cfg, b, h);
    }
  }

  /** What the hash index and the snapshots of a held database are keyed by. */
  lemma {:induction false} HeldIndex(cfg: Config, a: Db, b: Db)
    requires ValidConfig(cfg) && Holds(cfg, a) && Holds(cfg, b) && a.blocks.Keys == b.blocks.Keys
    ensures forall x :: x in a.hashIndex ==> x in b.hashIndex
    ensures forall h :: h in a.mmrs ==> h in b.mmrs
  {
    hide DbAt, BodyAt, HashAt, SomeListsChunk, SomeListsFile, SomeListsDir, BodyCovered, BlockAt, BlockBytes, LeavesAt,
      SnapshotBytes;
    DbHashIndex(cfg, MAX_HEIGHT);
    DbMmrs(cfg, MAX_HEIGHT);
    forall x | x in a.hashIndex
      ensures x in b.hashIndex
    {
      var h := a.hashIndex[x];
      assert h in b.blocks && Covers(cfg, b, h);
      assert x in Everything(cfg).hashIndex;
    }
    forall h | h in a.mmrs
      ensures h in b.mmrs
    {
      assert h in b.blocks && Covers(cfg, b, h);
    }
  }

  lemma {:induction false} SameKeysSameMap<K, V>(a: map<K, V>, b: map<K, V>, t: map<K, V>)
    requires SubMap(a, t) && SubMap(b, t) && (forall k :: k in a ==> k in b) && (forall k :: k in b ==> k in a)
    ensures a == b
  {
  }

  /** The set of blocks determines the database, but for the finalized height. */
  lemma {:induction false} HeldIsDetermined(cfg: Config, a: Db, b: Db)
    requires ValidConfig(cfg) && Holds(cfg, a) && Holds(cfg, b) && a.blocks.Keys == b.blocks.Keys
    ensures a == b.(finalized := a.finalized)
  {
    hide Everything, SubMap, Complete, NothingElse;
    HeldIndex(cfg, a, b);
    HeldIndex(cfg, b, a);
    HeldChunks(cfg, a, b);
    HeldChunks(cfg, b, a);
    HeldManifests(cfg, a, b);
    HeldManifests(cfg, b, a);
    var t := Everything(cfg);
    assert forall h :: h in a.blocks <==> h in b.blocks;
    SameKeysSameMap(a.blocks, b.blocks, t.blocks);
    SameKeysSameMap(a.hashIndex, b.hashIndex, t.hashIndex);
    SameKeysSameMap(a.mmrs, b.mmrs, t.mmrs);
    SameKeysSameMap(a.content.chunks, b.content.chunks, t.content.chunks);
    SameKeysSameMap(a.content.chunkHashes, b.content.chunkHashes, t.content.chunkHashes);
    SameKeysSameMap(a.content.files, b.content.files, t.content.files);
    SameKeysSameMap(a.content.dirs, b.content.dirs, t.content.dirs);
  }

  lemma {:induction false} FinalizedIsSeparate(cfg: Config, db: Db, f: nat)
    requires ValidConfig(cfg)
    ensures Holds(cfg, db) <==> Holds(cfg, db.(finalized := f))
  {
    hide Everything, BodyAt, HashAt, SomeListsChunk, SomeListsFile, SomeListsDir, BodyCovered, SubMap;
    CoversIgnoresFinalized(cfg, db, f);
  }

  lemma {:induction false} CoversIgnoresFinalized(cfg: Config, db: Db, f: nat)
    requires ValidConfig(cfg)
    ensures forall h :: 0 <= h <= MAX_HEIGHT ==> (Covers(cfg, db, h) <==> Covers(cfg, db.(finalized := f), h))
  {
    hide BodyAt, HashAt, BodyCovered;
  }

  // ----- the databases of the chain hold their blocks -----

  lemma {:induction false} EmptyHolds(cfg: Config)
    requires ValidConfig(cfg)
    ensures Holds(cfg, EMPTY_DB)
  {
    hide Everything, SomeListsChunk, SomeListsFile, SomeListsDir;
  }

  lemma {:induction false} CanonicalHolds(cfg: Config, f: nat)
    requires ValidConfig(cfg) && f <= MAX_HEIGHT
    ensures Holds(cfg, DbAt(cfg, f)) && DbAt(cfg, f).blocks.Keys == Span(0, f + 1)
  {
    hide DbAt, Within, Complete, NothingElse, BlockAt, BlockBytes, ContentAt;
    DbBlocks(cfg, f);
    CanonicalWithin(cfg, f);
    CanonicalComplete(cfg, f);
    CanonicalNothingElse(cfg, f);
  }

  lemma {:induction false} CanonicalWithin(cfg: Config, f: nat)
    requires ValidConfig(cfg) && f <= MAX_HEIGHT
    ensures Within(DbAt(cfg, f), Everything(cfg))
  {
    hide DbAt, BodyAt, BlockAt, HashAt, LeavesAt, ContentAt, SnapshotBytes, BlockBytes;
    DbBlocks(cfg, f);
    DbHashIndex(cfg, f);
    DbMmrs(cfg, f);
    DbBlocks(cfg, MAX_HEIGHT);
    DbHashIndex(cfg, MAX_HEIGHT);
    DbMmrs(cfg, MAX_HEIGHT);
    ContentWithin(cfg, f, MAX_HEIGHT);
    assert forall h :: 0 <= h <= f ==> HashAt(cfg, h) in Everything(cfg).hashIndex;
  }

  lemma {:induction false} CanonicalComplete(cfg: Config, f: nat)
    requires ValidConfig(cfg) && f <= MAX_HEIGHT
    ensures Complete(cfg, DbAt(cfg, f))
  {
    hide DbAt, BodyAt, BlockAt, HashAt, LeavesAt, ContentAt, SnapshotBytes, BlockBytes, BodyCovered;
    DbBlocks(cfg, f);
    DbHashIndex(cfg, f);
    DbMmrs(cfg, f);
    NoBodyAtGenesis(cfg);
    forall h | 0 <= h <= f
      ensures Covers(cfg, DbAt(cfg, f), h)
    {
      BodyIsCovered(cfg, h, f);
    }
  }

  lemma {:induction false} CanonicalNothingElse(cfg: Config, f: nat)
    requires ValidConfig(cfg) && f <= MAX_HEIGHT
    ensures NothingElse(cfg, DbAt(cfg, f))
  {
    hide DbAt, BodyAt, BlockAt, HashAt, LeavesAt, ContentAt, SnapshotBytes, BlockBytes;
    var db := DbAt(cfg, f);
    DbBlocks(cfg, f);
    DbHashIndex(cfg, f);
    DbMmrs(cfg, f);
    ContentIsListed(cfg, f);
    ChunkKeysAgree(cfg, f);
    forall k | k in db.content.chunks
      ensures SomeListsChunk(cfg, db.blocks.Keys, k)
    {
      var h :| 0 < h <= f && BlobId(h + cfg.offset, k) in BodyAt(cfg, h).chunks;
      assert ListsChunk(cfg, h, k);
    }
    forall id | id in db.content.files
      ensures SomeListsFile(cfg, db.blocks.Keys, id)
    {
      var h :| 0 < h <= f && id in BodyAt(cfg, h).files;
    }
    forall id | id in db.content.dirs
      ensures SomeListsDir(cfg, db.blocks.Keys, id)
    {
      var h :| 0 < h <= f && id in BodyAt(cfg, h).dirs;
    }
  }

  lemma {:induction false} ChunkKeysAgree(cfg: Config, end: nat)
    requires ValidConfig(cfg) && end <= MAX_HEIGHT
    ensures ContentAt(cfg, end).chunkHashes.Keys == ContentAt(cfg, end).chunks.Keys
  {
    hide ContentAt, FilesClosed, DirsClosed, HashBytes;
    ContentIsClosed(cfg, end);
  }

  lemma {:induction false} BodyIsCovered(cfg: Config, h: nat, f: nat)
    requires ValidConfig(cfg) && h <= f <= MAX_HEIGHT
    ensures BodyCovered(ContentAt(cfg, f), BodyAt(cfg, h))
  {
    hide ContentAt, BodyAt;
    ListedContent(cfg, h, f);
  }

  lemma {:induction false} ContentWithin(cfg: Config, f: nat, end: nat)
    requires ValidConfig(cfg) && f <= end <= MAX_HEIGHT
    ensures var c, t := ContentAt(cfg, f), ContentAt(cfg, end);
            && SubMap(c.chunks, t.chunks) && SubMap(c.chunkHashes, t.chunkHashes)
            && SubMap(c.files, t.files) && SubMap(c.dirs, t.dirs)
  {
    hide ContentAt;
    ContentGrows(cfg, f, end);
  }

  /** A database that holds the blocks up to `f` and no other is that of height `f`, but for the finalized height. */
  lemma {:induction false} HeldIsCanonical(cfg: Config, db: Db, f: nat)
    requires ValidConfig(cfg) && f <= MAX_HEIGHT && Holds(cfg, db) && db.blocks.Keys == Span(0, f + 1)
    ensures db == DbAt(cfg, f).(finalized := db.finalized)
  {
    hide DbAt, Holds;
    CanonicalHolds(cfg, f);
    HeldIsDetermined(cfg, db, DbAt(cfg, f));
  }

  // ----- writing a block -----

  lemma {:induction false} ProcessedLists(cfg: Config, h: nat)
    requires ValidConfig(cfg) && h <= MAX_HEIGHT
    ensures var p, b := ProcessedAt(cfg, h), BodyAt(cfg, h);
            && (forall k :: k in p.chunks ==> ListsChunk(cfg, h, k))
            && (forall k :: k in p.chunkHashes ==> ListsChunk(cfg, h, k))
            && (forall id :: id in AsMap(p.files) ==> id in b.files)
            && (forall id :: id in AsMap(p.dirs) ==> id in b.dirs)
  {
    hide ContentAt, BodyAt, HeaderAt, HashAt, LeavesAt, SnapshotBytes, ChunkMap, ChunkHashMap, AsMap, OpenChunk,
      OpenFile, OpenDir;
    var r, b := ResponseAt(cfg, h), BodyAt(cfg, h);
    ResponseCounts(cfg, h);
    ChunkMapMeaning(cfg.da, b.chunks, r.chunks);
    ChunkHashMapMeaning(cfg.da, b.chunks, r.chunks);
    AsMapMeaning(b.files, r.files);
    AsMapMeaning(b.dirs, r.dirs);
  }

  lemma {:induction false} StillListed(cfg: Config, blocks: set<nat>, h: nat)
    requires ValidConfig(cfg) && h <= MAX_HEIGHT
    ensures forall k :: SomeListsChunk(cfg, blocks, k) || ListsChunk(cfg, h, k) ==> SomeListsChunk(cfg, blocks + {h}, k)
    ensures forall id :: SomeListsFile(cfg, blocks, id) || id in BodyAt(cfg, h).files ==>
              SomeListsFile(cfg, blocks + {h}, id)
    ensures forall id :: SomeListsDir(cfg, blocks, id) || id in BodyAt(cfg, h).dirs ==>
              SomeListsDir(cfg, blocks + {h}, id)
  {
    hide BodyAt, ListsChunk;
  }

  lemma {:induction false} MergeAddsNothingElse(cfg: Config, db: Db, h: nat)
    requires ValidConfig(cfg) && h <= MAX_HEIGHT && NothingElse(cfg, db)
    ensures NothingElse(cfg, Merge(db, ProcessedAt(cfg, h)))
    ensures Merge(db, ProcessedAt(cfg, h)).blocks.Keys == db.blocks.Keys + {h}
  {
    hide BodyAt, ProcessedAt, AsMap, SomeListsChunk, SomeListsFile, SomeListsDir, ListsChunk, HashAt, BlockAt,
      BlockBytes, LeavesAt, SnapshotBytes;
    var p, m := ProcessedAt(cfg, h), Merge(db, ProcessedAt(cfg, h));
    ProcessedFields(cfg, h);
    ProcessedLists(cfg, h);
    StillListed(cfg, db.blocks.Keys, h);
    assert m.blocks.Keys == db.blocks.Keys + {h};
  }

  /** Writing a block of the chain keeps the database one that holds blocks of the chain, with one block more. */
  lemma {:induction false} MergeHolds(cfg: Config, db: Db, h: nat)
    requires ValidConfig(cfg) && h <= MAX_HEIGHT && Holds(cfg, db)
    ensures Holds(cfg, Merge(db, ProcessedAt(cfg, h)))
    ensures Merge(db, ProcessedAt(cfg, h)).blocks.Keys == db.blocks.Keys + {h}
    ensures Merge(db, ProcessedAt(cfg, h)).finalized == db.finalized
  {
    hide DbAt, Within, Covers, NothingElse, ProcessedAt;
    MergeWithin(cfg, db, h, MAX_HEIGHT);
    MergeCovers(cfg, db, h);
    MergeAddsNothingElse(cfg, db, h);
  }

  /** Merging the blocks of a list of heights, in its order. */
  ghost function MergeAll(cfg: Config, db: Db, hs: seq<nat>): Db
    requires ValidConfig(cfg) && forall i :: 0 <= i < |hs| ==> hs[i] <= MAX_HEIGHT
  {
    if hs == [] then db
    else Merge(MergeAll(cfg, db, hs[..|hs| - 1]), ProcessedAt(cfg, hs[|hs| - 1]))
  }

  lemma {:induction false} MergeAllHolds(cfg: Config, db: Db, hs: seq<nat>)
    requires ValidConfig(cfg) && Holds(cfg, db) && forall i :: 0 <= i < |hs| ==> hs[i] <= MAX_HEIGHT
    ensures Holds(cfg, MergeAll(cfg, db, hs))
    ensures MergeAll(cfg, db, hs).blocks.Keys == db.blocks.Keys + HeightSet(hs)
    ensures MergeAll(cfg, db, hs).finalized == db.finalized
  {
    hide Holds, ProcessedAt, Merge;
    if hs != [] {
      var init, h := hs[..|hs| - 1], hs[|hs| - 1];
      MergeAllHolds(cfg, db, init);
      MergeHolds(cfg, MergeAll(cfg, db, init), h);
      assert hs == init + [h];
      assert HeightSet(hs) == HeightSet(init) + {h};
    }
  }

  lemma {:induction false} MergeNothing(cfg: Config, db: Db)
    requires ValidConfig(cfg)
    ensures MergeAll(cfg, db, []) == db
  {
  }

  lemma {:induction false} MergeNext(cfg: Config, db: Db, hs: seq<nat>, h: nat)
    requires ValidConfig(cfg) && h <= MAX_HEIGHT && forall j :: 0 <= j < |hs| ==> hs[j] <= MAX_HEIGHT
    ensures MergeAll(cfg, db, hs + [h]) == Merge(MergeAll(cfg, db, hs), ProcessedAt(cfg, h))
  {
    hide Merge, ProcessedAt;
    assert (hs + [h])[..|hs|] == hs;
  }
}
