/** The chain as a pure function of the Celestia data: what block, state root and database belong to
    every height. Nothing here looks at what a node did before. */
module Chain {
  import opened Octets
  import opened Codec
  import opened Content
  import opened Wrappers
  import Merkle
  import Mmr
  import Snapshot

  /** A chain id, the Celestia height of the genesis block, and Celestia. */
  datatype Config = Config(chainId: Bytes, offset: nat, da: Celestia)

  /** Heights stay below 2^60 and Celestia heights below 2^64, times are int64 seconds, and a Celestia
      block has fewer than 2^32 blobs. */
  const MAX_HEIGHT: nat := TWO64 / 16

  ghost predicate ValidConfig(cfg: Config) {
    && MAX_HEIGHT + cfg.offset < TWO64
    && forall h: nat :: ValidTime(cfg.da.blocks(h).time) && |cfg.da.blocks(h).blobs| < TWO32
  }

  // ----- content and bodies -----

  ghost function SyncAt(cfg: Config, h: nat): Outcome
    requires ValidConfig(cfg) && 0 < h <= MAX_HEIGHT
    decreases h, 1
  {
    SyncBlobs(cfg.da, ContentAt(cfg, h - 1), h + cfg.offset, cfg.da.blocks(h + cfg.offset).blobs)
  }

  /** The stored chunks and manifests after block `h`. */
  ghost function ContentAt(cfg: Config, h: nat): Content
    requires ValidConfig(cfg) && h <= MAX_HEIGHT
    decreases h, 2
  {
    if h == 0 then NO_CONTENT
    else match SyncAt(cfg, h) case Failed => ContentAt(cfg, h - 1) case Synced(c, _) => c
  }

  ghost function BodyAt(cfg: Config, h: nat): Body
    requires ValidConfig(cfg) && h <= MAX_HEIGHT
  {
    if h == 0 then NO_BODY
    else match SyncAt(cfg, h) case Failed => NO_BODY case Synced(_, b) => b
  }

  function IdsRoot(ids: seq<BlobId>): Hash {
    Merkle.MerkleRoot(AllIdBytes(ids))
  }

  function AllIdBytes(ids: seq<BlobId>): (s: seq<Bytes>)
    ensures |s| == |ids|
    ensures forall i :: 0 <= i < |s| ==> s[i] == IdBytes(ids[i])
  {
    seq(|ids|, (i: nat) requires i < |ids| => IdBytes(ids[i]))
  }

  /** The leaf for one list of a body: its Merkle root, unless the list is empty. */
  function RootLeaf(ids: seq<BlobId>): seq<Bytes> {
    if IdsRoot(ids) == ZERO then [] else [Raw(IdsRoot(ids))]
  }

  function BodyLeaves(b: Body): seq<Bytes> {
    RootLeaf(b.dirs) + RootLeaf(b.files) + RootLeaf(b.chunks)
  }

  /** Every non-zero root of blocks 1 to `h`, in order: the leaves of the state. */
  ghost function LeavesAt(cfg: Config, h: nat): (s: seq<Bytes>)
    requires ValidConfig(cfg) && h <= MAX_HEIGHT
    ensures |s| <= 3 * h
  {
    if h == 0 then [] else LeavesAt(cfg, h - 1) + BodyLeaves(BodyAt(cfg, h))
  }

  // ----- blocks -----

  function HeaderHash(h: Header): Hash {
    HashBytes(HeaderBytes(h))
  }

  ghost function HeaderAt(cfg: Config, h: nat): Header
    requires ValidConfig(cfg) && h <= MAX_HEIGHT
  {
    var b := BodyAt(cfg, h);
    Header(1, cfg.chainId, h, h + cfg.offset, cfg.da.blocks(h + cfg.offset).time,
           if h == 0 then ZERO else HeaderHash(HeaderAt(cfg, h - 1)),
           IdsRoot(b.dirs), IdsRoot(b.files), IdsRoot(b.chunks),
           if h == 0 then ZERO else Mmr.RootOf(LeavesAt(cfg, h)))
  }

  ghost function BlockAt(cfg: Config, h: nat): Block
    requires ValidConfig(cfg) && h <= MAX_HEIGHT
  {
    Block(HeaderAt(cfg, h), BodyAt(cfg, h))
  }

  ghost function HashAt(cfg: Config, h: nat): Hash
    requires ValidConfig(cfg) && h <= MAX_HEIGHT
  {
    HeaderHash(HeaderAt(cfg, h))
  }

  /** The snapshot of a mountain range built from `leaves` by appends alone. */
  ghost function SnapshotBytes(leaves: seq<Bytes>): Bytes {
    Snapshot.SnapshotOf(leaves, Mmr.LeafIndexesOf(leaves))
  }

  // ----- the database -----

  datatype Db = Db(
    blocks: map<nat, Bytes>,
    hashIndex: map<Hash, nat>,
    mmrs: map<nat, Bytes>,
    content: Content,
    finalized: nat)

  const EMPTY_DB: Db := Db(map[], map[], map[], NO_CONTENT, 0)

  function WithBlock(db: Db, h: nat, b: Block): Db {
    db.(blocks := db.blocks[h := BlockBytes(b)], hashIndex := db.hashIndex[HeaderHash(b.header) := h])
  }

  /** The database that belongs to finalized height `f`. */
  ghost function DbAt(cfg: Config, f: nat): Db
    requires ValidConfig(cfg) && f <= MAX_HEIGHT
  {
    if f == 0 then WithBlock(EMPTY_DB, 0, BlockAt(cfg, 0))
    else
      var db := DbAt(cfg, f - 1);
      WithBlock(db, f, BlockAt(cfg, f)).(
        mmrs := if BodyAt(cfg, f) == NO_BODY then db.mmrs else db.mmrs[f := SnapshotBytes(LeavesAt(cfg, f))],
        content := ContentAt(cfg, f),
        finalized := f)
  }

  /** The heights that a node can finalize: no block up to there is garbage, and past height 1 the first
      block has a body. Without one there is no mountain range to extend. */
  ghost predicate Reachable(cfg: Config, f: nat)
    requires ValidConfig(cfg) && f <= MAX_HEIGHT
  {
    && (forall h :: 0 < h <= f ==> SyncAt(cfg, h).Synced?)
    && (f >= 2 ==> BodyAt(cfg, 1) != NO_BODY)
  }

  // ----- facts about bodies and leaves -----

  lemma {:induction false} ContentIsClosed(cfg: Config, h: nat)
    requires ValidConfig(cfg) && h <= MAX_HEIGHT
    ensures Closed(cfg.da, ContentAt(cfg, h))
    decreases h
  {
    hide FileAccepted, DirAccepted, SyncBlobs;
    if h > 0 {
      hide Closed, Extends, Listed;
      ContentIsClosed(cfg, h - 1);
      SyncKeepsClosed(cfg.da, ContentAt(cfg, h - 1), h + cfg.offset, cfg.da.blocks(h + cfg.offset).blobs);
    }
  }

  lemma {:induction false} BodyIsListed(cfg: Config, h: nat)
    requires ValidConfig(cfg) && 0 < h <= MAX_HEIGHT
    ensures Listed(cfg.da, ContentAt(cfg, h), h + cfg.offset, BodyAt(cfg, h))
    ensures Extends(ContentAt(cfg, h - 1), ContentAt(cfg, h))
    ensures var b := BodyAt(cfg, h); |b.dirs| < TWO32 && |b.files| < TWO32 && |b.chunks| < TWO32
  {
    hide Closed, Extends, SyncBlobs, ContentAt;
    ContentIsClosed(cfg, h - 1);
    SyncKeepsClosed(cfg.da, ContentAt(cfg, h - 1), h + cfg.offset, cfg.da.blocks(h + cfg.offset).blobs);
    ContentStep(cfg, h);
    ExtendsSelf(ContentAt(cfg, h - 1));
  }

  lemma {:induction false} ContentStep(cfg: Config, h: nat)
    requires ValidConfig(cfg) && 0 < h <= MAX_HEIGHT
    ensures SyncAt(cfg, h) == SyncBlobs(cfg.da, ContentAt(cfg, h - 1), h + cfg.offset,
                                        cfg.da.blocks(h + cfg.offset).blobs)
    ensures SyncAt(cfg, h).Synced? ==>
              ContentAt(cfg, h) == SyncAt(cfg, h).content && BodyAt(cfg, h) == SyncAt(cfg, h).body
    ensures SyncAt(cfg, h).Failed? ==> ContentAt(cfg, h) == ContentAt(cfg, h - 1) && BodyAt(cfg, h) == NO_BODY
  {
    hide SyncBlobs;
  }

  function BlobsAt(cfg: Config, h: nat): seq<Hash> {
    cfg.da.blocks(h + cfg.offset).blobs
  }

  /** Block `h` lists its chunks, its whole files and the directories over files committed before it, in the order
      of the blobs; it has no body at all exactly if a blob is garbage or nothing is listed. */
  lemma {:induction false} BodyInOrder(cfg: Config, h: nat)
    requires ValidConfig(cfg) && 0 < h <= MAX_HEIGHT
    ensures SyncAt(cfg, h).Synced? <==>
              forall i :: 0 <= i < |BlobsAt(cfg, h)| ==> !cfg.da.open(BlobsAt(cfg, h)[i]).Garbage?
    ensures SyncAt(cfg, h).Synced? ==>
              var da, blobs, c := cfg.da, BlobsAt(cfg, h), ContentAt(cfg, h - 1);
              var at, n := h + cfg.offset, |blobs|;
              && BodyAt(cfg, h).chunks == Kept(at, blobs, (p: nat) => KeepsChunk(da, blobs, p), n)
              && BodyAt(cfg, h).files == Kept(at, blobs, (p: nat) => KeepsFile(da, c, at, blobs, p), n)
              && BodyAt(cfg, h).dirs == Kept(at, blobs, (p: nat) => KeepsDir(da, c, blobs, p), n)
  {
    hide SyncBlobs, ContentAt, BodyAt, SyncAt, KeepsChunk, KeepsFile, KeepsDir;
    ContentStep(cfg, h);
    var blobs, c := BlobsAt(cfg, h), ContentAt(cfg, h - 1);
    SyncedExactly(cfg.da, c, h + cfg.offset, blobs);
    if SyncAt(cfg, h).Synced? {
      assert blobs[..|blobs|] == blobs;
      ListsInOrder(cfg.da, c, h + cfg.offset, blobs, |blobs|);
    }
  }

  /** A blob is listed as a directory exactly if it is one, its files were committed before the block and its hash is
      the Merkle root of their digests. */
  lemma {:induction false} DirListedExactly(cfg: Config, h: nat, p: nat)
    requires ValidConfig(cfg) && 0 < h <= MAX_HEIGHT && SyncAt(cfg, h).Synced? && p < |BlobsAt(cfg, h)|
    ensures var k := BlobsAt(cfg, h)[p];
            BlobId(h + cfg.offset, k) in BodyAt(cfg, h).dirs <==>
              cfg.da.open(k).Dir? && RootedDir(ContentAt(cfg, h - 1), cfg.da.open(k).dir)
  {
    hide SyncAt, BodyAt, ContentAt, RootedDir, Kept, KeepsChunk, KeepsFile;
    var da, blobs, c := cfg.da, BlobsAt(cfg, h), ContentAt(cfg, h - 1);
    var keep := (q: nat) => KeepsDir(da, c, blobs, q);
    BodyInOrder(cfg, h);
    KeptMember(h + cfg.offset, blobs, keep, |blobs|, BlobId(h + cfg.offset, blobs[p]));
    assert keep(p) == KeepsDir(da, c, blobs, p);
  }

  /** Content is never lost. */
  lemma {:induction false} ContentGrows(cfg: Config, g: nat, h: nat)
    requires ValidConfig(cfg) && g <= h <= MAX_HEIGHT
    ensures Extends(ContentAt(cfg, g), ContentAt(cfg, h))
    decreases h
  {
    hide Extends, ContentAt;
    if g == h {
      ExtendsSelf(ContentAt(cfg, g));
    } else {
      ContentGrows(cfg, g, h - 1);
      BodyIsListed(cfg, h);
      ExtendsTransitive(ContentAt(cfg, g), ContentAt(cfg, h - 1), ContentAt(cfg, h));
    }
  }

  /** Every key of the content is listed by some block. */
  lemma {:induction false} ContentIsListed(cfg: Config, end: nat)
    requires ValidConfig(cfg) && end <= MAX_HEIGHT
    ensures forall k :: k in ContentAt(cfg, end).chunks ==>
              exists h :: 0 < h <= end && BlobId(h + cfg.offset, k) in BodyAt(cfg, h).chunks
    ensures forall id :: id in ContentAt(cfg, end).files ==> exists h :: 0 < h <= end && id in BodyAt(cfg, h).files
    ensures forall id :: id in ContentAt(cfg, end).dirs ==> exists h :: 0 < h <= end && id in BodyAt(cfg, h).dirs
    decreases end
  {
    hide BodyAt, SyncBlobs, ContentAt;
    if end == 0 {
      NothingAtGenesis(cfg);
    } else {
      ContentIsListed(cfg, end - 1);
      ContentStep(cfg, end);
      SyncAddsBodyOnly(cfg.da, ContentAt(cfg, end - 1), end + cfg.offset, cfg.da.blocks(end + cfg.offset).blobs);
    }
  }

  lemma {:induction false} NothingAtGenesis(cfg: Config)
    requires ValidConfig(cfg)
    ensures ContentAt(cfg, 0) == NO_CONTENT
  {
  }

  lemma {:induction false} IdsRootZero(ids: seq<BlobId>)
    ensures IdsRoot(ids) == ZERO <==> ids == []
  {
    hide Merkle.MerkleRoot;
    Merkle.RootZeroMeansEmpty(AllIdBytes(ids));
  }

  lemma {:induction false} BodyLeavesEmpty(b: Body)
    ensures BodyLeaves(b) == [] <==> b == NO_BODY
  {
    hide IdsRoot;
    IdsRootZero(b.dirs);
    IdsRootZero(b.files);
    IdsRootZero(b.chunks);
  }

  /** The leaves that block `h` adds: the roots in its header, that of the directories before that of the files
      before that of the chunks, each exactly if its list is not empty. */
  lemma {:induction false} LeavesAdded(cfg: Config, h: nat)
    requires ValidConfig(cfg) && 0 < h <= MAX_HEIGHT
    ensures var x, b := HeaderAt(cfg, h), BodyAt(cfg, h);
            LeavesAt(cfg, h) == LeavesAt(cfg, h - 1) + (if b.dirs == [] then [] else [Raw(x.dirsRoot)])
                                + (if b.files == [] then [] else [Raw(x.filesRoot)])
                                + (if b.chunks == [] then [] else [Raw(x.chunksRoot)])
  {
    hide BodyAt, HeaderAt, IdsRoot;
    HeaderAtFields(cfg, h);
    var b := BodyAt(cfg, h);
    IdsRootZero(b.dirs);
    IdsRootZero(b.files);
    IdsRootZero(b.chunks);
  }

  /** Equal roots mean equal id lists. */
  lemma {:induction false} IdsRootBinding(a: seq<BlobId>, b: seq<BlobId>)
    requires |a| < TWO32 && |b| < TWO32 && IdsRoot(a) == IdsRoot(b)
    ensures a == b
  {
    hide Merkle.MerkleRoot, IdBytes;
    Merkle.MerkleBinding(AllIdBytes(a), AllIdBytes(b));
    assert AllIdBytes(a) == AllIdBytes(b);
    forall i | 0 <= i < |a|
      ensures a[i] == b[i]
    {
      assert IdBytes(a[i]) == AllIdBytes(a)[i] == AllIdBytes(b)[i] == IdBytes(b[i]);
      IdRoundTrip(a[i]);
      IdRoundTrip(b[i]);
    }
  }

  /** `leaf` is the root of one of the three lists of block `h`. */
  ghost predicate RootOfBlock(cfg: Config, h: nat, leaf: Bytes)
    requires ValidConfig(cfg) && h <= MAX_HEIGHT
  {
    leaf in BodyLeaves(BodyAt(cfg, h))
  }

  /** One of the three lists. */
  ghost predicate ListOf(b: Body, ids: seq<BlobId>) {
    ids == b.dirs || ids == b.files || ids == b.chunks
  }

  lemma {:induction false} LeafHasList(cfg: Config, h: nat, leaf: Bytes) returns (ids: seq<BlobId>)
    requires ValidConfig(cfg) && 0 < h <= MAX_HEIGHT && RootOfBlock(cfg, h, leaf)
    ensures ids != [] && |ids| < TWO32 && leaf == Raw(IdsRoot(ids)) && ListOf(BodyAt(cfg, h), ids)
    ensures forall id :: id in ids ==> id.height == h + cfg.offset
  {
    hide IdsRoot, BodyAt, ContentAt, Extends;
    var b := BodyAt(cfg, h);
    BodyIsListed(cfg, h);
    ids := if leaf in RootLeaf(b.dirs) then b.dirs else if leaf in RootLeaf(b.files) then b.files else b.chunks;
    IdsRootZero(ids);
  }

  /** The same root never enters the state twice: ids carry their height, and a commitment opens to
      only one kind of blob. */
  lemma {:induction false} RootsOfBlocksDiffer(cfg: Config, g: nat, h: nat, leaf: Bytes)
    requires ValidConfig(cfg) && 0 < g <= MAX_HEIGHT && 0 < h <= MAX_HEIGHT
    requires RootOfBlock(cfg, g, leaf) && RootOfBlock(cfg, h, leaf)
    ensures g == h
  {
    hide IdsRoot, RootOfBlock, BodyAt;
    var a := LeafHasList(cfg, g, leaf);
    var b := LeafHasList(cfg, h, leaf);
    IdsRootBinding(a, b);
    assert a[0] in a && a[0] in b;
  }

  lemma {:induction false} ListsDiffer(cfg: Config, h: nat)
    requires ValidConfig(cfg) && 0 < h <= MAX_HEIGHT
    ensures Distinct(BodyLeaves(BodyAt(cfg, h)))
  {
    hide IdsRoot, BodyAt, ContentAt, Extends;
    var b := BodyAt(cfg, h);
    BodyIsListed(cfg, h);
    IdsRootZero(b.dirs);
    IdsRootZero(b.files);
    IdsRootZero(b.chunks);
    KindsDiffer(cfg, h, b.dirs, b.files);
    KindsDiffer(cfg, h, b.dirs, b.chunks);
    KindsDiffer(cfg, h, b.files, b.chunks);
  }

  lemma {:induction false} KindsDiffer(cfg: Config, h: nat, a: seq<BlobId>, b: seq<BlobId>)
    requires |a| < TWO32 && |b| < TWO32
    requires forall x, y :: x in a && y in b ==> cfg.da.open(x.commitment) != cfg.da.open(y.commitment)
    ensures a != [] && b != [] ==> IdsRoot(a) != IdsRoot(b)
  {
    hide IdsRoot;
    if a != [] && b != [] {
      assert a[0] in a && b[0] in b;
      if IdsRoot(a) == IdsRoot(b) {
        IdsRootBinding(a, b);
      }
    }
  }

  lemma {:induction false} LeavesComeFromBlocks(cfg: Config, h: nat, leaf: Bytes)
    requires ValidConfig(cfg) && h <= MAX_HEIGHT && leaf in LeavesAt(cfg, h)
    ensures exists g :: 0 < g <= h && RootOfBlock(cfg, g, leaf)
    decreases h
  {
    hide BodyAt, BodyLeaves;
    if leaf in BodyLeaves(BodyAt(cfg, h)) {
      assert RootOfBlock(cfg, h, leaf);
    } else {
      LeavesComeFromBlocks(cfg, h - 1, leaf);
      var g :| 0 < g <= h - 1 && RootOfBlock(cfg, g, leaf);
    }
  }

  /** The state never holds the same leaf twice, so its index map survives every snapshot. */
  lemma {:induction false} LeavesDistinct(cfg: Config, h: nat)
    requires ValidConfig(cfg) && h <= MAX_HEIGHT
    ensures Distinct(LeavesAt(cfg, h))
    decreases h
  {
    hide BodyAt, BodyLeaves, RootOfBlock;
    if h > 0 {
      LeavesDistinct(cfg, h - 1);
      ListsDiffer(cfg, h);
      var before, added := LeavesAt(cfg, h - 1), BodyLeaves(BodyAt(cfg, h));
      forall leaf | leaf in before && leaf in added
        ensures false
      {
        LeavesComeFromBlocks(cfg, h - 1, leaf);
        var g :| 0 < g <= h - 1 && RootOfBlock(cfg, g, leaf);
        assert RootOfBlock(cfg, h, leaf) by { LeafOfBlock(cfg, h, leaf); }
        RootsOfBlocksDiffer(cfg, g, h, leaf);
      }
      DistinctAppend(before, added);
    }
  }

  lemma {:induction false} LeafOfBlock(cfg: Config, h: nat, leaf: Bytes)
    requires ValidConfig(cfg) && h <= MAX_HEIGHT && leaf in BodyLeaves(BodyAt(cfg, h))
    ensures RootOfBlock(cfg, h, leaf)
  {
  }

  lemma {:induction false} DistinctAppend<T>(a: seq<T>, b: seq<T>)
    requires Distinct(a) && Distinct(b) && forall x :: !(x in a && x in b)
    ensures Distinct(a + b)
  {
    forall i, j | 0 <= i < j < |a + b|
      ensures (a + b)[i] != (a + b)[j]
    {
      if i < |a| <= j {
        assert a[i] in a && b[j - |a|] in b;
      }
    }
  }

  // ----- facts about the database -----

  lemma {:induction false} HeaderAtFields(cfg: Config, h: nat)
    requires ValidConfig(cfg) && h <= MAX_HEIGHT
    ensures var x := HeaderAt(cfg, h);
            && x.height == h && x.celestiaHeight == h + cfg.offset && ValidTime(x.time)
            && x.chainId == cfg.chainId && x.version == 1 && x.time == cfg.da.blocks(h + cfg.offset).time
            && x.dirsRoot == IdsRoot(BodyAt(cfg, h).dirs)
            && x.filesRoot == IdsRoot(BodyAt(cfg, h).files)
            && x.chunksRoot == IdsRoot(BodyAt(cfg, h).chunks)
            && x.parentHash == (if h == 0 then ZERO else HashAt(cfg, h - 1))
            && x.stateRoot == (if h == 0 then ZERO else Mmr.RootOf(LeavesAt(cfg, h)))
  {
    hide IdsRoot, BodyAt, LeavesAt, HeaderHash, Mmr.RootOf;
  }

  /** Headers of different heights have different hashes. */
  lemma {:induction false} HashAtInjective(cfg: Config, g: nat, h: nat)
    requires ValidConfig(cfg) && g <= MAX_HEIGHT && h <= MAX_HEIGHT && HashAt(cfg, g) == HashAt(cfg, h)
    ensures g == h
  {
    hide HeaderAt, HeaderBytes;
    HeaderAtFields(cfg, g);
    HeaderAtFields(cfg, h);
    HashInjective(HeaderBytes(HeaderAt(cfg, g)), HeaderBytes(HeaderAt(cfg, h)));
    HeaderBytesInjective(HeaderAt(cfg, g), HeaderAt(cfg, h));
  }

  lemma {:induction false} DbBlocks(cfg: Config, f: nat)
    requires ValidConfig(cfg) && f <= MAX_HEIGHT
    ensures DbAt(cfg, f).finalized == f && DbAt(cfg, f).content == ContentAt(cfg, f)
    ensures forall h :: h in DbAt(cfg, f).blocks <==> 0 <= h <= f
    ensures forall h :: 0 <= h <= f ==> DbAt(cfg, f).blocks[h] == BlockBytes(BlockAt(cfg, h))
    decreases f
  {
    hide BlockAt, BlockBytes, HeaderHash, SnapshotBytes, LeavesAt, BodyAt, SyncAt;
    if f > 0 { DbBlocks(cfg, f - 1); }
  }

  /** What is stored at any height: every chunk with its hash, every file manifest with all its chunks and the hash
      of their data, every directory manifest with all its files and the root of their digests. */
  lemma {:induction false} StoredManifestsHold(cfg: Config, f: nat)
    requires ValidConfig(cfg) && f <= MAX_HEIGHT
    ensures var c := DbAt(cfg, f).content;
            && (forall k :: k in c.chunks ==> k in c.chunkHashes && c.chunkHashes[k] == HashBytes(c.chunks[k]))
            && (forall id :: id in c.files ==> WholeFile(c, c.files[id]))
            && (forall id :: id in c.dirs ==> RootedDir(c, c.dirs[id]))
  {
    hide DbAt, ContentAt, FileAccepted, DirAccepted, WholeFile, RootedDir, HashBytes;
    DbBlocks(cfg, f);
    ContentIsClosed(cfg, f);
    var c := ContentAt(cfg, f);
    forall id | id in c.files
      ensures WholeFile(c, c.files[id])
    {
      AcceptedFileIsWhole(c, c.files[id]);
    }
    forall id | id in c.dirs
      ensures RootedDir(c, c.dirs[id])
    {
      AcceptedDirIsRooted(c, c.dirs[id]);
    }
  }

  lemma {:induction false} DbHashIndex(cfg: Config, f: nat)
    requires ValidConfig(cfg) && f <= MAX_HEIGHT
    ensures forall h :: 0 <= h <= f ==>
              HashAt(cfg, h) in DbAt(cfg, f).hashIndex && DbAt(cfg, f).hashIndex[HashAt(cfg, h)] == h
    ensures forall x :: x in DbAt(cfg, f).hashIndex ==> exists h :: 0 <= h <= f && HashAt(cfg, h) == x
    decreases f
  {
    hide HeaderAt, BlockBytes, HeaderHash, SnapshotBytes, LeavesAt, BodyAt, ContentAt;
    DbIndexStep(cfg, f);
    if f > 0 {
      DbHashIndex(cfg, f - 1);
      forall h | 0 <= h < f
        ensures HashAt(cfg, h) != HashAt(cfg, f)
      {
        if HashAt(cfg, h) == HashAt(cfg, f) { HashAtInjective(cfg, h, f); }
      }
    }
    assert HashAt(cfg, f) in DbAt(cfg, f).hashIndex;
  }

  lemma {:induction false} DbIndexStep(cfg: Config, f: nat)
    requires ValidConfig(cfg) && f <= MAX_HEIGHT
    ensures DbAt(cfg, f).hashIndex
         == if f == 0 then map[HashAt(cfg, 0) := 0] else DbAt(cfg, f - 1).hashIndex[HashAt(cfg, f) := f]
  {
    hide HeaderAt, BlockBytes, HeaderHash, SnapshotBytes, LeavesAt, BodyAt, ContentAt;
  }

  /** Snapshots are stored exactly at the heights of blocks with a body. */
  lemma {:induction false} DbMmrs(cfg: Config, f: nat)
    requires ValidConfig(cfg) && f <= MAX_HEIGHT
    ensures forall h :: h in DbAt(cfg, f).mmrs <==> 0 < h <= f && BodyAt(cfg, h) != NO_BODY
    ensures forall h :: h in DbAt(cfg, f).mmrs ==> DbAt(cfg, f).mmrs[h] == SnapshotBytes(LeavesAt(cfg, h))
    decreases f
  {
    hide BlockAt, BlockBytes, HeaderHash, SnapshotBytes, LeavesAt, BodyAt, ContentAt;
    if f > 0 { DbMmrs(cfg, f - 1); }
  }

  /** Blocks without a body add no leaves. */
  lemma {:induction false} LeavesUnchanged(cfg: Config, g: nat, h: nat)
    requires ValidConfig(cfg) && g <= h <= MAX_HEIGHT
    requires forall k :: g < k <= h ==> BodyAt(cfg, k) == NO_BODY
    ensures LeavesAt(cfg, h) == LeavesAt(cfg, g)
    decreases h
  {
    hide BodyAt, BodyLeaves;
    if g < h {
      LeavesUnchanged(cfg, g, h - 1);
      BodyLeavesEmpty(BodyAt(cfg, h));
    }
  }

  /** The database is a chain: block `h` decodes to height `h` and Celestia height `h + offset`, its
      parent hash is the hash of the bytes of the stored block before it, its roots are those of its
      body and of all leaves so far, and the hash index leads back to it. */
  lemma {:induction false} StoredChainIsLinked(cfg: Config, f: nat, h: nat)
    requires ValidConfig(cfg) && h <= f <= MAX_HEIGHT
    ensures h in DbAt(cfg, f).blocks && DecodeBlock(DbAt(cfg, f).blocks[h]) == Some(StoredBlock(BlockAt(cfg, h)))
    ensures var b := StoredBlock(BlockAt(cfg, h));
            && b.header.height == h && b.header.celestiaHeight == h + cfg.offset && b.header.version == 1
            && b.header.chainId == (if |cfg.chainId| <= 255 then cfg.chainId else cfg.chainId[..255])
            && b.header.time == Time(cfg.da.blocks(h + cfg.offset).time.seconds, 0) && b.body == BodyAt(cfg, h)
            && b.header.dirsRoot == Merkle.MerkleRoot(AllIdBytes(b.body.dirs))
            && b.header.filesRoot == Merkle.MerkleRoot(AllIdBytes(b.body.files))
            && b.header.chunksRoot == Merkle.MerkleRoot(AllIdBytes(b.body.chunks))
            && b.header.stateRoot == (if h == 0 then ZERO else Mmr.RootOf(LeavesAt(cfg, h)))
    ensures var x := HashBytes(HeaderBytes(StoredBlock(BlockAt(cfg, h)).header));
            x in DbAt(cfg, f).hashIndex && DbAt(cfg, f).hashIndex[x] == h
    ensures StoredBlock(BlockAt(cfg, h)).header.parentHash
         == if h == 0 then ZERO else HashBytes(HeaderBytes(StoredBlock(BlockAt(cfg, h - 1)).header))
  {
    hide HeaderAt, HeaderBytes, BodyAt, Merkle.MerkleRoot, DecodeBlock, BlockBytes, DbAt, LeavesAt, Mmr.RootOf;
    DbBlocks(cfg, f);
    DbHashIndex(cfg, f);
    HeaderAtFields(cfg, h);
    BodyFits(cfg, h);
    HeaderRoundTrip(HeaderAt(cfg, h));
    BlockRoundTrip(BlockAt(cfg, h));
    StoredHeaderBytes(HeaderAt(cfg, h));
    assert HashAt(cfg, h) in DbAt(cfg, f).hashIndex && HashAt(cfg, h) == HeaderHash(StoredHeader(HeaderAt(cfg, h)));
    if h > 0 { StoredHeaderBytes(HeaderAt(cfg, h - 1)); }
  }

  lemma {:induction false} BodyFits(cfg: Config, h: nat)
    requires ValidConfig(cfg) && h <= MAX_HEIGHT
    ensures var b := BodyAt(cfg, h); |b.dirs| < TWO32 && |b.files| < TWO32 && |b.chunks| < TWO32
  {
    hide SyncAt;
    if h > 0 { BodyIsListed(cfg, h); }
  }

  // ----- one hash pins the whole history -----

  /** Two chains, over any two configurations, that share one block hash share every block up to it:
      heights, ids, roots, times in seconds. */
  lemma {:induction false} ChainBinding(a: Config, b: Config, g: nat, h: nat)
    requires ValidConfig(a) && ValidConfig(b) && g <= MAX_HEIGHT && h <= MAX_HEIGHT
    requires HashAt(a, g) == HashAt(b, h)
    ensures g == h
    ensures forall k :: 0 <= k <= h ==> StoredBlock(BlockAt(a, k)) == StoredBlock(BlockAt(b, k))
    decreases h
  {
    hide HeaderAt, HeaderBytes, BodyAt, IdsRoot, LeavesAt, Mmr.RootOf;
    HeaderAtFields(a, g);
    HeaderAtFields(b, h);
    HashInjective(HeaderBytes(HeaderAt(a, g)), HeaderBytes(HeaderAt(b, h)));
    HeaderBytesInjective(HeaderAt(a, g), HeaderAt(b, h));
    BodyFits(a, h);
    BodyFits(b, h);
    IdsRootBinding(BodyAt(a, h).dirs, BodyAt(b, h).dirs);
    IdsRootBinding(BodyAt(a, h).files, BodyAt(b, h).files);
    IdsRootBinding(BodyAt(a, h).chunks, BodyAt(b, h).chunks);
    if h > 0 { ChainBinding(a, b, h - 1, h - 1); }
  }

  /** A state root stands for one sequence of body roots only. */
  lemma {:induction false} StateRootBinding(a: Config, b: Config, g: nat, h: nat)
    requires ValidConfig(a) && ValidConfig(b) && 0 < g <= MAX_HEIGHT && 0 < h <= MAX_HEIGHT
    requires HeaderAt(a, g).stateRoot == HeaderAt(b, h).stateRoot
    ensures LeavesAt(a, g) == LeavesAt(b, h)
  {
    hide HeaderAt, LeavesAt, Mmr.RootOf;
    HeaderAtFields(a, g);
    HeaderAtFields(b, h);
    Mmr.RootBinding(LeavesAt(a, g), LeavesAt(b, h));
  }
}
