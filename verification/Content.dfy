/** Chunks, file manifests and directory manifests: which blobs of a Celestia block are accepted, and
    what the stored content then guarantees. */
module Content {
  import opened Octets
  import opened Codec
  import opened Merkle

  datatype ChunkRef = ChunkRef(id: BlobId, hash: Bytes)

  datatype FileManifest = FileManifest(meta: Bytes, size: nat, hash: Bytes, chunks: seq<ChunkRef>)

  datatype FileRef = FileRef(id: BlobId, path: Bytes)

  datatype DirManifest = DirManifest(meta: Bytes, hash: Bytes, files: seq<FileRef>)

  /** What the data of a blob says; `Garbage` does not unmarshal or has no known payload. */
  datatype Envelope = Chunk(data: Bytes) | File(file: FileManifest) | Dir(dir: DirManifest) | Garbage

  /** A Celestia block: its time and the commitments of its blobs, in order. */
  datatype DaBlock = DaBlock(time: Time, blobs: seq<Hash>)

  /** The data availability layer: a block for every height, and the data behind every commitment. */
  datatype Celestia = Celestia(blocks: nat -> DaBlock, open: Hash -> Envelope)

  datatype Content = Content(
    chunks: map<Hash, Bytes>,
    chunkHashes: map<Hash, Hash>,
    files: map<BlobId, FileManifest>,
    dirs: map<BlobId, DirManifest>)

  const NO_CONTENT: Content := Content(map[], map[], map[], map[])

  const NO_BODY: Body := Body([], [], [])

  // ----- acceptance -----

  predicate ChunkMatches(c: Content, ref: ChunkRef) {
    var k := ref.id.commitment;
    k in c.chunks && k in c.chunkHashes && Raw(c.chunkHashes[k]) == ref.hash
  }

  predicate ChunksMatch(c: Content, refs: seq<ChunkRef>) {
    forall i :: 0 <= i < |refs| ==> ChunkMatches(c, refs[i])
  }

  /** The chunks of a file, one after the other. */
  function FileData(c: Content, refs: seq<ChunkRef>): Bytes
    requires ChunksMatch(c, refs)
  {
    if refs == [] then [] else FileData(c, refs[..|refs| - 1]) + c.chunks[refs[|refs| - 1].id.commitment]
  }

  /** A file manifest is accepted when all its chunks are there with the listed hashes and together
      have the listed size and hash. */
  predicate FileAccepted(c: Content, m: FileManifest) {
    && ChunksMatch(c, m.chunks)
    && var data := FileData(c, m.chunks);
       |data| == m.size && Raw(HashBytes(data)) == m.hash
  }

  predicate FilesPresent(c: Content, refs: seq<FileRef>) {
    forall i :: 0 <= i < |refs| ==> refs[i].id in c.files
  }

  function DirLeaves(c: Content, refs: seq<FileRef>): (s: seq<Bytes>)
    requires FilesPresent(c, refs)
    ensures |s| == |refs|
    ensures forall i :: 0 <= i < |s| ==> s[i] == Raw(HashPair(refs[i].path, c.files[refs[i].id].hash))
  {
    seq(|refs|, (i: nat) requires i < |refs| => Raw(HashPair(refs[i].path, c.files[refs[i].id].hash)))
  }

  /** A directory manifest is accepted when all its files are there and its hash is the Merkle root of
      their path-and-hash digests. */
  predicate DirAccepted(c: Content, d: DirManifest) {
    && FilesPresent(c, d.files)
    && Raw(MerkleRoot(DirLeaves(c, d.files))) == d.hash
  }

  // ----- what acceptance means -----

  /** `pieces` are the stored chunks of the references, each with the listed hash. */
  ghost predicate PiecesOf(c: Content, refs: seq<ChunkRef>, pieces: seq<Bytes>) {
    |pieces| == |refs| &&
    forall i :: 0 <= i < |refs| ==>
      var k := refs[i].id.commitment;
      k in c.chunks && pieces[i] == c.chunks[k] && k in c.chunkHashes && refs[i].hash == c.chunkHashes[k]
  }

  /** All chunks are stored with the listed hashes, and joined they have the declared size and hash. */
  ghost predicate WholeFile(c: Content, m: FileManifest) {
    exists pieces :: PiecesOf(c, m.chunks, pieces) && |Concat(pieces)| == m.size && m.hash == HashBytes(Concat(pieces))
  }

  /** `leaves` are the digests of the paths, each followed by the hash of the stored file. */
  ghost predicate DigestsOf(c: Content, refs: seq<FileRef>, leaves: seq<Bytes>) {
    |leaves| == |refs| &&
    forall i :: 0 <= i < |refs| ==>
      refs[i].id in c.files && leaves[i] == HashBytes(refs[i].path + c.files[refs[i].id].hash)
  }

  /** All files are stored, and the declared hash is the Merkle root of their digests. */
  ghost predicate RootedDir(c: Content, d: DirManifest) {
    exists leaves :: DigestsOf(c, d.files, leaves) && d.hash == MerkleRoot(leaves)
  }

  lemma {:induction false} FileDataIsConcat(c: Content, refs: seq<ChunkRef>, pieces: seq<Bytes>)
    requires PiecesOf(c, refs, pieces)
    ensures ChunksMatch(c, refs) && FileData(c, refs) == Concat(pieces)
  {
    if refs != [] {
      var n := |refs| - 1;
      FileDataIsConcat(c, refs[..n], pieces[..n]);
    }
  }

  lemma {:induction false} AcceptedFileIsWhole(c: Content, m: FileManifest)
    ensures FileAccepted(c, m) <==> WholeFile(c, m)
  {
    hide HashBytes, Concat, FileData;
    if ChunksMatch(c, m.chunks) {
      var pieces := seq(|m.chunks|, (i: nat) requires i < |m.chunks| => c.chunks[m.chunks[i].id.commitment]);
      assert PiecesOf(c, m.chunks, pieces);
      FileDataIsConcat(c, m.chunks, pieces);
    }
    if WholeFile(c, m) {
      var pieces :| PiecesOf(c, m.chunks, pieces) && |Concat(pieces)| == m.size && m.hash == HashBytes(Concat(pieces));
      FileDataIsConcat(c, m.chunks, pieces);
    }
  }

  lemma {:induction false} AcceptedDirIsRooted(c: Content, d: DirManifest)
    ensures DirAccepted(c, d) <==> RootedDir(c, d)
  {
    hide HashBytes, MerkleRoot;
    if FilesPresent(c, d.files) {
      assert DigestsOf(c, d.files, DirLeaves(c, d.files));
    }
    if RootedDir(c, d) {
      var leaves :| DigestsOf(c, d.files, leaves) && d.hash == MerkleRoot(leaves);
      assert leaves == DirLeaves(c, d.files);
    }
  }

  // ----- one Celestia block -----

  datatype Outcome = Failed | Synced(content: Content, body: Body)

  function PutChunk(c: Content, k: Hash, data: Bytes): Content {
    c.(chunks := c.chunks[k := data], chunkHashes := c.chunkHashes[k := HashBytes(data)])
  }

  /** One blob. Chunks are looked up in what the block has stored so far; files are looked up in what
      was committed before the block. */
  function SyncBlob(da: Celestia, committed: Content, s: Outcome, height: U64, k: Hash): Outcome
    requires s.Synced?
  {
    var id := BlobId(height, k);
    match da.open(k)
    case Chunk(data) =>
      Synced(PutChunk(s.content, k, data), s.body.(chunks := s.body.chunks + [id]))
    case File(m) =>
      if FileAccepted(s.content, m) then
        Synced(s.content.(files := s.content.files[id := m]), s.body.(files := s.body.files + [id]))
      else s
    case Dir(d) =>
      if DirAccepted(committed, d) then
        Synced(s.content.(dirs := s.content.dirs[id := d]), s.body.(dirs := s.body.dirs + [id]))
      else s
    case Garbage => Failed
  }

  /** All blobs of a block; one garbage blob fails the whole block. */
  function SyncBlobs(da: Celestia, committed: Content, height: U64, blobs: seq<Hash>): Outcome {
    if blobs == [] then Synced(committed, NO_BODY)
    else
      var s := SyncBlobs(da, committed, height, blobs[..|blobs| - 1]);
      if s.Failed? then Failed else SyncBlob(da, committed, s, height, blobs[|blobs| - 1])
  }

  // ----- what stored content guarantees -----

  ghost predicate ChunksClosed(da: Celestia, c: Content) {
    && c.chunkHashes.Keys == c.chunks.Keys
    && (forall k :: k in c.chunks ==> c.chunkHashes[k] == HashBytes(c.chunks[k]))
    && (forall k :: k in c.chunks ==> da.open(k) == Chunk(c.chunks[k]))
  }

  ghost predicate FilesClosed(da: Celestia, c: Content) {
    forall id :: id in c.files ==> da.open(id.commitment) == File(c.files[id]) && FileAccepted(c, c.files[id])
  }

  ghost predicate DirsClosed(da: Celestia, c: Content) {
    forall id :: id in c.dirs ==> da.open(id.commitment) == Dir(c.dirs[id]) && DirAccepted(c, c.dirs[id])
  }

  /** Everything stored is what its commitment opens to, and every reference is satisfied. */
  ghost predicate Closed(da: Celestia, c: Content) {
    ChunksClosed(da, c) && FilesClosed(da, c) && DirsClosed(da, c)
  }

  /** `d` has everything that `c` has. */
  ghost predicate Extends(c: Content, d: Content) {
    && (forall k :: k in c.chunks ==> k in d.chunks && d.chunks[k] == c.chunks[k])
    && (forall k :: k in c.chunkHashes ==> k in d.chunkHashes && d.chunkHashes[k] == c.chunkHashes[k])
    && (forall id :: id in c.files ==> id in d.files && d.files[id] == c.files[id])
    && (forall id :: id in c.dirs ==> id in d.dirs && d.dirs[id] == c.dirs[id])
  }

  lemma {:induction false} FileDataExtends(c: Content, d: Content, refs: seq<ChunkRef>)
    requires Extends(c, d) && ChunksMatch(c, refs)
    ensures ChunksMatch(d, refs) && FileData(d, refs) == FileData(c, refs)
  {
    if refs != [] { FileDataExtends(c, d, refs[..|refs| - 1]); }
  }

  lemma {:induction false} AcceptedExtends(c: Content, d: Content)
    requires Extends(c, d)
    ensures forall m :: FileAccepted(c, m) ==> FileAccepted(d, m)
    ensures forall m :: DirAccepted(c, m) ==> DirAccepted(d, m)
  {
    hide MerkleRoot, HashBytes, HashPair;
    forall m | FileAccepted(c, m)
      ensures FileAccepted(d, m)
    {
      FileDataExtends(c, d, m.chunks);
    }
    forall m | DirAccepted(c, m)
      ensures DirAccepted(d, m)
    {
      assert DirLeaves(d, m.files) == DirLeaves(c, m.files);
    }
  }

  lemma {:induction false} ExtendsTransitive(b: Content, c: Content, d: Content)
    requires Extends(b, c) && Extends(c, d)
    ensures Extends(b, d)
  {
  }

  lemma {:induction false} ManifestsStayClosed(da: Celestia, c: Content, d: Content)
    requires Extends(c, d) && FilesClosed(da, c) && DirsClosed(da, c)
    ensures d.files == c.files ==> FilesClosed(da, d)
    ensures d.dirs == c.dirs ==> DirsClosed(da, d)
  {
    hide FileAccepted, DirAccepted, Extends;
    AcceptedExtends(c, d);
  }

  lemma {:induction false} ChunkKeepsClosed(da: Celestia, c: Content, k: Hash, data: Bytes)
    requires Closed(da, c) && da.open(k) == Chunk(data)
    ensures Extends(c, PutChunk(c, k, data)) && Closed(da, PutChunk(c, k, data))
  {
    hide FilesClosed, DirsClosed, ChunksClosed, Extends, PutChunk;
    ChunkStaysClosed(da, c, k, data);
    ManifestsStayClosed(da, c, PutChunk(c, k, data));
  }

  lemma {:induction false} ChunkStaysClosed(da: Celestia, c: Content, k: Hash, data: Bytes)
    requires ChunksClosed(da, c) && da.open(k) == Chunk(data)
    ensures var d := PutChunk(c, k, data);
            Extends(c, d) && ChunksClosed(da, d) && d.files == c.files && d.dirs == c.dirs
  {
    hide HashBytes, Extends;
    assert k in c.chunks ==> c.chunks[k] == data && c.chunkHashes[k] == HashBytes(data);
    SameChunkExtends(c, k, data);
  }

  lemma {:induction false} SameChunkExtends(c: Content, k: Hash, data: Bytes)
    requires k in c.chunks ==> c.chunks[k] == data
    requires k in c.chunkHashes ==> c.chunkHashes[k] == HashBytes(data)
    ensures Extends(c, PutChunk(c, k, data))
  {
    hide HashBytes;
  }

  lemma {:induction false} FileKeepsClosed(da: Celestia, c: Content, id: BlobId, m: FileManifest)
    requires Closed(da, c) && da.open(id.commitment) == File(m) && FileAccepted(c, m)
    ensures var d := c.(files := c.files[id := m]); Extends(c, d) && Closed(da, d)
  {
    hide FileAccepted, DirsClosed, ChunksClosed;
    var d := c.(files := c.files[id := m]);
    assert ChunksClosed(da, d) by { ChunksStayClosed(da, c, d); }
    assert Extends(c, d);
    ManifestsStayClosed(da, c, d);
    AcceptedExtends(c, d);
  }

  lemma {:induction false} DirKeepsClosed(da: Celestia, committed: Content, c: Content, id: BlobId, m: DirManifest)
    requires Closed(da, c) && da.open(id.commitment) == Dir(m) && DirAccepted(committed, m) && Extends(committed, c)
    ensures var d := c.(dirs := c.dirs[id := m]); Extends(c, d) && Closed(da, d)
  {
    hide DirAccepted, FilesClosed, ChunksClosed;
    var d := c.(dirs := c.dirs[id := m]);
    assert ChunksClosed(da, d) by { ChunksStayClosed(da, c, d); }
    assert Extends(c, d);
    ManifestsStayClosed(da, c, d);
    AcceptedExtends(committed, c);
    AcceptedExtends(c, d);
  }

  lemma {:induction false} ChunksStayClosed(da: Celestia, c: Content, d: Content)
    requires ChunksClosed(da, c) && d.chunks == c.chunks && d.chunkHashes == c.chunkHashes
    ensures ChunksClosed(da, d)
  {
  }

  lemma {:induction false} BlobKeepsClosed(da: Celestia, committed: Content, s: Outcome, height: U64, k: Hash)
    requires s.Synced? && Closed(da, s.content) && Extends(committed, s.content)
    ensures var t := SyncBlob(da, committed, s, height, k);
            t.Synced? ==> Closed(da, t.content) && Extends(committed, t.content) && Extends(s.content, t.content)
  {
    hide Closed, Extends, FileAccepted, DirAccepted, HashBytes, PutChunk;
    var t := SyncBlob(da, committed, s, height, k);
    ExtendsSelf(s.content);
    if t.Synced? && t != s {
      match da.open(k) {
        case Chunk(data) => ChunkKeepsClosed(da, s.content, k, data);
        case File(m) => FileKeepsClosed(da, s.content, BlobId(height, k), m);
        case Dir(d) => DirKeepsClosed(da, committed, s.content, BlobId(height, k), d);
      }
      ExtendsTransitive(committed, s.content, t.content);
    }
  }

  /** The ids a block lists are those of stored content of the right kind, at the height of the block. */
  ghost predicate Listed(da: Celestia, c: Content, height: U64, body: Body) {
    && (forall id :: id in body.chunks ==>
          id.height == height && da.open(id.commitment).Chunk? && id.commitment in c.chunks)
    && (forall id :: id in body.files ==> id.height == height && da.open(id.commitment).File? && id in c.files)
    && (forall id :: id in body.dirs ==> id.height == height && da.open(id.commitment).Dir? && id in c.dirs)
  }

  /** Syncing a block keeps the content closed, never loses anything, and lists exactly what it stored. */
  lemma {:induction false} SyncKeepsClosed(da: Celestia, committed: Content, height: U64, blobs: seq<Hash>)
    requires Closed(da, committed)
    ensures var s := SyncBlobs(da, committed, height, blobs);
            s.Synced? ==>
              && Closed(da, s.content) && Extends(committed, s.content)
              && Listed(da, s.content, height, s.body)
              && |s.body.dirs| + |s.body.files| + |s.body.chunks| <= |blobs|
  {
    hide Closed, Extends, FileAccepted, DirAccepted, HashBytes;
    if blobs == [] {
      ExtendsSelf(committed);
    } else {
      var init, k := blobs[..|blobs| - 1], blobs[|blobs| - 1];
      SyncKeepsClosed(da, committed, height, init);
      var s := SyncBlobs(da, committed, height, init);
      if s.Synced? {
        BlobKeepsClosed(da, committed, s, height, k);
        BlobKeepsListed(da, committed, s, height, k);
      }
    }
  }

  // ----- the lists of a block, in the order of its blobs -----

  /** The ids of those of the first blobs that are kept, in order. */
  ghost function Kept(height: U64, blobs: seq<Hash>, keep: nat -> bool, n: nat): seq<BlobId>
    requires n <= |blobs|
  {
    if n == 0 then []
    else Kept(height, blobs, keep, n - 1) + (if keep(n - 1) then [BlobId(height, blobs[n - 1])] else [])
  }

  /** What is stored and listed before blob `p`. */
  ghost function SyncedBefore(da: Celestia, c: Content, height: U64, blobs: seq<Hash>, p: nat): Outcome
    requires p <= |blobs|
  {
    SyncBlobs(da, c, height, blobs[..p])
  }

  ghost predicate KeepsChunk(da: Celestia, blobs: seq<Hash>, p: nat) {
    p < |blobs| && da.open(blobs[p]).Chunk?
  }

  /** A file manifest is kept if its chunks are stored before it. */
  ghost predicate KeepsFile(da: Celestia, c: Content, height: U64, blobs: seq<Hash>, p: nat) {
    p < |blobs| && da.open(blobs[p]).File? && SyncedBefore(da, c, height, blobs, p).Synced?
    && WholeFile(SyncedBefore(da, c, height, blobs, p).content, da.open(blobs[p]).file)
  }

  /** A directory manifest is kept if its files are stored before the block. */
  ghost predicate KeepsDir(da: Celestia, c: Content, blobs: seq<Hash>, p: nat) {
    p < |blobs| && da.open(blobs[p]).Dir? && RootedDir(c, da.open(blobs[p]).dir)
  }

  /** The three lists of a block are its chunks, its whole files and its rooted directories, in the order of
      its blobs. */
  lemma {:induction false} ListsInOrder(da: Celestia, c: Content, height: U64, blobs: seq<Hash>, n: nat)
    requires n <= |blobs| && SyncedBefore(da, c, height, blobs, n).Synced?
    ensures var b := SyncedBefore(da, c, height, blobs, n).body;
            && b.chunks == Kept(height, blobs, (p: nat) => KeepsChunk(da, blobs, p), n)
            && b.files == Kept(height, blobs, (p: nat) => KeepsFile(da, c, height, blobs, p), n)
            && b.dirs == Kept(height, blobs, (p: nat) => KeepsDir(da, c, blobs, p), n)
    decreases n
  {
    hide SyncBlobs, SyncBlob, KeepsChunk, KeepsFile, KeepsDir;
    if n == 0 {
      NothingKept(da, c, height, blobs, (p: nat) => KeepsChunk(da, blobs, p));
      NothingKept(da, c, height, blobs, (p: nat) => KeepsFile(da, c, height, blobs, p));
      NothingKept(da, c, height, blobs, (p: nat) => KeepsDir(da, c, blobs, p));
    } else {
      BlobKept(da, c, height, blobs, n - 1);
      ListsInOrder(da, c, height, blobs, n - 1);
    }
  }

  lemma {:induction false} NothingKept(da: Celestia, c: Content, height: U64, blobs: seq<Hash>, keep: nat -> bool)
    ensures Kept(height, blobs, keep, 0) == [] && SyncedBefore(da, c, height, blobs, 0) == Synced(c, NO_BODY)
  {
    assert blobs[..0] == [];
  }

  /** One blob goes to the end of the list of its kind, if it is kept. */
  lemma {:induction false} BlobKept(da: Celestia, c: Content, height: U64, blobs: seq<Hash>, p: nat)
    requires p < |blobs| && SyncedBefore(da, c, height, blobs, p + 1).Synced?
    ensures SyncedBefore(da, c, height, blobs, p).Synced?
    ensures var s, t, id := SyncedBefore(da, c, height, blobs, p).body, SyncedBefore(da, c, height, blobs, p + 1).body,
                            BlobId(height, blobs[p]);
            && t.chunks == s.chunks + (if KeepsChunk(da, blobs, p) then [id] else [])
            && t.files == s.files + (if KeepsFile(da, c, height, blobs, p) then [id] else [])
            && t.dirs == s.dirs + (if KeepsDir(da, c, blobs, p) then [id] else [])
  {
    hide FileAccepted, DirAccepted, HashBytes, PutChunk, WholeFile, RootedDir;
    assert blobs[..p + 1][..p] == blobs[..p];
    var s := SyncedBefore(da, c, height, blobs, p);
    match da.open(blobs[p]) {
      case File(m) => AcceptedFileIsWhole(s.content, m);
      case Dir(d) => AcceptedDirIsRooted(c, d);
      case _ =>
    }
  }

  lemma {:induction false} KeptMember(height: U64, blobs: seq<Hash>, keep: nat -> bool, n: nat, id: BlobId)
    requires n <= |blobs|
    ensures id in Kept(height, blobs, keep, n) <==>
              exists p: nat :: p < n && keep(p) && id == BlobId(height, blobs[p])
  {
    if n > 0 {
      KeptMember(height, blobs, keep, n - 1, id);
      assert id in Kept(height, blobs, keep, n) <==>
               id in Kept(height, blobs, keep, n - 1) || (keep(n - 1) && id == BlobId(height, blobs[n - 1]));
    }
  }

  /** A block fails exactly if one of its blobs is garbage. */
  lemma {:induction false} SyncedExactly(da: Celestia, c: Content, height: U64, blobs: seq<Hash>)
    ensures SyncBlobs(da, c, height, blobs).Synced? <==>
              forall i :: 0 <= i < |blobs| ==> !da.open(blobs[i]).Garbage?
  {
    hide FileAccepted, DirAccepted, PutChunk;
    if blobs != [] {
      var init := blobs[..|blobs| - 1];
      SyncedExactly(da, c, height, init);
      assert blobs == init + [blobs[|blobs| - 1]];
    }
  }

  /** The chunks stored before a blob: those committed before the block and those of earlier blobs. */
  lemma {:induction false} ChunksBefore(da: Celestia, c: Content, height: U64, blobs: seq<Hash>, p: nat)
    requires p <= |blobs| && SyncedBefore(da, c, height, blobs, p).Synced?
    ensures var d := SyncedBefore(da, c, height, blobs, p).content;
            forall k :: k in d.chunks <==> k in c.chunks || (k in blobs[..p] && da.open(k).Chunk?)
    decreases p
  {
    hide FileAccepted, DirAccepted, HashBytes;
    if p > 0 {
      assert blobs[..p][..p - 1] == blobs[..p - 1];
      assert blobs[..p] == blobs[..p - 1] + [blobs[p - 1]];
      ChunksBefore(da, c, height, blobs, p - 1);
    }
  }

  lemma {:induction false} ExtendsSelf(c: Content)
    ensures Extends(c, c)
  {
  }

  lemma {:induction false} BlobKeepsListed(da: Celestia, committed: Content, s: Outcome, height: U64, k: Hash)
    requires s.Synced? && Listed(da, s.content, height, s.body)
    ensures var t := SyncBlob(da, committed, s, height, k);
            t.Synced? ==>
              && Listed(da, t.content, height, t.body)
              && |t.body.dirs| + |t.body.files| + |t.body.chunks|
                 <= |s.body.dirs| + |s.body.files| + |s.body.chunks| + 1
  {
    hide FileAccepted, DirAccepted, HashBytes;
  }

  /** Every stored key was there before or is listed in the body. */
  ghost predicate FromBody(committed: Content, c: Content, height: U64, body: Body) {
    && (forall k :: k in c.chunks ==> k in committed.chunks || BlobId(height, k) in body.chunks)
    && (forall id :: id in c.files ==> id in committed.files || id in body.files)
    && (forall id :: id in c.dirs ==> id in committed.dirs || id in body.dirs)
  }

  lemma {:induction false} SyncAddsBodyOnly(da: Celestia, committed: Content, height: U64, blobs: seq<Hash>)
    ensures var s := SyncBlobs(da, committed, height, blobs);
            s.Synced? ==> FromBody(committed, s.content, height, s.body)
  {
    hide FileAccepted, DirAccepted, HashBytes;
    if blobs != [] {
      SyncAddsBodyOnly(da, committed, height, blobs[..|blobs| - 1]);
    }
  }
}
