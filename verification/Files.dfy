/** Uploading a file in pieces, finding it again on the chain, and downloading it. */
module Files {
  import opened Octets
  import opened Codec
  import opened Content
  import opened Chain
  import opened Store
  import opened Resync
  import opened Keys
  import opened Wrappers

  // ----- splitting -----

  /** Pieces of exactly `lim` octets, the last one possibly shorter but not empty. */
  ghost predicate Pieces(pieces: seq<Bytes>, lim: nat) {
    && (forall i :: 0 <= i < |pieces| ==> 0 < |pieces[i]| <= lim)
    && (forall i :: 0 <= i < |pieces| - 1 ==> |pieces[i]| == lim)
  }

  lemma {:induction false} ConcatNext(pieces: seq<Bytes>, piece: Bytes)
    ensures Concat(pieces + [piece]) == Concat(pieces) + piece
  {
    assert (pieces + [piece])[..|pieces|] == pieces;
  }

  method Split(data: Bytes, lim: nat) returns (chunks: seq<Bytes>)
    requires lim > 0
    ensures Concat(chunks) == data && Pieces(chunks, lim)
  {
    hide Concat;
    var buf := data;
    chunks := [];
    NoPieces();
    while |buf| >= lim
      invariant Concat(chunks) + buf == data
      invariant forall i :: 0 <= i < |chunks| ==> |chunks[i]| == lim
    {
      ConcatNext(chunks, buf[..lim]);
      assert Concat(chunks) + buf == (Concat(chunks) + buf[..lim]) + buf[lim..];
      chunks, buf := chunks + [buf[..lim]], buf[lim..];
    }
    if |buf| > 0 {
      ConcatNext(chunks, buf);
      chunks := chunks + [buf];
    }
  }

  lemma {:induction false} NoPieces()
    ensures Concat([]) == []
  {
  }

  lemma {:induction false} ConcatFirst(pieces: seq<Bytes>)
    requires pieces != []
    ensures Concat(pieces) == pieces[0] + Concat(pieces[1..])
  {
    var n := |pieces| - 1;
    if n > 0 {
      ConcatFirst(pieces[..n]);
      assert pieces[..n][1..] == pieces[1..][..n - 1];
    }
  }

  /** There is only one way to cut data into pieces of a size. */
  lemma {:induction false} SplitIsUnique(a: seq<Bytes>, b: seq<Bytes>, lim: nat)
    requires lim > 0 && Pieces(a, lim) && Pieces(b, lim) && Concat(a) == Concat(b)
    ensures a == b
    decreases |a|
  {
    hide Concat;
    NoPieces();
    if a != [] { ConcatFirst(a); }
    if b != [] { ConcatFirst(b); }
    if a != [] && b != [] {
      FirstPiece(a, lim);
      FirstPiece(b, lim);
      SplitUnique(a[0], Concat(a[1..]), b[0], Concat(b[1..]));
      SplitIsUnique(a[1..], b[1..], lim);
      assert a == [a[0]] + a[1..] && b == [b[0]] + b[1..];
    }
  }

  lemma {:induction false} FirstPiece(a: seq<Bytes>, lim: nat)
    requires a != [] && Pieces(a, lim)
    ensures |a[0]| == if |Concat(a)| < lim then |Concat(a)| else lim
  {
    hide Concat;
    ConcatFirst(a);
    NoPieces();
    assert |a| == 1 ==> a[1..] == [];
  }

  // ----- what an uploaded manifest says -----

  function OpenedData(da: Celestia, k: Hash): Bytes {
    match da.open(k) case Chunk(data) => data case _ => []
  }

  /** The data behind the references, one after the other. */
  function Opened(da: Celestia, refs: seq<ChunkRef>): Bytes {
    if refs == [] then [] else Opened(da, refs[..|refs| - 1]) + OpenedData(da, refs[|refs| - 1].id.commitment)
  }

  ghost predicate RefOpens(da: Celestia, ref: ChunkRef) {
    da.open(ref.id.commitment).Chunk? && ref.hash == Raw(HashBytes(OpenedData(da, ref.id.commitment)))
  }

  /** The manifest of a file with this content: size, hash, and references to blobs that make it up. */
  ghost predicate Describes(da: Celestia, m: FileManifest, data: Bytes) {
    && m.size == |data| && m.hash == Raw(HashBytes(data))
    && (forall i :: 0 <= i < |m.chunks| ==> RefOpens(da, m.chunks[i]))
    && Opened(da, m.chunks) == data
  }

  ghost predicate IsFileOf(da: Celestia, id: BlobId, data: Bytes) {
    da.open(id.commitment).File? && Describes(da, da.open(id.commitment).file, data)
  }

  // ----- upload records -----

  /** What is hashed to get the record key of a chunk; the record key of a file is the hash of its data. */
  function ChunkName(chunk: Bytes): Bytes {
    Text("chk:") + HashBytes(chunk)
  }

  /** A file whose very content is the name of a chunk has the same record key as that chunk. */
  ghost predicate LooksLikeChunk(data: Bytes) {
    exists chunk :: data == ChunkName(chunk)
  }

  lemma {:induction false} ChunkNameInjective(a: Bytes, b: Bytes)
    requires ChunkName(a) == ChunkName(b)
    ensures a == b
  {
    hide HashBytes, Text;
    SplitUnique(Text("chk:"), HashBytes(a), Text("chk:"), HashBytes(b));
    HashInjective(a, b);
  }

  /** The id recorded under the key of `name` is that of the chunk with this name, or of the file with this data. */
  ghost predicate Tells(da: Celestia, name: Bytes, id: BlobId) {
    && (forall chunk :: name == ChunkName(chunk) ==> da.open(id.commitment) == Chunk(chunk))
    && (!LooksLikeChunk(name) ==> IsFileOf(da, id, name))
  }

  ghost predicate Truthful(da: Celestia, records: map<Hash, BlobId>) {
    forall name: Bytes :: HashBytes(name) in records ==> Tells(da, name, records[HashBytes(name)])
  }

  lemma {:induction false} RecordChunk(da: Celestia, records: map<Hash, BlobId>, chunk: Bytes, id: BlobId)
    requires Truthful(da, records) && da.open(id.commitment) == Chunk(chunk)
    ensures Truthful(da, records[HashBytes(ChunkName(chunk)) := id])
  {
    hide HashBytes, ChunkName, IsFileOf;
    var now := records[HashBytes(ChunkName(chunk)) := id];
    assert LooksLikeChunk(ChunkName(chunk));
    forall name: Bytes | HashBytes(name) in now
      ensures Tells(da, name, now[HashBytes(name)])
    {
      if HashBytes(name) == HashBytes(ChunkName(chunk)) {
        HashInjective(name, ChunkName(chunk));
        forall c | name == ChunkName(c)
          ensures c == chunk
        {
          ChunkNameInjective(c, chunk);
        }
      } else {
        assert HashBytes(name) in records;
      }
    }
  }

  /** Recording a file is truthful exactly when its content is not the name of a chunk. */
  lemma {:induction false} RecordFile(da: Celestia, records: map<Hash, BlobId>, data: Bytes, id: BlobId)
    requires Truthful(da, records) && IsFileOf(da, id, data)
    ensures Truthful(da, records[HashBytes(data) := id]) <==> !LooksLikeChunk(data)
  {
    hide HashBytes, ChunkName, Describes;
    var now := records[HashBytes(data) := id];
    if LooksLikeChunk(data) {
      var chunk :| data == ChunkName(chunk);
      assert HashBytes(data) in now && !Tells(da, data, now[HashBytes(data)]);
    } else {
      forall name: Bytes | HashBytes(name) in now
        ensures Tells(da, name, now[HashBytes(name)])
      {
        if HashBytes(name) == HashBytes(data) {
          HashInjective(name, data);
        } else {
          assert HashBytes(name) in records;
        }
      }
    }
  }

  class UploadState {
    /** The ids of completed uploads, by record key. */
    var records: map<Hash, BlobId>

    constructor ()
      ensures records == map[]
    {
      records := map[];
    }

    method GetUploadRecord(key: Hash) returns (r: Option<BlobId>)
      ensures r == if key in records then Some(records[key]) else None
    {
      return if key in records then Some(records[key]) else None;
    }

    method SaveUploadRecord(key: Hash, id: BlobId)
      modifies this
      ensures records == old(records)[key := id]
    {
      records := records[key := id];
    }
  }

  // ----- uploading -----

  /** Submitting a payload for the n-th time of an upload: an id, or a failure. */
  type Submit = (nat, Envelope) -> Option<BlobId>

  /** The id that comes back has the commitment of the payload. */
  ghost predicate Honest(da: Celestia, submit: Submit) {
    forall n: nat, e: Envelope :: submit(n, e).Some? ==> da.open(submit(n, e).value.commitment) == e
  }

  /** Every chunk up to `n` is recorded. */
  ghost predicate Recorded(records: map<Hash, BlobId>, chunks: seq<Bytes>, n: nat) {
    forall i :: 0 <= i < n && i < |chunks| ==> HashBytes(ChunkName(chunks[i])) in records
  }

  /** Submits the chunks that have no record yet, waits for them all and records them. */
  method PutChunks(uploads: UploadState, chunks: seq<Bytes>, submit: Submit, ghost da: Celestia) returns (ok: bool)
    requires Honest(da, submit) && Truthful(da, uploads.records)
    modifies uploads
    ensures Truthful(da, uploads.records)
    ensures ok ==> Recorded(uploads.records, chunks, |chunks|)
    ensures forall key :: key in old(uploads.records) ==> key in uploads.records
  {
    hide HashBytes, ChunkName, Truthful, Honest;
    var results: seq<Option<Option<BlobId>>> := [];
    for i := 0 to |chunks|
      invariant |results| == i && unchanged(uploads)
      invariant forall j :: 0 <= j < i && results[j].None? ==> HashBytes(ChunkName(chunks[j])) in uploads.records
      invariant forall j :: 0 <= j < i && results[j].Some? ==> results[j].value == submit(j, Chunk(chunks[j]))
    {
      var known := uploads.GetUploadRecord(HashBytes(ChunkName(chunks[i])));
      if known.Some? {
        results := results + [None];
      } else {
        results := results + [Some(submit(i, Chunk(chunks[i])))];
      }
    }
    for i := 0 to |chunks|
      invariant Truthful(da, uploads.records)
      invariant Recorded(uploads.records, chunks, i)
      invariant forall key :: key in old(uploads.records) ==> key in uploads.records
    {
      if results[i].Some? {
        var result := results[i].value;
        if result.None? {
          return false;
        }
        Opens(da, submit, i, Chunk(chunks[i]));
        RecordChunk(da, uploads.records, chunks[i], result.value);
        uploads.SaveUploadRecord(HashBytes(ChunkName(chunks[i])), result.value);
      }
    }
    ok := true;
  }

  lemma {:induction false} Opens(da: Celestia, submit: Submit, n: nat, e: Envelope)
    requires Honest(da, submit)
    ensures submit(n, e).Some? ==> da.open(submit(n, e).value.commitment) == e
  {
  }

  lemma {:induction false} RecordedChunk(da: Celestia, records: map<Hash, BlobId>, chunk: Bytes)
    requires Truthful(da, records) && HashBytes(ChunkName(chunk)) in records
    ensures da.open(records[HashBytes(ChunkName(chunk))].commitment) == Chunk(chunk)
  {
    hide HashBytes, ChunkName, IsFileOf;
    assert Tells(da, ChunkName(chunk), records[HashBytes(ChunkName(chunk))]);
  }

  lemma {:induction false} OpenedNext(da: Celestia, refs: seq<ChunkRef>, ref: ChunkRef)
    ensures Opened(da, refs + [ref]) == Opened(da, refs) + OpenedData(da, ref.id.commitment)
    ensures Opened(da, []) == []
  {
    assert (refs + [ref])[..|refs|] == refs;
  }

  /** The references of the manifest, from the records. */
  method ListChunks(uploads: UploadState, chunks: seq<Bytes>, ghost da: Celestia) returns (refs: seq<ChunkRef>)
    requires Truthful(da, uploads.records) && Recorded(uploads.records, chunks, |chunks|)
    ensures forall i :: 0 <= i < |refs| ==> RefOpens(da, refs[i])
    ensures Opened(da, refs) == Concat(chunks)
  {
    hide HashBytes, ChunkName, Truthful, Opened, Concat;
    refs := [];
    NoPieces();
    OpenedNext(da, [], ChunkRef(BlobId(0, ZERO), []));
    for i := 0 to |chunks|
      invariant forall j :: 0 <= j < |refs| ==> RefOpens(da, refs[j])
      invariant Opened(da, refs) == Concat(chunks[..i])
    {
      var id := uploads.GetUploadRecord(HashBytes(ChunkName(chunks[i])));
      RecordedChunk(da, uploads.records, chunks[i]);
      var ref := ChunkRef(id.value, HashBytes(chunks[i]));
      OpenedNext(da, refs, ref);
      ConcatNext(chunks[..i], chunks[i]);
      assert chunks[..i] + [chunks[i]] == chunks[..i + 1];
      refs := refs + [ref];
    }
    assert chunks[..|chunks|] == chunks;
  }

  /** Uploads a file. The id that it returns is that of a manifest of the file, and the records stay truthful,
      with one exception each: a file whose content is the name of an already recorded chunk is taken for
      complete and gets the id of that chunk, and a file whose content is the name of a chunk not yet
      recorded leaves its own id under the key of the chunk. */
  method PutFileData(uploads: UploadState, meta: Bytes, data: Bytes, maxBlobSize: nat, submit: Submit,
                     ghost da: Celestia)
    returns (id: Option<BlobId>, hash: Hash)
    requires maxBlobSize > 0 && Honest(da, submit) && Truthful(da, uploads.records)
    modifies uploads
    ensures hash == HashBytes(data)
    ensures id.Some? ==> (IsFileOf(da, id.value, data) <==> !(LooksLikeChunk(data) && hash in old(uploads.records)))
    ensures Truthful(da, uploads.records) <==> !(LooksLikeChunk(data) && id.Some? && hash !in old(uploads.records))
    ensures hash in old(uploads.records) ==>
              id == Some(old(uploads.records)[hash]) && uploads.records == old(uploads.records)
  {
    hide HashBytes, ChunkName, Truthful, Honest, Opened, Concat, LooksLikeChunk, RefOpens, IsFileOf, Recorded;
    hash := HashBytes(data);
    var fileState := uploads.GetUploadRecord(hash);
    if fileState.Some? {
      RecordedFile(da, uploads.records, data);
      return fileState, hash;
    }
    var chunks := Split(data, maxBlobSize);
    var ok := PutChunks(uploads, chunks, submit, da);
    if !ok {
      return None, hash;
    }
    var refs := ListChunks(uploads, chunks, da);
    var manifest := FileManifest(meta, |data|, hash, refs);
    id := submit(|chunks|, File(manifest));
    if id.None? {
      return None, hash;
    }
    Opens(da, submit, |chunks|, File(manifest));
    assert IsFileOf(da, id.value, data) by { ManifestOf(da, id.value, manifest, data); }
    RecordFile(da, uploads.records, data, id.value);
    uploads.SaveUploadRecord(hash, id.value);
  }

  lemma {:induction false} ManifestOf(da: Celestia, id: BlobId, m: FileManifest, data: Bytes)
    requires da.open(id.commitment) == File(m) && Describes(da, m, data)
    ensures IsFileOf(da, id, data)
  {
  }

  lemma {:induction false} RecordedFile(da: Celestia, records: map<Hash, BlobId>, data: Bytes)
    requires Truthful(da, records) && HashBytes(data) in records
    ensures IsFileOf(da, records[HashBytes(data)], data) <==> !LooksLikeChunk(data)
  {
    hide HashBytes, ChunkName, Describes;
    assert Tells(da, data, records[HashBytes(data)]);
  }

  /** The exception does occur: once a chunk is recorded, the file made of the chunk's name gets the chunk's id. */
  lemma {:induction false} ChunkNameIsTakenForComplete(da: Celestia, id: BlobId, chunk: Bytes)
    requires da.open(id.commitment) == Chunk(chunk)
    ensures var name := Text("chk:") + HashBytes(chunk);
            var records := map[HashBytes(name) := id];
            Truthful(da, records) && HashBytes(name) in records && LooksLikeChunk(name) && !IsFileOf(da, id, name)
  {
    hide HashBytes;
    assert Text("chk:") + HashBytes(chunk) == ChunkName(chunk);
    var none: map<Hash, BlobId> := map[];
    assert none[HashBytes(ChunkName(chunk)) := id] == map[HashBytes(ChunkName(chunk)) := id];
    RecordChunk(da, none, chunk, id);
  }

  // ----- downloading -----

  /** What a download gives: the data of an accepted manifest. */
  function Download(c: Content, id: BlobId): Option<Bytes> {
    if id in c.files && PresentAll(c, c.files[id].chunks)
       && |Joined(c, c.files[id].chunks)| == c.files[id].size
       && Raw(HashBytes(Joined(c, c.files[id].chunks))) == c.files[id].hash
    then Some(Joined(c, c.files[id].chunks)) else None
  }

  predicate PresentAll(c: Content, refs: seq<ChunkRef>) {
    forall i :: 0 <= i < |refs| ==> refs[i].id.commitment in c.chunks
  }

  function Joined(c: Content, refs: seq<ChunkRef>): Bytes
    requires PresentAll(c, refs)
  {
    if refs == [] then [] else Joined(c, refs[..|refs| - 1]) + c.chunks[refs[|refs| - 1].id.commitment]
  }

  lemma {:induction false} JoinedNext(c: Content, refs: seq<ChunkRef>, i: nat)
    requires i < |refs| && PresentAll(c, refs[..i]) && refs[i].id.commitment in c.chunks
    ensures PresentAll(c, refs[..i + 1])
    ensures Joined(c, refs[..i + 1]) == Joined(c, refs[..i]) + c.chunks[refs[i].id.commitment]
  {
    assert refs[..i + 1][..i] == refs[..i];
    assert forall j :: 0 <= j < i ==> refs[..i + 1][j] == refs[..i][j];
  }

  /** `pieces` are the stored chunks of the references, in order. */
  ghost predicate StoredPieces(c: Content, refs: seq<ChunkRef>, pieces: seq<Bytes>) {
    |pieces| == |refs| &&
    forall i :: 0 <= i < |refs| ==> refs[i].id.commitment in c.chunks && pieces[i] == c.chunks[refs[i].id.commitment]
  }

  /** A download is `data`: the stored chunks of a stored manifest joined, with its size and hash. */
  ghost predicate DownloadIs(c: Content, id: BlobId, data: Bytes) {
    && id in c.files && |data| == c.files[id].size && HashBytes(data) == c.files[id].hash
    && exists pieces :: StoredPieces(c, c.files[id].chunks, pieces) && Concat(pieces) == data
  }

  lemma {:induction false} JoinedIsConcat(c: Content, refs: seq<ChunkRef>, pieces: seq<Bytes>)
    requires StoredPieces(c, refs, pieces)
    ensures PresentAll(c, refs) && Joined(c, refs) == Concat(pieces)
  {
    if refs != [] {
      var n := |refs| - 1;
      JoinedIsConcat(c, refs[..n], pieces[..n]);
    }
  }

  lemma {:induction false} DownloadsExactly(c: Content, id: BlobId, data: Bytes)
    ensures Download(c, id) == Some(data) <==> DownloadIs(c, id, data)
  {
    hide HashBytes, Joined, Concat;
    if id in c.files {
      var refs := c.files[id].chunks;
      if PresentAll(c, refs) {
        var pieces := seq(|refs|, (i: nat) requires i < |refs| => c.chunks[refs[i].id.commitment]);
        assert StoredPieces(c, refs, pieces);
        JoinedIsConcat(c, refs, pieces);
      }
      forall pieces | StoredPieces(c, refs, pieces)
        ensures PresentAll(c, refs) && Joined(c, refs) == Concat(pieces)
      {
        JoinedIsConcat(c, refs, pieces);
      }
    }
  }

  method GetFileData(state: ChainState, id: BlobId) returns (r: Option<Bytes>)
    ensures r == Download(state.db.content, id)
    ensures forall data :: r == Some(data) <==> DownloadIs(state.db.content, id, data)
  {
    hide HashBytes, Joined, DownloadIs;
    ghost var c := state.db.content;
    forall data
      ensures Download(c, id) == Some(data) <==> DownloadIs(c, id, data)
    {
      DownloadsExactly(c, id, data);
    }
    var found := state.GetFileManifest(id);
    if found.None? {
      return None;
    }
    var m := found.value;
    var fileData: Bytes := [];
    NothingJoined(c);
    for i := 0 to |m.chunks|
      invariant PresentAll(c, m.chunks[..i]) && fileData == Joined(c, m.chunks[..i])
    {
      var data := state.GetChunk(m.chunks[i].id.commitment);
      if data.None? {
        assert m.chunks[i].id.commitment !in c.chunks;
        return None;
      }
      JoinedNext(c, m.chunks, i);
      fileData := fileData + data.value;
    }
    assert m.chunks[..|m.chunks|] == m.chunks;
    if |fileData| != m.size {
      return None;
    }
    if Raw(HashBytes(fileData)) != m.hash {
      return None;
    }
    r := Some(fileData);
  }

  lemma {:induction false} NothingJoined(c: Content)
    ensures Joined(c, []) == []
  {
  }

  lemma {:induction false} JoinedIsFileData(c: Content, refs: seq<ChunkRef>)
    requires ChunksMatch(c, refs)
    ensures PresentAll(c, refs) && Joined(c, refs) == FileData(c, refs)
  {
    if refs != [] { JoinedIsFileData(c, refs[..|refs| - 1]); }
  }

  /** Every stored file manifest can be downloaded, with the size and the hash it declares; nothing else can. */
  lemma {:induction false} StoredFilesDownload(cfg: Config, f: nat, id: BlobId)
    requires ValidConfig(cfg) && f <= MAX_HEIGHT
    ensures var c := DbAt(cfg, f).content;
            && (Download(c, id).Some? <==> id in c.files)
            && (id in c.files ==>
                  && |Download(c, id).value| == c.files[id].size
                  && Raw(HashBytes(Download(c, id).value)) == c.files[id].hash)
  {
    hide DbAt, ContentAt, HashBytes, Joined, FileData, ChunksClosed, DirsClosed;
    DbBlocks(cfg, f);
    ContentIsClosed(cfg, f);
    var c := ContentAt(cfg, f);
    if id in c.files { JoinedIsFileData(c, c.files[id].chunks); }
  }

  // ----- from upload to download -----

  lemma {:induction false} DescribedChunks(da: Celestia, c: Content, refs: seq<ChunkRef>)
    requires ChunksClosed(da, c) && PresentAll(c, refs) && forall i :: 0 <= i < |refs| ==> RefOpens(da, refs[i])
    ensures ChunksMatch(c, refs) && FileData(c, refs) == Opened(da, refs)
  {
    hide HashBytes;
    if refs != [] { DescribedChunks(da, c, refs[..|refs| - 1]); }
  }

  /** A manifest that describes a file is accepted wherever all its chunks are stored. */
  lemma {:induction false} DescribedIsAccepted(da: Celestia, c: Content, m: FileManifest, data: Bytes)
    requires ChunksClosed(da, c) && Describes(da, m, data)
    ensures PresentAll(c, m.chunks) <==> FileAccepted(c, m)
    ensures FileAccepted(c, m) ==> FileData(c, m.chunks) == data
  {
    hide HashBytes, Opened, FileData, RefOpens, ChunksClosed;
    if PresentAll(c, m.chunks) { DescribedChunks(da, c, m.chunks); }
    if FileAccepted(c, m) { JoinedIsFileData(c, m.chunks); }
  }

  /** A chunk of the block is stored. */
  lemma {:induction false} ChunkGetsStored(da: Celestia, committed: Content, height: U64, blobs: seq<Hash>, q: nat)
    requires q < |blobs| && SyncBlobs(da, committed, height, blobs).Synced? && da.open(blobs[q]).Chunk?
    ensures blobs[q] in SyncBlobs(da, committed, height, blobs).content.chunks
  {
    hide FileAccepted, DirAccepted, HashBytes;
    if q < |blobs| - 1 {
      ChunkGetsStored(da, committed, height, blobs[..|blobs| - 1], q);
    }
  }

  /** A file manifest whose chunks are stored when its turn comes is stored. */
  lemma {:induction false} FileGetsStored(da: Celestia, committed: Content, height: U64, blobs: seq<Hash>, p: nat)
    requires p < |blobs| && SyncBlobs(da, committed, height, blobs).Synced? && da.open(blobs[p]).File?
    requires SyncBlobs(da, committed, height, blobs[..p]).Synced?
    requires FileAccepted(SyncBlobs(da, committed, height, blobs[..p]).content, da.open(blobs[p]).file)
    ensures BlobId(height, blobs[p]) in SyncBlobs(da, committed, height, blobs).content.files
  {
    hide FileAccepted, DirAccepted, HashBytes;
    if p < |blobs| - 1 {
      assert blobs[..|blobs| - 1][..p] == blobs[..p];
      FileGetsStored(da, committed, height, blobs[..|blobs| - 1], p);
    }
  }

  /** The blob with commitment `k` is on the chain before position `p` of block `h`. */
  ghost predicate Precedes(cfg: Config, k: Hash, h: nat, p: nat)
    requires p <= |BlobsAt(cfg, h)|
  {
    (exists g :: 0 < g < h && k in BlobsAt(cfg, g)) || k in BlobsAt(cfg, h)[..p]
  }

  ghost predicate AllSynced(cfg: Config, h: nat)
    requires ValidConfig(cfg) && h <= MAX_HEIGHT
  {
    forall g :: 0 < g <= h ==> SyncAt(cfg, g).Synced?
  }

  lemma {:induction false} BlockChunkIsStored(cfg: Config, g: nat, k: Hash)
    requires ValidConfig(cfg) && 0 < g <= MAX_HEIGHT && SyncAt(cfg, g).Synced? && k in BlobsAt(cfg, g)
             && cfg.da.open(k).Chunk?
    ensures k in ContentAt(cfg, g).chunks
  {
    hide SyncBlobs, SyncAt, ContentAt, BodyAt;
    ContentStep(cfg, g);
    var q :| 0 <= q < |BlobsAt(cfg, g)| && BlobsAt(cfg, g)[q] == k;
    ChunkGetsStored(cfg.da, ContentAt(cfg, g - 1), g + cfg.offset, BlobsAt(cfg, g), q);
  }

  /** Only blobs of the block are listed. */
  lemma {:induction false} ListedChunkIsBlob(da: Celestia, committed: Content, height: U64, blobs: seq<Hash>)
    ensures var s := SyncBlobs(da, committed, height, blobs);
            s.Synced? ==> forall id :: id in s.body.chunks ==> id.commitment in blobs
  {
    hide FileAccepted, DirAccepted, HashBytes;
    if blobs != [] { ListedChunkIsBlob(da, committed, height, blobs[..|blobs| - 1]); }
  }

  lemma {:induction false} StoredChunkPrecedes(cfg: Config, k: Hash, h: nat, p: nat)
    requires ValidConfig(cfg) && 0 < h <= MAX_HEIGHT && p <= |BlobsAt(cfg, h)|
    requires Before(cfg, h, p).Synced? && k in Before(cfg, h, p).content.chunks
    ensures Precedes(cfg, k, h, p)
  {
    hide SyncBlobs, SyncAt, ContentAt, BodyAt;
    var was, height, blobs := ContentAt(cfg, h - 1), h + cfg.offset, BlobsAt(cfg, h)[..p];
    SyncAddsBodyOnly(cfg.da, was, height, blobs);
    ListedChunkIsBlob(cfg.da, was, height, blobs);
    if k in was.chunks {
      ContentIsListed(cfg, h - 1);
      var g :| 0 < g <= h - 1 && BlobId(g + cfg.offset, k) in BodyAt(cfg, g).chunks;
      ContentStep(cfg, g);
      ListedChunkIsBlob(cfg.da, ContentAt(cfg, g - 1), g + cfg.offset, BlobsAt(cfg, g));
      assert k in BlobsAt(cfg, g);
    } else {
      assert BlobId(height, k) in SyncBlobs(cfg.da, was, height, blobs).body.chunks;
    }
  }

  lemma {:induction false} PrecedingChunkIsThere(cfg: Config, k: Hash, h: nat, p: nat)
    requires ValidConfig(cfg) && 0 < h <= MAX_HEIGHT && AllSynced(cfg, h) && p <= |BlobsAt(cfg, h)|
    requires cfg.da.open(k).Chunk? && Precedes(cfg, k, h, p)
    ensures Before(cfg, h, p).Synced? && k in Before(cfg, h, p).content.chunks
  {
    hide SyncBlobs, SyncAt, ContentAt, BodyAt, ChunksClosed, BlobsAt;
    BeforeIsClosed(cfg, h, p, h);
    var blobs := BlobsAt(cfg, h);
    if k in blobs[..p] {
      var q :| 0 <= q < p && blobs[..p][q] == k;
      ChunkGetsStored(cfg.da, ContentAt(cfg, h - 1), h + cfg.offset, blobs[..p], q);
    } else {
      var g :| 0 < g < h && k in BlobsAt(cfg, g);
      BlockChunkIsStored(cfg, g, k);
      GrownChunk(cfg, g, h - 1, k);
    }
  }

  lemma {:induction false} GrownChunk(cfg: Config, g: nat, h: nat, k: Hash)
    requires ValidConfig(cfg) && g <= h <= MAX_HEIGHT && k in ContentAt(cfg, g).chunks
    ensures k in ContentAt(cfg, h).chunks
  {
    hide ContentAt;
    ContentGrows(cfg, g, h);
  }

  /** From upload to download: when every chunk of an uploaded file is on the chain before its manifest, every
      node at that height or above returns exactly the bytes that were uploaded. */
  lemma {:induction false} UploadedFileDownloads(cfg: Config, h: nat, p: nat, f: nat, id: BlobId, data: Bytes)
    requires ValidConfig(cfg) && 0 < h <= f <= MAX_HEIGHT && AllSynced(cfg, h)
    requires p < |BlobsAt(cfg, h)| && id == BlobId(h + cfg.offset, BlobsAt(cfg, h)[p]) && IsFileOf(cfg.da, id, data)
    requires var m := cfg.da.open(id.commitment).file;
             forall i :: 0 <= i < |m.chunks| ==> Precedes(cfg, m.chunks[i].id.commitment, h, p)
    ensures Download(DbAt(cfg, f).content, id) == Some(data)
  {
    hide SyncBlobs, SyncAt, ContentAt, BodyAt, DbAt, ChunksClosed, BlobsAt, HashBytes, FileData, Opened, Precedes,
      Joined, Extends, Describes, FileAccepted, Before, AllSynced, Download;
    var m, s := cfg.da.open(id.commitment).file, Before(cfg, h, p);
    UploadedIsAccepted(cfg, h, p, m, data);
    UploadedIsStored(cfg, h, p);
    StoredIsDownloaded(cfg, h, f, id, data);
  }

  /** An uploaded manifest is accepted where it stands exactly when all its chunks precede it on the chain. */
  lemma {:induction false} UploadedIsAccepted(cfg: Config, h: nat, p: nat, m: FileManifest, data: Bytes)
    requires ValidConfig(cfg) && 0 < h <= MAX_HEIGHT && AllSynced(cfg, h) && p <= |BlobsAt(cfg, h)|
             && Describes(cfg.da, m, data)
    ensures Before(cfg, h, p).Synced?
    ensures FileAccepted(Before(cfg, h, p).content, m)
       <==> forall i :: 0 <= i < |m.chunks| ==> Precedes(cfg, m.chunks[i].id.commitment, h, p)
  {
    hide SyncAt, ContentAt, Before, ChunksClosed, BlobsAt, HashBytes, Opened, Precedes, Extends, FileAccepted;
    BeforeIsClosed(cfg, h, p, h);
    var s := Before(cfg, h, p);
    forall i | 0 <= i < |m.chunks|
      ensures m.chunks[i].id.commitment in s.content.chunks <==> Precedes(cfg, m.chunks[i].id.commitment, h, p)
    {
      var k := m.chunks[i].id.commitment;
      assert RefOpens(cfg.da, m.chunks[i]);
      if Precedes(cfg, k, h, p) { PrecedingChunkIsThere(cfg, k, h, p); }
      if k in s.content.chunks { StoredChunkPrecedes(cfg, k, h, p); }
    }
    DescribedIsAccepted(cfg.da, s.content, m, data);
  }

  lemma {:induction false} UploadedIsStored(cfg: Config, h: nat, p: nat)
    requires ValidConfig(cfg) && 0 < h <= MAX_HEIGHT && AllSynced(cfg, h) && p < |BlobsAt(cfg, h)|
             && cfg.da.open(BlobsAt(cfg, h)[p]).File?
    requires Before(cfg, h, p).Synced? && FileAccepted(Before(cfg, h, p).content, cfg.da.open(BlobsAt(cfg, h)[p]).file)
    ensures BlobId(h + cfg.offset, BlobsAt(cfg, h)[p]) in ContentAt(cfg, h).files
  {
    hide SyncBlobs, SyncAt, ContentAt, BodyAt, FileAccepted;
    ContentStep(cfg, h);
    FileGetsStored(cfg.da, ContentAt(cfg, h - 1), h + cfg.offset, BlobsAt(cfg, h), p);
  }

  lemma {:induction false} StoredIsDownloaded(cfg: Config, h: nat, f: nat, id: BlobId, data: Bytes)
    requires ValidConfig(cfg) && h <= f <= MAX_HEIGHT && id in ContentAt(cfg, h).files && IsFileOf(cfg.da, id, data)
    ensures Download(DbAt(cfg, f).content, id) == Some(data)
  {
    hide DbAt, ContentAt, HashBytes, Joined, FileData, ChunksClosed, DirsClosed, Describes;
    DbBlocks(cfg, f);
    ContentGrows(cfg, h, f);
    ContentIsClosed(cfg, f);
    var c := ContentAt(cfg, f);
    assert id in c.files && c.files[id] == cfg.da.open(id.commitment).file;
    JoinedIsFileData(c, c.files[id].chunks);
    DescribedIsAccepted(cfg.da, c, c.files[id], data);
  }
}
