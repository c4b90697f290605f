/** The chain state on disk, the transaction that batches writes to it, and the header hash cache. */
module Store {
  import opened Octets
  import opened Codec
  import opened Content
  import opened Chain
  import opened Wrappers
  import Mmr
  import Snapshot

  // ----- batches -----

  datatype Write =
    | SetBlock(height: nat, block: Bytes)
    | SetHash(hash: Hash, at: nat)
    | SetMmr(mmrHeight: nat, snapshot: Bytes)
    | SetChunk(key: Hash, data: Bytes)
    | SetChunkHash(hashKey: Hash, chunkHash: Hash)
    | SetFile(fileId: BlobId, file: FileManifest)
    | SetDir(dirId: BlobId, dir: DirManifest)
    | SetFinalized(finalized: nat)

  function Apply(db: Db, w: Write): Db {
    var c := db.content;
    match w
    case SetBlock(h, b) => db.(blocks := db.blocks[h := b])
    case SetHash(x, h) => db.(hashIndex := db.hashIndex[x := h])
    case SetMmr(h, s) => db.(mmrs := db.mmrs[h := s])
    case SetChunk(k, d) => db.(content := c.(chunks := c.chunks[k := d]))
    case SetChunkHash(k, x) => db.(content := c.(chunkHashes := c.chunkHashes[k := x]))
    case SetFile(id, m) => db.(content := c.(files := c.files[id := m]))
    case SetDir(id, m) => db.(content := c.(dirs := c.dirs[id := m]))
    case SetFinalized(f) => db.(finalized := f)
  }

  /** A batch applied in order, all at once. */
  function ApplyAll(db: Db, ws: seq<Write>): Db {
    if ws == [] then db else Apply(ApplyAll(db, ws[..|ws| - 1]), ws[|ws| - 1])
  }

  lemma {:induction false} ApplyNext(db: Db, ws: seq<Write>, w: Write)
    ensures ApplyAll(db, ws + [w]) == Apply(ApplyAll(db, ws), w)
  {
    hide Apply;
    assert (ws + [w])[..|ws|] == ws;
  }

  lemma {:induction false} MergeUpdate<K, V>(a: map<K, V>, b: map<K, V>, k: K, v: V)
    ensures a + b[k := v] == (a + b)[k := v]
  {
  }

  // ----- header hashes -----

  /** The process-wide cache of header hashes, keyed by height alone. */
  class HashCache {
    var hashes: map<nat, Hash>

    constructor ()
      ensures hashes == map[]
    {
      hashes := map[];
    }

    method Hash(header: Header) returns (hash: Hash)
      modifies this
      ensures hash == if header.height in old(hashes) then old(hashes)[header.height] else HeaderHash(header)
      ensures hashes == old(hashes)[header.height := hash]
    {
      if header.height in hashes {
        hash := hashes[header.height];
        assert hashes == hashes[header.height := hash];
      } else {
        hash := HeaderHash(header);
        hashes := hashes[header.height := hash];
      }
    }

    method UpdateHashCache(height: nat, hash: Hash)
      modifies this
      ensures hashes == old(hashes)[height := hash]
    {
      hashes := hashes[height := hash];
    }
  }

  // ----- chain state -----

  /** The greatest height up to `h` that has a snapshot. */
  function NearestMmr(mmrs: map<nat, Bytes>, h: nat): (r: Option<nat>)
    ensures r.Some? ==> r.value in mmrs && r.value <= h
  {
    if h in mmrs then Some(h) else if h == 0 then None else NearestMmr(mmrs, h - 1)
  }

  lemma {:induction false} NearestIsGreatest(mmrs: map<nat, Bytes>, h: nat)
    ensures NearestMmr(mmrs, h).None? ==> forall k :: 0 <= k <= h ==> k !in mmrs
    ensures NearestMmr(mmrs, h).Some? ==> forall k :: NearestMmr(mmrs, h).value < k <= h ==> k !in mmrs
  {
    if h !in mmrs && h > 0 { NearestIsGreatest(mmrs, h - 1); }
  }

  class ChainState {
    var db: Db
    var pending: ChainStateTransaction?

    constructor (db: Db)
      ensures this.db == db && pending == null
    {
      this.db := db;
      pending := null;
    }

    /** Only one transaction can be open. */
    method BeginTransaction() returns (tx: ChainStateTransaction?)
      modifies this
      ensures db == old(db)
      ensures old(pending) != null ==> tx == null && pending == old(pending)
      ensures old(pending) == null ==>
                tx != null && fresh(tx) && pending == tx && tx.state == this && tx.Open() && tx.View() == db
                && tx.pendingFiles == map[]
    {
      if pending != null {
        return null;
      }
      tx := new ChainStateTransaction(this);
      pending := tx;
    }

    method GetBlock(height: nat) returns (r: Option<Block>)
      ensures r == if height in db.blocks then DecodeBlock(db.blocks[height]) else None
    {
      if height !in db.blocks {
        return None;
      }
      r := ReadBlock(db.blocks[height]);
    }

    method GetBlockByHash(hash: Hash) returns (r: Option<Block>)
      ensures r == if hash in db.hashIndex && db.hashIndex[hash] in db.blocks
                   then DecodeBlock(db.blocks[db.hashIndex[hash]]) else None
    {
      if hash !in db.hashIndex {
        return None;
      }
      r := GetBlock(db.hashIndex[hash]);
    }

    method GetChunk(key: Hash) returns (value: Option<Bytes>)
      ensures value == if key in db.content.chunks then Some(db.content.chunks[key]) else None
    {
      return if key in db.content.chunks then Some(db.content.chunks[key]) else None;
    }

    method GetChunkHash(key: Hash) returns (hash: Option<Hash>)
      ensures hash == if key in db.content.chunkHashes then Some(db.content.chunkHashes[key]) else None
    {
      return if key in db.content.chunkHashes then Some(db.content.chunkHashes[key]) else None;
    }

    method GetFileManifest(id: BlobId) returns (manifest: Option<FileManifest>)
      ensures manifest == if id in db.content.files then Some(db.content.files[id]) else None
    {
      return if id in db.content.files then Some(db.content.files[id]) else None;
    }

    method GetDirectoryManifest(id: BlobId) returns (manifest: Option<DirManifest>)
      ensures manifest == if id in db.content.dirs then Some(db.content.dirs[id]) else None
    {
      return if id in db.content.dirs then Some(db.content.dirs[id]) else None;
    }

    method HasStateMmrAtHeight(height: nat) returns (has: bool)
      ensures has <==> height != 0 && height in db.mmrs
    {
      has := height != 0 && height in db.mmrs;
    }

    /** The mountain range of the nearest snapshot at or below `height`; an error when there is none. */
    method GetStateMmr(height: nat) returns (m: Mmr.MMR?)
      ensures m != null ==> fresh(m)
      ensures height == 0 ==> m != null && m.Represents([]) && m.leafIndexes == Mmr.LeafIndexesOf([])
      ensures height > 0 ==>
                var k := NearestMmr(db.mmrs, height);
                && (m != null <==> k.Some? && Snapshot.Decode(db.mmrs[k.value]).Some?)
                && (m != null ==> Snapshot.FieldsOf(m) == Snapshot.Decode(db.mmrs[k.value]).value)
    {
      hide Snapshot.Decode, Snapshot.CutBeforeLeaves;
      var panics: bool;
      if height == 0 {
        m := new Mmr.MMR();
        return;
      }
      if height in db.mmrs {
        m, panics := Snapshot.NewMmrFromSnapshot(db.mmrs[height]);
        return;
      }
      var k := height;
      while k > 0 && k !in db.mmrs
        invariant NearestMmr(db.mmrs, k) == NearestMmr(db.mmrs, height)
      {
        k := k - 1;
      }
      if k !in db.mmrs {
        return null;
      }
      m, panics := Snapshot.NewMmrFromSnapshot(db.mmrs[k]);
    }
  }

  /** A blob identifier behind a pointer: two of them can hold the same id and still be different keys. */
  class BlobIdRef {
    const id: BlobId

    constructor (id: BlobId)
      ensures this.id == id
    {
      this.id := id;
    }
  }

  class ChainStateTransaction {
    const state: ChainState
    var batch: seq<Write>
    var pendingChunks: map<Hash, Bytes>
    var pendingChunkHashes: map<Hash, Hash>
    var pendingFiles: map<BlobIdRef, FileManifest>
    var committed: bool
    var aborted: bool

    /** The database that a commit would leave. */
    ghost function View(): Db
      reads this, state
    {
      ApplyAll(state.db, batch)
    }

    /** Reads of chunks and chunk hashes see the transaction's own writes. */
    ghost predicate Open()
      reads this, state
    {
      && !committed && !aborted && state.pending == this
      && View().content.chunks == state.db.content.chunks + pendingChunks
      && View().content.chunkHashes == state.db.content.chunkHashes + pendingChunkHashes
    }

    constructor (state: ChainState)
      ensures this.state == state && View() == state.db && !committed && !aborted
      ensures pendingChunks == map[] && pendingChunkHashes == map[] && pendingFiles == map[]
    {
      this.state := state;
      batch, pendingChunks, pendingChunkHashes, pendingFiles := [], map[], map[], map[];
      committed, aborted := false, false;
    }

    method SetFinalizedHeight(height: nat)
      requires Open()
      modifies this
      ensures Open() && View() == old(View()).(finalized := height) && pendingFiles == old(pendingFiles)
    {
      ApplyNext(state.db, batch, SetFinalized(height));
      batch := batch + [SetFinalized(height)];
    }

    method PutStateMmrRaw(height: nat, raw: Bytes)
      requires Open()
      modifies this
      ensures Open() && pendingFiles == old(pendingFiles)
      ensures View() == if height == 0 then old(View()) else old(View()).(mmrs := old(View()).mmrs[height := raw])
    {
      if height == 0 {
        return;
      }
      ApplyNext(state.db, batch, SetMmr(height, raw));
      batch := batch + [SetMmr(height, raw)];
    }

    /** The block goes to its height; its hash, cached or not, goes to the hash index. */
    method PutBlock(height: nat, block: Block, cache: HashCache) returns (hash: Hash)
      requires Open()
      modifies this, cache
      ensures hash == if block.header.height in old(cache.hashes) then old(cache.hashes)[block.header.height]
                      else HeaderHash(block.header)
      ensures cache.hashes == old(cache.hashes)[block.header.height := hash]
      ensures Open() && pendingFiles == old(pendingFiles)
      ensures View() == old(View()).(blocks := old(View()).blocks[height := BlockBytes(block)],
                                     hashIndex := old(View()).hashIndex[hash := height])
    {
      hide HeaderHash, BlockBytes;
      var bytes := EncodeBlock(block);
      ApplyNext(state.db, batch, SetBlock(height, bytes));
      batch := batch + [SetBlock(height, bytes)];
      hash := cache.Hash(block.header);
      ApplyNext(state.db, batch, SetHash(hash, height));
      batch := batch + [SetHash(hash, height)];
    }

    method PutChunk(key: Hash, value: Bytes, hash: Hash)
      requires Open()
      modifies this
      ensures Open() && pendingFiles == old(pendingFiles)
      ensures var c := old(View()).content;
              View() == old(View()).(content := c.(chunks := c.chunks[key := value],
                                                   chunkHashes := c.chunkHashes[key := hash]))
    {
      hide ApplyAll;
      MergeUpdate(state.db.content.chunks, pendingChunks, key, value);
      MergeUpdate(state.db.content.chunkHashes, pendingChunkHashes, key, hash);
      ApplyNext(state.db, batch, SetChunk(key, value));
      batch := batch + [SetChunk(key, value)];
      pendingChunks := pendingChunks[key := value];
      ApplyNext(state.db, batch, SetChunkHash(key, hash));
      batch := batch + [SetChunkHash(key, hash)];
      pendingChunkHashes := pendingChunkHashes[key := hash];
    }

    method GetChunk(key: Hash) returns (value: Option<Bytes>)
      requires Open()
      ensures value == if key in View().content.chunks then Some(View().content.chunks[key]) else None
    {
      if key in pendingChunks {
        return Some(pendingChunks[key]);
      }
      return if key in state.db.content.chunks then Some(state.db.content.chunks[key]) else None;
    }

    method GetChunkHash(key: Hash) returns (hash: Option<Hash>)
      requires Open()
      ensures hash == if key in View().content.chunkHashes then Some(View().content.chunkHashes[key]) else None
    {
      if key in pendingChunkHashes {
        return Some(pendingChunkHashes[key]);
      }
      return if key in state.db.content.chunkHashes then Some(state.db.content.chunkHashes[key]) else None;
    }

    method PutFileManifest(id: BlobIdRef, manifest: FileManifest)
      requires Open()
      modifies this
      ensures Open() && pendingFiles == old(pendingFiles)[id := manifest]
      ensures var c := old(View()).content;
              View() == old(View()).(content := c.(files := c.files[id.id := manifest]))
    {
      pendingFiles := pendingFiles[id := manifest];
      ApplyNext(state.db, batch, SetFile(id.id, manifest));
      batch := batch + [SetFile(id.id, manifest)];
    }

    /** The pending map is keyed by pointer, so a new pointer sees committed manifests only. */
    method GetFileManifest(id: BlobIdRef) returns (manifest: Option<FileManifest>)
      ensures manifest == if id in pendingFiles then Some(pendingFiles[id])
                          else if id.id in state.db.content.files then Some(state.db.content.files[id.id]) else None
    {
      if id in pendingFiles {
        return Some(pendingFiles[id]);
      }
      return if id.id in state.db.content.files then Some(state.db.content.files[id.id]) else None;
    }

    method PutDirectoryManifest(id: BlobId, manifest: DirManifest)
      requires Open()
      modifies this
      ensures Open() && pendingFiles == old(pendingFiles)
      ensures var c := old(View()).content;
              View() == old(View()).(content := c.(dirs := c.dirs[id := manifest]))
    {
      ApplyNext(state.db, batch, SetDir(id, manifest));
      batch := batch + [SetDir(id, manifest)];
    }

    /** Everything or nothing; `faulty` says whether the disk refuses. */
    method Commit(faulty: bool) returns (ok: bool)
      modifies this, state
      ensures ok <==> !old(committed) && !old(aborted) && !faulty
      ensures old(Open()) ==> state.pending == null && (ok <==> !faulty)
      ensures state.db == if ok then old(View()) else old(state.db)
      ensures !old(committed) && !old(aborted) ==> state.pending == null && committed == ok && aborted == !ok
      ensures old(committed) || old(aborted) ==>
                state.pending == old(state.pending) && committed == old(committed) && aborted == old(aborted)
    {
      if committed || aborted {
        return false;
      }
      if faulty {
        var _ := Abort();
        return false;
      }
      state.db := ApplyAll(state.db, batch);
      pendingChunks, pendingChunkHashes, pendingFiles := map[], map[], map[];
      committed := true;
      state.pending := null;
      ok := true;
    }

    method Abort() returns (ok: bool)
      modifies this, state
      ensures ok <==> !old(committed) && !old(aborted)
      ensures old(Open()) ==> state.pending == null
      ensures state.db == old(state.db)
      ensures ok ==> aborted && !committed && state.pending == null
      ensures !ok ==> state.pending == old(state.pending) && committed == old(committed) && aborted == old(aborted)
    {
      if committed || aborted {
        return false;
      }
      pendingChunks, pendingChunkHashes, pendingFiles := map[], map[], map[];
      aborted := true;
      batch := [];
      state.pending := null;
      ok := true;
    }
  }
}
