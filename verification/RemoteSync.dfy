/** Copying a range of blocks from another node: the blocks are processed by concurrent workers and committed
    in batches in whatever order the workers finish. */
module RemoteSync {
  import opened Octets
  import opened Codec
  import opened Content
  import opened Chain
  import opened Store
  import opened Node
  import opened Copies
  import opened Wrappers
  import opened Arrival
  import Snapshot
  import Mmr

  // ----- the workers -----

  method ProcessStreamedBlock(r: Response, cache: HashCache) returns (p: Option<Processed>)
    modifies cache
    ensures p.None? <==>
              || |r.chunks| != |r.block.body.chunks| || |r.files| != |r.block.body.files|
              || |r.dirs| != |r.block.body.dirs|
    ensures p == if CountsMatch(r) then Some(ProcessedOf(r)) else None
    ensures p.Some? ==>
              var h := r.block.header.height;
              cache.hashes == if h in old(cache.hashes) then old(cache.hashes)
                              else old(cache.hashes)[h := HeaderHash(r.block.header)]
  {
    hide HeaderHash;
    var block := r.block;
    if |r.chunks| != |block.body.chunks| {
      return None;
    }
    if |r.files| != |block.body.files| {
      return None;
    }
    if |r.dirs| != |block.body.dirs| {
      return None;
    }
    var chunks: map<Hash, Bytes>, chunkHashes: map<Hash, Hash> := map[], map[];
    ghost var ids := block.body.chunks;
    for i := 0 to |r.chunks|
      invariant chunks == ChunkMap(ids[..i], r.chunks[..i])
      invariant chunkHashes == ChunkHashMap(ids[..i], r.chunks[..i])
    {
      assert ids[..i + 1][..i] == ids[..i] && r.chunks[..i + 1][..i] == r.chunks[..i];
      var key := block.body.chunks[i].commitment;
      chunks := chunks[key := r.chunks[i].data];
      chunkHashes := chunkHashes[key := r.chunks[i].hash];
    }
    assert ids[..|ids|] == ids && r.chunks[..|ids|] == r.chunks;
    var files: seq<(BlobId, FileManifest)> := [];
    for i := 0 to |r.files|
      invariant |files| == i && forall j :: 0 <= j < i ==> files[j] == (block.body.files[j], r.files[j])
    {
      files := files + [(block.body.files[i], r.files[i])];
    }
    var dirs: seq<(BlobId, DirManifest)> := [];
    for i := 0 to |r.dirs|
      invariant |dirs| == i && forall j :: 0 <= j < i ==> dirs[j] == (block.body.dirs[j], r.dirs[j])
    {
      dirs := dirs + [(block.body.dirs[i], r.dirs[i])];
    }
    assert files == Zip(block.body.files, r.files) && dirs == Zip(block.body.dirs, r.dirs);
    var _ := cache.Hash(block.header);
    p := Some(Processed(block.header.height, block, chunks, chunkHashes, files, dirs, r.mmr, r.hash));
  }

  lemma {:induction false} SubMapEqual<K, V>(a: map<K, V>, t: map<K, V>)
    requires SubMap(a, t) && forall k :: k in t ==> k in a
    ensures a == t
  {
  }

  // ----- the committer -----

  ghost predicate Ascending(s: seq<nat>) {
    forall i, j :: 0 <= i < j < |s| ==> s[i] <= s[j]
  }

  method Insert(s: seq<nat>, x: nat) returns (t: seq<nat>)
    requires Ascending(s)
    ensures Ascending(t) && multiset(t) == multiset(s) + multiset{x}
  {
    hide Ascending;
    var k := |s|;
    while k > 0 && s[k - 1] > x
      invariant 0 <= k <= |s| && (k < |s| ==> x < s[k])
    {
      k := k - 1;
    }
    t := s[..k] + [x] + s[k..];
    InsertAscends(s, x, k);
    InsertKeeps(s, x, k);
  }

  lemma {:induction false} InsertAscends(s: seq<nat>, x: nat, k: nat)
    requires Ascending(s) && k <= |s| && (k > 0 ==> s[k - 1] <= x) && (k < |s| ==> x < s[k])
    ensures Ascending(s[..k] + [x] + s[k..])
  {
    var t := s[..k] + [x] + s[k..];
    assert forall i :: 0 <= i < k ==> t[i] == s[i] && s[i] <= x;
    assert forall i :: k < i < |t| ==> t[i] == s[i - 1] && x < s[i - 1];
  }

  lemma {:induction false} InsertKeeps(s: seq<nat>, x: nat, k: nat)
    requires k <= |s|
    ensures multiset(s[..k] + [x] + s[k..]) == multiset(s) + multiset{x}
  {
    assert s == s[..k] + s[k..];
  }

  /** Ascending order. */
  method SortHeights(hs: seq<nat>) returns (s: seq<nat>)
    ensures Ascending(s) && multiset(s) == multiset(hs)
  {
    hide Ascending;
    s := [];
    assert Ascending(s) by { NothingAscends(); }
    for n := 0 to |hs|
      invariant Ascending(s) && multiset(s) == multiset(hs[..n])
    {
      assert hs[..n + 1] == hs[..n] + [hs[n]];
      s := Insert(s, hs[n]);
    }
    assert hs[..|hs|] == hs;
  }

  lemma {:induction false} NothingAscends()
    ensures Ascending([])
  {
  }

  lemma {:induction false} SameMembers(a: seq<nat>, b: seq<nat>)
    requires multiset(a) == multiset(b)
    ensures |a| == |b| && forall h :: h in a <==> h in b
  {
    assert |multiset(a)| == |multiset(b)|;
    assert forall h :: h in a <==> h in multiset(a);
    assert forall h :: h in b <==> h in multiset(b);
  }

  lemma {:induction false} DoneNext<K, V>(m: map<K, V>, todo: set<K>, k: K, was: map<K, V>)
    requires k in todo && todo <= m.Keys
    ensures was + (m - (todo - {k})) == (was + (m - todo))[k := m[k]]
  {
  }

  lemma {:induction false} DoneEnds<K, V>(m: map<K, V>, was: map<K, V>)
    ensures was + (m - m.Keys) == was && was + (m - {}) == was + m
  {
  }

  /** The chunks of one block, in any order. */
  method PutChunks(tx: ChainStateTransaction, chunks: map<Hash, Bytes>, hashes: map<Hash, Hash>)
    requires tx.Open() && chunks.Keys == hashes.Keys
    modifies tx
    ensures tx.Open()
    ensures var c := old(tx.View()).content;
            tx.View() == old(tx.View()).(content := c.(chunks := c.chunks + chunks,
                                                       chunkHashes := c.chunkHashes + hashes))
  {
    hide ChainStateTransaction.Open, ChainStateTransaction.View;
    var todo := chunks.Keys;
    ghost var was := tx.View();
    ghost var c := was.content;
    DoneEnds(chunks, c.chunks);
    DoneEnds(hashes, c.chunkHashes);
    while todo != {}
      invariant tx.Open() && todo <= chunks.Keys
      invariant tx.View() == was.(content := c.(chunks := c.chunks + (chunks - todo),
                                                chunkHashes := c.chunkHashes + (hashes - todo)))
      decreases |todo|
    {
      var key :| key in todo;
      DoneNext(chunks, todo, key, c.chunks);
      DoneNext(hashes, todo, key, c.chunkHashes);
      tx.PutChunk(key, chunks[key], hashes[key]);
      todo := todo - {key};
    }
  }

  /** Pairs with the same key have the same value. */
  ghost predicate Consistent<K, V>(pairs: seq<(K, V)>) {
    forall p, q :: p in pairs && q in pairs && p.0 == q.0 ==> p.1 == q.1
  }

  lemma {:induction false} ConsistentMap<K, V>(pairs: seq<(K, V)>)
    requires Consistent(pairs)
    ensures forall p :: p in pairs ==> p.0 in AsMap(pairs) && AsMap(pairs)[p.0] == p.1
    ensures forall k :: k in AsMap(pairs) ==> exists p :: p in pairs && p.0 == k
  {
    if pairs != [] {
      var init, last := pairs[..|pairs| - 1], pairs[|pairs| - 1];
      ConsistentMap(init);
      assert pairs == init + [last];
      assert last in pairs;
    }
  }

  /** The pairs already written, given those still to write. */
  ghost predicate Written<K, V>(pairs: seq<(K, V)>, todo: seq<(K, V)>, done: map<K, V>) {
    && (forall p :: p in todo ==> p in pairs)
    && (forall p :: p in pairs ==> p in todo || p.0 in done)
    && SubMap(done, AsMap(pairs))
  }

  lemma {:induction false} WriteOne<K, V>(pairs: seq<(K, V)>, todo: seq<(K, V)>, done: map<K, V>, i: nat)
    requires Consistent(pairs) && Written(pairs, todo, done) && i < |todo|
    ensures Written(pairs, todo[..i] + todo[i + 1..], done[todo[i].0 := todo[i].1])
  {
    hide AsMap;
    ConsistentMap(pairs);
    assert todo == todo[..i] + [todo[i]] + todo[i + 1..];
    assert todo[i] in todo;
  }

  lemma {:induction false} AllWritten<K, V>(pairs: seq<(K, V)>, done: map<K, V>)
    requires Consistent(pairs) && Written(pairs, [], done)
    ensures done == AsMap(pairs)
  {
    hide AsMap;
    ConsistentMap(pairs);
    SubMapEqual(done, AsMap(pairs));
  }

  /** The file manifests of one block, in any order. */
  method PutFiles(tx: ChainStateTransaction, files: seq<(BlobId, FileManifest)>)
    requires tx.Open() && Consistent(files)
    modifies tx
    ensures tx.Open()
    ensures var c := old(tx.View()).content;
            tx.View() == old(tx.View()).(content := c.(files := c.files + AsMap(files)))
  {
    hide ChainStateTransaction.Open, ChainStateTransaction.View, AsMap;
    var todo := files;
    ghost var was := tx.View();
    ghost var done: map<BlobId, FileManifest> := map[];
    while todo != []
      invariant tx.Open() && Written(files, todo, done)
      invariant tx.View() == was.(content := was.content.(files := was.content.files + done))
      decreases |todo|
    {
      var i :| 0 <= i < |todo|;
      WriteOne(files, todo, done, i);
      MergeUpdate(was.content.files, done, todo[i].0, todo[i].1);
      var ref := new BlobIdRef(todo[i].0);
      tx.PutFileManifest(ref, todo[i].1);
      done := done[todo[i].0 := todo[i].1];
      todo := todo[..i] + todo[i + 1..];
    }
    AllWritten(files, done);
  }

  /** The directory manifests of one block, in any order. */
  method PutDirs(tx: ChainStateTransaction, dirs: seq<(BlobId, DirManifest)>)
    requires tx.Open() && Consistent(dirs)
    modifies tx
    ensures tx.Open()
    ensures var c := old(tx.View()).content;
            tx.View() == old(tx.View()).(content := c.(dirs := c.dirs + AsMap(dirs)))
  {
    hide ChainStateTransaction.Open, ChainStateTransaction.View, AsMap;
    var todo := dirs;
    ghost var was := tx.View();
    ghost var done: map<BlobId, DirManifest> := map[];
    while todo != []
      invariant tx.Open() && Written(dirs, todo, done)
      invariant tx.View() == was.(content := was.content.(dirs := was.content.dirs + done))
      decreases |todo|
    {
      var i :| 0 <= i < |todo|;
      WriteOne(dirs, todo, done, i);
      MergeUpdate(was.content.dirs, done, todo[i].0, todo[i].1);
      tx.PutDirectoryManifest(todo[i].0, todo[i].1);
      done := done[todo[i].0 := todo[i].1];
      todo := todo[..i] + todo[i + 1..];
    }
    AllWritten(dirs, done);
  }

  lemma {:induction false} ProcessedIsConsistent(cfg: Config, h: nat)
    requires ValidConfig(cfg) && h <= MAX_HEIGHT
    ensures var p := ProcessedAt(cfg, h);
            p.chunks.Keys == p.chunkHashes.Keys && Consistent(p.files) && Consistent(p.dirs)
  {
    hide BodyAt, HeaderAt, HashAt, LeavesAt, SnapshotBytes, OpenChunk, OpenFile, OpenDir;
    var r := ResponseAt(cfg, h);
    ResponseCounts(cfg, h);
    SameChunkKeys(r.block.body.chunks, r.chunks);
    ByCommitment(r.block.body.files, r.files, k => OpenFile(cfg.da, k));
    ByCommitment(r.block.body.dirs, r.dirs, k => OpenDir(cfg.da, k));
  }

  lemma {:induction false} SameChunkKeys(ids: seq<BlobId>, chunks: seq<ChunkWithHash>)
    requires |ids| == |chunks|
    ensures ChunkMap(ids, chunks).Keys == ChunkHashMap(ids, chunks).Keys
  {
    if ids != [] { SameChunkKeys(ids[..|ids| - 1], chunks[..|ids| - 1]); }
  }

  lemma {:induction false} ByCommitment<V>(ids: seq<BlobId>, values: seq<V>, open: Hash -> V)
    requires |ids| == |values| && forall i :: 0 <= i < |ids| ==> values[i] == open(ids[i].commitment)
    ensures Consistent(Zip(ids, values))
  {
  }

  /** One block of a batch. */
  method PutProcessed(tx: ChainStateTransaction, cache: HashCache, p: Processed, ghost cfg: Config)
    requires ValidConfig(cfg) && p.height <= MAX_HEIGHT && p == ProcessedAt(cfg, p.height) && tx.Open()
             && GoodHashes(cfg, cache.hashes)
    modifies tx, cache
    ensures tx.Open() && tx.View() == Merge(old(tx.View()), p) && GoodHashes(cfg, cache.hashes)
  {
    hide ChainStateTransaction.Open, ChainStateTransaction.View, GoodHashes, ProcessedAt, AsMap, BlockBytes, HeaderHash,
      HashAt, HeaderAt, BodyAt, Consistent, ValidConfig;
    ProcessedIsConsistent(cfg, p.height);
    ProcessedFields(cfg, p.height);
    PutChunks(tx, p.chunks, p.chunkHashes);
    PutFiles(tx, p.files);
    PutDirs(tx, p.dirs);
    StoredHash(cfg, p.height);
    HeaderAtFields(cfg, p.height);
    GoodHashesNext(cfg, cache.hashes, p.height, p.hash);
    cache.UpdateHashCache(p.block.header.height, p.hash);
    GoodHashesNext(cfg, cache.hashes, p.height, p.hash);
    var hash := tx.PutBlock(p.height, p.block, cache);
    if p.mmr.Some? && p.height > 0 {
      tx.PutStateMmrRaw(p.height, p.mmr.value);
    }
  }

  method WriteBatch(tx: ChainStateTransaction, cache: HashCache, processed: map<nat, Processed>, sorted: seq<nat>,
                    ghost cfg: Config)
    requires ValidConfig(cfg) && tx.Open() && GoodHashes(cfg, cache.hashes)
    requires forall i :: 0 <= i < |sorted| ==>
               sorted[i] <= MAX_HEIGHT && sorted[i] in processed && processed[sorted[i]] == ProcessedAt(cfg, sorted[i])
    modifies tx, cache
    ensures tx.Open() && GoodHashes(cfg, cache.hashes)
    ensures tx.View() == MergeAll(cfg, old(tx.View()), sorted)
  {
    hide ChainStateTransaction.Open, ChainStateTransaction.View, GoodHashes, ProcessedAt, Merge, ValidConfig, MergeAll,
      BodyAt, HashAt;
    ghost var was := tx.View();
    MergeNothing(cfg, was);
    for i := 0 to |sorted|
      invariant tx.Open() && GoodHashes(cfg, cache.hashes)
      invariant tx.View() == MergeAll(cfg, was, sorted[..i])
    {
      var height := sorted[i];
      assert sorted[..i + 1] == sorted[..i] + [height];
      MergeNext(cfg, was, sorted[..i], height);
      ProcessedFields(cfg, height);
      PutProcessed(tx, cache, processed[height], cfg);
    }
    assert sorted[..|sorted|] == sorted;
  }

  lemma {:induction false} LastIsGreatest(sorted: seq<nat>, hs: seq<nat>)
    requires Ascending(sorted) && multiset(sorted) == multiset(hs) && hs != []
    ensures |sorted| == |hs| && IsGreatest(sorted[|sorted| - 1], hs) && HeightSet(sorted) == HeightSet(hs)
    ensures forall i :: 0 <= i < |sorted| ==> sorted[i] in hs
  {
    SameMembers(sorted, hs);
    assert forall i :: 0 <= i < |sorted| ==> sorted[i] in sorted;
  }

  /** One batch in one transaction, as a whole or not at all; the finalized height becomes the greatest height of the
      batch, and then the headers are published in ascending order. */
  method CommitBatch(state: ChainState, cache: HashCache, processed: map<nat, Processed>, heights: seq<nat>,
                     faulty: bool, ghost cfg: Config) returns (ok: bool, published: seq<nat>)
    requires ValidConfig(cfg) && state.pending == null && GoodHashes(cfg, cache.hashes) && Holds(cfg, state.db)
    requires heights != [] && Collected(cfg, processed, heights)
    modifies state, cache
    ensures state.pending == null && GoodHashes(cfg, cache.hashes) && Holds(cfg, state.db)
    ensures ok <==> !faulty
    ensures ok ==>
              && state.db.blocks.Keys == old(state.db.blocks.Keys) + HeightSet(heights)
              && IsGreatest(state.db.finalized, heights)
              && Ascending(published) && multiset(published) == multiset(heights)
    ensures !ok ==> state.db == old(state.db) && published == []
  {
    hide ChainStateTransaction.Open, ChainStateTransaction.View, GoodHashes, ProcessedAt, Merge, MergeAll, ValidConfig,
      Holds, IsGreatest, Ascending, HeightSet;
    var sorted := SortHeights(heights);
    LastIsGreatest(sorted, heights);
    var maxHeight := sorted[|sorted| - 1];
    MergeAllHolds(cfg, state.db, sorted);
    FinalizedIsSeparate(cfg, MergeAll(cfg, state.db, sorted), maxHeight);
    var tx := state.BeginTransaction();
    WriteBatch(tx, cache, processed, sorted, cfg);
    tx.SetFinalizedHeight(maxHeight);
    ok := tx.Commit(faulty);
    published := if ok then sorted else [];
  }

  // ----- batches in the order of arrival -----

  function HeightsOf(results: seq<Processed>): (hs: seq<nat>)
    ensures |hs| == |results|
    ensures forall i :: 0 <= i < |hs| ==> hs[i] == results[i].height
  {
    seq(|results|, (i: nat) requires i < |results| => results[i].height)
  }

  /** The batch under collection holds exactly the blocks of `heights`. */
  ghost predicate Collected(cfg: Config, processed: map<nat, Processed>, heights: seq<nat>)
    requires ValidConfig(cfg)
  {
    && |processed| == |heights|
    && (forall h :: h in heights ==> h <= MAX_HEIGHT && h in processed && processed[h] == ProcessedAt(cfg, h))
    && (forall h :: h in processed ==> h in heights)
  }

  lemma {:induction false} CollectedNext(cfg: Config, processed: map<nat, Processed>, heights: seq<nat>, p: Processed)
    requires ValidConfig(cfg) && Collected(cfg, processed, heights)
    requires p.height <= MAX_HEIGHT && p.height !in heights && p == ProcessedAt(cfg, p.height)
    ensures Collected(cfg, processed[p.height := p], heights + [p.height])
  {
    hide ProcessedAt, ValidConfig;
    assert p.height !in processed;
    MapGrows(processed, p.height, p);
    MemberOfAppend(heights, p.height);
  }

  lemma {:induction false} MapGrows<K, V>(m: map<K, V>, k: K, v: V)
    requires k !in m
    ensures |m[k := v]| == |m| + 1
  {
    assert m[k := v].Keys == m.Keys + {k};
  }

  lemma {:induction false} MemberOfAppend<T>(s: seq<T>, x: T)
    ensures forall y :: y in s + [x] <==> y in s || y == x
  {
  }

  /** The committer after the results `hs`: the full batches of `hs[..a]` are committed, the rest is collected. */
  ghost predicate Committing(cfg: Config, was: Db, db: Db, hs: seq<nat>, a: nat, processed: map<nat, Processed>,
                             heights: seq<nat>, n: nat)
    requires ValidConfig(cfg) && n > 0
  {
    && a <= |hs| && heights == hs[a..] && |heights| < n && Collected(cfg, processed, heights)
    && Holds(cfg, db) && db.blocks.Keys == was.blocks.Keys + HeightSet(hs[..a])
    && Cut(a, n) && (a == 0 ==> db == was) && (a > 0 ==> a >= n && IsGreatest(db.finalized, hs[a - n..a]))
  }

  lemma {:induction false} CommittingStart(cfg: Config, was: Db, n: nat)
    requires ValidConfig(cfg) && n > 0 && Holds(cfg, was)
    ensures Committing(cfg, was, was, [], 0, map[], [], n)
  {
    hide Holds;
  }

  lemma {:induction false} CommittingMore(cfg: Config, was: Db, db: Db, hs: seq<nat>, a: nat,
                                          processed: map<nat, Processed>, heights: seq<nat>, n: nat, p: Processed)
    requires ValidConfig(cfg) && n > 0 && Committing(cfg, was, db, hs, a, processed, heights, n)
    requires p.height <= MAX_HEIGHT && p.height !in hs && p == ProcessedAt(cfg, p.height)
    ensures Collected(cfg, processed[p.height := p], heights + [p.height])
    ensures |processed[p.height := p]| == |heights| + 1 && heights + [p.height] == (hs + [p.height])[a..]
    ensures a <= |hs| && |heights| < n && Cut(a, n) && Holds(cfg, db)
    ensures db.blocks.Keys == was.blocks.Keys + HeightSet((hs + [p.height])[..a])
    ensures |heights| + 1 < n ==>
              Committing(cfg, was, db, hs + [p.height], a, processed[p.height := p], heights + [p.height], n)
  {
    hide Holds, ProcessedAt, IsGreatest, HeightSet, Cut;
    CollectedNext(cfg, processed, heights, p);
    assert (hs + [p.height])[..a] == hs[..a];
    if a >= n { assert (hs + [p.height])[a - n..a] == hs[a - n..a]; }
  }

  lemma {:induction false} CommittingBatch(cfg: Config, was: Db, before: Db, db: Db, hs: seq<nat>, a: nat,
                                           heights: seq<nat>, n: nat)
    requires ValidConfig(cfg) && n > 0 && a <= |hs| && heights == hs[a..] && Cut(a, n)
    requires before.blocks.Keys == was.blocks.Keys + HeightSet(hs[..a])
    requires Holds(cfg, db) && db.blocks.Keys == before.blocks.Keys + HeightSet(heights)
             && IsGreatest(db.finalized, heights)
    ensures db.blocks.Keys == was.blocks.Keys + HeightSet(hs)
    ensures |heights| == n ==> Committing(cfg, was, db, hs, |hs|, map[], [], n)
  {
    hide *;
    BatchKeys(was.blocks.Keys, hs, a);
    if |heights| == n {
      CutMore(a, n);
      NothingCollected(cfg);
      AfterBatch(cfg, was, db, hs, n);
    }
  }

  lemma {:induction false} AfterBatch(cfg: Config, was: Db, db: Db, hs: seq<nat>, n: nat)
    requires ValidConfig(cfg) && 0 < n <= |hs| && Cut(|hs|, n) && Collected(cfg, map[], []) && Holds(cfg, db)
    requires db.blocks.Keys == was.blocks.Keys + HeightSet(hs) && IsGreatest(db.finalized, hs[|hs| - n..])
    ensures Committing(cfg, was, db, hs, |hs|, map[], [], n)
  {
    hide Holds, IsGreatest, HeightSet, Cut, Collected, ValidConfig;
    EndSlices(hs, |hs| - n);
  }

  lemma {:induction false} EndSlices(hs: seq<nat>, a: nat)
    requires a <= |hs|
    ensures hs[..|hs|] == hs && hs[|hs|..] == [] && hs[a..|hs|] == hs[a..]
  {
  }

  lemma {:induction false} NothingCollected(cfg: Config)
    requires ValidConfig(cfg)
    ensures Collected(cfg, map[], [])
  {
  }

  /** The committer takes one result and commits when the batch is full. */
  method Receive(state: ChainState, cache: HashCache, processed: map<nat, Processed>, heights: seq<nat>,
                 data: Processed, batchSize: nat, faulty: bool, ghost cfg: Config, ghost was: Db, ghost hs: seq<nat>,
                 ghost a: nat)
    returns (ok: bool, newProcessed: map<nat, Processed>, newHeights: seq<nat>, ghost b: nat)
    requires ValidConfig(cfg) && state.pending == null && GoodHashes(cfg, cache.hashes) && batchSize > 0
    requires Committing(cfg, was, state.db, hs, a, processed, heights, batchSize)
    requires data.height <= MAX_HEIGHT && data.height !in hs && data == ProcessedAt(cfg, data.height)
    modifies state, cache
    ensures state.pending == null && GoodHashes(cfg, cache.hashes)
    ensures ok ==> Committing(cfg, was, state.db, hs + [data.height], b, newProcessed, newHeights, batchSize)
    ensures !ok ==> faulty && state.db == old(state.db)
  {
    hide GoodHashes, ProcessedAt, ValidConfig, Holds, Collected, IsGreatest, Ascending, HeightSet, Cut, Committing;
    CommittingMore(cfg, was, state.db, hs, a, processed, heights, batchSize, data);
    newProcessed := processed[data.height := data];
    newHeights := heights + [data.height];
    ok, b := true, a;
    if |newProcessed| >= batchSize {
      ghost var before := state.db;
      var published: seq<nat>;
      ok, published := CommitBatch(state, cache, newProcessed, newHeights, faulty, cfg);
      if !ok {
        return;
      }
      CommittingBatch(cfg, was, before, state.db, hs + [data.height], a, newHeights, batchSize);
      newProcessed, newHeights, b := map[], [], |hs| + 1;
    }
  }

  /** The end of the results: what is left is committed too. */
  method CommitRest(state: ChainState, cache: HashCache, processed: map<nat, Processed>, heights: seq<nat>,
                    batchSize: nat, faulty: bool, ghost cfg: Config, ghost was: Db, ghost hs: seq<nat>, ghost a: nat)
    returns (ok: bool)
    requires ValidConfig(cfg) && state.pending == null && GoodHashes(cfg, cache.hashes) && batchSize > 0
    requires Committing(cfg, was, state.db, hs, a, processed, heights, batchSize)
    modifies state, cache
    ensures state.pending == null && GoodHashes(cfg, cache.hashes) && Holds(cfg, state.db)
    ensures !ok ==> faulty && state.db == old(state.db) && a < |hs|
    ensures ok ==> state.db.blocks.Keys == was.blocks.Keys + HeightSet(hs)
    ensures ok ==> if hs == [] then state.db == was else IsGreatest(state.db.finalized, LastBatch(hs, batchSize))
  {
    hide GoodHashes, ProcessedAt, ValidConfig, Holds, IsGreatest, Ascending, HeightSet, Cut, LastBatch, Collected;
    CollectedSize(cfg, processed, heights);
    ok := true;
    if |processed| > 0 {
      ghost var before := state.db;
      LastBatchAfterCut(hs, a, batchSize);
      var published: seq<nat>;
      ok, published := CommitBatch(state, cache, processed, heights, faulty, cfg);
      if ok { CommittingBatch(cfg, was, before, state.db, hs, a, heights, batchSize); }
    } else {
      assert hs[..|hs|] == hs;
      if a > 0 {
        CutBack(a, batchSize);
        LastBatchAfterCut(hs, a - batchSize, batchSize);
      }
    }
  }

  lemma {:induction false} CollectedSize(cfg: Config, processed: map<nat, Processed>, heights: seq<nat>)
    requires ValidConfig(cfg) && Collected(cfg, processed, heights)
    ensures |processed| == |heights|
  {
  }

  // ----- the source -----

  method ServeChunks(state: ChainState, ids: seq<BlobId>) returns (r: Option<seq<ChunkWithHash>>)
    ensures var c := state.db.content;
            && (r.Some? <==> forall id :: id in ids ==> id.commitment in c.chunks && id.commitment in c.chunkHashes)
            && (r.Some? ==> |r.value| == |ids| && forall i :: 0 <= i < |ids| ==>
                  ids[i].commitment in c.chunks && ids[i].commitment in c.chunkHashes &&
                  r.value[i] == ChunkWithHash(c.chunks[ids[i].commitment], c.chunkHashes[ids[i].commitment]))
  {
    var chunks: seq<ChunkWithHash> := [];
    ghost var c := state.db.content;
    for n := 0 to |ids|
      invariant |chunks| == n
      invariant forall i :: 0 <= i < n ==>
                  ids[i].commitment in c.chunks && ids[i].commitment in c.chunkHashes &&
                  chunks[i] == ChunkWithHash(c.chunks[ids[i].commitment], c.chunkHashes[ids[i].commitment])
    {
      assert ids[n] in ids;
      var data := state.GetChunk(ids[n].commitment);
      if data.None? {
        return None;
      }
      var hash := state.GetChunkHash(ids[n].commitment);
      if hash.None? {
        return None;
      }
      chunks := chunks + [ChunkWithHash(data.value, hash.value)];
    }
    r := Some(chunks);
  }

  method ServeFiles(state: ChainState, ids: seq<BlobId>) returns (r: Option<seq<FileManifest>>)
    ensures var c := state.db.content;
            && (r.Some? <==> forall id :: id in ids ==> id in c.files)
            && (r.Some? ==>
                  && |r.value| == |ids|
                  && forall i :: 0 <= i < |ids| ==> ids[i] in c.files && r.value[i] == c.files[ids[i]])
  {
    var files: seq<FileManifest> := [];
    ghost var c := state.db.content;
    for n := 0 to |ids|
      invariant |files| == n && forall i :: 0 <= i < n ==> ids[i] in c.files && files[i] == c.files[ids[i]]
    {
      assert ids[n] in ids;
      var m := state.GetFileManifest(ids[n]);
      if m.None? {
        return None;
      }
      files := files + [m.value];
    }
    r := Some(files);
  }

  method ServeDirs(state: ChainState, ids: seq<BlobId>) returns (r: Option<seq<DirManifest>>)
    ensures var c := state.db.content;
            && (r.Some? <==> forall id :: id in ids ==> id in c.dirs)
            && (r.Some? ==>
                  && |r.value| == |ids|
                  && forall i :: 0 <= i < |ids| ==> ids[i] in c.dirs && r.value[i] == c.dirs[ids[i]])
  {
    var dirs: seq<DirManifest> := [];
    ghost var c := state.db.content;
    for n := 0 to |ids|
      invariant |dirs| == n && forall i :: 0 <= i < n ==> ids[i] in c.dirs && dirs[i] == c.dirs[ids[i]]
    {
      assert ids[n] in ids;
      var m := state.GetDirectoryManifest(ids[n]);
      if m.None? {
        return None;
      }
      dirs := dirs + [m.value];
    }
    r := Some(dirs);
  }

  /** The block and the snapshot that are stored for height `h`. */
  ghost predicate BlockServed(cfg: Config, db: Db, h: nat)
    requires ValidConfig(cfg) && h <= MAX_HEIGHT
  {
    && h in db.blocks && DecodeBlock(db.blocks[h]) == Some(StoredBlock(BlockAt(cfg, h)))
    && (h in db.mmrs <==> h > 0 && BodyAt(cfg, h) != NO_BODY)
    && (h in db.mmrs ==> db.mmrs[h] == SnapshotBytes(LeavesAt(cfg, h)))
  }

  lemma {:induction false} HeldHeight(cfg: Config, db: Db, h: nat)
    requires ValidConfig(cfg) && Holds(cfg, db) && h in db.blocks
    ensures h <= MAX_HEIGHT && Covers(cfg, db, h) && Within(db, Everything(cfg))
  {
    hide Everything, Covers, Within, NothingElse;
  }

  lemma {:induction false} HeldBlock(cfg: Config, db: Db, h: nat)
    requires ValidConfig(cfg) && Holds(cfg, db) && h in db.blocks && h <= MAX_HEIGHT
    ensures BlockServed(cfg, db, h) && BodyServed(cfg.da, db.content, BodyAt(cfg, h))
  {
    hide DbAt, BodyAt, BlockAt, HashAt, LeavesAt, SnapshotBytes, BlockBytes, DecodeBlock, ContentAt, Holds, OpenChunk,
      OpenFile, OpenDir, IdsRoot, HeaderHash, Mmr.RootOf;
    HeldHeight(cfg, db, h);
    DbBlocks(cfg, MAX_HEIGHT);
    DbMmrs(cfg, MAX_HEIGHT);
    NoBodyAtGenesis(cfg);
    StoredChainIsLinked(cfg, MAX_HEIGHT, h);
    ListedContent(cfg, h, MAX_HEIGHT);
  }

  /** The snapshot to send: only where one is stored at this very height. */
  method ServeSnapshot(state: ChainState, cfg: Config, height: nat) returns (r: Option<Bytes>)
    requires ValidConfig(cfg) && Holds(cfg, state.db) && height in state.db.blocks && height <= MAX_HEIGHT
    ensures r == if height > 0 && BodyAt(cfg, height) != NO_BODY
                 then Some(SnapshotBytes(LeavesAt(cfg, height))) else None
  {
    hide DbAt, BodyAt, LeavesAt, Mmr.LeafIndexesOf, Snapshot.ValidIndexes, Snapshot.SnapshotOf, Holds, BlockAt,
      DecodeBlock, Mmr.PeaksOf, Mmr.NodesOf;
    HeldBlock(cfg, state.db, height);
    r := None;
    if height > 0 {
      var has := state.HasStateMmrAtHeight(height);
      if has {
        var m := RestoreState(state, cfg, height, height);
        IndexesAreValid(LeavesAt(cfg, height));
        var bytes := Snapshot.TakeSnapshot(m, LeavesAt(cfg, height));
        r := Some(bytes);
      }
    }
  }

  /** The lists of data that a block names. */
  method ServeBody(state: ChainState, cfg: Config, height: nat, body: Body)
    returns (chunks: Option<seq<ChunkWithHash>>, files: Option<seq<FileManifest>>, dirs: Option<seq<DirManifest>>)
    requires ValidConfig(cfg) && Holds(cfg, state.db) && height in state.db.blocks && height <= MAX_HEIGHT
    requires body == BodyAt(cfg, height)
    ensures chunks.Some? && |chunks.value| == |body.chunks|
    ensures forall i :: 0 <= i < |body.chunks| ==> chunks.value[i] == OpenChunk(cfg.da, body.chunks[i].commitment)
    ensures files.Some? && |files.value| == |body.files|
    ensures forall i :: 0 <= i < |body.files| ==> files.value[i] == OpenFile(cfg.da, body.files[i].commitment)
    ensures dirs.Some? && |dirs.value| == |body.dirs|
    ensures forall i :: 0 <= i < |body.dirs| ==> dirs.value[i] == OpenDir(cfg.da, body.dirs[i].commitment)
  {
    hide BodyAt, Holds, OpenChunk, OpenFile, OpenDir, ValidConfig, BlockServed;
    HeldBlock(cfg, state.db, height);
    chunks := ServeChunks(state, body.chunks);
    files := ServeFiles(state, body.files);
    dirs := ServeDirs(state, body.dirs);
  }

  /** The message for one height, from any database that holds the block; nothing otherwise. */
  method StreamBlock(state: ChainState, cache: HashCache, cfg: Config, height: nat) returns (r: Option<Response>)
    requires ValidConfig(cfg) && Holds(cfg, state.db) && GoodHashes(cfg, cache.hashes)
    modifies cache
    ensures GoodHashes(cfg, cache.hashes)
    ensures r.Some? <==> height in state.db.blocks
    ensures r.Some? ==> height <= MAX_HEIGHT && r.value == ResponseAt(cfg, height)
  {
    hide Holds, BodyAt, HeaderAt, LeavesAt, HashAt, HeaderHash, SnapshotBytes, GoodHashes, DecodeBlock, OpenChunk,
      OpenFile, OpenDir, ValidConfig, ResponseAt, BodyServed, Covers, Within;
    var block := state.GetBlock(height);
    if height in state.db.blocks {
      HeldHeight(cfg, state.db, height);
      HeldBlock(cfg, state.db, height);
    }
    if block.None? {
      return None;
    }
    var snapshot := ServeSnapshot(state, cfg, height);
    var chunks, files, dirs := ServeBody(state, cfg, height, block.value.body);
    if chunks.None? || files.None? || dirs.None? {
      return None;
    }
    StoredHash(cfg, height);
    HeaderAtFields(cfg, height);
    GoodHashesNext(cfg, cache.hashes, height, HashAt(cfg, height));
    var hash := cache.Hash(block.value.header);
    r := Some(Response(block.value, hash, chunks.value, files.value, dirs.value, snapshot));
    SameResponse(cfg, height, r.value);
  }

  lemma {:induction false} SameResponse(cfg: Config, h: nat, r: Response)
    requires ValidConfig(cfg) && h <= MAX_HEIGHT
    requires var b := BodyAt(cfg, h);
             && r.block == StoredBlock(BlockAt(cfg, h)) && r.hash == HashAt(cfg, h)
             && |r.chunks| == |b.chunks| && |r.files| == |b.files| && |r.dirs| == |b.dirs|
             && (forall i :: 0 <= i < |b.chunks| ==> r.chunks[i] == OpenChunk(cfg.da, b.chunks[i].commitment))
             && (forall i :: 0 <= i < |b.files| ==> r.files[i] == OpenFile(cfg.da, b.files[i].commitment))
             && (forall i :: 0 <= i < |b.dirs| ==> r.dirs[i] == OpenDir(cfg.da, b.dirs[i].commitment))
             && r.mmr == if h > 0 && b != NO_BODY then Some(SnapshotBytes(LeavesAt(cfg, h))) else None
    ensures r == ResponseAt(cfg, h)
  {
    hide BodyAt, HeaderAt, LeavesAt, HashAt, SnapshotBytes, OpenChunk, OpenFile, OpenDir;
    var t := ResponseAt(cfg, h);
    assert r.chunks == t.chunks;
    assert r.files == t.files;
    assert r.dirs == t.dirs;
  }

  ghost predicate IsStream(cfg: Config, start: nat, stream: seq<Response>)
    requires ValidConfig(cfg)
  {
    forall i :: 0 <= i < |stream| ==> start + i <= MAX_HEIGHT && stream[i] == ResponseAt(cfg, start + i)
  }

  /** The messages of a range, in order, up to the first height that the source does not hold; end height 0 stands for
      the finalized height. The request is served as a whole exactly when the range is not empty and without holes. */
  method StreamBlocks(state: ChainState, cache: HashCache, cfg: Config, startHeight: nat, requestedEnd: nat)
    returns (ok: bool, stream: seq<Response>)
    requires ValidConfig(cfg) && Holds(cfg, state.db) && GoodHashes(cfg, cache.hashes)
    modifies cache
    ensures GoodHashes(cfg, cache.hashes) && IsStream(cfg, startHeight, stream)
    ensures forall h :: startHeight <= h < startHeight + |stream| ==> h in state.db.blocks
    ensures var end := if requestedEnd == 0 then state.db.finalized else requestedEnd;
            && (ok <==> startHeight <= end && forall h :: startHeight <= h <= end ==> h in state.db.blocks)
            && |stream| <= (if startHeight <= end then end - startHeight + 1 else 0)
            && (ok ==> |stream| == end - startHeight + 1)
            && (!ok && startHeight <= end ==>
                  startHeight + |stream| <= end && startHeight + |stream| !in state.db.blocks)
  {
    hide Holds, GoodHashes, ValidConfig, ResponseAt;
    stream := [];
    var endHeight := if requestedEnd == 0 then state.db.finalized else requestedEnd;
    if startHeight > endHeight {
      return false, [];
    }
    for height := startHeight to endHeight + 1
      invariant GoodHashes(cfg, cache.hashes) && |stream| == height - startHeight
      invariant forall h :: startHeight <= h < height ==> h in state.db.blocks
      invariant IsStream(cfg, startHeight, stream)
    {
      var response := StreamBlock(state, cache, cfg, height);
      if response.None? {
        return false, stream;
      }
      stream := stream + [response.value];
    }
    ok := true;
  }

  // ----- the receiver -----

  /** What the workers have sent: different blocks of the stream, each as the chain determines it. */
  ghost predicate Sent(cfg: Config, results: seq<Processed>, start: nat, count: nat)
    requires ValidConfig(cfg)
  {
    && Distinct(HeightsOf(results))
    && (forall i :: 0 <= i < |results| ==>
          && start <= results[i].height < start + count
          && results[i].height <= MAX_HEIGHT && results[i] == ProcessedAt(cfg, results[i].height))
  }

  lemma {:induction false} SendNext(cfg: Config, results: seq<Processed>, start: nat, count: nat, h: nat)
    requires ValidConfig(cfg) && Sent(cfg, results, start, count) && start <= h < start + count && h <= MAX_HEIGHT
    requires h !in HeightsOf(results)
    ensures Sent(cfg, results + [ProcessedAt(cfg, h)], start, count)
    ensures HeightsOf(results + [ProcessedAt(cfg, h)]) == HeightsOf(results) + [h]
  {
    hide ProcessedAt, ValidConfig, HashAt, BodyAt, HeaderAt;
    ProcessedFields(cfg, h);
    assert HeightsOf(results + [ProcessedAt(cfg, h)]) == HeightsOf(results) + [h];
  }

  lemma {:induction false} NothingSent(cfg: Config, start: nat, count: nat, w: nat)
    requires ValidConfig(cfg)
    ensures Sent(cfg, [], start, count) && PoolInv(Pool(0, {}, HeightsOf([])), start, w)
  {
    hide ValidConfig, PoolInv;
    assert HeightsOf([]) == [];
    PoolInvStarts(start, w);
  }

  /** The first result in the queue is a height that the committer has not seen. */
  lemma {:induction false} NextResult(cfg: Config, seen: seq<Processed>, queue: seq<Processed>, start: nat, count: nat)
    requires ValidConfig(cfg) && queue != [] && Sent(cfg, seen + queue, start, count)
    ensures var p := queue[0];
            && p.height <= MAX_HEIGHT && p.height !in HeightsOf(seen) && p == ProcessedAt(cfg, p.height)
            && seen + [p] + queue[1..] == seen + queue && HeightsOf(seen + [p]) == HeightsOf(seen) + [p.height]
  {
    hide ProcessedAt, ValidConfig;
    var all := seen + queue;
    assert all[|seen|] == queue[0];
    forall i | 0 <= i < |seen|
      ensures HeightsOf(seen)[i] != queue[0].height
    {
      assert HeightsOf(all)[i] == seen[i].height && HeightsOf(all)[|seen|] == queue[0].height;
    }
    assert seen + [queue[0]] + queue[1..] == all;
  }

  /** One worker processes one message. */
  method Work(cache: HashCache, message: Response, ghost cfg: Config, ghost h: nat) returns (p: Processed)
    requires ValidConfig(cfg) && h <= MAX_HEIGHT && message == ResponseAt(cfg, h) && GoodHashes(cfg, cache.hashes)
    modifies cache
    ensures GoodHashes(cfg, cache.hashes) && p == ProcessedAt(cfg, h)
  {
    hide GoodHashes, ProcessedAt, ValidConfig, ResponseAt, BodyAt, HeaderAt, HashAt, HeaderHash, CountsMatch;
    ResponseCounts(cfg, h);
    ResponseHash(cfg, h);
    GoodHashesNext(cfg, cache.hashes, h, HashAt(cfg, h));
    SameUpdate(cache.hashes, h, HashAt(cfg, h));
    ProcessedIs(cfg, h);
    var r := ProcessStreamedBlock(message, cache);
    p := r.value;
  }

  lemma {:induction false} SameUpdate(m: map<nat, Hash>, k: nat, v: Hash)
    requires k in m ==> m[k] == v
    ensures (if k in m then m else m[k := v]) == m[k := v]
  {
  }

  lemma {:induction false} ProcessedIs(cfg: Config, h: nat)
    requires ValidConfig(cfg) && h <= MAX_HEIGHT
    ensures CountsMatch(ResponseAt(cfg, h)) && ProcessedAt(cfg, h) == ProcessedOf(ResponseAt(cfg, h))
  {
    hide ResponseAt, ProcessedOf;
    ResponseCounts(cfg, h);
  }

  lemma {:induction false} ResponseHash(cfg: Config, h: nat)
    requires ValidConfig(cfg) && h <= MAX_HEIGHT
    ensures HeaderHash(ResponseAt(cfg, h).block.header) == HashAt(cfg, h)
  {
    hide BodyAt, HeaderAt, HashAt, HeaderHash, LeavesAt, SnapshotBytes;
    StoredHash(cfg, h);
  }

  lemma {:induction false} SeenHeights(cfg: Config, seen: seq<Processed>, queue: seq<Processed>, start: nat, count: nat)
    requires ValidConfig(cfg) && Sent(cfg, seen + queue, start, count)
    ensures Distinct(HeightsOf(seen)) && HeightSet(HeightsOf(seen)) <= Span(start, count) && |seen| <= count
    ensures HeightsOf(seen + queue) == HeightsOf(seen) + HeightsOf(queue)
  {
    hide ProcessedAt, ValidConfig, Span;
    var all, hs := HeightsOf(seen + queue), HeightsOf(seen);
    assert all == hs + HeightsOf(queue);
    assert forall i :: 0 <= i < |seen| ==> hs[i] == all[i] && (seen + queue)[i].height == hs[i];
    RangeLength(hs, start, start + count);
  }

  /** Of the heights that arrived, in an order that `w` workers can produce, the first `done` are stored beside the
      blocks of `was`: whole batches, or everything. */
  ghost predicate Copied(cfg: Config, was: Db, db: Db, arrived: seq<nat>, done: nat, start: nat, count: nat, n: nat,
                         w: nat)
    requires ValidConfig(cfg) && n > 0
  {
    && Distinct(arrived) && HeightSet(arrived) <= Span(start, count) && Possible(arrived, start, w)
    && done <= |arrived| <= count
    && Holds(cfg, db) && db.blocks.Keys == was.blocks.Keys + HeightSet(arrived[..done])
    && (done == 0 ==> db == was)
    && (done > 0 ==> IsGreatest(db.finalized, LastBatch(arrived[..done], n)) && (Cut(done, n) || done == count))
  }

  lemma {:induction false} CommittingCopied(cfg: Config, was: Db, db: Db, seen: seq<Processed>, queue: seq<Processed>,
                                            start: nat, count: nat, a: nat, processed: map<nat, Processed>,
                                            heights: seq<nat>, n: nat, w: nat)
    requires ValidConfig(cfg) && n > 0 && Sent(cfg, seen + queue, start, count)
    requires Possible(HeightsOf(seen + queue), start, w)
    requires Committing(cfg, was, db, HeightsOf(seen), a, processed, heights, n)
    ensures Copied(cfg, was, db, HeightsOf(seen), a, start, count, n, w) && Cut(a, n)
  {
    hide Holds, ProcessedAt, Span, Collected, Distinct, Possible, HeightSet, Sent, IsGreatest, LastBatch;
    var hs := HeightsOf(seen);
    SeenHeights(cfg, seen, queue, start, count);
    PossiblePrefix(hs, HeightsOf(queue), start, w);
    if a > 0 {
      CutBack(a, n);
      LastBatchAfterCut(hs[..a], a - n, n);
    }
  }

  /** The receiver: workers and committer take turns in any order, and the process may stop or a commit may fail at any
      point. The workers take the messages in order, each holding one at a time. A stream that broke off leaves the last
      results without a commit. */
  method SyncWithStream(state: ChainState, cache: HashCache, stream: seq<Response>, streamOk: bool, batchSize: nat,
                        workers: nat, mayFail: bool, ghost cfg: Config, start: nat)
    returns (ok: bool, ghost arrived: seq<nat>, ghost done: nat)
    requires ValidConfig(cfg) && state.pending == null && GoodHashes(cfg, cache.hashes) && Holds(cfg, state.db)
    requires batchSize > 0 && workers > 0 && IsStream(cfg, start, stream)
    modifies state, cache
    ensures state.pending == null && GoodHashes(cfg, cache.hashes)
    ensures Copied(cfg, old(state.db), state.db, arrived, done, start, |stream|, batchSize, workers)
    ensures ok ==> streamOk && done == |arrived| == |stream|
    ensures !ok ==> Cut(done, batchSize)
    ensures streamOk && !mayFail ==> ok
  {
    hide GoodHashes, ProcessedAt, ValidConfig, ResponseAt, Holds, Collected, Committing, IsGreatest, HeightSet, Sent,
      Possible, Span, Distinct, LastBatch, Copied, PoolInv, Cut, IsStream;
    var taken: nat, held: set<nat> := 0, {};
    var queue: seq<Processed> := [];
    var processed: map<nat, Processed>, heights: seq<nat> := map[], [];
    ghost var was, seen: seq<Processed>, a: nat := state.db, [], 0;
    NothingSent(cfg, start, |stream|, workers);
    CommittingStart(cfg, was, batchSize);
    assert seen + queue == [] && HeightsOf(seen) == [];
    while taken < |stream| || held != {} || queue != []
      invariant state.pending == null && GoodHashes(cfg, cache.hashes)
      invariant taken <= |stream| && PoolInv(Pool(taken, held, HeightsOf(seen + queue)), start, workers)
      invariant Sent(cfg, seen + queue, start, |stream|)
      invariant Committing(cfg, was, state.db, HeightsOf(seen), a, processed, heights, batchSize)
      decreases 3 * (|stream| - taken) + 2 * |held| + |queue|
    {
      PoolPossible(Pool(taken, held, HeightsOf(seen + queue)), start, workers);
      CommittingCopied(cfg, was, state.db, seen, queue, start, |stream|, a, processed, heights, batchSize, workers);
      var stop: bool := *;
      if mayFail && stop {
        return false, HeightsOf(seen), a;
      }
      var taking: bool, sending: bool := *, *;
      if taken < |stream| && |held| < workers && (taking || (held == {} && queue == [])) {
        TakeKeepsInv(Pool(taken, held, HeightsOf(seen + queue)), start, |stream|, workers);
        taken, held := taken + 1, held + {start + taken};
      } else if held != {} && (sending || queue == []) {
        var h :| h in held;
        HeldMessage(cfg, stream, Pool(taken, held, HeightsOf(seen + queue)), start, workers, h);
        var message := stream[h - start];
        SendKeepsInv(Pool(taken, held, HeightsOf(seen + queue)), h, start, workers);
        SendNext(cfg, seen + queue, start, |stream|, h);
        var p := Work(cache, message, cfg, h);
        assert seen + queue + [p] == seen + (queue + [p]);
        held, queue := held - {h}, queue + [p];
      } else {
        var data := queue[0];
        NextResult(cfg, seen, queue, start, |stream|);
        var faulty: bool := *;
        var received: bool;
        ghost var b;
        received, processed, heights, b :=
          Receive(state, cache, processed, heights, data, batchSize, mayFail && faulty, cfg, was, HeightsOf(seen), a);
        if !received {
          return false, HeightsOf(seen), a;
        }
        seen, queue, a := seen + [data], queue[1..], b;
      }
    }
    assert seen + queue == seen;
    arrived := HeightsOf(seen);
    ok, done := EndOfStream(state, cache, processed, heights, streamOk, batchSize, mayFail, cfg, was, seen, a, start,
                            |stream|, workers);
  }

  /** All results are in: unless the stream broke off, what is left is committed. */
  method EndOfStream(state: ChainState, cache: HashCache, processed: map<nat, Processed>, heights: seq<nat>,
                     streamOk: bool, batchSize: nat, mayFail: bool, ghost cfg: Config, ghost was: Db,
                     ghost seen: seq<Processed>, ghost a: nat, ghost start: nat, ghost count: nat, ghost w: nat)
    returns (ok: bool, ghost done: nat)
    requires ValidConfig(cfg) && state.pending == null && GoodHashes(cfg, cache.hashes) && batchSize > 0
    requires Sent(cfg, seen, start, count) && PoolInv(Pool(count, {}, HeightsOf(seen)), start, w)
    requires Committing(cfg, was, state.db, HeightsOf(seen), a, processed, heights, batchSize)
    modifies state, cache
    ensures state.pending == null && GoodHashes(cfg, cache.hashes)
    ensures Copied(cfg, was, state.db, HeightsOf(seen), done, start, count, batchSize, w)
    ensures ok ==> streamOk && done == |seen| == count
    ensures !ok ==> Cut(done, batchSize)
    ensures streamOk && !mayFail ==> ok
  {
    hide GoodHashes, ProcessedAt, ValidConfig, Holds, Collected, Committing, IsGreatest, HeightSet, Sent, Possible,
      Span, Distinct, LastBatch, Copied, PoolInv, Cut;
    assert seen + [] == seen;
    PoolPossible(Pool(count, {}, HeightsOf(seen)), start, w);
    CommittingCopied(cfg, was, state.db, seen, [], start, count, a, processed, heights, batchSize, w);
    ok, done := false, a;
    if streamOk {
      EverythingSeen(cfg, seen, start, count, w);
      var faulty: bool := *;
      ok := CommitRest(state, cache, processed, heights, batchSize, mayFail && faulty, cfg, was, HeightsOf(seen), a);
      if ok {
        CopiedAll(cfg, was, state.db, HeightsOf(seen), start, count, batchSize, w);
        done := |seen|;
      }
    }
  }

  lemma {:induction false} PoolPossible(pool: Pool, start: nat, w: nat)
    requires PoolInv(pool, start, w)
    ensures Possible(pool.sent, start, w)
  {
  }

  /** A worker holds a message of the stream that has not been sent. */
  lemma {:induction false} HeldMessage(cfg: Config, stream: seq<Response>, pool: Pool, start: nat, w: nat, h: nat)
    requires ValidConfig(cfg) && IsStream(cfg, start, stream) && PoolInv(pool, start, w) && h in pool.held
    requires pool.taken <= |stream|
    ensures start <= h < start + |stream| && h <= MAX_HEIGHT && h !in pool.sent
            && stream[h - start] == ResponseAt(cfg, h)
  {
    hide ResponseAt, ValidConfig, Possible;
    var i := h - start;
    var message := stream[i];
    assert start + i <= MAX_HEIGHT && message == ResponseAt(cfg, start + i);
  }

  lemma {:induction false} EverythingSeen(cfg: Config, seen: seq<Processed>, start: nat, count: nat, w: nat)
    requires ValidConfig(cfg) && Sent(cfg, seen, start, count)
    requires PoolInv(Pool(count, {}, HeightsOf(seen)), start, w)
    ensures var hs := HeightsOf(seen);
            Distinct(hs) && HeightSet(hs) == Span(start, count) && |hs| == count && Possible(hs, start, w)
  {
    hide ProcessedAt, ValidConfig, Span, Possible;
    var hs := HeightsOf(seen);
    assert forall i :: 0 <= i < |seen| ==> hs[i] == seen[i].height;
    assert HeightSet(hs) == Span(start, count);
    DistinctSize(hs);
    SpanSize(start, count);
  }

  lemma {:induction false} CopiedAll(cfg: Config, was: Db, db: Db, arrived: seq<nat>, start: nat, count: nat, n: nat,
                                     w: nat)
    requires ValidConfig(cfg) && n > 0 && Holds(cfg, db) && HeightSet(arrived) == Span(start, count)
    requires Distinct(arrived) && Possible(arrived, start, w) && |arrived| == count
    requires db.blocks.Keys == was.blocks.Keys + HeightSet(arrived)
    requires if arrived == [] then db == was else IsGreatest(db.finalized, LastBatch(arrived, n))
    ensures Copied(cfg, was, db, arrived, |arrived|, start, count, n, w)
  {
    hide Holds, Span, LastBatch, Possible, Distinct, IsGreatest, HeightSet;
    assert arrived[..|arrived|] == arrived;
  }

  // ----- one remote sync -----

  /** The first height to fetch. */
  function NextHeight(finalized: nat): nat {
    if finalized > 0 then finalized + 1 else 0
  }

  /** One sync from a remote node, between any two databases that hold blocks of the chain, with or without holes and
      whatever their finalized heights. */
  method SyncChainFromGrpc(state: ChainState, cache: HashCache, remote: ChainState, remoteCache: HashCache,
                           batchSize: nat, workers: nat, mayFail: bool, cfg: Config)
    returns (ok: bool, ghost arrived: seq<nat>, ghost done: nat)
    requires ValidConfig(cfg) && state != remote && cache != remoteCache && batchSize > 0 && workers > 0
    requires state.pending == null && GoodHashes(cfg, cache.hashes) && GoodHashes(cfg, remoteCache.hashes)
    requires Holds(cfg, state.db) && Holds(cfg, remote.db)
    modifies state, cache, remoteCache
    ensures state.pending == null && GoodHashes(cfg, cache.hashes) && GoodHashes(cfg, remoteCache.hashes)
    // a node that is up to date or one block behind fetches nothing
    ensures NextHeight(old(state.db.finalized)) >= remote.db.finalized ==> ok && state.db == old(state.db)
    ensures NextHeight(old(state.db.finalized)) < remote.db.finalized ==>
              SyncResult(cfg, old(state.db), state.db, remote.db, batchSize, workers, ok, mayFail, arrived, done)
    // the range starts at the genesis block, or above the finalized height, and ends at the source's finalized height
    ensures var next := if old(state.db.finalized) == 0 then 0 else old(state.db.finalized) + 1;
            var end := remote.db.finalized;
            if next >= end then ok && state.db == old(state.db)
            else ok ==> forall h :: h in state.db.blocks <==> h in old(state.db.blocks) || next <= h <= end
  {
    hide GoodHashes, ValidConfig, Holds, IsStream, IsGreatest, Distinct, HeightSet, Span, LastBatch, Copied, SyncResult;
    var nextHeight := NextHeight(state.db.finalized);
    ghost var was := state.db;
    var info := remote.db.finalized;
    if nextHeight >= info {
      return true, [], 0;
    }
    var streamOk, stream := StreamBlocks(remote, remoteCache, cfg, nextHeight, info);
    ok, arrived, done := SyncWithStream(state, cache, stream, streamOk, batchSize, workers, mayFail, cfg, nextHeight);
    SyncResults(cfg, was, state.db, remote.db, batchSize, workers, ok, mayFail, arrived, done, |stream|);
    if ok { SyncFills(cfg, was, state.db, remote.db, batchSize, workers, mayFail, arrived, done); }
  }

  /** What a sync that had something to fetch leaves behind. */
  ghost predicate SyncResult(cfg: Config, was: Db, db: Db, remote: Db, n: nat, w: nat, ok: bool, mayFail: bool,
                             arrived: seq<nat>, done: nat)
    requires ValidConfig(cfg) && n > 0 && NextHeight(was.finalized) < remote.finalized
  {
    var next, end := NextHeight(was.finalized), remote.finalized;
    var range := Span(next, end - next + 1);
    // whatever happens, whole batches of what arrived are stored, in an order that the workers can produce
    && Copied(cfg, was, db, arrived, done, next, end - next + 1, n, w)
    && was.blocks.Keys <= db.blocks.Keys <= was.blocks.Keys + range
    && db.blocks.Keys <= was.blocks.Keys + remote.blocks.Keys
    && was.finalized <= db.finalized && (db == was || next <= db.finalized <= end)
    // without failures it completes exactly when the source has no hole in the range
    && (ok ==> range <= remote.blocks.Keys) && (!mayFail && range <= remote.blocks.Keys ==> ok)
    // when it completes, every block of the range is stored, and the last batch decides the finalized height
    && (ok ==> Fills(arrived, next, end) && done == |arrived| && db.blocks.Keys == was.blocks.Keys + range)
    && (ok ==> IsGreatest(db.finalized, LastBatch(arrived, n)))
    && (ok ==> (db.finalized == end <==> end in LastBatch(arrived, n)))
    && (ok && (end - next < n || w <= (end - next) % n + 1) ==> db.finalized == end)
    // a range that fits one batch is copied as a whole or not at all
    && (end - next < n ==> db == was || (db.blocks.Keys == was.blocks.Keys + range && db.finalized == end))
    // with one worker there are no holes
    && (db != was && w == 1 ==> forall h :: next <= h <= db.finalized ==> h in db.blocks)
    // the same blocks make the same database
    && (db.blocks.Keys == remote.blocks.Keys ==> db == remote.(finalized := db.finalized))
  }

  lemma {:induction false} SyncFills(cfg: Config, was: Db, db: Db, remote: Db, n: nat, w: nat, mayFail: bool,
                                     arrived: seq<nat>, done: nat)
    requires ValidConfig(cfg) && n > 0 && NextHeight(was.finalized) < remote.finalized
    requires SyncResult(cfg, was, db, remote, n, w, true, mayFail, arrived, done)
    ensures forall h :: h in db.blocks <==>
              h in was.blocks || NextHeight(was.finalized) <= h <= remote.finalized
  {
    hide Holds, Distinct, LastBatch, Copied, Possible, IsGreatest, Fills, Span;
    var range := Span(NextHeight(was.finalized), remote.finalized - NextHeight(was.finalized) + 1);
    assert forall h :: h in db.blocks <==> h in was.blocks.Keys + range;
  }

  lemma {:induction false} SpanMonotone(start: nat, a: nat, b: nat)
    requires a <= b
    ensures Span(start, a) <= Span(start, b)
  {
    hide Span;
  }

  lemma {:induction false} CopiedWithin(cfg: Config, was: Db, db: Db, arrived: seq<nat>, done: nat, start: nat,
                                        count: nat, n: nat, w: nat)
    requires ValidConfig(cfg) && n > 0 && Copied(cfg, was, db, arrived, done, start, count, n, w)
    ensures was.blocks.Keys <= db.blocks.Keys <= was.blocks.Keys + Span(start, count)
    ensures db == was || start <= db.finalized < start + count
    ensures w == 1 && db != was ==> forall h :: start <= h <= db.finalized ==> h in db.blocks
  {
    hide Holds, Span, LastBatch, Possible, Distinct, Cut;
    if done > 0 {
      LastBatchMembers(arrived[..done], n);
      assert db.finalized in arrived && db.finalized in HeightSet(arrived);
      if w == 1 { OneWorkerAscends(arrived, done, n, start); }
    }
  }

  /** A range that fits one batch is stored as a whole or not at all. */
  lemma {:induction false} OneBatch(cfg: Config, was: Db, db: Db, arrived: seq<nat>, done: nat, start: nat, count: nat,
                                    n: nat, w: nat)
    requires ValidConfig(cfg) && n > 0 && Copied(cfg, was, db, arrived, done, start, count, n, w) && 0 < count <= n
    ensures db == was || (db.blocks.Keys == was.blocks.Keys + Span(start, count) && db.finalized == start + count - 1)
    ensures done == count ==> db.finalized == start + count - 1
  {
    hide Holds, Span, LastBatch, Possible;
    if done > 0 {
      if Cut(done, n) { CutBack(done, n); }
      assert done == count == |arrived| && arrived[..done] == arrived;
      ShortBatch(arrived, n);
      assert forall h :: h in arrived ==> h in HeightSet(arrived);
      DistinctFills(arrived, start, count);
      FullSpanEnds(arrived, start, count, db.finalized);
    }
  }

  lemma {:induction false} CopiedHolds(cfg: Config, was: Db, db: Db, arrived: seq<nat>, done: nat, start: nat,
                                       count: nat, n: nat, w: nat)
    requires ValidConfig(cfg) && n > 0 && Copied(cfg, was, db, arrived, done, start, count, n, w)
    ensures Holds(cfg, db)
  {
    hide Holds, Span, LastBatch, Possible, Distinct, IsGreatest, HeightSet, Cut;
  }

  /** What is stored of a stream that broke off is some of the whole range. */
  lemma {:induction false} CopiedMore(cfg: Config, was: Db, db: Db, arrived: seq<nat>, done: nat, start: nat,
                                      count: nat, whole: nat, n: nat, w: nat)
    requires ValidConfig(cfg) && n > 0 && Copied(cfg, was, db, arrived, done, start, count, n, w)
    requires count <= whole && (Cut(done, n) || count == whole)
    ensures Copied(cfg, was, db, arrived, done, start, whole, n, w)
  {
    hide Holds, Span, LastBatch, Possible, Distinct, IsGreatest, HeightSet, Cut;
    SpanMonotone(start, count, whole);
  }

  lemma {:induction false} CompleteCopy(cfg: Config, was: Db, db: Db, arrived: seq<nat>, next: nat, end: nat, n: nat,
                                        w: nat)
    requires ValidConfig(cfg) && n > 0 && w > 0 && next <= end && |arrived| == end - next + 1
    requires Copied(cfg, was, db, arrived, |arrived|, next, end - next + 1, n, w)
    ensures Fills(arrived, next, end) && db.blocks.Keys == was.blocks.Keys + Span(next, end - next + 1)
    ensures IsGreatest(db.finalized, LastBatch(arrived, n)) && (db.finalized == end <==> end in LastBatch(arrived, n))
    ensures end - next < n || w <= (end - next) % n + 1 ==> db.finalized == end
  {
    hide Holds, Span, LastBatch, Possible;
    assert arrived[..|arrived|] == arrived;
    assert forall h :: h in arrived ==> h in HeightSet(arrived);
    DistinctFills(arrived, next, end - next + 1);
    assert forall h :: h in arrived <==> h in HeightSet(arrived);
    EndIsFinalized(arrived, next, end, n, db.finalized);
    AlwaysFinalized(next, end, n, w);
  }

  lemma {:induction false} SyncResults(cfg: Config, was: Db, db: Db, remote: Db, n: nat, w: nat, ok: bool,
                                       mayFail: bool, arrived: seq<nat>, done: nat, count: nat)
    requires ValidConfig(cfg) && n > 0 && w > 0 && NextHeight(was.finalized) < remote.finalized && Holds(cfg, remote)
    requires var next, end := NextHeight(was.finalized), remote.finalized;
             && count <= end - next + 1 && Copied(cfg, was, db, arrived, done, next, count, n, w)
             && (count < end - next + 1 ==> next + count !in remote.blocks && !ok)
             && Span(next, count) <= remote.blocks.Keys && (count == end - next + 1 && !mayFail ==> ok)
             && (ok ==> done == |arrived| == count) && (!ok ==> Cut(done, n))
    ensures SyncResult(cfg, was, db, remote, n, w, ok, mayFail, arrived, done)
  {
    hide Holds, Span, Distinct, LastBatch, Copied, Possible, IsGreatest, Fills;
    var next, end := NextHeight(was.finalized), remote.finalized;
    var whole := end - next + 1;
    CopiedWithin(cfg, was, db, arrived, done, next, count, n, w);
    CopiedMore(cfg, was, db, arrived, done, next, count, whole, n, w);
    CopiedWithin(cfg, was, db, arrived, done, next, whole, n, w);
    if whole <= n { OneBatch(cfg, was, db, arrived, done, next, whole, n, w); }
    assert Holds(cfg, db) by { CopiedHolds(cfg, was, db, arrived, done, next, whole, n, w); }
    if db.blocks.Keys == remote.blocks.Keys { HeldIsDetermined(cfg, db, remote); }
    if count < whole { assert next + count in Span(next, whole); }
    if ok { CompleteCopy(cfg, was, db, arrived, next, end, n, w); }
  }
}
