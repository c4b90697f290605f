/** Making a block again over content from later heights. A node whose finalized height lags behind its content, as a
    copy from another node can leave it, does so; it makes the same block exactly when no manifest comes late. */
module Resync {
  import opened Octets
  import opened Codec
  import opened Content
  import opened Chain

  /** What is stored and listed when the turn of blob `p` of block `h` comes. */
  ghost function Before(cfg: Config, h: nat, p: nat): Outcome
    requires ValidConfig(cfg) && 0 < h <= MAX_HEIGHT && p <= |BlobsAt(cfg, h)|
  {
    SyncBlobs(cfg.da, ContentAt(cfg, h - 1), h + cfg.offset, BlobsAt(cfg, h)[..p])
  }

  /** The same over the content of height `top`. */
  ghost function Again(cfg: Config, top: nat, h: nat, p: nat): Outcome
    requires ValidConfig(cfg) && 0 < h <= MAX_HEIGHT && top <= MAX_HEIGHT && p <= |BlobsAt(cfg, h)|
  {
    SyncBlobs(cfg.da, ContentAt(cfg, top), h + cfg.offset, BlobsAt(cfg, h)[..p])
  }

  /** Making block `h` again changes nothing. */
  ghost predicate Agrees(cfg: Config, top: nat, h: nat)
    requires ValidConfig(cfg) && 0 < h <= top <= MAX_HEIGHT
  {
    SyncBlobs(cfg.da, ContentAt(cfg, top), h + cfg.offset, BlobsAt(cfg, h))
      == Synced(ContentAt(cfg, top), BodyAt(cfg, h))
  }

  /** Blob `p` of block `h` is a manifest that was rejected in its place and would be accepted at height `top`. */
  ghost predicate Late(cfg: Config, top: nat, h: nat, p: nat)
    requires ValidConfig(cfg) && 0 < h <= MAX_HEIGHT && top <= MAX_HEIGHT && p < |BlobsAt(cfg, h)|
  {
    match cfg.da.open(BlobsAt(cfg, h)[p])
    case File(m) =>
      FileAccepted(ContentAt(cfg, top), m) && Before(cfg, h, p).Synced? && !FileAccepted(Before(cfg, h, p).content, m)
    case Dir(d) => DirAccepted(ContentAt(cfg, top), d) && !DirAccepted(ContentAt(cfg, h - 1), d)
    case _ => false
  }

  function Entries(b: Body): nat {
    |b.dirs| + |b.files| + |b.chunks|
  }

  // ----- one blob, over less and over more -----

  /** If the blob is accepted in both places or in neither, and all that it adds is there already, nothing changes. */
  lemma {:induction false} SameBlob(da: Celestia, less: Content, s: Outcome, c: Content, height: U64, k: Hash)
    requires s.Synced? && Closed(da, c)
    requires SyncBlob(da, less, s, height, k).Synced?
    requires var t := SyncBlob(da, less, s, height, k);
             (da.open(k).Chunk? ==> k in c.chunks)
             && (da.open(k).File? && t.body != s.body ==> BlobId(height, k) in c.files)
             && (da.open(k).Dir? && t.body != s.body ==> BlobId(height, k) in c.dirs)
    requires da.open(k).File? ==> (FileAccepted(c, da.open(k).file) <==> FileAccepted(s.content, da.open(k).file))
    requires da.open(k).Dir? ==> (DirAccepted(c, da.open(k).dir) <==> DirAccepted(less, da.open(k).dir))
    ensures SyncBlob(da, c, Synced(c, s.body), height, k) == Synced(c, SyncBlob(da, less, s, height, k).body)
  {
    hide FileAccepted, DirAccepted, HashBytes;
    var id, t := BlobId(height, k), SyncBlob(da, less, s, height, k);
    match da.open(k) {
      case Chunk(data) =>
        assert c.chunks[k] == data && c.chunkHashes[k] == HashBytes(data);
        assert c.chunks[k := data] == c.chunks && c.chunkHashes[k := HashBytes(data)] == c.chunkHashes;
      case File(m) =>
        assert t != s ==> t.body.files == s.body.files + [id];
        if id in c.files { assert c.files[id] == m && c.files[id := m] == c.files; }
      case Dir(d) =>
        assert t != s ==> t.body.dirs == s.body.dirs + [id];
        if id in c.dirs { assert c.dirs[id] == d && c.dirs[id := d] == c.dirs; }
    }
  }

  lemma {:induction false} BlobNext(da: Celestia, committed: Content, height: U64, blobs: seq<Hash>, p: nat)
    requires p < |blobs| && SyncBlobs(da, committed, height, blobs[..p]).Synced?
    ensures SyncBlobs(da, committed, height, blobs[..p + 1])
         == SyncBlob(da, committed, SyncBlobs(da, committed, height, blobs[..p]), height, blobs[p])
  {
    hide SyncBlob;
    assert blobs[..p + 1][..p] == blobs[..p];
  }

  /** A prefix of a block stores nothing that the whole block does not store. */
  lemma {:induction false} PrefixExtends(da: Celestia, committed: Content, height: U64, blobs: seq<Hash>, p: nat)
    requires Closed(da, committed) && p <= |blobs| && SyncBlobs(da, committed, height, blobs).Synced?
    ensures var s, t := SyncBlobs(da, committed, height, blobs[..p]), SyncBlobs(da, committed, height, blobs);
            s.Synced? && Closed(da, s.content) && Extends(committed, s.content) && Extends(s.content, t.content)
    decreases |blobs|
  {
    hide Closed, Extends, SyncBlob, Listed;
    var t := SyncBlobs(da, committed, height, blobs);
    if p == |blobs| {
      assert blobs[..p] == blobs;
      SyncKeepsClosed(da, committed, height, blobs);
      ExtendsSelf(t.content);
    } else {
      var init, k := blobs[..|blobs| - 1], blobs[|blobs| - 1];
      assert init[..p] == blobs[..p];
      PrefixExtends(da, committed, height, init, p);
      SyncKeepsClosed(da, committed, height, init);
      var u := SyncBlobs(da, committed, height, init);
      BlobKeepsClosed(da, committed, u, height, k);
      ExtendsTransitive(SyncBlobs(da, committed, height, blobs[..p]).content, u.content, t.content);
    }
  }

  /** Where block `h` got through, its prefixes are closed and lie between the contents before and after. */
  lemma {:induction false} BeforeIsClosed(cfg: Config, h: nat, p: nat, top: nat)
    requires ValidConfig(cfg) && 0 < h <= top <= MAX_HEIGHT && p <= |BlobsAt(cfg, h)| && SyncAt(cfg, h).Synced?
    ensures var s := Before(cfg, h, p);
            && s.Synced? && Closed(cfg.da, s.content)
            && Extends(ContentAt(cfg, h - 1), s.content) && Extends(s.content, ContentAt(cfg, top))
  {
    hide SyncBlobs, SyncAt, ContentAt, BodyAt, Closed, Extends, Listed;
    ContentStep(cfg, h);
    ContentIsClosed(cfg, h - 1);
    PrefixExtends(cfg.da, ContentAt(cfg, h - 1), h + cfg.offset, BlobsAt(cfg, h), p);
    ContentGrows(cfg, h, top);
    ExtendsTransitive(Before(cfg, h, p).content, ContentAt(cfg, h), ContentAt(cfg, top));
  }

  lemma {:induction false} BeforeNext(cfg: Config, h: nat, p: nat)
    requires ValidConfig(cfg) && 0 < h <= MAX_HEIGHT && p < |BlobsAt(cfg, h)| && Before(cfg, h, p).Synced?
    ensures Before(cfg, h, p + 1)
         == SyncBlob(cfg.da, ContentAt(cfg, h - 1), Before(cfg, h, p), h + cfg.offset, BlobsAt(cfg, h)[p])
  {
    hide SyncBlobs, SyncBlob, ContentAt;
    BlobNext(cfg.da, ContentAt(cfg, h - 1), h + cfg.offset, BlobsAt(cfg, h), p);
  }

  lemma {:induction false} AgainNext(cfg: Config, top: nat, h: nat, p: nat)
    requires ValidConfig(cfg) && 0 < h <= MAX_HEIGHT && top <= MAX_HEIGHT && p < |BlobsAt(cfg, h)|
    requires Again(cfg, top, h, p).Synced?
    ensures Again(cfg, top, h, p + 1)
         == SyncBlob(cfg.da, ContentAt(cfg, top), Again(cfg, top, h, p), h + cfg.offset, BlobsAt(cfg, h)[p])
  {
    hide SyncBlobs, SyncBlob, ContentAt;
    BlobNext(cfg.da, ContentAt(cfg, top), h + cfg.offset, BlobsAt(cfg, h), p);
  }

  /** What one blob of the block stores is in the later content. */
  lemma {:induction false} StoredIsThere(da: Celestia, less: Content, s: Outcome, height: U64, k: Hash, c: Content)
    requires s.Synced? && SyncBlob(da, less, s, height, k).Synced?
             && Extends(SyncBlob(da, less, s, height, k).content, c)
    ensures var t := SyncBlob(da, less, s, height, k);
            (da.open(k).Chunk? ==> k in c.chunks)
            && (da.open(k).File? && t.body != s.body ==> BlobId(height, k) in c.files)
            && (da.open(k).Dir? && t.body != s.body ==> BlobId(height, k) in c.dirs)
  {
    hide FileAccepted, DirAccepted, HashBytes;
  }

  lemma {:induction false} AgainSame(cfg: Config, top: nat, h: nat, p: nat)
    requires ValidConfig(cfg) && 0 < h <= top <= MAX_HEIGHT && SyncAt(cfg, h).Synced? && p <= |BlobsAt(cfg, h)|
    requires forall q :: 0 <= q < p ==> !Late(cfg, top, h, q)
    ensures Before(cfg, h, p).Synced? && Again(cfg, top, h, p) == Synced(ContentAt(cfg, top), Before(cfg, h, p).body)
    decreases p
  {
    hide SyncBlobs, SyncBlob, SyncAt, ContentAt, Closed, Extends, FileAccepted, DirAccepted, BlobsAt, Before, Again;
    BeforeIsClosed(cfg, h, p, top);
    if p == 0 {
      NothingYet(cfg, top, h);
    } else {
      AgainSame(cfg, top, h, p - 1);
      BeforeIsClosed(cfg, h, p - 1, top);
      BeforeNext(cfg, h, p - 1);
      AgainNext(cfg, top, h, p - 1);
      var less, c, s, k := ContentAt(cfg, h - 1), ContentAt(cfg, top), Before(cfg, h, p - 1), BlobsAt(cfg, h)[p - 1];
      ContentIsClosed(cfg, top);
      StoredIsThere(cfg.da, less, s, h + cfg.offset, k, c);
      AcceptedExtends(s.content, c);
      ExtendsTransitive(less, s.content, c);
      AcceptedExtends(less, c);
      assert !Late(cfg, top, h, p - 1);
      SameBlob(cfg.da, less, s, c, h + cfg.offset, k);
    }
  }

  lemma {:induction false} NothingYet(cfg: Config, top: nat, h: nat)
    requires ValidConfig(cfg) && 0 < h <= MAX_HEIGHT && top <= MAX_HEIGHT
    ensures Before(cfg, h, 0) == Synced(ContentAt(cfg, h - 1), NO_BODY)
    ensures Again(cfg, top, h, 0) == Synced(ContentAt(cfg, top), NO_BODY)
  {
    hide ContentAt;
  }

  /** Over more content a blob adds at least as many entries, and one more if it is accepted only there. */
  lemma {:induction false} MoreEntries(da: Celestia, less: Content, s: Outcome, more: Content, t: Outcome, height: U64,
                                       k: Hash)
    requires s.Synced? && t.Synced? && Extends(s.content, t.content) && Extends(less, more) && !da.open(k).Garbage?
    ensures var n, m := Entries(SyncBlob(da, less, s, height, k).body) - Entries(s.body),
                        Entries(SyncBlob(da, more, t, height, k).body) - Entries(t.body);
            && n <= m
            && (da.open(k).File? ==>
                  FileAccepted(s.content, da.open(k).file) || (FileAccepted(t.content, da.open(k).file) ==> n < m))
            && (da.open(k).Dir? ==> DirAccepted(less, da.open(k).dir) || (DirAccepted(more, da.open(k).dir) ==> n < m))
  {
    hide FileAccepted, DirAccepted, HashBytes, Extends;
    AcceptedExtends(s.content, t.content);
    AcceptedExtends(less, more);
  }

  lemma {:induction false} LateAddsEntries(cfg: Config, top: nat, h: nat, p: nat, q: nat)
    requires ValidConfig(cfg) && 0 < h <= top <= MAX_HEIGHT && SyncAt(cfg, h).Synced? && p <= |BlobsAt(cfg, h)|
    ensures Before(cfg, h, p).Synced? && Again(cfg, top, h, p).Synced?
    ensures Entries(Before(cfg, h, p).body) <= Entries(Again(cfg, top, h, p).body)
    ensures q < p && Late(cfg, top, h, q) ==> Entries(Before(cfg, h, p).body) < Entries(Again(cfg, top, h, p).body)
    decreases p
  {
    hide SyncBlobs, SyncBlob, SyncAt, ContentAt, Closed, Extends, FileAccepted, DirAccepted, BlobsAt, Before, Again,
      Entries;
    BeforeIsClosed(cfg, h, p, top);
    if p == 0 {
      NothingYet(cfg, top, h);
    } else {
      LateAddsEntries(cfg, top, h, p - 1, q);
      BeforeNext(cfg, h, p - 1);
      AgainNext(cfg, top, h, p - 1);
      AgainExtends(cfg, top, h, p - 1);
      BeforeIsClosed(cfg, h, p - 1, top);
      var less, more, k := ContentAt(cfg, h - 1), ContentAt(cfg, top), BlobsAt(cfg, h)[p - 1];
      var s, t := Before(cfg, h, p - 1), Again(cfg, top, h, p - 1);
      ExtendsTransitive(less, s.content, more);
      ExtendsTransitive(s.content, more, t.content);
      AcceptedExtends(more, t.content);
      GarbageStops(cfg.da, less, s, h + cfg.offset, k);
      GarbageStops(cfg.da, more, t, h + cfg.offset, k);
      MoreEntries(cfg.da, less, s, more, t, h + cfg.offset, k);
    }
  }

  lemma {:induction false} GarbageStops(da: Celestia, committed: Content, s: Outcome, height: U64, k: Hash)
    requires s.Synced?
    ensures SyncBlob(da, committed, s, height, k).Synced? <==> !da.open(k).Garbage?
  {
    hide FileAccepted, DirAccepted;
  }

  lemma {:induction false} AgainExtends(cfg: Config, top: nat, h: nat, p: nat)
    requires ValidConfig(cfg) && 0 < h <= MAX_HEIGHT && top <= MAX_HEIGHT && p <= |BlobsAt(cfg, h)|
    requires Again(cfg, top, h, p).Synced?
    ensures Extends(ContentAt(cfg, top), Again(cfg, top, h, p).content)
  {
    hide SyncBlobs, ContentAt, Closed, Extends, Listed;
    ContentIsClosed(cfg, top);
    SyncKeepsClosed(cfg.da, ContentAt(cfg, top), h + cfg.offset, BlobsAt(cfg, h)[..p]);
  }

  /** A block is made again as it was exactly when none of its manifests was rejected in its place and would be
      accepted at the later height. */
  lemma {:induction false} ResyncExactly(cfg: Config, top: nat, h: nat)
    requires ValidConfig(cfg) && 0 < h <= top <= MAX_HEIGHT && SyncAt(cfg, h).Synced?
    ensures Agrees(cfg, top, h) <==> forall p :: 0 <= p < |BlobsAt(cfg, h)| ==> !Late(cfg, top, h, p)
  {
    hide SyncBlobs, SyncAt, ContentAt, BlobsAt, Entries, Late;
    var n := |BlobsAt(cfg, h)|;
    WholeBlock(cfg, top, h);
    if forall p :: 0 <= p < n ==> !Late(cfg, top, h, p) {
      AgainSame(cfg, top, h, n);
    }
    if Agrees(cfg, top, h) {
      forall p | 0 <= p < n
        ensures !Late(cfg, top, h, p)
      {
        LateAddsEntries(cfg, top, h, n, p);
      }
    }
  }

  lemma {:induction false} WholeBlock(cfg: Config, top: nat, h: nat)
    requires ValidConfig(cfg) && 0 < h <= top <= MAX_HEIGHT && SyncAt(cfg, h).Synced?
    ensures var n := |BlobsAt(cfg, h)|;
            && Before(cfg, h, n) == SyncAt(cfg, h) && BodyAt(cfg, h) == SyncAt(cfg, h).body
            && Again(cfg, top, h, n) == SyncBlobs(cfg.da, ContentAt(cfg, top), h + cfg.offset, BlobsAt(cfg, h))
  {
    hide SyncBlobs, ContentAt;
    ContentStep(cfg, h);
    assert BlobsAt(cfg, h)[..|BlobsAt(cfg, h)|] == BlobsAt(cfg, h);
  }

  // ----- a late manifest changes the block -----

  lemma {:induction false} SameChunks(da: Celestia, a: Content, b: Content, height: U64, blobs: seq<Hash>)
    requires SyncBlobs(da, a, height, blobs).Synced? && SyncBlobs(da, b, height, blobs).Synced?
    ensures SyncBlobs(da, a, height, blobs).body.chunks == SyncBlobs(da, b, height, blobs).body.chunks
  {
    hide FileAccepted, DirAccepted, HashBytes;
    if blobs != [] { SameChunks(da, a, b, height, blobs[..|blobs| - 1]); }
  }

  /** With a late manifest the block that is made again lists other files or directories, so it has another root and
      another hash. */
  lemma {:induction false} LateChangesTheBlock(cfg: Config, top: nat, h: nat, p: nat)
    requires ValidConfig(cfg) && 0 < h <= top <= MAX_HEIGHT && SyncAt(cfg, h).Synced?
    requires p < |BlobsAt(cfg, h)| && Late(cfg, top, h, p)
    ensures var s := SyncBlobs(cfg.da, ContentAt(cfg, top), h + cfg.offset, BlobsAt(cfg, h));
            s.Synced? && (IdsRoot(s.body.files) != HeaderAt(cfg, h).filesRoot
                            || IdsRoot(s.body.dirs) != HeaderAt(cfg, h).dirsRoot)
  {
    hide SyncBlobs, SyncAt, ContentAt, Late, IdsRoot, HeaderAt, Closed, Extends, Listed;
    var n, s := |BlobsAt(cfg, h)|, SyncBlobs(cfg.da, ContentAt(cfg, top), h + cfg.offset, BlobsAt(cfg, h));
    WholeBlock(cfg, top, h);
    LateAddsEntries(cfg, top, h, n, p);
    ContentStep(cfg, h);
    SameChunks(cfg.da, ContentAt(cfg, h - 1), ContentAt(cfg, top), h + cfg.offset, BlobsAt(cfg, h));
    HeaderAtFields(cfg, h);
    BodyFits(cfg, h);
    ContentIsClosed(cfg, top);
    SyncKeepsClosed(cfg.da, ContentAt(cfg, top), h + cfg.offset, BlobsAt(cfg, h));
    FewBlobs(cfg, h);
    var b := BodyAt(cfg, h);
    if IdsRoot(s.body.files) == IdsRoot(b.files) { IdsRootBinding(s.body.files, b.files); }
    if IdsRoot(s.body.dirs) == IdsRoot(b.dirs) { IdsRootBinding(s.body.dirs, b.dirs); }
  }

  lemma {:induction false} FewBlobs(cfg: Config, h: nat)
    requires ValidConfig(cfg)
    ensures |BlobsAt(cfg, h)| < TWO32
  {
  }

  // ----- the same block over any two contents -----

  /** Every stored blob is what its commitment opens to; references need not be satisfied. */
  ghost predicate GenuineContent(da: Celestia, c: Content) {
    && ChunksClosed(da, c)
    && (forall id :: id in c.files ==> da.open(id.commitment) == File(c.files[id]))
    && (forall id :: id in c.dirs ==> da.open(id.commitment) == Dir(c.dirs[id]))
  }

  lemma {:induction false} BlobStaysGenuine(da: Celestia, committed: Content, s: Outcome, height: U64, k: Hash)
    requires s.Synced? && GenuineContent(da, s.content)
    ensures var t := SyncBlob(da, committed, s, height, k);
            t.Synced? ==> GenuineContent(da, t.content) && Extends(s.content, t.content)
  {
    hide FileAccepted, DirAccepted, HashBytes, ChunksClosed;
    match da.open(k) {
      case Chunk(data) => ChunkStaysClosed(da, s.content, k, data);
      case File(m) => ChunksStayClosed(da, s.content, SyncBlob(da, committed, s, height, k).content);
      case Dir(d) => ChunksStayClosed(da, s.content, SyncBlob(da, committed, s, height, k).content);
      case Garbage =>
    }
  }

  lemma {:induction false} SyncStaysGenuine(da: Celestia, c: Content, height: U64, blobs: seq<Hash>)
    requires GenuineContent(da, c)
    ensures SyncBlobs(da, c, height, blobs).Synced? ==> GenuineContent(da, SyncBlobs(da, c, height, blobs).content)
  {
    hide GenuineContent, SyncBlob, Extends;
    if blobs != [] {
      var init := blobs[..|blobs| - 1];
      SyncStaysGenuine(da, c, height, init);
      var s := SyncBlobs(da, c, height, init);
      if s.Synced? { BlobStaysGenuine(da, c, s, height, blobs[|blobs| - 1]); }
    }
  }

  /** The files that a block lists are accepted over what it has stored, its directories over what was there before. */
  ghost predicate ListedAccepted(da: Celestia, committed: Content, s: Outcome)
    requires s.Synced?
  {
    && (forall id :: id in s.body.files ==>
          da.open(id.commitment).File? && FileAccepted(s.content, da.open(id.commitment).file))
    && (forall id :: id in s.body.dirs ==>
          da.open(id.commitment).Dir? && DirAccepted(committed, da.open(id.commitment).dir))
  }

  lemma {:induction false} BlobListsAccepted(da: Celestia, committed: Content, s: Outcome, height: U64, k: Hash)
    requires s.Synced? && ListedAccepted(da, committed, s) && SyncBlob(da, committed, s, height, k).Synced?
    requires Extends(s.content, SyncBlob(da, committed, s, height, k).content)
    ensures ListedAccepted(da, committed, SyncBlob(da, committed, s, height, k))
  {
    hide FileAccepted, DirAccepted, HashBytes, Extends, PutChunk;
    AcceptedExtends(s.content, SyncBlob(da, committed, s, height, k).content);
  }

  lemma {:induction false} SyncListsAccepted(da: Celestia, c: Content, height: U64, blobs: seq<Hash>)
    requires GenuineContent(da, c) && SyncBlobs(da, c, height, blobs).Synced?
    ensures ListedAccepted(da, c, SyncBlobs(da, c, height, blobs))
  {
    hide GenuineContent, SyncBlob, Extends, FileAccepted, DirAccepted;
    if blobs != [] {
      var init := blobs[..|blobs| - 1];
      SyncStaysGenuine(da, c, height, init);
      SyncListsAccepted(da, c, height, init);
      BlobStaysGenuine(da, c, SyncBlobs(da, c, height, init), height, blobs[|blobs| - 1]);
      BlobListsAccepted(da, c, SyncBlobs(da, c, height, init), height, blobs[|blobs| - 1]);
    }
  }

  /** The blob is accepted over this content, if it is one that can be rejected. */
  ghost predicate AcceptedOver(da: Celestia, committed: Content, s: Outcome, k: Hash) {
    match da.open(k)
    case File(m) => s.Synced? && FileAccepted(s.content, m)
    case Dir(d) => DirAccepted(committed, d)
    case _ => true
  }

  /** Blob `p` of a block is accepted in its place, when the block is made over `c`. */
  ghost predicate AcceptedAt(da: Celestia, c: Content, height: U64, blobs: seq<Hash>, p: nat)
    requires p < |blobs|
  {
    AcceptedOver(da, c, SyncBlobs(da, c, height, blobs[..p]), blobs[p])
  }

  /** Every blob of the block is accepted over both contents or over neither. */
  ghost predicate SameVerdicts(da: Celestia, a: Content, b: Content, height: U64, blobs: seq<Hash>) {
    forall p :: 0 <= p < |blobs| ==> (AcceptedAt(da, a, height, blobs, p) <==> AcceptedAt(da, b, height, blobs, p))
  }

  /** Equal lists after one more blob mean equal lists before it, and the same verdict. */
  lemma {:induction false} SameLastBlob(da: Celestia, a: Content, s: Outcome, b: Content, t: Outcome, height: U64,
                                        k: Hash)
    requires s.Synced? && t.Synced? && !da.open(k).Garbage? && ListedAccepted(da, a, s) && ListedAccepted(da, b, t)
    ensures SyncBlob(da, a, s, height, k).body == SyncBlob(da, b, t, height, k).body
       <==> s.body == t.body && (AcceptedOver(da, a, s, k) <==> AcceptedOver(da, b, t, k))
  {
    hide FileAccepted, DirAccepted, HashBytes, PutChunk;
    var id, x, y := BlobId(height, k), SyncBlob(da, a, s, height, k).body, SyncBlob(da, b, t, height, k).body;
    AppendedLists(s.body.files, t.body.files, id);
    AppendedLists(s.body.dirs, t.body.dirs, id);
    AppendedLists(s.body.chunks, t.body.chunks, id);
    assert da.open(id.commitment) == da.open(k);
  }

  lemma {:induction false} AppendedLists<T>(a: seq<T>, b: seq<T>, x: T)
    ensures a + [x] == b + [x] <==> a == b
    ensures a + [x] == b ==> x in b
    ensures a == b + [x] ==> x in a
  {
    if a + [x] == b + [x] {
      assert a == (a + [x])[..|a|] == b;
    }
    assert (a + [x])[|a|] == x && (b + [x])[|b|] == x;
  }

  /** Over two contents a block lists the same blobs exactly when every blob is accepted over both or over neither. */
  lemma {:induction false} SameBodyExactly(da: Celestia, a: Content, b: Content, height: U64, blobs: seq<Hash>)
    requires GenuineContent(da, a) && GenuineContent(da, b)
    requires SyncBlobs(da, a, height, blobs).Synced? && SyncBlobs(da, b, height, blobs).Synced?
    ensures SyncBlobs(da, a, height, blobs).body == SyncBlobs(da, b, height, blobs).body
       <==> SameVerdicts(da, a, b, height, blobs)
    decreases |blobs|
  {
    hide GenuineContent, SyncBlob, SyncBlobs, ListedAccepted, AcceptedOver, SameVerdicts;
    if blobs == [] {
      NoBlobsYet(da, a, height);
      NoBlobsYet(da, b, height);
      NoVerdicts(da, a, b, height);
    } else {
      var n := |blobs| - 1;
      var init, k := blobs[..n], blobs[n];
      LastBlob(da, a, height, blobs);
      LastBlob(da, b, height, blobs);
      SyncListsAccepted(da, a, height, init);
      SyncListsAccepted(da, b, height, init);
      GarbageStops(da, a, SyncBlobs(da, a, height, init), height, k);
      SameLastBlob(da, a, SyncBlobs(da, a, height, init), b, SyncBlobs(da, b, height, init), height, k);
      SameBodyExactly(da, a, b, height, init);
      MoreVerdicts(da, a, b, height, blobs);
    }
  }

  lemma {:induction false} NoVerdicts(da: Celestia, a: Content, b: Content, height: U64)
    ensures SameVerdicts(da, a, b, height, [])
  {
  }

  lemma {:induction false} MoreVerdicts(da: Celestia, a: Content, b: Content, height: U64, blobs: seq<Hash>)
    requires blobs != []
    ensures var init, k := blobs[..|blobs| - 1], blobs[|blobs| - 1];
            SameVerdicts(da, a, b, height, blobs) <==>
              && SameVerdicts(da, a, b, height, init)
              && (AcceptedOver(da, a, SyncBlobs(da, a, height, init), k) <==>
                    AcceptedOver(da, b, SyncBlobs(da, b, height, init), k))
  {
    hide SyncBlobs, AcceptedOver;
    var n := |blobs| - 1;
    var init := blobs[..n];
    assert AcceptedAt(da, a, height, blobs, n) == AcceptedOver(da, a, SyncBlobs(da, a, height, init), blobs[n]);
    assert AcceptedAt(da, b, height, blobs, n) == AcceptedOver(da, b, SyncBlobs(da, b, height, init), blobs[n]);
    forall p | 0 <= p < n
      ensures AcceptedAt(da, a, height, init, p) == AcceptedAt(da, a, height, blobs, p)
      ensures AcceptedAt(da, b, height, init, p) == AcceptedAt(da, b, height, blobs, p)
    {
      assert init[..p] == blobs[..p];
    }
  }

  lemma {:induction false} NoBlobsYet(da: Celestia, c: Content, height: U64)
    ensures SyncBlobs(da, c, height, []) == Synced(c, NO_BODY)
  {
  }

  lemma {:induction false} LastBlob(da: Celestia, c: Content, height: U64, blobs: seq<Hash>)
    requires blobs != [] && SyncBlobs(da, c, height, blobs).Synced?
    ensures var init := blobs[..|blobs| - 1];
            && SyncBlobs(da, c, height, init).Synced?
            && SyncBlobs(da, c, height, blobs)
              == SyncBlob(da, c, SyncBlobs(da, c, height, init), height, blobs[|blobs| - 1])
  {
    hide SyncBlob;
  }

  /** Garbage is garbage over every content. */
  lemma {:induction false} SyncedOverAny(da: Celestia, a: Content, b: Content, height: U64, blobs: seq<Hash>)
    ensures SyncBlobs(da, a, height, blobs).Synced? <==> SyncBlobs(da, b, height, blobs).Synced?
  {
    hide FileAccepted, DirAccepted, HashBytes;
    if blobs != [] { SyncedOverAny(da, a, b, height, blobs[..|blobs| - 1]); }
  }

  // ----- an example -----

  const FIRST: Bytes := [Lit(1)]
  const SECOND: Bytes := [Lit(2)]
  const MANIFEST: Bytes := [Lit(3)]

  /** The manifest of a file that consists of the second chunk, which comes one block later. */
  function EarlyManifest(): FileManifest {
    FileManifest([], 1, HashBytes(SECOND), [ChunkRef(BlobId(2, HashBytes(SECOND)), HashBytes(SECOND))])
  }

  /** Block 1 has a chunk and the manifest, block 2 the chunk that the manifest names. */
  function LateConfig(): Config {
    Config([], 0, Celestia(
      (h: nat) => DaBlock(Time(0, 0), if h == 1 then [HashBytes(FIRST), HashBytes(MANIFEST)]
                                      else if h == 2 then [HashBytes(SECOND)] else []),
      (k: Hash) => if k == HashBytes(MANIFEST) then File(EarlyManifest())
                   else if k == HashBytes(SECOND) then Chunk(SECOND) else Chunk(FIRST)))
  }

  lemma {:induction false} LateConfigOpens()
    ensures var da := LateConfig().da;
            && HashBytes(FIRST) != HashBytes(SECOND) && ValidConfig(LateConfig())
            && da.open(HashBytes(FIRST)) == Chunk(FIRST) && da.open(HashBytes(SECOND)) == Chunk(SECOND)
            && da.open(HashBytes(MANIFEST)) == File(EarlyManifest())
            && BlobsAt(LateConfig(), 1) == [HashBytes(FIRST), HashBytes(MANIFEST)]
            && BlobsAt(LateConfig(), 2) == [HashBytes(SECOND)]
  {
    hide HashBytes;
    if HashBytes(FIRST) == HashBytes(SECOND) { HashInjective(FIRST, SECOND); }
    if HashBytes(FIRST) == HashBytes(MANIFEST) { HashInjective(FIRST, MANIFEST); }
    if HashBytes(SECOND) == HashBytes(MANIFEST) { HashInjective(SECOND, MANIFEST); }
  }

  lemma {:induction false} OneBlob(da: Celestia, c: Content, height: U64, k: Hash)
    ensures SyncBlobs(da, c, height, [k]) == SyncBlob(da, c, Synced(c, NO_BODY), height, k)
  {
    hide SyncBlob;
    assert [k][..0] == [];
  }

  lemma {:induction false} TwoBlobs(da: Celestia, c: Content, height: U64, k: Hash, j: Hash)
    requires SyncBlobs(da, c, height, [k]).Synced?
    ensures SyncBlobs(da, c, height, [k, j]) == SyncBlob(da, c, SyncBlobs(da, c, height, [k]), height, j)
  {
    hide SyncBlob;
    assert [k, j][..1] == [k];
  }

  /** The content after block 1: the manifest is rejected, its chunk is not there yet. */
  lemma {:induction false} FirstBlock()
    ensures ValidConfig(LateConfig())
    ensures var cfg, k := LateConfig(), HashBytes(FIRST);
            && BlobsAt(cfg, 1) == [k, HashBytes(MANIFEST)]
            && Before(cfg, 1, 1) == Synced(PutChunk(NO_CONTENT, k, FIRST), NO_BODY.(chunks := [BlobId(1, k)]))
            && SyncAt(cfg, 1) == Before(cfg, 1, 1)
            && !FileAccepted(PutChunk(NO_CONTENT, k, FIRST), EarlyManifest())
  {
    hide SyncBlobs, HashBytes, LateConfig;
    var cfg, k, j := LateConfig(), HashBytes(FIRST), HashBytes(MANIFEST);
    LateConfigOpens();
    LateOffset();
    NothingAtGenesis(cfg);
    OneBlob(cfg.da, NO_CONTENT, 1, k);
    TwoBlobs(cfg.da, NO_CONTENT, 1, k, j);
    assert BlobsAt(cfg, 1)[..1] == [k];
    var c := PutChunk(NO_CONTENT, k, FIRST);
    assert !ChunkMatches(c, EarlyManifest().chunks[0]);
  }

  lemma {:induction false} LateOffset()
    ensures LateConfig().offset == 0
  {
  }

  /** After block 2 it would be accepted. */
  lemma {:induction false} SecondBlock()
    ensures ValidConfig(LateConfig()) && SyncAt(LateConfig(), 2).Synced?
    ensures FileAccepted(ContentAt(LateConfig(), 2), EarlyManifest())
  {
    hide SyncBlobs, HashBytes, LateConfig, SyncAt;
    var cfg, k := LateConfig(), HashBytes(SECOND);
    LateConfigOpens();
    LateOffset();
    FirstBlock();
    ContentStep(cfg, 1);
    ContentStep(cfg, 2);
    OneBlob(cfg.da, ContentAt(cfg, 1), 2, k);
    SecondAccepted(ContentAt(cfg, 1));
  }

  lemma {:induction false} SecondAccepted(c: Content)
    ensures FileAccepted(PutChunk(c, HashBytes(SECOND), SECOND), EarlyManifest())
  {
    hide HashBytes;
    var d, refs := PutChunk(c, HashBytes(SECOND), SECOND), EarlyManifest().chunks;
    assert refs[..0] == [] && ChunkMatches(d, refs[0]);
    assert FileData(d, []) == [] && [] + SECOND == SECOND;
    assert FileData(d, refs) == SECOND && |SECOND| == 1;
  }

  lemma {:induction false} QuietBlock(h: nat)
    requires 2 < h <= MAX_HEIGHT
    ensures ValidConfig(LateConfig()) && SyncAt(LateConfig(), h).Synced?
  {
    hide HashBytes, ContentAt, SyncAt;
    LateConfigOpens();
    ContentStep(LateConfig(), h);
    assert BlobsAt(LateConfig(), h) == [];
  }

  /** A chain in which a manifest comes one block before its chunk: at every later height, however far up the finalized
      height lags, block 1 would be made differently. */
  lemma {:induction false} LateManifestExists(top: nat)
    requires 2 <= top <= MAX_HEIGHT
    ensures ValidConfig(LateConfig()) && Reachable(LateConfig(), top)
    ensures |BlobsAt(LateConfig(), 1)| == 2 && Late(LateConfig(), top, 1, 1) && !Agrees(LateConfig(), top, 1)
  {
    hide SyncBlobs, HashBytes, LateConfig, ContentAt, SyncAt, Before, FileAccepted, BlobsAt, Agrees, Extends;
    var cfg := LateConfig();
    LateConfigOpens();
    FirstBlock();
    SecondBlock();
    ContentStep(cfg, 1);
    ContentGrows(cfg, 2, top);
    AcceptedExtends(ContentAt(cfg, 2), ContentAt(cfg, top));
    forall h | 0 < h <= top
      ensures SyncAt(cfg, h).Synced?
    {
      if h > 2 { QuietBlock(h); }
    }
    ResyncExactly(cfg, top, 1);
  }
}
