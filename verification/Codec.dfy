/** Blocks and their byte form. */
module Codec {
  import opened Octets
  import opened Wrappers

  type U32 = n: nat | n < TWO32

  /** Whole Unix seconds in the int64 range, and nanoseconds. */
  datatype Time = Time(seconds: int, nanos: nat)

  predicate ValidTime(t: Time) {
    -(TWO63 as int) <= t.seconds < TWO63
  }

  datatype BlobId = BlobId(height: U64, commitment: Hash)

  datatype Header = Header(
    version: U32,
    chainId: Bytes,
    height: U64,
    celestiaHeight: U64,
    time: Time,
    parentHash: Hash,
    dirsRoot: Hash,
    filesRoot: Hash,
    chunksRoot: Hash,
    stateRoot: Hash)

  datatype Body = Body(dirs: seq<BlobId>, files: seq<BlobId>, chunks: seq<BlobId>)

  datatype Block = Block(header: Header, body: Body)

  // ----- fields -----

  function Short(s: Bytes): (t: Bytes)
    ensures |t| <= 255
  {
    if |s| > 255 then s[..255] else s
  }

  /** One length byte, then at most 255 bytes of the string. */
  function ShortStringBytes(s: Bytes): Bytes {
    [Lit(|Short(s)|)] + Short(s)
  }

  /** Seconds as a two's complement 64-bit number. */
  function TimeBytes(t: Time): (s: Bytes)
    ensures |s| == 8
  {
    LE64(t.seconds % TWO64)
  }

  function SignedOf(v: U64): int {
    if v < TWO63 then v else v - TWO64
  }

  function IdBytes(id: BlobId): (s: Bytes)
    ensures |s| == 40
  {
    LE64(id.height) + id.commitment
  }

  function DecU64(s: Bytes): (v: U64)
    requires |s| == 8
  {
    DecLEBound(s);
    DecLE(s)
  }

  function DecU32(s: Bytes): (v: U32)
    requires |s| == 4
  {
    DecLEBound(s);
    DecLE(s)
  }

  lemma {:induction false} DecLEBound(s: Bytes)
    ensures DecLE(s) < Pow256(|s|)
    ensures |s| == 4 ==> DecLE(s) < TWO32
    ensures |s| == 8 ==> DecLE(s) < TWO64
  {
    Pow256Values();
    DecLESmall(s);
  }

  lemma {:induction false} DecLESmall(s: Bytes)
    ensures DecLE(s) < Pow256(|s|)
  {
    if s != [] { DecLESmall(s[1..]); }
  }

  function DecodeId(s: Bytes): BlobId
    requires |s| == 40
  {
    BlobId(DecU64(s[..8]), s[8..])
  }

  lemma {:induction false} IdRoundTrip(id: BlobId)
    ensures DecodeId(IdBytes(id)) == id
  {
    hide LE64, DecLE;
    LE64RoundTrip(id.height);
    assert IdBytes(id)[..8] == LE64(id.height) && IdBytes(id)[8..] == id.commitment;
  }

  // ----- header -----

  function HashesBytes(h: Header): (s: Bytes)
    ensures |s| == 160
  {
    Raw(h.parentHash) + (Raw(h.dirsRoot) + (Raw(h.filesRoot) + (Raw(h.chunksRoot) + Raw(h.stateRoot))))
  }

  function HeaderBytes(h: Header): Bytes {
    LE32(h.version) + (ShortStringBytes(h.chainId) +
      (LE64(h.height) + (LE64(h.celestiaHeight) + (TimeBytes(h.time) + HashesBytes(h)))))
  }

  /** What the header decoder reads; nothing where it would run past the end. */
  function DecodeHeader(s: Bytes): Option<Header> {
    if |s| < 5 then None
    else
      var n := Value(s[4]);
      if |s| < 5 + n + 24 + 160 then None
      else
        var r := s[5 + n..];
        Some(Header(DecU32(s[..4]), s[5..5 + n], DecU64(r[..8]), DecU64(r[8..16]),
                    Time(SignedOf(DecU64(r[16..24])), 0),
                    r[24..56], r[56..88], r[88..120], r[120..152], r[152..184]))
  }

  /** A header as it is read back from disk: whole seconds and at most 255 bytes of chain id. */
  function StoredHeader(h: Header): Header {
    h.(chainId := Short(h.chainId), time := Time(h.time.seconds, 0))
  }

  lemma {:induction false} TimeRoundTrip(t: Time)
    requires ValidTime(t)
    ensures SignedOf(DecU64(TimeBytes(t))) == t.seconds
  {
    hide LE64, DecLE;
    LE64RoundTrip(t.seconds % TWO64);
  }

  /** Fixed part of a header after the chain id. */
  lemma {:induction false} TailSlices(h: Header, r: Bytes)
    requires r == LE64(h.height) + (LE64(h.celestiaHeight) + (TimeBytes(h.time) + HashesBytes(h)))
    ensures |r| == 184
    ensures r[..8] == LE64(h.height) && r[8..16] == LE64(h.celestiaHeight) && r[16..24] == TimeBytes(h.time)
    ensures r[24..56] == h.parentHash && r[56..88] == h.dirsRoot && r[88..120] == h.filesRoot
    ensures r[120..152] == h.chunksRoot && r[152..184] == h.stateRoot
  {
    hide LE64, TimeBytes;
    var hs := HashesBytes(h);
    assert r[24..] == hs;
    assert hs[..32] == h.parentHash && hs[32..64] == h.dirsRoot && hs[64..96] == h.filesRoot;
    assert hs[96..128] == h.chunksRoot && hs[128..160] == h.stateRoot;
    assert r[24..56] == hs[..32] && r[56..88] == hs[32..64] && r[88..120] == hs[64..96];
    assert r[120..152] == hs[96..128] && r[152..184] == hs[128..160];
  }

  /** A header comes back with whole seconds and with the first 255 bytes of its chain id. */
  lemma {:induction false} HeaderRoundTrip(h: Header)
    requires ValidTime(h.time)
    ensures DecodeHeader(HeaderBytes(h)) == Some(StoredHeader(h))
    ensures StoredHeader(h) == h.(chainId := if |h.chainId| <= 255 then h.chainId else h.chainId[..255],
                                  time := Time(h.time.seconds, 0))
  {
    hide LE64, LE32, TimeBytes, HashesBytes, DecLE;
    var s, id := HeaderBytes(h), Short(h.chainId);
    var r := LE64(h.height) + (LE64(h.celestiaHeight) + (TimeBytes(h.time) + HashesBytes(h)));
    TailSlices(h, r);
    assert s == LE32(h.version) + ([Lit(|id|)] + id + r);
    assert s[..4] == LE32(h.version) && s[4] == Lit(|id|);
    assert s[5..5 + |id|] == id && s[5 + |id|..] == r;
    LE32RoundTrip(h.version);
    LE64RoundTrip(h.height);
    LE64RoundTrip(h.celestiaHeight);
    TimeRoundTrip(h.time);
  }

  /** Two headers with the same bytes agree up to what the byte form drops. */
  lemma {:induction false} HeaderBytesInjective(a: Header, b: Header)
    requires ValidTime(a.time) && ValidTime(b.time) && HeaderBytes(a) == HeaderBytes(b)
    ensures StoredHeader(a) == StoredHeader(b)
    ensures |a.chainId| <= 255 && |b.chainId| <= 255 ==> a.(time := b.time) == b
    ensures a.time.seconds == b.time.seconds && a.(chainId := b.chainId, time := b.time) == b
  {
    hide HeaderBytes, DecodeHeader, StoredHeader;
    HeaderRoundTrip(a);
    HeaderRoundTrip(b);
  }

  /** Headers with chain ids of at most 255 bytes and whole seconds survive, and have the same bytes only if they are
      the same; of a longer chain id exactly the first 255 bytes survive. */
  lemma {:induction false} HeaderSurvives(a: Header, b: Header)
    requires ValidTime(a.time) && ValidTime(b.time) && a.time.nanos == 0 && b.time.nanos == 0
    ensures |a.chainId| <= 255 ==> DecodeHeader(HeaderBytes(a)) == Some(a)
    ensures |a.chainId| > 255 ==> DecodeHeader(HeaderBytes(a)) == Some(a.(chainId := a.chainId[..255]))
    ensures |a.chainId| <= 255 && |b.chainId| <= 255 ==> (HeaderBytes(a) == HeaderBytes(b) <==> a == b)
    ensures |a.chainId| > 255 && |b.chainId| > 255 ==>
              (HeaderBytes(a) == HeaderBytes(b) <==>
                 a.chainId[..255] == b.chainId[..255] && a.(chainId := []) == b.(chainId := []))
  {
    hide HeaderBytes, DecodeHeader, StoredHeader, Short;
    HeaderRoundTrip(a);
    HeaderRoundTrip(b);
    StoredHeaderBytes(a);
    StoredHeaderBytes(b);
  }

  /** Where the fields of a header are: a chain id of `k` bytes shifts everything after it. */
  lemma {:induction false} HeaderLayout(h: Header)
    ensures var s, k := HeaderBytes(h), if |h.chainId| <= 255 then |h.chainId| else 255;
            && |s| == k + 189
            && s[..4] == LE32(h.version) && s[4] == Lit(k) && s[5..k + 5] == h.chainId[..k]
            && s[k + 5..k + 13] == LE64(h.height) && s[k + 13..k + 21] == LE64(h.celestiaHeight)
            && s[k + 21..k + 29] == LE64(h.time.seconds % TWO64)
            && s[k + 29..k + 61] == h.parentHash && s[k + 61..k + 93] == h.dirsRoot && s[k + 93..k + 125] == h.filesRoot
            && s[k + 125..k + 157] == h.chunksRoot && s[k + 157..k + 189] == h.stateRoot
  {
    hide LE64, LE32, HashesBytes;
    var s, id := HeaderBytes(h), Short(h.chainId);
    var k := |id|;
    var r := LE64(h.height) + (LE64(h.celestiaHeight) + (TimeBytes(h.time) + HashesBytes(h)));
    TailSlices(h, r);
    var start := LE32(h.version) + [Lit(k)] + id;
    assert s == start + r && |start| == k + 5;
    assert start[..4] == LE32(h.version) && start[4] == Lit(k) && start[5..] == id;
    Shifted(start, r);
    assert s[..4] == start[..4] && s[5..k + 5] == start[5..];
  }

  lemma {:induction false} Shifted(start: Bytes, r: Bytes)
    ensures forall i, j :: 0 <= i <= j <= |r| ==> (start + r)[|start| + i..|start| + j] == r[i..j]
  {
  }

  /** Reading a header back and writing it again changes nothing. */
  lemma {:induction false} StoredHeaderBytes(h: Header)
    ensures HeaderBytes(StoredHeader(h)) == HeaderBytes(h)
  {
    hide LE64, LE32;
    var t := StoredHeader(h);
    assert Short(t.chainId) == Short(h.chainId);
    assert TimeBytes(t.time) == TimeBytes(h.time);
    assert HashesBytes(t) == HashesBytes(h);
  }

  // ----- body -----

  function IdsBytes(ids: seq<BlobId>): (s: Bytes)
    ensures |s| == 40 * |ids|
  {
    if ids == [] then [] else IdsBytes(ids[..|ids| - 1]) + IdBytes(ids[|ids| - 1])
  }

  function BodyBytes(b: Body): Bytes {
    LE32(|b.dirs|) + (LE32(|b.files|) + (LE32(|b.chunks|) +
      (IdsBytes(b.dirs) + (IdsBytes(b.files) + IdsBytes(b.chunks)))))
  }

  function DecodeIds(s: Bytes, offset: nat, k: nat): (ids: seq<BlobId>)
    requires offset + 40 * k <= |s|
    ensures |ids| == k
    ensures forall i :: 0 <= i < k ==> ids[i] == DecodeId(s[offset + 40 * i..offset + 40 * i + 40])
  {
    seq(k, (i: nat) requires i < k => DecodeId(s[offset + 40 * i..offset + 40 * i + 40]))
  }

  function DecodeBody(s: Bytes): Option<Body> {
    if |s| < 12 then None
    else
      var dirs, files, chunks := DecU32(s[..4]), DecU32(s[4..8]), DecU32(s[8..12]);
      if |s| < 12 + 40 * dirs + 40 * files + 40 * chunks then None
      else
        Some(Body(DecodeIds(s, 12, dirs), DecodeIds(s, 12 + 40 * dirs, files),
                  DecodeIds(s, 12 + 40 * dirs + 40 * files, chunks)))
  }

  lemma {:induction false} IdsRoundTrip(pre: Bytes, ids: seq<BlobId>, post: Bytes)
    ensures DecodeIds(pre + IdsBytes(ids) + post, |pre|, |ids|) == ids
    decreases |ids|
  {
    hide IdBytes, DecodeId, IdsBytes;
    if ids != [] {
      var init, last := ids[..|ids| - 1], ids[|ids| - 1];
      var s := pre + IdsBytes(ids) + post;
      IdsRoundTrip(pre, init, IdBytes(last) + post);
      LastIdAt(pre, ids, post);
      IdRoundTrip(last);
      assert ids == init + [last];
      assert DecodeIds(s, |pre|, |ids|) == DecodeIds(s, |pre|, |init|) + [last];
    }
  }

  lemma {:induction false} LastIdAt(pre: Bytes, ids: seq<BlobId>, post: Bytes)
    requires ids != []
    ensures var init, last, s := ids[..|ids| - 1], ids[|ids| - 1], pre + IdsBytes(ids) + post;
            && s == pre + IdsBytes(init) + (IdBytes(last) + post)
            && s[|pre| + 40 * |init|..|pre| + 40 * |init| + 40] == IdBytes(last)
  {
    hide IdBytes;
  }

  /** The body survives exactly when each count fits into its 32-bit field. */
  lemma {:induction false} BodyRoundTrip(b: Body)
    ensures DecodeBody(BodyBytes(b)) == Some(b) <==> |b.dirs| < TWO32 && |b.files| < TWO32 && |b.chunks| < TWO32
  {
    hide LE32, IdsBytes, DecLE, DecodeIds;
    if |b.dirs| < TWO32 && |b.files| < TWO32 && |b.chunks| < TWO32 {
      var s := BodyBytes(b);
      var head := LE32(|b.dirs|) + LE32(|b.files|) + LE32(|b.chunks|);
      var d, f, c := IdsBytes(b.dirs), IdsBytes(b.files), IdsBytes(b.chunks);
      assert s[..4] == LE32(|b.dirs|) && s[4..8] == LE32(|b.files|) && s[8..12] == LE32(|b.chunks|);
      LE32RoundTrip(|b.dirs|);
      LE32RoundTrip(|b.files|);
      LE32RoundTrip(|b.chunks|);
      assert s == head + d + (f + c);
      IdsRoundTrip(head, b.dirs, f + c);
      assert s == (head + d) + f + c;
      IdsRoundTrip(head + d, b.files, c);
      assert s == (head + d + f) + c + [];
      IdsRoundTrip(head + d + f, b.chunks, []);
    }
  }

  lemma {:induction false} IdAt(pre: Bytes, ids: seq<BlobId>, post: Bytes, i: nat)
    requires i < |ids|
    ensures var s, at := pre + IdsBytes(ids) + post, |pre| + 40 * i;
            at + 40 <= |s| && s[at..at + 8] == LE64(ids[i].height) && s[at + 8..at + 40] == ids[i].commitment
    decreases |ids|
  {
    hide IdsBytes, LE64, IdBytes;
    var n := |ids| - 1;
    LastIdAt(pre, ids, post);
    if i == n {
      IdParts(ids[n]);
      var s, at := pre + IdsBytes(ids) + post, |pre| + 40 * n;
      assert s[at..at + 40] == IdBytes(ids[n]);
      assert s[at..at + 8] == s[at..at + 40][..8] && s[at + 8..at + 40] == s[at..at + 40][8..];
    } else {
      IdAt(pre, ids[..n], IdBytes(ids[n]) + post, i);
    }
  }

  /** An identifier is its height, then its commitment. */
  lemma {:induction false} IdParts(id: BlobId)
    ensures IdBytes(id)[..8] == LE64(id.height) && IdBytes(id)[8..] == id.commitment
  {
    hide LE64;
  }

  /** Where the parts of a body are: three counts, then the directories, the files and the chunks. */
  lemma {:induction false} BodyLayout(b: Body)
    ensures var s := BodyBytes(b);
            && |s| == 12 + 40 * (|b.dirs| + |b.files| + |b.chunks|)
            && s[..4] == LE32(|b.dirs|) && s[4..8] == LE32(|b.files|) && s[8..12] == LE32(|b.chunks|)
            && IdsFrom(s, 12, b.dirs) && IdsFrom(s, 12 + 40 * |b.dirs|, b.files)
            && IdsFrom(s, 12 + 40 * (|b.dirs| + |b.files|), b.chunks)
  {
    hide LE32, IdsBytes, IdsFrom;
    var s, head := BodyBytes(b), LE32(|b.dirs|) + LE32(|b.files|) + LE32(|b.chunks|);
    var d, f, c := IdsBytes(b.dirs), IdsBytes(b.files), IdsBytes(b.chunks);
    assert s[..4] == LE32(|b.dirs|) && s[4..8] == LE32(|b.files|) && s[8..12] == LE32(|b.chunks|);
    assert s == head + d + (f + c);
    assert s == (head + d) + f + c;
    assert s == (head + d + f) + c + [];
    IdsPlaced(head, b.dirs, f + c);
    IdsPlaced(head + d, b.files, c);
    IdsPlaced(head + d + f, b.chunks, []);
  }

  lemma {:induction false} IdsPlaced(pre: Bytes, ids: seq<BlobId>, post: Bytes)
    ensures IdsFrom(pre + IdsBytes(ids) + post, |pre|, ids)
  {
    hide IdsBytes, LE64;
    forall i | 0 <= i < |ids|
      ensures IdIsAt(pre + IdsBytes(ids) + post, |pre| + 40 * i, ids[i])
    {
      IdAt(pre, ids, post, i);
    }
  }

  predicate IdIsAt(s: Bytes, at: nat, id: BlobId) {
    at + 40 <= |s| && s[at..at + 8] == LE64(id.height) && s[at + 8..at + 40] == id.commitment
  }

  /** The identifiers follow each other in `s` from `at` on. */
  ghost predicate IdsFrom(s: Bytes, at: nat, ids: seq<BlobId>) {
    forall i :: 0 <= i < |ids| ==> IdIsAt(s, at + 40 * i, ids[i])
  }

  // ----- block -----

  function BlockBytes(b: Block): Bytes {
    LE32(|HeaderBytes(b.header)|) + (HeaderBytes(b.header) + BodyBytes(b.body))
  }

  function DecodeBlock(s: Bytes): Option<Block> {
    if |s| < 4 then None
    else
      var n := DecU32(s[..4]);
      if |s| < 4 + n then None
      else
        match (DecodeHeader(s[4..4 + n]), DecodeBody(s[4 + n..]))
        case (Some(h), Some(b)) => Some(Block(h, b))
        case _ => None
  }

  function StoredBlock(b: Block): Block {
    b.(header := StoredHeader(b.header))
  }

  /** Writing and reading back gives the block itself, up to the sub-second part of the time and the
      bytes of a chain id beyond 255, exactly when no list is too long to be counted. */
  lemma {:induction false} BlockRoundTrip(b: Block)
    requires ValidTime(b.header.time)
    ensures DecodeBlock(BlockBytes(b)) == Some(StoredBlock(b))
       <==> |b.body.dirs| < TWO32 && |b.body.files| < TWO32 && |b.body.chunks| < TWO32
    ensures StoredBlock(b) == Block(b.header.(chainId := if |b.header.chainId| <= 255 then b.header.chainId
                                                         else b.header.chainId[..255],
                                              time := Time(b.header.time.seconds, 0)), b.body)
  {
    hide LE32, HeaderBytes, BodyBytes, DecodeHeader, DecodeBody, DecLE;
    var h, body := HeaderBytes(b.header), BodyBytes(b.body);
    var s := BlockBytes(b);
    HeaderSize(b.header);
    assert s[..4] == LE32(|h|);
    LE32RoundTrip(|h|);
    assert s[4..4 + |h|] == h && s[4 + |h|..] == body;
    HeaderRoundTrip(b.header);
    BodyRoundTrip(b.body);
  }

  /** A block whose chain id has at most 255 bytes and whose time is at whole seconds survives exactly when each list
      can be counted. */
  lemma {:induction false} BlockSurvives(b: Block)
    requires ValidTime(b.header.time) && b.header.time.nanos == 0 && |b.header.chainId| <= 255
    ensures DecodeBlock(BlockBytes(b)) == Some(b)
       <==> |b.body.dirs| < TWO32 && |b.body.files| < TWO32 && |b.body.chunks| < TWO32
  {
    hide HeaderBytes, BlockBytes, DecodeBlock, DecodeHeader, StoredHeader;
    HeaderRoundTrip(b.header);
    BlockRoundTrip(b);
  }

  /** A block is the size of its header, its header and its body. */
  lemma {:induction false} BlockLayout(b: Block)
    ensures var s, n := BlockBytes(b), |HeaderBytes(b.header)|;
            |s| == 4 + n + |BodyBytes(b.body)|
            && s[..4] == LE32(n) && s[4..4 + n] == HeaderBytes(b.header) && s[4 + n..] == BodyBytes(b.body)
  {
    hide LE32, HeaderBytes, BodyBytes;
  }

  lemma {:induction false} HeaderSize(h: Header)
    ensures |HeaderBytes(h)| <= 444
  {
    hide LE64, LE32;
  }

  // ----- the loops -----

  method EncodeIds(ids: seq<BlobId>, buf: Bytes) returns (out: Bytes)
    ensures out == buf + IdsBytes(ids)
  {
    hide IdsBytes, IdBytes;
    out := buf;
    NoIds();
    assert buf + [] == buf;
    for i := 0 to |ids|
      invariant out == buf + IdsBytes(ids[..i])
    {
      IdsBytesNext(ids, i);
      out := out + IdBytes(ids[i]);
    }
    assert ids[..|ids|] == ids;
  }

  lemma {:induction false} NoIds()
    ensures IdsBytes([]) == []
  {
  }

  lemma {:induction false} IdsBytesNext(ids: seq<BlobId>, i: nat)
    requires i < |ids|
    ensures IdsBytes(ids[..i + 1]) == IdsBytes(ids[..i]) + IdBytes(ids[i])
  {
    hide IdBytes;
    assert ids[..i + 1][..i] == ids[..i];
  }

  method EncodeBlock(b: Block) returns (out: Bytes)
    ensures out == BlockBytes(b)
  {
    hide LE32, HeaderBytes, IdsBytes;
    var header := HeaderBytes(b.header);
    out := LE32(|header|);
    out := out + header;
    var body := LE32(|b.body.dirs|) + LE32(|b.body.files|) + LE32(|b.body.chunks|);
    body := EncodeIds(b.body.dirs, body);
    body := EncodeIds(b.body.files, body);
    body := EncodeIds(b.body.chunks, body);
    assert body == BodyBytes(b.body);
    out := out + body;
  }

  method ReadIds(s: Bytes, offset: nat, k: nat) returns (ids: seq<BlobId>)
    requires offset + 40 * k <= |s|
    ensures ids == DecodeIds(s, offset, k)
  {
    hide DecodeId;
    ids := [];
    for i := 0 to k
      invariant |ids| == i
      invariant forall j :: 0 <= j < i ==> ids[j] == DecodeId(s[offset + 40 * j..offset + 40 * j + 40])
    {
      ids := ids + [DecodeId(s[offset + 40 * i..offset + 40 * i + 40])];
    }
  }

  method ReadBlock(s: Bytes) returns (r: Option<Block>)
    ensures r == DecodeBlock(s)
  {
    hide DecodeHeader, DecodeIds, DecU32;
    if |s| < 4 {
      return None;
    }
    var n: nat := DecU32(s[..4]);
    if |s| < 4 + n {
      return None;
    }
    var header := DecodeHeader(s[4..4 + n]);
    var b := s[4 + n..];
    if header.None? || |b| < 12 {
      return None;
    }
    var dirsCount: nat, filesCount: nat, chunksCount: nat := DecU32(b[..4]), DecU32(b[4..8]), DecU32(b[8..12]);
    if |b| < 12 + 40 * dirsCount + 40 * filesCount + 40 * chunksCount {
      return None;
    }
    var offset := 12;
    var dirs := ReadIds(b, offset, dirsCount);
    offset := offset + 40 * dirsCount;
    var files := ReadIds(b, offset, filesCount);
    offset := offset + 40 * filesCount;
    var chunks := ReadIds(b, offset, chunksCount);
    r := Some(Block(header.value, Body(dirs, files, chunks)));
  }
}
