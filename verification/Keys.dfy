/** The byte keys of the flat store: one ordered map from byte strings to values holds all families of
    records, and it behaves like a separate map for each. */
module Keys {
  import opened Octets
  import opened Codec
  import opened Content
  import opened Chain
  import opened Store
  import opened Wrappers

  // ----- keys -----

  datatype Key =
    | BlockKey(height: U64)
    | BlockHashKey(hash: Hash)
    | MmrKey(mmrHeight: U64)
    | ChunkKey(chunk: Hash)
    | ChunkHashKey(chunkOf: Hash)
    | FileKey(file: BlobId)
    | DirKey(dir: BlobId)
    | ChainIdKey
    | FinalizedKey
    | OffsetKey

  function Char(c: char): Octet {
    if c < 256 as char then Lit(c as nat) else Lit(63)
  }

  function Text(s: string): (b: Bytes)
    ensures |b| == |s| && forall i :: 0 <= i < |s| ==> b[i] == Char(s[i])
  {
    seq(|s|, (i: nat) requires i < |s| => Char(s[i]))
  }

  function PrefixKey(prefix: string, key: Bytes): (b: Bytes)
    ensures |b| == |prefix| + |key|
    ensures forall i :: 0 <= i < |prefix| ==> b[i] == Char(prefix[i])
  {
    Text(prefix) + key
  }

  function KeyBytes(key: Key): Bytes {
    match key
    case BlockKey(h) => PrefixKey("blk:", BE64(h))
    case BlockHashKey(x) => PrefixKey("blk:h:", x)
    case MmrKey(h) => PrefixKey("mmr:", BE64(h))
    case ChunkKey(k) => PrefixKey("chk:", k)
    case ChunkHashKey(k) => PrefixKey("chk:h:", k)
    case FileKey(id) => PrefixKey("man:f:", IdBytes(id))
    case DirKey(id) => PrefixKey("man:d:", IdBytes(id))
    case ChainIdKey => Text("meta:chainid")
    case FinalizedKey => Text("meta:finalized")
    case OffsetKey => Text("meta:celestia_offset")
  }

  /** Length, first and fifth byte: enough to tell the families apart. */
  function Shape(key: Key): (nat, char, char) {
    match key
    case BlockKey(_) => (12, 'b', ' ')
    case BlockHashKey(_) => (38, 'b', 'h')
    case MmrKey(_) => (12, 'm', ' ')
    case ChunkKey(_) => (36, 'c', ' ')
    case ChunkHashKey(_) => (38, 'c', 'h')
    case FileKey(_) => (46, 'm', 'f')
    case DirKey(_) => (46, 'm', 'd')
    case ChainIdKey => (12, 'm', ':')
    case FinalizedKey => (14, 'm', ':')
    case OffsetKey => (20, 'm', ':')
  }

  lemma {:induction false} KeyShape(key: Key)
    ensures var (n, first, fifth) := Shape(key);
            && |KeyBytes(key)| == n && n > 4 && KeyBytes(key)[0] == Char(first)
            && (fifth != ' ' ==> KeyBytes(key)[4] == Char(fifth))
    ensures key.MmrKey? ==> KeyBytes(key)[1] == Char('m')
    ensures key.ChainIdKey? ==> KeyBytes(key)[1] == Char('e')
  {
    hide BE64, IdBytes, Char;
  }

  lemma {:induction false} CharsDiffer(a: char, b: char)
    requires a < 256 as char && b < 256 as char && Char(a) == Char(b)
    ensures a == b
  {
  }

  /** No key of one family is a key of another, although "blk:" and "chk:" are prefixes of other families. */
  lemma {:induction false} FamiliesAreDisjoint(a: Key, b: Key)
    requires KeyBytes(a) == KeyBytes(b)
    ensures Shape(a) == Shape(b) && (a.MmrKey? <==> b.MmrKey?) && (a.ChainIdKey? <==> b.ChainIdKey?)
  {
    hide KeyBytes, Char;
    KeyShape(a);
    KeyShape(b);
    var (n, first, fifth) := Shape(a);
    var (_, first', fifth') := Shape(b);
    CharsDiffer(first, first');
    if fifth != ' ' && fifth' != ' ' { CharsDiffer(fifth, fifth'); }
    if Char('m') == Char('e') { CharsDiffer('m', 'e'); }
  }

  lemma {:induction false} PrefixKeyInjective(prefix: string, a: Bytes, b: Bytes)
    requires PrefixKey(prefix, a) == PrefixKey(prefix, b)
    ensures a == b
  {
    SplitUnique(Text(prefix), a, Text(prefix), b);
  }

  /** Different records have different keys. */
  lemma {:induction false} KeyInjective(a: Key, b: Key)
    ensures KeyBytes(a) == KeyBytes(b) <==> a == b
  {
    hide PrefixKey, BE64, IdBytes, Text;
    if KeyBytes(a) == KeyBytes(b) {
      FamiliesAreDisjoint(a, b);
      match a
      case BlockKey(h) =>
        PrefixKeyInjective("blk:", BE64(h), BE64(b.height));
        BE64RoundTrip(h);
        BE64RoundTrip(b.height);
      case BlockHashKey(x) => PrefixKeyInjective("blk:h:", x, b.hash);
      case MmrKey(h) =>
        PrefixKeyInjective("mmr:", BE64(h), BE64(b.mmrHeight));
        BE64RoundTrip(h);
        BE64RoundTrip(b.mmrHeight);
      case ChunkKey(k) => PrefixKeyInjective("chk:", k, b.chunk);
      case ChunkHashKey(k) => PrefixKeyInjective("chk:h:", k, b.chunkOf);
      case FileKey(id) =>
        PrefixKeyInjective("man:f:", IdBytes(id), IdBytes(b.file));
        IdRoundTrip(id);
        IdRoundTrip(b.file);
      case DirKey(id) =>
        PrefixKeyInjective("man:d:", IdBytes(id), IdBytes(b.dir));
        IdRoundTrip(id);
        IdRoundTrip(b.dir);
      case _ =>
    }
  }

  // ----- the order of keys -----

  /** The numeric value of every octet: literals have theirs, digest octets may have any. */
  type Reading = Octet -> Byte

  ghost predicate ReadsLiterals(val: Reading) {
    forall b: Byte :: val(Lit(b)) == b
  }

  /** Lexicographic order of byte strings, a proper prefix first. */
  predicate Less(val: Reading, a: Bytes, b: Bytes) {
    b != [] && (a == [] || val(a[0]) < val(b[0]) || (val(a[0]) == val(b[0]) && Less(val, a[1..], b[1..])))
  }

  lemma {:induction false} LessAfterPrefix(val: Reading, p: Bytes, a: Bytes, b: Bytes)
    ensures Less(val, p + a, p + b) <==> Less(val, a, b)
  {
    if p == [] {
      assert p + a == a && p + b == b;
    } else {
      assert (p + a)[1..] == p[1..] + a && (p + b)[1..] == p[1..] + b;
      LessAfterPrefix(val, p[1..], a, b);
    }
  }

  lemma {:induction false} LessBeforeSuffix(val: Reading, p: Bytes, q: Bytes, a: Bytes, b: Bytes)
    requires |p| == |q| && Less(val, p, q)
    ensures Less(val, p + a, q + b)
  {
    assert (p + a)[1..] == p[1..] + a && (q + b)[1..] == q[1..] + b;
    if val(p[0]) == val(q[0]) { LessBeforeSuffix(val, p[1..], q[1..], a, b); }
  }

  lemma {:induction false} LessLast(val: Reading, x: Bytes, y: Bytes, c: Octet, d: Octet)
    requires |x| == |y|
    ensures Less(val, x + [c], y + [d]) <==> Less(val, x, y) || (!Less(val, y, x) && val(c) < val(d))
  {
    if x == [] {
      assert x + [c] == [c] && y + [d] == [d];
    } else {
      assert (x + [c])[1..] == x[1..] + [c] && (y + [d])[1..] == y[1..] + [d];
      LessLast(val, x[1..], y[1..], c, d);
    }
  }

  lemma {:induction false} BigEndianOrder(val: Reading, a: nat, b: nat, k: nat)
    requires ReadsLiterals(val) && a < Pow256(k) && b < Pow256(k)
    ensures Less(val, BE(a, k), BE(b, k)) <==> a < b
    ensures Less(val, BE(b, k), BE(a, k)) <==> b < a
  {
    hide Less;
    if k == 0 {
      LessNothing(val);
    } else {
      BigEndianOrder(val, a / 256, b / 256, k - 1);
      LessLast(val, BE(a / 256, k - 1), BE(b / 256, k - 1), Lit(a % 256), Lit(b % 256));
      LessLast(val, BE(b / 256, k - 1), BE(a / 256, k - 1), Lit(b % 256), Lit(a % 256));
    }
  }

  lemma {:induction false} LessNothing(val: Reading)
    ensures !Less(val, [], [])
  {
  }

  /** Byte order on height keys is numeric order. */
  lemma {:induction false} HeightOrder(val: Reading, g: U64, h: U64)
    requires ReadsLiterals(val)
    ensures Less(val, KeyBytes(MmrKey(g)), KeyBytes(MmrKey(h))) <==> g < h
    ensures Less(val, KeyBytes(BlockKey(g)), KeyBytes(BlockKey(h))) <==> g < h
  {
    hide Less, BE, Text;
    Pow256Values();
    BigEndianOrder(val, g, h, 8);
    LessAfterPrefix(val, Text("mmr:"), BE64(g), BE64(h));
    LessAfterPrefix(val, Text("blk:"), BE64(g), BE64(h));
  }

  // ----- the range scan -----

  predicate InRange(val: Reading, lower: Bytes, upper: Bytes, key: Bytes) {
    !Less(val, key, lower) && Less(val, key, upper)
  }

  /** The upper end of the scan for height `h`; the height after the last one wraps to 0. */
  function ScanEnd(h: U64): U64 {
    (h + 1) % TWO64
  }

  ghost predicate InScan(val: Reading, h: U64, key: Bytes) {
    InRange(val, Text("mmr:"), KeyBytes(MmrKey(ScanEnd(h))), key)
  }

  lemma {:induction false} OthersComeBefore(val: Reading, key: Key)
    requires ReadsLiterals(val) && !key.MmrKey?
    ensures Less(val, KeyBytes(key), Text("mmr:"))
  {
    hide IdBytes, BE64, Less;
    var b := KeyBytes(key);
    KeyPrefix(key);
    FourthSmaller(val, b[..4]);
    LessBeforeSuffix(val, b[..4], Text("mmr:"), b[4..], []);
    assert b[..4] + b[4..] == b && Text("mmr:") + [] == Text("mmr:");
  }

  lemma {:induction false} KeyPrefix(key: Key)
    ensures var b := KeyBytes(key);
            |b| >= 4 &&
            if key.BlockKey? || key.BlockHashKey? then b[..4] == Text("blk:")
            else if key.ChunkKey? || key.ChunkHashKey? then b[..4] == Text("chk:")
            else if key.FileKey? || key.DirKey? then b[..4] == Text("man:")
            else if key.MmrKey? then b[..4] == Text("mmr:")
            else b[..4] == Text("meta")
  {
    hide IdBytes, BE64, Char;
  }

  lemma {:induction false} FourthSmaller(val: Reading, p: Bytes)
    requires ReadsLiterals(val) && (p == Text("blk:") || p == Text("chk:") || p == Text("man:") || p == Text("meta"))
    ensures Less(val, p, Text("mmr:"))
  {
    var m := Text("mmr:");
    assert val(m[0]) == 109 && val(m[1]) == 109;
    if p == Text("man:") {
      assert val(p[0]) == 109 && val(p[1]) == 97;
      assert Less(val, p[1..], m[1..]);
    } else if p == Text("meta") {
      assert val(p[0]) == 109 && val(p[1]) == 101;
      assert Less(val, p[1..], m[1..]);
    } else {
      assert val(p[0]) < 109;
    }
  }

  /** The scan for `h` sees the snapshot keys up to `h` and nothing else. */
  lemma {:induction false} ScanSees(val: Reading, h: U64, key: Key)
    requires ReadsLiterals(val)
    ensures InScan(val, h, KeyBytes(key)) <==> key.MmrKey? && key.mmrHeight < ScanEnd(h)
  {
    hide Less, BE64;
    if key.MmrKey? {
      HeightOrder(val, key.mmrHeight, ScanEnd(h));
      LessAfterPrefix(val, Text("mmr:"), BE64(key.mmrHeight), []);
      assert Text("mmr:") + [] == Text("mmr:");
      NothingIsLessThanEmpty(val, BE64(key.mmrHeight));
    } else {
      OthersComeBefore(val, key);
    }
  }

  lemma {:induction false} NothingIsLessThanEmpty(val: Reading, a: Bytes)
    ensures !Less(val, a, [])
  {
  }

  // ----- the flat store -----

  /** Stored values; manifests are kept as the messages that their bytes encode. */
  datatype StoredValue = Data(data: Bytes) | FileMessage(file: FileManifest) | DirMessage(dir: DirManifest)

  type Flat = map<Bytes, StoredValue>

  function Get(flat: Flat, key: Key): Option<StoredValue> {
    if KeyBytes(key) in flat then Some(flat[KeyBytes(key)]) else None
  }

  /** The height in the finalized record, 0 if there is none. */
  function FinalizedOf(flat: Flat): nat {
    match Get(flat, FinalizedKey)
    case Some(Data(b)) => DecLE(b)
    case _ => 0
  }

  function Find<K, V>(m: map<K, V>, k: K): Option<V> {
    if k in m then Some(m[k]) else None
  }

  function AsData(b: Option<Bytes>): Option<StoredValue> {
    if b.Some? then Some(Data(b.value)) else None
  }

  /** What the separate maps hold for a key. */
  function Lookup(db: Db, key: Key): Option<StoredValue>
    requires !key.ChainIdKey? && !key.FinalizedKey? && !key.OffsetKey?
  {
    match key
    case BlockKey(h) => AsData(Find(db.blocks, h))
    case BlockHashKey(x) => if x in db.hashIndex then Some(Data(BE64(db.hashIndex[x]))) else None
    case MmrKey(h) => AsData(Find(db.mmrs, h))
    case ChunkKey(k) => AsData(Find(db.content.chunks, k))
    case ChunkHashKey(k) => if k in db.content.chunkHashes then Some(Data(db.content.chunkHashes[k])) else None
    case FileKey(id) => if id in db.content.files then Some(FileMessage(db.content.files[id])) else None
    case DirKey(id) => if id in db.content.dirs then Some(DirMessage(db.content.dirs[id])) else None
  }

  ghost predicate IsMeta(key: Key) {
    key.ChainIdKey? || key.FinalizedKey? || key.OffsetKey?
  }

  ghost predicate IsKey(b: Bytes) {
    exists key: Key :: KeyBytes(key) == b
  }

  ghost predicate KnownKeysOnly(flat: Flat) {
    forall b :: b in flat ==> IsKey(b)
  }

  ghost predicate HeightsFit(db: Db) {
    && (forall h :: h in db.blocks ==> h < TWO64) && (forall h :: h in db.mmrs ==> h < TWO64)
    && (forall x :: x in db.hashIndex ==> db.hashIndex[x] < TWO64)
  }

  /** The flat store holds exactly what the separate maps hold. */
  ghost predicate Refines(flat: Flat, db: Db) {
    && KnownKeysOnly(flat) && HeightsFit(db) && FinalizedOf(flat) == db.finalized
    && forall key: Key :: !IsMeta(key) ==> Get(flat, key) == Lookup(db, key)
  }

  predicate WriteFits(w: Write) {
    match w
    case SetBlock(h, _) => h < TWO64
    case SetHash(_, h) => h < TWO64
    case SetMmr(h, _) => h < TWO64
    case SetFinalized(h) => h < TWO64
    case _ => true
  }

  function KeyOf(w: Write): Key
    requires WriteFits(w)
  {
    match w
    case SetBlock(h, _) => BlockKey(h)
    case SetHash(x, _) => BlockHashKey(x)
    case SetMmr(h, _) => MmrKey(h)
    case SetChunk(k, _) => ChunkKey(k)
    case SetChunkHash(k, _) => ChunkHashKey(k)
    case SetFile(id, _) => FileKey(id)
    case SetDir(id, _) => DirKey(id)
    case SetFinalized(_) => FinalizedKey
  }

  function ValueOf(w: Write): StoredValue {
    match w
    case SetBlock(_, b) => Data(b)
    case SetHash(_, h) => Data(BE64(h))
    case SetMmr(_, s) => Data(s)
    case SetChunk(_, d) => Data(d)
    case SetChunkHash(_, x) => Data(x)
    case SetFile(_, m) => FileMessage(m)
    case SetDir(_, m) => DirMessage(m)
    case SetFinalized(f) => Data(LE64(f))
  }

  function FlatApply(flat: Flat, w: Write): Flat
    requires WriteFits(w)
  {
    flat[KeyBytes(KeyOf(w)) := ValueOf(w)]
  }

  function FlatApplyAll(flat: Flat, ws: seq<Write>): Flat
    requires forall w :: w in ws ==> WriteFits(w)
  {
    if ws == [] then flat else FlatApply(FlatApplyAll(flat, ws[..|ws| - 1]), ws[|ws| - 1])
  }

  /** A write to one key leaves every other key alone, in its own family and in all others. */
  lemma {:induction false} OtherKeysKeep(flat: Flat, key: Key, value: StoredValue)
    ensures forall k: Key :: Get(flat[KeyBytes(key) := value], k) == if k == key then Some(value) else Get(flat, k)
    ensures KnownKeysOnly(flat) ==> KnownKeysOnly(flat[KeyBytes(key) := value])
  {
    hide KeyBytes;
    var now := flat[KeyBytes(key) := value];
    forall k: Key
      ensures Get(now, k) == if k == key then Some(value) else Get(flat, k)
    {
      KeyInjective(k, key);
    }
    assert IsKey(KeyBytes(key));
  }

  lemma {:induction false} LookupAfter(db: Db, w: Write, k: Key)
    requires WriteFits(w) && !IsMeta(k)
    ensures Lookup(Apply(db, w), k) == if k == KeyOf(w) then Some(ValueOf(w)) else Lookup(db, k)
  {
    hide BE64, LE64;
  }

  lemma {:induction false} HeightsStillFit(db: Db, w: Write)
    requires WriteFits(w) && HeightsFit(db)
    ensures HeightsFit(Apply(db, w))
  {
  }

  lemma {:induction false} FinalizedAfter(flat: Flat, w: Write)
    requires WriteFits(w)
    ensures FinalizedOf(FlatApply(flat, w)) == if w.SetFinalized? then w.finalized else FinalizedOf(flat)
  {
    hide KeyBytes, DecLE, LE64, BE64;
    OtherKeysKeep(flat, KeyOf(w), ValueOf(w));
    if w.SetFinalized? { LE64RoundTrip(w.finalized); }
  }

  lemma {:induction false} FinalizedApply(db: Db, w: Write)
    ensures Apply(db, w).finalized == if w.SetFinalized? then w.finalized else db.finalized
  {
  }

  lemma {:induction false} WriteRefines(flat: Flat, db: Db, w: Write)
    requires Refines(flat, db) && WriteFits(w)
    ensures Refines(FlatApply(flat, w), Apply(db, w))
  {
    hide KeyBytes, Lookup, Get, HeightsFit, KnownKeysOnly, Apply, FinalizedOf, ValueOf, KeyOf;
    OtherKeysKeep(flat, KeyOf(w), ValueOf(w));
    HeightsStillFit(db, w);
    FinalizedAfter(flat, w);
    FinalizedApply(db, w);
    forall k: Key | !IsMeta(k)
      ensures Get(FlatApply(flat, w), k) == Lookup(Apply(db, w), k)
    {
      LookupAfter(db, w, k);
    }
  }

  /** A batch on the flat store is the same batch on the separate maps. */
  lemma {:induction false} BatchRefines(flat: Flat, db: Db, ws: seq<Write>)
    requires Refines(flat, db) && forall w :: w in ws ==> WriteFits(w)
    ensures Refines(FlatApplyAll(flat, ws), ApplyAll(db, ws))
  {
    hide Refines, WriteFits, FlatApply, Apply;
    if ws != [] {
      var init, w := ws[..|ws| - 1], ws[|ws| - 1];
      assert w in ws;
      BatchRefines(flat, db, init);
      WriteRefines(FlatApplyAll(flat, init), ApplyAll(db, init), w);
    }
  }

  /** The chain id and the offset are stored beside the maps. */
  lemma {:induction false} MetaWriteRefines(flat: Flat, db: Db, key: Key, value: StoredValue)
    requires Refines(flat, db) && (key.ChainIdKey? || key.OffsetKey?)
    ensures Refines(flat[KeyBytes(key) := value], db)
  {
    hide KeyBytes, Lookup, HeightsFit, KnownKeysOnly, Get, DecLE;
    OtherKeysKeep(flat, key, value);
  }

  lemma {:induction false} EmptyRefines()
    ensures Refines(map[], EMPTY_DB)
  {
    hide KeyBytes;
  }

  // ----- the history of a store -----

  /** What is written to disk at once: the batch of a transaction, or the chain id or the offset at first start. */
  datatype DiskWrite = Batch(ws: seq<Write>) | Meta(key: Key, value: StoredValue)

  ghost predicate DiskWriteFits(d: DiskWrite) {
    match d
    case Batch(ws) => forall w :: w in ws ==> WriteFits(w)
    case Meta(key, _) => key.ChainIdKey? || key.OffsetKey?
  }

  ghost function FlatAfter(ds: seq<DiskWrite>): Flat
    requires forall i :: 0 <= i < |ds| ==> DiskWriteFits(ds[i])
  {
    if ds == [] then map[]
    else
      var flat, n := FlatAfter(ds[..|ds| - 1]), |ds| - 1;
      match ds[n]
      case Batch(ws) => assert DiskWriteFits(ds[n]); FlatApplyAll(flat, ws)
      case Meta(key, value) => flat[KeyBytes(key) := value]
  }

  /** The same history on the separate maps. */
  ghost function DbAfter(ds: seq<DiskWrite>): Db {
    if ds == [] then EMPTY_DB
    else
      var db, n := DbAfter(ds[..|ds| - 1]), |ds| - 1;
      if ds[n].Batch? then ApplyAll(db, ds[n].ws) else db
  }

  /** From an empty disk on, whatever batches are committed, the flat store holds what the separate maps hold. */
  lemma {:induction false} StoreRefines(ds: seq<DiskWrite>)
    requires forall i :: 0 <= i < |ds| ==> DiskWriteFits(ds[i])
    ensures Refines(FlatAfter(ds), DbAfter(ds))
  {
    hide Refines, KeyBytes, FlatApplyAll, ApplyAll, WriteFits;
    if ds == [] {
      EmptyRefines();
    } else {
      var init, d := ds[..|ds| - 1], ds[|ds| - 1];
      StoreRefines(init);
      assert DiskWriteFits(d);
      match d
      case Batch(ws) => BatchRefines(FlatAfter(init), DbAfter(init), ws);
      case Meta(key, value) => MetaWriteRefines(FlatAfter(init), DbAfter(init), key, value);
    }
  }

  // ----- reading -----

  /** The bytes under a key. */
  method ReadData(flat: Flat, key: Bytes) returns (r: Option<Bytes>)
    ensures r == if key in flat && flat[key].Data? then Some(flat[key].data) else None
  {
    return if key in flat && flat[key].Data? then Some(flat[key].data) else None;
  }

  lemma {:induction false} FlatHolds(flat: Flat, db: Db, key: Key)
    requires Refines(flat, db) && !IsMeta(key)
    ensures Get(flat, key) == Lookup(db, key)
  {
    hide KeyBytes;
  }

  method GetChunk(flat: Flat, key: Hash, ghost db: Db) returns (r: Option<Bytes>)
    requires Refines(flat, db)
    ensures r == Find(db.content.chunks, key)
  {
    hide Refines, PrefixKey;
    FlatHolds(flat, db, ChunkKey(key));
    r := ReadData(flat, PrefixKey("chk:", key));
  }

  method GetChunkHash(flat: Flat, key: Hash, ghost db: Db) returns (r: Option<Bytes>)
    requires Refines(flat, db)
    ensures r == if key in db.content.chunkHashes then Some(Raw(db.content.chunkHashes[key])) else None
  {
    hide Refines, PrefixKey;
    FlatHolds(flat, db, ChunkHashKey(key));
    r := ReadData(flat, PrefixKey("chk:h:", key));
  }

  method GetFileManifest(flat: Flat, id: BlobId, ghost db: Db) returns (r: Option<FileManifest>)
    requires Refines(flat, db)
    ensures r == Find(db.content.files, id)
  {
    hide Refines, PrefixKey, IdBytes;
    FlatHolds(flat, db, FileKey(id));
    var key := PrefixKey("man:f:", IdBytes(id));
    r := if key in flat && flat[key].FileMessage? then Some(flat[key].file) else None;
  }

  method GetDirectoryManifest(flat: Flat, id: BlobId, ghost db: Db) returns (r: Option<DirManifest>)
    requires Refines(flat, db)
    ensures r == Find(db.content.dirs, id)
  {
    hide Refines, PrefixKey, IdBytes;
    FlatHolds(flat, db, DirKey(id));
    var key := PrefixKey("man:d:", IdBytes(id));
    r := if key in flat && flat[key].DirMessage? then Some(flat[key].dir) else None;
  }

  method FinalizedHeight(flat: Flat, ghost db: Db) returns (height: nat)
    requires Refines(flat, db)
    ensures height == db.finalized
  {
    hide Text;
    var data := ReadData(flat, Text("meta:finalized"));
    height := if data.Some? then DecLE(data.value) else 0;
  }

  method GetBlock(flat: Flat, height: U64, ghost db: Db) returns (r: Option<Block>)
    requires Refines(flat, db)
    ensures r == if height in db.blocks then DecodeBlock(db.blocks[height]) else None
  {
    hide Refines, PrefixKey, BE64, DecodeBlock;
    FlatHolds(flat, db, BlockKey(height));
    var data := ReadData(flat, PrefixKey("blk:", BE64(height)));
    if data.None? {
      return None;
    }
    r := ReadBlock(data.value);
  }

  /** Two lookups: the height under the hash, then the block under that height. */
  method GetBlockByHash(flat: Flat, hash: Hash, ghost db: Db) returns (r: Option<Block>)
    requires Refines(flat, db)
    ensures r == if hash in db.hashIndex && db.hashIndex[hash] in db.blocks
                 then DecodeBlock(db.blocks[db.hashIndex[hash]]) else None
  {
    hide PrefixKey, BE64, DecodeBlock, KnownKeysOnly, FinalizedOf, DecBE;
    FlatHolds(flat, db, BlockHashKey(hash));
    var data := ReadData(flat, PrefixKey("blk:h:", hash));
    if data.None? {
      return None;
    }
    BE64RoundTrip(db.hashIndex[hash]);
    r := GetBlock(flat, DecBE(data.value), db);
  }

  method HasStateMmrAtHeight(flat: Flat, height: U64, ghost db: Db) returns (has: bool)
    requires Refines(flat, db)
    ensures has <==> height != 0 && height in db.mmrs
  {
    hide Refines, PrefixKey, BE64;
    if height == 0 {
      return false;
    }
    FlatHolds(flat, db, MmrKey(height));
    has := PrefixKey("mmr:", BE64(height)) in flat;
  }

  // ----- the last key of the scan -----

  /** The greatest key of a scan, as the store's iterator finds it. */
  ghost predicate IsLast(val: Reading, flat: Flat, h: U64, key: Bytes) {
    && key in flat && InScan(val, h, key)
    && forall other :: other in flat && InScan(val, h, other) ==> !Less(val, key, other)
  }

  lemma {:induction false} ScannedKey(val: Reading, flat: Flat, db: Db, h: U64, b: Bytes) returns (g: U64)
    requires ReadsLiterals(val) && Refines(flat, db) && b in flat && InScan(val, h, b)
    ensures b == KeyBytes(MmrKey(g)) && g in db.mmrs && g < ScanEnd(h)
  {
    hide KeyBytes, InScan, ScanEnd;
    var key: Key :| KeyBytes(key) == b;
    ScanSees(val, h, key);
    g := key.mmrHeight;
    assert Get(flat, MmrKey(g)) == Lookup(db, MmrKey(g));
  }

  /** The scan's last key is the one of the greatest stored height up to `h`, and the scan is empty exactly
      when there is none; only at the last height of all the upper end wraps and the scan is always empty. */
  lemma {:induction false} ScanFindsNearest(val: Reading, flat: Flat, db: Db, h: U64, b: Bytes)
    requires ReadsLiterals(val) && Refines(flat, db)
    ensures h + 1 < TWO64 ==>
              (IsLast(val, flat, h, b) <==>
                 NearestMmr(db.mmrs, h).Some? && b == KeyBytes(MmrKey(NearestMmr(db.mmrs, h).value)))
    ensures h + 1 == TWO64 ==> !IsLast(val, flat, h, b)
  {
    hide KeyBytes, InScan, NearestMmr, Less, Refines;
    NearestIsGreatest(db.mmrs, h);
    var k := NearestMmr(db.mmrs, h);
    if IsLast(val, flat, h, b) {
      var g := ScannedKey(val, flat, db, h, b);
      if k.Some? && k.value != g {
        SnapshotIsStored(val, flat, db, h, k.value);
        HeightOrder(val, g, k.value);
      }
    }
    if h + 1 < TWO64 && k.Some? && b == KeyBytes(MmrKey(k.value)) {
      SnapshotIsStored(val, flat, db, h, k.value);
      forall other | other in flat && InScan(val, h, other)
        ensures !Less(val, b, other)
      {
        var g := ScannedKey(val, flat, db, h, other);
        HeightOrder(val, k.value, g);
      }
    }
  }

  lemma {:induction false} SnapshotIsStored(val: Reading, flat: Flat, db: Db, h: U64, g: nat)
    requires ReadsLiterals(val) && Refines(flat, db) && g in db.mmrs && g < ScanEnd(h)
    ensures KeyBytes(MmrKey(g)) in flat && flat[KeyBytes(MmrKey(g))] == Data(db.mmrs[g])
            && InScan(val, h, KeyBytes(MmrKey(g)))
  {
    hide KeyBytes, InScan, KnownKeysOnly, DecLE;
    ScanSees(val, h, MmrKey(g));
    assert Get(flat, MmrKey(g)) == Lookup(db, MmrKey(g));
  }

  lemma {:induction false} LessTransitive(val: Reading, a: Bytes, b: Bytes, c: Bytes)
    requires Less(val, a, b) && Less(val, b, c)
    ensures Less(val, a, c)
  {
    if a != [] && val(a[0]) == val(b[0]) == val(c[0]) { LessTransitive(val, a[1..], b[1..], c[1..]); }
  }

  /** `key` is the greatest one of `keys` within the bounds. */
  ghost predicate Greatest(val: Reading, keys: set<Bytes>, lower: Bytes, upper: Bytes, key: Option<Bytes>) {
    match key
    case None => forall k :: k in keys ==> !InRange(val, lower, upper, k)
    case Some(g) =>
      && g in keys && InRange(val, lower, upper, g)
      && forall k :: k in keys && InRange(val, lower, upper, k) ==> !Less(val, g, k)
  }

  lemma {:induction false} GreatestNext(val: Reading, keys: set<Bytes>, lower: Bytes, upper: Bytes, key: Option<Bytes>,
                                        k: Bytes)
    requires Greatest(val, keys, lower, upper, key)
    ensures !InRange(val, lower, upper, k) ==> Greatest(val, keys + {k}, lower, upper, key)
    ensures InRange(val, lower, upper, k) ==>
              Greatest(val, keys + {k}, lower, upper, if key.None? || Less(val, key.value, k) then Some(k) else key)
  {
    hide Less, InRange;
    LessIrreflexive(val, k);
    if key.Some? && Less(val, key.value, k) {
      forall j | j in keys && InRange(val, lower, upper, j)
        ensures !Less(val, k, j)
      {
        if Less(val, k, j) { LessTransitive(val, key.value, k, j); }
      }
    }
  }

  lemma {:induction false} LessIrreflexive(val: Reading, k: Bytes)
    ensures !Less(val, k, k)
  {
    if k != [] { LessIrreflexive(val, k[1..]); }
  }

  /** The store's iterator, moved to the last key within its bounds. */
  method IterLast(val: Reading, flat: Flat, lower: Bytes, upper: Bytes) returns (key: Option<Bytes>)
    ensures Greatest(val, flat.Keys, lower, upper, key)
  {
    hide Less, InRange, Greatest;
    var todo := flat.Keys;
    key := None;
    GreatestOfNone(val, lower, upper);
    assert flat.Keys - todo == {};
    while todo != {}
      invariant todo <= flat.Keys && Greatest(val, flat.Keys - todo, lower, upper, key)
      decreases |todo|
    {
      var k :| k in todo;
      GreatestNext(val, flat.Keys - todo, lower, upper, key, k);
      assert flat.Keys - (todo - {k}) == flat.Keys - todo + {k};
      if InRange(val, lower, upper, k) && (key.None? || Less(val, key.value, k)) {
        key := Some(k);
      }
      todo := todo - {k};
    }
    assert flat.Keys - todo == flat.Keys;
  }

  lemma {:induction false} GreatestOfNone(val: Reading, lower: Bytes, upper: Bytes)
    ensures Greatest(val, {}, lower, upper, None)
  {
  }

  /** The snapshot that `GetStateMMR` restores: the one at this very height, else the last one of the scan. It is the
      nearest one at or below the height, except at the last height of all, where only the first try can find one. */
  method GetStateMmr(val: Reading, flat: Flat, height: U64, ghost db: Db) returns (r: Option<Bytes>)
    requires ReadsLiterals(val) && Refines(flat, db)
    ensures var k := NearestMmr(db.mmrs, height);
            r == if k.Some? && (height + 1 < TWO64 || k.value == height) then Some(db.mmrs[k.value]) else None
  {
    hide Refines, Less, PrefixKey, BE64, NearestMmr, InRange;
    FlatHolds(flat, db, MmrKey(height));
    NearestIsGreatest(db.mmrs, height);
    r := ReadData(flat, PrefixKey("mmr:", BE64(height)));
    if r.Some? {
      return;
    }
    var key := IterLast(val, flat, Text("mmr:"), PrefixKey("mmr:", BE64((height + 1) % TWO64)));
    ScanIsLast(val, flat, height, key);
    if key.None? {
      if height + 1 < TWO64 && NearestMmr(db.mmrs, height).Some? {
        ScanFindsNearest(val, flat, db, height, KeyBytes(MmrKey(NearestMmr(db.mmrs, height).value)));
      }
      return None;
    }
    ScanFindsNearest(val, flat, db, height, key.value);
    FlatHolds(flat, db, MmrKey(NearestMmr(db.mmrs, height).value));
    r := ReadData(flat, key.value);
  }

  lemma {:induction false} ScanIsLast(val: Reading, flat: Flat, h: U64, key: Option<Bytes>)
    requires Greatest(val, flat.Keys, Text("mmr:"), PrefixKey("mmr:", BE64(ScanEnd(h))), key)
    ensures key.Some? ==> IsLast(val, flat, h, key.value)
    ensures key.None? ==> forall b :: !IsLast(val, flat, h, b)
  {
    hide InRange, Less, PrefixKey;
  }
}
