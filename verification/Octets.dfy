/** Byte strings, fixed-width integers and the hash function.

    A digest is kept symbolic: the 32 octets of `HashBytes(x)` are `Dig(x, 0)`, ..., `Dig(x, 31)`.
    Everything the program does with digests (concatenating them, slicing them out of a buffer,
    comparing them with the all-zero value) is then ordinary byte-string work, while the hash
    is collision-free on byte strings and never yields the zero hash. */
module Octets {
  import opened Division

  type Byte = b: nat | b < 256

  datatype Octet = Lit(value: Byte) | Dig(preimage: seq<Octet>, index: nat)

  type Bytes = seq<Octet>

  function Zeros(k: nat): (s: Bytes)
    ensures |s| == k
    ensures forall i :: 0 <= i < k ==> s[i] == Lit(0)
  {
    seq(k, (i: nat) => Lit(0))
  }

  type Hash = h: Bytes | |h| == 32 witness Zeros(32)

  /** The zero hash, which the program uses as its "nothing here" marker. */
  const ZERO: Hash := Zeros(32)

  const TWO32: nat := 0x1_0000_0000
  const TWO63: nat := 0x8000_0000_0000_0000
  const TWO64: nat := 0x1_0000_0000_0000_0000

  type U64 = n: nat | n < TWO64

  function HashBytes(data: Bytes): (h: Hash)
    ensures h[0] == Dig(data, 0)
    ensures h != ZERO
  {
    assert ZERO[0] == Lit(0);
    seq(32, (i: nat) => Dig(data, i))
  }

  /** The bytes of a hash. */
  function Raw(h: Hash): Bytes {
    h
  }

  function HashPair(left: Bytes, right: Bytes): (h: Hash)
    ensures h != ZERO
  {
    HashBytes(left + right)
  }

  lemma {:induction false} HashInjective(x: Bytes, y: Bytes)
    requires HashBytes(x) == HashBytes(y)
    ensures x == y
  {
    assert HashBytes(x)[0] == Dig(x, 0);
    assert HashBytes(y)[0] == Dig(y, 0);
  }

  /** Byte strings, one after the other. */
  function Concat(pieces: seq<Bytes>): Bytes {
    if pieces == [] then [] else Concat(pieces[..|pieces| - 1]) + pieces[|pieces| - 1]
  }

  /** A byte string has at most one split into a prefix of known length and the rest. */
  lemma {:induction false} SplitUnique(a: Bytes, b: Bytes, c: Bytes, d: Bytes)
    requires |a| == |c|
    requires a + b == c + d
    ensures a == c && b == d
  {
    assert a == (a + b)[..|a|];
    assert c == (c + d)[..|c|];
    assert b == (a + b)[|a|..];
    assert d == (c + d)[|c|..];
  }

  lemma {:induction false} HashPairInjective(a: Hash, b: Bytes, c: Hash, d: Bytes)
    requires HashPair(a, b) == HashPair(c, d)
    ensures a == c && b == d
  {
    var x: Bytes, y: Bytes := a, c;
    HashInjective(x + b, y + d);
    SplitUnique(x, b, y, d);
  }

  // ----- little- and big-endian integers -----

  function Pow256(k: nat): (r: nat)
    ensures r >= 1
  {
    if k == 0 then 1 else 256 * Pow256(k - 1)
  }

  lemma {:induction false} Pow256Values()
    ensures Pow256(4) == TWO32
    ensures Pow256(8) == TWO64
  {
    assert Pow256(2) == 65536;
    assert Pow256(4) == TWO32;
    assert Pow256(6) == 65536 * Pow256(4);
  }

  /** The low `k` bytes of `v`, least significant first. */
  function LE(v: nat, k: nat): (s: Bytes)
    ensures |s| == k
  {
    if k == 0 then [] else [Lit(v % 256)] + LE(v / 256, k - 1)
  }

  /** The low `k` bytes of `v`, most significant first. */
  function BE(v: nat, k: nat): (s: Bytes)
    ensures |s| == k
  {
    if k == 0 then [] else BE(v / 256, k - 1) + [Lit(v % 256)]
  }

  /** An octet read as a number; digest octets are never read as numbers by a well-formed decode. */
  function Value(o: Octet): Byte {
    match o
    case Lit(v) => v
    case Dig(_, _) => 0
  }

  function DecLE(s: Bytes): nat {
    if s == [] then 0 else Value(s[0]) + 256 * DecLE(s[1..])
  }

  function DecBE(s: Bytes): nat {
    if s == [] then 0 else 256 * DecBE(s[..|s| - 1]) + Value(s[|s| - 1])
  }

  lemma {:induction false} LERoundTrip(v: nat, k: nat)
    ensures v < Pow256(k) ==> DecLE(LE(v, k)) == v
  {
    if k > 0 {
      LERoundTrip(v / 256, k - 1);
      assert LE(v, k)[1..] == LE(v / 256, k - 1);
    }
  }

  lemma {:induction false} BERoundTrip(v: nat, k: nat)
    ensures v < Pow256(k) ==> DecBE(BE(v, k)) == v
  {
    hide *;
    if k > 0 {
      BERoundTrip(v / 256, k - 1);
      BENext(v, k);
      DecBENext(BE(v / 256, k - 1), Lit(v % 256));
      Pow256Next(v, k);
    } else {
      NoBytes(v);
    }
  }

  lemma {:induction false} BENext(v: nat, k: nat)
    requires k > 0
    ensures BE(v, k) == BE(v / 256, k - 1) + [Lit(v % 256)]
    ensures 256 * (v / 256) + Value(Lit(v % 256)) == v
  {
  }

  lemma {:induction false} NoBytes(v: nat)
    ensures Pow256(0) == 1 && DecBE(BE(v, 0)) == 0
  {
  }

  lemma {:induction false} DecBENext(s: Bytes, o: Octet)
    ensures DecBE(s + [o]) == 256 * DecBE(s) + Value(o)
  {
    assert (s + [o])[..|s|] == s;
  }

  lemma {:induction false} Pow256Next(v: nat, k: nat)
    requires k > 0
    ensures v < Pow256(k) ==> v / 256 < Pow256(k - 1)
  {
  }

  /** Byte `i` of a little-endian number is digit `i` to the base 256. */
  lemma {:induction false} LittleEndianDigit(v: nat, k: nat, i: nat)
    requires i < k
    ensures Pow256(i) > 0 && LE(v, k)[i] == Lit(v / Pow256(i) % 256)
    decreases i
  {
    hide LE;
    LENext(v, k);
    if i == 0 {
      assert Pow256(0) == 1;
    } else {
      LittleEndianDigit(v / 256, k - 1, i - 1);
      QuotientTwice(v, 256, Pow256(i - 1));
    }
  }

  lemma {:induction false} LENext(v: nat, k: nat)
    requires k > 0
    ensures LE(v, k) == [Lit(v % 256)] + LE(v / 256, k - 1)
  {
  }

  /** Byte `i` of a big-endian number of `k` bytes is digit `k - 1 - i`. */
  lemma {:induction false} BigEndianDigit(v: nat, k: nat, i: nat)
    requires i < k
    ensures Pow256(k - 1 - i) > 0 && BE(v, k)[i] == Lit(v / Pow256(k - 1 - i) % 256)
    decreases k
  {
    hide BE;
    BENext(v, k);
    if i == k - 1 {
      assert Pow256(0) == 1;
    } else {
      BigEndianDigit(v / 256, k - 1, i);
      QuotientTwice(v, 256, Pow256(k - 2 - i));
    }
  }

  function LE32(v: nat): (s: Bytes)
    ensures |s| == 4
  {
    LE(v, 4)
  }

  function LE64(v: nat): (s: Bytes)
    ensures |s| == 8
  {
    LE(v, 8)
  }

  function BE64(v: nat): (s: Bytes)
    ensures |s| == 8
  {
    BE(v, 8)
  }

  lemma {:induction false} LE32RoundTrip(v: nat)
    requires v < TWO32
    ensures DecLE(LE32(v)) == v
  {
    Pow256Values();
    LERoundTrip(v, 4);
  }

  lemma {:induction false} LE64RoundTrip(v: nat)
    requires v < TWO64
    ensures DecLE(LE64(v)) == v
  {
    Pow256Values();
    LERoundTrip(v, 8);
  }

  lemma {:induction false} BE64RoundTrip(v: nat)
    requires v < TWO64
    ensures DecBE(BE64(v)) == v
  {
    Pow256Values();
    BERoundTrip(v, 8);
  }
}
