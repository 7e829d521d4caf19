/** Machine integers, byte strings and the primitive field encodings shared by
    every signed record: big-endian integers and length-prefixed byte strings. */
module ByteStrings {
  import opened Wrappers

  const U64_LIMIT: int := 0x1_0000_0000_0000_0000

  type Byte = b: int | 0 <= b < 256
  type U16 = n: int | 0 <= n < 0x1_0000
  type U64 = n: int | 0 <= n < U64_LIMIT
  type Bytes = seq<Byte>

  /** A Rust `String`, held as its UTF-8 bytes: `str` comparison is bytewise. */
  type Str = seq<Byte>

  /** A 32-byte digest. */
  type Hash = h: seq<Byte> | |h| == 32 witness seq(32, i => 0)

  /** The bytes of an ASCII literal. */
  function Ascii(s: string): (r: Bytes)
    ensures |r| == |s|
    ensures forall i :: 0 <= i < |s| && s[i] as int < 256 ==> r[i] == s[i] as int
  {
    seq(|s|, i requires 0 <= i < |s| => s[i] as int % 256)
  }

  // ---- big-endian integers ----

  function Pow256(k: nat): (r: nat)
    ensures r > 0
  {
    if k == 0 then 1 else 256 * Pow256(k - 1)
  }

  /** `to_be_bytes` for a k-byte integer; higher digits are cut off. */
  function BeBytes(n: nat, k: nat): (r: Bytes)
    ensures |r| == k
    decreases k
  {
    if k == 0 then [] else BeBytes(n / 256, k - 1) + [n % 256]
  }

  function BeValue(bs: Bytes): (r: nat)
  {
    if bs == [] then 0 else BeValue(bs[..|bs| - 1]) * 256 + bs[|bs| - 1]
  }

  lemma {:induction false} BeRoundTrip(n: nat, k: nat)
    requires n < Pow256(k)
    ensures BeValue(BeBytes(n, k)) == n
    decreases k
  {
    if k > 0 {
      BeRoundTrip(n / 256, k - 1);
      assert BeBytes(n, k)[..k - 1] == BeBytes(n / 256, k - 1);
    }
  }

  lemma {:induction false} BeBound(bs: Bytes)
    ensures BeValue(bs) < Pow256(|bs|)
  {
    if bs != [] { BeBound(bs[..|bs| - 1]); }
  }

  lemma Pow256Values()
    ensures Pow256(2) == 0x1_0000 && Pow256(8) == U64_LIMIT
  {
    assert Pow256(4) == 0x1_0000_0000;
  }

  // ---- field encoders (put_*) and their decoders ----

  function PutU16(n: U16): (r: Bytes) ensures |r| == 2 { BeBytes(n, 2) }

  function PutU64(n: nat): (r: Bytes) ensures |r| == 8 { BeBytes(n, 8) }

  function PutBytes(v: Bytes): (r: Bytes) ensures |r| == 8 + |v| { PutU64(|v|) + v }

  function PutOptionalString(v: Option<Str>): (r: Bytes)
    ensures |r| >= 1
  {
    match v
    case Some(s) => [1] + PutBytes(s)
    case None => [0]
  }

  function PutOptionalU64(v: Option<U64>): (r: Bytes)
    ensures |r| >= 1
  {
    match v
    case Some(n) => [1] + PutU64(n)
    case None => [0]
  }

  function PutOptionalHash(v: Option<Hash>): (r: Bytes)
    ensures |r| >= 1
  {
    match v
    case Some(h) => [1] + h
    case None => [0]
  }

  function PutStrings(ss: seq<Str>): Bytes
  {
    if ss == [] then [] else PutBytes(ss[0]) + PutStrings(ss[1..])
  }

  /** A decoder's answer: the value read and the bytes left. */
  type Parsed<T> = Option<(T, Bytes)>

  function Take(s: Bytes, n: nat): (r: Parsed<Bytes>)
    ensures r.Some? ==> s == r.value.0 + r.value.1 && |r.value.0| == n
  {
    if |s| < n then None else Some((s[..n], s[n..]))
  }

  function GetU16(s: Bytes): Parsed<U16>
  {
    var (b, s) :- Take(s, 2);
    BeBound(b);
    Pow256Values();
    Some((BeValue(b), s))
  }

  function GetU64(s: Bytes): (r: Parsed<U64>)
    ensures r.Some? ==> |s| == 8 + |r.value.1|
  {
    var (b, s) :- Take(s, 8);
    BeBound(b);
    Pow256Values();
    Some((BeValue(b), s))
  }

  function GetBytes(s: Bytes): (r: Parsed<Bytes>)
    ensures r.Some? ==> |s| == 8 + |r.value.0| + |r.value.1|
  {
    var (n, s) :- GetU64(s);
    Take(s, n)
  }

  function GetHash(s: Bytes): (r: Parsed<Hash>)
    ensures r.Some? ==> |s| == 32 + |r.value.1|
  {
    var (h, s) :- Take(s, 32);
    Some((h, s))
  }

  function GetTag(s: Bytes): (r: Parsed<Byte>)
    ensures r.Some? ==> s == [r.value.0] + r.value.1
  {
    if s == [] then None else Some((s[0], s[1..]))
  }

  /** Bytes that must stand there as they are. */
  function GetExpected(s: Bytes, expected: Bytes): Option<Bytes>
  {
    var (found, s) :- Take(s, |expected|);
    if found == expected then Some(s) else None
  }

  function GetOptionalString(s: Bytes): Parsed<Option<Str>>
  {
    var (tag, s) :- GetTag(s);
    if tag == 0 then Some((None, s))
    else if tag == 1 then var (v, s) :- GetBytes(s); Some((Some(v), s))
    else None
  }

  function GetOptionalU64(s: Bytes): Parsed<Option<U64>>
  {
    var (tag, s) :- GetTag(s);
    if tag == 0 then Some((None, s))
    else if tag == 1 then var (v, s) :- GetU64(s); Some((Some(v), s))
    else None
  }

  function GetOptionalHash(s: Bytes): Parsed<Option<Hash>>
  {
    var (tag, s) :- GetTag(s);
    if tag == 0 then Some((None, s))
    else if tag == 1 then var (v, s) :- GetHash(s); Some((Some(v), s))
    else None
  }

  /** Lengths travel as u64, as every length of a Rust `Vec` does. */
  predicate Fits(v: Bytes) { |v| < U64_LIMIT }

  predicate FitsOptional(v: Option<Bytes>) { v.Some? ==> Fits(v.value) }

  lemma TakeConcat(a: Bytes, rest: Bytes)
    ensures Take(a + rest, |a|) == Some((a, rest))
  {
    assert (a + rest)[..|a|] == a && (a + rest)[|a|..] == rest;
  }

  lemma U16RoundTrip(n: U16, rest: Bytes)
    ensures GetU16(PutU16(n) + rest) == Some((n, rest))
  {
    TakeConcat(PutU16(n), rest);
    Pow256Values();
    BeRoundTrip(n, 2);
  }

  lemma U64RoundTrip(n: U64, rest: Bytes)
    ensures GetU64(PutU64(n) + rest) == Some((n, rest))
  {
    TakeConcat(PutU64(n), rest);
    Pow256Values();
    BeRoundTrip(n, 8);
  }

  lemma BytesRoundTrip(v: Bytes, rest: Bytes)
    requires Fits(v)
    ensures GetBytes(PutBytes(v) + rest) == Some((v, rest))
  {
    assert PutBytes(v) + rest == PutU64(|v|) + (v + rest);
    U64RoundTrip(|v|, v + rest);
    TakeConcat(v, rest);
  }

  lemma HashRoundTrip(h: Hash, rest: Bytes)
    ensures GetHash(h + rest) == Some((h, rest))
  {
    TakeConcat(h, rest);
  }

  lemma OptionalStringRoundTrip(v: Option<Str>, rest: Bytes)
    requires FitsOptional(v)
    ensures GetOptionalString(PutOptionalString(v) + rest) == Some((v, rest))
  {
    match v {
      case Some(s) =>
        assert PutOptionalString(v) + rest == [1] + (PutBytes(s) + rest);
        BytesRoundTrip(s, rest);
      case None =>
    }
  }

  lemma OptionalU64RoundTrip(v: Option<U64>, rest: Bytes)
    ensures GetOptionalU64(PutOptionalU64(v) + rest) == Some((v, rest))
  {
    match v {
      case Some(n) =>
        assert PutOptionalU64(v) + rest == [1] + (PutU64(n) + rest);
        U64RoundTrip(n, rest);
      case None =>
    }
  }

  lemma OptionalHashRoundTrip(v: Option<Hash>, rest: Bytes)
    ensures GetOptionalHash(PutOptionalHash(v) + rest) == Some((v, rest))
  {
    match v {
      case Some(h) =>
        assert PutOptionalHash(v) + rest == [1] + (h + rest);
        HashRoundTrip(h, rest);
      case None =>
    }
  }

  lemma Assoc(a: Bytes, b: Bytes, c: Bytes)
    ensures (a + b) + c == a + (b + c)
  {
  }
}
