/** CBOR data items (RFC 8949) in the shapes serde produces here, and the sizes
    of their encodings. */
module Cbor {
  import opened Wrappers
  import opened ByteStrings

  datatype Item =
    | Null
    | Unsigned(n: U64)
    | Text(s: Bytes)
    | Array(items: seq<Item>)
    | Map(fields: seq<Field>)

  datatype Field = Field(name: Bytes, value: Item)

  /** The head of a data item: major type and argument (section 3 of RFC 8949). */
  function Head(major: nat, n: nat): Bytes
    requires major < 8
  {
    if n < 24 then [major * 32 + n]
    else if n < 0x100 then [major * 32 + 24] + BeBytes(n, 1)
    else if n < 0x1_0000 then [major * 32 + 25] + BeBytes(n, 2)
    else if n < 0x1_0000_0000 then [major * 32 + 26] + BeBytes(n, 4)
    else [major * 32 + 27] + BeBytes(n, 8)
  }

  function Encode(c: Item): Bytes
    decreases c
  {
    match c
    case Null => Head(7, 22)
    case Unsigned(n) => Head(0, n)
    case Text(s) => Head(3, |s|) + s
    case Array(items) => Head(4, |items|) + EncodeAll(items)
    case Map(fields) => Head(5, |fields|) + EncodeFields(fields)
  }

  function EncodeAll(items: seq<Item>): Bytes
    decreases items
  {
    if items == [] then [] else Encode(items[0]) + EncodeAll(items[1..])
  }

  function EncodeFields(fields: seq<Field>): Bytes
    decreases fields
  {
    if fields == [] then []
    else (Head(3, |fields[0].name|) + fields[0].name) + Encode(fields[0].value) + EncodeFields(fields[1..])
  }

  /** `cbor_array_header_len` is the exact size of an array's head. */
  function ArrayHeaderLen(len: nat): (r: nat)
    ensures r == |Head(4, len)|
    ensures 1 <= r <= 9
  {
    if len <= 23 then 1
    else if len <= 0xff then 2
    else if len <= 0xffff then 3
    else if len <= 0xffff_ffff then 5
    else 9
  }

  lemma HeadSize(major: nat, n: nat)
    requires major < 8
    ensures |Head(major, n)| == ArrayHeaderLen(n)
  {
  }

  lemma HeaderGrows(a: nat, b: nat)
    requires a <= b
    ensures ArrayHeaderLen(a) <= ArrayHeaderLen(b)
  {
  }

  lemma {:induction false} EncodeAllSnoc(items: seq<Item>, c: Item)
    ensures |EncodeAll(items + [c])| == |EncodeAll(items)| + |Encode(c)|
  {
    if items == [] {
      assert [] + [c] == [c];
    } else {
      EncodeAllSnoc(items[1..], c);
      assert (items + [c])[1..] == items[1..] + [c];
    }
  }

  lemma {:induction false} EncodeFieldsSize(a: seq<Field>, b: seq<Field>)
    ensures |EncodeFields(a + b)| == |EncodeFields(a)| + |EncodeFields(b)|
  {
    if a == [] {
      assert a + b == b;
    } else {
      EncodeFieldsSize(a[1..], b);
      assert (a + b)[1..] == a[1..] + b;
    }
  }

  /** Item for item, smaller elements make a smaller array. */
  lemma {:induction false} EncodeAllMonotone(a: seq<Item>, b: seq<Item>)
    requires |a| == |b| && forall i :: 0 <= i < |a| ==> |Encode(a[i])| <= |Encode(b[i])|
    ensures |EncodeAll(a)| <= |EncodeAll(b)|
  {
    if a != [] { EncodeAllMonotone(a[1..], b[1..]); }
  }

  /** A u64 takes the most room when it is the greatest one. */
  lemma LargestUnsigned(n: U64)
    ensures |Encode(Unsigned(n))| <= |Encode(Unsigned(U64_LIMIT - 1))|
  {
  }

  // ---- reading it back ----

  /** Major type and argument of the item at the start. */
  function GetHead(s: Bytes): (r: Parsed<(nat, U64)>)
    ensures r.Some? ==> |r.value.1| < |s|
  {
    var (b, s) :- GetTag(s);
    if b % 32 < 24 then Some(((b / 32, b % 32), s))
    else
      var (bs, s) :- Take(s, match b % 32 case 24 => 1 case 25 => 2 case 26 => 4 case 27 => 8 case _ => |s| + 1);
      if |bs| > 8 then None
      else
        BeBound(bs);
        SmallPowers(|bs|);
        Some(((b / 32, BeValue(bs)), s))
  }

  lemma SmallPowers(k: nat)
    requires k <= 8
    ensures Pow256(k) <= U64_LIMIT
    ensures Pow256(1) == 0x100 && Pow256(2) == 0x1_0000 && Pow256(4) == 0x1_0000_0000 && Pow256(8) == U64_LIMIT
  {
    assert Pow256(1) == 256 && Pow256(2) == 0x1_0000 && Pow256(3) == 0x100_0000 && Pow256(4) == 0x1_0000_0000;
    assert Pow256(5) == 0x100_0000_0000 && Pow256(6) == 0x1_0000_0000_0000 && Pow256(7) == 0x100_0000_0000_0000;
  }

  function GetItem(s: Bytes): (r: Parsed<Item>)
    ensures r.Some? ==> |r.value.1| < |s|
    decreases |s|, 0
  {
    var ((major, n), s) :- GetHead(s);
    match major
    case 0 => Some((Unsigned(n), s))
    case 3 => var (text, s) :- Take(s, n); Some((Text(text), s))
    case 4 => var (items, s) :- GetItems(s, n); Some((Array(items), s))
    case 5 => var (fields, s) :- GetFields(s, n); Some((Map(fields), s))
    case 7 => if n == 22 then Some((Null, s)) else None
    case _ => None
  }

  function GetItems(s: Bytes, n: nat): (r: Parsed<seq<Item>>)
    ensures r.Some? ==> |r.value.1| <= |s|
    decreases |s|, n + 1
  {
    if n == 0 then Some(([], s))
    else
      var (item, s) :- GetItem(s);
      var (items, s) :- GetItems(s, n - 1);
      Some(([item] + items, s))
  }

  function GetFields(s: Bytes, n: nat): (r: Parsed<seq<Field>>)
    ensures r.Some? ==> |r.value.1| <= |s|
    decreases |s|, n + 1
  {
    if n == 0 then Some(([], s))
    else
      var (name, s) :- GetItem(s);
      var (value, s) :- GetItem(s);
      var (fields, s) :- GetFields(s, n - 1);
      if name.Text? then Some(([Field(name.s, value)] + fields, s)) else None
  }

  /** Lengths travel as u64. */
  predicate FitsItem(c: Item)
  {
    match c
    case Null => true
    case Unsigned(_) => true
    case Text(s) => Fits(s)
    case Array(items) => |items| < U64_LIMIT && forall i :: 0 <= i < |items| ==> FitsItem(items[i])
    case Map(fields) =>
      |fields| < U64_LIMIT && forall i :: 0 <= i < |fields| ==> Fits(fields[i].name) && FitsItem(fields[i].value)
  }

  lemma HeadRoundTrip(major: nat, n: U64, rest: Bytes)
    requires major < 8
    ensures GetHead(Head(major, n) + rest) == Some(((major, n), rest))
  {
    SmallPowers(0);
    if n < 24 {
      FirstByte(major, n);
      assert (Head(major, n) + rest)[1..] == rest;
    } else {
      hide GetHead, Pow256, BeBytes;
      if n < 0x100 {
        LongHead(major, 24, n, 1, rest);
      } else if n < 0x1_0000 {
        LongHead(major, 25, n, 2, rest);
      } else if n < 0x1_0000_0000 {
        LongHead(major, 26, n, 4, rest);
      } else {
        LongHead(major, 27, n, 8, rest);
      }
    }
  }

  lemma FirstByte(major: nat, info: nat)
    requires major < 8 && info < 32
    ensures (major * 32 + info) / 32 == major && (major * 32 + info) % 32 == info && major * 32 + info < 256
  {
  }

  lemma LongHead(major: nat, info: nat, n: U64, k: nat, rest: Bytes)
    requires major < 8 && k <= 8 && n < Pow256(k)
    requires (info, k) in {(24, 1), (25, 2), (26, 4), (27, 8)}
    ensures major * 32 + info < 256
    ensures GetHead(([major * 32 + info] + BeBytes(n, k)) + rest) == Some(((major, n), rest))
  {
    hide Pow256, BeBytes, BeValue;
    FirstByte(major, info);
    var s: Bytes := ([major * 32 + info] + BeBytes(n, k)) + rest;
    assert s[0] == major * 32 + info && s[1..] == BeBytes(n, k) + rest;
    TakeConcat(BeBytes(n, k), rest);
    BeRoundTrip(n, k);
  }

  /** Every item is read back from its encoding, whatever follows it. */
  lemma {:induction false} ItemRoundTrip(c: Item, rest: Bytes)
    requires FitsItem(c)
    ensures GetItem(Encode(c) + rest) == Some((c, rest))
    decreases c, 0
  {
    hide Head, GetHead;
    match c {
      case Null => HeadRoundTrip(7, 22, rest);
      case Unsigned(n) => HeadRoundTrip(0, n, rest);
      case Text(s) =>
        assert Encode(c) + rest == Head(3, |s|) + (s + rest);
        HeadRoundTrip(3, |s|, s + rest);
        TakeConcat(s, rest);
      case Array(items) =>
        assert Encode(c) + rest == Head(4, |items|) + (EncodeAll(items) + rest);
        HeadRoundTrip(4, |items|, EncodeAll(items) + rest);
        ItemsRoundTrip(items, rest);
      case Map(fields) =>
        assert Encode(c) + rest == Head(5, |fields|) + (EncodeFields(fields) + rest);
        HeadRoundTrip(5, |fields|, EncodeFields(fields) + rest);
        FieldsRoundTrip(fields, rest);
    }
  }

  lemma {:induction false} ItemsRoundTrip(items: seq<Item>, rest: Bytes)
    requires forall i :: 0 <= i < |items| ==> FitsItem(items[i])
    ensures GetItems(EncodeAll(items) + rest, |items|) == Some((items, rest))
    decreases items, 0
  {
    hide GetItem, Encode, FitsItem;
    if items != [] {
      var tail := EncodeAll(items[1..]) + rest;
      assert EncodeAll(items) + rest == Encode(items[0]) + tail;
      ItemRoundTrip(items[0], tail);
      ItemsRoundTrip(items[1..], rest);
      assert items == [items[0]] + items[1..];
    } else {
      assert EncodeAll([]) + rest == rest;
    }
  }

  lemma {:induction false} FieldsRoundTrip(fields: seq<Field>, rest: Bytes)
    requires forall i :: 0 <= i < |fields| ==> Fits(fields[i].name) && FitsItem(fields[i].value)
    ensures GetFields(EncodeFields(fields) + rest, |fields|) == Some((fields, rest))
    decreases fields, 0
  {
    hide GetItem, Encode, FitsItem;
    if fields != [] {
      var f, tail := fields[0], EncodeFields(fields[1..]) + rest;
      assert EncodeFields(fields) + rest == (Head(3, |f.name|) + f.name) + (Encode(f.value) + tail);
      NameRoundTrip(f.name, Encode(f.value) + tail);
      ItemRoundTrip(f.value, tail);
      FieldsRoundTrip(fields[1..], rest);
      assert fields == [f] + fields[1..];
    } else {
      assert EncodeFields([]) + rest == rest;
    }
  }

  lemma NameRoundTrip(name: Bytes, rest: Bytes)
    requires Fits(name)
    ensures GetItem((Head(3, |name|) + name) + rest) == Some((Text(name), rest))
  {
    hide Head, GetHead;
    assert (Head(3, |name|) + name) + rest == Head(3, |name|) + (name + rest);
    HeadRoundTrip(3, |name|, name + rest);
    TakeConcat(name, rest);
  }
}
