/** The textual checks made on device ids and paths, over UTF-8 bytes. */
module Text {
  import opened ByteStrings

  const SLASH: Byte := 0x2f

  /** Length of the whitespace character (Unicode White_Space, in UTF-8) at the
      start of s, or 0. */
  function WhitespaceLen(s: Str): (n: nat)
    ensures n <= |s|
  {
    if |s| >= 1 && (0x09 <= s[0] <= 0x0d || s[0] == 0x20) then 1
    else if |s| >= 2 && s[0] == 0xc2 && (s[1] == 0x85 || s[1] == 0xa0) then 2
    else if |s| >= 3 && s[..3] == [0xe1, 0x9a, 0x80] then 3
    else if |s| >= 3 && s[0] == 0xe2 && s[1] == 0x80
            && (0x80 <= s[2] <= 0x8a || s[2] == 0xa8 || s[2] == 0xa9 || s[2] == 0xaf) then 3
    else if |s| >= 3 && s[..3] == [0xe2, 0x81, 0x9f] then 3
    else if |s| >= 3 && s[..3] == [0xe3, 0x80, 0x80] then 3
    else 0
  }

  /** `s.trim().is_empty()` */
  predicate Blank(s: Str)
    decreases |s|
  {
    s == [] || (WhitespaceLen(s) > 0 && Blank(s[WhitespaceLen(s)..]))
  }

  /** `s.chars().any(char::is_whitespace)` */
  predicate HasWhitespace(s: Str)
  {
    exists i :: 0 <= i < |s| && WhitespaceLen(s[i..]) > 0
  }

  /** `s.split('/')` */
  function Segments(s: Str): (r: seq<Str>)
    ensures |r| >= 1
  {
    if s == [] then [[]]
    else
      var rest := Segments(s[1..]);
      if s[0] == SLASH then [[]] + rest else [[s[0]] + rest[0]] + rest[1..]
  }

  /** `JoltAddress::new` accepts a path that starts with a slash. */
  predicate AddressablePath(path: Str)
  {
    path == Ascii("/") ||
    (&& Ascii("?")[0] !in path
     && Ascii("#")[0] !in path
     && !HasWhitespace(path)
     && Ascii(".") !in Segments(path)
     && Ascii("..") !in Segments(path))
  }

  // ---- what the checks look for ----

  /** A character below the supplementary planes. */
  type Scalar = c: nat | c < 0x10000

  /** Unicode's White_Space characters. */
  predicate WhiteSpace(c: Scalar)
  {
    || 0x09 <= c <= 0x0d || c == 0x20 || c == 0x85 || c == 0xa0 || c == 0x1680 || 0x2000 <= c <= 0x200a
    || c == 0x2028 || c == 0x2029 || c == 0x202f || c == 0x205f || c == 0x3000
  }

  function Utf8(c: Scalar): (r: Bytes)
    ensures |r| >= 1
  {
    if c < 0x80 then [c]
    else if c < 0x800 then [0xc0 + c / 64, 0x80 + c % 64]
    else [0xe0 + c / 4096, 0x80 + c / 64 % 64, 0x80 + c % 64]
  }

  ghost predicate StartsWithSpace(s: Str, c: Scalar)
  {
    WhiteSpace(c) && Utf8(c) <= s
  }

  /** A string starts with a whitespace character exactly when the scan finds one,
      and its length is that character's. */
  lemma WhitespaceMeans(s: Str)
    ensures WhitespaceLen(s) > 0 <==> exists c :: StartsWithSpace(s, c)
    ensures forall c :: StartsWithSpace(s, c) ==> WhitespaceLen(s) == |Utf8(c)|
  {
    forall c | StartsWithSpace(s, c) ensures WhitespaceLen(s) == |Utf8(c)| > 0 {
      SpaceIsFound(s, c);
    }
    if WhitespaceLen(s) > 0 {
      var c := FoundSpace(s);
    }
  }

  lemma SpaceIsFound(s: Str, c: Scalar)
    requires StartsWithSpace(s, c)
    ensures WhitespaceLen(s) == |Utf8(c)|
  {
    var n := |Utf8(c)|;
    assert s[..n] == Utf8(c);
    assert s[0] == s[..n][0];
    if n >= 2 { assert s[1] == s[..n][1]; }
    if n == 3 {
      assert s[2] == s[..n][2];
      if 0x2000 <= c < 0x2040 {
        assert c / 4096 == 2 && c / 64 == 128 && c % 64 == c - 0x2000;
      }
    }
  }

  lemma FoundSpace(s: Str) returns (c: Scalar)
    requires WhitespaceLen(s) > 0
    ensures StartsWithSpace(s, c)
  {
    if WhitespaceLen(s) == 1 {
      c := s[0];
      assert s[..1] == Utf8(c);
    } else if WhitespaceLen(s) == 2 {
      c := s[1];
      assert s[..2] == Utf8(c);
    } else if s[0] == 0xe2 && s[1] == 0x80 {
      c := 0x2000 + (s[2] as int - 0x80);
      assert c / 4096 == 2 && c / 64 == 128 && c % 64 == s[2] - 0x80;
      assert s[..3] == Utf8(c);
    } else {
      c := if s[0] == 0xe1 then 0x1680 else if s[0] == 0xe2 then 0x205f else 0x3000;
      assert s[..3] == Utf8(c);
    }
  }

  function Spelled(cs: seq<Scalar>): Bytes
  {
    if cs == [] then [] else Utf8(cs[0]) + Spelled(cs[1..])
  }

  ghost predicate SpelledInSpaces(s: Str, cs: seq<Scalar>)
  {
    (forall c :: c in cs ==> WhiteSpace(c)) && s == Spelled(cs)
  }

  /** A string is blank exactly when it spells nothing but whitespace characters. */
  lemma {:induction false} BlankMeans(s: Str)
    ensures Blank(s) <==> exists cs :: SpelledInSpaces(s, cs)
    decreases |s|
  {
    hide WhitespaceLen, WhiteSpace, Utf8;
    if s == [] {
      assert SpelledInSpaces(s, []);
    } else {
      var n := WhitespaceLen(s);
      WhitespaceMeans(s);
      if n > 0 {
        BlankMeans(s[n..]);
        if cs :| SpelledInSpaces(s[n..], cs) {
          var c :| StartsWithSpace(s, c);
          assert s == Utf8(c) + s[n..] && ([c] + cs)[1..] == cs;
          assert SpelledInSpaces(s, [c] + cs);
        }
      }
      if cs :| SpelledInSpaces(s, cs) {
        assert cs != [] && StartsWithSpace(s, cs[0]);
        assert s[n..] == Spelled(cs[1..]);
        assert SpelledInSpaces(s[n..], cs[1..]);
      }
    }
  }

  /** `s[i..j]` lies between two slashes, or a slash and an end. */
  ghost predicate Between(s: Str, i: nat, j: nat)
  {
    && i <= j <= |s|
    && (i == 0 || s[i - 1] == SLASH) && (j == |s| || s[j] == SLASH)
    && SLASH !in s[i..j]
  }

  ghost predicate Part(s: Str, i: nat, j: nat, x: Str)
  {
    Between(s, i, j) && s[i..j] == x
  }

  lemma PartShifts(s: Str, i: nat, j: nat, x: Str)
    requires s != []
    ensures Part(s, i + 1, j + 1, x) <==> Part(s[1..], i, j, x) && (i == 0 ==> s[0] == SLASH)
  {
    if j < |s| { assert i <= j ==> s[i + 1..j + 1] == s[1..][i..j]; }
  }

  /** The first segment is the part before the first slash. */
  lemma {:induction false} FirstSegment(s: Str, j: nat, x: Str)
    ensures Part(s, 0, j, x) ==> Segments(s)[0] == x
    ensures x == Segments(s)[0] ==> Part(s, 0, |x|, x)
  {
    if s == [] {
    } else if s[0] == SLASH {
      assert Between(s, 0, j) ==> j == 0 by { if 0 < j <= |s| { assert s[0] in s[0..j]; } }
      assert s[0..0] == [];
    } else {
      var t := s[1..];
      if Part(s, 0, j, x) {
        assert j > 0 && x == [s[0]] + x[1..];
        assert t[0..j - 1] == s[0..j][1..];
        FirstSegment(t, j - 1, x[1..]);
      }
      if x == Segments(s)[0] {
        FirstSegment(t, 0, x[1..]);
        assert s[0..|x|] == [s[0]] + t[0..|x| - 1];
      }
    }
  }

  ghost predicate LaterPart(s: Str, x: Str)
  {
    exists i: nat, j: nat :: i > 0 && Part(s, i, j, x)
  }

  lemma {:induction false} LaterSegments(s: Str, x: Str)
    ensures x in Segments(s)[1..] <==> LaterPart(s, x)
  {
    hide Part;
    if s == [] {
      if i: nat, j: nat :| i > 0 && Part(s, i, j, x) { NoPartBeyond(s, i, j, x); }
    } else {
      var t := s[1..];
      LaterSegments(t, x);
      assert Segments(t) == [Segments(t)[0]] + Segments(t)[1..];
      assert Segments(s)[1..] == if s[0] == SLASH then Segments(t) else Segments(t)[1..];
      if i: nat, j: nat :| i > 0 && Part(s, i, j, x) {
        NoPartBeyond(s, i, j, x);
        PartShifts(s, i - 1, j - 1, x);
        if i == 1 { FirstSegment(t, j - 1, x); } else { assert LaterPart(t, x); }
      }
      if i: nat, j: nat :| i > 0 && Part(t, i, j, x) {
        PartShifts(s, i, j, x);
        assert LaterPart(s, x);
      }
      if s[0] == SLASH && x == Segments(t)[0] {
        FirstSegment(t, 0, x);
        PartShifts(s, 0, |x|, x);
        assert LaterPart(s, x);
      }
    }
  }

  lemma NoPartBeyond(s: Str, i: nat, j: nat, x: Str)
    requires Part(s, i, j, x)
    ensures i <= j <= |s|
  {
  }

  /** The segments of a path are exactly its parts between slashes. */
  lemma SegmentsMean(s: Str, x: Str)
    ensures x in Segments(s) <==> exists i: nat, j: nat :: Part(s, i, j, x)
  {
    hide Part;
    LaterSegments(s, x);
    assert Segments(s) == [Segments(s)[0]] + Segments(s)[1..];
    if i: nat, j: nat :| Part(s, i, j, x) {
      if i == 0 { FirstSegment(s, j, x); } else { assert LaterPart(s, x); }
    }
    FirstSegment(s, 0, x);
  }

  /** An address's path holds no query, fragment or whitespace and no dot segment. */
  lemma AddressableMeans(path: Str)
    ensures AddressablePath(path) <==>
      || path == [0x2f]
      || (&& 0x3f !in path && 0x23 !in path
          && (forall i, c :: 0 <= i <= |path| ==> !StartsWithSpace(path[i..], c))
          && forall i: nat, j: nat :: !Part(path, i, j, [0x2e]) && !Part(path, i, j, [0x2e, 0x2e]))
  {
    hide Part, StartsWithSpace, WhitespaceLen, Segments;
    assert Ascii("/") == [0x2f] && Ascii("?") == [0x3f] && Ascii("#") == [0x23];
    assert Ascii(".") == [0x2e] && Ascii("..") == [0x2e, 0x2e];
    SegmentsMean(path, [0x2e]);
    SegmentsMean(path, [0x2e, 0x2e]);
    forall i | 0 <= i <= |path|
      ensures WhitespaceLen(path[i..]) > 0 <==> exists c :: StartsWithSpace(path[i..], c)
    {
      WhitespaceMeans(path[i..]);
    }
    assert WhitespaceLen(path[|path|..]) == 0;
  }
}
