/** Which texts name which capabilities, both ways. */
module CapabilityTexts {
  import opened Wrappers
  import opened ByteStrings
  import opened AppCapabilities
  import Text

  // ---- scopes ----

  /** No query, fragment, whitespace or wildcard. */
  ghost predicate Plain(s: Str)
  {
    0x3f !in s && 0x23 !in s && STAR !in s && !Text.HasWhitespace(s)
  }

  ghost predicate NoDots(s: Str)
  {
    Ascii(".") !in Text.Segments(s) && Ascii("..") !in Text.Segments(s)
  }

  /** A path of its own below the root, or everything below a path. */
  ghost predicate ScopeFits(s: PathScope)
  {
    match s
    case Exact(p) => |p| >= 2 && p[0] == 0x2f && Plain(p) && NoDots(p)
    case Prefix(p) => && p != [] && p[0] == 0x2f == p[|p| - 1] && Plain(p) && NoDots(p[..|p| - 1])
                      && p[..|p| - 1] != [0x2f]
  }

  lemma {:induction false} CountMeans(s: Str, b: Byte)
    ensures Count(s, b) == 0 <==> b !in s
  {
    if s != [] {
      CountMeans(s[1..], b);
      assert s == [s[0]] + s[1..];
    }
  }

  lemma {:induction false} CountJoin(a: Str, c: Str, b: Byte)
    ensures Count(a + c, b) == Count(a, b) + Count(c, b)
  {
    if a == [] {
      assert a + c == c;
    } else {
      CountJoin(a[1..], c, b);
      assert (a + c)[1..] == a[1..] + c;
    }
  }

  lemma NoSpaceAtEnd(a: Str, b: Byte, i: nat)
    requires i < |a| && 0x21 <= b < 0x80
    ensures Text.WhitespaceLen((a + [b])[i..]) > 0 <==> Text.WhitespaceLen(a[i..]) > 0
  {
    var s, t := (a + [b])[i..], a[i..];
    assert s == t + [b];
    if |t| >= 3 { assert s[..3] == t[..3]; }
    if |t| == 2 { assert s[..3] == t + [b]; }
  }

  /** A visible ASCII byte at the end adds no whitespace. */
  lemma SpaceIgnoresEnd(a: Str, b: Byte)
    requires 0x21 <= b < 0x80
    ensures Text.HasWhitespace(a + [b]) <==> Text.HasWhitespace(a)
  {
    hide Text.WhitespaceLen;
    var s := a + [b];
    forall i: nat | i < |a| ensures Text.WhitespaceLen(s[i..]) > 0 <==> Text.WhitespaceLen(a[i..]) > 0 {
      NoSpaceAtEnd(a, b, i);
    }
    assert s[|a|..] == [b];
    LoneByte(b);
  }

  lemma LoneByte(b: Byte)
    requires 0x21 <= b < 0x80
    ensures Text.WhitespaceLen([b]) == 0
  {
  }

  lemma Literals()
    ensures Ascii("?")[0] == 0x3f && Ascii("#")[0] == 0x23 && Text.SLASH == 0x2f
  {
  }

  lemma PrefixBase(p: Str)
    requires p != [] && p[|p| - 1] == 0x2f
    ensures (p + [STAR])[|p| - 1..] == [0x2f, STAR] && (p + [STAR])[..|p| - 1] == p[..|p| - 1]
    ensures p[..|p| - 1] + [0x2f] == p
  {
  }

  /** A scope is read exactly from its own text. */
  lemma ScopeReadsIff(raw: Str, s: PathScope)
    ensures ParseScope(raw) == Some(s) <==> ScopeFits(s) && raw == ScopeText(s)
  {
    hide Text.HasWhitespace, Text.Segments, Count;
    Literals();
    CountMeans(raw, STAR);
    match s {
      case Exact(p) =>
      case Prefix(p) =>
        CountJoin(p, [STAR], STAR);
        CountMeans(p, STAR);
        OneStar();
        SpaceIgnoresEnd(p, STAR);
        if ParseScope(raw) == Some(s) {
          ParsedScope(raw);
          PrefixBase(p);
        }
        if ScopeFits(s) && raw == ScopeText(s) { PrefixBase(p); }
    }
  }

  lemma OneStar()
    ensures Count([STAR], STAR) == 1
  {
    assert [STAR][1..] == [];
  }

  // ---- capabilities ----

  function ActionText(a: PathAction): Str
  {
    match a
    case Publish => Ascii("publish:")
    case Delete => Ascii("delete:")
    case PublishEncrypted => Ascii("publish:encrypted:")
    case Inventory => Ascii("inventory:")
    case PinOwn => Ascii("pin:own:")
    case Encrypt => Ascii("encrypt:")
    case Decrypt => Ascii("decrypt:")
  }

  function Times(s: Str, n: nat): Str
  {
    if n == 0 then [] else Times(s, n - 1) + s
  }

  ghost predicate EndsWith(s: Str, suffix: Str)
  {
    |s| >= |suffix| && s[|s| - |suffix|..] == suffix
  }

  /** Trimming takes the suffix off as often as it stands there. */
  lemma {:induction false} TrimEndMeans(s: Str, suffix: Str) returns (n: nat)
    requires suffix != []
    ensures s == TrimEnd(s, suffix) + Times(suffix, n)
    ensures !EndsWith(TrimEnd(s, suffix), suffix)
  {
    if EndsWith(s, suffix) {
      var shorter := s[..|s| - |suffix|];
      n := TrimEndMeans(shorter, suffix);
      OneMore(s, shorter, TrimEnd(s, suffix), suffix, n);
      n := n + 1;
    } else {
      n := 0;
    }
  }

  lemma OneMore(s: Str, shorter: Str, start: Str, suffix: Str, n: nat)
    requires s == shorter + suffix && shorter == start + Times(suffix, n)
    ensures s == start + Times(suffix, n + 1)
  {
  }

  /** The text names one identity's subscription: the identity, with or without its
      suffix, stands where `any` would. */
  ghost predicate NamesIdentity(ids: Str -> Option<Str>, raw: Str, id: Str, scope: PathScope)
  {
    exists who: Str ::
      && COLON !in who && who != Ascii("any") && ids(TrimEnd(who, Ascii(".jolt"))) == Some(id)
      && raw == Ascii("subscribe:") + who + [COLON] + ScopeText(scope)
  }

  /** The text spells the capability. */
  ghost predicate Spells(ids: Str -> Option<Str>, raw: Str, c: Capability)
  {
    match c
    case ResolvePublic => raw == Ascii("resolve:public")
    case FetchPublic => raw == Ascii("fetch:public")
    case IngressSend => raw == Ascii("ingress:send")
    case IngressRead => raw == Ascii("ingress:read")
    case IngressDecide => raw == Ascii("ingress:decide")
    case Enumerate(SelfIdentity, scope) => ScopeFits(scope) && raw == Ascii("enumerate:self:") + ScopeText(scope)
    case Enumerate(EveryIdentity, scope) => ScopeFits(scope) && raw == Ascii("enumerate:any:") + ScopeText(scope)
    case Subscribe(AnyIdentity, scope) => ScopeFits(scope) && raw == Ascii("subscribe:any:") + ScopeText(scope)
    case Subscribe(OnlyIdentity(id), scope) => ScopeFits(scope) && NamesIdentity(ids, raw, id, scope)
    case Path(action, scope) => ScopeFits(scope) && raw == ActionText(action) + ScopeText(scope)
  }

  lemma Split(prefix: Str, raw: Str)
    ensures prefix <= raw <==> |raw| >= |prefix| && raw == prefix + raw[|prefix|..]
    ensures (prefix + raw)[|prefix|..] == raw && prefix <= prefix + raw
  {
  }

  /** The first path action whose text starts the capability decides. */
  lemma {:induction false} ParsePathFirst(raw: Str, actions: seq<(Str, PathAction)>, i: nat)
    requires i < |actions| && actions[i].0 <= raw && forall k :: 0 <= k < i ==> !(actions[k].0 <= raw)
    ensures
      var scope := ParseScope(raw[|actions[i].0|..]);
      ParsePath(raw, actions) == if scope.None? then None else Some(Path(actions[i].1, scope.value))
  {
    hide ParseScope;
    if i > 0 {
      assert actions[1..][i - 1] == actions[i];
      ParsePathFirst(raw, actions[1..], i - 1);
    }
  }

  lemma {:induction false} ParsedPath(raw: Str, actions: seq<(Str, PathAction)>) returns (i: nat)
    requires ParsePath(raw, actions).Some?
    ensures i < |actions| && actions[i].0 <= raw
    ensures ParsePath(raw, actions).value.Path? && ParsePath(raw, actions).value.action == actions[i].1
    ensures ParseScope(raw[|actions[i].0|..]) == Some(ParsePath(raw, actions).value.scope)
  {
    hide ParseScope;
    if actions[0].0 <= raw {
      i := 0;
    } else {
      i := ParsedPath(raw, actions[1..]);
      i := i + 1;
    }
  }

  /** A path capability's text is read as that action on that scope. */
  lemma PathReadsIff(raw: Str, c: Capability)
    ensures ParsePath(raw, PathActions()) == Some(c) <==>
            c.Path? && ScopeFits(c.scope) && raw == ActionText(c.action) + ScopeText(c.scope)
  {
    hide ParsePath, ParseScope, ScopeFits, ScopeText;
    if ParsePath(raw, PathActions()) == Some(c) { ParsedPathSpells(raw, c); }
    if c.Path? && ScopeFits(c.scope) && raw == ActionText(c.action) + ScopeText(c.scope) {
      var i := PathPlace(c.action);
      Split(ActionText(c.action), ScopeText(c.scope));
      ScopeReadsIff(ScopeText(c.scope), c.scope);
      FitsStart(c.scope);
      NoEarlierAction(c.action, ScopeText(c.scope));
      ParsePathFirst(raw, PathActions(), i);
    }
  }

  lemma ParsedPathSpells(raw: Str, c: Capability)
    requires ParsePath(raw, PathActions()) == Some(c)
    ensures c.Path? && ScopeFits(c.scope) && raw == ActionText(c.action) + ScopeText(c.scope)
  {
    hide ParsePath, ParseScope, ScopeFits, ScopeText;
    var i := ParsedPath(raw, PathActions());
    var start := PathActions()[i].0;
    assert start == ActionText(c.action);
    hide PathActions, ActionText;
    Split(start, raw);
    ScopeReadsIff(raw[|start|..], c.scope);
  }

  function PathPlace(a: PathAction): (i: nat)
    ensures i < |PathActions()| && PathActions()[i] == (ActionText(a), a)
  {
    match a
    case PublishEncrypted => 0
    case Publish => 1
    case Delete => 2
    case Inventory => 3
    case PinOwn => 4
    case Encrypt => 5
    case Decrypt => 6
  }

  lemma FitsStart(s: PathScope)
    requires ScopeFits(s)
    ensures ScopeText(s) != [] && ScopeText(s)[0] == 0x2f
  {
  }

  lemma NotPrefix(a: Str, raw: Str, k: nat)
    requires k < |a| && (k >= |raw| || raw[k] != a[k])
    ensures !(a <= raw) && a != raw
  {
  }

  lemma NoEarlierAction(a: PathAction, scope: Str)
    requires scope != [] && scope[0] == 0x2f
    ensures forall k :: 0 <= k < PathPlace(a) ==> !(PathActions()[k].0 <= ActionText(a) + scope)
  {
    var raw := ActionText(a) + scope;
    forall k | 0 <= k < PathPlace(a) ensures !(PathActions()[k].0 <= raw) {
      if a == Publish {
        NotPrefix(PathActions()[k].0, raw, 8);
      } else if a == Decrypt && k == 2 {
        NotPrefix(PathActions()[k].0, raw, 2);
      } else {
        NotPrefix(PathActions()[k].0, raw, if a == PinOwn && k < 2 then 1 else 0);
      }
    }
  }

  /** None of the texts that stand for themselves. */
  ghost predicate NotWhole(raw: Str)
  {
    && raw != Ascii("resolve:public") && raw != Ascii("fetch:public")
    && raw != Ascii("ingress:send") && raw != Ascii("ingress:read") && raw != Ascii("ingress:decide")
  }

  lemma StartsOther(raw: Str)
    requires |raw| >= 3 && raw[0] !in {0x72, 0x66} && (raw[0] == 0x69 ==> raw[2] != 0x67)
    ensures NotWhole(raw)
  {
    NotPrefix(Ascii("resolve:public"), raw, 0);
    NotPrefix(Ascii("fetch:public"), raw, 0);
    var k := if raw[0] == 0x69 then 2 else 0;
    NotPrefix(Ascii("ingress:send"), raw, k);
    NotPrefix(Ascii("ingress:read"), raw, k);
    NotPrefix(Ascii("ingress:decide"), raw, k);
  }

  lemma PathText(a: PathAction, scope: Str)
    ensures
      var raw := ActionText(a) + scope;
      && NotWhole(raw) && !(Ascii("enumerate:self:") <= raw) && !(Ascii("enumerate:any:") <= raw)
      && !(Ascii("subscribe:") <= raw)
  {
    var raw := ActionText(a) + scope;
    StartsOther(raw);
    var k := if a == Encrypt then 2 else 0;
    NotPrefix(Ascii("enumerate:self:"), raw, k);
    NotPrefix(Ascii("enumerate:any:"), raw, k);
    NotPrefix(Ascii("subscribe:"), raw, 0);
  }

  lemma ParsePathCase(ids: Str -> Option<Str>, raw: Str, c: Capability)
    requires c.Path?
    ensures Spells(ids, raw, c) ==> Parse(ids, raw) == Some(c)
  {
    hide ParsePath, ParseScope, ScopeFits, ScopeText;
    if Spells(ids, raw, c) {
      PathText(c.action, ScopeText(c.scope));
      PathReadsIff(raw, c);
    }
  }

  lemma EnumerateText(scope: Str)
    ensures NotWhole(Ascii("enumerate:self:") + scope) && NotWhole(Ascii("enumerate:any:") + scope)
    ensures !(Ascii("enumerate:self:") <= Ascii("enumerate:any:") + scope)
  {
    StartsOther(Ascii("enumerate:self:") + scope);
    StartsOther(Ascii("enumerate:any:") + scope);
    NotPrefix(Ascii("enumerate:self:"), Ascii("enumerate:any:") + scope, 10);
  }

  lemma ParseEnumerateCase(ids: Str -> Option<Str>, raw: Str, c: Capability)
    requires c.Enumerate?
    ensures Spells(ids, raw, c) ==> Parse(ids, raw) == Some(c)
  {
    hide ParsePath, ParseScope, ScopeFits, ScopeText;
    if Spells(ids, raw, c) {
      EnumerateText(ScopeText(c.scope));
      Split(Ascii("enumerate:self:"), ScopeText(c.scope));
      Split(Ascii("enumerate:any:"), ScopeText(c.scope));
      ScopeReadsIff(ScopeText(c.scope), c.scope);
    }
  }

  lemma {:induction false} FindMeans(who: Str, rest: Str)
    requires COLON !in who
    ensures Find(who + [COLON] + rest, COLON) == Some(|who|)
  {
    if who == [] {
      assert who + [COLON] + rest == [COLON] + rest;
    } else {
      FindMeans(who[1..], rest);
      assert (who + [COLON] + rest)[1..] == who[1..] + [COLON] + rest;
    }
  }

  lemma SubscribeText(rest: Str)
    ensures
      var raw := Ascii("subscribe:") + rest;
      && NotWhole(raw) && !(Ascii("enumerate:self:") <= raw) && !(Ascii("enumerate:any:") <= raw)
      && Ascii("subscribe:") <= raw && raw[|Ascii("subscribe:")|..] == rest
  {
    var raw := Ascii("subscribe:") + rest;
    StartsOther(raw);
    NotPrefix(Ascii("enumerate:self:"), raw, 0);
    NotPrefix(Ascii("enumerate:any:"), raw, 0);
    Split(Ascii("subscribe:"), rest);
  }

  /** How a subscription's text is read, once split. */
  lemma ParseSubscribe(ids: Str -> Option<Str>, who: Str, tail: Str)
    requires COLON !in who
    ensures
      var scope, id := ParseScope(tail), ids(TrimEnd(who, Ascii(".jolt")));
      Parse(ids, Ascii("subscribe:") + who + [COLON] + tail) ==
        if scope.None? then None
        else if who == Ascii("any") then Some(Subscribe(AnyIdentity, scope.value))
        else if id.None? then None
        else Some(Subscribe(OnlyIdentity(id.value), scope.value))
  {
    hide ParsePath, ParseScope, TrimEnd, Find;
    var rest := who + [COLON] + tail;
    assert Ascii("subscribe:") + who + [COLON] + tail == Ascii("subscribe:") + rest;
    SubscribeText(rest);
    FindMeans(who, tail);
    assert rest[..|who|] == who && rest[|who| + 1..] == tail;
  }

  lemma AnyText(tail: Str)
    ensures Ascii("subscribe:any:") + tail == Ascii("subscribe:") + Ascii("any") + [COLON] + tail
    ensures COLON !in Ascii("any")
  {
    assert Ascii("subscribe:any:") == Ascii("subscribe:") + Ascii("any") + [COLON];
  }

  lemma ParseSubscribeCase(ids: Str -> Option<Str>, raw: Str, c: Capability)
    requires c.Subscribe?
    ensures Spells(ids, raw, c) ==> Parse(ids, raw) == Some(c)
  {
    hide Parse, ParseScope, ScopeFits, ScopeText, TrimEnd;
    if Spells(ids, raw, c) {
      var tail := ScopeText(c.scope);
      ScopeReadsIff(tail, c.scope);
      if c.subscribes.AnyIdentity? {
        AnyText(tail);
        ParseSubscribe(ids, Ascii("any"), tail);
      } else {
        var who: Str :| && COLON !in who && who != Ascii("any")
                        && ids(TrimEnd(who, Ascii(".jolt"))) == Some(c.subscribes.identity)
                        && raw == Ascii("subscribe:") + who + [COLON] + tail;
        ParseSubscribe(ids, who, tail);
      }
    }
  }

  lemma ParseWholeCase(ids: Str -> Option<Str>, raw: Str, c: Capability)
    requires !Scoped(c)
    ensures Spells(ids, raw, c) ==> Parse(ids, raw) == Some(c)
  {
    hide ParsePath, ParseScope, TrimEnd, Find;
    NotPrefix(Ascii("resolve:public"), Ascii("fetch:public"), 0);
    NotPrefix(Ascii("resolve:public"), Ascii("ingress:send"), 0);
    NotPrefix(Ascii("resolve:public"), Ascii("ingress:read"), 0);
    NotPrefix(Ascii("resolve:public"), Ascii("ingress:decide"), 0);
    NotPrefix(Ascii("fetch:public"), Ascii("ingress:send"), 0);
    NotPrefix(Ascii("fetch:public"), Ascii("ingress:read"), 0);
    NotPrefix(Ascii("fetch:public"), Ascii("ingress:decide"), 0);
    NotPrefix(Ascii("ingress:send"), Ascii("ingress:read"), 8);
    NotPrefix(Ascii("ingress:send"), Ascii("ingress:decide"), 8);
    NotPrefix(Ascii("ingress:read"), Ascii("ingress:decide"), 8);
  }

  /** What a text is read as, it spells. */
  lemma ParsedSpells(ids: Str -> Option<Str>, raw: Str, c: Capability)
    requires Parse(ids, raw) == Some(c)
    ensures Spells(ids, raw, c)
  {
    hide ParsePath, ParseScope, TrimEnd, Find, ScopeFits, ScopeText;
    if NotWhole(raw) {
      if Ascii("enumerate:self:") <= raw {
        Split(Ascii("enumerate:self:"), raw);
        ScopeReadsIff(raw[|Ascii("enumerate:self:")|..], c.scope);
      } else if Ascii("enumerate:any:") <= raw {
        Split(Ascii("enumerate:any:"), raw);
        ScopeReadsIff(raw[|Ascii("enumerate:any:")|..], c.scope);
      } else if Ascii("subscribe:") <= raw {
        SubscribeSpells(ids, raw, c);
      } else {
        PathReadsIff(raw, c);
      }
    }
  }

  /** A subscription that is read at all has a colon after the identity. */
  lemma SubscribeSplits(ids: Str -> Option<Str>, raw: Str) returns (who: Str, tail: Str)
    requires Parse(ids, raw).Some? && NotWhole(raw) && Ascii("subscribe:") <= raw
    requires !(Ascii("enumerate:self:") <= raw) && !(Ascii("enumerate:any:") <= raw)
    ensures COLON !in who && raw == Ascii("subscribe:") + who + [COLON] + tail
  {
    hide Parse, NotWhole, Find, Ascii;
    SubscribeFinds(ids, raw);
    var start := Ascii("subscribe:");
    Split(start, raw);
    who, tail := AtColon(start, raw[|start|..]);
  }

  lemma SubscribeFinds(ids: Str -> Option<Str>, raw: Str)
    requires Parse(ids, raw).Some? && NotWhole(raw) && Ascii("subscribe:") <= raw
    requires !(Ascii("enumerate:self:") <= raw) && !(Ascii("enumerate:any:") <= raw)
    ensures Find(raw[|Ascii("subscribe:")|..], COLON).Some?
  {
    hide ParsePath, ParseScope, TrimEnd, Find, Ascii;
  }

  lemma AtColon(start: Str, rest: Str) returns (who: Str, tail: Str)
    requires Find(rest, COLON).Some?
    ensures COLON !in who && start + rest == start + who + [COLON] + tail
  {
    var colon := Find(rest, COLON).value;
    who, tail := rest[..colon], rest[colon + 1..];
    assert rest == who + [COLON] + tail;
  }

  lemma SubscribeSpells(ids: Str -> Option<Str>, raw: Str, c: Capability)
    requires Parse(ids, raw) == Some(c) && NotWhole(raw) && Ascii("subscribe:") <= raw
    requires !(Ascii("enumerate:self:") <= raw) && !(Ascii("enumerate:any:") <= raw)
    ensures Spells(ids, raw, c)
  {
    hide Parse, NotWhole, ParseScope, TrimEnd, ScopeFits, ScopeText, NamesIdentity;
    var who, tail := SubscribeSplits(ids, raw);
    ParseSubscribe(ids, who, tail);
    ScopeReadsIff(tail, c.scope);
    if who == Ascii("any") {
      AnyText(tail);
    } else {
      NamesOne(ids, who, c.subscribes.identity, c.scope);
    }
  }

  lemma NamesOne(ids: Str -> Option<Str>, who: Str, id: Str, scope: PathScope)
    requires COLON !in who && who != Ascii("any") && ids(TrimEnd(who, Ascii(".jolt"))) == Some(id)
    ensures NamesIdentity(ids, Ascii("subscribe:") + who + [COLON] + ScopeText(scope), id, scope)
  {
    hide TrimEnd, ScopeText;
  }

  /** A text is read as a capability exactly when it spells it. */
  lemma CapabilityReadsIff(ids: Str -> Option<Str>, raw: Str, c: Capability)
    ensures Parse(ids, raw) == Some(c) <==> Spells(ids, raw, c)
  {
    hide Parse, Spells;
    if Parse(ids, raw) == Some(c) { ParsedSpells(ids, raw, c); }
    match c {
      case Enumerate(_, _) => ParseEnumerateCase(ids, raw, c);
      case Subscribe(_, _) => ParseSubscribeCase(ids, raw, c);
      case Path(_, _) => ParsePathCase(ids, raw, c);
      case _ => ParseWholeCase(ids, raw, c);
    }
  }

  /** A subscription text that names an identity allows that identity's paths only,
      and only those its scope covers. */
  lemma NamedIdentityOnly(ids: Str -> Option<Str>, who: Str, scope: PathScope, id: Str, identity: Str, path: Str)
    requires ScopeFits(scope) && COLON !in who && who != Ascii("any") && ids(TrimEnd(who, Ascii(".jolt"))) == Some(id)
    ensures
      var raw := Ascii("subscribe:") + who + [COLON] + ScopeText(scope);
      && Parse(ids, raw).Some?
      && (AllowsSubscription(Parse(ids, raw).value, identity, path) <==> identity == id && Covers(scope, path))
  {
    hide Parse, ScopeFits, ScopeText, TrimEnd;
    var raw := Ascii("subscribe:") + who + [COLON] + ScopeText(scope);
    assert NamesIdentity(ids, raw, id, scope);
    CapabilityReadsIff(ids, raw, Subscribe(OnlyIdentity(id), scope));
  }

  ghost predicate Covers(s: PathScope, path: Str)
  {
    match s
    case Exact(p) => path == p
    case Prefix(p) => |path| >= |p| && path[..|p|] == p
  }
}
