/** The capabilities an app may be granted: what their text parses to, what they
    allow, and when one contains another. */
module AppCapabilities {
  import opened Wrappers
  import opened ByteStrings
  import Text

  const COLON: Byte := 0x3a
  const STAR: Byte := 0x2a

  datatype PathScope = Exact(path: Str) | Prefix(prefix: Str)

  datatype PathAction = Publish | Delete | PublishEncrypted | Inventory | PinOwn | Encrypt | Decrypt

  datatype EnumerateScope = SelfIdentity | EveryIdentity

  datatype SubscribeScope = AnyIdentity | OnlyIdentity(identity: Str)

  datatype Capability =
    | ResolvePublic
    | FetchPublic
    | IngressSend
    | IngressRead
    | IngressDecide
    | Enumerate(enumerates: EnumerateScope, scope: PathScope)
    | Subscribe(subscribes: SubscribeScope, scope: PathScope)
    | Path(action: PathAction, scope: PathScope)

  // ---- parsing ----

  function Count(s: Str, b: Byte): nat
  {
    if s == [] then 0 else (if s[0] == b then 1 else 0) + Count(s[1..], b)
  }

  /** No segment is a dot or two dots, and the whole is not a single slash. */
  predicate ValidBase(scope: Str)
  {
    scope != [Text.SLASH] && Ascii(".") !in Text.Segments(scope) && Ascii("..") !in Text.Segments(scope)
  }

  /** `PathScope::parse` */
  function ParseScope(raw: Str): Option<PathScope>
  {
    if !([Text.SLASH] <= raw) || Ascii("?")[0] in raw || Ascii("#")[0] in raw || Text.HasWhitespace(raw) then None
    else if Count(raw, STAR) > 1 then None
    else if Count(raw, STAR) == 1 then
      var n := |raw| - 2;
      if n < 0 || raw[n..] != [Text.SLASH, STAR] || !ValidBase(raw[..n]) then None
      else Some(Prefix(raw[..n] + [Text.SLASH]))
    else if !ValidBase(raw) then None
    else Some(Exact(raw))
  }

  /** The first position of a byte. */
  function Find(s: Str, b: Byte): (r: Option<nat>)
    ensures r.Some? ==> r.value < |s| && s[r.value] == b && b !in s[..r.value]
  {
    if s == [] then None
    else if s[0] == b then Some(0)
    else
      var r := Find(s[1..], b);
      if r.Some? then
        assert s[..r.value + 1] == [s[0]] + s[1..][..r.value];
        Some(r.value + 1)
      else None
  }

  /** `trim_end_matches` */
  function TrimEnd(s: Str, suffix: Str): Str
    requires suffix != []
  {
    if |s| >= |suffix| && s[|s| - |suffix|..] == suffix then TrimEnd(s[..|s| - |suffix|], suffix) else s
  }

  /** The path actions, in the order their prefixes are tried. */
  function PathActions(): seq<(Str, PathAction)>
  {
    [(Ascii("publish:encrypted:"), PublishEncrypted),
     (Ascii("publish:"), Publish),
     (Ascii("delete:"), Delete),
     (Ascii("inventory:"), Inventory),
     (Ascii("pin:own:"), PinOwn),
     (Ascii("encrypt:"), Encrypt),
     (Ascii("decrypt:"), Decrypt)]
  }

  /** `parse_path_capability`: the first prefix that matches decides. */
  function ParsePath(raw: Str, actions: seq<(Str, PathAction)>): Option<Capability>
  {
    if actions == [] then None
    else if actions[0].0 <= raw then
      var scope :- ParseScope(raw[|actions[0].0|..]);
      Some(Path(actions[0].1, scope))
    else ParsePath(raw, actions[1..])
  }

  /** `AppCapability::parse`; `ids` reads the text of an identity. */
  function Parse(ids: Str -> Option<Str>, raw: Str): Option<Capability>
  {
    if raw == Ascii("resolve:public") then Some(ResolvePublic)
    else if raw == Ascii("fetch:public") then Some(FetchPublic)
    else if raw == Ascii("ingress:send") then Some(IngressSend)
    else if raw == Ascii("ingress:read") then Some(IngressRead)
    else if raw == Ascii("ingress:decide") then Some(IngressDecide)
    else if Ascii("enumerate:self:") <= raw then
      var scope :- ParseScope(raw[|Ascii("enumerate:self:")|..]);
      Some(Enumerate(SelfIdentity, scope))
    else if Ascii("enumerate:any:") <= raw then
      var scope :- ParseScope(raw[|Ascii("enumerate:any:")|..]);
      Some(Enumerate(EveryIdentity, scope))
    else if Ascii("subscribe:") <= raw then
      var rest := raw[|Ascii("subscribe:")|..];
      var colon :- Find(rest, COLON);
      var who := rest[..colon];
      if who == Ascii("any") then
        var scope :- ParseScope(rest[colon + 1..]);
        Some(Subscribe(AnyIdentity, scope))
      else
        var id :- ids(TrimEnd(who, Ascii(".jolt")));
        var scope :- ParseScope(rest[colon + 1..]);
        Some(Subscribe(OnlyIdentity(id), scope))
    else ParsePath(raw, PathActions())
  }

  // ---- what is allowed ----

  /** `PathScope::allows_path` */
  predicate AllowsPath(s: PathScope, path: Str)
  {
    match s
    case Exact(exact) => path == exact
    case Prefix(prefix) => prefix <= path
  }

  /** `AppCapability::allows_data_subscription` */
  predicate AllowsSubscription(c: Capability, identity: Str, path: Str)
  {
    && c.Subscribe?
    && (c.subscribes.AnyIdentity? || c.subscribes.identity == identity)
    && AllowsPath(c.scope, path)
  }

  /** Something an app may want to do. */
  datatype Use =
    | Resolving
    | Fetching
    | Sending
    | Reading
    | Deciding
    | Enumerating(own: bool, path: Str)
    | Subscribing(identity: Str, path: Str)
    | Acting(action: PathAction, path: Str)

  predicate Allows(c: Capability, u: Use)
  {
    match u
    case Resolving => c.ResolvePublic?
    case Fetching => c.FetchPublic?
    case Sending => c.IngressSend?
    case Reading => c.IngressRead?
    case Deciding => c.IngressDecide?
    case Enumerating(own, path) => c.Enumerate? && (own || c.enumerates.EveryIdentity?) && AllowsPath(c.scope, path)
    case Subscribing(identity, path) => AllowsSubscription(c, identity, path)
    case Acting(action, path) => c.Path? && c.action == action && AllowsPath(c.scope, path)
  }

  // ---- containment ----

  /** `PathScope::contains` */
  predicate ScopeContains(requested: PathScope, granted: PathScope)
  {
    match (requested, granted)
    case (Exact(r), Exact(g)) => r == g
    case (Prefix(r), Exact(g)) => r <= g
    case (Prefix(r), Prefix(g)) => r <= g
    case (Exact(_), Prefix(_)) => false
  }

  /** `AppCapability::contains` */
  predicate Contains(requested: Capability, granted: Capability)
  {
    match (requested, granted)
    case (ResolvePublic, ResolvePublic) => true
    case (FetchPublic, FetchPublic) => true
    case (IngressSend, IngressSend) => true
    case (IngressRead, IngressRead) => true
    case (IngressDecide, IngressDecide) => true
    case (Enumerate(r, rs), Enumerate(g, gs)) => (r == g || r == EveryIdentity) && ScopeContains(rs, gs)
    case (Subscribe(r, rs), Subscribe(g, gs)) => (r == g || r == AnyIdentity) && ScopeContains(rs, gs)
    case (Path(r, rs), Path(g, gs)) => r == g && ScopeContains(rs, gs)
    case (_, _) => false
  }

  ghost predicate ScopeWithin(granted: PathScope, requested: PathScope)
  {
    forall p: Str :: AllowsPath(granted, p) ==> AllowsPath(requested, p)
  }

  ghost predicate Within(granted: Capability, requested: Capability)
  {
    forall u: Use :: Allows(granted, u) ==> Allows(requested, u)
  }

  /** A path every scope allows. */
  function Somewhere(s: PathScope): (p: Str)
    ensures AllowsPath(s, p)
  {
    match s
    case Exact(p) => p
    case Prefix(p) => p
  }

  /** Scope containment is inclusion of what is allowed, both ways. */
  lemma ScopeContainsIsInclusion(requested: PathScope, granted: PathScope)
    ensures ScopeContains(requested, granted) <==> ScopeWithin(granted, requested)
  {
    if ScopeContains(requested, granted) {
      forall p: Str | AllowsPath(granted, p) ensures AllowsPath(requested, p) {
        if requested.Prefix? && granted.Prefix? {
          PrefixTransitive(requested.prefix, granted.prefix, p);
        }
      }
    }
    var here := Somewhere(granted);
    var further := here + [STAR];
    assert |further| > |here|;
    if ScopeWithin(granted, requested) {
      assert AllowsPath(requested, here);
      assert granted.Prefix? ==> AllowsPath(granted, further);
    }
  }

  lemma PrefixTransitive(a: Str, b: Str, c: Str)
    requires a <= b && b <= c
    ensures a <= c
  {
  }

  /** What a capability is about, at one path. */
  function UseAt(c: Capability, identity: Str, p: Str): Use
  {
    match c
    case ResolvePublic => Resolving
    case FetchPublic => Fetching
    case IngressSend => Sending
    case IngressRead => Reading
    case IngressDecide => Deciding
    case Enumerate(who, _) => Enumerating(who == SelfIdentity, p)
    case Subscribe(who, _) => Subscribing(if who.OnlyIdentity? then who.identity else identity, p)
    case Path(action, _) => Acting(action, p)
  }

  predicate Scoped(c: Capability)
  {
    c.Enumerate? || c.Subscribe? || c.Path?
  }

  lemma UseAtAllowed(c: Capability, identity: Str, p: Str)
    requires Scoped(c) ==> AllowsPath(c.scope, p)
    ensures Allows(c, UseAt(c, identity, p))
  {
  }

  /** A requested capability contains a granted one exactly when everything the
      granted one allows, the requested one allows. */
  lemma ContainsIsInclusion(requested: Capability, granted: Capability)
    ensures Contains(requested, granted) <==> Within(granted, requested)
  {
    if Scoped(requested) && Scoped(granted) {
      ScopeContainsIsInclusion(requested.scope, granted.scope);
    }
    if Contains(requested, granted) {
      hide ScopeContains, AllowsPath;
      forall u: Use | Allows(granted, u) ensures Allows(requested, u) {
      }
    }
    if Within(granted, requested) {
      WithinContains(requested, granted);
    }
  }

  /** An identity other than the one a subscription names. */
  function Another(c: Capability): Str
  {
    if c.Subscribe? && c.subscribes.OnlyIdentity? then c.subscribes.identity + [STAR] else []
  }

  lemma WithinContains(requested: Capability, granted: Capability)
    requires Within(granted, requested)
    ensures Contains(requested, granted)
  {
    var other := Another(requested);
    var here := if Scoped(granted) then Somewhere(granted.scope) else [];
    UseAtAllowed(granted, other, here);
    assert Allows(requested, UseAt(granted, other, here));
    if Scoped(granted) {
      hide ScopeContains;
      assert Scoped(requested);
      forall p: Str | AllowsPath(granted.scope, p) ensures AllowsPath(requested.scope, p) {
        UseAtAllowed(granted, other, p);
        assert Allows(requested, UseAt(granted, other, p));
      }
      ScopeContainsIsInclusion(requested.scope, granted.scope);
      hide AllowsPath, ScopeWithin;
      if requested.Subscribe? && requested.subscribes.OnlyIdentity? {
        assert |other| > |requested.subscribes.identity|;
      }
    }
  }

  // ---- what the text of a scope means ----

  /** The text of a scope. */
  function ScopeText(s: PathScope): Str
  {
    match s
    case Exact(p) => p
    case Prefix(p) => p + [STAR]
  }

  /** A parsed scope is written one way only, and a wildcard covers whole segments:
      what it allows continues after a slash. */
  lemma ParsedScope(raw: Str)
    requires ParseScope(raw).Some?
    ensures
      var s := ParseScope(raw).value;
      && ScopeText(s) == raw
      && (s.Prefix? ==> s.prefix != [] && s.prefix[|s.prefix| - 1] == Text.SLASH)
  {
    if Count(raw, STAR) == 1 {
      var n := |raw| - 2;
      assert raw == raw[..n] + raw[n..];
      assert raw[..n] + [Text.SLASH] + [STAR] == raw[..n] + [Text.SLASH, STAR];
    }
  }

  // ---- what was requested ----

  /** `capability_was_requested` */
  predicate WasRequested(ids: Str -> Option<Str>, capability: Str, requested: seq<Str>)
  {
    && Parse(ids, capability).Some?
    && exists i :: 0 <= i < |requested|
         && Parse(ids, requested[i]).Some?
         && Contains(Parse(ids, requested[i]).value, Parse(ids, capability).value)
  }

  /** One requested capability allows everything the granted one does. */
  lemma RequestedCovers(ids: Str -> Option<Str>, capability: Str, requested: seq<Str>)
    ensures WasRequested(ids, capability, requested)
        <==> && Parse(ids, capability).Some?
             && exists i :: 0 <= i < |requested|
                  && Parse(ids, requested[i]).Some?
                  && Within(Parse(ids, capability).value, Parse(ids, requested[i]).value)
  {
    if Parse(ids, capability).Some? {
      var c := Parse(ids, capability).value;
      forall i | 0 <= i < |requested| && Parse(ids, requested[i]).Some?
        ensures Contains(Parse(ids, requested[i]).value, c) <==> Within(c, Parse(ids, requested[i]).value)
      {
        ContainsIsInclusion(Parse(ids, requested[i]).value, c);
      }
      hide Parse, Contains, Within;
    }
  }

  /** `AppSessionView::allows_data_subscription` */
  predicate SubscriptionAllowed(ids: Str -> Option<Str>, granted: seq<Str>, identity: Str, path: Str)
  {
    exists i :: 0 <= i < |granted| && Parse(ids, granted[i]).Some?
                && AllowsSubscription(Parse(ids, granted[i]).value, identity, path)
  }
}
