/** What the operations of the session store do, in the fields of its records. */
module AppSessionMeaning {
  import opened Wrappers
  import opened ByteStrings
  import opened AppCapabilities
  import opened AppSessions
  import opened AppSessionRuns

  // ---- requests and approvals ----

  /** A request is kept as it was made, waiting and without rights. */
  lemma CreateKeeps(st: State, requestId: Str, app: App, requestedIdentity: Option<Str>, requested: seq<Str>, now: nat)
    ensures
      var after := CreateStep(st, requestId, app, requestedIdentity, requested, now);
      && |after.records| == |st.records| + 1 && after.records[..|st.records|] == st.records
      && after.subscriptions == st.subscriptions && after.issued == st.issued
      && var r := after.records[|st.records|];
         && r.requestId == requestId && r.app == app && r.requestedIdentity == requestedIdentity
         && r.requested == requested && r.createdAt == now && r.status == Pending
         && r.sessionId.None? && r.identity.None? && r.deviceId.None? && r.granted == [] && r.tokenHash.None?
         && r.expiresAt.None? && r.approvedAt.None? && r.rejectedAt.None? && r.revokedAt.None? && r.lastUsedAt.None?
  {
  }

  /** The first record of a request. */
  ghost predicate IsRequest(st: State, requestId: Str, i: nat)
  {
    && i < |st.records| && st.records[i].requestId == requestId
    && forall k :: 0 <= k < i ==> st.records[k].requestId != requestId
  }

  ghost predicate Unknown(st: State, requestId: Str)
  {
    forall k :: 0 <= k < |st.records| ==> st.records[k].requestId != requestId
  }

  lemma RequestMeans(st: State, requestId: Str)
    ensures First(st.records, Requests(requestId)).None? <==> Unknown(st, requestId)
    ensures forall i: nat :: First(st.records, Requests(requestId)) == Some(i) <==> IsRequest(st, requestId, i)
  {
    var at := First(st.records, Requests(requestId));
    hide First;
    assert at.Some? ==> Requests(requestId)(st.records[at.value]);
    forall i: nat | IsRequest(st, requestId, i) ensures at == Some(i) {
      assert Requests(requestId)(st.records[i]);
    }
  }

  /** Why an approval is refused: no such request, or one already decided; no identity
      given or requested; a capability that is none, or was not asked for. A refused
      approval changes nothing. */
  lemma ApproveRefuses(ids: Str -> Option<Str>, st: State, requestId: Str, approval: Approval, draw: Draw, now: nat,
                       saved: bool)
    ensures
      var (after, r) := ApproveStep(ids, st, requestId, approval, draw, now, saved);
      && (Unknown(st, requestId) ==> r == Err(RequestNotFound(requestId)) && after == st)
      && forall i: nat :: IsRequest(st, requestId, i) ==>
           var asked := st.records[i];
           var grants := if approval.capabilities == [] then asked.requested else approval.capabilities;
           && (asked.status != Pending ==> r == Err(RequestNotPending(requestId)) && after == st)
           && (asked.status == Pending && approval.identity.None? && asked.requestedIdentity.None? ==>
                 r == Err(MissingIdentity) && after == st)
           && (asked.status == Pending && (approval.identity.Some? || asked.requestedIdentity.Some?)
               && (exists k :: 0 <= k < |grants| && !WasRequested(ids, grants[k], asked.requested)) ==>
                 && after == st && r.Err?
                 && exists k :: 0 <= k < |grants| && !WasRequested(ids, grants[k], asked.requested)
                      && (forall l :: 0 <= l < k ==> WasRequested(ids, grants[l], asked.requested))
                      && r.error ==
                         if Parse(ids, grants[k]).None? then NotGrantable(grants[k]) else NotRequested(grants[k]))
  {
    hide First, WasRequested, Parse, GrantError;
    RequestMeans(st, requestId);
    forall i: nat | IsRequest(st, requestId, i)
      ensures First(st.records, Requests(requestId)) == Some(i)
    {
    }
    if First(st.records, Requests(requestId)).Some? {
      var asked := st.records[First(st.records, Requests(requestId)).value];
      GrantErrorNone(ids, Grants(asked, approval), asked.requested);
      if GrantError(ids, Grants(asked, approval), asked.requested).Some? {
        GrantErrorIsFirst(ids, Grants(asked, approval), asked.requested);
      }
    }
  }

  lemma {:induction false} GrantErrorIsFirst(ids: Str -> Option<Str>, capabilities: seq<Str>, requested: seq<Str>)
    requires GrantError(ids, capabilities, requested).Some?
    ensures exists k ::
      && 0 <= k < |capabilities| && !WasRequested(ids, capabilities[k], requested)
      && (forall l :: 0 <= l < k ==> WasRequested(ids, capabilities[l], requested))
      && GrantError(ids, capabilities, requested)
         == Some(if Parse(ids, capabilities[k]).None? then NotGrantable(capabilities[k])
                 else NotRequested(capabilities[k]))
  {
    hide WasRequested, Parse;
    var n := |capabilities| - 1;
    var before := capabilities[..n];
    if GrantError(ids, before, requested).Some? {
      GrantErrorIsFirst(ids, before, requested);
      var k :| 0 <= k < n && !WasRequested(ids, before[k], requested)
        && (forall l :: 0 <= l < k ==> WasRequested(ids, before[l], requested))
        && GrantError(ids, before, requested)
           == Some(if Parse(ids, before[k]).None? then NotGrantable(before[k]) else NotRequested(before[k]));
      assert capabilities[k] == before[k] && forall l :: 0 <= l < k ==> capabilities[l] == before[l];
    } else {
      GrantErrorNone(ids, before, requested);
      RequestedParses(ids, capabilities[n], requested);
      assert forall l :: 0 <= l < n ==> capabilities[l] == before[l];
    }
  }

  /** An approval that goes through changes its request only: the session is active from
      now on until the approval's expiry. */
  lemma ApproveGrants(ids: Str -> Option<Str>, st: State, requestId: Str, approval: Approval, draw: Draw, now: nat,
                      saved: bool, i: nat)
    requires IsRequest(st, requestId, i)
    requires ApproveStep(ids, st, requestId, approval, draw, now, saved).0 != st
    ensures
      var (after, r) := ApproveStep(ids, st, requestId, approval, draw, now, saved);
      var was := st.records[i];
      && |after.records| == |st.records| && after.subscriptions == st.subscriptions
      && (forall k :: 0 <= k < |st.records| && k != i ==> after.records[k] == st.records[k])
      && after.issued == (if saved then st.issued[requestId := draw.token] else st.issued)
      && (r.Ok? <==> saved)
      && var made := after.records[i];
         && was.status == Pending && made.status == Active && made.approvedAt == Some(now)
         && made.expiresAt == approval.expiresAt && made.tokenHash == Some(draw.tokenHash)
         && made.sessionId == Some(draw.sessionId) && made.deviceId == Some(draw.deviceId)
         && made.identity == (if approval.identity.Some? then approval.identity else was.requestedIdentity)
         && made.granted == (if approval.capabilities == [] then was.requested else approval.capabilities)
  {
    hide First, WasRequested, Parse, GrantError;
    RequestMeans(st, requestId);
  }

  lemma RejectMeans(st: State, requestId: Str, now: nat, saved: bool, i: nat)
    requires IsRequest(st, requestId, i)
    ensures
      var (after, r) := RejectStep(st, requestId, now, saved);
      var was := st.records[i];
      if was.status != Pending then after == st && r == Err(RequestNotPending(requestId))
      else
        && after == st.(records := st.records[i := was.(status := Rejected, rejectedAt := Some(now))])
        && (r.Ok? <==> saved)
  {
    hide First;
    RequestMeans(st, requestId);
  }

  // ---- tokens ----

  /** The first record that holds a token. */
  ghost predicate Holds(st: State, hash: Str, i: nat)
  {
    && i < |st.records| && st.records[i].tokenHash == Some(hash)
    && forall k :: 0 <= k < i ==> st.records[k].tokenHash != Some(hash)
  }

  ghost predicate Unheld(st: State, hash: Str)
  {
    forall k :: 0 <= k < |st.records| ==> st.records[k].tokenHash != Some(hash)
  }

  lemma HolderMeans(st: State, hash: Str)
    ensures First(st.records, Holders(hash)).None? <==> Unheld(st, hash)
    ensures forall i: nat :: First(st.records, Holders(hash)) == Some(i) <==> Holds(st, hash, i)
  {
    var at := First(st.records, Holders(hash));
    hide First;
    assert at.Some? ==> Holders(hash)(st.records[at.value]);
    forall i: nat | Holds(st, hash, i) ensures at == Some(i) {
      assert Holders(hash)(st.records[i]);
    }
  }

  /** A token opens its session exactly while the session is active and its expiry, if
      it has one, is still to come; the use is noted, and nothing else changes. */
  lemma TokenOpensIff(st: State, hash: Str, now: nat, saved: bool, i: nat)
    requires Holds(st, hash, i)
    ensures
      var (after, r) := TokenStep(st, hash, now, saved);
      var s := st.records[i];
      var opens := s.status == Active && (s.expiresAt.Some? ==> now < s.expiresAt.value);
      && (r.Ok? <==> saved && opens)
      && (r.Ok? ==> r.value == s.(lastUsedAt := Some(now), tokenHash := None))
      && (opens ==> after == st.(records := st.records[i := s.(lastUsedAt := Some(now))]))
      && (s.status != Active ==> after == st)
      && (r.Err? ==> r.error == if s.status != Active || saved then InvalidToken else Io)
  {
    hide First;
    HolderMeans(st, hash);
  }

  /** A token used at or after its session's expiry is refused, and the session is
      expired from then on: its subscriptions go, and no other record changes. */
  lemma ExpiryEnds(st: State, hash: Str, now: nat, saved: bool, i: nat)
    requires Holds(st, hash, i) && st.records[i].status == Active
    requires st.records[i].expiresAt.Some? && st.records[i].expiresAt.value <= now
    ensures
      var (after, r) := TokenStep(st, hash, now, saved);
      && r.Err?
      && after.records == st.records[i := st.records[i].(status := Expired)]
      && (forall s :: s in after.subscriptions <==>
                      s in st.subscriptions && Some(s.sessionId) != st.records[i].sessionId)
  {
    hide First;
    HolderMeans(st, hash);
  }

  /** An unknown token opens nothing. */
  lemma UnheldRefused(st: State, hash: Str, now: nat, saved: bool)
    requires Unheld(st, hash)
    ensures TokenStep(st, hash, now, saved) == (st, Err(InvalidToken))
  {
    hide First;
    HolderMeans(st, hash);
  }

  /** No operation hands out a token hash. */
  lemma HashesStayInside(ids: Str -> Option<Str>, st: State, requestId: Str, approval: Approval, draw: Draw,
                         sessionId: Str, test: Record -> bool, deviceId: Str, hash: Str, now: nat, saved: bool)
    ensures
      var approved := ApproveStep(ids, st, requestId, approval, draw, now, saved).1;
      var rejected := RejectStep(st, requestId, now, saved).1;
      var ended := EndStep(st, sessionId, test, now, saved).1;
      var used := TokenStep(st, hash, now, saved).1;
      var swept := EndDeviceStep(st, deviceId, now, saved).1;
      && (approved.Ok? ==> approved.value.tokenHash.None?) && (rejected.Ok? ==> rejected.value.tokenHash.None?)
      && (ended.Ok? ==> ended.value.tokenHash.None?) && (used.Ok? ==> used.value.tokenHash.None?)
      && (swept.Ok? ==> forall x :: x in swept.value ==> x.tokenHash.None?)
  {
    hide First, GrantError, Without, EndAll;
    EndedHideHashes(st.records, deviceId, now);
  }

  lemma {:induction false} EndedHideHashes(records: seq<Record>, deviceId: Str, now: nat)
    ensures forall x :: x in EndedOn(records, deviceId, now) ==> x.tokenHash.None?
  {
    if records != [] { EndedHideHashes(records[..|records| - 1], deviceId, now); }
  }

  // ---- ending sessions ----

  /** Revoking ends the first record of the session, for its identity only when one is
      given, and drops the session's subscriptions. */
  lemma RevokeMeans(st: State, sessionId: Str, identity: Option<Str>, now: nat, saved: bool)
    ensures
      var test := if identity.Some? then SessionsOf(sessionId, identity.value) else Sessions(sessionId);
      var (after, r) := EndStep(st, sessionId, test, now, saved);
      if exists k :: 0 <= k < |st.records| && IsSession(st.records[k], sessionId, identity) then
        && (exists i :: 0 <= i < |st.records| && IsSession(st.records[i], sessionId, identity)
             && (forall k :: 0 <= k < i ==> !IsSession(st.records[k], sessionId, identity))
             && after.records == st.records[i := st.records[i].(status := Ended, revokedAt := Some(now))])
        && (forall s :: s in after.subscriptions <==> s in st.subscriptions && s.sessionId != sessionId)
        && (r.Ok? <==> saved)
      else after == st && r == Err(SessionNotFound(sessionId))
  {
    var test := if identity.Some? then SessionsOf(sessionId, identity.value) else Sessions(sessionId);
    assert forall x :: test(x) <==> IsSession(x, sessionId, identity);
    hide IsSession, Sessions, SessionsOf;
    var at := First(st.records, test);
    if at.Some? { assert test(st.records[at.value]); }
  }

  ghost predicate IsSession(r: Record, sessionId: Str, identity: Option<Str>)
  {
    r.sessionId == Some(sessionId) && (identity.Some? ==> r.identity == identity)
  }

  /** The sessions a device revocation ends: the active ones opened on it. */
  ghost predicate LiveOn(r: Record, deviceId: Str)
  {
    r.sessionId.Some? && r.deviceId == Some(deviceId) && r.status == Active
  }

  lemma {:induction false} EndedMeans(records: seq<Record>, deviceId: Str, now: nat, x: Record)
    ensures x in EndedOn(records, deviceId, now) <==>
      exists r :: r in records && LiveOn(r, deviceId)
                  && x == r.(status := Ended, revokedAt := Some(now), tokenHash := None)
  {
    if records != [] {
      var init, last := records[..|records| - 1], records[|records| - 1];
      EndedMeans(init, deviceId, now, x);
      assert records == init + [last];
    }
  }

  /** Revoking a device ends exactly its active sessions and reports exactly those. */
  lemma DeviceRevocation(st: State, deviceId: Str, now: nat, saved: bool)
    ensures
      var (after, r) := EndDeviceStep(st, deviceId, now, saved);
      && |after.records| == |st.records|
      && (forall i :: 0 <= i < |st.records| ==>
            after.records[i] ==
            if LiveOn(st.records[i], deviceId) then st.records[i].(status := Ended, revokedAt := Some(now))
            else st.records[i])
      && (r.Ok? ==>
            forall x :: x in r.value <==>
              exists y :: y in st.records && LiveOn(y, deviceId)
                          && x == y.(status := Ended, revokedAt := Some(now), tokenHash := None))
  {
    var ended := EndedOn(st.records, deviceId, now);
    forall x
      ensures x in ended <==>
        exists y :: y in st.records && LiveOn(y, deviceId)
                    && x == y.(status := Ended, revokedAt := Some(now), tokenHash := None)
    {
      EndedMeans(st.records, deviceId, now, x);
    }
    hide EndedOn, Without;
    if ended == [] {
      forall i | 0 <= i < |st.records| ensures !LiveOn(st.records[i], deviceId) {
        var x := st.records[i].(status := Ended, revokedAt := Some(now), tokenHash := None);
        assert LiveOn(st.records[i], deviceId) ==> x in ended;
      }
    }
  }

  // ---- subscriptions ----

  ghost predicate Same(s: Subscription, sessionId: Str, identity: Str, prefix: Str)
  {
    s.sessionId == sessionId && s.identity == identity && s.prefix == prefix
  }

  lemma {:induction false} ExistingMeans(subs: seq<Subscription>, sessionId: Str, identity: Str, prefix: Str)
    ensures
      var at := Existing(subs, sessionId, identity, prefix);
      && (at.None? ==> forall s :: s in subs ==> !Same(s, sessionId, identity, prefix))
      && (at.Some? ==> Same(subs[at.value], sessionId, identity, prefix)
                       && forall k :: 0 <= k < at.value ==> !Same(subs[k], sessionId, identity, prefix))
  {
    if subs != [] {
      var init, last := subs[..|subs| - 1], subs[|subs| - 1];
      ExistingMeans(init, sessionId, identity, prefix);
      assert subs == init + [last];
      assert forall k :: 0 <= k < |init| ==> init[k] in init;
    }
  }

  /** Registering again gives the subscription there is; otherwise one is added while
      there is room for it. */
  lemma RegisterMeans(st: State, max: nat, id: Str, sessionId: Str, identity: Str, prefix: Str, now: nat, saved: bool)
    ensures
      var (after, r) := SubscribeStep(st, max, id, sessionId, identity, prefix, now, saved);
      if exists s :: s in st.subscriptions && Same(s, sessionId, identity, prefix) then
        after == st && r.Ok? && r.value in st.subscriptions && Same(r.value, sessionId, identity, prefix)
      else if |st.subscriptions| >= max then after == st && r == Err(CapacityExceeded)
      else
        var s := Subscription(id, sessionId, identity, prefix, now);
        && after == st.(subscriptions := st.subscriptions + [s])
        && r == if saved then Ok(s) else Err(Io)
  {
    hide Existing;
    ExistingMeans(st.subscriptions, sessionId, identity, prefix);
  }

  /** No two subscriptions of one session are for the same paths of one identity. */
  ghost predicate Distinct(subs: seq<Subscription>)
  {
    forall i, j :: 0 <= i < j < |subs| ==> !Same(subs[i], subs[j].sessionId, subs[j].identity, subs[j].prefix)
  }

  lemma {:induction false} WithoutDistinct(subs: seq<Subscription>, gone: seq<Str>)
    requires Distinct(subs)
    ensures Distinct(Without(subs, gone)) && |Without(subs, gone)| <= |subs|
  {
    if subs != [] {
      var init, last := subs[..|subs| - 1], subs[|subs| - 1];
      WithoutDistinct(init, gone);
      var kept := Without(init, gone);
      forall k | 0 <= k < |kept| ensures !Same(kept[k], last.sessionId, last.identity, last.prefix) {
        assert kept[k] in kept;
        var l :| 0 <= l < |init| && init[l] == kept[k];
        assert subs[l] == kept[k];
      }
    }
  }

  lemma StepDistinct(ids: Str -> Option<Str>, st: State, a: Action, max: nat)
    requires Distinct(st.subscriptions) && |st.subscriptions| <= max
    requires a.Register? ==> a.max == max
    ensures
      var after := Step(ids, st, a);
      Distinct(after.subscriptions) && |after.subscriptions| <= max
  {
    hide GrantError, EndedOn, EndAll, First, Existing, Without, Distinct;
    match a {
      case Register(_, id, sessionId, identity, prefix, now, saved) =>
        RegisterMeans(st, max, id, sessionId, identity, prefix, now, saved);
        if forall s :: s in st.subscriptions ==> !Same(s, sessionId, identity, prefix) {
          OneMoreDistinct(st.subscriptions, Subscription(id, sessionId, identity, prefix, now));
        }
      case End(sessionId, now, saved) => WithoutDistinct(st.subscriptions, [sessionId]);
      case EndFor(sessionId, identity, now, saved) => WithoutDistinct(st.subscriptions, [sessionId]);
      case EndDevice(deviceId, now, saved) =>
        WithoutDistinct(st.subscriptions, SessionIds(EndedOn(st.records, deviceId, now)));
      case Use(hash, now, saved) =>
        var at := First(st.records, Holders(hash));
        if at.Some? && st.records[at.value].sessionId.Some? {
          WithoutDistinct(st.subscriptions, [st.records[at.value].sessionId.value]);
        }
        WithoutDistinct(st.subscriptions, []);
      case _ =>
    }
  }

  lemma OneMoreDistinct(subs: seq<Subscription>, s: Subscription)
    requires Distinct(subs) && forall x :: x in subs ==> !Same(x, s.sessionId, s.identity, s.prefix)
    ensures Distinct(subs + [s])
  {
    assert forall k :: 0 <= k < |subs| ==> subs[k] in subs;
  }

  /** In every run of a store there are never more subscriptions than its limit, and
      never two alike. */
  lemma {:induction false} SubscriptionsBounded(ids: Str -> Option<Str>, actions: seq<Action>, max: nat)
    requires forall i :: 0 <= i < |actions| && actions[i].Register? ==> actions[i].max == max
    ensures
      var st := Continue(ids, EMPTY, actions);
      Distinct(st.subscriptions) && |st.subscriptions| <= max
  {
    hide Step, Distinct;
    if actions == [] {
      NoneDistinct();
    } else {
      var n := |actions| - 1;
      assert forall i :: 0 <= i < n ==> actions[..n][i] == actions[i];
      SubscriptionsBounded(ids, actions[..n], max);
      StepDistinct(ids, Continue(ids, EMPTY, actions[..n]), actions[n], max);
    }
  }

  lemma NoneDistinct()
    ensures Distinct([])
  {
  }
}
