/** Every run of the app session store. */
module AppSessionRuns {
  import opened Wrappers
  import opened ByteStrings
  import opened AppCapabilities
  import opened AppSessions

  datatype Action =
    | Create(requestId: Str, app: App, requestedIdentity: Option<Str>, requested: seq<Str>, now: nat)
    | Approve(requestId: Str, approval: Approval, draw: Draw, now: nat, saved: bool)
    | Reject(requestId: Str, now: nat, saved: bool)
    | End(sessionId: Str, now: nat, saved: bool)
    | EndFor(sessionId: Str, identity: Str, now: nat, saved: bool)
    | EndDevice(deviceId: Str, now: nat, saved: bool)
    | Use(hash: Str, now: nat, saved: bool)
    | Register(max: nat, id: Str, sessionId: Str, identity: Str, prefix: Str, now: nat, saved: bool)

  function Step(ids: Str -> Option<Str>, st: State, a: Action): State
  {
    match a
    case Create(requestId, app, requestedIdentity, requested, now) =>
      CreateStep(st, requestId, app, requestedIdentity, requested, now)
    case Approve(requestId, approval, draw, now, saved) => ApproveStep(ids, st, requestId, approval, draw, now, saved).0
    case Reject(requestId, now, saved) => RejectStep(st, requestId, now, saved).0
    case End(sessionId, now, saved) => EndStep(st, sessionId, Sessions(sessionId), now, saved).0
    case EndFor(sessionId, identity, now, saved) =>
      EndStep(st, sessionId, SessionsOf(sessionId, identity), now, saved).0
    case EndDevice(deviceId, now, saved) => EndDeviceStep(st, deviceId, now, saved).0
    case Use(hash, now, saved) => TokenStep(st, hash, now, saved).0
    case Register(max, id, sessionId, identity, prefix, now, saved) =>
      SubscribeStep(st, max, id, sessionId, identity, prefix, now, saved).0
  }

  function Continue(ids: Str -> Option<Str>, st: State, actions: seq<Action>): State
  {
    if actions == [] then st
    else Step(ids, Continue(ids, st, actions[..|actions| - 1]), actions[|actions| - 1])
  }

  const EMPTY: State := State([], [], map[])

  // ---- how a record changes ----

  /** A record and the same record later: what was asked for never changes, what was
      granted is fixed once, and a session that is over stays over. */
  ghost predicate Later(before: Record, after: Record)
  {
    && after.requestId == before.requestId
    && after.app == before.app
    && after.requested == before.requested
    && (before.status != Pending ==>
          && after.status != Pending
          && after.granted == before.granted
          && after.identity == before.identity
          && after.sessionId == before.sessionId
          && after.tokenHash == before.tokenHash
          && after.expiresAt == before.expiresAt)
    && (before.status !in {Pending, Active} ==> after.status !in {Pending, Active})
  }

  lemma LaterTransitive(a: Record, b: Record, c: Record)
    requires Later(a, b) && Later(b, c)
    ensures Later(a, c)
  {
  }

  lemma ApproveLater(ids: Str -> Option<Str>, st: State, requestId: Str, approval: Approval, draw: Draw, now: nat,
                     saved: bool, i: nat)
    requires i < |st.records|
    ensures
      var after := ApproveStep(ids, st, requestId, approval, draw, now, saved).0;
      |after.records| == |st.records| && Later(st.records[i], after.records[i])
  {
    hide GrantError, Grants, Requests;
  }

  lemma EndLater(st: State, sessionId: Str, test: Record -> bool, now: nat, saved: bool, i: nat)
    requires i < |st.records|
    ensures
      var after := EndStep(st, sessionId, test, now, saved).0;
      |after.records| == |st.records| && Later(st.records[i], after.records[i])
  {
    hide Without;
  }

  lemma UseLater(st: State, hash: Str, now: nat, saved: bool, i: nat)
    requires i < |st.records|
    ensures
      var after := TokenStep(st, hash, now, saved).0;
      |after.records| == |st.records| && Later(st.records[i], after.records[i])
  {
    hide Without, Holders;
  }

  lemma RejectLater(st: State, requestId: Str, now: nat, saved: bool, i: nat)
    requires i < |st.records|
    ensures
      var after := RejectStep(st, requestId, now, saved).0;
      |after.records| == |st.records| && Later(st.records[i], after.records[i])
  {
    hide Requests;
  }

  lemma DeviceLater(st: State, deviceId: Str, now: nat, saved: bool, i: nat)
    requires i < |st.records|
    ensures
      var after := EndDeviceStep(st, deviceId, now, saved).0;
      |after.records| == |st.records| && Later(st.records[i], after.records[i])
  {
    hide Without, SessionIds, EndedOn;
  }

  lemma StepLater(ids: Str -> Option<Str>, st: State, a: Action, i: nat)
    requires i < |st.records|
    ensures i < |Step(ids, st, a).records|
    ensures Later(st.records[i], Step(ids, st, a).records[i])
  {
    match a {
      case Approve(requestId, approval, draw, now, saved) =>
        ApproveLater(ids, st, requestId, approval, draw, now, saved, i);
        hide ApproveStep, Later;
      case Reject(requestId, now, saved) =>
        RejectLater(st, requestId, now, saved, i);
        hide RejectStep, Later;
      case End(sessionId, now, saved) =>
        EndLater(st, sessionId, Sessions(sessionId), now, saved, i);
        hide EndStep, Later;
      case EndFor(sessionId, identity, now, saved) =>
        EndLater(st, sessionId, SessionsOf(sessionId, identity), now, saved, i);
        hide EndStep, Later;
      case EndDevice(deviceId, now, saved) =>
        DeviceLater(st, deviceId, now, saved, i);
        hide EndDeviceStep, Later;
      case Use(hash, now, saved) =>
        UseLater(st, hash, now, saved, i);
        hide TokenStep, Later;
      case _ => hide Existing;
    }
  }

  // ---- what holds of every record ----

  /** Only an approved session has a session id, a token or grants, and every grant
      was requested. */
  ghost predicate Proper(ids: Str -> Option<Str>, r: Record)
  {
    && (r.status in {Pending, Rejected} ==> r.sessionId.None? && r.tokenHash.None? && r.granted == [])
    && forall i :: 0 <= i < |r.granted| ==> WasRequested(ids, r.granted[i], r.requested)
  }

  lemma ApproveProper(ids: Str -> Option<Str>, st: State, requestId: Str, approval: Approval, draw: Draw, now: nat,
                      saved: bool, i: nat)
    requires i < |st.records| && Proper(ids, st.records[i])
    ensures
      var after := ApproveStep(ids, st, requestId, approval, draw, now, saved).0;
      i < |after.records| && Proper(ids, after.records[i])
  {
    hide WasRequested, Requests;
    var at := First(st.records, Requests(requestId));
    if at.Some? {
      var r := st.records[at.value];
      GrantErrorNone(ids, Grants(r, approval), r.requested);
    }
    hide GrantError;
  }

  lemma StepProper(ids: Str -> Option<Str>, st: State, a: Action, i: nat)
    requires forall k :: 0 <= k < |st.records| ==> Proper(ids, st.records[k])
    requires i < |Step(ids, st, a).records|
    ensures Proper(ids, Step(ids, st, a).records[i])
  {
    hide WasRequested, Without, EndedOn, SessionIds, Existing;
    match a {
      case Approve(requestId, approval, draw, now, saved) =>
        ApproveProper(ids, st, requestId, approval, draw, now, saved, i);
        hide ApproveStep;
      case EndDevice(deviceId, now, saved) =>
        DeviceProper(ids, st, deviceId, now, saved, i);
        hide EndDeviceStep;
      case End(sessionId, now, saved) =>
        EndProper(ids, st, sessionId, Sessions(sessionId), now, saved, i);
        hide EndStep;
      case EndFor(sessionId, identity, now, saved) =>
        EndProper(ids, st, sessionId, SessionsOf(sessionId, identity), now, saved, i);
        hide EndStep;
      case _ =>
    }
  }

  lemma EndProper(ids: Str -> Option<Str>, st: State, sessionId: Str, test: Record -> bool, now: nat, saved: bool,
                  i: nat)
    requires i < |st.records| && Proper(ids, st.records[i])
    ensures
      var after := EndStep(st, sessionId, test, now, saved).0;
      i < |after.records| && Proper(ids, after.records[i])
  {
    hide WasRequested, Without;
  }

  lemma DeviceProper(ids: Str -> Option<Str>, st: State, deviceId: Str, now: nat, saved: bool, i: nat)
    requires i < |st.records| && Proper(ids, st.records[i])
    ensures
      var after := EndDeviceStep(st, deviceId, now, saved).0;
      i < |after.records| && Proper(ids, after.records[i])
  {
    hide WasRequested, Without, EndedOn, SessionIds;
  }

  lemma {:induction false} AlwaysProper(ids: Str -> Option<Str>, actions: seq<Action>)
    ensures forall i :: 0 <= i < |Continue(ids, EMPTY, actions).records| ==>
              Proper(ids, Continue(ids, EMPTY, actions).records[i])
  {
    if actions != [] {
      var before := Continue(ids, EMPTY, actions[..|actions| - 1]);
      AlwaysProper(ids, actions[..|actions| - 1]);
      var after := Step(ids, before, actions[|actions| - 1]).records;
      forall i | 0 <= i < |after| ensures Proper(ids, after[i]) {
        StepProper(ids, before, actions[|actions| - 1], i);
      }
      hide Proper, Step;
    }
  }

  /** In every reachable state, whatever a granted capability allows is allowed by one
      of the capabilities the app requested. */
  lemma GrantsCovered(ids: Str -> Option<Str>, actions: seq<Action>, i: nat, j: nat)
    requires i < |Continue(ids, EMPTY, actions).records|
    requires j < |Continue(ids, EMPTY, actions).records[i].granted|
    ensures
      var r := Continue(ids, EMPTY, actions).records[i];
      && Parse(ids, r.granted[j]).Some?
      && exists k :: 0 <= k < |r.requested| && Parse(ids, r.requested[k]).Some?
                     && Within(Parse(ids, r.granted[j]).value, Parse(ids, r.requested[k]).value)
  {
    AlwaysProper(ids, actions);
    hide Continue, Parse, WasRequested, Within;
    var r := Continue(ids, EMPTY, actions).records[i];
    RequestedCovers(ids, r.granted[j], r.requested);
  }

  /** In particular a session's grants permit no subscription its request would not. */
  lemma SubscriptionsCovered(ids: Str -> Option<Str>, actions: seq<Action>, i: nat, identity: Str, path: Str)
    requires i < |Continue(ids, EMPTY, actions).records|
    requires SubscriptionAllowed(ids, Continue(ids, EMPTY, actions).records[i].granted, identity, path)
    ensures SubscriptionAllowed(ids, Continue(ids, EMPTY, actions).records[i].requested, identity, path)
  {
    hide Continue, Parse;
    var r := Continue(ids, EMPTY, actions).records[i];
    var j :| 0 <= j < |r.granted| && Parse(ids, r.granted[j]).Some?
             && AllowsSubscription(Parse(ids, r.granted[j]).value, identity, path);
    var c := Parse(ids, r.granted[j]).value;
    GrantsCovered(ids, actions, i, j);
    var k :| 0 <= k < |r.requested| && Parse(ids, r.requested[k]).Some? && Within(c, Parse(ids, r.requested[k]).value);
    assert Allows(c, Subscribing(identity, path));
    assert Allows(Parse(ids, r.requested[k]).value, Subscribing(identity, path));
  }

  // ---- over is over ----

  /** Records are never dropped, moved or re-requested, and a session that has left
      the active state never returns to it. */
  lemma {:induction false} RunLater(ids: Str -> Option<Str>, st: State, actions: seq<Action>, i: nat)
    requires i < |st.records|
    ensures i < |Continue(ids, st, actions).records|
    ensures Later(st.records[i], Continue(ids, st, actions).records[i])
  {
    if actions != [] {
      var before := Continue(ids, st, actions[..|actions| - 1]);
      RunLater(ids, st, actions[..|actions| - 1], i);
      StepLater(ids, before, actions[|actions| - 1], i);
      LaterTransitive(st.records[i], before.records[i], Step(ids, before, actions[|actions| - 1]).records[i]);
      hide Later, Step;
    }
  }

  /** Approvals draw a token nobody holds. */
  predicate FreshTokens(ids: Str -> Option<Str>, st: State, actions: seq<Action>)
  {
    actions == [] ||
    (&& FreshTokens(ids, st, actions[..|actions| - 1])
     && var a := actions[|actions| - 1];
        a.Approve? ==> First(Continue(ids, st, actions[..|actions| - 1]).records, Holders(a.draw.tokenHash)).None?)
  }

  /** Record `i` is the only holder of a token and its session is over. */
  ghost predicate Spent(st: State, hash: Str, i: nat)
  {
    && i < |st.records|
    && st.records[i].tokenHash == Some(hash)
    && st.records[i].status !in {Pending, Active}
    && forall k :: 0 <= k < |st.records| && st.records[k].tokenHash == Some(hash) ==> k == i
  }

  lemma StepSpent(ids: Str -> Option<Str>, st: State, a: Action, hash: Str, i: nat)
    requires Spent(st, hash, i)
    requires a.Approve? ==> First(st.records, Holders(a.draw.tokenHash)).None?
    ensures Spent(Step(ids, st, a), hash, i)
  {
    StepLater(ids, st, a, i);
    hide GrantError, Without, EndedOn, SessionIds, Existing;
    assert Holders(hash)(st.records[i]);
    var after := Step(ids, st, a);
    forall k | 0 <= k < |after.records| && after.records[k].tokenHash == Some(hash) ensures k == i {
    }
  }

  /** Once a session has been revoked or has expired, its token never opens anything
      again, whatever happens to the store. */
  lemma {:induction false} TokenStaysSpent(ids: Str -> Option<Str>, st: State, actions: seq<Action>, hash: Str, i: nat,
                                           now: nat, saved: bool)
    requires Spent(st, hash, i)
    requires FreshTokens(ids, st, actions)
    ensures Spent(Continue(ids, st, actions), hash, i)
    ensures TokenStep(Continue(ids, st, actions), hash, now, saved) == (Continue(ids, st, actions), Err(InvalidToken))
  {
    if actions != [] {
      TokenStaysSpent(ids, st, actions[..|actions| - 1], hash, i, now, saved);
      StepSpent(ids, Continue(ids, st, actions[..|actions| - 1]), actions[|actions| - 1], hash, i);
    }
    var end := Continue(ids, st, actions);
    hide Continue;
    assert Holders(hash)(end.records[i]);
  }

  /** An approval's token opens the session that was approved: the approver's identity
      or else the requested one, the local device, the capabilities approved or else
      all that were requested. */
  lemma ApprovedOpens(ids: Str -> Option<Str>, st: State, requestId: Str, approval: Approval, draw: Draw, now: nat,
                      later: nat)
    requires ApproveStep(ids, st, requestId, approval, draw, now, true).1.Ok?
    requires First(st.records, Holders(draw.tokenHash)).None?
    requires approval.expiresAt.Some? ==> later < approval.expiresAt.value
    ensures
      var (st', r) := ApproveStep(ids, st, requestId, approval, draw, now, true);
      var asked := st.records[First(st.records, Requests(requestId)).value];
      && TokenStep(st', draw.tokenHash, later, true).1 == Ok(r.value.(lastUsedAt := Some(later)))
      && r.value.sessionId == Some(draw.sessionId)
      && r.value.identity == (if approval.identity.Some? then approval.identity else asked.requestedIdentity)
      && r.value.deviceId == Some(draw.deviceId)
      && r.value.granted == (if approval.capabilities == [] then asked.requested else approval.capabilities)
      && requestId in st'.issued && st'.issued[requestId] == draw.token
  {
    hide GrantError;
    var (st', r) := ApproveStep(ids, st, requestId, approval, draw, now, true);
    var at := First(st.records, Requests(requestId)).value;
    assert Holders(draw.tokenHash)(st'.records[at]);
    assert forall k :: 0 <= k < |st'.records| && k != at ==> st'.records[k] == st.records[k];
  }

  /** Revoking the session a token belongs to spends the token. */
  lemma EndingSpends(st: State, sessionId: Str, hash: Str, i: nat, now: nat, saved: bool)
    requires First(st.records, Sessions(sessionId)) == Some(i) && st.records[i].tokenHash == Some(hash)
    requires forall k :: 0 <= k < |st.records| && st.records[k].tokenHash == Some(hash) ==> k == i
    ensures Spent(EndStep(st, sessionId, Sessions(sessionId), now, saved).0, hash, i)
  {
    hide Without;
    var after := EndStep(st, sessionId, Sessions(sessionId), now, saved).0;
    assert forall k :: 0 <= k < |after.records| && k != i ==> after.records[k] == st.records[k];
  }

  /** Revoking a session drops its subscriptions; the other sessions keep theirs. */
  lemma EndingDropsSubscriptions(st: State, sessionId: Str, now: nat, saved: bool)
    requires First(st.records, Sessions(sessionId)).Some?
    ensures
      var after := EndStep(st, sessionId, Sessions(sessionId), now, saved).0;
      && after.records[First(st.records, Sessions(sessionId)).value].status == Ended
      && forall s :: s in after.subscriptions <==> s in st.subscriptions && s.sessionId != sessionId
  {
  }

  lemma {:induction false} EndedIsListed(records: seq<Record>, deviceId: Str, now: nat, i: nat)
    requires i < |records| && OnDevice(records[i], deviceId)
    ensures records[i].sessionId.value in SessionIds(EndedOn(records, deviceId, now))
  {
    var n := |records| - 1;
    var before := EndedOn(records[..n], deviceId, now);
    var all := EndedOn(records, deviceId, now);
    if i < n {
      EndedIsListed(records[..n], deviceId, now, i);
      var k :| 0 <= k < |before| && SessionIds(before)[k] == records[i].sessionId.value;
      assert all[k] == before[k];
      assert SessionIds(all)[k] == records[i].sessionId.value;
    } else {
      assert all[|all| - 1] == View(EndOn(records[n], deviceId, now));
      assert SessionIds(all)[|all| - 1] == records[i].sessionId.value;
    }
  }

  /** A device revocation ends every active session of the device, and no other. */
  lemma DeviceEnds(st: State, deviceId: Str, now: nat, saved: bool, i: nat)
    requires i < |st.records|
    ensures
      var after := EndDeviceStep(st, deviceId, now, saved).0;
      && i < |after.records|
      && (OnDevice(st.records[i], deviceId) ==>
            && after.records[i].status == Ended
            && forall s :: s in after.subscriptions ==> Some(s.sessionId) != st.records[i].sessionId)
      && (!OnDevice(st.records[i], deviceId) ==> after.records[i] == st.records[i])
  {
    var ended := EndedOn(st.records, deviceId, now);
    if OnDevice(st.records[i], deviceId) {
      EndedIsListed(st.records, deviceId, now, i);
      assert ended != [];
    }
    hide EndedOn;
  }

  // ---- requests ----

  lemma FirstIs(records: seq<Record>, p: Record -> bool, i: nat)
    requires i < |records| && p(records[i]) && forall k :: 0 <= k < i ==> !p(records[k])
    ensures First(records, p) == Some(i)
  {
  }

  /** A request, once made, can be approved with what it asked for: an approval of a new
      request passes exactly when an identity is known and every capability was asked
      for, and then its token opens the session. */
  lemma CreatedApproves(ids: Str -> Option<Str>, st: State, requestId: Str, app: App, requestedIdentity: Option<Str>,
                        requested: seq<Str>, t: nat, approval: Approval, draw: Draw, now: nat)
    requires First(st.records, Requests(requestId)).None?
    ensures
      var created := CreateStep(st, requestId, app, requestedIdentity, requested, t);
      var grants := if approval.capabilities == [] then requested else approval.capabilities;
      ApproveStep(ids, created, requestId, approval, draw, now, true).1.Ok? <==>
        && (approval.identity.Some? || requestedIdentity.Some?)
        && forall i :: 0 <= i < |grants| ==> WasRequested(ids, grants[i], requested)
  {
    hide WasRequested;
    var created := CreateStep(st, requestId, app, requestedIdentity, requested, t);
    FirstIs(created.records, Requests(requestId), |st.records|);
    GrantErrorNone(ids, Grants(created.records[|st.records|], approval), requested);
    hide GrantError, First;
  }

  /** The first record of a request stays its first record. */
  lemma FirstRequestStays(ids: Str -> Option<Str>, st: State, actions: seq<Action>, requestId: Str)
    requires First(st.records, Requests(requestId)).Some?
    ensures First(Continue(ids, st, actions).records, Requests(requestId)) == First(st.records, Requests(requestId))
  {
    var i := First(st.records, Requests(requestId)).value;
    var after := Continue(ids, st, actions).records;
    RunLater(ids, st, actions, i);
    forall k | 0 <= k < i ensures !Requests(requestId)(after[k]) {
      RunLater(ids, st, actions, k);
    }
    hide Continue;
    FirstIs(after, Requests(requestId), i);
  }

  /** A rejected request is over: after any further run it has no session, no token and
      no grants, and it can be neither approved nor rejected again. */
  lemma RejectedForGood(ids: Str -> Option<Str>, before: seq<Action>, requestId: Str, now: nat, saved: bool,
                        actions: seq<Action>, approval: Approval, draw: Draw, later: nat)
    requires
      var st := Continue(ids, EMPTY, before);
      First(st.records, Requests(requestId)).Some?
      && st.records[First(st.records, Requests(requestId)).value].status == Pending
    ensures
      var st := Continue(ids, EMPTY, before);
      var i := First(st.records, Requests(requestId)).value;
      var end := Continue(ids, RejectStep(st, requestId, now, saved).0, actions);
      && i < |end.records|
      && end.records[i].sessionId.None? && end.records[i].tokenHash.None? && end.records[i].granted == []
      && ApproveStep(ids, end, requestId, approval, draw, later, true) == (end, Err(RequestNotPending(requestId)))
      && RejectStep(end, requestId, later, true) == (end, Err(RequestNotPending(requestId)))
  {
    AlwaysProper(ids, before);
    var st := Continue(ids, EMPTY, before);
    hide Continue, GrantError, WasRequested;
    var i := First(st.records, Requests(requestId)).value;
    assert Proper(ids, st.records[i]);
    var rejected := RejectStep(st, requestId, now, saved).0;
    FirstIs(rejected.records, Requests(requestId), i);
    RunLater(ids, rejected, actions, i);
    FirstRequestStays(ids, rejected, actions, requestId);
  }

  // ---- subscriptions ----

  /** Some session of the subscription's id asked for a capability that permits it. */
  ghost predicate Sanctioned(ids: Str -> Option<Str>, records: seq<Record>, sub: Subscription)
  {
    exists k, identity :: 0 <= k < |records| && SanctionedBy(ids, records[k], identity, sub)
  }

  ghost predicate SanctionedBy(ids: Str -> Option<Str>, r: Record, identity: Str, sub: Subscription)
  {
    && r.status != Pending && r.sessionId == Some(sub.sessionId) && sub.identity == identity + Ascii(".jolt")
    && SubscriptionAllowed(ids, r.requested, identity, sub.prefix)
  }

  /** What the route checks before it registers a subscription: the app's token opened
      the session, and the session's grants permit the subscription. */
  ghost predicate Checked(ids: Str -> Option<Str>, before: seq<Action>, a: Action, i: nat, identity: Str)
    requires a.Register? && i < |before| && before[i].Use?
  {
    var u := before[i];
    var r := TokenStep(Continue(ids, EMPTY, before[..i]), u.hash, u.now, u.saved).1;
    && r.Ok? && r.value.sessionId == Some(a.sessionId) && a.identity == identity + Ascii(".jolt")
    && SubscriptionAllowed(ids, r.value.granted, identity, a.prefix)
  }

  /** Every registration in the run was checked first; anything may happen in between. */
  ghost predicate Guarded(ids: Str -> Option<Str>, actions: seq<Action>)
  {
    actions == [] ||
    (&& Guarded(ids, actions[..|actions| - 1])
     && var before, a := actions[..|actions| - 1], actions[|actions| - 1];
        a.Register? ==>
          exists i, identity :: 0 <= i < |before| && before[i].Use? && Checked(ids, before, a, i, identity))
  }

  lemma {:induction false} ContinueJoin(ids: Str -> Option<Str>, st: State, actions: seq<Action>, i: nat)
    requires i <= |actions|
    ensures Continue(ids, st, actions) == Continue(ids, Continue(ids, st, actions[..i]), actions[i..])
    decreases |actions|
  {
    hide Step;
    var n := |actions| - 1;
    if i == |actions| {
      assert actions[..i] == actions && actions[i..] == [];
    } else {
      ContinueJoin(ids, st, actions[..n], i);
      var rest := actions[i..];
      assert actions[..n][..i] == actions[..i];
      assert rest[..|rest| - 1] == actions[..n][i..] && rest[|rest| - 1] == actions[n];
    }
  }

  lemma CheckedSanctions(ids: Str -> Option<Str>, before: seq<Action>, a: Action, i: nat, identity: Str,
                         sub: Subscription)
    requires a.Register? && i < |before| && before[i].Use? && Checked(ids, before, a, i, identity)
    requires sub.sessionId == a.sessionId && sub.identity == a.identity && sub.prefix == a.prefix
    ensures Sanctioned(ids, Continue(ids, EMPTY, before).records, sub)
  {
    var u := before[i];
    var seen := Continue(ids, EMPTY, before[..i]);
    var k := First(seen.records, Holders(u.hash)).value;
    ContinueJoin(ids, EMPTY, before, i);
    SubscriptionsCovered(ids, before[..i], k, identity, a.prefix);
    RunLater(ids, seen, before[i..], k);
    hide Continue, SubscriptionAllowed;
    assert SanctionedBy(ids, Continue(ids, EMPTY, before).records[k], identity, sub);
  }

  lemma SanctionLasts(ids: Str -> Option<Str>, st: State, a: Action, sub: Subscription)
    requires Sanctioned(ids, st.records, sub)
    ensures Sanctioned(ids, Step(ids, st, a).records, sub)
  {
    var k, identity :| 0 <= k < |st.records| && SanctionedBy(ids, st.records[k], identity, sub);
    StepLater(ids, st, a, k);
    hide Step, SubscriptionAllowed;
    assert SanctionedBy(ids, Step(ids, st, a).records[k], identity, sub);
  }

  /** A step adds no subscription but the one it registers. */
  lemma StepSubscriptions(ids: Str -> Option<Str>, st: State, a: Action, sub: Subscription)
    requires sub in Step(ids, st, a).subscriptions && sub !in st.subscriptions
    ensures a.Register? && sub.sessionId == a.sessionId && sub.identity == a.identity && sub.prefix == a.prefix
  {
    hide GrantError, EndedOn, SessionIds, Existing, First;
  }

  /** In every run in which registrations are checked first, every subscription there is
      was permitted by something its app asked for. */
  lemma {:induction false} SubscriptionsWereRequested(ids: Str -> Option<Str>, actions: seq<Action>, sub: Subscription)
    requires Guarded(ids, actions) && sub in Continue(ids, EMPTY, actions).subscriptions
    ensures Sanctioned(ids, Continue(ids, EMPTY, actions).records, sub)
  {
    var n := |actions| - 1;
    var before, a := actions[..n], actions[n];
    var st := Continue(ids, EMPTY, before);
    if sub in st.subscriptions {
      SubscriptionsWereRequested(ids, before, sub);
    } else {
      StepSubscriptions(ids, st, a, sub);
      var i, identity :| 0 <= i < |before| && before[i].Use? && Checked(ids, before, a, i, identity);
      CheckedSanctions(ids, before, a, i, identity, sub);
    }
    SanctionLasts(ids, st, a, sub);
  }
}
