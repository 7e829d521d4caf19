/** App sessions: requests, approvals, and the ways a session ends. Identifiers,
    tokens, token hashes and the clock are inputs; so is whether the state file was
    written, since the in-memory change stands either way. */
module AppSessions {
  import opened Wrappers
  import opened ByteStrings
  import opened AppCapabilities

  datatype Status = Pending | Active | Rejected | Ended | Expired

  datatype App = App(id: Str, name: Str, origin: Option<Str>)

  datatype Record = Record(
    requestId: Str,
    sessionId: Option<Str>,
    app: App,
    requestedIdentity: Option<Str>,
    identity: Option<Str>,
    deviceId: Option<Str>,
    requested: seq<Str>,
    granted: seq<Str>,
    status: Status,
    createdAt: nat,
    approvedAt: Option<nat>,
    rejectedAt: Option<nat>,
    revokedAt: Option<nat>,
    expiresAt: Option<nat>,
    lastUsedAt: Option<nat>,
    tokenHash: Option<Str>)

  datatype Subscription = Subscription(id: Str, sessionId: Str, identity: Str, prefix: Str, createdAt: nat)

  datatype State = State(records: seq<Record>, subscriptions: seq<Subscription>, issued: map<Str, Str>)

  datatype Error =
    | InvalidToken
    | RequestNotFound(id: Str)
    | SessionNotFound(id: Str)
    | RequestNotPending(id: Str)
    | MissingIdentity
    | NotGrantable(capability: Str)
    | NotRequested(capability: Str)
    | CapacityExceeded
    | Io

  /** What callers see of a record: all but the token hash. */
  function View(r: Record): Record
  {
    r.(tokenHash := None)
  }

  function Saved<T>(saved: bool, v: T): Result<T, Error>
  {
    if saved then Ok(v) else Err(Io)
  }

  // ---- looking records up ----

  /** The first record that satisfies a test. */
  function First(records: seq<Record>, p: Record -> bool): (r: Option<nat>)
    ensures r.Some? ==> r.value < |records| && p(records[r.value])
    ensures r.Some? ==> forall k :: 0 <= k < r.value ==> !p(records[k])
    ensures r.None? ==> forall k :: 0 <= k < |records| ==> !p(records[k])
  {
    if records == [] then None
    else if p(records[0]) then Some(0)
    else
      var rest := First(records[1..], p);
      if rest.None? then None else Some(rest.value + 1)
  }

  function Requests(id: Str): Record -> bool
  {
    (r: Record) => r.requestId == id
  }

  function Sessions(id: Str): Record -> bool
  {
    (r: Record) => r.sessionId == Some(id)
  }

  function SessionsOf(id: Str, identity: Str): Record -> bool
  {
    (r: Record) => r.sessionId == Some(id) && r.identity == Some(identity)
  }

  function Holders(hash: Str): Record -> bool
  {
    (r: Record) => r.tokenHash == Some(hash)
  }

  /** The subscriptions of other sessions. */
  function Without(subs: seq<Subscription>, gone: seq<Str>): (r: seq<Subscription>)
    ensures forall s :: s in r <==> s in subs && s.sessionId !in gone
  {
    if subs == [] then []
    else
      var last := subs[|subs| - 1];
      assert subs == subs[..|subs| - 1] + [last];
      Without(subs[..|subs| - 1], gone) + if last.sessionId in gone then [] else [last]
  }

  // ---- the operations ----

  function NewRecord(requestId: Str, app: App, requestedIdentity: Option<Str>, requested: seq<Str>, now: nat): Record
  {
    Record(requestId, None, app, requestedIdentity, None, None, requested, [], Pending, now,
           None, None, None, None, None, None)
  }

  function CreateStep(st: State, requestId: Str, app: App, requestedIdentity: Option<Str>, requested: seq<Str>,
                      now: nat): State
  {
    st.(records := st.records + [NewRecord(requestId, app, requestedIdentity, requested, now)])
  }

  /** The first capability that may not be granted, and why. */
  function GrantError(ids: Str -> Option<Str>, capabilities: seq<Str>, requested: seq<Str>): Option<Error>
  {
    if capabilities == [] then None
    else
      var before := GrantError(ids, capabilities[..|capabilities| - 1], requested);
      if before.Some? then before
      else
        var last := capabilities[|capabilities| - 1];
        if Parse(ids, last).None? then Some(NotGrantable(last))
        else if !WasRequested(ids, last, requested) then Some(NotRequested(last))
        else None
  }

  datatype Approval = Approval(identity: Option<Str>, capabilities: seq<Str>, expiresAt: Option<nat>)

  /** What an approval draws: the ids, the token and its hash, the local device. */
  datatype Draw = Draw(sessionId: Str, token: Str, tokenHash: Str, deviceId: Str)

  function Approved(r: Record, identity: Str, capabilities: seq<Str>, expiresAt: Option<nat>, draw: Draw, now: nat)
    : Record
  {
    r.(sessionId := Some(draw.sessionId), identity := Some(identity), deviceId := Some(draw.deviceId),
       granted := capabilities, status := Active, approvedAt := Some(now), expiresAt := expiresAt,
       tokenHash := Some(draw.tokenHash))
  }

  function Grants(r: Record, approval: Approval): seq<Str>
  {
    if approval.capabilities == [] then r.requested else approval.capabilities
  }

  function ApproveStep(ids: Str -> Option<Str>, st: State, requestId: Str, approval: Approval, draw: Draw, now: nat,
                       saved: bool): (State, Result<Record, Error>)
  {
    var at := First(st.records, Requests(requestId));
    if at.None? then (st, Err(RequestNotFound(requestId)))
    else
      var r := st.records[at.value];
      if r.status != Pending then (st, Err(RequestNotPending(requestId)))
      else
        var identity := if approval.identity.Some? then approval.identity else r.requestedIdentity;
        if identity.None? then (st, Err(MissingIdentity))
        else
          var bad := GrantError(ids, Grants(r, approval), r.requested);
          if bad.Some? then (st, Err(bad.value))
          else
            var r' := Approved(r, identity.value, Grants(r, approval), approval.expiresAt, draw, now);
            var issued := if saved then st.issued[requestId := draw.token] else st.issued;
            (st.(records := st.records[at.value := r'], issued := issued), Saved(saved, View(r')))
  }

  function RejectStep(st: State, requestId: Str, now: nat, saved: bool): (State, Result<Record, Error>)
  {
    var at := First(st.records, Requests(requestId));
    if at.None? then (st, Err(RequestNotFound(requestId)))
    else
      var r := st.records[at.value];
      if r.status != Pending then (st, Err(RequestNotPending(requestId)))
      else
        var r' := r.(status := Rejected, rejectedAt := Some(now));
        (st.(records := st.records[at.value := r']), Saved(saved, View(r')))
  }

  /** `revoke_session` and `revoke_session_for_identity`, which differ in the test. */
  function EndStep(st: State, sessionId: Str, test: Record -> bool, now: nat, saved: bool)
    : (State, Result<Record, Error>)
  {
    var at := First(st.records, test);
    if at.None? then (st, Err(SessionNotFound(sessionId)))
    else
      var r' := st.records[at.value].(status := Ended, revokedAt := Some(now));
      (st.(records := st.records[at.value := r'], subscriptions := Without(st.subscriptions, [sessionId])),
       Saved(saved, View(r')))
  }

  predicate OnDevice(r: Record, deviceId: Str)
  {
    r.sessionId.Some? && r.deviceId == Some(deviceId) && r.status == Active
  }

  function EndOn(r: Record, deviceId: Str, now: nat): Record
  {
    if OnDevice(r, deviceId) then r.(status := Ended, revokedAt := Some(now)) else r
  }

  /** The records after a device is revoked, and the ones that changed. */
  function EndAll(records: seq<Record>, deviceId: Str, now: nat): (r: seq<Record>)
    ensures |r| == |records|
    ensures forall i :: 0 <= i < |r| ==> r[i] == EndOn(records[i], deviceId, now)
  {
    if records == [] then []
    else EndAll(records[..|records| - 1], deviceId, now) + [EndOn(records[|records| - 1], deviceId, now)]
  }

  function EndedOn(records: seq<Record>, deviceId: Str, now: nat): (r: seq<Record>)
    ensures forall x :: x in r ==> x.sessionId.Some?
  {
    if records == [] then []
    else
      var last := records[|records| - 1];
      EndedOn(records[..|records| - 1], deviceId, now)
      + if OnDevice(last, deviceId) then [View(EndOn(last, deviceId, now))] else []
  }

  function SessionIds(records: seq<Record>): seq<Str>
    requires forall x :: x in records ==> x.sessionId.Some?
  {
    seq(|records|, i requires 0 <= i < |records| => assert records[i] in records; records[i].sessionId.value)
  }

  function EndDeviceStep(st: State, deviceId: Str, now: nat, saved: bool): (State, Result<seq<Record>, Error>)
  {
    var ended := EndedOn(st.records, deviceId, now);
    if ended == [] then (st, Ok([]))
    else
      (st.(records := EndAll(st.records, deviceId, now),
           subscriptions := Without(st.subscriptions, SessionIds(ended))),
       Saved(saved, ended))
  }

  predicate ExpiredAt(r: Record, now: nat)
  {
    r.expiresAt.Some? && r.expiresAt.value <= now
  }

  function TokenStep(st: State, hash: Str, now: nat, saved: bool): (State, Result<Record, Error>)
  {
    var at := First(st.records, Holders(hash));
    if at.None? then (st, Err(InvalidToken))
    else
      var r := st.records[at.value];
      if r.status != Active then (st, Err(InvalidToken))
      else if ExpiredAt(r, now) then
        var gone := if r.sessionId.Some? then [r.sessionId.value] else [];
        (st.(records := st.records[at.value := r.(status := Expired)],
             subscriptions := Without(st.subscriptions, gone)),
         Err(if saved then InvalidToken else Io))
      else
        var r' := r.(lastUsedAt := Some(now));
        (st.(records := st.records[at.value := r']), Saved(saved, View(r')))
  }

  function SubscribeStep(st: State, max: nat, id: Str, sessionId: Str, identity: Str, prefix: Str, now: nat,
                         saved: bool): (State, Result<Subscription, Error>)
  {
    var at := Existing(st.subscriptions, sessionId, identity, prefix);
    if at.Some? then (st, Ok(st.subscriptions[at.value]))
    else if |st.subscriptions| >= max then (st, Err(CapacityExceeded))
    else
      var s := Subscription(id, sessionId, identity, prefix, now);
      (st.(subscriptions := st.subscriptions + [s]), Saved(saved, s))
  }

  function Existing(subs: seq<Subscription>, sessionId: Str, identity: Str, prefix: Str): (r: Option<nat>)
    ensures r.Some? ==> r.value < |subs|
  {
    if subs == [] then None
    else
      var before := Existing(subs[..|subs| - 1], sessionId, identity, prefix);
      var last := subs[|subs| - 1];
      if before.Some? then before
      else if last.sessionId == sessionId && last.identity == identity && last.prefix == prefix then Some(|subs| - 1)
      else None
  }

  // ---- the store ----

  class AppSessionStore {
    var records: seq<Record>
    var subscriptions: seq<Subscription>
    var issued: map<Str, Str>
    const maxSubscriptions: nat

    ghost function Contents(): State
      reads this
    {
      State(records, subscriptions, issued)
    }

    constructor (maxSubscriptions: nat)
      ensures Contents() == State([], [], map[]) && this.maxSubscriptions == maxSubscriptions
    {
      records, subscriptions, issued := [], [], map[];
      this.maxSubscriptions := maxSubscriptions;
    }

    method Locate(p: Record -> bool) returns (r: Option<nat>)
      ensures r == First(records, p)
    {
      var i := 0;
      while i < |records|
        invariant 0 <= i <= |records|
        invariant forall k :: 0 <= k < i ==> !p(records[k])
      {
        if p(records[i]) {
          return Some(i);
        }
        i := i + 1;
      }
      return None;
    }

    /** The `retain` that drops the subscriptions of ended sessions. */
    method DropSubscriptions(gone: seq<Str>)
      modifies this`subscriptions
      ensures subscriptions == Without(old(subscriptions), gone)
    {
      var kept: seq<Subscription> := [];
      var i := 0;
      while i < |subscriptions|
        invariant 0 <= i <= |subscriptions| && subscriptions == old(subscriptions)
        invariant kept == Without(subscriptions[..i], gone)
      {
        assert subscriptions[..i + 1][..i] == subscriptions[..i];
        if subscriptions[i].sessionId !in gone {
          kept := kept + [subscriptions[i]];
        }
        i := i + 1;
      }
      assert subscriptions[..i] == subscriptions;
      subscriptions := kept;
    }

    method CreateRequest(requestId: Str, app: App, requestedIdentity: Option<Str>, requested: seq<Str>, now: nat,
                         saved: bool) returns (r: Result<Str, Error>)
      modifies this
      ensures Contents() == CreateStep(old(Contents()), requestId, app, requestedIdentity, requested, now)
      ensures r == Saved(saved, requestId)
    {
      records := records + [NewRecord(requestId, app, requestedIdentity, requested, now)];
      r := Saved(saved, requestId);
    }

    method ApproveRequest(ids: Str -> Option<Str>, requestId: Str, approval: Approval, draw: Draw, now: nat,
                          saved: bool) returns (r: Result<Record, Error>)
      modifies this
      ensures (Contents(), r) == ApproveStep(ids, old(Contents()), requestId, approval, draw, now, saved)
    {
      hide WasRequested, Parse;
      var at := Locate(Requests(requestId));
      if at.None? {
        return Err(RequestNotFound(requestId));
      }
      var record := records[at.value];
      if record.status != Pending {
        return Err(RequestNotPending(requestId));
      }
      var identity := if approval.identity.Some? then approval.identity else record.requestedIdentity;
      if identity.None? {
        return Err(MissingIdentity);
      }
      var capabilities := Grants(record, approval);
      var i := 0;
      while i < |capabilities|
        invariant 0 <= i <= |capabilities|
        invariant GrantError(ids, capabilities[..i], record.requested).None?
      {
        var capability := capabilities[i];
        assert capabilities[..i + 1][..i] == capabilities[..i];
        if Parse(ids, capability).None? {
          GrantErrorStays(ids, capabilities, i + 1, record.requested);
          return Err(NotGrantable(capability));
        }
        if !WasRequested(ids, capability, record.requested) {
          GrantErrorStays(ids, capabilities, i + 1, record.requested);
          return Err(NotRequested(capability));
        }
        i := i + 1;
      }
      assert capabilities[..i] == capabilities;
      record := Approved(record, identity.value, capabilities, approval.expiresAt, draw, now);
      records := records[at.value := record];
      if !saved {
        return Err(Io);
      }
      issued := issued[requestId := draw.token];
      r := Ok(View(record));
    }

    method RejectRequest(requestId: Str, now: nat, saved: bool) returns (r: Result<Record, Error>)
      modifies this
      ensures (Contents(), r) == RejectStep(old(Contents()), requestId, now, saved)
    {
      var at := Locate(Requests(requestId));
      if at.None? {
        return Err(RequestNotFound(requestId));
      }
      var record := records[at.value];
      if record.status != Pending {
        return Err(RequestNotPending(requestId));
      }
      record := record.(status := Rejected, rejectedAt := Some(now));
      records := records[at.value := record];
      r := Saved(saved, View(record));
    }

    method RevokeSession(sessionId: Str, test: Record -> bool, now: nat, saved: bool) returns (r: Result<Record, Error>)
      modifies this
      ensures (Contents(), r) == EndStep(old(Contents()), sessionId, test, now, saved)
    {
      var at := Locate(test);
      if at.None? {
        return Err(SessionNotFound(sessionId));
      }
      var record := records[at.value].(status := Ended, revokedAt := Some(now));
      records := records[at.value := record];
      DropSubscriptions([sessionId]);
      r := Saved(saved, View(record));
    }

    /** The loop that ends every active session of a device. */
    method EndRecords(deviceId: Str, now: nat) returns (ended: seq<Record>)
      modifies this`records
      ensures records == EndAll(old(records), deviceId, now)
      ensures ended == EndedOn(old(records), deviceId, now)
    {
      ended := [];
      var i := 0;
      ghost var before := records;
      while i < |records|
        invariant 0 <= i <= |records| == |before|
        invariant forall k :: 0 <= k < i ==> records[k] == EndOn(before[k], deviceId, now)
        invariant forall k :: i <= k < |before| ==> records[k] == before[k]
        invariant ended == EndedOn(before[..i], deviceId, now)
      {
        assert before[..i + 1][..i] == before[..i];
        if OnDevice(records[i], deviceId) {
          records := records[i := EndOn(records[i], deviceId, now)];
          ended := ended + [View(records[i])];
        }
        i := i + 1;
      }
      assert before[..i] == before;
    }

    method RevokeSessionsForDevice(deviceId: Str, now: nat, saved: bool) returns (r: Result<seq<Record>, Error>)
      modifies this
      ensures (Contents(), r) == EndDeviceStep(old(Contents()), deviceId, now, saved)
    {
      ghost var before := records;
      var ended := EndRecords(deviceId, now);
      if ended == [] {
        NoneEnded(before, deviceId, now);
        return Ok([]);
      }
      DropSubscriptions(SessionIds(ended));
      r := Saved(saved, ended);
    }

    method RegisterDataSubscription(id: Str, sessionId: Str, identity: Str, prefix: Str, now: nat, saved: bool)
      returns (r: Result<Subscription, Error>)
      modifies this
      ensures (Contents(), r)
           == SubscribeStep(old(Contents()), maxSubscriptions, id, sessionId, identity, prefix, now, saved)
    {
      var i := 0;
      while i < |subscriptions|
        invariant 0 <= i <= |subscriptions| && Contents() == old(Contents())
        invariant Existing(subscriptions[..i], sessionId, identity, prefix).None?
      {
        var s := subscriptions[i];
        assert subscriptions[..i + 1][..i] == subscriptions[..i];
        if s.sessionId == sessionId && s.identity == identity && s.prefix == prefix {
          ExistingStays(subscriptions, i + 1, sessionId, identity, prefix);
          return Ok(s);
        }
        i := i + 1;
      }
      assert subscriptions[..i] == subscriptions;
      if |subscriptions| >= maxSubscriptions {
        return Err(CapacityExceeded);
      }
      var s := Subscription(id, sessionId, identity, prefix, now);
      subscriptions := subscriptions + [s];
      r := Saved(saved, s);
    }

    method SessionForToken(hash: Str, now: nat, saved: bool) returns (r: Result<Record, Error>)
      modifies this
      ensures (Contents(), r) == TokenStep(old(Contents()), hash, now, saved)
    {
      var at := Locate(Holders(hash));
      if at.None? {
        return Err(InvalidToken);
      }
      var record := records[at.value];
      if record.status != Active {
        return Err(InvalidToken);
      }
      if ExpiredAt(record, now) {
        records := records[at.value := record.(status := Expired)];
        DropSubscriptions(if record.sessionId.Some? then [record.sessionId.value] else []);
        return Err(if saved then InvalidToken else Io);
      }
      record := record.(lastUsedAt := Some(now));
      records := records[at.value := record];
      r := Saved(saved, View(record));
    }
  }

  lemma RequestedParses(ids: Str -> Option<Str>, capability: Str, requested: seq<Str>)
    ensures WasRequested(ids, capability, requested) ==> Parse(ids, capability).Some?
  {
    hide Parse;
  }

  /** An approval goes through exactly when every capability was requested. */
  lemma {:induction false} GrantErrorNone(ids: Str -> Option<Str>, capabilities: seq<Str>, requested: seq<Str>)
    ensures GrantError(ids, capabilities, requested).None?
        <==> forall i :: 0 <= i < |capabilities| ==> WasRequested(ids, capabilities[i], requested)
  {
    hide WasRequested, Parse;
    if capabilities != [] {
      var before := capabilities[..|capabilities| - 1];
      var last := capabilities[|capabilities| - 1];
      GrantErrorNone(ids, before, requested);
      RequestedParses(ids, last, requested);
      assert forall i :: 0 <= i < |before| ==> before[i] == capabilities[i];
      assert forall i :: 0 <= i < |capabilities| ==> i < |before| || capabilities[i] == last;
    }
  }

  lemma {:induction false} GrantErrorStays(ids: Str -> Option<Str>, capabilities: seq<Str>, n: nat, requested: seq<Str>)
    requires n <= |capabilities| && GrantError(ids, capabilities[..n], requested).Some?
    ensures GrantError(ids, capabilities, requested) == GrantError(ids, capabilities[..n], requested)
    decreases |capabilities|
  {
    if n == |capabilities| {
      assert capabilities[..n] == capabilities;
    } else {
      var shorter := capabilities[..|capabilities| - 1];
      assert shorter[..n] == capabilities[..n];
      GrantErrorStays(ids, shorter, n, requested);
    }
  }

  lemma {:induction false} ExistingStays(subs: seq<Subscription>, n: nat, sessionId: Str, identity: Str, prefix: Str)
    requires n <= |subs| && Existing(subs[..n], sessionId, identity, prefix).Some?
    ensures Existing(subs, sessionId, identity, prefix) == Existing(subs[..n], sessionId, identity, prefix)
    decreases |subs|
  {
    if n == |subs| {
      assert subs[..n] == subs;
    } else {
      var shorter := subs[..|subs| - 1];
      assert shorter[..n] == subs[..n];
      ExistingStays(shorter, n, sessionId, identity, prefix);
    }
  }

  lemma {:induction false} NoneEnded(records: seq<Record>, deviceId: Str, now: nat)
    requires EndedOn(records, deviceId, now) == []
    ensures EndAll(records, deviceId, now) == records
  {
    if records != [] {
      NoneEnded(records[..|records| - 1], deviceId, now);
    }
  }
}
