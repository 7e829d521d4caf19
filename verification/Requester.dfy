/** The requester's side: a page is appended to what is already verified, the
    completed state is compared with the advertised heads, and everything is
    merged again. */
module Requester {
  import opened Wrappers
  import opened ByteStrings
  import opened Crypto
  import opened Ordering
  import opened DeviceWriterLog
  import opened DeviceWriterMerge
  import opened DeltaSync
  import Auth = IdentityAuthority
  import Serving = DeltaServing

  datatype SyncError =
    | AuthorityInvalid(error: Auth.AuthorityError)
    | NoPredecessor(deviceId: Str)
    | NotContiguous(deviceId: Str)
    | HeadsNotReached
    | LogsInvalid(logError: LogError)
    | MergePanicked

  datatype Cached = Cached(
    authoritySequence: nat,
    merged: MergedState,
    authorityRecords: seq<Auth.Record>,
    deviceLogs: map<Str, Log>)

  /** Stored logs are never empty. */
  ghost predicate Stored(acc: map<Str, Log>)
  {
    forall d :: d in acc ==> acc[d] != []
  }

  /** `device_log_is_newer` */
  predicate Newer(env: Env, candidate: Log, known: Log)
    requires candidate != [] && known != []
  {
    |candidate| > |known| ||
    (|candidate| == |known| &&
     var c, k := candidate[|candidate| - 1], known[|known| - 1];
     !KeyLe(AgeKey(env, c), AgeKey(env, k)))
  }

  function AgeKey(env: Env, e: Entry): Key
  {
    [[e.body.createdAt], [e.body.sequence], e.body.deviceId, EntryHash(env, e)]
  }

  /** One received log added to the verified ones. */
  function Absorb(env: Env, acc: map<Str, Log>, log: Log): (r: Result<map<Str, Log>, SyncError>)
    requires Stored(acc)
    ensures r.Ok? ==> Stored(r.value)
  {
    if log == [] then Ok(acc)
    else
      var d := log[0].body.deviceId;
      if log[0].body.sequence == 0 then Ok(Keep(env, acc, d, log))
      else if d !in acc then Err(NoPredecessor(d))
      else
        var head := acc[d][|acc[d]| - 1];
        if log[0].body.sequence != head.body.sequence + 1 || log[0].body.previousHash != Some(EntryHash(env, head))
        then Err(NotContiguous(d))
        else Ok(Keep(env, acc, d, acc[d] + log))
  }

  function Keep(env: Env, acc: map<Str, Log>, d: Str, log: Log): (r: map<Str, Log>)
    requires Stored(acc) && log != []
    ensures Stored(r)
  {
    if d !in acc || Newer(env, log, acc[d]) then acc[d := log] else acc
  }

  /** All the logs of a page, in order. */
  function Accumulate(env: Env, acc: map<Str, Log>, logs: seq<Log>): (r: Result<map<Str, Log>, SyncError>)
    requires Stored(acc)
    ensures r.Ok? ==> Stored(r.value)
  {
    if logs == [] then Ok(acc)
    else
      var acc' :- Accumulate(env, acc, logs[..|logs| - 1]);
      Absorb(env, acc', logs[|logs| - 1])
  }

  /** The accumulated logs end exactly at the advertised heads. */
  ghost predicate Reaches(env: Env, acc: map<Str, Log>, heads: seq<Cursor>)
    requires Stored(acc)
  {
    && DistinctDevices(heads)
    && |heads| == |acc|
    && forall d :: d in acc ==>
         && d in CursorMap(heads)
         && acc[d][|acc[d]| - 1].body.sequence == CursorMap(heads)[d].sequence
         && EntryHash(env, acc[d][|acc[d]| - 1]) == CursorMap(heads)[d].entryHash
  }

  /** The authority to use: the received chain, unless a newer one is cached. */
  function ChooseAuthority(env: Env, identity: Str, existing: Option<Cached>, records: seq<Auth.Record>)
    : Result<(seq<Auth.Record>, Auth.Authority), SyncError>
  {
    match Auth.ChainAuthority(env, identity, records)
    case Err(e) => Err(AuthorityInvalid(e))
    case Ok(candidate) =>
      if existing.None? || candidate.latestSequence >= existing.value.authoritySequence then Ok((records, candidate))
      else
        match Auth.ChainAuthority(env, identity, existing.value.authorityRecords)
        case Err(e) => Err(AuthorityInvalid(e))
        case Ok(authority) => Ok((existing.value.authorityRecords, authority))
  }

  /** Every device once, in some order. */
  ghost predicate Lists(acc: map<Str, Log>, order: seq<Str>)
  {
    multiset(order) == multiset(acc.Keys) && forall i :: 0 <= i < |order| ==> order[i] in acc
  }

  /** The accumulated logs in the order of some listing of their devices. */
  function LogsIn(acc: map<Str, Log>, order: seq<Str>): (r: seq<Log>)
    requires forall i :: 0 <= i < |order| ==> order[i] in acc
    ensures |r| == |order| && forall i :: 0 <= i < |order| ==> r[i] == acc[order[i]]
  {
    seq(|order|, i requires 0 <= i < |order| => acc[order[i]])
  }

  method AccumulateLogs(env: Env, acc0: map<Str, Log>, logs: seq<Log>) returns (r: Result<map<Str, Log>, SyncError>)
    requires Stored(acc0)
    ensures r == Accumulate(env, acc0, logs)
  {
    hide Stored, Absorb;
    var acc := acc0;
    var i := 0;
    assert logs[..0] == [];
    while i < |logs|
      invariant 0 <= i <= |logs|
      invariant Stored(acc) && Accumulate(env, acc0, logs[..i]) == Ok(acc)
    {
      var step := Absorb(env, acc, logs[i]);
      assert logs[..i + 1][..i] == logs[..i];
      assert Accumulate(env, acc0, logs[..i + 1]) == step;
      if step.Err? {
        FirstErrorStands(env, acc0, logs, i + 1, |logs|);
        assert logs[..|logs|] == logs;
        return step;
      }
      acc := step.value;
      i := i + 1;
    }
    assert logs[..i] == logs;
    r := Ok(acc);
  }

  lemma {:induction false} FirstErrorStands(env: Env, acc: map<Str, Log>, logs: seq<Log>, i: nat, n: nat)
    requires Stored(acc) && i <= n <= |logs| && Accumulate(env, acc, logs[..i]).Err?
    ensures Accumulate(env, acc, logs[..n]) == Accumulate(env, acc, logs[..i])
  {
    hide Stored, Absorb;
    if i < n {
      FirstErrorStands(env, acc, logs, i, n - 1);
      assert logs[..n][..n - 1] == logs[..n - 1];
    }
  }

  method CheckHeads(env: Env, acc: map<Str, Log>, heads: seq<Cursor>) returns (ok: bool)
    requires Stored(acc)
    ensures ok <==> Reaches(env, acc, heads)
  {
    hide EntryHash, CursorMap;
    var distinct, byDevice := Serving.ReadCursors(heads);
    if !distinct || |heads| != |acc| {
      return false;
    }
    var todo := acc.Keys;
    while todo != {}
      invariant todo <= acc.Keys
      invariant forall d :: d in acc && d !in todo ==>
        && d in byDevice
        && acc[d][|acc[d]| - 1].body.sequence == byDevice[d].sequence
        && EntryHash(env, acc[d][|acc[d]| - 1]) == byDevice[d].entryHash
      decreases todo
    {
      var d :| d in todo;
      if d !in byDevice {
        return false;
      }
      var actual := acc[d][|acc[d]| - 1];
      if actual.body.sequence != byDevice[d].sequence || EntryHash(env, actual) != byDevice[d].entryHash {
        return false;
      }
      todo := todo - {d};
    }
    ok := true;
  }

  /** A hash map's values, in whatever order it yields them. */
  method ListLogs(acc: map<Str, Log>) returns (logs: seq<Log>)
    ensures exists order :: Lists(acc, order) && logs == LogsIn(acc, order)
  {
    logs := [];
    ghost var order: seq<Str> := [];
    var todo := acc.Keys;
    while todo != {}
      invariant todo <= acc.Keys
      invariant multiset(order) + multiset(todo) == multiset(acc.Keys)
      invariant forall i :: 0 <= i < |order| ==> order[i] in acc
      invariant logs == LogsIn(acc, order)
      decreases todo
    {
      var d :| d in todo;
      assert todo == (todo - {d}) + {d};
      logs := logs + [acc[d]];
      order := order + [d];
      todo := todo - {d};
    }
    assert Lists(acc, order);
  }

  /** What re-merging accumulated logs may answer. */
  ghost predicate Remerges(env: Env, chosen: (seq<Auth.Record>, Auth.Authority), acc: map<Str, Log>, order: seq<Str>,
                           r: Result<Cached, SyncError>)
    requires Lists(acc, order)
  {
    match OutcomeOf(env, chosen.1, LogsIn(acc, order))
    case Merged(state) => r == Ok(Cached(chosen.1.latestSequence, state, chosen.0, acc))
    case Failed(e) => r == Err(LogsInvalid(e))
    case Panicked => r == Err(MergePanicked)
  }

  ghost function HeldLogs(existing: Option<Cached>): map<Str, Log>
  {
    if existing.Some? then existing.value.deviceLogs else map[]
  }

  /** What one received page may come to: the authority chosen, the logs accumulated,
      the heads checked when the page is the last, and everything merged again. */
  ghost predicate Merges(env: Env, identity: Str, existing: Option<Cached>, records: seq<Auth.Record>,
                         deviceLogs: seq<Log>, syncVersion: U16, heads: seq<Cursor>, complete: bool,
                         r: Result<Cached, SyncError>)
    requires Stored(HeldLogs(existing))
  {
    var chosen := ChooseAuthority(env, identity, existing, records);
    if chosen.Err? then r == Err(chosen.error)
    else
      var accumulated := Accumulate(env, HeldLogs(existing), deviceLogs);
      if accumulated.Err? then r == Err(accumulated.error)
      else if syncVersion >= DELTA_SYNC_VERSION && complete && !Reaches(env, accumulated.value, heads)
      then r == Err(HeadsNotReached)
      else exists order :: Lists(accumulated.value, order) && Remerges(env, chosen.value, accumulated.value, order, r)
  }

  /** `merge_verified_device_writer_state` */
  method MergeVerifiedState(env: Env, identity: Str, existing: Option<Cached>, records: seq<Auth.Record>,
                            deviceLogs: seq<Log>, syncVersion: U16, heads: seq<Cursor>, complete: bool)
    returns (r: Result<Cached, SyncError>)
    requires Stored(HeldLogs(existing))
    ensures Merges(env, identity, existing, records, deviceLogs, syncVersion, heads, complete, r)
  {
    hide Auth.ChainAuthority, OutcomeOf, Accumulate, Reaches;
    var candidate := Auth.VerifyIdentityAuthorityChain(env, identity, records);
    if candidate.Err? {
      r := Err(AuthorityInvalid(candidate.error));
      return;
    }
    var chosenRecords := records;
    if existing.Some? && candidate.value.latestSequence < existing.value.authoritySequence {
      chosenRecords := existing.value.authorityRecords;
    }
    var authority := Auth.VerifyIdentityAuthorityChain(env, identity, chosenRecords);
    if authority.Err? {
      r := Err(AuthorityInvalid(authority.error));
      return;
    }
    var acc0 := if existing.Some? then existing.value.deviceLogs else map[];
    var accumulated := AccumulateLogs(env, acc0, deviceLogs);
    if accumulated.Err? {
      r := Err(accumulated.error);
      return;
    }
    if syncVersion >= DELTA_SYNC_VERSION && complete {
      var ok := CheckHeads(env, accumulated.value, heads);
      if !ok {
        r := Err(HeadsNotReached);
        return;
      }
    }
    var logs := ListLogs(accumulated.value);
    ghost var order :| Lists(accumulated.value, order) && logs == LogsIn(accumulated.value, order);
    var merged := MergeDeviceWriterLogs(env, authority.value, logs);
    match merged {
      case Merged(state) =>
        r := Ok(Cached(authority.value.latestSequence, state, chosenRecords, accumulated.value));
      case Failed(e) => r := Err(LogsInvalid(e));
      case Panicked => r := Err(MergePanicked);
    }
    assert Remerges(env, (chosenRecords, authority.value), accumulated.value, order, r);
  }
}
