/** The end of a sync session: the requester's merged state is the provider's. */
module SyncOutcome {
  import opened Wrappers
  import opened ByteStrings
  import opened Crypto
  import opened Ordering
  import opened DeviceWriterLog
  import opened DeviceWriterMerge
  import opened MergeCausality
  import opened MergeOrder
  import opened HashChains
  import opened DeltaSync
  import opened DeltaServing
  import opened DeltaSession
  import opened DeltaRuns
  import opened Requester
  import opened SyncConvergence
  import Auth = IdentityAuthority

  // ---- following a session ----

  /** What the requester holds after n pages. */
  function AccAfter(env: Env, acc: map<Str, Log>, steps: seq<Step>, n: nat): (r: Result<map<Str, Log>, SyncError>)
    requires Stored(acc) && n <= |steps|
    ensures r.Ok? ==> Stored(r.value)
  {
    if n == 0 then Ok(acc)
    else
      var acc' :- AccAfter(env, acc, steps, n - 1);
      Accumulate(env, acc', steps[n - 1].response.deviceLogs)
  }

  lemma BehindGrows(acc: map<Str, Log>, logs: seq<Log>, logs': seq<Log>)
    requires Behind(acc, logs) && ProviderGrows(logs, logs')
    ensures Behind(acc, logs')
  {
    hide SameBodies, LogOf;
    forall d ensures BehindAt(acc, logs', d) {
      assert BehindAt(acc, logs, d);
      var held, log, log' := Held(acc, d), LogOf(logs, d), LogOf(logs', d);
      assert log <= log';
      assert log'[..|held|] == log[..|held|];
    }
  }

  /** The request behind each page carries exactly the cursors of what the
      requester holds. */
  ghost predicate InStep(env: Env, first: Request, acc: map<Str, Log>, steps: seq<Step>, n: nat)
    requires Stored(acc) && n <= |steps|
  {
    && AccAfter(env, acc, steps, n).Ok?
    && (n > 0 ==> Behind(AccAfter(env, acc, steps, n).value, steps[n - 1].logs))
    && (n > 0 && steps[n - 1].response.continuation.Some? ==>
          CursorMap(steps[n - 1].response.continuation.value) == HeadCursors(env, AccAfter(env, acc, steps, n).value))
    && forall d :: Held(AccAfter(env, acc, steps, n).value, d) == Held(acc, d) + DeliveredBy(steps, n, d)
  }

  lemma StepKeeps(env: Env, wire: Wire, limits: Limits, request: Request, acc: map<Str, Log>, step: Step)
    requires WellFormed(env, request.identity, step.logs) && Behind(acc, step.logs)
    requires CursorMap(request.cursors) == HeadCursors(env, acc)
    requires step.response == Respond(env, wire, limits, request, step.records, step.logs) && IsDelta(step.response)
    ensures Accumulate(env, acc, step.response.deviceLogs).Ok?
    ensures
      var acc' := Accumulate(env, acc, step.response.deviceLogs).value;
      && Behind(acc', step.logs) && Absorbed(acc, acc', step.response.deviceLogs)
      && (step.response.continuation.Some? ==>
            CursorMap(step.response.continuation.value) == HeadCursors(env, acc'))
  {
    hide WellFormed, CursorMap, HeadCursors, Respond, Behind, Absorbed, AddGroups, SlicesNext, PageFor, Accumulate,
         CursorsAccepted, StartAt, Slice, LogOf;
    BehindStored(acc, step.logs);
    PageSuits(env, wire, limits, request, step.records, step.logs, acc);
    PageAbsorbed(env, request.identity, acc, step.logs, step.response.deviceLogs);
    PageIsNextSlice(env, wire, limits, request, step.records, step.logs);
  }

  /** Every page of a session is accepted by the requester, and keeps the two
      sides in step. */
  lemma {:induction false} SessionInStep(env: Env, wire: Wire, limits: Limits, first: Request, acc: map<Str, Log>,
                                         steps: seq<Step>, n: nat)
    requires Session(env, wire, limits, first, steps) && n <= |steps|
    requires |steps| > 0 && Behind(acc, steps[0].logs) && CursorMap(first.cursors) == HeadCursors(env, acc)
    requires n > 0 ==> IsDelta(steps[n - 1].response)
    ensures InStep(env, first, acc, steps, n)
  {
    hide WellFormed, CursorMap, HeadCursors, Respond, Behind, Accumulate, Slice, ProviderGrows;
    BehindStored(acc, steps[0].logs);
    if n == 0 {
      forall d ensures Held(acc, d) == Held(acc, d) + DeliveredBy(steps, 0, d) { }
    } else {
      assert StepOk(env, wire, limits, first, steps, n - 1);
      var request := RequestAt(first, steps, n - 1);
      if n > 1 {
        assert StepOk(env, wire, limits, first, steps, n - 2);
        ContinuedIsDelta(env, wire, limits, RequestAt(first, steps, n - 2), steps[n - 2].records, steps[n - 2].logs);
      }
      SessionInStep(env, wire, limits, first, acc, steps, n - 1);
      var acc' := AccAfter(env, acc, steps, n - 1).value;
      if n > 1 { BehindGrows(acc', steps[n - 2].logs, steps[n - 1].logs); }
      StepKeeps(env, wire, limits, request, acc', steps[n - 1]);
      var acc'' := AccAfter(env, acc, steps, n).value;
      forall d ensures Held(acc'', d) == Held(acc, d) + DeliveredBy(steps, n, d) {
        assert Held(acc', d) == Held(acc, d) + DeliveredBy(steps, n - 1, d);
      }
    }
  }

  // ---- the finished state ----

  /** The requester holds every log of the provider, whole, up to signatures. */
  ghost predicate Caught(acc: map<Str, Log>, logs: seq<Log>)
  {
    Stored(acc) && forall d :: SameBodies(Held(acc, d), LogOf(logs, d))
  }

  /** All of one device's log, joined from what was held and what was delivered. */
  lemma JoinedWhole(held0: Log, got: Log, held: Log, log: Log)
    requires held == held0 + got && |held0| + |got| == |log| && got == log[|held0|..|held0| + |got|]
    requires |held| <= |log| && SameBodies(held, log[..|held|])
    ensures SameBodies(held, log)
    ensures forall e :: e in held ==> e in held0 || e in log
  {
    assert log[..|held|] == log;
  }

  lemma CaughtUpAt(env: Env, wire: Wire, limits: Limits, first: Request, acc: map<Str, Log>, steps: seq<Step>, d: Str)
    requires Session(env, wire, limits, first, steps) && |steps| > 0
    requires Behind(acc, steps[0].logs) && CursorMap(first.cursors) == HeadCursors(env, acc)
    requires IsDelta(steps[|steps| - 1].response) && steps[|steps| - 1].response.continuation.None?
    requires InStep(env, first, acc, steps, |steps|)
    ensures
      var held, log := Held(AccAfter(env, acc, steps, |steps|).value, d), LogOf(steps[|steps| - 1].logs, d);
      SameBodies(held, log) && forall e :: e in held ==> e in Held(acc, d) || e in log
  {
    hide WellFormed, HeadCursors, Respond, SameBodies, Slice, LogOf, CursorMap, StartAt, DeliveredBy, AccAfter, Held;
    var n := |steps|;
    assert StepOk(env, wire, limits, first, steps, 0);
    var acc' := AccAfter(env, acc, steps, n).value;
    SessionDelivers(env, wire, limits, first, steps, n, d);
    assert BehindAt(acc', steps[n - 1].logs, d);
    if d in acc { HeldSequence(env, first.identity, acc, steps[0].logs, d); }
    HeldLength(env, acc, steps[0].logs, d);
    JoinedWhole(Held(acc, d), DeliveredBy(steps, n, d), Held(acc', d), LogOf(steps[n - 1].logs, d));
  }

  lemma SessionCatchesUp(env: Env, wire: Wire, limits: Limits, first: Request, acc: map<Str, Log>, steps: seq<Step>)
    requires Session(env, wire, limits, first, steps) && |steps| > 0
    requires Behind(acc, steps[0].logs) && CursorMap(first.cursors) == HeadCursors(env, acc)
    requires IsDelta(steps[|steps| - 1].response) && steps[|steps| - 1].response.continuation.None?
    ensures Stored(acc) && AccAfter(env, acc, steps, |steps|).Ok?
    ensures Caught(AccAfter(env, acc, steps, |steps|).value, steps[|steps| - 1].logs)
    ensures forall d, e :: e in Held(AccAfter(env, acc, steps, |steps|).value, d) ==>
              e in Held(acc, d) || e in LogOf(steps[|steps| - 1].logs, d)
  {
    hide Session, HeadCursors, SameBodies, LogOf, CursorMap, InStep, Behind, AccAfter, Held;
    BehindStored(acc, steps[0].logs);
    SessionInStep(env, wire, limits, first, acc, steps, |steps|);
    InStepOk(env, first, acc, steps, |steps|);
    var acc', logs := AccAfter(env, acc, steps, |steps|).value, steps[|steps| - 1].logs;
    forall d
      ensures SameBodies(Held(acc', d), LogOf(logs, d))
      ensures forall e :: e in Held(acc', d) ==> e in Held(acc, d) || e in LogOf(logs, d)
    {
      CaughtUpAt(env, wire, limits, first, acc, steps, d);
    }
  }

  lemma InStepOk(env: Env, first: Request, acc: map<Str, Log>, steps: seq<Step>, n: nat)
    requires Stored(acc) && n <= |steps| && InStep(env, first, acc, steps, n)
    ensures AccAfter(env, acc, steps, n).Ok?
  {
  }

  // ---- the advertised heads are reached ----

  lemma {:induction false} DistinctCardinality(ids: seq<Str>)
    requires forall i, j :: 0 <= i < j < |ids| ==> ids[i] != ids[j]
    ensures |set id | id in ids| == |ids|
  {
    if ids != [] {
      var n := |ids| - 1;
      DistinctCardinality(ids[..n]);
      assert ids == ids[..n] + [ids[n]];
      assert ids[n] !in ids[..n];
      assert (set id | id in ids) == (set id | id in ids[..n]) + {ids[n]};
    }
  }

  lemma HeadDevice(env: Env, identity: Str, logs: seq<Log>, n: nat, c: Cursor) returns (k: nat)
    requires WellFormed(env, identity, logs) && n <= |logs| && c in HeadsOf(env, logs[..n])
    ensures k < n && logs[k] != [] && c.deviceId == DeviceOf(logs[k])
  {
    hide WellFormed, ShapeOk, HeadsOf, FromEntry;
    HeadsMean(env, logs[..n], c);
    var log :| log in logs[..n] && log != [] && c == FromEntry(env, log[|log| - 1]);
    k :| 0 <= k < n && logs[..n][k] == log;
    assert log in logs;
    LastDevice(env, identity, logs, log);
  }

  lemma {:induction false} HeadsDistinct(env: Env, identity: Str, logs: seq<Log>, n: nat, i: nat, j: nat)
    requires WellFormed(env, identity, logs) && n <= |logs|
    requires i < j < |HeadsOf(env, logs[..n])|
    ensures HeadsOf(env, logs[..n])[i].deviceId != HeadsOf(env, logs[..n])[j].deviceId
  {
    hide WellFormed, ShapeOk, FromEntry;
    assert logs[..n][..n - 1] == logs[..n - 1];
    var rest := HeadsOf(env, logs[..n - 1]);
    if j < |rest| {
      HeadsDistinct(env, identity, logs, n - 1, i, j);
    } else {
      var last := logs[n - 1];
      assert rest[i] in rest && last in logs;
      var k := HeadDevice(env, identity, logs, n - 1, rest[i]);
      DistinctPositions(env, identity, logs, k, n - 1);
      LastDevice(env, identity, logs, last);
    }
  }

  lemma CursorCount(heads: seq<Cursor>)
    requires DistinctDevices(heads)
    ensures |CursorMap(heads)| == |heads|
  {
    hide CursorMap;
    CursorMapLabelled(heads);
    var ids := seq(|heads|, i requires 0 <= i < |heads| => heads[i].deviceId);
    DistinctCardinality(ids);
    forall id ensures id in IdsOf(heads) <==> id in ids {
      if id in IdsOf(heads) {
        var c :| c in heads && c.deviceId == id;
        var i :| 0 <= i < |heads| && heads[i] == c;
        assert ids[i] == id;
      }
      if id in ids {
        var i :| 0 <= i < |ids| && ids[i] == id;
        assert heads[i] in heads;
      }
    }
    assert IdsOf(heads) == set id | id in ids;
    assert |CursorMap(heads)| == |CursorMap(heads).Keys|;
  }

  lemma LastDevice(env: Env, identity: Str, logs: seq<Log>, log: Log)
    requires WellFormed(env, identity, logs) && log in logs && log != []
    ensures FromEntry(env, log[|log| - 1]).deviceId == DeviceOf(log)
  {
    hide WellFormed, EntryHash, ShapeOk;
    ShapeOfMember(env, identity, logs, log);
    DeviceThroughout(env, identity, log, |log| - 1);
  }

  lemma HeadListed(env: Env, identity: Str, logs: seq<Log>, log: Log)
    requires WellFormed(env, identity, logs) && DistinctDevices(HeadsOf(env, logs)) && log in logs && log != []
    ensures
      var heads := CursorMap(HeadsOf(env, logs));
      DeviceOf(log) in heads && heads[DeviceOf(log)] == FromEntry(env, log[|log| - 1])
  {
    hide WellFormed, HeadsOf, CursorMap, FromEntry, ShapeOk;
    var heads := HeadsOf(env, logs);
    var c := FromEntry(env, log[|log| - 1]);
    LastDevice(env, identity, logs, log);
    HeadsMean(env, logs, c);
    CursorMapMeans(heads, c.deviceId);
    ListedOnce(heads, c);
  }

  lemma HeadAt(env: Env, identity: Str, logs: seq<Log>, d: Str)
    requires WellFormed(env, identity, logs) && DistinctDevices(HeadsOf(env, logs))
    ensures d in CursorMap(HeadsOf(env, logs)) <==> HasLog(logs, d)
    ensures HasLog(logs, d) ==>
      var log := LogOf(logs, d);
      CursorMap(HeadsOf(env, logs))[d] == FromEntry(env, log[|log| - 1])
  {
    hide WellFormed, HeadsOf, CursorMap, FromEntry, ShapeOk;
    var heads := HeadsOf(env, logs);
    if HasLog(logs, d) {
      HeadListed(env, identity, logs, LogOf(logs, d));
    }
    if d in CursorMap(heads) {
      CursorMapMeans(heads, d);
      HeadsMean(env, logs, CursorMap(heads)[d]);
      var log :| log in logs && log != [] && CursorMap(heads)[d] == FromEntry(env, log[|log| - 1]);
      LastDevice(env, identity, logs, log);
    }
  }

  /** A requester that has caught up passes the completeness check. */
  lemma CaughtReaches(env: Env, identity: Str, acc: map<Str, Log>, logs: seq<Log>)
    requires WellFormed(env, identity, logs) && Caught(acc, logs)
    ensures Reaches(env, acc, HeadsOf(env, Sort(logs, LogKey)))
  {
    hide WellFormed, EntryHash, HeadsOf, CursorMap, Sort, SameBodies;
    var sorted := Sort(logs, LogKey);
    var heads := HeadsOf(env, sorted);
    SortedLogs(env, identity, logs);
    assert sorted[..|sorted|] == sorted;
    forall i, j | 0 <= i < j < |heads| ensures heads[i].deviceId != heads[j].deviceId {
      HeadsDistinct(env, identity, sorted, |sorted|, i, j);
    }
    CursorCount(heads);
    forall d
      ensures d in acc <==> d in CursorMap(heads)
      ensures d in acc ==>
        && acc[d][|acc[d]| - 1].body.sequence == CursorMap(heads)[d].sequence
        && EntryHash(env, acc[d][|acc[d]| - 1]) == CursorMap(heads)[d].entryHash
    {
      HeadAt(env, identity, sorted, d);
      SortingKeepsLogs(env, identity, logs, d);
      HeldAgainst(acc, logs, d);
      if d in acc {
        var log := LogOf(logs, d);
        SameBodySameHash(env, acc[d][|acc[d]| - 1], log[|log| - 1]);
      }
    }
    assert acc.Keys == CursorMap(heads).Keys;
    assert |acc| == |acc.Keys| && |CursorMap(heads)| == |CursorMap(heads).Keys|;
  }

  lemma HeldAgainst(acc: map<Str, Log>, logs: seq<Log>, d: Str)
    requires Caught(acc, logs)
    ensures d in acc <==> HasLog(logs, d)
    ensures d in acc ==>
      var log := LogOf(logs, d);
      |acc[d]| == |log| > 0 && acc[d][|acc[d]| - 1].body == log[|log| - 1].body
  {
    assert SameBodies(Held(acc, d), LogOf(logs, d));
  }

  // ---- the merged states agree ----

  lemma ShapeOfCopy(env: Env, identity: Str, a: Log, b: Log)
    requires SameBodies(a, b) && ShapeOk(env, identity, b)
    ensures ShapeOk(env, identity, a)
  {
    hide EntryHash, ValidateBody;
    forall i | 0 <= i < |a| ensures EntryShapeError(env, identity, a, i).None? {
      assert EntryShapeError(env, identity, b, i).None?;
      if i > 0 { SameBodySameHash(env, a[i - 1], b[i - 1]); }
    }
  }

  lemma {:induction false} CountDistinct<T>(s: seq<T>, x: T)
    requires forall i, j :: 0 <= i < j < |s| ==> s[i] != s[j]
    ensures multiset(s)[x] == if x in s then 1 else 0
  {
    if s != [] {
      var n := |s| - 1;
      CountDistinct(s[..n], x);
      assert s == s[..n] + [s[n]];
    }
  }

  /** The provider's logs, listed in the requester's order. */
  ghost function Listing(logs: seq<Log>, order: seq<Str>): (r: seq<Log>)
    ensures |r| == |order| && forall i :: 0 <= i < |order| ==> r[i] == LogOf(logs, order[i])
  {
    seq(|order|, i requires 0 <= i < |order| => LogOf(logs, order[i]))
  }

  lemma ListingMembers(env: Env, identity: Str, acc: map<Str, Log>, logs: seq<Log>, order: seq<Str>, x: Log)
    requires WellFormed(env, identity, logs) && Caught(acc, logs) && multiset(order) == multiset(acc.Keys)
    requires forall log :: log in logs ==> log != []
    ensures x in Listing(logs, order) <==> x in logs
  {
    hide WellFormed, SameBodies, Caught;
    if x in logs {
      LogOfIs(env, identity, logs, x);
      HeldAgainst(acc, logs, DeviceOf(x));
      assert DeviceOf(x) in multiset(order);
      var i :| 0 <= i < |order| && order[i] == DeviceOf(x);
      assert Listing(logs, order)[i] == x;
    }
    if x in Listing(logs, order) {
      var i :| 0 <= i < |order| && Listing(logs, order)[i] == x;
      assert order[i] in multiset(order);
      HeldAgainst(acc, logs, order[i]);
    }
  }

  lemma ListingDistinct(env: Env, identity: Str, acc: map<Str, Log>, logs: seq<Log>, order: seq<Str>, i: nat, j: nat)
    requires WellFormed(env, identity, logs) && Caught(acc, logs) && multiset(order) == multiset(acc.Keys)
    requires i < j < |order|
    ensures Listing(logs, order)[i] != Listing(logs, order)[j]
  {
    hide WellFormed, SameBodies, Caught;
    DistinctFromSet(order, acc.Keys, i, j);
    assert order[i] in multiset(order) && order[j] in multiset(order);
    HeldAgainst(acc, logs, order[i]);
    HeldAgainst(acc, logs, order[j]);
  }

  /** Listed by device, the provider's logs are the same logs. */
  lemma ListingPermutes(env: Env, identity: Str, acc: map<Str, Log>, logs: seq<Log>, order: seq<Str>)
    requires WellFormed(env, identity, logs) && Caught(acc, logs) && multiset(order) == multiset(acc.Keys)
    requires forall log :: log in logs ==> log != []
    ensures multiset(Listing(logs, order)) == multiset(logs)
  {
    hide ShapeOk, Caught, Listing;
    var listing := Listing(logs, order);
    forall i, j | 0 <= i < j < |listing| ensures listing[i] != listing[j] {
      ListingDistinct(env, identity, acc, logs, order, i, j);
    }
    forall x ensures multiset(listing)[x] == multiset(logs)[x] {
      CountDistinct(listing, x);
      ListingMembers(env, identity, acc, logs, order, x);
      if x in logs { assert multiset(logs)[x] == 1; } else { assert x !in multiset(logs); }
    }
  }

  lemma CopiesVerify(env: Env, identity: Str, auth: Auth.Authority, acc: map<Str, Log>, logs: seq<Log>, order: seq<Str>)
    requires WellFormed(env, identity, logs) && Caught(acc, logs) && auth.identity == identity
    requires forall i :: 0 <= i < |order| ==> order[i] in acc
    requires forall d, e :: e in Held(acc, d) ==> SignatureError(env, auth, e).None?
    ensures MergeError(env, auth, LogsIn(acc, order), |order|).None?
  {
    hide WellFormed, ShapeOk, SignatureError, ErrorIn, SameBodies;
    var mine := LogsIn(acc, order);
    NoErrorMeans(env, auth, mine, |order|);
    forall i | 0 <= i < |order| ensures ErrorIn(env, auth, mine[i]).None? {
      var d := order[i];
      HeldAgainst(acc, logs, d);
      ShapeOfMember(env, identity, logs, LogOf(logs, d));
      assert SameBodies(Held(acc, d), LogOf(logs, d));
      ShapeOfCopy(env, identity, acc[d], LogOf(logs, d));
      LogOkMeans(env, auth, acc[d]);
      forall k | 0 <= k < |acc[d]| ensures SignatureError(env, auth, acc[d][k]).None? {
        assert acc[d][k] in Held(acc, d);
      }
    }
  }

  /** A requester that has caught up merges to the provider's state, in whatever
      order it lists its logs. */
  lemma CaughtMergesAlike(env: Env, identity: Str, auth: Auth.Authority, acc: map<Str, Log>, logs: seq<Log>,
                          order: seq<Str>)
    requires WellFormed(env, identity, logs) && Caught(acc, logs) && auth.identity == identity
    requires forall log :: log in logs ==> log != []
    requires multiset(order) == multiset(acc.Keys) && forall i :: 0 <= i < |order| ==> order[i] in acc
    requires CollisionFree(env, logs) && MergeError(env, auth, logs, |logs|).None?
    requires forall d, e :: e in Held(acc, d) ==> SignatureError(env, auth, e).None?
    ensures OutcomeOf(env, auth, LogsIn(acc, order)) == OutcomeOf(env, auth, logs)
  {
    hide WellFormed, CollisionFree, MergeError, OutcomeOf, SignatureError, SameBodies;
    var theirs, mine := Listing(logs, order), LogsIn(acc, order);
    ListingPermutes(env, identity, acc, logs, order);
    CopiesVerify(env, identity, auth, acc, logs, order);
    SameErrors(env, auth, logs, theirs);
    forall i | 0 <= i < |mine| ensures SameBodies(mine[i], theirs[i]) {
      assert SameBodies(Held(acc, order[i]), LogOf(logs, order[i]));
    }
    SameBodiesMergeAlike(env, auth, mine, theirs);
    OrderIndependent(env, auth, logs, theirs);
    OkOutcome(env, auth, logs);
  }

  lemma OkOutcome(env: Env, auth: Auth.Authority, logs: seq<Log>)
    requires MergeError(env, auth, logs, |logs|).None?
    ensures !OutcomeOf(env, auth, logs).Failed?
  {
  }

  /** A requester whose verified logs the provider accepts cursors from follows
      continuations to the end. Every page accumulates; the result passes the
      completeness check; and in whatever order it is listed it merges to what the
      provider's own logs merge to. */
  lemma AccumulationConverges(env: Env, wire: Wire, limits: Limits, auth: Auth.Authority, first: Request,
                      acc: map<Str, Log>, steps: seq<Step>, order: seq<Str>)
    requires Session(env, wire, limits, first, steps) && |steps| > 0 && auth.identity == first.identity
    requires IsDelta(steps[|steps| - 1].response) && steps[|steps| - 1].response.continuation.None?
    requires Stored(acc) && CursorMap(first.cursors) == HeadCursors(env, acc)
    requires forall d :: d in acc ==> ShapeOk(env, first.identity, acc[d]) && DeviceOf(acc[d]) == d
    requires forall d :: d in acc ==> CollisionFree(env, [acc[d], LogOf(steps[0].logs, d)])
    requires forall d, e :: e in Held(acc, d) ==> SignatureError(env, auth, e).None?
    requires
      var logs := steps[|steps| - 1].logs;
      && (forall log :: log in logs ==> log != [])
      && CollisionFree(env, logs) && MergeError(env, auth, logs, |logs|).None?
    ensures AccAfter(env, acc, steps, |steps|).Ok?
    ensures
      var final, logs := AccAfter(env, acc, steps, |steps|).value, steps[|steps| - 1].logs;
      && Reaches(env, final, steps[|steps| - 1].response.heads)
      && (multiset(order) == multiset(final.Keys) && (forall i :: 0 <= i < |order| ==> order[i] in final) ==>
            OutcomeOf(env, auth, LogsIn(final, order)) == OutcomeOf(env, auth, logs))
  {
    hide WellFormed, ShapeOk, CollisionFree, MergeError, OutcomeOf, Respond, HeadCursors, CursorMap, Behind,
         SignatureError, Caught, AccAfter, Reaches, Held, LogOf;
    var n := |steps|;
    assert StepOk(env, wire, limits, first, steps, 0);
    assert StepOk(env, wire, limits, first, steps, n - 1);
    StartsBehind(env, wire, limits, first, acc, steps);
    SessionCatchesUp(env, wire, limits, first, acc, steps);
    var final, logs := AccAfter(env, acc, steps, n).value, steps[n - 1].logs;
    CaughtReaches(env, first.identity, final, logs);
    DeltaHeads(env, wire, limits, RequestAt(first, steps, n - 1), steps[n - 1].records, logs);
    forall d, e | e in Held(final, d) ensures SignatureError(env, auth, e).None? {
      if e in LogOf(logs, d) { SignedMember(env, auth, logs, d, e); }
    }
    if multiset(order) == multiset(final.Keys) && (forall i :: 0 <= i < |order| ==> order[i] in final) {
      CaughtMergesAlike(env, first.identity, auth, final, logs, order);
    }
  }

  lemma StartsBehind(env: Env, wire: Wire, limits: Limits, first: Request, acc: map<Str, Log>, steps: seq<Step>)
    requires Session(env, wire, limits, first, steps) && |steps| > 0
    requires IsDelta(steps[|steps| - 1].response)
    requires Stored(acc) && CursorMap(first.cursors) == HeadCursors(env, acc)
    requires forall d :: d in acc ==> ShapeOk(env, first.identity, acc[d]) && DeviceOf(acc[d]) == d
    requires forall d :: d in acc ==> CollisionFree(env, [acc[d], LogOf(steps[0].logs, d)])
    ensures Behind(acc, steps[0].logs)
  {
    hide WellFormed, ShapeOk, CollisionFree, Respond, HeadCursors, CursorMap, Behind, SlicesNext, AcceptedMap,
         CursorsAccepted, ProviderGrows, LogOf, Slice, StartAt, Total, AddGroups;
    assert StepOk(env, wire, limits, first, steps, 0);
    var s := steps[0];
    if |steps| > 1 {
      assert StepOk(env, wire, limits, first, steps, 1);
      ContinuedIsDelta(env, wire, limits, first, s.records, s.logs);
    }
    PageIsNextSlice(env, wire, limits, first, s.records, s.logs);
    AcceptedAsMap(env, first.identity, first.cursors, s.logs);
    AcceptedMeansBehind(env, first.identity, acc, s.logs);
  }

  lemma DeltaHeads(env: Env, wire: Wire, limits: Limits, request: Request, records: seq<Auth.Record>, logs: seq<Log>)
    requires WellFormed(env, request.identity, logs)
    requires IsDelta(Respond(env, wire, limits, request, records, logs))
    ensures Respond(env, wire, limits, request, records, logs).heads == HeadsOf(env, Sort(logs, LogKey))
  {
    hide WellFormed, Fill, Groups, CursorMap, HeadsOf, Sort, CursorsAccepted, Suffixes, CursorList, Count, Frame;
  }

  lemma SignedMember(env: Env, auth: Auth.Authority, logs: seq<Log>, d: Str, e: Entry)
    requires MergeError(env, auth, logs, |logs|).None? && e in LogOf(logs, d)
    ensures SignatureError(env, auth, e).None?
  {
    hide ErrorIn, SignatureError, ShapeOk;
    var log := LogOf(logs, d);
    var i :| 0 <= i < |logs| && logs[i] == log;
    NoErrorMeans(env, auth, logs, |logs|);
    LogOkMeans(env, auth, log);
    var k :| 0 <= k < |log| && log[k] == e;
  }
}
