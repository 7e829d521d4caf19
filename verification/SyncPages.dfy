/** The whole protocol, page by page: after each page the requester chooses an
    authority, appends, checks and merges again, and starts the next page from the
    state that left. */
module SyncPages {
  import opened Wrappers
  import opened ByteStrings
  import opened Crypto
  import opened Ordering
  import opened DeviceWriterLog
  import opened DeviceWriterMerge
  import opened MergeCausality
  import opened MergeOrder
  import opened HashChains
  import opened DeltaSync
  import opened DeltaServing
  import opened DeltaSession
  import opened DeltaRuns
  import opened Requester
  import opened SyncConvergence
  import opened SyncOutcome
  import Auth = IdentityAuthority

  // ---- the requester's run ----

  /** What the requester starts page `i` from. */
  ghost function Before(existing: Option<Cached>, results: seq<Result<Cached, SyncError>>, i: nat): Option<Cached>
    requires i <= |results| && (i > 0 ==> results[i - 1].Ok?)
  {
    if i == 0 then existing else Some(results[i - 1].value)
  }

  /** Page `i` was merged into what page `i - 1` left. */
  ghost predicate PageMerges(env: Env, identity: Str, existing: Option<Cached>, steps: seq<Step>,
                             results: seq<Result<Cached, SyncError>>, i: nat)
    requires i < |steps| && i < |results|
  {
    && (i > 0 ==> results[i - 1].Ok?)
    && Stored(HeldLogs(Before(existing, results, i)))
    && var page := steps[i].response;
       Merges(env, identity, Before(existing, results, i), page.authorityRecords, page.deviceLogs, page.syncVersion,
              page.heads, page.continuation.None?, results[i])
  }

  /** A run of the requester over the pages of a session; it goes no further than its
      first error. */
  ghost predicate Follows(env: Env, identity: Str, existing: Option<Cached>, steps: seq<Step>,
                          results: seq<Result<Cached, SyncError>>)
  {
    && |results| <= |steps|
    && forall i :: 0 <= i < |results| ==> PageMerges(env, identity, existing, steps, results, i)
  }

  /** The provider's chain at page `i` verifies, is no older than the one before, and
      vouches for every entry in play. */
  ghost predicate Vouches(env: Env, identity: Str, existing: Option<Cached>, steps: seq<Step>, i: nat)
    requires i < |steps|
  {
    var chain := Auth.ChainAuthority(env, identity, steps[i].records);
    var logs := steps[|steps| - 1].logs;
    && chain.Ok?
    && MergeError(env, chain.value, logs, |logs|).None?
    && (forall d, e :: e in Held(HeldLogs(existing), d) ==> SignatureError(env, chain.value, e).None?)
    && (i == 0 && existing.Some? ==> existing.value.authoritySequence <= chain.value.latestSequence)
    && (i > 0 ==>
          var previous := Auth.ChainAuthority(env, identity, steps[i - 1].records);
          previous.Ok? && previous.value.latestSequence <= chain.value.latestSequence)
  }

  // ---- a copy of part of the provider's logs always merges ----

  lemma CopyReferences(env: Env, rank: Hash -> nat, logs: seq<Log>, log: Log, mine: Log)
    requires Causal(env, logs, rank) && log in logs && |mine| <= |log| && SameBodies(mine, log[..|mine|])
    ensures forall e, h :: e in mine && h in References(e.body) ==> rank(h) < rank(EntryHash(env, e))
  {
    hide EntryHash, References;
    forall e, h | e in mine && h in References(e.body) ensures rank(h) < rank(EntryHash(env, e)) {
      var k :| 0 <= k < |mine| && mine[k] == e;
      assert log[..|mine|][k] == log[k];
      SameBodySameHash(env, e, log[k]);
      assert log[k] in log;
    }
  }

  lemma BehindCausal(env: Env, identity: Str, acc: map<Str, Log>, logs: seq<Log>, order: seq<Str>, rank: Hash -> nat)
    requires WellFormed(env, identity, logs) && Behind(acc, logs) && Causal(env, logs, rank)
    requires forall i :: 0 <= i < |order| ==> order[i] in acc
    ensures Causal(env, LogsIn(acc, order), rank)
  {
    hide WellFormed, EntryHash, References, SameBodies, LogOf;
    var mine := LogsIn(acc, order);
    forall log, e, h | log in mine && e in log && h in References(e.body) ensures rank(h) < rank(EntryHash(env, e)) {
      var i :| 0 <= i < |mine| && mine[i] == log;
      assert BehindAt(acc, logs, order[i]);
      HeldInLogs(acc, logs, order[i]);
      CopyReferences(env, rank, logs, LogOf(logs, order[i]), log);
    }
  }

  lemma HeldInLogs(acc: map<Str, Log>, logs: seq<Log>, d: Str)
    requires Stored(acc) && d in acc && BehindAt(acc, logs, d)
    ensures Held(acc, d) == acc[d] && LogOf(logs, d) in logs && LogOf(logs, d) != []
  {
    AcceptedInLogs(logs, d);
  }

  lemma BehindVerifies(env: Env, identity: Str, auth: Auth.Authority, acc: map<Str, Log>, logs: seq<Log>,
                       order: seq<Str>)
    requires WellFormed(env, identity, logs) && Behind(acc, logs) && auth.identity == identity
    requires forall i :: 0 <= i < |order| ==> order[i] in acc
    requires forall d, e :: e in Held(acc, d) ==> SignatureError(env, auth, e).None?
    ensures MergeError(env, auth, LogsIn(acc, order), |order|).None?
  {
    hide WellFormed, ShapeOk, SignatureError, ErrorIn, SameBodies, LogOf;
    var mine := LogsIn(acc, order);
    NoErrorMeans(env, auth, mine, |order|);
    forall i | 0 <= i < |order| ensures ErrorIn(env, auth, mine[i]).None? {
      var d := order[i];
      assert BehindAt(acc, logs, d);
      HeldInLogs(acc, logs, d);
      var log := LogOf(logs, d);
      ShapeOfMember(env, identity, logs, log);
      ShapePrefix(env, identity, log, |acc[d]|);
      ShapeOfCopy(env, identity, acc[d], log[..|acc[d]|]);
      LogOkMeans(env, auth, acc[d]);
      forall k | 0 <= k < |acc[d]| ensures SignatureError(env, auth, acc[d][k]).None? {
        assert acc[d][k] in Held(acc, d);
      }
    }
  }

  /** Whatever part of the provider's logs a requester holds, it merges. */
  lemma BehindMerges(env: Env, identity: Str, auth: Auth.Authority, acc: map<Str, Log>, logs: seq<Log>,
                     order: seq<Str>, rank: Hash -> nat)
    requires WellFormed(env, identity, logs) && Behind(acc, logs) && Causal(env, logs, rank)
    requires auth.identity == identity
    requires forall i :: 0 <= i < |order| ==> order[i] in acc
    requires forall d, e :: e in Held(acc, d) ==> SignatureError(env, auth, e).None?
    ensures OutcomeOf(env, auth, LogsIn(acc, order)).Merged?
  {
    hide WellFormed, Behind, Causal, MergeError, OutcomeOf, SignatureError;
    BehindVerifies(env, identity, auth, acc, logs, order);
    BehindCausal(env, identity, acc, logs, order, rank);
    MergeNeverPanics(env, auth, LogsIn(acc, order), rank);
  }

  // ---- what is held after each page ----

  lemma {:induction false} GrewTo(env: Env, wire: Wire, limits: Limits, first: Request, steps: seq<Step>, i: nat,
                                  j: nat)
    requires Session(env, wire, limits, first, steps) && i <= j < |steps|
    ensures ProviderGrows(steps[i].logs, steps[j].logs)
  {
    hide WellFormed, Respond, LogOf;
    if i < j {
      GrewTo(env, wire, limits, first, steps, i, j - 1);
      assert StepOk(env, wire, limits, first, steps, j);
      forall d ensures LogOf(steps[i].logs, d) <= LogOf(steps[j].logs, d) {
        assert LogOf(steps[i].logs, d) <= LogOf(steps[j - 1].logs, d) <= LogOf(steps[j].logs, d);
      }
    }
  }

  lemma DeltaAt(env: Env, wire: Wire, limits: Limits, first: Request, steps: seq<Step>, n: nat)
    requires Session(env, wire, limits, first, steps) && n < |steps|
    requires IsDelta(steps[|steps| - 1].response)
    ensures IsDelta(steps[n].response) && steps[n].response.authorityRecords == steps[n].records
    ensures n < |steps| - 1 ==> steps[n].response.continuation.Some?
  {
    hide WellFormed, Respond;
    assert StepOk(env, wire, limits, first, steps, n);
    if n < |steps| - 1 {
      assert StepOk(env, wire, limits, first, steps, n + 1);
      ContinuedIsDelta(env, wire, limits, RequestAt(first, steps, n), steps[n].records, steps[n].logs);
    }
    DeltaRecords(env, wire, limits, RequestAt(first, steps, n), steps[n].records, steps[n].logs);
  }

  lemma DeltaRecords(env: Env, wire: Wire, limits: Limits, request: Request, records: seq<Auth.Record>, logs: seq<Log>)
    requires WellFormed(env, request.identity, logs)
    requires IsDelta(Respond(env, wire, limits, request, records, logs))
    ensures Respond(env, wire, limits, request, records, logs).authorityRecords == records
  {
    hide WellFormed, Fill, Groups, CursorMap, HeadsOf, Sort, CursorsAccepted, Suffixes, CursorList, Count, Frame;
  }

  /** What is held after `n` pages is part of the provider's final logs, and each entry
      was held before or is one of the provider's. */
  lemma HeldAfter(env: Env, wire: Wire, limits: Limits, first: Request, acc: map<Str, Log>, steps: seq<Step>, n: nat)
    requires Session(env, wire, limits, first, steps) && 0 < n <= |steps|
    requires Behind(acc, steps[0].logs) && CursorMap(first.cursors) == HeadCursors(env, acc)
    requires IsDelta(steps[|steps| - 1].response)
    ensures Stored(acc) && AccAfter(env, acc, steps, n).Ok?
    ensures
      var held, logs := AccAfter(env, acc, steps, n).value, steps[|steps| - 1].logs;
      && Behind(held, logs)
      && forall d, e :: e in Held(held, d) ==> e in Held(acc, d) || e in LogOf(logs, d)
  {
    hide Session, WellFormed, HeadCursors, LogOf, CursorMap, Behind, AccAfter, Held, DeliveredBy, ProviderGrows;
    DeltaAt(env, wire, limits, first, steps, n - 1);
    BehindStored(acc, steps[0].logs);
    SessionInStep(env, wire, limits, first, acc, steps, n);
    GrewTo(env, wire, limits, first, steps, n - 1, |steps| - 1);
    var held, logs := AccAfter(env, acc, steps, n).value, steps[|steps| - 1].logs;
    BehindGrows(held, steps[n - 1].logs, logs);
    forall d, e | e in Held(held, d) ensures e in Held(acc, d) || e in LogOf(logs, d) {
      DeliveredIn(env, wire, limits, first, steps, n, d);
      assert e in Held(acc, d) || e in DeliveredBy(steps, n, d);
    }
  }

  lemma DeliveredIn(env: Env, wire: Wire, limits: Limits, first: Request, steps: seq<Step>, n: nat, d: Str)
    requires Session(env, wire, limits, first, steps) && 0 < n <= |steps| && IsDelta(steps[n - 1].response)
    ensures forall e :: e in DeliveredBy(steps, n, d) ==> e in LogOf(steps[|steps| - 1].logs, d)
  {
    hide Session, LogOf, CursorMap, StartAt, DeliveredBy;
    SessionDelivers(env, wire, limits, first, steps, n, d);
    GrewTo(env, wire, limits, first, steps, n - 1, |steps| - 1);
    var log, last := LogOf(steps[n - 1].logs, d), LogOf(steps[|steps| - 1].logs, d);
    assert log <= last;
    assert forall e :: e in log ==> e in last;
  }

  // ---- every page is accepted ----

  /** One page, when nothing about it can fail. */
  lemma MergesOk(env: Env, identity: Str, existing: Option<Cached>, records: seq<Auth.Record>, auth: Auth.Authority,
                 deviceLogs: seq<Log>, syncVersion: U16, heads: seq<Cursor>, complete: bool, acc: map<Str, Log>,
                 r: Result<Cached, SyncError>)
    requires Stored(HeldLogs(existing)) && Auth.ChainAuthority(env, identity, records) == Ok(auth)
    requires existing.Some? ==> existing.value.authoritySequence <= auth.latestSequence
    requires Accumulate(env, HeldLogs(existing), deviceLogs) == Ok(acc)
    requires complete ==> Reaches(env, acc, heads)
    requires forall order :: Lists(acc, order) ==> OutcomeOf(env, auth, LogsIn(acc, order)).Merged?
    requires Merges(env, identity, existing, records, deviceLogs, syncVersion, heads, complete, r)
    ensures r.Ok? && r.value.deviceLogs == acc && r.value.authorityRecords == records
    ensures r.value.authoritySequence == auth.latestSequence
    ensures exists order :: Lists(acc, order) && OutcomeOf(env, auth, LogsIn(acc, order)) == Merged(r.value.merged)
  {
    hide Auth.ChainAuthority, Accumulate, Reaches, OutcomeOf;
    assert ChooseAuthority(env, identity, existing, records) == Ok((records, auth));
    hide ChooseAuthority;
    var order :| Lists(acc, order) && Remerges(env, (records, auth), acc, order, r);
  }

  /** A session worth following: the requester's logs are verified and its cursors are
      theirs, the provider's logs and chains verify, entries only refer to earlier
      ones, and the session ends with a delta. */
  ghost predicate Ready(env: Env, wire: Wire, limits: Limits, first: Request, existing: Option<Cached>,
                        steps: seq<Step>, rank: Hash -> nat)
  {
    var acc := HeldLogs(existing);
    && Session(env, wire, limits, first, steps) && |steps| > 0
    && IsDelta(steps[|steps| - 1].response) && steps[|steps| - 1].response.continuation.None?
    && Stored(acc) && CursorMap(first.cursors) == HeadCursors(env, acc)
    && (forall d :: d in acc ==> ShapeOk(env, first.identity, acc[d]) && DeviceOf(acc[d]) == d)
    && (forall d :: d in acc ==> CollisionFree(env, [acc[d], LogOf(steps[0].logs, d)]))
    && (forall i :: 0 <= i < |steps| ==> Vouches(env, first.identity, existing, steps, i))
    && var logs := steps[|steps| - 1].logs;
       (forall log :: log in logs ==> log != []) && CollisionFree(env, logs) && Causal(env, logs, rank)
  }

  /** What the requester holds after `n` pages merges under the chain of any page. */
  lemma HeldMerges(env: Env, wire: Wire, limits: Limits, first: Request, existing: Option<Cached>, steps: seq<Step>,
                   rank: Hash -> nat, n: nat, i: nat, order: seq<Str>)
    requires Ready(env, wire, limits, first, existing, steps, rank) && 0 < n <= |steps| && i < |steps|
    requires Behind(HeldLogs(existing), steps[0].logs)
    requires AccAfter(env, HeldLogs(existing), steps, n).Ok?
    requires Lists(AccAfter(env, HeldLogs(existing), steps, n).value, order)
    ensures
      var auth := Auth.ChainAuthority(env, first.identity, steps[i].records);
      auth.Ok? && OutcomeOf(env, auth.value, LogsIn(AccAfter(env, HeldLogs(existing), steps, n).value, order)).Merged?
  {
    hide WellFormed, ShapeOk, CollisionFree, MergeError, OutcomeOf, Respond, HeadCursors, CursorMap, Behind, Causal,
         SignatureError, AccAfter, Held, LogOf, Auth.ChainAuthority;
    var acc, logs := HeldLogs(existing), steps[|steps| - 1].logs;
    assert Vouches(env, first.identity, existing, steps, i);
    assert StepOk(env, wire, limits, first, steps, |steps| - 1);
    var auth := Auth.ChainAuthority(env, first.identity, steps[i].records).value;
    Auth.ChainIdentity(env, first.identity, steps[i].records);
    HeldAfter(env, wire, limits, first, acc, steps, n);
    var held := AccAfter(env, acc, steps, n).value;
    forall d, e | e in Held(held, d) ensures SignatureError(env, auth, e).None? {
      if e in LogOf(logs, d) {
        SignedMember(env, auth, logs, d, e);
      }
    }
    BehindMerges(env, first.identity, auth, held, logs, order, rank);
  }

  /** What page `n` left. */
  ghost predicate Left(env: Env, identity: Str, existing: Option<Cached>, steps: seq<Step>, n: nat,
                       r: Result<Cached, SyncError>)
    requires 0 < n <= |steps| && Stored(HeldLogs(existing))
  {
    var acc := AccAfter(env, HeldLogs(existing), steps, n);
    var auth := Auth.ChainAuthority(env, identity, steps[n - 1].records);
    && r.Ok? && acc == Ok(r.value.deviceLogs)
    && auth.Ok? && r.value.authoritySequence == auth.value.latestSequence
    && r.value.authorityRecords == steps[n - 1].records
    && exists order :: Lists(r.value.deviceLogs, order)
         && OutcomeOf(env, auth.value, LogsIn(r.value.deviceLogs, order)) == Merged(r.value.merged)
  }

  lemma ReadyStarts(env: Env, wire: Wire, limits: Limits, first: Request, existing: Option<Cached>, steps: seq<Step>,
                    rank: Hash -> nat)
    requires Ready(env, wire, limits, first, existing, steps, rank)
    ensures Behind(HeldLogs(existing), steps[0].logs)
  {
    hide WellFormed, ShapeOk, CollisionFree, Respond, HeadCursors, CursorMap, Behind, Vouches, Causal, LogOf, StepOk;
    StartsBehind(env, wire, limits, first, HeldLogs(existing), steps);
  }

  lemma LastReaches(env: Env, wire: Wire, limits: Limits, first: Request, existing: Option<Cached>, steps: seq<Step>,
                    rank: Hash -> nat)
    requires Ready(env, wire, limits, first, existing, steps, rank) && Behind(HeldLogs(existing), steps[0].logs)
    ensures
      var n := |steps|;
      var acc := AccAfter(env, HeldLogs(existing), steps, n);
      && acc.Ok? && Caught(acc.value, steps[n - 1].logs) && Reaches(env, acc.value, steps[n - 1].response.heads)
      && forall d, e :: e in Held(acc.value, d) ==> e in Held(HeldLogs(existing), d) || e in LogOf(steps[n - 1].logs, d)
  {
    hide WellFormed, ShapeOk, CollisionFree, Respond, HeadCursors, CursorMap, Behind, Vouches, Causal, LogOf, Reaches,
         AccAfter, Held, Caught;
    var n := |steps|;
    assert StepOk(env, wire, limits, first, steps, n - 1);
    SessionCatchesUp(env, wire, limits, first, HeldLogs(existing), steps);
    CaughtReaches(env, first.identity, AccAfter(env, HeldLogs(existing), steps, n).value, steps[n - 1].logs);
    DeltaHeads(env, wire, limits, RequestAt(first, steps, n - 1), steps[n - 1].records, steps[n - 1].logs);
  }

  /** Every page of the session is accepted: chain, contiguity, completeness and merge. */
  lemma {:induction false} EveryPageMerges(env: Env, wire: Wire, limits: Limits, first: Request,
                                           existing: Option<Cached>, steps: seq<Step>, rank: Hash -> nat,
                                           results: seq<Result<Cached, SyncError>>, n: nat)
    requires Ready(env, wire, limits, first, existing, steps, rank)
    requires Follows(env, first.identity, existing, steps, results) && 0 < n <= |results|
    ensures Left(env, first.identity, existing, steps, n, results[n - 1])
  {
    hide WellFormed, ShapeOk, CollisionFree, MergeError, OutcomeOf, Respond, HeadCursors, CursorMap, Behind, Causal,
         SignatureError, Held, LogOf, Auth.ChainAuthority, Merges, Accumulate, Reaches, Session, Stored;
    var acc := HeldLogs(existing);
    var i := n - 1;
    ReadyStarts(env, wire, limits, first, existing, steps, rank);
    assert PageMerges(env, first.identity, existing, steps, results, i);
    assert Vouches(env, first.identity, existing, steps, i);
    if i > 0 {
      EveryPageMerges(env, wire, limits, first, existing, steps, rank, results, i);
    }
    var before := Before(existing, results, i);
    assert AccAfter(env, acc, steps, i) == Ok(HeldLogs(before));
    HeldAfter(env, wire, limits, first, acc, steps, n);
    DeltaAt(env, wire, limits, first, steps, i);
    var auth := Auth.ChainAuthority(env, first.identity, steps[i].records).value;
    var held := AccAfter(env, acc, steps, n).value;
    forall order | Lists(held, order) ensures OutcomeOf(env, auth, LogsIn(held, order)).Merged? {
      HeldMerges(env, wire, limits, first, existing, steps, rank, n, i, order);
    }
    if n == |steps| {
      LastReaches(env, wire, limits, first, existing, steps, rank);
    }
    var page := steps[i].response;
    MergesOk(env, first.identity, before, steps[i].records, auth, page.deviceLogs, page.syncVersion, page.heads,
             page.continuation.None?, held, results[i]);
  }

  /** The whole protocol. A requester that follows a session is never refused a page,
      and the state its last page leaves is the one the provider's own logs merge to
      under the provider's chain. */
  lemma SyncConverges(env: Env, wire: Wire, limits: Limits, first: Request, existing: Option<Cached>,
                      steps: seq<Step>, rank: Hash -> nat, results: seq<Result<Cached, SyncError>>)
    requires Ready(env, wire, limits, first, existing, steps, rank)
    requires Follows(env, first.identity, existing, steps, results)
    ensures forall i :: 0 <= i < |results| ==> results[i].Ok?
    ensures |results| == |steps| ==>
      var last, logs := steps[|steps| - 1], steps[|steps| - 1].logs;
      var auth := Auth.ChainAuthority(env, first.identity, last.records);
      auth.Ok? && OutcomeOf(env, auth.value, logs) == Merged(results[|results| - 1].value.merged)
  {
    hide WellFormed, ShapeOk, CollisionFree, MergeError, OutcomeOf, Respond, HeadCursors, CursorMap, Behind, Causal,
         SignatureError, Held, LogOf, Auth.ChainAuthority, Reaches, Follows, AccAfter, Caught, Stored;
    forall i | 0 <= i < |results| ensures results[i].Ok? {
      EveryPageMerges(env, wire, limits, first, existing, steps, rank, results, i + 1);
    }
    if |results| == |steps| {
      FinalState(env, wire, limits, first, existing, steps, rank, results);
    }
  }

  lemma FinalState(env: Env, wire: Wire, limits: Limits, first: Request, existing: Option<Cached>,
                   steps: seq<Step>, rank: Hash -> nat, results: seq<Result<Cached, SyncError>>)
    requires Ready(env, wire, limits, first, existing, steps, rank)
    requires Follows(env, first.identity, existing, steps, results) && |results| == |steps|
    ensures results[|results| - 1].Ok?
    ensures
      var auth := Auth.ChainAuthority(env, first.identity, steps[|steps| - 1].records);
      && auth.Ok?
      && OutcomeOf(env, auth.value, steps[|steps| - 1].logs) == Merged(results[|results| - 1].value.merged)
  {
    hide WellFormed, ShapeOk, CollisionFree, MergeError, OutcomeOf, Respond, HeadCursors, CursorMap, Behind, Causal,
         SignatureError, Held, LogOf, Auth.ChainAuthority, Reaches, Follows, AccAfter, Caught, Stored;
    var n := |steps|;
    var logs := steps[n - 1].logs;
    EveryPageMerges(env, wire, limits, first, existing, steps, rank, results, n);
    ReadyStarts(env, wire, limits, first, existing, steps, rank);
    LastReaches(env, wire, limits, first, existing, steps, rank);
    assert Vouches(env, first.identity, existing, steps, n - 1);
    assert StepOk(env, wire, limits, first, steps, n - 1);
    var auth := Auth.ChainAuthority(env, first.identity, steps[n - 1].records).value;
    Auth.ChainIdentity(env, first.identity, steps[n - 1].records);
    var held := results[n - 1].value.deviceLogs;
    var order :| Lists(held, order) && OutcomeOf(env, auth, LogsIn(held, order)) == Merged(results[n - 1].value.merged);
    forall d, e | e in Held(held, d) ensures SignatureError(env, auth, e).None? {
      if e in LogOf(logs, d) {
        SignedMember(env, auth, logs, d, e);
      }
    }
    CaughtMergesAlike(env, first.identity, auth, held, logs, order);
  }
}
