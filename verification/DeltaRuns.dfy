/** Whole sync sessions: runs of pages linked by continuations. */
module DeltaRuns {
  import opened Wrappers
  import opened ByteStrings
  import opened Crypto
  import opened Ordering
  import opened DeviceWriterLog
  import opened DeltaSync
  import opened DeltaPaging
  import opened DeltaServing
  import opened DeltaSession
  import Auth = IdentityAuthority

  /** One answered request: what the provider held then, and what it said. */
  datatype Step = Step(logs: seq<Log>, records: seq<Auth.Record>, response: Response)

  /** The request behind step n: the first one, or the previous continuation. */
  ghost function RequestAt(first: Request, steps: seq<Step>, n: nat): Request
    requires n <= |steps| && (n > 0 ==> steps[n - 1].response.continuation.Some?)
  {
    if n == 0 then first else first.(cursors := steps[n - 1].response.continuation.value)
  }

  ghost predicate StepOk(env: Env, wire: Wire, limits: Limits, first: Request, steps: seq<Step>, n: nat)
    requires n < |steps|
  {
    && WellFormed(env, first.identity, steps[n].logs)
    && (n > 0 ==> steps[n - 1].response.continuation.Some? && ProviderGrows(steps[n - 1].logs, steps[n].logs))
    && steps[n].response == Respond(env, wire, limits, RequestAt(first, steps, n), steps[n].records, steps[n].logs)
  }

  /** A session: every step answers the request before it, and the provider only
      grows in between. */
  ghost predicate Session(env: Env, wire: Wire, limits: Limits, first: Request, steps: seq<Step>)
  {
    forall n :: 0 <= n < |steps| ==> StepOk(env, wire, limits, first, steps, n)
  }

  function DeliveredBy(steps: seq<Step>, n: nat, d: Str): Log
    requires n <= |steps|
  {
    if n == 0 then [] else DeliveredBy(steps, n - 1, d) + Slice(steps[n - 1].response.deviceLogs, d)
  }

  lemma ContinuedIsDelta(env: Env, wire: Wire, limits: Limits, request: Request, records: seq<Auth.Record>,
                         logs: seq<Log>)
    requires WellFormed(env, request.identity, logs)
    ensures Respond(env, wire, limits, request, records, logs).continuation.Some? ==>
            IsDelta(Respond(env, wire, limits, request, records, logs))
  {
    hide WellFormed, Delta, StartsInRange, CursorMap, CursorsAccepted;
    if Negotiated(env, request, logs) {
      NegotiatedAccepts(env, request, logs);
      AcceptedStarts(env, request.identity, request.cursors, logs);
      DeltaProgress(env, wire, limits, request, RequiredVersion(logs), records, Sort(logs, LogKey));
    }
  }

  /** Position after n pages, for one device. */
  ghost predicate DeliveredTo(first: Request, steps: seq<Step>, n: nat, d: Str)
    requires 0 < n <= |steps|
  {
    var log := LogOf(steps[n - 1].logs, d);
    var s := StartAt(CursorMap(first.cursors), d);
    var got := DeliveredBy(steps, n, d);
    var c := steps[n - 1].response.continuation;
    && s + |got| <= |log| && got == log[s..s + |got|]
    && (c.None? ==> s + |got| == |log|)
    && (c.Some? ==> StartAt(CursorMap(c.value), d) == s + |got|)
  }

  lemma SliceJoin(a: Log, b: Log, s: nat, n: nat, m: nat)
    requires s <= s + n <= |a| && a <= b && s + n + m <= |b|
    ensures a[s..s + n] + b[s + n..s + n + m] == b[s..s + n + m]
  {
    assert a == b[..|a|];
  }

  /** What step n adds for one device, relative to the cursors it was asked with. */
  ghost predicate PageAt(steps: seq<Step>, n: nat, known: map<Str, Cursor>, d: Str)
    requires 0 < n <= |steps|
  {
    var log, part := LogOf(steps[n - 1].logs, d), Slice(steps[n - 1].response.deviceLogs, d);
    var c := steps[n - 1].response.continuation;
    && NextSlice(known, log, part, d)
    && (c.None? ==> StartAt(known, d) + |part| == |log|)
    && (c.Some? ==> StartAt(CursorMap(c.value), d) == StartAt(known, d) + |part|)
  }

  lemma PageAtStep(env: Env, wire: Wire, limits: Limits, first: Request, steps: seq<Step>, n: nat, d: Str)
    requires Session(env, wire, limits, first, steps)
    requires 0 < n <= |steps| && IsDelta(steps[n - 1].response)
    ensures StepOk(env, wire, limits, first, steps, n - 1)
    ensures PageAt(steps, n, CursorMap(RequestAt(first, steps, n - 1).cursors), d)
  {
    hide WellFormed, Respond, CursorMap, StartAt, Slice, LogOf, CursorsAccepted, Total, AddGroups, ProviderGrows;
    assert StepOk(env, wire, limits, first, steps, n - 1);
    var request := RequestAt(first, steps, n - 1);
    PageIsNextSlice(env, wire, limits, request, steps[n - 1].records, steps[n - 1].logs);
    assert NextSlice(CursorMap(request.cursors), LogOf(steps[n - 1].logs, d),
                     Slice(steps[n - 1].response.deviceLogs, d), d);
  }

  lemma DeliveredStart(first: Request, steps: seq<Step>, d: Str)
    requires |steps| > 0 && PageAt(steps, 1, CursorMap(first.cursors), d)
    ensures DeliveredTo(first, steps, 1, d)
  {
    hide CursorMap, StartAt, Slice, LogOf;
    assert DeliveredBy(steps, 0, d) == [];
    assert DeliveredBy(steps, 1, d) == Slice(steps[0].response.deviceLogs, d);
  }

  lemma DeliveredStep(first: Request, steps: seq<Step>, n: nat, d: Str)
    requires 1 < n <= |steps| && steps[n - 2].response.continuation.Some?
    requires DeliveredTo(first, steps, n - 1, d)
    requires PageAt(steps, n, CursorMap(steps[n - 2].response.continuation.value), d)
    requires LogOf(steps[n - 2].logs, d) <= LogOf(steps[n - 1].logs, d)
    ensures DeliveredTo(first, steps, n, d)
  {
    hide CursorMap, StartAt, Slice, LogOf;
    SliceJoin(LogOf(steps[n - 2].logs, d), LogOf(steps[n - 1].logs, d), StartAt(CursorMap(first.cursors), d),
              |DeliveredBy(steps, n - 1, d)|, |Slice(steps[n - 1].response.deviceLogs, d)|);
  }

  /** In every session, for every device: the pages so far, joined, are exactly
      the entries after the requester's cursor, in order, none twice and none
      skipped; when a page comes without a continuation they reach the end of the
      provider's log. */
  lemma {:induction false} SessionDelivers(env: Env, wire: Wire, limits: Limits, first: Request, steps: seq<Step>,
                                           n: nat, d: Str)
    requires Session(env, wire, limits, first, steps)
    requires 0 < n <= |steps| && IsDelta(steps[n - 1].response)
    ensures DeliveredTo(first, steps, n, d)
  {
    hide WellFormed, Respond, CursorMap, StartAt, Slice, LogOf, DeliveredTo, PageAt;
    PageAtStep(env, wire, limits, first, steps, n, d);
    if n == 1 {
      DeliveredStart(first, steps, d);
    } else {
      assert StepOk(env, wire, limits, first, steps, n - 2);
      ContinuedIsDelta(env, wire, limits, RequestAt(first, steps, n - 2), steps[n - 2].records, steps[n - 2].logs);
      SessionDelivers(env, wire, limits, first, steps, n - 1, d);
      DeliveredStep(first, steps, n, d);
    }
  }

  /** A follow-up request is never refused for its cursors: within a session a
      full answer means the history needs a newer version, or that not even the
      next entry fits a page. */
  lemma FallbackHasCause(env: Env, wire: Wire, limits: Limits, request: Request, records: seq<Auth.Record>,
                         logs: seq<Log>)
    requires WellFormed(env, request.identity, logs) && CursorsAccepted(env, request.cursors, logs)
    requires request.maxSyncVersion >= DELTA_SYNC_VERSION
    requires !IsDelta(Respond(env, wire, limits, request, records, logs))
    ensures
      || RequiredVersion(logs) > request.maxOperationVersion
      || (&& StartsInRange(CursorMap(request.cursors), Sort(logs, LogKey))
          && var sorted := Sort(logs, LogKey);
             var suffixes := Suffixes(CursorMap(request.cursors), sorted);
             var frame := Frame(RequiredVersion(logs), request.cursors, HeadsOf(env, sorted), records, []);
             && Respond(env, wire, limits, request, records, logs).deviceLogs == sorted
             && exists i :: && 0 <= i < |suffixes| && suffixes[i] != [] && Total(suffixes[..i]) == 0
                            && !Within(wire, limits, frame, suffixes, i, 1))
  {
    hide WellFormed, CursorMap, CursorsAccepted, Sort, Within, Groups, HeadsOf, Frame, StartsInRange, Suffixes, Total;
    if RequiredVersion(logs) <= request.maxOperationVersion {
      AcceptedStarts(env, request.identity, request.cursors, logs);
      var sorted := Sort(logs, LogKey);
      var suffixes := Suffixes(CursorMap(request.cursors), sorted);
      var frame := Frame(RequiredVersion(logs), request.cursors, HeadsOf(env, sorted), records, []);
      var stop := Fill(wire, limits, frame, suffixes, 0, 0);
      FillStopsForCause(wire, limits, frame, suffixes, 0, 0);
      assert Count(suffixes, stop.i, stop.j) == 0;
    }
  }

  lemma FollowUpAccepted(env: Env, wire: Wire, limits: Limits, first: Request, steps: seq<Step>, n: nat)
    requires Session(env, wire, limits, first, steps) && 0 < n < |steps|
    ensures StepOk(env, wire, limits, first, steps, n)
    ensures CursorsAccepted(env, RequestAt(first, steps, n).cursors, steps[n].logs)
  {
    hide WellFormed, Respond, CursorsAccepted, ProviderGrows;
    assert StepOk(env, wire, limits, first, steps, n);
    assert StepOk(env, wire, limits, first, steps, n - 1);
    ContinuationAccepted(env, wire, limits, RequestAt(first, steps, n - 1), steps[n - 1].records,
                         steps[n - 1].logs, steps[n].logs);
  }

  // ---- sessions end ----

  /** How many entries the requester still lacks. */
  ghost function Undelivered(known: map<Str, Cursor>, logs: seq<Log>): nat
    requires StartsInRange(known, Sort(logs, LogKey))
  {
    Total(Suffixes(known, Sort(logs, LogKey)))
  }

  lemma {:induction false} TotalSplits(a: seq<Log>, b: seq<Log>, c: seq<Log>)
    requires |a| == |b| == |c| && forall k :: 0 <= k < |a| ==> |a[k]| == |b[k]| + |c[k]|
    ensures Total(a) == Total(b) + Total(c)
  {
    if a != [] { TotalSplits(a[..|a| - 1], b[..|b| - 1], c[..|c| - 1]); }
  }

  lemma PartsTotal(suffixes: seq<Log>, i: nat, j: nat)
    requires InPage(suffixes, i, j)
    ensures Total(Parts(suffixes, i, j)) == Total(Groups(suffixes, i, j))
  {
    hide Parts, Groups, NonEmpty, Total;
    GroupsAreParts(suffixes, i, j);
    NonEmptyTotal(Parts(suffixes, i, j));
  }

  lemma DeltaStop(env: Env, wire: Wire, limits: Limits, request: Request, required: U16,
                  records: seq<Auth.Record>, sorted: seq<Log>) returns (i: nat, j: nat)
    requires StartsInRange(CursorMap(request.cursors), sorted)
    requires Delta(env, wire, limits, request, required, records, sorted).continuation.Some?
    ensures InPage(Suffixes(CursorMap(request.cursors), sorted), i, j)
    ensures Delta(env, wire, limits, request, required, records, sorted).deviceLogs ==
            Groups(Suffixes(CursorMap(request.cursors), sorted), i, j)
  {
    hide Fill, Suffixes, Groups, Count, CursorMap, StartsInRange, HeadsOf, Frame, AddGroups, CursorList;
    var known := CursorMap(request.cursors);
    var suffixes := Suffixes(known, sorted);
    var stop := Fill(wire, limits, Frame(required, request.cursors, HeadsOf(env, sorted), records, []), suffixes, 0, 0);
    i, j := stop.i, stop.j;
  }

  lemma SuffixShrinks(env: Env, identity: Str, known: map<Str, Cursor>, next: map<Str, Cursor>,
                      sorted: seq<Log>, i: nat, j: nat, k: nat)
    requires WellFormed(env, identity, sorted)
    requires StartsInRange(known, sorted) && StartsInRange(next, sorted)
    requires InPage(Suffixes(known, sorted), i, j) && k < |sorted|
    requires forall d :: StartAt(next, d) == StartAt(known, d) + |Slice(Groups(Suffixes(known, sorted), i, j), d)|
    ensures |Suffixes(known, sorted)[k]| == |Parts(Suffixes(known, sorted), i, j)[k]| + |Suffixes(next, sorted)[k]|
  {
    hide WellFormed, Groups, Slice, Parts;
    var log := sorted[k];
    PartOfLog(known, sorted, i, j, k);
    if log != [] {
      assert log in sorted;
      ShapeOfMember(env, identity, sorted, log);
      StartOf(env, identity, known, log);
      StartOf(env, identity, next, log);
      SliceIsPart(env, identity, known, sorted, i, j, k);
      assert StartAt(next, DeviceOf(log)) == StartAt(known, DeviceOf(log)) +
             |Slice(Groups(Suffixes(known, sorted), i, j), DeviceOf(log))|;
    }
  }

  /** Each continued page brings the end strictly nearer. */
  lemma PageShrinksRest(env: Env, wire: Wire, limits: Limits, request: Request, records: seq<Auth.Record>,
                        logs: seq<Log>)
    requires WellFormed(env, request.identity, logs)
    requires Respond(env, wire, limits, request, records, logs).continuation.Some?
    ensures
      var r := Respond(env, wire, limits, request, records, logs);
      var known, next := CursorMap(request.cursors), CursorMap(r.continuation.value);
      && StartsInRange(known, Sort(logs, LogKey)) && StartsInRange(next, Sort(logs, LogKey))
      && Undelivered(next, logs) + Total(r.deviceLogs) == Undelivered(known, logs)
      && Undelivered(next, logs) < Undelivered(known, logs)
  {
    hide WellFormed, CursorMap, CursorsAccepted, Slice, StartAt, Total, AddGroups, LogOf, Groups, Parts, Sort,
         Delta, StartsInRange, SlicesNext;
    var r := Respond(env, wire, limits, request, records, logs);
    var known, next := CursorMap(request.cursors), CursorMap(r.continuation.value);
    var sorted := Sort(logs, LogKey);
    NegotiatedAccepts(env, request, logs);
    AcceptedStarts(env, request.identity, request.cursors, logs);
    ContinuedIsDelta(env, wire, limits, request, records, logs);
    PageIsNextSlice(env, wire, limits, request, records, logs);
    SelfGrows(logs);
    ContinuationAccepted(env, wire, limits, request, records, logs, logs);
    AcceptedStarts(env, request.identity, r.continuation.value, logs);
    SortedLogs(env, request.identity, logs);
    var i, j := DeltaStop(env, wire, limits, request, RequiredVersion(logs), records, sorted);
    var suffixes := Suffixes(known, sorted);
    forall k | 0 <= k < |sorted|
      ensures |suffixes[k]| == |Parts(suffixes, i, j)[k]| + |Suffixes(next, sorted)[k]|
    {
      SuffixShrinks(env, request.identity, known, next, sorted, i, j, k);
    }
    TotalSplits(suffixes, Parts(suffixes, i, j), Suffixes(next, sorted));
    PartsTotal(suffixes, i, j);
  }

  ghost predicate FixedLogs(steps: seq<Step>, logs: seq<Log>)
  {
    forall n :: 0 <= n < |steps| ==> steps[n].logs == logs
  }

  /** A provider whose logs stand still is drained: a session over them has at
      most one page more than there are entries to deliver. */
  lemma {:induction false} SessionEnds(env: Env, wire: Wire, limits: Limits, first: Request, steps: seq<Step>,
                                       logs: seq<Log>, n: nat)
    requires Session(env, wire, limits, first, steps) && FixedLogs(steps, logs)
    requires 0 < n <= |steps| && steps[n - 1].response.continuation.Some?
    ensures StartsInRange(CursorMap(first.cursors), Sort(logs, LogKey))
    ensures StartsInRange(CursorMap(steps[n - 1].response.continuation.value), Sort(logs, LogKey))
    ensures n + Undelivered(CursorMap(steps[n - 1].response.continuation.value), logs) <=
            Undelivered(CursorMap(first.cursors), logs)
  {
    hide WellFormed, Respond, CursorMap, Undelivered, StartsInRange, Sort, ProviderGrows, Total;
    assert StepOk(env, wire, limits, first, steps, n - 1);
    assert steps[n - 1].logs == logs;
    PageShrinksRest(env, wire, limits, RequestAt(first, steps, n - 1), steps[n - 1].records, logs);
    if n > 1 { SessionEnds(env, wire, limits, first, steps, logs, n - 1); }
  }
}
