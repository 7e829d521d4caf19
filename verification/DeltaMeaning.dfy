/** What an answer to a sync request carries, in the fields of the request and the
    provider's logs. */
module DeltaMeaning {
  import opened Wrappers
  import opened ByteStrings
  import opened Crypto
  import opened Ordering
  import opened DeviceWriterLog
  import opened DeltaSync
  import opened DeltaPaging
  import opened DeltaServing
  import opened DeltaSession
  import Auth = IdentityAuthority

  // ---- versions ----

  ghost predicate Holds(logs: seq<Log>, e: Entry)
  {
    exists log :: log in logs && e in log
  }

  ghost predicate HoldsHeads(logs: seq<Log>)
  {
    exists e :: Holds(logs, e) && e.body.observedHeads != []
  }

  ghost predicate HoldsTombstone(logs: seq<Log>)
  {
    exists e :: Holds(logs, e) && e.body.operation.TombstonePath?
  }

  lemma {:induction false} LogVersionMeans(log: Log)
    ensures 1 <= LogVersion(log) <= 3
    ensures LogVersion(log) == 3 <==> exists e :: e in log && e.body.observedHeads != []
    ensures LogVersion(log) >= 2 <==>
            exists e :: e in log && (e.body.observedHeads != [] || e.body.operation.TombstonePath?)
  {
    if log != [] {
      var init, last := log[..|log| - 1], log[|log| - 1];
      LogVersionMeans(init);
      assert log == init + [last];
      assert forall e :: e in log <==> e in init || e == last;
    }
  }

  lemma {:induction false} RequiredBounds(logs: seq<Log>)
    ensures 1 <= RequiredVersion(logs) <= 3
    ensures forall log :: log in logs ==> LogVersion(log) <= RequiredVersion(logs)
    ensures RequiredVersion(logs) > 1 ==> exists log :: log in logs && LogVersion(log) == RequiredVersion(logs)
  {
    hide LogVersion;
    if logs != [] {
      var init, last := logs[..|logs| - 1], logs[|logs| - 1];
      RequiredBounds(init);
      LogVersionMeans(last);
      assert logs == init + [last] && last in logs;
      assert forall log :: log in logs <==> log in init || log == last;
    }
  }

  /** A history needs version 3 exactly when some entry observed heads, version 2
      exactly when none did and some entry is a tombstone, and version 1 otherwise. */
  lemma RequiredMeans(logs: seq<Log>)
    ensures RequiredVersion(logs) == if HoldsHeads(logs) then 3 else if HoldsTombstone(logs) then 2 else 1
  {
    hide LogVersion, RequiredVersion;
    RequiredBounds(logs);
    forall log | log in logs
      ensures LogVersion(log) == 3 ==> HoldsHeads(logs)
      ensures LogVersion(log) == 2 ==> HoldsHeads(logs) || HoldsTombstone(logs)
    {
      LogVersionMeans(log);
      assert forall e :: e in log ==> Holds(logs, e);
    }
    forall e, log | log in logs && e in log
      ensures e.body.observedHeads != [] ==> RequiredVersion(logs) == 3
      ensures e.body.operation.TombstonePath? ==> RequiredVersion(logs) >= 2
    {
      LogVersionMeans(log);
    }
  }

  // ---- what an answer carries ----

  ghost predicate AllFrom(groups: seq<Log>, logs: seq<Log>)
  {
    forall g, e :: g in groups && e in g ==> Holds(logs, e)
  }

  lemma RespondParts(env: Env, wire: Wire, limits: Limits, request: Request, records: seq<Auth.Record>, logs: seq<Log>)
    requires WellFormed(env, request.identity, logs)
    ensures
      var r := Respond(env, wire, limits, request, records, logs);
      var required := RequiredVersion(logs);
      && r.requiredOperationVersion == required
      && r.syncVersion in {1, 2}
      && r.authorityRecords == (if required <= request.maxOperationVersion then records else [])
      && (required > request.maxOperationVersion ==> r.deviceLogs == [] && r.syncVersion == 1)
      && (r.syncVersion == 1 ==> r.heads == [] && r.continuation.None?)
      && (r.syncVersion == 1 && required <= request.maxOperationVersion ==> multiset(r.deviceLogs) == multiset(logs))
      && (r.syncVersion == 2 ==> Negotiated(env, request, logs))
  {
    hide WellFormed, CursorsAccepted, StartsInRange, RequiredVersion, Fill, Groups, HeadsOf, AddGroups, CursorList,
         Frame, Suffixes, CursorMap;
    if Negotiated(env, request, logs) {
      AcceptedStarts(env, request.identity, request.cursors, logs);
    }
  }

  lemma RespondCarries(env: Env, wire: Wire, limits: Limits, request: Request, records: seq<Auth.Record>,
                       logs: seq<Log>)
    requires WellFormed(env, request.identity, logs)
    ensures AllFrom(Respond(env, wire, limits, request, records, logs).deviceLogs, logs)
  {
    hide WellFormed, CursorsAccepted, StartsInRange, RequiredVersion, Fill, Groups, HeadsOf, AddGroups, CursorList,
         Frame, Suffixes, CursorMap, Sort;
    SortedLogs(env, request.identity, logs);
    if Negotiated(env, request, logs) {
      AcceptedStarts(env, request.identity, request.cursors, logs);
      var known, sorted := CursorMap(request.cursors), Sort(logs, LogKey);
      var suffixes := Suffixes(known, sorted);
      var frame := Frame(RequiredVersion(logs), request.cursors, HeadsOf(env, sorted), records, []);
      var stop := Fill(wire, limits, frame, suffixes, 0, 0);
      forall g, e | g in Groups(suffixes, stop.i, stop.j) && e in g ensures Holds(logs, e) {
        GroupsComeFromLogs(known, sorted, stop.i, stop.j, g, e);
      }
    }
  }

  /** An answer names the version the whole history needs, and carries entries and
      authority records only to a requester that understands that version. */
  lemma AnswerFitsRequester(env: Env, wire: Wire, limits: Limits, request: Request, records: seq<Auth.Record>,
                            logs: seq<Log>)
    requires WellFormed(env, request.identity, logs)
    ensures
      var r := Respond(env, wire, limits, request, records, logs);
      && r.requiredOperationVersion == (if HoldsHeads(logs) then 3 else if HoldsTombstone(logs) then 2 else 1)
      && (HoldsHeads(r.deviceLogs) ==> request.maxOperationVersion >= 3)
      && (HoldsTombstone(r.deviceLogs) ==> request.maxOperationVersion >= 2)
      && r.authorityRecords == (if r.requiredOperationVersion <= request.maxOperationVersion then records else [])
      && AllFrom(r.deviceLogs, logs)
  {
    hide WellFormed, Respond, RequiredVersion;
    var r := Respond(env, wire, limits, request, records, logs);
    RespondParts(env, wire, limits, request, records, logs);
    RespondCarries(env, wire, limits, request, records, logs);
    RequiredMeans(logs);
    if HoldsHeads(r.deviceLogs) { CarriedVersions(r.deviceLogs, logs); }
    if HoldsTombstone(r.deviceLogs) { CarriedVersions(r.deviceLogs, logs); }
  }

  lemma CarriedVersions(groups: seq<Log>, logs: seq<Log>)
    requires AllFrom(groups, logs)
    ensures HoldsHeads(groups) ==> HoldsHeads(logs)
    ensures HoldsTombstone(groups) ==> HoldsTombstone(logs)
    ensures groups == [] ==> !HoldsHeads(groups) && !HoldsTombstone(groups)
  {
  }

  // ---- cursors ----

  /** The cursor names an entry of one of the logs: its device, its place, its hash. */
  ghost predicate Names(env: Env, c: Cursor, log: Log)
  {
    && c.sequence < |log| && log[c.sequence].body.deviceId == c.deviceId
    && env.digest(CanonicalBytes(log[c.sequence].body)) == c.entryHash
  }

  ghost predicate CursorsNameEntries(env: Env, cursors: seq<Cursor>, logs: seq<Log>)
  {
    && (forall i, j :: 0 <= i < j < |cursors| ==> cursors[i].deviceId != cursors[j].deviceId)
    && forall c :: c in cursors ==> exists log :: log in logs && Names(env, c, log)
  }

  lemma NamesMeans(env: Env, identity: Str, c: Cursor, log: Log)
    requires ShapeOk(env, identity, log)
    ensures AcceptedBy(env, c, log) <==> Names(env, c, log)
  {
    hide ShapeOk, CanonicalBytes;
    if c.sequence < |log| { DeviceThroughout(env, identity, log, c.sequence); }
  }

  /** Cursors are accepted exactly when they name entries of distinct devices. */
  lemma AcceptedMeans(env: Env, identity: Str, cursors: seq<Cursor>, logs: seq<Log>)
    requires WellFormed(env, identity, logs)
    ensures CursorsAccepted(env, cursors, logs) <==> CursorsNameEntries(env, cursors, logs)
  {
    hide ShapeOk, AcceptedBy, Names;
    forall c, log | log in logs ensures AcceptedBy(env, c, log) <==> Names(env, c, log) {
      NamesMeans(env, identity, c, log);
    }
  }

  /** The cursor stands at the end of one of the logs. */
  ghost predicate Ends(env: Env, c: Cursor, logs: seq<Log>)
  {
    exists log :: log in logs && EndsIn(env, c, log)
  }

  ghost predicate EndsIn(env: Env, c: Cursor, log: Log)
  {
    Names(env, c, log) && c.sequence == |log| - 1
  }

  lemma TopsMeans(env: Env, identity: Str, c: Cursor, log: Log)
    requires ShapeOk(env, identity, log)
    ensures Tops(env, log, c) <==> EndsIn(env, c, log)
  {
    hide ShapeOk, CanonicalBytes;
    if log != [] { DeviceThroughout(env, identity, log, |log| - 1); }
  }

  lemma HeadsEnd(env: Env, identity: Str, logs: seq<Log>, c: Cursor)
    requires WellFormed(env, identity, logs)
    ensures c in HeadsOf(env, Sort(logs, LogKey)) <==> Ends(env, c, logs)
  {
    hide WellFormed, Tops, EndsIn, Sort, HeadsOf;
    SortedLogs(env, identity, logs);
    HeadsTop(env, Sort(logs, LogKey), c);
    forall log | log in logs ensures Tops(env, log, c) <==> EndsIn(env, c, log) {
      ShapeOfMember(env, identity, logs, log);
      TopsMeans(env, identity, c, log);
    }
  }

  // ---- device order ----

  ghost predicate LogsInOrder(logs: seq<Log>)
  {
    forall i, j :: 0 <= i < j < |logs| && logs[i] != [] && logs[j] != [] ==>
      Precedes(DeviceOf(logs[i]), DeviceOf(logs[j]))
  }

  ghost predicate CursorsInOrder(cursors: seq<Cursor>)
  {
    forall i, j :: 0 <= i < j < |cursors| ==> Precedes(cursors[i].deviceId, cursors[j].deviceId)
  }

  lemma OneFieldKey(x: seq<int>, y: seq<int>)
    ensures KeyLe([x], [y]) <==> x == y || Precedes(x, y)
  {
    hide Precedes;
    assert [x] == [x] + [] && [y] == [y] + [];
    KeyStep(x, y, [], []);
    assert KeyLe([], []);
  }

  lemma SortedInOrder(env: Env, identity: Str, logs: seq<Log>)
    requires WellFormed(env, identity, logs)
    ensures LogsInOrder(Sort(logs, LogKey))
  {
    hide WellFormed, Sort, Precedes, KeyLe;
    SortedLogs(env, identity, logs);
    SortSorts(logs, LogKey);
    var sorted := Sort(logs, LogKey);
    forall i, j | 0 <= i < j < |sorted| && sorted[i] != [] && sorted[j] != []
      ensures Precedes(DeviceOf(sorted[i]), DeviceOf(sorted[j]))
    {
      DistinctPositions(env, identity, sorted, i, j);
      assert KeyLe(LogKey(sorted[i]), LogKey(sorted[j]));
      OneFieldKey(DeviceOf(sorted[i]), DeviceOf(sorted[j]));
    }
  }

  lemma HeadPrecedes(env: Env, identity: Str, logs: seq<Log>, c: Cursor)
    requires logs != [] && LogsInOrder(logs) && forall log :: log in logs ==> ShapeOk(env, identity, log)
    requires c in HeadsOf(env, logs[..|logs| - 1]) && logs[|logs| - 1] != []
    ensures Precedes(c.deviceId, DeviceOf(logs[|logs| - 1]))
  {
    hide ShapeOk, Precedes, EntryHash, HeadsOf;
    var init := logs[..|logs| - 1];
    HeadsTop(env, init, c);
    var log :| log in init && Tops(env, log, c);
    var k :| 0 <= k < |init| && init[k] == log;
    assert logs[k] == log && log in logs;
    DeviceThroughout(env, identity, log, |log| - 1);
  }

  lemma OneMoreHead(heads: seq<Cursor>, c: Cursor)
    requires CursorsInOrder(heads) && forall h :: h in heads ==> Precedes(h.deviceId, c.deviceId)
    ensures CursorsInOrder(heads + [c])
  {
    hide Precedes;
  }

  lemma {:induction false} HeadsInOrder(env: Env, identity: Str, logs: seq<Log>)
    requires LogsInOrder(logs) && forall log :: log in logs ==> ShapeOk(env, identity, log)
    ensures CursorsInOrder(HeadsOf(env, logs))
  {
    hide ShapeOk, Precedes, EntryHash;
    if logs != [] {
      var init, last := logs[..|logs| - 1], logs[|logs| - 1];
      HeadsInOrder(env, identity, init);
      if last != [] {
        var c := FromEntry(env, last[|last| - 1]);
        assert last in logs;
        DeviceThroughout(env, identity, last, |last| - 1);
        forall h | h in HeadsOf(env, init) ensures Precedes(h.deviceId, c.deviceId) {
          HeadPrecedes(env, identity, logs, h);
        }
        hide CursorsInOrder, LogsInOrder;
        OneMoreHead(HeadsOf(env, init), c);
      } else {
        assert HeadsOf(env, init) + [] == HeadsOf(env, init);
      }
    }
  }

  lemma {:induction false} NonEmptyInOrder(logs: seq<Log>)
    requires LogsInOrder(logs)
    ensures LogsInOrder(NonEmpty(logs))
  {
    hide Precedes;
    if logs != [] {
      var init, last := logs[..|logs| - 1], logs[|logs| - 1];
      NonEmptyInOrder(init);
      var front := NonEmpty(init);
      forall i | 0 <= i < |front| && last != [] ensures Precedes(DeviceOf(front[i]), DeviceOf(last)) {
        NonEmptyMeans(init, front[i]);
        var k :| 0 <= k < |init| && init[k] == front[i];
        assert logs[k] == front[i];
      }
    }
  }

  lemma PageInOrder(env: Env, identity: Str, known: map<Str, Cursor>, sorted: seq<Log>, i: nat, j: nat)
    requires WellFormed(env, identity, sorted) && LogsInOrder(sorted)
    requires StartsInRange(known, sorted) && InPage(Suffixes(known, sorted), i, j)
    ensures LogsInOrder(Groups(Suffixes(known, sorted), i, j))
  {
    hide WellFormed, StartsInRange, Suffixes, Groups, Parts, NonEmpty, Precedes;
    var parts := Parts(Suffixes(known, sorted), i, j);
    GroupsAreParts(Suffixes(known, sorted), i, j);
    forall k, l | 0 <= k < l < |parts| && parts[k] != [] && parts[l] != []
      ensures Precedes(DeviceOf(parts[k]), DeviceOf(parts[l]))
    {
      PartDevices(env, identity, known, sorted, i, j, k);
      PartDevices(env, identity, known, sorted, i, j, l);
    }
    NonEmptyInOrder(parts);
  }

  lemma IdsInOrder(ids: set<Str>)
    ensures
      var r := SortedIds(ids);
      && (forall i, j :: 0 <= i < j < |r| ==> Precedes(r[i], r[j]))
      && forall id :: id in r <==> id in ids
  {
    hide Sort, Precedes, KeyLe, SortedIds;
    var r := SortedIds(ids);
    SortedIdsSorted(ids);
    forall i, j | 0 <= i < j < |r| ensures Precedes(r[i], r[j]) {
      assert KeyLe(IdKey(r[i]), IdKey(r[j]));
      OneFieldKey(r[i], r[j]);
      if r[i] == r[j] { TwoCopies(r, i, j); }
    }
    forall id ensures id in r <==> id in ids { assert id in multiset(r) <==> id in multiset(ids); }
  }

  lemma SortedIdsSorted(ids: set<Str>)
    ensures Sorted(SortedIds(ids), IdKey)
  {
    SortSorts(SetSeq(ids), IdKey);
  }

  lemma ListInOrder(m: map<Str, Cursor>)
    requires Labelled(m)
    ensures CursorsInOrder(CursorList(m))
  {
    hide SortedIds, Precedes;
    IdsInOrder(m.Keys);
  }

  /** A delta answer is made only to accepted cursors; it lists the end of every log,
      and everything it lists is in device order. */
  lemma DeltaAnswer(env: Env, wire: Wire, limits: Limits, request: Request, records: seq<Auth.Record>, logs: seq<Log>)
    requires WellFormed(env, request.identity, logs)
    ensures
      var r := Respond(env, wire, limits, request, records, logs);
      r.syncVersion == 2 ==>
        && request.maxSyncVersion >= 2 && CursorsNameEntries(env, request.cursors, logs)
        && (forall c :: c in r.heads <==> Ends(env, c, logs)) && CursorsInOrder(r.heads)
        && LogsInOrder(r.deviceLogs) && [] !in r.deviceLogs
        && (r.continuation.Some? ==> CursorsInOrder(r.continuation.value))
  {
    hide WellFormed, CursorsAccepted, StartsInRange, RequiredVersion, Fill, Groups, HeadsOf, AddGroups, CursorList,
         Frame, Suffixes, CursorMap, Sort, Ends, CursorsInOrder, LogsInOrder, CursorsNameEntries;
    AcceptedMeans(env, request.identity, request.cursors, logs);
    if Negotiated(env, request, logs) {
      AcceptedStarts(env, request.identity, request.cursors, logs);
      var known, sorted := CursorMap(request.cursors), Sort(logs, LogKey);
      SortedLogs(env, request.identity, logs);
      var heads, suffixes := HeadsOf(env, sorted), Suffixes(known, sorted);
      var frame := Frame(RequiredVersion(logs), request.cursors, heads, records, []);
      var stop := Fill(wire, limits, frame, suffixes, 0, 0);
      forall c ensures c in heads <==> Ends(env, c, logs) { HeadsEnd(env, request.identity, logs, c); }
      SortedInOrder(env, request.identity, logs);
      Shapes(env, request.identity, sorted);
      HeadsInOrder(env, request.identity, sorted);
      PageInOrder(env, request.identity, known, sorted, stop.i, stop.j);
      NoEmptyGroups(suffixes, stop.i, stop.j);
      ContinuationInOrder(env, request.identity, request.cursors, sorted, stop.i, stop.j);
    }
  }

  lemma Shapes(env: Env, identity: Str, logs: seq<Log>)
    requires WellFormed(env, identity, logs)
    ensures forall log :: log in logs ==> ShapeOk(env, identity, log)
  {
  }

  lemma NoEmptyGroups(suffixes: seq<Log>, i: nat, j: nat)
    requires InPage(suffixes, i, j)
    ensures [] !in Groups(suffixes, i, j)
  {
    GroupsAreParts(suffixes, i, j);
    NonEmptyMeans(Parts(suffixes, i, j), []);
  }

  lemma ContinuationInOrder(env: Env, identity: Str, cursors: seq<Cursor>, sorted: seq<Log>, i: nat, j: nat)
    requires WellFormed(env, identity, sorted) && StartsInRange(CursorMap(cursors), sorted)
    requires InPage(Suffixes(CursorMap(cursors), sorted), i, j)
    ensures
      var known := CursorMap(cursors);
      CursorsInOrder(CursorList(AddGroups(env, known, Groups(Suffixes(known, sorted), i, j))))
  {
    hide WellFormed, StartsInRange, Suffixes, Groups, HeadsOf, AddGroups, CursorMap, CursorList, Labelled,
         CursorsInOrder;
    var known, heads := CursorMap(cursors), HeadsOf(env, sorted);
    var groups := Groups(Suffixes(known, sorted), i, j);
    CursorMapLabelled(cursors);
    DeliveredDevices(env, identity, known, sorted, i, j);
    AddGroupsKeys(env, known, groups, IdsOf(cursors) + IdsOf(heads));
    ListInOrder(AddGroups(env, known, groups));
  }

  // ---- the room a page reserves ----

  ghost predicate Reserves(c: Cursor)
  {
    c.sequence == 0xffff_ffff_ffff_ffff && forall k :: 0 <= k < 32 ==> c.entryHash[k] == 255
  }

  /** While it is filled, a page stands with its heads and records and with the
      largest continuation it could need: one greatest cursor for every device of the
      request or the provider. */
  lemma FrameMeans(required: U16, cursors: seq<Cursor>, heads: seq<Cursor>, records: seq<Auth.Record>,
                   groups: seq<Log>)
    ensures
      var r := Frame(required, cursors, heads, records, groups);
      && r.requiredOperationVersion == required && r.syncVersion == 2 && r.heads == heads
      && r.authorityRecords == records && r.deviceLogs == groups && r.continuation.Some?
      && var reserved := r.continuation.value;
         && CursorsInOrder(reserved) && (forall c :: c in reserved ==> Reserves(c))
         && forall id :: id in IdsOf(reserved) <==> id in IdsOf(cursors) || id in IdsOf(heads)
  {
    hide SortedIds, Precedes;
    var ids := IdsOf(cursors) + IdsOf(heads);
    IdsInOrder(ids);
    var reserved := Placeholders(SortedIds(ids));
    forall id ensures id in IdsOf(reserved) <==> id in ids {
      if id in ids {
        var k :| 0 <= k < |SortedIds(ids)| && SortedIds(ids)[k] == id;
        assert reserved[k] in reserved;
      }
    }
  }

  // ---- when a page is sent, and where it stops ----

  /** Entry k of a log lies beyond every cursor of its device. */
  ghost predicate Missing(cursors: seq<Cursor>, log: Log, k: nat)
  {
    k < |log| && forall c :: c in cursors && c.deviceId == log[k].body.deviceId ==> c.sequence < k
  }

  lemma MissingMeans(env: Env, identity: Str, cursors: seq<Cursor>, log: Log, k: nat)
    requires ShapeOk(env, identity, log) && DistinctDevices(cursors)
    ensures Missing(cursors, log, k) <==> Start(CursorMap(cursors), log) <= k < |log|
  {
    hide ShapeOk, CursorMap;
    if k < |log| {
      DeviceThroughout(env, identity, log, k);
      StartOf(env, identity, CursorMap(cursors), log);
      CursorMapMeans(cursors, DeviceOf(log));
      if DeviceOf(log) in CursorMap(cursors) {
        var known := CursorMap(cursors)[DeviceOf(log)];
        forall c | c in cursors && c.deviceId == DeviceOf(log) ensures c == known {
          var x :| 0 <= x < |cursors| && cursors[x] == c;
          var y :| 0 <= y < |cursors| && cursors[y] == known;
        }
      }
    }
  }

  /** The first entry a page has to carry: the first missing one of the first device
      that misses any. */
  ghost predicate FirstMissing(cursors: seq<Cursor>, logs: seq<Log>, log: Log, k: nat)
  {
    && log in logs && Missing(cursors, log, k) && (forall l: nat :: l < k ==> !Missing(cursors, log, l))
    && forall other, l: nat :: other in logs && Missing(cursors, other, l) ==>
         other == log || Precedes(DeviceOf(log), DeviceOf(other))
  }

  ghost predicate FirstAt(suffixes: seq<Log>, i: nat)
  {
    i < |suffixes| && suffixes[i] != [] && forall l :: 0 <= l < i ==> suffixes[l] == []
  }

  lemma PrecedesOneWay(a: seq<int>, b: seq<int>)
    requires Precedes(a, b)
    ensures a != b && !Precedes(b, a)
  {
    LexMeans(a, b);
    LexMeans(b, a);
    if a != b && Precedes(b, a) { LexAntisymmetric(a, b); }
  }

  ghost predicate MissesFrom(cursors: seq<Cursor>, sorted: seq<Log>, known: map<Str, Cursor>)
  {
    forall i, k: nat :: 0 <= i < |sorted| ==>
      (Missing(cursors, sorted[i], k) <==> Start(known, sorted[i]) <= k < |sorted[i]|)
  }

  lemma FirstIsFirst(env: Env, identity: Str, cursors: seq<Cursor>, sorted: seq<Log>, log: Log, k: nat)
    requires WellFormed(env, identity, sorted) && LogsInOrder(sorted)
    requires StartsInRange(CursorMap(cursors), sorted) && MissesFrom(cursors, sorted, CursorMap(cursors))
    requires FirstMissing(cursors, sorted, log, k)
    ensures
      var suffixes := Suffixes(CursorMap(cursors), sorted);
      exists i: nat :: FirstAt(suffixes, i) && sorted[i] == log && suffixes[i][0] == log[k]
  {
    hide WellFormed, Start, Missing, CursorMap;
    var known := CursorMap(cursors);
    var suffixes := Suffixes(known, sorted);
    var i :| 0 <= i < |sorted| && sorted[i] == log;
    assert Start(known, log) <= k < |log|;
    assert k == Start(known, log) by {
      assert Start(known, log) < k ==> Missing(cursors, log, Start(known, log));
    }
    forall l | 0 <= l < i ensures suffixes[l] == [] {
      if suffixes[l] != [] {
        assert Missing(cursors, sorted[l], Start(known, sorted[l]));
        assert sorted[l] in sorted && sorted[l] != [];
        DistinctPositions(env, identity, sorted, l, i);
        PrecedesOneWay(DeviceOf(sorted[l]), DeviceOf(log));
        assert false;
      }
    }
    assert FirstAt(suffixes, i);
  }

  lemma FirstIsMissing(env: Env, identity: Str, cursors: seq<Cursor>, sorted: seq<Log>, i: nat)
    requires WellFormed(env, identity, sorted) && LogsInOrder(sorted)
    requires StartsInRange(CursorMap(cursors), sorted) && MissesFrom(cursors, sorted, CursorMap(cursors))
    requires FirstAt(Suffixes(CursorMap(cursors), sorted), i)
    ensures
      var k := Start(CursorMap(cursors), sorted[i]);
      && FirstMissing(cursors, sorted, sorted[i], k)
      && k < |sorted[i]| && Suffixes(CursorMap(cursors), sorted)[i][0] == sorted[i][k]
  {
    hide WellFormed, Start, Missing, CursorMap;
    var known := CursorMap(cursors);
    var log, suffixes := sorted[i], Suffixes(known, sorted);
    var k := Start(known, log);
    assert Missing(cursors, log, k);
    forall other, l: nat | other in sorted && Missing(cursors, other, l)
      ensures other == log || Precedes(DeviceOf(log), DeviceOf(other))
    {
      var o :| 0 <= o < |sorted| && sorted[o] == other;
      assert suffixes[o] != [];
    }
  }

  lemma {:induction false} FillSkipsEmpty(wire: Wire, limits: Limits, frame: Response, suffixes: seq<Log>, k: nat,
                                          i: nat)
    requires k <= i <= |suffixes| && forall l :: k <= l < i ==> suffixes[l] == []
    ensures Fill(wire, limits, frame, suffixes, k, 0) == Fill(wire, limits, frame, suffixes, i, 0)
    decreases i - k
  {
    hide Within;
    if k < i { FillSkipsEmpty(wire, limits, frame, suffixes, k + 1, i); }
  }

  lemma {:induction false} EmptyTotal(logs: seq<Log>)
    ensures Total(logs) == 0 <==> forall l :: 0 <= l < |logs| ==> logs[l] == []
  {
    if logs != [] { EmptyTotal(logs[..|logs| - 1]); }
  }

  /** Nothing is taken exactly when there is a first entry and it does not fit. */
  lemma NothingTaken(wire: Wire, limits: Limits, frame: Response, suffixes: seq<Log>)
    ensures
      var stop := Fill(wire, limits, frame, suffixes, 0, 0);
      stop.i < |suffixes| && Count(suffixes, stop.i, stop.j) == 0 <==>
        exists i: nat :: FirstAt(suffixes, i) && !Within(wire, limits, frame, suffixes, i, 1)
  {
    hide Within;
    var stop := Fill(wire, limits, frame, suffixes, 0, 0);
    FillStopsForCause(wire, limits, frame, suffixes, 0, 0);
    if stop.i < |suffixes| {
      EmptyTotal(suffixes[..stop.i]);
      if Count(suffixes, stop.i, stop.j) == 0 {
        assert forall l :: 0 <= l < stop.i ==> suffixes[l] == suffixes[..stop.i][l];
        assert FirstAt(suffixes, stop.i);
      }
    }
    if i: nat :| FirstAt(suffixes, i) && !Within(wire, limits, frame, suffixes, i, 1) {
      FillSkipsEmpty(wire, limits, frame, suffixes, 0, i);
      assert stop == Position(i, 0);
      EmptyTotal(suffixes[..i]);
    }
  }

  lemma FirstGroup(wire: Wire, limits: Limits, frame: Response, suffixes: seq<Log>, i: nat)
    requires FirstAt(suffixes, i)
    ensures Within(wire, limits, frame, suffixes, i, 1) <==>
            limits.maxEntries >= 1 && Size(wire, frame.(deviceLogs := [[suffixes[i][0]]])) <= limits.maxBytes
  {
    hide Size;
    assert forall l :: 0 <= l < i ==> suffixes[..i][l] == suffixes[l] == [];
    EmptyTotal(suffixes[..i]);
    TrailingEmpty(suffixes[..i], 0);
    assert suffixes[..i][..0] == [];
    assert suffixes[i][..1] == [suffixes[i][0]];
    assert Groups(suffixes, i, 1) == [[suffixes[i][0]]];
  }

  ghost function EmptyPage(env: Env, request: Request, records: seq<Auth.Record>, logs: seq<Log>): Response
  {
    Frame(RequiredVersion(logs), request.cursors, HeadsOf(env, Sort(logs, LogKey)), records, [])
  }

  ghost predicate FirstFits(env: Env, wire: Wire, limits: Limits, request: Request, records: seq<Auth.Record>,
                            logs: seq<Log>)
  {
    forall log, k: nat :: FirstMissing(request.cursors, logs, log, k) ==>
      && limits.maxEntries >= 1
      && Size(wire, EmptyPage(env, request, records, logs).(deviceLogs := [[log[k]]])) <= limits.maxBytes
  }

  lemma SameFirst(cursors: seq<Cursor>, a: seq<Log>, b: seq<Log>, log: Log, k: nat)
    requires forall x :: x in a <==> x in b
    ensures FirstMissing(cursors, a, log, k) <==> FirstMissing(cursors, b, log, k)
  {
  }

  lemma AllMissing(env: Env, identity: Str, cursors: seq<Cursor>, sorted: seq<Log>)
    requires WellFormed(env, identity, sorted) && DistinctDevices(cursors)
    ensures MissesFrom(cursors, sorted, CursorMap(cursors))
  {
    hide ShapeOk, Missing, Start, CursorMap;
    forall i, k: nat | 0 <= i < |sorted|
      ensures Missing(cursors, sorted[i], k) <==> Start(CursorMap(cursors), sorted[i]) <= k < |sorted[i]|
    {
      assert sorted[i] in sorted;
      MissingMeans(env, identity, cursors, sorted[i], k);
    }
  }

  /** A request is answered with a delta exactly when both sides speak it, the
      requester understands the history, its cursors name entries of the provider, and
      the first missing entry, if there is one, fits a page. */
  lemma DeltaIff(env: Env, wire: Wire, limits: Limits, request: Request, records: seq<Auth.Record>, logs: seq<Log>)
    requires WellFormed(env, request.identity, logs)
    ensures Respond(env, wire, limits, request, records, logs).syncVersion == 2 <==>
      && request.maxSyncVersion >= 2
      && request.maxOperationVersion >= (if HoldsHeads(logs) then 3 else if HoldsTombstone(logs) then 2 else 1)
      && CursorsNameEntries(env, request.cursors, logs)
      && FirstFits(env, wire, limits, request, records, logs)
  {
    hide WellFormed, CursorsAccepted, StartsInRange, RequiredVersion, Fill, Groups, HeadsOf, AddGroups, CursorList,
         Frame, Suffixes, CursorMap, Sort, CursorsNameEntries, HoldsHeads, HoldsTombstone, FirstFits, Count;
    AcceptedMeans(env, request.identity, request.cursors, logs);
    RequiredMeans(logs);
    if Negotiated(env, request, logs) {
      AcceptedStarts(env, request.identity, request.cursors, logs);
      var suffixes := Suffixes(CursorMap(request.cursors), Sort(logs, LogKey));
      NothingTaken(wire, limits, EmptyPage(env, request, records, logs), suffixes);
      FitsMeans(env, wire, limits, request, records, logs);
    }
  }

  lemma FitsMeans(env: Env, wire: Wire, limits: Limits, request: Request, records: seq<Auth.Record>, logs: seq<Log>)
    requires WellFormed(env, request.identity, logs) && CursorsAccepted(env, request.cursors, logs)
    requires StartsInRange(CursorMap(request.cursors), Sort(logs, LogKey))
    ensures
      var suffixes := Suffixes(CursorMap(request.cursors), Sort(logs, LogKey));
      var page := EmptyPage(env, request, records, logs);
      FirstFits(env, wire, limits, request, records, logs) <==>
        !exists i: nat :: FirstAt(suffixes, i) && !Within(wire, limits, page, suffixes, i, 1)
  {
    hide WellFormed, StartsInRange, EmptyPage, Suffixes, CursorMap, Sort, Size, Within, MissesFrom, LogsInOrder,
         Start;
    var cursors, sorted := request.cursors, Sort(logs, LogKey);
    var page, suffixes := EmptyPage(env, request, records, logs), Suffixes(CursorMap(cursors), sorted);
    SortedLogs(env, request.identity, logs);
    SortedInOrder(env, request.identity, logs);
    AllMissing(env, request.identity, cursors, sorted);
    if FirstFits(env, wire, limits, request, records, logs) {
      forall i: nat | FirstAt(suffixes, i) ensures Within(wire, limits, page, suffixes, i, 1) {
        FirstIsMissing(env, request.identity, cursors, sorted, i);
        SameFirst(cursors, sorted, logs, sorted[i], Start(CursorMap(cursors), sorted[i]));
        FirstGroup(wire, limits, page, suffixes, i);
      }
    }
    if forall i: nat :: FirstAt(suffixes, i) ==> Within(wire, limits, page, suffixes, i, 1) {
      forall log, k: nat | FirstMissing(cursors, logs, log, k)
        ensures limits.maxEntries >= 1 && Size(wire, page.(deviceLogs := [[log[k]]])) <= limits.maxBytes
      {
        SameFirst(cursors, sorted, logs, log, k);
        FirstIsFirst(env, request.identity, cursors, sorted, log, k);
        var i: nat :| FirstAt(suffixes, i) && sorted[i] == log && suffixes[i][0] == log[k];
        FirstGroup(wire, limits, page, suffixes, i);
      }
    }
  }

  /** The page with one more entry: on its last log, or as a log of its own. */
  ghost predicate AddsEntry(page: seq<Log>, next: seq<Log>, e: Entry)
  {
    || next == page + [[e]]
    || (page != [] && next == page[..|page| - 1] + [page[|page| - 1] + [e]])
  }

  lemma GroupsAddEntry(suffixes: seq<Log>, i: nat, j: nat)
    requires i < |suffixes| && j < |suffixes[i]|
    ensures AddsEntry(Groups(suffixes, i, j), Groups(suffixes, i, j + 1), suffixes[i][j])
    ensures Total(Groups(suffixes, i, j + 1)) == Count(suffixes, i, j + 1)
  {
    hide NonEmpty;
    GroupsStep(suffixes, i, j);
    CountIsTotal(suffixes, i, j + 1);
    var front, page := NonEmpty(suffixes[..i]), Groups(suffixes, i, j);
    if j == 0 {
      assert page == front && [] + [suffixes[i][0]] == [suffixes[i][0]];
    } else {
      assert page[..|page| - 1] == front;
    }
  }

  /** Where a delta page stops, each log's continuation begins. */
  lemma StopIsStart(env: Env, identity: Str, cursors: seq<Cursor>, next: seq<Cursor>, sorted: seq<Log>, i: nat,
                    j: nat, t: nat)
    requires WellFormed(env, identity, sorted) && StartsInRange(CursorMap(cursors), sorted)
    requires InPage(Suffixes(CursorMap(cursors), sorted), i, j) && t < |sorted| && sorted[t] != []
    requires
      var d := DeviceOf(sorted[t]);
      StartAt(CursorMap(next), d) ==
        StartAt(CursorMap(cursors), d) + |Slice(Groups(Suffixes(CursorMap(cursors), sorted), i, j), d)|
    ensures Start(CursorMap(next), sorted[t]) ==
            Start(CursorMap(cursors), sorted[t]) + |Parts(Suffixes(CursorMap(cursors), sorted), i, j)[t]|
  {
    hide WellFormed, StartsInRange, CursorMap, Suffixes, Groups, Slice, Parts, Start;
    assert sorted[t] in sorted;
    ShapeOfMember(env, identity, sorted, sorted[t]);
    SliceIsPart(env, identity, CursorMap(cursors), sorted, i, j, t);
    StartOf(env, identity, CursorMap(next), sorted[t]);
    StartOf(env, identity, CursorMap(cursors), sorted[t]);
  }

  lemma NextFirst(env: Env, identity: Str, cursors: seq<Cursor>, next: seq<Cursor>, sorted: seq<Log>, i: nat, j: nat)
    requires WellFormed(env, identity, sorted) && StartsInRange(CursorMap(cursors), sorted)
    requires InPage(Suffixes(CursorMap(cursors), sorted), i, j) && i < |sorted|
    requires j < |Suffixes(CursorMap(cursors), sorted)[i]| && StartsInRange(CursorMap(next), sorted)
    requires forall d ::
      StartAt(CursorMap(next), d) ==
      StartAt(CursorMap(cursors), d) + |Slice(Groups(Suffixes(CursorMap(cursors), sorted), i, j), d)|
    ensures FirstAt(Suffixes(CursorMap(next), sorted), i)
    ensures Suffixes(CursorMap(next), sorted)[i][0] == Suffixes(CursorMap(cursors), sorted)[i][j]
  {
    hide WellFormed, CursorMap, Groups, Slice, StartAt, Start;
    var known := CursorMap(cursors);
    var suffixes, rest := Suffixes(known, sorted), Suffixes(CursorMap(next), sorted);
    forall t | 0 <= t < i ensures rest[t] == [] {
      if sorted[t] != [] { StopIsStart(env, identity, cursors, next, sorted, i, j, t); }
    }
    StopIsStart(env, identity, cursors, next, sorted, i, j, i);
  }

  /** A page that leaves something behind is full: with the next missing entry it
      would carry too many entries or take too many bytes. */
  lemma PageIsFull(env: Env, wire: Wire, limits: Limits, request: Request, records: seq<Auth.Record>, logs: seq<Log>)
    requires WellFormed(env, request.identity, logs)
    requires Respond(env, wire, limits, request, records, logs).continuation.Some?
    ensures
      var r := Respond(env, wire, limits, request, records, logs);
      exists log, k: nat, page ::
        && FirstMissing(r.continuation.value, logs, log, k)
        && AddsEntry(r.deviceLogs, page, log[k])
        && (|| Total(page) > limits.maxEntries
            || Size(wire, EmptyPage(env, request, records, logs).(deviceLogs := page)) > limits.maxBytes)
  {
    hide WellFormed, CursorsAccepted, StartsInRange, Fill, Groups, HeadsOf, AddGroups, CursorList, Frame, Suffixes,
         CursorMap, Sort, Size, Total, SlicesNext, Slice, StartAt, LogsInOrder, MissesFrom, RequiredVersion,
         ProviderGrows, Missing;
    var r := Respond(env, wire, limits, request, records, logs);
    var identity, cursors, next, sorted := request.identity, request.cursors, r.continuation.value, Sort(logs, LogKey);
    NegotiatedAccepts(env, request, logs);
    AcceptedStarts(env, identity, cursors, logs);
    PageIsNextSlice(env, wire, limits, request, records, logs);
    SelfGrows(logs);
    ContinuationAccepted(env, wire, limits, request, records, logs, logs);
    AcceptedStarts(env, identity, next, logs);
    SortedLogs(env, identity, logs);
    SortedInOrder(env, identity, logs);
    NextDistinct(env, next, logs);
    AllMissing(env, identity, next, sorted);
    var page, suffixes := EmptyPage(env, request, records, logs), Suffixes(CursorMap(cursors), sorted);
    var stop := Fill(wire, limits, page, suffixes, 0, 0);
    FillStopsForCause(wire, limits, page, suffixes, 0, 0);
    NextFirst(env, identity, cursors, next, sorted, stop.i, stop.j);
    FirstIsMissing(env, identity, next, sorted, stop.i);
    var log, k := sorted[stop.i], Start(CursorMap(next), sorted[stop.i]);
    SameFirst(next, sorted, logs, log, k);
    GroupsAddEntry(suffixes, stop.i, stop.j);
    assert FirstMissing(next, logs, log, k)
        && AddsEntry(r.deviceLogs, Groups(suffixes, stop.i, stop.j + 1), log[k]);
  }

  lemma NextDistinct(env: Env, cursors: seq<Cursor>, logs: seq<Log>)
    requires CursorsAccepted(env, cursors, logs)
    ensures DistinctDevices(cursors)
  {
  }
}
