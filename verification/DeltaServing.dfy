/** Answering a sync request: the method that does it, and the limits every page
    keeps. */
module DeltaServing {
  import opened Wrappers
  import opened ByteStrings
  import opened Crypto
  import opened Ordering
  import opened DeviceWriterLog
  import opened Cbor
  import opened DeltaSync
  import opened DeltaPaging
  import Auth = IdentityAuthority

  // ---- where filling stops ----

  /** Filling never leaves the limits once it has taken an entry. */
  lemma {:induction false} FillWithin(wire: Wire, limits: Limits, frame: Response, suffixes: seq<Log>, i: nat, j: nat)
    requires InPage(suffixes, i, j)
    requires Count(suffixes, i, j) == 0 || Within(wire, limits, frame, suffixes, i, j)
    ensures
      var stop := Fill(wire, limits, frame, suffixes, i, j);
      Count(suffixes, stop.i, stop.j) == 0 || Within(wire, limits, frame, suffixes, stop.i, stop.j)
    decreases |suffixes| - i, if i < |suffixes| then |suffixes[i]| - j else 0
  {
    hide Size, Groups, Count;
    if i < |suffixes| {
      if j == |suffixes[i]| {
        GroupsNext(suffixes, i);
        FillWithin(wire, limits, frame, suffixes, i + 1, 0);
      } else if Within(wire, limits, frame, suffixes, i, j + 1) {
        FillWithin(wire, limits, frame, suffixes, i, j + 1);
      }
    }
  }

  /** Filling stops early only at an entry that would break a limit. */
  lemma {:induction false} FillStopsForCause(wire: Wire, limits: Limits, frame: Response, suffixes: seq<Log>, i: nat,
                                             j: nat)
    requires InPage(suffixes, i, j)
    ensures
      var stop := Fill(wire, limits, frame, suffixes, i, j);
      stop.i < |suffixes| ==>
        stop.j < |suffixes[stop.i]| && !Within(wire, limits, frame, suffixes, stop.i, stop.j + 1)
    decreases |suffixes| - i, if i < |suffixes| then |suffixes[i]| - j else 0
  {
    hide Within;
    if i < |suffixes| {
      if j == |suffixes[i]| {
        FillStopsForCause(wire, limits, frame, suffixes, i + 1, 0);
      } else if Within(wire, limits, frame, suffixes, i, j + 1) {
        FillStopsForCause(wire, limits, frame, suffixes, i, j + 1);
      }
    }
  }

  lemma {:induction false} NonEmptyTotal(logs: seq<Log>)
    ensures Total(NonEmpty(logs)) == Total(logs)
  {
    if logs != [] {
      var n := |logs| - 1;
      NonEmptyTotal(logs[..n]);
      if logs[n] != [] {
        assert NonEmpty(logs)[..|NonEmpty(logs)| - 1] == NonEmpty(logs[..n]);
      } else {
        assert NonEmpty(logs) == NonEmpty(logs[..n]);
      }
    }
  }

  lemma CountIsTotal(suffixes: seq<Log>, i: nat, j: nat)
    requires InPage(suffixes, i, j)
    ensures Total(Groups(suffixes, i, j)) == Count(suffixes, i, j)
  {
    hide NonEmpty;
    NonEmptyTotal(suffixes[..i]);
    var front := NonEmpty(suffixes[..i]);
    if i < |suffixes| && j > 0 {
      assert (front + [suffixes[i][..j]])[..|front|] == front;
    } else {
      assert front + [] == front;
    }
  }

  // ---- the continuation's devices ----

  ghost predicate Labelled(m: map<Str, Cursor>)
  {
    forall id :: id in m ==> m[id].deviceId == id
  }

  lemma {:induction false} AddEntriesKeys(env: Env, m: map<Str, Cursor>, log: Log, ids: set<Str>)
    requires Labelled(m) && m.Keys <= ids && forall e :: e in log ==> e.body.deviceId in ids
    ensures Labelled(AddEntries(env, m, log)) && AddEntries(env, m, log).Keys <= ids
  {
    hide EntryHash;
    if log != [] {
      AddEntriesKeys(env, m, log[..|log| - 1], ids);
      assert log[|log| - 1] in log;
    }
  }

  lemma {:induction false} AddGroupsKeys(env: Env, m: map<Str, Cursor>, groups: seq<Log>, ids: set<Str>)
    requires Labelled(m) && m.Keys <= ids
    requires forall g, e :: g in groups && e in g ==> e.body.deviceId in ids
    ensures Labelled(AddGroups(env, m, groups)) && AddGroups(env, m, groups).Keys <= ids
  {
    hide AddEntries, Labelled;
    if groups != [] {
      assert groups[|groups| - 1] in groups;
      AddGroupsKeys(env, m, groups[..|groups| - 1], ids);
      AddEntriesKeys(env, AddGroups(env, m, groups[..|groups| - 1]), groups[|groups| - 1], ids);
    }
  }

  lemma CursorMapLabelled(cursors: seq<Cursor>)
    ensures Labelled(CursorMap(cursors)) && CursorMap(cursors).Keys == IdsOf(cursors)
  {
    hide CursorMap;
    forall id
      ensures id in CursorMap(cursors) <==> id in IdsOf(cursors)
      ensures id in CursorMap(cursors) ==> CursorMap(cursors)[id].deviceId == id
    {
      CursorMapMeans(cursors, id);
    }
  }

  /** The cursor stands at the end of the log. */
  ghost predicate Tops(env: Env, log: Log, c: Cursor)
  {
    log != [] && c == FromEntry(env, log[|log| - 1])
  }

  lemma HeadsSnoc(env: Env, logs: seq<Log>, last: Log, c: Cursor)
    ensures c in HeadsOf(env, logs + [last]) <==> c in HeadsOf(env, logs) || Tops(env, last, c)
  {
    hide FromEntry;
    assert (logs + [last])[..|logs|] == logs;
  }

  lemma {:induction false} HeadsTop(env: Env, logs: seq<Log>, c: Cursor)
    ensures c in HeadsOf(env, logs) <==> exists log :: log in logs && Tops(env, log, c)
  {
    hide Tops;
    if logs != [] {
      hide HeadsOf;
      var init, last := logs[..|logs| - 1], logs[|logs| - 1];
      HeadsTop(env, init, c);
      HeadsSnoc(env, init, last, c);
      assert logs == init + [last];
    }
  }

  lemma HeadsMean(env: Env, logs: seq<Log>, c: Cursor)
    ensures c in HeadsOf(env, logs) <==>
            exists log :: log in logs && log != [] && c == FromEntry(env, log[|log| - 1])
  {
    hide FromEntry, HeadsOf;
    HeadsTop(env, logs, c);
    if log :| log in logs && Tops(env, log, c) { assert c == FromEntry(env, log[|log| - 1]); }
    if log :| log in logs && log != [] && c == FromEntry(env, log[|log| - 1]) { assert Tops(env, log, c); }
  }

  lemma {:induction false} NonEmptyMeans(logs: seq<Log>, g: Log)
    ensures g in NonEmpty(logs) <==> g in logs && g != []
  {
    if logs != [] {
      NonEmptyMeans(logs[..|logs| - 1], g);
      assert logs == logs[..|logs| - 1] + [logs[|logs| - 1]];
    }
  }

  /** Every delivered entry comes from one of the provider's logs. */
  lemma GroupsComeFromLogs(known: map<Str, Cursor>, sorted: seq<Log>, i: nat, j: nat, g: Log, e: Entry)
    requires StartsInRange(known, sorted)
    requires InPage(Suffixes(known, sorted), i, j) && g in Groups(Suffixes(known, sorted), i, j) && e in g
    ensures exists log :: log in sorted && log != [] && e in log
  {
    hide Start;
    var suffixes := Suffixes(known, sorted);
    NonEmptyMeans(suffixes[..i], g);
    var k: nat;
    if g in NonEmpty(suffixes[..i]) {
      k :| 0 <= k < i && suffixes[..i][k] == g;
    } else {
      k := i;
    }
    assert e in suffixes[k];
    assert sorted[k] in sorted && e in sorted[k];
  }

  lemma DeliveredDevice(env: Env, identity: Str, sorted: seq<Log>, log: Log, e: Entry)
    requires WellFormed(env, identity, sorted) && log in sorted && log != [] && e in log
    ensures e.body.deviceId in IdsOf(HeadsOf(env, sorted))
  {
    hide WellFormed, HeadsOf, ShapeOk, EntryHash;
    var k :| 0 <= k < |log| && log[k] == e;
    ShapeOfMember(env, identity, sorted, log);
    DeviceThroughout(env, identity, log, k);
    DeviceThroughout(env, identity, log, |log| - 1);
    var c := FromEntry(env, log[|log| - 1]);
    assert c.deviceId == e.body.deviceId;
    hide FromEntry;
    HeadsMean(env, sorted, c);
    InIds(HeadsOf(env, sorted), c);
  }

  lemma InIds(cursors: seq<Cursor>, c: Cursor)
    requires c in cursors
    ensures c.deviceId in IdsOf(cursors)
  {
  }

  lemma DeliveredDevices(env: Env, identity: Str, known: map<Str, Cursor>, sorted: seq<Log>, i: nat, j: nat)
    requires WellFormed(env, identity, sorted) && StartsInRange(known, sorted)
    requires InPage(Suffixes(known, sorted), i, j)
    ensures forall g, e :: g in Groups(Suffixes(known, sorted), i, j) && e in g ==>
              e.body.deviceId in IdsOf(HeadsOf(env, sorted))
  {
    hide Groups, Suffixes, WellFormed, HeadsOf, StartsInRange, IdsOf;
    var groups := Groups(Suffixes(known, sorted), i, j);
    forall g, e | g in groups && e in g ensures e.body.deviceId in IdsOf(HeadsOf(env, sorted)) {
      GroupsComeFromLogs(known, sorted, i, j, g, e);
      var log :| log in sorted && log != [] && e in log;
      DeliveredDevice(env, identity, sorted, log, e);
    }
  }

  lemma ReservedSetSubset(a: set<Str>, b: set<Str>)
    requires a <= b
    ensures multiset(SortedIds(a)) <= multiset(SortedIds(b))
  {
  }

  /** The continuation actually sent is no larger than the one reserved. */
  lemma ContinuationFits(cursors: seq<Cursor>, m: map<Str, Cursor>, ids: set<Str>)
    requires Labelled(m) && m.Keys <= ids
    requires cursors == CursorList(m)
    ensures
      var reserved := Placeholders(SortedIds(ids));
      && |cursors| <= |reserved|
      && |EncodeAll(CursorsItem(cursors).items)| <= |EncodeAll(CursorsItem(reserved).items)|
  {
    hide CursorItem, Placeholder, Encode, SortedIds;
    ReservedSetSubset(m.Keys, ids);
    ReservedSubset(SortedIds(m.Keys), SortedIds(ids));
    CursorsWithinReserved(cursors, SortedIds(m.Keys));
    ReservedIsExact(SortedIds(ids));
  }

  // ---- the limits ----

  lemma DeltaWithinLimits(env: Env, wire: Wire, limits: Limits, request: Request, required: U16,
                          records: seq<Auth.Record>, sorted: seq<Log>)
    requires WellFormed(env, request.identity, sorted) && StartsInRange(CursorMap(request.cursors), sorted)
    ensures
      var r := Delta(env, wire, limits, request, required, records, sorted);
      r.syncVersion == DELTA_SYNC_VERSION && Total(r.deviceLogs) > 0 ==>
        Total(r.deviceLogs) <= limits.maxEntries && Size(wire, r) <= limits.maxBytes
  {
    hide Size, Groups, Count, Fill, CursorMap, AddGroups, CursorList, Labelled, WellFormed, HeadsOf, Suffixes,
         StartsInRange, Placeholders, SortedIds, Total, IdsOf;
    var known := CursorMap(request.cursors);
    var heads := HeadsOf(env, sorted);
    var suffixes := Suffixes(known, sorted);
    var frame := Frame(required, request.cursors, heads, records, []);
    var stop := Fill(wire, limits, frame, suffixes, 0, 0);
    var groups := Groups(suffixes, stop.i, stop.j);
    var r := Delta(env, wire, limits, request, required, records, sorted);
    FillStart(frame, suffixes);
    FillWithin(wire, limits, frame, suffixes, 0, 0);
    CountIsTotal(suffixes, stop.i, stop.j);
    if r.syncVersion == DELTA_SYNC_VERSION && Total(r.deviceLogs) > 0 {
      var ids := IdsOf(request.cursors) + IdsOf(heads);
      var m := AddGroups(env, known, groups);
      CursorMapLabelled(request.cursors);
      DeliveredDevices(env, request.identity, known, sorted, stop.i, stop.j);
      AddGroupsKeys(env, known, groups, ids);
      ContinuationFits(CursorList(m), m, ids);
      SmallerContinuation(wire, frame.(deviceLogs := groups), Placeholders(SortedIds(ids)), r.continuation);
    }
  }

  /** Every delta page that carries an entry carries at most `maxEntries` of them,
      and its whole CBOR encoding takes at most `maxBytes`. */
  lemma PageWithinLimits(env: Env, wire: Wire, limits: Limits, request: Request, records: seq<Auth.Record>,
                         logs: seq<Log>)
    requires WellFormed(env, request.identity, logs)
    ensures
      var r := Respond(env, wire, limits, request, records, logs);
      r.syncVersion == DELTA_SYNC_VERSION && Total(r.deviceLogs) > 0 ==>
        Total(r.deviceLogs) <= limits.maxEntries && Size(wire, r) <= limits.maxBytes
  {
    hide WellFormed, Negotiated, StartsInRange, Delta, Size, Total;
    SortedLogs(env, request.identity, logs);
    if Negotiated(env, request, logs) {
      NegotiatedAccepts(env, request, logs);
      AcceptedStarts(env, request.identity, request.cursors, logs);
      DeltaWithinLimits(env, wire, limits, request, RequiredVersion(logs), records, Sort(logs, LogKey));
    }
  }

  lemma NegotiatedAccepts(env: Env, request: Request, logs: seq<Log>)
    requires Negotiated(env, request, logs)
    ensures CursorsAccepted(env, request.cursors, logs)
  {
  }

  // ---- the method ----

  /** The request's cursors as a map, refusing two for one device. */
  method ReadCursors(cursors: seq<Cursor>) returns (ok: bool, known: map<Str, Cursor>)
    ensures ok <==> DistinctDevices(cursors)
    ensures ok ==> known == CursorMap(cursors)
  {
    known := map[];
    var i := 0;
    assert cursors[..0] == [];
    while i < |cursors|
      invariant 0 <= i <= |cursors|
      invariant DistinctDevices(cursors[..i])
      invariant known == CursorMap(cursors[..i])
    {
      CursorMapMeans(cursors[..i], cursors[i].deviceId);
      if cursors[i].deviceId in known {
        var c :| c in cursors[..i] && c.deviceId == cursors[i].deviceId;
        var k :| 0 <= k < i && cursors[..i][k] == c;
        assert cursors[k].deviceId == cursors[i].deviceId;
        return false, known;
      }
      forall k | 0 <= k < i ensures cursors[k].deviceId != cursors[i].deviceId {
        assert cursors[..i][k] in cursors[..i];
      }
      known := known[cursors[i].deviceId := cursors[i]];
      assert cursors[..i + 1][..i] == cursors[..i];
      i := i + 1;
    }
    assert cursors[..i] == cursors;
    ok := true;
  }

  ghost predicate IndexesLogs(byDevice: map<Str, Log>, logs: seq<Log>)
  {
    && (forall log :: log in logs && log != [] ==> DeviceOf(log) in byDevice && byDevice[DeviceOf(log)] == log)
    && (forall id :: id in byDevice ==> byDevice[id] in logs && byDevice[id] != [] && DeviceOf(byDevice[id]) == id)
  }

  /** The logs by device. */
  method IndexLogs(env: Env, ghost identity: Str, logs: seq<Log>) returns (byDevice: map<Str, Log>)
    requires WellFormed(env, identity, logs)
    ensures IndexesLogs(byDevice, logs)
  {
    hide ShapeOk, EntryHash;
    byDevice := map[];
    var i := 0;
    while i < |logs|
      invariant 0 <= i <= |logs|
      invariant IndexesLogs(byDevice, logs[..i])
    {
      if logs[i] != [] {
        byDevice := byDevice[logs[i][0].body.deviceId := logs[i]];
      }
      assert logs[..i + 1] == logs[..i] + [logs[i]];
      assert forall log :: log in logs[..i] ==> log in logs;
      assert logs[i] in logs;
      i := i + 1;
    }
    assert logs[..i] == logs;
  }

  /** Once each mapped cursor is accepted, every listed one is. */
  lemma MappedAccepted(env: Env, cursors: seq<Cursor>, known: map<Str, Cursor>, logs: seq<Log>)
    requires DistinctDevices(cursors) && known == CursorMap(cursors)
    requires forall id :: id in known ==> CursorAccepted(env, known[id], logs)
    ensures CursorsAccepted(env, cursors, logs)
  {
    hide CursorAccepted, CursorMap;
    forall c | c in cursors ensures CursorAccepted(env, c, logs) {
      CursorMapMeans(cursors, c.deviceId);
      var k :| 0 <= k < |cursors| && cursors[k] == c;
      var k' :| 0 <= k' < |cursors| && cursors[k'] == known[c.deviceId];
      assert k == k';
    }
  }

  /** Each cursor checked against its device's log. */
  method CheckCursors(env: Env, ghost identity: Str, cursors: seq<Cursor>, known: map<Str, Cursor>, logs: seq<Log>)
    returns (ok: bool)
    requires WellFormed(env, identity, logs) && DistinctDevices(cursors) && known == CursorMap(cursors)
    ensures ok <==> CursorsAccepted(env, cursors, logs)
  {
    hide WellFormed, EntryHash, CursorMap;
    var byDevice: map<Str, Log> := IndexLogs(env, identity, logs);
    var todo := known.Keys;
    while todo != {}
      invariant todo <= known.Keys
      invariant forall id :: id in known && id !in todo ==> CursorAccepted(env, known[id], logs)
      decreases todo
    {
      var id :| id in todo;
      var cursor := known[id];
      CursorMapMeans(cursors, id);
      if id !in byDevice
         || cursor.sequence >= |byDevice[id]|
         || byDevice[id][cursor.sequence].body.sequence != cursor.sequence
         || EntryHash(env, byDevice[id][cursor.sequence]) != cursor.entryHash
      {
        assert !CursorAccepted(env, cursor, logs);
        return false;
      }
      assert AcceptedBy(env, cursor, byDevice[id]);
      todo := todo - {id};
    }
    MappedAccepted(env, cursors, known, logs);
    ok := true;
  }

  /** `into_iter` on a hash set, in whatever order it yields, then sorted. */
  method SortIds(ids: set<Str>) returns (r: seq<Str>)
    ensures r == SortedIds(ids)
  {
    var list: seq<Str> := [];
    var todo := ids;
    while todo != {}
      invariant todo <= ids
      invariant multiset(list) + multiset(todo) == multiset(ids)
      decreases todo
    {
      var id :| id in todo;
      assert todo == (todo - {id}) + {id};
      list := list + [id];
      todo := todo - {id};
    }
    r := Sort(list, IdKey);
    assert KeyDetermines(list, IdKey) by {
      forall x, y | x in list && y in list && IdKey(x) == IdKey(y) ensures x == y {
        assert IdKey(x)[0] == IdKey(y)[0];
      }
    }
    SortIsCanonical(list, SetSeq(ids), IdKey);
  }

  /** The last delivered entry of each device, over the request's own cursors. */
  method Advance(env: Env, known: map<Str, Cursor>, groups: seq<Log>) returns (m: map<Str, Cursor>)
    ensures m == AddGroups(env, known, groups)
  {
    hide FromEntry;
    m := known;
    var i := 0;
    while i < |groups|
      invariant 0 <= i <= |groups|
      invariant m == AddGroups(env, known, groups[..i])
    {
      ghost var before := m;
      var j := 0;
      while j < |groups[i]|
        invariant 0 <= j <= |groups[i]|
        invariant m == AddEntries(env, before, groups[i][..j])
      {
        m := m[groups[i][j].body.deviceId := FromEntry(env, groups[i][j])];
        assert groups[i][..j + 1][..j] == groups[i][..j];
        j := j + 1;
      }
      assert groups[i][..j] == groups[i];
      assert groups[..i + 1][..i] == groups[..i];
      i := i + 1;
    }
    assert groups[..i] == groups;
  }

  method ListCursors(m: map<Str, Cursor>) returns (cs: seq<Cursor>)
    ensures cs == CursorList(m)
  {
    hide SortedIds;
    var ids := SortIds(m.Keys);
    SortedIdsMembers(m.Keys);
    cs := [];
    var i := 0;
    while i < |ids|
      invariant 0 <= i <= |ids| == |CursorList(m)|
      invariant cs == CursorList(m)[..i]
    {
      cs := cs + [m[ids[i]]];
      i := i + 1;
    }
  }

  /** `for_sync_request_with_limits` */
  method ForSyncRequest(env: Env, wire: Wire, limits: Limits, request: Request, records: seq<Auth.Record>,
                        logs: seq<Log>)
    returns (r: Response)
    requires WellFormed(env, request.identity, logs)
    ensures r == Respond(env, wire, limits, request, records, logs)
  {
    hide WellFormed, CursorsAccepted, DistinctDevices, RequiredVersion, CursorMap, HeadsOf, Fill, Groups, AddGroups,
         CursorList, Size, SortedIds, Sort, Placeholders;
    var required := RequiredVersion(logs);
    if request.maxSyncVersion < DELTA_SYNC_VERSION || required > request.maxOperationVersion {
      return Full(required, request.maxOperationVersion, records, logs);
    }
    var ok, known := ReadCursors(request.cursors);
    if !ok {
      RefusedCursors(env, request.cursors, logs);
      return Full(required, request.maxOperationVersion, records, logs);
    }
    ok := CheckCursors(env, request.identity, request.cursors, known, logs);
    if !ok {
      return Full(required, request.maxOperationVersion, records, logs);
    }
    AcceptedStarts(env, request.identity, request.cursors, logs);
    var sorted := Sort(logs, LogKey);
    var heads := HeadsOf(env, sorted);
    var suffixes := Suffixes(known, sorted);
    var ids := SortIds(IdsOf(request.cursors) + IdsOf(heads));
    var envelope := Response(required, DELTA_SYNC_VERSION, heads, Some(Placeholders(ids)), records, []);
    var deltaLogs, transferredEntries, transferredBytes, truncated, stop :=
      FillPage(wire, limits, envelope, suffixes, Size(wire, envelope));
    if truncated && transferredEntries == 0 {
      return Full(required, request.maxOperationVersion, records, sorted);
    }
    var continuation: Option<seq<Cursor>> := None;
    if truncated {
      var next := Advance(env, known, deltaLogs);
      var cs := ListCursors(next);
      continuation := Some(cs);
    }
    r := Response(required, DELTA_SYNC_VERSION, heads, continuation, records, deltaLogs);
  }

  lemma RefusedCursors(env: Env, cursors: seq<Cursor>, logs: seq<Log>)
    requires !DistinctDevices(cursors)
    ensures !CursorsAccepted(env, cursors, logs)
  {
  }
}
