/** Following continuations: page after page, a requester is sent exactly the
    entries it lacks, each once and in order, even while the provider's logs
    grow; over fixed logs the session ends. */
module DeltaSession {
  import opened Wrappers
  import opened ByteStrings
  import opened Crypto
  import opened Ordering
  import opened DeviceWriterLog
  import opened DeltaSync
  import opened DeltaPaging
  import opened DeltaServing
  import Auth = IdentityAuthority

  // ---- a provider's logs by device ----

  ghost predicate HasLog(logs: seq<Log>, d: Str)
  {
    exists log :: log in logs && log != [] && DeviceOf(log) == d
  }

  /** The log of a device, or the empty log. */
  ghost function LogOf(logs: seq<Log>, d: Str): (r: Log)
    ensures HasLog(logs, d) ==> r in logs && r != [] && DeviceOf(r) == d
    ensures !HasLog(logs, d) ==> r == []
  {
    if HasLog(logs, d) then
      var log :| log in logs && log != [] && DeviceOf(log) == d;
      log
    else []
  }

  lemma LogOfIs(env: Env, identity: Str, logs: seq<Log>, log: Log)
    requires WellFormed(env, identity, logs) && log in logs && log != []
    ensures LogOf(logs, DeviceOf(log)) == log
  {
    hide ShapeOk;
    assert HasLog(logs, DeviceOf(log));
  }

  /** The next entry a requester needs from a device. */
  function StartAt(known: map<Str, Cursor>, d: Str): nat
  {
    if d in known then known[d].sequence + 1 else 0
  }

  /** The entries of a device carried by a page. */
  function Slice(groups: seq<Log>, d: Str): Log
  {
    if groups == [] then []
    else
      var g := groups[|groups| - 1];
      Slice(groups[..|groups| - 1], d) + if g != [] && DeviceOf(g) == d then g else []
  }

  // ---- groups and slices ----

  lemma {:induction false} SliceNonEmpty(logs: seq<Log>, d: Str)
    ensures Slice(NonEmpty(logs), d) == Slice(logs, d)
  {
    if logs != [] {
      var n := |logs| - 1;
      SliceNonEmpty(logs[..n], d);
      var front := NonEmpty(logs[..n]);
      if logs[n] == [] {
        assert NonEmpty(logs) == front;
        assert Slice(logs, d) == Slice(logs[..n], d) + [];
      } else {
        assert (front + [logs[n]])[..|front|] == front;
      }
    }
  }

  lemma {:induction false} SliceNone(logs: seq<Log>, d: Str)
    requires forall k :: 0 <= k < |logs| ==> logs[k] == [] || DeviceOf(logs[k]) != d
    ensures Slice(logs, d) == []
  {
    if logs != [] { SliceNone(logs[..|logs| - 1], d); }
  }

  lemma {:induction false} SliceOne(logs: seq<Log>, d: Str, t: nat)
    requires t < |logs| && (logs[t] == [] || DeviceOf(logs[t]) == d)
    requires forall k :: 0 <= k < |logs| && k != t ==> logs[k] == [] || DeviceOf(logs[k]) != d
    ensures Slice(logs, d) == logs[t]
  {
    var n := |logs| - 1;
    if t == n {
      SliceNone(logs[..n], d);
    } else {
      SliceOne(logs[..n], d, t);
    }
  }

  /** What a page takes of each suffix. */
  function Parts(suffixes: seq<Log>, i: nat, j: nat): (r: seq<Log>)
    requires InPage(suffixes, i, j)
    ensures |r| == |suffixes|
    ensures forall k :: 0 <= k < |suffixes| ==>
      r[k] == if k < i then suffixes[k] else if k == i then suffixes[i][..j] else []
  {
    seq(|suffixes|, k requires 0 <= k < |suffixes| =>
      if k < i then suffixes[k] else if k == i then suffixes[i][..j] else [])
  }

  lemma {:induction false} TrailingEmpty(logs: seq<Log>, n: nat)
    requires n <= |logs| && forall k :: n <= k < |logs| ==> logs[k] == []
    ensures NonEmpty(logs) == NonEmpty(logs[..n])
  {
    if n == |logs| {
      assert logs[..n] == logs;
    } else {
      var m := |logs| - 1;
      TrailingEmpty(logs[..m], n);
      assert logs[..m][..n] == logs[..n];
      assert NonEmpty(logs) == NonEmpty(logs[..m]) + [];
    }
  }

  lemma GroupsAreParts(suffixes: seq<Log>, i: nat, j: nat)
    requires InPage(suffixes, i, j)
    ensures Groups(suffixes, i, j) == NonEmpty(Parts(suffixes, i, j))
  {
    var parts := Parts(suffixes, i, j);
    if i == |suffixes| {
      assert parts == suffixes[..i];
    } else {
      TrailingEmpty(parts, i + 1);
      assert parts[..i + 1][..i] == suffixes[..i];
      assert parts[..i + 1][i] == suffixes[i][..j];
    }
  }

  lemma TwoCopies<T>(s: seq<T>, i: nat, j: nat)
    requires i < j < |s| && s[i] == s[j]
    ensures multiset(s)[s[i]] >= 2
  {
    assert s == s[..j] + s[j..];
    assert s[i] in s[..j] && s[j] in s[j..];
    assert multiset(s[..j])[s[i]] >= 1 && multiset(s[j..])[s[i]] >= 1;
  }

  lemma DistinctPositions(env: Env, identity: Str, logs: seq<Log>, k: nat, t: nat)
    requires WellFormed(env, identity, logs) && k < |logs| && t < |logs| && k != t
    requires logs[k] != [] && logs[t] != []
    ensures DeviceOf(logs[k]) != DeviceOf(logs[t])
  {
    hide ShapeOk;
    if logs[k] == logs[t] {
      if k < t { TwoCopies(logs, k, t); } else { TwoCopies(logs, t, k); }
    }
  }

  lemma SuffixDevice(env: Env, identity: Str, log: Log, s: nat, n: nat)
    requires ShapeOk(env, identity, log) && s <= n <= |log|
    ensures s < n ==> DeviceOf(log[s..n]) == DeviceOf(log)
    ensures forall e :: e in log[s..n] ==> e.body.deviceId == DeviceOf(log)
  {
    hide ShapeOk;
    forall k | s <= k < n ensures log[k].body.deviceId == DeviceOf(log) {
      DeviceThroughout(env, identity, log, k);
    }
  }

  /** A part of a suffix is a stretch of its log. */
  lemma PartOfLog(known: map<Str, Cursor>, sorted: seq<Log>, i: nat, j: nat, k: nat)
    requires StartsInRange(known, sorted) && InPage(Suffixes(known, sorted), i, j) && k < |sorted|
    ensures
      var s := Start(known, sorted[k]);
      var part := Parts(Suffixes(known, sorted), i, j)[k];
      && s + |part| <= |sorted[k]| && part == sorted[k][s..s + |part|]
      && (i == |sorted| ==> s + |part| == |sorted[k]|)
  {
    hide Start;
    var s := Start(known, sorted[k]);
    assert s <= |sorted[k]|;
    var suffix := sorted[k][s..];
    assert Suffixes(known, sorted)[k] == suffix;
    if k == i { assert suffix[..j] == sorted[k][s..s + j]; }
  }

  lemma PartDevices(env: Env, identity: Str, known: map<Str, Cursor>, sorted: seq<Log>, i: nat, j: nat, k: nat)
    requires WellFormed(env, identity, sorted)
    requires StartsInRange(known, sorted) && InPage(Suffixes(known, sorted), i, j) && k < |sorted|
    ensures
      var part := Parts(Suffixes(known, sorted), i, j)[k];
      && (part != [] ==> sorted[k] != [] && DeviceOf(part) == DeviceOf(sorted[k]))
      && forall e :: e in part ==> e.body.deviceId == DeviceOf(sorted[k])
  {
    hide ShapeOk, Start, Parts, Suffixes;
    var s := Start(known, sorted[k]);
    var part := Parts(Suffixes(known, sorted), i, j)[k];
    PartOfLog(known, sorted, i, j, k);
    assert sorted[k] in sorted;
    SuffixDevice(env, identity, sorted[k], s, s + |part|);
  }

  /** The slice of a page for one device is the part taken of its log. */
  lemma SliceIsPart(env: Env, identity: Str, known: map<Str, Cursor>, sorted: seq<Log>, i: nat, j: nat, t: nat)
    requires WellFormed(env, identity, sorted)
    requires StartsInRange(known, sorted) && InPage(Suffixes(known, sorted), i, j)
    requires t < |sorted| && sorted[t] != []
    ensures Slice(Groups(Suffixes(known, sorted), i, j), DeviceOf(sorted[t])) ==
            Parts(Suffixes(known, sorted), i, j)[t]
  {
    hide WellFormed, StartsInRange, Suffixes, Groups, Parts, Slice, NonEmpty;
    var suffixes := Suffixes(known, sorted);
    var parts := Parts(suffixes, i, j);
    var d := DeviceOf(sorted[t]);
    GroupsAreParts(suffixes, i, j);
    SliceNonEmpty(parts, d);
    forall k | 0 <= k < |parts| && k != t ensures parts[k] == [] || DeviceOf(parts[k]) != d {
      PartDevices(env, identity, known, sorted, i, j, k);
      if parts[k] != [] { DistinctPositions(env, identity, sorted, k, t); }
    }
    PartDevices(env, identity, known, sorted, i, j, t);
    SliceOne(parts, d, t);
  }

  lemma SliceOfAbsent(env: Env, identity: Str, known: map<Str, Cursor>, sorted: seq<Log>, i: nat, j: nat, d: Str)
    requires WellFormed(env, identity, sorted)
    requires StartsInRange(known, sorted) && InPage(Suffixes(known, sorted), i, j)
    requires !HasLog(sorted, d)
    ensures Slice(Groups(Suffixes(known, sorted), i, j), d) == []
  {
    hide WellFormed, StartsInRange, Suffixes, Groups, Parts, Slice, NonEmpty;
    var suffixes := Suffixes(known, sorted);
    var parts := Parts(suffixes, i, j);
    GroupsAreParts(suffixes, i, j);
    SliceNonEmpty(parts, d);
    forall k | 0 <= k < |parts| ensures parts[k] == [] || DeviceOf(parts[k]) != d {
      PartDevices(env, identity, known, sorted, i, j, k);
      assert sorted[k] in sorted;
    }
    SliceNone(parts, d);
  }

  // ---- one page, device by device ----

  ghost predicate IsDelta(r: Response) { r.syncVersion == DELTA_SYNC_VERSION }

  /** For device d, a page carries log[start..start + n] and nothing else. */
  ghost predicate NextSlice(known: map<Str, Cursor>, log: Log, part: Log, d: Str)
  {
    var s := StartAt(known, d);
    s + |part| <= |log| && part == log[s..s + |part|]
  }

  lemma PositionSlice(env: Env, identity: Str, known: map<Str, Cursor>, sorted: seq<Log>, i: nat, j: nat, d: Str)
    requires WellFormed(env, identity, sorted)
    requires StartsInRange(known, sorted) && InPage(Suffixes(known, sorted), i, j)
    requires HasLog(sorted, d) || d !in known
    ensures
      var log, part := LogOf(sorted, d), Slice(Groups(Suffixes(known, sorted), i, j), d);
      && NextSlice(known, log, part, d)
      && (i == |sorted| ==> StartAt(known, d) + |part| == |log|)
  {
    hide WellFormed, StartsInRange, Suffixes, Groups, Parts, Slice;
    if HasLog(sorted, d) {
      var log := LogOf(sorted, d);
      var t :| 0 <= t < |sorted| && sorted[t] == log;
      SliceIsPart(env, identity, known, sorted, i, j, t);
      PartOfLog(known, sorted, i, j, t);
      ShapeOfMember(env, identity, sorted, log);
      StartOf(env, identity, known, log);
    } else {
      SliceOfAbsent(env, identity, known, sorted, i, j, d);
    }
  }

  /** A delta page, seen from one device. */
  lemma DeltaSlices(env: Env, wire: Wire, limits: Limits, request: Request, required: U16,
                    records: seq<Auth.Record>, sorted: seq<Log>, d: Str)
    requires WellFormed(env, request.identity, sorted) && StartsInRange(CursorMap(request.cursors), sorted)
    requires HasLog(sorted, d) || d !in CursorMap(request.cursors)
    ensures
      var r := Delta(env, wire, limits, request, required, records, sorted);
      var known := CursorMap(request.cursors);
      IsDelta(r) ==>
        && NextSlice(known, LogOf(sorted, d), Slice(r.deviceLogs, d), d)
        && (r.continuation.None? ==>
              StartAt(known, d) + |Slice(r.deviceLogs, d)| == |LogOf(sorted, d)|)
        && (r.continuation.Some? ==>
              && OneDeviceEach(r.deviceLogs)
              && r.continuation.value == CursorList(AddGroups(env, known, r.deviceLogs)))
  {
    hide WellFormed, StartsInRange, Suffixes, Groups, Slice, Fill, Count, CursorMap, AddGroups, CursorList,
         HeadsOf, Frame, NextSlice, LogOf, StartAt, HasLog, OneDeviceEach;
    var known := CursorMap(request.cursors);
    var suffixes := Suffixes(known, sorted);
    var stop := Fill(wire, limits, Frame(required, request.cursors, HeadsOf(env, sorted), records, []), suffixes, 0, 0);
    PositionSlice(env, request.identity, known, sorted, stop.i, stop.j, d);
    PageGroupsOneDevice(env, request.identity, known, sorted, stop.i, stop.j);
  }

  /** A full answer is never mistaken for a delta. */
  lemma FullIsNotDelta(required: U16, maxOperationVersion: U16, records: seq<Auth.Record>, logs: seq<Log>)
    ensures !IsDelta(Full(required, maxOperationVersion, records, logs))
  {
  }

  /** A page with a continuation always carries at least one entry. */
  lemma DeltaProgress(env: Env, wire: Wire, limits: Limits, request: Request, required: U16,
                      records: seq<Auth.Record>, sorted: seq<Log>)
    requires StartsInRange(CursorMap(request.cursors), sorted)
    ensures
      var r := Delta(env, wire, limits, request, required, records, sorted);
      r.continuation.Some? ==> IsDelta(r) && Total(r.deviceLogs) >= 1
  {
    hide Suffixes, Groups, Fill, Count, CursorMap, AddGroups, CursorList, HeadsOf, Frame, Total, StartsInRange;
    var known := CursorMap(request.cursors);
    var suffixes := Suffixes(known, sorted);
    var stop := Fill(wire, limits, Frame(required, request.cursors, HeadsOf(env, sorted), records, []), suffixes, 0, 0);
    CountIsTotal(suffixes, stop.i, stop.j);
  }

  // ---- cursors as a map ----

  /** Every cursor points at the entry it names in its device's log. */
  ghost predicate AcceptedMap(env: Env, m: map<Str, Cursor>, logs: seq<Log>)
  {
    Labelled(m) && forall id :: id in m ==> AcceptedBy(env, m[id], LogOf(logs, id))
  }

  lemma AcceptedAsMap(env: Env, identity: Str, cursors: seq<Cursor>, logs: seq<Log>)
    requires WellFormed(env, identity, logs) && CursorsAccepted(env, cursors, logs)
    ensures AcceptedMap(env, CursorMap(cursors), logs)
  {
    hide WellFormed, EntryHash, CursorMap;
    CursorMapLabelled(cursors);
    forall id | id in CursorMap(cursors) ensures AcceptedBy(env, CursorMap(cursors)[id], LogOf(logs, id)) {
      CursorMapMeans(cursors, id);
      var c := CursorMap(cursors)[id];
      var log :| log in logs && AcceptedBy(env, c, log);
      LogOfIs(env, identity, logs, log);
    }
  }

  lemma {:induction false} DistinctFromSet(s: seq<Str>, ids: set<Str>, i: nat, j: nat)
    requires multiset(s) == multiset(ids) && i < j < |s|
    ensures s[i] != s[j]
  {
    if s[i] == s[j] { TwoCopies(s, i, j); }
  }

  /** Listing a map of cursors and reading the list back gives the map. */
  lemma CursorListRoundTrip(m: map<Str, Cursor>)
    requires Labelled(m)
    ensures DistinctDevices(CursorList(m))
    ensures CursorMap(CursorList(m)) == m
  {
    hide SortedIds, CursorMap;
    var ids, list := SortedIds(m.Keys), CursorList(m);
    forall i, j | 0 <= i < j < |list| ensures list[i].deviceId != list[j].deviceId {
      DistinctFromSet(ids, m.Keys, i, j);
    }
    forall id
      ensures id in CursorMap(list) <==> id in m
      ensures id in m ==> CursorMap(list)[id] == m[id]
    {
      CursorMapMeans(list, id);
      if id in m {
        assert id in multiset(ids);
        var i :| 0 <= i < |ids| && ids[i] == id;
        assert list[i] in list && list[i].deviceId == id;
      }
    }
  }

  lemma MapAccepted(env: Env, m: map<Str, Cursor>, logs: seq<Log>)
    requires AcceptedMap(env, m, logs)
    ensures CursorsAccepted(env, CursorList(m), logs)
  {
    hide CursorMap, CursorList, EntryHash;
    var list := CursorList(m);
    CursorListRoundTrip(m);
    forall c | c in list ensures CursorAccepted(env, c, logs) {
      CursorMapMeans(list, c.deviceId);
      ListedOnce(list, c);
      assert AcceptedBy(env, c, LogOf(logs, c.deviceId));
    }
  }

  lemma ListedOnce(list: seq<Cursor>, c: Cursor)
    requires DistinctDevices(list) && c in list
    ensures c.deviceId in CursorMap(list) && CursorMap(list)[c.deviceId] == c
  {
    hide CursorMap;
    CursorMapMeans(list, c.deviceId);
    var i :| 0 <= i < |list| && list[i] == c;
    var j :| 0 <= j < |list| && list[j] == CursorMap(list)[c.deviceId];
    assert i == j;
  }

  // ---- the continuation ----

  /** Every group carries one device's entries. */
  ghost predicate OneDeviceEach(groups: seq<Log>)
  {
    forall g, e :: g in groups && e in g ==> e.body.deviceId == DeviceOf(g)
  }

  lemma {:induction false} AddEntriesAt(env: Env, m: map<Str, Cursor>, g: Log, d: Str)
    requires forall e :: e in g ==> e.body.deviceId == d
    ensures AddEntries(env, m, g) == if g == [] then m else m[d := FromEntry(env, g[|g| - 1])]
  {
    hide FromEntry;
    if g != [] {
      assert g[|g| - 1] in g;
      AddEntriesAt(env, m, g[..|g| - 1], d);
    }
  }

  lemma {:induction false} AddGroupsAt(env: Env, m: map<Str, Cursor>, groups: seq<Log>, d: Str)
    requires OneDeviceEach(groups)
    ensures
      var m', part := AddGroups(env, m, groups), Slice(groups, d);
      && (d in m' <==> d in m || part != [])
      && (part != [] ==> m'[d] == FromEntry(env, part[|part| - 1]))
      && (part == [] && d in m ==> m'[d] == m[d])
  {
    hide FromEntry, AddEntries;
    if groups != [] {
      var init, g := groups[..|groups| - 1], groups[|groups| - 1];
      assert groups == init + [g] && g in groups;
      AddGroupsAt(env, m, init, d);
      AddEntriesAt(env, AddGroups(env, m, init), g, DeviceOf(g));
    }
  }

  lemma PageGroupsOneDevice(env: Env, identity: Str, known: map<Str, Cursor>, sorted: seq<Log>, i: nat, j: nat)
    requires WellFormed(env, identity, sorted)
    requires StartsInRange(known, sorted) && InPage(Suffixes(known, sorted), i, j)
    ensures OneDeviceEach(Groups(Suffixes(known, sorted), i, j))
  {
    hide WellFormed, StartsInRange, Suffixes, Groups, Parts, NonEmpty;
    var parts := Parts(Suffixes(known, sorted), i, j);
    GroupsAreParts(Suffixes(known, sorted), i, j);
    forall g, e | g in NonEmpty(parts) && e in g ensures e.body.deviceId == DeviceOf(g) {
      NonEmptyMeans(parts, g);
      var k :| 0 <= k < |parts| && parts[k] == g;
      PartDevices(env, identity, known, sorted, i, j, k);
    }
  }

  // ---- growing providers ----

  /** The provider may append to its logs, and learn of new devices. */
  ghost predicate ProviderGrows(logs: seq<Log>, logs': seq<Log>)
  {
    forall d :: LogOf(logs, d) <= LogOf(logs', d)
  }

  lemma AcceptedLater(env: Env, c: Cursor, log: Log, log': Log)
    requires AcceptedBy(env, c, log) && log <= log'
    ensures AcceptedBy(env, c, log')
  {
    hide EntryHash;
  }

  lemma FromEntryAccepted(env: Env, identity: Str, log: Log, n: nat)
    requires ShapeOk(env, identity, log) && n < |log|
    ensures AcceptedBy(env, FromEntry(env, log[n]), log)
    ensures FromEntry(env, log[n]).deviceId == DeviceOf(log) && FromEntry(env, log[n]).sequence == n
  {
    hide ShapeOk, EntryHash;
    DeviceThroughout(env, identity, log, n);
  }

  ghost predicate SlicesNext(known: map<Str, Cursor>, logs: seq<Log>, groups: seq<Log>)
  {
    forall d :: NextSlice(known, LogOf(logs, d), Slice(groups, d), d)
  }

  lemma AdvancedCursor(env: Env, identity: Str, known: map<Str, Cursor>, groups: seq<Log>, log: Log, log': Log, d: Str)
    requires ShapeOk(env, identity, log) && log <= log' && (log != [] ==> DeviceOf(log) == d)
    requires d in known ==> known[d].deviceId == d && AcceptedBy(env, known[d], log)
    requires OneDeviceEach(groups) && NextSlice(known, log, Slice(groups, d), d)
    ensures
      var next := AddGroups(env, known, groups);
      && (d in next ==> next[d].deviceId == d && AcceptedBy(env, next[d], log'))
      && StartAt(next, d) == StartAt(known, d) + |Slice(groups, d)|
  {
    hide OneDeviceEach, Slice, AddGroups, EntryHash, FromEntry, AcceptedBy, ShapeOk;
    AddGroupsAt(env, known, groups, d);
    var next, part := AddGroups(env, known, groups), Slice(groups, d);
    if part != [] {
      var n := StartAt(known, d) + |part| - 1;
      assert part[|part| - 1] == log[n];
      FromEntryAccepted(env, identity, log, n);
      AcceptedLater(env, next[d], log, log');
    } else if d in known {
      AcceptedLater(env, next[d], log, log');
    }
  }

  lemma EmptyShape(env: Env, identity: Str)
    ensures ShapeOk(env, identity, [])
  {
  }

  /** After a page the advanced cursors point just past what was delivered, and
      the provider, however it grew, accepts them. */
  lemma AdvancedCursors(env: Env, identity: Str, known: map<Str, Cursor>, logs: seq<Log>, groups: seq<Log>,
                        logs': seq<Log>)
    requires WellFormed(env, identity, logs) && AcceptedMap(env, known, logs)
    requires OneDeviceEach(groups) && SlicesNext(known, logs, groups)
    requires ProviderGrows(logs, logs')
    ensures
      var next := AddGroups(env, known, groups);
      && AcceptedMap(env, next, logs')
      && forall d :: StartAt(next, d) == StartAt(known, d) + |Slice(groups, d)|
  {
    hide WellFormed, OneDeviceEach, Slice, AddGroups, EntryHash, AcceptedBy, StartAt, NextSlice, ShapeOk, HasLog;
    var next := AddGroups(env, known, groups);
    forall d
      ensures d in next ==> next[d].deviceId == d && AcceptedBy(env, next[d], LogOf(logs', d))
      ensures StartAt(next, d) == StartAt(known, d) + |Slice(groups, d)|
    {
      assert NextSlice(known, LogOf(logs, d), Slice(groups, d), d);
      if HasLog(logs, d) { ShapeOfMember(env, identity, logs, LogOf(logs, d)); } else { EmptyShape(env, identity); }
      AdvancedCursor(env, identity, known, groups, LogOf(logs, d), LogOf(logs', d), d);
    }
  }

  // ---- what one answer promises ----

  lemma SortingKeepsLogs(env: Env, identity: Str, logs: seq<Log>, d: Str)
    requires WellFormed(env, identity, logs)
    ensures HasLog(Sort(logs, LogKey), d) <==> HasLog(logs, d)
    ensures LogOf(Sort(logs, LogKey), d) == LogOf(logs, d)
  {
    hide WellFormed, Sort;
    SortedLogs(env, identity, logs);
    if HasLog(logs, d) { LogOfIs(env, identity, logs, LogOf(Sort(logs, LogKey), d)); }
  }

  /** A delta answer carries, for every device, the next stretch of its log after
      the requester's cursor; with no continuation it carries all that is missing;
      with one it carries at least one entry, and the continuation's cursors stand
      exactly after what was delivered and are accepted by the provider however
      its logs have grown since. */
  lemma PageIsNextSlice(env: Env, wire: Wire, limits: Limits, request: Request, records: seq<Auth.Record>,
                        logs: seq<Log>)
    requires WellFormed(env, request.identity, logs)
    ensures
      var r := Respond(env, wire, limits, request, records, logs);
      var known := CursorMap(request.cursors);
      IsDelta(r) ==>
        && CursorsAccepted(env, request.cursors, logs)
        && SlicesNext(known, logs, r.deviceLogs)
        && (r.continuation.None? ==>
              forall d :: StartAt(known, d) + |Slice(r.deviceLogs, d)| == |LogOf(logs, d)|)
        && (r.continuation.Some? ==>
              && Total(r.deviceLogs) >= 1
              && CursorMap(r.continuation.value) == AddGroups(env, known, r.deviceLogs)
              && forall d :: StartAt(CursorMap(r.continuation.value), d) ==
                             StartAt(known, d) + |Slice(r.deviceLogs, d)|)
  {
    hide WellFormed, Delta, CursorMap, CursorsAccepted, StartsInRange, NextSlice, LogOf, Slice, StartAt, Total,
         AddGroups, CursorList, HasLog, AcceptedMap, OneDeviceEach;
    var r := Respond(env, wire, limits, request, records, logs);
    var known := CursorMap(request.cursors);
    if IsDelta(r) {
      FullIsNotDelta(RequiredVersion(logs), request.maxOperationVersion, records, logs);
      NegotiatedAccepts(env, request, logs);
      AcceptedStarts(env, request.identity, request.cursors, logs);
      AcceptedAsMap(env, request.identity, request.cursors, logs);
      var sorted := Sort(logs, LogKey);
      SortedLogs(env, request.identity, logs);
      forall d
        ensures NextSlice(known, LogOf(logs, d), Slice(r.deviceLogs, d), d)
        ensures r.continuation.None? ==> StartAt(known, d) + |Slice(r.deviceLogs, d)| == |LogOf(logs, d)|
        ensures r.continuation.Some? ==>
          OneDeviceEach(r.deviceLogs) && r.continuation.value == CursorList(AddGroups(env, known, r.deviceLogs))
      {
        SortingKeepsLogs(env, request.identity, logs, d);
        KnownHasLog(env, known, logs, d);
        DeltaSlices(env, wire, limits, request, RequiredVersion(logs), records, sorted, d);
      }
      DeltaProgress(env, wire, limits, request, RequiredVersion(logs), records, sorted);
      if r.continuation.Some? {
        SelfGrows(logs);
        var someone: Str := [];
        assert NextSlice(known, LogOf(logs, someone), Slice(r.deviceLogs, someone), someone);
        AdvancedCursors(env, request.identity, known, logs, r.deviceLogs, logs);
        AcceptedMapLabelled(env, AddGroups(env, known, r.deviceLogs), logs);
        CursorListRoundTrip(AddGroups(env, known, r.deviceLogs));
      }
    }
  }

  lemma AcceptedMapLabelled(env: Env, m: map<Str, Cursor>, logs: seq<Log>)
    requires AcceptedMap(env, m, logs)
    ensures Labelled(m)
  {
  }

  lemma SelfGrows(logs: seq<Log>)
    ensures ProviderGrows(logs, logs)
  {
  }

  lemma KnownHasLog(env: Env, known: map<Str, Cursor>, logs: seq<Log>, d: Str)
    requires AcceptedMap(env, known, logs)
    ensures HasLog(logs, d) || d !in known
  {
    hide EntryHash;
  }

  /** Continuation cursors are always accepted, even by a provider that has grown
      in between. */
  lemma ContinuationAccepted(env: Env, wire: Wire, limits: Limits, request: Request, records: seq<Auth.Record>,
                             logs: seq<Log>, logs': seq<Log>)
    requires WellFormed(env, request.identity, logs) && ProviderGrows(logs, logs')
    requires Respond(env, wire, limits, request, records, logs).continuation.Some?
    ensures CursorsAccepted(env, Respond(env, wire, limits, request, records, logs).continuation.value, logs')
  {
    hide WellFormed, CursorMap, CursorsAccepted, Slice, StartAt, Total, AddGroups, CursorList, AcceptedMap,
         OneDeviceEach, SlicesNext, Delta, StartsInRange, ProviderGrows;
    var r := Respond(env, wire, limits, request, records, logs);
    var known := CursorMap(request.cursors);
    NegotiatedAccepts(env, request, logs);
    AcceptedStarts(env, request.identity, request.cursors, logs);
    DeltaProgress(env, wire, limits, request, RequiredVersion(logs), records, Sort(logs, LogKey));
    PageIsNextSlice(env, wire, limits, request, records, logs);
    AcceptedAsMap(env, request.identity, request.cursors, logs);
    SortedLogs(env, request.identity, logs);
    ContinuationShape(env, wire, limits, request, records, logs);
    AdvancedCursors(env, request.identity, known, logs, r.deviceLogs, logs');
    MapAccepted(env, AddGroups(env, known, r.deviceLogs), logs');
  }

  lemma ContinuationShape(env: Env, wire: Wire, limits: Limits, request: Request, records: seq<Auth.Record>,
                          logs: seq<Log>)
    requires WellFormed(env, request.identity, logs)
    requires Respond(env, wire, limits, request, records, logs).continuation.Some?
    ensures
      var r := Respond(env, wire, limits, request, records, logs);
      && OneDeviceEach(r.deviceLogs)
      && r.continuation.value == CursorList(AddGroups(env, CursorMap(request.cursors), r.deviceLogs))
  {
    hide WellFormed, CursorMap, CursorsAccepted, Slice, StartAt, Total, AddGroups, CursorList, AcceptedMap,
         OneDeviceEach, Delta, StartsInRange, NextSlice, LogOf, HasLog;
    NegotiatedAccepts(env, request, logs);
    AcceptedStarts(env, request.identity, request.cursors, logs);
    SortedLogs(env, request.identity, logs);
    AcceptedAsMap(env, request.identity, request.cursors, logs);
    var sorted := Sort(logs, LogKey);
    SortingKeepsLogs(env, request.identity, logs, []);
    KnownHasLog(env, CursorMap(request.cursors), logs, []);
    DeltaProgress(env, wire, limits, request, RequiredVersion(logs), records, sorted);
    DeltaSlices(env, wire, limits, request, RequiredVersion(logs), records, sorted, []);
  }
}
