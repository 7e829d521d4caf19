/** What merging a received page leaves, in the fields of the page and of the state
    before it, and what stays true over every run of pages. */
module RequesterMeaning {
  import opened Wrappers
  import opened ByteStrings
  import opened Crypto
  import opened Ordering
  import opened DeviceWriterLog
  import opened DeviceWriterMerge
  import opened HashChains
  import opened DeltaSync
  import opened DeltaServing
  import opened DeltaSession
  import opened DeltaRuns
  import opened Requester
  import opened SyncConvergence
  import opened SyncOutcome
  import opened SyncPages
  import Auth = IdentityAuthority
  import Meaning = MergeMeaning

  // ---- the authority ----

  ghost predicate Verifies(env: Env, identity: Str, records: seq<Auth.Record>)
  {
    records != [] && forall i :: 0 <= i < |records| ==> Auth.RecordFits(env, identity, records, i)
  }

  ghost function LastSequence(records: seq<Auth.Record>): nat
    requires records != []
  {
    records[|records| - 1].body.sequence
  }

  /** The chain a merge goes by: the cached one when it is ahead of what came, and
      what came otherwise. */
  ghost function Ruling(existing: Option<Cached>, records: seq<Auth.Record>): seq<Auth.Record>
    requires records != []
  {
    if existing.Some? && LastSequence(records) < existing.value.authoritySequence
    then existing.value.authorityRecords else records
  }

  lemma ChosenMeans(env: Env, identity: Str, existing: Option<Cached>, records: seq<Auth.Record>)
    ensures
      var chosen := ChooseAuthority(env, identity, existing, records);
      && (chosen.Ok? <==>
            Verifies(env, identity, records) && Verifies(env, identity, Ruling(existing, records)))
      && (chosen.Ok? ==>
            && chosen.value.0 == Ruling(existing, records)
            && Auth.ChainAuthority(env, identity, chosen.value.0) == Ok(chosen.value.1)
            && chosen.value.1.latestSequence == LastSequence(chosen.value.0))
      && (chosen.Err? ==> chosen.error.AuthorityInvalid?)
  {
    hide Auth.DevicesAfter, Auth.RecordFits;
    Auth.ChainVerifiesIff(env, identity, records);
    if existing.Some? { Auth.ChainVerifiesIff(env, identity, existing.value.authorityRecords); }
  }

  /** A merged state was made under the chain it keeps: that chain verifies, its last
      sequence is the state's, and the state says what the merge of the kept logs says
      under the authority it establishes. */
  ghost predicate Ruled(env: Env, identity: Str, c: Cached)
  {
    && Verifies(env, identity, c.authorityRecords)
    && c.authoritySequence == LastSequence(c.authorityRecords)
    && exists order :: Lists(c.deviceLogs, order) && SaysUnder(env, identity, c, order)
  }

  ghost predicate SaysUnder(env: Env, identity: Str, c: Cached, order: seq<Str>)
    requires Lists(c.deviceLogs, order)
  {
    var auth := Auth.ChainAuthority(env, identity, c.authorityRecords);
    && auth.Ok?
    && Meaning.Says(env, auth.value, LogsIn(c.deviceLogs, order), c.merged)
    && forall d :: d in c.deviceLogs ==> Meaning.Clean(env, auth.value, c.deviceLogs[d])
  }

  lemma MergedCleanly(env: Env, auth: Auth.Authority, acc: map<Str, Log>, order: seq<Str>)
    requires Lists(acc, order) && OutcomeOf(env, auth, LogsIn(acc, order)).Merged?
    ensures forall d :: d in acc ==> Meaning.Clean(env, auth, acc[d])
  {
    hide Meaning.Clean, MergeError, Headed, StateOf, AcceptedAll;
    var logs := LogsIn(acc, order);
    Meaning.FailureMeans(env, auth, logs, |logs|);
    forall d | d in acc ensures Meaning.Clean(env, auth, acc[d]) {
      assert d in multiset(order);
      var i :| 0 <= i < |order| && order[i] == d;
      assert logs[i] == acc[d];
    }
  }

  lemma RemergedIsRuled(env: Env, identity: Str, chosen: (seq<Auth.Record>, Auth.Authority), acc: map<Str, Log>,
                        order: seq<Str>, c: Cached)
    requires Lists(acc, order) && Remerges(env, chosen, acc, order, Ok(c))
    requires Verifies(env, identity, chosen.0) && Auth.ChainAuthority(env, identity, chosen.0) == Ok(chosen.1)
    requires chosen.1.latestSequence == LastSequence(chosen.0)
    ensures Ruled(env, identity, c) && c.authorityRecords == chosen.0 && c.deviceLogs == acc
  {
    hide Auth.ChainAuthority, Meaning.Says, Meaning.Clean, OutcomeOf;
    MergedCleanly(env, chosen.1, acc, order);
    Meaning.MergeSays(env, chosen.1, LogsIn(acc, order));
    assert SaysUnder(env, identity, c, order);
  }

  /** The logs end exactly at the heads: one head per log, at its last entry. */
  ghost predicate EndAt(env: Env, acc: map<Str, Log>, heads: seq<Cursor>)
    requires Stored(acc)
  {
    && (forall i, j :: 0 <= i < j < |heads| ==> heads[i].deviceId != heads[j].deviceId)
    && (forall d :: d in acc <==> exists h :: h in heads && h.deviceId == d)
    && forall h :: h in heads && h.deviceId in acc ==>
         var last := acc[h.deviceId][|acc[h.deviceId]| - 1].body;
         h.sequence == last.sequence && h.entryHash == env.digest(CanonicalBytes(last))
  }

  /** The map finds each cursor of the list under its device. */
  ghost predicate Indexes(m: map<Str, Cursor>, heads: seq<Cursor>)
  {
    && (forall d :: d in m ==> m[d] in heads && m[d].deviceId == d)
    && forall h :: h in heads ==> h.deviceId in m && m[h.deviceId] == h
  }

  lemma MapIndexes(heads: seq<Cursor>)
    requires DistinctDevices(heads)
    ensures Indexes(CursorMap(heads), heads)
  {
    hide CursorMap, DistinctDevices;
    forall d | d in CursorMap(heads) ensures CursorMap(heads)[d] in heads && CursorMap(heads)[d].deviceId == d {
      CursorMapMeans(heads, d);
    }
    forall h | h in heads ensures h.deviceId in CursorMap(heads) && CursorMap(heads)[h.deviceId] == h {
      ListedOnce(heads, h);
    }
  }

  /** The last entry of every log is at the cursor found for it. */
  ghost predicate LastsAt(env: Env, acc: map<Str, Log>, m: map<Str, Cursor>)
    requires Stored(acc)
  {
    forall d :: d in acc ==>
      && d in m
      && acc[d][|acc[d]| - 1].body.sequence == m[d].sequence
      && EntryHash(env, acc[d][|acc[d]| - 1]) == m[d].entryHash
  }

  lemma IndexedEnds(env: Env, acc: map<Str, Log>, m: map<Str, Cursor>, heads: seq<Cursor>)
    requires Stored(acc) && DistinctDevices(heads) && Indexes(m, heads)
    ensures EndAt(env, acc, heads) <==> acc.Keys == m.Keys && LastsAt(env, acc, m)
  {
    hide CanonicalBytes;
  }

  lemma ReachesMeans(env: Env, acc: map<Str, Log>, heads: seq<Cursor>)
    requires Stored(acc)
    ensures Reaches(env, acc, heads) <==> EndAt(env, acc, heads)
  {
    hide CursorMap, EntryHash;
    if DistinctDevices(heads) {
      var m := CursorMap(heads);
      CursorCount(heads);
      MapIndexes(heads);
      IndexedEnds(env, acc, m, heads);
      hide EndAt, Indexes;
      assert Reaches(env, acc, heads) <==> |acc| == |m| && LastsAt(env, acc, m);
      if Reaches(env, acc, heads) { SameKeys(acc, m); }
      assert |acc| == |acc.Keys| && |m| == |m.Keys|;
    }
  }

  lemma {:induction false} AccumulateErrors(env: Env, acc: map<Str, Log>, logs: seq<Log>)
    requires Stored(acc) && Accumulate(env, acc, logs).Err?
    ensures Accumulate(env, acc, logs).error.NoPredecessor? || Accumulate(env, acc, logs).error.NotContiguous?
  {
    hide Keep, EntryHash;
    if logs != [] && Accumulate(env, acc, logs[..|logs| - 1]).Err? { AccumulateErrors(env, acc, logs[..|logs| - 1]); }
  }

  /** What a merged page leaves: the chain is the cached one when the received one ends
      before it and the received one otherwise; the state was made under that chain
      from the accumulated logs. */
  lemma MergeUses(env: Env, identity: Str, existing: Option<Cached>, records: seq<Auth.Record>, deviceLogs: seq<Log>,
                  syncVersion: U16, heads: seq<Cursor>, complete: bool, r: Result<Cached, SyncError>)
    requires Stored(HeldLogs(existing))
    requires Merges(env, identity, existing, records, deviceLogs, syncVersion, heads, complete, r)
    ensures r.Ok? ==>
      && Verifies(env, identity, records)
      && r.value.authorityRecords == Ruling(existing, records)
      && Ruled(env, identity, r.value)
      && Accumulate(env, HeldLogs(existing), deviceLogs) == Ok(r.value.deviceLogs)
      && Stored(r.value.deviceLogs)
      && (syncVersion >= 2 && complete ==> EndAt(env, r.value.deviceLogs, heads))
    ensures !Verifies(env, identity, records) ==> r.Err? && r.error.AuthorityInvalid?
    ensures r == Err(HeadsNotReached) ==> syncVersion >= 2 && complete
  {
    hide Auth.ChainAuthority, Auth.RecordFits, ChooseAuthority, Accumulate, OutcomeOf, Lists, Ruled, Reaches, EndAt;
    ChosenMeans(env, identity, existing, records);
    var chosen := ChooseAuthority(env, identity, existing, records);
    var acc := Accumulate(env, HeldLogs(existing), deviceLogs);
    if acc.Err? { AccumulateErrors(env, HeldLogs(existing), deviceLogs); }
    if r.Ok? {
      assert chosen.Ok? && acc.Ok?;
      ReachesMeans(env, acc.value, heads);
      var order :| Lists(acc.value, order) && Remerges(env, chosen.value, acc.value, order, r);
      RemergedIsRuled(env, identity, chosen.value, acc.value, order, r.value);
    }
  }

  /** A state never goes back to an older chain. */
  lemma AuthorityAdvances(env: Env, identity: Str, existing: Option<Cached>, records: seq<Auth.Record>,
                          deviceLogs: seq<Log>, syncVersion: U16, heads: seq<Cursor>, complete: bool,
                          r: Result<Cached, SyncError>)
    requires Stored(HeldLogs(existing))
    requires Merges(env, identity, existing, records, deviceLogs, syncVersion, heads, complete, r)
    requires r.Ok? && existing.Some? && Ruled(env, identity, existing.value)
    ensures existing.value.authoritySequence <= r.value.authoritySequence
    ensures r.value.authoritySequence >= LastSequence(records)
  {
    hide Merges, SaysUnder, Auth.RecordFits, Lists;
    MergeUses(env, identity, existing, records, deviceLogs, syncVersion, heads, complete, r);
  }

  /** Over every run of pages the authority sequence never decreases. */
  lemma {:induction false} AuthorityNeverDecreases(env: Env, identity: Str, existing: Option<Cached>, steps: seq<Step>,
                                                   results: seq<Result<Cached, SyncError>>, i: nat, j: nat)
    requires Follows(env, identity, existing, steps, results) && i <= j < |results| && results[j].Ok?
    ensures results[i].Ok? && results[i].value.authoritySequence <= results[j].value.authoritySequence
    ensures Ruled(env, identity, results[j].value)
    ensures existing.Some? && Ruled(env, identity, existing.value) ==>
      existing.value.authoritySequence <= results[j].value.authoritySequence
  {
    hide Merges, Ruled, Stored;
    var page := steps[j].response;
    assert PageMerges(env, identity, existing, steps, results, j);
    var before := Before(existing, results, j);
    MergeUses(env, identity, before, page.authorityRecords, page.deviceLogs, page.syncVersion, page.heads,
              page.continuation.None?, results[j]);
    if j > 0 { AuthorityNeverDecreases(env, identity, existing, steps, results, if i < j then i else j - 1, j - 1); }
    if before.Some? && Ruled(env, identity, before.value) {
      AuthorityAdvances(env, identity, before, page.authorityRecords, page.deviceLogs, page.syncVersion, page.heads,
                        page.continuation.None?, results[j]);
    }
  }

  // ---- the logs ----

  /** The end of one log is later than another's: by time, sequence, device, hash. */
  ghost predicate Later(env: Env, a: Entry, b: Entry)
  {
    || a.body.createdAt > b.body.createdAt
    || (a.body.createdAt == b.body.createdAt && a.body.sequence > b.body.sequence)
    || (a.body.createdAt == b.body.createdAt && a.body.sequence == b.body.sequence
        && Precedes(b.body.deviceId, a.body.deviceId))
    || (a.body.createdAt == b.body.createdAt && a.body.sequence == b.body.sequence
        && a.body.deviceId == b.body.deviceId
        && Precedes(env.digest(CanonicalBytes(b.body)), env.digest(CanonicalBytes(a.body))))
  }

  /** A log replaces another exactly when it is longer, or as long and ends later. */
  lemma NewerMeans(env: Env, candidate: Log, known: Log)
    requires candidate != [] && known != []
    ensures Newer(env, candidate, known) <==>
      || |candidate| > |known|
      || (|candidate| == |known| && Later(env, candidate[|candidate| - 1], known[|known| - 1]))
  {
    hide KeyLe, CanonicalBytes, AgeKey, Later;
    LaterMeans(env, candidate[|candidate| - 1], known[|known| - 1]);
  }

  lemma LaterMeans(env: Env, a: Entry, b: Entry)
    ensures !KeyLe(AgeKey(env, a), AgeKey(env, b)) <==> Later(env, a, b)
  {
    hide KeyLe, CanonicalBytes, Precedes;
    var x, y := env.digest(CanonicalBytes(a.body)), env.digest(CanonicalBytes(b.body));
    var u, v: Key := [a.body.deviceId, x], [b.body.deviceId, y];
    var s, t: Key := [[a.body.sequence]] + u, [[b.body.sequence]] + v;
    assert AgeKey(env, a) == [[a.body.createdAt]] + s && AgeKey(env, b) == [[b.body.createdAt]] + t;
    KeyStep([a.body.createdAt], [b.body.createdAt], s, t);
    KeyStep([a.body.sequence], [b.body.sequence], u, v);
    NumberPrecedes(a.body.createdAt, b.body.createdAt);
    NumberPrecedes(a.body.sequence, b.body.sequence);
    LastFields(a.body.deviceId, b.body.deviceId, x, y);
    Trichotomy(a.body.deviceId, b.body.deviceId);
    Trichotomy(x, y);
  }

  lemma Trichotomy(a: seq<int>, b: seq<int>)
    ensures Precedes(a, b) <==> a != b && !Precedes(b, a)
  {
    LexMeans(a, b);
    LexMeans(b, a);
    LexTotal(a, b);
    assert !Precedes(a, a);
    if Precedes(a, b) && Precedes(b, a) { LexAntisymmetric(a, b); }
  }

  /** The received log goes on where the held one ends. */
  ghost predicate Continues(env: Env, held: Log, log: Log)
    requires held != [] && log != []
  {
    var last := held[|held| - 1].body;
    log[0].body.sequence == last.sequence + 1 && log[0].body.previousHash == Some(env.digest(CanonicalBytes(last)))
  }

  /** One received log changes its own device's log at most: a log from the beginning
      stands for itself, any other must continue the held one and is appended to it,
      and the outcome replaces what is held only if it is newer. */
  lemma AbsorbMeans(env: Env, acc: map<Str, Log>, log: Log)
    requires Stored(acc) && log != []
    ensures
      var d, r := log[0].body.deviceId, Absorb(env, acc, log);
      var first := log[0].body.sequence == 0;
      && (r.Ok? <==> first || (d in acc && Continues(env, acc[d], log)))
      && (r.Err? ==> r.error == if d in acc then NotContiguous(d) else NoPredecessor(d))
      && (r.Ok? ==>
            && d in r.value && r.value - {d} == acc - {d}
            && (d !in acc ==> r.value[d] == log)
            && (d in acc && !first ==> r.value[d] == acc[d] + log)
            && (d in acc && first ==>
                  r.value[d] == if |log| > |acc[d]|
                                   || (|log| == |acc[d]| && Later(env, log[|log| - 1], acc[d][|acc[d]| - 1]))
                                then log else acc[d]))
  {
    hide Later, Newer, CanonicalBytes;
    var d := log[0].body.deviceId;
    if d in acc {
      NewerMeans(env, log, acc[d]);
      NewerMeans(env, acc[d] + log, acc[d]);
    }
  }

  ghost predicate NoShorter(before: map<Str, Log>, after: map<Str, Log>)
  {
    forall d :: d in before ==> d in after && |before[d]| <= |after[d]|
  }

  /** No page shortens or drops a held log. */
  lemma {:induction false} AccumulateGrows(env: Env, acc: map<Str, Log>, logs: seq<Log>)
    requires Stored(acc) && Accumulate(env, acc, logs).Ok?
    ensures NoShorter(acc, Accumulate(env, acc, logs).value)
  {
    hide Absorb, Stored, Later, Continues;
    if logs != [] {
      var n := |logs| - 1;
      AccumulateGrows(env, acc, logs[..n]);
      var acc' := Accumulate(env, acc, logs[..n]).value;
      AbsorbGrows(env, acc', logs[n]);
    }
  }

  lemma AbsorbGrows(env: Env, acc: map<Str, Log>, log: Log)
    requires Stored(acc) && Absorb(env, acc, log).Ok?
    ensures NoShorter(acc, Absorb(env, acc, log).value)
  {
    hide Newer, EntryHash;
    if log != [] && log[0].body.deviceId in acc { NewerMeans(env, log, acc[log[0].body.deviceId]); }
  }

  /** Over every run of pages a held log never gets shorter, and every log kept is
      one device's clean chain under the authority kept with it. */
  lemma {:induction false} LogsNeverShrink(env: Env, identity: Str, existing: Option<Cached>, steps: seq<Step>,
                                           results: seq<Result<Cached, SyncError>>, i: nat, j: nat)
    requires Follows(env, identity, existing, steps, results) && i <= j < |results| && results[j].Ok?
    ensures results[i].Ok? && NoShorter(results[i].value.deviceLogs, results[j].value.deviceLogs)
    ensures NoShorter(HeldLogs(existing), results[j].value.deviceLogs)
    ensures Ruled(env, identity, results[j].value)
  {
    hide Merges, Ruled, Stored, Accumulate;
    var page := steps[j].response;
    assert PageMerges(env, identity, existing, steps, results, j);
    var before := Before(existing, results, j);
    MergeUses(env, identity, before, page.authorityRecords, page.deviceLogs, page.syncVersion, page.heads,
              page.continuation.None?, results[j]);
    AccumulateGrows(env, HeldLogs(before), page.deviceLogs);
    if j > 0 { LogsNeverShrink(env, identity, existing, steps, results, if i < j then i else j - 1, j - 1); }
  }

  // ---- the completeness check ----

  /** What the requester holds: one well-shaped log per device. */
  ghost predicate Shaped(env: Env, identity: Str, acc: map<Str, Log>)
  {
    Stored(acc) && forall d :: d in acc ==> ShapeOk(env, identity, acc[d]) && DeviceOf(acc[d]) == d
  }

  ghost predicate NoCollisions(env: Env, acc: map<Str, Log>, logs: seq<Log>)
  {
    forall d, log :: d in acc && log in logs ==> CollisionFree(env, [acc[d], log])
  }

  lemma SameEnd(env: Env, identity: Str, a: Log, b: Log)
    requires ShapeOk(env, identity, a) && ShapeOk(env, identity, b) && CollisionFree(env, [a, b])
    requires a != [] && b != [] && |a| == |b| && EntryHash(env, a[|a| - 1]) == EntryHash(env, b[|b| - 1])
    ensures SameBodies(a, b)
  {
    hide ShapeOk, CollisionFree, EntryHash;
    forall i | 0 <= i < |a| ensures a[i].body == b[i].body { LogsAgree(env, identity, a, b, |a| - 1, i); }
  }

  lemma ReachedAt(env: Env, identity: Str, acc: map<Str, Log>, logs: seq<Log>, d: Str)
    requires WellFormed(env, identity, logs) && Shaped(env, identity, acc) && NoCollisions(env, acc, logs)
    requires d in acc && Reaches(env, acc, HeadsOf(env, Sort(logs, LogKey)))
    ensures HasLog(logs, d) && SameBodies(acc[d], LogOf(logs, d))
  {
    hide WellFormed, ShapeOk, HeadsOf, CursorMap, Sort, SameBodies, CollisionFree, EntryHash;
    var sorted := Sort(logs, LogKey);
    SortedLogs(env, identity, logs);
    HeadAt(env, identity, sorted, d);
    SortingKeepsLogs(env, identity, logs, d);
    var log := LogOf(logs, d);
    assert log in logs;
    ShapeOfMember(env, identity, logs, log);
    DeviceThroughout(env, identity, log, |log| - 1);
    DeviceThroughout(env, identity, acc[d], |acc[d]| - 1);
    SameEnd(env, identity, acc[d], log);
  }

  /** The completeness check is sound: well-shaped logs that end at the heads a
      provider advertises are that provider's logs, entry for entry. */
  lemma ReachedIsCaught(env: Env, identity: Str, acc: map<Str, Log>, logs: seq<Log>)
    requires WellFormed(env, identity, logs) && Shaped(env, identity, acc) && NoCollisions(env, acc, logs)
    ensures Reaches(env, acc, HeadsOf(env, Sort(logs, LogKey))) <==> Caught(acc, logs)
  {
    hide WellFormed, Shaped, NoCollisions, Reaches, SameBodies, Sort, HeadsOf;
    var heads := HeadsOf(env, Sort(logs, LogKey));
    ShapedStored(env, identity, acc);
    if Caught(acc, logs) { CaughtReaches(env, identity, acc, logs); }
    if Reaches(env, acc, heads) {
      ReachedDevices(env, identity, acc, logs);
      forall d ensures SameBodies(Held(acc, d), LogOf(logs, d)) {
        if d in acc { ReachedAt(env, identity, acc, logs, d); } else { NothingSame(); }
      }
    }
  }

  lemma NothingSame()
    ensures SameBodies([], [])
  {
  }

  lemma ShapedStored(env: Env, identity: Str, acc: map<Str, Log>)
    requires Shaped(env, identity, acc)
    ensures Stored(acc)
  {
  }

  lemma ReachedDevices(env: Env, identity: Str, acc: map<Str, Log>, logs: seq<Log>)
    requires WellFormed(env, identity, logs) && Stored(acc) && Reaches(env, acc, HeadsOf(env, Sort(logs, LogKey)))
    ensures forall d :: d in acc <==> HasLog(logs, d)
  {
    hide WellFormed, CursorMap, Sort, HeadsOf, EntryHash;
    var heads := HeadsOf(env, Sort(logs, LogKey));
    SortedLogs(env, identity, logs);
    CursorCount(heads);
    SameKeys(acc, CursorMap(heads));
    forall d ensures d in acc <==> HasLog(logs, d) {
      HeadAt(env, identity, Sort(logs, LogKey), d);
      SortingKeepsLogs(env, identity, logs, d);
    }
  }

  lemma SameKeys<V, W>(a: map<Str, V>, b: map<Str, W>)
    requires |a| == |b| && forall d :: d in a ==> d in b
    ensures a.Keys == b.Keys
  {
    assert |a.Keys| == |b.Keys| && a.Keys <= b.Keys;
    if a.Keys != b.Keys {
      var d :| d in b.Keys && d !in a.Keys;
      SubsetSize(a.Keys, b.Keys - {d});
    }
  }

  lemma {:induction false} SubsetSize<T>(a: set<T>, b: set<T>)
    requires a <= b
    ensures |a| <= |b|
  {
    if a != {} {
      var x :| x in a;
      SubsetSize(a - {x}, b - {x});
    }
  }
}
