/** A finished delta session leaves the requester with the provider's state. */
module SyncConvergence {
  import opened Wrappers
  import opened ByteStrings
  import opened Crypto
  import opened Ordering
  import opened DeviceWriterLog
  import opened DeviceWriterMerge
  import opened MergeCausality
  import opened MergeOrder
  import opened HashChains
  import opened DeltaSync
  import opened DeltaServing
  import opened DeltaSession
  import opened DeltaRuns
  import opened Requester
  import Auth = IdentityAuthority

  // ---- the merge sees bodies only ----

  /** The same entries, up to signatures. */
  ghost predicate SameBodies(a: Log, b: Log)
  {
    |a| == |b| && forall i :: 0 <= i < |a| ==> a[i].body == b[i].body
  }

  lemma {:induction false} AcceptedSame(auth: Auth.Authority, a: Log, b: Log)
    requires SameBodies(a, b)
    ensures SameBodies(AcceptedIn(auth, a), AcceptedIn(auth, b))
  {
    hide Verdict;
    if a != [] {
      var n := |a| - 1;
      AcceptedSame(auth, a[..n], b[..n]);
      SameVerdict(auth, a[n], b[n]);
    }
  }

  lemma {:induction false} RejectedSame(env: Env, auth: Auth.Authority, a: Log, b: Log)
    requires SameBodies(a, b)
    ensures RejectedIn(env, auth, a) == RejectedIn(env, auth, b)
  {
    hide Verdict, EntryHash;
    if a != [] {
      var n := |a| - 1;
      RejectedSame(env, auth, a[..n], b[..n]);
      SameVerdict(auth, a[n], b[n]);
      SameBodySameHash(env, a[n], b[n]);
    }
  }

  lemma {:induction false} BranchSame(env: Env, a: Branch, b: Branch, p: Str)
    requires SameBodies(a, b)
    ensures Candidates(env, a, p) == Candidates(env, b, p)
    ensures SupersededIn(env, a, p) == SupersededIn(env, b, p)
    ensures LastWrite(env, a, p) == LastWrite(env, b, p)
    ensures Appends(env, a, p) == Appends(env, b, p)
  {
    hide EntryHash;
    if a != [] {
      var n := |a| - 1;
      BranchSame(env, a[..n], b[..n], p);
      SameBodySameHash(env, a[n], b[n]);
    }
  }

  ghost predicate SameBodiesAll(a: seq<Log>, b: seq<Log>)
  {
    |a| == |b| && forall i :: 0 <= i < |a| ==> SameBodies(a[i], b[i])
  }

  lemma {:induction false} BranchesSame(env: Env, a: seq<Branch>, b: seq<Branch>, p: Str)
    requires SameBodiesAll(a, b)
    ensures CandidatesAll(env, a, p) == CandidatesAll(env, b, p)
    ensures SupersededAll(env, a, p) == SupersededAll(env, b, p)
    ensures AppendsAll(env, a, p) == AppendsAll(env, b, p)
  {
    hide SameBodies, Candidates, SupersededIn, Appends, LastWrite;
    if a != [] {
      BranchesSame(env, a[..|a| - 1], b[..|b| - 1], p);
      BranchSame(env, a[|a| - 1], b[|b| - 1], p);
    }
  }

  lemma {:induction false} RejectedAllSame(env: Env, auth: Auth.Authority, a: seq<Log>, b: seq<Log>)
    requires SameBodiesAll(a, b)
    ensures RejectedAll(env, auth, a) == RejectedAll(env, auth, b)
  {
    hide SameBodies, RejectedIn;
    if a != [] {
      RejectedAllSame(env, auth, a[..|a| - 1], b[..|b| - 1]);
      RejectedSame(env, auth, a[|a| - 1], b[|b| - 1]);
    }
  }

  /** Two copies of the same histories, whatever their signatures, merge to the
      same state once both verify. */
  lemma SameBodiesMergeAlike(env: Env, auth: Auth.Authority, a: seq<Log>, b: seq<Log>)
    requires SameBodiesAll(a, b)
    requires MergeError(env, auth, a, |a|).None? && MergeError(env, auth, b, |b|).None?
    ensures OutcomeOf(env, auth, a) == OutcomeOf(env, auth, b)
  {
    hide SameBodies, AcceptedIn, AlikeAt, Headed, Winners, Conflicts, SortedAppends, Sort, MergeError;
    var ba, bb := AcceptedAll(auth, a), AcceptedAll(auth, b);
    forall i | 0 <= i < |ba| ensures SameBodies(ba[i], bb[i]) { AcceptedSame(auth, a[i], b[i]); }
    RejectedAllSame(env, auth, a, b);
    forall p ensures AlikeAt(env, ba, bb, p) { AlikeFromBodies(env, ba, bb, p); }
    MergeAlike(env, ba, bb);
  }

  lemma AlikeFromBodies(env: Env, a: seq<Branch>, b: seq<Branch>, p: Str)
    requires SameBodiesAll(a, b)
    ensures AlikeAt(env, a, b, p)
  {
    hide SameBodiesAll, CandidatesAll, SupersededAll, AppendsAll, WrittenPaths, AppendedPaths, Sort;
    BranchesSame(env, a, b, p);
    CandidatesNonEmpty(env, a, p);
    CandidatesNonEmpty(env, b, p);
    AppendsNonEmpty(env, a, p);
    AppendsNonEmpty(env, b, p);
  }

  // ---- what the requester holds ----

  function Held(acc: map<Str, Log>, d: Str): Log
  {
    if d in acc then acc[d] else []
  }

  /** Every log the requester holds is a verified copy of a prefix of the
      provider's. */
  ghost predicate BehindAt(acc: map<Str, Log>, logs: seq<Log>, d: Str)
  {
    var held, log := Held(acc, d), LogOf(logs, d);
    |held| <= |log| && SameBodies(held, log[..|held|])
  }

  ghost predicate Behind(acc: map<Str, Log>, logs: seq<Log>)
  {
    Stored(acc) && forall d :: BehindAt(acc, logs, d)
  }

  /** The cursors a requester sends: the last entry of each log it holds. */
  function HeadCursors(env: Env, acc: map<Str, Log>): map<Str, Cursor>
    requires Stored(acc)
  {
    map d | d in acc :: FromEntry(env, acc[d][|acc[d]| - 1])
  }

  /** When the provider accepts those cursors, the two sides' logs agree on every
      body the requester has. */
  lemma AcceptedMeansBehind(env: Env, identity: Str, acc: map<Str, Log>, logs: seq<Log>)
    requires WellFormed(env, identity, logs) && Stored(acc)
    requires forall d :: d in acc ==> ShapeOk(env, identity, acc[d]) && DeviceOf(acc[d]) == d
    requires forall d :: d in acc ==> CollisionFree(env, [acc[d], LogOf(logs, d)])
    requires AcceptedMap(env, HeadCursors(env, acc), logs)
    ensures Behind(acc, logs)
  {
    hide WellFormed, ShapeOk, CollisionFree, EntryHash;
    forall d ensures BehindAt(acc, logs, d) {
      if d in acc {
        var held, log := acc[d], LogOf(logs, d);
        var n := |held| - 1;
        DeviceThroughout(env, identity, held, n);
        assert AcceptedBy(env, HeadCursors(env, acc)[d], log);
        AcceptedInLogs(logs, d);
        ShapeOfMember(env, identity, logs, log);
        forall i | 0 <= i <= n ensures held[i].body == log[i].body {
          LogsAgree(env, identity, held, log, n, i);
        }
      }
    }
  }

  lemma AcceptedInLogs(logs: seq<Log>, d: Str)
    requires LogOf(logs, d) != []
    ensures LogOf(logs, d) in logs
  {
  }

  // ---- absorbing a page ----

  /** Appending the next stretch of the provider's log to a held prefix. */
  lemma SliceSameBodies(held: Log, log: Log, g: Log)
    requires |held| + |g| <= |log| && SameBodies(held, log[..|held|])
    requires g == log[|held|..|held| + |g|]
    ensures SameBodies(held + g, log[..|held| + |g|])
  {
    assert log[..|held| + |g|] == log[..|held|] + g;
  }

  lemma LastBody(held: Log, log: Log)
    requires 0 < |held| <= |log| && SameBodies(held, log[..|held|])
    ensures held[|held| - 1].body == log[|held| - 1].body
  {
    assert log[..|held|][|held| - 1] == log[|held| - 1];
  }

  lemma AbsorbNext(env: Env, identity: Str, acc: map<Str, Log>, log: Log, g: Log, d: Str)
    requires Stored(acc) && ShapeOk(env, identity, log) && DeviceOf(log) == d && g != []
    requires
      var held := Held(acc, d);
      && |held| + |g| <= |log| && SameBodies(held, log[..|held|])
      && g == log[|held|..|held| + |g|]
    ensures Absorb(env, acc, g) == Ok(acc[d := Held(acc, d) + g])
    ensures SameBodies(Held(acc, d) + g, log[..|Held(acc, d)| + |g|])
  {
    hide ShapeOk, EntryHash;
    var held := Held(acc, d);
    var n := |held|;
    SliceSameBodies(held, log, g);
    hide SameBodies;
    assert g[0] == log[n];
    ShapeFacts(env, identity, log, n);
    if n == 0 {
      assert held + g == g;
    } else {
      LastBody(held, log);
      ShapeFacts(env, identity, log, n - 1);
      SameBodySameHash(env, held[n - 1], log[n - 1]);
    }
  }

  /** The requester after the first k groups of a page. */
  ghost predicate Absorbed(acc: map<Str, Log>, acc': map<Str, Log>, groups: seq<Log>)
  {
    Stored(acc') && forall d :: Held(acc', d) == Held(acc, d) + Slice(groups, d)
  }

  lemma {:induction false} SlicePrefix(groups: seq<Log>, k: nat, d: Str)
    requires k <= |groups|
    ensures Slice(groups[..k], d) <= Slice(groups, d)
  {
    if k == |groups| {
      assert groups[..k] == groups;
    } else {
      var n := |groups| - 1;
      SlicePrefix(groups[..n], k, d);
      assert groups[..n][..k] == groups[..k];
    }
  }

  lemma SliceStep(groups: seq<Log>, k: nat, d: Str)
    requires k < |groups|
    ensures Slice(groups[..k + 1], d) ==
            Slice(groups[..k], d) + if groups[k] != [] && DeviceOf(groups[k]) == d then groups[k] else []
  {
    assert groups[..k + 1][..k] == groups[..k];
  }

  lemma NextStretch(held: Log, before: Log, g: Log, part: Log, log: Log)
    requires |held| + |part| <= |log| && part == log[|held|..|held| + |part|]
    requires before + g <= part && SameBodies(held, log[..|held|])
    ensures |held + before| + |g| <= |log|
    ensures SameBodies(held + before, log[..|held + before|])
    ensures g == log[|held + before|..|held + before| + |g|]
  {
    var s, n := |held|, |before|;
    assert before == part[..n] == log[s..s + n];
    JoinBodies(held, before, log);
    assert forall k :: 0 <= k < |g| ==> g[k] == (before + g)[n + k] == part[n + k] == log[s + n + k];
  }

  /** The group after k is the next stretch for its device. */
  lemma GroupIsNext(acc: map<Str, Log>, acc': map<Str, Log>, log: Log, groups: seq<Log>, k: nat, d: Str)
    requires k < |groups| && groups[k] != [] && DeviceOf(groups[k]) == d
    requires Held(acc', d) == Held(acc, d) + Slice(groups[..k], d)
    requires
      var s, part := |Held(acc, d)|, Slice(groups, d);
      s + |part| <= |log| && part == log[s..s + |part|] && SameBodies(Held(acc, d), log[..s])
    ensures
      var held, g := Held(acc', d), groups[k];
      && |held| + |g| <= |log| && SameBodies(held, log[..|held|])
      && g == log[|held|..|held| + |g|]
  {
    hide Slice, SameBodies;
    SlicePrefix(groups, k + 1, d);
    SliceStep(groups, k, d);
    NextStretch(Held(acc, d), Slice(groups[..k], d), groups[k], Slice(groups, d), log);
  }

  ghost predicate PageFor(env: Env, acc: map<Str, Log>, logs: seq<Log>, groups: seq<Log>)
    requires Stored(acc)
  {
    && OneDeviceEach(groups)
    && (forall k :: 0 <= k < |groups| ==> groups[k] != [] && HasLog(logs, DeviceOf(groups[k])))
    && SlicesNext(HeadCursors(env, acc), logs, groups)
  }

  /** The cursors' positions are the lengths held. */
  lemma HeldLength(env: Env, acc: map<Str, Log>, logs: seq<Log>, d: Str)
    requires Behind(acc, logs)
    requires d in acc ==> acc[d][|acc[d]| - 1].body.sequence == |acc[d]| - 1
    ensures StartAt(HeadCursors(env, acc), d) == |Held(acc, d)|
  {
    hide EntryHash;
  }

  lemma HeldSequence(env: Env, identity: Str, acc: map<Str, Log>, logs: seq<Log>, d: Str)
    requires WellFormed(env, identity, logs) && Behind(acc, logs) && d in acc
    ensures acc[d][|acc[d]| - 1].body.sequence == |acc[d]| - 1
    ensures acc[d][|acc[d]| - 1].body.deviceId == d
    ensures HasLog(logs, d)
  {
    hide WellFormed, ShapeOk, SameBodies;
    assert BehindAt(acc, logs, d);
    var held, log := acc[d], LogOf(logs, d);
    var n := |held| - 1;
    LastBody(held, log);
    AcceptedInLogs(logs, d);
    ShapeOfMember(env, identity, logs, log);
    DeviceThroughout(env, identity, log, n);
  }

  lemma {:induction false} AbsorbPage(env: Env, identity: Str, acc: map<Str, Log>, logs: seq<Log>, groups: seq<Log>,
                                      k: nat)
    requires WellFormed(env, identity, logs) && Behind(acc, logs) && PageFor(env, acc, logs, groups)
    requires k <= |groups|
    ensures Accumulate(env, acc, groups[..k]).Ok?
    ensures Absorbed(acc, Accumulate(env, acc, groups[..k]).value, groups[..k])
  {
    hide WellFormed, Absorb, ShapeOk, NextSlice, SameBodies, Slice, EntryHash, OneDeviceEach;
    if k == 0 {
      NothingAbsorbed(acc, groups);
    } else {
      AbsorbPage(env, identity, acc, logs, groups, k - 1);
      var acc' := Accumulate(env, acc, groups[..k - 1]).value;
      assert groups[..k][..k - 1] == groups[..k - 1];
      AbsorbGroup(env, identity, acc, acc', logs, groups, k - 1);
      var g := groups[k - 1];
      AbsorbedMore(acc, acc', groups, k - 1, acc'[DeviceOf(g) := Held(acc', DeviceOf(g)) + g]);
    }
  }

  lemma NothingAbsorbed(acc: map<Str, Log>, groups: seq<Log>)
    requires Stored(acc)
    ensures Absorbed(acc, acc, groups[..0])
  {
    forall d ensures Held(acc, d) == Held(acc, d) + Slice(groups[..0], d) { }
  }

  lemma AbsorbGroup(env: Env, identity: Str, acc: map<Str, Log>, acc': map<Str, Log>, logs: seq<Log>,
                    groups: seq<Log>, k: nat)
    requires WellFormed(env, identity, logs) && Behind(acc, logs) && PageFor(env, acc, logs, groups)
    requires k < |groups| && Absorbed(acc, acc', groups[..k])
    ensures
      var d := DeviceOf(groups[k]);
      Absorb(env, acc', groups[k]) == Ok(acc'[d := Held(acc', d) + groups[k]])
  {
    hide WellFormed, Absorb, ShapeOk, SameBodies, Slice, EntryHash, OneDeviceEach, HeadCursors;
    var d := DeviceOf(groups[k]);
    var log := LogOf(logs, d);
    ShapeOfMember(env, identity, logs, log);
    assert BehindAt(acc, logs, d);
    assert NextSlice(HeadCursors(env, acc), log, Slice(groups, d), d);
    if d in acc { HeldSequence(env, identity, acc, logs, d); }
    HeldLength(env, acc, logs, d);
    GroupIsNext(acc, acc', log, groups, k, d);
    AbsorbNext(env, identity, acc', log, groups[k], d);
  }

  lemma AbsorbedMore(acc: map<Str, Log>, acc': map<Str, Log>, groups: seq<Log>, k: nat, acc'': map<Str, Log>)
    requires k < |groups| && groups[k] != [] && Absorbed(acc, acc', groups[..k])
    requires
      var d := DeviceOf(groups[k]);
      acc'' == acc'[d := Held(acc', d) + groups[k]]
    ensures Absorbed(acc, acc'', groups[..k + 1])
  {
    hide Slice, DeviceOf;
    var g := groups[k];
    forall d ensures Held(acc'', d) == Held(acc, d) + Slice(groups[..k + 1], d) {
      assert Held(acc', d) == Held(acc, d) + Slice(groups[..k], d);
      SliceStep(groups, k, d);
    }
  }

  /** A page absorbed in full: it is accepted, the requester stays behind the
      provider by exactly what is left, and the cursors it would send next are the
      continuation's. */
  lemma PageAbsorbed(env: Env, identity: Str, acc: map<Str, Log>, logs: seq<Log>, groups: seq<Log>)
    requires WellFormed(env, identity, logs) && Behind(acc, logs) && PageFor(env, acc, logs, groups)
    ensures Accumulate(env, acc, groups).Ok?
    ensures
      var acc' := Accumulate(env, acc, groups).value;
      && Absorbed(acc, acc', groups) && Behind(acc', logs)
      && HeadCursors(env, acc') == AddGroups(env, HeadCursors(env, acc), groups)
  {
    hide WellFormed, Absorbed, Behind, PageFor, HeadCursors, AddGroups;
    BehindStored(acc, logs);
    AbsorbPage(env, identity, acc, logs, groups, |groups|);
    assert groups[..|groups|] == groups;
    var acc' := Accumulate(env, acc, groups).value;
    StillBehind(env, identity, acc, acc', logs, groups);
    CursorsAfter(env, identity, acc, acc', logs, groups);
  }

  lemma StillBehind(env: Env, identity: Str, acc: map<Str, Log>, acc': map<Str, Log>, logs: seq<Log>, groups: seq<Log>)
    requires WellFormed(env, identity, logs) && Behind(acc, logs) && PageFor(env, acc, logs, groups)
    requires Absorbed(acc, acc', groups)
    ensures Behind(acc', logs)
  {
    hide WellFormed, Slice, EntryHash, OneDeviceEach, HeadCursors, SameBodies;
    forall d ensures BehindAt(acc', logs, d) {
      assert BehindAt(acc, logs, d);
      var held, log, part := Held(acc, d), LogOf(logs, d), Slice(groups, d);
      assert NextSlice(HeadCursors(env, acc), log, part, d);
      if d in acc { HeldSequence(env, identity, acc, logs, d); }
      HeldLength(env, acc, logs, d);
      JoinBodies(held, part, log);
      assert Held(acc', d) == held + part;
    }
  }

  lemma JoinBodies(held: Log, part: Log, log: Log)
    requires |held| + |part| <= |log| && SameBodies(held, log[..|held|])
    requires part == log[|held|..|held| + |part|]
    ensures SameBodies(held + part, log[..|held| + |part|])
  {
    assert log[..|held| + |part|] == log[..|held|] + part;
  }

  lemma CursorsAfter(env: Env, identity: Str, acc: map<Str, Log>, acc': map<Str, Log>, logs: seq<Log>, groups: seq<Log>)
    requires WellFormed(env, identity, logs) && Behind(acc, logs) && PageFor(env, acc, logs, groups)
    requires Absorbed(acc, acc', groups)
    ensures HeadCursors(env, acc') == AddGroups(env, HeadCursors(env, acc), groups)
  {
    hide WellFormed, Slice, EntryHash, SameBodies, AddGroups, BehindAt, OneDeviceEach, SlicesNext, HeadCursors;
    var next := AddGroups(env, HeadCursors(env, acc), groups);
    forall d
      ensures d in HeadCursors(env, acc') <==> d in next
      ensures d in next ==> HeadCursors(env, acc')[d] == next[d]
    {
      AddGroupsAt(env, HeadCursors(env, acc), groups, d);
      assert Held(acc', d) == Held(acc, d) + Slice(groups, d);
      HeadAfter(env, acc, acc', Slice(groups, d), d);
    }
  }

  /** A device's head cursor once its part of a page is in. */
  lemma HeadAfter(env: Env, acc: map<Str, Log>, acc': map<Str, Log>, part: Log, d: Str)
    requires Stored(acc) && Stored(acc') && Held(acc', d) == Held(acc, d) + part
    ensures d in HeadCursors(env, acc') <==> d in HeadCursors(env, acc) || part != []
    ensures part != [] ==> HeadCursors(env, acc')[d] == FromEntry(env, part[|part| - 1])
    ensures part == [] && d in HeadCursors(env, acc) ==> HeadCursors(env, acc')[d] == HeadCursors(env, acc)[d]
  {
    hide FromEntry;
    var held := Held(acc, d);
    if part == [] { assert held + part == held; }
    else { assert (held + part)[|held + part| - 1] == part[|part| - 1]; }
  }

  // ---- pages of a session ----

  lemma PageSuits(env: Env, wire: Wire, limits: Limits, request: Request, records: seq<Auth.Record>,
                  logs: seq<Log>, acc: map<Str, Log>)
    requires WellFormed(env, request.identity, logs) && Behind(acc, logs)
    requires CursorMap(request.cursors) == HeadCursors(env, acc)
    requires IsDelta(Respond(env, wire, limits, request, records, logs))
    ensures PageFor(env, acc, logs, Respond(env, wire, limits, request, records, logs).deviceLogs)
  {
    hide WellFormed, CursorMap, HeadCursors, Delta, SlicesNext, StartsInRange, CursorsAccepted, OneDeviceEach, Behind;
    PageIsNextSlice(env, wire, limits, request, records, logs);
    NegotiatedAccepts(env, request, logs);
    AcceptedStarts(env, request.identity, request.cursors, logs);
    SortedLogs(env, request.identity, logs);
    DeltaGroups(env, wire, limits, request, RequiredVersion(logs), records, Sort(logs, LogKey));
    var groups := Respond(env, wire, limits, request, records, logs).deviceLogs;
    forall k | 0 <= k < |groups| ensures groups[k] != [] && HasLog(logs, DeviceOf(groups[k])) {
      SortingKeepsLogs(env, request.identity, logs, DeviceOf(groups[k]));
    }
    BehindStored(acc, logs);
  }

  lemma BehindStored(acc: map<Str, Log>, logs: seq<Log>)
    requires Behind(acc, logs)
    ensures Stored(acc)
  {
  }

  lemma DeltaGroups(env: Env, wire: Wire, limits: Limits, request: Request, required: U16,
                    records: seq<Auth.Record>, sorted: seq<Log>)
    requires WellFormed(env, request.identity, sorted) && StartsInRange(CursorMap(request.cursors), sorted)
    ensures
      var r := Delta(env, wire, limits, request, required, records, sorted);
      IsDelta(r) ==>
        && OneDeviceEach(r.deviceLogs)
        && forall k :: 0 <= k < |r.deviceLogs| ==>
             r.deviceLogs[k] != [] && HasLog(sorted, DeviceOf(r.deviceLogs[k]))
  {
    hide WellFormed, StartsInRange, Suffixes, Groups, Fill, Count, CursorMap, AddGroups, CursorList, HeadsOf, Frame,
         OneDeviceEach;
    var known := CursorMap(request.cursors);
    var suffixes := Suffixes(known, sorted);
    var stop := Fill(wire, limits, Frame(required, request.cursors, HeadsOf(env, sorted), records, []), suffixes, 0, 0);
    PageGroupsOneDevice(env, request.identity, known, sorted, stop.i, stop.j);
    var groups := Groups(suffixes, stop.i, stop.j);
    forall k | 0 <= k < |groups| ensures groups[k] != [] && HasLog(sorted, DeviceOf(groups[k])) {
      GroupHasLog(env, request.identity, known, sorted, stop.i, stop.j, groups[k]);
    }
  }

  lemma GroupHasLog(env: Env, identity: Str, known: map<Str, Cursor>, sorted: seq<Log>, i: nat, j: nat, g: Log)
    requires WellFormed(env, identity, sorted) && StartsInRange(known, sorted)
    requires InPage(Suffixes(known, sorted), i, j) && g in Groups(Suffixes(known, sorted), i, j)
    ensures g != [] && HasLog(sorted, DeviceOf(g))
  {
    hide WellFormed, StartsInRange, Suffixes, Groups, Parts, NonEmpty;
    var parts := Parts(Suffixes(known, sorted), i, j);
    GroupsAreParts(Suffixes(known, sorted), i, j);
    NonEmptyMeans(parts, g);
    var k :| 0 <= k < |parts| && parts[k] == g;
    PartDevices(env, identity, known, sorted, i, j, k);
    assert sorted[k] in sorted;
  }
}
