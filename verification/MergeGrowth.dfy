/** How the merged view moves as logs grow: nothing superseded comes back, no
    append record is lost, and a write that observed every head of its path
    becomes the path's only head. */
module MergeGrowth {
  import opened Wrappers
  import opened ByteStrings
  import opened Crypto
  import opened Ordering
  import opened DeviceWriterLog
  import opened DeviceWriterMerge
  import opened MergeCausality
  import opened MergeOrder
  import Auth = IdentityAuthority

  // ---- growth in general ----

  /** Every old log is a prefix of the new log in its place; new logs may follow. */
  ghost predicate Grows(logs: seq<Log>, logs': seq<Log>)
  {
    |logs| <= |logs'| && forall i :: 0 <= i < |logs| ==> logs[i] <= logs'[i]
  }

  ghost predicate BranchesGrow(a: seq<Branch>, b: seq<Branch>)
  {
    |a| <= |b| && forall i :: 0 <= i < |a| ==> a[i] <= b[i]
  }

  lemma {:induction false} AcceptedPrefix(env: Env, auth: Auth.Authority, log: Log, n: nat, m: nat)
    requires n <= m <= |log|
    ensures AcceptedIn(auth, log[..n]) <= AcceptedIn(auth, log[..m])
  {
    hide Verdict, AcceptedIn, RejectedIn;
    if n < m {
      AcceptedPrefix(env, auth, log, n, m - 1);
      AcceptedStep(env, auth, log, m - 1);
    }
  }

  lemma AcceptedGrow(env: Env, auth: Auth.Authority, logs: seq<Log>, logs': seq<Log>)
    requires Grows(logs, logs')
    ensures BranchesGrow(AcceptedAll(auth, logs), AcceptedAll(auth, logs'))
  {
    hide AcceptedIn;
    forall i | 0 <= i < |logs| ensures AcceptedAll(auth, logs)[i] <= AcceptedAll(auth, logs')[i] {
      AcceptedPrefix(env, auth, logs'[i], |logs[i]|, |logs'[i]|);
      assert logs'[i][..|logs[i]|] == logs[i] && logs'[i][..|logs'[i]|] == logs'[i];
    }
  }

  lemma SupersessionGrows(env: Env, a: seq<Branch>, b: seq<Branch>, p: Str, later: Hash, earlier: Hash)
    requires BranchesGrow(a, b) && Supersedes(env, a, p, later, earlier)
    ensures Supersedes(env, b, p, later, earlier)
  {
    hide EntryHash, Observed, LastWrite, IsWrite;
    var x, j: nat :| x in a && j < |x| && SupersedesAt(env, x, j, p, earlier) && EntryHash(env, x[j]) == later;
    var i :| 0 <= i < |a| && a[i] == x;
    var y := b[i];
    assert y[j] == x[j] && y[..j] == x[..j];
    assert y in b && SupersedesAt(env, y, j, p, earlier);
  }

  lemma CandidatesGrow(env: Env, a: seq<Branch>, b: seq<Branch>, p: Str, m: MergedEntry)
    requires BranchesGrow(a, b) && m in CandidatesAll(env, a, p)
    ensures m in CandidatesAll(env, b, p)
  {
    hide CandidatesAll, MergedOf;
    var x, e := EntryOfCandidate(env, a, p, m);
    var i :| 0 <= i < |a| && a[i] == x;
    assert e in b[i];
    CandidateOfEntry(env, b, p, b[i], e);
  }

  /** A write once superseded is never a head again, though it stays a candidate. */
  lemma NothingResurfaces(env: Env, auth: Auth.Authority, logs: seq<Log>, logs': seq<Log>, p: Str, m: MergedEntry)
    requires Grows(logs, logs')
    requires m in CandidatesAll(env, AcceptedAll(auth, logs), p) && m !in HeadsAt(env, AcceptedAll(auth, logs), p)
    ensures m in CandidatesAll(env, AcceptedAll(auth, logs'), p)
    ensures m !in HeadsAt(env, AcceptedAll(auth, logs'), p)
  {
    hide Grows, BranchesGrow, CandidatesAll, SupersededAll, AcceptedAll, Supersedes;
    var a, b := AcceptedAll(auth, logs), AcceptedAll(auth, logs');
    AcceptedGrow(env, auth, logs, logs');
    CandidatesGrow(env, a, b, p, m);
    UnsupersededMeans(CandidatesAll(env, a, p), SupersededAll(env, a, p), m);
    UnsupersededMeans(CandidatesAll(env, b, p), SupersededAll(env, b, p), m);
    SupersededMeans(env, a, p, m.entryHash);
    SupersededMeans(env, b, p, m.entryHash);
    var later :| Supersedes(env, a, p, later, m.entryHash);
    SupersessionGrows(env, a, b, p, later, m.entryHash);
  }

  lemma {:induction false} AppendsPrefix(env: Env, b: Branch, n: nat, m: nat, p: Str)
    requires n <= m <= |b|
    ensures multiset(Appends(env, b[..n], p)) <= multiset(Appends(env, b[..m], p))
  {
    hide Appends, Candidates, SupersededIn, LastWrite;
    if n < m {
      AppendsPrefix(env, b, n, m - 1, p);
      OneMore(env, b[..m - 1], b[m - 1], p);
      assert b[..m] == b[..m - 1] + [b[m - 1]];
    }
  }

  lemma {:induction false} AppendsGrow(env: Env, a: seq<Branch>, b: seq<Branch>, p: Str)
    requires BranchesGrow(a, b)
    ensures multiset(AppendsAll(env, a, p)) <= multiset(AppendsAll(env, b, p))
    decreases |b|
  {
    hide Appends;
    if a != [] {
      var n, m := |a| - 1, |b| - 1;
      if n == m {
        AppendsGrow(env, a[..n], b[..m], p);
        AppendsPrefix(env, b[n], |a[n]|, |b[n]|, p);
        assert b[n][..|a[n]|] == a[n] && b[n][..|b[n]|] == b[n];
      } else {
        AppendsGrow(env, a, b[..m], p);
      }
    }
  }

  /** No append record is ever lost, and none loses a copy. */
  lemma AppendsNeverLost(env: Env, auth: Auth.Authority, logs: seq<Log>, logs': seq<Log>, p: Str)
    requires Grows(logs, logs')
    requires p in SortedAppends(env, AcceptedAll(auth, logs))
    ensures p in SortedAppends(env, AcceptedAll(auth, logs'))
    ensures multiset(SortedAppends(env, AcceptedAll(auth, logs))[p]) <=
            multiset(SortedAppends(env, AcceptedAll(auth, logs'))[p])
  {
    hide Grows, BranchesGrow, AcceptedAll, AppendsAll, AppendedPaths, Sort;
    var a, b := AcceptedAll(auth, logs), AcceptedAll(auth, logs');
    AcceptedGrow(env, auth, logs, logs');
    AppendsGrow(env, a, b, p);
    AppendsNonEmpty(env, a, p);
    AppendsNonEmpty(env, b, p);
    assert AppendsAll(env, a, p)[0] in multiset(AppendsAll(env, a, p));
    assert AppendsAll(env, a, p)[0] in multiset(AppendsAll(env, b, p));
  }

  // ---- one more entry ----

  lemma {:induction false} CandidatesElsewhere(env: Env, branches: seq<Branch>, k: nat, b: Branch, p: Str)
    requires k < |branches| && Candidates(env, b, p) == Candidates(env, branches[k], p)
    ensures CandidatesAll(env, branches[k := b], p) == CandidatesAll(env, branches, p)
  {
    hide Candidates;
    var n := |branches| - 1;
    if k < n {
      assert branches[k := b][..n] == branches[..n][k := b];
      CandidatesElsewhere(env, branches[..n], k, b, p);
    } else {
      assert branches[k := b][..n] == branches[..n];
    }
  }

  lemma {:induction false} AppendsElsewhere(env: Env, branches: seq<Branch>, k: nat, b: Branch, p: Str)
    requires k < |branches| && Appends(env, b, p) == Appends(env, branches[k], p)
    ensures AppendsAll(env, branches[k := b], p) == AppendsAll(env, branches, p)
  {
    hide Appends;
    var n := |branches| - 1;
    if k < n {
      assert branches[k := b][..n] == branches[..n][k := b];
      AppendsElsewhere(env, branches[..n], k, b, p);
    } else {
      assert branches[k := b][..n] == branches[..n];
    }
  }

  lemma {:induction false} SupersededElsewhere(env: Env, branches: seq<Branch>, k: nat, b: Branch, p: Str, s: set<Hash>)
    requires k < |branches| && SupersededIn(env, b, p) == SupersededIn(env, branches[k], p) + s
    ensures SupersededAll(env, branches[k := b], p) == SupersededAll(env, branches, p) + s
  {
    hide SupersededIn;
    var n := |branches| - 1;
    if k < n {
      assert branches[k := b][..n] == branches[..n][k := b];
      SupersededElsewhere(env, branches[..n], k, b, p, s);
    } else {
      assert branches[k := b][..n] == branches[..n];
    }
  }

  lemma {:induction false} CandidateAdded(env: Env, branches: seq<Branch>, k: nat, b: Branch, p: Str, m: MergedEntry)
    requires k < |branches| && Candidates(env, b, p) == Candidates(env, branches[k], p) + [m]
    ensures multiset(CandidatesAll(env, branches[k := b], p)) == multiset(CandidatesAll(env, branches, p)) + multiset{m}
  {
    hide Candidates;
    var n := |branches| - 1;
    if k < n {
      assert branches[k := b][..n] == branches[..n][k := b];
      CandidateAdded(env, branches[..n], k, b, p, m);
    } else {
      assert branches[k := b][..n] == branches[..n];
    }
  }

  lemma PathsAfterWrite(branches: seq<Branch>, k: nat, e: Entry)
    requires k < |branches| && IsWrite(e, e.body.operation.path)
    ensures WrittenPaths(branches[k := branches[k] + [e]]) == WrittenPaths(branches) + {e.body.operation.path}
    ensures AppendedPaths(branches[k := branches[k] + [e]]) == AppendedPaths(branches)
  {
    var after := branches[k := branches[k] + [e]];
    assert after[k] in after && e in after[k];
    forall b, x | b in branches && x in b ensures exists b' :: b' in after && x in b' {
      var i :| 0 <= i < |branches| && branches[i] == b;
      assert after[i] in after && x in after[i];
    }
    forall b, x | b in after && x in b ensures x == e || exists b' :: b' in branches && x in b' {
      var i :| 0 <= i < |after| && after[i] == b;
      if i == k { assert branches[k] in branches; } else { assert branches[i] in branches; }
    }
  }

  /** The new entry leaves every other path, and every append, as it was. */
  lemma OtherPathsUnmoved(env: Env, branches: seq<Branch>, k: nat, e: Entry, q: Str)
    requires k < |branches| && IsWrite(e, e.body.operation.path)
    ensures
      var after := branches[k := branches[k] + [e]];
      && AppendsAll(env, after, q) == AppendsAll(env, branches, q)
      && (q != e.body.operation.path ==> HeadsAt(env, after, q) == HeadsAt(env, branches, q))
  {
    hide Candidates, SupersededIn, Appends, LastWrite, CandidatesAll, SupersededAll, AppendsAll, Unsuperseded,
         MergedOf, AppendOf;
    var b := branches[k] + [e];
    OneMore(env, branches[k], e, q);
    AppendsElsewhere(env, branches, k, b, q);
    if q != e.body.operation.path {
      CandidatesElsewhere(env, branches, k, b, q);
      SupersededElsewhere(env, branches, k, b, q, {});
      assert SupersededAll(env, branches, q) + {} == SupersededAll(env, branches, q);
    }
  }

  // ---- observing every head ----

  ghost predicate ObservesHeads(env: Env, branches: seq<Branch>, e: Entry, p: Str)
  {
    IsWrite(e, p) && forall m :: m in HeadsAt(env, branches, p) ==> m.entryHash in Observed(e)
  }

  /** Every write the observer could see is older than it. */
  lemma ObserverIsNewest(env: Env, branches: seq<Branch>, k: nat, e: Entry, p: Str, rank: Hash -> nat, m: MergedEntry)
    requires k < |branches| && CausalBranches(env, branches[k := branches[k] + [e]], rank)
    requires CausalBranches(env, branches, rank)
    requires ObservesHeads(env, branches, e, p) && m in CandidatesAll(env, branches, p)
    ensures rank(m.entryHash) < rank(EntryHash(env, e))
  {
    hide EntryHash, HeadsAt, CandidatesAll, Below;
    var head, n := EveryWriteReachesAHead(env, branches, p, m, rank);
    var after := branches[k := branches[k] + [e]];
    assert after[k] in after && e in after[k];
    assert head.entryHash in Observed(e);
  }

  /** Nothing supersedes the observer. */
  lemma ObserverUnsuperseded(env: Env, branches: seq<Branch>, k: nat, e: Entry, p: Str, rank: Hash -> nat)
    requires k < |branches| && CausalBranches(env, branches[k := branches[k] + [e]], rank)
    requires CausalBranches(env, branches, rank) && ObservesHeads(env, branches, e, p)
    ensures EntryHash(env, e) !in SupersededAll(env, branches, p)
    ensures EntryHash(env, e) !in Observed(e) && EntryHash(env, e) !in LastWrite(env, branches[k], p)
  {
    hide EntryHash, ObservesHeads, SupersededAll, Supersedes, LastWrite;
    var h := EntryHash(env, e);
    var after := branches[k := branches[k] + [e]];
    assert after[k] in after && e in after[k];
    SupersededMeans(env, branches, p, h);
    forall later | Supersedes(env, branches, p, later, h) ensures false {
      SupersessionAscends(env, branches, p, later, h, rank);
      var m :| m in CandidatesAll(env, branches, p) && m.entryHash == later;
      ObserverIsNewest(env, branches, k, e, p, rank, m);
    }
    forall x | x in LastWrite(env, branches[k], p) ensures rank(x) < rank(h) {
      LastWriteMeans(env, branches[k], p, x);
      var i :| 0 <= i < |branches[k]| && EntryHash(env, branches[k][i]) == x;
      assert after[k][i] == branches[k][i] && after[k][|branches[k]|] == e;
    }
  }

  /** A write that observed every head of its path is the path's only head. */
  lemma ObserverIsOnlyHead(env: Env, branches: seq<Branch>, k: nat, e: Entry, p: Str, rank: Hash -> nat)
    requires k < |branches| && CausalBranches(env, branches[k := branches[k] + [e]], rank)
    requires CausalBranches(env, branches, rank) && ObservesHeads(env, branches, e, p)
    ensures HeadsAt(env, branches[k := branches[k] + [e]], p) == [MergedOf(env, e)]
  {
    hide CausalBranches, CandidatesAll, SupersededAll, Candidates, SupersededIn, LastWrite, Appends, Observed,
         Unsuperseded;
    var b := branches[k] + [e];
    var after := branches[k := b];
    var me := MergedOf(env, e);
    var s := Observed(e) + LastWrite(env, branches[k], p);
    OneMore(env, branches[k], e, p);
    CandidateAdded(env, branches, k, b, p, me);
    SupersededElsewhere(env, branches, k, b, p, s);
    ObserverUnsuperseded(env, branches, k, e, p, rank);
    var known, all := CandidatesAll(env, branches, p), SupersededAll(env, after, p);
    if me in known { ObserverIsNewest(env, branches, k, e, p, rank, me); }
    forall m ensures multiset(HeadsAt(env, after, p))[m] == multiset([me])[m] {
      RetainCounts(CandidatesAll(env, after, p), all, m);
      UnsupersededMeans(known, SupersededAll(env, branches, p), m);
      assert m in known <==> m in multiset(known);
    }
    assert multiset(HeadsAt(env, after, p)) == multiset([me]);
    SingletonSeq(HeadsAt(env, after, p), me);
  }

  lemma SingletonSeq<T>(s: seq<T>, x: T)
    requires multiset(s) == multiset([x])
    ensures s == [x]
  {
    SameSize(s, [x]);
    assert s[0] in multiset(s);
  }

  // ---- the theorem about whole merges ----

  lemma AcceptedExtended(env: Env, auth: Auth.Authority, logs: seq<Log>, k: nat, e: Entry)
    requires k < |logs| && Verdict(auth, e).None?
    ensures
      var branches := AcceptedAll(auth, logs);
      AcceptedAll(auth, logs[k := logs[k] + [e]]) == branches[k := branches[k] + [e]]
  {
    hide AcceptedIn, Verdict, RejectedIn;
    var log := logs[k] + [e];
    AcceptedStep(env, auth, log, |logs[k]|);
    assert log[..|logs[k]|] == logs[k] && log[..|logs[k]| + 1] == log;
  }

  lemma ErrorFreeExtended(env: Env, auth: Auth.Authority, logs: seq<Log>, k: nat, e: Entry)
    requires k < |logs| && MergeError(env, auth, logs, |logs|).None?
    requires ShapeOk(env, auth.identity, logs[k] + [e]) && SignatureError(env, auth, e).None?
    ensures MergeError(env, auth, logs[k := logs[k] + [e]], |logs|).None?
  {
    hide ErrorIn, ShapeOk, SignatureError;
    var after := logs[k := logs[k] + [e]];
    NoErrorMeans(env, auth, logs, |logs|);
    NoErrorMeans(env, auth, after, |logs|);
    LogOkMeans(env, auth, logs[k]);
    LogOkMeans(env, auth, logs[k] + [e]);
  }

  lemma CausalBefore(env: Env, logs: seq<Log>, k: nat, e: Entry, rank: Hash -> nat)
    requires k < |logs| && Causal(env, logs[k := logs[k] + [e]], rank)
    ensures Causal(env, logs, rank)
  {
    hide EntryHash, References;
    var after := logs[k := logs[k] + [e]];
    forall log, x, h | log in logs && x in log && h in References(x.body) ensures rank(h) < rank(EntryHash(env, x)) {
      var i :| 0 <= i < |logs| && logs[i] == log;
      assert after[i] in after && x in after[i];
    }
  }

  /** An active device appends (or starts its log with) a write or tombstone that
      observed every head of its path. The next merge succeeds with that entry as
      the path's only head and no conflict there; every other path, every
      conflict elsewhere and every append record is unchanged. */
  lemma ObservingWriteResolves(env: Env, auth: Auth.Authority, logs: seq<Log>, k: nat, e: Entry, deviceId: Str,
                               op: Operation, heads: seq<Hash>, createdAt: U64, rank: Hash -> nat)
    requires k < |logs| && MergeError(env, auth, logs, |logs|).None?
    requires |logs[k]| < U64_LIMIT
    requires logs[k] != [] ==> logs[k][|logs[k]| - 1].body.sequence + 1 < U64_LIMIT
    requires e.body == NextBody(env, auth.identity, deviceId, logs[k], op, heads, createdAt)
    requires ValidateBody(e.body).None? && SignatureError(env, auth, e).None? && Verdict(auth, e).None?
    requires IsWrite(e, op.path)
    requires forall m :: m in HeadsAt(env, AcceptedAll(auth, logs), op.path) ==> m.entryHash in heads
    requires Causal(env, logs[k := logs[k] + [e]], rank)
    ensures
      var before, after := OutcomeOf(env, auth, logs), OutcomeOf(env, auth, logs[k := logs[k] + [e]]);
      && before.Merged? && after.Merged?
      && after.state.singletonPaths == before.state.singletonPaths[op.path := MergedOf(env, e)]
      && after.state.singletonConflicts == before.state.singletonConflicts - {op.path}
      && after.state.appendRecords == before.state.appendRecords
  {
    hide MergeError, Causal, CausalBranches, AcceptedAll, HeadsAt, StateOf, Headed, ShapeOk, ValidateBody, Verdict,
         SignatureError, NextBody, MergedOf;
    var after := logs[k := logs[k] + [e]];
    var p := op.path;
    BodyOfNext(env, auth.identity, deviceId, logs[k], op, heads, createdAt);
    ShapeOfLog(env, auth, logs, k);
    NextKeepsShape(env, auth.identity, deviceId, logs[k], op, heads, createdAt, e.signature);
    assert e == Entry(e.body, e.signature);
    ErrorFreeExtended(env, auth, logs, k, e);
    CausalBefore(env, logs, k, e, rank);
    AcceptedAreCausal(env, auth, logs, rank);
    AcceptedAreCausal(env, auth, after, rank);
    CausalImpliesHeaded(env, AcceptedAll(auth, logs), rank);
    CausalImpliesHeaded(env, AcceptedAll(auth, after), rank);
    AcceptedExtended(env, auth, logs, k, e);
    ObserverIsOnlyHead(env, AcceptedAll(auth, logs), k, e, p, rank);
    StateAfterObserver(env, auth, logs, k, e);
  }

  lemma ShapeOfLog(env: Env, auth: Auth.Authority, logs: seq<Log>, k: nat)
    requires k < |logs| && MergeError(env, auth, logs, |logs|).None?
    ensures ShapeOk(env, auth.identity, logs[k])
  {
    hide ErrorIn, ShapeOk, SignatureError;
    NoErrorMeans(env, auth, logs, |logs|);
    LogOkMeans(env, auth, logs[k]);
  }

  lemma BodyOfNext(env: Env, identity: Str, deviceId: Str, log: Log, op: Operation, heads: seq<Hash>, createdAt: U64)
    requires |log| < U64_LIMIT
    requires log != [] ==> log[|log| - 1].body.sequence + 1 < U64_LIMIT
    ensures
      var b := NextBody(env, identity, deviceId, log, op, heads, createdAt);
      b.operation == op && forall h :: h in heads ==> h in b.observedHeads
  {
    CanonicalHeadsAreCanonical(heads);
  }

  /** What a merge gives path by path after a sole head `m` at `p`. */
  ghost predicate MovedOnlyAt(env: Env, before: seq<Branch>, after: seq<Branch>, p: Str, m: MergedEntry)
  {
    && WrittenPaths(after) == WrittenPaths(before) + {p}
    && AppendedPaths(after) == AppendedPaths(before)
    && HeadsAt(env, after, p) == [m]
    && (forall q :: AppendsAll(env, after, q) == AppendsAll(env, before, q))
    && (forall q :: q != p ==> HeadsAt(env, after, q) == HeadsAt(env, before, q))
  }

  lemma WinnersMoved(env: Env, before: seq<Branch>, after: seq<Branch>, p: Str, m: MergedEntry)
    requires MovedOnlyAt(env, before, after, p, m) && Headed(env, before) && Headed(env, after)
    ensures Winners(env, after) == Winners(env, before)[p := m]
  {
    hide HeadsAt, WrittenPaths, AppendedPaths, AppendsAll, Sort, Headed;
    SortOne(m);
  }

  lemma ConflictsMoved(env: Env, before: seq<Branch>, after: seq<Branch>, p: Str, m: MergedEntry)
    requires MovedOnlyAt(env, before, after, p, m) && Headed(env, before) && Headed(env, after)
    ensures Conflicts(env, after) == Conflicts(env, before) - {p}
  {
    hide HeadsAt, WrittenPaths, AppendedPaths, AppendsAll, Sort, Headed;
  }

  lemma AppendsUnmoved(env: Env, before: seq<Branch>, after: seq<Branch>, p: Str, m: MergedEntry)
    requires MovedOnlyAt(env, before, after, p, m)
    ensures SortedAppends(env, after) == SortedAppends(env, before)
  {
    hide HeadsAt, WrittenPaths, AppendedPaths, AppendsAll, Sort;
  }

  lemma StateAfterObserver(env: Env, auth: Auth.Authority, logs: seq<Log>, k: nat, e: Entry)
    requires k < |logs| && IsWrite(e, e.body.operation.path)
    requires
      var branches := AcceptedAll(auth, logs);
      var after := logs[k := logs[k] + [e]];
      && AcceptedAll(auth, after) == branches[k := branches[k] + [e]]
      && HeadsAt(env, AcceptedAll(auth, after), e.body.operation.path) == [MergedOf(env, e)]
      && Headed(env, branches) && Headed(env, AcceptedAll(auth, after))
    ensures
      var p := e.body.operation.path;
      var before, after := StateOf(env, auth, logs), StateOf(env, auth, logs[k := logs[k] + [e]]);
      && after.singletonPaths == before.singletonPaths[p := MergedOf(env, e)]
      && after.singletonConflicts == before.singletonConflicts - {p}
      && after.appendRecords == before.appendRecords
  {
    hide AcceptedAll, HeadsAt, WrittenPaths, AppendedPaths, AppendsAll, MergedOf, Sort, Headed, RejectedAll;
    hide Winners, Conflicts, SortedAppends;
    var p := e.body.operation.path;
    var branches := AcceptedAll(auth, logs);
    var branches' := branches[k := branches[k] + [e]];
    PathsAfterWrite(branches, k, e);
    forall q
      ensures AppendsAll(env, branches', q) == AppendsAll(env, branches, q)
      ensures q != p ==> HeadsAt(env, branches', q) == HeadsAt(env, branches, q)
    {
      OtherPathsUnmoved(env, branches, k, e, q);
    }
    var m := MergedOf(env, e);
    WinnersMoved(env, branches, branches', p, m);
    ConflictsMoved(env, branches, branches', p, m);
    AppendsUnmoved(env, branches, branches', p, m);
  }

  lemma SortOne(m: MergedEntry)
    ensures Sort([m], EntryKey) == [m]
  {
    SingletonSeq(Sort([m], EntryKey), m);
  }
}
