/** Heads are the maximal writes of the supersession order, and a written path
    always has one: hash references point backwards in time, so the order cannot
    run in circles. */
module MergeCausality {
  import opened Wrappers
  import opened ByteStrings
  import opened Crypto
  import opened Ordering
  import opened DeviceWriterLog
  import opened DeviceWriterMerge
  import Auth = IdentityAuthority

  // ---- what may be assumed of hashes ----

  function References(b: Body): set<Hash>
  {
    (set h | h in b.observedHeads) + if b.previousHash.Some? then {b.previousHash.value} else {}
  }

  /** rank orders hashes by creation: an entry can only name hashes made before
      its own. */
  ghost predicate Causal(env: Env, logs: seq<Log>, rank: Hash -> nat)
  {
    forall log, e, h :: log in logs && e in log && h in References(e.body) ==> rank(h) < rank(EntryHash(env, e))
  }

  /** The same of accepted entries: along a branch, and from observer to observed. */
  ghost predicate CausalBranch(env: Env, b: Branch, rank: Hash -> nat)
  {
    && (forall i, j :: 0 <= i < j < |b| ==> rank(EntryHash(env, b[i])) < rank(EntryHash(env, b[j])))
    && (forall e, h :: e in b && h in Observed(e) ==> rank(h) < rank(EntryHash(env, e)))
  }

  ghost predicate CausalBranches(env: Env, branches: seq<Branch>, rank: Hash -> nat)
  {
    forall b :: b in branches ==> CausalBranch(env, b, rank)
  }

  lemma {:induction false} LogAscends(env: Env, identity: Str, log: Log, rank: Hash -> nat, i: nat, j: nat)
    requires ShapeOk(env, identity, log) && Causal(env, [log], rank) && i < j < |log|
    ensures rank(EntryHash(env, log[i])) < rank(EntryHash(env, log[j]))
  {
    hide EntryHash, ShapeOk;
    ShapeFacts(env, identity, log, j);
    assert log in [log] && log[j] in log;
    assert EntryHash(env, log[j - 1]) in References(log[j].body);
    if i < j - 1 { LogAscends(env, identity, log, rank, i, j - 1); }
  }

  lemma CausalBranchSnoc(env: Env, b: Branch, e: Entry, rank: Hash -> nat)
    requires CausalBranch(env, b, rank)
    requires forall x :: x in b ==> rank(EntryHash(env, x)) < rank(EntryHash(env, e))
    requires forall h :: h in Observed(e) ==> rank(h) < rank(EntryHash(env, e))
    ensures CausalBranch(env, b + [e], rank)
  {
    hide EntryHash, Observed;
    var longer := b + [e];
    forall i, j | 0 <= i < j < |longer| ensures rank(EntryHash(env, longer[i])) < rank(EntryHash(env, longer[j])) {
      if j == |b| {
        assert longer[i] == b[i] && b[i] in b;
      }
    }
  }

  lemma {:induction false} AcceptedAscends(env: Env, auth: Auth.Authority, log: Log, n: nat, rank: Hash -> nat)
    requires ShapeOk(env, auth.identity, log) && Causal(env, [log], rank) && n <= |log|
    ensures CausalBranch(env, AcceptedIn(auth, log[..n]), rank)
  {
    hide EntryHash, ShapeOk, Verdict, CausalBranch;
    if n == 0 {
      CausalBranchEmpty(env, rank);
    } else {
      AcceptedAscends(env, auth, log, n - 1, rank);
      AcceptedStep(env, auth, log, n - 1);
      var b := AcceptedIn(auth, log[..n - 1]);
      hide AcceptedIn;
      forall e | e in b ensures rank(EntryHash(env, e)) < rank(EntryHash(env, log[n - 1])) {
        var i :| 0 <= i < n - 1 && log[..n - 1][i] == e;
        LogAscends(env, auth.identity, log, rank, i, n - 1);
      }
      forall h | h in Observed(log[n - 1]) ensures rank(h) < rank(EntryHash(env, log[n - 1])) {
        assert log in [log] && log[n - 1] in log && h in References(log[n - 1].body);
      }
      CausalBranchSnoc(env, b, log[n - 1], rank);
      assert b + [] == b;
    }
  }

  lemma CausalBranchEmpty(env: Env, rank: Hash -> nat)
    ensures CausalBranch(env, [], rank)
  {
  }

  // ---- when a merge has no error ----

  lemma {:induction false} NoErrorMeans(env: Env, auth: Auth.Authority, logs: seq<Log>, n: nat)
    requires n <= |logs|
    ensures MergeError(env, auth, logs, n).None? <==> forall i :: 0 <= i < n ==> ErrorIn(env, auth, logs[i]).None?
  {
    hide ErrorIn;
    if n > 0 { NoErrorMeans(env, auth, logs, n - 1); }
  }

  lemma {:induction false} SignaturesMean(env: Env, auth: Auth.Authority, log: Log, n: nat)
    requires n <= |log|
    ensures SignatureErrorIn(env, auth, log, n).None? <==>
            forall i :: 0 <= i < n ==> SignatureError(env, auth, log[i]).None?
  {
    hide SignatureError;
    if n > 0 { SignaturesMean(env, auth, log, n - 1); }
  }

  /** A log has no error when it is well shaped and every entry of an authorized
      device carries that device's signature. */
  lemma LogOkMeans(env: Env, auth: Auth.Authority, log: Log)
    ensures ErrorIn(env, auth, log).None? <==>
            && ShapeOk(env, auth.identity, log)
            && forall i :: 0 <= i < |log| ==> SignatureError(env, auth, log[i]).None?
  {
    hide EntryShapeError, SignatureError;
    ShapeErrorMeaning(env, auth.identity, log, |log|);
    SignaturesMean(env, auth, log, |log|);
  }

  lemma AcceptedAreCausal(env: Env, auth: Auth.Authority, logs: seq<Log>, rank: Hash -> nat)
    requires Causal(env, logs, rank) && MergeError(env, auth, logs, |logs|).None?
    ensures CausalBranches(env, AcceptedAll(auth, logs), rank)
  {
    hide CausalBranch, ErrorIn, EntryHash, ShapeOk, SignatureError;
    forall b | b in AcceptedAll(auth, logs) ensures CausalBranch(env, b, rank) {
      var i :| 0 <= i < |logs| && AcceptedAll(auth, logs)[i] == b;
      NoErrorMeans(env, auth, logs, |logs|);
      LogOkMeans(env, auth, logs[i]);
      forall log, e, h | log in [logs[i]] && e in log && h in References(e.body)
        ensures rank(h) < rank(EntryHash(env, e)) { assert log in logs; }
      AcceptedAscends(env, auth, logs[i], |logs[i]|, rank);
      assert logs[i][..|logs[i]|] == logs[i];
    }
  }

  // ---- the supersession order ----

  /** Entry j of branch b writes p, and supersedes the write with hash h. */
  ghost predicate SupersedesAt(env: Env, b: Branch, j: nat, p: Str, h: Hash)
  {
    j < |b| && IsWrite(b[j], p) && (h in Observed(b[j]) || h in LastWrite(env, b[..j], p))
  }

  /** An accepted write to p with hash `later` supersedes the one with hash
      `earlier` directly: it observed it, or follows it in its own log. */
  ghost predicate Supersedes(env: Env, branches: seq<Branch>, p: Str, later: Hash, earlier: Hash)
  {
    exists b, j: nat ::
      b in branches && j < |b| && SupersedesAt(env, b, j, p, earlier) && EntryHash(env, b[j]) == later
  }

  /** n steps of supersession lead from lo up to hi. */
  ghost predicate Below(env: Env, branches: seq<Branch>, p: Str, lo: Hash, hi: Hash, n: nat)
    decreases n
  {
    if n == 0 then lo == hi
    else exists mid :: Supersedes(env, branches, p, mid, lo) && Below(env, branches, p, mid, hi, n - 1)
  }

  lemma {:induction false} SupersededInMeans(env: Env, b: Branch, n: nat, p: Str, h: Hash)
    requires n <= |b|
    ensures h in SupersededIn(env, b[..n], p) <==> exists j: nat :: j < n && SupersedesAt(env, b, j, p, h)
  {
    hide Observed, LastWrite;
    if n > 0 {
      SupersededInMeans(env, b, n - 1, p, h);
      assert b[..n][..n - 1] == b[..n - 1];
      assert h in SupersededIn(env, b[..n], p) <==>
             h in SupersededIn(env, b[..n - 1], p) || SupersedesAt(env, b, n - 1, p, h);
    }
  }

  lemma {:induction false} SupersededAllMeans(env: Env, branches: seq<Branch>, p: Str, h: Hash)
    ensures h in SupersededAll(env, branches, p) <==> exists b :: b in branches && h in SupersededIn(env, b, p)
  {
    hide SupersededIn;
    if branches != [] {
      var init, last := branches[..|branches| - 1], branches[|branches| - 1];
      SupersededAllMeans(env, init, p, h);
      assert branches == init + [last] && last in branches;
      assert forall b :: b in branches <==> b in init || b == last;
    }
  }

  /** The computed set is the relation's: exactly the directly superseded hashes. */
  lemma SupersededMeans(env: Env, branches: seq<Branch>, p: Str, h: Hash)
    ensures h in SupersededAll(env, branches, p) <==> exists later :: Supersedes(env, branches, p, later, h)
  {
    hide SupersedesAt, SupersededIn, EntryHash;
    SupersededAllMeans(env, branches, p, h);
    if h in SupersededAll(env, branches, p) {
      var b :| b in branches && h in SupersededIn(env, b, p);
      SupersededInMeans(env, b, |b|, p, h);
      assert b[..|b|] == b;
      var j: nat :| j < |b| && SupersedesAt(env, b, j, p, h);
      assert Supersedes(env, branches, p, EntryHash(env, b[j]), h);
    }
    if later :| Supersedes(env, branches, p, later, h) {
      var b, j: nat :| b in branches && j < |b| && SupersedesAt(env, b, j, p, h) && EntryHash(env, b[j]) == later;
      SupersededInMeans(env, b, |b|, p, h);
      assert b[..|b|] == b;
    }
  }

  lemma {:induction false} LastWriteMeans(env: Env, b: Branch, p: Str, h: Hash)
    requires h in LastWrite(env, b, p)
    ensures exists i :: 0 <= i < |b| && IsWrite(b[i], p) && EntryHash(env, b[i]) == h
  {
    hide EntryHash;
    var n := |b| - 1;
    if !IsWrite(b[n], p) {
      LastWriteMeans(env, b[..n], p, h);
      var i :| 0 <= i < n && IsWrite(b[..n][i], p) && EntryHash(env, b[..n][i]) == h;
      assert b[i] == b[..n][i];
    } else {
      assert 0 <= n < |b|;
    }
  }

  /** Supersession goes up in time, from a write to a write. */
  lemma SupersessionAscends(env: Env, branches: seq<Branch>, p: Str, later: Hash, earlier: Hash, rank: Hash -> nat)
    requires CausalBranches(env, branches, rank) && Supersedes(env, branches, p, later, earlier)
    ensures rank(earlier) < rank(later)
    ensures exists m :: m in CandidatesAll(env, branches, p) && m.entryHash == later
  {
    hide EntryHash, CandidatesAll, Observed, LastWrite;
    var b, j: nat :|
      b in branches && j < |b| && SupersedesAt(env, b, j, p, earlier) && EntryHash(env, b[j]) == later;
    assert b[j] in b;
    if earlier in LastWrite(env, b[..j], p) {
      LastWriteMeans(env, b[..j], p, earlier);
      var i :| 0 <= i < j && EntryHash(env, b[..j][i]) == earlier;
      assert b[i] == b[..j][i];
    }
    CandidateOfEntry(env, branches, p, b, b[j]);
    assert MergedOf(env, b[j]).entryHash == later;
  }

  // ---- candidates are the accepted writes ----

  lemma {:induction false} CandidatesMean(env: Env, b: Branch, p: Str, m: MergedEntry)
    ensures m in Candidates(env, b, p) <==> exists e :: e in b && IsWrite(e, p) && MergedOf(env, e) == m
  {
    hide MergedOf;
    if b != [] {
      CandidatesMean(env, b[..|b| - 1], p, m);
      assert b == b[..|b| - 1] + [b[|b| - 1]];
    }
  }

  lemma {:induction false} CandidatesAllMean(env: Env, branches: seq<Branch>, p: Str, m: MergedEntry)
    ensures m in CandidatesAll(env, branches, p) <==> exists b :: b in branches && m in Candidates(env, b, p)
  {
    hide Candidates;
    if branches != [] {
      var init, last := branches[..|branches| - 1], branches[|branches| - 1];
      CandidatesAllMean(env, init, p, m);
      assert branches == init + [last] && last in branches;
      assert forall b :: b in branches <==> b in init || b == last;
    }
  }

  lemma CandidateOfEntry(env: Env, branches: seq<Branch>, p: Str, b: Branch, e: Entry)
    requires b in branches && e in b && IsWrite(e, p)
    ensures MergedOf(env, e) in CandidatesAll(env, branches, p)
  {
    hide MergedOf;
    CandidatesMean(env, b, p, MergedOf(env, e));
    CandidatesAllMean(env, branches, p, MergedOf(env, e));
  }

  lemma EntryOfCandidate(env: Env, branches: seq<Branch>, p: Str, m: MergedEntry) returns (b: Branch, e: Entry)
    requires m in CandidatesAll(env, branches, p)
    ensures b in branches && e in b && IsWrite(e, p) && MergedOf(env, e) == m
  {
    hide MergedOf, Candidates, CandidatesAll;
    CandidatesAllMean(env, branches, p, m);
    b :| b in branches && m in Candidates(env, b, p);
    CandidatesMean(env, b, p, m);
    e :| e in b && IsWrite(e, p) && MergedOf(env, e) == m;
  }

  lemma {:induction false} UnsupersededMeans(candidates: seq<MergedEntry>, superseded: set<Hash>, m: MergedEntry)
    ensures m in Unsuperseded(candidates, superseded) <==> m in candidates && m.entryHash !in superseded
  {
    if candidates != [] {
      UnsupersededMeans(candidates[..|candidates| - 1], superseded, m);
      assert candidates == candidates[..|candidates| - 1] + [candidates[|candidates| - 1]];
    }
  }

  // ---- the theorems ----

  /** Heads of a path are exactly its accepted writes with nothing above them in
      the transitive order. */
  lemma HeadsAreMaximal(env: Env, branches: seq<Branch>, p: Str, m: MergedEntry)
    ensures m in HeadsAt(env, branches, p) <==>
            && m in CandidatesAll(env, branches, p)
            && forall hi, n: nat :: n > 0 ==> !Below(env, branches, p, m.entryHash, hi, n)
  {
    hide CandidatesAll, SupersededAll, Supersedes;
    UnsupersededMeans(CandidatesAll(env, branches, p), SupersededAll(env, branches, p), m);
    SupersededMeans(env, branches, p, m.entryHash);
    if later :| Supersedes(env, branches, p, later, m.entryHash) {
      assert Below(env, branches, p, later, later, 0);
      assert Below(env, branches, p, m.entryHash, later, 1);
    }
  }

  function MaxRank(ms: seq<MergedEntry>, rank: Hash -> nat): (r: nat)
    ensures forall m :: m in ms ==> rank(m.entryHash) <= r
  {
    if ms == [] then 0
    else
      var r := MaxRank(ms[1..], rank);
      assert ms == [ms[0]] + ms[1..];
      if rank(ms[0].entryHash) > r then rank(ms[0].entryHash) else r
  }

  /** Every accepted write is a head or lies below one. */
  lemma {:induction false} EveryWriteReachesAHead(env: Env, branches: seq<Branch>, p: Str, m: MergedEntry,
                                                  rank: Hash -> nat)
    returns (head: MergedEntry, n: nat)
    requires CausalBranches(env, branches, rank)
    requires m in CandidatesAll(env, branches, p)
    ensures head in HeadsAt(env, branches, p)
    ensures Below(env, branches, p, m.entryHash, head.entryHash, n)
    ensures rank(m.entryHash) + n <= rank(head.entryHash)
    decreases MaxRank(CandidatesAll(env, branches, p), rank) - rank(m.entryHash)
  {
    hide CandidatesAll, SupersededAll, Supersedes, CausalBranches;
    UnsupersededMeans(CandidatesAll(env, branches, p), SupersededAll(env, branches, p), m);
    if m in HeadsAt(env, branches, p) {
      return m, 0;
    }
    SupersededMeans(env, branches, p, m.entryHash);
    var later :| Supersedes(env, branches, p, later, m.entryHash);
    SupersessionAscends(env, branches, p, later, m.entryHash, rank);
    var m' :| m' in CandidatesAll(env, branches, p) && m'.entryHash == later;
    var k;
    head, k := EveryWriteReachesAHead(env, branches, p, m', rank);
    n := k + 1;
  }

  lemma CausalImpliesHeaded(env: Env, branches: seq<Branch>, rank: Hash -> nat)
    requires CausalBranches(env, branches, rank)
    ensures Headed(env, branches)
  {
    hide CausalBranches, HeadsAt;
    forall p | p in WrittenPaths(branches) ensures HeadsAt(env, branches, p) != [] {
      CandidatesNonEmpty(env, branches, p);
      var m := CandidatesAll(env, branches, p)[0];
      var head, n := EveryWriteReachesAHead(env, branches, p, m, rank);
    }
  }

  /** The `expect` on an empty head list never fires: a merge either reports an
      error or succeeds. */
  lemma MergeNeverPanics(env: Env, auth: Auth.Authority, logs: seq<Log>, rank: Hash -> nat)
    requires Causal(env, logs, rank)
    ensures OutcomeOf(env, auth, logs) != Panicked
    ensures MergeError(env, auth, logs, |logs|).None? ==> OutcomeOf(env, auth, logs).Merged?
  {
    hide CausalBranches, Headed, StateOf, Causal;
    if MergeError(env, auth, logs, |logs|).None? {
      AcceptedAreCausal(env, auth, logs, rank);
      CausalImpliesHeaded(env, AcceptedAll(auth, logs), rank);
    }
  }

  /** Every write of a path is superseded by another. */
  ghost predicate AllSuperseded(env: Env, branches: seq<Branch>, p: Str)
  {
    forall m :: m in CandidatesAll(env, branches, p) ==>
      exists later :: Supersedes(env, branches, p, later, m.entryHash)
  }

  lemma HeadlessMeans(env: Env, branches: seq<Branch>, p: Str)
    ensures HeadsAt(env, branches, p) == [] <==> AllSuperseded(env, branches, p)
  {
    hide CandidatesAll, SupersededAll, Supersedes;
    var candidates, superseded := CandidatesAll(env, branches, p), SupersededAll(env, branches, p);
    forall m ensures m in HeadsAt(env, branches, p) <==> m in candidates && m.entryHash !in superseded {
      UnsupersededMeans(candidates, superseded, m);
    }
    forall h ensures h in superseded <==> exists later :: Supersedes(env, branches, p, later, h) {
      SupersededMeans(env, branches, p, h);
    }
    HasMember(HeadsAt(env, branches, p));
    hide Unsuperseded;
  }

  /** The `expect` fires exactly when the logs verify and some written path has every
      one of its accepted writes superseded by another. */
  lemma PanicsExactlyWhen(env: Env, auth: Auth.Authority, logs: seq<Log>)
    ensures
      var branches := AcceptedAll(auth, logs);
      OutcomeOf(env, auth, logs) == Panicked <==>
        MergeError(env, auth, logs, |logs|).None? && Headless(env, branches)
  {
    hide StateOf, MergeError, AcceptedAll;
    HeadlessIsNotHeaded(env, AcceptedAll(auth, logs));
    hide Headed, Headless;
  }

  ghost predicate Headless(env: Env, branches: seq<Branch>)
  {
    exists p :: p in WrittenPaths(branches) && AllSuperseded(env, branches, p)
  }

  lemma HeadlessIsNotHeaded(env: Env, branches: seq<Branch>)
    ensures Headless(env, branches) <==> !Headed(env, branches)
  {
    hide HeadsAt, AllSuperseded, WrittenPaths;
    forall p ensures HeadsAt(env, branches, p) == [] <==> AllSuperseded(env, branches, p) {
      HeadlessMeans(env, branches, p);
    }
  }

  /** The winner is the greatest head by (sequence, device id, hash); the other
      heads, and only they, are listed as conflicts, in ascending order. */
  lemma WinnerAndConflicts(env: Env, branches: seq<Branch>, p: Str)
    requires Headed(env, branches) && p in WrittenPaths(branches)
    ensures
      var winner := Winners(env, branches)[p];
      var heads := HeadsAt(env, branches, p);
      && winner in heads
      && (forall h :: h in heads ==> EntryBefore(h, winner) || SameRank(h, winner))
      && (p in Conflicts(env, branches) <==> |heads| > 1)
      && (p in Conflicts(env, branches) ==>
            && multiset(Conflicts(env, branches)[p]) + multiset{winner} == multiset(heads)
            && Ascending(Conflicts(env, branches)[p]))
  {
    hide HeadsAt, Sort, WrittenPaths, EntryKey, KeyLe, EntryBefore, SameRank;
    var heads := HeadsAt(env, branches, p);
    var ranked := Ranked(env, branches, p);
    var n := |ranked| - 1;
    assert ranked[n] in multiset(ranked);
    GreatestWins(heads);
    DropLast(ranked);
    hide Ascending;
    assert multiset(ranked) == multiset(heads);
  }

  lemma HasMember<T>(s: seq<T>)
    ensures s == [] || exists x :: x in s
  {
    if s != [] { assert s[0] in s; }
  }

  lemma SelfReferenceHeadless(env: Env, e: Entry, p: Str)
    requires IsWrite(e, p) && EntryHash(env, e) in e.body.observedHeads
    ensures HeadsAt(env, [[e]], p) == [] && p in WrittenPaths([[e]])
  {
    OneMore(env, [], e, p);
    assert [] + [e] == [e] && [[e]][..0] == [];
    assert CandidatesAll(env, [[e]], p) == [MergedOf(env, e)];
    assert SupersededAll(env, [[e]], p) == Observed(e);
    forall m ensures m !in HeadsAt(env, [[e]], p) {
      UnsupersededMeans(CandidatesAll(env, [[e]], p), SupersededAll(env, [[e]], p), m);
    }
    HasMember(HeadsAt(env, [[e]], p));
    assert [e] in [[e]] && e in [e];
  }

  /** Why Causal is needed: an accepted write that observes its own hash leaves
      its path without a head, and the merge panics. */
  lemma SelfReferencePanics(env: Env, auth: Auth.Authority, e: Entry)
    requires ErrorIn(env, auth, [e]).None? && Verdict(auth, e).None?
    requires IsWrite(e, e.body.operation.path) && EntryHash(env, e) in e.body.observedHeads
    ensures OutcomeOf(env, auth, [[e]]) == Panicked
  {
    hide ErrorIn, Verdict, StateOf, HeadsAt, WrittenPaths, EntryHash;
    AcceptedStep(env, auth, [e], 0);
    assert [e][..0] == [] && [e][..1] == [e];
    assert AcceptedIn(auth, [e]) == [e];
    assert AcceptedAll(auth, [[e]]) == [[e]];
    SelfReferenceHeadless(env, e, e.body.operation.path);
    assert MergeError(env, auth, [[e]], 1).None?;
  }
}
