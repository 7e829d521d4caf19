/** The merge does not depend on the order in which logs are given. */
module MergeOrder {
  import opened Wrappers
  import opened ByteStrings
  import opened Crypto
  import opened Ordering
  import opened DeviceWriterLog
  import opened DeviceWriterMerge
  import opened MergeCausality
  import opened HashChains
  import Auth = IdentityAuthority

  // ---- collecting a value per entry, over all logs ----

  function Gather<T>(log: Log, f: Entry -> seq<T>): seq<T>
  {
    if log == [] then [] else Gather(log[..|log| - 1], f) + f(log[|log| - 1])
  }

  function GatherAll<T>(logs: seq<Log>, f: Entry -> seq<T>): seq<T>
  {
    if logs == [] then [] else GatherAll(logs[..|logs| - 1], f) + Gather(logs[|logs| - 1], f)
  }

  lemma {:induction false} GatherMeans<T>(log: Log, f: Entry -> seq<T>, x: T)
    ensures x in Gather(log, f) <==> exists e :: e in log && x in f(e)
  {
    if log != [] {
      GatherMeans(log[..|log| - 1], f, x);
      assert log == log[..|log| - 1] + [log[|log| - 1]];
    }
  }

  lemma {:induction false} GatherAllMeans<T>(logs: seq<Log>, f: Entry -> seq<T>, x: T)
    ensures x in GatherAll(logs, f) <==> exists e :: InPlay(logs, e) && x in f(e)
  {
    if logs != [] {
      var init, last := logs[..|logs| - 1], logs[|logs| - 1];
      GatherAllMeans(init, f, x);
      GatherMeans(last, f, x);
      assert logs == init + [last] && last in logs;
      forall e ensures InPlay(logs, e) <==> InPlay(init, e) || e in last {
        if InPlay(init, e) { var l :| l in init && e in l; assert l in logs; }
      }
    }
  }

  /** Moving log i to the end moves its share to the end. */
  lemma GatherAllSnoc<T>(logs: seq<Log>, log: Log, f: Entry -> seq<T>)
    ensures GatherAll(logs + [log], f) == GatherAll(logs, f) + Gather(log, f)
  {
    hide Gather;
    assert (logs + [log])[..|logs|] == logs;
  }

  lemma {:induction false} GatherAllMoves<T>(logs: seq<Log>, i: nat, f: Entry -> seq<T>)
    requires i < |logs|
    ensures multiset(GatherAll(logs, f)) ==
            multiset(GatherAll(logs[..i] + logs[i + 1..], f)) + multiset(Gather(logs[i], f))
  {
    hide Gather, GatherAll;
    var n := |logs| - 1;
    GatherAllSnoc(logs[..n], logs[n], f);
    assert logs[..n] + [logs[n]] == logs;
    var rest := logs[..i] + logs[i + 1..];
    if i == n {
      assert rest == logs[..n];
    } else {
      GatherAllMoves(logs[..n], i, f);
      var before := logs[..n][..i] + logs[..n][i + 1..];
      GatherAllSnoc(before, logs[n], f);
      assert rest == before + [logs[n]];
    }
  }

  lemma {:induction false} GatherAllPermutes<T>(a: seq<Log>, b: seq<Log>, f: Entry -> seq<T>)
    requires multiset(a) == multiset(b)
    ensures multiset(GatherAll(a, f)) == multiset(GatherAll(b, f))
    decreases |a|
  {
    hide Gather;
    SameSize(a, b);
    if a != [] {
      var n := |a| - 1;
      assert a[n] in multiset(b);
      var i :| 0 <= i < |b| && b[i] == a[n];
      var b' := b[..i] + b[i + 1..];
      DropLast(a);
      assert b == b[..i] + [b[i]] + b[i + 1..];
      assert multiset(b') == multiset(b) - multiset{b[i]};
      GatherAllPermutes(a[..n], b', f);
      GatherAllMoves(b, i, f);
    }
  }

  // ---- the merge's three lists are gathered ----

  ghost predicate PicksCandidates(env: Env, auth: Auth.Authority, p: Str, f: Entry -> seq<MergedEntry>)
  {
    forall e :: f(e) == if Verdict(auth, e).None? && IsWrite(e, p) then [MergedOf(env, e)] else []
  }

  ghost predicate PicksAppends(env: Env, auth: Auth.Authority, p: Str, f: Entry -> seq<AppendRecord>)
  {
    forall e :: f(e) == if Verdict(auth, e).None? && IsAppend(e, p) then [AppendOf(env, e)] else []
  }

  ghost predicate PicksRejections(env: Env, auth: Auth.Authority, f: Entry -> seq<Rejection>)
  {
    forall e :: f(e) == match Verdict(auth, e) case None => [] case Some(reason) => [RejectionOf(env, e, reason)]
  }

  lemma {:induction false} CandidatesGathered(env: Env, auth: Auth.Authority, log: Log, p: Str,
                                              f: Entry -> seq<MergedEntry>)
    requires PicksCandidates(env, auth, p, f)
    ensures Candidates(env, AcceptedIn(auth, log), p) == Gather(log, f)
  {
    hide MergedOf, Verdict;
    if log != [] {
      var n := |log| - 1;
      CandidatesGathered(env, auth, log[..n], p, f);
      AcceptedStep(env, auth, log, n);
      assert log[..n + 1] == log;
      OneMore(env, AcceptedIn(auth, log[..n]), log[n], p);
    }
  }

  lemma {:induction false} CandidatesAllGathered(env: Env, auth: Auth.Authority, logs: seq<Log>, p: Str,
                                                 f: Entry -> seq<MergedEntry>)
    requires PicksCandidates(env, auth, p, f)
    ensures CandidatesAll(env, AcceptedAll(auth, logs), p) == GatherAll(logs, f)
  {
    hide PicksCandidates, Candidates, Gather, AcceptedIn;
    if logs != [] {
      var n := |logs| - 1;
      CandidatesAllGathered(env, auth, logs[..n], p, f);
      CandidatesGathered(env, auth, logs[n], p, f);
      assert AcceptedAll(auth, logs)[..n] == AcceptedAll(auth, logs[..n]);
    }
  }

  lemma {:induction false} AppendsGathered(env: Env, auth: Auth.Authority, log: Log, p: Str,
                                           f: Entry -> seq<AppendRecord>)
    requires PicksAppends(env, auth, p, f)
    ensures Appends(env, AcceptedIn(auth, log), p) == Gather(log, f)
  {
    hide AppendOf, Verdict;
    if log != [] {
      var n := |log| - 1;
      AppendsGathered(env, auth, log[..n], p, f);
      AcceptedStep(env, auth, log, n);
      assert log[..n + 1] == log;
      OneMore(env, AcceptedIn(auth, log[..n]), log[n], p);
    }
  }

  lemma {:induction false} AppendsAllGathered(env: Env, auth: Auth.Authority, logs: seq<Log>, p: Str,
                                              f: Entry -> seq<AppendRecord>)
    requires PicksAppends(env, auth, p, f)
    ensures AppendsAll(env, AcceptedAll(auth, logs), p) == GatherAll(logs, f)
  {
    hide PicksAppends, Appends, Gather, AcceptedIn;
    if logs != [] {
      var n := |logs| - 1;
      AppendsAllGathered(env, auth, logs[..n], p, f);
      AppendsGathered(env, auth, logs[n], p, f);
      assert AcceptedAll(auth, logs)[..n] == AcceptedAll(auth, logs[..n]);
    }
  }

  lemma {:induction false} RejectionsGathered(env: Env, auth: Auth.Authority, log: Log, f: Entry -> seq<Rejection>)
    requires PicksRejections(env, auth, f)
    ensures RejectedIn(env, auth, log) == Gather(log, f)
  {
    hide RejectionOf, Verdict;
    if log != [] { RejectionsGathered(env, auth, log[..|log| - 1], f); }
  }

  lemma {:induction false} RejectionsAllGathered(env: Env, auth: Auth.Authority, logs: seq<Log>,
                                                 f: Entry -> seq<Rejection>)
    requires PicksRejections(env, auth, f)
    ensures RejectedAll(env, auth, logs) == GatherAll(logs, f)
  {
    hide PicksRejections, RejectedIn, Gather;
    if logs != [] {
      RejectionsAllGathered(env, auth, logs[..|logs| - 1], f);
      RejectionsGathered(env, auth, logs[|logs| - 1], f);
    }
  }

  // ---- keys determine what is gathered ----

  /** f yields at most one value per entry, made from its body alone, whose key
      carries the entry's hash. */
  ghost predicate Keyed<T(!new)>(env: Env, f: Entry -> seq<T>, key: T -> Key, hashAt: nat)
  {
    && (forall e, x :: x in f(e) ==> f(e) == [x] && |key(x)| > hashAt && key(x)[hashAt] == EntryHash(env, e))
    && (forall e: Entry, e': Entry :: e.body == e'.body ==> f(e) == f(e'))
  }

  lemma KeysDetermine<T(!new)>(env: Env, logs: seq<Log>, f: Entry -> seq<T>, key: T -> Key, hashAt: nat)
    requires CollisionFree(env, logs) && Keyed(env, f, key, hashAt)
    ensures KeyDetermines(GatherAll(logs, f), key)
  {
    hide CollisionFree, InPlay, EntryHash, GatherAll;
    forall x, y | x in GatherAll(logs, f) && y in GatherAll(logs, f) && key(x) == key(y) ensures x == y {
      GatherAllMeans(logs, f, x);
      GatherAllMeans(logs, f, y);
      var e :| InPlay(logs, e) && x in f(e);
      var e' :| InPlay(logs, e') && y in f(e');
      HashIdentifies(env, logs, e, e');
      assert f(e) == [x] && f(e') == [y];
    }
  }

  lemma GatheredSortsAlike<T(!new)>(env: Env, a: seq<Log>, b: seq<Log>, f: Entry -> seq<T>, key: T -> Key, hashAt: nat)
    requires multiset(a) == multiset(b) && CollisionFree(env, a) && Keyed(env, f, key, hashAt)
    ensures Sort(GatherAll(a, f), key) == Sort(GatherAll(b, f), key)
  {
    hide CollisionFree, Keyed, GatherAll, Sort;
    GatherAllPermutes(a, b, f);
    KeysDetermine(env, a, f, key, hashAt);
    SortIsCanonical(GatherAll(a, f), GatherAll(b, f), key);
  }

  // ---- the pieces ----

  lemma SameMembers<T>(a: seq<T>, b: seq<T>, x: T)
    requires multiset(a) == multiset(b)
    ensures x in a <==> x in b
  {
    assert x in multiset(a) <==> x in multiset(b);
  }

  lemma SameBranches(auth: Auth.Authority, a: seq<Log>, b: seq<Log>, branch: Branch)
    requires multiset(a) == multiset(b)
    ensures branch in AcceptedAll(auth, a) <==> branch in AcceptedAll(auth, b)
  {
    hide AcceptedIn;
    if branch in AcceptedAll(auth, a) {
      var i :| 0 <= i < |a| && AcceptedAll(auth, a)[i] == branch;
      SameMembers(a, b, a[i]);
      var j :| 0 <= j < |b| && b[j] == a[i];
      assert AcceptedAll(auth, b)[j] == branch;
    }
    if branch in AcceptedAll(auth, b) {
      var i :| 0 <= i < |b| && AcceptedAll(auth, b)[i] == branch;
      SameMembers(a, b, b[i]);
      var j :| 0 <= j < |a| && a[j] == b[i];
      assert AcceptedAll(auth, a)[j] == branch;
    }
  }

  lemma SameSupersession(env: Env, auth: Auth.Authority, a: seq<Log>, b: seq<Log>, p: Str)
    requires multiset(a) == multiset(b)
    ensures SupersededAll(env, AcceptedAll(auth, a), p) == SupersededAll(env, AcceptedAll(auth, b), p)
  {
    hide SupersededAll, SupersededIn, AcceptedAll;
    forall h
      ensures h in SupersededAll(env, AcceptedAll(auth, a), p) <==> h in SupersededAll(env, AcceptedAll(auth, b), p)
    {
      SupersededAllMeans(env, AcceptedAll(auth, a), p, h);
      SupersededAllMeans(env, AcceptedAll(auth, b), p, h);
      forall branch ensures branch in AcceptedAll(auth, a) <==> branch in AcceptedAll(auth, b) {
        SameBranches(auth, a, b, branch);
      }
    }
  }

  lemma SamePaths(auth: Auth.Authority, a: seq<Log>, b: seq<Log>)
    requires multiset(a) == multiset(b)
    ensures WrittenPaths(AcceptedAll(auth, a)) == WrittenPaths(AcceptedAll(auth, b))
    ensures AppendedPaths(AcceptedAll(auth, a)) == AppendedPaths(AcceptedAll(auth, b))
  {
    hide AcceptedAll, IsWrite, IsAppend;
    forall branch ensures branch in AcceptedAll(auth, a) <==> branch in AcceptedAll(auth, b) {
      SameBranches(auth, a, b, branch);
    }
  }

  lemma SnocCounts<T>(s: seq<T>, x: T, m: T)
    ensures multiset(s + [x])[m] == multiset(s)[m] + if x == m then 1 else 0
  {
  }

  lemma RetainSnoc(init: seq<MergedEntry>, last: MergedEntry, s: set<Hash>)
    ensures Unsuperseded(init + [last], s)
         == if last.entryHash in s then Unsuperseded(init, s) else Unsuperseded(init, s) + [last]
  {
    assert (init + [last])[..|init|] == init;
  }

  lemma {:induction false} RetainCounts(c: seq<MergedEntry>, s: set<Hash>, m: MergedEntry)
    ensures multiset(Unsuperseded(c, s))[m] == if m.entryHash in s then 0 else multiset(c)[m]
  {
    if c == [] {
      assert Unsuperseded(c, s) == [];
    } else {
      hide Unsuperseded;
      var init, last := c[..|c| - 1], c[|c| - 1];
      RetainCounts(init, s, m);
      RetainSnoc(init, last, s);
      assert c == init + [last];
      SnocCounts(Unsuperseded(init, s), last, m);
      SnocCounts(init, last, m);
    }
  }

  /** Heads are the same heads, in the same final order. */
  lemma SameRanking(env: Env, auth: Auth.Authority, a: seq<Log>, b: seq<Log>, p: Str)
    requires multiset(a) == multiset(b) && CollisionFree(env, a)
    ensures Ranked(env, AcceptedAll(auth, a), p) == Ranked(env, AcceptedAll(auth, b), p)
    ensures |HeadsAt(env, AcceptedAll(auth, a), p)| == |HeadsAt(env, AcceptedAll(auth, b), p)|
  {
    hide CollisionFree, AcceptedAll, CandidatesAll, SupersededAll, Unsuperseded, Sort, GatherAll, Verdict;
    var f := (e: Entry) => if Verdict(auth, e).None? && IsWrite(e, p) then [MergedOf(env, e)] else [];
    CandidatesAllGathered(env, auth, a, p, f);
    CandidatesAllGathered(env, auth, b, p, f);
    GatherAllPermutes(a, b, f);
    CandidatesKeyed(env, auth, p, f);
    KeysDetermine(env, a, f, EntryKey, 2);
    SameSupersession(env, auth, a, b, p);
    var ha, hb := HeadsAt(env, AcceptedAll(auth, a), p), HeadsAt(env, AcceptedAll(auth, b), p);
    var s := SupersededAll(env, AcceptedAll(auth, a), p);
    forall m ensures multiset(ha)[m] == multiset(hb)[m] {
      RetainCounts(GatherAll(a, f), s, m);
      RetainCounts(GatherAll(b, f), s, m);
    }
    assert multiset(ha) == multiset(hb);
    SameSize(ha, hb);
    forall x, y | x in ha && y in ha && EntryKey(x) == EntryKey(y) ensures x == y {
      UnsupersededMeans(GatherAll(a, f), s, x);
      UnsupersededMeans(GatherAll(a, f), s, y);
    }
    SortIsCanonical(ha, hb, EntryKey);
  }

  lemma CandidatesKeyed(env: Env, auth: Auth.Authority, p: Str, f: Entry -> seq<MergedEntry>)
    requires PicksCandidates(env, auth, p, f)
    ensures Keyed(env, f, EntryKey, 2)
  {
    hide EntryHash;
    forall e: Entry, e': Entry | e.body == e'.body ensures f(e) == f(e') { SameBodySameHash(env, e, e'); }
  }

  lemma SameBodySameHash(env: Env, e: Entry, e': Entry)
    requires e.body == e'.body
    ensures EntryHash(env, e) == EntryHash(env, e')
  {
  }

  lemma SameAppends(env: Env, auth: Auth.Authority, a: seq<Log>, b: seq<Log>, p: Str)
    requires multiset(a) == multiset(b) && CollisionFree(env, a)
    ensures Sort(AppendsAll(env, AcceptedAll(auth, a), p), AppendKey) ==
            Sort(AppendsAll(env, AcceptedAll(auth, b), p), AppendKey)
  {
    hide CollisionFree, AcceptedAll, Sort, GatherAll, Verdict, EntryHash, AppendsAll;
    var f := (e: Entry) => if Verdict(auth, e).None? && IsAppend(e, p) then [AppendOf(env, e)] else [];
    AppendsAllGathered(env, auth, a, p, f);
    AppendsAllGathered(env, auth, b, p, f);
    forall e: Entry, e': Entry | e.body == e'.body ensures f(e) == f(e') {
      SameBodySameHash(env, e, e');
      SameVerdict(auth, e, e');
    }
    assert Keyed(env, f, AppendKey, 3);
    GatheredSortsAlike(env, a, b, f, AppendKey, 3);
  }

  lemma SameVerdict(auth: Auth.Authority, e: Entry, e': Entry)
    requires e.body == e'.body
    ensures Verdict(auth, e) == Verdict(auth, e')
  {
  }

  lemma SameRejections(env: Env, auth: Auth.Authority, a: seq<Log>, b: seq<Log>)
    requires multiset(a) == multiset(b) && CollisionFree(env, a)
    ensures Sort(RejectedAll(env, auth, a), RejectionKey) == Sort(RejectedAll(env, auth, b), RejectionKey)
  {
    hide CollisionFree, Sort, GatherAll, Verdict, EntryHash, RejectedAll;
    var f := (e: Entry) => match Verdict(auth, e) case None => [] case Some(reason) => [RejectionOf(env, e, reason)];
    RejectionsAllGathered(env, auth, a, f);
    RejectionsAllGathered(env, auth, b, f);
    forall e: Entry, e': Entry | e.body == e'.body ensures f(e) == f(e') {
      SameBodySameHash(env, e, e');
      SameVerdict(auth, e, e');
    }
    assert Keyed(env, f, RejectionKey, 3);
    GatheredSortsAlike(env, a, b, f, RejectionKey, 3);
  }

  lemma SameErrors(env: Env, auth: Auth.Authority, a: seq<Log>, b: seq<Log>)
    requires multiset(a) == multiset(b)
    ensures MergeError(env, auth, a, |a|).None? <==> MergeError(env, auth, b, |b|).None?
  {
    hide ErrorIn;
    NoErrorMeans(env, auth, a, |a|);
    NoErrorMeans(env, auth, b, |b|);
    forall log ensures log in a <==> log in b { SameMembers(a, b, log); }
    assert MergeError(env, auth, a, |a|).None? <==> forall log :: log in a ==> ErrorIn(env, auth, log).None?;
    assert MergeError(env, auth, b, |b|).None? <==> forall log :: log in b ==> ErrorIn(env, auth, log).None?;
  }

  // ---- branches that read alike merge alike ----

  ghost predicate AlikeAt(env: Env, a: seq<Branch>, b: seq<Branch>, p: Str)
  {
    && (p in WrittenPaths(a) <==> p in WrittenPaths(b))
    && (p in AppendedPaths(a) <==> p in AppendedPaths(b))
    && Ranked(env, a, p) == Ranked(env, b, p)
    && Sort(AppendsAll(env, a, p), AppendKey) == Sort(AppendsAll(env, b, p), AppendKey)
  }

  lemma HeadlessAlike(env: Env, a: seq<Branch>, b: seq<Branch>)
    requires forall p :: AlikeAt(env, a, b, p)
    requires Headed(env, a)
    ensures Headed(env, b)
  {
    hide HeadsAt, WrittenPaths, AppendedPaths, AppendsAll, Sort;
    forall p | p in WrittenPaths(b) ensures HeadsAt(env, b, p) != [] {
      assert AlikeAt(env, a, b, p);
      assert |Ranked(env, a, p)| == |HeadsAt(env, a, p)| && |Ranked(env, b, p)| == |HeadsAt(env, b, p)|;
    }
  }

  lemma WinnersAlike(env: Env, a: seq<Branch>, b: seq<Branch>)
    requires forall p :: AlikeAt(env, a, b, p)
    requires Headed(env, a) && Headed(env, b)
    ensures Winners(env, a) == Winners(env, b)
    ensures Conflicts(env, a) == Conflicts(env, b)
    ensures SortedAppends(env, a) == SortedAppends(env, b)
  {
    hide HeadsAt, WrittenPaths, AppendedPaths, AppendsAll, Sort, Headed;
    forall p
      ensures p in Winners(env, a) <==> p in Winners(env, b)
      ensures p in Winners(env, a) ==> Winners(env, a)[p] == Winners(env, b)[p]
      ensures p in Conflicts(env, a) <==> p in Conflicts(env, b)
      ensures p in Conflicts(env, a) ==> Conflicts(env, a)[p] == Conflicts(env, b)[p]
      ensures p in SortedAppends(env, a) <==> p in SortedAppends(env, b)
      ensures p in SortedAppends(env, a) ==> SortedAppends(env, a)[p] == SortedAppends(env, b)[p]
    {
      assert AlikeAt(env, a, b, p);
      assert |Ranked(env, a, p)| == |HeadsAt(env, a, p)| && |Ranked(env, b, p)| == |HeadsAt(env, b, p)|;
    }
  }

  /** The same heads and appends at every path give the same merged views. */
  lemma MergeAlike(env: Env, a: seq<Branch>, b: seq<Branch>)
    requires forall p :: AlikeAt(env, a, b, p)
    ensures Headed(env, a) <==> Headed(env, b)
    ensures Headed(env, a) ==>
      && Winners(env, a) == Winners(env, b)
      && Conflicts(env, a) == Conflicts(env, b)
      && SortedAppends(env, a) == SortedAppends(env, b)
  {
    hide AlikeAt, Headed, Winners, Conflicts, SortedAppends;
    forall p ensures AlikeAt(env, b, a, p) { assert AlikeAt(env, a, b, p); AlikeSymmetric(env, a, b, p); }
    if Headed(env, a) { HeadlessAlike(env, a, b); WinnersAlike(env, a, b); }
    if Headed(env, b) { HeadlessAlike(env, b, a); }
  }

  lemma AlikeSymmetric(env: Env, a: seq<Branch>, b: seq<Branch>, p: Str)
    requires AlikeAt(env, a, b, p)
    ensures AlikeAt(env, b, a, p)
  {
  }

  // ---- the theorem ----

  /** Whatever order the logs come in, the merge succeeds or fails alike, and on
      success winners, conflicts, append order and rejections are identical. */
  lemma OrderIndependent(env: Env, auth: Auth.Authority, a: seq<Log>, b: seq<Log>)
    requires multiset(a) == multiset(b) && CollisionFree(env, a)
    ensures OutcomeOf(env, auth, a).Failed? <==> OutcomeOf(env, auth, b).Failed?
    ensures !OutcomeOf(env, auth, a).Failed? ==> OutcomeOf(env, auth, a) == OutcomeOf(env, auth, b)
  {
    hide CollisionFree, AcceptedAll, AlikeAt, Headed, Winners, Conflicts, SortedAppends, Sort, MergeError;
    SameErrors(env, auth, a, b);
    SameRejections(env, auth, a, b);
    var ba, bb := AcceptedAll(auth, a), AcceptedAll(auth, b);
    forall p ensures AlikeAt(env, ba, bb, p) { PermutedAlike(env, auth, a, b, p); }
    MergeAlike(env, ba, bb);
  }

  lemma PermutedAlike(env: Env, auth: Auth.Authority, a: seq<Log>, b: seq<Log>, p: Str)
    requires multiset(a) == multiset(b) && CollisionFree(env, a)
    ensures AlikeAt(env, AcceptedAll(auth, a), AcceptedAll(auth, b), p)
  {
    hide CollisionFree, AcceptedAll, WrittenPaths, AppendedPaths, Ranked, AppendsAll, Sort;
    SamePaths(auth, a, b);
    SameRanking(env, auth, a, b, p);
    SameAppends(env, auth, a, b, p);
  }
}
