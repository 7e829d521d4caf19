/** What a merge says, in the fields of the logs and the authority alone. */
module MergeMeaning {
  import opened Wrappers
  import opened ByteStrings
  import opened Crypto
  import opened Ordering
  import opened DeviceWriterLog
  import opened DeviceWriterMerge
  import opened HashChains
  import opened MergeCausality
  import Auth = IdentityAuthority

  // ---- entries ----

  ghost function Digest(env: Env, e: Entry): Hash
  {
    env.digest(CanonicalBytes(e.body))
  }

  /** The device may have written the entry: it is active, or was revoked later. */
  ghost predicate Admitted(auth: Auth.Authority, e: Entry)
  {
    && e.body.deviceId in auth.devices
    && var device := auth.devices[e.body.deviceId];
       || device.status == Auth.Active
       || (device.acceptedThrough.Some? && e.body.sequence <= device.acceptedThrough.value)
  }

  ghost predicate Writes(e: Entry, p: Str)
  {
    match e.body.operation
    case SetPath(path, _, mode) => path == p && mode == Singleton
    case TombstonePath(path) => path == p
  }

  ghost predicate AppendsTo(e: Entry, p: Str)
  {
    match e.body.operation
    case SetPath(path, _, mode) => path == p && mode == Append
    case TombstonePath(_) => false
  }

  /** The verdict on an entry, in the fields of its device. */
  lemma VerdictMeans(auth: Auth.Authority, e: Entry)
    ensures Verdict(auth, e) ==
            if Admitted(auth, e) then None
            else if e.body.deviceId in auth.devices then Some(RevokedDevice)
            else Some(UnknownDevice)
  {
  }

  /** A merged entry shows what an entry wrote. */
  ghost predicate Shows(env: Env, m: MergedEntry, e: Entry)
  {
    && m.identity == e.body.identity && m.deviceId == e.body.deviceId && m.sequence == e.body.sequence
    && m.entryHash == Digest(env, e) && m.createdAt == e.body.createdAt
    && match e.body.operation
       case SetPath(_, contentId, _) => m.state == Present(contentId)
       case TombstonePath(_) => m.state == Tombstone
  }

  ghost predicate ShowsAppend(env: Env, r: AppendRecord, e: Entry)
  {
    && r.identity == e.body.identity && r.deviceId == e.body.deviceId && r.sequence == e.body.sequence
    && r.entryHash == Digest(env, e) && r.createdAt == e.body.createdAt
    && e.body.operation.SetPath? && r.contentId == e.body.operation.contentId
  }

  ghost predicate ShowsRejected(env: Env, auth: Auth.Authority, r: Rejection, e: Entry)
  {
    && !Admitted(auth, e)
    && r.identity == e.body.identity && r.deviceId == e.body.deviceId && r.sequence == e.body.sequence
    && r.entryHash == Digest(env, e)
    && r.reason == (if e.body.deviceId in auth.devices then RevokedDevice else UnknownDevice)
    && match e.body.operation
       case SetPath(_, contentId, _) => r.contentId == Some(contentId)
       case TombstonePath(_) => r.contentId == None
  }

  // ---- heads ----

  ghost predicate WriteAt(auth: Auth.Authority, log: Log, i: nat, p: Str)
  {
    i < |log| && Admitted(auth, log[i]) && Writes(log[i], p)
  }

  /** Entry `i` is the last admitted write to the path before position `j`. */
  ghost predicate LastBefore(auth: Auth.Authority, log: Log, i: nat, j: nat, p: Str)
  {
    i < j && WriteAt(auth, log, i, p) && forall k :: i < k < j ==> !WriteAt(auth, log, k, p)
  }

  /** The last admitted write to the path before position `n` has hash `h`. */
  ghost predicate LastHashed(env: Env, auth: Auth.Authority, log: Log, n: nat, p: Str, h: Hash)
  {
    exists i: nat :: LastBefore(auth, log, i, n, p) && Digest(env, log[i]) == h
  }

  /** Entry `j` of a log is an admitted write that supersedes the write with hash `h`:
      it observed it, or is the next write of its own log. */
  ghost predicate Replaces(env: Env, auth: Auth.Authority, log: Log, j: nat, p: Str, h: Hash)
  {
    && WriteAt(auth, log, j, p)
    && (h in log[j].body.observedHeads || LastHashed(env, auth, log, j, p, h))
  }

  /** Entry `i` of a log is an admitted write that nothing supersedes. */
  ghost predicate HeadAt(env: Env, auth: Auth.Authority, logs: seq<Log>, log: Log, i: nat, p: Str)
  {
    && log in logs && WriteAt(auth, log, i, p)
    && forall other, j: nat :: other in logs ==> !Replaces(env, auth, other, j, p, Digest(env, log[i]))
  }

  lemma StepMeans(env: Env, auth: Auth.Authority, log: Log, n: nat)
    requires n < |log|
    ensures AcceptedIn(auth, log[..n + 1]) ==
            AcceptedIn(auth, log[..n]) + if Admitted(auth, log[n]) then [log[n]] else []
  {
    hide Verdict, Admitted;
    VerdictMeans(auth, log[n]);
    AcceptedStep(env, auth, log, n);
  }

  lemma WriteMeans(e: Entry, p: Str)
    ensures IsWrite(e, p) <==> Writes(e, p)
    ensures IsAppend(e, p) <==> AppendsTo(e, p)
  {
  }

  lemma LastHashedStep(env: Env, auth: Auth.Authority, log: Log, n: nat, p: Str, h: Hash)
    requires n < |log|
    ensures LastHashed(env, auth, log, n + 1, p, h) <==>
            if WriteAt(auth, log, n, p) then Digest(env, log[n]) == h else LastHashed(env, auth, log, n, p, h)
  {
    hide Digest, Admitted, Writes;
    var m := n + 1;
    if WriteAt(auth, log, n, p) {
      assert LastBefore(auth, log, n, m, p);
      assert forall i: nat :: LastBefore(auth, log, i, m, p) ==> i == n;
    } else {
      assert forall i: nat :: LastBefore(auth, log, i, m, p) <==> LastBefore(auth, log, i, n, p);
    }
  }

  lemma LastWriteSnoc(env: Env, before: Branch, e: Entry, p: Str)
    ensures LastWrite(env, before + [e], p) == if Writes(e, p) then {Digest(env, e)} else LastWrite(env, before, p)
  {
    WriteMeans(e, p);
    assert (before + [e])[..|before|] == before;
  }

  lemma {:induction false} LastWriteRaw(env: Env, auth: Auth.Authority, log: Log, n: nat, p: Str, h: Hash)
    requires n <= |log|
    ensures h in LastWrite(env, AcceptedIn(auth, log[..n]), p) <==> LastHashed(env, auth, log, n, p, h)
  {
    hide Admitted, Writes, Digest, LastWrite;
    if n == 0 {
      assert log[..0] == [];
      NothingWritten(env, p);
    } else {
      hide LastHashed, AcceptedIn;
      var before, e := AcceptedIn(auth, log[..n - 1]), log[n - 1];
      LastWriteRaw(env, auth, log, n - 1, p, h);
      StepMeans(env, auth, log, n - 1);
      LastHashedStep(env, auth, log, n - 1, p, h);
      LastWriteSnoc(env, before, e, p);
      assert before + [] == before;
    }
  }

  lemma NothingWritten(env: Env, p: Str)
    ensures LastWrite(env, [], p) == {}
  {
  }

  /** Some admitted write among the first `n` entries supersedes the write with hash `h`. */
  ghost predicate ReplacedBelow(env: Env, auth: Auth.Authority, log: Log, n: nat, p: Str, h: Hash)
  {
    exists j: nat :: j < n && Replaces(env, auth, log, j, p, h)
  }

  lemma ReplacedNext(env: Env, auth: Auth.Authority, log: Log, n: nat, p: Str, h: Hash)
    ensures ReplacedBelow(env, auth, log, n + 1, p, h) <==>
            ReplacedBelow(env, auth, log, n, p, h) || Replaces(env, auth, log, n, p, h)
  {
    hide Replaces;
  }

  lemma NothingReplaced(env: Env, p: Str)
    ensures SupersededIn(env, [], p) == {}
  {
  }

  lemma {:induction false} SupersededRaw(env: Env, auth: Auth.Authority, log: Log, n: nat, p: Str, h: Hash)
    requires n <= |log|
    ensures h in SupersededIn(env, AcceptedIn(auth, log[..n]), p) <==> ReplacedBelow(env, auth, log, n, p, h)
  {
    hide Admitted, Writes, IsWrite, LastHashed, LastWrite, SupersededIn;
    if n == 0 {
      assert log[..0] == [];
      NothingReplaced(env, p);
    } else {
      hide AcceptedIn, ReplacedBelow;
      var before := AcceptedIn(auth, log[..n - 1]);
      SupersededRaw(env, auth, log, n - 1, p, h);
      StepMeans(env, auth, log, n - 1);
      WriteMeans(log[n - 1], p);
      LastWriteRaw(env, auth, log, n - 1, p, h);
      SupersededSnoc(env, before, log[n - 1], p, h);
      ReplacedNext(env, auth, log, n - 1, p, h);
      assert before + [] == before;
    }
  }

  lemma SupersededSnoc(env: Env, before: Branch, e: Entry, p: Str, h: Hash)
    ensures h in SupersededIn(env, before + [e], p)
        <==> h in SupersededIn(env, before, p)
             || (IsWrite(e, p) && (h in e.body.observedHeads || h in LastWrite(env, before, p)))
  {
    assert (before + [e])[..|before|] == before;
  }

  lemma SupersededAllRaw(env: Env, auth: Auth.Authority, logs: seq<Log>, p: Str, h: Hash)
    ensures h in SupersededAll(env, AcceptedAll(auth, logs), p)
        <==> exists log, j: nat :: log in logs && Replaces(env, auth, log, j, p, h)
  {
    hide SupersededAll, SupersededIn, Digest, AcceptedIn;
    var branches := AcceptedAll(auth, logs);
    SupersededAllMeans(env, branches, p, h);
    if h in SupersededAll(env, branches, p) {
      var b :| b in branches && h in SupersededIn(env, b, p);
      var l :| 0 <= l < |branches| && branches[l] == b;
      SupersededRaw(env, auth, logs[l], |logs[l]|, p, h);
      assert logs[l][..|logs[l]|] == logs[l];
    }
    if log, j: nat :| log in logs && Replaces(env, auth, log, j, p, h) {
      var l :| 0 <= l < |logs| && logs[l] == log;
      SupersededRaw(env, auth, log, |log|, p, h);
      assert log[..|log|] == log;
      assert branches[l] in branches;
    }
  }

  lemma {:induction false} AcceptedRaw(env: Env, auth: Auth.Authority, log: Log, n: nat, e: Entry)
    requires n <= |log|
    ensures e in AcceptedIn(auth, log[..n]) <==> e in log[..n] && Admitted(auth, e)
  {
    hide Verdict, Admitted;
    if n == 0 {
      assert log[..0] == [];
    } else {
      hide AcceptedIn;
      AcceptedRaw(env, auth, log, n - 1, e);
      StepMeans(env, auth, log, n - 1);
      assert log[..n] == log[..n - 1] + [log[n - 1]];
    }
  }

  /** What is accepted of some log: an admitted entry of it. */
  lemma AcceptedAllRaw(env: Env, auth: Auth.Authority, logs: seq<Log>, e: Entry)
    ensures (exists b :: b in AcceptedAll(auth, logs) && e in b)
        <==> exists log :: log in logs && e in log && Admitted(auth, e)
  {
    hide AcceptedIn, Admitted;
    var branches := AcceptedAll(auth, logs);
    if b :| b in branches && e in b {
      var l :| 0 <= l < |branches| && branches[l] == b;
      AcceptedRaw(env, auth, logs[l], |logs[l]|, e);
      assert logs[l][..|logs[l]|] == logs[l];
    }
    if log :| log in logs && e in log && Admitted(auth, e) {
      var l :| 0 <= l < |logs| && logs[l] == log;
      AcceptedRaw(env, auth, log, |log|, e);
      assert log[..|log|] == log;
      assert branches[l] in branches;
    }
  }

  lemma ShowsMeans(env: Env, m: MergedEntry, e: Entry)
    ensures MergedOf(env, e) == m <==> Shows(env, m, e)
  {
  }

  /** The heads of a path, in fields: what exactly the unsuperseded admitted writes show. */
  lemma HeadsInFields(env: Env, auth: Auth.Authority, logs: seq<Log>, p: Str, m: MergedEntry)
    ensures m in HeadsAt(env, AcceptedAll(auth, logs), p)
        <==> exists log, i: nat :: HeadAt(env, auth, logs, log, i, p) && Shows(env, m, log[i])
  {
    hide AcceptedAll, SupersededAll, CandidatesAll, Admitted, Shows, MergedOf, Replaces, IsWrite, Writes;
    var branches := AcceptedAll(auth, logs);
    UnsupersededMeans(CandidatesAll(env, branches, p), SupersededAll(env, branches, p), m);
    SupersededAllRaw(env, auth, logs, p, m.entryHash);
    if m in HeadsAt(env, branches, p) {
      var b, e := EntryOfCandidate(env, branches, p, m);
      ShowsMeans(env, m, e);
      WriteMeans(e, p);
      AcceptedAllRaw(env, auth, logs, e);
      var log :| log in logs && e in log && Admitted(auth, e);
      var i: nat :| i < |log| && log[i] == e;
      ShownHash(env, m, e);
      assert HeadAt(env, auth, logs, log, i, p);
    }
    if log, i: nat :| HeadAt(env, auth, logs, log, i, p) && Shows(env, m, log[i]) {
      var e := log[i];
      ShowsMeans(env, m, e);
      WriteMeans(e, p);
      ShownHash(env, m, e);
      AcceptedAllRaw(env, auth, logs, e);
      var b :| b in branches && e in b;
      CandidateOfEntry(env, branches, p, b, e);
    }
  }

  lemma ShownHash(env: Env, m: MergedEntry, e: Entry)
    requires Shows(env, m, e)
    ensures m.entryHash == Digest(env, e)
  {
  }

  /** A path is written exactly when some log has an admitted write to it. */
  lemma WrittenInFields(env: Env, auth: Auth.Authority, logs: seq<Log>, p: Str)
    ensures p in WrittenPaths(AcceptedAll(auth, logs)) <==>
              exists log, i: nat :: log in logs && WriteAt(auth, log, i, p)
    ensures p in AppendedPaths(AcceptedAll(auth, logs)) <==>
              exists log, e :: log in logs && e in log && Admitted(auth, e) && AppendsTo(e, p)
  {
    hide AcceptedAll, Admitted, IsWrite, Writes, IsAppend, AppendsTo;
    var branches := AcceptedAll(auth, logs);
    if p in WrittenPaths(branches) {
      var b, e :| b in branches && e in b && IsWrite(e, e.body.operation.path) && e.body.operation.path == p;
      WriteMeans(e, p);
      AcceptedAllRaw(env, auth, logs, e);
      var log :| log in logs && e in log && Admitted(auth, e);
      var i: nat :| i < |log| && log[i] == e;
      assert WriteAt(auth, log, i, p);
    }
    if log, i: nat :| log in logs && WriteAt(auth, log, i, p) {
      WriteMeans(log[i], p);
      WritePath(log[i], p);
      AcceptedAllRaw(env, auth, logs, log[i]);
    }
    if p in AppendedPaths(branches) {
      var b, e :| b in branches && e in b && IsAppend(e, e.body.operation.path) && e.body.operation.path == p;
      WriteMeans(e, p);
      AcceptedAllRaw(env, auth, logs, e);
    }
    if log, e :| log in logs && e in log && Admitted(auth, e) && AppendsTo(e, p) {
      WriteMeans(e, p);
      WritePath(e, p);
      AcceptedAllRaw(env, auth, logs, e);
    }
  }

  lemma WritePath(e: Entry, p: Str)
    ensures Writes(e, p) || AppendsTo(e, p) ==> e.body.operation.path == p
  {
  }

  // ---- what each path shows ----

  /** The entry ranks below what is shown, or ties with it in all three fields. */
  ghost predicate Outranked(env: Env, e: Entry, w: MergedEntry)
  {
    || e.body.sequence < w.sequence
    || (e.body.sequence == w.sequence && Precedes(e.body.deviceId, w.deviceId))
    || (e.body.sequence == w.sequence && e.body.deviceId == w.deviceId
        && (Digest(env, e) == w.entryHash || Precedes(Digest(env, e), w.entryHash)))
  }

  ghost predicate ShownHead(env: Env, auth: Auth.Authority, logs: seq<Log>, p: Str, m: MergedEntry)
  {
    exists log, i: nat :: HeadAt(env, auth, logs, log, i, p) && Shows(env, m, log[i])
  }

  /** The winner shows a head that every head ranks up to. */
  ghost predicate WinnerIs(env: Env, auth: Auth.Authority, logs: seq<Log>, p: Str, w: MergedEntry)
  {
    && ShownHead(env, auth, logs, p, w)
    && forall log, i: nat :: HeadAt(env, auth, logs, log, i, p) ==> Outranked(env, log[i], w)
  }

  /** The conflicts are heads in ascending order, and no head is missing. */
  ghost predicate ConflictsAre(env: Env, auth: Auth.Authority, logs: seq<Log>, p: Str, w: MergedEntry,
                               conflicts: seq<MergedEntry>)
  {
    && Ascending(conflicts)
    && (forall m :: m in conflicts ==> ShownHead(env, auth, logs, p, m))
    && forall m :: ShownHead(env, auth, logs, p, m) ==> m == w || m in conflicts
  }

  lemma ShownOutranked(env: Env, e: Entry, m: MergedEntry, w: MergedEntry)
    requires Shows(env, m, e) && (EntryBefore(m, w) || SameRank(m, w))
    ensures Outranked(env, e, w)
  {
  }

  ghost function Shown(env: Env, e: Entry): (m: MergedEntry)
    ensures Shows(env, m, e)
  {
    MergedEntry(e.body.identity, e.body.deviceId, e.body.sequence, Digest(env, e), e.body.createdAt,
                match e.body.operation
                case SetPath(_, contentId, _) => Present(contentId)
                case TombstonePath(_) => Tombstone)
  }

  lemma PathMeans(env: Env, auth: Auth.Authority, logs: seq<Log>, p: Str)
    requires Headed(env, AcceptedAll(auth, logs)) && p in WrittenPaths(AcceptedAll(auth, logs))
    ensures
      var branches := AcceptedAll(auth, logs);
      var w, conflicts := Winners(env, branches)[p], Conflicts(env, branches);
      && WinnerIs(env, auth, logs, p, w)
      && ConflictsAre(env, auth, logs, p, w, if p in conflicts then conflicts[p] else [])
      && (p in conflicts ==> conflicts[p] != [])
  {
    hide AcceptedAll, HeadsAt, Replaces, Shows, EntryBefore, SameRank, Ranked, Headed, WrittenPaths, Outranked,
         Admitted, Writes;
    var branches := AcceptedAll(auth, logs);
    var w, heads := Winners(env, branches)[p], HeadsAt(env, branches, p);
    WinnerAndConflicts(env, branches, p);
    HeadsInFields(env, auth, logs, p, w);
    forall log, i: nat | HeadAt(env, auth, logs, log, i, p) ensures Outranked(env, log[i], w) {
      var m := ShownAt(env, auth, logs, log, i, p);
      HeadsInFields(env, auth, logs, p, m);
      ShownOutranked(env, log[i], m, w);
    }
    var conflicts := Conflicts(env, branches);
    forall m ensures m in heads <==> ShownHead(env, auth, logs, p, m) {
      HeadsInFields(env, auth, logs, p, m);
    }
    SplitHeads(heads, w, if p in conflicts then conflicts[p] else []);
  }

  lemma ShownAt(env: Env, auth: Auth.Authority, logs: seq<Log>, log: Log, i: nat, p: Str) returns (m: MergedEntry)
    requires HeadAt(env, auth, logs, log, i, p)
    ensures i < |log| && Shows(env, m, log[i])
  {
    m := Shown(env, log[i]);
  }

  /** Taking the winner out of the heads leaves the conflicts. */
  lemma SplitHeads(heads: seq<MergedEntry>, w: MergedEntry, conflicts: seq<MergedEntry>)
    requires w in heads
    requires multiset(conflicts) + multiset{w} == multiset(heads) || (conflicts == [] && |heads| <= 1)
    ensures forall m :: m in heads <==> m == w || m in conflicts
    ensures |conflicts| == |heads| - 1
  {
    if |heads| <= 1 { assert heads == [w]; }
    forall m ensures m in heads <==> m == w || m in conflicts {
      assert m in multiset(heads) <==> m in multiset(conflicts) + multiset{w};
    }
    assert |multiset(heads)| == |multiset(conflicts)| + 1;
  }

  lemma {:induction false} AppendsRaw(env: Env, branches: seq<Branch>, p: Str, r: AppendRecord)
    ensures r in AppendsAll(env, branches, p)
        <==> exists b, e :: b in branches && e in b && AppendsTo(e, p) && ShowsAppend(env, r, e)
  {
    hide ShowsAppend, AppendsTo, Appends;
    if branches != [] {
      var n := |branches| - 1;
      AppendsRaw(env, branches[..n], p, r);
      AppendsInRaw(env, branches[n], p, r);
      assert branches == branches[..n] + [branches[n]];
    }
  }

  lemma {:induction false} AppendsInRaw(env: Env, branch: Branch, p: Str, r: AppendRecord)
    ensures r in Appends(env, branch, p) <==> exists e :: e in branch && AppendsTo(e, p) && ShowsAppend(env, r, e)
  {
    hide ShowsAppend, AppendsTo, AppendOf, IsAppend;
    if branch != [] {
      var n := |branch| - 1;
      AppendsInRaw(env, branch[..n], p, r);
      WriteMeans(branch[n], p);
      if AppendsTo(branch[n], p) { AppendShows(env, r, branch[n], p); }
      assert branch == branch[..n] + [branch[n]];
    }
  }

  lemma AppendShows(env: Env, r: AppendRecord, e: Entry, p: Str)
    requires AppendsTo(e, p)
    ensures e.body.operation.SetPath? && (AppendOf(env, e) == r <==> ShowsAppend(env, r, e))
  {
  }

  ghost predicate AppendedAs(env: Env, auth: Auth.Authority, logs: seq<Log>, p: Str, r: AppendRecord)
  {
    exists log, e :: log in logs && e in log && Admitted(auth, e) && AppendsTo(e, p) && ShowsAppend(env, r, e)
  }

  lemma AppendsMean(env: Env, auth: Auth.Authority, logs: seq<Log>, p: Str, r: AppendRecord)
    ensures r in Sort(AppendsAll(env, AcceptedAll(auth, logs), p), AppendKey) <==> AppendedAs(env, auth, logs, p, r)
  {
    hide AcceptedAll, AppendsAll, Sort, AppendKey, ShowsAppend, AppendsTo, Admitted;
    var branches := AcceptedAll(auth, logs);
    SortElements(AppendsAll(env, branches, p), AppendKey, r);
    AppendsRaw(env, branches, p, r);
    if b, e :| b in branches && e in b && AppendsTo(e, p) && ShowsAppend(env, r, e) {
      AcceptedAllRaw(env, auth, logs, e);
    }
    if log, e :| log in logs && e in log && Admitted(auth, e) && AppendsTo(e, p) && ShowsAppend(env, r, e) {
      AcceptedAllRaw(env, auth, logs, e);
      var b :| b in branches && e in b;
    }
  }

  lemma RejectionShows(env: Env, auth: Auth.Authority, r: Rejection, e: Entry)
    ensures Verdict(auth, e).Some? && RejectionOf(env, e, Verdict(auth, e).value) == r
        <==> ShowsRejected(env, auth, r, e)
  {
    hide Verdict, Admitted;
    VerdictMeans(auth, e);
  }

  lemma {:induction false} RejectedInRaw(env: Env, auth: Auth.Authority, log: Log, r: Rejection)
    ensures r in RejectedIn(env, auth, log) <==> exists e :: e in log && ShowsRejected(env, auth, r, e)
  {
    hide ShowsRejected, RejectionOf, Verdict;
    if log != [] {
      var n := |log| - 1;
      RejectedInRaw(env, auth, log[..n], r);
      RejectionShows(env, auth, r, log[n]);
      assert log == log[..n] + [log[n]];
    }
  }

  lemma {:induction false} RejectedRaw(env: Env, auth: Auth.Authority, logs: seq<Log>, r: Rejection)
    ensures r in RejectedAll(env, auth, logs)
        <==> exists log, e :: log in logs && e in log && ShowsRejected(env, auth, r, e)
  {
    hide ShowsRejected, RejectedIn;
    if logs != [] {
      var n := |logs| - 1;
      RejectedRaw(env, auth, logs[..n], r);
      RejectedInRaw(env, auth, logs[n], r);
      assert logs == logs[..n] + [logs[n]];
    }
  }

  ghost predicate RejectedAs(env: Env, auth: Auth.Authority, logs: seq<Log>, r: Rejection)
  {
    exists log, e :: log in logs && e in log && ShowsRejected(env, auth, r, e)
  }

  // ---- the whole state ----

  ghost predicate SaysOfWrites(env: Env, auth: Auth.Authority, logs: seq<Log>, s: MergedState, p: Str)
  {
    && (p in s.singletonPaths <==> exists log, i: nat :: log in logs && WriteAt(auth, log, i, p))
    && (p in s.singletonPaths ==>
          && WinnerIs(env, auth, logs, p, s.singletonPaths[p])
          && ConflictsAre(env, auth, logs, p, s.singletonPaths[p],
                          if p in s.singletonConflicts then s.singletonConflicts[p] else []))
    && (p in s.singletonConflicts ==> p in s.singletonPaths && s.singletonConflicts[p] != [])
  }

  ghost predicate SaysOfAppends(env: Env, auth: Auth.Authority, logs: seq<Log>, s: MergedState, p: Str)
  {
    && (p in s.appendRecords <==>
          exists log, e :: log in logs && e in log && Admitted(auth, e) && AppendsTo(e, p))
    && (p in s.appendRecords ==>
          && InAppendOrder(s.appendRecords[p])
          && forall r :: r in s.appendRecords[p] <==> AppendedAs(env, auth, logs, p, r))
  }

  ghost predicate Says(env: Env, auth: Auth.Authority, logs: seq<Log>, s: MergedState)
  {
    && s.identity == auth.identity
    && (forall p :: SaysOfWrites(env, auth, logs, s, p))
    && (forall p :: SaysOfAppends(env, auth, logs, s, p))
    && InRejectionOrder(s.rejectedEntries)
    && forall r :: r in s.rejectedEntries <==> RejectedAs(env, auth, logs, r)
  }

  lemma WritesSaid(env: Env, auth: Auth.Authority, logs: seq<Log>, p: Str)
    requires Headed(env, AcceptedAll(auth, logs))
    ensures SaysOfWrites(env, auth, logs, StateOf(env, auth, logs), p)
  {
    hide AcceptedAll, HeadsAt, WriteAt, WinnerIs, ConflictsAre, Headed, WrittenPaths, Ranked, SortedAppends, Sort,
         RejectedAll;
    WrittenInFields(env, auth, logs, p);
    if p in WrittenPaths(AcceptedAll(auth, logs)) {
      PathMeans(env, auth, logs, p);
    }
  }

  lemma AppendsSaid(env: Env, auth: Auth.Authority, logs: seq<Log>, p: Str)
    requires Headed(env, AcceptedAll(auth, logs))
    ensures SaysOfAppends(env, auth, logs, StateOf(env, auth, logs), p)
  {
    hide AcceptedAll, Headed, Winners, Conflicts, RejectedAll, AppendedPaths, AppendedAs, Admitted, AppendsTo,
         InAppendOrder, Sort;
    WrittenInFields(env, auth, logs, p);
    var branches := AcceptedAll(auth, logs);
    if p in AppendedPaths(branches) {
      AppendsInOrder(AppendsAll(env, branches, p));
      forall r ensures r in Sort(AppendsAll(env, branches, p), AppendKey) <==> AppendedAs(env, auth, logs, p, r) {
        AppendsMean(env, auth, logs, p, r);
      }
    }
  }

  /** A merge says exactly what the logs and the authority hold. */
  lemma MergeSays(env: Env, auth: Auth.Authority, logs: seq<Log>)
    requires OutcomeOf(env, auth, logs).Merged?
    ensures Says(env, auth, logs, OutcomeOf(env, auth, logs).state)
  {
    hide SaysOfWrites, SaysOfAppends, MergeError, Headed, Winners, Conflicts, SortedAppends, RejectedAll, Sort,
         InRejectionOrder, RejectedAs, AcceptedAll;
    var s := OutcomeOf(env, auth, logs).state;
    forall p ensures SaysOfWrites(env, auth, logs, s, p) {
      WritesSaid(env, auth, logs, p);
    }
    forall p ensures SaysOfAppends(env, auth, logs, s, p) {
      AppendsSaid(env, auth, logs, p);
    }
    RejectionsInOrder(RejectedAll(env, auth, logs));
    forall r ensures r in s.rejectedEntries <==> RejectedAs(env, auth, logs, r) {
      RejectionSaid(env, auth, logs, r);
    }
  }

  lemma RejectionSaid(env: Env, auth: Auth.Authority, logs: seq<Log>, r: Rejection)
    ensures r in Sort(RejectedAll(env, auth, logs), RejectionKey) <==> RejectedAs(env, auth, logs, r)
  {
    hide Sort, RejectedAll, ShowsRejected;
    SortElements(RejectedAll(env, auth, logs), RejectionKey, r);
    RejectedRaw(env, auth, logs, r);
  }

  /** When no two entries share a hash, a head the winner does not show ranks
      strictly below it. */
  lemma OthersRankBelow(env: Env, auth: Auth.Authority, logs: seq<Log>, p: Str, w: MergedEntry, log: Log, i: nat)
    requires CollisionFree(env, logs)
    requires WinnerIs(env, auth, logs, p, w) && HeadAt(env, auth, logs, log, i, p)
    ensures
      var b := log[i].body;
      || Shows(env, w, log[i])
      || b.sequence < w.sequence
      || (b.sequence == w.sequence && Precedes(b.deviceId, w.deviceId))
      || (b.sequence == w.sequence && b.deviceId == w.deviceId && Precedes(Digest(env, log[i]), w.entryHash))
  {
    hide CollisionFree, Replaces, CanonicalBytes, Precedes, Admitted, Writes;
    var other, j: nat :| HeadAt(env, auth, logs, other, j, p) && Shows(env, w, other[j]);
    if Digest(env, log[i]) == w.entryHash {
      assert InPlay(logs, log[i]) && InPlay(logs, other[j]);
      HashIdentifies(env, logs, log[i], other[j]);
    }
  }

  // ---- failures ----

  ghost predicate SignedByDevice(env: Env, auth: Auth.Authority, e: Entry)
  {
    e.body.deviceId in auth.devices ==>
      Signed(env, auth.devices[e.body.deviceId].signingKey, CanonicalBytes(e.body), e.signature)
  }

  /** A log a merge takes in: one device's chain, signed where the device is known. */
  ghost predicate Clean(env: Env, auth: Auth.Authority, log: Log)
  {
    && (forall i: nat :: i < |log| ==> EntryFits(env, auth.identity, log, i))
    && forall e :: e in log ==> SignedByDevice(env, auth, e)
  }

  lemma SignedMeans(env: Env, auth: Auth.Authority, e: Entry)
    ensures SignatureError(env, auth, e).None? <==> SignedByDevice(env, auth, e)
    ensures SignatureError(env, auth, e).Some? ==>
      SignatureError(env, auth, e).value in {InvalidSignature, InvalidSignatureLength}
  {
    hide CanonicalBytes;
    if e.body.deviceId in auth.devices {
      SignatureMeans(env, auth.devices[e.body.deviceId].signingKey, CanonicalBytes(e.body), e.signature);
    }
  }

  lemma CleanMeans(env: Env, auth: Auth.Authority, log: Log)
    ensures ErrorIn(env, auth, log).None? <==> Clean(env, auth, log)
  {
    hide ErrorIn, SignatureError, SignedByDevice, ShapeOk, EntryFits;
    LogOkMeans(env, auth, log);
    ShapeMeans(env, auth.identity, log);
    forall i | 0 <= i < |log| ensures SignatureError(env, auth, log[i]).None? <==> SignedByDevice(env, auth, log[i]) {
      SignedMeans(env, auth, log[i]);
    }
  }

  /** The error is the fault of a log: of an entry's shape, or of a signature. */
  ghost predicate FaultOf(env: Env, auth: Auth.Authority, log: Log, error: LogError)
  {
    || (exists i: nat :: Faulty(env, auth.identity, log, i, error))
    || (error in {InvalidSignature, InvalidSignatureLength} && exists e :: e in log && !SignedByDevice(env, auth, e))
  }

  lemma {:induction false} SignatureFault(env: Env, auth: Auth.Authority, log: Log, n: nat)
    requires n <= |log| && SignatureErrorIn(env, auth, log, n).Some?
    ensures SignatureErrorIn(env, auth, log, n).value in {InvalidSignature, InvalidSignatureLength}
    ensures exists e :: e in log && !SignedByDevice(env, auth, e)
  {
    hide SignatureError, SignedByDevice;
    if SignatureErrorIn(env, auth, log, n - 1).Some? {
      SignatureFault(env, auth, log, n - 1);
    } else {
      SignedMeans(env, auth, log[n - 1]);
    }
  }

  lemma ErrorIsFault(env: Env, auth: Auth.Authority, log: Log)
    requires ErrorIn(env, auth, log).Some?
    ensures FaultOf(env, auth, log, ErrorIn(env, auth, log).value)
  {
    hide SignatureErrorIn, SignedByDevice, ShapeError, Faulty;
    if ShapeError(env, auth.identity, log, |log|).Some? {
      ShapeErrorMeans(env, auth.identity, log, |log|);
    } else {
      SignatureFault(env, auth, log, |log|);
    }
  }

  /** A merge fails exactly when some log is not clean, with a fault of the first. */
  lemma {:induction false} FailureMeans(env: Env, auth: Auth.Authority, logs: seq<Log>, n: nat)
    requires n <= |logs|
    ensures MergeError(env, auth, logs, n).None? <==> forall k :: 0 <= k < n ==> Clean(env, auth, logs[k])
    ensures MergeError(env, auth, logs, n).Some? ==>
      exists k :: 0 <= k < n && FaultOf(env, auth, logs[k], MergeError(env, auth, logs, n).value)
                  && forall l :: 0 <= l < k ==> Clean(env, auth, logs[l])
  {
    hide ErrorIn, Clean, FaultOf;
    if n > 0 {
      FailureMeans(env, auth, logs, n - 1);
      CleanMeans(env, auth, logs[n - 1]);
      if MergeError(env, auth, logs, n - 1).None? && MergeError(env, auth, logs, n).Some? {
        ErrorIsFault(env, auth, logs[n - 1]);
      }
    }
  }
}
