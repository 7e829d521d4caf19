/** Merging an identity's device logs. The functions below say what the merge
    means, path by path; `MergeDeviceWriterLogs` computes it in one pass over the
    logs. */
module DeviceWriterMerge {
  import opened Wrappers
  import opened ByteStrings
  import opened Crypto
  import opened Ordering
  import opened DeviceWriterLog
  import Auth = IdentityAuthority

  datatype PathState = Present(contentId: Str) | Tombstone

  datatype MergedEntry = MergedEntry(
    identity: Str, deviceId: Str, sequence: nat, entryHash: Hash, createdAt: nat, state: PathState)

  datatype AppendRecord = AppendRecord(
    identity: Str, deviceId: Str, sequence: nat, entryHash: Hash, createdAt: nat, contentId: Str)

  datatype Reason = UnknownDevice | RevokedDevice

  datatype Rejection = Rejection(
    identity: Str, deviceId: Str, sequence: nat, entryHash: Hash, contentId: Option<Str>, reason: Reason)

  datatype MergedState = MergedState(
    identity: Str,
    singletonPaths: map<Str, MergedEntry>,
    singletonConflicts: map<Str, seq<MergedEntry>>,
    appendRecords: map<Str, seq<AppendRecord>>,
    rejectedEntries: seq<Rejection>)

  /** Panicked stands for the `expect` on an empty list of heads. */
  datatype Outcome = Merged(state: MergedState) | Failed(error: LogError) | Panicked

  /** The accepted entries of one log, in log order. */
  type Branch = seq<Entry>

  // ---- admission ----

  function Verdict(auth: Auth.Authority, e: Entry): Option<Reason>
  {
    if e.body.deviceId !in auth.devices then Some(UnknownDevice)
    else if auth.devices[e.body.deviceId].status.Revoked? && !auth.CanWrite(e.body.deviceId, e.body.sequence)
    then Some(RevokedDevice)
    else None
  }

  function AcceptedIn(auth: Auth.Authority, log: Log): (r: Branch)
    ensures forall e :: e in r ==> e in log && Verdict(auth, e).None?
  {
    if log == [] then []
    else
      var n := |log| - 1;
      AcceptedIn(auth, log[..n]) + if Verdict(auth, log[n]).None? then [log[n]] else []
  }

  function AcceptedAll(auth: Auth.Authority, logs: seq<Log>): (r: seq<Branch>)
    ensures |r| == |logs|
    ensures forall i :: 0 <= i < |logs| ==> r[i] == AcceptedIn(auth, logs[i])
  {
    if logs == [] then []
    else AcceptedAll(auth, logs[..|logs| - 1]) + [AcceptedIn(auth, logs[|logs| - 1])]
  }

  function RejectionOf(env: Env, e: Entry, reason: Reason): Rejection
  {
    Rejection(e.body.identity, e.body.deviceId, e.body.sequence, EntryHash(env, e),
              if e.body.operation.SetPath? then Some(e.body.operation.contentId) else None, reason)
  }

  function RejectedIn(env: Env, auth: Auth.Authority, log: Log): seq<Rejection>
  {
    if log == [] then []
    else
      var n := |log| - 1;
      RejectedIn(env, auth, log[..n]) +
      match Verdict(auth, log[n]) case None => [] case Some(reason) => [RejectionOf(env, log[n], reason)]
  }

  function RejectedAll(env: Env, auth: Auth.Authority, logs: seq<Log>): seq<Rejection>
  {
    if logs == [] then []
    else RejectedAll(env, auth, logs[..|logs| - 1]) + RejectedIn(env, auth, logs[|logs| - 1])
  }

  // ---- errors ----

  /** Entries of an authorized device must be signed by it, accepted or not. */
  function SignatureError(env: Env, auth: Auth.Authority, e: Entry): Option<LogError>
  {
    if e.body.deviceId !in auth.devices then None
    else VerifySignature(env, auth.devices[e.body.deviceId].signingKey, CanonicalBytes(e.body), e.signature)
  }

  function SignatureErrorIn(env: Env, auth: Auth.Authority, log: Log, n: nat): Option<LogError>
    requires n <= |log|
  {
    if n == 0 then None
    else
      var earlier := SignatureErrorIn(env, auth, log, n - 1);
      if earlier.Some? then earlier else SignatureError(env, auth, log[n - 1])
  }

  function ErrorIn(env: Env, auth: Auth.Authority, log: Log): Option<LogError>
  {
    var shape := ShapeError(env, auth.identity, log, |log|);
    if shape.Some? then shape else SignatureErrorIn(env, auth, log, |log|)
  }

  /** The error of the first bad log among the first n. */
  function MergeError(env: Env, auth: Auth.Authority, logs: seq<Log>, n: nat): Option<LogError>
    requires n <= |logs|
  {
    if n == 0 then None
    else
      var earlier := MergeError(env, auth, logs, n - 1);
      if earlier.Some? then earlier else ErrorIn(env, auth, logs[n - 1])
  }

  // ---- singleton paths ----

  predicate IsWrite(e: Entry, p: Str)
  {
    e.body.operation.path == p && (e.body.operation.TombstonePath? || e.body.operation.mode.Singleton?)
  }

  predicate IsAppend(e: Entry, p: Str)
  {
    e.body.operation.path == p && e.body.operation.SetPath? && e.body.operation.mode.Append?
  }

  function MergedOf(env: Env, e: Entry): MergedEntry
  {
    MergedEntry(e.body.identity, e.body.deviceId, e.body.sequence, EntryHash(env, e), e.body.createdAt,
                if e.body.operation.SetPath? then Present(e.body.operation.contentId) else Tombstone)
  }

  /** The singleton writes of a branch to a path. */
  function Candidates(env: Env, branch: Branch, p: Str): seq<MergedEntry>
  {
    if branch == [] then []
    else
      var n := |branch| - 1;
      Candidates(env, branch[..n], p) + if IsWrite(branch[n], p) then [MergedOf(env, branch[n])] else []
  }

  function CandidatesAll(env: Env, branches: seq<Branch>, p: Str): seq<MergedEntry>
  {
    if branches == [] then []
    else CandidatesAll(env, branches[..|branches| - 1], p) + Candidates(env, branches[|branches| - 1], p)
  }

  /** The hash of a branch's last write to a path, as a set of at most one. */
  function LastWrite(env: Env, branch: Branch, p: Str): set<Hash>
  {
    if branch == [] then {}
    else
      var n := |branch| - 1;
      if IsWrite(branch[n], p) then {EntryHash(env, branch[n])} else LastWrite(env, branch[..n], p)
  }

  function Observed(e: Entry): set<Hash>
  {
    set h | h in e.body.observedHeads
  }

  /** What the writes of a branch to a path supersede: the heads each observed and
      the branch's own write before it. */
  function SupersededIn(env: Env, branch: Branch, p: Str): set<Hash>
  {
    if branch == [] then {}
    else
      var n := |branch| - 1;
      SupersededIn(env, branch[..n], p) +
      if IsWrite(branch[n], p) then Observed(branch[n]) + LastWrite(env, branch[..n], p) else {}
  }

  function SupersededAll(env: Env, branches: seq<Branch>, p: Str): set<Hash>
  {
    if branches == [] then {}
    else SupersededAll(env, branches[..|branches| - 1], p) + SupersededIn(env, branches[|branches| - 1], p)
  }

  /** `retain` */
  function Unsuperseded(candidates: seq<MergedEntry>, superseded: set<Hash>): seq<MergedEntry>
  {
    if candidates == [] then []
    else
      var n := |candidates| - 1;
      Unsuperseded(candidates[..n], superseded) +
      if candidates[n].entryHash in superseded then [] else [candidates[n]]
  }

  /** The heads of a path: its accepted writes that nothing supersedes. */
  function HeadsAt(env: Env, branches: seq<Branch>, p: Str): seq<MergedEntry>
  {
    Unsuperseded(CandidatesAll(env, branches, p), SupersededAll(env, branches, p))
  }

  /** `entry_order`: sequence, then device id, then hash; time plays no part. */
  function EntryKey(m: MergedEntry): Key
  {
    [[m.sequence], m.deviceId, m.entryHash]
  }

  /** Lower sequence first, then the preceding device id, then the preceding hash. */
  ghost predicate EntryBefore(a: MergedEntry, b: MergedEntry)
  {
    || a.sequence < b.sequence
    || (a.sequence == b.sequence && Precedes(a.deviceId, b.deviceId))
    || (a.sequence == b.sequence && a.deviceId == b.deviceId && Precedes(a.entryHash, b.entryHash))
  }

  ghost predicate SameRank(a: MergedEntry, b: MergedEntry)
  {
    a.sequence == b.sequence && a.deviceId == b.deviceId && a.entryHash == b.entryHash
  }

  lemma EntryKeyMeans(a: MergedEntry, b: MergedEntry)
    ensures KeyLe(EntryKey(a), EntryKey(b)) <==> EntryBefore(a, b) || SameRank(a, b)
  {
    hide KeyLe, Precedes;
    var x, y: Key := [a.deviceId, a.entryHash], [b.deviceId, b.entryHash];
    assert EntryKey(a) == [[a.sequence]] + x && EntryKey(b) == [[b.sequence]] + y;
    KeyStep([a.sequence], [b.sequence], x, y);
    NumberPrecedes(a.sequence, b.sequence);
    LastFields(a.deviceId, b.deviceId, a.entryHash, b.entryHash);
  }

  /** Every order of the merge ends on two strings. */
  lemma LastFields(x: seq<int>, y: seq<int>, u: seq<int>, v: seq<int>)
    ensures KeyLe([x, u], [y, v]) <==> Precedes(x, y) || (x == y && (u == v || Precedes(u, v)))
  {
    hide Precedes;
    assert [x, u] == [x] + [u] && [y, v] == [y] + [v] && [u] == [u] + [] && [v] == [v] + [];
    KeyStep(x, y, [u], [v]);
    KeyStep(u, v, [], []);
    assert KeyLe([], []);
  }

  ghost predicate Ascending(s: seq<MergedEntry>)
  {
    forall i, j :: 0 <= i < j < |s| ==> EntryBefore(s[i], s[j]) || SameRank(s[i], s[j])
  }

  lemma SortedAscends(s: seq<MergedEntry>)
    requires Sorted(s, EntryKey)
    ensures Ascending(s)
  {
    hide KeyLe, EntryKey, EntryBefore, SameRank;
    forall i, j | 0 <= i < j < |s| ensures EntryBefore(s[i], s[j]) || SameRank(s[i], s[j]) {
      EntryKeyMeans(s[i], s[j]);
    }
  }

  /** Sorting heads puts the greatest last and the others in order before it. */
  lemma GreatestWins(heads: seq<MergedEntry>)
    requires heads != []
    ensures
      var ranked := Sort(heads, EntryKey);
      && Ascending(ranked[..|heads| - 1])
      && forall h :: h in heads ==> EntryBefore(h, ranked[|heads| - 1]) || SameRank(h, ranked[|heads| - 1])
  {
    hide Sort, EntryKey, KeyLe, EntryBefore;
    var ranked := Sort(heads, EntryKey);
    var n := |heads| - 1;
    SortSorts(heads, EntryKey);
    SortedPrefix(ranked, n, EntryKey);
    SortedAscends(ranked[..n]);
    forall h | h in heads ensures EntryBefore(h, ranked[n]) || SameRank(h, ranked[n]) {
      SortLastIsGreatest(heads, EntryKey, h);
      EntryKeyMeans(h, ranked[n]);
    }
  }

  function WrittenPaths(branches: seq<Branch>): set<Str>
  {
    set b, e | b in branches && e in b && IsWrite(e, e.body.operation.path) :: e.body.operation.path
  }

  // ---- append paths ----

  function AppendOf(env: Env, e: Entry): AppendRecord
    requires e.body.operation.SetPath?
  {
    AppendRecord(e.body.identity, e.body.deviceId, e.body.sequence, EntryHash(env, e), e.body.createdAt,
                 e.body.operation.contentId)
  }

  function Appends(env: Env, branch: Branch, p: Str): seq<AppendRecord>
  {
    if branch == [] then []
    else
      var n := |branch| - 1;
      Appends(env, branch[..n], p) + if IsAppend(branch[n], p) then [AppendOf(env, branch[n])] else []
  }

  function AppendsAll(env: Env, branches: seq<Branch>, p: Str): seq<AppendRecord>
  {
    if branches == [] then []
    else AppendsAll(env, branches[..|branches| - 1], p) + Appends(env, branches[|branches| - 1], p)
  }

  /** `append_record_order`: time first, then sequence, device id and hash. */
  function AppendKey(r: AppendRecord): Key
  {
    [[r.createdAt], [r.sequence], r.deviceId, r.entryHash]
  }

  /** Earlier first, then the lower sequence, the preceding device id and hash. */
  ghost predicate AppendUpTo(a: AppendRecord, b: AppendRecord)
  {
    || a.createdAt < b.createdAt
    || (a.createdAt == b.createdAt && a.sequence < b.sequence)
    || (a.createdAt == b.createdAt && a.sequence == b.sequence && Precedes(a.deviceId, b.deviceId))
    || (a.createdAt == b.createdAt && a.sequence == b.sequence && a.deviceId == b.deviceId
        && (a.entryHash == b.entryHash || Precedes(a.entryHash, b.entryHash)))
  }

  lemma AppendKeyMeans(a: AppendRecord, b: AppendRecord)
    ensures KeyLe(AppendKey(a), AppendKey(b)) <==> AppendUpTo(a, b)
  {
    hide KeyLe, Precedes;
    var x, y: Key := [a.deviceId, a.entryHash], [b.deviceId, b.entryHash];
    var u, v: Key := [[a.sequence]] + x, [[b.sequence]] + y;
    assert AppendKey(a) == [[a.createdAt]] + u && AppendKey(b) == [[b.createdAt]] + v;
    KeyStep([a.createdAt], [b.createdAt], u, v);
    KeyStep([a.sequence], [b.sequence], x, y);
    NumberPrecedes(a.createdAt, b.createdAt);
    NumberPrecedes(a.sequence, b.sequence);
    LastFields(a.deviceId, b.deviceId, a.entryHash, b.entryHash);
  }

  ghost predicate InAppendOrder(s: seq<AppendRecord>)
  {
    forall i, j :: 0 <= i < j < |s| ==> AppendUpTo(s[i], s[j])
  }

  lemma AppendsInOrder(s: seq<AppendRecord>)
    ensures InAppendOrder(Sort(s, AppendKey))
  {
    hide KeyLe, AppendKey, AppendUpTo, Sort;
    SortSorts(s, AppendKey);
    var r := Sort(s, AppendKey);
    forall i, j | 0 <= i < j < |r| ensures AppendUpTo(r[i], r[j]) {
      AppendKeyMeans(r[i], r[j]);
    }
  }

  function AppendedPaths(branches: seq<Branch>): set<Str>
  {
    set b, e | b in branches && e in b && IsAppend(e, e.body.operation.path) :: e.body.operation.path
  }

  function RejectionKey(r: Rejection): Key
  {
    [r.identity, r.deviceId, [r.sequence], r.entryHash]
  }

  ghost predicate RejectionUpTo(a: Rejection, b: Rejection)
  {
    || Precedes(a.identity, b.identity)
    || (a.identity == b.identity && Precedes(a.deviceId, b.deviceId))
    || (a.identity == b.identity && a.deviceId == b.deviceId && a.sequence < b.sequence)
    || (a.identity == b.identity && a.deviceId == b.deviceId && a.sequence == b.sequence
        && (a.entryHash == b.entryHash || Precedes(a.entryHash, b.entryHash)))
  }

  lemma RejectionKeyMeans(a: Rejection, b: Rejection)
    ensures KeyLe(RejectionKey(a), RejectionKey(b)) <==> RejectionUpTo(a, b)
  {
    hide KeyLe, Precedes;
    var x, y: Key := [[a.sequence], a.entryHash], [[b.sequence], b.entryHash];
    var u, v: Key := [a.deviceId] + x, [b.deviceId] + y;
    assert RejectionKey(a) == [a.identity] + u && RejectionKey(b) == [b.identity] + v;
    KeyStep(a.identity, b.identity, u, v);
    KeyStep(a.deviceId, b.deviceId, x, y);
    NumberPrecedes(a.sequence, b.sequence);
    LastFields([a.sequence], [b.sequence], a.entryHash, b.entryHash);
  }

  ghost predicate InRejectionOrder(s: seq<Rejection>)
  {
    forall i, j :: 0 <= i < j < |s| ==> RejectionUpTo(s[i], s[j])
  }

  lemma RejectionsInOrder(s: seq<Rejection>)
    ensures InRejectionOrder(Sort(s, RejectionKey))
  {
    hide KeyLe, RejectionKey, RejectionUpTo, Sort;
    SortSorts(s, RejectionKey);
    var r := Sort(s, RejectionKey);
    forall i, j | 0 <= i < j < |r| ensures RejectionUpTo(r[i], r[j]) {
      RejectionKeyMeans(r[i], r[j]);
    }
  }

  // ---- the merge ----

  function Ranked(env: Env, branches: seq<Branch>, p: Str): seq<MergedEntry>
  {
    Sort(HeadsAt(env, branches, p), EntryKey)
  }

  /** Every written path has a head. */
  predicate Headed(env: Env, branches: seq<Branch>)
  {
    forall p :: p in WrittenPaths(branches) ==> HeadsAt(env, branches, p) != []
  }

  /** Each written path's greatest head wins. */
  function Winners(env: Env, branches: seq<Branch>): map<Str, MergedEntry>
    requires Headed(env, branches)
  {
    map p | p in WrittenPaths(branches) :: var r := Ranked(env, branches, p); r[|r| - 1]
  }

  /** The other heads, in ascending order, are its conflicts. */
  function Conflicts(env: Env, branches: seq<Branch>): map<Str, seq<MergedEntry>>
    requires Headed(env, branches)
  {
    map p | p in WrittenPaths(branches) && |HeadsAt(env, branches, p)| > 1 ::
      var r := Ranked(env, branches, p); r[..|r| - 1]
  }

  function SortedAppends(env: Env, branches: seq<Branch>): map<Str, seq<AppendRecord>>
  {
    map p | p in AppendedPaths(branches) :: Sort(AppendsAll(env, branches, p), AppendKey)
  }

  function StateOf(env: Env, auth: Auth.Authority, logs: seq<Log>): MergedState
    requires Headed(env, AcceptedAll(auth, logs))
  {
    var branches := AcceptedAll(auth, logs);
    MergedState(auth.identity, Winners(env, branches), Conflicts(env, branches), SortedAppends(env, branches),
                Sort(RejectedAll(env, auth, logs), RejectionKey))
  }

  function OutcomeOf(env: Env, auth: Auth.Authority, logs: seq<Log>): Outcome
  {
    var error := MergeError(env, auth, logs, |logs|);
    if error.Some? then Failed(error.value)
    else if !Headed(env, AcceptedAll(auth, logs)) then Panicked
    else Merged(StateOf(env, auth, logs))
  }

  // ---- the one-pass computation ----

  function Lookup<V>(m: map<Str, V>, p: Str, default: V): V
  {
    if p in m then m[p] else default
  }

  /** The candidate and supersession maps after the finished branches `done` and
      the part of the current branch read so far, at one path. */
  ghost predicate TracksWritesAt(env: Env, done: seq<Branch>, branch: Branch, p: Str,
                                 candidates: map<Str, seq<MergedEntry>>, superseded: map<Str, set<Hash>>)
  {
    && (p in candidates <==> p in superseded)
    && (p in candidates <==> CandidatesAll(env, done, p) + Candidates(env, branch, p) != [])
    && Lookup(candidates, p, []) == CandidatesAll(env, done, p) + Candidates(env, branch, p)
    && Lookup(superseded, p, {}) == SupersededAll(env, done, p) + SupersededIn(env, branch, p)
  }

  ghost predicate TracksWrites(env: Env, done: seq<Branch>, branch: Branch,
                               candidates: map<Str, seq<MergedEntry>>, superseded: map<Str, set<Hash>>)
  {
    forall p :: TracksWritesAt(env, done, branch, p, candidates, superseded)
  }

  ghost predicate TracksAppendsAt(env: Env, done: seq<Branch>, branch: Branch, p: Str,
                                  appends: map<Str, seq<AppendRecord>>)
  {
    && (p in appends <==> AppendsAll(env, done, p) + Appends(env, branch, p) != [])
    && Lookup(appends, p, []) == AppendsAll(env, done, p) + Appends(env, branch, p)
  }

  ghost predicate TracksAppends(env: Env, done: seq<Branch>, branch: Branch, appends: map<Str, seq<AppendRecord>>)
  {
    forall p :: TracksAppendsAt(env, done, branch, p, appends)
  }

  ghost predicate TracksPreviousAt(env: Env, branch: Branch, p: Str, previous: map<Str, Hash>)
  {
    LastWrite(env, branch, p) == if p in previous then {previous[p]} else {}
  }

  ghost predicate TracksPrevious(env: Env, branch: Branch, previous: map<Str, Hash>)
  {
    forall p :: TracksPreviousAt(env, branch, p, previous)
  }

  lemma Snoc<T>(s: seq<T>, x: T)
    ensures (s + [x])[..|s|] == s && (s + [x])[|s|] == x
  {
  }

  /** The specification functions on a branch one entry longer. */
  lemma OneMore(env: Env, branch: Branch, e: Entry, p: Str)
    ensures Candidates(env, branch + [e], p) ==
            Candidates(env, branch, p) + if IsWrite(e, p) then [MergedOf(env, e)] else []
    ensures SupersededIn(env, branch + [e], p) ==
            SupersededIn(env, branch, p) + if IsWrite(e, p) then Observed(e) + LastWrite(env, branch, p) else {}
    ensures LastWrite(env, branch + [e], p) ==
            if IsWrite(e, p) then {EntryHash(env, e)} else LastWrite(env, branch, p)
    ensures Appends(env, branch + [e], p) ==
            Appends(env, branch, p) + if IsAppend(e, p) then [AppendOf(env, e)] else []
  {
    Snoc(branch, e);
  }

  lemma WriteStepAt(env: Env, done: seq<Branch>, branch: Branch, e: Entry, p: Str, previous: map<Str, Hash>,
                    candidates: map<Str, seq<MergedEntry>>, superseded: map<Str, set<Hash>>)
    requires TracksWritesAt(env, done, branch, p, candidates, superseded)
    requires TracksPreviousAt(env, branch, p, previous)
    requires IsWrite(e, e.body.operation.path)
    ensures
      var q := e.body.operation.path;
      var before := if q in previous then {previous[q]} else {};
      && TracksWritesAt(env, done, branch + [e], p,
                        candidates[q := Lookup(candidates, q, []) + [MergedOf(env, e)]],
                        superseded[q := Lookup(superseded, q, {}) + Observed(e) + before])
      && TracksPreviousAt(env, branch + [e], p, previous[q := EntryHash(env, e)])
  {
    hide MergedOf, Observed, EntryHash, CandidatesAll, SupersededAll, Candidates, SupersededIn, LastWrite;
    OneMore(env, branch, e, p);
  }

  lemma WriteStep(env: Env, done: seq<Branch>, branch: Branch, e: Entry, previous: map<Str, Hash>,
                  candidates: map<Str, seq<MergedEntry>>, superseded: map<Str, set<Hash>>)
    requires TracksWrites(env, done, branch, candidates, superseded) && TracksPrevious(env, branch, previous)
    requires IsWrite(e, e.body.operation.path)
    ensures
      var p := e.body.operation.path;
      var before := if p in previous then {previous[p]} else {};
      && TracksWrites(env, done, branch + [e],
                      candidates[p := Lookup(candidates, p, []) + [MergedOf(env, e)]],
                      superseded[p := Lookup(superseded, p, {}) + Observed(e) + before])
      && TracksPrevious(env, branch + [e], previous[p := EntryHash(env, e)])
  {
    hide TracksWritesAt, TracksPreviousAt, Lookup, MergedOf, Observed, EntryHash;
    var q := e.body.operation.path;
    var before := if q in previous then {previous[q]} else {};
    var candidates' := candidates[q := Lookup(candidates, q, []) + [MergedOf(env, e)]];
    var superseded' := superseded[q := Lookup(superseded, q, {}) + Observed(e) + before];
    var previous', branch' := previous[q := EntryHash(env, e)], branch + [e];
    forall p
      ensures TracksWritesAt(env, done, branch', p, candidates', superseded')
      ensures TracksPreviousAt(env, branch', p, previous')
    {
      WriteStepAt(env, done, branch, e, p, previous, candidates, superseded);
    }
  }

  lemma WriteKeepsAppends(env: Env, done: seq<Branch>, branch: Branch, e: Entry, appends: map<Str, seq<AppendRecord>>)
    requires TracksAppends(env, done, branch, appends)
    requires IsWrite(e, e.body.operation.path)
    ensures TracksAppends(env, done, branch + [e], appends)
  {
    hide AppendsAll, Appends;
    forall p ensures TracksAppendsAt(env, done, branch + [e], p, appends) {
      assert TracksAppendsAt(env, done, branch, p, appends);
      OneMore(env, branch, e, p);
    }
  }

  lemma AppendStep(env: Env, done: seq<Branch>, branch: Branch, e: Entry, appends: map<Str, seq<AppendRecord>>)
    requires TracksAppends(env, done, branch, appends)
    requires IsAppend(e, e.body.operation.path)
    ensures
      var p := e.body.operation.path;
      TracksAppends(env, done, branch + [e], appends[p := Lookup(appends, p, []) + [AppendOf(env, e)]])
  {
    hide AppendOf, AppendsAll, Appends;
    var q := e.body.operation.path;
    var appends', branch' := appends[q := Lookup(appends, q, []) + [AppendOf(env, e)]], branch + [e];
    forall p ensures TracksAppendsAt(env, done, branch', p, appends') {
      assert TracksAppendsAt(env, done, branch, p, appends);
      OneMore(env, branch, e, p);
    }
  }

  lemma AppendKeepsWrites(env: Env, done: seq<Branch>, branch: Branch, e: Entry, previous: map<Str, Hash>,
                          candidates: map<Str, seq<MergedEntry>>, superseded: map<Str, set<Hash>>)
    requires TracksWrites(env, done, branch, candidates, superseded) && TracksPrevious(env, branch, previous)
    requires IsAppend(e, e.body.operation.path)
    ensures TracksWrites(env, done, branch + [e], candidates, superseded)
    ensures TracksPrevious(env, branch + [e], previous)
  {
    hide CandidatesAll, SupersededAll, Candidates, SupersededIn, LastWrite;
    forall p
      ensures TracksWritesAt(env, done, branch + [e], p, candidates, superseded)
      ensures TracksPreviousAt(env, branch + [e], p, previous)
    {
      assert TracksWritesAt(env, done, branch, p, candidates, superseded);
      assert TracksPreviousAt(env, branch, p, previous);
      OneMore(env, branch, e, p);
    }
  }

  lemma NextLog(env: Env, done: seq<Branch>, branch: Branch, candidates: map<Str, seq<MergedEntry>>,
                superseded: map<Str, set<Hash>>, appends: map<Str, seq<AppendRecord>>)
    requires TracksWrites(env, done, branch, candidates, superseded)
    requires TracksAppends(env, done, branch, appends)
    ensures TracksWrites(env, done + [branch], [], candidates, superseded)
    ensures TracksAppends(env, done + [branch], [], appends)
  {
    Snoc(done, branch);
    forall p ensures TracksWritesAt(env, done + [branch], [], p, candidates, superseded) {
      assert TracksWritesAt(env, done, branch, p, candidates, superseded);
    }
    forall p ensures TracksAppendsAt(env, done + [branch], [], p, appends) {
      assert TracksAppendsAt(env, done, branch, p, appends);
    }
  }

  // ---- reading a finished pass ----

  lemma {:induction false} CandidatesNonEmpty(env: Env, branches: seq<Branch>, p: Str)
    ensures CandidatesAll(env, branches, p) != [] <==> p in WrittenPaths(branches)
  {
    if branches != [] {
      var n := |branches| - 1;
      CandidatesNonEmpty(env, branches[..n], p);
      CandidatesNonEmptyIn(env, branches[n], p);
      assert branches == branches[..n] + [branches[n]];
      WrittenPathsExtend(branches[..n], branches[n], p);
    }
  }

  lemma {:induction false} CandidatesNonEmptyIn(env: Env, branch: Branch, p: Str)
    ensures Candidates(env, branch, p) != [] <==> exists e :: e in branch && IsWrite(e, p)
  {
    if branch != [] {
      CandidatesNonEmptyIn(env, branch[..|branch| - 1], p);
      assert branch == branch[..|branch| - 1] + [branch[|branch| - 1]];
    }
  }

  lemma WrittenPathsExtend(branches: seq<Branch>, branch: Branch, p: Str)
    ensures p in WrittenPaths(branches + [branch]) <==>
            p in WrittenPaths(branches) || exists e :: e in branch && IsWrite(e, p)
  {
    if e :| e in branch && IsWrite(e, p) { assert branch in branches + [branch]; }
    if p in WrittenPaths(branches) {
      var b, e :| b in branches && e in b && IsWrite(e, e.body.operation.path) && e.body.operation.path == p;
      assert b in branches + [branch];
    }
  }

  lemma {:induction false} AppendsNonEmpty(env: Env, branches: seq<Branch>, p: Str)
    ensures AppendsAll(env, branches, p) != [] <==> p in AppendedPaths(branches)
  {
    if branches != [] {
      var n := |branches| - 1;
      AppendsNonEmpty(env, branches[..n], p);
      AppendsNonEmptyIn(env, branches[n], p);
      assert branches == branches[..n] + [branches[n]];
      AppendedPathsExtend(branches[..n], branches[n], p);
    }
  }

  lemma {:induction false} AppendsNonEmptyIn(env: Env, branch: Branch, p: Str)
    ensures Appends(env, branch, p) != [] <==> exists e :: e in branch && IsAppend(e, p)
  {
    if branch != [] {
      AppendsNonEmptyIn(env, branch[..|branch| - 1], p);
      assert branch == branch[..|branch| - 1] + [branch[|branch| - 1]];
    }
  }

  lemma AppendedPathsExtend(branches: seq<Branch>, branch: Branch, p: Str)
    ensures p in AppendedPaths(branches + [branch]) <==>
            p in AppendedPaths(branches) || exists e :: e in branch && IsAppend(e, p)
  {
    if e :| e in branch && IsAppend(e, p) { assert branch in branches + [branch]; }
    if p in AppendedPaths(branches) {
      var b, e :| b in branches && e in b && IsAppend(e, e.body.operation.path) && e.body.operation.path == p;
      assert b in branches + [branch];
    }
  }

  // ---- errors seen in order ----

  lemma {:induction false} MergeErrorStands(env: Env, auth: Auth.Authority, logs: seq<Log>, i: nat, n: nat)
    requires i <= n <= |logs| && MergeError(env, auth, logs, i).Some?
    ensures MergeError(env, auth, logs, n) == MergeError(env, auth, logs, i)
  {
    hide ErrorIn;
    if i < n { MergeErrorStands(env, auth, logs, i, n - 1); }
  }

  lemma {:induction false} SignatureErrorStands(env: Env, auth: Auth.Authority, log: Log, i: nat, n: nat)
    requires i <= n <= |log| && SignatureErrorIn(env, auth, log, i).Some?
    ensures SignatureErrorIn(env, auth, log, n) == SignatureErrorIn(env, auth, log, i)
  {
    hide SignatureError;
    if i < n { SignatureErrorStands(env, auth, log, i, n - 1); }
  }

  lemma AcceptedStart(env: Env, auth: Auth.Authority)
    ensures AcceptedIn(auth, []) == [] && RejectedIn(env, auth, []) == []
  {
  }

  lemma AcceptedStep(env: Env, auth: Auth.Authority, log: Log, i: nat)
    requires i < |log|
    ensures Verdict(auth, log[i]).None? ==>
      && AcceptedIn(auth, log[..i + 1]) == AcceptedIn(auth, log[..i]) + [log[i]]
      && RejectedIn(env, auth, log[..i + 1]) == RejectedIn(env, auth, log[..i])
    ensures Verdict(auth, log[i]).Some? ==>
      && AcceptedIn(auth, log[..i + 1]) == AcceptedIn(auth, log[..i])
      && RejectedIn(env, auth, log[..i + 1]) ==
         RejectedIn(env, auth, log[..i]) + [RejectionOf(env, log[i], Verdict(auth, log[i]).value)]
  {
    hide RejectionOf, Verdict;
    assert log[..i + 1][..i] == log[..i];
  }

  /** One accepted entry's share of the pass. */
  method Admit(env: Env, entry: Entry, ghost done: seq<Branch>, ghost branch: Branch,
               candidates0: map<Str, seq<MergedEntry>>, superseded0: map<Str, set<Hash>>,
               appends0: map<Str, seq<AppendRecord>>, previous0: map<Str, Hash>)
    returns (candidates: map<Str, seq<MergedEntry>>, superseded: map<Str, set<Hash>>,
             appends: map<Str, seq<AppendRecord>>, previous: map<Str, Hash>)
    requires TracksWrites(env, done, branch, candidates0, superseded0)
    requires TracksAppends(env, done, branch, appends0) && TracksPrevious(env, branch, previous0)
    ensures TracksWrites(env, done, branch + [entry], candidates, superseded)
    ensures TracksAppends(env, done, branch + [entry], appends)
    ensures TracksPrevious(env, branch + [entry], previous)
  {
    hide TracksWrites, TracksAppends, TracksPrevious, MergedOf, AppendOf, EntryHash, Observed;
    candidates, superseded, appends, previous := candidates0, superseded0, appends0, previous0;
    var path := entry.body.operation.path;
    if entry.body.operation.SetPath? && entry.body.operation.mode.Append? {
      AppendKeepsWrites(env, done, branch, entry, previous, candidates, superseded);
      AppendStep(env, done, branch, entry, appends);
      appends := appends[path := Lookup(appends, path, []) + [AppendOf(env, entry)]];
    } else {
      WriteStep(env, done, branch, entry, previous, candidates, superseded);
      WriteKeepsAppends(env, done, branch, entry, appends);
      var before := if path in previous then {previous[path]} else {};
      superseded := superseded[path := Lookup(superseded, path, {}) + Observed(entry) + before];
      previous := previous[path := EntryHash(env, entry)];
      candidates := candidates[path := Lookup(candidates, path, []) + [MergedOf(env, entry)]];
    }
  }

  /** One log's share of the pass. */
  method ReadLog(env: Env, auth: Auth.Authority, log: Log, ghost done: seq<Branch>,
                 candidates0: map<Str, seq<MergedEntry>>, superseded0: map<Str, set<Hash>>,
                 appends0: map<Str, seq<AppendRecord>>, rejected0: seq<Rejection>)
    returns (error: Option<LogError>,
             candidates: map<Str, seq<MergedEntry>>, superseded: map<Str, set<Hash>>,
             appends: map<Str, seq<AppendRecord>>, rejected: seq<Rejection>)
    requires TracksWrites(env, done, [], candidates0, superseded0) && TracksAppends(env, done, [], appends0)
    ensures error == ErrorIn(env, auth, log)
    ensures error.None? ==>
      && TracksWrites(env, done, AcceptedIn(auth, log), candidates, superseded)
      && TracksAppends(env, done, AcceptedIn(auth, log), appends)
      && rejected == rejected0 + RejectedIn(env, auth, log)
  {
    hide TracksWrites, TracksAppends, TracksPrevious, ShapeOk, EntryShapeError, EntryHash, VerifySignature,
         RejectionOf, CanonicalBytes, AcceptedIn, RejectedIn;
    AcceptedStart(env, auth);
    candidates, superseded, appends, rejected := candidates0, superseded0, appends0, rejected0;
    if log == [] {
      return None, candidates, superseded, appends, rejected;
    }
    error := VerifyDeviceLogShape(env, auth.identity, log);
    if error.Some? {
      return;
    }
    var deviceId := log[0].body.deviceId;
    var previous: map<Str, Hash> := map[];
    TracksNothing(env);
    assert log[..0] == [];
    var i := 0;
    while i < |log|
      invariant 0 <= i <= |log|
      invariant SignatureErrorIn(env, auth, log, i).None?
      invariant TracksWrites(env, done, AcceptedIn(auth, log[..i]), candidates, superseded)
      invariant TracksAppends(env, done, AcceptedIn(auth, log[..i]), appends)
      invariant TracksPrevious(env, AcceptedIn(auth, log[..i]), previous)
      invariant rejected == rejected0 + RejectedIn(env, auth, log[..i])
    {
      var entry := log[i];
      ShapeFacts(env, auth.identity, log, i);
      AcceptedStep(env, auth, log, i);
      ghost var branch := AcceptedIn(auth, log[..i]);
      if deviceId !in auth.devices {
        rejected := rejected + [RejectionOf(env, entry, UnknownDevice)];
        i := i + 1;
        continue;
      }
      var device := auth.devices[deviceId];
      error := VerifySignature(env, device.signingKey, CanonicalBytes(entry.body), entry.signature);
      if error.Some? {
        SignatureErrorStands(env, auth, log, i + 1, |log|);
        return;
      }
      if device.status.Revoked? && !auth.CanWrite(entry.body.deviceId, entry.body.sequence) {
        rejected := rejected + [RejectionOf(env, entry, RevokedDevice)];
        i := i + 1;
        continue;
      }
      candidates, superseded, appends, previous :=
        Admit(env, entry, done, branch, candidates, superseded, appends, previous);
      i := i + 1;
    }
    assert log[..|log|] == log;
    error := None;
  }

  lemma TracksNothing(env: Env)
    ensures TracksPrevious(env, [], map[])
    ensures TracksWrites(env, [], [], map[], map[]) && TracksAppends(env, [], [], map[])
  {
    forall p ensures TracksPreviousAt(env, [], p, map[]) { }
    forall p ensures TracksWritesAt(env, [], [], p, map[], map[]) { }
    forall p ensures TracksAppendsAt(env, [], [], p, map[]) { }
  }

  /** The maps of a finished pass are the specification's. */
  lemma FinishedPass(env: Env, branches: seq<Branch>, candidates: map<Str, seq<MergedEntry>>,
                     superseded: map<Str, set<Hash>>, appends: map<Str, seq<AppendRecord>>)
    requires TracksWrites(env, branches, [], candidates, superseded)
    requires TracksAppends(env, branches, [], appends)
    ensures candidates.Keys == superseded.Keys == WrittenPaths(branches)
    ensures appends.Keys == AppendedPaths(branches)
    ensures forall p :: p in candidates ==> Unsuperseded(candidates[p], superseded[p]) == HeadsAt(env, branches, p)
    ensures forall p :: p in appends ==> appends[p] == AppendsAll(env, branches, p)
  {
    hide CandidatesAll, SupersededAll, AppendsAll, Unsuperseded;
    forall p
      ensures p in candidates <==> p in WrittenPaths(branches)
      ensures p in superseded <==> p in candidates
      ensures p in candidates ==> Unsuperseded(candidates[p], superseded[p]) == HeadsAt(env, branches, p)
    {
      assert TracksWritesAt(env, branches, [], p, candidates, superseded);
      assert Lookup(superseded, p, {}) == SupersededAll(env, branches, p);
      assert Lookup(candidates, p, []) == CandidatesAll(env, branches, p);
      CandidatesNonEmpty(env, branches, p);
    }
    forall p
      ensures p in appends <==> p in AppendedPaths(branches)
      ensures p in appends ==> appends[p] == AppendsAll(env, branches, p)
    {
      assert TracksAppendsAt(env, branches, [], p, appends);
      AppendsNonEmpty(env, branches, p);
    }
  }

  /** The winner of every path, or the panic. */
  method Resolve(env: Env, ghost branches: seq<Branch>,
                 candidates: map<Str, seq<MergedEntry>>, superseded: map<Str, set<Hash>>)
    returns (headed: bool, winners: map<Str, MergedEntry>, conflicts: map<Str, seq<MergedEntry>>)
    requires candidates.Keys == superseded.Keys == WrittenPaths(branches)
    requires forall p :: p in candidates ==>
      Unsuperseded(candidates[p], superseded[p]) == HeadsAt(env, branches, p)
    ensures headed <==> Headed(env, branches)
    ensures headed ==> winners == Winners(env, branches) && conflicts == Conflicts(env, branches)
    ensures headed ==> forall p, h :: p in winners && h in Unsuperseded(candidates[p], superseded[p]) ==>
      EntryBefore(h, winners[p]) || SameRank(h, winners[p])
    ensures headed ==> forall p :: p in conflicts ==> Ascending(conflicts[p])
  {
    hide HeadsAt, WrittenPaths, Unsuperseded, Sort, EntryKey, EntryBefore, SameRank, Ascending;
    winners, conflicts := map[], map[];
    var todo := candidates.Keys;
    while todo != {}
      invariant todo <= candidates.Keys
      invariant winners.Keys == candidates.Keys - todo
      invariant forall p :: p in winners ==>
        HeadsAt(env, branches, p) != [] && winners[p] == Last(Ranked(env, branches, p))
      invariant forall p :: p in conflicts <==> p in winners && |HeadsAt(env, branches, p)| > 1
      invariant forall p :: p in conflicts ==> conflicts[p] == AllButLast(Ranked(env, branches, p))
      invariant forall p, h :: p in winners && h in Unsuperseded(candidates[p], superseded[p]) ==>
        EntryBefore(h, winners[p]) || SameRank(h, winners[p])
      invariant forall p :: p in conflicts ==> Ascending(conflicts[p])
      decreases todo
    {
      var path :| path in todo;
      var ranked := Sort(Unsuperseded(candidates[path], superseded[path]), EntryKey);
      if ranked == [] {
        return false, winners, conflicts;
      }
      GreatestWins(Unsuperseded(candidates[path], superseded[path]));
      winners := winners[path := Last(ranked)];
      if |ranked| > 1 {
        conflicts := conflicts[path := AllButLast(ranked)];
      }
      todo := todo - {path};
    }
    headed := true;
  }

  function Last<T>(s: seq<T>): T requires s != [] { s[|s| - 1] }

  function AllButLast<T>(s: seq<T>): seq<T> requires s != [] { s[..|s| - 1] }

  method SortAppends(env: Env, ghost branches: seq<Branch>, appends0: map<Str, seq<AppendRecord>>)
    returns (appends: map<Str, seq<AppendRecord>>)
    requires appends0.Keys == AppendedPaths(branches)
    requires forall p :: p in appends0 ==> appends0[p] == AppendsAll(env, branches, p)
    ensures appends == SortedAppends(env, branches)
  {
    hide AppendedPaths, AppendsAll, Sort;
    appends := appends0;
    var todo := appends.Keys;
    while todo != {}
      invariant todo <= appends.Keys == appends0.Keys
      invariant forall p :: p in appends ==>
        appends[p] == if p in todo then appends0[p] else Sort(appends0[p], AppendKey)
      decreases todo
    {
      var path :| path in todo;
      appends := appends[path := Sort(appends[path], AppendKey)];
      todo := todo - {path};
    }
  }

  /** `merge_device_writer_logs` */
  method MergeDeviceWriterLogs(env: Env, auth: Auth.Authority, logs: seq<Log>) returns (r: Outcome)
    ensures r == OutcomeOf(env, auth, logs)
  {
    hide TracksWrites, TracksAppends, ErrorIn, Winners, Conflicts, SortedAppends, Headed, Unsuperseded, HeadsAt,
         AppendedPaths, WrittenPaths, Sort, AcceptedIn, RejectedIn, AppendsAll;
    var candidates: map<Str, seq<MergedEntry>> := map[];
    var superseded: map<Str, set<Hash>> := map[];
    var appends: map<Str, seq<AppendRecord>> := map[];
    var rejected: seq<Rejection> := [];
    TracksNothing(env);
    var i := 0;
    while i < |logs|
      invariant 0 <= i <= |logs|
      invariant MergeError(env, auth, logs, i).None?
      invariant TracksWrites(env, AcceptedAll(auth, logs[..i]), [], candidates, superseded)
      invariant TracksAppends(env, AcceptedAll(auth, logs[..i]), [], appends)
      invariant rejected == RejectedAll(env, auth, logs[..i])
    {
      var error;
      ghost var done := AcceptedAll(auth, logs[..i]);
      error, candidates, superseded, appends, rejected :=
        ReadLog(env, auth, logs[i], done, candidates, superseded, appends, rejected);
      if error.Some? {
        MergeErrorStands(env, auth, logs, i + 1, |logs|);
        return Failed(error.value);
      }
      NextLog(env, done, AcceptedIn(auth, logs[i]), candidates, superseded, appends);
      assert logs[..i + 1][..i] == logs[..i];
      i := i + 1;
    }
    assert logs[..|logs|] == logs;
    ghost var branches := AcceptedAll(auth, logs);
    FinishedPass(env, branches, candidates, superseded, appends);
    appends := SortAppends(env, branches, appends);
    var headed, winners, conflicts := Resolve(env, branches, candidates, superseded);
    if !headed {
      return Panicked;
    }
    r := Merged(MergedState(auth.identity, winners, conflicts, appends, Sort(rejected, RejectionKey)));
  }
}
