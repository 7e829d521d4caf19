/** The single-writer update log: verification, the record it resolves to, and
    the choice of the newest verified copy. */
module UpdateLog {
  import opened Wrappers
  import opened ByteStrings
  import opened Crypto

  const DOMAIN_SEPARATOR: Bytes := Ascii("jolt:update-log-entry:v1\0")

  datatype UpdateLogError =
    | InvalidOwnerPublicKey
    | InvalidSignatureLength
    | InvalidSignature
    | InvalidGenesisSequence
    | GenesisHasPreviousHash
    | OutOfOrderSequence(index: nat, expected: nat, actual: nat)
    | BrokenPreviousHash(index: nat)
    | OwnerChanged(index: nat)
    | EmptyLog
    | IdentityMismatch

  datatype Profile = Profile(displayName: Option<Str>, bio: Option<Str>, avatar: Option<Str>)

  datatype RelayCapability = Discovery | Pinning | Serving

  datatype RelayHint = RelayHint(
    identity: Str, peerId: Str, addresses: seq<Str>, capabilities: seq<RelayCapability>, expiresAt: Option<U64>)

  datatype Action =
    | PublishContent(contentId: Str)
    | UpdateRoot(contentId: Str)
    | UpdateProfile(profile: Profile)
    | SetPath(path: Str, contentId: Str)
    | RemovePath(path: Str)
    | SetReachability(relays: seq<RelayHint>)

  datatype Body = Body(ownerPublicKey: Bytes, sequence: U64, previousHash: Option<Hash>, action: Action)

  datatype Entry = Entry(body: Body, signature: Bytes)

  type Log = seq<Entry>

  datatype Resolved = Resolved(
    ownerPublicKey: Bytes,
    latestSequence: nat,
    latestRoot: Option<Str>,
    profile: Option<Profile>,
    paths: map<Str, Str>,
    reachability: seq<RelayHint>)

  // ---- canonical bytes ----

  function CapabilityByte(c: RelayCapability): Byte
  {
    match c case Discovery => 0 case Pinning => 1 case Serving => 2
  }

  function CapabilitiesBytes(cs: seq<RelayCapability>): Bytes
  {
    if cs == [] then [] else [CapabilityByte(cs[0])] + CapabilitiesBytes(cs[1..])
  }

  function RelayBytes(r: RelayHint): (b: Bytes)
    ensures |b| >= 8
  {
    PutBytes(r.identity) +
    (PutBytes(r.peerId) +
     (PutU64(|r.addresses|) +
      (PutStrings(r.addresses) +
       (PutU64(|r.capabilities|) +
        (CapabilitiesBytes(r.capabilities) + PutOptionalU64(r.expiresAt))))))
  }

  function RelaysBytes(rs: seq<RelayHint>): Bytes
  {
    if rs == [] then [] else RelayBytes(rs[0]) + RelaysBytes(rs[1..])
  }

  function ActionBytes(a: Action): (r: Bytes)
    ensures |r| >= 1
  {
    match a
    case PublishContent(contentId) => [0] + PutBytes(contentId)
    case UpdateRoot(contentId) => [1] + PutBytes(contentId)
    case UpdateProfile(profile) =>
      [2] + (PutOptionalString(profile.displayName) +
             (PutOptionalString(profile.bio) + PutOptionalString(profile.avatar)))
    case SetPath(path, contentId) => [3] + (PutBytes(path) + PutBytes(contentId))
    case RemovePath(path) => [4] + PutBytes(path)
    case SetReachability(relays) => [5] + (PutU64(|relays|) + RelaysBytes(relays))
  }

  function CanonicalBytes(b: Body): Bytes
  {
    DOMAIN_SEPARATOR +
    (PutBytes(b.ownerPublicKey) +
     (PutU64(b.sequence) +
      (PutOptionalHash(b.previousHash) + ActionBytes(b.action))))
  }

  function EntryHash(env: Env, e: Entry): Hash
  {
    env.digest(CanonicalBytes(e.body))
  }

  // ---- verification ----

  function VerifySignature(env: Env, key: Bytes, payload: Bytes, signature: Bytes): Option<UpdateLogError>
  {
    if |key| != PUBLIC_KEY_LEN then Some(InvalidOwnerPublicKey)
    else if |signature| != SIGNATURE_LEN then Some(InvalidSignatureLength)
    else if !env.keyValid(key) then Some(InvalidOwnerPublicKey)
    else if !env.verifies(key, payload, signature) then Some(InvalidSignature)
    else None
  }

  /** The first complaint about entry i, given the owner and the entry before. */
  function LinkError(env: Env, owner: Bytes, previous: Option<Entry>, i: nat, e: Entry): Option<UpdateLogError>
  {
    var signature := VerifySignature(env, e.body.ownerPublicKey, CanonicalBytes(e.body), e.signature);
    if signature.Some? then signature
    else if previous.None? then
      if e.body.sequence != 0 then Some(InvalidGenesisSequence)
      else if e.body.previousHash.Some? then Some(GenesisHasPreviousHash)
      else None
    else if e.body.ownerPublicKey != owner then Some(OwnerChanged(i))
    else if e.body.sequence != previous.value.body.sequence + 1 then
      Some(OutOfOrderSequence(i, previous.value.body.sequence + 1, e.body.sequence))
    else if e.body.previousHash != Some(EntryHash(env, previous.value)) then Some(BrokenPreviousHash(i))
    else None
  }

  function EntryError(env: Env, log: Log, i: nat): Option<UpdateLogError>
    requires i < |log|
  {
    LinkError(env, log[0].body.ownerPublicKey, if i == 0 then None else Some(log[i - 1]), i, log[i])
  }

  /** The complaint about the first bad entry among the first n, or None. */
  function ErrorIn(env: Env, log: Log, n: nat): Option<UpdateLogError>
    requires n <= |log|
  {
    if n == 0 then None
    else
      var earlier := ErrorIn(env, log, n - 1);
      if earlier.Some? then earlier else EntryError(env, log, n - 1)
  }

  predicate Verified(env: Env, log: Log)
  {
    forall i :: 0 <= i < |log| ==> EntryError(env, log, i).None?
  }

  lemma {:induction false} ErrorMeaning(env: Env, log: Log, n: nat)
    requires n <= |log|
    ensures ErrorIn(env, log, n).None? <==> forall i :: 0 <= i < n ==> EntryError(env, log, i).None?
  {
    hide EntryError;
    if n > 0 { ErrorMeaning(env, log, n - 1); }
  }

  lemma {:induction false} ErrorStands(env: Env, log: Log, i: nat, n: nat)
    requires i <= n <= |log| && ErrorIn(env, log, i).Some?
    ensures ErrorIn(env, log, n) == ErrorIn(env, log, i)
  {
    hide EntryError;
    if i < n { ErrorStands(env, log, i, n - 1); }
  }

  /** `verify_update_log` */
  method VerifyUpdateLog(env: Env, log: Log) returns (r: Option<UpdateLogError>)
    ensures r == ErrorIn(env, log, |log|)
    ensures r.None? <==> Verified(env, log)
  {
    hide LinkError;
    var index := 0;
    while index < |log|
      invariant 0 <= index <= |log|
      invariant ErrorIn(env, log, index).None?
    {
      r := EntryError(env, log, index);
      if r.Some? {
        ErrorStands(env, log, index + 1, |log|);
        ErrorMeaning(env, log, |log|);
        return;
      }
      index := index + 1;
    }
    ErrorMeaning(env, log, |log|);
    r := None;
  }

  /** Entry i of a verified log has sequence i, the log's owner and that owner's valid
      signature, and names entry i - 1 by hash. */
  lemma {:induction false} VerifiedFacts(env: Env, log: Log, i: nat)
    requires Verified(env, log) && i < |log|
    ensures log[i].body.sequence == i
    ensures log[i].body.ownerPublicKey == log[0].body.ownerPublicKey
    ensures |log[i].body.ownerPublicKey| == PUBLIC_KEY_LEN
    ensures env.keyValid(log[0].body.ownerPublicKey)
    ensures env.verifies(log[0].body.ownerPublicKey, CanonicalBytes(log[i].body), log[i].signature)
    ensures log[i].body.previousHash == if i == 0 then None else Some(EntryHash(env, log[i - 1]))
  {
    hide EntryHash, CanonicalBytes;
    assert EntryError(env, log, i).None?;
    if i > 0 {
      hide Verified;
      VerifiedFacts(env, log, i - 1);
    }
  }

  // ---- the checks, in fields ----

  /** What entry i of a log must be: signed by the log's owner and linked to the entry
      before it. */
  ghost predicate EntryFits(env: Env, log: Log, i: nat)
    requires i < |log|
  {
    var b, owner := log[i].body, log[0].body.ownerPublicKey;
    && b.ownerPublicKey == owner && b.sequence == i
    && b.previousHash == (if i == 0 then None else Some(env.digest(CanonicalBytes(log[i - 1].body))))
    && |owner| == 32 && |log[i].signature| == 64
    && env.keyValid(owner) && env.verifies(owner, CanonicalBytes(b), log[i].signature)
  }

  /** A log verifies exactly when every entry fits. */
  lemma VerifiedIff(env: Env, log: Log)
    ensures Verified(env, log) <==> forall i :: 0 <= i < |log| ==> EntryFits(env, log, i)
  {
    hide CanonicalBytes;
    if Verified(env, log) {
      forall i | 0 <= i < |log| ensures EntryFits(env, log, i) {
        VerifiedFacts(env, log, i);
        assert EntryError(env, log, i).None?;
      }
    }
    if forall i :: 0 <= i < |log| ==> EntryFits(env, log, i) {
      forall i | 0 <= i < |log| ensures EntryError(env, log, i).None? {
        assert EntryFits(env, log, i);
        if i > 0 { assert EntryFits(env, log, i - 1); }
      }
    }
  }

  /** The error names what is wrong with entry i. */
  ghost predicate Faulty(env: Env, log: Log, i: nat, error: UpdateLogError)
    requires i < |log|
  {
    var b, owner := log[i].body, log[0].body.ownerPublicKey;
    match error
    case InvalidOwnerPublicKey => |b.ownerPublicKey| != 32 || !env.keyValid(b.ownerPublicKey)
    case InvalidSignatureLength => |log[i].signature| != 64
    case InvalidSignature => !env.verifies(b.ownerPublicKey, CanonicalBytes(b), log[i].signature)
    case InvalidGenesisSequence => i == 0 && b.sequence != 0
    case GenesisHasPreviousHash => i == 0 && b.previousHash.Some?
    case OutOfOrderSequence(at, expected, actual) => at == expected == i > 0 && actual == b.sequence != i
    case BrokenPreviousHash(at) =>
      at == i > 0 && b.previousHash != Some(env.digest(CanonicalBytes(log[i - 1].body)))
    case OwnerChanged(at) => at == i > 0 && b.ownerPublicKey != owner
    case _ => false
  }

  /** An error is the fault of the first entry that does not fit. */
  lemma {:induction false} ErrorMeans(env: Env, log: Log, n: nat)
    requires n <= |log| && ErrorIn(env, log, n).Some?
    ensures exists i: nat :: i < n && Faulty(env, log, i, ErrorIn(env, log, n).value) && Verified(env, log[..i])
  {
    hide CanonicalBytes;
    if ErrorIn(env, log, n - 1).Some? {
      ErrorMeans(env, log, n - 1);
    } else {
      var i := n - 1;
      ErrorMeaning(env, log, i);
      forall k | 0 <= k < i ensures EntryError(env, log[..i], k).None? {
        assert EntryError(env, log[..i], k) == EntryError(env, log, k);
      }
      if i > 0 {
        VerifiedFacts(env, log[..i], i - 1);
        assert log[..i][i - 1] == log[i - 1];
      }
      assert Faulty(env, log, i, ErrorIn(env, log, n).value);
    }
  }

  // ---- resolution ----

  function Apply(r: Resolved, e: Entry): Resolved
  {
    var r := r.(latestSequence := e.body.sequence);
    match e.body.action
    case PublishContent(_) => r
    case UpdateRoot(contentId) => r.(latestRoot := Some(contentId))
    case UpdateProfile(profile) => r.(profile := Some(profile))
    case SetPath(path, contentId) => r.(paths := r.paths[path := contentId])
    case RemovePath(path) => r.(paths := r.paths - {path})
    case SetReachability(relays) => r.(reachability := relays)
  }

  lemma ApplyKeeps(r: Resolved, e: Entry)
    ensures Apply(r, e).ownerPublicKey == r.ownerPublicKey && Apply(r, e).latestSequence == e.body.sequence
  {
  }

  /** The parts of a record an action can touch. */
  datatype Field = Root | Bio | Reach | At(path: Str)

  predicate Touches(a: Action, f: Field)
  {
    match f
    case Root => a.UpdateRoot?
    case Bio => a.UpdateProfile?
    case Reach => a.SetReachability?
    case At(p) => (a.SetPath? || a.RemovePath?) && a.path == p
  }

  /** The last of the first n actions that touches a field. */
  function LastAction(log: Log, n: nat, f: Field): (r: Option<Action>)
    requires n <= |log|
    ensures r.Some? ==> Touches(r.value, f)
  {
    if n == 0 then None
    else if Touches(log[n - 1].body.action, f) then Some(log[n - 1].body.action)
    else LastAction(log, n - 1, f)
  }

  /** What the first n entries of a log say, field by field: each field carries
      the effect of the last action on it. */
  ghost predicate Says(log: Log, n: nat, r: Resolved)
    requires n <= |log|
  {
    && (var last := LastAction(log, n, Root);
        r.latestRoot == if last.Some? then Some(last.value.contentId) else None)
    && (var last := LastAction(log, n, Bio);
        r.profile == if last.Some? then Some(last.value.profile) else None)
    && (var last := LastAction(log, n, Reach);
        r.reachability == if last.Some? then last.value.relays else [])
    && forall p :: SaysPath(log, n, r, p)
  }

  ghost predicate SaysPath(log: Log, n: nat, r: Resolved, p: Str)
    requires n <= |log|
  {
    var last := LastAction(log, n, At(p));
    && (p in r.paths <==> last.Some? && last.value.SetPath?)
    && (p in r.paths ==> r.paths[p] == last.value.contentId)
  }

  lemma SaysStep(log: Log, n: nat, r: Resolved)
    requires n < |log| && Says(log, n, r)
    ensures Says(log, n + 1, Apply(r, log[n]))
  {
    var next, r' := n + 1, Apply(r, log[n]);
    forall p ensures SaysPath(log, next, r', p) {
      assert SaysPath(log, n, r, p);
    }
  }

  /** `resolve_latest_record`: fails on an unverified or empty log; otherwise every
      field of the answer is the effect of the last action on it. */
  method ResolveLatestRecord(env: Env, log: Log) returns (r: Result<Resolved, UpdateLogError>)
    ensures r.Ok? <==> Verified(env, log) && log != []
    ensures r.Ok? ==>
      && r.value.ownerPublicKey == log[0].body.ownerPublicKey
      && r.value.latestSequence == |log| - 1
      && Says(log, |log|, r.value)
    ensures r.Err? ==> if log == [] then r.error == EmptyLog else ErrorIn(env, log, |log|) == Some(r.error)
  {
    hide Says, Verified, EntryError, Apply, EntryHash;
    var error := VerifyUpdateLog(env, log);
    if error.Some? {
      return Err(error.value);
    }
    if log == [] {
      return Err(EmptyLog);
    }
    var resolved := Resolved(log[0].body.ownerPublicKey, log[0].body.sequence, None, None, map[], []);
    SaysNothing(log, resolved);
    var i := 0;
    while i < |log|
      invariant 0 <= i <= |log|
      invariant Says(log, i, resolved)
      invariant resolved.ownerPublicKey == log[0].body.ownerPublicKey
      invariant i > 0 ==> resolved.latestSequence == i - 1
    {
      SaysStep(log, i, resolved);
      VerifiedFacts(env, log, i);
      ApplyKeeps(resolved, log[i]);
      resolved := Apply(resolved, log[i]);
      i := i + 1;
    }
    r := Ok(resolved);
  }

  lemma SaysNothing(log: Log, r: Resolved)
    requires r.latestRoot.None? && r.profile.None? && r.paths == map[] && r.reachability == []
    ensures Says(log, 0, r)
  {
    forall p ensures SaysPath(log, 0, r, p) { }
  }

  // ---- choosing the newest copy ----

  /** `verify_update_log_for_identity`; the original indexes entry 0, so the log
      must not be empty. */
  function VerifyForIdentity(env: Env, identity: Str, log: Log): Result<nat, UpdateLogError>
    requires log != []
  {
    var error := ErrorIn(env, log, |log|);
    if error.Some? then Err(error.value)
    else if env.identityText(log[0].body.ownerPublicKey) != identity then Err(IdentityMismatch)
    else Ok(log[|log| - 1].body.sequence)
  }

  /** `max_by_key` over the verified candidates: the last of the greatest. */
  function SelectNewest(env: Env, identity: Str, candidates: seq<Log>): (r: Option<Log>)
    requires forall i :: 0 <= i < |candidates| ==> candidates[i] != []
    ensures r.Some? ==> r.value in candidates
  {
    if candidates == [] then None
    else
      var n := |candidates| - 1;
      var best := SelectNewest(env, identity, candidates[..n]);
      var c := candidates[n];
      assert candidates == candidates[..n] + [c];
      if VerifyForIdentity(env, identity, c).Err? then best
      else if best.None? || best.value[|best.value| - 1].body.sequence <= VerifyForIdentity(env, identity, c).value
      then Some(c)
      else best
  }

  ghost predicate Eligible(env: Env, identity: Str, log: Log)
  {
    log != [] && Verified(env, log) && env.identityText(log[0].body.ownerPublicKey) == identity
  }

  lemma EligibleMeans(env: Env, identity: Str, log: Log)
    requires log != []
    ensures VerifyForIdentity(env, identity, log).Ok? <==> Eligible(env, identity, log)
    ensures Eligible(env, identity, log) ==> log[|log| - 1].body.sequence == |log| - 1
  {
    hide EntryError;
    ErrorMeaning(env, log, |log|);
    if Eligible(env, identity, log) { VerifiedFacts(env, log, |log| - 1); }
  }

  /** The selection is an eligible candidate at least as long as every other, and
      is missing only when no candidate is eligible. */
  lemma {:induction false} SelectsLongestVerified(env: Env, identity: Str, candidates: seq<Log>)
    requires forall i :: 0 <= i < |candidates| ==> candidates[i] != []
    ensures
      var r := SelectNewest(env, identity, candidates);
      && (r.Some? ==> Eligible(env, identity, r.value))
      && forall c :: c in candidates && Eligible(env, identity, c) ==> r.Some? && |c| <= |r.value|
  {
    hide Verified, ErrorIn;
    if candidates != [] {
      var n := |candidates| - 1;
      var best := SelectNewest(env, identity, candidates[..n]);
      SelectsLongestVerified(env, identity, candidates[..n]);
      EligibleMeans(env, identity, candidates[n]);
      if best.Some? { EligibleMeans(env, identity, best.value); }
      assert candidates == candidates[..n] + [candidates[n]];
    }
  }

  /** Candidate i is chosen, and every later eligible one is shorter. */
  ghost predicate LastChosen(env: Env, identity: Str, candidates: seq<Log>, r: Log, i: nat)
  {
    && i < |candidates| && candidates[i] == r
    && forall k :: i < k < |candidates| && Eligible(env, identity, candidates[k]) ==> |candidates[k]| < |r|
  }

  lemma OneMoreCandidate(env: Env, identity: Str, candidates: seq<Log>, c: Log, r: Log, i: nat)
    requires LastChosen(env, identity, candidates, r, i) && (Eligible(env, identity, c) ==> |c| < |r|)
    ensures LastChosen(env, identity, candidates + [c], r, i)
  {
    hide Eligible;
  }

  /** What one more candidate does to the selection. */
  lemma SelectNext(env: Env, identity: Str, candidates: seq<Log>)
    requires candidates != [] && forall i :: 0 <= i < |candidates| ==> candidates[i] != []
    ensures
      var n := |candidates| - 1;
      var r, best := SelectNewest(env, identity, candidates), SelectNewest(env, identity, candidates[..n]);
      var c := candidates[n];
      if Eligible(env, identity, c) && (best.None? || |best.value| <= |c|) then r == Some(c) else r == best
  {
    hide Eligible, VerifyForIdentity;
    var n := |candidates| - 1;
    var best := SelectNewest(env, identity, candidates[..n]);
    EligibleMeans(env, identity, candidates[n]);
    if VerifyForIdentity(env, identity, candidates[n]).Ok? { LastSequence(env, identity, candidates[n]); }
    SelectsLongestVerified(env, identity, candidates[..n]);
    if best.Some? { EligibleMeans(env, identity, best.value); }
  }

  lemma LastSequence(env: Env, identity: Str, log: Log)
    requires log != [] && VerifyForIdentity(env, identity, log).Ok?
    ensures VerifyForIdentity(env, identity, log).value == |log| - 1
  {
    hide Eligible;
    EligibleMeans(env, identity, log);
  }

  /** Of the longest eligible candidates the selection is the last. */
  lemma {:induction false} SelectsLast(env: Env, identity: Str, candidates: seq<Log>) returns (i: nat)
    requires forall i :: 0 <= i < |candidates| ==> candidates[i] != []
    requires SelectNewest(env, identity, candidates).Some?
    ensures LastChosen(env, identity, candidates, SelectNewest(env, identity, candidates).value, i)
  {
    var n := |candidates| - 1;
    SelectNext(env, identity, candidates);
    hide Eligible, LastChosen;
    if SelectNewest(env, identity, candidates) == SelectNewest(env, identity, candidates[..n])
       && SelectNewest(env, identity, candidates) != Some(candidates[n]) {
      i := SelectsLast(env, identity, candidates[..n]);
      OneMoreCandidate(env, identity, candidates[..n], candidates[n], SelectNewest(env, identity, candidates).value, i);
      assert candidates[..n] + [candidates[n]] == candidates;
    } else {
      i := n;
      LastIsChosen(env, identity, candidates);
    }
  }

  lemma LastIsChosen(env: Env, identity: Str, candidates: seq<Log>)
    requires candidates != []
    ensures LastChosen(env, identity, candidates, candidates[|candidates| - 1], |candidates| - 1)
  {
  }
}
