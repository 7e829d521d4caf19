/** Revoking a device with a cut-off is the same as truncating its logs there. */
module MergeRevocation {
  import opened Wrappers
  import opened ByteStrings
  import opened Crypto
  import opened DeviceWriterLog
  import opened DeviceWriterMerge
  import opened MergeCausality
  import Auth = IdentityAuthority
  import Text

  /** How many sequences a cut-off keeps: those up to it, or none without one. */
  function Kept(cutoff: Option<U64>): nat
  {
    match cutoff case Some(n) => n + 1 case None => 0
  }

  function Truncate(d: Str, cutoff: Option<U64>, log: Log): Log
  {
    if log == [] || log[0].body.deviceId != d || |log| <= Kept(cutoff) then log else log[..Kept(cutoff)]
  }

  function TruncateAll(d: Str, cutoff: Option<U64>, logs: seq<Log>): (r: seq<Log>)
    ensures |r| == |logs|
    ensures forall i :: 0 <= i < |logs| ==> r[i] == Truncate(d, cutoff, logs[i])
  {
    seq(|logs|, i requires 0 <= i < |logs| => Truncate(d, cutoff, logs[i]))
  }

  /** The rejections of the entries past the cut-off. */
  function CutIn(env: Env, d: Str, cutoff: Option<U64>, log: Log): seq<Rejection>
  {
    if log == [] then []
    else
      var e := log[|log| - 1];
      CutIn(env, d, cutoff, log[..|log| - 1]) +
      if e.body.deviceId == d && e.body.sequence >= Kept(cutoff) then [RejectionOf(env, e, RevokedDevice)] else []
  }

  function CutAll(env: Env, d: Str, cutoff: Option<U64>, logs: seq<Log>): seq<Rejection>
  {
    if logs == [] then [] else CutAll(env, d, cutoff, logs[..|logs| - 1]) + CutIn(env, d, cutoff, logs[|logs| - 1])
  }

  /** auth' is auth with the active device d revoked at a cut-off. */
  ghost predicate RevokesAt(auth: Auth.Authority, auth': Auth.Authority, d: Str, cutoff: Option<U64>)
  {
    && d in auth.devices && auth.devices[d].status.Active?
    && auth'.identity == auth.identity && auth'.devices.Keys == auth.devices.Keys
    && (forall id :: id in auth.devices && id != d ==> auth'.devices[id] == auth.devices[id])
    && auth'.devices[d].signingKey == auth.devices[d].signingKey
    && auth'.devices[d].status.Revoked? && auth'.devices[d].acceptedThrough == cutoff
  }

  // ---- one log ----

  lemma VerdictAfter(auth: Auth.Authority, auth': Auth.Authority, d: Str, cutoff: Option<U64>, e: Entry)
    requires RevokesAt(auth, auth', d, cutoff)
    ensures e.body.deviceId == d ==>
      && Verdict(auth, e).None?
      && Verdict(auth', e) == if e.body.sequence < Kept(cutoff) then None else Some(RevokedDevice)
    ensures e.body.deviceId != d ==> Verdict(auth', e) == Verdict(auth, e)
  {
  }

  lemma {:induction false} OtherDevice(env: Env, auth: Auth.Authority, auth': Auth.Authority, d: Str,
                                       cutoff: Option<U64>, log: Log)
    requires RevokesAt(auth, auth', d, cutoff)
    requires forall i :: 0 <= i < |log| ==> log[i].body.deviceId != d
    ensures AcceptedIn(auth', log) == AcceptedIn(auth, log)
    ensures RejectedIn(env, auth', log) == RejectedIn(env, auth, log)
    ensures CutIn(env, d, cutoff, log) == []
  {
    hide RevokesAt, Verdict, RejectionOf;
    if log != [] {
      var n := |log| - 1;
      OtherDevice(env, auth, auth', d, cutoff, log[..n]);
      VerdictAfter(auth, auth', d, cutoff, log[n]);
    }
  }

  lemma {:induction false} WhileActive(env: Env, auth: Auth.Authority, auth': Auth.Authority, d: Str,
                                       cutoff: Option<U64>, log: Log)
    requires RevokesAt(auth, auth', d, cutoff)
    requires forall i :: 0 <= i < |log| ==> log[i].body.deviceId == d
    ensures AcceptedIn(auth, log) == log && RejectedIn(env, auth, log) == []
  {
    hide RevokesAt, Verdict, RejectionOf;
    if log != [] {
      var n := |log| - 1;
      WhileActive(env, auth, auth', d, cutoff, log[..n]);
      VerdictAfter(auth, auth', d, cutoff, log[n]);
      assert AcceptedIn(auth, log) == AcceptedIn(auth, log[..n]) + [log[n]];
      assert RejectedIn(env, auth, log) == RejectedIn(env, auth, log[..n]) + [];
      hide AcceptedIn, RejectedIn;
      assert log == log[..n] + [log[n]];
    }
  }

  lemma {:induction false} AcceptedWhenRevoked(env: Env, auth: Auth.Authority, auth': Auth.Authority, d: Str,
                                               cutoff: Option<U64>, log: Log, n: nat)
    requires RevokesAt(auth, auth', d, cutoff) && n <= |log|
    requires forall i :: 0 <= i < |log| ==> log[i].body.deviceId == d && log[i].body.sequence == i
    ensures AcceptedIn(auth', log[..n]) == log[..if n <= Kept(cutoff) then n else Kept(cutoff)]
  {
    hide RevokesAt, Verdict, RejectionOf, Kept, AcceptedIn, RejectedIn;
    AcceptedStart(env, auth');
    if n > 0 {
      AcceptedWhenRevoked(env, auth, auth', d, cutoff, log, n - 1);
      VerdictAfter(auth, auth', d, cutoff, log[n - 1]);
      AcceptedStep(env, auth', log, n - 1);
      assert log[..n] == log[..n - 1] + [log[n - 1]];
    }
  }

  lemma {:induction false} RejectedWhenRevoked(env: Env, auth: Auth.Authority, auth': Auth.Authority, d: Str,
                                               cutoff: Option<U64>, log: Log)
    requires RevokesAt(auth, auth', d, cutoff)
    requires forall i :: 0 <= i < |log| ==> log[i].body.deviceId == d
    ensures RejectedIn(env, auth', log) == CutIn(env, d, cutoff, log)
  {
    hide RevokesAt, Verdict, RejectionOf, Kept;
    if log != [] {
      var n := |log| - 1;
      RejectedWhenRevoked(env, auth, auth', d, cutoff, log[..n]);
      VerdictAfter(auth, auth', d, cutoff, log[n]);
    }
  }

  /** One well-shaped log: what is accepted after revocation is what was accepted
      of the truncated log, and the new rejections are the cut tail. */
  lemma RevokedLog(env: Env, auth: Auth.Authority, auth': Auth.Authority, d: Str, cutoff: Option<U64>, log: Log)
    requires RevokesAt(auth, auth', d, cutoff) && ShapeOk(env, auth.identity, log)
    ensures AcceptedIn(auth', log) == AcceptedIn(auth, Truncate(d, cutoff, log))
    ensures RejectedIn(env, auth', log) == RejectedIn(env, auth, Truncate(d, cutoff, log)) + CutIn(env, d, cutoff, log)
  {
    hide RevokesAt, ShapeOk, Kept, AcceptedIn, RejectedIn, CutIn, EntryHash, ValidateBody;
    if log == [] {
      AcceptedStart(env, auth);
      AcceptedStart(env, auth');
      OtherDevice(env, auth, auth', d, cutoff, log);
    } else {
      forall i | 0 <= i < |log|
        ensures log[i].body.deviceId == log[0].body.deviceId && log[i].body.sequence == i
      {
        ShapeFacts(env, auth.identity, log, i);
      }
      var cut := Truncate(d, cutoff, log);
      assert log[..|log|] == log;
      if log[0].body.deviceId == d {
        AcceptedWhenRevoked(env, auth, auth', d, cutoff, log, |log|);
        RejectedWhenRevoked(env, auth, auth', d, cutoff, log);
        WhileActive(env, auth, auth', d, cutoff, cut);
      } else {
        OtherDevice(env, auth, auth', d, cutoff, log);
      }
    }
  }

  // ---- errors ----

  lemma {:induction false} SameSignatureErrors(env: Env, auth: Auth.Authority, auth': Auth.Authority, d: Str,
                                               cutoff: Option<U64>, log: Log, n: nat)
    requires RevokesAt(auth, auth', d, cutoff) && n <= |log|
    ensures SignatureErrorIn(env, auth', log, n) == SignatureErrorIn(env, auth, log, n)
  {
    hide VerifySignature, CanonicalBytes;
    if n > 0 { SameSignatureErrors(env, auth, auth', d, cutoff, log, n - 1); }
  }

  lemma {:induction false} SameMergeError(env: Env, auth: Auth.Authority, auth': Auth.Authority, d: Str,
                                          cutoff: Option<U64>, logs: seq<Log>, n: nat)
    requires RevokesAt(auth, auth', d, cutoff) && n <= |logs|
    ensures MergeError(env, auth', logs, n) == MergeError(env, auth, logs, n)
  {
    hide SignatureErrorIn, ShapeError, RevokesAt;
    if n > 0 {
      SameMergeError(env, auth, auth', d, cutoff, logs, n - 1);
      SameSignatureErrors(env, auth, auth', d, cutoff, logs[n - 1], |logs[n - 1]|);
      SameIdentity(auth, auth', d, cutoff);
    }
  }

  lemma SameIdentity(auth: Auth.Authority, auth': Auth.Authority, d: Str, cutoff: Option<U64>)
    requires RevokesAt(auth, auth', d, cutoff)
    ensures auth'.identity == auth.identity
  {
  }

  lemma TruncateKeepsOk(env: Env, auth: Auth.Authority, d: Str, cutoff: Option<U64>, log: Log)
    requires ErrorIn(env, auth, log).None?
    ensures ErrorIn(env, auth, Truncate(d, cutoff, log)).None?
  {
    hide ErrorIn, ShapeOk, SignatureError, Kept;
    LogOkMeans(env, auth, log);
    LogOkMeans(env, auth, Truncate(d, cutoff, log));
    ShapePrefix(env, auth.identity, log, |Truncate(d, cutoff, log)|);
    assert log[..|log|] == log;
  }

  // ---- the theorems ----

  lemma {:induction false} RevokedRejections(env: Env, auth: Auth.Authority, auth': Auth.Authority, d: Str,
                                             cutoff: Option<U64>, logs: seq<Log>)
    requires RevokesAt(auth, auth', d, cutoff)
    requires forall i :: 0 <= i < |logs| ==> ShapeOk(env, auth.identity, logs[i])
    ensures multiset(RejectedAll(env, auth', logs)) ==
            multiset(RejectedAll(env, auth, TruncateAll(d, cutoff, logs))) + multiset(CutAll(env, d, cutoff, logs))
  {
    hide RevokesAt, ShapeOk, RejectedIn, CutIn, Truncate;
    if logs != [] {
      var n := |logs| - 1;
      RevokedRejections(env, auth, auth', d, cutoff, logs[..n]);
      RevokedLog(env, auth, auth', d, cutoff, logs[n]);
      assert TruncateAll(d, cutoff, logs)[..n] == TruncateAll(d, cutoff, logs[..n]);
    }
  }

  /** For any logs: the merge after revocation fails exactly when it failed
      before; otherwise its winners, conflicts and append records are those of the
      truncated logs with the device still active, and its rejections gain
      exactly the cut tail. */
  lemma RevocationIsTruncation(env: Env, auth: Auth.Authority, auth': Auth.Authority, d: Str,
                               cutoff: Option<U64>, logs: seq<Log>)
    requires RevokesAt(auth, auth', d, cutoff)
    ensures MergeError(env, auth', logs, |logs|) == MergeError(env, auth, logs, |logs|)
    ensures
      var cut := TruncateAll(d, cutoff, logs);
      var after, truncated := OutcomeOf(env, auth', logs), OutcomeOf(env, auth, cut);
      MergeError(env, auth, logs, |logs|).None? ==>
        && (after.Merged? <==> truncated.Merged?) && (after.Panicked? <==> truncated.Panicked?)
        && (after.Merged? ==>
              && after.state.(rejectedEntries := []) == truncated.state.(rejectedEntries := [])
              && multiset(after.state.rejectedEntries) ==
                 multiset(truncated.state.rejectedEntries) + multiset(CutAll(env, d, cutoff, logs)))
  {
    hide RevokesAt, ErrorIn, ShapeOk, Headed, Winners, Conflicts, SortedAppends, Truncate, CutAll, RejectedAll;
    SameMergeError(env, auth, auth', d, cutoff, logs, |logs|);
    SameIdentity(auth, auth', d, cutoff);
    if MergeError(env, auth, logs, |logs|).None? {
      NoErrorMeans(env, auth, logs, |logs|);
      var cut := TruncateAll(d, cutoff, logs);
      forall i | 0 <= i < |logs|
        ensures ShapeOk(env, auth.identity, logs[i]) && ErrorIn(env, auth, cut[i]).None?
        ensures AcceptedAll(auth', logs)[i] == AcceptedAll(auth, cut)[i]
      {
        AfterOneLog(env, auth, auth', d, cutoff, logs[i]);
      }
      NoErrorMeans(env, auth, cut, |cut|);
      assert AcceptedAll(auth', logs) == AcceptedAll(auth, cut);
      RevokedRejections(env, auth, auth', d, cutoff, logs);
    }
  }

  lemma AfterOneLog(env: Env, auth: Auth.Authority, auth': Auth.Authority, d: Str, cutoff: Option<U64>, log: Log)
    requires RevokesAt(auth, auth', d, cutoff) && ErrorIn(env, auth, log).None?
    ensures ShapeOk(env, auth.identity, log) && ErrorIn(env, auth, Truncate(d, cutoff, log)).None?
    ensures AcceptedIn(auth', log) == AcceptedIn(auth, Truncate(d, cutoff, log))
  {
    hide RevokesAt, ErrorIn, ShapeOk, SignatureError, Truncate;
    LogOkMeans(env, auth, log);
    RevokedLog(env, auth, auth', d, cutoff, log);
    TruncateKeepsOk(env, auth, d, cutoff, log);
  }

  /** Appending a root-signed revocation of an active device to a verified chain
      always verifies, and leads to an authority of the kind above. */
  lemma AppendedRevocationRevokes(env: Env, identity: Str, records: seq<Auth.Record>, d: Str, cutoff: Option<U64>,
                                  reason: Option<Str>, createdAt: U64, issuedAt: U64, signature: Bytes)
    requires Auth.ChainAuthority(env, identity, records).Ok?
    requires
      var auth := Auth.ChainAuthority(env, identity, records).value;
      d in auth.devices && auth.devices[d].status.Active?
    requires records[|records| - 1].body.sequence + 1 < U64_LIMIT
    requires
      var b := Auth.AppendBody(env, records[|records| - 1], Auth.RevokeDevice(d, cutoff, reason, createdAt), issuedAt);
      Auth.VerifySignature(env, b.rootPublicKey, Auth.CanonicalBytes(b), signature).None?
    ensures
      var op := Auth.RevokeDevice(d, cutoff, reason, createdAt);
      var next := records + [Auth.Record(Auth.AppendBody(env, records[|records| - 1], op, issuedAt), signature)];
      var after := Auth.ChainAuthority(env, identity, next);
      after.Ok? && RevokesAt(Auth.ChainAuthority(env, identity, records).value, after.value, d, cutoff)
  {
    hide Auth.ChainAuthority, Auth.VerifySignature, Auth.CanonicalBytes, Text.Blank;
    Auth.AppendApplies(env, identity, records, Auth.RevokeDevice(d, cutoff, reason, createdAt), issuedAt, signature);
    Auth.ChainIdentity(env, identity, records);
    Auth.KnownDevicesNamed(env, identity, records, d);
  }
}
