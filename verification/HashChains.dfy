/** Agreement of hash-chained logs. A digest is only assumed not to collide on
    the canonical bytes in play; with the encodings' injectivity this makes equal
    hashes mean equal bodies, and equal head hashes mean equal histories. */
module HashChains {
  import opened ByteStrings
  import opened Crypto
  import opened CanonicalEncodings
  import A = IdentityAuthority
  import W = DeviceWriterLog
  import U = UpdateLog

  // ---- device-writer logs ----

  ghost predicate InPlay(logs: seq<W.Log>, e: W.Entry)
  {
    exists log :: log in logs && e in log
  }

  ghost predicate CollisionFree(env: Env, logs: seq<W.Log>)
  {
    && (forall e :: InPlay(logs, e) ==> FitsWriter(e.body))
    && (forall x, y :: InPlay(logs, x) && InPlay(logs, y) && W.EntryHash(env, x) == W.EntryHash(env, y) ==>
          W.CanonicalBytes(x.body) == W.CanonicalBytes(y.body))
  }

  lemma HashIdentifies(env: Env, logs: seq<W.Log>, x: W.Entry, y: W.Entry)
    requires CollisionFree(env, logs) && InPlay(logs, x) && InPlay(logs, y)
    requires W.EntryHash(env, x) == W.EntryHash(env, y)
    ensures x.body == y.body
  {
    hide FitsWriter, W.CanonicalBytes, W.EntryHash;
    WriterInjective(x.body, y.body);
  }

  /** Two well-shaped logs that hold the same hash at position n hold the same
      bodies at every position up to n. */
  lemma {:induction false} LogsAgree(env: Env, identity: Str, a: W.Log, b: W.Log, n: nat, i: nat)
    requires W.ShapeOk(env, identity, a) && W.ShapeOk(env, identity, b)
    requires CollisionFree(env, [a, b])
    requires i <= n && n < |a| && n < |b| && W.EntryHash(env, a[n]) == W.EntryHash(env, b[n])
    ensures a[i].body == b[i].body
    decreases n
  {
    hide CollisionFree, W.ShapeOk, W.EntryHash;
    assert a in [a, b] && b in [a, b];
    assert InPlay([a, b], a[n]) && InPlay([a, b], b[n]);
    HashIdentifies(env, [a, b], a[n], b[n]);
    if i < n {
      W.ShapeFacts(env, identity, a, n);
      W.ShapeFacts(env, identity, b, n);
      LogsAgree(env, identity, a, b, n - 1, i);
    }
  }

  // ---- update logs ----

  ghost predicate UpdatesInPlay(a: U.Log, b: U.Log, e: U.Entry)
  {
    e in a || e in b
  }

  ghost predicate UpdatesCollisionFree(env: Env, a: U.Log, b: U.Log)
  {
    && (forall e :: UpdatesInPlay(a, b, e) ==> FitsUpdate(e.body))
    && (forall x, y :: UpdatesInPlay(a, b, x) && UpdatesInPlay(a, b, y) ==>
          (U.EntryHash(env, x) == U.EntryHash(env, y) ==> U.CanonicalBytes(x.body) == U.CanonicalBytes(y.body)))
  }

  lemma {:induction false} UpdatesAgree(env: Env, a: U.Log, b: U.Log, n: nat, m: nat, i: nat)
    requires U.Verified(env, a) && U.Verified(env, b) && UpdatesCollisionFree(env, a, b)
    requires i <= n < |a| && m < |b| && U.EntryHash(env, a[n]) == U.EntryHash(env, b[m])
    ensures n == m && a[i].body == b[i].body
    decreases n
  {
    hide U.Verified, U.EntryHash, U.CanonicalBytes, FitsUpdate;
    assert UpdatesInPlay(a, b, a[n]) && UpdatesInPlay(a, b, b[m]);
    UpdateInjective(a[n].body, b[m].body);
    U.VerifiedFacts(env, a, n);
    U.VerifiedFacts(env, b, m);
    if i < n { UpdatesAgree(env, a, b, n - 1, m - 1, i); }
  }

  /** Two verified update logs with the same head hash have the same length and
      the same bodies throughout. */
  lemma SameHeadSameHistory(env: Env, a: U.Log, b: U.Log)
    requires U.Verified(env, a) && U.Verified(env, b) && UpdatesCollisionFree(env, a, b)
    requires a != [] && b != [] && U.EntryHash(env, a[|a| - 1]) == U.EntryHash(env, b[|b| - 1])
    ensures |a| == |b| && forall i :: 0 <= i < |a| ==> a[i].body == b[i].body
  {
    hide U.Verified, U.EntryHash, UpdatesCollisionFree;
    forall i | 0 <= i < |a| ensures |a| == |b| && a[i].body == b[i].body {
      UpdatesAgree(env, a, b, |a| - 1, |b| - 1, i);
    }
  }

  // ---- authority chains ----

  ghost predicate RecordsInPlay(a: seq<A.Record>, b: seq<A.Record>, r: A.Record)
  {
    r in a || r in b
  }

  ghost predicate RecordsCollisionFree(env: Env, a: seq<A.Record>, b: seq<A.Record>)
  {
    && (forall r :: RecordsInPlay(a, b, r) ==> FitsAuthority(r.body))
    && (forall x, y :: RecordsInPlay(a, b, x) && RecordsInPlay(a, b, y) ==>
          (A.RecordHash(env, x) == A.RecordHash(env, y) ==> A.CanonicalBytes(x.body) == A.CanonicalBytes(y.body)))
  }

  lemma {:induction false} RecordsAgree(env: Env, ia: Str, ib: Str, a: seq<A.Record>, b: seq<A.Record>, n: nat, m: nat,
                                        i: nat)
    requires A.ChainAuthority(env, ia, a).Ok? && A.ChainAuthority(env, ib, b).Ok? && RecordsCollisionFree(env, a, b)
    requires i <= n < |a| && m < |b| && A.RecordHash(env, a[n]) == A.RecordHash(env, b[m])
    ensures n == m && a[i].body == b[i].body && ia == ib
    decreases n
  {
    hide A.ChainAuthority, A.RecordHash, A.CanonicalBytes, FitsAuthority;
    assert RecordsInPlay(a, b, a[n]) && RecordsInPlay(a, b, b[m]);
    AuthorityInjective(a[n].body, b[m].body);
    A.ChainFacts(env, ia, a, n);
    A.ChainFacts(env, ib, b, m);
    if i < n { RecordsAgree(env, ia, ib, a, b, n - 1, m - 1, i); }
  }

  lemma {:induction false} SameDevices(env: Env, identity: Str, a: seq<A.Record>, b: seq<A.Record>, n: nat)
    requires n <= |a| && n <= |b| && forall i :: 0 <= i < n ==> a[i].body == b[i].body
    requires A.DevicesAfter(env, identity, a, n).Ok? && A.DevicesAfter(env, identity, b, n).Ok?
    ensures A.DevicesAfter(env, identity, a, n) == A.DevicesAfter(env, identity, b, n)
  {
    hide A.LinkError, A.ApplyOperation;
    if n > 0 { SameDevices(env, identity, a, b, n - 1); }
  }

  /** Two verified chains with the same last record hash have the same records, up to
      signatures, and establish the same authority. */
  lemma SameHashSameAuthority(env: Env, ia: Str, ib: Str, a: seq<A.Record>, b: seq<A.Record>)
    requires A.ChainAuthority(env, ia, a).Ok? && A.ChainAuthority(env, ib, b).Ok? && RecordsCollisionFree(env, a, b)
    requires A.RecordHash(env, a[|a| - 1]) == A.RecordHash(env, b[|b| - 1])
    ensures |a| == |b| && forall i :: 0 <= i < |a| ==> a[i].body == b[i].body
    ensures A.ChainAuthority(env, ia, a) == A.ChainAuthority(env, ib, b)
  {
    hide A.RecordHash, RecordsCollisionFree, A.DevicesAfter;
    forall i | 0 <= i < |a| ensures |a| == |b| && a[i].body == b[i].body && ia == ib {
      RecordsAgree(env, ia, ib, a, b, |a| - 1, |b| - 1, i);
    }
    assert a[0].body == b[0].body;
    SameDevices(env, ia, a, b, |a|);
  }
}
