/** The bytes that are hashed and signed determine the record: a decoder undoes
    each encoder, and the three kinds of record never share an encoding. This is
    what lets a hash stand for the record it was made from. */
module CanonicalEncodings {
  import opened Wrappers
  import opened ByteStrings
  import W = DeviceWriterLog
  import A = IdentityAuthority
  import U = UpdateLog

  // ---- device-writer entries ----

  /** Every string and list of a body has a length that fits the u64 it is
      written with, as any Rust vector does. */
  predicate FitsWriter(b: W.Body)
  {
    && Fits(b.recordType) && Fits(b.identity) && Fits(b.deviceId) && Fits(b.operation.path)
    && (b.operation.SetPath? ==> Fits(b.operation.contentId))
    && |b.observedHeads| < U64_LIMIT
  }

  function GetWriterOperation(s: Bytes): Parsed<W.Operation>
  {
    var (tag, s) :- GetTag(s);
    var (path, s) :- GetBytes(s);
    if tag == 0 then
      var (contentId, s) :- GetBytes(s);
      var (mode, s) :- GetTag(s);
      if mode == 0 then Some((W.SetPath(path, contentId, W.Singleton), s))
      else if mode == 1 then Some((W.SetPath(path, contentId, W.Append), s))
      else None
    else if tag == 1 then
      Some((W.TombstonePath(path), s))
    else
      None
  }

  function GetHashes(s: Bytes, n: nat): Parsed<seq<Hash>>
  {
    if n == 0 then Some(([], s))
    else
      var (h, s) :- GetHash(s);
      var (hs, s) :- GetHashes(s, n - 1);
      Some(([h] + hs, s))
  }

  /** The observed-heads tail is present only when it is not empty. */
  function GetHeads(s: Bytes): Option<seq<Hash>>
  {
    if s == [] then Some([])
    else
      var s :- GetExpected(s, W.OBSERVED_HEADS_SEPARATOR);
      var (n, s) :- GetU64(s);
      var (hs, s) :- GetHashes(s, n);
      if s == [] then Some(hs) else None
  }

  function DecodeWriter(s: Bytes): Option<W.Body>
  {
    var s :- GetExpected(s, W.DOMAIN_SEPARATOR);
    var (recordType, s) :- GetBytes(s);
    var (version, s) :- GetU16(s);
    var (identity, s) :- GetBytes(s);
    var (deviceId, s) :- GetBytes(s);
    var (sequence, s) :- GetU64(s);
    var (previousHash, s) :- GetOptionalHash(s);
    var (operation, s) :- GetWriterOperation(s);
    var (createdAt, s) :- GetU64(s);
    var observedHeads :- GetHeads(s);
    Some(W.Body(recordType, version, identity, deviceId, sequence, previousHash, operation, createdAt, observedHeads))
  }

  lemma WriterOperationRoundTrip(op: W.Operation, rest: Bytes)
    requires Fits(op.path) && (op.SetPath? ==> Fits(op.contentId))
    ensures GetWriterOperation(W.OperationBytes(op) + rest) == Some((op, rest))
  {
    hide GetBytes, PutBytes;
    match op {
      case SetPath(path, contentId, mode) =>
        var m: Byte := if mode.Singleton? then 0 else 1;
        var s2 := [m] + rest;
        var s1 := PutBytes(contentId) + s2;
        assert W.OperationBytes(op) + rest == [0] + (PutBytes(path) + s1);
        BytesRoundTrip(path, s1);
        BytesRoundTrip(contentId, s2);
      case TombstonePath(path) =>
        assert W.OperationBytes(op) + rest == [1] + (PutBytes(path) + rest);
        BytesRoundTrip(path, rest);
    }
  }

  lemma {:induction false} HashesRoundTrip(hs: seq<Hash>, rest: Bytes)
    ensures GetHashes(W.ConcatHashes(hs) + rest, |hs|) == Some((hs, rest))
  {
    if hs == [] {
      assert W.ConcatHashes(hs) + rest == rest;
    } else {
      var tail := W.ConcatHashes(hs[1..]) + rest;
      assert W.ConcatHashes(hs) + rest == hs[0] + tail;
      HashRoundTrip(hs[0], tail);
      HashesRoundTrip(hs[1..], rest);
      assert [hs[0]] + hs[1..] == hs;
    }
  }

  lemma HeadsRoundTrip(hs: seq<Hash>)
    requires |hs| < U64_LIMIT
    ensures GetHeads(W.HeadsBytes(hs)) == Some(hs)
  {
    if hs != [] {
      TakeConcat(W.OBSERVED_HEADS_SEPARATOR, PutU64(|hs|) + W.ConcatHashes(hs));
      U64RoundTrip(|hs|, W.ConcatHashes(hs));
      HashesRoundTrip(hs, []);
      assert W.ConcatHashes(hs) + [] == W.ConcatHashes(hs);
    }
  }

  /** Decoding a device-writer body's canonical bytes gives the body back. */
  lemma WriterRoundTrip(b: W.Body)
    requires FitsWriter(b)
    ensures DecodeWriter(W.CanonicalBytes(b)) == Some(b)
  {
    hide PutBytes, GetBytes, PutU16, GetU16, PutU64, GetU64, PutOptionalHash, GetOptionalHash,
         GetWriterOperation, W.OperationBytes, GetHeads, W.HeadsBytes, Take;
    var s8 := W.HeadsBytes(b.observedHeads);
    var s7 := PutU64(b.createdAt) + s8;
    var s6 := W.OperationBytes(b.operation) + s7;
    var s5 := PutOptionalHash(b.previousHash) + s6;
    var s4 := PutU64(b.sequence) + s5;
    var s3 := PutBytes(b.deviceId) + s4;
    var s2 := PutBytes(b.identity) + s3;
    var s1 := PutU16(b.version) + s2;
    var s0 := PutBytes(b.recordType) + s1;
    TakeConcat(W.DOMAIN_SEPARATOR, s0);
    BytesRoundTrip(b.recordType, s1);
    U16RoundTrip(b.version, s2);
    BytesRoundTrip(b.identity, s3);
    BytesRoundTrip(b.deviceId, s4);
    U64RoundTrip(b.sequence, s5);
    OptionalHashRoundTrip(b.previousHash, s6);
    WriterOperationRoundTrip(b.operation, s7);
    U64RoundTrip(b.createdAt, s8);
    HeadsRoundTrip(b.observedHeads);
  }

  // ---- authority records ----

  predicate FitsKey(k: A.EncryptionKey)
  {
    Fits(k.keyId) && Fits(k.suiteFamily) && Fits(k.publicKey)
  }

  predicate FitsStrings(ss: seq<Str>)
  {
    |ss| < U64_LIMIT && forall i :: 0 <= i < |ss| ==> Fits(ss[i])
  }

  predicate FitsAuthorityOperation(op: A.Operation)
  {
    match op
    case AuthorizeDevice(deviceId, signingKey, encryptionKeys, capabilities, deviceLabel, _) =>
      && Fits(deviceId) && Fits(signingKey) && FitsStrings(capabilities) && FitsOptional(deviceLabel)
      && |encryptionKeys| < U64_LIMIT
      && forall i :: 0 <= i < |encryptionKeys| ==> FitsKey(encryptionKeys[i])
    case RevokeDevice(deviceId, _, reason, _) =>
      Fits(deviceId) && FitsOptional(reason)
  }

  predicate FitsAuthority(b: A.Body)
  {
    && Fits(b.recordType) && Fits(b.rootPublicKey) && Fits(b.identity)
    && FitsAuthorityOperation(b.operation)
  }

  function GetKey(s: Bytes): Parsed<A.EncryptionKey>
  {
    var (keyId, s) :- GetBytes(s);
    var (suiteFamily, s) :- GetBytes(s);
    var (publicKey, s) :- GetBytes(s);
    var (createdAt, s) :- GetU64(s);
    Some((A.EncryptionKey(keyId, suiteFamily, publicKey, createdAt), s))
  }

  function GetKeys(s: Bytes, n: nat): Parsed<seq<A.EncryptionKey>>
    decreases n
  {
    if n == 0 then Some(([], s))
    else
      var (k, s) :- GetKey(s);
      var (ks, s) :- GetKeys(s, n - 1);
      Some(([k] + ks, s))
  }

  function GetStrings(s: Bytes, n: nat): Parsed<seq<Str>>
    decreases n
  {
    if n == 0 then Some(([], s))
    else
      var (v, s) :- GetBytes(s);
      var (vs, s) :- GetStrings(s, n - 1);
      Some(([v] + vs, s))
  }

  function GetAuthorization(s: Bytes): Parsed<A.Operation>
  {
    var (deviceId, s) :- GetBytes(s);
    var (signingKey, s) :- GetBytes(s);
    var (keyCount, s) :- GetU64(s);
    var (encryptionKeys, s) :- GetKeys(s, keyCount);
    var (capabilityCount, s) :- GetU64(s);
    var (capabilities, s) :- GetStrings(s, capabilityCount);
    var (deviceLabel, s) :- GetOptionalString(s);
    var (createdAt, s) :- GetU64(s);
    Some((A.AuthorizeDevice(deviceId, signingKey, encryptionKeys, capabilities, deviceLabel, createdAt), s))
  }

  function GetRevocation(s: Bytes): Parsed<A.Operation>
  {
    var (deviceId, s) :- GetBytes(s);
    var (acceptedThrough, s) :- GetOptionalU64(s);
    var (reason, s) :- GetOptionalString(s);
    var (createdAt, s) :- GetU64(s);
    Some((A.RevokeDevice(deviceId, acceptedThrough, reason, createdAt), s))
  }

  function GetAuthorityOperation(s: Bytes): Parsed<A.Operation>
  {
    var (tag, s) :- GetTag(s);
    if tag == 0 then GetAuthorization(s) else if tag == 1 then GetRevocation(s) else None
  }

  function DecodeAuthority(s: Bytes): Option<A.Body>
  {
    var s :- GetExpected(s, A.DOMAIN_SEPARATOR);
    var (recordType, s) :- GetBytes(s);
    var (version, s) :- GetU16(s);
    var (rootPublicKey, s) :- GetBytes(s);
    var (identity, s) :- GetBytes(s);
    var (sequence, s) :- GetU64(s);
    var (previousHash, s) :- GetOptionalHash(s);
    var (operation, s) :- GetAuthorityOperation(s);
    var (issuedAt, s) :- GetU64(s);
    if s != [] then None
    else Some(A.Body(recordType, version, rootPublicKey, identity, sequence, previousHash, operation, issuedAt))
  }

  lemma KeyRoundTrip(k: A.EncryptionKey, rest: Bytes)
    requires FitsKey(k)
    ensures GetKey(A.EncryptionKeyBytes(k) + rest) == Some((k, rest))
  {
    hide PutBytes, GetBytes, PutU64, GetU64;
    var s2 := PutU64(k.createdAt) + rest;
    var s1 := PutBytes(k.publicKey) + s2;
    var s0 := PutBytes(k.suiteFamily) + s1;
    assert A.EncryptionKeyBytes(k) + rest == PutBytes(k.keyId) + s0;
    BytesRoundTrip(k.keyId, s0);
    BytesRoundTrip(k.suiteFamily, s1);
    BytesRoundTrip(k.publicKey, s2);
    U64RoundTrip(k.createdAt, rest);
  }

  lemma {:induction false} KeysRoundTrip(ks: seq<A.EncryptionKey>, rest: Bytes)
    requires forall i :: 0 <= i < |ks| ==> FitsKey(ks[i])
    ensures GetKeys(A.EncryptionKeysBytes(ks) + rest, |ks|) == Some((ks, rest))
  {
    hide GetKey, A.EncryptionKeyBytes, FitsKey;
    if ks == [] {
      assert A.EncryptionKeysBytes(ks) + rest == rest;
    } else {
      var tail := A.EncryptionKeysBytes(ks[1..]) + rest;
      assert A.EncryptionKeysBytes(ks) + rest == A.EncryptionKeyBytes(ks[0]) + tail;
      KeyRoundTrip(ks[0], tail);
      KeysRoundTrip(ks[1..], rest);
      assert [ks[0]] + ks[1..] == ks;
    }
  }

  lemma {:induction false} StringsRoundTrip(ss: seq<Str>, rest: Bytes)
    requires forall i :: 0 <= i < |ss| ==> Fits(ss[i])
    ensures GetStrings(PutStrings(ss) + rest, |ss|) == Some((ss, rest))
  {
    hide GetBytes, PutBytes;
    if ss == [] {
      assert PutStrings(ss) + rest == rest;
    } else {
      var tail := PutStrings(ss[1..]) + rest;
      assert PutStrings(ss) + rest == PutBytes(ss[0]) + tail;
      BytesRoundTrip(ss[0], tail);
      StringsRoundTrip(ss[1..], rest);
      assert [ss[0]] + ss[1..] == ss;
    }
  }

  lemma AuthorizationRoundTrip(op: A.Operation, rest: Bytes)
    requires op.AuthorizeDevice? && FitsAuthorityOperation(op)
    ensures GetAuthorityOperation(A.OperationBytes(op) + rest) == Some((op, rest))
  {
    hide PutBytes, GetBytes, PutU64, GetU64, GetKeys, A.EncryptionKeysBytes, GetStrings, PutStrings,
         GetOptionalString, PutOptionalString, FitsKey;
    var s6 := PutU64(op.createdAt) + rest;
    var s5 := PutOptionalString(op.deviceLabel) + s6;
    var s4 := PutStrings(op.capabilities) + s5;
    var s3 := PutU64(|op.capabilities|) + s4;
    var s2 := A.EncryptionKeysBytes(op.encryptionKeys) + s3;
    var s1 := PutU64(|op.encryptionKeys|) + s2;
    var s0 := PutBytes(op.signingKey) + s1;
    assert A.OperationBytes(op) + rest == [0] + (PutBytes(op.deviceId) + s0);
    BytesRoundTrip(op.deviceId, s0);
    BytesRoundTrip(op.signingKey, s1);
    U64RoundTrip(|op.encryptionKeys|, s2);
    KeysRoundTrip(op.encryptionKeys, s3);
    U64RoundTrip(|op.capabilities|, s4);
    StringsRoundTrip(op.capabilities, s5);
    OptionalStringRoundTrip(op.deviceLabel, s6);
    U64RoundTrip(op.createdAt, rest);
  }

  lemma RevocationRoundTrip(op: A.Operation, rest: Bytes)
    requires op.RevokeDevice? && FitsAuthorityOperation(op)
    ensures GetAuthorityOperation(A.OperationBytes(op) + rest) == Some((op, rest))
  {
    hide PutBytes, GetBytes, PutU64, GetU64, GetOptionalString, PutOptionalString, GetOptionalU64, PutOptionalU64;
    var s2 := PutU64(op.createdAt) + rest;
    var s1 := PutOptionalString(op.reason) + s2;
    var s0 := PutOptionalU64(op.acceptedThrough) + s1;
    assert A.OperationBytes(op) + rest == [1] + (PutBytes(op.deviceId) + s0);
    BytesRoundTrip(op.deviceId, s0);
    OptionalU64RoundTrip(op.acceptedThrough, s1);
    OptionalStringRoundTrip(op.reason, s2);
    U64RoundTrip(op.createdAt, rest);
  }

  /** Decoding an authority body's canonical bytes gives the body back. */
  lemma AuthorityRoundTrip(b: A.Body)
    requires FitsAuthority(b)
    ensures DecodeAuthority(A.CanonicalBytes(b)) == Some(b)
  {
    hide PutBytes, GetBytes, PutU16, GetU16, PutU64, GetU64, PutOptionalHash, GetOptionalHash,
         GetAuthorityOperation, A.OperationBytes, FitsAuthorityOperation, Take;
    var s7 := PutU64(b.issuedAt);
    var s6 := A.OperationBytes(b.operation) + s7;
    var s5 := PutOptionalHash(b.previousHash) + s6;
    var s4 := PutU64(b.sequence) + s5;
    var s3 := PutBytes(b.identity) + s4;
    var s2 := PutBytes(b.rootPublicKey) + s3;
    var s1 := PutU16(b.version) + s2;
    var s0 := PutBytes(b.recordType) + s1;
    TakeConcat(A.DOMAIN_SEPARATOR, s0);
    BytesRoundTrip(b.recordType, s1);
    U16RoundTrip(b.version, s2);
    BytesRoundTrip(b.rootPublicKey, s3);
    BytesRoundTrip(b.identity, s4);
    U64RoundTrip(b.sequence, s5);
    OptionalHashRoundTrip(b.previousHash, s6);
    if b.operation.AuthorizeDevice? { AuthorizationRoundTrip(b.operation, s7); }
    else { RevocationRoundTrip(b.operation, s7); }
    U64RoundTrip(b.issuedAt, []);
    assert s7 + [] == s7;
  }

  // ---- update-log entries ----

  predicate FitsRelay(r: U.RelayHint)
  {
    Fits(r.identity) && Fits(r.peerId) && FitsStrings(r.addresses) && |r.capabilities| < U64_LIMIT
  }

  predicate FitsAction(a: U.Action)
  {
    match a
    case PublishContent(contentId) => Fits(contentId)
    case UpdateRoot(contentId) => Fits(contentId)
    case UpdateProfile(profile) =>
      FitsOptional(profile.displayName) && FitsOptional(profile.bio) && FitsOptional(profile.avatar)
    case SetPath(path, contentId) => Fits(path) && Fits(contentId)
    case RemovePath(path) => Fits(path)
    case SetReachability(relays) =>
      |relays| < U64_LIMIT && forall i :: 0 <= i < |relays| ==> FitsRelay(relays[i])
  }

  predicate FitsUpdate(b: U.Body)
  {
    Fits(b.ownerPublicKey) && FitsAction(b.action)
  }

  function GetCapabilities(s: Bytes, n: nat): Parsed<seq<U.RelayCapability>>
    decreases n
  {
    if n == 0 then Some(([], s))
    else
      var (c, s) :- GetTag(s);
      var (cs, s) :- GetCapabilities(s, n - 1);
      if c == 0 then Some(([U.Discovery] + cs, s))
      else if c == 1 then Some(([U.Pinning] + cs, s))
      else if c == 2 then Some(([U.Serving] + cs, s))
      else None
  }

  function GetRelay(s: Bytes): Parsed<U.RelayHint>
  {
    var (identity, s) :- GetBytes(s);
    var (peerId, s) :- GetBytes(s);
    var (addressCount, s) :- GetU64(s);
    var (addresses, s) :- GetStrings(s, addressCount);
    var (capabilityCount, s) :- GetU64(s);
    var (capabilities, s) :- GetCapabilities(s, capabilityCount);
    var (expiresAt, s) :- GetOptionalU64(s);
    Some((U.RelayHint(identity, peerId, addresses, capabilities, expiresAt), s))
  }

  function GetRelays(s: Bytes, n: nat): Parsed<seq<U.RelayHint>>
    decreases n
  {
    if n == 0 then Some(([], s))
    else
      var (r, s) :- GetRelay(s);
      var (rs, s) :- GetRelays(s, n - 1);
      Some(([r] + rs, s))
  }

  function GetProfile(s: Bytes): Parsed<U.Profile>
  {
    var (displayName, s) :- GetOptionalString(s);
    var (bio, s) :- GetOptionalString(s);
    var (avatar, s) :- GetOptionalString(s);
    Some((U.Profile(displayName, bio, avatar), s))
  }

  function GetAction(s: Bytes): Parsed<U.Action>
  {
    var (tag, s) :- GetTag(s);
    if tag == 0 then var (c, s) :- GetBytes(s); Some((U.PublishContent(c), s))
    else if tag == 1 then var (c, s) :- GetBytes(s); Some((U.UpdateRoot(c), s))
    else if tag == 2 then var (p, s) :- GetProfile(s); Some((U.UpdateProfile(p), s))
    else if tag == 3 then var (p, s) :- GetBytes(s); var (c, s) :- GetBytes(s); Some((U.SetPath(p, c), s))
    else if tag == 4 then var (p, s) :- GetBytes(s); Some((U.RemovePath(p), s))
    else if tag == 5 then var (n, s) :- GetU64(s); var (rs, s) :- GetRelays(s, n); Some((U.SetReachability(rs), s))
    else None
  }

  function DecodeUpdate(s: Bytes): Option<U.Body>
  {
    var s :- GetExpected(s, U.DOMAIN_SEPARATOR);
    var (ownerPublicKey, s) :- GetBytes(s);
    var (sequence, s) :- GetU64(s);
    var (previousHash, s) :- GetOptionalHash(s);
    var (action, s) :- GetAction(s);
    if s == [] then Some(U.Body(ownerPublicKey, sequence, previousHash, action)) else None
  }

  lemma {:induction false} CapabilitiesRoundTrip(cs: seq<U.RelayCapability>, rest: Bytes)
    ensures GetCapabilities(U.CapabilitiesBytes(cs) + rest, |cs|) == Some((cs, rest))
  {
    if cs == [] {
      assert U.CapabilitiesBytes(cs) + rest == rest;
    } else {
      var tail := U.CapabilitiesBytes(cs[1..]) + rest;
      assert U.CapabilitiesBytes(cs) + rest == [U.CapabilityByte(cs[0])] + tail;
      CapabilitiesRoundTrip(cs[1..], rest);
      assert [cs[0]] + cs[1..] == cs;
    }
  }

  lemma RelayRoundTrip(r: U.RelayHint, rest: Bytes)
    requires FitsRelay(r)
    ensures GetRelay(U.RelayBytes(r) + rest) == Some((r, rest))
  {
    hide PutBytes, GetBytes, PutU64, GetU64, GetStrings, PutStrings, GetCapabilities,
         U.CapabilitiesBytes, GetOptionalU64, PutOptionalU64;
    var s5 := PutOptionalU64(r.expiresAt) + rest;
    var s4 := U.CapabilitiesBytes(r.capabilities) + s5;
    var s3 := PutU64(|r.capabilities|) + s4;
    var s2 := PutStrings(r.addresses) + s3;
    var s1 := PutU64(|r.addresses|) + s2;
    var s0 := PutBytes(r.peerId) + s1;
    assert U.RelayBytes(r) + rest == PutBytes(r.identity) + s0;
    BytesRoundTrip(r.identity, s0);
    BytesRoundTrip(r.peerId, s1);
    U64RoundTrip(|r.addresses|, s2);
    StringsRoundTrip(r.addresses, s3);
    U64RoundTrip(|r.capabilities|, s4);
    CapabilitiesRoundTrip(r.capabilities, s5);
    OptionalU64RoundTrip(r.expiresAt, rest);
  }

  lemma {:induction false} RelaysRoundTrip(rs: seq<U.RelayHint>, rest: Bytes)
    requires forall i :: 0 <= i < |rs| ==> FitsRelay(rs[i])
    ensures GetRelays(U.RelaysBytes(rs) + rest, |rs|) == Some((rs, rest))
  {
    hide GetRelay, U.RelayBytes, FitsRelay;
    if rs == [] {
      assert U.RelaysBytes(rs) + rest == rest;
    } else {
      var tail := U.RelaysBytes(rs[1..]) + rest;
      assert U.RelaysBytes(rs) + rest == U.RelayBytes(rs[0]) + tail;
      RelayRoundTrip(rs[0], tail);
      RelaysRoundTrip(rs[1..], rest);
      assert [rs[0]] + rs[1..] == rs;
    }
  }

  lemma ProfileRoundTrip(p: U.Profile)
    requires FitsAction(U.UpdateProfile(p))
    ensures GetAction(U.ActionBytes(U.UpdateProfile(p))) == Some((U.UpdateProfile(p), []))
  {
    hide GetOptionalString, PutOptionalString;
    var s1 := PutOptionalString(p.avatar);
    var s0 := PutOptionalString(p.bio) + s1;
    OptionalStringRoundTrip(p.displayName, s0);
    OptionalStringRoundTrip(p.bio, s1);
    OptionalStringRoundTrip(p.avatar, []);
    assert s1 + [] == s1;
  }

  lemma ActionRoundTrip(a: U.Action)
    requires FitsAction(a)
    ensures GetAction(U.ActionBytes(a)) == Some((a, []))
  {
    hide GetBytes, PutBytes, GetU64, PutU64, GetRelays, U.RelaysBytes, GetProfile, FitsRelay;
    match a {
      case PublishContent(c) => BytesRoundTrip(c, []); assert PutBytes(c) + [] == PutBytes(c);
      case UpdateRoot(c) => BytesRoundTrip(c, []); assert PutBytes(c) + [] == PutBytes(c);
      case UpdateProfile(p) => ProfileRoundTrip(p);
      case SetPath(p, c) =>
        BytesRoundTrip(p, PutBytes(c));
        BytesRoundTrip(c, []);
        assert PutBytes(c) + [] == PutBytes(c);
      case RemovePath(p) => BytesRoundTrip(p, []); assert PutBytes(p) + [] == PutBytes(p);
      case SetReachability(rs) =>
        U64RoundTrip(|rs|, U.RelaysBytes(rs));
        RelaysRoundTrip(rs, []);
        assert U.RelaysBytes(rs) + [] == U.RelaysBytes(rs);
    }
  }

  /** Decoding an update-log body's canonical bytes gives the body back. */
  lemma UpdateRoundTrip(b: U.Body)
    requires FitsUpdate(b)
    ensures DecodeUpdate(U.CanonicalBytes(b)) == Some(b)
  {
    hide PutBytes, GetBytes, PutU64, GetU64, PutOptionalHash, GetOptionalHash, GetAction, U.ActionBytes, FitsAction,
         Take;
    var s3 := U.ActionBytes(b.action);
    var s2 := PutOptionalHash(b.previousHash) + s3;
    var s1 := PutU64(b.sequence) + s2;
    var s0 := PutBytes(b.ownerPublicKey) + s1;
    TakeConcat(U.DOMAIN_SEPARATOR, s0);
    BytesRoundTrip(b.ownerPublicKey, s1);
    U64RoundTrip(b.sequence, s2);
    OptionalHashRoundTrip(b.previousHash, s3);
    ActionRoundTrip(b.action);
  }

  // ---- the theorems ----

  /** Within each kind, equal bytes mean equal bodies. */
  lemma WriterInjective(a: W.Body, b: W.Body)
    requires FitsWriter(a) && FitsWriter(b) && W.CanonicalBytes(a) == W.CanonicalBytes(b)
    ensures a == b
  {
    hide W.CanonicalBytes, DecodeWriter, FitsWriter;
    WriterRoundTrip(a);
    WriterRoundTrip(b);
  }

  lemma AuthorityInjective(a: A.Body, b: A.Body)
    requires FitsAuthority(a) && FitsAuthority(b) && A.CanonicalBytes(a) == A.CanonicalBytes(b)
    ensures a == b
  {
    hide A.CanonicalBytes, DecodeAuthority, FitsAuthority;
    AuthorityRoundTrip(a);
    AuthorityRoundTrip(b);
  }

  lemma UpdateInjective(a: U.Body, b: U.Body)
    requires FitsUpdate(a) && FitsUpdate(b) && U.CanonicalBytes(a) == U.CanonicalBytes(b)
    ensures a == b
  {
    hide U.CanonicalBytes, DecodeUpdate, FitsUpdate;
    UpdateRoundTrip(a);
    UpdateRoundTrip(b);
  }

  /** Across kinds, the bytes always differ: a signature or hash of one kind of
      record is never one of another. */
  lemma KindsNeverCoincide(w: W.Body, a: A.Body, u: U.Body)
    ensures W.CanonicalBytes(w) != A.CanonicalBytes(a)
    ensures A.CanonicalBytes(a) != U.CanonicalBytes(u)
    ensures U.CanonicalBytes(u) != W.CanonicalBytes(w)
  {
    hide PutBytes, PutU16, PutU64, PutOptionalHash, W.OperationBytes, W.HeadsBytes, A.OperationBytes, U.ActionBytes;
    assert W.CanonicalBytes(w)[5] == W.DOMAIN_SEPARATOR[5] == 'd' as int;
    assert A.CanonicalBytes(a)[5] == A.DOMAIN_SEPARATOR[5] == 'i' as int;
    assert U.CanonicalBytes(u)[5] == U.DOMAIN_SEPARATOR[5] == 'u' as int;
  }
}
