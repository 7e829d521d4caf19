/** The encoders as they run: each appends to one buffer, looping over the lists. */
module Encoders {
  import opened ByteStrings
  import W = DeviceWriterLog
  import A = IdentityAuthority
  import U = UpdateLog

  /** A growing buffer. `goal` is what it is to hold in the end and `rest` what is
      still to come, so each append brings the two together. */
  class ByteBuffer {
    var bytes: Bytes

    constructor ()
      ensures bytes == []
    {
      bytes := [];
    }

    method Append(x: Bytes, ghost rest: Bytes, ghost goal: Bytes)
      requires bytes + (x + rest) == goal
      modifies this
      ensures bytes + rest == goal
    {
      Assoc(bytes, x, rest);
      bytes := bytes + x;
    }

    method AppendHashes(hs: seq<Hash>, ghost rest: Bytes, ghost goal: Bytes)
      requires bytes + (W.ConcatHashes(hs) + rest) == goal
      modifies this
      ensures bytes + rest == goal
    {
      var i := 0;
      assert hs[0..] == hs;
      while i < |hs|
        invariant 0 <= i <= |hs|
        invariant bytes + (W.ConcatHashes(hs[i..]) + rest) == goal
      {
        ghost var left := W.ConcatHashes(hs[i + 1..]);
        assert hs[i..][1..] == hs[i + 1..];
        Assoc(hs[i], left, rest);
        Append(hs[i], left + rest, goal);
        i := i + 1;
      }
      assert hs[i..] == [] && [] + rest == rest;
    }

    method AppendStrings(ss: seq<Str>, ghost rest: Bytes, ghost goal: Bytes)
      requires bytes + (PutStrings(ss) + rest) == goal
      modifies this
      ensures bytes + rest == goal
    {
      var i := 0;
      assert ss[0..] == ss;
      while i < |ss|
        invariant 0 <= i <= |ss|
        invariant bytes + (PutStrings(ss[i..]) + rest) == goal
      {
        ghost var left := PutStrings(ss[i + 1..]);
        assert ss[i..][1..] == ss[i + 1..];
        Assoc(PutBytes(ss[i]), left, rest);
        Append(PutBytes(ss[i]), left + rest, goal);
        i := i + 1;
      }
      assert ss[i..] == [] && [] + rest == rest;
    }

    method AppendEncryptionKeys(ks: seq<A.EncryptionKey>, ghost rest: Bytes, ghost goal: Bytes)
      requires bytes + (A.EncryptionKeysBytes(ks) + rest) == goal
      modifies this
      ensures bytes + rest == goal
    {
      var i := 0;
      assert ks[0..] == ks;
      while i < |ks|
        invariant 0 <= i <= |ks|
        invariant bytes + (A.EncryptionKeysBytes(ks[i..]) + rest) == goal
      {
        ghost var left := A.EncryptionKeysBytes(ks[i + 1..]);
        assert ks[i..][1..] == ks[i + 1..];
        Assoc(A.EncryptionKeyBytes(ks[i]), left, rest);
        Append(A.EncryptionKeyBytes(ks[i]), left + rest, goal);
        i := i + 1;
      }
      assert ks[i..] == [] && [] + rest == rest;
    }

    method AppendCapabilities(cs: seq<U.RelayCapability>, ghost rest: Bytes, ghost goal: Bytes)
      requires bytes + (U.CapabilitiesBytes(cs) + rest) == goal
      modifies this
      ensures bytes + rest == goal
    {
      var i := 0;
      assert cs[0..] == cs;
      while i < |cs|
        invariant 0 <= i <= |cs|
        invariant bytes + (U.CapabilitiesBytes(cs[i..]) + rest) == goal
      {
        ghost var left := U.CapabilitiesBytes(cs[i + 1..]);
        assert cs[i..][1..] == cs[i + 1..];
        Assoc([U.CapabilityByte(cs[i])], left, rest);
        Append([U.CapabilityByte(cs[i])], left + rest, goal);
        i := i + 1;
      }
      assert cs[i..] == [] && [] + rest == rest;
    }

    method AppendRelay(r: U.RelayHint, ghost rest: Bytes, ghost goal: Bytes)
      requires bytes + (U.RelayBytes(r) + rest) == goal
      modifies this
      ensures bytes + rest == goal
    {
      ghost var t5 := PutOptionalU64(r.expiresAt);
      ghost var t4 := U.CapabilitiesBytes(r.capabilities) + t5;
      ghost var t3 := PutU64(|r.capabilities|) + t4;
      ghost var t2 := PutStrings(r.addresses) + t3;
      ghost var t1 := PutU64(|r.addresses|) + t2;
      ghost var t0 := PutBytes(r.peerId) + t1;
      Assoc(PutBytes(r.identity), t0, rest);
      Append(PutBytes(r.identity), t0 + rest, goal);
      Assoc(PutBytes(r.peerId), t1, rest);
      Append(PutBytes(r.peerId), t1 + rest, goal);
      Assoc(PutU64(|r.addresses|), t2, rest);
      Append(PutU64(|r.addresses|), t2 + rest, goal);
      Assoc(PutStrings(r.addresses), t3, rest);
      AppendStrings(r.addresses, t3 + rest, goal);
      Assoc(PutU64(|r.capabilities|), t4, rest);
      Append(PutU64(|r.capabilities|), t4 + rest, goal);
      Assoc(U.CapabilitiesBytes(r.capabilities), t5, rest);
      AppendCapabilities(r.capabilities, t5 + rest, goal);
      Append(PutOptionalU64(r.expiresAt), rest, goal);
    }

    method AppendRelays(rs: seq<U.RelayHint>, ghost rest: Bytes, ghost goal: Bytes)
      requires bytes + (U.RelaysBytes(rs) + rest) == goal
      modifies this
      ensures bytes + rest == goal
    {
      hide U.RelayBytes;
      var i := 0;
      assert rs[0..] == rs;
      while i < |rs|
        invariant 0 <= i <= |rs|
        invariant bytes + (U.RelaysBytes(rs[i..]) + rest) == goal
      {
        ghost var left := U.RelaysBytes(rs[i + 1..]);
        assert rs[i..][1..] == rs[i + 1..];
        Assoc(U.RelayBytes(rs[i]), left, rest);
        AppendRelay(rs[i], left + rest, goal);
        i := i + 1;
      }
      assert rs[i..] == [] && [] + rest == rest;
    }

    /** The observed-heads tail, present only when there are heads. */
    method AppendHeads(heads: seq<Hash>, ghost goal: Bytes)
      requires bytes + W.HeadsBytes(heads) == goal
      modifies this
      ensures bytes == goal
    {
      if heads == [] {
        assert bytes + [] == bytes;
      } else {
        ghost var hashes := W.ConcatHashes(heads);
        Append(W.OBSERVED_HEADS_SEPARATOR, PutU64(|heads|) + hashes, goal);
        Append(PutU64(|heads|), hashes, goal);
        assert hashes + [] == hashes;
        AppendHashes(heads, [], goal);
        assert bytes + [] == bytes;
      }
    }

    method AppendAuthorization(op: A.Operation, ghost rest: Bytes, ghost goal: Bytes)
      requires bytes + (A.OperationBytes(op) + rest) == goal
      modifies this
      ensures bytes + rest == goal
    {
      match op {
        case AuthorizeDevice(deviceId, signingKey, keys, capabilities, deviceLabel, createdAt) =>
          ghost var t7 := PutU64(createdAt);
          ghost var t6 := PutOptionalString(deviceLabel) + t7;
          ghost var t5 := PutStrings(capabilities) + t6;
          ghost var t4 := PutU64(|capabilities|) + t5;
          ghost var t3 := A.EncryptionKeysBytes(keys) + t4;
          ghost var t2 := PutU64(|keys|) + t3;
          ghost var t1 := PutBytes(signingKey) + t2;
          ghost var t0 := PutBytes(deviceId) + t1;
          Assoc([0], t0, rest);
          Append([0], t0 + rest, goal);
          Assoc(PutBytes(deviceId), t1, rest);
          Append(PutBytes(deviceId), t1 + rest, goal);
          Assoc(PutBytes(signingKey), t2, rest);
          Append(PutBytes(signingKey), t2 + rest, goal);
          Assoc(PutU64(|keys|), t3, rest);
          Append(PutU64(|keys|), t3 + rest, goal);
          Assoc(A.EncryptionKeysBytes(keys), t4, rest);
          AppendEncryptionKeys(keys, t4 + rest, goal);
          Assoc(PutU64(|capabilities|), t5, rest);
          Append(PutU64(|capabilities|), t5 + rest, goal);
          Assoc(PutStrings(capabilities), t6, rest);
          AppendStrings(capabilities, t6 + rest, goal);
          Assoc(PutOptionalString(deviceLabel), t7, rest);
          Append(PutOptionalString(deviceLabel), t7 + rest, goal);
          Append(PutU64(createdAt), rest, goal);
        case RevokeDevice(_, _, _, _) =>
          Append(A.OperationBytes(op), rest, goal);
      }
    }
  }

  /** `DeviceWriterLogEntryBody::canonical_bytes` */
  method EncodeWriter(b: W.Body) returns (r: Bytes)
    ensures r == W.CanonicalBytes(b)
  {
    hide W.OperationBytes, W.HeadsBytes, PutBytes, PutU16, PutU64, PutOptionalHash;
    ghost var goal := W.CanonicalBytes(b);
    ghost var t8 := W.HeadsBytes(b.observedHeads);
    ghost var t7 := PutU64(b.createdAt) + t8;
    ghost var t6 := W.OperationBytes(b.operation) + t7;
    ghost var t5 := PutOptionalHash(b.previousHash) + t6;
    ghost var t4 := PutU64(b.sequence) + t5;
    ghost var t3 := PutBytes(b.deviceId) + t4;
    ghost var t2 := PutBytes(b.identity) + t3;
    ghost var t1 := PutU16(b.version) + t2;
    ghost var t0 := PutBytes(b.recordType) + t1;
    var buffer := new ByteBuffer();
    assert [] + goal == goal;
    buffer.Append(W.DOMAIN_SEPARATOR, t0, goal);
    buffer.Append(PutBytes(b.recordType), t1, goal);
    buffer.Append(PutU16(b.version), t2, goal);
    buffer.Append(PutBytes(b.identity), t3, goal);
    buffer.Append(PutBytes(b.deviceId), t4, goal);
    buffer.Append(PutU64(b.sequence), t5, goal);
    buffer.Append(PutOptionalHash(b.previousHash), t6, goal);
    buffer.Append(W.OperationBytes(b.operation), t7, goal);
    buffer.Append(PutU64(b.createdAt), t8, goal);
    buffer.AppendHeads(b.observedHeads, goal);
    r := buffer.bytes;
  }

  /** `DeviceAuthorizationRecordBody::canonical_bytes` */
  method EncodeAuthority(b: A.Body) returns (r: Bytes)
    ensures r == A.CanonicalBytes(b)
  {
    hide A.OperationBytes, PutBytes, PutU16, PutU64, PutOptionalHash;
    ghost var goal := A.CanonicalBytes(b);
    ghost var t7 := PutU64(b.issuedAt);
    ghost var t6 := A.OperationBytes(b.operation) + t7;
    ghost var t5 := PutOptionalHash(b.previousHash) + t6;
    ghost var t4 := PutU64(b.sequence) + t5;
    ghost var t3 := PutBytes(b.identity) + t4;
    ghost var t2 := PutBytes(b.rootPublicKey) + t3;
    ghost var t1 := PutU16(b.version) + t2;
    ghost var t0 := PutBytes(b.recordType) + t1;
    var buffer := new ByteBuffer();
    assert [] + goal == goal;
    buffer.Append(A.DOMAIN_SEPARATOR, t0, goal);
    buffer.Append(PutBytes(b.recordType), t1, goal);
    buffer.Append(PutU16(b.version), t2, goal);
    buffer.Append(PutBytes(b.rootPublicKey), t3, goal);
    buffer.Append(PutBytes(b.identity), t4, goal);
    buffer.Append(PutU64(b.sequence), t5, goal);
    buffer.Append(PutOptionalHash(b.previousHash), t6, goal);
    buffer.AppendAuthorization(b.operation, t7, goal);
    assert t7 + [] == t7;
    buffer.Append(PutU64(b.issuedAt), [], goal);
    assert buffer.bytes + [] == buffer.bytes;
    r := buffer.bytes;
  }

  /** `UpdateLogEntryBody::canonical_bytes` */
  method EncodeUpdate(b: U.Body) returns (r: Bytes)
    ensures r == U.CanonicalBytes(b)
  {
    hide PutBytes, PutU64, PutOptionalHash, PutOptionalString, U.RelaysBytes;
    ghost var goal := U.CanonicalBytes(b);
    ghost var t3 := U.ActionBytes(b.action);
    ghost var t2 := PutOptionalHash(b.previousHash) + t3;
    ghost var t1 := PutU64(b.sequence) + t2;
    ghost var t0 := PutBytes(b.ownerPublicKey) + t1;
    var buffer := new ByteBuffer();
    assert [] + goal == goal;
    buffer.Append(U.DOMAIN_SEPARATOR, t0, goal);
    buffer.Append(PutBytes(b.ownerPublicKey), t1, goal);
    buffer.Append(PutU64(b.sequence), t2, goal);
    buffer.Append(PutOptionalHash(b.previousHash), t3, goal);
    assert t3 + [] == t3;
    match b.action {
      case SetReachability(relays) =>
        ghost var t4 := PutU64(|relays|) + U.RelaysBytes(relays);
        buffer.Append([5], t4, goal);
        buffer.Append(PutU64(|relays|), U.RelaysBytes(relays), goal);
        assert U.RelaysBytes(relays) + [] == U.RelaysBytes(relays);
        buffer.AppendRelays(relays, [], goal);
      case _ =>
        buffer.Append(U.ActionBytes(b.action), [], goal);
    }
    assert buffer.bytes + [] == buffer.bytes;
    r := buffer.bytes;
  }
}
