/** The root-signed chain of device authorizations and revocations, and the set
    of devices it leaves authorized. */
module IdentityAuthority {
  import opened Wrappers
  import opened ByteStrings
  import opened Crypto
  import Text

  const DOMAIN_SEPARATOR: Bytes := Ascii("jolt:identity-authority-record:v1\0")
  const RECORD_TYPE: Str := Ascii("jolt.identity_authority_record")
  const RECORD_VERSION: U16 := 1

  datatype AuthorityError =
    | EmptyChain
    | InvalidRootPublicKey
    | InvalidDeviceSigningPublicKey
    | InvalidDeviceEncryptionPublicKey
    | InvalidSignatureLength
    | InvalidSignature
    | IdentityMismatch
    | UnsupportedRecordType
    | UnsupportedRecordVersion
    | InvalidGenesisSequence
    | GenesisHasPreviousHash
    | OutOfOrderSequence(index: nat, expected: nat, actual: nat)
    | RootChanged(index: nat)
    | BrokenPreviousHash(index: nat)
    | EmptyDeviceId
    | UnknownDeviceRevocation(deviceId: Str)

  datatype EncryptionKey = EncryptionKey(keyId: Str, suiteFamily: Str, publicKey: Bytes, createdAt: U64)

  datatype Operation =
    | AuthorizeDevice(
        deviceId: Str,
        signingKey: Bytes,
        encryptionKeys: seq<EncryptionKey>,
        capabilities: seq<Str>,
        deviceLabel: Option<Str>,
        createdAt: U64)
    | RevokeDevice(
        deviceId: Str,
        acceptedThrough: Option<U64>,
        reason: Option<Str>,
        createdAt: U64)

  datatype Body = Body(
    recordType: Str,
    version: U16,
    rootPublicKey: Bytes,
    identity: Str,
    sequence: U64,
    previousHash: Option<Hash>,
    operation: Operation,
    issuedAt: U64)

  datatype Record = Record(body: Body, signature: Bytes)

  datatype Status = Active | Revoked

  datatype Device = Device(
    deviceId: Str,
    signingKey: Bytes,
    encryptionKeys: seq<EncryptionKey>,
    capabilities: seq<Str>,
    deviceLabel: Option<Str>,
    status: Status,
    authorizedAt: U64,
    revokedAt: Option<U64>,
    revocationReason: Option<Str>,
    acceptedThrough: Option<U64>)

  datatype Authority = Authority(identity: Str, latestSequence: nat, devices: map<Str, Device>)
  {
    /** `device_can_write` */
    predicate CanWrite(deviceId: Str, sequence: nat)
    {
      && deviceId in devices
      && var device := devices[deviceId];
         device.status.Active? || (device.acceptedThrough.Some? && sequence <= device.acceptedThrough.value)
    }
  }

  // ---- canonical bytes ----

  function EncryptionKeyBytes(k: EncryptionKey): (r: Bytes)
    ensures |r| >= 8
  {
    PutBytes(k.keyId) + (PutBytes(k.suiteFamily) + (PutBytes(k.publicKey) + PutU64(k.createdAt)))
  }

  function EncryptionKeysBytes(ks: seq<EncryptionKey>): Bytes
  {
    if ks == [] then [] else EncryptionKeyBytes(ks[0]) + EncryptionKeysBytes(ks[1..])
  }

  function OperationBytes(op: Operation): (r: Bytes)
    ensures |r| >= 1
  {
    match op
    case AuthorizeDevice(deviceId, signingKey, encryptionKeys, capabilities, deviceLabel, createdAt) =>
      [0] +
      (PutBytes(deviceId) +
       (PutBytes(signingKey) +
        (PutU64(|encryptionKeys|) +
         (EncryptionKeysBytes(encryptionKeys) +
          (PutU64(|capabilities|) +
           (PutStrings(capabilities) +
            (PutOptionalString(deviceLabel) + PutU64(createdAt))))))))
    case RevokeDevice(deviceId, acceptedThrough, reason, createdAt) =>
      [1] +
      (PutBytes(deviceId) +
       (PutOptionalU64(acceptedThrough) +
        (PutOptionalString(reason) + PutU64(createdAt))))
  }

  function CanonicalBytes(b: Body): Bytes
  {
    DOMAIN_SEPARATOR +
    (PutBytes(b.recordType) +
     (PutU16(b.version) +
      (PutBytes(b.rootPublicKey) +
       (PutBytes(b.identity) +
        (PutU64(b.sequence) +
         (PutOptionalHash(b.previousHash) +
          (OperationBytes(b.operation) + PutU64(b.issuedAt))))))))
  }

  function RecordHash(env: Env, r: Record): Hash
  {
    env.digest(CanonicalBytes(r.body))
  }

  // ---- validation ----

  function ValidateOperation(op: Operation): Option<AuthorityError>
  {
    if Text.Blank(op.deviceId) then Some(EmptyDeviceId)
    else if op.RevokeDevice? then None
    else if |op.signingKey| != PUBLIC_KEY_LEN then Some(InvalidDeviceSigningPublicKey)
    else if exists k :: k in op.encryptionKeys && |k.publicKey| != PUBLIC_KEY_LEN then
      Some(InvalidDeviceEncryptionPublicKey)
    else None
  }

  function ValidateBody(env: Env, b: Body): Option<AuthorityError>
  {
    if b.recordType != RECORD_TYPE then Some(UnsupportedRecordType)
    else if b.version != RECORD_VERSION then Some(UnsupportedRecordVersion)
    else if |b.rootPublicKey| != PUBLIC_KEY_LEN then Some(InvalidRootPublicKey)
    else if env.identityText(b.rootPublicKey) != b.identity then Some(IdentityMismatch)
    else ValidateOperation(b.operation)
  }

  function VerifySignature(env: Env, publicKey: Bytes, payload: Bytes, signature: Bytes): Option<AuthorityError>
  {
    if |publicKey| != PUBLIC_KEY_LEN then Some(InvalidRootPublicKey)
    else if |signature| != SIGNATURE_LEN then Some(InvalidSignatureLength)
    else if !env.keyValid(publicKey) then Some(InvalidRootPublicKey)
    else if !env.verifiesStrict(publicKey, payload, signature) then Some(InvalidSignature)
    else None
  }

  /** `apply_operation` (its own validation repeats `validate_body`'s). */
  function ApplyOperation(devices: map<Str, Device>, op: Operation): Result<map<Str, Device>, AuthorityError>
  {
    if ValidateOperation(op).Some? then Err(ValidateOperation(op).value)
    else
      match op
      case AuthorizeDevice(id, signingKey, encryptionKeys, capabilities, deviceLabel, createdAt) =>
        Ok(devices[id := Device(id, signingKey, encryptionKeys, capabilities, deviceLabel,
                                Active, createdAt, None, None, None)])
      case RevokeDevice(id, acceptedThrough, reason, createdAt) =>
        if id !in devices then Err(UnknownDeviceRevocation(id))
        else Ok(devices[id := devices[id].(status := Revoked, revokedAt := Some(createdAt),
                                           revocationReason := reason, acceptedThrough := acceptedThrough)])
  }

  /** The first complaint about record i, before its operation is applied. */
  function LinkError(env: Env, identity: Str, root: Bytes, previous: Option<Record>, i: nat, r: Record)
    : Option<AuthorityError>
  {
    var b := r.body;
    if ValidateBody(env, b).Some? then ValidateBody(env, b)
    else if b.identity != identity then Some(IdentityMismatch)
    else if b.rootPublicKey != root then Some(RootChanged(i))
    else if VerifySignature(env, b.rootPublicKey, CanonicalBytes(b), r.signature).Some? then
      VerifySignature(env, b.rootPublicKey, CanonicalBytes(b), r.signature)
    else if previous.None? then
      if b.sequence != 0 then Some(InvalidGenesisSequence)
      else if b.previousHash.Some? then Some(GenesisHasPreviousHash)
      else None
    else if b.sequence != i then Some(OutOfOrderSequence(i, i, b.sequence))
    else if b.previousHash != Some(RecordHash(env, previous.value)) then Some(BrokenPreviousHash(i))
    else None
  }

  /** The devices left by the first n records, or the first complaint. */
  function DevicesAfter(env: Env, identity: Str, records: seq<Record>, n: nat)
    : Result<map<Str, Device>, AuthorityError>
    requires n <= |records|
  {
    if n == 0 then Ok(map[])
    else
      var devices :- DevicesAfter(env, identity, records, n - 1);
      var i := n - 1;
      var error := LinkError(env, identity, records[0].body.rootPublicKey,
                             if i == 0 then None else Some(records[i - 1]), i, records[i]);
      if error.Some? then Err(error.value)
      else ApplyOperation(devices, records[i].body.operation)
  }

  /** The authority a chain establishes. */
  function ChainAuthority(env: Env, identity: Str, records: seq<Record>): Result<Authority, AuthorityError>
  {
    if records == [] then Err(EmptyChain)
    else
      var devices :- DevicesAfter(env, identity, records, |records|);
      Ok(Authority(identity, records[|records| - 1].body.sequence, devices))
  }

  /** Once a prefix of a chain is refused, so is the chain, for the same reason. */
  lemma {:induction false} FirstErrorStands(env: Env, identity: Str, records: seq<Record>, i: nat, n: nat)
    requires i <= n <= |records|
    requires DevicesAfter(env, identity, records, i).Err?
    ensures DevicesAfter(env, identity, records, n) == DevicesAfter(env, identity, records, i)
  {
    if i < n { FirstErrorStands(env, identity, records, i, n - 1); }
  }

  /** What an operation must be by itself: keys have their length, devices a name. */
  ghost predicate OperationFits(op: Operation)
  {
    && !Text.Blank(op.deviceId)
    && (op.AuthorizeDevice? ==>
          |op.signingKey| == 32 && forall k :: k in op.encryptionKeys ==> |k.publicKey| == 32)
  }

  ghost predicate BodyFits(env: Env, b: Body)
  {
    && b.recordType == RECORD_TYPE && b.version == 1
    && |b.rootPublicKey| == 32 && b.identity == env.identityText(b.rootPublicKey)
    && OperationFits(b.operation)
  }

  /** What a record must be, given the root and the hash it has to name. */
  ghost predicate Linked(env: Env, identity: Str, root: Bytes, previousHash: Option<Hash>, i: nat, r: Record)
  {
    && BodyFits(env, r.body)
    && r.body.identity == identity && r.body.rootPublicKey == root
    && r.body.sequence == i && r.body.previousHash == previousHash
    && |r.signature| == 64 && env.keyValid(root) && env.verifiesStrict(root, CanonicalBytes(r.body), r.signature)
  }

  lemma LinkErrorMeans(env: Env, identity: Str, root: Bytes, previous: Option<Record>, i: nat, r: Record)
    requires previous.None? <==> i == 0
    ensures LinkError(env, identity, root, previous, i, r).None? <==>
      Linked(env, identity, root,
             if previous.None? then None else Some(env.digest(CanonicalBytes(previous.value.body))), i, r)
  {
    hide CanonicalBytes, Text.Blank;
  }

  /** The checks made on one record before its operation is applied. */
  method CheckRecord(env: Env, identity: Str, root: Bytes, ghost previous: Option<Record>, previousHash: Option<Hash>,
                     index: nat, record: Record) returns (error: Option<AuthorityError>)
    requires previous.None? <==> index == 0
    requires previousHash == if previous.None? then None else Some(RecordHash(env, previous.value))
    ensures error == LinkError(env, identity, root, previous, index, record)
    ensures error.None? <==> Linked(env, identity, root, previousHash, index, record)
  {
    LinkErrorMeans(env, identity, root, previous, index, record);
    hide ValidateBody, VerifySignature, CanonicalBytes, Linked;
    error := ValidateBody(env, record.body);
    if error.None? {
      if record.body.identity != identity {
        error := Some(IdentityMismatch);
      } else if record.body.rootPublicKey != root {
        error := Some(RootChanged(index));
      } else {
        error := VerifySignature(env, record.body.rootPublicKey, CanonicalBytes(record.body), record.signature);
      }
    }
    if error.None? {
      if index == 0 {
        if record.body.sequence != 0 {
          error := Some(InvalidGenesisSequence);
        } else if record.body.previousHash.Some? {
          error := Some(GenesisHasPreviousHash);
        }
      } else if record.body.sequence != index {
        error := Some(OutOfOrderSequence(index, index, record.body.sequence));
      } else if record.body.previousHash != previousHash {
        error := Some(BrokenPreviousHash(index));
      }
    }
  }

  /** `verify_identity_authority_chain` */
  method VerifyIdentityAuthorityChain(env: Env, identity: Str, records: seq<Record>)
    returns (r: Result<Authority, AuthorityError>)
    ensures r == ChainAuthority(env, identity, records)
    ensures r.Ok? <==> records != [] && forall i :: 0 <= i < |records| ==> RecordFits(env, identity, records, i)
  {
    hide LinkError, RecordHash, ApplyOperation, RecordFits, Linked;
    ChainVerifiesIff(env, identity, records);
    if records == [] {
      return Err(EmptyChain);
    }
    var devices: map<Str, Device> := map[];
    var previousHash: Option<Hash> := None;
    var root := records[0].body.rootPublicKey;
    var index := 0;
    while index < |records|
      invariant 0 <= index <= |records|
      invariant DevicesAfter(env, identity, records, index) == Ok(devices)
      invariant previousHash == if index == 0 then None else Some(RecordHash(env, records[index - 1]))
    {
      var record := records[index];
      ghost var previous := if index == 0 then None else Some(records[index - 1]);
      var error := CheckRecord(env, identity, root, previous, previousHash, index, record);
      if error.Some? {
        FirstErrorStands(env, identity, records, index + 1, |records|);
        return Err(error.value);
      }
      var applied := ApplyOperation(devices, record.body.operation);
      if applied.Err? {
        FirstErrorStands(env, identity, records, index + 1, |records|);
        return Err(applied.error);
      }
      devices := applied.value;
      previousHash := Some(RecordHash(env, record));
      index := index + 1;
    }
    r := Ok(Authority(identity, records[|records| - 1].body.sequence, devices));
  }

  // ---- what a verified chain means ----

  /** The last operation among the first n records that names the device. */
  function LastOperationOn(records: seq<Record>, n: nat, id: Str): Option<Operation>
    requires n <= |records|
  {
    if n == 0 then None
    else if records[n - 1].body.operation.deviceId == id then Some(records[n - 1].body.operation)
    else LastOperationOn(records, n - 1, id)
  }

  /** The last authorization of the device among the first n records. */
  function LastAuthorizationOf(records: seq<Record>, n: nat, id: Str): (r: Option<Operation>)
    requires n <= |records|
    ensures r.Some? ==> r.value.AuthorizeDevice? && r.value.deviceId == id
  {
    if n == 0 then None
    else
      var op := records[n - 1].body.operation;
      if op.AuthorizeDevice? && op.deviceId == id then Some(op) else LastAuthorizationOf(records, n - 1, id)
  }

  /** How a device stands that was authorized by one operation and last named by another. */
  function Standing(authorized: Operation, last: Operation): Device
    requires authorized.AuthorizeDevice?
  {
    var device := Device(authorized.deviceId, authorized.signingKey, authorized.encryptionKeys,
                         authorized.capabilities, authorized.deviceLabel, Active, authorized.createdAt,
                         None, None, None);
    match last
    case AuthorizeDevice(_, _, _, _, _, _) => device
    case RevokeDevice(_, acceptedThrough, reason, createdAt) =>
      device.(status := Revoked, revokedAt := Some(createdAt), revocationReason := reason,
              acceptedThrough := acceptedThrough)
  }

  /** A verified chain knows exactly the devices it names. A device has the keys and
      capabilities of its last authorization and the standing of the last operation on
      it: re-authorization restores a revoked device, and a later revocation replaces
      the cut-off of an earlier one. */
  lemma {:induction false} StandingIsLastOperation(env: Env, identity: Str, records: seq<Record>, n: nat, id: Str)
    requires n <= |records|
    requires DevicesAfter(env, identity, records, n).Ok?
    ensures
      var devices := DevicesAfter(env, identity, records, n).value;
      var last := LastOperationOn(records, n, id);
      && (id in devices <==> last.Some?)
      && (last.Some? ==>
            && LastAuthorizationOf(records, n, id).Some?
            && devices[id] == Standing(LastAuthorizationOf(records, n, id).value, last.value))
  {
    hide LinkError;
    if n > 0 { StandingIsLastOperation(env, identity, records, n - 1, id); }
  }

  lemma {:induction false} ChainLinks(env: Env, identity: Str, records: seq<Record>, n: nat, i: nat)
    requires i < n <= |records|
    requires DevicesAfter(env, identity, records, n).Ok?
    ensures LinkError(env, identity, records[0].body.rootPublicKey,
                      if i == 0 then None else Some(records[i - 1]), i, records[i]).None?
  {
    hide LinkError, ApplyOperation;
    if i < n - 1 { ChainLinks(env, identity, records, n - 1, i); }
  }

  /** Every record of a verified chain passed every check: record i has sequence
      i, keeps identity and root, and names record i - 1 by hash. */
  lemma ChainFacts(env: Env, identity: Str, records: seq<Record>, i: nat)
    requires ChainAuthority(env, identity, records).Ok? && i < |records|
    ensures records[i].body.sequence == i && records[i].body.identity == identity
    ensures records[i].body.rootPublicKey == records[0].body.rootPublicKey
    ensures ValidateBody(env, records[i].body).None?
    ensures records[i].body.previousHash == if i == 0 then None else Some(RecordHash(env, records[i - 1]))
    ensures |records[i].signature| == 64 && env.keyValid(records[0].body.rootPublicKey)
    ensures env.verifiesStrict(records[0].body.rootPublicKey, CanonicalBytes(records[i].body), records[i].signature)
  {
    hide ValidateBody, ApplyOperation, CanonicalBytes;
    ChainLinks(env, identity, records, |records|, i);
  }

  // ---- the checks, in fields ----

  ghost predicate Authorizes(r: Record, id: Str)
  {
    r.body.operation.AuthorizeDevice? && r.body.operation.deviceId == id
  }

  ghost predicate AuthorizedBefore(records: seq<Record>, n: nat, id: Str)
    requires n <= |records|
  {
    exists j :: 0 <= j < n && Authorizes(records[j], id)
  }

  /** What record i of a chain must be: signed by the one root, linked to the record
      before it, and revoking only a device some earlier record authorized. */
  ghost predicate RecordFits(env: Env, identity: Str, records: seq<Record>, i: nat)
    requires i < |records|
  {
    && LinkFits(env, identity, records, i)
    && (records[i].body.operation.RevokeDevice? ==>
          AuthorizedBefore(records, i, records[i].body.operation.deviceId))
  }

  ghost predicate LinkFits(env: Env, identity: Str, records: seq<Record>, i: nat)
    requires i < |records|
  {
    Linked(env, identity, records[0].body.rootPublicKey,
           if i == 0 then None else Some(env.digest(CanonicalBytes(records[i - 1].body))), i, records[i])
  }

  /** The error names what is wrong with record i. */
  ghost predicate Faulty(env: Env, identity: Str, records: seq<Record>, i: nat, error: AuthorityError)
    requires i < |records|
  {
    var r, b, root := records[i], records[i].body, records[0].body.rootPublicKey;
    match error
    case EmptyChain => false
    case InvalidRootPublicKey => |b.rootPublicKey| != 32 || !env.keyValid(b.rootPublicKey)
    case InvalidDeviceSigningPublicKey => b.operation.AuthorizeDevice? && |b.operation.signingKey| != 32
    case InvalidDeviceEncryptionPublicKey =>
      b.operation.AuthorizeDevice? && exists k :: k in b.operation.encryptionKeys && |k.publicKey| != 32
    case InvalidSignatureLength => |r.signature| != 64
    case InvalidSignature => !env.verifiesStrict(root, CanonicalBytes(b), r.signature)
    case IdentityMismatch => b.identity != identity || b.identity != env.identityText(b.rootPublicKey)
    case UnsupportedRecordType => b.recordType != RECORD_TYPE
    case UnsupportedRecordVersion => b.version != 1
    case InvalidGenesisSequence => i == 0 && b.sequence != 0
    case GenesisHasPreviousHash => i == 0 && b.previousHash.Some?
    case OutOfOrderSequence(at, expected, actual) => at == expected == i > 0 && actual == b.sequence != i
    case RootChanged(at) => at == i && b.rootPublicKey != root
    case BrokenPreviousHash(at) =>
      at == i > 0 && b.previousHash != Some(env.digest(CanonicalBytes(records[i - 1].body)))
    case EmptyDeviceId => Text.Blank(b.operation.deviceId)
    case UnknownDeviceRevocation(id) =>
      b.operation.RevokeDevice? && b.operation.deviceId == id && !AuthorizedBefore(records, i, id)
  }

  function LinkErrorAt(env: Env, identity: Str, records: seq<Record>, i: nat): Option<AuthorityError>
    requires i < |records|
  {
    LinkError(env, identity, records[0].body.rootPublicKey, if i == 0 then None else Some(records[i - 1]), i,
              records[i])
  }

  lemma LinkMeans(env: Env, identity: Str, records: seq<Record>, i: nat)
    requires i < |records|
    ensures LinkErrorAt(env, identity, records, i).None? <==> LinkFits(env, identity, records, i)
    ensures LinkErrorAt(env, identity, records, i).Some? ==>
      Faulty(env, identity, records, i, LinkErrorAt(env, identity, records, i).value)
  {
    hide CanonicalBytes, Text.Blank, AuthorizedBefore;
  }

  lemma ApplyMeans(devices: map<Str, Device>, op: Operation)
    requires OperationFits(op)
    ensures ApplyOperation(devices, op).Ok? <==> op.AuthorizeDevice? || op.deviceId in devices
    ensures ApplyOperation(devices, op).Err? ==>
      ApplyOperation(devices, op).error == UnknownDeviceRevocation(op.deviceId)
    ensures ApplyOperation(devices, op).Ok? ==> ApplyOperation(devices, op).value.Keys == devices.Keys + {op.deviceId}
  {
    hide Text.Blank;
  }

  /** A chain is taken in up to n exactly when every record so far fits, and it then
      knows exactly the devices authorized so far; else the first bad record is at fault. */
  lemma {:induction false} DevicesMean(env: Env, identity: Str, records: seq<Record>, n: nat)
    requires n <= |records|
    ensures
      var r := DevicesAfter(env, identity, records, n);
      && (r.Ok? <==> forall i :: 0 <= i < n ==> RecordFits(env, identity, records, i))
      && (r.Ok? ==> forall id :: id in r.value <==> AuthorizedBefore(records, n, id))
      && (r.Err? ==> exists i :: 0 <= i < n && Faulty(env, identity, records, i, r.error)
                                 && forall j :: 0 <= j < i ==> RecordFits(env, identity, records, j))
  {
    hide LinkError, LinkFits, ApplyOperation, Faulty;
    if n > 0 {
      DevicesMean(env, identity, records, n - 1);
      if DevicesAfter(env, identity, records, n - 1).Ok? {
        DevicesMeanNext(env, identity, records, n - 1, DevicesAfter(env, identity, records, n - 1).value);
      }
    }
  }

  lemma DevicesMeanNext(env: Env, identity: Str, records: seq<Record>, n: nat, devices: map<Str, Device>)
    requires n < |records| && DevicesAfter(env, identity, records, n) == Ok(devices)
    requires forall id :: id in devices <==> AuthorizedBefore(records, n, id)
    ensures
      var r := DevicesAfter(env, identity, records, n + 1);
      && (r.Ok? <==> RecordFits(env, identity, records, n))
      && (r.Ok? ==> forall id :: id in r.value <==> AuthorizedBefore(records, n + 1, id))
      && (r.Err? ==> Faulty(env, identity, records, n, r.error))
  {
    hide LinkError, LinkFits, ApplyOperation, Faulty, AuthorizedBefore;
    LinkMeans(env, identity, records, n);
    if LinkErrorAt(env, identity, records, n).None? {
      LinkedFits(env, identity, records, n);
      var op := records[n].body.operation;
      ApplyMeans(devices, op);
      if ApplyOperation(devices, op).Err? {
        UnknownRevocation(env, identity, records, n);
      } else {
        forall id
          ensures AuthorizedBefore(records, n + 1, id) <==> AuthorizedBefore(records, n, id) || id == op.deviceId
        {
          AuthorizedNext(records, n, id);
        }
      }
    }
  }

  lemma LinkedFits(env: Env, identity: Str, records: seq<Record>, i: nat)
    requires i < |records| && LinkFits(env, identity, records, i)
    ensures OperationFits(records[i].body.operation)
  {
    hide CanonicalBytes;
  }

  lemma UnknownRevocation(env: Env, identity: Str, records: seq<Record>, i: nat)
    requires i < |records|
    requires
      var op := records[i].body.operation;
      op.RevokeDevice? && !AuthorizedBefore(records, i, op.deviceId)
    ensures Faulty(env, identity, records, i, UnknownDeviceRevocation(records[i].body.operation.deviceId))
  {
    hide AuthorizedBefore;
  }

  lemma AuthorizedNext(records: seq<Record>, n: nat, id: Str)
    requires n < |records|
    requires
      var op := records[n].body.operation;
      op.AuthorizeDevice? || AuthorizedBefore(records, n, op.deviceId)
    ensures AuthorizedBefore(records, n + 1, id) <==>
            AuthorizedBefore(records, n, id) || id == records[n].body.operation.deviceId
  {
    if records[n].body.operation.AuthorizeDevice? && id == records[n].body.operation.deviceId {
      assert Authorizes(records[n], id);
    }
  }

  /** A chain verifies exactly when it is not empty and every record fits; it then
      stands at its last record's sequence, and an error is the first bad record's. */
  lemma ChainVerifiesIff(env: Env, identity: Str, records: seq<Record>)
    ensures
      var r := ChainAuthority(env, identity, records);
      && (r.Ok? <==> records != [] && forall i :: 0 <= i < |records| ==> RecordFits(env, identity, records, i))
      && (r.Ok? ==>
            && r.value.identity == identity && r.value.latestSequence == |records| - 1
            && forall id :: id in r.value.devices <==> AuthorizedBefore(records, |records|, id))
      && (r.Err? ==>
            if records == [] then r.error == EmptyChain
            else exists i :: 0 <= i < |records| && Faulty(env, identity, records, i, r.error)
                             && forall j :: 0 <= j < i ==> RecordFits(env, identity, records, j))
  {
    hide DevicesAfter, LinkFits, Faulty, AuthorizedBefore;
    DevicesMean(env, identity, records, |records|);
    if ChainAuthority(env, identity, records).Ok? {
      FittingSequence(env, identity, records, |records| - 1);
    }
  }

  lemma FittingSequence(env: Env, identity: Str, records: seq<Record>, i: nat)
    requires i < |records| && RecordFits(env, identity, records, i)
    ensures records[i].body.sequence == i
  {
    hide CanonicalBytes, BodyFits, AuthorizedBefore;
  }

  lemma {:induction false} DevicesAfterPrefix(env: Env, identity: Str, a: seq<Record>, b: seq<Record>, n: nat)
    requires n <= |a| && n <= |b| && a[..n] == b[..n]
    ensures DevicesAfter(env, identity, a, n) == DevicesAfter(env, identity, b, n)
  {
    hide LinkError;
    if n > 0 {
      assert a[..n - 1] == a[..n][..n - 1] == b[..n][..n - 1] == b[..n - 1];
      DevicesAfterPrefix(env, identity, a, b, n - 1);
      assert a[0] == a[..n][0] == b[0] && a[n - 1] == a[..n][n - 1] == b[n - 1];
      if n > 1 { assert a[n - 2] == a[..n][n - 2] == b[n - 2]; }
    }
  }

  /** `append` */
  function AppendBody(env: Env, last: Record, op: Operation, issuedAt: U64): Body
    requires last.body.sequence + 1 < U64_LIMIT
  {
    Body(RECORD_TYPE, RECORD_VERSION, last.body.rootPublicKey, last.body.identity,
         last.body.sequence + 1, Some(RecordHash(env, last)), op, issuedAt)
  }

  /** Appending a root-signed operation to a verified chain gives a chain that
      verifies exactly when the operation applies, with exactly its effect. */
  lemma AppendApplies(env: Env, identity: Str, records: seq<Record>, op: Operation, issuedAt: U64, signature: Bytes)
    requires ChainAuthority(env, identity, records).Ok?
    requires records[|records| - 1].body.sequence + 1 < U64_LIMIT
    requires
      var b := AppendBody(env, records[|records| - 1], op, issuedAt);
      VerifySignature(env, b.rootPublicKey, CanonicalBytes(b), signature).None?
    ensures
      var before := ChainAuthority(env, identity, records).value;
      var next := records + [Record(AppendBody(env, records[|records| - 1], op, issuedAt), signature)];
      var applied := ApplyOperation(before.devices, op);
      ChainAuthority(env, identity, next) ==
        if applied.Ok? then Ok(Authority(identity, before.latestSequence + 1, applied.value))
        else Err(applied.error)
  {
    hide LinkError, ValidateBody, ValidateOperation, VerifySignature, CanonicalBytes;
    var n := |records|;
    var last := records[n - 1];
    var record := Record(AppendBody(env, last, op, issuedAt), signature);
    var next := records + [record];
    ChainFacts(env, identity, records, n - 1);
    assert next[..n] == records[..n];
    DevicesAfterPrefix(env, identity, records, next, n);
    assert next[0] == records[0] && next[n - 1] == last && next[n] == record;
    AppendLink(env, identity, records[0].body.rootPublicKey, last, record, n);
    assert DevicesAfter(env, identity, next, n + 1)
        == ApplyOperation(DevicesAfter(env, identity, records, n).value, op);
  }

  /** The appended record passes every link check, up to its operation's own. */
  lemma AppendLink(env: Env, identity: Str, root: Bytes, last: Record, record: Record, n: nat)
    requires last.body.sequence == n - 1 && last.body.identity == identity && last.body.rootPublicKey == root
    requires ValidateBody(env, last.body).None?
    requires last.body.sequence + 1 < U64_LIMIT
    requires record.body == AppendBody(env, last, record.body.operation, record.body.issuedAt)
    requires VerifySignature(env, root, CanonicalBytes(record.body), record.signature).None?
    ensures LinkError(env, identity, root, Some(last), n, record) == ValidateOperation(record.body.operation)
  {
    hide ValidateOperation, VerifySignature, CanonicalBytes;
  }

  /** A verified chain only knows devices with a name. */
  lemma {:induction false} NamedDevices(env: Env, identity: Str, records: seq<Record>, n: nat, id: Str)
    requires n <= |records| && DevicesAfter(env, identity, records, n).Ok?
    requires id in DevicesAfter(env, identity, records, n).value
    ensures !Text.Blank(id)
  {
    hide LinkError, Text.Blank;
    if id in DevicesAfter(env, identity, records, n - 1).value { NamedDevices(env, identity, records, n - 1, id); }
  }

  lemma KnownDevicesNamed(env: Env, identity: Str, records: seq<Record>, id: Str)
    requires ChainAuthority(env, identity, records).Ok?
    requires id in ChainAuthority(env, identity, records).value.devices
    ensures !Text.Blank(id)
  {
    hide LinkError, ApplyOperation, Text.Blank;
    NamedDevices(env, identity, records, |records|, id);
  }

  lemma ChainIdentity(env: Env, identity: Str, records: seq<Record>)
    requires ChainAuthority(env, identity, records).Ok?
    ensures ChainAuthority(env, identity, records).value.identity == identity
  {
  }
}
