/** One device's hash-chained, signed log: its entries, how they are appended,
    their canonical bytes, and the shape check made before a merge. */
module DeviceWriterLog {
  import opened Wrappers
  import opened ByteStrings
  import opened Crypto
  import opened Ordering
  import Text

  const DOMAIN_SEPARATOR: Bytes := Ascii("jolt:device-writer-log-entry:v1\0")
  const RECORD_TYPE: Str := Ascii("jolt.device_writer_log_entry")
  const RECORD_VERSION: U16 := 1
  const OBSERVED_HEADS_SEPARATOR: Bytes := Ascii("\0jolt:observed-singleton-heads:v1\0")

  datatype LogError =
    | UnsupportedEntryType
    | UnsupportedEntryVersion
    | IdentityMismatch
    | EmptyDeviceId
    | InvalidSignatureLength
    | InvalidSignature
    | DeviceChanged(index: nat)
    | OutOfOrderSequence(index: nat, expected: nat, actual: nat)
    | InvalidGenesisSequence
    | GenesisHasPreviousHash
    | NonCanonicalObservedHeads
    | BrokenPreviousHash(index: nat)
    | EmptyPath
    | InvalidPath

  datatype PathMode = Singleton | Append

  datatype Operation =
    | SetPath(path: Str, contentId: Str, mode: PathMode)
    | TombstonePath(path: Str)

  datatype Body = Body(
    recordType: Str,
    version: U16,
    identity: Str,
    deviceId: Str,
    sequence: U64,
    previousHash: Option<Hash>,
    operation: Operation,
    createdAt: U64,
    observedHeads: seq<Hash>)

  datatype Entry = Entry(body: Body, signature: Bytes)

  type Log = seq<Entry>

  // ---- canonical bytes and the entry hash ----

  function OperationBytes(op: Operation): (r: Bytes)
    ensures |r| >= 1
  {
    match op
    case SetPath(path, contentId, mode) =>
      [0] + (PutBytes(path) + (PutBytes(contentId) + [if mode.Singleton? then 0 else 1]))
    case TombstonePath(path) =>
      [1] + PutBytes(path)
  }

  function ConcatHashes(hs: seq<Hash>): Bytes
  {
    if hs == [] then [] else hs[0] + ConcatHashes(hs[1..])
  }

  function HeadsBytes(heads: seq<Hash>): Bytes
  {
    if heads == [] then []
    else OBSERVED_HEADS_SEPARATOR + (PutU64(|heads|) + ConcatHashes(heads))
  }

  function CanonicalBytes(b: Body): Bytes
  {
    DOMAIN_SEPARATOR +
    (PutBytes(b.recordType) +
     (PutU16(b.version) +
      (PutBytes(b.identity) +
       (PutBytes(b.deviceId) +
        (PutU64(b.sequence) +
         (PutOptionalHash(b.previousHash) +
          (OperationBytes(b.operation) +
           (PutU64(b.createdAt) + HeadsBytes(b.observedHeads)))))))))
  }

  /** The hash covers the body only: two copies of an entry may carry different
      valid signatures and still be the same entry. */
  function HashOf(env: Env, b: Body): Hash
  {
    env.digest(CanonicalBytes(b))
  }

  function EntryHash(env: Env, e: Entry): Hash
  {
    HashOf(env, e.body)
  }

  // ---- validation ----

  predicate StrictlyAscending(hs: seq<Hash>)
  {
    forall i :: 0 <= i < |hs| - 1 ==> LexLe(hs[i], hs[i + 1]) && hs[i] != hs[i + 1]
  }

  function ValidatePath(path: Str): Option<LogError>
  {
    if Text.Blank(path) then Some(EmptyPath)
    else if path[0] != Text.SLASH || !Text.AddressablePath(path) then Some(InvalidPath)
    else None
  }

  /** The first complaint `validate_body` makes, or None. */
  function ValidateBody(b: Body): Option<LogError>
  {
    if b.recordType != RECORD_TYPE then Some(UnsupportedEntryType)
    else if b.version != RECORD_VERSION then Some(UnsupportedEntryVersion)
    else if Text.Blank(b.deviceId) then Some(EmptyDeviceId)
    else if !StrictlyAscending(b.observedHeads) then Some(NonCanonicalObservedHeads)
    else ValidatePath(b.operation.path)
  }

  function VerifySignature(env: Env, publicKey: Bytes, payload: Bytes, signature: Bytes): Option<LogError>
  {
    if |publicKey| != PUBLIC_KEY_LEN then Some(InvalidSignature)
    else if |signature| != SIGNATURE_LEN then Some(InvalidSignatureLength)
    else if !env.keyValid(publicKey) then Some(InvalidSignature)
    else if !env.verifiesStrict(publicKey, payload, signature) then Some(InvalidSignature)
    else None
  }

  /** The first complaint about entry i of a log, given the log's device and the
      entry before it. */
  function LinkError(env: Env, identity: Str, deviceId: Str, previous: Option<Entry>, i: nat, b: Body)
    : Option<LogError>
  {
    if ValidateBody(b).Some? then ValidateBody(b)
    else if b.identity != identity then Some(IdentityMismatch)
    else if b.deviceId != deviceId then Some(DeviceChanged(i))
    else if previous.None? then
      if b.sequence != 0 then Some(InvalidGenesisSequence)
      else if b.previousHash.Some? then Some(GenesisHasPreviousHash)
      else None
    else if b.sequence != previous.value.body.sequence + 1 then
      Some(OutOfOrderSequence(i, previous.value.body.sequence + 1, b.sequence))
    else if b.previousHash != Some(EntryHash(env, previous.value)) then Some(BrokenPreviousHash(i))
    else None
  }

  function EntryShapeError(env: Env, identity: Str, log: Log, i: nat): Option<LogError>
    requires i < |log|
  {
    LinkError(env, identity, log[0].body.deviceId, if i == 0 then None else Some(log[i - 1]), i, log[i].body)
  }

  predicate ShapeOk(env: Env, identity: Str, log: Log)
  {
    forall i :: 0 <= i < |log| ==> EntryShapeError(env, identity, log, i).None?
  }

  /** The complaint about the first bad entry among the first n, or None. */
  function ShapeError(env: Env, identity: Str, log: Log, n: nat): Option<LogError>
    requires n <= |log|
  {
    if n == 0 then None
    else
      var earlier := ShapeError(env, identity, log, n - 1);
      if earlier.Some? then earlier else EntryShapeError(env, identity, log, n - 1)
  }

  lemma {:induction false} ShapeErrorMeaning(env: Env, identity: Str, log: Log, n: nat)
    requires n <= |log|
    ensures ShapeError(env, identity, log, n).None? <==>
            forall k :: 0 <= k < n ==> EntryShapeError(env, identity, log, k).None?
  {
    hide EntryShapeError;
    if n > 0 { ShapeErrorMeaning(env, identity, log, n - 1); }
  }

  lemma {:induction false} ShapeErrorStands(env: Env, identity: Str, log: Log, i: nat, n: nat)
    requires i <= n <= |log| && ShapeError(env, identity, log, i).Some?
    ensures ShapeError(env, identity, log, n) == ShapeError(env, identity, log, i)
  {
    hide EntryShapeError;
    if i < n { ShapeErrorStands(env, identity, log, i, n - 1); }
  }

  /** `verify_device_log_shape`: accepts exactly the well-shaped logs, and reports
      the complaint about the first bad entry. */
  method VerifyDeviceLogShape(env: Env, identity: Str, log: Log) returns (r: Option<LogError>)
    ensures r == ShapeError(env, identity, log, |log|)
    ensures r.None? <==> ShapeOk(env, identity, log)
  {
    hide LinkError;
    var index := 0;
    while index < |log|
      invariant 0 <= index <= |log|
      invariant ShapeError(env, identity, log, index).None?
    {
      r := EntryShapeError(env, identity, log, index);
      if r.Some? {
        ShapeErrorStands(env, identity, log, index + 1, |log|);
        ShapeErrorMeaning(env, identity, log, |log|);
        return;
      }
      index := index + 1;
    }
    ShapeErrorMeaning(env, identity, log, |log|);
    r := None;
  }

  // ---- what a well-shaped log looks like ----

  /** Entry i of a well-shaped log has sequence i, belongs to the log's device and
      identity, and names entry i - 1 by hash. */
  lemma {:induction false} ShapeFacts(env: Env, identity: Str, log: Log, i: nat)
    requires ShapeOk(env, identity, log) && i < |log|
    ensures log[i].body.sequence == i
    ensures log[i].body.deviceId == log[0].body.deviceId && log[i].body.identity == identity
    ensures ValidateBody(log[i].body).None?
    ensures log[i].body.previousHash == if i == 0 then None else Some(EntryHash(env, log[i - 1]))
  {
    assert EntryShapeError(env, identity, log, i).None?;
    if i > 0 { ShapeFacts(env, identity, log, i - 1); }
  }

  lemma ShapePrefix(env: Env, identity: Str, log: Log, n: nat)
    requires ShapeOk(env, identity, log) && n <= |log|
    ensures ShapeOk(env, identity, log[..n])
  {
    forall k | 0 <= k < n ensures EntryShapeError(env, identity, log[..n], k).None? {
      assert EntryShapeError(env, identity, log[..n], k) == EntryShapeError(env, identity, log, k);
    }
  }

  // ---- the checks, in fields ----

  ghost predicate HeadsAscend(hs: seq<Hash>)
  {
    forall i, j :: 0 <= i < j < |hs| ==> Precedes(hs[i], hs[j])
  }

  lemma {:induction false} AscendsTo(hs: seq<Hash>, i: nat, j: nat)
    requires StrictlyAscending(hs) && i < j < |hs|
    ensures Precedes(hs[i], hs[j])
  {
    hide LexLe;
    LexMeans(hs[j - 1], hs[j]);
    if i < j - 1 {
      AscendsTo(hs, i, j - 1);
      LexMeans(hs[i], hs[j - 1]);
      LexMeans(hs[i], hs[j]);
      LexTransitive(hs[i], hs[j - 1], hs[j]);
      if hs[i] == hs[j] { LexAntisymmetric(hs[j - 1], hs[j]); }
    }
  }

  lemma AscendingMeans(hs: seq<Hash>)
    ensures StrictlyAscending(hs) <==> HeadsAscend(hs)
  {
    hide LexLe, Precedes;
    if StrictlyAscending(hs) {
      forall i, j | 0 <= i < j < |hs| ensures Precedes(hs[i], hs[j]) { AscendsTo(hs, i, j); }
    }
    if HeadsAscend(hs) {
      forall i | 0 <= i < |hs| - 1 ensures LexLe(hs[i], hs[i + 1]) && hs[i] != hs[i + 1] {
        assert Precedes(hs[i], hs[i + 1]);
        LexMeans(hs[i], hs[i + 1]);
        NeverBeforeItself(hs[i]);
      }
    }
  }

  lemma NeverBeforeItself(a: seq<int>)
    ensures !Precedes(a, a)
  {
  }

  /** What a body must be, whatever log it stands in. */
  ghost predicate BodyFits(b: Body)
  {
    && b.recordType == RECORD_TYPE && b.version == 1
    && !Text.Blank(b.deviceId)
    && HeadsAscend(b.observedHeads)
    && PathFits(b.operation.path)
  }

  ghost predicate PathFits(path: Str)
  {
    !Text.Blank(path) && path[0] == 0x2f && Text.AddressablePath(path)
  }

  lemma ValidateBodyMeans(b: Body)
    ensures ValidateBody(b).None? <==> BodyFits(b)
    ensures ValidateBody(b).Some? ==> Complains(b, ValidateBody(b).value)
  {
    hide Text.AddressablePath, StrictlyAscending, HeadsAscend;
    AscendingMeans(b.observedHeads);
  }

  /** The complaint names what is wrong with the body. */
  ghost predicate Complains(b: Body, error: LogError)
  {
    match error
    case UnsupportedEntryType => b.recordType != RECORD_TYPE
    case UnsupportedEntryVersion => b.version != 1
    case EmptyDeviceId => Text.Blank(b.deviceId)
    case NonCanonicalObservedHeads => !HeadsAscend(b.observedHeads)
    case EmptyPath => Text.Blank(b.operation.path)
    case InvalidPath => !Text.Blank(b.operation.path) && !PathFits(b.operation.path)
    case _ => false
  }

  /** What entry i of a log must be. */
  ghost predicate EntryFits(env: Env, identity: Str, log: Log, i: nat)
  {
    && i < |log| && BodyFits(log[i].body)
    && log[i].body.identity == identity && log[i].body.deviceId == log[0].body.deviceId
    && log[i].body.sequence == i
    && log[i].body.previousHash ==
       if i == 0 then None else Some(env.digest(CanonicalBytes(log[i - 1].body)))
  }

  /** A well-shaped log is one device's gapless chain of fitting entries. */
  lemma ShapeMeans(env: Env, identity: Str, log: Log)
    ensures ShapeOk(env, identity, log) <==> forall i: nat :: i < |log| ==> EntryFits(env, identity, log, i)
  {
    hide CanonicalBytes, ValidateBody, BodyFits;
    if ShapeOk(env, identity, log) {
      forall i: nat | i < |log| ensures EntryFits(env, identity, log, i) {
        ShapeFacts(env, identity, log, i);
        ValidateBodyMeans(log[i].body);
      }
    }
    if forall i: nat :: i < |log| ==> EntryFits(env, identity, log, i) {
      forall i | 0 <= i < |log| ensures EntryShapeError(env, identity, log, i).None? {
        assert EntryFits(env, identity, log, i);
        ValidateBodyMeans(log[i].body);
        if i > 0 { assert EntryFits(env, identity, log, i - 1); }
      }
    }
  }

  /** An error of the shape check names the first bad entry's fault. */
  ghost predicate Faulty(env: Env, identity: Str, log: Log, i: nat, error: LogError)
  {
    && i < |log|
    && var b := log[i].body;
       match error
       case IdentityMismatch => b.identity != identity
       case DeviceChanged(at) => at == i && b.deviceId != log[0].body.deviceId
       case InvalidGenesisSequence => i == 0 && b.sequence != 0
       case GenesisHasPreviousHash => i == 0 && b.previousHash.Some?
       case OutOfOrderSequence(at, expected, actual) => at == i > 0 && expected == i && actual == b.sequence != i
       case BrokenPreviousHash(at) =>
         at == i > 0 && b.previousHash != Some(env.digest(CanonicalBytes(log[i - 1].body)))
       case _ => Complains(b, error)
  }

  lemma {:induction false} ShapeErrorMeans(env: Env, identity: Str, log: Log, n: nat)
    requires n <= |log| && ShapeError(env, identity, log, n).Some?
    ensures exists i: nat ::
      && i < n && Faulty(env, identity, log, i, ShapeError(env, identity, log, n).value)
      && ShapeOk(env, identity, log[..i])
  {
    hide CanonicalBytes, ValidateBody, BodyFits, PathFits, HeadsAscend, Text.Blank;
    if ShapeError(env, identity, log, n - 1).Some? {
      ShapeErrorMeans(env, identity, log, n - 1);
    } else {
      var i := n - 1;
      ShapeErrorMeaning(env, identity, log, i);
      forall k | 0 <= k < i ensures EntryShapeError(env, identity, log[..i], k).None? {
        assert EntryShapeError(env, identity, log[..i], k) == EntryShapeError(env, identity, log, k);
      }
      if i > 0 {
        ShapeFacts(env, identity, log[..i], i - 1);
        assert log[..i][i - 1] == log[i - 1];
      }
      ValidateBodyMeans(log[i].body);
      assert Faulty(env, identity, log, i, ShapeError(env, identity, log, n).value);
    }
  }

  ghost predicate Signed(env: Env, publicKey: Bytes, payload: Bytes, signature: Bytes)
  {
    && |publicKey| == 32 && |signature| == 64
    && env.keyValid(publicKey) && env.verifiesStrict(publicKey, payload, signature)
  }

  /** A signature passes exactly when it verifies strictly under a valid key. */
  lemma SignatureMeans(env: Env, publicKey: Bytes, payload: Bytes, signature: Bytes)
    ensures
      var r := VerifySignature(env, publicKey, payload, signature);
      && (r.None? <==> Signed(env, publicKey, payload, signature))
      && (r == Some(InvalidSignatureLength) <==> |publicKey| == 32 && |signature| != 64)
      && (r.Some? ==> r.value in {InvalidSignature, InvalidSignatureLength})
  {
  }

  // ---- appending ----

  function HashKey(h: Hash): Key { [h] }

  /** `dedup` on a sorted vector. */
  function Dedup(hs: seq<Hash>): (r: seq<Hash>)
    ensures forall h :: h in r <==> h in hs
    ensures hs != [] ==> r != [] && r[|r| - 1] == hs[|hs| - 1]
  {
    if hs == [] then []
    else
      var n := |hs| - 1;
      var r := Dedup(hs[..n]);
      assert hs == hs[..n] + [hs[n]];
      if n > 0 && hs[n - 1] == hs[n] then r else r + [hs[n]]
  }

  /** The canonical form in which an entry lists the heads it observed. */
  function CanonicalHeads(heads: seq<Hash>): seq<Hash>
  {
    Dedup(Sort(heads, HashKey))
  }

  lemma {:induction false} DedupAscends(hs: seq<Hash>)
    requires Sorted(hs, HashKey)
    ensures StrictlyAscending(Dedup(hs))
  {
    if hs != [] {
      var n := |hs| - 1;
      DedupAscends(hs[..n]);
      if n > 0 && hs[n - 1] != hs[n] {
        assert KeyLe(HashKey(hs[n - 1]), HashKey(hs[n]));
      }
    }
  }

  /** Listing heads canonically keeps the set and yields the strictly ascending
      order `validate_body` demands. */
  lemma CanonicalHeadsAreCanonical(heads: seq<Hash>)
    ensures StrictlyAscending(CanonicalHeads(heads))
    ensures forall h :: h in CanonicalHeads(heads) <==> h in heads
  {
    SortSorts(heads, HashKey);
    DedupAscends(Sort(heads, HashKey));
    forall h ensures h in CanonicalHeads(heads) <==> h in heads {
      SortElements(heads, HashKey, h);
    }
  }

  function GenesisBody(identity: Str, deviceId: Str, op: Operation, heads: seq<Hash>, createdAt: U64): Body
  {
    Body(RECORD_TYPE, RECORD_VERSION, identity, deviceId, 0, None, op, createdAt, CanonicalHeads(heads))
  }

  /** `append_observing`; the successor of sequence u64::MAX does not exist. */
  function AppendBody(env: Env, last: Entry, op: Operation, heads: seq<Hash>, createdAt: U64): Body
    requires last.body.sequence + 1 < U64_LIMIT
  {
    Body(RECORD_TYPE, RECORD_VERSION, last.body.identity, last.body.deviceId, last.body.sequence + 1,
         Some(EntryHash(env, last)), op, createdAt, CanonicalHeads(heads))
  }

  /** The next body of a device's log: genesis on an empty log, append otherwise. */
  function NextBody(env: Env, identity: Str, deviceId: Str, log: Log,
                    op: Operation, heads: seq<Hash>, createdAt: U64): Body
    requires |log| < U64_LIMIT
    requires log != [] ==> log[|log| - 1].body.sequence + 1 < U64_LIMIT
  {
    if log == [] then GenesisBody(identity, deviceId, op, heads, createdAt)
    else AppendBody(env, log[|log| - 1], op, heads, createdAt)
  }

  lemma ShapeExtend(env: Env, identity: Str, log: Log, e: Entry)
    requires ShapeOk(env, identity, log)
    requires EntryShapeError(env, identity, log + [e], |log|).None?
    ensures ShapeOk(env, identity, log + [e])
  {
    forall k | 0 <= k < |log| + 1 ensures EntryShapeError(env, identity, log + [e], k).None? {
      if k < |log| {
        assert EntryShapeError(env, identity, log + [e], k) == EntryShapeError(env, identity, log, k);
      }
    }
  }

  /** Whatever the constructors sign extends a well-shaped log to a well-shaped
      one. */
  lemma NextKeepsShape(env: Env, identity: Str, deviceId: Str, log: Log, op: Operation,
                       heads: seq<Hash>, createdAt: U64, signature: Bytes)
    requires ShapeOk(env, identity, log) && |log| < U64_LIMIT
    requires log != [] ==> log[|log| - 1].body.sequence + 1 < U64_LIMIT
    requires ValidateBody(NextBody(env, identity, deviceId, log, op, heads, createdAt)).None?
    ensures
      var b := NextBody(env, identity, deviceId, log, op, heads, createdAt);
      && ShapeOk(env, identity, log + [Entry(b, signature)])
      && b.operation == op && b.createdAt == createdAt && (forall h :: h in b.observedHeads <==> h in heads)
      && (log == [] ==> b.deviceId == deviceId)
  {
    hide ValidateBody, CanonicalBytes, ShapeOk;
    CanonicalHeadsAreCanonical(heads);
    var e := Entry(NextBody(env, identity, deviceId, log, op, heads, createdAt), signature);
    if log != [] { ShapeFacts(env, identity, log, |log| - 1); }
    ShapeExtend(env, identity, log, e);
  }
}
