/** Serving device-writer logs in pages: cursors are checked against the
    provider's logs, a page carries the next entries that fit, and a continuation
    tells the requester where to go on. `Respond` says what the answer is;
    `ForSyncRequest` computes it, keeping a running count of encoded bytes. */
module DeltaSync {
  import opened Wrappers
  import opened ByteStrings
  import opened Crypto
  import opened Ordering
  import opened DeviceWriterLog
  import Auth = IdentityAuthority
  import opened Cbor

  const LEGACY_OPERATION_VERSION: U16 := 1
  const TOMBSTONE_OPERATION_VERSION: U16 := 2
  const CAUSAL_HEADS_OPERATION_VERSION: U16 := 3
  const LEGACY_SYNC_VERSION: U16 := 1
  const DELTA_SYNC_VERSION: U16 := 2

  datatype Cursor = Cursor(deviceId: Str, sequence: U64, entryHash: Hash)

  datatype Request = Request(identity: Str, maxOperationVersion: U16, maxSyncVersion: U16, cursors: seq<Cursor>)

  datatype Response = Response(
    requiredOperationVersion: U16,
    syncVersion: U16,
    heads: seq<Cursor>,
    continuation: Option<seq<Cursor>>,
    authorityRecords: seq<Auth.Record>,
    deviceLogs: seq<Log>)

  /** How entries and records serialize; only their size matters here. */
  datatype Wire = Wire(entry: Entry -> Item, record: Auth.Record -> Item)

  /** Limits of one page. */
  datatype Limits = Limits(maxEntries: nat, maxBytes: nat)

  function FromEntry(env: Env, e: Entry): Cursor
  {
    Cursor(e.body.deviceId, e.body.sequence, EntryHash(env, e))
  }

  function DeviceOf(log: Log): Str
  {
    if log == [] then [] else log[0].body.deviceId
  }

  /** What a provider's cache holds: verified logs, at most one per device. */
  ghost predicate WellFormed(env: Env, identity: Str, logs: seq<Log>)
  {
    && (forall log :: log in logs ==> ShapeOk(env, identity, log))
    && (forall x, y :: x in logs && y in logs && x != [] && y != [] && DeviceOf(x) == DeviceOf(y) ==> x == y)
    && (forall x :: x in logs && x != [] ==> multiset(logs)[x] == 1)
  }

  // ---- versions ----

  function EntryVersion(e: Entry): U16
  {
    if e.body.observedHeads != [] then CAUSAL_HEADS_OPERATION_VERSION
    else if e.body.operation.TombstonePath? then TOMBSTONE_OPERATION_VERSION
    else LEGACY_OPERATION_VERSION
  }

  function Max(a: U16, b: U16): U16 { if a < b then b else a }

  function LogVersion(log: Log): U16
  {
    if log == [] then LEGACY_OPERATION_VERSION else Max(LogVersion(log[..|log| - 1]), EntryVersion(log[|log| - 1]))
  }

  /** `required_operation_version`: the newest version any entry needs. */
  function RequiredVersion(logs: seq<Log>): U16
  {
    if logs == [] then LEGACY_OPERATION_VERSION
    else Max(RequiredVersion(logs[..|logs| - 1]), LogVersion(logs[|logs| - 1]))
  }

  function Full(required: U16, maxOperationVersion: U16, records: seq<Auth.Record>, logs: seq<Log>): Response
  {
    if maxOperationVersion < required then Response(required, LEGACY_SYNC_VERSION, [], None, [], [])
    else Response(required, LEGACY_SYNC_VERSION, [], None, records, logs)
  }

  // ---- cursors ----

  predicate AcceptedBy(env: Env, c: Cursor, log: Log)
  {
    && log != [] && log[0].body.deviceId == c.deviceId
    && c.sequence < |log| && log[c.sequence].body.sequence == c.sequence
    && EntryHash(env, log[c.sequence]) == c.entryHash
  }

  predicate CursorAccepted(env: Env, c: Cursor, logs: seq<Log>)
  {
    exists log :: log in logs && AcceptedBy(env, c, log)
  }

  predicate DistinctDevices(cursors: seq<Cursor>)
  {
    forall i, j :: 0 <= i < j < |cursors| ==> cursors[i].deviceId != cursors[j].deviceId
  }

  predicate CursorsAccepted(env: Env, cursors: seq<Cursor>, logs: seq<Log>)
  {
    DistinctDevices(cursors) && forall c :: c in cursors ==> CursorAccepted(env, c, logs)
  }

  function CursorMap(cursors: seq<Cursor>): map<Str, Cursor>
  {
    if cursors == [] then map[]
    else CursorMap(cursors[..|cursors| - 1])[cursors[|cursors| - 1].deviceId := cursors[|cursors| - 1]]
  }

  // ---- what is missing ----

  function LogKey(log: Log): Key { [DeviceOf(log)] }

  function IdKey(id: Str): Key { [id] }

  function HeadsOf(env: Env, logs: seq<Log>): seq<Cursor>
  {
    if logs == [] then []
    else
      var log := logs[|logs| - 1];
      HeadsOf(env, logs[..|logs| - 1]) + if log == [] then [] else [FromEntry(env, log[|log| - 1])]
  }

  /** Where a device's missing entries start. */
  function Start(known: map<Str, Cursor>, log: Log): nat
  {
    if log == [] then 0
    else
      var id := log[|log| - 1].body.deviceId;
      if id in known then known[id].sequence + 1 else 0
  }

  ghost predicate StartsInRange(known: map<Str, Cursor>, logs: seq<Log>)
  {
    forall i :: 0 <= i < |logs| ==> Start(known, logs[i]) <= |logs[i]|
  }

  function Suffixes(known: map<Str, Cursor>, logs: seq<Log>): (r: seq<Log>)
    requires StartsInRange(known, logs)
    ensures |r| == |logs|
    ensures forall i :: 0 <= i < |logs| ==> r[i] == logs[i][Start(known, logs[i])..]
  {
    seq(|logs|, i requires 0 <= i < |logs| => logs[i][Start(known, logs[i])..])
  }

  // ---- sizes ----

  function LogItem(wire: Wire, log: Log): Item
  {
    Array(seq(|log|, i requires 0 <= i < |log| => wire.entry(log[i])))
  }

  function LogsItem(wire: Wire, logs: seq<Log>): Item
  {
    Array(seq(|logs|, i requires 0 <= i < |logs| => LogItem(wire, logs[i])))
  }

  function CursorItem(c: Cursor): Item
  {
    Map([Field(Ascii("device_id"), Text(c.deviceId)),
         Field(Ascii("device_sequence"), Unsigned(c.sequence)),
         Field(Ascii("entry_hash"), HashItem(c.entryHash))])
  }

  /** A `[u8; 32]` is an array of 32 small integers. */
  function HashItem(h: Hash): Item
  {
    Array(seq(32, i requires 0 <= i < 32 => Unsigned(h[i])))
  }

  function CursorsItem(cs: seq<Cursor>): Item
  {
    Array(seq(|cs|, i requires 0 <= i < |cs| => CursorItem(cs[i])))
  }

  function RecordsItem(wire: Wire, rs: seq<Auth.Record>): Item
  {
    Array(seq(|rs|, i requires 0 <= i < |rs| => wire.record(rs[i])))
  }

  function LeadingFields(wire: Wire, r: Response): seq<Field>
  {
    [Field(Ascii("required_operation_version"), Unsigned(r.requiredOperationVersion)),
     Field(Ascii("sync_version"), Unsigned(r.syncVersion))] +
    if r.heads == [] then [] else [Field(Ascii("heads"), CursorsItem(r.heads))]
  }

  function ContinuationFields(r: Response): seq<Field>
  {
    match r.continuation
    case None => []
    case Some(cs) =>
      [Field(Ascii("continuation"), Map([Field(Ascii("cursors"), CursorsItem(cs))]))]
  }

  function RecordsField(wire: Wire, r: Response): Field
  {
    Field(Ascii("authority_records"), RecordsItem(wire, r.authorityRecords))
  }

  function LogsField(wire: Wire, r: Response): Field
  {
    Field(Ascii("device_logs"), LogsItem(wire, r.deviceLogs))
  }

  /** The response as serde writes it: empty heads and a missing continuation are
      skipped. */
  function ResponseItem(wire: Wire, r: Response): Item
  {
    Map(LeadingFields(wire, r) + ContinuationFields(r) + [RecordsField(wire, r)] + [LogsField(wire, r)])
  }

  function Size(wire: Wire, r: Response): nat
  {
    |Encode(ResponseItem(wire, r))|
  }

  // ---- one page ----

  ghost function SetSeq(s: set<Str>): (r: seq<Str>)
    ensures multiset(r) == multiset(s)
  {
    if s == {} then []
    else
      var x :| x in s;
      assert s == (s - {x}) + {x};
      [x] + SetSeq(s - {x})
  }

  ghost function SortedIds(ids: set<Str>): (r: seq<Str>)
    ensures multiset(r) == multiset(ids)
  {
    Sort(SetSeq(ids), IdKey)
  }

  /** The largest cursor a device can have. */
  function Placeholder(id: Str): Cursor
  {
    Cursor(id, U64_LIMIT - 1, seq(32, i => 255))
  }

  function Placeholders(ids: seq<Str>): seq<Cursor>
  {
    seq(|ids|, i requires 0 <= i < |ids| => Placeholder(ids[i]))
  }

  function IdsOf(cursors: seq<Cursor>): set<Str>
  {
    set c | c in cursors :: c.deviceId
  }

  /** The page's frame while it is filled, with room reserved for the largest
      continuation. */
  ghost function Frame(required: U16, cursors: seq<Cursor>, heads: seq<Cursor>, records: seq<Auth.Record>,
                       groups: seq<Log>): Response
  {
    Response(required, DELTA_SYNC_VERSION, heads,
             Some(Placeholders(SortedIds(IdsOf(cursors) + IdsOf(heads)))), records, groups)
  }

  function NonEmpty(logs: seq<Log>): seq<Log>
  {
    if logs == [] then []
    else NonEmpty(logs[..|logs| - 1]) + if logs[|logs| - 1] == [] then [] else [logs[|logs| - 1]]
  }

  /** A place in the missing entries: i whole suffixes and j entries of the next. */
  ghost predicate InPage(suffixes: seq<Log>, i: nat, j: nat)
  {
    i <= |suffixes| && (i < |suffixes| ==> j <= |suffixes[i]|) && (i == |suffixes| ==> j == 0)
  }

  /** The groups of a page that carries the first i suffixes and j entries of the
      next. */
  function Groups(suffixes: seq<Log>, i: nat, j: nat): seq<Log>
    requires InPage(suffixes, i, j)
  {
    NonEmpty(suffixes[..i]) + if i < |suffixes| && j > 0 then [suffixes[i][..j]] else []
  }

  function Total(logs: seq<Log>): nat
  {
    if logs == [] then 0 else Total(logs[..|logs| - 1]) + |logs[|logs| - 1]|
  }

  function Count(suffixes: seq<Log>, i: nat, j: nat): nat
    requires i <= |suffixes|
  {
    Total(suffixes[..i]) + j
  }

  datatype Position = Position(i: nat, j: nat)

  /** The page of the first i suffixes and j more entries keeps the limits. */
  ghost predicate Within(wire: Wire, limits: Limits, frame: Response, suffixes: seq<Log>, i: nat, j: nat)
    requires InPage(suffixes, i, j)
  {
    && Count(suffixes, i, j) <= limits.maxEntries
    && Size(wire, frame.(deviceLogs := Groups(suffixes, i, j))) <= limits.maxBytes
  }

  /** Where filling stops: at the first entry that would break a limit. */
  ghost function Fill(wire: Wire, limits: Limits, frame: Response, suffixes: seq<Log>, i: nat, j: nat): (r: Position)
    requires InPage(suffixes, i, j)
    ensures InPage(suffixes, r.i, r.j)
    decreases |suffixes| - i, if i < |suffixes| then |suffixes[i]| - j else 0
  {
    if i == |suffixes| then Position(i, j)
    else if j == |suffixes[i]| then Fill(wire, limits, frame, suffixes, i + 1, 0)
    else if Within(wire, limits, frame, suffixes, i, j + 1) then Fill(wire, limits, frame, suffixes, i, j + 1)
    else Position(i, j)
  }

  // ---- the continuation ----

  function AddEntries(env: Env, m: map<Str, Cursor>, log: Log): map<Str, Cursor>
  {
    if log == [] then m
    else
      var e := log[|log| - 1];
      AddEntries(env, m, log[..|log| - 1])[e.body.deviceId := FromEntry(env, e)]
  }

  /** The cursors after a page: each device's last delivered entry, or the cursor
      the request came with. */
  function AddGroups(env: Env, m: map<Str, Cursor>, groups: seq<Log>): map<Str, Cursor>
  {
    if groups == [] then m
    else AddEntries(env, AddGroups(env, m, groups[..|groups| - 1]), groups[|groups| - 1])
  }

  ghost function CursorList(m: map<Str, Cursor>): (r: seq<Cursor>)
    ensures |r| == |SortedIds(m.Keys)|
    ensures forall i :: 0 <= i < |r| ==> SortedIds(m.Keys)[i] in m && r[i] == m[SortedIds(m.Keys)[i]]
  {
    var ids := SortedIds(m.Keys);
    SortedIdsMembers(m.Keys);
    seq(|ids|, i requires 0 <= i < |ids| => m[ids[i]])
  }

  lemma SortedIdsMembers(ids: set<Str>)
    ensures forall i :: 0 <= i < |SortedIds(ids)| ==> SortedIds(ids)[i] in ids
  {
    forall i | 0 <= i < |SortedIds(ids)| ensures SortedIds(ids)[i] in ids {
      assert SortedIds(ids)[i] in multiset(SortedIds(ids));
    }
  }

  // ---- accepted cursors ----

  lemma {:induction false} CursorMapMeans(cursors: seq<Cursor>, id: Str)
    ensures id in CursorMap(cursors) <==> exists c :: c in cursors && c.deviceId == id
    ensures id in CursorMap(cursors) ==> CursorMap(cursors)[id] in cursors && CursorMap(cursors)[id].deviceId == id
  {
    if cursors != [] {
      var n := |cursors| - 1;
      CursorMapMeans(cursors[..n], id);
      assert cursors == cursors[..n] + [cursors[n]];
    }
  }

  lemma DeviceThroughout(env: Env, identity: Str, log: Log, i: nat)
    requires ShapeOk(env, identity, log) && i < |log|
    ensures log[i].body.deviceId == DeviceOf(log) && log[i].body.sequence == i
  {
    hide ShapeOk, EntryHash, ValidateBody;
    ShapeFacts(env, identity, log, i);
  }

  /** The log an accepted cursor points into is its device's only log. */
  lemma AcceptedLog(env: Env, identity: Str, cursors: seq<Cursor>, logs: seq<Log>, log: Log)
    requires WellFormed(env, identity, logs) && CursorsAccepted(env, cursors, logs)
    requires log in logs && log != [] && DeviceOf(log) in CursorMap(cursors)
    ensures AcceptedBy(env, CursorMap(cursors)[DeviceOf(log)], log)
  {
    hide ShapeOk, EntryHash;
    CursorMapMeans(cursors, DeviceOf(log));
    var c := CursorMap(cursors)[DeviceOf(log)];
    var other :| other in logs && AcceptedBy(env, c, other);
    assert DeviceOf(other) == DeviceOf(log);
  }

  lemma SortedLogs(env: Env, identity: Str, logs: seq<Log>)
    requires WellFormed(env, identity, logs)
    ensures WellFormed(env, identity, Sort(logs, LogKey))
    ensures forall log :: log in Sort(logs, LogKey) <==> log in logs
  {
    hide ShapeOk, Sort;
    forall log ensures log in Sort(logs, LogKey) <==> log in logs { SortElements(logs, LogKey, log); }
  }

  lemma StartOf(env: Env, identity: Str, known: map<Str, Cursor>, log: Log)
    requires ShapeOk(env, identity, log)
    ensures Start(known, log) ==
            if log != [] && DeviceOf(log) in known then known[DeviceOf(log)].sequence + 1 else 0
  {
    hide ShapeOk;
    if log != [] { DeviceThroughout(env, identity, log, |log| - 1); }
  }

  lemma AcceptedStarts(env: Env, identity: Str, cursors: seq<Cursor>, logs: seq<Log>)
    requires WellFormed(env, identity, logs) && CursorsAccepted(env, cursors, logs)
    ensures StartsInRange(CursorMap(cursors), Sort(logs, LogKey))
  {
    hide Sort, CursorMap, CursorsAccepted, WellFormed, Start, EntryHash;
    var sorted := Sort(logs, LogKey);
    SortedLogs(env, identity, logs);
    forall i | 0 <= i < |sorted| ensures Start(CursorMap(cursors), sorted[i]) <= |sorted[i]| {
      var log := sorted[i];
      assert log in sorted;
      ShapeOfMember(env, identity, logs, log);
      StartOf(env, identity, CursorMap(cursors), log);
      if log != [] && DeviceOf(log) in CursorMap(cursors) {
        AcceptedLog(env, identity, cursors, logs, log);
      }
    }
  }

  lemma ShapeOfMember(env: Env, identity: Str, logs: seq<Log>, log: Log)
    requires WellFormed(env, identity, logs) && log in logs
    ensures ShapeOk(env, identity, log)
  {
  }

  // ---- the answer ----

  /** A delta page, or the full state when not even one entry fits. */
  ghost function Delta(env: Env, wire: Wire, limits: Limits, request: Request, required: U16,
                       records: seq<Auth.Record>, sorted: seq<Log>): Response
    requires StartsInRange(CursorMap(request.cursors), sorted)
  {
    var known := CursorMap(request.cursors);
    var heads := HeadsOf(env, sorted);
    var suffixes := Suffixes(known, sorted);
    var stop := Fill(wire, limits, Frame(required, request.cursors, heads, records, []), suffixes, 0, 0);
    var groups := Groups(suffixes, stop.i, stop.j);
    if stop.i < |suffixes| && Count(suffixes, stop.i, stop.j) == 0 then
      Full(required, request.maxOperationVersion, records, sorted)
    else
      Response(required, DELTA_SYNC_VERSION, heads,
               if stop.i < |suffixes| then Some(CursorList(AddGroups(env, known, groups))) else None,
               records, groups)
  }

  /** Whether a request may be answered with a delta at all. */
  predicate Negotiated(env: Env, request: Request, logs: seq<Log>)
  {
    && request.maxSyncVersion >= DELTA_SYNC_VERSION
    && RequiredVersion(logs) <= request.maxOperationVersion
    && CursorsAccepted(env, request.cursors, logs)
  }

  ghost function Respond(env: Env, wire: Wire, limits: Limits, request: Request,
                         records: seq<Auth.Record>, logs: seq<Log>): Response
    requires WellFormed(env, request.identity, logs)
  {
    var required := RequiredVersion(logs);
    if !Negotiated(env, request, logs) then Full(required, request.maxOperationVersion, records, logs)
    else
      AcceptedStarts(env, request.identity, request.cursors, logs);
      Delta(env, wire, limits, request, required, records, Sort(logs, LogKey))
  }
}
