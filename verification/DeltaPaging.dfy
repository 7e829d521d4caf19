/** Filling a page: the running byte count is the exact size of the page so far,
    and the finished page is never larger than what was counted. */
module DeltaPaging {
  import opened Wrappers
  import opened ByteStrings
  import opened Ordering
  import opened DeviceWriterLog
  import opened Cbor
  import opened DeltaSync

  // ---- sizes of growing collections ----

  function LogBytes(wire: Wire, logs: seq<Log>): nat
  {
    |Encode(LogsItem(wire, logs))|
  }

  lemma LogItemGrows(wire: Wire, log: Log, e: Entry)
    ensures |Encode(LogItem(wire, log + [e]))| ==
            |Encode(LogItem(wire, log))| + ArrayHeaderLen(|log| + 1) - ArrayHeaderLen(|log|) + |Encode(wire.entry(e))|
  {
    var items := LogItem(wire, log).items;
    assert LogItem(wire, log + [e]).items == items + [wire.entry(e)];
    EncodeAllSnoc(items, wire.entry(e));
    HeadSize(4, |log|);
    HeadSize(4, |log| + 1);
  }

  lemma LogsItemGrows(wire: Wire, logs: seq<Log>, log: Log)
    ensures LogBytes(wire, logs + [log]) ==
            LogBytes(wire, logs) + ArrayHeaderLen(|logs| + 1) - ArrayHeaderLen(|logs|) + |Encode(LogItem(wire, log))|
  {
    hide LogItem;
    var items := LogsItem(wire, logs).items;
    assert LogsItem(wire, logs + [log]).items == items + [LogItem(wire, log)];
    EncodeAllSnoc(items, LogItem(wire, log));
    HeadSize(4, |logs|);
    HeadSize(4, |logs| + 1);
  }

  lemma EmptySizes(wire: Wire)
    ensures |Encode(LogItem(wire, []))| == 1 && LogBytes(wire, []) == 1
  {
  }

  /** The bytes one more entry costs, as the source computes them. */
  function EntryCost(wire: Wire, groups: seq<Log>, delta: Log, e: Entry): (r: int)
  {
    var overhead :=
      if delta == [] then
        ArrayHeaderLen(|groups| + 1) - ArrayHeaderLen(|groups|) + ArrayHeaderLen(|delta| + 1)
      else ArrayHeaderLen(|delta| + 1) - ArrayHeaderLen(|delta|);
    overhead + |Encode(wire.entry(e))|
  }

  /** The computed cost is the exact growth of the encoded logs. */
  lemma EntryCostIsExact(wire: Wire, groups: seq<Log>, delta: Log, e: Entry)
    ensures LogBytes(wire, groups + [delta + [e]]) ==
            LogBytes(wire, groups + if delta == [] then [] else [delta]) + EntryCost(wire, groups, delta, e)
  {
    hide LogBytes, LogItem;
    LogItemGrows(wire, delta, e);
    LogsItemGrows(wire, groups, delta + [e]);
    if delta == [] {
      EmptySizes(wire);
      assert groups + [] == groups;
    } else {
      LogsItemGrows(wire, groups, delta);
    }
  }

  /** Everything but the logs contributes the same size, whatever the logs. */
  lemma SizeOfFrame(wire: Wire, r: Response, logs: seq<Log>)
    ensures Size(wire, r.(deviceLogs := logs)) + 1 == Size(wire, r.(deviceLogs := [])) + LogBytes(wire, logs)
  {
    hide LogsItem, RecordsItem, CursorsItem, LeadingFields, ContinuationFields, RecordsField;
    var r0, r1 := r.(deviceLogs := []), r.(deviceLogs := logs);
    var front := LeadingFields(wire, r) + ContinuationFields(r) + [RecordsField(wire, r)];
    LeadingUnmoved(wire, r, logs);
    LeadingUnmoved(wire, r, []);
    EncodeFieldsSize(front, [LogsField(wire, r0)]);
    EncodeFieldsSize(front, [LogsField(wire, r1)]);
    OneField(LogsField(wire, r0));
    OneField(LogsField(wire, r1));
    EmptySizes(wire);
  }

  lemma LeadingUnmoved(wire: Wire, r: Response, logs: seq<Log>)
    ensures LeadingFields(wire, r.(deviceLogs := logs)) == LeadingFields(wire, r)
    ensures ContinuationFields(r.(deviceLogs := logs)) == ContinuationFields(r)
    ensures RecordsField(wire, r.(deviceLogs := logs)) == RecordsField(wire, r)
  {
  }

  lemma OneField(f: Field)
    ensures |EncodeFields([f])| == |Head(3, |f.name|)| + |f.name| + |Encode(f.value)|
  {
    hide Head;
    assert [f][1..] == [];
    assert EncodeFields([]) == [];
  }

  // ---- filling ----

  lemma GroupsStep(suffixes: seq<Log>, i: nat, j: nat)
    requires i < |suffixes| && j < |suffixes[i]|
    ensures Groups(suffixes, i, j) == NonEmpty(suffixes[..i]) + if j == 0 then [] else [suffixes[i][..j]]
    ensures Groups(suffixes, i, j + 1) == NonEmpty(suffixes[..i]) + [suffixes[i][..j] + [suffixes[i][j]]]
    ensures Count(suffixes, i, j + 1) == Count(suffixes, i, j) + 1
  {
    assert suffixes[i][..j + 1] == suffixes[i][..j] + [suffixes[i][j]];
  }

  lemma GroupsNext(suffixes: seq<Log>, i: nat)
    requires i < |suffixes|
    ensures Groups(suffixes, i + 1, 0) == Groups(suffixes, i, |suffixes[i]|)
    ensures NonEmpty(suffixes[..i + 1]) == NonEmpty(suffixes[..i]) + if suffixes[i] == [] then [] else [suffixes[i]]
    ensures Count(suffixes, i + 1, 0) == Count(suffixes, i, |suffixes[i]|)
  {
    assert suffixes[..i + 1][..i] == suffixes[..i];
    assert suffixes[i][..|suffixes[i]|] == suffixes[i];
  }

  /** The nested loops that fill a page. */
  method FillPage(wire: Wire, limits: Limits, ghost frame: Response, suffixes: seq<Log>, envelopeBytes: nat)
    returns (deltaLogs: seq<Log>, transferredEntries: nat, transferredBytes: nat, truncated: bool, ghost stop: Position)
    requires frame.deviceLogs == [] && envelopeBytes == Size(wire, frame)
    ensures stop == Fill(wire, limits, frame, suffixes, 0, 0)
    ensures deltaLogs == Groups(suffixes, stop.i, stop.j)
    ensures transferredEntries == Count(suffixes, stop.i, stop.j)
    ensures transferredBytes == Size(wire, frame.(deviceLogs := deltaLogs))
    ensures truncated <==> stop.i < |suffixes|
  {
    hide Size, LogBytes, Groups, NonEmpty, Count, Total;
    deltaLogs, transferredEntries, transferredBytes, truncated := [], 0, envelopeBytes, false;
    var i := 0;
    FillStart(frame, suffixes);
    while i < |suffixes|
      invariant 0 <= i <= |suffixes|
      invariant Fill(wire, limits, frame, suffixes, 0, 0) == Fill(wire, limits, frame, suffixes, i, 0)
      invariant deltaLogs == NonEmpty(suffixes[..i]) == Groups(suffixes, i, 0)
      invariant transferredEntries == Count(suffixes, i, 0)
      invariant transferredBytes == Size(wire, frame.(deviceLogs := deltaLogs))
      invariant !truncated
    {
      var delta: Log := [];
      var j := 0;
      GroupsAtStart(suffixes, i);
      while j < |suffixes[i]|
        invariant 0 <= j <= |suffixes[i]|
        invariant Fill(wire, limits, frame, suffixes, 0, 0) == Fill(wire, limits, frame, suffixes, i, j)
        invariant delta == suffixes[i][..j]
        invariant Groups(suffixes, i, j) == deltaLogs + if delta == [] then [] else [delta]
        invariant transferredEntries == Count(suffixes, i, j)
        invariant transferredBytes == Size(wire, frame.(deviceLogs := Groups(suffixes, i, j)))
      {
        var entry := suffixes[i][j];
        var cost := EntryCost(wire, deltaLogs, delta, entry);
        GroupsStep(suffixes, i, j);
        StepSize(wire, frame, deltaLogs, delta, entry);
        if transferredEntries >= limits.maxEntries || transferredBytes + cost > limits.maxBytes {
          truncated := true;
          break;
        }
        transferredEntries := transferredEntries + 1;
        transferredBytes := transferredBytes + cost;
        delta := delta + [entry];
        j := j + 1;
      }
      if delta != [] {
        deltaLogs := deltaLogs + [delta];
      }
      if truncated {
        stop := Position(i, j);
        return;
      }
      assert suffixes[i][..|suffixes[i]|] == suffixes[i];
      GroupsNext(suffixes, i);
      GroupsAtStart(suffixes, i + 1);
      i := i + 1;
    }
    stop := Position(|suffixes|, 0);
  }

  lemma FillStart(frame: Response, suffixes: seq<Log>)
    requires frame.deviceLogs == []
    ensures NonEmpty(suffixes[..0]) == [] == Groups(suffixes, 0, 0) && Count(suffixes, 0, 0) == 0
    ensures frame.(deviceLogs := []) == frame
  {
  }

  lemma GroupsAtStart(suffixes: seq<Log>, i: nat)
    requires i <= |suffixes|
    ensures Groups(suffixes, i, 0) == NonEmpty(suffixes[..i])
  {
  }

  lemma StepSize(wire: Wire, frame: Response, groups: seq<Log>, delta: Log, e: Entry)
    ensures Size(wire, frame.(deviceLogs := groups + [delta + [e]])) ==
            Size(wire, frame.(deviceLogs := groups + if delta == [] then [] else [delta])) +
            EntryCost(wire, groups, delta, e)
  {
    hide Size, LogBytes, EntryCost;
    SizeOfFrame(wire, frame, groups + [delta + [e]]);
    SizeOfFrame(wire, frame, groups + if delta == [] then [] else [delta]);
    EntryCostIsExact(wire, groups, delta, e);
  }

  // ---- the reserved continuation dominates the real one ----

  lemma CursorSize(c: Cursor)
    ensures |Encode(CursorItem(c))| <= |Encode(CursorItem(Placeholder(c.deviceId)))|
  {
    hide Head;
    var a, b := CursorItem(c), CursorItem(Placeholder(c.deviceId));
    LargestUnsigned(c.sequence);
    HashSize(c.entryHash);
    FieldsSize3(a.fields);
    FieldsSize3(b.fields);
  }

  lemma FieldsSize3(fs: seq<Field>)
    requires |fs| == 3
    ensures |EncodeFields(fs)| ==
      |Head(3, |fs[0].name|)| + |fs[0].name| + |Encode(fs[0].value)| +
      |Head(3, |fs[1].name|)| + |fs[1].name| + |Encode(fs[1].value)| +
      |Head(3, |fs[2].name|)| + |fs[2].name| + |Encode(fs[2].value)|
  {
    hide Head, Encode;
    assert fs == [fs[0]] + [fs[1]] + [fs[2]];
    EncodeFieldsSize([fs[0]] + [fs[1]], [fs[2]]);
    EncodeFieldsSize([fs[0]], [fs[1]]);
    OneField(fs[0]);
    OneField(fs[1]);
    OneField(fs[2]);
  }

  lemma HashSize(h: Hash)
    ensures |Encode(HashItem(h))| <= |Encode(HashItem(seq(32, i => 255)))|
  {
    var a, b := HashItem(h), HashItem(seq(32, i => 255));
    forall i | 0 <= i < 32 ensures |Encode(a.items[i])| <= |Encode(b.items[i])| { }
    EncodeAllMonotone(a.items, b.items);
  }

  /** The size of a list of reserved cursors, by device id. */
  function ReservedBytes(ids: seq<Str>): nat
  {
    if ids == [] then 0
    else ReservedBytes(ids[..|ids| - 1]) + |Encode(CursorItem(Placeholder(ids[|ids| - 1])))|
  }

  lemma {:induction false} ReservedIsExact(ids: seq<Str>)
    ensures |EncodeAll(CursorsItem(Placeholders(ids)).items)| == ReservedBytes(ids)
  {
    hide CursorItem, Placeholder, Encode;
    var items := CursorsItem(Placeholders(ids)).items;
    if ids == [] {
      assert items == [];
    } else {
      var n := |ids| - 1;
      ReservedIsExact(ids[..n]);
      var rest := CursorsItem(Placeholders(ids[..n])).items;
      assert items == rest + [CursorItem(Placeholder(ids[n]))];
      EncodeAllSnoc(rest, CursorItem(Placeholder(ids[n])));
    }
  }

  lemma {:induction false} ReservedMoves(ids: seq<Str>, i: nat)
    requires i < |ids|
    ensures ReservedBytes(ids) ==
            ReservedBytes(ids[..i] + ids[i + 1..]) + |Encode(CursorItem(Placeholder(ids[i])))|
  {
    hide CursorItem, Placeholder, Encode;
    var n := |ids| - 1;
    var rest := ids[..i] + ids[i + 1..];
    if i == n {
      assert rest == ids[..n];
    } else {
      ReservedMoves(ids[..n], i);
      assert rest[..|rest| - 1] == ids[..n][..i] + ids[..n][i + 1..];
    }
  }

  lemma {:induction false} ReservedSubset(a: seq<Str>, b: seq<Str>)
    requires multiset(a) <= multiset(b)
    ensures ReservedBytes(a) <= ReservedBytes(b) && |a| <= |b|
    decreases |a|
  {
    hide CursorItem, Placeholder, Encode;
    if a != [] {
      var n := |a| - 1;
      DropLast(a);
      assert a[n] in multiset(a);
      assert a[n] in multiset(b);
      var i :| 0 <= i < |b| && b[i] == a[n];
      var rest := b[..i] + b[i + 1..];
      assert b == b[..i] + [b[i]] + b[i + 1..];
      assert multiset(rest) == multiset(b) - multiset{b[i]};
      ReservedMoves(b, i);
      ReservedSubset(a[..n], rest);
    }
  }

  /** A list with one cursor for each of some reserved ids is no larger than the
      reservation. */
  lemma {:induction false} CursorsWithinReserved(cs: seq<Cursor>, ids: seq<Str>)
    requires |cs| == |ids| && forall i :: 0 <= i < |cs| ==> cs[i].deviceId == ids[i]
    ensures |EncodeAll(CursorsItem(cs).items)| <= ReservedBytes(ids)
  {
    hide CursorItem, Placeholder, Encode;
    var items := CursorsItem(cs).items;
    if cs == [] {
      assert items == [];
    } else {
      var n := |cs| - 1;
      CursorsWithinReserved(cs[..n], ids[..n]);
      var rest := CursorsItem(cs[..n]).items;
      assert items == rest + [CursorItem(cs[n])];
      EncodeAllSnoc(rest, CursorItem(cs[n]));
      CursorSize(cs[n]);
    }
  }

  lemma SmallerContinuation(wire: Wire, r: Response, reserved: seq<Cursor>, actual: Option<seq<Cursor>>)
    requires actual.Some? ==>
      && |actual.value| <= |reserved|
      && |EncodeAll(CursorsItem(actual.value).items)| <= |EncodeAll(CursorsItem(reserved).items)|
    ensures Size(wire, r.(continuation := actual)) <= Size(wire, r.(continuation := Some(reserved)))
  {
    hide CursorsItem, RecordsItem, LogsItem, LeadingFields;
    var r0, r1 := r.(continuation := actual), r.(continuation := Some(reserved));
    var front, records, logs := LeadingFields(wire, r), [RecordsField(wire, r)], [LogsField(wire, r)];
    ContinuationAside(wire, r, actual);
    ContinuationAside(wire, r, Some(reserved));
    FrontSmall(wire, r);
    EncodeFieldsSize(front + ContinuationFields(r0) + records, logs);
    EncodeFieldsSize(front + ContinuationFields(r0), records);
    EncodeFieldsSize(front, ContinuationFields(r0));
    EncodeFieldsSize(front + ContinuationFields(r1) + records, logs);
    EncodeFieldsSize(front + ContinuationFields(r1), records);
    EncodeFieldsSize(front, ContinuationFields(r1));
    ContinuationFieldSize(r0, r1);
  }

  lemma ContinuationAside(wire: Wire, r: Response, c: Option<seq<Cursor>>)
    ensures LeadingFields(wire, r.(continuation := c)) == LeadingFields(wire, r)
    ensures RecordsField(wire, r.(continuation := c)) == RecordsField(wire, r)
    ensures LogsField(wire, r.(continuation := c)) == LogsField(wire, r)
  {
  }

  lemma FrontSmall(wire: Wire, r: Response)
    ensures |LeadingFields(wire, r)| <= 3
  {
  }

  lemma ContinuationFieldSize(r0: Response, r1: Response)
    requires r1.continuation.Some?
    requires r0.continuation.Some? ==>
      && |r0.continuation.value| <= |r1.continuation.value|
      && |EncodeAll(CursorsItem(r0.continuation.value).items)| <= |EncodeAll(CursorsItem(r1.continuation.value).items)|
    ensures |EncodeFields(ContinuationFields(r0))| <= |EncodeFields(ContinuationFields(r1))|
  {
    hide CursorItem, Head;
    if r0.continuation.Some? {
      var a, b := CursorsItem(r0.continuation.value), CursorsItem(r1.continuation.value);
      HeadSize(4, |a.items|);
      HeadSize(4, |b.items|);
      HeaderGrows(|a.items|, |b.items|);
      OneField(Field(Ascii("cursors"), a));
      OneField(Field(Ascii("cursors"), b));
      OneField(ContinuationFields(r0)[0]);
      OneField(ContinuationFields(r1)[0]);
    }
  }
}
