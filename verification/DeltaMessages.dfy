/** A sync response read back from the data item it is written as. */
module DeltaMessages {
  import opened Wrappers
  import opened ByteStrings
  import opened DeviceWriterLog
  import opened Cbor
  import opened DeltaSync

  /** The first field of a name. */
  function FieldOf(fields: seq<Field>, name: Bytes): Option<Item>
  {
    if fields == [] then None
    else if fields[0].name == name then Some(fields[0].value)
    else FieldOf(fields[1..], name)
  }

  lemma {:induction false} FieldSkips(front: seq<Field>, rest: seq<Field>, name: Bytes)
    requires forall i :: 0 <= i < |front| ==> front[i].name != name
    ensures FieldOf(front + rest, name) == FieldOf(rest, name)
  {
    if front == [] {
      assert front + rest == rest;
    } else {
      FieldSkips(front[1..], rest, name);
      assert (front + rest)[1..] == front[1..] + rest;
    }
  }

  lemma FieldFirst(f: Field, rest: seq<Field>)
    ensures FieldOf([f] + rest, f.name) == Some(f.value)
  {
  }

  function ReadHash(item: Item): Option<Hash>
  {
    if item.Array? && |item.items| == 32
       && forall i :: 0 <= i < 32 ==> item.items[i].Unsigned? && item.items[i].n < 256
    then Some(seq(32, i requires 0 <= i < 32 => item.items[i].n))
    else None
  }

  function ReadCursor(item: Item): Option<Cursor>
  {
    if !item.Map? then None
    else
      var id :- FieldOf(item.fields, Ascii("device_id"));
      var sequence :- FieldOf(item.fields, Ascii("device_sequence"));
      var hash :- FieldOf(item.fields, Ascii("entry_hash"));
      var entryHash :- ReadHash(hash);
      if id.Text? && sequence.Unsigned? then Some(Cursor(id.s, sequence.n, entryHash)) else None
  }

  lemma HashReads(h: Hash)
    ensures ReadHash(HashItem(h)) == Some(h)
  {
    var item := HashItem(h);
    assert forall i :: 0 <= i < 32 ==> item.items[i] == Unsigned(h[i]);
    var r: seq<Byte> := ReadHash(item).value;
    assert forall i :: 0 <= i < 32 ==> r[i] == h[i];
    assert r == h;
  }

  /** A cursor is read back from its own item. */
  lemma CursorReads(c: Cursor)
    ensures ReadCursor(CursorItem(c)) == Some(c)
  {
    hide HashItem, ReadHash, Ascii;
    HashReads(c.entryHash);
    var a, b := Field(Ascii("device_id"), Text(c.deviceId)), Field(Ascii("device_sequence"), Unsigned(c.sequence));
    var d := Field(Ascii("entry_hash"), HashItem(c.entryHash));
    CursorNames();
    var fields := CursorItem(c).fields;
    assert fields == [a] + [b, d] && fields == [a] + ([b] + [d]) && fields == [a, b] + [d] && [d] == [d] + [];
    FieldFirst(a, [b, d]);
    FieldSkips([a], [b] + [d], b.name);
    FieldFirst(b, [d]);
    FieldSkips([a, b], [d], d.name);
    FieldFirst(d, []);
  }

  lemma CursorNames()
    ensures Ascii("device_id") != Ascii("device_sequence") && Ascii("device_id") != Ascii("entry_hash")
    ensures Ascii("device_sequence") != Ascii("entry_hash")
  {
    assert |Ascii("device_id")| == 9 && |Ascii("device_sequence")| == 15 && |Ascii("entry_hash")| == 10;
  }

  /** The item lists the cursors, each as it can be read back. */
  ghost predicate ListsCursors(item: Item, cs: seq<Cursor>)
  {
    item.Array? && |item.items| == |cs| && forall i :: 0 <= i < |cs| ==> ReadCursor(item.items[i]) == Some(cs[i])
  }

  lemma CursorsRead(cs: seq<Cursor>)
    ensures ListsCursors(CursorsItem(cs), cs)
  {
    hide CursorItem, ReadCursor;
    forall i | 0 <= i < |cs| ensures ReadCursor(CursorsItem(cs).items[i]) == Some(cs[i]) { CursorReads(cs[i]); }
  }

  ghost predicate ListsLogs(wire: Wire, item: Item, logs: seq<Log>)
  {
    && item.Array? && |item.items| == |logs|
    && forall i :: 0 <= i < |logs| ==>
         && item.items[i].Array? && |item.items[i].items| == |logs[i]|
         && forall j :: 0 <= j < |logs[i]| ==> item.items[i].items[j] == wire.entry(logs[i][j])
  }

  /** What a response's fields say, by name. */
  ghost predicate Carries(wire: Wire, fields: seq<Field>, r: Response)
  {
    var heads, next := FieldOf(fields, Ascii("heads")), FieldOf(fields, Ascii("continuation"));
    var records, logs := FieldOf(fields, Ascii("authority_records")), FieldOf(fields, Ascii("device_logs"));
    && FieldOf(fields, Ascii("required_operation_version")) == Some(Unsigned(r.requiredOperationVersion))
    && FieldOf(fields, Ascii("sync_version")) == Some(Unsigned(r.syncVersion))
    && (if r.heads == [] then heads.None? else heads.Some? && ListsCursors(heads.value, r.heads))
    && (if r.continuation.None? then next.None?
        else
          && next.Some? && next.value.Map? && |next.value.fields| == 1 && next.value.fields[0].name == Ascii("cursors")
          && ListsCursors(next.value.fields[0].value, r.continuation.value))
    && records.Some? && records.value.Array? && |records.value.items| == |r.authorityRecords|
    && (forall i :: 0 <= i < |r.authorityRecords| ==> records.value.items[i] == wire.record(r.authorityRecords[i]))
    && logs.Some? && ListsLogs(wire, logs.value, r.deviceLogs)
    && |fields| == 4 + (if r.heads == [] then 0 else 1) + (if r.continuation.None? then 0 else 1)
  }

  /** The names a response's fields can have, in the order they are written. */
  function Names(): (r: seq<Bytes>)
    ensures |r| == 6
  {
    [Ascii("required_operation_version"), Ascii("sync_version"), Ascii("heads"), Ascii("continuation"),
     Ascii("authority_records"), Ascii("device_logs")]
  }

  lemma NamesDiffer()
    ensures forall i, j :: 0 <= i < j < |Names()| ==> Names()[i] != Names()[j]
  {
    assert |Names()[0]| == 26 && |Names()[1]| == 12 && |Names()[2]| == 5;
    assert |Names()[3]| == 12 && |Names()[4]| == 17 && |Names()[5]| == 11;
    assert Names()[1][0] != Names()[3][0];
  }

  /** A field stands at its place among fields of other names. */
  lemma FieldAt(fields: seq<Field>, i: nat)
    requires i < |fields| && forall k :: 0 <= k < i ==> fields[k].name != fields[i].name
    ensures FieldOf(fields, fields[i].name) == Some(fields[i].value)
  {
    assert fields == fields[..i] + fields[i..] && fields[i..] == [fields[i]] + fields[i + 1..];
    FieldSkips(fields[..i], fields[i..], fields[i].name);
    FieldFirst(fields[i], fields[i + 1..]);
  }

  lemma FieldMissing(fields: seq<Field>, name: Bytes)
    requires forall k :: 0 <= k < |fields| ==> fields[k].name != name
    ensures FieldOf(fields, name) == None
  {
    assert fields == fields + [];
    FieldSkips(fields, [], name);
  }

  /** The fields in the order they are written. */
  lemma ResponseFields(wire: Wire, r: Response)
    ensures ResponseItem(wire, r).Map?
    ensures
      var fields := ResponseItem(wire, r).fields;
      var h, c := if r.heads == [] then 0 else 1, if r.continuation.None? then 0 else 1;
      && |fields| == 4 + h + c
      && fields[0] == Field(Ascii("required_operation_version"), Unsigned(r.requiredOperationVersion))
      && fields[1] == Field(Ascii("sync_version"), Unsigned(r.syncVersion))
      && (h == 1 ==> fields[2] == Field(Ascii("heads"), CursorsItem(r.heads)))
      && (c == 1 ==> fields[2 + h] == Field(Ascii("continuation"),
                                            Map([Field(Ascii("cursors"), CursorsItem(r.continuation.value))])))
      && fields[2 + h + c] == Field(Ascii("authority_records"), RecordsItem(wire, r.authorityRecords))
      && fields[3 + h + c] == Field(Ascii("device_logs"), LogsItem(wire, r.deviceLogs))
  {
    hide CursorsItem, RecordsItem, LogsItem, Ascii;
  }

  /** Which name field k has. */
  function Place(r: Response, k: nat): (i: nat)
  {
    var h, c := if r.heads == [] then 0 else 1, if r.continuation.None? then 0 else 1;
    if k < 2 then k
    else if h == 1 && k == 2 then 2
    else if c == 1 && k == 2 + h then 3
    else if k == 2 + h + c then 4
    else 5
  }

  lemma FieldsDiffer(wire: Wire, r: Response)
    ensures
      var fields := ResponseItem(wire, r).fields;
      && (forall k, l :: 0 <= k < l < |fields| ==> fields[k].name != fields[l].name)
      && (r.heads == [] ==> forall k :: 0 <= k < |fields| ==> fields[k].name != Ascii("heads"))
      && (r.continuation.None? ==> forall k :: 0 <= k < |fields| ==> fields[k].name != Ascii("continuation"))
  {
    hide ResponseItem, Ascii;
    NamesDiffer();
    ResponseFields(wire, r);
    var fields := ResponseItem(wire, r).fields;
    forall k | 0 <= k < |fields| ensures fields[k].name == Names()[Place(r, k)] { }
    forall k, l | 0 <= k < l < |fields| ensures fields[k].name != fields[l].name {
      assert Place(r, k) < Place(r, l);
    }
    assert Names()[2] == Ascii("heads") && Names()[3] == Ascii("continuation");
  }

  /** A response's item says all of the response: every field can be read back by name,
      and empty heads and a missing continuation are not written. */
  lemma ResponseReads(wire: Wire, r: Response)
    ensures ResponseItem(wire, r).Map? && Carries(wire, ResponseItem(wire, r).fields, r)
  {
    hide ResponseItem, CursorsItem, ListsCursors, FieldOf, Ascii;
    FieldsDiffer(wire, r);
    ResponseFields(wire, r);
    var fields := ResponseItem(wire, r).fields;
    var h, c := if r.heads == [] then 0 else 1, if r.continuation.None? then 0 else 1;
    FieldAt(fields, 0);
    FieldAt(fields, 1);
    FieldAt(fields, 2 + h + c);
    FieldAt(fields, 3 + h + c);
    CursorsRead(r.heads);
    if h == 1 { FieldAt(fields, 2); } else { FieldMissing(fields, Ascii("heads")); }
    if c == 1 {
      FieldAt(fields, 2 + h);
      CursorsRead(r.continuation.value);
    } else {
      FieldMissing(fields, Ascii("continuation"));
    }
  }
}
