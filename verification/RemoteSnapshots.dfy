/** The index of remote identity snapshots on disk: a byte quota and a count quota,
    oldest write evicted first. File operations are inputs. */
module RemoteSnapshots {
  import opened Wrappers
  import opened ByteStrings
  import opened Ordering
  import opened Totals

  const MAX_STATES: nat := 4096
  const U64_MAX: nat := 0xffff_ffff_ffff_ffff
  const U128_MAX: nat := 0xffff_ffff_ffff_ffff_ffff_ffff_ffff_ffff

  datatype Slot = Slot(path: Str, size: nat, order: nat)

  datatype Index = Index(entries: map<Str, Slot>, totalSize: nat, nextOrder: nat)

  datatype Error = TooLarge | Io

  /** Which file operations succeed: writing, renaming, and removing each path. */
  datatype Files = Files(written: bool, renamed: bool, removable: Str -> bool)

  function SatAdd(a: nat, b: nat, top: nat): nat
  {
    if a + b > top then top else a + b
  }

  function SatSub(a: nat, b: nat): nat
  {
    if a < b then 0 else a - b
  }

  ghost function Sizes(entries: map<Str, Slot>): map<Str, nat>
  {
    map id | id in entries :: entries[id].size
  }

  /** The recorded size is the sum of the indexed sizes. */
  ghost predicate Counted(s: Index)
  {
    s.totalSize == Total(Sizes(s.entries))
  }

  predicate Older(a: Slot, b: Slot)
  {
    a.order < b.order || (a.order == b.order && LexLe(a.path, b.path))
  }

  /** Written earlier, or on equal orders under the path that comes first. */
  lemma OlderMeans(a: Slot, b: Slot)
    ensures Older(a, b) <==>
            a.order < b.order || (a.order == b.order && (a.path == b.path || Precedes(a.path, b.path)))
  {
    hide LexLe;
    LexMeans(a.path, b.path);
  }

  ghost predicate IsOldest(entries: map<Str, Slot>, id: Str)
  {
    id in entries && forall k :: k in entries ==> Older(entries[id], entries[k])
  }

  // ---- saving ----

  predicate Over(max: nat, s: Index, size: nat)
  {
    |s.entries| >= MAX_STATES || SatAdd(s.totalSize, size, U64_MAX) > max
  }

  function Without(s: Index, id: Str): Index
    requires id in s.entries
  {
    s.(entries := s.entries - {id}, totalSize := SatSub(s.totalSize, s.entries[id].size))
  }

  function Cleared(s: Index, id: Str): Index
  {
    if id in s.entries then Without(s, id) else s
  }

  /** The loop has evicted `gone`, each the oldest when it went. */
  ghost predicate Evicts(max: nat, size: nat, files: Files, s: Index, gone: seq<Str>, s': Index)
    decreases |gone|
  {
    if gone == [] then s' == s
    else
      && Over(max, s, size)
      && IsOldest(s.entries, gone[0])
      && files.removable(s.entries[gone[0]].path)
      && Evicts(max, size, files, Without(s, gone[0]), gone[1..], s')
  }

  function Stored(s: Index, id: Str, path: Str, size: nat): Index
  {
    Index(s.entries[id := Slot(path, size, s.nextOrder)],
          SatAdd(s.totalSize, size, U64_MAX),
          SatAdd(s.nextOrder, 1, U128_MAX))
  }

  /** How the loop ends: with room, with nothing to evict, or at a file that cannot
      be removed, whose entry is by then already out of the index. */
  ghost predicate Ends(max: nat, mid: Index, id: Str, path: Str, size: nat, files: Files, s': Index,
                       r: Result<(), Error>)
  {
    if !Over(max, mid, size) then
      if files.renamed then s' == Stored(mid, id, path, size) && r == Ok(()) else s' == mid && r == Err(Io)
    else if mid.entries == map[] then s' == mid && r == Err(TooLarge)
    else exists lost :: FailsAt(mid, lost, files, s') && r == Err(Io)
  }

  ghost predicate FailsAt(mid: Index, lost: Str, files: Files, s': Index)
  {
    && IsOldest(mid.entries, lost)
    && !files.removable(mid.entries[lost].path)
    && s' == mid.(entries := mid.entries - {lost})
  }

  ghost predicate Saves(max: nat, s: Index, id: Str, path: Str, size: nat, files: Files, s': Index,
                        r: Result<(), Error>)
  {
    if size > max then s' == s && r == Err(TooLarge)
    else if !files.written then s' == s && r == Err(Io)
    else exists gone, mid :: SavesBy(max, s, id, path, size, files, gone, mid, s', r)
  }

  ghost predicate SavesBy(max: nat, s: Index, id: Str, path: Str, size: nat, files: Files, gone: seq<Str>, mid: Index,
                          s': Index, r: Result<(), Error>)
  {
    Evicts(max, size, files, Cleared(s, id), gone, mid) && Ends(max, mid, id, path, size, files, s', r)
  }

  // ---- what it keeps ----

  lemma WithoutCounted(s: Index, id: Str)
    requires Counted(s) && id in s.entries
    ensures Counted(Without(s, id)) && s.totalSize == Without(s, id).totalSize + s.entries[id].size
  {
    TotalRemove(Sizes(s.entries), id);
    assert Sizes(s.entries - {id}) == Sizes(s.entries) - {id};
  }

  ghost predicate Within(small: map<Str, Slot>, large: map<Str, Slot>)
  {
    forall k :: k in small ==> k in large && small[k] == large[k]
  }

  /** Everything that went is older than everything that stayed. */
  ghost predicate OldestWent(before: map<Str, Slot>, after: map<Str, Slot>)
  {
    forall a, b :: a in before && a !in after && b in after && b in before ==> Older(before[a], before[b])
  }

  /** Evicting the oldest first and then older than what stays is evicting the oldest. */
  lemma OldestFirst(entries: map<Str, Slot>, id: Str, after: map<Str, Slot>)
    requires IsOldest(entries, id)
    requires Within(after, entries - {id}) && OldestWent(entries - {id}, after)
    ensures Within(after, entries) && OldestWent(entries, after)
  {
    hide Older;
    forall a, b | a in entries && a !in after && b in after && b in entries ensures Older(entries[a], entries[b]) {
      if a != id {
        assert a in entries - {id} && b in entries - {id};
      }
    }
  }

  /** What the loop evicts can be removed and is older than what it leaves. */
  lemma {:induction false} EvictsOldest(max: nat, size: nat, files: Files, s: Index, gone: seq<Str>, s': Index)
    requires Evicts(max, size, files, s, gone, s')
    ensures s'.nextOrder == s.nextOrder
    ensures Within(s'.entries, s.entries) && OldestWent(s.entries, s'.entries)
    ensures forall k :: k in s.entries && k !in s'.entries ==> files.removable(s.entries[k].path)
    decreases |gone|
  {
    hide Older, Over;
    if gone != [] {
      var next := Without(s, gone[0]);
      EvictsOldest(max, size, files, next, gone[1..], s');
      OldestFirst(s.entries, gone[0], s'.entries);
      forall k | k in s.entries && k !in s'.entries ensures files.removable(s.entries[k].path) {
        if k != gone[0] {
          assert k in next.entries;
        }
      }
    }
  }

  lemma {:induction false} EvictsKeeps(max: nat, size: nat, files: Files, s: Index, gone: seq<Str>, s': Index)
    requires Counted(s) && Evicts(max, size, files, s, gone, s')
    ensures Counted(s') && s'.nextOrder == s.nextOrder
    ensures Within(s'.entries, s.entries) && OldestWent(s.entries, s'.entries)
    decreases |gone|
  {
    hide Counted, Sizes, Older, Over;
    EvictsOldest(max, size, files, s, gone, s');
    hide Within, OldestWent;
    if gone != [] {
      WithoutCounted(s, gone[0]);
      EvictsKeeps(max, size, files, Without(s, gone[0]), gone[1..], s');
    }
  }

  /** `y` went last; with it back, a quota would be exceeded. */
  ghost predicate WentLast(max: nat, size: nat, before: Index, after: Index, y: Str)
  {
    && y in before.entries && y !in after.entries
    && (forall a :: a in before.entries && a !in after.entries ==> Older(before.entries[a], before.entries[y]))
    && (|after.entries| + 1 >= MAX_STATES || after.totalSize + before.entries[y].size + size > max)
  }

  lemma OneWent(max: nat, size: nat, s: Index, y: Str)
    requires Counted(s) && Over(max, s, size) && IsOldest(s.entries, y)
    ensures WentLast(max, size, s, Without(s, y), y)
  {
    hide Counted, Older;
    WithoutCounted(s, y);
    OneFewer(s.entries, y);
    OlderReflexive(s.entries[y]);
  }

  lemma LaterWent(max: nat, size: nat, s: Index, first: Str, after: Index, y: Str)
    requires IsOldest(s.entries, first) && WentLast(max, size, Without(s, first), after, y)
    ensures WentLast(max, size, s, after, y)
  {
    hide Older;
    var next := Without(s, first);
    forall a | a in s.entries && a !in after.entries ensures Older(s.entries[a], s.entries[y]) {
      if a != first {
        assert a in next.entries;
      }
    }
  }

  /** The last entry to go was needed. */
  lemma {:induction false} LastWasNeeded(max: nat, size: nat, files: Files, s: Index, gone: seq<Str>, s': Index)
    requires Counted(s) && Evicts(max, size, files, s, gone, s') && gone != []
    ensures WentLast(max, size, s, s', gone[|gone| - 1])
    decreases |gone|
  {
    hide Older, Counted, Sizes, WentLast, Over;
    if |gone| == 1 {
      assert gone[1..] == [];
      OneWent(max, size, s, gone[0]);
    } else {
      WithoutCounted(s, gone[0]);
      LastWasNeeded(max, size, files, Without(s, gone[0]), gone[1..], s');
      LaterWent(max, size, s, gone[0], s', gone[|gone| - 1]);
    }
  }

  lemma OneFewer(entries: map<Str, Slot>, id: Str)
    requires id in entries
    ensures |entries - {id}| + 1 == |entries|
  {
    assert entries.Keys == (entries - {id}).Keys + {id};
    assert |(entries - {id}).Keys + {id}| == |(entries - {id}).Keys| + 1;
  }

  lemma OlderReflexive(a: Slot)
    ensures Older(a, a)
  {
    LexTotal(a.path, a.path);
  }

  lemma EmptyCounted(s: Index)
    requires Counted(s) && s.entries == map[]
    ensures s.totalSize == 0
  {
    assert Sizes(s.entries) == map[];
  }

  lemma ClearedCounted(s: Index, id: Str)
    requires Counted(s)
    ensures Counted(Cleared(s, id)) && id !in Cleared(s, id).entries
  {
    if id in s.entries {
      WithoutCounted(s, id);
    }
  }

  /** The way the loop is not meant to end cannot happen: a snapshot is refused as too
      large exactly when it alone exceeds the quota. */
  lemma RefusedIffTooLarge(max: nat, s: Index, id: Str, path: Str, size: nat, files: Files, s': Index,
                           r: Result<(), Error>)
    requires Counted(s) && max <= U64_MAX && Saves(max, s, id, path, size, files, s', r)
    ensures r == Err(TooLarge) <==> size > max
    ensures size > max ==> s' == s
  {
    if size <= max && files.written {
      var gone, mid :| SavesBy(max, s, id, path, size, files, gone, mid, s', r);
      ClearedCounted(s, id);
      EvictsKeeps(max, size, files, Cleared(s, id), gone, mid);
      if mid.entries == map[] {
        EmptyCounted(mid);
      }
      hide Counted, Evicts;
    }
  }

  lemma StoredCounted(s: Index, id: Str, path: Str, size: nat)
    requires Counted(s) && id !in s.entries && s.totalSize + size <= U64_MAX
    ensures Counted(Stored(s, id, path, size))
  {
    TotalPut(Sizes(s.entries), id, size);
    assert Sizes(s.entries[id := Slot(path, size, s.nextOrder)]) == Sizes(s.entries)[id := size];
  }

  lemma StoredEntries(before: map<Str, Slot>, mid: Index, id: Str, path: Str, size: nat)
    requires id !in before && Within(mid.entries, before) && OldestWent(before, mid.entries)
    ensures
      var after := Stored(mid, id, path, size).entries;
      |after| == |mid.entries| + 1 && Within(after - {id}, before) && OldestWent(before, after)
  {
    hide Older;
    var after := Stored(mid, id, path, size).entries;
    assert after.Keys == mid.entries.Keys + {id};
    assert |after.Keys| == |mid.entries.Keys| + 1;
    assert after - {id} == mid.entries;
  }

  lemma WithinWithout(small: map<Str, Slot>, large: map<Str, Slot>, id: Str)
    requires Within(small, large - {id})
    ensures Within(small, large)
  {
  }

  /** How a successful save went. */
  lemma SavedHow(max: nat, s: Index, id: Str, path: Str, size: nat, files: Files, s': Index)
    returns (gone: seq<Str>, mid: Index)
    requires Counted(s) && Saves(max, s, id, path, size, files, s', Ok(()))
    ensures Counted(Cleared(s, id)) && Cleared(s, id).entries == s.entries - {id}
    ensures Evicts(max, size, files, Cleared(s, id), gone, mid)
    ensures Counted(mid) && mid.nextOrder == s.nextOrder
    ensures Within(mid.entries, s.entries - {id}) && OldestWent(s.entries - {id}, mid.entries)
    ensures !Over(max, mid, size) && s' == Stored(mid, id, path, size)
  {
    gone, mid :| SavesBy(max, s, id, path, size, files, gone, mid, s', Ok(()));
    hide Counted, Sizes, Over;
    ClearedCounted(s, id);
    assert Cleared(s, id).entries == s.entries - {id};
    EvictsKeeps(max, size, files, Cleared(s, id), gone, mid);
  }

  /** A saved snapshot is indexed within both quotas, the sizes add up, nothing else
      was touched, and what was evicted is older than everything kept. */
  lemma SavedWithinQuotas(max: nat, s: Index, id: Str, path: Str, size: nat, files: Files, s': Index)
    requires Counted(s) && max < U64_MAX && Saves(max, s, id, path, size, files, s', Ok(()))
    ensures Counted(s') && s'.totalSize <= max && |s'.entries| <= MAX_STATES
    ensures id in s'.entries && s'.entries[id] == Slot(path, size, s.nextOrder)
    ensures s'.nextOrder == if s.nextOrder < U128_MAX then s.nextOrder + 1 else U128_MAX
    ensures Within(s'.entries - {id}, s.entries)
    ensures OldestWent(s.entries - {id}, s'.entries)
  {
    hide Saves, Evicts, Counted, Sizes, Older;
    var gone, mid := SavedHow(max, s, id, path, size, files, s');
    assert id !in mid.entries;
    StoredCounted(mid, id, path, size);
    StoredEntries(s.entries - {id}, mid, id, path, size);
    hide Within, OldestWent;
    WithinWithout(s'.entries - {id}, s.entries, id);
  }

  /** A save that fails never indexes the snapshot: it leaves the index alone, or, once
      the new file is written, without the identity and at most poorer. */
  lemma FailedSaveIndexesNothing(max: nat, s: Index, id: Str, path: Str, size: nat, files: Files, s': Index,
                                 r: Result<(), Error>)
    requires Counted(s) && Saves(max, s, id, path, size, files, s', r) && r.Err?
    ensures s'.nextOrder == s.nextOrder && Within(s'.entries, s.entries)
    ensures if size > max || !files.written then s' == s else id !in s'.entries
  {
    hide Counted, Over, Older;
    if size <= max && files.written {
      var gone, mid :| SavesBy(max, s, id, path, size, files, gone, mid, s', r);
      ClearedCounted(s, id);
      EvictsKeeps(max, size, files, Cleared(s, id), gone, mid);
      hide Evicts;
      WithinWithout(mid.entries, s.entries, id);
    }
  }

  /** Orders still to be given out are above all given. */
  ghost predicate OrdersAhead(s: Index)
  {
    forall k :: k in s.entries ==> s.entries[k].order < s.nextOrder
  }

  /** What was saved last is the last to go: everything else is older, as long as
      orders are left to give out. */
  lemma SavedIsYoungest(max: nat, s: Index, id: Str, path: Str, size: nat, files: Files, s': Index)
    requires Counted(s) && max < U64_MAX && Saves(max, s, id, path, size, files, s', Ok(()))
    requires OrdersAhead(s) && s.nextOrder < U128_MAX
    ensures OrdersAhead(s')
    ensures id in s'.entries && forall k :: k in s'.entries && k != id ==> s'.entries[k].order < s'.entries[id].order
  {
    hide Saves, Counted, OldestWent;
    SavedWithinQuotas(max, s, id, path, size, files, s');
    forall k | k in s'.entries && k != id ensures s'.entries[k].order < s'.entries[id].order {
      assert k in s'.entries - {id};
    }
  }

  /** `y` went last, and had to. */
  ghost predicate Needed(max: nat, s: Index, s': Index, y: Str)
  {
    && y in s.entries && y !in s'.entries
    && (forall a :: a in s.entries && a !in s'.entries ==> Older(s.entries[a], s.entries[y]))
    && (|s'.entries| + 1 > MAX_STATES || s'.totalSize + s.entries[y].size > max)
  }

  lemma NeededMeans(max: nat, s: Index, id: Str, start: Index, mid: Index, s': Index, y: Str, size: nat)
    requires start.entries == s.entries - {id} && id in s'.entries
    requires forall k :: k in s'.entries <==> k in mid.entries || k == id
    requires |s'.entries| == |mid.entries| + 1 && s'.totalSize == mid.totalSize + size
    requires WentLast(max, size, start, mid, y)
    ensures Needed(max, s, s', y)
  {
    hide Older;
  }

  /** And no more was evicted than had to be. */
  lemma SavedEvictsLeast(max: nat, s: Index, id: Str, path: Str, size: nat, files: Files, s': Index)
    requires Counted(s) && max < U64_MAX && Saves(max, s, id, path, size, files, s', Ok(()))
    requires exists k :: k in s.entries && k != id && k !in s'.entries
    ensures exists y :: Needed(max, s, s', y)
  {
    hide Saves, Counted, Sizes, Older, Needed, IsOldest, WentLast;
    var gone, mid := SavedHow(max, s, id, path, size, files, s');
    var start := Cleared(s, id);
    var k :| k in s.entries && k != id && k !in s'.entries;
    assert k in start.entries && k !in mid.entries;
    assert gone != [];
    hide Evicts;
    LastWasNeeded(max, size, files, start, gone, mid);
    StoredEntries(start.entries, mid, id, path, size);
    hide Within, OldestWent;
    NeededMeans(max, s, id, start, mid, s', gone[|gone| - 1], size);
  }

  // ---- opening ----

  /** The index built from the files found, oldest first: name, path, size. */
  function Scanned(files: seq<(Str, Str, nat)>): Index
  {
    if files == [] then Index(map[], 0, 0)
    else
      var last := files[|files| - 1];
      Stored(Scanned(files[..|files| - 1]), last.0, last.1, last.2)
  }

  ghost predicate DistinctNames(files: seq<(Str, Str, nat)>)
  {
    forall i, j :: 0 <= i < j < |files| ==> files[i].0 != files[j].0
  }

  function SizeOf(files: seq<(Str, Str, nat)>): nat
  {
    if files == [] then 0 else SizeOf(files[..|files| - 1]) + files[|files| - 1].2
  }

  ghost predicate Named(files: seq<(Str, Str, nat)>, id: Str)
  {
    exists i :: 0 <= i < |files| && files[i].0 == id
  }

  lemma {:induction false} ScannedNames(files: seq<(Str, Str, nat)>)
    ensures forall id :: id in Scanned(files).entries <==> Named(files, id)
  {
    if files != [] {
      var n := |files| - 1;
      ScannedNames(files[..n]);
      forall id ensures Named(files, id) <==> Named(files[..n], id) || id == files[n].0 {
        NamedSnoc(files, id);
      }
      hide Named;
    }
  }

  lemma NamedSnoc(files: seq<(Str, Str, nat)>, id: Str)
    requires files != []
    ensures Named(files, id) <==> Named(files[..|files| - 1], id) || id == files[|files| - 1].0
  {
    var n := |files| - 1;
    if Named(files[..n], id) {
      var i :| 0 <= i < n && files[..n][i].0 == id;
      assert files[i].0 == id;
    }
  }

  /** A scan of files under distinct names leaves sizes that add up. */
  lemma {:induction false} ScannedCounted(files: seq<(Str, Str, nat)>)
    requires DistinctNames(files) && SizeOf(files) <= U64_MAX
    ensures Counted(Scanned(files)) && Scanned(files).totalSize == SizeOf(files)
  {
    if files == [] {
      assert Sizes(map[]) == map[];
    } else {
      var n := |files| - 1;
      ScannedCounted(files[..n]);
      ScannedNames(files[..n]);
      StoredCounted(Scanned(files[..n]), files[n].0, files[n].1, files[n].2);
      hide Counted;
    }
  }

  function OrderAt(i: nat): nat
  {
    if i < U128_MAX then i else U128_MAX
  }

  /** It indexes every file, and the older the file the older its slot. */
  lemma {:induction false} ScannedSlots(files: seq<(Str, Str, nat)>, i: nat)
    requires DistinctNames(files) && i < |files|
    ensures Scanned(files).nextOrder == OrderAt(|files|)
    ensures files[i].0 in Scanned(files).entries
    ensures Scanned(files).entries[files[i].0] == Slot(files[i].1, files[i].2, OrderAt(i))
  {
    var n := |files| - 1;
    if n > 0 {
      ScannedSlots(files[..n], if i < n then i else 0);
    }
  }

  // ---- the store ----

  class RemoteIdentityStateStore {
    var entries: map<Str, Slot>
    var totalSize: nat
    var nextOrder: nat
    const max: nat

    ghost function Contents(): Index
      reads this
    {
      Index(entries, totalSize, nextOrder)
    }

    /** `scan`: the files found, oldest first. */
    constructor (files: seq<(Str, Str, nat)>, max: nat)
      ensures this.max == max && Contents() == Scanned(files)
    {
      var found: map<Str, Slot> := map[];
      var total, next, i := 0, 0, 0;
      while i < |files|
        invariant 0 <= i <= |files|
        invariant Index(found, total, next) == Scanned(files[..i])
      {
        var (name, path, size) := files[i];
        assert files[..i + 1][..i] == files[..i];
        found := found[name := Slot(path, size, next)];
        total := SatAdd(total, size, U64_MAX);
        next := SatAdd(next, 1, U128_MAX);
        i := i + 1;
      }
      assert files[..i] == files;
      entries, totalSize, nextOrder := found, total, next;
      this.max := max;
    }

    method Oldest() returns (id: Str)
      requires entries != map[]
      ensures IsOldest(entries, id)
    {
      var todo := entries.Keys;
      id :| id in entries;
      OlderReflexive(entries[id]);
      todo := todo - {id};
      while todo != {}
        invariant todo <= entries.Keys && id in entries
        invariant forall k :: k in entries && k !in todo ==> Older(entries[id], entries[k])
        decreases todo
      {
        var k :| k in todo;
        if !Older(entries[id], entries[k]) {
          OlderSwitch(entries, id, k);
          id := k;
        }
        todo := todo - {k};
      }
    }

    method Save(id: Str, path: Str, size: nat, files: Files) returns (r: Result<(), Error>)
      modifies this
      ensures Saves(max, old(Contents()), id, path, size, files, Contents(), r)
    {
      if size > max {
        return Err(TooLarge);
      }
      if !files.written {
        return Err(Io);
      }
      if id in entries {
        totalSize := SatSub(totalSize, entries[id].size);
        entries := entries - {id};
      }
      ghost var start := Contents();
      assert start == Cleared(old(Contents()), id);
      ghost var gone: seq<Str> := [];
      while |entries| >= MAX_STATES || SatAdd(totalSize, size, U64_MAX) > max
        invariant Evicts(max, size, files, start, gone, Contents())
        decreases |entries|
      {
        ghost var mid := Contents();
        if entries == map[] {
          assert Ends(max, mid, id, path, size, files, mid, Err(TooLarge));
          assert SavesBy(max, old(Contents()), id, path, size, files, gone, mid, mid, Err(TooLarge));
          return Err(TooLarge);
        }
        var oldest := Oldest();
        var evicted := entries[oldest];
        OneFewer(entries, oldest);
        entries := entries - {oldest};
        if !files.removable(evicted.path) {
          assert FailsAt(mid, oldest, files, Contents());
          assert Ends(max, mid, id, path, size, files, Contents(), Err(Io));
          assert SavesBy(max, old(Contents()), id, path, size, files, gone, mid, Contents(), Err(Io));
          return Err(Io);
        }
        totalSize := SatSub(totalSize, evicted.size);
        EvictsOneMore(max, size, files, start, gone, mid, oldest);
        gone := gone + [oldest];
      }
      ghost var mid := Contents();
      if !files.renamed {
        assert SavesBy(max, old(Contents()), id, path, size, files, gone, mid, mid, Err(Io));
        return Err(Io);
      }
      totalSize := SatAdd(totalSize, size, U64_MAX);
      entries := entries[id := Slot(path, size, nextOrder)];
      nextOrder := SatAdd(nextOrder, 1, U128_MAX);
      r := Ok(());
      assert SavesBy(max, old(Contents()), id, path, size, files, gone, mid, Contents(), r);
    }
  }

  lemma OlderSwitch(entries: map<Str, Slot>, id: Str, k: Str)
    requires id in entries && k in entries && !Older(entries[id], entries[k])
    ensures forall j :: j in entries && Older(entries[id], entries[j]) ==> Older(entries[k], entries[j])
    ensures Older(entries[k], entries[k])
  {
    var a, b := entries[id], entries[k];
    OlderReflexive(b);
    LexTotal(a.path, b.path);
    forall j | j in entries && Older(a, entries[j]) ensures Older(b, entries[j]) {
      var c := entries[j];
      if a.order == b.order == c.order {
        LexTransitive(b.path, a.path, c.path);
      }
    }
  }

  lemma {:induction false} EvictsOneMore(max: nat, size: nat, files: Files, s: Index, gone: seq<Str>, mid: Index,
                                         id: Str)
    requires Evicts(max, size, files, s, gone, mid)
    requires Over(max, mid, size) && IsOldest(mid.entries, id) && files.removable(mid.entries[id].path)
    ensures Evicts(max, size, files, s, gone + [id], Without(mid, id))
    decreases |gone|
  {
    if gone == [] {
      assert (gone + [id])[1..] == [];
    } else {
      EvictsOneMore(max, size, files, Without(s, gone[0]), gone[1..], mid, id);
      assert (gone + [id])[1..] == gone[1..] + [id];
    }
  }
}
