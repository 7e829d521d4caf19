/** What a remote-snapshot index is worth once evictions can meet files they cannot
    remove: how far its recorded total drifts, and what that costs. */
module RemoteSnapshotFailures {
  import opened Wrappers
  import opened ByteStrings
  import opened Ordering
  import opened Totals
  import opened RemoteSnapshots

  /** The recorded total covers the indexed sizes. */
  ghost predicate Covers(s: Index)
  {
    s.totalSize >= Total(Sizes(s.entries))
  }

  /** How much the recorded total exceeds the indexed sizes. */
  ghost function Excess(s: Index): nat
    requires Covers(s)
  {
    s.totalSize - Total(Sizes(s.entries))
  }

  lemma CountedHasNoExcess(s: Index)
    ensures Counted(s) <==> Covers(s) && Excess(s) == 0
  {
  }

  // ---- the loop does not change the excess ----

  lemma WithoutExcess(s: Index, id: Str)
    requires Covers(s) && id in s.entries
    ensures Covers(Without(s, id)) && Excess(Without(s, id)) == Excess(s)
  {
    TotalRemove(Sizes(s.entries), id);
    assert Sizes(s.entries - {id}) == Sizes(s.entries) - {id};
  }

  lemma ClearedExcess(s: Index, id: Str)
    requires Covers(s)
    ensures Covers(Cleared(s, id)) && Excess(Cleared(s, id)) == Excess(s)
    ensures Cleared(s, id).entries == s.entries - {id}
  {
    if id in s.entries {
      WithoutExcess(s, id);
    }
  }

  lemma {:induction false} EvictsExcess(max: nat, size: nat, files: Files, s: Index, gone: seq<Str>, s': Index)
    requires Covers(s) && Evicts(max, size, files, s, gone, s')
    ensures Covers(s') && Excess(s') == Excess(s)
    decreases |gone|
  {
    hide Covers, Excess, Older, Over;
    if gone != [] {
      WithoutExcess(s, gone[0]);
      EvictsExcess(max, size, files, Without(s, gone[0]), gone[1..], s');
    }
  }

  lemma StoredExcess(s: Index, id: Str, path: Str, size: nat)
    requires Covers(s) && id !in s.entries && s.totalSize + size <= U64_MAX
    ensures Covers(Stored(s, id, path, size)) && Excess(Stored(s, id, path, size)) == Excess(s)
  {
    TotalPut(Sizes(s.entries), id, size);
    assert Sizes(s.entries[id := Slot(path, size, s.nextOrder)]) == Sizes(s.entries)[id := size];
  }

  lemma LostExcess(mid: Index, lost: Str)
    requires Covers(mid) && lost in mid.entries
    ensures
      var after := mid.(entries := mid.entries - {lost});
      Covers(after) && Excess(after) == Excess(mid) + mid.entries[lost].size
  {
    TotalRemove(Sizes(mid.entries), lost);
    assert Sizes(mid.entries - {lost}) == Sizes(mid.entries) - {lost};
  }

  lemma EmptyExcess(s: Index)
    requires Covers(s) && s.entries == map[]
    ensures Excess(s) == s.totalSize
  {
    assert Sizes(s.entries) == map[];
  }

  /** How a save with a writable file went, up to the end of the loop. */
  lemma SavesHow(max: nat, s: Index, id: Str, path: Str, size: nat, files: Files, s': Index, r: Result<(), Error>)
    returns (mid: Index)
    requires Covers(s) && size <= max && files.written && Saves(max, s, id, path, size, files, s', r)
    ensures Covers(mid) && Excess(mid) == Excess(s)
    ensures Within(mid.entries, s.entries - {id}) && OldestWent(s.entries - {id}, mid.entries)
    ensures forall k :: k in s.entries - {id} && k !in mid.entries ==> files.removable(s.entries[k].path)
    ensures Ends(max, mid, id, path, size, files, s', r)
  {
    var gone, mid0 :| SavesBy(max, s, id, path, size, files, gone, mid0, s', r);
    hide Covers, Excess, Older, Ends, Evicts;
    mid := mid0;
    ClearedExcess(s, id);
    EvictsExcess(max, size, files, Cleared(s, id), gone, mid);
    EvictsOldest(max, size, files, Cleared(s, id), gone, mid);
  }

  // ---- what a save leaves ----

  /** A save leaves the excess as it was, or, when an eviction met a file it could not
      remove, larger by the size of the entry that went without its file. */
  lemma ExcessAfter(max: nat, s: Index, id: Str, path: Str, size: nat, files: Files, s': Index, r: Result<(), Error>)
    requires Covers(s) && max < U64_MAX && Saves(max, s, id, path, size, files, s', r)
    ensures Covers(s')
    ensures
      || Excess(s') == Excess(s)
      || (r == Err(Io) && exists lost :: lost in s.entries && lost != id && !files.removable(s.entries[lost].path)
                                         && Excess(s') == Excess(s) + s.entries[lost].size)
  {
    if size <= max && files.written {
      hide Saves;
      var mid := SavesHow(max, s, id, path, size, files, s', r);
      hide Covers, Excess, Older;
      if !Over(max, mid, size) {
        if files.renamed {
          StoredExcess(mid, id, path, size);
        }
      } else if mid.entries != map[] {
        var lost :| FailsAt(mid, lost, files, s');
        LostExcess(mid, lost);
      }
    }
  }

  /** A snapshot is refused as too large exactly when it does not fit beside the excess:
      entries can be evicted, the excess cannot. */
  lemma RefusedIffExcess(max: nat, s: Index, id: Str, path: Str, size: nat, files: Files, s': Index,
                         r: Result<(), Error>)
    requires Covers(s) && max < U64_MAX && files.written && Saves(max, s, id, path, size, files, s', r)
    requires forall k :: k in s.entries && k != id ==> files.removable(s.entries[k].path)
    ensures r == Err(TooLarge) <==> Excess(s) + size > max
  {
    if size <= max {
      hide Saves;
      var mid := SavesHow(max, s, id, path, size, files, s', r);
      if mid.entries == map[] {
        EmptyExcess(mid);
      }
      hide Older;
    }
  }

  // ---- exactly when the total drifts ----

  /** Snapshots of different identities are different files. */
  ghost predicate DistinctPaths(entries: map<Str, Slot>)
  {
    forall a, b :: a in entries && b in entries && a != b ==> entries[a].path != entries[b].path
  }

  /** An entry and everything written after it. */
  ghost function Since(entries: map<Str, Slot>, y: Str): map<Str, Slot>
    requires y in entries
  {
    map k | k in entries && Older(entries[y], entries[k]) :: entries[k]
  }

  /** `y` has to go before a snapshot of this size can be saved: it and everything
      written after it do not fit. */
  ghost predicate MustGo(max: nat, s: Index, id: Str, size: nat, y: Str)
    requires Covers(s)
  {
    && y in s.entries && y != id
    && var rest := Since(s.entries - {id}, y);
       |rest| >= MAX_STATES || Excess(s) + Total(Sizes(rest)) + size > max
  }

  /** `y` is the oldest entry that has to go and cannot be removed. */
  ghost predicate FirstStuck(max: nat, s: Index, id: Str, size: nat, files: Files, y: Str)
    requires Covers(s)
  {
    && MustGo(max, s, id, size, y) && !files.removable(s.entries[y].path)
    && forall k :: MustGo(max, s, id, size, k) && !files.removable(s.entries[k].path) ==>
         Older(s.entries[y], s.entries[k])
  }

  lemma OlderAntisymmetric(entries: map<Str, Slot>, a: Str, b: Str)
    requires DistinctPaths(entries) && a in entries && b in entries
    requires Older(entries[a], entries[b]) && Older(entries[b], entries[a])
    ensures a == b
  {
    LexAntisymmetric(entries[a].path, entries[b].path);
  }

  /** Of an entry that stayed, everything written after it stayed too. */
  lemma SinceStayed(entries: map<Str, Slot>, mid: map<Str, Slot>, y: Str)
    requires DistinctPaths(entries) && Within(mid, entries) && OldestWent(entries, mid) && y in mid
    ensures Within(Since(entries, y), mid)
    ensures IsOldest(mid, y) ==> Since(entries, y) == mid
  {
    forall k | k in Since(entries, y) ensures k in mid {
      if k !in mid {
        OlderAntisymmetric(entries, y, k);
      }
    }
    hide Older;
  }

  lemma PartFits(max: nat, mid: Index, part: map<Str, Slot>, size: nat)
    requires Covers(mid) && Within(part, mid.entries) && max < U64_MAX && !Over(max, mid, size)
    ensures |part| < MAX_STATES && Excess(mid) + Total(Sizes(part)) + size <= max
  {
    TotalPart(Sizes(part), Sizes(mid.entries));
    assert Sizes(part).Keys == part.Keys && Sizes(mid.entries).Keys == mid.entries.Keys;
    assert |part| == |part.Keys| && |mid.entries| == |mid.entries.Keys|;
  }

  /** When the loop ends with room, nothing that had to go was stuck. */
  lemma RoomMeansNoneStuck(max: nat, s: Index, id: Str, size: nat, files: Files, mid: Index, y: Str)
    requires Covers(s) && Covers(mid) && Excess(mid) == Excess(s) && max < U64_MAX && DistinctPaths(s.entries)
    requires Within(mid.entries, s.entries - {id}) && OldestWent(s.entries - {id}, mid.entries)
    requires forall k :: k in s.entries - {id} && k !in mid.entries ==> files.removable(s.entries[k].path)
    requires !Over(max, mid, size) && MustGo(max, s, id, size, y)
    ensures files.removable(s.entries[y].path)
  {
    hide Older, Covers, Excess, Over;
    if y in mid.entries {
      SinceStayed(s.entries - {id}, mid.entries, y);
      PartFits(max, mid, Since(s.entries - {id}, y), size);
    }
  }

  /** Where the loop fails, it fails at the first stuck entry. */
  lemma LostIsFirstStuck(max: nat, s: Index, id: Str, size: nat, files: Files, mid: Index, lost: Str)
    requires Covers(s) && Covers(mid) && Excess(mid) == Excess(s) && max < U64_MAX && DistinctPaths(s.entries)
    requires Within(mid.entries, s.entries - {id}) && OldestWent(s.entries - {id}, mid.entries)
    requires forall k :: k in s.entries - {id} && k !in mid.entries ==> files.removable(s.entries[k].path)
    requires Over(max, mid, size) && IsOldest(mid.entries, lost) && !files.removable(s.entries[lost].path)
    ensures FirstStuck(max, s, id, size, files, lost)
  {
    SinceStayed(s.entries - {id}, mid.entries, lost);
    hide Older;
    forall k | MustGo(max, s, id, size, k) && !files.removable(s.entries[k].path)
      ensures Older(s.entries[lost], s.entries[k])
    {
      assert k in s.entries - {id};
    }
  }

  /** A save leaves the recorded total further off exactly when the oldest entry that has
      to go and cannot be removed is not empty. */
  lemma DriftsIff(max: nat, s: Index, id: Str, path: Str, size: nat, files: Files, s': Index, r: Result<(), Error>)
    requires Covers(s) && max < U64_MAX && size <= max && files.written && DistinctPaths(s.entries)
    requires Saves(max, s, id, path, size, files, s', r)
    ensures Covers(s')
    ensures Excess(s') != Excess(s) <==>
              exists y :: FirstStuck(max, s, id, size, files, y) && s.entries[y].size > 0
  {
    ExcessAfter(max, s, id, path, size, files, s', r);
    hide Saves;
    var mid := SavesHow(max, s, id, path, size, files, s', r);
    hide Covers, Excess, Older;
    if !Over(max, mid, size) {
      if files.renamed {
        StoredExcess(mid, id, path, size);
      }
      forall y ensures !FirstStuck(max, s, id, size, files, y) {
        if MustGo(max, s, id, size, y) {
          RoomMeansNoneStuck(max, s, id, size, files, mid, y);
        }
      }
    } else if mid.entries == map[] {
      forall y ensures !FirstStuck(max, s, id, size, files, y) {
        assert y in s.entries && y != id ==> y in s.entries - {id};
      }
    } else {
      var lost :| FailsAt(mid, lost, files, s');
      LostExcess(mid, lost);
      LostIsFirstStuck(max, s, id, size, files, mid, lost);
      forall y | FirstStuck(max, s, id, size, files, y) ensures y == lost {
        OlderAntisymmetric(s.entries, y, lost);
      }
    }
  }

  /** So an index whose sizes add up keeps adding up exactly when no such entry exists. */
  lemma CountedIff(max: nat, s: Index, id: Str, path: Str, size: nat, files: Files, s': Index, r: Result<(), Error>)
    requires Counted(s) && max < U64_MAX && size <= max && files.written && DistinctPaths(s.entries)
    requires Saves(max, s, id, path, size, files, s', r)
    ensures Covers(s)
    ensures Counted(s') <==> !exists y :: FirstStuck(max, s, id, size, files, y) && s.entries[y].size > 0
  {
    hide Saves, Counted, Covers, Excess, FirstStuck, DistinctPaths;
    CountedHasNoExcess(s);
    DriftsIff(max, s, id, path, size, files, s', r);
    CountedHasNoExcess(s');
  }

  // ---- runs ----

  datatype Call = Call(id: Str, path: Str, size: nat, files: Files)

  /** Saves one after another, from an index a scan left. */
  ghost predicate IsRun(max: nat, states: seq<Index>, calls: seq<Call>, results: seq<Result<(), Error>>)
  {
    && |states| == |calls| + 1 && |results| == |calls|
    && Counted(states[0])
    && forall i :: 0 <= i < |calls| ==>
         Saves(max, states[i], calls[i].id, calls[i].path, calls[i].size, calls[i].files, states[i + 1], results[i])
  }

  /** In every run the recorded total covers what is indexed, and the excess never
      shrinks: once a snapshot is refused for it, every one as large is. */
  lemma {:induction false} ExcessOnlyGrows(max: nat, states: seq<Index>, calls: seq<Call>,
                                           results: seq<Result<(), Error>>, i: nat, j: nat)
    requires max < U64_MAX && IsRun(max, states, calls, results) && i <= j < |states|
    ensures Covers(states[i]) && Covers(states[j]) && Excess(states[i]) <= Excess(states[j])
    decreases j
  {
    hide Saves, Covers, Excess;
    if j == 0 {
      CountedHasNoExcess(states[0]);
    } else {
      var c := calls[j - 1];
      ExcessOnlyGrows(max, states, calls, results, if i < j then i else j - 1, j - 1);
      ExcessAfter(max, states[j - 1], c.id, c.path, c.size, c.files, states[j], results[j - 1]);
    }
  }

  // ---- a run that ends in a wrong refusal ----

  const ALICE: Str := Ascii("alice")
  const BOB: Str := Ascii("bob")

  /** A quota of ten and one counted snapshot of eight, as a scan of one file leaves it. */
  function OneSnapshot(): Index
  {
    Index(map[ALICE := Slot(ALICE, 8, 0)], 8, 1)
  }

  /** Saving five meets the old file, which cannot be removed: the entry is gone and its
      eight bytes stay. Saving five again, with every file removable and nothing
      indexed, is refused as too large for a quota of ten. */
  lemma StrandedThenRefused(stuck: Files, free: Files, s1: Index, r1: Result<(), Error>, s2: Index,
                            r2: Result<(), Error>)
    requires stuck.written && !stuck.removable(ALICE) && free.written
    requires Saves(10, OneSnapshot(), BOB, BOB, 5, stuck, s1, r1)
    requires Saves(10, s1, BOB, BOB, 5, free, s2, r2)
    ensures OneSnapshot() == Scanned([(ALICE, ALICE, 8)]) && Counted(OneSnapshot())
    ensures r1 == Err(Io) && s1 == Index(map[], 8, 1)
    ensures r2 == Err(TooLarge) && s2 == s1
  {
    OneScanned();
    FirstSave(stuck, s1, r1);
    var empty := Index(map[], 8, 1);
    assert Sizes(empty.entries) == map[];
    assert Covers(empty) && Excess(empty) == 8;
    RefusedIffExcess(10, empty, BOB, BOB, 5, free, s2, r2);
    var gone, mid :| SavesBy(10, empty, BOB, BOB, 5, free, gone, mid, s2, r2);
    hide Older;
    assert gone == [];
  }

  lemma Differ()
    ensures ALICE != BOB
  {
    assert |ALICE| != |BOB|;
  }

  lemma OneScanned()
    ensures OneSnapshot() == Scanned([(ALICE, ALICE, 8)]) && Counted(OneSnapshot())
  {
    var files := [(ALICE, ALICE, 8)];
    assert files[..0] == [];
    assert Scanned(files) == OneSnapshot();
    ScannedCounted(files);
  }

  lemma FirstSave(stuck: Files, s1: Index, r1: Result<(), Error>)
    requires stuck.written && !stuck.removable(ALICE)
    requires Saves(10, OneSnapshot(), BOB, BOB, 5, stuck, s1, r1)
    ensures r1 == Err(Io) && s1 == Index(map[], 8, 1)
  {
    Differ();
    var s := OneSnapshot();
    var gone, mid :| SavesBy(10, s, BOB, BOB, 5, stuck, gone, mid, s1, r1);
    hide Older;
    assert Cleared(s, BOB) == s;
    assert gone == [];
    assert s.entries.Keys == {ALICE};
    assert |s.entries| == |s.entries.Keys| == 1;
    var lost :| FailsAt(s, lost, stuck, s1);
    assert lost == ALICE;
    assert s.entries - {ALICE} == map[];
  }
}
