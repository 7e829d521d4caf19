/** What a change journal is worth to a client: folding the events a client is
    given, from whatever cursor it holds, rebuilds the server's records. */
module ChangeJournal {
  import opened Wrappers
  import opened ChangeStreams

  /** What a refresh state says, its times aside. */
  datatype Status = IsLoading | IsUpdating | IsReady | IsStale(reason: string) | IsUnavailable(reason: string)

  function StatusOf(r: Refresh): Status
  {
    match r
    case Loading => IsLoading
    case Updating(_) => IsUpdating
    case Ready(_) => IsReady
    case Stale(_, reason) => IsStale(reason)
    case Unavailable(reason) => IsUnavailable(reason)
  }

  /** An event is published exactly when the status differs. */
  lemma RefreshChangedMeans(a: Refresh, b: Refresh)
    ensures RefreshChanged(a, b) <==> StatusOf(a) != StatusOf(b)
  {
  }

  /** What a client knows. */
  datatype View = View(records: map<string, RecordInfo>, status: Status)

  function ViewOf(s: Stream): View
  {
    View(s.records, StatusOf(s.refresh))
  }

  /** A client takes an event in. */
  function Fold(v: View, e: Event): View
  {
    match e
    case Snapshot(_, _, records, state) => View(records, StatusOf(state))
    case Changed(_, _, records, removed) => v.(records := v.records + records - removed)
    case State(_, state) => v.(status := StatusOf(state))
    case _ => v
  }

  // ---- the journal against the history ----

  /** Folding the entry into any version from `from` on gives the entry's version. */
  ghost predicate Covers(hist: seq<View>, from: nat, e: Sequenced)
  {
    && from < e.sequence < |hist|
    && forall c :: from <= c < e.sequence ==> Fold(hist[c], e.event) == hist[e.sequence]
  }

  ghost predicate IsDelta(cfg: Config, e: Sequenced)
  {
    (e.event.Changed? || e.event.State?) && e.event.cursor == CursorText(cfg.generation, e.sequence)
  }

  /** The oldest version an entry can be folded into. */
  function Base(journal: seq<Sequenced>, i: nat): int
    requires i < |journal|
  {
    if i == 0 then journal[0].sequence - 1 else journal[i - 1].sequence
  }

  ghost predicate Entry(cfg: Config, journal: seq<Sequenced>, i: nat, hist: seq<View>)
    requires i < |journal|
  {
    IsDelta(cfg, journal[i]) && Base(journal, i) >= 0 && Covers(hist, Base(journal, i), journal[i])
  }

  ghost predicate Entries(cfg: Config, journal: seq<Sequenced>, hist: seq<View>)
  {
    forall i :: 0 <= i < |journal| ==> Entry(cfg, journal, i, hist)
  }

  /** `hist[n]` is what the stream held at sequence `n`; the journal can replay its end. */
  ghost predicate Faithful(cfg: Config, s: Stream, hist: seq<View>)
  {
    && |hist| == s.sequence + 1
    && hist[s.sequence] == ViewOf(s)
    && Entries(cfg, s.journal, hist)
    && (if s.journal == [] then s.sequence == 0 else s.journal[|s.journal| - 1].sequence == s.sequence)
  }

  lemma NewFaithful(cfg: Config, s: Stream)
    requires s.sequence == 0 && s.journal == []
    ensures Faithful(cfg, s, [ViewOf(s)])
  {
  }

  lemma CoversLonger(hist: seq<View>, from: nat, e: Sequenced, v: View)
    requires Covers(hist, from, e)
    ensures Covers(hist + [v], from, e)
  {
  }

  lemma EntriesAppend(cfg: Config, journal: seq<Sequenced>, hist: seq<View>, e: Sequenced, v: View)
    requires Entries(cfg, journal, hist)
    requires IsDelta(cfg, e) && e.sequence == |hist| > 0
    requires Covers(hist + [v], if journal == [] then |hist| - 1 else journal[|journal| - 1].sequence, e)
    ensures Entries(cfg, journal + [e], hist + [v])
  {
    var longer := journal + [e];
    var grown := hist + [v];
    forall i | 0 <= i < |longer| ensures Entry(cfg, longer, i, grown) {
      if i < |journal| {
        assert Entry(cfg, journal, i, hist);
        assert longer[i] == journal[i] && Base(longer, i) == Base(journal, i);
        CoversLonger(hist, Base(journal, i), journal[i], v);
      } else {
        assert longer[i] == e;
      }
    }
  }

  lemma EntriesTrim(cfg: Config, journal: seq<Sequenced>, hist: seq<View>, n: nat)
    requires Entries(cfg, journal, hist)
    ensures Entries(cfg, Trim(journal, n), hist)
  {
    var kept := Trim(journal, n);
    var gone := |journal| - |kept|;
    forall i | 0 <= i < |kept| ensures Entry(cfg, kept, i, hist) {
      assert kept[i] == journal[gone + i];
      assert Entry(cfg, journal, gone + i, hist);
      assert Base(kept, i) >= Base(journal, gone + i);
    }
  }

  lemma EntriesPrefix(cfg: Config, journal: seq<Sequenced>, hist: seq<View>, n: nat)
    requires Entries(cfg, journal, hist) && n <= |journal|
    ensures Entries(cfg, journal[..n], hist)
  {
    var kept := journal[..n];
    forall i | 0 <= i < |kept| ensures Entry(cfg, kept, i, hist) {
      assert Entry(cfg, journal, i, hist);
    }
  }

  // ---- publishing ----

  /** The versions a publication adds. */
  function PublishedHistory(s: Stream, hist: seq<View>, records: map<string, RecordInfo>, refresh: Refresh): seq<View>
  {
    var h1 :=
      if ChangedRecords(s.records, records) == map[] && s.records.Keys - records.Keys == {} then hist
      else hist + [View(records, StatusOf(s.refresh))];
    if RefreshChanged(s.refresh, refresh) then h1 + [View(records, StatusOf(refresh))] else h1
  }

  /** The changed and removed paths carry one set of records to the other. */
  lemma ChangesCarry(before: map<string, RecordInfo>, after: map<string, RecordInfo>)
    ensures before + ChangedRecords(before, after) - (before.Keys - after.Keys) == after
    ensures ChangedRecords(before, after) == map[] && before.Keys - after.Keys == {} ==> before == after
  {
    var changed := ChangedRecords(before, after);
    var removed := before.Keys - after.Keys;
    assert forall p :: p in changed <==> p in after && (p !in before || before[p] != after[p]);
    assert forall p :: p in removed <==> p in before && p !in after;
    assert changed == map[] && removed == {} ==> before == after;
  }

  /** A stream whose journal is in order, the view it will show aside. */
  ghost predicate Replayable(cfg: Config, s: Stream, hist: seq<View>)
  {
    && |hist| == s.sequence + 1
    && Entries(cfg, s.journal, hist)
    && (if s.journal == [] then s.sequence == 0 else s.journal[|s.journal| - 1].sequence == s.sequence)
  }

  lemma PushReplayable(cfg: Config, s: Stream, hist: seq<View>, event: Event, v: View)
    requires cfg.capacity >= 1
    requires |hist| == s.sequence + 1
    requires Entries(cfg, s.journal, hist)
    requires IsDelta(cfg, Sequenced(s.sequence + 1, event))
    requires Covers(hist + [v], if s.journal == [] then s.sequence else s.journal[|s.journal| - 1].sequence,
                    Sequenced(s.sequence + 1, event))
    ensures Replayable(cfg, Push(cfg, s, event), hist + [v])
  {
    var e := Sequenced(s.sequence + 1, event);
    EntriesAppend(cfg, s.journal, hist, e, v);
    EntriesTrim(cfg, s.journal + [e], hist + [v], cfg.capacity);
    hide Entries;
  }

  /** Recording changed records. */
  lemma PushChanged(cfg: Config, s: Stream, hist: seq<View>, event: Event, v: View)
    requires cfg.capacity >= 1
    requires Replayable(cfg, s, hist)
    requires IsDelta(cfg, Sequenced(s.sequence + 1, event))
    requires Fold(hist[s.sequence], event) == v
    ensures Replayable(cfg, Push(cfg, s, event), hist + [v])
  {
    var e := Sequenced(s.sequence + 1, event);
    assert (hist + [v])[s.sequence] == hist[s.sequence];
    assert Covers(hist + [v], s.sequence, e);
    PushReplayable(cfg, s, hist, event, v);
  }

  /** Replacing a state entry at the end: the new one can be folded wherever the
      old one could, since neither touches the records. */
  lemma PushState(cfg: Config, s: Stream, hist: seq<View>, event: Event, v: View)
    requires cfg.capacity >= 1
    requires Replayable(cfg, s, hist)
    requires s.journal != [] && s.journal[|s.journal| - 1].event.State?
    requires event.State? && IsDelta(cfg, Sequenced(s.sequence + 1, event))
    requires Fold(hist[s.sequence], event) == v
    ensures Replayable(cfg, Push(cfg, s.(journal := s.journal[..|s.journal| - 1]), event), hist + [v])
  {
    var j := s.journal;
    var popped := j[..|j| - 1];
    var e := Sequenced(s.sequence + 1, event);
    var grown := hist + [v];
    EntriesPrefix(cfg, j, hist, |j| - 1);
    assert Entry(cfg, j, |j| - 1, hist);
    var from: nat := if popped == [] then s.sequence else popped[|popped| - 1].sequence;
    assert from >= Base(j, |j| - 1);
    forall c | from <= c < e.sequence ensures Fold(grown[c], event) == v {
      assert grown[c] == hist[c];
      if c < s.sequence {
        assert Fold(hist[c], j[|j| - 1].event) == hist[s.sequence];
      }
    }
    assert Covers(grown, from, e);
    PushReplayable(cfg, s.(journal := popped), hist, event, v);
  }

  /** The records half of a publication. */
  function AfterRecords(cfg: Config, s: Stream, records: map<string, RecordInfo>, refresh: Refresh): Stream
  {
    var changed := ChangedRecords(s.records, records);
    var removed := s.records.Keys - records.Keys;
    var s1 := s.(records := records, refresh := refresh);
    if changed == map[] && removed == {} then s1
    else Push(cfg, s1, Changed(CursorText(cfg.generation, s1.sequence + 1), s.identity, changed, removed))
  }

  lemma RecordsKept(cfg: Config, s: Stream, hist: seq<View>, records: map<string, RecordInfo>, refresh: Refresh)
    requires cfg.capacity >= 1
    requires Faithful(cfg, s, hist)
    ensures
      var h := PublishedHistory(s, hist, records, s.refresh);
      var s2 := AfterRecords(cfg, s, records, refresh);
      Replayable(cfg, s2, h) && h[s2.sequence] == View(records, StatusOf(s.refresh))
  {
    var changed := ChangedRecords(s.records, records);
    var removed := s.records.Keys - records.Keys;
    ChangesCarry(s.records, records);
    RefreshChangedMeans(s.refresh, s.refresh);
    hide ChangedRecords, Entries;
    if changed != map[] || removed != {} {
      var s1 := s.(records := records, refresh := refresh);
      var event := Changed(CursorText(cfg.generation, s1.sequence + 1), s.identity, changed, removed);
      PushChanged(cfg, s1, hist, event, View(records, StatusOf(s.refresh)));
    }
  }

  lemma StateKept(cfg: Config, s: Stream, hist: seq<View>, state: Event)
    requires cfg.capacity >= 1
    requires Replayable(cfg, s, hist)
    requires state == State(CursorText(cfg.generation, s.sequence + 1), s.refresh)
    requires hist[s.sequence].records == s.records
    ensures
      var j := s.journal;
      var s3 := if j != [] && j[|j| - 1].event.State? then s.(journal := j[..|j| - 1]) else s;
      Faithful(cfg, Push(cfg, s3, state), hist + [ViewOf(s)])
  {
    hide Entries;
    var j := s.journal;
    if j != [] && j[|j| - 1].event.State? {
      PushState(cfg, s, hist, state, ViewOf(s));
    } else {
      PushChanged(cfg, s, hist, state, ViewOf(s));
    }
  }

  /** Every publication keeps the journal a faithful replay, whatever the capacity. */
  lemma PublishKeeps(cfg: Config, s: Stream, hist: seq<View>, records: map<string, RecordInfo>, refresh: Refresh)
    requires cfg.capacity >= 1
    requires Faithful(cfg, s, hist)
    ensures Faithful(cfg, Published(cfg, s, records, refresh), PublishedHistory(s, hist, records, refresh))
  {
    RecordsKept(cfg, s, hist, records, refresh);
    RefreshChangedMeans(s.refresh, refresh);
    RefreshChangedMeans(s.refresh, s.refresh);
    var s2 := AfterRecords(cfg, s, records, refresh);
    assert s2.records == records && s2.refresh == refresh;
    hide Entries, ChangedRecords, CursorText;
    if RefreshChanged(s.refresh, refresh) {
      var h := PublishedHistory(s, hist, records, s.refresh);
      StateKept(cfg, s2, h, State(CursorText(cfg.generation, s2.sequence + 1), refresh));
      hide Push, RefreshChanged;
      assert PublishedHistory(s, hist, records, refresh) == h + [ViewOf(s2)];
    }
  }

  // ---- polling ----

  lemma {:induction false} NextAfterIs(journal: seq<Sequenced>, c: nat)
    ensures NextAfter(journal, c).None? <==> forall i :: 0 <= i < |journal| ==> journal[i].sequence <= c
    ensures NextAfter(journal, c).Some? ==>
              exists i :: 0 <= i < |journal| && journal[i].sequence > c
                          && NextAfter(journal, c) == Some(journal[i].event)
                          && forall k :: 0 <= k < i ==> journal[k].sequence <= c
  {
    if journal != [] && journal[0].sequence <= c {
      var rest := journal[1..];
      NextAfterIs(rest, c);
      if NextAfter(journal, c).Some? {
        var i :| 0 <= i < |rest| && rest[i].sequence > c && NextAfter(rest, c) == Some(rest[i].event)
                 && forall k :: 0 <= k < i ==> rest[k].sequence <= c;
        assert journal[i + 1] == rest[i];
        assert forall k :: 0 <= k < i + 1 ==> journal[k].sequence <= c by {
          forall k | 0 <= k < i + 1 ensures journal[k].sequence <= c {
            if k > 0 {
              assert journal[k] == rest[k - 1];
            }
          }
        }
      } else {
        forall i | 0 <= i < |journal| ensures journal[i].sequence <= c {
          if i > 0 {
            assert journal[i] == rest[i - 1];
          }
        }
      }
    }
  }

  /** A client that holds version `c` and polls from it is given version `n`, later
      than `c`, however much of the journal has gone or been replaced since; or it is
      told to wait, and then `c` is the latest. */
  lemma AnswerCarries(cfg: Config, s: Stream, hist: seq<View>, c: nat)
    requires Faithful(cfg, s, hist) && c <= s.sequence
    ensures Answer(cfg, s, Some(c)).None? <==> c == s.sequence
    ensures c < s.sequence ==>
              exists n :: c < n <= s.sequence
                && Fold(hist[c], Answer(cfg, s, Some(c)).value) == hist[n]
                && !Answer(cfg, s, Some(c)).value.ResyncRequired?
                && !Answer(cfg, s, Some(c)).value.Cancelled?
                && !Answer(cfg, s, Some(c)).value.Revoked?
                && Answer(cfg, s, Some(c)).value.cursor == CursorText(cfg.generation, n)
  {
    var j := s.journal;
    if j == [] {
    } else if c + 1 < j[0].sequence {
      assert Entry(cfg, j, 0, hist);
      assert j[0].sequence <= s.sequence;
      assert Fold(hist[c], SnapshotOf(cfg, s)) == hist[s.sequence];
    } else {
      NextAfterIs(j, c);
      if c < s.sequence {
        assert j[|j| - 1].sequence > c;
        var i :| 0 <= i < |j| && j[i].sequence > c && NextAfter(j, c) == Some(j[i].event)
                 && forall k :: 0 <= k < i ==> j[k].sequence <= c;
        assert Entry(cfg, j, i, hist);
        assert Base(j, i) <= c;
        assert Fold(hist[c], j[i].event) == hist[j[i].sequence];
      } else {
        forall i | 0 <= i < |j| ensures j[i].sequence <= c {
          assert Entry(cfg, j, i, hist);
        }
      }
    }
  }

  /** Two views agree on everything a delta leaves alone. */
  ghost predicate AgreeBeyond(e: Event, a: View, b: View)
    requires e.Changed? || e.State?
  {
    if e.State? then a.records == b.records
    else a.status == b.status && a.records - e.records.Keys - e.removed == b.records - e.records.Keys - e.removed
  }

  /** A delta from version `c` lands a client on version `n` exactly when the client
      already agreed with version `c` on everything the delta leaves alone. */
  lemma DeltaLandsIff(before: View, mine: View, e: Event)
    requires e.Changed? || e.State?
    ensures Fold(mine, e) == Fold(before, e) <==> AgreeBeyond(e, mine, before)
  {
    if e.Changed? {
      var a := mine.records + e.records - e.removed;
      var b := before.records + e.records - e.removed;
      var a' := mine.records - e.records.Keys - e.removed;
      var b' := before.records - e.records.Keys - e.removed;
      assert a' == a - e.records.Keys && b' == b - e.records.Keys;
      var put := e.records - e.removed;
      assert a == a' + put && b == b' + put;
    }
  }
}
