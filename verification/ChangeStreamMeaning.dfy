/** What the steps of a change stream do, in the fields of what was published and
    asked for, and what the journal keeps over every run. */
module ChangeStreamMeaning {
  import opened Wrappers
  import ByteStrings
  import opened ChangeStreams
  import opened ChangeJournal
  import opened ChangeStreamRuns

  // ---- publishing ----

  /** The publication reaches the subscription: it has not ended, and is the
      publisher's or still to be opened. */
  ghost predicate Reaches(reg: Registry, session: string, sub: string, identity: string, register: bool)
  {
    && sub !in reg.terminal
    && if sub in reg.active then reg.active[sub].sessionId == session && reg.active[sub].identity == identity
       else register
  }

  /** A publication that reaches its subscription leaves there exactly the records and
      the state it brought; any other changes nothing; no other subscription notices. */
  lemma PublishShows(cfg: Config, reg: Registry, session: string, sub: string, identity: string,
                     records: seq<RecordInfo>, refresh: Refresh, register: bool, now: nat)
    ensures
      var after := PublishStep(cfg, reg, session, sub, identity, records, refresh, register, now);
      && after.active - {sub} == reg.active - {sub} && after.terminal == reg.terminal
      && (Reaches(reg, session, sub, identity, register) ==>
            && sub in after.active
            && var s := after.active[sub];
               && RecordsAre(s.records, records) && s.refresh == refresh
               && s.sessionId == session && s.identity == identity
               && s.lastPolledAt == (if sub in reg.active then reg.active[sub].lastPolledAt else now)
               && (sub !in reg.active ==> s.sequence == 0 && s.journal == []))
      && (!Reaches(reg, session, sub, identity, register) ==> after == reg)
  {
    hide ByPath, ChangedRecords, RefreshChanged, CursorText, RecordsAre;
    ByPathMeans(records);
  }

  /** Two journals differ by one event at the end, the oldest entries making room. */
  ghost predicate Adds(cfg: Config, before: seq<Sequenced>, after: seq<Sequenced>, e: Sequenced)
  {
    var all := before + [e];
    var n := if |all| < cfg.capacity then |all| else cfg.capacity;
    |after| == n && after == all[|all| - n..]
  }

  lemma PushAdds(cfg: Config, s: Stream, event: Event)
    ensures
      var r := Push(cfg, s, event);
      && r.sequence == s.sequence + 1 && Adds(cfg, s.journal, r.journal, Sequenced(r.sequence, event))
      && r == s.(sequence := r.sequence, journal := r.journal)
  {
  }

  ghost predicate Differ(before: map<string, RecordInfo>, after: map<string, RecordInfo>, p: string)
  {
    || (p in before && p !in after) || (p !in before && p in after)
    || (p in before && p in after && before[p] != after[p])
  }

  /** The event that announces a publication names exactly the paths that differ. */
  ghost predicate Announces(before: map<string, RecordInfo>, after: map<string, RecordInfo>, e: Event)
  {
    && e.Changed?
    && (forall p :: p in e.records || p in e.removed <==> Differ(before, after, p))
    && (forall p :: p in e.records ==> p in after && e.records[p] == after[p])
    && (forall p :: p in e.removed ==> p !in after)
  }

  ghost predicate SameStatus(a: Refresh, b: Refresh)
  {
    || (a.Loading? && b.Loading?) || (a.Updating? && b.Updating?) || (a.Ready? && b.Ready?)
    || (a.Stale? && b.Stale? && a.reason == b.reason)
    || (a.Unavailable? && b.Unavailable? && a.reason == b.reason)
  }

  /** A journal without the state event it ends on, if it does. */
  ghost function Unstated(j: seq<Sequenced>): seq<Sequenced>
  {
    if j != [] && j[|j| - 1].event.State? then j[..|j| - 1] else j
  }

  /** What the journal and sequence are once the records are in: one event more that
      announces the differences, if there are any. */
  ghost predicate Recorded(cfg: Config, s: Stream, records: map<string, RecordInfo>, journal: seq<Sequenced>, n: nat)
  {
    if exists p :: Differ(s.records, records, p) then
      && n == s.sequence + 1
      && exists e :: Announces(s.records, records, e) && Adds(cfg, s.journal, journal, Sequenced(n, e))
    else n == s.sequence && journal == s.journal
  }

  lemma RecordsIn(cfg: Config, s: Stream, records: map<string, RecordInfo>, refresh: Refresh)
    ensures
      var r := AfterRecords(cfg, s, records, refresh);
      Recorded(cfg, s, records, r.journal, r.sequence)
  {
    hide CursorText, Push, Adds, Announces;
    var changed, removed := ChangedRecords(s.records, records), s.records.Keys - records.Keys;
    var e := Changed(CursorText(cfg.generation, s.sequence + 1), s.identity, changed, removed);
    DiffersIff(s.records, records);
    AnnouncesChanges(s.records, records, e);
    PushAdds(cfg, s.(records := records, refresh := refresh), e);
  }

  /** A publication adds an event that announces the differences in the records, if
      there are any; then, if the status differs, the new state, in place of the state
      event the journal ends on. */
  lemma PublishAnnounces(cfg: Config, s: Stream, records: map<string, RecordInfo>, refresh: Refresh)
    ensures
      var r := Published(cfg, s, records, refresh);
      exists journal, n: nat :: Recorded(cfg, s, records, journal, n) &&
        if SameStatus(s.refresh, refresh) then r.sequence == n && r.journal == journal
        else
          && r.sequence == n + 1
          && Adds(cfg, Unstated(journal), r.journal,
                  Sequenced(n + 1, State(CursorText(cfg.generation, n + 1), refresh)))
  {
    hide CursorText, Push, Adds, Recorded, ChangedRecords, RefreshChanged, SameStatus;
    RecordsIn(cfg, s, records, refresh);
    StatusMeans(s.refresh, refresh);
    var s2 := AfterRecords(cfg, s, records, refresh);
    var s3 := s2.(journal := Unstated(s2.journal));
    PushAdds(cfg, s3, State(CursorText(cfg.generation, s3.sequence + 1), refresh));
    assert Recorded(cfg, s, records, s2.journal, s2.sequence);
  }

  lemma DiffersIff(before: map<string, RecordInfo>, after: map<string, RecordInfo>)
    ensures ChangedRecords(before, after) == map[] && before.Keys - after.Keys == {} <==>
            !exists p :: Differ(before, after, p)
  {
    var changed, removed := ChangedRecords(before, after), before.Keys - after.Keys;
    assert forall p :: p in changed || p in removed <==> Differ(before, after, p);
    assert changed == map[] <==> forall p :: p !in changed;
    assert removed == {} <==> forall p :: p !in removed;
  }

  lemma AnnouncesChanges(before: map<string, RecordInfo>, after: map<string, RecordInfo>, e: Event)
    requires e.Changed? && e.records == ChangedRecords(before, after) && e.removed == before.Keys - after.Keys
    ensures Announces(before, after, e)
  {
  }

  lemma StatusMeans(a: Refresh, b: Refresh)
    ensures RefreshChanged(a, b) <==> !SameStatus(a, b)
  {
  }

  // ---- polling ----

  /** The cursor is one this server could have issued. */
  ghost predicate Issued(generation: string, cursor: string, n: nat)
  {
    exists digits :: cursor == generation + ":" + digits && ':' !in digits && ParseU64(digits) == Some(n)
  }

  lemma {:induction false} LastColonMeans(s: string)
    ensures LastColon(s).None? <==> ':' !in s
    ensures LastColon(s).Some? ==> ':' !in s[LastColon(s).value + 1..]
  {
    if s != [] {
      var init := s[..|s| - 1];
      LastColonMeans(init);
      assert s == init + [s[|s| - 1]];
      if LastColon(s).Some? && s[|s| - 1] != ':' {
        var k := LastColon(s).value;
        assert s[k + 1..] == init[k + 1..] + [s[|s| - 1]];
      }
    }
  }

  /** A cursor is read exactly when it carries this server's generation and a number. */
  lemma CursorReadsIff(generation: string, cursor: string, n: nat)
    ensures ParseCursor(generation, cursor) == Some(n) <==> Issued(generation, cursor, n)
  {
    hide ParseU64;
    LastColonMeans(cursor);
    if ParseCursor(generation, cursor) == Some(n) {
      var k := LastColon(cursor).value;
      assert cursor == cursor[..k] + ":" + cursor[k + 1..];
      assert Issued(generation, cursor, n);
    }
    if Issued(generation, cursor, n) {
      var digits :| cursor == generation + ":" + digits && ':' !in digits && ParseU64(digits) == Some(n);
      LastColonAt(generation, digits);
      assert cursor[..|generation|] == generation && cursor[|generation| + 1..] == digits;
    }
  }

  /** A number is read exactly from its digits, with or without a plus sign. */
  lemma NumberReadsIff(s: string, n: nat)
    ensures ParseU64(s) == Some(n) <==>
      exists digits :: && (s == digits || s == "+" + digits) && digits != [] && Digits(digits)
                       && Value(digits) == n < ByteStrings.U64_LIMIT
  {
    var digits := if |s| > 0 && s[0] == '+' then s[1..] else s;
    if ParseU64(s) == Some(n) {
      assert s == digits || s == "+" + digits;
      assert digits != [] && Digits(digits) && Value(digits) == n;
    }
    if d :| (s == d || s == "+" + d) && d != [] && Digits(d) && Value(d) == n < ByteStrings.U64_LIMIT {
      assert d[0] != '+';
      assert d == digits;
    }
  }

  /** The subscription is the caller's, or free. */
  ghost predicate Admits(reg: Registry, session: string, sub: string, identity: string)
  {
    sub in reg.active ==> reg.active[sub].sessionId == session && reg.active[sub].identity == identity
  }

  /** A poll of a subscription that has not ended: another's, or one with a cursor this
      server never issued, is told to start over and changes nothing; the first opens the
      stream with exactly the records it reads, and is given them; any other only notes
      the time of the poll. No other subscription notices. */
  lemma PollShows(cfg: Config, reg: Registry, session: string, sub: string, identity: string,
                  records: seq<RecordInfo>, refresh: Refresh, cursor: Option<string>, now: nat)
    requires sub !in reg.terminal
    ensures
      var (after, e) := PollStep(cfg, reg, session, sub, identity, records, refresh, cursor, now);
      var mine := cursor.Some? ==> exists n: nat :: Issued(cfg.generation, cursor.value, n);
      && after.active - {sub} == reg.active - {sub} && after.terminal == reg.terminal
      && (!mine || !Admits(reg, session, sub, identity) ==> after == reg && e == Some(ResyncRequired))
      && (mine && Admits(reg, session, sub, identity) ==>
            && sub in after.active
            && var s := after.active[sub];
               && s.sessionId == session && s.identity == identity && s.lastPolledAt == now
               && (sub !in reg.active ==>
                     && RecordsAre(s.records, records) && s.refresh == refresh && s.sequence == 0 && s.journal == []
                     && e == Some(Snapshot(CursorText(cfg.generation, 0), identity, s.records, refresh)))
               && (sub in reg.active ==> s == reg.active[sub].(lastPolledAt := now)))
  {
    hide ByPath, RecordsAre, CursorText, ParseCursor, NextAfter, Issued;
    ByPathMeans(records);
    if cursor.Some? {
      forall n: nat
        ensures ParseCursor(cfg.generation, cursor.value) == Some(n) <==> Issued(cfg.generation, cursor.value, n)
      {
        CursorReadsIff(cfg.generation, cursor.value, n);
      }
      var parsed := ParseCursor(cfg.generation, cursor.value);
      assert parsed.Some? ==> Issued(cfg.generation, cursor.value, parsed.value);
    }
  }

  /** What an open stream's owner is answered: everything without a cursor, or with one
      from before the journal; start over with one from the future; otherwise the next
      entry after the cursor, or nothing yet. */
  lemma PollAnswers(cfg: Config, reg: Registry, session: string, sub: string, identity: string,
                    records: seq<RecordInfo>, refresh: Refresh, cursor: Option<string>, now: nat)
    requires sub !in reg.terminal && sub in reg.active && Admits(reg, session, sub, identity)
    requires cursor.Some? ==> exists n: nat :: Issued(cfg.generation, cursor.value, n)
    ensures
      var e := PollStep(cfg, reg, session, sub, identity, records, refresh, cursor, now).1;
      var s := reg.active[sub];
      var all := Some(Snapshot(CursorText(cfg.generation, s.sequence), identity, s.records, s.refresh));
      && (cursor.None? ==> e == all)
      && (forall c: nat :: cursor.Some? && Issued(cfg.generation, cursor.value, c) ==>
            if c > s.sequence then e == Some(ResyncRequired)
            else if s.journal != [] && c + 1 < s.journal[0].sequence then e == all
            else if e.None? then forall i :: 0 <= i < |s.journal| ==> s.journal[i].sequence <= c
            else exists i :: 0 <= i < |s.journal| && s.journal[i].sequence > c && e == Some(s.journal[i].event)
                             && forall k :: 0 <= k < i ==> s.journal[k].sequence <= c)
  {
    hide ByPath, CursorText, ParseCursor, NextAfter, Issued;
    if cursor.Some? {
      forall c: nat | Issued(cfg.generation, cursor.value, c)
        ensures ParseCursor(cfg.generation, cursor.value) == Some(c)
      {
        CursorReadsIff(cfg.generation, cursor.value, c);
      }
      var c: nat :| Issued(cfg.generation, cursor.value, c);
      NextAfterIs(reg.active[sub].journal, c);
    }
  }

  // ---- sweeping ----

  /** A sweep keeps a stream exactly when somebody waits on it or it was polled less
      than the timeout ago, and a tombstone exactly until it expires. */
  lemma EvictKeeps(cfg: Config, reg: Registry, waiting: set<string>, now: nat, sub: string)
    ensures
      var after := EvictStep(cfg, reg, waiting, now);
      && (sub in after.active <==>
            && sub in reg.active
            && (sub in waiting || (cfg.idleTimeout > 0 && now < reg.active[sub].lastPolledAt + cfg.idleTimeout)))
      && (sub in after.active ==> after.active[sub] == reg.active[sub])
      && (sub in after.terminal <==> sub in reg.terminal && now < reg.terminal[sub].expiresAt)
      && (sub in after.terminal ==> after.terminal[sub] == reg.terminal[sub])
  {
  }

  // ---- the journal over every run ----

  /** A journal within its capacity in which no state event follows another. */
  ghost predicate Tidy(cfg: Config, j: seq<Sequenced>)
  {
    |j| <= cfg.capacity && forall i :: 0 < i < |j| ==> !(j[i - 1].event.State? && j[i].event.State?)
  }

  lemma PushTidy(cfg: Config, s: Stream, event: Event)
    requires Tidy(cfg, s.journal)
    requires event.State? ==> s.journal == [] || !s.journal[|s.journal| - 1].event.State?
    ensures Tidy(cfg, Push(cfg, s, event).journal)
  {
    var all := s.journal + [Sequenced(s.sequence + 1, event)];
    assert forall i :: 0 < i < |all| ==> !(all[i - 1].event.State? && all[i].event.State?);
  }

  lemma PublishTidy(cfg: Config, s: Stream, records: map<string, RecordInfo>, refresh: Refresh)
    requires Tidy(cfg, s.journal)
    ensures Tidy(cfg, Published(cfg, s, records, refresh).journal)
  {
    hide Push, ChangedRecords, RefreshChanged, CursorText;
    var changed, removed := ChangedRecords(s.records, records), s.records.Keys - records.Keys;
    var s1 := s.(records := records, refresh := refresh);
    var e := Changed(CursorText(cfg.generation, s1.sequence + 1), s.identity, changed, removed);
    PushTidy(cfg, s1, e);
    var s2 := if changed == map[] && removed == {} then s1 else Push(cfg, s1, e);
    var j := s2.journal;
    var s3 := if j != [] && j[|j| - 1].event.State? then s2.(journal := j[..|j| - 1]) else s2;
    assert s3.journal == [] || !s3.journal[|s3.journal| - 1].event.State?;
    PushTidy(cfg, s3, State(CursorText(cfg.generation, s3.sequence + 1), refresh));
  }

  /** In every run, every journal stays within its capacity, and consecutive changes
      of state leave one event. */
  lemma {:induction false} JournalsStayTidy(cfg: Config, sub: string, actions: seq<Action>)
    ensures
      var w := Run(cfg, sub, actions);
      sub in w.reg.active ==> Tidy(cfg, w.reg.active[sub].journal)
  {
    hide Tidy, Effect, History, Deliver;
    if actions == [] {
    } else {
      var before, a := Run(cfg, sub, actions[..|actions| - 1]), actions[|actions| - 1];
      JournalsStayTidy(cfg, sub, actions[..|actions| - 1]);
      TidyKept(cfg, sub, before, a);
    }
  }

  lemma TidyKept(cfg: Config, sub: string, w: World, a: Action)
    requires sub in w.reg.active ==> Tidy(cfg, w.reg.active[sub].journal)
    ensures
      var reg := Effect(cfg, sub, w, a).0;
      sub in reg.active ==> Tidy(cfg, reg.active[sub].journal)
  {
    hide Tidy, ByPath, Published, Answer, ParseCursor;
    if Accepted(w.reg, a, sub) {
      PublishTidy(cfg, w.reg.active[sub], ByPath(a.records), a.refresh);
    } else if sub in w.reg.active {
      Untouched(cfg, sub, w, a);
      hide Effect;
    } else {
      Created(cfg, sub, w, a);
      hide Effect;
      NothingTidy(cfg);
    }
  }

  lemma NothingTidy(cfg: Config)
    ensures Tidy(cfg, [])
  {
  }
}
