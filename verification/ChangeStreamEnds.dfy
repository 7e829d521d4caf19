/** How change streams end, and what a client that outlives its stream can see. */
module ChangeStreamEnds {
  import opened Wrappers
  import opened ChangeStreams
  import opened ChangeJournal
  import opened ChangeStreamRuns

  // ---- ending ----

  /** Only the owner's cancel ends a stream; it says so, and touches nothing else. */
  lemma CancelEnds(cfg: Config, reg: Registry, session: string, sub: string, now: nat)
    requires Sound(reg)
    ensures
      var after := CancelStep(cfg, reg, session, sub, now);
      var ends := sub in reg.active && reg.active[sub].sessionId == session;
      && (ends ==>
            && sub !in after.active && sub in after.terminal
            && after.terminal[sub] == Tombstone(session, Cancelled, now + cfg.idleTimeout)
            && after.active == reg.active - {sub} && after.terminal - {sub} == reg.terminal)
      && (!ends ==> after == reg)
  {
    var after := CancelStep(cfg, reg, session, sub, now);
    if sub in reg.active && reg.active[sub].sessionId == session {
      assert sub !in reg.terminal;
      assert after.terminal - {sub} == reg.terminal;
    }
  }

  /** Revoking a session ends exactly the streams it owns. */
  lemma RevokeEnds(cfg: Config, reg: Registry, session: string, now: nat, sub: string)
    requires Sound(reg)
    ensures
      var after := RevokeStep(cfg, reg, session, now);
      if sub in reg.active && reg.active[sub].sessionId == session then
        && sub !in after.active && sub in after.terminal
        && after.terminal[sub] == Tombstone(session, Revoked, now + cfg.idleTimeout)
      else
        && (sub in after.active <==> sub in reg.active)
        && (sub in after.active ==> after.active[sub] == reg.active[sub])
        && (sub in after.terminal <==> sub in reg.terminal)
        && (sub in after.terminal ==> after.terminal[sub] == reg.terminal[sub])
  {
    assert sub in OwnedBy(reg, session) <==> sub in reg.active && reg.active[sub].sessionId == session;
  }

  /** `sub` has ended and its tombstone stands. */
  ghost predicate Ended(reg: Registry, sub: string, t: Tombstone)
  {
    sub in reg.terminal && reg.terminal[sub] == t && sub !in reg.active
  }

  predicate Expires(a: Action, t: Tombstone)
  {
    a.Evict? && t.expiresAt <= a.now
  }

  /** Nothing but expiry lifts a tombstone: not a publication, a poll, another
      cancel, or a revocation. */
  lemma EndedStays(cfg: Config, sub: string, w: World, a: Action, other: string, t: Tombstone)
    requires Ended(w.reg, other, t) && !Expires(a, t)
    ensures Ended(Step(cfg, sub, w, a).reg, other, t)
  {
    hide ByPath, Published, Answer, ParseCursor, History, Deliver;
  }

  function Continue(cfg: Config, sub: string, w: World, actions: seq<Action>): World
  {
    if actions == [] then w
    else Step(cfg, sub, Continue(cfg, sub, w, actions[..|actions| - 1]), actions[|actions| - 1])
  }

  /** Until it expires, an ended subscription stays ended over any run; its owner is
      told how it ended at every poll, with no cursor or with one of this server's,
      everybody else is told to start over, and nothing published to it has any effect. */
  lemma {:induction false} EndedUntilExpiry(cfg: Config, sub: string, w: World, actions: seq<Action>, t: Tombstone,
                                            session: string, identity: string, records: seq<RecordInfo>,
                                            refresh: Refresh, cursor: Option<string>, now: nat)
    requires Ended(w.reg, sub, t)
    requires forall i :: 0 <= i < |actions| ==> !Expires(actions[i], t)
    ensures
      var reg := Continue(cfg, sub, w, actions).reg;
      var mine := cursor.Some? ==> ParseCursor(cfg.generation, cursor.value).Some?;
      && Ended(reg, sub, t)
      && PollStep(cfg, reg, session, sub, identity, records, refresh, cursor, now)
         == (reg, Some(if mine && session == t.sessionId then t.event else ResyncRequired))
      && forall register :: PublishStep(cfg, reg, session, sub, identity, records, refresh, register, now) == reg
  {
    if actions != [] {
      var n := |actions| - 1;
      var before := actions[..n];
      assert forall i :: 0 <= i < |before| ==> before[i] == actions[i];
      EndedUntilExpiry(cfg, sub, w, before, t, session, identity, records, refresh, cursor, now);
      EndedStays(cfg, sub, Continue(cfg, sub, w, before), actions[n], sub, t);
    }
  }

  // ---- sweeping ----

  /** The first to poll a swept subscription, with no cursor or with any cursor of this
      server's, is given the whole of what it now reads and starts a new stream. And a
      subscription is swept when nobody waits on it or polled it within the timeout, or
      when it had ended and its tombstone has expired. */
  lemma FirstBackResyncs(cfg: Config, reg: Registry, waiting: set<string>, t: nat, session: string, sub: string,
                         identity: string, records: seq<RecordInfo>, refresh: Refresh, cursor: Option<string>, now: nat)
    requires Sound(reg) && (cursor.Some? ==> ParseCursor(cfg.generation, cursor.value).Some?)
    requires sub in reg.active ==>
      sub !in waiting && (cfg.idleTimeout == 0 || reg.active[sub].lastPolledAt + cfg.idleTimeout <= t)
    requires sub in reg.terminal ==> reg.terminal[sub].expiresAt <= t
    ensures
      var (after, e) := PollStep(cfg, EvictStep(cfg, reg, waiting, t), session, sub, identity, records, refresh,
                                 cursor, now);
      && sub in after.active && after.active[sub] == NewStream(session, identity, records, refresh, now)
      && RecordsAre(after.active[sub].records, records)
      && e == Some(Snapshot(CursorText(cfg.generation, 0), identity, after.active[sub].records, refresh))
  {
    hide ByPath, ParseCursor, CursorText, RecordsAre;
    ByPathMeans(records);
  }

  // ---- outliving a stream ----

  const APPLE: RecordInfo := RecordInfo("a", "x", "r", 0)
  const BERRY: RecordInfo := RecordInfo("b", "y", "r", 0)
  const SMALL: Config := Config("g", 1, 10)

  function Fresh(records: map<string, RecordInfo>, at: nat): Stream
  {
    Stream("p", "i", records, Loading, 0, [], at)
  }

  function Joined(): World
  {
    var view := View(map["a" := APPLE], IsLoading);
    World(Registry(map["s" := Fresh(view.records, 0)], map[]), 1, [view], map[0 := Client("p", "i", 1, 0, view)])
  }

  /** A client joins. */
  lemma JoinRuns()
    ensures Step(SMALL, "s", Start(), Join(0, "p", "i", [APPLE], Loading, 0)) == Joined()
  {
    CursorRoundTrip(SMALL.generation, 0);
    assert ByPath([APPLE]) == map["a" := APPLE] by {
      assert [APPLE][..0] == [];
    }
    hide ParseCursor, CursorText;
  }

  function Regrown(): World
  {
    var delta := Changed(CursorText("g", 1), "i", map["b" := BERRY], {});
    World(Registry(map["s" := Stream("p", "i", map["b" := BERRY], Loading, 1, [Sequenced(1, delta)], 100)], map[]),
          2, [View(map[], IsLoading), View(map["b" := BERRY], IsLoading)], Joined().clients)
  }

  /** Its stream is evicted while idle, and another for the same subscription grows
      past the client's cursor. */
  lemma RegrowRuns()
    ensures
      var w1 := Step(SMALL, "s", Joined(), Evict({}, 100));
      var w2 := Step(SMALL, "s", w1, Publish("p", "s", "i", [], Loading, true, 100));
      Step(SMALL, "s", w2, Publish("p", "s", "i", [BERRY], Loading, true, 100)) == Regrown()
  {
    var w1 := Step(SMALL, "s", Joined(), Evict({}, 100));
    assert w1.reg == Registry(map[], map[]);
    var w2 := Step(SMALL, "s", w1, Publish("p", "s", "i", [], Loading, true, 100));
    assert w2 == World(Registry(map["s" := Fresh(map[], 100)], map[]), 2, [View(map[], IsLoading)], Joined().clients);
    var now := map["b" := BERRY];
    assert ByPath([BERRY]) == now by {
      assert [BERRY][..0] == [];
    }
    assert ChangedRecords(map[], now) == now;
    hide ByPath, ChangedRecords, CursorText;
    var s := Fresh(map[], 100);
    assert s.records.Keys - now.Keys == {};
    assert "b" in now;
    var after := Published(SMALL, s, now, Loading);
    assert after == Regrown().reg.active["s"];
    var w3 := Step(SMALL, "s", w2, Publish("p", "s", "i", [BERRY], Loading, true, 100));
    assert w3.reg.active == w2.reg.active["s" := after];
    assert w3.hist == Regrown().hist;
  }

  /** What it answers a poll from sequence zero. */
  function Delta(): Event
  {
    Changed(CursorText("g", 1), "i", map["b" := BERRY], {})
  }

  function Polled(at: nat): Stream
  {
    Stream("p", "i", map["b" := BERRY], Loading, 1, [Sequenced(1, Delta())], at)
  }

  /** The client, never told that its stream is gone, polls with its old cursor and
      is given a delta. */
  lemma StaleAnswer()
    ensures
      var w := Regrown();
      Effect(SMALL, "s", w, Follow(0, [BERRY], Loading, 101))
      == (w.reg.(active := w.reg.active["s" := Polled(101)]), Some(Delta()))
  {
    CursorRoundTrip("g", 0);
    hide ParseCursor, CursorText, ByPath;
    assert Polled(101).journal[0].event == Delta();
    assert Answer(SMALL, Polled(101), Some(0)) == Some(Delta());
    hide Answer;
  }

  /** The delta moves the client on to the new stream's cursor. */
  lemma StaleDelivery(clients: map<nat, Client>, c: Client, incarnation: nat)
    ensures Deliver(SMALL, clients, 0, c, incarnation, Some(Delta()))
         == clients[0 := c.(cursor := 1, view := Fold(c.view, Delta()))]
  {
    CursorRoundTrip("g", 1);
    hide ParseCursor, CursorText, Fold;
  }

  lemma StaleFollow()
    ensures
      var w := Step(SMALL, "s", Regrown(), Follow(0, [BERRY], Loading, 101));
      var c := Regrown().clients[0];
      && "s" in w.reg.active && w.reg.active["s"] == Polled(101) && w.reg.terminal == map[]
      && 0 in w.clients && w.clients[0] == c.(cursor := 1, view := Fold(c.view, Delta()))
  {
    StaleAnswer();
    hide CursorText, ByPath, Effect, Fold, History, Incarnation, Deliver, Delta;
    var before, a := Regrown(), Follow(0, [BERRY], Loading, 101);
    var reg := Effect(SMALL, "s", before, a).0;
    StaleDelivery(before.clients, before.clients[0], Incarnation(before, reg, "s"));
  }

  lemma NothingNew()
    ensures Answer(SMALL, Polled(102), Some(1)).None?
  {
    hide Delta, CursorText;
    NextAfterIs(Polled(102).journal, 1);
  }

  /** A client at the end of the journal parks. */
  lemma EndParks(w: World)
    requires "s" in w.reg.active && w.reg.active["s"] == Polled(101) && w.reg.terminal == map[]
    requires 0 in w.clients && w.clients[0].session == "p" && w.clients[0].identity == "i" && w.clients[0].cursor == 1
    ensures Effect(SMALL, "s", w, Follow(0, [BERRY], Loading, 102)).1.None?
  {
    hide ParseCursor, CursorText, ByPath, Answer, Delta;
    CursorRoundTrip("g", 1);
    NothingNew();
  }

  /** The client keeps the record that only the old stream had. */
  lemma KeepsApple()
    ensures Fold(Regrown().clients[0].view, Delta()) != ViewOf(Polled(101))
  {
    hide CursorText;
    var mine := Fold(Regrown().clients[0].view, Delta());
    assert "a" in mine.records && "a" !in Polled(101).records;
  }

  /** The run just described. */
  function Outlived(): seq<Action>
  {
    [] + [Join(0, "p", "i", [APPLE], Loading, 0)]
    + [Evict({}, 100)]
    + [Publish("p", "s", "i", [], Loading, true, 100)]
    + [Publish("p", "s", "i", [BERRY], Loading, true, 100)]
    + [Follow(0, [BERRY], Loading, 101)]
  }

  lemma RunSnoc(cfg: Config, sub: string, actions: seq<Action>, a: Action)
    ensures Run(cfg, sub, actions + [a]) == Step(cfg, sub, Run(cfg, sub, actions), a)
  {
    assert (actions + [a])[..|actions|] == actions;
  }

  /** A reachable world in which a client stands at the server's own sequence with a
      record the server does not have, and whose next poll parks: a cursor names a
      sequence and not the stream it came from, so the guarantee of
      `ClientsStayInStep` needs its condition. */
  lemma OutlivingDiverges()
    ensures
      var w := Run(SMALL, "s", Outlived());
      && "s" in w.reg.active && 0 in w.clients
      && w.clients[0].cursor == w.reg.active["s"].sequence
      && w.clients[0].view != ViewOf(w.reg.active["s"])
      && Effect(SMALL, "s", w, Follow(0, [BERRY], Loading, 102)).1.None?
  {
    hide Step, Effect;
    var a0 := [] + [Join(0, "p", "i", [APPLE], Loading, 0)];
    var a1 := a0 + [Evict({}, 100)];
    var a2 := a1 + [Publish("p", "s", "i", [], Loading, true, 100)];
    var a3 := a2 + [Publish("p", "s", "i", [BERRY], Loading, true, 100)];
    RunSnoc(SMALL, "s", [], Join(0, "p", "i", [APPLE], Loading, 0));
    RunSnoc(SMALL, "s", a0, Evict({}, 100));
    RunSnoc(SMALL, "s", a1, Publish("p", "s", "i", [], Loading, true, 100));
    RunSnoc(SMALL, "s", a2, Publish("p", "s", "i", [BERRY], Loading, true, 100));
    RunSnoc(SMALL, "s", a3, Follow(0, [BERRY], Loading, 101));
    JoinRuns();
    RegrowRuns();
    StaleFollow();
    KeepsApple();
    hide Fold;
    EndParks(Run(SMALL, "s", Outlived()));
  }
}
