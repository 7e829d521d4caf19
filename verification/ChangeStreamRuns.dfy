/** Every run of a change-stream server and its clients. One subscription, chosen
    freely, is followed together with any number of clients polling it; everything
    else that can happen to the server happens around them. */
module ChangeStreamRuns {
  import opened Wrappers
  import ByteStrings
  import opened ChangeStreams
  import opened ChangeJournal

  datatype Action =
    | Publish(session: string, sub: string, identity: string, records: seq<RecordInfo>, refresh: Refresh,
              register: bool, now: nat)
    | Poll(session: string, sub: string, identity: string, records: seq<RecordInfo>, refresh: Refresh,
           cursor: Option<string>, now: nat)
    | Join(who: nat, session: string, identity: string, records: seq<RecordInfo>, refresh: Refresh, now: nat)
    | Follow(who: nat, records: seq<RecordInfo>, refresh: Refresh, now: nat)
    | Cancel(session: string, sub: string, now: nat)
    | Revoke(session: string, now: nat)
    | Evict(waiting: set<string>, now: nat)

  /** A client of the followed subscription. `incarnation` is the stream its last
      snapshot came from; the client itself cannot see it. */
  datatype Client = Client(session: string, identity: string, incarnation: nat, cursor: nat, view: View)

  datatype World = World(reg: Registry, incarnation: nat, hist: seq<View>, clients: map<nat, Client>)

  function Start(): World
  {
    World(Registry(map[], map[]), 0, [], map[])
  }

  /** What an action does to the registry; a client's poll also has an answer. */
  function Effect(cfg: Config, sub: string, w: World, a: Action): (Registry, Option<Event>)
  {
    match a
    case Publish(session, other, identity, records, refresh, register, now) =>
      (PublishStep(cfg, w.reg, session, other, identity, records, refresh, register, now), None)
    case Poll(session, other, identity, records, refresh, cursor, now) =>
      (PollStep(cfg, w.reg, session, other, identity, records, refresh, cursor, now).0, None)
    case Join(_, session, identity, records, refresh, now) =>
      PollStep(cfg, w.reg, session, sub, identity, records, refresh, None, now)
    case Follow(who, records, refresh, now) =>
      if who !in w.clients then (w.reg, None)
      else
        var c := w.clients[who];
        PollStep(cfg, w.reg, c.session, sub, c.identity, records, refresh,
                 Some(CursorText(cfg.generation, c.cursor)), now)
    case Cancel(session, other, now) => (CancelStep(cfg, w.reg, session, other, now), None)
    case Revoke(session, now) => (RevokeStep(cfg, w.reg, session, now), None)
    case Evict(waiting, now) => (EvictStep(cfg, w.reg, waiting, now), None)
  }

  predicate Accepted(reg: Registry, a: Action, sub: string)
  {
    && a.Publish? && a.sub == sub && sub !in reg.terminal && sub in reg.active
    && reg.active[sub].sessionId == a.session && reg.active[sub].identity == a.identity
  }

  /** The history of the followed stream; it restarts with each incarnation. */
  function History(w: World, reg: Registry, sub: string, a: Action): seq<View>
  {
    if sub in reg.active && sub !in w.reg.active then [ViewOf(reg.active[sub])]
    else if Accepted(w.reg, a, sub) then PublishedHistory(w.reg.active[sub], w.hist, ByPath(a.records), a.refresh)
    else w.hist
  }

  function Incarnation(w: World, reg: Registry, sub: string): nat
  {
    if sub in reg.active && sub !in w.reg.active then w.incarnation + 1 else w.incarnation
  }

  /** A client takes its answer: a snapshot starts it afresh, a delta moves it on,
      anything else ends it. */
  function Received(cfg: Config, c: Client, incarnation: nat, e: Event): Option<Client>
  {
    if e.Snapshot? || e.Changed? || e.State? then
      var n :- ParseCursor(cfg.generation, e.cursor);
      Some(c.(incarnation := if e.Snapshot? then incarnation else c.incarnation, cursor := n, view := Fold(c.view, e)))
    else None
  }

  function Deliver(cfg: Config, clients: map<nat, Client>, who: nat, c: Client, incarnation: nat, e: Option<Event>)
    : map<nat, Client>
  {
    if e.None? then clients
    else
      var c' := Received(cfg, c, incarnation, e.value);
      if c'.Some? then clients[who := c'.value] else clients - {who}
  }

  function Step(cfg: Config, sub: string, w: World, a: Action): World
  {
    var (reg, e) := Effect(cfg, sub, w, a);
    var incarnation := Incarnation(w, reg, sub);
    var clients :=
      match a
      case Join(who, session, identity, _, _, _) =>
        Deliver(cfg, w.clients, who, Client(session, identity, incarnation, 0, View(map[], IsLoading)), incarnation, e)
      case Follow(who, _, _, _) =>
        if who in w.clients then Deliver(cfg, w.clients, who, w.clients[who], incarnation, e) else w.clients
      case _ => w.clients;
    World(reg, incarnation, History(w, reg, sub, a), clients)
  }

  function Run(cfg: Config, sub: string, actions: seq<Action>): World
  {
    if actions == [] then Start() else Step(cfg, sub, Run(cfg, sub, actions[..|actions| - 1]), actions[|actions| - 1])
  }

  /** No sequence number has left 64 bits. */
  predicate Counts(reg: Registry, sub: string)
  {
    sub in reg.active ==> reg.active[sub].sequence < ByteStrings.U64_LIMIT
  }

  predicate AlwaysCounts(cfg: Config, sub: string, actions: seq<Action>)
  {
    && Counts(Run(cfg, sub, actions).reg, sub)
    && (actions != [] ==> AlwaysCounts(cfg, sub, actions[..|actions| - 1]))
  }

  // ---- the invariant ----

  /** A client whose last snapshot came from the stream now running holds exactly
      what that stream held at the client's cursor. */
  ghost predicate InStep(w: World, sub: string, c: Client)
  {
    && c.incarnation <= w.incarnation
    && c.cursor < ByteStrings.U64_LIMIT
    && (c.incarnation == w.incarnation && sub in w.reg.active ==>
          c.cursor <= w.reg.active[sub].sequence && c.cursor < |w.hist| && c.view == w.hist[c.cursor])
  }

  /** Streams and tombstones never share a subscription, and a tombstone only ever
      says that the stream has ended. */
  ghost predicate Sound(reg: Registry)
  {
    && reg.active.Keys !! reg.terminal.Keys
    && forall sub :: sub in reg.terminal ==> reg.terminal[sub].event in {Cancelled, Revoked}
  }

  ghost predicate Inv(cfg: Config, sub: string, w: World)
  {
    && Sound(w.reg)
    && (sub in w.reg.active ==> Faithful(cfg, w.reg.active[sub], w.hist))
    && (forall who :: who in w.clients ==> InStep(w, sub, w.clients[who]))
  }

  lemma SoundKept(cfg: Config, sub: string, w: World, a: Action)
    requires Sound(w.reg)
    ensures Sound(Effect(cfg, sub, w, a).0)
  {
    hide ByPath, Published, Answer, ParseCursor;
  }

  /** An action that is not an accepted publication changes at most when the followed
      stream was last polled. */
  lemma Untouched(cfg: Config, sub: string, w: World, a: Action)
    requires sub in w.reg.active && !Accepted(w.reg, a, sub)
    ensures
      var reg := Effect(cfg, sub, w, a).0;
      sub in reg.active ==> exists at :: reg.active[sub] == w.reg.active[sub].(lastPolledAt := at)
  {
    hide ByPath, Answer, ParseCursor, Published;
    var s := w.reg.active[sub];
    var reg := Effect(cfg, sub, w, a).0;
    if sub in reg.active && reg.active[sub] == s {
      assert reg.active[sub] == s.(lastPolledAt := s.lastPolledAt);
    }
  }

  lemma Created(cfg: Config, sub: string, w: World, a: Action)
    requires sub !in w.reg.active
    ensures
      var reg := Effect(cfg, sub, w, a).0;
      sub in reg.active ==> reg.active[sub].sequence == 0 && reg.active[sub].journal == []
  {
    hide ByPath, Answer, ParseCursor, Published;
  }

  /** What an action leaves of the followed stream. */
  lemma StreamAfter(cfg: Config, sub: string, w: World, a: Action)
    requires cfg.capacity >= 1
    requires sub in w.reg.active ==> Faithful(cfg, w.reg.active[sub], w.hist)
    ensures
      var reg := Effect(cfg, sub, w, a).0;
      sub in reg.active ==> Faithful(cfg, reg.active[sub], History(w, reg, sub, a))
  {
    hide ByPath, Answer, ParseCursor, Entries, Published, PublishedHistory;
    if Accepted(w.reg, a, sub) {
      PublishKeeps(cfg, w.reg.active[sub], w.hist, ByPath(a.records), a.refresh);
      hide Faithful;
    } else if sub in w.reg.active {
      Untouched(cfg, sub, w, a);
      hide Effect;
    } else {
      Created(cfg, sub, w, a);
      hide Effect;
      var reg := Effect(cfg, sub, w, a).0;
      if sub in reg.active {
        NewFaithful(cfg, reg.active[sub]);
      }
    }
  }

  lemma {:induction false} HistoryGrows(cfg: Config, sub: string, w: World, a: Action)
    requires sub in w.reg.active && sub in Effect(cfg, sub, w, a).0.active
    ensures w.hist <= History(w, Effect(cfg, sub, w, a).0, sub, a)
  {
    hide Effect;
  }

  /** A client that has nothing to do with the action stays in step. */
  lemma OthersInStep(cfg: Config, sub: string, w: World, a: Action, c: Client)
    requires cfg.capacity >= 1
    requires Inv(cfg, sub, w) && InStep(w, sub, c)
    ensures InStep(Step(cfg, sub, w, a), sub, c)
  {
    var reg := Effect(cfg, sub, w, a).0;
    StreamAfter(cfg, sub, w, a);
    if sub in w.reg.active && sub in reg.active {
      HistoryGrows(cfg, sub, w, a);
    }
    hide Effect, History, Entries, Deliver;
  }

  predicate Carries(e: Event)
  {
    e.Snapshot? || e.Changed? || e.State?
  }

  /** An answer that carries data is a snapshot of the stream as it now stands, or
      the stream's answer to the cursor that was sent. */
  lemma PollMeets(cfg: Config, reg: Registry, session: string, sub: string, identity: string,
                  records: seq<RecordInfo>, refresh: Refresh, cursor: Option<string>, now: nat)
    requires Sound(reg)
    ensures
      var (reg', e) := PollStep(cfg, reg, session, sub, identity, records, refresh, cursor, now);
      e.Some? && Carries(e.value) ==>
        && sub in reg'.active
        && (|| e == Some(SnapshotOf(cfg, reg'.active[sub]))
            || (cursor.Some? && ParseCursor(cfg.generation, cursor.value).Some?
                && e == Answer(cfg, reg'.active[sub], ParseCursor(cfg.generation, cursor.value))))
  {
    hide ByPath, ParseCursor, Published, SnapshotOf, NextAfter;
  }

  lemma NotASnapshot(cfg: Config, s: Stream, hist: seq<View>, c: nat)
    requires Faithful(cfg, s, hist)
    ensures
      var e := Answer(cfg, s, Some(c));
      e.Some? && e.value.Snapshot? ==> e.value == SnapshotOf(cfg, s)
  {
    NextAfterIs(s.journal, c);
    if NextAfter(s.journal, c).Some? {
      var j := s.journal;
      var i :| 0 <= i < |j| && NextAfter(j, c) == Some(j[i].event);
      assert Entry(cfg, j, i, hist);
    }
  }

  lemma ParsedCounts(generation: string, cursor: string)
    ensures ParseCursor(generation, cursor).Some? ==> ParseCursor(generation, cursor).value < ByteStrings.U64_LIMIT
  {
  }

  /** The polling client is in step with what it is given. */
  lemma ReceiverInStep(cfg: Config, sub: string, w: World, c: Client, e: Event)
    requires sub in w.reg.active && Faithful(cfg, w.reg.active[sub], w.hist) && Counts(w.reg, sub)
    requires c.incarnation <= w.incarnation
    requires
      || e == SnapshotOf(cfg, w.reg.active[sub])
      || (InStep(w, sub, c) && Answer(cfg, w.reg.active[sub], Some(c.cursor)) == Some(e))
    ensures
      var c' := Received(cfg, c, w.incarnation, e);
      c'.Some? ==> InStep(w, sub, c'.value)
  {
    var s := w.reg.active[sub];
    if Carries(e) {
      ParsedCounts(cfg.generation, e.cursor);
    }
    if e == SnapshotOf(cfg, s) {
      CursorRoundTrip(cfg.generation, s.sequence);
    } else if c.incarnation == w.incarnation {
      AnswerCarries(cfg, s, w.hist, c.cursor);
      hide Entries, Answer, ParseCursor, CursorText;
      var n :| c.cursor < n <= s.sequence && Fold(w.hist[c.cursor], e) == w.hist[n]
               && !e.ResyncRequired? && !e.Cancelled? && !e.Revoked?
               && e.cursor == CursorText(cfg.generation, n);
      CursorRoundTrip(cfg.generation, n);
    } else {
      NotASnapshot(cfg, s, w.hist, c.cursor);
      hide Entries, Answer, ParseCursor;
    }
  }

  /** A delivery keeps everyone in step when the receiver is. */
  lemma DeliverInStep(cfg: Config, sub: string, w: World, clients: map<nat, Client>, who: nat, c: Client,
                      e: Option<Event>)
    requires forall k :: k in clients ==> InStep(w, sub, clients[k])
    requires e.Some? ==>
               var c' := Received(cfg, c, w.incarnation, e.value);
               c'.Some? ==> InStep(w, sub, c'.value)
    ensures
      var after := Deliver(cfg, clients, who, c, w.incarnation, e);
      forall k :: k in after ==> InStep(w, sub, after[k])
  {
    hide InStep, Received;
  }

  /** One step keeps every client in step. */
  lemma StepKeeps(cfg: Config, sub: string, w: World, a: Action)
    requires cfg.capacity >= 1
    requires Inv(cfg, sub, w) && Counts(Step(cfg, sub, w, a).reg, sub)
    ensures Inv(cfg, sub, Step(cfg, sub, w, a))
  {
    var w' := Step(cfg, sub, w, a);
    SoundKept(cfg, sub, w, a);
    StreamAfter(cfg, sub, w, a);
    forall k | k in w.clients ensures InStep(w', sub, w.clients[k]) {
      OthersInStep(cfg, sub, w, a, w.clients[k]);
    }
    match a {
      case Join(who, session, identity, records, refresh, now) =>
        var c := Client(session, identity, w'.incarnation, 0, View(map[], IsLoading));
        var e := Effect(cfg, sub, w, a).1;
        PollMeets(cfg, w.reg, session, sub, identity, records, refresh, None, now);
        hide PollStep, Entries, InStep, History, Deliver, Received;
        if e.Some? && Carries(e.value) {
          ReceiverInStep(cfg, sub, w', c, e.value);
        }
        NothingReceived(cfg, c, w'.incarnation, e);
        DeliverInStep(cfg, sub, w', w.clients, who, c, e);
      case Follow(who, records, refresh, now) =>
        if who in w.clients {
          var c := w.clients[who];
          var e := Effect(cfg, sub, w, a).1;
          var cursor := CursorText(cfg.generation, c.cursor);
          CursorRoundTrip(cfg.generation, c.cursor);
          PollMeets(cfg, w.reg, c.session, sub, c.identity, records, refresh, Some(cursor), now);
          assert c.incarnation <= w'.incarnation;
          hide PollStep, Entries, InStep, History, Deliver, Received, ParseCursor, CursorText;
          if e.Some? && Carries(e.value) {
            ReceiverInStep(cfg, sub, w', c, e.value);
          }
          NothingReceived(cfg, c, w'.incarnation, e);
          DeliverInStep(cfg, sub, w', w.clients, who, c, e);
        }
      case _ =>
    }
  }

  lemma NothingReceived(cfg: Config, c: Client, incarnation: nat, e: Option<Event>)
    ensures e.Some? && !Carries(e.value) ==> Received(cfg, c, incarnation, e.value).None?
  {
  }

  /** In every run, every client whose last snapshot came from the stream now running
      holds exactly the records and status that stream had at the client's cursor:
      through lost journal entries, replaced state entries, other clients and other
      subscriptions. */
  lemma {:induction false} ClientsStayInStep(cfg: Config, sub: string, actions: seq<Action>)
    requires cfg.capacity >= 1
    requires AlwaysCounts(cfg, sub, actions)
    ensures Inv(cfg, sub, Run(cfg, sub, actions))
  {
    if actions != [] {
      ClientsStayInStep(cfg, sub, actions[..|actions| - 1]);
      StepKeeps(cfg, sub, Run(cfg, sub, actions[..|actions| - 1]), actions[|actions| - 1]);
    }
  }

  /** A client's poll parks only when the client already holds what the server holds. */
  lemma ParkedAt(cfg: Config, sub: string, w: World, c: Client, records: seq<RecordInfo>, refresh: Refresh, now: nat)
    requires Inv(cfg, sub, w) && InStep(w, sub, c) && c.incarnation == w.incarnation
    requires PollStep(cfg, w.reg, c.session, sub, c.identity, records, refresh,
                      Some(CursorText(cfg.generation, c.cursor)), now).1.None?
    ensures sub in w.reg.active && c.view == ViewOf(w.reg.active[sub])
  {
    CursorRoundTrip(cfg.generation, c.cursor);
    hide ParseCursor, CursorText, Entries, ByPath;
    if sub in w.reg.active {
      var s := w.reg.active[sub].(lastPolledAt := now);
      assert Faithful(cfg, s, w.hist);
      AnswerCarries(cfg, s, w.hist, c.cursor);
      hide Answer;
    }
  }

  lemma ParkedIsCurrent(cfg: Config, sub: string, actions: seq<Action>, who: nat,
                        records: seq<RecordInfo>, refresh: Refresh, now: nat)
    requires cfg.capacity >= 1
    requires AlwaysCounts(cfg, sub, actions)
    requires
      var w := Run(cfg, sub, actions);
      && who in w.clients && w.clients[who].incarnation == w.incarnation
      && Effect(cfg, sub, w, Follow(who, records, refresh, now)).1.None?
    ensures
      var w := Run(cfg, sub, actions);
      sub in w.reg.active && w.clients[who].view == ViewOf(w.reg.active[sub])
  {
    ClientsStayInStep(cfg, sub, actions);
    hide Run, AlwaysCounts, PollStep, InStep, Sound, Faithful;
    var w := Run(cfg, sub, actions);
    ParkedAt(cfg, sub, w, w.clients[who], records, refresh, now);
  }
}
