/** What a client can rely on, and what it can do to keep relying on it. */
module ChangeStreamClients {
  import opened Wrappers
  import ByteStrings
  import opened ChangeStreams
  import opened ChangeJournal
  import opened ChangeStreamRuns

  /** In every run, whatever its sequence numbers, streams and tombstones never share a
      subscription and a tombstone only says how a stream ended. */
  lemma {:induction false} AlwaysSound(cfg: Config, sub: string, actions: seq<Action>)
    ensures Sound(Run(cfg, sub, actions).reg)
  {
    if actions != [] {
      AlwaysSound(cfg, sub, actions[..|actions| - 1]);
      SoundKept(cfg, sub, Run(cfg, sub, actions[..|actions| - 1]), actions[|actions| - 1]);
    }
  }

  // ---- exactly when an answer lands ----

  /** Whatever view a client polls with, what it is given takes it to the version that
      the answer's cursor names if and only if the answer is a snapshot or the client
      agreed with the version at its own cursor on everything the answer leaves alone. */
  lemma PollLandsIff(cfg: Config, s: Stream, hist: seq<View>, c: nat, mine: View)
    requires Faithful(cfg, s, hist) && c < s.sequence
    ensures Answer(cfg, s, Some(c)).Some? && Carries(Answer(cfg, s, Some(c)).value)
    ensures
      var e := Answer(cfg, s, Some(c)).value;
      exists n :: c < n <= s.sequence && e.cursor == CursorText(cfg.generation, n)
        && (Fold(mine, e) == hist[n] <==> e.Snapshot? || AgreeBeyond(e, mine, hist[c]))
  {
    AnswerCarries(cfg, s, hist, c);
    hide Entries, Answer, CursorText;
    var e := Answer(cfg, s, Some(c)).value;
    var n :| c < n <= s.sequence && Fold(hist[c], e) == hist[n]
             && !e.ResyncRequired? && !e.Cancelled? && !e.Revoked? && e.cursor == CursorText(cfg.generation, n);
    if !e.Snapshot? {
      DeltaLandsIff(hist[c], mine, e);
    }
  }

  /** What a client's poll does to a running stream it belongs to. */
  lemma FollowMeets(cfg: Config, sub: string, w: World, who: nat, records: seq<RecordInfo>, refresh: Refresh, now: nat)
    requires Sound(w.reg) && sub in w.reg.active && who in w.clients && w.clients[who].cursor < ByteStrings.U64_LIMIT
    requires
      var c, s := w.clients[who], w.reg.active[sub];
      s.sessionId == c.session && s.identity == c.identity
    ensures
      var c, s := w.clients[who], w.reg.active[sub].(lastPolledAt := now);
      Effect(cfg, sub, w, Follow(who, records, refresh, now))
      == (w.reg.(active := w.reg.active[sub := s]), Answer(cfg, s, Some(c.cursor)))
  {
    CursorRoundTrip(cfg.generation, w.clients[who].cursor);
    hide ParseCursor, CursorText, ByPath, Answer;
  }

  /** What a data-carrying answer does to the client it is for. */
  lemma FollowDelivers(cfg: Config, sub: string, w: World, who: nat, records: seq<RecordInfo>, refresh: Refresh,
                       now: nat, e: Event, n: nat)
    requires sub in w.reg.active && who in w.clients && Carries(e)
    requires Effect(cfg, sub, w, Follow(who, records, refresh, now)).0.active.Keys == w.reg.active.Keys
    requires Effect(cfg, sub, w, Follow(who, records, refresh, now)).1 == Some(e)
    requires e.cursor == CursorText(cfg.generation, n) && n < ByteStrings.U64_LIMIT
    ensures
      var w', c := Step(cfg, sub, w, Follow(who, records, refresh, now)), w.clients[who];
      && w'.hist == w.hist && w'.incarnation == w.incarnation && who in w'.clients
      && w'.clients[who] == c.(incarnation := if e.Snapshot? then w.incarnation else c.incarnation, cursor := n,
                               view := Fold(c.view, e))
  {
    CursorRoundTrip(cfg.generation, n);
    hide Effect, CursorText, ParseCursor, Fold;
  }

  lemma FollowLandsAt(cfg: Config, sub: string, w: World, who: nat, records: seq<RecordInfo>, refresh: Refresh,
                      now: nat)
    requires Inv(cfg, sub, w) && Counts(w.reg, sub) && who in w.clients && sub in w.reg.active
    requires
      var c, s := w.clients[who], w.reg.active[sub];
      s.sessionId == c.session && s.identity == c.identity && c.cursor < s.sequence
    ensures
      var w' := Step(cfg, sub, w, Follow(who, records, refresh, now));
      var e := Effect(cfg, sub, w, Follow(who, records, refresh, now)).1;
      && e.Some? && Carries(e.value)
      && w'.hist == w.hist && who in w'.clients
      && w.clients[who].cursor < w'.clients[who].cursor < |w.hist|
      && (w'.clients[who].view == w.hist[w'.clients[who].cursor] <==>
            e.value.Snapshot? || AgreeBeyond(e.value, w.clients[who].view, w.hist[w.clients[who].cursor]))
  {
    hide Entries, Answer, CursorText, Effect, ParseCursor, AgreeBeyond, Fold, Step, SnapshotOf;
    var c, s := w.clients[who], w.reg.active[sub].(lastPolledAt := now);
    FollowMeets(cfg, sub, w, who, records, refresh, now);
    assert Faithful(cfg, s, w.hist);
    PollLandsIff(cfg, s, w.hist, c.cursor, c.view);
    var e := Answer(cfg, s, Some(c.cursor)).value;
    var n :| c.cursor < n <= s.sequence && e.cursor == CursorText(cfg.generation, n)
             && (Fold(c.view, e) == w.hist[n] <==> e.Snapshot? || AgreeBeyond(e, c.view, w.hist[c.cursor]));
    FollowDelivers(cfg, sub, w, who, records, refresh, now, e, n);
  }

  /** The same in every run, of any client of the stream's session: also one whose last
      snapshot came from an earlier stream. */
  lemma FollowLandsIff(cfg: Config, sub: string, actions: seq<Action>, who: nat, records: seq<RecordInfo>,
                       refresh: Refresh, now: nat)
    requires cfg.capacity >= 1 && AlwaysCounts(cfg, sub, actions)
    requires
      var w := Run(cfg, sub, actions);
      && who in w.clients && sub in w.reg.active
      && var c, s := w.clients[who], w.reg.active[sub];
         s.sessionId == c.session && s.identity == c.identity && c.cursor < s.sequence
    ensures
      var w := Run(cfg, sub, actions);
      var w' := Step(cfg, sub, w, Follow(who, records, refresh, now));
      var e := Effect(cfg, sub, w, Follow(who, records, refresh, now)).1;
      && e.Some? && Carries(e.value)
      && w'.hist == w.hist && who in w'.clients
      && w.clients[who].cursor < w'.clients[who].cursor < |w.hist|
      && (w'.clients[who].view == w.hist[w'.clients[who].cursor] <==>
            e.value.Snapshot? || AgreeBeyond(e.value, w.clients[who].view, w.hist[w.clients[who].cursor]))
  {
    ClientsStayInStep(cfg, sub, actions);
    assert Counts(Run(cfg, sub, actions).reg, sub);
    hide Run, AlwaysCounts, Inv, Step, Effect, AgreeBeyond, Counts;
    FollowLandsAt(cfg, sub, Run(cfg, sub, actions), who, records, refresh, now);
  }

  // ---- a client that keeps polling ----

  /** When a client last polled; it knows this itself. */
  function LastPoll(actions: seq<Action>, who: nat): nat
  {
    if actions == [] then 0
    else
      var a := actions[|actions| - 1];
      if (a.Join? || a.Follow?) && a.who == who then a.now else LastPoll(actions[..|actions| - 1], who)
  }

  /** The clock does not run backwards. */
  predicate Clocked(actions: seq<Action>)
  {
    forall i, j :: 0 <= i < j < |actions| ==> actions[i].now <= actions[j].now
  }

  /** An action that leaves an attentive client its stream: nobody ends the stream, the
      client does not start afresh, and when idle streams are swept the client is
      waiting or polled less than the timeout ago. */
  predicate Attends(cfg: Config, sub: string, before: seq<Action>, a: Action, who: nat, session: string)
  {
    match a
    case Cancel(s, other, _) => other != sub || s != session
    case Revoke(s, _) => s != session
    case Join(k, _, _, _, _, _) => k != who
    case Evict(waiting, now) => sub in waiting || Recent(cfg, LastPoll(before, who), now)
    case _ => true
  }

  predicate Attentive(cfg: Config, sub: string, actions: seq<Action>, who: nat, session: string, k: nat)
    requires k <= |actions|
  {
    |actions| == k
    || (&& Attentive(cfg, sub, actions[..|actions| - 1], who, session, k)
        && Attends(cfg, sub, actions[..|actions| - 1], actions[|actions| - 1], who, session))
  }

  /** The client belongs to the stream now running, which was polled no earlier than
      the client last did. */
  ghost predicate Current(sub: string, w: World, who: nat, session: string, last: nat)
  {
    && who in w.clients && sub in w.reg.active
    && var c, s := w.clients[who], w.reg.active[sub];
       && c.incarnation == w.incarnation && c.session == session
       && s.sessionId == c.session && s.identity == c.identity && s.lastPolledAt >= last
  }

  /** A stream with the same owner, polled no earlier. */
  ghost predicate SameOwner(before: Stream, after: Stream, last: nat)
  {
    after.sessionId == before.sessionId && after.identity == before.identity && after.lastPolledAt >= last
  }

  lemma StreamSurvives(cfg: Config, sub: string, before: seq<Action>, w: World, a: Action, who: nat, session: string)
    requires Sound(w.reg) && Current(sub, w, who, session, LastPoll(before, who))
    requires Attends(cfg, sub, before, a, who, session) && LastPoll(before, who) <= a.now
    ensures
      var reg := Effect(cfg, sub, w, a).0;
      sub in reg.active && SameOwner(w.reg.active[sub], reg.active[sub], LastPoll(before, who))
  {
    hide LastPoll, ByPath, Answer, ParseCursor, PublishedHistory, CursorText, RefreshChanged;
    var s := w.reg.active[sub];
    if a.Publish? {
      hide Push, ChangedRecords;
    }
  }

  /** A client of the running stream is never turned away: its poll parks, or brings
      data and leaves it a client of the same stream. */
  lemma OwnFollow(cfg: Config, sub: string, w: World, who: nat, session: string, last: nat, records: seq<RecordInfo>,
                  refresh: Refresh, now: nat)
    requires Inv(cfg, sub, w) && Counts(w.reg, sub) && Current(sub, w, who, session, last)
    ensures
      var w' := Step(cfg, sub, w, Follow(who, records, refresh, now));
      && who in w'.clients && w'.clients[who].incarnation == w.incarnation == w'.incarnation
      && w'.clients[who].session == session && w'.clients[who].identity == w.clients[who].identity
      && sub in w'.reg.active && w'.reg.active[sub] == w.reg.active[sub].(lastPolledAt := now)
  {
    hide Entries, Answer, CursorText, Effect, ParseCursor, Fold, SnapshotOf;
    var c, s := w.clients[who], w.reg.active[sub].(lastPolledAt := now);
    assert InStep(w, sub, c);
    FollowMeets(cfg, sub, w, who, records, refresh, now);
    assert Faithful(cfg, s, w.hist);
    if c.cursor < s.sequence {
      PollLandsIff(cfg, s, w.hist, c.cursor, c.view);
      var e := Answer(cfg, s, Some(c.cursor)).value;
      var n :| c.cursor < n <= s.sequence && e.cursor == CursorText(cfg.generation, n);
      FollowDelivers(cfg, sub, w, who, records, refresh, now, e, n);
      hide Deliver, History;
    } else {
      AnswerCarries(cfg, s, w.hist, c.cursor);
    }
  }

  /** The client is left alone by an action that is not its own. */
  lemma OthersLeave(cfg: Config, sub: string, w: World, a: Action, who: nat)
    requires who in w.clients && sub in w.reg.active
    requires !((a.Join? || a.Follow?) && a.who == who)
    ensures
      var w' := Step(cfg, sub, w, a);
      who in w'.clients && w'.clients[who] == w.clients[who] && w'.incarnation == w.incarnation
  {
    hide Effect, Received, History;
  }

  lemma CurrentKept(cfg: Config, sub: string, before: seq<Action>, w: World, a: Action, who: nat, session: string)
    requires Inv(cfg, sub, w) && Counts(w.reg, sub) && Current(sub, w, who, session, LastPoll(before, who))
    requires Attends(cfg, sub, before, a, who, session) && LastPoll(before, who) <= a.now
    ensures Current(sub, Step(cfg, sub, w, a), who, session, LastPoll(before + [a], who))
  {
    assert (before + [a])[..|before|] == before;
    StreamSurvives(cfg, sub, before, w, a, who, session);
    if a.Follow? && a.who == who {
      OwnFollow(cfg, sub, w, who, session, LastPoll(before, who), a.records, a.refresh, a.now);
      hide Step, Inv;
    } else {
      OthersLeave(cfg, sub, w, a, who);
      hide Inv, Effect, Deliver, History;
    }
  }

  /** A client that has just joined belongs to the running stream. */
  lemma JoinedIsCurrent(cfg: Config, sub: string, w: World, a: Action)
    requires a.Join? && Sound(w.reg) && a.who in Step(cfg, sub, w, a).clients
    ensures Current(sub, Step(cfg, sub, w, a), a.who, a.session, a.now)
  {
    hide ByPath, CursorText, ParseCursor, History, Fold;
  }

  lemma {:induction false} LastPollBefore(actions: seq<Action>, who: nat, t: nat)
    requires forall i :: 0 <= i < |actions| ==> actions[i].now <= t
    ensures LastPoll(actions, who) <= t
  {
    if actions != [] {
      LastPollBefore(actions[..|actions| - 1], who, t);
    }
  }

  lemma {:induction false} AttentiveIsCurrent(cfg: Config, sub: string, actions: seq<Action>, who: nat, k: nat)
    requires cfg.capacity >= 1 && AlwaysCounts(cfg, sub, actions) && Clocked(actions)
    requires 0 < k <= |actions| && actions[k - 1].Join? && actions[k - 1].who == who
    requires who in Run(cfg, sub, actions[..k]).clients
    requires Attentive(cfg, sub, actions, who, actions[k - 1].session, k)
    ensures Current(sub, Run(cfg, sub, actions), who, actions[k - 1].session, LastPoll(actions, who))
    decreases |actions|
  {
    hide Inv, Step, Current, Attends, Sound;
    var n := |actions| - 1;
    var before, a := actions[..n], actions[n];
    var w := Run(cfg, sub, before);
    if k == |actions| {
      assert actions[..k] == actions;
      AlwaysSound(cfg, sub, before);
      JoinedIsCurrent(cfg, sub, w, a);
    } else {
      assert before[..k] == actions[..k];
      AttentiveIsCurrent(cfg, sub, before, who, k);
      ClientsStayInStep(cfg, sub, before);
      LastPollBefore(before, who, a.now);
      assert before + [a] == actions;
      CurrentKept(cfg, sub, before, w, a, who, actions[k - 1].session);
    }
  }

  /** What a client can do: once it has joined, as long as nobody ends its stream and it
      is waiting or has polled within the timeout whenever idle streams are swept, its
      stream keeps running and it holds exactly what that stream held at its cursor. */
  lemma AttentiveStaysInStep(cfg: Config, sub: string, actions: seq<Action>, who: nat, k: nat)
    requires cfg.capacity >= 1 && AlwaysCounts(cfg, sub, actions) && Clocked(actions)
    requires 0 < k <= |actions| && actions[k - 1].Join? && actions[k - 1].who == who
    requires who in Run(cfg, sub, actions[..k]).clients
    requires Attentive(cfg, sub, actions, who, actions[k - 1].session, k)
    ensures
      var w := Run(cfg, sub, actions);
      && who in w.clients && sub in w.reg.active
      && w.clients[who].cursor <= w.reg.active[sub].sequence < |w.hist|
      && w.clients[who].view == w.hist[w.clients[who].cursor]
      && w.hist[w.reg.active[sub].sequence] == ViewOf(w.reg.active[sub])
  {
    AttentiveIsCurrent(cfg, sub, actions, who, k);
    ClientsStayInStep(cfg, sub, actions);
    hide Run, AlwaysCounts, Attentive, Entries;
    assert InStep(Run(cfg, sub, actions), sub, Run(cfg, sub, actions).clients[who]);
  }
}
