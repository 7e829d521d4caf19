/** Every interleaving of fetch events: no caller is lost, and none is answered twice. */
module FetchRuns {
  import opened Wrappers
  import opened ByteStrings
  import opened FetchManager

  datatype Action =
    | Start(contentId: string, channel: nat, requests: seq<nat>, now: nat)
    | Response(request: nat, data: Bytes)
    | Failure(request: nat)
    | Discovered(contentId: string, provider: string, connected: bool, now: nat)
    | PeerConnected(peer: string, now: nat)
    | RequestSent(contentId: string, request: nat)
    | Timeouts(now: nat, overdue: seq<string>)

  function Step(matches: (string, Bytes) -> bool, s: State, a: Action): State
  {
    match a
    case Start(contentId, channel, requests, now) => StartStep(s, contentId, channel, requests, now)
    case Response(request, data) => ResponseStep(matches, s, request, data).0
    case Failure(request) => FailureStep(s, request).0
    case Discovered(contentId, provider, connected, now) => DiscoverStep(s, contentId, provider, connected, now).0
    case PeerConnected(peer, now) => ConnectStep(s, peer, now)
    case RequestSent(contentId, request) => SentStep(s, contentId, request)
    case Timeouts(_, overdue) => ExpireAll(s, overdue)
  }

  function Run(matches: (string, Bytes) -> bool, actions: seq<Action>): State
  {
    if actions == [] then State(map[], map[], [], [])
    else Step(matches, Run(matches, actions[..|actions| - 1]), actions[|actions| - 1])
  }

  // ---- counting tickets ----

  /** How often a ticket was handed in. */
  function Given(actions: seq<Action>, t: Ticket): nat
  {
    if actions == [] then 0
    else
      var a := actions[|actions| - 1];
      Given(actions[..|actions| - 1], t)
      + if a.Start? && Ticket(a.channel, a.contentId) == t then 1 else 0
  }

  function Held(s: State, t: Ticket): nat
  {
    if t.contentId in s.active && TicketOf(s.active[t.contentId]) == t then 1 else 0
  }

  function Answered(answers: seq<Answer>, t: Ticket): nat
  {
    if answers == [] then 0
    else Answered(answers[..|answers| - 1], t) + if answers[|answers| - 1].ticket == t then 1 else 0
  }

  function Dropped(dropped: seq<Ticket>, t: Ticket): nat
  {
    if dropped == [] then 0
    else Dropped(dropped[..|dropped| - 1], t) + if dropped[|dropped| - 1] == t then 1 else 0
  }

  function Accounted(s: State, t: Ticket): nat
  {
    Held(s, t) + Answered(s.answers, t) + Dropped(s.dropped, t)
  }

  /** Every fetch is kept under its own content id. */
  ghost predicate Keyed(s: State)
  {
    forall id :: id in s.active ==> s.active[id].contentId == id
  }

  /** A reply that carries bytes carries the bytes of the id its ticket was for, and
      no reply names another id. */
  ghost predicate Honest(matches: (string, Bytes) -> bool, a: Answer)
  {
    && (a.reply.Fetched? ==>
          a.reply.contentId == a.ticket.contentId && a.reply.size == |a.reply.data|
          && matches(a.ticket.contentId, a.reply.data))
    && (a.reply.ProviderNotFound? ==> a.reply.contentId == a.ticket.contentId)
  }

  ghost predicate AllHonest(matches: (string, Bytes) -> bool, answers: seq<Answer>)
  {
    forall i :: 0 <= i < |answers| ==> Honest(matches, answers[i])
  }

  // ---- each transition ----

  lemma AnsweredSnoc(answers: seq<Answer>, a: Answer, t: Ticket)
    ensures Answered(answers + [a], t) == Answered(answers, t) + if a.ticket == t then 1 else 0
  {
    assert (answers + [a])[..|answers|] == answers;
  }

  lemma DroppedSnoc(dropped: seq<Ticket>, d: Ticket, t: Ticket)
    ensures Dropped(dropped + [d], t) == Dropped(dropped, t) + if d == t then 1 else 0
  {
    assert (dropped + [d])[..|dropped|] == dropped;
  }

  /** Putting a fetch in place adds its ticket and loses none. */
  lemma PutAccounted(s: State, f: Fetch, t: Ticket)
    requires Keyed(s)
    ensures Keyed(Put(s, f))
    ensures Accounted(Put(s, f), t) == Accounted(s, t) + if TicketOf(f) == t then 1 else 0
    ensures Put(s, f).answers == s.answers
  {
    if f.contentId in s.active {
      DroppedSnoc(s.dropped, TicketOf(s.active[f.contentId]), t);
    }
    hide Dropped, Answered;
  }

  /** Answering a fetch moves its ticket from held to answered. */
  lemma AnswerAccounted(s: State, id: string, requests: map<nat, string>, reply: Reply, t: Ticket)
    requires Keyed(s) && id in s.active
    ensures
      var s' := s.(active := s.active - {id}, requests := requests,
                   answers := s.answers + [Answer(TicketOf(s.active[id]), reply)]);
      Keyed(s') && Accounted(s', t) == Accounted(s, t)
  {
    hide Dropped, Answered;
    AnsweredSnoc(s.answers, Answer(TicketOf(s.active[id]), reply), t);
  }

  /** Taking a fetch out gives its ticket up until it is put back. */
  lemma TakeAccounted(s: State, id: string, requests: map<nat, string>, t: Ticket)
    requires Keyed(s) && id in s.active
    ensures
      var s' := s.(active := s.active - {id}, requests := requests);
      Keyed(s') && Accounted(s', t) + (if TicketOf(s.active[id]) == t then 1 else 0) == Accounted(s, t)
  {
    hide Dropped, Answered;
  }

  lemma RequestsDoNotCount(s: State, requests: map<nat, string>, t: Ticket)
    ensures Accounted(s.(requests := requests), t) == Accounted(s, t)
    ensures Keyed(s.(requests := requests)) == Keyed(s)
  {
    hide Dropped, Answered;
  }

  lemma KeyedAt(s: State, id: string)
    requires Keyed(s) && id in s.active
    ensures s.active[id].contentId == id
  {
  }

  lemma FailureAccounted(matches: (string, Bytes) -> bool, s: State, request: nat, t: Ticket)
    requires Keyed(s) && AllHonest(matches, s.answers)
    ensures
      var s' := FailureStep(s, request).0;
      Keyed(s') && AllHonest(matches, s'.answers) && Accounted(s', t) == Accounted(s, t)
  {
    if request in s.requests && s.requests[request] in s.active {
      var id := s.requests[request];
      var f := s.active[id];
      var left := s.requests - {request};
      var s2 := s.(active := s.active - {id}, requests := left);
      TakeAccounted(s, id, left, t);
      AnswerAccounted(s, id, left, ProviderNotFound(id), t);
      if f.TryingPeers? {
        PutAccounted(s2, QueryingDht(f.channel, id, f.startedAt), t);
        PutAccounted(s2, TryingPeers(f.channel, id, f.startedAt, Retained(f.pending, request), f.failed + 1, f.sent),
                     t);
      }
      hide Accounted, Put, Keyed;
    } else {
      hide Answered, Dropped;
    }
  }

  lemma ResponseAccounted(matches: (string, Bytes) -> bool, s: State, request: nat, data: Bytes, t: Ticket)
    requires Keyed(s) && AllHonest(matches, s.answers)
    ensures
      var s' := ResponseStep(matches, s, request, data).0;
      Keyed(s') && AllHonest(matches, s'.answers) && Accounted(s', t) == Accounted(s, t)
  {
    hide FailureStep, Accounted, Cleaned, Keyed;
    FailureAccounted(matches, s, request, t);
    RequestsDoNotCount(s, s.requests - {request}, t);
    if request in s.requests && s.requests[request] in s.active {
      var id := s.requests[request];
      KeyedAt(s, id);
      AnswerAccounted(s, id, Cleaned(s.requests - {request}, id), Fetched(data, id, |data|), t);
    }
  }

  lemma DiscoverAccounted(s: State, id: string, provider: string, connected: bool, now: nat, t: Ticket)
    requires Keyed(s)
    ensures
      var s' := DiscoverStep(s, id, provider, connected, now).0;
      Keyed(s') && s'.answers == s.answers && Accounted(s', t) == Accounted(s, t)
  {
    if id in s.active {
      var f := s.active[id];
      var s1 := s.(active := s.active - {id});
      TakeAccounted(s, id, s.requests, t);
      PutAccounted(s1, f, t);
      PutAccounted(s1, WaitingForProvider(f.channel, id, f.startedAt, provider,
                                          if connected then Some(now) else None), t);
    }
    hide Accounted, Put;
  }

  lemma SentAccounted(s: State, id: string, request: nat, t: Ticket)
    requires Keyed(s)
    ensures
      var s' := SentStep(s, id, request);
      Keyed(s') && s'.answers == s.answers && Accounted(s', t) == Accounted(s, t)
  {
    if id in s.active {
      var f := s.active[id];
      TakeAccounted(s, id, s.requests, t);
      TakeAccounted(s, id, s.requests[request := id], t);
      PutAccounted(s.(active := s.active - {id}), f, t);
      PutAccounted(s.(active := s.active - {id}, requests := s.requests[request := id]),
                   FetchingFromProvider(f.channel, id, f.startedAt, request), t);
    }
    hide Accounted, Put;
  }

  lemma {:induction false} ExpireAccounted(matches: (string, Bytes) -> bool, s: State, ids: seq<string>, t: Ticket)
    requires Keyed(s) && AllHonest(matches, s.answers)
    ensures
      var s' := ExpireAll(s, ids);
      Keyed(s') && AllHonest(matches, s'.answers) && Accounted(s', t) == Accounted(s, t)
  {
    if ids != [] {
      var before := ExpireAll(s, ids[..|ids| - 1]);
      var id := ids[|ids| - 1];
      ExpireAccounted(matches, s, ids[..|ids| - 1], t);
      if id in before.active {
        AnswerAccounted(before, id, Cleaned(before.requests, id), TimedOut, t);
      }
      hide Accounted, Cleaned;
    }
  }

  /** One event: the only thing that adds to the account is a ticket handed in. */
  lemma StepAccounted(matches: (string, Bytes) -> bool, s: State, a: Action, t: Ticket)
    requires Keyed(s) && AllHonest(matches, s.answers)
    ensures
      var s' := Step(matches, s, a);
      && Keyed(s') && AllHonest(matches, s'.answers)
      && Accounted(s', t) == Accounted(s, t) + if a.Start? && Ticket(a.channel, a.contentId) == t then 1 else 0
  {
    match a {
      case Start(id, channel, requests, now) =>
        var f := if requests == [] then QueryingDht(channel, id, now)
                 else TryingPeers(channel, id, now, requests, 0, |requests|);
        var s1 := if requests == [] then s else s.(requests := Mapped(s.requests, requests, id));
        PutAccounted(s1, f, t);
        assert Accounted(s1, t) == Accounted(s, t);
        hide Accounted, Mapped;
      case Response(request, data) => ResponseAccounted(matches, s, request, data, t);
      case Failure(request) => FailureAccounted(matches, s, request, t);
      case Discovered(id, provider, connected, now) => DiscoverAccounted(s, id, provider, connected, now, t);
      case PeerConnected(peer, now) => hide Answered, Dropped;
      case RequestSent(id, request) => SentAccounted(s, id, request, t);
      case Timeouts(_, overdue) => ExpireAccounted(matches, s, overdue, t);
    }
  }

  /** Conservation, over every run: each time a channel is handed in for an id, it is
      held by the fetch of that id, or has been answered, or was let go, and only one
      of these. And whatever was answered with bytes got the bytes of its own id. */
  lemma {:induction false} TicketsConserved(matches: (string, Bytes) -> bool, actions: seq<Action>, t: Ticket)
    ensures
      var s := Run(matches, actions);
      && Given(actions, t) == Held(s, t) + Answered(s.answers, t) + Dropped(s.dropped, t)
      && Keyed(s) && AllHonest(matches, s.answers)
  {
    if actions != [] {
      var n := |actions| - 1;
      TicketsConserved(matches, actions[..n], t);
      StepAccounted(matches, Run(matches, actions[..n]), actions[n], t);
      hide Step;
    }
  }

  // ---- nobody is let go but by a second start ----

  lemma {:induction false} ExpireDropsNone(s: State, ids: seq<string>)
    ensures ExpireAll(s, ids).dropped == s.dropped
  {
    if ids != [] {
      ExpireDropsNone(s, ids[..|ids| - 1]);
    }
  }

  /** A step lets go of a channel only by starting over an active fetch. */
  lemma StepDrops(matches: (string, Bytes) -> bool, s: State, a: Action)
    requires Keyed(s)
    ensures Step(matches, s, a).dropped
         == if a.Start? && a.contentId in s.active then s.dropped + [TicketOf(s.active[a.contentId])] else s.dropped
  {
    if a.Timeouts? {
      ExpireDropsNone(s, a.overdue);
    }
    hide ExpireAll, Mapped, Cleaned, Retained;
  }

  /** How often a fetch was started over while it held this ticket. */
  function StartedOver(matches: (string, Bytes) -> bool, actions: seq<Action>, t: Ticket): nat
  {
    if actions == [] then 0
    else
      var a := actions[|actions| - 1];
      var before := actions[..|actions| - 1];
      StartedOver(matches, before, t)
      + if a.Start? && a.contentId == t.contentId then Held(Run(matches, before), t) else 0
  }

  /** A channel is let go exactly when its own fetch is started over. */
  lemma {:induction false} DroppedExactly(matches: (string, Bytes) -> bool, actions: seq<Action>, t: Ticket)
    ensures Dropped(Run(matches, actions).dropped, t) == StartedOver(matches, actions, t)
  {
    if actions != [] {
      var n := |actions| - 1;
      var before, a := Run(matches, actions[..n]), actions[n];
      DroppedExactly(matches, actions[..n], t);
      TicketsConserved(matches, actions[..n], t);
      StepDrops(matches, before, a);
      if a.Start? && a.contentId in before.active {
        DroppedSnoc(before.dropped, TicketOf(before.active[a.contentId]), t);
      }
      hide Step, Dropped, Answered, Given;
    }
  }

  /** So, whatever happens to other ids: as often as a channel is handed in, it is
      answered, still held, or was started over, and while its own fetch is never
      started over it is answered or still held. */
  lemma AnsweredOnceOrHeld(matches: (string, Bytes) -> bool, actions: seq<Action>, t: Ticket)
    ensures
      var s := Run(matches, actions);
      Given(actions, t) == Held(s, t) + Answered(s.answers, t) + StartedOver(matches, actions, t)
  {
    TicketsConserved(matches, actions, t);
    DroppedExactly(matches, actions, t);
  }

  // ---- timeouts ----

  lemma {:induction false} ExpireClears(s: State, ids: seq<string>, id: string)
    ensures id in ExpireAll(s, ids).active <==> id in s.active && id !in ids
    ensures id in ExpireAll(s, ids).active ==> ExpireAll(s, ids).active[id] == s.active[id]
  {
    if ids != [] {
      var n := |ids| - 1;
      ExpireClears(s, ids[..n], id);
      assert ids == ids[..n] + [ids[n]];
    }
  }

  /** After the timeout check nothing overdue is left, nothing else was touched, and
      so no caller waits longer than the timeout past the next check. */
  lemma TimeoutsClear(s: State, timeout: nat, now: nat, ids: seq<string>, id: string)
    requires ListsOverdue(s.active, timeout, now, ids)
    ensures
      var s' := ExpireAll(s, ids);
      && (id in s'.active <==> id in s.active && !Overdue(s.active[id], timeout, now))
      && (id in s'.active ==> s'.active[id] == s.active[id])
  {
    ExpireClears(s, ids, id);
  }
}
