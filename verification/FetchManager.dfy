/** In-flight fetches: each holds the reply channel of one caller until it answers.
    The clock, peers and digest checks are inputs. */
module FetchManager {
  import opened Wrappers
  import opened ByteStrings

  /** The state of a fetch; `channel` is where its caller waits. */
  datatype Fetch =
    | TryingPeers(channel: nat, contentId: string, startedAt: nat, pending: seq<nat>, failed: nat, sent: nat)
    | QueryingDht(channel: nat, contentId: string, startedAt: nat)
    | WaitingForProvider(channel: nat, contentId: string, startedAt: nat, provider: string, connectedAt: Option<nat>)
    | FetchingFromProvider(channel: nat, contentId: string, startedAt: nat, request: nat)

  datatype Reply =
    | Fetched(data: Bytes, contentId: string, size: nat)
    | ProviderNotFound(contentId: string)
    | TimedOut

  /** A channel given for a content id. */
  datatype Ticket = Ticket(channel: nat, contentId: string)

  datatype Answer = Answer(ticket: Ticket, reply: Reply)

  /** The manager, what it has sent, and the channels it has let go unanswered. */
  datatype State = State(
    active: map<string, Fetch>,
    requests: map<nat, string>,
    answers: seq<Answer>,
    dropped: seq<Ticket>)

  function TicketOf(f: Fetch): Ticket
  {
    Ticket(f.channel, f.contentId)
  }

  // ---- the transitions ----

  /** Remember what some requests are for. */
  function Mapped(requests: map<nat, string>, ids: seq<nat>, contentId: string): map<nat, string>
  {
    if ids == [] then requests else Mapped(requests, ids[..|ids| - 1], contentId)[ids[|ids| - 1] := contentId]
  }

  /** Forget the requests for a content id. */
  function Cleaned(requests: map<nat, string>, contentId: string): map<nat, string>
  {
    map r | r in requests && requests[r] != contentId :: requests[r]
  }

  /** Putting a fetch in place lets go of the channel of the one it replaces. */
  function Put(s: State, f: Fetch): State
  {
    var dropped := if f.contentId in s.active then s.dropped + [TicketOf(s.active[f.contentId])] else s.dropped;
    s.(active := s.active[f.contentId := f], dropped := dropped)
  }

  function StartStep(s: State, contentId: string, channel: nat, requests: seq<nat>, now: nat): State
  {
    if requests == [] then Put(s, QueryingDht(channel, contentId, now))
    else
      Put(s.(requests := Mapped(s.requests, requests, contentId)),
          TryingPeers(channel, contentId, now, requests, 0, |requests|))
  }

  function Retained(pending: seq<nat>, gone: nat): seq<nat>
  {
    if pending == [] then []
    else
      var last := pending[|pending| - 1];
      Retained(pending[..|pending| - 1], gone) + if last == gone then [] else [last]
  }

  function FailureStep(s: State, request: nat): (State, bool)
  {
    if request !in s.requests then (s, false)
    else
      var contentId := s.requests[request];
      var s1 := s.(requests := s.requests - {request});
      if contentId !in s.active then (s1, false)
      else
        var f := s.active[contentId];
        var s2 := s1.(active := s1.active - {contentId});
        match f
        case TryingPeers(channel, id, startedAt, pending, failed, sent) =>
          if failed + 1 >= sent then (Put(s2, QueryingDht(channel, id, startedAt)), true)
          else (Put(s2, TryingPeers(channel, id, startedAt, Retained(pending, request), failed + 1, sent)), true)
        case _ => (s2.(answers := s2.answers + [Answer(TicketOf(f), ProviderNotFound(f.contentId))]), true)
  }

  /** `matches` says whether bytes are the content of an id. */
  function ResponseStep(matches: (string, Bytes) -> bool, s: State, request: nat, data: Bytes): (State, Option<string>)
  {
    if request !in s.requests then (s, None)
    else
      var contentId := s.requests[request];
      if !matches(contentId, data) then (FailureStep(s, request).0, None)
      else
        var s1 := s.(requests := s.requests - {request});
        if contentId !in s.active then (s1, None)
        else
          var f := s.active[contentId];
          (s1.(active := s1.active - {contentId}, requests := Cleaned(s1.requests, contentId),
               answers := s1.answers + [Answer(TicketOf(f), Fetched(data, contentId, |data|))]),
           Some(contentId))
  }

  function DiscoverStep(s: State, contentId: string, provider: string, connected: bool, now: nat): (State, bool)
  {
    if contentId !in s.active then (s, false)
    else
      var f := s.active[contentId];
      var s1 := s.(active := s.active - {contentId});
      if f.QueryingDht? || f.TryingPeers? then
        (Put(s1, WaitingForProvider(f.channel, f.contentId, f.startedAt, provider,
                                    if connected then Some(now) else None)),
         true)
      else (Put(s1, f), false)
  }

  function Connected(f: Fetch, peer: string, now: nat): Fetch
  {
    if f.WaitingForProvider? && f.provider == peer && f.connectedAt.None? then f.(connectedAt := Some(now)) else f
  }

  function ConnectStep(s: State, peer: string, now: nat): State
  {
    s.(active := map id | id in s.active :: Connected(s.active[id], peer, now))
  }

  function SentStep(s: State, contentId: string, request: nat): State
  {
    if contentId !in s.active then s
    else
      var f := s.active[contentId];
      var s1 := s.(active := s.active - {contentId});
      if f.WaitingForProvider? then
        Put(s1.(requests := s1.requests[request := f.contentId]),
            FetchingFromProvider(f.channel, f.contentId, f.startedAt, request))
      else Put(s1, f)
  }

  predicate Overdue(f: Fetch, timeout: nat, now: nat)
  {
    now > f.startedAt && now - f.startedAt > timeout
  }

  function Expire(s: State, contentId: string): State
  {
    if contentId !in s.active then s
    else
      s.(active := s.active - {contentId}, requests := Cleaned(s.requests, contentId),
         answers := s.answers + [Answer(TicketOf(s.active[contentId]), TimedOut)])
  }

  function ExpireAll(s: State, ids: seq<string>): State
  {
    if ids == [] then s else Expire(ExpireAll(s, ids[..|ids| - 1]), ids[|ids| - 1])
  }

  /** The overdue fetches, in whatever order the table yields them. */
  ghost predicate ListsOverdue(active: map<string, Fetch>, timeout: nat, now: nat, ids: seq<string>)
  {
    && (forall id :: id in ids <==> id in active && Overdue(active[id], timeout, now))
    && (forall i, j :: 0 <= i < j < |ids| ==> ids[i] != ids[j])
  }

  // ---- the manager ----

  class Manager {
    var active: map<string, Fetch>
    var requests: map<nat, string>
    var answers: seq<Answer>
    var dropped: seq<Ticket>
    const timeout: nat

    ghost function Contents(): State
      reads this
    {
      State(active, requests, answers, dropped)
    }

    constructor (timeout: nat)
      ensures Contents() == State(map[], map[], [], []) && this.timeout == timeout
    {
      active, requests, answers, dropped := map[], map[], [], [];
      this.timeout := timeout;
    }

    /** `HashMap::insert` on the active table. */
    method Insert(f: Fetch)
      modifies this
      ensures Contents() == Put(old(Contents()), f)
    {
      if f.contentId in active {
        dropped := dropped + [TicketOf(active[f.contentId])];
      }
      active := active[f.contentId := f];
    }

    method StartFetch(contentId: string, channel: nat, requestIds: seq<nat>, now: nat)
      modifies this
      ensures Contents() == StartStep(old(Contents()), contentId, channel, requestIds, now)
    {
      if requestIds == [] {
        Insert(QueryingDht(channel, contentId, now));
        return;
      }
      var i := 0;
      while i < |requestIds|
        invariant 0 <= i <= |requestIds|
        invariant Contents() == old(Contents()).(requests := Mapped(old(requests), requestIds[..i], contentId))
      {
        assert requestIds[..i + 1][..i] == requestIds[..i];
        requests := requests[requestIds[i] := contentId];
        i := i + 1;
      }
      assert requestIds[..i] == requestIds;
      Insert(TryingPeers(channel, contentId, now, requestIds, 0, |requestIds|));
    }

    method OnContentResponse(matches: (string, Bytes) -> bool, request: nat, data: Bytes) returns (r: Option<string>)
      modifies this
      ensures (Contents(), r) == ResponseStep(matches, old(Contents()), request, data)
    {
      if request !in requests {
        return None;
      }
      var contentId := requests[request];
      if !matches(contentId, data) {
        var _ := OnRequestFailure(request);
        return None;
      }
      requests := requests - {request};
      if contentId !in active {
        return None;
      }
      var f := active[contentId];
      active := active - {contentId};
      requests := Cleaned(requests, contentId);
      answers := answers + [Answer(TicketOf(f), Fetched(data, contentId, |data|))];
      r := Some(contentId);
    }

    method OnRequestFailure(request: nat) returns (managed: bool)
      modifies this
      ensures (Contents(), managed) == FailureStep(old(Contents()), request)
    {
      if request !in requests {
        return false;
      }
      var contentId := requests[request];
      requests := requests - {request};
      if contentId !in active {
        return false;
      }
      var f := active[contentId];
      active := active - {contentId};
      match f {
        case TryingPeers(channel, id, startedAt, pending, failed, sent) =>
          if failed + 1 >= sent {
            Insert(QueryingDht(channel, id, startedAt));
          } else {
            Insert(TryingPeers(channel, id, startedAt, Retained(pending, request), failed + 1, sent));
          }
        case _ =>
          answers := answers + [Answer(TicketOf(f), ProviderNotFound(f.contentId))];
      }
      managed := true;
    }

    method OnProviderDiscovered(contentId: string, provider: string, connected: bool, now: nat) returns (r: bool)
      modifies this
      ensures (Contents(), r) == DiscoverStep(old(Contents()), contentId, provider, connected, now)
    {
      if contentId !in active {
        return false;
      }
      var f := active[contentId];
      active := active - {contentId};
      if f.QueryingDht? || f.TryingPeers? {
        Insert(WaitingForProvider(f.channel, f.contentId, f.startedAt, provider,
                                  if connected then Some(now) else None));
        return true;
      }
      Insert(f);
      r := false;
    }

    method OnPeerConnected(peer: string, now: nat)
      modifies this
      ensures Contents() == ConnectStep(old(Contents()), peer, now)
    {
      var todo := active.Keys;
      while todo != {}
        invariant todo <= active.Keys == old(active).Keys
        invariant requests == old(requests) && answers == old(answers) && dropped == old(dropped)
        invariant forall id :: id in active ==>
                    active[id] == if id in todo then old(active)[id] else Connected(old(active)[id], peer, now)
        decreases todo
      {
        var id :| id in todo;
        active := active[id := Connected(active[id], peer, now)];
        todo := todo - {id};
      }
    }

    method MarkRequestSent(contentId: string, request: nat)
      modifies this
      ensures Contents() == SentStep(old(Contents()), contentId, request)
    {
      if contentId !in active {
        return;
      }
      var f := active[contentId];
      active := active - {contentId};
      if f.WaitingForProvider? {
        requests := requests[request := f.contentId];
        Insert(FetchingFromProvider(f.channel, f.contentId, f.startedAt, request));
      } else {
        Insert(f);
      }
    }

    method ListOverdue(now: nat) returns (ids: seq<string>)
      ensures ListsOverdue(active, timeout, now, ids)
    {
      ids := [];
      var todo := active.Keys;
      while todo != {}
        invariant todo <= active.Keys
        invariant forall id :: id in ids <==> id in active && id !in todo && Overdue(active[id], timeout, now)
        invariant forall i, j :: 0 <= i < j < |ids| ==> ids[i] != ids[j]
        decreases todo
      {
        var id :| id in todo;
        if Overdue(active[id], timeout, now) {
          assert id !in ids;
          ids := ids + [id];
        }
        todo := todo - {id};
      }
    }

    method CheckTimeouts(now: nat) returns (ids: seq<string>)
      modifies this
      ensures ListsOverdue(old(active), timeout, now, ids)
      ensures Contents() == ExpireAll(old(Contents()), ids)
    {
      ids := ListOverdue(now);
      var i := 0;
      while i < |ids|
        invariant 0 <= i <= |ids|
        invariant Contents() == ExpireAll(old(Contents()), ids[..i])
      {
        assert ids[..i + 1][..i] == ids[..i];
        if ids[i] in active {
          answers := answers + [Answer(TicketOf(active[ids[i]]), TimedOut)];
          active := active - {ids[i]};
          requests := Cleaned(requests, ids[i]);
        }
        i := i + 1;
      }
      assert ids[..i] == ids;
    }
  }
}
