/** How a fetch comes to its answer: through the peers asked first, or through a
    provider found later. */
module FetchOutcomes {
  import opened Wrappers
  import opened ByteStrings
  import opened FetchManager
  import opened FetchRuns

  // ---- peers ----

  lemma {:induction false} MappedMeans(requests: map<nat, string>, ids: seq<nat>, contentId: string, r: nat)
    ensures r in Mapped(requests, ids, contentId) <==> r in requests || r in ids
    ensures r in ids ==> Mapped(requests, ids, contentId)[r] == contentId
    ensures r in requests && r !in ids ==> Mapped(requests, ids, contentId)[r] == requests[r]
  {
    if ids != [] {
      var n := |ids| - 1;
      MappedMeans(requests, ids[..n], contentId, r);
      assert ids == ids[..n] + [ids[n]];
    }
  }

  /** The first matching response answers the caller with its bytes, and every request
      of that fetch is then a stranger: what comes back on the others changes nothing. */
  lemma FirstAnswerWins(matches: (string, Bytes) -> bool, s: State, contentId: string, channel: nat,
                        requests: seq<nat>, now: nat, r: nat, data: Bytes, late: nat, other: Bytes)
    requires contentId !in s.active && r in requests && late in requests && matches(contentId, data)
    ensures
      var started := StartStep(s, contentId, channel, requests, now);
      var (done, which) := ResponseStep(matches, started, r, data);
      && which == Some(contentId) && contentId !in done.active
      && done.answers == s.answers + [Answer(Ticket(channel, contentId), Fetched(data, contentId, |data|))]
      && done.active == s.active && done.dropped == s.dropped
      && ResponseStep(matches, done, late, other) == (done, None)
      && FailureStep(done, late) == (done, false)
  {
    MappedMeans(s.requests, requests, contentId, r);
    MappedMeans(s.requests, requests, contentId, late);
    hide Mapped;
    var started := StartStep(s, contentId, channel, requests, now);
    assert started.active - {contentId} == s.active;
  }

  /** The requests fail one after another. */
  function FailAll(s: State, requests: seq<nat>): State
  {
    if requests == [] then s else FailureStep(FailAll(s, requests[..|requests| - 1]), requests[|requests| - 1]).0
  }

  ghost predicate DistinctIds(ids: seq<nat>)
  {
    forall i, j :: 0 <= i < j < |ids| ==> ids[i] != ids[j]
  }

  /** After the first `n` requests have failed the fetch still tries the others, and
      after the last it waits for a provider; its caller is held throughout. */
  lemma {:induction false} PeersFail(s: State, contentId: string, channel: nat, requests: seq<nat>, now: nat, n: nat)
    requires contentId !in s.active && requests != [] && DistinctIds(requests) && n <= |requests|
    ensures
      var after := FailAll(StartStep(s, contentId, channel, requests, now), requests[..n]);
      && contentId in after.active && TicketOf(after.active[contentId]) == Ticket(channel, contentId)
      && after.active[contentId].startedAt == now
      && after.active - {contentId} == s.active && after.answers == s.answers && after.dropped == s.dropped
      && (forall k :: n <= k < |requests| ==> requests[k] in after.requests && after.requests[requests[k]] == contentId)
      && (if n < |requests| then
            after.active[contentId] == TryingPeers(channel, contentId, now, requests[n..], n, |requests|)
          else after.active[contentId] == QueryingDht(channel, contentId, now))
  {
    var started := StartStep(s, contentId, channel, requests, now);
    if n == 0 {
      assert requests[..0] == [];
      forall k | 0 <= k < |requests|
        ensures requests[k] in started.requests && started.requests[requests[k]] == contentId
      {
        MappedMeans(s.requests, requests, contentId, requests[k]);
      }
      hide Mapped;
      assert started.active - {contentId} == s.active;
    } else {
      PeersFail(s, contentId, channel, requests, now, n - 1);
      assert requests[..n][..n - 1] == requests[..n - 1];
      var before := FailAll(started, requests[..n - 1]);
      FailOne(before, contentId, requests[n - 1]);
      RetainedRest(requests, n - 1);
      hide FailAll, StartStep, FailureStep;
    }
  }

  lemma {:induction false} RetainedAll(pending: seq<nat>, gone: nat)
    requires gone !in pending
    ensures Retained(pending, gone) == pending
  {
    if pending != [] {
      RetainedAll(pending[..|pending| - 1], gone);
      assert pending == pending[..|pending| - 1] + [pending[|pending| - 1]];
    }
  }

  lemma {:induction false} RetainedJoin(a: seq<nat>, b: seq<nat>, gone: nat)
    ensures Retained(a + b, gone) == Retained(a, gone) + Retained(b, gone)
  {
    if b == [] {
      assert a + b == a;
    } else {
      var n := |b| - 1;
      RetainedJoin(a, b[..n], gone);
      assert (a + b)[..|a + b| - 1] == a + b[..n];
    }
  }

  /** When a request fails, exactly it is no longer waited for. */
  lemma RetainedRest(requests: seq<nat>, n: nat)
    requires DistinctIds(requests) && n < |requests|
    ensures Retained(requests[n..], requests[n]) == requests[n + 1..]
  {
    var rest := requests[n + 1..];
    assert requests[n..] == [requests[n]] + rest;
    RetainedJoin([requests[n]], rest, requests[n]);
    RetainedAll(rest, requests[n]);
    assert [requests[n]][..0] == [];
  }

  /** One failed request of a fetch that is trying peers. */
  lemma FailOne(s: State, contentId: string, r: nat)
    requires contentId in s.active && s.active[contentId].TryingPeers? && s.active[contentId].contentId == contentId
    requires r in s.requests && s.requests[r] == contentId
    ensures
      var f, after := s.active[contentId], FailureStep(s, r).0;
      && contentId in after.active && TicketOf(after.active[contentId]) == TicketOf(f)
      && after.active - {contentId} == s.active - {contentId}
      && after.answers == s.answers && after.dropped == s.dropped && after.requests == s.requests - {r}
      && (if f.failed + 1 < f.sent then
            after.active[contentId] ==
            TryingPeers(f.channel, contentId, f.startedAt, Retained(f.pending, r), f.failed + 1, f.sent)
          else after.active[contentId] == QueryingDht(f.channel, contentId, f.startedAt))
  {
    hide Retained;
  }

  // ---- providers ----

  predicate Unprovided(f: Fetch)
  {
    f.QueryingDht? || f.TryingPeers?
  }

  /** A provider is found, connects, and is asked. */
  function Asked(s: State, contentId: string, provider: string, connected: bool, t1: nat, t2: nat, request: nat): State
  {
    SentStep(ConnectStep(DiscoverStep(s, contentId, provider, connected, t1).0, provider, t2), contentId, request)
  }

  /** A fetch without a provider that is then found and asked holds its caller all the
      while, and the other fetches keep theirs. */
  lemma AskedHolds(s: State, contentId: string, provider: string, connected: bool, t1: nat, t2: nat, request: nat)
    requires Keyed(s) && contentId in s.active && Unprovided(s.active[contentId])
    ensures
      var f, asked := s.active[contentId], Asked(s, contentId, provider, connected, t1, t2, request);
      && contentId in asked.active
      && asked.active[contentId] == FetchingFromProvider(f.channel, contentId, f.startedAt, request)
      && asked.requests == s.requests[request := contentId]
      && asked.answers == s.answers && asked.dropped == s.dropped
      && asked.active.Keys == s.active.Keys
      && forall id :: id in s.active && id != contentId ==> TicketOf(asked.active[id]) == TicketOf(s.active[id])
  {
  }

  /** The provider's answer reaches the caller: its bytes if they match, and otherwise,
      or when the request fails, that no provider was found. Either way the fetch is
      over and the caller has exactly one answer more. */
  lemma ProviderAnswers(matches: (string, Bytes) -> bool, s: State, contentId: string, provider: string,
                        connected: bool, t1: nat, t2: nat, request: nat, data: Bytes)
    requires Keyed(s) && contentId in s.active && Unprovided(s.active[contentId])
    ensures
      var asked := Asked(s, contentId, provider, connected, t1, t2, request);
      var t := TicketOf(s.active[contentId]);
      var good := Answer(t, Fetched(data, contentId, |data|));
      var bad := Answer(t, ProviderNotFound(contentId));
      var after := ResponseStep(matches, asked, request, data).0;
      && contentId !in after.active
      && after.answers == s.answers + [if matches(contentId, data) then good else bad]
      && FailureStep(asked, request).0.answers == s.answers + [bad]
      && contentId !in FailureStep(asked, request).0.active
  {
    AskedHolds(s, contentId, provider, connected, t1, t2, request);
    hide Asked, Keyed;
  }

  /** A fetch that already has a provider keeps it: another found provider changes
      nothing, and nor does marking a request as sent for a fetch that waits for none. */
  lemma ProviderStays(s: State, contentId: string, provider: string, connected: bool, now: nat, request: nat)
    requires Keyed(s)
    ensures contentId in s.active && !Unprovided(s.active[contentId]) ==>
              DiscoverStep(s, contentId, provider, connected, now) == (s, false)
    ensures contentId in s.active && !s.active[contentId].WaitingForProvider? ==> SentStep(s, contentId, request) == s
  {
    if contentId in s.active {
      assert (s.active - {contentId})[contentId := s.active[contentId]] == s.active;
    }
  }

  // ---- each event, in fields ----

  /** A fetch starts with the peers asked, or without any with the provider search; the
      requests are remembered as its own. */
  lemma StartMeans(s: State, contentId: string, channel: nat, requests: seq<nat>, now: nat)
    ensures
      var after := StartStep(s, contentId, channel, requests, now);
      && contentId in after.active && after.active - {contentId} == s.active - {contentId} && after.answers == s.answers
      && after.active[contentId] == (if requests == [] then QueryingDht(channel, contentId, now)
                                     else TryingPeers(channel, contentId, now, requests, 0, |requests|))
      && (forall r :: r in after.requests <==> r in s.requests || r in requests)
      && (forall r :: r in requests ==> after.requests[r] == contentId)
      && forall r :: r in s.requests && r !in requests ==> after.requests[r] == s.requests[r]
  {
    hide Mapped;
    forall r
      ensures r in Mapped(s.requests, requests, contentId) <==> r in s.requests || r in requests
      ensures r in requests ==> Mapped(s.requests, requests, contentId)[r] == contentId
      ensures r in s.requests && r !in requests ==> Mapped(s.requests, requests, contentId)[r] == s.requests[r]
    {
      MappedMeans(s.requests, requests, contentId, r);
    }
  }

  /** A found provider is waited for, connected or not, by a fetch that has none. */
  lemma DiscoverMeans(s: State, contentId: string, provider: string, connected: bool, now: nat)
    requires Keyed(s) && contentId in s.active && Unprovided(s.active[contentId])
    ensures
      var (after, taken) := DiscoverStep(s, contentId, provider, connected, now);
      var f := s.active[contentId];
      && taken && contentId in after.active && after.active - {contentId} == s.active - {contentId}
      && after.active[contentId] == WaitingForProvider(f.channel, contentId, f.startedAt, provider,
                                                       if connected then Some(now) else None)
      && after.requests == s.requests && after.answers == s.answers && after.dropped == s.dropped
  {
  }

  /** A connection is noted once, by the fetches that wait for that peer. */
  lemma ConnectMeans(s: State, peer: string, now: nat, id: string)
    requires id in s.active
    ensures
      var f, after := s.active[id], ConnectStep(s, peer, now);
      && after.active.Keys == s.active.Keys && after == s.(active := after.active)
      && after.active[id] ==
         (if f.WaitingForProvider? && f.provider == peer && f.connectedAt == None
          then WaitingForProvider(f.channel, f.contentId, f.startedAt, peer, Some(now)) else f)
  {
  }

  /** Bytes that do not match count as a failed request. */
  lemma MismatchIsFailure(matches: (string, Bytes) -> bool, s: State, request: nat, data: Bytes)
    requires request in s.requests && !matches(s.requests[request], data)
    ensures ResponseStep(matches, s, request, data) == (FailureStep(s, request).0, None)
  {
  }

  // ---- timeouts ----

  /** The fetches in the list that are still there, answered as timed out, in order. */
  ghost predicate TimedOutAnswers(s: State, ids: seq<string>, answers: seq<Answer>)
  {
    && |answers| == |ids|
    && forall i :: 0 <= i < |ids| ==> ids[i] in s.active && answers[i] == Answer(TicketOf(s.active[ids[i]]), TimedOut)
  }

  ghost predicate Distinct(ids: seq<string>)
  {
    forall i, j :: 0 <= i < j < |ids| ==> ids[i] != ids[j]
  }

  lemma {:induction false} ExpireMeans(s: State, ids: seq<string>)
    requires Distinct(ids) && forall id :: id in ids ==> id in s.active
    ensures
      var after := ExpireAll(s, ids);
      && (forall id :: id in after.active <==> id in s.active && id !in ids)
      && (forall id :: id in after.active ==> after.active[id] == s.active[id])
      && (forall r :: r in after.requests <==> r in s.requests && s.requests[r] !in ids)
      && (forall r :: r in after.requests ==> after.requests[r] == s.requests[r])
      && |after.answers| >= |s.answers| && after.answers[..|s.answers|] == s.answers
      && TimedOutAnswers(s, ids, after.answers[|s.answers|..])
  {
    if ids != [] {
      var n := |ids| - 1;
      assert ids == ids[..n] + [ids[n]];
      assert ids[n] !in ids[..n];
      ExpireMeans(s, ids[..n]);
      ExpireOne(s, ids[..n], ids[n], ExpireAll(s, ids[..n]));
    }
  }

  lemma ExpireOne(s: State, ids: seq<string>, id: string, mid: State)
    requires id !in ids && id in s.active && id in mid.active && mid.active[id] == s.active[id]
    requires |mid.answers| >= |s.answers| && mid.answers[..|s.answers|] == s.answers
    requires TimedOutAnswers(s, ids, mid.answers[|s.answers|..])
    ensures
      var after := Expire(mid, id);
      && after.answers[..|s.answers|] == s.answers
      && TimedOutAnswers(s, ids + [id], after.answers[|s.answers|..])
  {
    var after := Expire(mid, id);
    assert after.answers[|s.answers|..] == mid.answers[|s.answers|..] + [Answer(TicketOf(s.active[id]), TimedOut)];
  }

  /** A sweep ends exactly the fetches older than the timeout: each caller is told so
      once, and what still comes back on their requests finds nobody. */
  lemma TimeoutsMean(s: State, timeout: nat, now: nat, ids: seq<string>)
    requires ListsOverdue(s.active, timeout, now, ids)
    ensures
      var after := ExpireAll(s, ids);
      && (forall id :: id in s.active ==> (id in ids <==> now > s.active[id].startedAt + timeout))
      && (forall id :: id in after.active <==> id in s.active && now <= s.active[id].startedAt + timeout)
      && (forall r :: r in after.requests <==> r in s.requests && s.requests[r] !in ids)
      && |after.answers| == |s.answers| + |ids| && after.answers[..|s.answers|] == s.answers
      && TimedOutAnswers(s, ids, after.answers[|s.answers|..])
  {
    ExpireMeans(s, ids);
    hide ExpireAll;
  }
}
