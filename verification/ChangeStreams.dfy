/** Change streams: one bounded journal per subscription, polled by cursor. Each
    locked region of the original is one step here; the clock and the set of
    subscriptions with a parked poll are inputs. */
module ChangeStreams {
  import opened Wrappers
  import ByteStrings

  datatype RecordInfo = RecordInfo(path: string, contentId: string, revision: string, createdAt: nat)

  datatype Refresh =
    | Loading
    | Updating(since: Option<nat>)
    | Ready(lastVerifiedAt: nat)
    | Stale(lastVerifiedAt: nat, reason: string)
    | Unavailable(reason: string)

  /** Records travel in path order, one per path, so a map stands for the list;
      likewise a set for the removed paths. */
  datatype Event =
    | Snapshot(cursor: string, identity: string, records: map<string, RecordInfo>, state: Refresh)
    | Changed(cursor: string, identity: string, records: map<string, RecordInfo>, removed: set<string>)
    | State(cursor: string, state: Refresh)
    | ResyncRequired
    | Cancelled
    | Revoked

  datatype Sequenced = Sequenced(sequence: nat, event: Event)

  datatype Stream = Stream(
    sessionId: string,
    identity: string,
    records: map<string, RecordInfo>,
    refresh: Refresh,
    sequence: nat,
    journal: seq<Sequenced>,
    lastPolledAt: nat)

  datatype Tombstone = Tombstone(sessionId: string, event: Event, expiresAt: nat)

  datatype Registry = Registry(active: map<string, Stream>, terminal: map<string, Tombstone>)

  /** What a stream server is configured with. */
  datatype Config = Config(generation: string, capacity: nat, idleTimeout: nat)

  // ---- cursors ----

  function Digit(n: nat): char
    requires n < 10
  {
    '0' + n as char
  }

  predicate Digits(s: string)
  {
    forall i :: 0 <= i < |s| ==> '0' <= s[i] <= '9'
  }

  /** The decimal text of a number. */
  function Decimal(n: nat): (s: string)
    ensures |s| > 0 && Digits(s)
  {
    if n < 10 then [Digit(n)] else Decimal(n / 10) + [Digit(n % 10)]
  }

  /** The number a string of digits spells. */
  function Value(s: string): nat
    requires Digits(s)
  {
    if s == [] then 0 else Value(s[..|s| - 1]) * 10 + (s[|s| - 1] as int - '0' as int)
  }

  /** `str::parse::<u64>`: digits, with an optional plus sign. */
  function ParseU64(s: string): (r: Option<nat>)
    ensures r.Some? ==> r.value < ByteStrings.U64_LIMIT
  {
    var digits := if |s| > 0 && s[0] == '+' then s[1..] else s;
    if digits == [] || !Digits(digits) then None
    else if Value(digits) < ByteStrings.U64_LIMIT then Some(Value(digits)) else None
  }

  function CursorText(generation: string, sequence: nat): string
  {
    generation + ":" + Decimal(sequence)
  }

  /** The position of the last colon, if any. */
  function LastColon(s: string): (r: Option<nat>)
    ensures r.Some? ==> r.value < |s| && s[r.value] == ':'
  {
    if s == [] then None
    else if s[|s| - 1] == ':' then Some(|s| - 1)
    else LastColon(s[..|s| - 1])
  }

  /** `parse_cursor`: the generation must be this server's. */
  function ParseCursor(generation: string, cursor: string): Option<nat>
  {
    var colon :- LastColon(cursor);
    if cursor[..colon] == generation then ParseU64(cursor[colon + 1..]) else None
  }

  lemma {:induction false} DecimalValue(n: nat)
    ensures Value(Decimal(n)) == n
  {
    if n < 10 {
      assert Decimal(n)[..0] == [];
    } else {
      DecimalValue(n / 10);
      assert Decimal(n)[..|Decimal(n)| - 1] == Decimal(n / 10);
    }
  }

  lemma {:induction false} LastColonAt(a: string, b: string)
    requires ':' !in b
    ensures LastColon(a + ":" + b) == Some(|a|)
  {
    var s := a + ":" + b;
    if b == [] {
      assert s[|s| - 1] == ':';
    } else {
      assert s[|s| - 1] == b[|b| - 1];
      assert s[..|s| - 1] == a + ":" + b[..|b| - 1];
      LastColonAt(a, b[..|b| - 1]);
    }
  }

  /** A cursor the server issued reads back as the sequence it was issued for,
      whatever the generation's text. */
  lemma CursorRoundTrip(generation: string, n: nat)
    requires n < ByteStrings.U64_LIMIT
    ensures ParseCursor(generation, CursorText(generation, n)) == Some(n)
  {
    var digits := Decimal(n);
    LastColonAt(generation, digits);
    var text := CursorText(generation, n);
    assert text[..|generation|] == generation;
    assert text[|generation| + 1..] == digits;
    DecimalValue(n);
  }

  // ---- pieces ----

  function ByPath(rs: seq<RecordInfo>): (m: map<string, RecordInfo>)
  {
    if rs == [] then map[] else ByPath(rs[..|rs| - 1])[rs[|rs| - 1].path := rs[|rs| - 1]]
  }

  /** The record is the last of the list for its path. */
  ghost predicate LastFor(rs: seq<RecordInfo>, p: string, r: RecordInfo)
  {
    exists i :: 0 <= i < |rs| && rs[i] == r && r.path == p && forall k :: i < k < |rs| ==> rs[k].path != p
  }

  /** The map holds the last record of the list for every path in it, and nothing else. */
  ghost predicate RecordsAre(m: map<string, RecordInfo>, rs: seq<RecordInfo>)
  {
    forall p ::
      && (p in m <==> exists i :: 0 <= i < |rs| && rs[i].path == p)
      && (p in m ==> LastFor(rs, p, m[p]))
  }

  lemma {:induction false} ByPathMeans(rs: seq<RecordInfo>)
    ensures RecordsAre(ByPath(rs), rs)
  {
    if rs != [] {
      var init, last := rs[..|rs| - 1], rs[|rs| - 1];
      ByPathMeans(init);
      forall p
        ensures p in ByPath(rs) <==> exists i :: 0 <= i < |rs| && rs[i].path == p
        ensures p in ByPath(rs) ==> LastFor(rs, p, ByPath(rs)[p])
      {
        ByPathNext(init, last, p);
        assert rs == init + [last];
      }
    }
  }

  lemma ByPathNext(init: seq<RecordInfo>, last: RecordInfo, p: string)
    requires RecordsAre(ByPath(init), init)
    ensures
      var rs, m := init + [last], ByPath(init)[last.path := last];
      && (p in m <==> exists i :: 0 <= i < |rs| && rs[i].path == p)
      && (p in m ==> LastFor(rs, p, m[p]))
  {
    hide ByPath;
    var rs, m := init + [last], ByPath(init)[last.path := last];
    if p == last.path {
      assert rs[|init|] == last;
      assert LastFor(rs, p, last);
    } else {
      if p in m {
        assert LastFor(init, p, m[p]);
        var i :| 0 <= i < |init| && init[i] == m[p] && m[p].path == p
                 && forall k :: i < k < |init| ==> init[k].path != p;
        assert rs[i] == m[p];
      }
      if i :| 0 <= i < |rs| && rs[i].path == p {
        assert i < |init| && init[i].path == p;
      }
    }
  }

  /** `refresh_transition_changed` */
  predicate RefreshChanged(previous: Refresh, next: Refresh)
  {
    match (previous, next)
    case (Loading, Loading) => false
    case (Updating(_), Updating(_)) => false
    case (Ready(_), Ready(_)) => false
    case (Stale(_, a), Stale(_, b)) => a != b
    case (Unavailable(a), Unavailable(b)) => a != b
    case (_, _) => true
  }

  function SnapshotOf(cfg: Config, s: Stream): Event
  {
    Snapshot(CursorText(cfg.generation, s.sequence), s.identity, s.records, s.refresh)
  }

  function NewStream(session: string, identity: string, records: seq<RecordInfo>, refresh: Refresh, now: nat): Stream
  {
    Stream(session, identity, ByPath(records), refresh, 0, [], now)
  }

  /** The last `capacity` entries of a journal. */
  function Trim(journal: seq<Sequenced>, capacity: nat): seq<Sequenced>
  {
    if |journal| > capacity then journal[|journal| - capacity..] else journal
  }

  /** `push_event` */
  function Push(cfg: Config, s: Stream, event: Event): Stream
  {
    s.(sequence := s.sequence + 1,
       journal := Trim(s.journal + [Sequenced(s.sequence + 1, event)], cfg.capacity))
  }

  function ChangedRecords(before: map<string, RecordInfo>, after: map<string, RecordInfo>): map<string, RecordInfo>
  {
    map p | p in after && (p !in before || before[p] != after[p]) :: after[p]
  }

  /** `publish_inner` on a stream of the publisher's session and identity. */
  function Published(cfg: Config, s: Stream, records: map<string, RecordInfo>, refresh: Refresh): Stream
  {
    var changed := ChangedRecords(s.records, records);
    var removed := s.records.Keys - records.Keys;
    var refreshChanged := RefreshChanged(s.refresh, refresh);
    var s1 := s.(records := records, refresh := refresh);
    var s2 :=
      if changed == map[] && removed == {} then s1
      else Push(cfg, s1, Changed(CursorText(cfg.generation, s1.sequence + 1), s.identity, changed, removed));
    if !refreshChanged then s2
    else
      var j := s2.journal;
      var s3 := if j != [] && j[|j| - 1].event.State? then s2.(journal := j[..|j| - 1]) else s2;
      Push(cfg, s3, State(CursorText(cfg.generation, s3.sequence + 1), refresh))
  }

  /** The first journal event after a sequence. */
  function NextAfter(journal: seq<Sequenced>, c: nat): Option<Event>
  {
    if journal == [] then None
    else if journal[0].sequence > c then Some(journal[0].event)
    else NextAfter(journal[1..], c)
  }

  /** Answer a poll on an existing stream: an event, or None to wait. */
  function Answer(cfg: Config, s: Stream, requested: Option<nat>): Option<Event>
  {
    if requested.None? then Some(SnapshotOf(cfg, s))
    else if requested.value > s.sequence then Some(ResyncRequired)
    else if s.journal != [] && requested.value + 1 < s.journal[0].sequence then Some(SnapshotOf(cfg, s))
    else NextAfter(s.journal, requested.value)
  }

  // ---- the steps ----

  /** One locked turn of `next_with_timeout`: None means the poll parks. */
  function PollStep(cfg: Config, reg: Registry, session: string, sub: string, identity: string,
                    records: seq<RecordInfo>, refresh: Refresh, cursor: Option<string>, now: nat)
    : (Registry, Option<Event>)
  {
    if cursor.Some? && ParseCursor(cfg.generation, cursor.value).None? then (reg, Some(ResyncRequired))
    else if sub in reg.terminal then
      (reg, Some(if reg.terminal[sub].sessionId == session then reg.terminal[sub].event else ResyncRequired))
    else
      var requested := if cursor.None? then None else ParseCursor(cfg.generation, cursor.value);
      var created := sub !in reg.active;
      var s := if created then NewStream(session, identity, records, refresh, now) else reg.active[sub];
      if s.sessionId != session || s.identity != identity then (reg, Some(ResyncRequired))
      else
        var s' := s.(lastPolledAt := now);
        (reg.(active := reg.active[sub := s']), Answer(cfg, s', if created then None else requested))
  }

  function PublishStep(cfg: Config, reg: Registry, session: string, sub: string, identity: string,
                       records: seq<RecordInfo>, refresh: Refresh, register: bool, now: nat): Registry
  {
    if sub in reg.terminal then reg
    else if sub !in reg.active then
      if register then reg.(active := reg.active[sub := NewStream(session, identity, records, refresh, now)]) else reg
    else
      var s := reg.active[sub];
      if s.sessionId != session || s.identity != identity then reg
      else reg.(active := reg.active[sub := Published(cfg, s, ByPath(records), refresh)])
  }

  function CancelStep(cfg: Config, reg: Registry, session: string, sub: string, now: nat): Registry
  {
    if sub !in reg.active || reg.active[sub].sessionId != session then reg
    else Registry(reg.active - {sub}, reg.terminal[sub := Tombstone(session, Cancelled, now + cfg.idleTimeout)])
  }

  function OwnedBy(reg: Registry, session: string): set<string>
  {
    set sub | sub in reg.active && reg.active[sub].sessionId == session
  }

  /** Replace some streams by tombstones of a session. */
  function Retire(cfg: Config, reg: Registry, session: string, subs: set<string>, now: nat): Registry
  {
    Registry(reg.active - subs,
             reg.terminal + map sub | sub in subs :: Tombstone(session, Revoked, now + cfg.idleTimeout))
  }

  function RevokeStep(cfg: Config, reg: Registry, session: string, now: nat): Registry
  {
    Retire(cfg, reg, session, OwnedBy(reg, session), now)
  }

  /** Not polled for less than the timeout, the clock difference saturating at zero. */
  predicate Recent(cfg: Config, lastPolledAt: nat, now: nat)
  {
    (if now >= lastPolledAt then now - lastPolledAt else 0) < cfg.idleTimeout
  }

  /** A stream goes when nobody waits on it and it has not been polled for the
      timeout; a tombstone goes when it expires. */
  function EvictStep(cfg: Config, reg: Registry, waiting: set<string>, now: nat): Registry
  {
    Registry(
      map sub | sub in reg.active
                && (sub in waiting || Recent(cfg, reg.active[sub].lastPolledAt, now)) :: reg.active[sub],
      map sub | sub in reg.terminal && reg.terminal[sub].expiresAt > now :: reg.terminal[sub])
  }

  lemma RetireNone(cfg: Config, reg: Registry, session: string, now: nat)
    ensures Retire(cfg, reg, session, {}, now) == reg
  {
  }

  lemma RetireOne(cfg: Config, reg: Registry, session: string, subs: set<string>, sub: string, now: nat)
    ensures
      var before := Retire(cfg, reg, session, subs, now);
      Retire(cfg, reg, session, subs + {sub}, now)
      == Registry(before.active - {sub},
                  before.terminal[sub := Tombstone(session, Revoked, now + cfg.idleTimeout)])
  {
    assert reg.active - (subs + {sub}) == reg.active - subs - {sub};
  }

  // ---- the server object ----

  class DataChangeStreams {
    const cfg: Config
    var active: map<string, Stream>
    var terminal: map<string, Tombstone>

    ghost function Contents(): Registry
      reads this
    {
      Registry(active, terminal)
    }

    /** The journal holds at least one event, whatever was asked for. */
    constructor (generation: string, capacity: nat, idleTimeout: nat)
      ensures cfg == Config(generation, if capacity < 1 then 1 else capacity, idleTimeout)
      ensures Contents() == Registry(map[], map[])
    {
      cfg := Config(generation, if capacity < 1 then 1 else capacity, idleTimeout);
      active := map[];
      terminal := map[];
    }

    /** The trimming loop of `push_event`. */
    method PushEvent(s: Stream, event: Event) returns (r: Stream)
      ensures r == Push(cfg, s, event)
    {
      var sequence := s.sequence + 1;
      var journal := s.journal + [Sequenced(sequence, event)];
      ghost var all := journal;
      while |journal| > cfg.capacity
        invariant |journal| <= |all| && journal == all[|all| - |journal|..]
        invariant |journal| >= cfg.capacity || journal == all
      {
        journal := journal[1..];
      }
      r := s.(sequence := sequence, journal := journal);
    }

    method Next(session: string, sub: string, identity: string, records: seq<RecordInfo>, refresh: Refresh,
                cursor: Option<string>, now: nat) returns (event: Option<Event>)
      modifies this
      ensures (Contents(), event) ==
              PollStep(cfg, old(Contents()), session, sub, identity, records, refresh, cursor, now)
      ensures sub !in old(active) && sub in active ==> RecordsAre(active[sub].records, records)
    {
      ByPathMeans(records);
      hide ByPath, RecordsAre;
      var requested: Option<nat> := None;
      if cursor.Some? {
        requested := ParseCursor(cfg.generation, cursor.value);
        if requested.None? {
          return Some(ResyncRequired);
        }
      }
      if sub in terminal {
        return Some(if terminal[sub].sessionId == session then terminal[sub].event else ResyncRequired);
      }
      var created := sub !in active;
      var s := if created then NewStream(session, identity, records, refresh, now) else active[sub];
      if s.sessionId != session || s.identity != identity {
        return Some(ResyncRequired);
      }
      s := s.(lastPolledAt := now);
      active := active[sub := s];
      if created || requested.None? {
        return Some(SnapshotOf(cfg, s));
      }
      if requested.value > s.sequence {
        return Some(ResyncRequired);
      }
      if s.journal != [] && requested.value + 1 < s.journal[0].sequence {
        return Some(SnapshotOf(cfg, s));
      }
      var i := 0;
      while i < |s.journal| && s.journal[i].sequence <= requested.value
        invariant 0 <= i <= |s.journal|
        invariant NextAfter(s.journal, requested.value) == NextAfter(s.journal[i..], requested.value)
      {
        i := i + 1;
      }
      event := if i < |s.journal| then Some(s.journal[i].event) else None;
    }

    /** The part of `publish_inner` that compares, updates and announces. */
    method Republish(s: Stream, records: seq<RecordInfo>, refresh: Refresh) returns (stream: Stream)
      ensures stream == Published(cfg, s, ByPath(records), refresh)
    {
      hide Push, ByPath, ChangedRecords, CursorText, RefreshChanged;
      var nextRecords := ByPath(records);
      var changed := ChangedRecords(s.records, nextRecords);
      var removed := s.records.Keys - nextRecords.Keys;
      var refreshChanged := RefreshChanged(s.refresh, refresh);
      stream := s.(records := nextRecords, refresh := refresh);
      if changed != map[] || removed != {} {
        stream := PushEvent(stream, Changed(CursorText(cfg.generation, stream.sequence + 1), s.identity, changed,
                                            removed));
      }
      if refreshChanged {
        var j := stream.journal;
        if j != [] && j[|j| - 1].event.State? {
          stream := stream.(journal := j[..|j| - 1]);
        }
        stream := PushEvent(stream, State(CursorText(cfg.generation, stream.sequence + 1), refresh));
      }
    }

    method Publish(session: string, sub: string, identity: string, records: seq<RecordInfo>, refresh: Refresh,
                   register: bool, now: nat)
      modifies this
      ensures Contents() == PublishStep(cfg, old(Contents()), session, sub, identity, records, refresh, register, now)
      ensures sub !in old(terminal)
              && (if sub in old(active)
                  then old(active)[sub].sessionId == session && old(active)[sub].identity == identity else register) ==>
        sub in active && RecordsAre(active[sub].records, records) && active[sub].refresh == refresh
    {
      ByPathMeans(records);
      hide ByPath, RecordsAre;
      if sub in terminal {
        return;
      }
      if sub !in active {
        if register {
          active := active[sub := NewStream(session, identity, records, refresh, now)];
        }
        return;
      }
      var s := active[sub];
      if s.sessionId != session || s.identity != identity {
        return;
      }
      s := Republish(s, records, refresh);
      active := active[sub := s];
    }

    method CancelSubscription(session: string, sub: string, now: nat)
      modifies this
      ensures Contents() == CancelStep(cfg, old(Contents()), session, sub, now)
    {
      if sub !in active {
        return;
      }
      if active[sub].sessionId != session {
        return;
      }
      active := active - {sub};
      terminal := terminal[sub := Tombstone(session, Cancelled, now + cfg.idleTimeout)];
    }

    method RevokeSession(session: string, now: nat)
      modifies this
      ensures Contents() == RevokeStep(cfg, old(Contents()), session, now)
    {
      var subs := set sub | sub in active && active[sub].sessionId == session;
      var todo := subs;
      RetireNone(cfg, Contents(), session, now);
      assert subs - todo == {};
      hide Retire;
      while todo != {}
        invariant todo <= subs
        invariant Contents() == Retire(cfg, old(Contents()), session, subs - todo, now)
        decreases todo
      {
        var sub :| sub in todo;
        RetireOne(cfg, old(Contents()), session, subs - todo, sub, now);
        assert subs - (todo - {sub}) == subs - todo + {sub};
        active := active - {sub};
        terminal := terminal[sub := Tombstone(session, Revoked, now + cfg.idleTimeout)];
        todo := todo - {sub};
      }
      assert subs - todo == OwnedBy(old(Contents()), session);
    }

    method EvictIdle(waiting: set<string>, now: nat)
      modifies this
      ensures Contents() == EvictStep(cfg, old(Contents()), waiting, now)
    {
      active := map sub | sub in active
                          && (sub in waiting || Recent(cfg, active[sub].lastPolledAt, now)) :: active[sub];
      terminal := map sub | sub in terminal && terminal[sub].expiresAt > now :: terminal[sub];
    }
  }
}
