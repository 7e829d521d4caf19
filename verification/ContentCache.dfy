/** The content cache: a byte budget, least-recently-used eviction, and pinning.
    Hashing, files and the clock are inputs. */
module ContentCache {
  import opened Wrappers
  import opened ByteStrings
  import opened Totals

  datatype Entry = Entry(size: nat, cachedAt: nat, lastAccessed: nat, pinned: bool, publisherKey: Bytes,
                         signature: Bytes)

  /** Bytes to be cached, when, and with what to serve them again. */
  datatype Content = Content(data: Bytes, now: nat, publisherKey: Bytes, signature: Bytes)

  /** `files` holds what is on disk under the cache; not all of it need be indexed. */
  datatype Store = Store(
    published: set<string>,
    entries: map<string, Entry>,
    totalSize: nat,
    files: map<string, Bytes>)

  datatype Error = ContentMismatch(id: string) | ContentNotFound(id: string) | CacheFull | Io

  /** Which file operation of a call fails, if any, and what a failed write left. */
  datatype Fault = NoFault | EvictionIndex | ContentFile(left: Option<Bytes>) | FinalIndex

  ghost function Sizes(entries: map<string, Entry>): map<string, nat>
  {
    map id | id in entries :: entries[id].size
  }

  /** The recorded size is the size of what is cached. */
  ghost predicate Accounted(s: Store)
  {
    s.totalSize == Total(Sizes(s.entries))
  }

  function Evictable(entries: map<string, Entry>): map<string, Entry>
  {
    map id | id in entries && !entries[id].pinned :: entries[id]
  }

  // ---- the eviction order ----

  /** Every unpinned entry once, least recently used first; ties in any order. */
  ghost predicate Lru(entries: map<string, Entry>, order: seq<string>)
  {
    && (forall id :: id in order <==> id in Evictable(entries))
    && Ascending(entries, order)
  }

  ghost predicate Ascending(entries: map<string, Entry>, order: seq<string>)
  {
    && (forall i :: 0 <= i < |order| ==> order[i] in entries)
    && (forall i, j :: 0 <= i < j < |order| ==>
          order[i] != order[j] && entries[order[i]].lastAccessed <= entries[order[j]].lastAccessed)
  }

  function SizeOf(entries: map<string, Entry>, ids: seq<string>): nat
    requires forall i :: 0 <= i < |ids| ==> ids[i] in entries
  {
    if ids == [] then 0 else entries[ids[0]].size + SizeOf(entries, ids[1..])
  }

  /** The entries taken, in order, until enough is freed. */
  function Taken(entries: map<string, Entry>, order: seq<string>, needed: int): (r: seq<string>)
    requires forall i :: 0 <= i < |order| ==> order[i] in entries
    ensures |r| <= |order| && r == order[..|r|]
  {
    if needed <= 0 || order == [] then []
    else
      var rest := Taken(entries, order[1..], needed - entries[order[0]].size);
      assert [order[0]] + rest == order[..|rest| + 1];
      [order[0]] + rest
  }

  function Ids(order: seq<string>): set<string>
  {
    set id | id in order
  }

  /** What `evict_if_needed` may do; `full` is its error. */
  ghost predicate Evicts(max: nat, s: Store, required: nat, s': Store, full: bool)
  {
    if s.totalSize + required <= max then s' == s && !full
    else
      exists order :: Lru(s.entries, order) && EvictsBy(max, s, required, s', full, order)
  }

  /** What stays indexed stays on disk; files of evicted entries go if they can be removed. */
  ghost predicate SameFiles(s: Store, s': Store)
  {
    forall id :: id in s'.entries && id in s.files ==> id in s'.files && s'.files[id] == s.files[id]
  }

  ghost predicate EvictsBy(max: nat, s: Store, required: nat, s': Store, full: bool, order: seq<string>)
    requires Lru(s.entries, order)
  {
    var needed := s.totalSize + required - max;
    var out := Taken(s.entries, order, needed);
    if SizeOf(s.entries, out) < needed then s' == s && full
    else
      && !full
      && s'.entries == s.entries - Ids(out)
      && s'.published == s.published
      && SameFiles(s, s')
      && s'.totalSize == s.totalSize - SizeOf(s.entries, out)
  }

  // ---- what eviction achieves ----

  /** The taken entries free enough, or they are all there are; and one fewer would
      not have been enough. */
  lemma {:induction false} TakenIsShortest(entries: map<string, Entry>, order: seq<string>, needed: int)
    requires forall i :: 0 <= i < |order| ==> order[i] in entries
    ensures
      var out := Taken(entries, order, needed);
      && (SizeOf(entries, out) < needed ==> out == order)
      && (forall n: nat :: n < |out| ==> SizeOf(entries, order[..n]) < needed)
  {
    if needed > 0 && order != [] {
      var size := entries[order[0]].size;
      var rest := Taken(entries, order[1..], needed - size);
      TakenIsShortest(entries, order[1..], needed - size);
      var out := Taken(entries, order, needed);
      assert out[1..] == rest;
      forall n: nat | n < |out| ensures SizeOf(entries, order[..n]) < needed {
        if n > 0 {
          assert order[..n][1..] == order[1..][..n - 1];
        }
      }
    }
  }

  lemma SizesWithout(entries: map<string, Entry>, gone: set<string>)
    ensures Sizes(entries - gone) == Sizes(entries) - gone
  {
  }

  /** Removing listed entries takes exactly their sizes off the sum. */
  lemma {:induction false} TotalWithout(entries: map<string, Entry>, ids: seq<string>)
    requires forall i :: 0 <= i < |ids| ==> ids[i] in entries
    requires forall i, j :: 0 <= i < j < |ids| ==> ids[i] != ids[j]
    ensures Total(Sizes(entries)) == SizeOf(entries, ids) + Total(Sizes(entries - Ids(ids)))
    decreases |ids|
  {
    if ids == [] {
      assert entries - Ids(ids) == entries;
    } else {
      var first, rest := ids[0], ids[1..];
      var smaller := entries - {first};
      TotalRemove(Sizes(entries), first);
      SizesWithout(entries, {first});
      TotalWithout(smaller, rest);
      SameSizes(entries, smaller, rest);
      assert smaller - Ids(rest) == entries - Ids(ids);
    }
  }

  lemma {:induction false} SameSizes(a: map<string, Entry>, b: map<string, Entry>, ids: seq<string>)
    requires forall i :: 0 <= i < |ids| ==> ids[i] in a && ids[i] in b && a[ids[i]] == b[ids[i]]
    ensures SizeOf(a, ids) == SizeOf(b, ids)
  {
    if ids != [] {
      SameSizes(a, b, ids[1..]);
    }
  }

  /** Everything that may be evicted, in any order, has the same total size. */
  lemma LruSize(entries: map<string, Entry>, order: seq<string>)
    requires Lru(entries, order)
    ensures SizeOf(entries, order) == Total(Sizes(Evictable(entries)))
  {
    var loose := Evictable(entries);
    assert forall i :: 0 <= i < |order| ==> order[i] in order;
    TotalWithout(loose, order);
    SameSizes(entries, loose, order);
    assert loose - Ids(order) == map[];
    assert Sizes(loose - Ids(order)) == map[];
  }

  /** Eviction fails exactly when the unpinned entries together are too small, and
      then changes nothing. */
  lemma FullMeans(max: nat, s: Store, required: nat, s': Store, full: bool)
    requires Accounted(s) && Evicts(max, s, required, s', full)
    ensures full <==> s.totalSize + required > max
                      && Total(Sizes(Evictable(s.entries))) < s.totalSize + required - max
    ensures full ==> s' == s
  {
    hide Accounted, Lru, Taken, SizeOf, Sizes, Evictable;
    if s.totalSize + required > max {
      var order :| Lru(s.entries, order) && EvictsBy(max, s, required, s', full, order);
      AllTooSmall(s.entries, order, s.totalSize + required - max);
    }
  }

  /** What is taken is too small exactly when all there is to take is. */
  lemma AllTooSmall(entries: map<string, Entry>, order: seq<string>, needed: int)
    requires Lru(entries, order)
    ensures SizeOf(entries, Taken(entries, order, needed)) < needed <==> Total(Sizes(Evictable(entries))) < needed
  {
    hide Sizes, Evictable;
    LruSize(entries, order);
    TakenIsShortest(entries, order, needed);
    var out := Taken(entries, order, needed);
    SizeOfPrefix(entries, order, |out|);
  }

  lemma {:induction false} SizeOfPrefix(entries: map<string, Entry>, ids: seq<string>, n: nat)
    requires n <= |ids|
    requires forall i :: 0 <= i < |ids| ==> ids[i] in entries
    ensures SizeOf(entries, ids[..n]) <= SizeOf(entries, ids)
  {
    if n > 0 {
      assert ids[..n][1..] == ids[1..][..n - 1];
      SizeOfPrefix(entries, ids[1..], n - 1);
    }
  }

  lemma PrefixIsOlder(entries: map<string, Entry>, order: seq<string>, n: nat, gone: string, kept: string)
    requires Lru(entries, order) && n <= |order|
    requires gone in order[..n] && kept in order && kept !in order[..n]
    ensures gone in entries && kept in entries
    ensures entries[gone].lastAccessed <= entries[kept].lastAccessed
  {
    var i :| 0 <= i < n && order[..n][i] == gone;
    var j :| 0 <= j < |order| && order[j] == kept;
    assert forall k :: 0 <= k < n ==> order[..n][k] == order[k];
    assert i < j;
  }

  lemma PinnedNotListed(entries: map<string, Entry>, order: seq<string>, n: nat, id: string)
    requires Lru(entries, order) && n <= |order| && id in entries && entries[id].pinned
    ensures id !in order[..n]
  {
    assert id !in Evictable(entries);
  }

  /** A successful eviction makes room, keeps the sizes accounted for, and keeps every
      pinned entry; whatever went was used no later than whatever unpinned stayed. */
  lemma EvictionMeans(max: nat, s: Store, required: nat, s': Store)
    requires Accounted(s) && Evicts(max, s, required, s', false)
    ensures Accounted(s') && s'.totalSize + required <= max
    ensures s'.published == s.published && SameFiles(s, s')
    ensures forall id :: id in s'.entries ==> id in s.entries && s'.entries[id] == s.entries[id]
    ensures forall id :: id in s.entries && s.entries[id].pinned ==> id in s'.entries
    ensures forall gone, kept :: gone in s.entries && gone !in s'.entries && kept in Evictable(s'.entries) ==>
              s.entries[gone].lastAccessed <= s.entries[kept].lastAccessed
  {
    if s.totalSize + required > max {
      var order :| Lru(s.entries, order) && EvictsBy(max, s, required, s', false, order);
      var needed := s.totalSize + required - max;
      var out := Taken(s.entries, order, needed);
      TotalWithout(s.entries, out);
      forall gone, kept | gone in s.entries && gone !in s'.entries && kept in Evictable(s'.entries)
        ensures s.entries[gone].lastAccessed <= s.entries[kept].lastAccessed
      {
        assert kept in Evictable(s.entries) && kept !in out;
        PrefixIsOlder(s.entries, order, |out|, gone, kept);
      }
      forall id | id in s.entries && s.entries[id].pinned ensures id in s'.entries {
        PinnedNotListed(s.entries, order, |out|, id);
      }
    }
  }

  /** No shorter run of the order would have made room. */
  lemma EvictionIsLeast(max: nat, s: Store, required: nat, s': Store)
    requires Accounted(s) && Evicts(max, s, required, s', false)
    requires s.totalSize + required > max
    ensures exists order, n :: Lru(s.entries, order) && 0 < n <= |order|
              && s'.entries == s.entries - Ids(order[..n])
              && forall m :: 0 <= m < n ==> Total(Sizes(s.entries - Ids(order[..m]))) + required > max
  {
    var order :| Lru(s.entries, order) && EvictsBy(max, s, required, s', false, order);
    var needed := s.totalSize + required - max;
    TakenIsShortest(s.entries, order, needed);
    var out := Taken(s.entries, order, needed);
    var n := |out|;
    assert n > 0;
    forall m | 0 <= m < n ensures Total(Sizes(s.entries - Ids(order[..m]))) + required > max {
      TotalWithout(s.entries, order[..m]);
    }
    assert s'.entries == s.entries - Ids(order[..n]);
  }

  // ---- the operations ----

  predicate Has(s: Store, id: string)
  {
    id in s.published || id in s.entries
  }

  function EntryOf(c: Content): Entry
  {
    Entry(|c.data|, c.now, c.now, false, c.publisherKey, c.signature)
  }

  function Inserted(s: Store, id: string, c: Content): Store
  {
    s.(entries := s.entries[id := EntryOf(c)], totalSize := s.totalSize + |c.data|, files := s.files[id := c.data])
  }

  /** What follows a successful eviction. */
  ghost predicate Finishes(max: nat, s: Store, mid: Store, id: string, c: Content, fault: Fault, s': Store,
                           r: Result<(), Error>)
  {
    if fault == EvictionIndex && s.totalSize + |c.data| > max then s' == mid && r == Err(Io)
    else if fault.ContentFile? then
      s' == (if fault.left.Some? then mid.(files := mid.files[id := fault.left.value]) else mid) && r == Err(Io)
    else s' == Inserted(mid, id, c) && r == (if fault == FinalIndex then Err(Io) else Ok(()))
  }

  /** `cache_content`; `matches` says whether bytes hash to an id. */
  ghost predicate Caches(matches: (string, Bytes) -> bool, max: nat, s: Store, id: string, c: Content, fault: Fault,
                         s': Store, r: Result<(), Error>)
  {
    if !matches(id, c.data) then s' == s && r == Err(ContentMismatch(id))
    else if Has(s, id) then s' == s && r == Ok(())
    else
      || (Evicts(max, s, |c.data|, s, true) && s' == s && r == Err(CacheFull))
      || (exists mid :: Evicts(max, s, |c.data|, mid, false) && Finishes(max, s, mid, id, c, fault, s', r))
  }

  function SetPinned(s: Store, id: string, pinned: bool): Store
  {
    if id in s.entries then s.(entries := s.entries[id := s.entries[id].(pinned := pinned)]) else s
  }

  datatype Hit = FromPublished | FromCache(data: Bytes) | Miss

  /** `get_content`, given which of the files can be read. */
  function Got(s: Store, id: string, published: bool, cached: bool, now: nat): (Store, Hit)
  {
    if id in s.published && published then (s, FromPublished)
    else if id in s.entries && id in s.files && cached then
      (s.(entries := s.entries[id := s.entries[id].(lastAccessed := now)]), FromCache(s.files[id]))
    else (s, Miss)
  }

  /** A successful insertion of something new ends within the budget with the entry
      in place, everything pinned kept, and the budget accounted for. */
  lemma InsertionMeans(matches: (string, Bytes) -> bool, max: nat, s: Store, id: string, c: Content, s': Store)
    requires Accounted(s) && !Has(s, id)
    requires Caches(matches, max, s, id, c, NoFault, s', Ok(()))
    ensures Accounted(s') && s'.totalSize <= max
    ensures matches(id, c.data) && id in s'.entries
    ensures s'.entries[id] == Entry(|c.data|, c.now, c.now, false, c.publisherKey, c.signature)
    ensures id in s'.files && s'.files[id] == c.data
    ensures forall k :: k in s.entries && s.entries[k].pinned ==> k in s'.entries && s'.entries[k] == s.entries[k]
    ensures forall gone, kept :: gone in s.entries && gone !in s'.entries && kept in Evictable(s'.entries - {id}) ==>
              s.entries[gone].lastAccessed <= s.entries[kept].lastAccessed
  {
    var mid :| Evicts(max, s, |c.data|, mid, false) && Finishes(max, s, mid, id, c, NoFault, s', Ok(()));
    EvictionMeans(max, s, |c.data|, mid);
    InsertedAccounted(mid, id, c);
    hide Evicts, Accounted;
  }

  /** What caching may answer: bytes of another id are refused and what is already held
      is left alone; anything new is refused as too much exactly when the unpinned
      entries are too small to make room, and is otherwise cached. */
  lemma CachingMeans(matches: (string, Bytes) -> bool, max: nat, s: Store, id: string, c: Content, s': Store,
                     r: Result<(), Error>)
    requires Accounted(s) && Caches(matches, max, s, id, c, NoFault, s', r)
    ensures !matches(id, c.data) ==> s' == s && r == Err(ContentMismatch(id))
    ensures matches(id, c.data) && (id in s.published || id in s.entries) ==> s' == s && r == Ok(())
    ensures matches(id, c.data) && id !in s.published && id !in s.entries ==>
      var full := s.totalSize + |c.data| > max
                  && Total(Sizes(Evictable(s.entries))) < s.totalSize + |c.data| - max;
      if full then s' == s && r == Err(CacheFull) else r == Ok(()) && id in s'.entries
  {
    if matches(id, c.data) && id !in s.published && id !in s.entries {
      if Evicts(max, s, |c.data|, s, true) { FullMeans(max, s, |c.data|, s, true); }
      if mid :| Evicts(max, s, |c.data|, mid, false) && Finishes(max, s, mid, id, c, NoFault, s', r) {
        FullMeans(max, s, |c.data|, mid, false);
      }
      hide Evicts, Accounted;
    }
  }

  /** A failed file operation of an insertion is always reported. */
  lemma FaultsReported(matches: (string, Bytes) -> bool, max: nat, s: Store, id: string, c: Content, fault: Fault,
                       s': Store, r: Result<(), Error>)
    requires Accounted(s) && Caches(matches, max, s, id, c, fault, s', r)
    requires matches(id, c.data) && id !in s.published && id !in s.entries
    requires fault.ContentFile? || fault == FinalIndex || (fault == EvictionIndex && s.totalSize + |c.data| > max)
    ensures r == Err(Io) || r == Err(CacheFull)
    ensures r == Err(Io) && fault != FinalIndex ==> id !in s'.entries
  {
    hide Accounted, Evicts;
    if mid :| Evicts(max, s, |c.data|, mid, false) && Finishes(max, s, mid, id, c, fault, s', r) {
      EvictionMeans(max, s, |c.data|, mid);
    }
  }

  /** Reading: published content comes first and changes nothing; a cached read notes
      the time of use, which decides what goes next; nothing else changes. */
  lemma ReadingMeans(s: Store, id: string, published: bool, cached: bool, now: nat)
    ensures
      var (s', hit) := Got(s, id, published, cached, now);
      && (id in s.published && published ==> s' == s && hit == FromPublished)
      && (!(id in s.published && published) && id in s.entries && id in s.files && cached ==>
            && hit == FromCache(s.files[id])
            && s'.entries.Keys == s.entries.Keys && s'.entries[id] == s.entries[id].(lastAccessed := now)
            && s'.entries - {id} == s.entries - {id}
            && s' == s.(entries := s'.entries))
      && (!(id in s.published && published) && !(id in s.entries && id in s.files && cached) ==> s' == s && hit == Miss)
  {
  }

  /** Pinning and unpinning set the one mark. */
  lemma PinningMeans(s: Store, id: string, pinned: bool)
    ensures
      var s' := SetPinned(s, id, pinned);
      && s'.entries.Keys == s.entries.Keys && s'.entries - {id} == s.entries - {id} && s' == s.(entries := s'.entries)
      && (id in s.entries ==> s'.entries[id] == s.entries[id].(pinned := pinned))
  {
  }

  lemma RemoveAccounted(s: Store, id: string)
    requires Accounted(s) && id in s.entries
    ensures s.totalSize >= s.entries[id].size
    ensures Accounted(s.(entries := s.entries - {id}, totalSize := s.totalSize - s.entries[id].size))
  {
    TotalRemove(Sizes(s.entries), id);
    SizesWithout(s.entries, {id});
  }

  lemma FilesDoNotCount(s: Store, files: map<string, Bytes>)
    ensures Accounted(s.(files := files)) <==> Accounted(s)
  {
  }

  lemma InsertedAccounted(s: Store, id: string, c: Content)
    requires Accounted(s) && id !in s.entries
    ensures Accounted(Inserted(s, id, c))
  {
    TotalPut(Sizes(s.entries), id, |c.data|);
    assert Sizes(s.entries[id := EntryOf(c)]) == Sizes(s.entries)[id := |c.data|];
  }

  // ---- runs ----

  datatype Action =
    | Cache(id: string, content: Content, fault: Fault)
    | Get(id: string, published: bool, cached: bool, now: nat)
    | Pin(id: string)
    | Unpin(id: string)
    | Publish(id: string)

  ghost predicate Next(matches: (string, Bytes) -> bool, max: nat, s: Store, a: Action, s': Store)
  {
    match a
    case Cache(id, content, fault) => exists r :: Caches(matches, max, s, id, content, fault, s', r)
    case Get(id, published, cached, now) => s' == Got(s, id, published, cached, now).0
    case Pin(id) => s' == SetPinned(s, id, true)
    case Unpin(id) => s' == SetPinned(s, id, false)
    case Publish(id) => s' == s.(published := s.published + {id})
  }

  /** A run from an empty cache; what was published before does not matter. */
  ghost predicate IsRun(matches: (string, Bytes) -> bool, max: nat, states: seq<Store>, actions: seq<Action>)
  {
    && |states| == |actions| + 1
    && states[0].entries == map[] && states[0].totalSize == 0
    && forall i :: 0 <= i < |actions| ==> Next(matches, max, states[i], actions[i], states[i + 1])
  }

  lemma TouchAccounted(s: Store, id: string, e: Entry)
    requires Accounted(s) && id in s.entries && e.size == s.entries[id].size
    ensures Accounted(s.(entries := s.entries[id := e]))
  {
    assert Sizes(s.entries[id := e]) == Sizes(s.entries);
  }

  /** Every pinned entry of one store is a pinned entry of the other. */
  ghost predicate PinsKept(s: Store, s': Store)
  {
    forall id :: id in s.entries && s.entries[id].pinned ==>
      id in s'.entries && s'.entries[id].pinned && s'.entries[id].size == s.entries[id].size
  }

  lemma FinishKeeps(max: nat, s: Store, mid: Store, id: string, c: Content, fault: Fault, s': Store,
                    r: Result<(), Error>)
    requires Accounted(mid) && mid.totalSize + |c.data| <= max && id !in mid.entries
    requires Finishes(max, s, mid, id, c, fault, s', r)
    ensures Accounted(s') && s'.totalSize <= max && PinsKept(mid, s')
  {
    hide Accounted;
    InsertedAccounted(mid, id, c);
    if fault.ContentFile? && fault.left.Some? {
      FilesDoNotCount(mid, mid.files[id := fault.left.value]);
    }
  }

  lemma CacheKeeps(matches: (string, Bytes) -> bool, max: nat, s: Store, id: string, c: Content, fault: Fault,
                   s': Store, r: Result<(), Error>)
    requires Accounted(s) && s.totalSize <= max && Caches(matches, max, s, id, c, fault, s', r)
    ensures Accounted(s') && s'.totalSize <= max && PinsKept(s, s')
  {
    if s' != s {
      var mid :| Evicts(max, s, |c.data|, mid, false) && Finishes(max, s, mid, id, c, fault, s', r);
      hide Accounted, Evicts, Finishes, SameFiles;
      EvictionMeans(max, s, |c.data|, mid);
      FinishKeeps(max, s, mid, id, c, fault, s', r);
    }
  }

  lemma NextKeeps(matches: (string, Bytes) -> bool, max: nat, s: Store, a: Action, s': Store)
    requires Accounted(s) && s.totalSize <= max && Next(matches, max, s, a, s')
    ensures Accounted(s') && s'.totalSize <= max
    ensures forall id :: id in s.entries && s.entries[id].pinned && a != Unpin(id) ==>
              id in s'.entries && s'.entries[id].pinned && s'.entries[id].size == s.entries[id].size
  {
    match a {
      case Cache(id, c, fault) =>
        hide Caches, Accounted;
        var r :| Caches(matches, max, s, id, c, fault, s', r);
        CacheKeeps(matches, max, s, id, c, fault, s', r);
      case Get(id, published, cached, now) =>
        if id in s.entries {
          TouchAccounted(s, id, s.entries[id].(lastAccessed := now));
        }
        hide Accounted;
      case Pin(id) =>
        if id in s.entries {
          TouchAccounted(s, id, s.entries[id].(pinned := true));
        }
        hide Accounted;
      case Unpin(id) =>
        if id in s.entries {
          TouchAccounted(s, id, s.entries[id].(pinned := false));
        }
        hide Accounted;
      case Publish(id) =>
    }
  }

  /** In every run the recorded size is the sum of the cached sizes and never exceeds
      the budget. */
  lemma {:induction false} RunAccounted(matches: (string, Bytes) -> bool, max: nat, states: seq<Store>,
                                        actions: seq<Action>, n: nat)
    requires IsRun(matches, max, states, actions) && n < |states|
    ensures Accounted(states[n]) && states[n].totalSize <= max
  {
    if n > 0 {
      RunAccounted(matches, max, states, actions, n - 1);
      NextKeeps(matches, max, states[n - 1], actions[n - 1], states[n]);
    } else {
      assert Sizes(states[0].entries) == map[];
    }
  }

  /** Everything indexed is on disk, whole, and is what its id says. */
  ghost predicate Sealed(matches: (string, Bytes) -> bool, s: Store)
  {
    forall id :: id in s.entries ==> SealedAt(matches, s, id)
  }

  ghost predicate SealedAt(matches: (string, Bytes) -> bool, s: Store, id: string)
    requires id in s.entries
  {
    id in s.files && matches(id, s.files[id]) && |s.files[id]| == s.entries[id].size
  }

  lemma EvictionSealed(matches: (string, Bytes) -> bool, max: nat, s: Store, required: nat, s': Store)
    requires Accounted(s) && Sealed(matches, s) && Evicts(max, s, required, s', false)
    ensures Sealed(matches, s')
  {
    EvictionMeans(max, s, required, s');
    hide Evicts, Accounted;
    forall id | id in s'.entries ensures SealedAt(matches, s', id) {
      assert SealedAt(matches, s, id);
    }
  }

  lemma FinishSealed(matches: (string, Bytes) -> bool, max: nat, s: Store, mid: Store, id: string, c: Content,
                     fault: Fault, s': Store, r: Result<(), Error>)
    requires Sealed(matches, mid) && matches(id, c.data) && id !in mid.entries
    requires Finishes(max, s, mid, id, c, fault, s', r)
    ensures Sealed(matches, s')
  {
    forall k | k in s'.entries ensures SealedAt(matches, s', k) {
      if k != id {
        assert SealedAt(matches, mid, k);
      }
    }
  }

  lemma CacheSealed(matches: (string, Bytes) -> bool, max: nat, s: Store, id: string, c: Content, fault: Fault,
                    s': Store, r: Result<(), Error>)
    requires Accounted(s) && Sealed(matches, s) && Caches(matches, max, s, id, c, fault, s', r)
    ensures Sealed(matches, s')
  {
    if s' != s {
      var mid :| Evicts(max, s, |c.data|, mid, false) && Finishes(max, s, mid, id, c, fault, s', r);
      hide Accounted, Sealed, Finishes, Evicts, SameFiles;
      EvictionSealed(matches, max, s, |c.data|, mid);
      EvictionMeans(max, s, |c.data|, mid);
      FinishSealed(matches, max, s, mid, id, c, fault, s', r);
    }
  }

  lemma NextSealed(matches: (string, Bytes) -> bool, max: nat, s: Store, a: Action, s': Store)
    requires Accounted(s) && Sealed(matches, s) && Next(matches, max, s, a, s')
    ensures Sealed(matches, s')
  {
    hide Accounted, Caches;
    if a.Cache? {
      var r :| Caches(matches, max, s, a.id, a.content, a.fault, s', r);
      CacheSealed(matches, max, s, a.id, a.content, a.fault, s', r);
    } else {
      forall id | id in s'.entries ensures SealedAt(matches, s', id) {
        assert SealedAt(matches, s, id);
      }
    }
  }

  /** In every run whatever is indexed is on disk and hashes to its id, through evictions
      whose files stay behind, failed writes and failed index writes. */
  lemma {:induction false} RunSealed(matches: (string, Bytes) -> bool, max: nat, states: seq<Store>,
                                     actions: seq<Action>, n: nat)
    requires IsRun(matches, max, states, actions) && n < |states|
    ensures Sealed(matches, states[n])
  {
    if n > 0 {
      RunAccounted(matches, max, states, actions, n - 1);
      RunSealed(matches, max, states, actions, n - 1);
      NextSealed(matches, max, states[n - 1], actions[n - 1], states[n]);
    }
  }

  /** So reading from the cache never gives bytes that are not the id's, and a cached id
      whose file can be read is never missed. */
  lemma ReadsMatch(matches: (string, Bytes) -> bool, max: nat, states: seq<Store>, actions: seq<Action>, n: nat,
                   id: string, published: bool, now: nat)
    requires IsRun(matches, max, states, actions) && n < |states|
    ensures
      var hit := Got(states[n], id, published, true, now).1;
      && (hit.FromCache? ==> matches(id, hit.data))
      && (id in states[n].entries ==> !hit.Miss?)
  {
    RunSealed(matches, max, states, actions, n);
    hide IsRun;
    assert id in states[n].entries ==> SealedAt(matches, states[n], id);
  }

  /** A pinned entry stays, whatever else is cached, until it is unpinned. */
  lemma {:induction false} PinnedStays(matches: (string, Bytes) -> bool, max: nat, states: seq<Store>,
                                       actions: seq<Action>, i: nat, j: nat, id: string)
    requires IsRun(matches, max, states, actions) && i <= j < |states|
    requires id in states[i].entries && states[i].entries[id].pinned
    requires forall k :: i <= k < j ==> actions[k] != Unpin(id)
    ensures id in states[j].entries && states[j].entries[id].pinned
    ensures states[j].entries[id].size == states[i].entries[id].size
    decreases j
  {
    if i < j {
      PinnedStays(matches, max, states, actions, i, j - 1, id);
      RunAccounted(matches, max, states, actions, j - 1);
      NextKeeps(matches, max, states[j - 1], actions[j - 1], states[j]);
    }
  }

  // ---- the store ----

  class ContentStore {
    var published: set<string>
    var entries: map<string, Entry>
    var totalSize: nat
    var files: map<string, Bytes>
    const max: nat

    ghost function Contents(): Store
      reads this
    {
      Store(published, entries, totalSize, files)
    }

    ghost predicate Valid()
      reads this
    {
      Accounted(Contents())
    }

    constructor (max: nat)
      ensures Valid() && Contents() == Store({}, map[], 0, map[]) && this.max == max
    {
      published, entries, totalSize, files := {}, map[], 0, map[];
      this.max := max;
      new;
      assert Sizes(entries) == map[];
    }

    /** The unpinned ids in whatever order the table yields them. */
    method ListEvictable() returns (ids: seq<string>)
      ensures forall id :: id in ids <==> id in Evictable(entries)
      ensures forall i, j :: 0 <= i < j < |ids| ==> ids[i] != ids[j]
    {
      ids := [];
      var todo := entries.Keys;
      while todo != {}
        invariant todo <= entries.Keys
        invariant forall id :: id in ids <==> id in Evictable(entries) && id !in todo
        invariant forall i, j :: 0 <= i < j < |ids| ==> ids[i] != ids[j]
        decreases todo
      {
        var id :| id in todo;
        if !entries[id].pinned {
          assert id !in ids;
          ids := ids + [id];
        }
        todo := todo - {id};
      }
    }

    /** Sort by time of last use, by insertion. */
    method SortByAccess(ids: seq<string>) returns (order: seq<string>)
      requires forall i :: 0 <= i < |ids| ==> ids[i] in entries
      requires forall i, j :: 0 <= i < j < |ids| ==> ids[i] != ids[j]
      ensures Ascending(entries, order)
      ensures forall id :: id in order <==> id in ids
    {
      order := [];
      var i := 0;
      while i < |ids|
        invariant 0 <= i <= |ids|
        invariant Ascending(entries, order)
        invariant forall id :: id in order <==> id in ids[..i]
      {
        var id := ids[i];
        assert id !in ids[..i];
        var at := 0;
        while at < |order| && entries[order[at]].lastAccessed <= entries[id].lastAccessed
          invariant 0 <= at <= |order|
          invariant forall k :: 0 <= k < at ==> entries[order[k]].lastAccessed <= entries[id].lastAccessed
        {
          at := at + 1;
        }
        InsertAscending(entries, order, id, at);
        order := order[..at] + [id] + order[at..];
        assert ids[..i + 1] == ids[..i] + [id];
        i := i + 1;
      }
      assert ids[..i] == ids;
    }

    /** Go through the order until enough would be freed. */
    method Choose(order: seq<string>, needed: nat) returns (out: seq<string>, freed: nat)
      requires forall i :: 0 <= i < |order| ==> order[i] in entries
      ensures out == Taken(entries, order, needed) && freed == SizeOf(entries, out)
    {
      hide Taken, SizeOf;
      var n := 0;
      freed := 0;
      assert order[0..] == order && order[..0] == [];
      NoneTaken(entries, [], 0);
      while n < |order| && freed < needed
        invariant 0 <= n <= |order|
        invariant freed == SizeOf(entries, order[..n])
        invariant Taken(entries, order, needed) == order[..n] + Taken(entries, order[n..], needed - freed)
      {
        SizeOfSnoc(entries, order, n);
        TakenStep(entries, order, n, needed - freed);
        freed := freed + entries[order[n]].size;
        n := n + 1;
      }
      NoneTaken(entries, order[n..], needed - freed);
      assert order[..n] + [] == order[..n];
      out := order[..n];
    }

    method EvictIfNeeded(required: nat, stuck: set<string>) returns (full: bool)
      requires Valid()
      modifies this
      ensures Evicts(max, old(Contents()), required, Contents(), full)
    {
      hide Taken, SizeOf, Accounted, Evictable;
      if totalSize + required <= max {
        return false;
      }
      var needed := totalSize + required - max;
      var ids := ListEvictable();
      EvictableIn(entries, ids);
      var order := SortByAccess(ids);
      assert Lru(entries, order);
      var out, freed := Choose(order, needed);
      if freed < needed {
        assert EvictsBy(max, Contents(), required, Contents(), true, order);
        return true;
      }
      Remove(out, stuck);
      assert EvictsBy(max, old(Contents()), required, Contents(), false, order);
      full := false;
    }

    /** Take the listed entries out one by one; a file that cannot be removed stays. */
    method Remove(ids: seq<string>, stuck: set<string>)
      requires Valid()
      requires forall i :: 0 <= i < |ids| ==> ids[i] in entries
      requires forall i, j :: 0 <= i < j < |ids| ==> ids[i] != ids[j]
      modifies this
      ensures Valid() && published == old(published)
      ensures entries == old(entries) - Ids(ids)
      ensures totalSize == old(totalSize) - SizeOf(old(entries), ids)
      ensures files == old(files) - (Ids(ids) - stuck)
    {
      hide Accounted;
      assert SizeOf(entries, ids[..0]) == 0;
      hide SizeOf;
      var n := 0;
      ghost var before := entries;
      assert entries == before - Ids(ids[..0]);
      while n < |ids|
        invariant 0 <= n <= |ids| && Valid() && published == old(published)
        invariant entries == before - Ids(ids[..n])
        invariant totalSize == old(totalSize) - SizeOf(before, ids[..n])
        invariant files == old(files) - (Ids(ids[..n]) - stuck)
      {
        var id := ids[n];
        SizeOfSnoc(before, ids, n);
        assert Ids(ids[..n + 1]) == Ids(ids[..n]) + {id};
        RemoveAccounted(Contents(), id);
        totalSize := totalSize - entries[id].size;
        entries := entries - {id};
        ghost var rest := Contents();
        if id !in stuck {
          files := files - {id};
        }
        FilesDoNotCount(rest, files);
        n := n + 1;
      }
      assert ids[..n] == ids;
    }

    method CacheContent(matches: (string, Bytes) -> bool, id: string, c: Content, fault: Fault, stuck: set<string>)
      returns (r: Result<(), Error>)
      requires Valid()
      modifies this
      ensures Valid()
      ensures Caches(matches, max, old(Contents()), id, c, fault, Contents(), r)
    {
      hide Evicts, Accounted, Sizes, Evictable;
      if !matches(id, c.data) {
        return Err(ContentMismatch(id));
      }
      if id in published || id in entries {
        return Ok(());
      }
      ghost var s := Contents();
      var evicting := totalSize + |c.data| > max;
      var full := EvictIfNeeded(|c.data|, stuck);
      FullMeans(max, s, |c.data|, Contents(), full);
      if full {
        return Err(CacheFull);
      }
      ghost var mid := Contents();
      EvictionMeans(max, s, |c.data|, mid);
      InsertedAccounted(mid, id, c);
      if fault == EvictionIndex && evicting {
        assert Finishes(max, s, mid, id, c, fault, mid, Err(Io));
        return Err(Io);
      }
      if fault.ContentFile? {
        if fault.left.Some? {
          files := files[id := fault.left.value];
        }
        FilesDoNotCount(mid, files);
        assert Finishes(max, s, mid, id, c, fault, Contents(), Err(Io));
        return Err(Io);
      }
      files := files[id := c.data];
      totalSize := totalSize + |c.data|;
      entries := entries[id := EntryOf(c)];
      r := if fault == FinalIndex then Err(Io) else Ok(());
      assert Finishes(max, s, mid, id, c, fault, Contents(), r);
    }

    method GetContent(id: string, publishedReadable: bool, cachedReadable: bool, now: nat) returns (hit: Hit)
      requires Valid()
      modifies this
      ensures Valid()
      ensures (Contents(), hit) == Got(old(Contents()), id, publishedReadable, cachedReadable, now)
    {
      if id in published && publishedReadable {
        return FromPublished;
      }
      if id in entries && id in files && cachedReadable {
        TouchAccounted(Contents(), id, entries[id].(lastAccessed := now));
        entries := entries[id := entries[id].(lastAccessed := now)];
        return FromCache(files[id]);
      }
      hit := Miss;
    }

    /** `pin` and `unpin` */
    method Pinning(id: string, pinned: bool, saved: bool) returns (r: Result<(), Error>)
      requires Valid()
      modifies this
      ensures Valid() && Contents() == SetPinned(old(Contents()), id, pinned)
      ensures r == (if id !in old(entries) then Err(ContentNotFound(id)) else if saved then Ok(()) else Err(Io))
    {
      if id !in entries {
        return Err(ContentNotFound(id));
      }
      TouchAccounted(Contents(), id, entries[id].(pinned := pinned));
      entries := entries[id := entries[id].(pinned := pinned)];
      r := if saved then Ok(()) else Err(Io);
    }
  }

  lemma EvictableIn(entries: map<string, Entry>, ids: seq<string>)
    requires forall id :: id in ids <==> id in Evictable(entries)
    ensures forall i :: 0 <= i < |ids| ==> ids[i] in entries
  {
    assert forall i :: 0 <= i < |ids| ==> ids[i] in ids;
  }

  lemma NoneTaken(entries: map<string, Entry>, order: seq<string>, needed: int)
    requires forall i :: 0 <= i < |order| ==> order[i] in entries
    ensures needed <= 0 || order == [] ==> Taken(entries, order, needed) == []
    ensures SizeOf(entries, []) == 0
  {
  }

  lemma TakenStep(entries: map<string, Entry>, order: seq<string>, n: nat, needed: int)
    requires n < |order| && needed > 0
    requires forall i :: 0 <= i < |order| ==> order[i] in entries
    ensures order[..n] + Taken(entries, order[n..], needed)
         == order[..n + 1] + Taken(entries, order[n + 1..], needed - entries[order[n]].size)
  {
    assert order[n..][1..] == order[n + 1..];
    var rest := Taken(entries, order[n + 1..], needed - entries[order[n]].size);
    assert Taken(entries, order[n..], needed) == [order[n]] + rest;
    hide Taken;
    assert order[..n + 1] == order[..n] + [order[n]];
  }

  lemma InsertAscending(entries: map<string, Entry>, order: seq<string>, id: string, at: nat)
    requires Ascending(entries, order) && at <= |order| && id in entries && id !in order
    requires forall k :: 0 <= k < at ==> entries[order[k]].lastAccessed <= entries[id].lastAccessed
    requires at < |order| ==> entries[id].lastAccessed < entries[order[at]].lastAccessed
    ensures Ascending(entries, order[..at] + [id] + order[at..])
    ensures forall x :: x in order[..at] + [id] + order[at..] <==> x in order || x == id
  {
    var longer := order[..at] + [id] + order[at..];
    assert order == order[..at] + order[at..];
    forall i | 0 <= i < |longer| ensures longer[i] in entries {
      InsertedAt(order, id, at, i);
    }
    forall i, j | 0 <= i < j < |longer|
      ensures longer[i] != longer[j] && entries[longer[i]].lastAccessed <= entries[longer[j]].lastAccessed
    {
      InsertedAt(order, id, at, i);
      InsertedAt(order, id, at, j);
      if i == at {
        assert entries[order[at]].lastAccessed <= entries[order[j - 1]].lastAccessed;
      }
    }
  }

  lemma InsertedAt(order: seq<string>, id: string, at: nat, i: nat)
    requires at <= |order| && i <= |order|
    ensures (order[..at] + [id] + order[at..])[i]
         == if i < at then order[i] else if i == at then id else order[i - 1]
  {
  }

  lemma {:induction false} SizeOfSnoc(entries: map<string, Entry>, ids: seq<string>, n: nat)
    requires n < |ids|
    requires forall i :: 0 <= i < |ids| ==> ids[i] in entries
    ensures SizeOf(entries, ids[..n + 1]) == SizeOf(entries, ids[..n]) + entries[ids[n]].size
  {
    if n > 0 {
      assert ids[..n + 1][1..] == ids[1..][..n];
      assert ids[..n][1..] == ids[1..][..n - 1];
      SizeOfSnoc(entries, ids[1..], n - 1);
    } else {
      assert ids[..1][1..] == [];
    }
  }
}
