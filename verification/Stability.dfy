/**
 The snapshot maps of internal/streaming/servers_stability.go: last-good lists
 per provider, whole-list snapshots, and eviction at capacity.  Lists are
 values here; that the cache never shares one with its callers is in ServerClone.
 */
module Stability {
  import opened Prelude
  import opened ServerLists

  const SERVER_LIST_STABILITY_TTL := 90 * SECOND
  const INCOMPLETE_SERVER_LIST_TTL := 5 * SECOND
  const MAX_SERVER_LIST_SNAPSHOTS := 256
  const MAX_PROVIDER_SNAPSHOTS := 2048

  datatype RequestKey = RequestKey(animeID: int, episode: int, lang: string, hentai: bool)
  datatype ProviderKey = ProviderKey(request: RequestKey, provider: string)

  /** A provider snapshot has no expiry time of its own; a list snapshot always has one. */
  datatype Snapshot = Snapshot(servers: seq<Server>, storedAt: int, expires: Option<int>)

  type Providers = map<ProviderKey, Snapshot>
  type Lists = map<RequestKey, Snapshot>

  // ----- eviction -----

  ghost predicate Oldest<K>(entries: map<K, Snapshot>, key: K) {
    key in entries && forall k | k in entries :: entries[key].storedAt <= entries[k].storedAt
  }

  /** One of the oldest entries is gone; an empty map stays empty. */
  ghost predicate OldestRemoved<K(!new)>(before: map<K, Snapshot>, after: map<K, Snapshot>) {
    if before == map[] then after == before else exists k :: Oldest(before, k) && after == before - {k}
  }

  ghost predicate Evicted<K(!new)>(before: map<K, Snapshot>, capacity: nat, after: map<K, Snapshot>) {
    if |before| >= capacity then OldestRemoved(before, after) else after == before
  }

  /** removeOldestServerSnapshot and removeOldestProviderSnapshot, for any order of the map. */
  method RemoveOldest<K(==,!new)>(entries: map<K, Snapshot>) returns (r: map<K, Snapshot>)
    ensures OldestRemoved(entries, r)
  {
    var todo, oldestKey: Option<K>, oldest := entries.Keys, None, 0;
    while todo != {}
      invariant todo <= entries.Keys
      invariant oldestKey.None? <==> todo == entries.Keys
      invariant oldestKey.Some? ==> oldestKey.value in entries && entries[oldestKey.value].storedAt == oldest
      invariant oldestKey.Some? ==> forall k | k in entries && k !in todo :: oldest <= entries[k].storedAt
    {
      var key :| key in todo;
      if oldestKey.None? || entries[key].storedAt < oldest {
        oldestKey, oldest := Some(key), entries[key].storedAt;
      }
      todo := todo - {key};
    }
    if oldestKey.Some? {
      assert Oldest(entries, oldestKey.value);
      return entries - {oldestKey.value};
    }
    return entries;
  }

  /** Making room before a store keeps the map within its capacity. */
  lemma StoreWithinCapacity<K(!new)>(before: map<K, Snapshot>, capacity: nat, after: map<K, Snapshot>, key: K, s: Snapshot)
    requires |before| <= capacity && capacity > 0 && Evicted(before, capacity, after)
    ensures |after[key := s]| <= capacity
  {
    assert after[key := s].Keys == after.Keys + {key};
    assert |after[key := s]| == |after[key := s].Keys| && |after| == |after.Keys| && |before| == |before.Keys|;
    if |before| >= capacity {
      var k :| Oldest(before, k) && after == before - {k};
      assert after.Keys == before.Keys - {k};
    }
  }

  // ----- stabilizeProvider -----

  /** The list a non-empty round leads to: merged into the last-good one while that is not too old. */
  function Settled(p: Providers, key: ProviderKey, round: seq<Server>, now: int): (seq<Server>, bool) {
    if key in p && now - p[key].storedAt <= ProviderSnapshotTTL(key.provider)
    then (MergedProvider(round, p[key].servers), true)
    else (round, false)
  }

  /** One call of stabilizeProvider: the map after it, the list returned, and whether it was reused. */
  ghost predicate Stabilizes(p: Providers, key: ProviderKey, round: seq<Server>, allowFallback: bool, now: int,
                             p': Providers, servers: seq<Server>, reused: bool)
  {
    if round != [] then
      && (servers, reused) == Settled(p, key, round, now)
      && exists room :: Evicted(p, MAX_PROVIDER_SNAPSHOTS, room) && p' == room[key := Snapshot(servers, now, None)]
    else if !allowFallback || key !in p then p' == p && servers == [] && !reused
    else if now - p[key].storedAt > ProviderSnapshotTTL(key.provider) then p' == p - {key} && servers == [] && !reused
    else p' == p && servers == p[key].servers && reused
  }

  // ----- the whole-list snapshots -----

  predicate HasProvider(servers: seq<Server>, provider: string) {
    exists s :: s in servers && s.provider == provider
  }

  /** A list without both critical providers is retried soon, unless the title is gated. */
  function ListTTL(key: RequestKey, servers: seq<Server>): int {
    if !key.hentai && !(HasProvider(servers, "kaa") && HasProvider(servers, "zenbu"))
    then INCOMPLETE_SERVER_LIST_TTL else SERVER_LIST_STABILITY_TTL
  }

  /** What loadList answers: the key's list while it has not expired. */
  function Loaded(l: Lists, key: RequestKey, now: int): Option<seq<Server>> {
    if key in l && (l[key].expires.None? || now < l[key].expires.value) then Some(l[key].servers) else None
  }

  /** One call of storeList. */
  ghost predicate Stores(l: Lists, key: RequestKey, round: seq<Server>, now: int, l': Lists, servers: seq<Server>) {
    if round == [] then l' == l && servers == round
    else
      && servers == (if key in l then MergedList(round, l[key].servers, now - l[key].storedAt) else round)
      && exists room :: Evicted(l, MAX_SERVER_LIST_SNAPSHOTS, room) &&
           l' == room[key := Snapshot(servers, now, Some(now + ListTTL(key, servers)))]
  }

  class StabilityCache {
    var lists: Lists
    var providers: Providers

    constructor ()
      ensures lists == map[] && providers == map[]
    {
      lists, providers := map[], map[];
    }

    method StabilizeProvider(key: ProviderKey, round: seq<Server>, allowFallback: bool, now: int)
      returns (servers: seq<Server>, reused: bool)
      modifies this
      ensures lists == old(lists)
      ensures Stabilizes(old(providers), key, round, allowFallback, now, providers, servers, reused)
    {
      hide MergedProvider;
      if |round| > 0 {
        servers, reused := round, false;
        if key in providers && now - providers[key].storedAt <= ProviderSnapshotTTL(key.provider) {
          servers := MergeProviderServers(round, providers[key].servers);
          reused := true;
        }
        if |providers| >= MAX_PROVIDER_SNAPSHOTS {
          providers := RemoveOldest(providers);
        }
        ghost var room := providers;
        assert Evicted(old(providers), MAX_PROVIDER_SNAPSHOTS, room);
        providers := providers[key := Snapshot(servers, now, None)];
        return;
      }
      if !allowFallback || key !in providers {
        return [], false;
      }
      if now - providers[key].storedAt > ProviderSnapshotTTL(key.provider) {
        providers := providers - {key};
        return [], false;
      }
      return providers[key].servers, true;
    }

    method LoadList(key: RequestKey, now: int) returns (r: Option<seq<Server>>)
      modifies this
      ensures providers == old(providers)
      ensures r == Loaded(old(lists), key, now)
      ensures ListNext(old(lists), Load(key, now), lists)
    {
      if key !in lists {
        assert lists == lists - {key};
        return None;
      }
      var entry := lists[key];
      if entry.expires.Some? && !(now < entry.expires.value) {
        lists := lists - {key};
        return None;
      }
      return Some(entry.servers);
    }

    method StoreList(key: RequestKey, round: seq<Server>, now: int) returns (servers: seq<Server>)
      modifies this
      ensures providers == old(providers)
      ensures Stores(old(lists), key, round, now, lists, servers)
    {
      hide MergedList, HasProvider;
      servers := round;
      if |round| == 0 {
        return;
      }
      if key in lists {
        servers := MergeListSnapshot(round, lists[key].servers, lists[key].storedAt, now);
      }
      if |lists| >= MAX_SERVER_LIST_SNAPSHOTS {
        lists := RemoveOldest(lists);
      }
      ghost var room := lists;
      assert Evicted(old(lists), MAX_SERVER_LIST_SNAPSHOTS, room);
      lists := lists[key := Snapshot(servers, now, Some(now + ListTTL(key, servers)))];
    }
  }

  lemma RoundKeepsCapacity(p: Providers, key: ProviderKey, round: seq<Server>, allow: bool, now: int,
                           p': Providers, servers: seq<Server>, reused: bool)
    requires |p| <= MAX_PROVIDER_SNAPSHOTS && Stabilizes(p, key, round, allow, now, p', servers, reused)
    ensures |p'| <= MAX_PROVIDER_SNAPSHOTS
  {
    hide Evicted, MergedProvider;
    if round != [] {
      var s := Snapshot(servers, now, None);
      var room :| Evicted(p, MAX_PROVIDER_SNAPSHOTS, room) && p' == room[key := s];
      StoreWithinCapacity(p, MAX_PROVIDER_SNAPSHOTS, room, key, s);
    } else {
      SizeWithout(p, key);
    }
  }

  lemma StoreKeepsCapacity(l: Lists, key: RequestKey, round: seq<Server>, now: int, l': Lists, servers: seq<Server>)
    requires |l| <= MAX_SERVER_LIST_SNAPSHOTS && Stores(l, key, round, now, l', servers)
    ensures |l'| <= MAX_SERVER_LIST_SNAPSHOTS
  {
    hide Evicted, MergedList, HasProvider;
    if round != [] {
      var s := Snapshot(servers, now, Some(now + ListTTL(key, servers)));
      var room :| Evicted(l, MAX_SERVER_LIST_SNAPSHOTS, room) && l' == room[key := s];
      StoreWithinCapacity(l, MAX_SERVER_LIST_SNAPSHOTS, room, key, s);
    }
  }

  lemma SizeWithout<K, V>(m: map<K, V>, k: K)
    ensures |m - {k}| <= |m|
  {
    assert (m - {k}).Keys == m.Keys - {k};
    assert |m - {k}| == |(m - {k}).Keys| && |m| == |m.Keys|;
  }

  // ----- runs -----

  /** One round of one provider key, with what stabilizeProvider returned. */
  datatype Round = Round(key: ProviderKey, found: seq<Server>, allowFallback: bool, now: int, servers: seq<Server>, reused: bool)

  ghost predicate Run(states: seq<Providers>, rounds: seq<Round>) {
    && |states| == |rounds| + 1
    && forall i | 0 <= i < |rounds| ::
         var r := rounds[i];
         Stabilizes(states[i], r.key, r.found, r.allowFallback, r.now, states[i + 1], r.servers, r.reused)
  }

  /** Over every run of rounds, from whatever snapshots the cache starts with, the provider map stays within 2048 entries. */
  lemma {:induction false} ProvidersStayBounded(states: seq<Providers>, rounds: seq<Round>)
    requires Run(states, rounds) && |states[0]| <= 2048
    ensures |states[|rounds|]| <= 2048
    decreases |rounds|
  {
    hide Stabilizes;
    if rounds != [] {
      var n := |rounds| - 1;
      var r := rounds[n];
      assert Stabilizes(states[n], r.key, r.found, r.allowFallback, r.now, states[n + 1], r.servers, r.reused);
      ProvidersStayBounded(states[..n + 1], rounds[..n]);
      RoundKeepsCapacity(states[n], r.key, r.found, r.allowFallback, r.now, states[n + 1], r.servers, r.reused);
    }
  }

  /** One call on the whole-list snapshots. */
  datatype ListCall = Load(key: RequestKey, now: int) | Store(key: RequestKey, round: seq<Server>, now: int, servers: seq<Server>)

  ghost predicate ListRun(states: seq<Lists>, calls: seq<ListCall>) {
    && |states| == |calls| + 1
    && forall i | 0 <= i < |calls| :: ListNext(states[i], calls[i], states[i + 1])
  }

  /** loadList keeps the snapshots or drops its key's; storeList stores. */
  ghost predicate ListNext(l: Lists, c: ListCall, l': Lists) {
    match c
    case Load(key, now) =>
      l' == if Loaded(l, key, now).Some? then l else l - {key}
    case Store(key, round, now, servers) => Stores(l, key, round, now, l', servers)
  }

  /** Over every run of loads and stores, the list map stays within 256 entries. */
  lemma {:induction false} ListsStayBounded(states: seq<Lists>, calls: seq<ListCall>)
    requires ListRun(states, calls) && states[0] == map[]
    ensures |states[|calls|]| <= 256
    decreases |calls|
  {
    hide Stores;
    if calls != [] {
      var n := |calls| - 1;
      assert ListNext(states[n], calls[n], states[n + 1]);
      ListsStayBounded(states[..n + 1], calls[..n]);
      match calls[n]
      case Load(key, now) => SizeWithout(states[n], key);
      case Store(key, round, now, servers) => StoreKeepsCapacity(states[n], key, round, now, states[n + 1], servers);
    }
  }

  /** r is a round of key k in which the provider answered. */
  predicate Productive(r: Round, k: ProviderKey) {
    r.key == k && r.found != []
  }

  /** The last productive round of k, as the snapshot it must have left; before the first, what the cache started with. */
  function LastGood(start: Providers, rounds: seq<Round>, k: ProviderKey): Option<Snapshot>
    decreases |rounds|
  {
    if rounds == [] then (if k in start then Some(start[k]) else None)
    else
      var r := rounds[|rounds| - 1];
      if Productive(r, k) then Some(Snapshot(r.servers, r.now, None)) else LastGood(start, rounds[..|rounds| - 1], k)
  }

  lemma OneRoundOn(p: Providers, r: Round, p': Providers, k: ProviderKey)
    requires Stabilizes(p, r.key, r.found, r.allowFallback, r.now, p', r.servers, r.reused)
    ensures Productive(r, k) ==> k in p' && p'[k] == Snapshot(r.servers, r.now, None)
    ensures !Productive(r, k) && k in p' ==> k in p && p'[k] == p[k]
  {
    hide Settled, Oldest;
  }

  /** Whatever the other traffic, a snapshot that is there is the one its last productive round left, or the start did. */
  lemma {:induction false} SnapshotIsLastGood(states: seq<Providers>, rounds: seq<Round>, k: ProviderKey)
    requires Run(states, rounds)
    ensures k in states[|rounds|] ==> LastGood(states[0], rounds, k) == Some(states[|rounds|][k])
    decreases |rounds|
  {
    hide Stabilizes;
    if rounds != [] {
      var n := |rounds| - 1;
      assert Stabilizes(states[n], rounds[n].key, rounds[n].found, rounds[n].allowFallback, rounds[n].now, states[n + 1], rounds[n].servers, rounds[n].reused);
      SnapshotIsLastGood(states[..n + 1], rounds[..n], k);
      OneRoundOn(states[n], rounds[n], states[n + 1], k);
    }
  }

  /**
   An empty round, with the key's snapshot not evicted, brings back the list of
   the last productive round, or the one the cache started with when there was
   none, exactly when at most two hours have passed.
   */
  lemma EmptyRoundReturnsLastGood(states: seq<Providers>, rounds: seq<Round>, r: Round, p': Providers)
    requires Run(states, rounds)
    requires r.found == [] && r.allowFallback && r.key in states[|rounds|]
    requires Stabilizes(states[|rounds|], r.key, r.found, r.allowFallback, r.now, p', r.servers, r.reused)
    ensures LastGood(states[0], rounds, r.key).Some?
    ensures
      var last := LastGood(states[0], rounds, r.key).value;
      && (r.reused <==> r.now - last.storedAt <= 7200 * SECOND)
      && (r.reused ==> r.servers == last.servers && r.key in p')
      && (!r.reused ==> r.servers == [] && r.key !in p')
  {
    SnapshotIsLastGood(states, rounds, r.key);
  }

  /**
   A productive round, with the key's snapshot not evicted, returns its own
   servers and every slot of the list before it, which it found or not, when that
   is at most two hours old; slots older than that are gone for good.
   */
  lemma ProductiveRoundReturns(states: seq<Providers>, rounds: seq<Round>, r: Round, p': Providers)
    requires Run(states, rounds)
    requires r.found != [] && r.key in states[|rounds|]
    requires Stabilizes(states[|rounds|], r.key, r.found, r.allowFallback, r.now, p', r.servers, r.reused)
    ensures LastGood(states[0], rounds, r.key).Some?
    ensures
      var last := LastGood(states[0], rounds, r.key).value;
      && (r.now - last.storedAt <= 7200 * SECOND ==>
            r.reused && r.found <= r.servers && KeySet(r.servers) == KeySet(r.found) + KeySet(last.servers))
      && (r.now - last.storedAt > 7200 * SECOND ==> !r.reused && r.servers == r.found)
  {
    SnapshotIsLastGood(states, rounds, r.key);
    hide KeySet, MergedProvider, Oldest;
    MergedProviderKeys(r.found, states[|rounds|][r.key].servers);
  }

  // ----- what is kept, and for how long -----

  /** Making room takes an oldest entry, and only at capacity. */
  lemma NotOldestStays<K(!new)>(before: map<K, Snapshot>, capacity: nat, after: map<K, Snapshot>, k: K)
    requires Evicted(before, capacity, after) && k in before
    requires |before| >= capacity ==> exists o :: o in before && before[o].storedAt < before[k].storedAt
    ensures k in after && after[k] == before[k]
  {
  }

  /** Whenever the map is full, some other snapshot is older than that of k. */
  ghost predicate NeverOldest(states: seq<Providers>, k: ProviderKey) {
    forall i | 0 <= i < |states| && k in states[i] && |states[i]| >= 2048 ::
      exists o :: o in states[i] && states[i][o].storedAt < states[i][k].storedAt
  }

  /**
   What the cache remembers of one key: its last productive round, until an empty
   round that may fall back on it finds it more than two hours old.
   */
  function Remembered(start: Providers, rounds: seq<Round>, k: ProviderKey): Option<Snapshot>
    decreases |rounds|
  {
    if rounds == [] then (if k in start then Some(start[k]) else None)
    else
      var r, before := rounds[|rounds| - 1], Remembered(start, rounds[..|rounds| - 1], k);
      if Productive(r, k) then Some(Snapshot(r.servers, r.now, None))
      else if r.key == k && r.allowFallback && before.Some? && r.now - before.value.storedAt > 7200 * SECOND then None
      else before
  }

  lemma RoundRemembers(p: Providers, r: Round, p': Providers, k: ProviderKey)
    requires Stabilizes(p, r.key, r.found, r.allowFallback, r.now, p', r.servers, r.reused)
    requires k in p && |p| >= 2048 ==> exists o :: o in p && p[o].storedAt < p[k].storedAt
    ensures !Productive(r, k) ==>
      if k in p && !(r.key == k && r.allowFallback && r.now - p[k].storedAt > 7200 * SECOND)
      then k in p' && p'[k] == p[k] else k !in p'
  {
    hide Settled, Evicted;
    if r.found != [] && k != r.key {
      var room :| Evicted(p, MAX_PROVIDER_SNAPSHOTS, room) && p' == room[r.key := Snapshot(r.servers, r.now, None)];
      if k in p {
        NotOldestStays(p, MAX_PROVIDER_SNAPSHOTS, room, k);
      } else {
        EvictedIsPart(p, MAX_PROVIDER_SNAPSHOTS, room);
      }
    }
  }

  lemma EvictedIsPart<K(!new)>(before: map<K, Snapshot>, capacity: nat, after: map<K, Snapshot>)
    requires Evicted(before, capacity, after)
    ensures after.Keys <= before.Keys
  {
  }

  /** For a key that is never the oldest of a full map, the cache holds just what it remembers of the key's own rounds. */
  lemma {:induction false} SnapshotIsRemembered(states: seq<Providers>, rounds: seq<Round>, k: ProviderKey)
    requires Run(states, rounds) && NeverOldest(states, k)
    ensures Remembered(states[0], rounds, k) == if k in states[|rounds|] then Some(states[|rounds|][k]) else None
    decreases |rounds|
  {
    hide Stabilizes;
    if rounds != [] {
      var n := |rounds| - 1;
      var r := rounds[n];
      assert Stabilizes(states[n], r.key, r.found, r.allowFallback, r.now, states[n + 1], r.servers, r.reused);
      SnapshotIsRemembered(states[..n + 1], rounds[..n], k);
      RoundRemembers(states[n], r, states[n + 1], k);
      OneRoundOn(states[n], r, states[n + 1], k);
    }
  }

  /** Whenever the map is full and its key has a list, some other list is older. */
  ghost predicate NeverOldestList(states: seq<Lists>, from: nat, k: RequestKey) {
    forall i | from <= i < |states| && k in states[i] && |states[i]| >= 256 ::
      exists o :: o in states[i] && states[i][o].storedAt < states[i][k].storedAt
  }

  /** The lifetime of a list: 90 seconds when the title is gated or both critical providers are in it, else 5. */
  predicate Lives(key: RequestKey, servers: seq<Server>, age: int) {
    || age < 5 * SECOND
    || (age < 90 * SECOND && (key.hentai || ((exists s :: s in servers && s.provider == "kaa") && exists s :: s in servers && s.provider == "zenbu")))
  }

  /** What is remembered of a title's list after one more call: a store's list with its lifetime, nothing once a load finds that over. */
  function RememberedAfter(before: Option<Snapshot>, c: ListCall, k: RequestKey): Option<Snapshot> {
    if c.key != k then before
    else
      match c
      case Load(_, now) =>
        if before.Some? && before.value.expires.Some? && before.value.expires.value <= now then None else before
      case Store(_, round, now, servers) =>
        if round == [] then before
        else Some(Snapshot(servers, now, Some(now + if Lives(k, servers, 5 * SECOND) then 90 * SECOND else 5 * SECOND)))
  }

  /** Over a run: the last list stored, unless a load has dropped it; a dropped one is not merged into the next. */
  function RememberedList(start: Lists, calls: seq<ListCall>, k: RequestKey): Option<Snapshot>
    decreases |calls|
  {
    if calls == [] then (if k in start then Some(start[k]) else None)
    else RememberedAfter(RememberedList(start, calls[..|calls| - 1], k), calls[|calls| - 1], k)
  }

  lemma ListTTLIs(key: RequestKey, servers: seq<Server>)
    ensures ListTTL(key, servers) == if Lives(key, servers, 5 * SECOND) then 90 * SECOND else 5 * SECOND
  {
  }

  /** A store for another title makes room elsewhere. */
  lemma OtherStoreKeeps(l: Lists, c: ListCall, l': Lists, k: RequestKey)
    requires ListNext(l, c, l') && c.Store? && c.key != k
    requires k in l && |l| >= 256 ==> exists o :: o in l && l[o].storedAt < l[k].storedAt
    ensures k in l' <==> k in l
    ensures k in l ==> l'[k] == l[k]
  {
    hide MergedList, HasProvider, Evicted;
    if c.round != [] {
      var s := Snapshot(c.servers, c.now, Some(c.now + ListTTL(c.key, c.servers)));
      var room :| Evicted(l, MAX_SERVER_LIST_SNAPSHOTS, room) && l' == room[c.key := s];
      if k in l {
        NotOldestStays(l, MAX_SERVER_LIST_SNAPSHOTS, room, k);
      } else {
        EvictedIsPart(l, MAX_SERVER_LIST_SNAPSHOTS, room);
      }
    }
  }

  lemma ListCallRemembers(l: Lists, c: ListCall, l': Lists, k: RequestKey)
    requires ListNext(l, c, l')
    requires k in l && |l| >= 256 ==> exists o :: o in l && l[o].storedAt < l[k].storedAt
    ensures
      RememberedAfter(if k in l then Some(l[k]) else None, c, k) == if k in l' then Some(l'[k]) else None
  {
    if c.Store? && c.key != k {
      OtherStoreKeeps(l, c, l', k);
    } else {
      hide MergedList, Evicted, Lives, ListTTL;
      if c.Store? {
        ListTTLIs(k, c.servers);
      }
    }
  }

  /** For a title whose list is never the oldest of a full map, the cache holds just what it remembers of the title's own calls. */
  lemma {:induction false} ListIsRemembered(states: seq<Lists>, calls: seq<ListCall>, k: RequestKey)
    requires ListRun(states, calls) && NeverOldestList(states, 0, k)
    ensures RememberedList(states[0], calls, k) == if k in states[|calls|] then Some(states[|calls|][k]) else None
    decreases |calls|
  {
    hide ListNext, RememberedAfter;
    if calls != [] {
      var n := |calls| - 1;
      assert ListNext(states[n], calls[n], states[n + 1]);
      ListIsRemembered(states[..n + 1], calls[..n], k);
      ListCallRemembers(states[n], calls[n], states[n + 1], k);
    }
  }

  lemma StoredListLives(l: Lists, key: RequestKey, round: seq<Server>, now: int, l': Lists, servers: seq<Server>, t: int)
    requires Stores(l, key, round, now, l', servers) && round != []
    ensures key in l' && l'[key].servers == servers && (Loaded(l', key, t) == if Lives(key, servers, t - now) then Some(servers) else None)
  {
    hide Evicted, MergedList;
  }

  lemma ListCallKeeps(l: Lists, c: ListCall, l': Lists, k: RequestKey, t: int)
    requires ListNext(l, c, l') && (c.key == k ==> c.Load? && c.now <= t)
    requires k in l && |l| >= 256 ==> exists o :: o in l && l[o].storedAt < l[k].storedAt
    ensures k !in l ==> k !in l'
    ensures Loaded(l', k, t) == Loaded(l, k, t)
  {
    if c.Store? {
      OtherStoreKeeps(l, c, l', k);
    }
  }

  lemma {:induction false} LaterCallsKeep(states: seq<Lists>, calls: seq<ListCall>, k: RequestKey, t: int)
    requires ListRun(states, calls) && NeverOldestList(states, 0, k)
    requires forall c | c in calls && c.key == k :: c.Load? && c.now <= t
    ensures Loaded(states[|calls|], k, t) == Loaded(states[0], k, t)
    decreases |calls|
  {
    hide ListNext;
    if calls != [] {
      var n := |calls| - 1;
      assert ListNext(states[n], calls[n], states[n + 1]);
      LaterCallsKeep(states[..n + 1], calls[..n], k, t);
      ListCallKeeps(states[n], calls[n], states[n + 1], k, t);
    }
  }

  /**
   The list that storeList returned is the one loadList finds, whatever the other
   traffic, until its lifetime is over or its key's next store: for 90 seconds
   when it is complete or the title is gated, for 5 when it is not.
   */
  lemma StoredListIsLoaded(states: seq<Lists>, calls: seq<ListCall>, i: nat, t: int)
    requires ListRun(states, calls) && i < |calls| && calls[i].Store? && calls[i].round != []
    requires forall j | i < j < |calls| && calls[j].key == calls[i].key :: calls[j].Load? && calls[j].now <= t
    requires NeverOldestList(states, i + 1, calls[i].key)
    ensures Loaded(states[|calls|], calls[i].key, t) ==
      if Lives(calls[i].key, calls[i].servers, t - calls[i].now) then Some(calls[i].servers) else None
  {
    var c, rest := calls[i], calls[i + 1..];
    hide Lives, Stores, ListTTL;
    assert ListNext(states[i], c, states[i + 1]);
    StoredListLives(states[i], c.key, c.round, c.now, states[i + 1], c.servers, t);
    var tail := states[i + 1..];
    forall j | 0 <= j < |rest|
      ensures ListNext(tail[j], rest[j], tail[j + 1])
    {
      assert ListNext(states[i + 1 + j], calls[i + 1 + j], states[i + 2 + j]);
    }
    hide ListNext;
    LaterCallsKeep(tail, rest, c.key, t);
  }

  /** The productive rounds of k follow each other within the last-good time, and k is never evicted or expired. */
  ghost predicate Retained(states: seq<Providers>, rounds: seq<Round>, k: ProviderKey) {
    && |states| == |rounds| + 1
    && (forall i | 0 <= i < |states| :: k in states[i])
    && (forall i | 0 <= i < |rounds| && Productive(rounds[i], k) ::
          rounds[i].now - states[i][k].storedAt <= ProviderSnapshotTTL(k.provider))
  }

  lemma RoundKeepsSlots(p: Providers, r: Round, p': Providers, k: ProviderKey)
    requires Stabilizes(p, r.key, r.found, r.allowFallback, r.now, p', r.servers, r.reused)
    requires k in p && k in p'
    requires Productive(r, k) ==> r.now - p[k].storedAt <= ProviderSnapshotTTL(k.provider)
    ensures KeySet(p[k].servers) <= KeySet(p'[k].servers)
    ensures Productive(r, k) ==> KeySet(r.servers) == KeySet(r.found) + KeySet(p[k].servers) && r.found <= r.servers
  {
    OneRoundOn(p, r, p', k);
    if Productive(r, k) {
      hide MergedProvider, KeySet;
      MergedProviderKeys(r.found, p[k].servers);
    }
  }

  /** While a provider is retained, no slot it once listed is lost. */
  lemma {:induction false} SlotsNeverShrink(states: seq<Providers>, rounds: seq<Round>, k: ProviderKey)
    requires Run(states, rounds) && Retained(states, rounds, k)
    ensures KeySet(states[0][k].servers) <= KeySet(states[|rounds|][k].servers)
    ensures forall i | 0 <= i < |rounds| && rounds[i].key == k && rounds[i].servers != [] ::
      KeySet(states[0][k].servers) <= KeySet(rounds[i].servers)
    decreases |rounds|
  {
    hide Stabilizes, KeySet;
    if rounds != [] {
      var n := |rounds| - 1;
      var r := rounds[n];
      assert Stabilizes(states[n], r.key, r.found, r.allowFallback, r.now, states[n + 1], r.servers, r.reused);
      SlotsNeverShrink(states[..n + 1], rounds[..n], k);
      RoundKeepsSlots(states[n], r, states[n + 1], k);
      if r.key == k {
        ReturnedIsStored(states[n], r, states[n + 1]);
      }
    }
  }

  lemma ReturnedIsStored(p: Providers, r: Round, p': Providers)
    requires Stabilizes(p, r.key, r.found, r.allowFallback, r.now, p', r.servers, r.reused)
    ensures r.servers != [] ==> r.key in p' && p'[r.key].servers == r.servers
  {
    hide Settled, Oldest;
  }
}
