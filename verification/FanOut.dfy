/**
 The skeleton of FindAllServers (internal/streaming/manager.go): every
 collector's result goes through stabilizeProvider, the pools are joined,
 rearranged and stored, and what storeList returns is what the client sees.
 Collectors of this and of other requests interleave in any order.
 */
module FanOut {
  import opened ServerLists
  import opened Stability

  function Joined(pools: seq<seq<Server>>): seq<Server> {
    if pools == [] then [] else pools[0] + Joined(pools[1..])
  }

  lemma {:induction false} JoinedKeys(pools: seq<seq<Server>>, i: nat)
    requires i < |pools|
    ensures KeySet(pools[i]) <= KeySet(Joined(pools))
  {
    hide KeySet;
    KeySetOfConcat(pools[0], Joined(pools[1..]));
    if i > 0 {
      JoinedKeys(pools[1..], i - 1);
      assert pools[1..][i - 1] == pools[i];
    }
  }

  lemma {:induction false} JoinedOnly(pools: seq<seq<Server>>, slot: string)
    requires slot in KeySet(Joined(pools))
    ensures exists i :: 0 <= i < |pools| && slot in KeySet(pools[i])
  {
    hide KeySet;
    if pools == [] {
      NoSlots();
    } else {
      KeySetOfConcat(pools[0], Joined(pools[1..]));
      if slot !in KeySet(pools[0]) {
        JoinedOnly(pools[1..], slot);
        var i :| 0 <= i < |pools[1..]| && slot in KeySet(pools[1..][i]);
        assert pools[1..][i] == pools[i + 1];
      }
    }
  }

  /**
   The end of a round.  Downloads, subtitles and order may change on the way
   (arranged), slots may not; a cancelled or empty round is not stored.
   */
  ghost predicate Publishes(l: Lists, key: RequestKey, pools: seq<seq<Server>>, arranged: seq<Server>, cancelled: bool, now: int,
                            l': Lists, result: seq<Server>)
  {
    && KeySet(arranged) == KeySet(Joined(pools))
    && if arranged != [] && !cancelled then Stores(l, key, arranged, now, l', result) else l' == l && result == arranged
  }

  /** The slots of the stored list: the round's, and those of the list before it while that is at most two hours old. */
  lemma StoredListKeepsRound(l: Lists, key: RequestKey, round: seq<Server>, now: int, l': Lists, result: seq<Server>)
    requires Stores(l, key, round, now, l', result)
    ensures
      if round != [] && key in l && now - l[key].storedAt <= 7200 * SECOND
      then KeySet(result) == KeySet(round) + KeySet(l[key].servers)
      else KeySet(result) == KeySet(round)
  {
    hide KeySet, MergedList, Evicted, HasProvider;
    if round != [] && key in l {
      MergedListKeys(round, l[key].servers, now - l[key].storedAt);
    }
  }

  lemma {:induction false} KeptHas(previous: seq<Server>, round: seq<Server>, age: int, s: Server)
    requires s in previous && Survives(s, KeySet(round), age)
    ensures s.Key() in KeySet(Kept(previous, Current(round), age))
  {
    var p, rest := previous[0], Kept(previous[1..], Current(round), age);
    var head := if p.Key() in Current(round) then [Current(round)[p.Key()]] else if age <= ProviderSnapshotTTL(p.provider) then [p] else [];
    assert Kept(previous, Current(round), age) == head + rest;
    KeySetOfConcat(head, rest);
    if s == p {
      assert head[0].Key() in KeySet(head);
    } else {
      KeptHas(previous[1..], round, age, s);
    }
  }

  lemma MergedListKeys(round: seq<Server>, previous: seq<Server>, age: int)
    ensures KeySet(MergedList(round, previous, age)) == KeySet(round) + if age <= 7200 * SECOND then KeySet(previous) else {}
  {
    if previous == [] {
      NoSlots();
    } else {
      var kept, added := Kept(previous, Current(round), age), Without(round, KeySet(previous));
      KeySetOfConcat(kept, added);
      WithoutKeySet(round, KeySet(previous));
      forall s | s in previous && Survives(s, KeySet(round), age)
        ensures s.Key() in KeySet(kept)
      {
        KeptHas(previous, round, age, s);
      }
      forall k | k in KeySet(previous) && (k in KeySet(round) || age <= 7200 * SECOND)
        ensures k in KeySet(kept)
      {
        var s :| s in previous && s.Key() == k;
      }
      forall k | k in KeySet(kept)
        ensures k in KeySet(previous) && (k in KeySet(round) || age <= 7200 * SECOND)
      {
        var s :| s in kept && s.Key() == k;
        KeptOnly(previous, round, age, s);
      }
    }
  }

  lemma {:induction false} KeptOnly(previous: seq<Server>, round: seq<Server>, age: int, s: Server)
    requires s in Kept(previous, Current(round), age)
    ensures s.Key() in KeySet(previous) && (s.Key() in KeySet(round) || age <= 7200 * SECOND)
  {
    assert previous[0].Key() in KeySet(previous) && KeySet(previous[1..]) <= KeySet(previous);
    if s in Kept(previous[1..], Current(round), age) {
      KeptOnly(previous[1..], round, age, s);
    }
  }

  /**
   Whatever the other collectors and requests do meanwhile: if a provider's
   snapshot is within its last-good time when its own round comes, every slot of
   that snapshot, and every slot the round found, is in the list the client gets.
   */
  lemma ProviderSlotsReachTheClient(states: seq<Providers>, rounds: seq<Round>, turn: nat, pools: seq<seq<Server>>, pool: nat,
                                    l: Lists, key: RequestKey, arranged: seq<Server>, cancelled: bool, now: int, l': Lists, result: seq<Server>)
    requires Run(states, rounds) && turn < |rounds| && pool < |pools| && pools[pool] == rounds[turn].servers
    requires Publishes(l, key, pools, arranged, cancelled, now, l', result)
    ensures KeySet(rounds[turn].found) <= KeySet(result)
    ensures
      var r, p := rounds[turn], states[turn];
      (r.allowFallback || r.found != []) && r.key in p && r.now - p[r.key].storedAt <= 7200 * SECOND ==>
        KeySet(p[r.key].servers) <= KeySet(result)
  {
    var r, p := rounds[turn], states[turn];
    assert Stabilizes(p, r.key, r.found, r.allowFallback, r.now, states[turn + 1], r.servers, r.reused);
    hide KeySet, MergedProvider, Stores, Evicted;
    JoinedKeys(pools, pool);
    if arranged != [] && !cancelled {
      StoredListKeepsRound(l, key, arranged, now, l', result);
    }
    if r.found != [] {
      if r.key in p {
        MergedProviderKeys(r.found, p[r.key].servers);
      }
    } else {
      NoSlots();
    }
  }

  /** A cancelled or empty round leaves every stored list as it was. */
  lemma CancelledRoundStoresNothing(l: Lists, key: RequestKey, pools: seq<seq<Server>>, arranged: seq<Server>, cancelled: bool, now: int,
                                    l': Lists, result: seq<Server>, other: RequestKey, t: int)
    requires Publishes(l, key, pools, arranged, cancelled, now, l', result) && (cancelled || forall pool | pool in pools :: pool == [])
    ensures Loaded(l', other, t) == Loaded(l, other, t)
    ensures cancelled ==> KeySet(result) == KeySet(Joined(pools))
  {
    hide Stores;
    if !cancelled {
      NothingJoined(pools);
      NoSlots();
      assert arranged != [] ==> arranged[0].Key() in KeySet(arranged);
    }
  }

  lemma {:induction false} NothingJoined(pools: seq<seq<Server>>)
    requires forall pool | pool in pools :: pool == []
    ensures Joined(pools) == []
  {
    if pools != [] {
      assert pools[0] in pools && forall pool | pool in pools[1..] :: pool in pools;
      NothingJoined(pools[1..]);
    }
  }

  /** And no other slot is: one in the client's list is in some pool, or in the list stored before, at most two hours ago. */
  lemma ClientSlotsHaveASource(pools: seq<seq<Server>>, l: Lists, key: RequestKey, arranged: seq<Server>, cancelled: bool, now: int,
                               l': Lists, result: seq<Server>, slot: string)
    requires Publishes(l, key, pools, arranged, cancelled, now, l', result) && slot in KeySet(result)
    ensures
      || (exists i :: 0 <= i < |pools| && slot in KeySet(pools[i]))
      || (key in l && now - l[key].storedAt <= 7200 * SECOND && slot in KeySet(l[key].servers))
  {
    hide KeySet, Stores;
    if arranged != [] && !cancelled {
      StoredListKeepsRound(l, key, arranged, now, l', result);
    }
    if slot in KeySet(arranged) {
      JoinedOnly(pools, slot);
    }
  }

  lemma NoSlots()
    ensures KeySet([]) == {}
  {
  }
}
