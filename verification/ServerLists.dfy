/**
 The list merges of internal/streaming/servers_stability.go, on values:
 mergeListSnapshot and mergeProviderServers.
 */
module ServerLists {
  datatype Subtitle = Subtitle(url: string, lang: string, caption: string)
  datatype Source = Source(url: string, kind: string, quality: string, subtitles: seq<Subtitle>, verification: string)
  datatype Link = Link(url: string, caption: string)

  /** core.Server, by value. */
  datatype Server = Server(name: string, provider: string, lang: string, sources: seq<Source>,
                           headers: map<string, string>, downloads: seq<Link>)
  {
    /** The slot a server occupies in a list. */
    function Key(): string {
      provider + "\0" + name
    }
  }

  const SECOND := 1_000_000_000
  const CRITICAL_LAST_GOOD_TTL := 7200 * SECOND
  const PROVIDER_LAST_GOOD_TTL := 7200 * SECOND

  function ProviderSnapshotTTL(provider: string): int {
    if provider == "kaa" || provider == "zenbu" then CRITICAL_LAST_GOOD_TTL else PROVIDER_LAST_GOOD_TTL
  }

  /** A slot is one provider's server of one name, as long as no provider has a NUL. */
  lemma KeyIsInjective(a: Server, b: Server)
    requires '\0' !in a.provider && '\0' !in b.provider
    ensures a.Key() == b.Key() <==> a.provider == b.provider && a.name == b.name
  {
    if a.Key() == b.Key() {
      CutAtNul(a.provider, a.name, b.provider, b.name);
    }
  }

  lemma {:induction false} CutAtNul(p1: string, n1: string, p2: string, n2: string)
    requires '\0' !in p1 && '\0' !in p2 && p1 + "\0" + n1 == p2 + "\0" + n2
    ensures p1 == p2 && n1 == n2
    decreases |p1|
  {
    var s1, s2 := p1 + "\0" + n1, p2 + "\0" + n2;
    if p1 == "" || p2 == "" {
      assert s1[0] == s2[0];
      assert s1[1..] == s2[1..];
    } else {
      assert s1[0] == p1[0] && s2[0] == p2[0];
      assert s1[1..] == p1[1..] + "\0" + n1 && s2[1..] == p2[1..] + "\0" + n2;
      CutAtNul(p1[1..], n1, p2[1..], n2);
      assert p1 == [p1[0]] + p1[1..] && p2 == [p2[0]] + p2[1..];
    }
  }

  // ----- keys of a list -----

  function Keys(servers: seq<Server>): (ks: seq<string>)
    ensures |ks| == |servers| && forall i | 0 <= i < |ks| :: ks[i] == servers[i].Key()
  {
    seq(|servers|, i requires 0 <= i < |servers| => servers[i].Key())
  }

  function KeySet(servers: seq<Server>): set<string> {
    set s | s in servers :: s.Key()
  }

  lemma KeySetOfConcat(a: seq<Server>, b: seq<Server>)
    ensures KeySet(a + b) == KeySet(a) + KeySet(b)
  {
  }

  predicate Distinct(servers: seq<Server>) {
    forall i, j | 0 <= i < j < |servers| :: servers[i].Key() != servers[j].Key()
  }

  // ----- mergeProviderServers -----

  /** The servers whose slot is not taken. */
  function Without(servers: seq<Server>, taken: set<string>): (r: seq<Server>)
    ensures forall s | s in r :: s in servers && s.Key() !in taken
  {
    if servers == [] then []
    else (if servers[0].Key() in taken then [] else [servers[0]]) + Without(servers[1..], taken)
  }

  lemma {:induction false} WithoutKeySet(servers: seq<Server>, taken: set<string>)
    ensures KeySet(Without(servers, taken)) == KeySet(servers) - taken
  {
    if servers != [] {
      var head := if servers[0].Key() in taken then [] else [servers[0]];
      KeySetOfConcat(head, Without(servers[1..], taken));
      KeySetOfConcat([servers[0]], servers[1..]);
      assert servers == [servers[0]] + servers[1..];
      WithoutKeySet(servers[1..], taken);
    }
  }

  /** Fresh servers first, then the previous ones whose slot the fresh round missed. */
  function MergedProvider(round: seq<Server>, previous: seq<Server>): seq<Server> {
    round + Without(previous, KeySet(round))
  }

  /** A merge keeps every slot of both lists, and every fresh server as it is. */
  lemma MergedProviderKeys(round: seq<Server>, previous: seq<Server>)
    ensures KeySet(MergedProvider(round, previous)) == KeySet(round) + KeySet(previous)
    ensures round <= MergedProvider(round, previous)
    ensures forall s | s in MergedProvider(round, previous) :: if s.Key() in KeySet(round) then s in round else s in previous
  {
    KeySetOfConcat(round, Without(previous, KeySet(round)));
    WithoutKeySet(previous, KeySet(round));
  }

  /** The loop that marks the slots a list has. */
  method SlotsOf(servers: seq<Server>) returns (seen: set<string>)
    ensures seen == KeySet(servers)
  {
    seen := {};
    for i := 0 to |servers|
      invariant seen == KeySet(servers[..i])
    {
      assert servers[..i + 1] == servers[..i] + [servers[i]];
      seen := seen + {servers[i].Key()};
    }
    assert servers[..|servers|] == servers;
  }

  lemma WithoutStep(servers: seq<Server>, i: nat, taken: set<string>, before: seq<Server>)
    requires i < |servers|
    ensures before + Without(servers[i..], taken) ==
            (if servers[i].Key() in taken then before else before + [servers[i]]) + Without(servers[i + 1..], taken)
  {
    assert servers[i..][1..] == servers[i + 1..];
  }

  lemma WithoutNothing(servers: seq<Server>, taken: set<string>)
    ensures Without(servers[|servers|..], taken) == []
  {
  }

  /** The loop, in both merges, that appends the servers whose slot was not seen. */
  method AppendUnseen(before: seq<Server>, servers: seq<Server>, seen: set<string>) returns (merged: seq<Server>)
    ensures merged == before + Without(servers, seen)
  {
    hide Without;
    merged := before;
    ghost var goal := before + Without(servers, seen);
    assert servers[0..] == servers;
    for i := 0 to |servers|
      invariant merged + Without(servers[i..], seen) == goal
    {
      WithoutStep(servers, i, seen, merged);
      if servers[i].Key() in seen {
        continue;
      }
      merged := merged + [servers[i]];
    }
    WithoutNothing(servers, seen);
  }

  method MergeProviderServers(round: seq<Server>, previous: seq<Server>) returns (merged: seq<Server>)
    ensures merged == MergedProvider(round, previous)
  {
    if |previous| == 0 {
      return round;
    }
    var seen := SlotsOf(round);
    merged := AppendUnseen(round, previous, seen);
  }

  // ----- mergeListSnapshot -----

  /** The fresh server of each slot; of several with one slot the last. */
  function Current(round: seq<Server>): (m: map<string, Server>)
    ensures m.Keys == KeySet(round)
    ensures forall k | k in m :: m[k] in round && m[k].Key() == k
  {
    if round == [] then map[]
    else
      var n := |round| - 1;
      assert round == round[..n] + [round[n]];
      KeySetOfConcat(round[..n], [round[n]]);
      Current(round[..n])[round[n].Key() := round[n]]
  }

  /** A previous server's slot survives: the fresh round has it, or the list is at most two hours old. */
  predicate Survives(s: Server, round: set<string>, age: int) {
    s.Key() in round || age <= 7200 * SECOND
  }

  /** The previous slots that survive, in their order, fresh values winning. */
  function Kept(previous: seq<Server>, current: map<string, Server>, age: int): seq<Server> {
    if previous == [] then []
    else
      var s := previous[0];
      (if s.Key() in current then [current[s.Key()]] else if age <= ProviderSnapshotTTL(s.provider) then [s] else []) +
      Kept(previous[1..], current, age)
  }

  function MergedList(round: seq<Server>, previous: seq<Server>, age: int): seq<Server> {
    if previous == [] then round
    else Kept(previous, Current(round), age) + Without(round, KeySet(previous))
  }

  lemma KeptStep(previous: seq<Server>, i: nat, current: map<string, Server>, age: int)
    requires i < |previous|
    ensures
      var s, rest := previous[i], Kept(previous[i + 1..], current, age);
      && (s.Key() in current ==> Kept(previous[i..], current, age) == [current[s.Key()]] + rest)
      && (s.Key() !in current && age <= ProviderSnapshotTTL(s.provider) ==> Kept(previous[i..], current, age) == [s] + rest)
      && (s.Key() !in current && age > ProviderSnapshotTTL(s.provider) ==> Kept(previous[i..], current, age) == rest)
  {
    assert previous[i..][1..] == previous[i + 1..];
  }

  /** The source records survivors only; a fresh slot occurs among them exactly when it occurs in previous. */
  lemma SeenIsEnough(round: seq<Server>, previous: seq<Server>, seen: set<string>)
    requires KeySet(previous) * KeySet(round) <= seen <= KeySet(previous)
    ensures Without(round, seen) == Without(round, KeySet(previous))
  {
    if round != [] {
      assert round[0].Key() in KeySet(round) && KeySet(round[1..]) <= KeySet(round);
      SeenIsEnough(round[1..], previous, seen);
    }
  }

  method CurrentByKey(round: seq<Server>) returns (current: map<string, Server>)
    ensures current == Current(round)
  {
    current := map[];
    for i := 0 to |round|
      invariant current == Current(round[..i])
    {
      assert round[..i + 1][..i] == round[..i];
      current := current[round[i].Key() := round[i]];
    }
    assert round[..|round|] == round;
  }

  /** The first loop of mergeListSnapshot: the previous slots in order, and which of them it saw. */
  method KeepPrevious(round: seq<Server>, previous: seq<Server>, current: map<string, Server>, age: int)
    returns (merged: seq<Server>, seen: set<string>)
    requires current.Keys == KeySet(round)
    ensures merged == Kept(previous, current, age)
    ensures KeySet(previous) * KeySet(round) <= seen <= KeySet(previous)
  {
    hide Kept;
    merged, seen := [], {};
    ghost var goal := Kept(previous, current, age);
    assert previous[0..] == previous;
    for i := 0 to |previous|
      invariant merged + Kept(previous[i..], current, age) == goal
      invariant KeySet(previous[..i]) * KeySet(round) <= seen <= KeySet(previous[..i])
    {
      KeptStep(previous, i, current, age);
      assert previous[..i + 1] == previous[..i] + [previous[i]];
      KeySetOfConcat(previous[..i], [previous[i]]);
      var key := previous[i].Key();
      assert KeySet([previous[i]]) == {key};
      if key in current {
        merged := merged + [current[key]];
        seen := seen + {key};
        continue;
      }
      if age <= ProviderSnapshotTTL(previous[i].provider) {
        merged := merged + [previous[i]];
        seen := seen + {key};
      }
    }
    assert previous[..|previous|] == previous && previous[|previous|..] == [];
    KeptOfNothing(current, age);
  }

  lemma KeptOfNothing(current: map<string, Server>, age: int)
    ensures Kept([], current, age) == []
  {
  }

  method MergeListSnapshot(round: seq<Server>, previous: seq<Server>, previousAt: int, now: int) returns (merged: seq<Server>)
    ensures merged == MergedList(round, previous, now - previousAt)
  {
    if |previous| == 0 {
      return round;
    }
    var current := CurrentByKey(round);
    var kept, seen := KeepPrevious(round, previous, current, now - previousAt);
    SeenIsEnough(round, previous, seen);
    merged := AppendUnseen(kept, round, seen);
  }

  // ----- what the list merge means -----

  /** The keys of ks that satisfy a membership test, in order. */
  function Filtered(ks: seq<string>, keep: set<string>): seq<string> {
    if ks == [] then [] else (if ks[0] in keep then [ks[0]] else []) + Filtered(ks[1..], keep)
  }

  function SurvivingKeys(previous: seq<Server>, round: set<string>, age: int): seq<string> {
    if previous == [] then []
    else (if Survives(previous[0], round, age) then [previous[0].Key()] else []) + SurvivingKeys(previous[1..], round, age)
  }

  /** What Kept shows for the first previous server. */
  lemma KeptHead(previous: seq<Server>, round: seq<Server>, age: int)
    requires previous != []
    ensures
      var s, rest := previous[0], Kept(previous[1..], Current(round), age);
      if Survives(s, KeySet(round), age) then
        |Kept(previous, Current(round), age)| > 0 && Kept(previous, Current(round), age)[0].Key() == s.Key() &&
        Kept(previous, Current(round), age)[1..] == rest
      else Kept(previous, Current(round), age) == rest
  {
  }

  lemma {:induction false} KeptKeys(previous: seq<Server>, round: seq<Server>, age: int)
    ensures Keys(Kept(previous, Current(round), age)) == SurvivingKeys(previous, KeySet(round), age)
  {
    if previous != [] {
      KeptHead(previous, round, age);
      hide Kept, Survives, Current, KeySet;
      KeptKeys(previous[1..], round, age);
    }
  }

  lemma {:induction false} WithoutKeys(servers: seq<Server>, taken: set<string>)
    ensures Keys(Without(servers, taken)) == Filtered(Keys(servers), KeySet(servers) - taken)
  {
    FilteredKeys(servers, taken, KeySet(servers) - taken);
  }

  lemma {:induction false} FilteredKeys(servers: seq<Server>, taken: set<string>, keep: set<string>)
    requires forall s | s in servers :: s.Key() in keep <==> s.Key() !in taken
    ensures Keys(Without(servers, taken)) == Filtered(Keys(servers), keep)
  {
    hide Keys;
    if servers == [] {
      assert Keys(servers) == [];
    } else {
      var s, rest := servers[0], servers[1..];
      assert s in servers && forall t | t in rest :: t in servers;
      FilteredKeys(rest, taken, keep);
      var head := if s.Key() in taken then [] else [s];
      KeysOfConcat(head, Without(rest, taken));
      assert Keys(head) == if s.Key() in keep then [s.Key()] else [];
      assert Keys(servers)[0] == s.Key() && Keys(servers)[1..] == Keys(rest);
    }
  }

  /**
   The slots of a merged list: the surviving previous ones in their old order,
   then the new ones in fresh order.  A fresh round cannot reorder the list.
   */
  lemma MergedOrder(round: seq<Server>, previous: seq<Server>, age: int)
    ensures Keys(MergedList(round, previous, age)) ==
            SurvivingKeys(previous, KeySet(round), age) + Filtered(Keys(round), KeySet(round) - KeySet(previous))
  {
    hide Kept, Without, SurvivingKeys, Filtered;
    KeptKeys(previous, round, age);
    WithoutKeys(round, KeySet(previous));
    KeysOfConcat(Kept(previous, Current(round), age), Without(round, KeySet(previous)));
    if previous == [] {
      assert KeySet(round) - KeySet(previous) == KeySet(round);
      WithoutEmpty(round);
      NoSurvivors(KeySet(round), age);
    }
  }

  lemma NoSurvivors(round: set<string>, age: int)
    ensures SurvivingKeys([], round, age) == []
  {
  }

  lemma KeysOfConcat(a: seq<Server>, b: seq<Server>)
    ensures Keys(a + b) == Keys(a) + Keys(b)
  {
  }

  lemma {:induction false} WithoutEmpty(servers: seq<Server>)
    ensures Without(servers, KeySet([])) == servers
  {
    if servers != [] {
      WithoutEmpty(servers[1..]);
      assert servers == [servers[0]] + servers[1..];
    }
  }

  /** Of several fresh servers with one slot the last is current. */
  lemma {:induction false} CurrentIsLast(round: seq<Server>, i: nat)
    requires i < |round| && forall j | i < j < |round| :: round[j].Key() != round[i].Key()
    ensures round[i].Key() in Current(round) && Current(round)[round[i].Key()] == round[i]
  {
    var n := |round| - 1;
    if i < n {
      forall j | i < j < n
        ensures round[..n][j].Key() != round[..n][i].Key()
      {
        assert round[..n][j] == round[j];
      }
      CurrentIsLast(round[..n], i);
    }
  }

  /**
   Where a fresh round has a slot, the merged list shows the round's value in it;
   in any other slot it shows the value it showed before.
   */
  lemma FreshWins(round: seq<Server>, previous: seq<Server>, age: int, s: Server)
    requires s in MergedList(round, previous, age)
    ensures if s.Key() in KeySet(round) then s in round else s in previous && age <= 7200 * SECOND
    ensures s.Key() in KeySet(round) && s.Key() in KeySet(previous) ==> s == Current(round)[s.Key()]
  {
    if previous != [] {
      if s in Kept(previous, Current(round), age) {
        FreshWinsInKept(round, previous, age, s);
      }
    }
  }

  lemma {:induction false} FreshWinsInKept(round: seq<Server>, previous: seq<Server>, age: int, s: Server)
    requires s in Kept(previous, Current(round), age)
    ensures if s.Key() in KeySet(round) then s == Current(round)[s.Key()] else s in previous && age <= 7200 * SECOND
  {
    if s in Kept(previous[1..], Current(round), age) {
      FreshWinsInKept(round, previous[1..], age, s);
    }
  }

  /** One server per slot stays one server per slot. */
  lemma MergedDistinct(round: seq<Server>, previous: seq<Server>, age: int)
    requires Distinct(round) && Distinct(previous)
    ensures Distinct(MergedList(round, previous, age))
  {
    if previous != [] {
      var kept, added := Kept(previous, Current(round), age), Without(round, KeySet(previous));
      KeptDistinct(previous, round, age);
      WithoutDistinct(round, KeySet(previous));
      forall i, j | 0 <= i < |kept| && 0 <= j < |added|
        ensures kept[i].Key() != added[j].Key()
      {
        assert kept[i].Key() in KeySet(kept) && added[j] in added;
      }
    }
  }

  lemma {:induction false} KeptDistinct(previous: seq<Server>, round: seq<Server>, age: int)
    requires Distinct(previous)
    ensures Distinct(Kept(previous, Current(round), age))
    ensures KeySet(Kept(previous, Current(round), age)) <= KeySet(previous)
  {
    if previous != [] {
      var s, rest := previous[0], Kept(previous[1..], Current(round), age);
      KeptDistinct(previous[1..], round, age);
      assert s.Key() !in KeySet(previous[1..]);
      assert previous == [s] + previous[1..];
      KeySetOfConcat([s], previous[1..]);
      forall i | 0 <= i < |rest|
        ensures rest[i].Key() != s.Key()
      {
        assert rest[i].Key() in KeySet(rest);
      }
    }
  }

  lemma {:induction false} WithoutDistinct(servers: seq<Server>, taken: set<string>)
    requires Distinct(servers)
    ensures Distinct(Without(servers, taken))
  {
    if servers != [] {
      var rest := Without(servers[1..], taken);
      WithoutDistinct(servers[1..], taken);
      forall i | 0 <= i < |rest|
        ensures rest[i].Key() != servers[0].Key()
      {
        assert rest[i] in rest;
      }
    }
  }
}
