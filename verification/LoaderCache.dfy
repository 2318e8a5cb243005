/**
 cached in internal/tmdb/resolver.go: a TTL cache with a hand-written
 single-flight on two sync.Maps.  No mutex spans a call, so every map
 operation, clock reading and channel operation is a step of its own and any
 other call may run between two of them.
 */
module LoaderCache {
  import opened Prelude

  type Key = string
  type Value = string

  datatype Entry = Entry(value: Value, expires: int)

  /** A channel of the inFlight map: whose call made it, and how often it was closed. */
  datatype Channel = Channel(key: Key, owner: nat, closes: nat)

  /** What a call returns, and for a cached value the clock reading it was compared with. */
  datatype Result =
    | Hit(entry: Entry, asOf: int)
    | Shared(entry: Entry, asOf: int)
    | Loaded(value: Value)
    | Failed

  /** Where a call stands, between two of its atomic operations. */
  datatype Place =
    | Arrived
    | Looking(asOf: int)
    | Dropping
    | Claiming
    | Waiting(ch: nat)
    | Reading
    | Checking(entry: Entry)
    | Loading(ch: nat)
    | Stamping(ch: nat, value: Value)
    | Storing(ch: nat, entry: Entry)
    | Evicting(ch: nat, value: Value)
    | Leaving(ch: nat, result: Result)
    | Closing(ch: nat, result: Result)
    | Returned(result: Result)

  datatype Call = Call(key: Key, ttl: int, place: Place)

  /** One value a loader produced, and the key it was called for. */
  datatype Load = Load(key: Key, value: Value)

  /** Channels are never reused, so they are numbered; loads is the history of all loaders. */
  datatype System = System(
    now: int,
    cache: map<Key, Entry>,
    inFlight: map<Key, nat>,
    channels: seq<Channel>,
    calls: map<nat, Call>,
    loads: set<Load>)

  function Start(now: int): System {
    System(now, map[], map[], [], map[], {})
  }

  /**
   Time passes; a call arrives; a call does its next operation; a loader comes
   back with a value or an error; an evicting call deletes one more entry.
   */
  datatype Step =
    | Tick(now: int)
    | Arrive(id: nat, key: Key, ttl: int)
    | Advance(id: nat)
    | Return(id: nat, outcome: Option<Value>)
    | Evict(id: nat, victim: Key)

  predicate At(s: System, id: nat, place: Place) {
    id in s.calls && s.calls[id].place == place
  }

  predicate Enabled(s: System, step: Step) {
    match step
    case Tick(now) => s.now <= now
    case Arrive(id, _, _) => id !in s.calls
    case Advance(id) =>
      && id in s.calls
      && match s.calls[id].place {
           case Waiting(ch) => ch < |s.channels| && s.channels[ch].closes > 0
           case Closing(ch, _) => ch < |s.channels|
           case Loading(_) => false
           case Returned(_) => false
           case _ => true
         }
    case Return(id, _) => id in s.calls && s.calls[id].place.Loading?
    case Evict(id, _) => id in s.calls && s.calls[id].place.Evicting?
  }

  function Move(s: System, id: nat, place: Place): System
    requires id in s.calls
  {
    s.(calls := s.calls[id := s.calls[id].(place := place)])
  }

  /** The next operation of a call, line by line. */
  function Advanced(s: System, id: nat): System
    requires Enabled(s, Advance(id))
  {
    var key := s.calls[id].key;
    match s.calls[id].place
    case Arrived => Move(s, id, Looking(s.now))
    case Looking(asOf) =>
      if key !in s.cache then Move(s, id, Claiming)
      else if s.cache[key].expires > asOf then Move(s, id, Returned(Hit(s.cache[key], asOf)))
      else Move(s, id, Dropping)
    case Dropping => Move(s, id, Claiming).(cache := s.cache - {key})
    case Claiming =>
      if key in s.inFlight then Move(s, id, Waiting(s.inFlight[key]))
      else
        var ch := |s.channels|;
        Move(s, id, Loading(ch)).(inFlight := s.inFlight[key := ch], channels := s.channels + [Channel(key, id, 0)])
    case Waiting(_) => Move(s, id, Reading)
    case Reading => Move(s, id, if key in s.cache then Checking(s.cache[key]) else Returned(Failed))
    case Checking(entry) => Move(s, id, Returned(if entry.expires > s.now then Shared(entry, s.now) else Failed))
    case Stamping(ch, value) => Move(s, id, Storing(ch, Entry(value, s.now + s.calls[id].ttl)))
    case Storing(ch, entry) => Move(s, id, Evicting(ch, entry.value)).(cache := s.cache[key := entry])
    case Evicting(ch, value) => Move(s, id, Leaving(ch, Loaded(value)))
    case Leaving(ch, result) => Move(s, id, Closing(ch, result)).(inFlight := s.inFlight - {key})
    case Closing(ch, result) =>
      Move(s, id, Returned(result)).(channels := s.channels[ch := s.channels[ch].(closes := s.channels[ch].closes + 1)])
  }

  function Apply(s: System, step: Step): System
    requires Enabled(s, step)
  {
    match step
    case Tick(now) => s.(now := now)
    case Arrive(id, key, ttl) => s.(calls := s.calls[id := Call(key, ttl, Arrived)])
    case Advance(id) => Advanced(s, id)
    case Return(id, outcome) =>
      var ch := s.calls[id].place.ch;
      if outcome.None? then Move(s, id, Leaving(ch, Failed))
      else Move(s, id, Stamping(ch, outcome.value)).(loads := s.loads + {Load(s.calls[id].key, outcome.value)})
    case Evict(id, victim) => s.(cache := s.cache - {victim})
  }

  // ----- invariants -----

  /** The channel a call has made and not yet closed. */
  function Owned(place: Place): Option<nat> {
    match place
    case Loading(ch) => Some(ch)
    case Stamping(ch, _) => Some(ch)
    case Storing(ch, _) => Some(ch)
    case Evicting(ch, _) => Some(ch)
    case Leaving(ch, _) => Some(ch)
    case Closing(ch, _) => Some(ch)
    case _ => None
  }

  /** The place is between winning the key and giving it up. */
  predicate Holding(place: Place) {
    Owned(place).Some? && !place.Closing?
  }

  predicate ResultOk(s: System, key: Key, result: Result) {
    match result
    case Hit(entry, asOf) => Load(key, entry.value) in s.loads && asOf < entry.expires && asOf <= s.now
    case Shared(entry, asOf) => Load(key, entry.value) in s.loads && asOf < entry.expires && asOf <= s.now
    case Loaded(value) => Load(key, value) in s.loads
    case Failed => true
  }

  /** Values a call carries come from a loader for its own key. */
  predicate Carries(s: System, call: Call) {
    match call.place
    case Looking(asOf) => asOf <= s.now
    case Checking(entry) => Load(call.key, entry.value) in s.loads
    case Stamping(_, value) => Load(call.key, value) in s.loads
    case Storing(_, entry) => Load(call.key, entry.value) in s.loads
    case Evicting(_, value) => Load(call.key, value) in s.loads
    case Leaving(_, result) => ResultOk(s, call.key, result)
    case Closing(_, result) => ResultOk(s, call.key, result)
    case Returned(result) => ResultOk(s, call.key, result)
    case _ => true
  }

  ghost predicate ValuesOk(s: System) {
    && (forall id | id in s.calls :: Carries(s, s.calls[id]))
    && (forall k | k in s.cache :: Load(k, s.cache[k].value) in s.loads)
  }

  /** A call owns the channel it made; while it holds the key, inFlight says so. */
  predicate Linked(s: System, id: nat, call: Call) {
    && (call.place.Waiting? ==> call.place.ch < |s.channels| && s.channels[call.place.ch].key == call.key)
    && (Owned(call.place).Some? ==>
          Owned(call.place).value < |s.channels| && s.channels[Owned(call.place).value] == Channel(call.key, id, 0))
    && (Holding(call.place) ==> call.key in s.inFlight && s.inFlight[call.key] == Owned(call.place).value)
  }

  /** A channel is closed at most once, and an open one has its owner still at work. */
  predicate Closable(s: System, ch: nat)
    requires ch < |s.channels|
  {
    var c := s.channels[ch];
    c.closes <= 1 && c.owner in s.calls && (c.closes == 0 ==> Owned(s.calls[c.owner].place) == Some(ch))
  }

  /** A key is in flight only while the owner of its channel holds it. */
  predicate Held(s: System, k: Key)
    requires k in s.inFlight
  {
    var ch := s.inFlight[k];
    && ch < |s.channels| && s.channels[ch].key == k && s.channels[ch].closes == 0
    && s.channels[ch].owner in s.calls && Holding(s.calls[s.channels[ch].owner].place)
  }

  ghost predicate FlightsOk(s: System) {
    && (forall id | id in s.calls :: Linked(s, id, s.calls[id]))
    && (forall ch | 0 <= ch < |s.channels| :: Closable(s, ch))
    && (forall k | k in s.inFlight :: Held(s, k))
  }

  ghost predicate Inv(s: System) {
    ValuesOk(s) && FlightsOk(s)
  }

  lemma CarriesOn(s: System, s': System, call: Call)
    requires Carries(s, call) && s.loads <= s'.loads && s.now <= s'.now
    ensures Carries(s', call)
  {
  }

  lemma ActorCarries(s: System, id: nat)
    requires ValuesOk(s) && Enabled(s, Advance(id))
    ensures Carries(Advanced(s, id), Advanced(s, id).calls[id])
    ensures forall k | k in Advanced(s, id).cache :: Load(k, Advanced(s, id).cache[k].value) in s.loads
  {
    assert Carries(s, s.calls[id]);
  }

  lemma StepKeepsValues(s: System, step: Step)
    requires ValuesOk(s) && Enabled(s, step)
    ensures ValuesOk(Apply(s, step))
  {
    var s' := Apply(s, step);
    if step.Advance? {
      ActorCarries(s, step.id);
    }
    forall id | id in s'.calls
      ensures Carries(s', s'.calls[id])
    {
      if id in s.calls && s'.calls[id] == s.calls[id] {
        hide Carries;
        CarriesOn(s, s', s.calls[id]);
      }
    }
  }

  /** Steps that leave channels and inFlight alone. */
  predicate Quiet(s: System, step: Step) {
    step.Advance? && step.id in s.calls ==>
      !s.calls[step.id].place.Claiming? && !s.calls[step.id].place.Leaving? && !s.calls[step.id].place.Closing?
  }

  lemma OnlyActorMoves(s: System, id: nat)
    requires Enabled(s, Advance(id))
    ensures Advanced(s, id).calls.Keys == s.calls.Keys && forall i | i in s.calls && i != id :: Advanced(s, id).calls[i] == s.calls[i]
  {
  }

  lemma AdvanceKeepsPlace(s: System, id: nat)
    requires Enabled(s, Advance(id)) && Quiet(s, Advance(id))
    ensures id in Advanced(s, id).calls
    ensures
      var p, p' := s.calls[id].place, Advanced(s, id).calls[id].place;
      Advanced(s, id).calls[id].key == s.calls[id].key && Owned(p') == Owned(p) && Holding(p') == Holding(p) && (p'.Waiting? ==> p' == p)
  {
  }

  lemma QuietPlaces(s: System, step: Step, id: nat)
    requires Enabled(s, step) && Quiet(s, step) && id in s.calls
    ensures id in Apply(s, step).calls
    ensures
      var p, p' := s.calls[id].place, Apply(s, step).calls[id].place;
      Apply(s, step).calls[id].key == s.calls[id].key && Owned(p') == Owned(p) && Holding(p') == Holding(p) && (p'.Waiting? ==> p' == p)
  {
    if step.Advance? {
      hide Quiet, Advanced;
      OnlyActorMoves(s, step.id);
      AdvanceKeepsPlace(s, step.id);
    }
  }

  lemma QuietElsewhere(s: System, step: Step)
    requires Enabled(s, step) && Quiet(s, step)
    ensures Apply(s, step).channels == s.channels && Apply(s, step).inFlight == s.inFlight
    ensures forall id | id in Apply(s, step).calls && id !in s.calls :: Apply(s, step).calls[id].place == Arrived
  {
  }

  lemma QuietKeepsFlights(s: System, step: Step)
    requires FlightsOk(s) && Enabled(s, step) && Quiet(s, step)
    ensures FlightsOk(Apply(s, step))
  {
    hide Apply, Enabled, Quiet;
    var s' := Apply(s, step);
    QuietElsewhere(s, step);
    forall id | id in s'.calls
      ensures Linked(s', id, s'.calls[id])
    {
      if id in s.calls {
        QuietPlaces(s, step, id);
        assert Linked(s, id, s.calls[id]);
      }
    }
    forall ch | 0 <= ch < |s'.channels|
      ensures Closable(s', ch)
    {
      assert Closable(s, ch);
      QuietPlaces(s, step, s.channels[ch].owner);
    }
    forall k | k in s'.inFlight
      ensures Held(s', k)
    {
      assert Held(s, k);
      QuietPlaces(s, step, s.channels[s.inFlight[k]].owner);
    }
  }

  /** Joining the call in flight: only the place changes. */
  lemma JoinKeepsFlights(s: System, id: nat)
    requires FlightsOk(s) && At(s, id, Claiming) && s.calls[id].key in s.inFlight
    ensures FlightsOk(Advanced(s, id))
  {
    var s', key := Advanced(s, id), s.calls[id].key;
    assert Held(s, key);
    forall i | i in s'.calls
      ensures Linked(s', i, s'.calls[i])
    {
      assert Linked(s, i, s.calls[i]);
    }
    forall ch | 0 <= ch < |s'.channels|
      ensures Closable(s', ch)
    {
      assert Closable(s, ch);
    }
    forall k | k in s'.inFlight
      ensures Held(s', k)
    {
      assert Held(s, k);
    }
  }

  /** Winning the key: a channel of one's own. */
  lemma WinKeepsFlights(s: System, id: nat)
    requires FlightsOk(s) && At(s, id, Claiming) && s.calls[id].key !in s.inFlight
    ensures FlightsOk(Advanced(s, id))
  {
    var s' := Advanced(s, id);
    forall i | i in s'.calls
      ensures Linked(s', i, s'.calls[i])
    {
      assert Linked(s, i, s.calls[i]);
    }
    forall ch | 0 <= ch < |s'.channels|
      ensures Closable(s', ch)
    {
      assert ch < |s.channels| ==> Closable(s, ch);
    }
    forall k | k in s'.inFlight
      ensures Held(s', k)
    {
      assert k in s.inFlight ==> Held(s, k);
    }
  }

  lemma LeaveKeepsFlights(s: System, id: nat)
    requires FlightsOk(s) && id in s.calls && s.calls[id].place.Leaving?
    ensures FlightsOk(Advanced(s, id))
  {
    var s', key := Advanced(s, id), s.calls[id].key;
    assert Linked(s, id, s.calls[id]);
    forall i | i in s'.calls
      ensures Linked(s', i, s'.calls[i])
    {
      assert Linked(s, i, s.calls[i]);
    }
    forall ch | 0 <= ch < |s'.channels|
      ensures Closable(s', ch)
    {
      assert Closable(s, ch);
    }
    forall k | k in s'.inFlight
      ensures Held(s', k)
    {
      assert Held(s, k) && Closable(s, s.inFlight[k]);
    }
  }

  lemma CloseKeepsFlights(s: System, id: nat)
    requires FlightsOk(s) && id in s.calls && s.calls[id].place.Closing?
    requires Enabled(s, Advance(id))
    ensures FlightsOk(Advanced(s, id))
  {
    var s', ch := Advanced(s, id), s.calls[id].place.ch;
    assert Linked(s, id, s.calls[id]);
    forall i | i in s'.calls
      ensures Linked(s', i, s'.calls[i])
    {
      assert Linked(s, i, s.calls[i]);
    }
    forall c | 0 <= c < |s'.channels|
      ensures Closable(s', c)
    {
      assert Closable(s, c);
    }
    forall k | k in s'.inFlight
      ensures Held(s', k)
    {
      assert Held(s, k);
    }
  }

  lemma StepKeepsInv(s: System, step: Step)
    requires Inv(s) && Enabled(s, step)
    ensures Inv(Apply(s, step))
  {
    hide ValuesOk, FlightsOk, Advanced;
    StepKeepsValues(s, step);
    if Quiet(s, step) {
      QuietKeepsFlights(s, step);
    } else if s.calls[step.id].place.Claiming? {
      if s.calls[step.id].key in s.inFlight {
        JoinKeepsFlights(s, step.id);
      } else {
        WinKeepsFlights(s, step.id);
      }
    } else if s.calls[step.id].place.Leaving? {
      LeaveKeepsFlights(s, step.id);
    } else {
      CloseKeepsFlights(s, step.id);
    }
  }

  // ----- every run -----

  predicate ValidRun(s: System, steps: seq<Step>)
    decreases |steps|
  {
    steps == [] || (Enabled(s, steps[0]) && ValidRun(Apply(s, steps[0]), steps[1..]))
  }

  function Exec(s: System, steps: seq<Step>): System
    requires ValidRun(s, steps)
    decreases |steps|
  {
    if steps == [] then s else Exec(Apply(s, steps[0]), steps[1..])
  }

  lemma {:induction false} EveryRunKeepsInv(s: System, steps: seq<Step>)
    requires Inv(s) && ValidRun(s, steps)
    ensures Inv(Exec(s, steps))
    decreases |steps|
  {
    hide Inv, Apply;
    if steps != [] {
      StepKeepsInv(s, steps[0]);
      EveryRunKeepsInv(Apply(s, steps[0]), steps[1..]);
    }
  }

  lemma FirstStep(s: System, step: Step, rest: seq<Step>)
    requires Enabled(s, step) && ValidRun(Apply(s, step), rest)
    ensures ValidRun(s, [step] + rest) && Exec(s, [step] + rest) == Exec(Apply(s, step), rest)
  {
    assert ([step] + rest)[1..] == rest;
  }

  lemma {:induction false} RunInParts(s: System, a: seq<Step>, b: seq<Step>)
    requires ValidRun(s, a) && ValidRun(Exec(s, a), b)
    ensures ValidRun(s, a + b) && Exec(s, a + b) == Exec(Exec(s, a), b)
    decreases |a|
  {
    hide Apply, Enabled;
    if a == [] {
      assert a + b == b;
    } else {
      assert (a + b)[1..] == a[1..] + b;
      RunInParts(Apply(s, a[0]), a[1..], b);
    }
  }

  /** At most one call per key is between winning the key and giving it up; its loader runs in there. */
  predicate OneLoaderPerKey(s: System) {
    forall i, j | i in s.calls && j in s.calls && s.calls[i].key == s.calls[j].key &&
      Holding(s.calls[i].place) && Holding(s.calls[j].place) :: i == j
  }

  /** A call about to delete its key from inFlight finds its own channel there. */
  predicate DeletesItsOwn(s: System) {
    forall id | id in s.calls && s.calls[id].place.Leaving? ::
      && s.calls[id].key in s.inFlight
      && s.inFlight[s.calls[id].key] == s.calls[id].place.ch
      && s.calls[id].place.ch < |s.channels|
      && s.channels[s.calls[id].place.ch].owner == id
  }

  /** No channel is closed twice, and one whose owner has returned was closed. */
  predicate ClosedOnce(s: System) {
    forall ch | 0 <= ch < |s.channels| ::
      && s.channels[ch].closes <= 1
      && s.channels[ch].owner in s.calls
      && (s.calls[s.channels[ch].owner].place.Returned? ==> s.channels[ch].closes == 1)
  }

  /** A returned value was produced by a loader for that key, and was unexpired at the reading it was checked against. */
  predicate ReturnsLoaded(s: System) {
    forall id | id in s.calls && s.calls[id].place.Returned? :: ResultOk(s, s.calls[id].key, s.calls[id].place.result)
  }

  lemma InvIsSafe(s: System)
    requires Inv(s)
    ensures OneLoaderPerKey(s) && DeletesItsOwn(s) && ClosedOnce(s) && ReturnsLoaded(s)
  {
    forall i, j | i in s.calls && j in s.calls && s.calls[i].key == s.calls[j].key && Holding(s.calls[i].place) && Holding(s.calls[j].place)
      ensures i == j
    {
      assert Linked(s, i, s.calls[i]) && Linked(s, j, s.calls[j]);
    }
    assert DeletesItsOwn(s) by {
      assert forall id | id in s.calls :: Linked(s, id, s.calls[id]);
    }
    forall ch | 0 <= ch < |s.channels|
      ensures s.channels[ch].closes <= 1 && s.channels[ch].owner in s.calls
      ensures s.calls[s.channels[ch].owner].place.Returned? ==> s.channels[ch].closes == 1
    {
      assert Closable(s, ch);
    }
    assert forall id | id in s.calls :: Carries(s, s.calls[id]);
  }

  /** The protocol, in every interleaving of any number of calls. */
  lemma ReachableStates(now: int, steps: seq<Step>)
    requires ValidRun(Start(now), steps)
    ensures
      var s := Exec(Start(now), steps);
      OneLoaderPerKey(s) && DeletesItsOwn(s) && ClosedOnce(s) && ReturnsLoaded(s)
  {
    EveryRunKeepsInv(Start(now), steps);
    InvIsSafe(Exec(Start(now), steps));
  }

  // ----- what a call returns -----

  /** What the call will return is settled: its loader is back, or it has returned. */
  predicate Settled(s: System, id: nat, result: Result) {
    id in s.calls && match s.calls[id].place {
      case Stamping(_, value) => result == Loaded(value)
      case Storing(_, entry) => result == Loaded(entry.value)
      case Evicting(_, value) => result == Loaded(value)
      case Leaving(_, r) => result == r
      case Closing(_, r) => result == r
      case Returned(r) => result == r
      case _ => false
    }
  }

  lemma StepKeepsSettled(s: System, step: Step, id: nat, result: Result)
    requires Enabled(s, step) && Settled(s, id, result)
    ensures Settled(Apply(s, step), id, result)
  {
  }

  lemma {:induction false} RunKeepsSettled(s: System, steps: seq<Step>, id: nat, result: Result)
    requires ValidRun(s, steps) && Settled(s, id, result)
    ensures Settled(Exec(s, steps), id, result)
    decreases |steps|
  {
    hide Enabled, Apply, Settled;
    if steps != [] {
      StepKeepsSettled(s, steps[0], id, result);
      RunKeepsSettled(Apply(s, steps[0]), steps[1..], id, result);
    }
  }

  /** In every run a call whose loader came back returns what the loader brought: its value, or its failure. */
  lemma {:induction false} OwnLoadIsReturned(s: System, steps: seq<Step>, i: nat, id: nat, outcome: Option<Value>)
    requires ValidRun(s, steps) && i < |steps| && steps[i] == Return(id, outcome)
    ensures id in Exec(s, steps).calls
    ensures
      var place := Exec(s, steps).calls[id].place;
      place.Returned? ==> place.result == match outcome { case Some(value) => Loaded(value) case None => Failed }
    decreases |steps|
  {
    hide Enabled, Settled;
    var s1, result := Apply(s, steps[0]), match outcome { case Some(value) => Loaded(value) case None => Failed };
    if i == 0 {
      ReturnSettles(s, id, outcome, result);
      RunKeepsSettled(s1, steps[1..], id, result);
      SettledResult(Exec(s, steps), id, result);
    } else {
      OwnLoadIsReturned(s1, steps[1..], i - 1, id, outcome);
    }
  }

  lemma ReturnSettles(s: System, id: nat, outcome: Option<Value>, result: Result)
    requires Enabled(s, Return(id, outcome)) && result == match outcome { case Some(value) => Loaded(value) case None => Failed }
    ensures Settled(Apply(s, Return(id, outcome)), id, result)
  {
  }

  lemma SettledResult(s: System, id: nat, result: Result)
    requires Settled(s, id, result)
    ensures id in s.calls && (s.calls[id].place.Returned? ==> s.calls[id].place.result == result)
  {
  }

  lemma {:induction false} TimePasses(s: System, steps: seq<Step>)
    requires ValidRun(s, steps)
    ensures s.now <= Exec(s, steps).now
    decreases |steps|
  {
    if steps != [] {
      TimePasses(Apply(s, steps[0]), steps[1..]);
    }
  }

  /** A waiter that holds entry e returns it if it has not expired when checked, and fails if it has. */
  lemma {:induction false} CheckedEntryIsShared(s: System, steps: seq<Step>, id: nat, e: Entry)
    requires ValidRun(s, steps) && At(s, id, Checking(e))
    ensures id in Exec(s, steps).calls
    ensures
      var s' := Exec(s, steps);
      match s'.calls[id].place {
        case Checking(entry) => entry == e
        case Returned(Shared(entry, asOf)) => entry == e && s.now <= asOf <= s'.now && asOf < e.expires
        case Returned(Failed) => e.expires <= s'.now
        case _ => false
      }
    decreases |steps|
  {
    if steps != [] {
      var s1 := Apply(s, steps[0]);
      TimePasses(s1, steps[1..]);
      if steps[0] == Advance(id) {
        var result := if e.expires > s.now then Shared(e, s.now) else Failed;
        assert At(s1, id, Returned(result)) && s1.now == s.now;
        hide Apply, Enabled;
        ReturnedStays(s1, steps[1..], id, result);
      } else {
        assert s1.calls[id] == s.calls[id] && s.now <= s1.now;
        hide Apply, Enabled;
        CheckedEntryIsShared(s1, steps[1..], id, e);
      }
    }
  }

  lemma {:induction false} ReturnedStays(s: System, steps: seq<Step>, id: nat, result: Result)
    requires ValidRun(s, steps) && At(s, id, Returned(result))
    ensures At(Exec(s, steps), id, Returned(result))
    decreases |steps|
  {
    if steps != [] {
      ReturnedStays(Apply(s, steps[0]), steps[1..], id, result);
    }
  }

  /**
   In every run from a waiter's look into the cache on: it returns the entry that
   was there then, if that lives until the waiter has returned, and fails if nothing was there.
   */
  lemma WaiterSharesIff(s: System, steps: seq<Step>, id: nat)
    requires At(s, id, Reading) && steps != [] && steps[0] == Advance(id) && ValidRun(s, steps)
    requires id in Exec(s, steps).calls && Exec(s, steps).calls[id].place.Returned?
    ensures
      var key, s' := s.calls[id].key, Exec(s, steps);
      var result := s'.calls[id].place.result;
      && (result.Failed? || result.Shared?)
      && (key !in s.cache ==> result == Failed)
      && (key in s.cache && s'.now < s.cache[key].expires ==> result.Shared?)
      && (result.Shared? ==> key in s.cache && result.entry == s.cache[key] && s.now <= result.asOf < result.entry.expires)
  {
    var s1, key := Apply(s, Advance(id)), s.calls[id].key;
    if key in s.cache {
      CheckedEntryIsShared(s1, steps[1..], id, s.cache[key]);
    } else {
      ReturnedStays(s1, steps[1..], id, Failed);
    }
  }

  /** A waiter goes on only once its channel has been closed. */
  lemma {:induction false} WaitersWaitForTheOwner(s: System, steps: seq<Step>, id: nat, ch: nat)
    requires ValidRun(s, steps) && At(s, id, Waiting(ch)) && ch < |s.channels|
    ensures
      var s' := Exec(s, steps);
      ch < |s'.channels| && s'.channels[ch].closes >= s.channels[ch].closes && (!At(s', id, Waiting(ch)) ==> s'.channels[ch].closes > 0)
    decreases |steps|
  {
    if steps != [] {
      var s1 := Apply(s, steps[0]);
      ClosesGrow(s, steps[0], ch);
      if At(s1, id, Waiting(ch)) {
        WaitersWaitForTheOwner(s1, steps[1..], id, ch);
      } else {
        ClosedStays(s1, steps[1..], ch);
      }
    }
  }

  lemma ClosesGrow(s: System, step: Step, ch: nat)
    requires Enabled(s, step) && ch < |s.channels|
    ensures ch < |Apply(s, step).channels| && s.channels[ch].closes <= Apply(s, step).channels[ch].closes
  {
  }

  lemma {:induction false} ClosedStays(s: System, steps: seq<Step>, ch: nat)
    requires ValidRun(s, steps) && ch < |s.channels|
    ensures ch < |Exec(s, steps).channels| && s.channels[ch].closes <= Exec(s, steps).channels[ch].closes
    decreases |steps|
  {
    if steps != [] {
      ClosesGrow(s, steps[0], ch);
      hide Apply, Enabled;
      ClosedStays(Apply(s, steps[0]), steps[1..], ch);
    }
  }

  // ----- a call that nobody disturbs -----

  /** What a plain TTL cache answers, and holds afterwards, when its loader would bring outcome. */
  function Answer(cache: map<Key, Entry>, key: Key, ttl: int, now: int, outcome: Option<Value>): (Result, map<Key, Entry>) {
    if key in cache && now < cache[key].expires then (Hit(cache[key], now), cache)
    else
      match outcome
      case Some(value) => (Loaded(value), cache[key := Entry(value, now + ttl)])
      case None => (Failed, cache - {key})
  }

  /** The steps of a call that finds its key in the cache, and of one that becomes its loader. */
  function HitSteps(id: nat, key: Key, ttl: int): seq<Step> {
    [Arrive(id, key, ttl), Advance(id), Advance(id)]
  }

  function MissSteps(id: nat, key: Key, ttl: int, expired: bool): seq<Step> {
    HitSteps(id, key, ttl) + (if expired then [Advance(id), Advance(id)] else [Advance(id)])
  }

  function StoreSteps(id: nat, value: Value): seq<Step> {
    [Return(id, Some(value)), Advance(id), Advance(id)]
  }

  function CloseSteps(id: nat): seq<Step> {
    [Advance(id), Advance(id), Advance(id)]
  }

  /** The steps from the loader's return to the call's. */
  function LoadSteps(id: nat, outcome: Option<Value>): seq<Step> {
    match outcome
    case Some(value) => StoreSteps(id, value) + CloseSteps(id)
    case None => [Return(id, None), Advance(id), Advance(id)]
  }

  lemma TwoSteps(s: System, a: Step, b: Step)
    requires Enabled(s, a) && Enabled(Apply(s, a), b)
    ensures ValidRun(s, [a, b]) && Exec(s, [a, b]) == Apply(Apply(s, a), b)
  {
    hide Apply, Enabled;
    FirstStep(Apply(s, a), b, []);
    FirstStep(s, a, [b]);
  }

  lemma ThreeSteps(s: System, a: Step, b: Step, c: Step)
    requires Enabled(s, a) && Enabled(Apply(s, a), b) && Enabled(Apply(Apply(s, a), b), c)
    ensures ValidRun(s, [a, b, c]) && Exec(s, [a, b, c]) == Apply(Apply(Apply(s, a), b), c)
  {
    hide Apply, Enabled;
    TwoSteps(Apply(s, a), b, c);
    FirstStep(s, a, [b, c]);
  }

  /** Moving a call twice is moving it once. */
  lemma MovesOnce(calls: map<nat, Call>, id: nat, a: Call, b: Call)
    ensures calls[id := a][id := b] == calls[id := b]
  {
  }

  lemma StoreRuns(s: System, id: nat, ch: nat, value: Value)
    requires At(s, id, Loading(ch))
    ensures ValidRun(s, StoreSteps(id, value))
    ensures
      var call := s.calls[id];
      Exec(s, StoreSteps(id, value)) == s.(
        cache := s.cache[call.key := Entry(value, s.now + call.ttl)],
        calls := s.calls[id := call.(place := Evicting(ch, value))],
        loads := s.loads + {Load(call.key, value)})
  {
    var s1 := s.(calls := s.calls[id := s.calls[id].(place := Stamping(ch, value))], loads := s.loads + {Load(s.calls[id].key, value)});
    assert Enabled(s, Return(id, Some(value))) && Apply(s, Return(id, Some(value))) == s1;
    hide Apply, Enabled;
    StampsAndStores(s, id, ch, value);
    ThreeSteps(s, Return(id, Some(value)), Advance(id), Advance(id));
  }

  lemma StampsAndStores(s: System, id: nat, ch: nat, value: Value)
    requires id in s.calls
    ensures
      var call, loads := s.calls[id], s.loads + {Load(s.calls[id].key, value)};
      var s1 := s.(calls := s.calls[id := call.(place := Stamping(ch, value))], loads := loads);
      && Enabled(s1, Advance(id)) && Enabled(Apply(s1, Advance(id)), Advance(id))
      && Apply(Apply(s1, Advance(id)), Advance(id)) == s.(
           cache := s.cache[call.key := Entry(value, s.now + call.ttl)],
           calls := s.calls[id := call.(place := Evicting(ch, value))],
           loads := loads)
  {
    var call, e := s.calls[id], Entry(value, s.now + s.calls[id].ttl);
    var s1 := s.(calls := s.calls[id := call.(place := Stamping(ch, value))], loads := s.loads + {Load(call.key, value)});
    MovesOnce(s.calls, id, call.(place := Stamping(ch, value)), call.(place := Storing(ch, e)));
    MovesOnce(s.calls, id, call.(place := Storing(ch, e)), call.(place := Evicting(ch, value)));
    assert Apply(s1, Advance(id)) == s1.(calls := s.calls[id := call.(place := Storing(ch, e))]);
  }

  lemma CloseRuns(s: System, id: nat, ch: nat, value: Value)
    requires At(s, id, Evicting(ch, value)) && ch < |s.channels|
    ensures ValidRun(s, CloseSteps(id))
    ensures
      var call := s.calls[id];
      Exec(s, CloseSteps(id)) == s.(
        inFlight := s.inFlight - {call.key},
        channels := s.channels[ch := s.channels[ch].(closes := s.channels[ch].closes + 1)],
        calls := s.calls[id := call.(place := Returned(Loaded(value)))])
  {
    var s1 := s.(calls := s.calls[id := s.calls[id].(place := Leaving(ch, Loaded(value)))]);
    assert Enabled(s, Advance(id)) && Apply(s, Advance(id)) == s1;
    hide Apply, Enabled;
    LeavesAndCloses(s, id, ch, Loaded(value));
    ThreeSteps(s, Advance(id), Advance(id), Advance(id));
  }

  lemma LeavesAndCloses(s: System, id: nat, ch: nat, result: Result)
    requires id in s.calls && ch < |s.channels|
    ensures
      var s1 := s.(calls := s.calls[id := s.calls[id].(place := Leaving(ch, result))]);
      && Enabled(s1, Advance(id)) && Enabled(Apply(s1, Advance(id)), Advance(id))
      && Apply(Apply(s1, Advance(id)), Advance(id)) == s.(
           inFlight := s.inFlight - {s.calls[id].key},
           channels := s.channels[ch := s.channels[ch].(closes := s.channels[ch].closes + 1)],
           calls := s.calls[id := s.calls[id].(place := Returned(result))])
  {
    var call := s.calls[id];
    var s1 := s.(calls := s.calls[id := call.(place := Leaving(ch, result))]);
    MovesOnce(s.calls, id, call.(place := Leaving(ch, result)), call.(place := Closing(ch, result)));
    MovesOnce(s.calls, id, call.(place := Closing(ch, result)), call.(place := Returned(result)));
    assert Apply(s1, Advance(id)) == s.(calls := s.calls[id := call.(place := Closing(ch, result))], inFlight := s.inFlight - {call.key});
  }

  lemma LoadRuns(s: System, id: nat, ch: nat, value: Value)
    requires At(s, id, Loading(ch)) && ch < |s.channels|
    ensures ValidRun(s, LoadSteps(id, Some(value)))
    ensures
      var call := s.calls[id];
      Exec(s, LoadSteps(id, Some(value))) == s.(
        cache := s.cache[call.key := Entry(value, s.now + call.ttl)],
        inFlight := s.inFlight - {call.key},
        channels := s.channels[ch := s.channels[ch].(closes := s.channels[ch].closes + 1)],
        calls := s.calls[id := call.(place := Returned(Loaded(value)))],
        loads := s.loads + {Load(call.key, value)})
  {
    hide ValidRun, Exec, StoreSteps, CloseSteps, Apply, Enabled;
    var call := s.calls[id];
    StoreRuns(s, id, ch, value);
    var s1 := Exec(s, StoreSteps(id, value));
    CloseRuns(s1, id, ch, value);
    MovesOnce(s.calls, id, call.(place := Evicting(ch, value)), call.(place := Returned(Loaded(value))));
    RunInParts(s, StoreSteps(id, value), CloseSteps(id));
  }

  lemma FailureRuns(s: System, id: nat, ch: nat)
    requires At(s, id, Loading(ch)) && ch < |s.channels|
    ensures ValidRun(s, LoadSteps(id, None))
    ensures
      var call := s.calls[id];
      Exec(s, LoadSteps(id, None)) == s.(
        inFlight := s.inFlight - {call.key},
        channels := s.channels[ch := s.channels[ch].(closes := s.channels[ch].closes + 1)],
        calls := s.calls[id := call.(place := Returned(Failed))])
  {
    var s1 := s.(calls := s.calls[id := s.calls[id].(place := Leaving(ch, Failed))]);
    assert Enabled(s, Return(id, None)) && Apply(s, Return(id, None)) == s1;
    hide Apply, Enabled;
    LeavesAndCloses(s, id, ch, Failed);
    ThreeSteps(s, Return(id, None), Advance(id), Advance(id));
  }

  lemma HitRuns(s: System, id: nat, key: Key, ttl: int)
    requires id !in s.calls
    ensures ValidRun(s, HitSteps(id, key, ttl))
    ensures
      var place := if key !in s.cache then Claiming else if s.now < s.cache[key].expires then Returned(Hit(s.cache[key], s.now)) else Dropping;
      Exec(s, HitSteps(id, key, ttl)) == s.(calls := s.calls[id := Call(key, ttl, place)])
  {
    var place := if key !in s.cache then Claiming else if s.now < s.cache[key].expires then Returned(Hit(s.cache[key], s.now)) else Dropping;
    MovesOnce(s.calls, id, Call(key, ttl, Arrived), Call(key, ttl, Looking(s.now)));
    MovesOnce(s.calls, id, Call(key, ttl, Looking(s.now)), Call(key, ttl, place));
    var s1, s2 := s.(calls := s.calls[id := Call(key, ttl, Arrived)]), s.(calls := s.calls[id := Call(key, ttl, Looking(s.now))]);
    assert Enabled(s, Arrive(id, key, ttl)) && Apply(s, Arrive(id, key, ttl)) == s1;
    assert Enabled(s1, Advance(id)) && Apply(s1, Advance(id)) == s2;
    assert Enabled(s2, Advance(id)) && Apply(s2, Advance(id)) == s.(calls := s.calls[id := Call(key, ttl, place)]);
    hide Apply, Enabled;
    ThreeSteps(s, Arrive(id, key, ttl), Advance(id), Advance(id));
  }

  lemma MissRuns(s: System, id: nat, key: Key, ttl: int)
    requires id !in s.calls && key !in s.inFlight && (key in s.cache ==> s.cache[key].expires <= s.now)
    ensures ValidRun(s, MissSteps(id, key, ttl, key in s.cache))
    ensures
      Exec(s, MissSteps(id, key, ttl, key in s.cache)) == s.(
        cache := s.cache - {key},
        inFlight := s.inFlight[key := |s.channels|],
        channels := s.channels + [Channel(key, id, 0)],
        calls := s.calls[id := Call(key, ttl, Loading(|s.channels|))])
  {
    HitRuns(s, id, key, ttl);
    var s1 := Exec(s, HitSteps(id, key, ttl));
    var s2 := Apply(s1, Advance(id));
    hide HitSteps;
    if key in s.cache {
      TwoSteps(s1, Advance(id), Advance(id));
      hide Apply, Enabled;
      RunInParts(s, HitSteps(id, key, ttl), [Advance(id), Advance(id)]);
    } else {
      assert s.cache - {key} == s.cache;
      hide Apply, Enabled;
      FirstStep(s1, Advance(id), []);
      RunInParts(s, HitSteps(id, key, ttl), [Advance(id)]);
    }
  }

  /**
   A call that runs undisturbed, from any state in which its key is not in
   flight, does what a plain TTL cache does: the value of an unexpired entry is
   returned without loading, anything else is loaded and kept for the ttl, and
   an error is passed on and not kept.  It leaves nothing in flight.
   */
  lemma LoneCall(s: System, id: nat, key: Key, ttl: int, outcome: Option<Value>) returns (steps: seq<Step>)
    requires id !in s.calls && key !in s.inFlight
    ensures ValidRun(s, steps)
    ensures
      var (result, cache) := Answer(s.cache, key, ttl, s.now, outcome);
      var s' := Exec(s, steps);
      && s'.cache == cache && s'.inFlight == s.inFlight && s'.now == s.now
      && s'.calls == s.calls[id := Call(key, ttl, Returned(result))]
      && (s'.loads == if result.Loaded? then s.loads + {Load(key, outcome.value)} else s.loads)
  {
    hide HitSteps, MissSteps, LoadSteps, ValidRun, Exec, Apply, Enabled;
    if key in s.cache && s.now < s.cache[key].expires {
      HitRuns(s, id, key, ttl);
      steps := HitSteps(id, key, ttl);
    } else {
      MissRuns(s, id, key, ttl);
      var miss := MissSteps(id, key, ttl, key in s.cache);
      var s1, loading := Exec(s, miss), Call(key, ttl, Loading(|s.channels|));
      assert s.inFlight[key := |s.channels|] - {key} == s.inFlight;
      match outcome {
        case Some(value) =>
          LoadRuns(s1, id, |s.channels|, value);
          MovesOnce(s.calls, id, loading, Call(key, ttl, Returned(Loaded(value))));
          assert (s.cache - {key})[key := Entry(value, s.now + ttl)] == s.cache[key := Entry(value, s.now + ttl)];
        case None =>
          FailureRuns(s1, id, |s.channels|);
          MovesOnce(s.calls, id, loading, Call(key, ttl, Returned(Failed)));
      }
      RunInParts(s, miss, LoadSteps(id, outcome));
      steps := miss + LoadSteps(id, outcome);
    }
  }

  /** The steps of a waiter from its wake-up to its return. */
  function WakeSteps(id: nat, found: bool): seq<Step> {
    if found then [Advance(id), Advance(id), Advance(id)] else [Advance(id), Advance(id)]
  }

  lemma WakeRuns(s: System, id: nat, ch: nat)
    requires At(s, id, Waiting(ch)) && ch < |s.channels| && s.channels[ch].closes > 0
    ensures
      var call := s.calls[id];
      var result := if call.key in s.cache && s.now < s.cache[call.key].expires then Shared(s.cache[call.key], s.now) else Failed;
      var steps := WakeSteps(id, call.key in s.cache);
      ValidRun(s, steps) && Exec(s, steps) == s.(calls := s.calls[id := call.(place := Returned(result))])
  {
    var call := s.calls[id];
    var s1 := s.(calls := s.calls[id := call.(place := Reading)]);
    assert Enabled(s, Advance(id)) && Apply(s, Advance(id)) == s1;
    if call.key in s.cache {
      var e := s.cache[call.key];
      var result := if s.now < e.expires then Shared(e, s.now) else Failed;
      var s2 := s.(calls := s.calls[id := call.(place := Checking(e))]);
      MovesOnce(s.calls, id, call.(place := Reading), call.(place := Checking(e)));
      MovesOnce(s.calls, id, call.(place := Checking(e)), call.(place := Returned(result)));
      assert Enabled(s1, Advance(id)) && Apply(s1, Advance(id)) == s2;
      assert Enabled(s2, Advance(id)) && Apply(s2, Advance(id)) == s.(calls := s.calls[id := call.(place := Returned(result))]);
      hide Apply, Enabled;
      ThreeSteps(s, Advance(id), Advance(id), Advance(id));
    } else {
      MovesOnce(s.calls, id, call.(place := Reading), call.(place := Returned(Failed)));
      assert Enabled(s1, Advance(id)) && Apply(s1, Advance(id)) == s.(calls := s.calls[id := call.(place := Returned(Failed))]);
      hide Apply, Enabled;
      TwoSteps(s, Advance(id), Advance(id));
    }
  }

  /** What an owner's return means to a waiter on its channel. */
  lemma OwnerFinishes(s: System, id: nat, owner: nat, ch: nat, outcome: Option<Value>)
    requires At(s, id, Waiting(ch)) && At(s, owner, Loading(ch)) && ch < |s.channels| && s.calls[owner].key == s.calls[id].key
    ensures ValidRun(s, LoadSteps(owner, outcome))
    ensures
      var s1 := Exec(s, LoadSteps(owner, outcome));
      && id in s1.calls && s1.calls[id] == s.calls[id] && s1.now == s.now
      && ch < |s1.channels| && s1.channels[ch].closes == s.channels[ch].closes + 1
      && s1.cache == match outcome {
           case Some(value) => s.cache[s.calls[id].key := Entry(value, s.now + s.calls[owner].ttl)]
           case None => s.cache
         }
  {
    hide LoadSteps, ValidRun, Exec;
    match outcome
    case Some(value) => LoadRuns(s, owner, ch, value);
    case None => FailureRuns(s, owner, ch);
  }

  lemma JoinRuns(s: System, id: nat, key: Key, ttl: int)
    requires id !in s.calls && key in s.inFlight && (key in s.cache ==> s.cache[key].expires <= s.now)
    ensures ValidRun(s, MissSteps(id, key, ttl, key in s.cache))
    ensures
      Exec(s, MissSteps(id, key, ttl, key in s.cache)) == s.(
        cache := s.cache - {key},
        calls := s.calls[id := Call(key, ttl, Waiting(s.inFlight[key]))])
  {
    HitRuns(s, id, key, ttl);
    var s1 := Exec(s, HitSteps(id, key, ttl));
    hide HitSteps;
    if key in s.cache {
      TwoSteps(s1, Advance(id), Advance(id));
      hide Apply, Enabled;
      RunInParts(s, HitSteps(id, key, ttl), [Advance(id), Advance(id)]);
    } else {
      assert s.cache - {key} == s.cache;
      hide Apply, Enabled;
      FirstStep(s1, Advance(id), []);
      RunInParts(s, HitSteps(id, key, ttl), [Advance(id)]);
    }
  }

  lemma WaiterWakes(s: System, id: nat, owner: nat, ch: nat, outcome: Option<Value>) returns (steps: seq<Step>)
    requires At(s, id, Waiting(ch)) && At(s, owner, Loading(ch)) && ch < |s.channels|
    requires s.calls[owner].key == s.calls[id].key && s.calls[id].key !in s.cache
    ensures ValidRun(s, steps) && id in Exec(s, steps).calls
    ensures Exec(s, steps).calls[id].place == Returned(SharedAnswer(outcome, s.now, s.calls[owner].ttl))
  {
    hide LoadSteps, WakeSteps, ValidRun, Exec, Apply, Enabled;
    OwnerFinishes(s, id, owner, ch, outcome);
    var s1 := Exec(s, LoadSteps(owner, outcome));
    WakeRuns(s1, id, ch);
    var wake := WakeSteps(id, s.calls[id].key in s1.cache);
    RunInParts(s, LoadSteps(owner, outcome), wake);
    steps := LoadSteps(owner, outcome) + wake;
  }

  /** The loaded value with the owner's expiry, unless that expires at once. */
  function SharedAnswer(outcome: Option<Value>, now: int, ttl: int): Result {
    match outcome
    case Some(value) => if ttl > 0 then Shared(Entry(value, now + ttl), now) else Failed
    case None => Failed
  }

  /**
   A second call for a key that is being loaded does not load it again: from any
   reachable state, with any other calls in it, it waits for the call that does
   and shares what that one's loader brings, value and expiry, or its failure.
   */
  lemma SecondCallShares(s: System, id: nat, key: Key, ttl: int, outcome: Option<Value>) returns (steps: seq<Step>)
    requires Inv(s) && id !in s.calls && key in s.inFlight && (key in s.cache ==> s.cache[key].expires <= s.now)
    requires exists owner :: At(s, owner, Loading(s.inFlight[key]))
    ensures ValidRun(s, steps) && id in Exec(s, steps).calls
    ensures forall owner | At(s, owner, Loading(s.inFlight[key])) ::
      Exec(s, steps).calls[id].place == Returned(SharedAnswer(outcome, s.now, s.calls[owner].ttl))
  {
    var ch := s.inFlight[key];
    var owner :| At(s, owner, Loading(ch));
    assert Held(s, key) && Linked(s, owner, s.calls[owner]);
    assert forall other | At(s, other, Loading(ch)) :: Linked(s, other, s.calls[other]) && other == owner;
    hide Inv, Linked, Held, ValidRun, Exec, Apply, Enabled, MissSteps;
    JoinRuns(s, id, key, ttl);
    var join := MissSteps(id, key, ttl, key in s.cache);
    var s1 := Exec(s, join);
    var wake := WaiterWakes(s1, id, owner, ch, outcome);
    RunInParts(s, join, wake);
    steps := join + wake;
  }

  // ----- nobody waits for ever -----

  /** How many operations an owner has left, if its loader now gives up. */
  function Rank(place: Place): nat {
    match place
    case Stamping(_, _) => 5
    case Storing(_, _) => 4
    case Loading(_) => 3
    case Evicting(_, _) => 3
    case Leaving(_, _) => 2
    case Closing(_, _) => 1
    case _ => 0
  }

  function Next(id: nat, place: Place): Step {
    if place.Loading? then Return(id, None) else Advance(id)
  }

  function ToClose(id: nat, place: Place): (steps: seq<Step>)
    requires Owned(place).Some?
    ensures |steps| == Rank(place) <= 5
  {
    [Next(id, place)] + seq(Rank(place) - 1, _ => Advance(id))
  }

  /** Nothing but call id differs. */
  predicate OnlyMoves(s: System, s': System, id: nat) {
    s'.calls.Keys == s.calls.Keys && forall i | i in s.calls && i != id :: s'.calls[i] == s.calls[i]
  }

  lemma OwnerAdvances(s: System, id: nat, ch: nat)
    requires id in s.calls && Owned(s.calls[id].place) == Some(ch) && !s.calls[id].place.Closing?
    ensures
      var step := Next(id, s.calls[id].place);
      && Enabled(s, step)
      && var s1 := Apply(s, step);
         OnlyMoves(s, s1, id) && Owned(s1.calls[id].place) == Some(ch) && !s1.calls[id].place.Loading? &&
         Rank(s1.calls[id].place) == Rank(s.calls[id].place) - 1
  {
  }

  lemma OwnerClosesNow(s: System, id: nat, ch: nat)
    requires Inv(s) && id in s.calls && Owned(s.calls[id].place) == Some(ch) && s.calls[id].place.Closing?
    ensures Enabled(s, Advance(id))
    ensures
      var s1 := Apply(s, Advance(id));
      OnlyMoves(s, s1, id) && ch < |s1.channels| && s1.channels[ch].closes == 1
  {
    assert Linked(s, id, s.calls[id]);
  }

  /** The owner's own next operations close its channel and move no other call. */
  lemma {:induction false} OwnerCloses(s: System, id: nat, ch: nat)
    requires Inv(s) && id in s.calls && Owned(s.calls[id].place) == Some(ch)
    ensures ValidRun(s, ToClose(id, s.calls[id].place))
    ensures
      var s' := Exec(s, ToClose(id, s.calls[id].place));
      OnlyMoves(s, s', id) && ch < |s'.channels| && s'.channels[ch].closes == 1
    decreases Rank(s.calls[id].place)
  {
    hide Inv, Apply, Enabled;
    var place := s.calls[id].place;
    var steps := ToClose(id, place);
    if place.Closing? {
      OwnerClosesNow(s, id, ch);
      assert steps == [Advance(id)] && steps[1..] == [];
    } else {
      OwnerAdvances(s, id, ch);
      StepKeepsInv(s, steps[0]);
      var s1 := Apply(s, steps[0]);
      assert steps[1..] == ToClose(id, s1.calls[id].place);
      OwnerCloses(s1, id, ch);
    }
  }

  /**
   A waiter never waits on a channel nobody will close: either it can go on,
   or the owner's own next steps (at most five once its loader is back) wake it.
   */
  lemma WaitersWake(s: System, id: nat)
    requires Inv(s) && id in s.calls && s.calls[id].place.Waiting?
    ensures exists steps :: |steps| <= 5 && ValidRun(s, steps) && Enabled(Exec(s, steps), Advance(id))
  {
    var ch := s.calls[id].place.ch;
    assert Linked(s, id, s.calls[id]) && Closable(s, ch);
    if s.channels[ch].closes > 0 {
      assert ValidRun(s, []) && Exec(s, []) == s;
    } else {
      var owner := s.channels[ch].owner;
      OwnerCloses(s, owner, ch);
    }
  }

  // ----- how stale a hit can be -----

  /** The next operation of call id reads the cache and returns entry e, compared with the clock as of asOf. */
  predicate Hits(s: System, id: nat, asOf: int, e: Entry) {
    At(s, id, Looking(asOf)) && Advanced(s, id).calls[id].place == Returned(Hit(e, asOf))
  }

  /** In every reachable state, a hit that is read delay after its clock reading is unexpired when read. */
  ghost predicate FreshAfter(start: int, delay: nat) {
    forall steps, id, asOf, e | ValidRun(Start(start), steps) && Hits(Exec(Start(start), steps), id, asOf, e) ::
      Exec(Start(start), steps).now == asOf + delay ==> e.expires > Exec(Start(start), steps).now
  }

  /** Call 0 misses and wins the key; then it loads "v" for one tick of life. */
  const ONE_MISS := [Arrive(0, "k", 1), Advance(0), Advance(0), Advance(0)]
  const ONE_LOAD := [Return(0, Some("v")), Advance(0), Advance(0)]

  /** Then call 1 reads the clock, and time passes before it reads the cache. */
  function LateLook(now: int): seq<Step> {
    [Arrive(1, "k", 1), Advance(1), Tick(now)]
  }

  lemma OneMissRuns(start: int) returns (s: System)
    ensures ValidRun(Start(start), ONE_MISS) && s == Exec(Start(start), ONE_MISS)
    ensures s.now == start && s.cache == map[] && s.calls == map[0 := Call("k", 1, Loading(0))]
  {
    var s0 := Start(start);
    var s1 := Apply(s0, Arrive(0, "k", 1));
    var s2 := Apply(s1, Advance(0));
    var s3 := Apply(s2, Advance(0));
    s := Apply(s3, Advance(0));
    hide Apply, Enabled;
    FirstStep(s3, Advance(0), []);
    FirstStep(s2, Advance(0), [Advance(0)]);
    FirstStep(s1, Advance(0), [Advance(0), Advance(0)]);
    FirstStep(s0, Arrive(0, "k", 1), [Advance(0), Advance(0), Advance(0)]);
  }

  lemma OneLoadRuns(s: System) returns (s': System)
    requires s.cache == map[] && s.calls == map[0 := Call("k", 1, Loading(0))]
    ensures ValidRun(s, ONE_LOAD) && s' == Exec(s, ONE_LOAD)
    ensures s'.now == s.now && s'.cache == map["k" := Entry("v", s.now + 1)] && 1 !in s'.calls
  {
    var s1 := Apply(s, Return(0, Some("v")));
    var s2 := Apply(s1, Advance(0));
    s' := Apply(s2, Advance(0));
    hide Apply, Enabled;
    FirstStep(s2, Advance(0), []);
    FirstStep(s1, Advance(0), [Advance(0)]);
    FirstStep(s, Return(0, Some("v")), [Advance(0), Advance(0)]);
  }

  lemma LateLookRuns(s: System, e: Entry, delay: nat) returns (s': System)
    requires 1 !in s.calls && s.cache == map["k" := e] && e.expires == s.now + 1
    ensures ValidRun(s, LateLook(s.now + delay)) && s' == Exec(s, LateLook(s.now + delay))
    ensures s'.now == s.now + delay && Hits(s', 1, s.now, e)
  {
    var s1 := Apply(s, Arrive(1, "k", 1));
    var s2 := Apply(s1, Advance(1));
    s' := Apply(s2, Tick(s.now + delay));
    assert s'.now == s.now + delay && Hits(s', 1, s.now, e);
    FirstStep(s2, Tick(s.now + delay), []);
    FirstStep(s1, Advance(1), [Tick(s.now + delay)]);
    FirstStep(s, Arrive(1, "k", 1), [Advance(1), Tick(s.now + delay)]);
  }

  /** A reachable hit that has expired when it is read. */
  lemma DelayedHitIsStale(start: int, delay: nat) returns (steps: seq<Step>)
    requires delay > 0
    ensures ValidRun(Start(start), steps)
    ensures
      var s, e := Exec(Start(start), steps), Entry("v", start + 1);
      Hits(s, 1, start, e) && s.now == start + delay && e.expires <= s.now
  {
    var s1 := OneMissRuns(start);
    var s2 := OneLoadRuns(s1);
    var s3 := LateLookRuns(s2, Entry("v", start + 1), delay);
    hide Hits, ONE_MISS, ONE_LOAD, LateLook, ValidRun, Exec;
    RunInParts(s1, ONE_LOAD, LateLook(start + delay));
    RunInParts(Start(start), ONE_MISS, ONE_LOAD + LateLook(start + delay));
    steps := ONE_MISS + (ONE_LOAD + LateLook(start + delay));
  }

  /**
   A fast-path hit is compared with the clock as it was when the call began.
   Over all reachable states, the value it returns is unexpired when read
   exactly when no time lies between the two; any delay lets an expired one through.
   */
  lemma HitsAreFreshIff(start: int, delay: nat)
    ensures FreshAfter(start, delay) <==> delay == 0
  {
    if delay > 0 {
      var steps := DelayedHitIsStale(start, delay);
    } else {
      forall s: System, id, asOf, e | Hits(s, id, asOf, e)
        ensures e.expires > asOf
      {
        HitIsCompared(s, id, asOf, e);
      }
    }
  }

  lemma HitIsCompared(s: System, id: nat, asOf: int, e: Entry)
    requires Hits(s, id, asOf, e)
    ensures e.expires > asOf
  {
  }

  // ----- the eviction pass -----

  const MAX_RESPONSE_CACHE_ENTRIES := 5000

  /**
   What evictResponseCacheIfNeeded may do to the entries it ranges over: the
   expired ones go, and of the others the earliest to expire while more than the
   maximum are left; which, among equals, is up to the map's order and the sort.
   */
  predicate EvictsTo(cache: map<Key, Entry>, now: int, kept: map<Key, Entry>) {
    && (forall k | k in kept :: k in cache && kept[k] == cache[k] && now < cache[k].expires)
    && |kept| <= 5000
    && (forall k | k in cache && k !in kept && now < cache[k].expires ::
          |kept| == 5000 && forall j | j in kept :: cache[k].expires <= cache[j].expires)
  }

  predicate ByExpiry(cache: map<Key, Entry>, keys: seq<Key>) {
    && (forall k | k in keys :: k in cache)
    && (forall i, j | 0 <= i < j < |keys| :: keys[i] != keys[j] && cache[keys[i]].expires <= cache[keys[j]].expires)
  }

  /** One more key in its place in the order of expiry. */
  function InsertByExpiry(cache: map<Key, Entry>, keys: seq<Key>, key: Key): seq<Key>
    requires ByExpiry(cache, keys) && key in cache
  {
    if keys == [] then [key]
    else if cache[key].expires < cache[keys[0]].expires then [key] + keys
    else [keys[0]] + InsertByExpiry(cache, keys[1..], key)
  }

  lemma {:induction false} InsertKeepsOrder(cache: map<Key, Entry>, keys: seq<Key>, key: Key)
    requires ByExpiry(cache, keys) && key in cache && key !in keys
    ensures ByExpiry(cache, InsertByExpiry(cache, keys, key))
    ensures forall k :: k in InsertByExpiry(cache, keys, key) <==> k in keys || k == key
  {
    if keys != [] && cache[key].expires >= cache[keys[0]].expires {
      var rest := InsertByExpiry(cache, keys[1..], key);
      InsertKeepsOrder(cache, keys[1..], key);
      assert keys == [keys[0]] + keys[1..];
      assert forall k | k in rest :: k != keys[0] && cache[keys[0]].expires <= cache[k].expires;
    }
  }

  lemma {:induction false} DistinctSize(keys: seq<Key>)
    requires forall i, j | 0 <= i < j < |keys| :: keys[i] != keys[j]
    ensures |set k | k in keys| == |keys|
  {
    if keys != [] {
      DistinctSize(keys[1..]);
      assert (set k | k in keys) == (set k | k in keys[1..]) + {keys[0]};
    }
  }

  /** The pass, on the entries it ranges over; it returns the keys it deletes, in order. */
  method EvictPass(cache: map<Key, Entry>, now: int) returns (deleted: seq<Key>)
    ensures EvictsTo(cache, now, cache - set k | k in deleted)
  {
    var expired: seq<Key>, live: seq<Key>, todo := [], [], cache.Keys;
    while todo != {}
      invariant todo <= cache.Keys && ByExpiry(cache, live)
      invariant forall k | k in cache && k !in todo :: if now < cache[k].expires then k in live else k in expired
      invariant forall k | k in live :: k !in todo && now < cache[k].expires
      invariant forall k | k in expired :: k in cache && cache[k].expires <= now
    {
      var key :| key in todo;
      todo := todo - {key};
      if cache[key].expires > now {
        InsertKeepsOrder(cache, live, key);
        live := InsertByExpiry(cache, live, key);
      } else {
        expired := expired + [key];
      }
    }
    var excess := if |live| <= MAX_RESPONSE_CACHE_ENTRIES then 0 else |live| - MAX_RESPONSE_CACHE_ENTRIES;
    deleted := expired + live[..excess];
    PassMeans(cache, now, expired, live, excess);
  }

  /** Of keys in order of expiry, the front ones differ from the others and expire no later. */
  lemma FrontExpiresFirst(cache: map<Key, Entry>, keys: seq<Key>, n: nat, a: Key, b: Key)
    requires ByExpiry(cache, keys) && n <= |keys| && a in keys[..n] && b in keys[n..]
    ensures a != b && a in cache && b in cache && cache[a].expires <= cache[b].expires
  {
    var i :| 0 <= i < n && keys[i] == a;
    var j :| 0 <= j < |keys| - n && keys[n..][j] == b;
    assert keys[n + j] == b;
  }

  lemma InFrontOrBehind(keys: seq<Key>, n: nat, k: Key)
    requires n <= |keys|
    ensures k in keys <==> k in keys[..n] || k in keys[n..]
  {
    assert keys == keys[..n] + keys[n..];
  }

  lemma PassKeeps(cache: map<Key, Entry>, now: int, expired: seq<Key>, live: seq<Key>, excess: nat, k: Key)
    requires ByExpiry(cache, live) && excess <= |live|
    requires forall k | k in cache :: if now < cache[k].expires then k in live else k in expired
    requires forall k | k in live :: now < cache[k].expires
    requires forall k | k in expired :: k in cache && cache[k].expires <= now
    ensures k in cache && k !in expired + live[..excess] <==> k in live[excess..]
  {
    InFrontOrBehind(live, excess, k);
    if k in live[..excess] && k in live[excess..] {
      FrontExpiresFirst(cache, live, excess, k, k);
    }
  }

  lemma PassSize(cache: map<Key, Entry>, now: int, expired: seq<Key>, live: seq<Key>, excess: nat)
    requires ByExpiry(cache, live) && excess <= |live|
    requires forall k | k in cache :: if now < cache[k].expires then k in live else k in expired
    requires forall k | k in live :: now < cache[k].expires
    requires forall k | k in expired :: k in cache && cache[k].expires <= now
    ensures
      var kept := cache - set k | k in expired + live[..excess];
      |kept| == |live| - excess && forall k :: k in kept <==> k in live[excess..]
  {
    var rest := live[excess..];
    var kept := cache - set k | k in expired + live[..excess];
    forall k: Key
      ensures k in kept <==> k in rest
    {
      PassKeeps(cache, now, expired, live, excess, k);
    }
    assert kept.Keys == set k | k in rest;
    DistinctSize(rest);
  }

  lemma PassMeans(cache: map<Key, Entry>, now: int, expired: seq<Key>, live: seq<Key>, excess: nat)
    requires ByExpiry(cache, live) && excess == Max(0, |live| - MAX_RESPONSE_CACHE_ENTRIES)
    requires forall k | k in cache :: if now < cache[k].expires then k in live else k in expired
    requires forall k | k in live :: now < cache[k].expires
    requires forall k | k in expired :: k in cache && cache[k].expires <= now
    ensures EvictsTo(cache, now, cache - set k | k in expired + live[..excess])
  {
    var kept := cache - set k | k in expired + live[..excess];
    PassSize(cache, now, expired, live, excess);
    hide ByExpiry;
    forall k | k in kept
      ensures now < cache[k].expires
    {
      InFrontOrBehind(live, excess, k);
    }
    forall k | k in cache && k !in kept && now < cache[k].expires
      ensures |kept| == MAX_RESPONSE_CACHE_ENTRIES && forall j | j in kept :: cache[k].expires <= cache[j].expires
    {
      InFrontOrBehind(live, excess, k);
      forall j | j in kept
        ensures cache[k].expires <= cache[j].expires
      {
        FrontExpiresFirst(cache, live, excess, k, j);
      }
    }
  }

  lemma {:induction false} SubsetSize(a: set<Key>, b: set<Key>)
    requires a <= b
    ensures |a| <= |b|
    decreases a
  {
    if x :| x in a {
      SubsetSize(a - {x}, b - {x});
    }
  }

  /** A live entry stays when no more than 5000 live ones expire as late as it does. */
  lemma LateEntriesStay(cache: map<Key, Entry>, now: int, kept: map<Key, Entry>, k: Key)
    requires EvictsTo(cache, now, kept) && k in cache && now < cache[k].expires
    requires |set j | j in cache && now < cache[j].expires && cache[k].expires <= cache[j].expires| <= 5000
    ensures k in kept
  {
    if k !in kept {
      assert |kept| == |kept.Keys| && |kept.Keys + {k}| == |kept.Keys| + 1;
      SubsetSize(kept.Keys + {k}, set j | j in cache && now < cache[j].expires && cache[k].expires <= cache[j].expires);
    }
  }

  /** The deletions of a pass, one by one, are steps of the call that evicts; they touch the cache alone. */
  lemma {:induction false} PassIsARun(s: System, id: nat, deleted: seq<Key>)
    requires id in s.calls && s.calls[id].place.Evicting?
    ensures ValidRun(s, Deletions(id, deleted))
    ensures Exec(s, Deletions(id, deleted)) == s.(cache := s.cache - set k | k in deleted)
    decreases |deleted|
  {
    if deleted == [] {
      assert s.cache - {} == s.cache;
    } else {
      var s1 := s.(cache := s.cache - {deleted[0]});
      assert Apply(s, Evict(id, deleted[0])) == s1;
      PassIsARun(s1, id, deleted[1..]);
      assert s1.cache - (set k | k in deleted[1..]) == s.cache - set k | k in deleted;
      FirstStep(s, Evict(id, deleted[0]), Deletions(id, deleted[1..]));
    }
  }

  function Deletions(id: nat, deleted: seq<Key>): seq<Step> {
    if deleted == [] then [] else [Evict(id, deleted[0])] + Deletions(id, deleted[1..])
  }
}
