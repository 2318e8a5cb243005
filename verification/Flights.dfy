/**
 The single-flight protocol of internal/streaming/servers_stability.go
 (beginFlight, finishFlight) as FindAllServers in manager.go uses it: one
 leader per key does the fan-out, everyone else waits for its channel or gives
 up.  The mutex makes each method one step; the schedule is arbitrary.
 */
module Flights {
  import opened ServerLists
  import opened Stability

  /** Requests that ask for a refresh do not share a flight with those that do not. */
  datatype FlightKey = FlightKey(request: RequestKey, refresh: bool)

  /** A serverFlight: its published list and how often its channel was closed. */
  datatype Flight = Flight(key: FlightKey, servers: seq<Server>, closes: nat)

  datatype Place = Arrived | Leading(flight: nat) | Waiting(flight: nat) | Returned(flight: nat, servers: seq<Server>) | GaveUp

  datatype Request = Request(key: FlightKey, place: Place)

  /** Flights are never reused, so they are numbered; active is the cache's flights map. */
  datatype Table = Table(flights: seq<Flight>, active: map<FlightKey, nat>)

  /** beginFlight: the flight to join, or a new one to lead. */
  function Begun(t: Table, key: FlightKey): (r: (Table, nat, bool)) {
    if key in t.active then (t, t.active[key], false)
    else (Table(t.flights + [Flight(key, [], 0)], t.active[key := |t.flights|]), |t.flights|, true)
  }

  /** finishFlight: publish, retire the key, close the channel. */
  function Finished(t: Table, key: FlightKey, f: nat, servers: seq<Server>): Table
    requires f < |t.flights|
  {
    Table(t.flights[f := t.flights[f].(servers := servers, closes := t.flights[f].closes + 1)], t.active - {key})
  }

  datatype System = System(flights: seq<Flight>, active: map<FlightKey, nat>, requests: map<nat, Request>)
  {
    function Flying(): Table {
      Table(flights, active)
    }
  }

  datatype Step =
    | Arrive(id: nat, key: FlightKey)
    | Begin(id: nat)
    | Finish(id: nat, servers: seq<Server>)
    | Receive(id: nat)
    | Cancel(id: nat)

  predicate Enabled(s: System, step: Step) {
    match step
    case Arrive(id, _) => id !in s.requests
    case Begin(id) => id in s.requests && s.requests[id].place.Arrived?
    case Finish(id, _) => id in s.requests && s.requests[id].place.Leading? && s.requests[id].place.flight < |s.flights|
    case Receive(id) => id in s.requests && s.requests[id].place.Waiting? && s.requests[id].place.flight < |s.flights| &&
                        s.flights[s.requests[id].place.flight].closes > 0
    case Cancel(id) => id in s.requests && s.requests[id].place.Waiting?
  }

  function Move(s: System, id: nat, place: Place): map<nat, Request>
    requires id in s.requests
  {
    s.requests[id := s.requests[id].(place := place)]
  }

  function Apply(s: System, step: Step): System
    requires Enabled(s, step)
  {
    match step
    case Arrive(id, key) => s.(requests := s.requests[id := Request(key, Arrived)])
    case Begin(id) =>
      var (t, f, leader) := Begun(s.Flying(), s.requests[id].key);
      System(t.flights, t.active, Move(s, id, if leader then Leading(f) else Waiting(f)))
    case Finish(id, servers) =>
      var f := s.requests[id].place.flight;
      var t := Finished(s.Flying(), s.requests[id].key, f, servers);
      System(t.flights, t.active, Move(s, id, Returned(f, servers)))
    case Receive(id) =>
      var f := s.requests[id].place.flight;
      s.(requests := Move(s, id, Returned(f, s.flights[f].servers)))
    case Cancel(id) => s.(requests := Move(s, id, GaveUp))
  }

  // ----- the map of flights, as the methods keep it -----

  /** beginFlight and finishFlight on the map itself. */
  class FlightTable {
    var flights: seq<Flight>
    var active: map<FlightKey, nat>

    function Flying(): Table
      reads this
    {
      Table(flights, active)
    }

    constructor ()
      ensures Flying() == Table([], map[])
    {
      flights, active := [], map[];
    }

    method BeginFlight(key: FlightKey) returns (f: nat, leader: bool)
      modifies this
      ensures (Flying(), f, leader) == Begun(old(Flying()), key)
    {
      if key in active {
        return active[key], false;
      }
      f := |flights|;
      flights := flights + [Flight(key, [], 0)];
      active := active[key := f];
      leader := true;
    }

    method FinishFlight(key: FlightKey, f: nat, servers: seq<Server>)
      requires f < |flights|
      modifies this
      ensures Flying() == Finished(old(Flying()), key, f, servers)
    {
      flights := flights[f := flights[f].(servers := servers)];
      active := active - {key};
      flights := flights[f := flights[f].(closes := flights[f].closes + 1)];
    }
  }

  // ----- invariants -----

  predicate Placed(s: System, r: Request) {
    match r.place
    case Arrived => true
    case Leading(f) => f < |s.flights| && r.key in s.active && s.active[r.key] == f
    case Waiting(f) => f < |s.flights| && s.flights[f].key == r.key
    case Returned(f, servers) => f < |s.flights| && s.flights[f] == Flight(r.key, servers, 1)
    case GaveUp => true
  }

  predicate Leads(s: System, id: nat, f: nat) {
    id in s.requests && s.requests[id].place == Leading(f)
  }

  /** Every request is where its flight says it is. */
  ghost predicate PlacesOk(s: System) {
    forall id | id in s.requests :: Placed(s, s.requests[id])
  }

  /** A channel is closed at most once, and exactly the unclosed flights are active. */
  ghost predicate FlightsOk(s: System) {
    && (forall f | 0 <= f < |s.flights| :: s.flights[f].closes <= 1)
    && (forall f | 0 <= f < |s.flights| :: s.flights[f].closes == 0 <==> s.flights[f].key in s.active && s.active[s.flights[f].key] == f)
    && (forall k | k in s.active :: s.active[k] < |s.flights| && s.flights[s.active[k]].key == k)
  }

  /** An active flight has a leader, and only one request leads it. */
  ghost predicate LeadersOk(s: System) {
    && (forall k | k in s.active :: exists id :: Leads(s, id, s.active[k]))
    && (forall i, j, f | Leads(s, i, f) && Leads(s, j, f) :: i == j)
  }

  ghost predicate Inv(s: System) {
    PlacesOk(s) && FlightsOk(s) && LeadersOk(s)
  }

  /** Joining an active flight only moves the request. */
  lemma JoinKeepsInv(s: System, id: nat)
    requires Inv(s) && Enabled(s, Begin(id)) && s.requests[id].key in s.active
    ensures Inv(Apply(s, Begin(id)))
  {
    var s' := Apply(s, Begin(id));
    forall i, f
      ensures Leads(s', i, f) <==> Leads(s, i, f)
    {
    }
    forall i | i in s'.requests
      ensures Placed(s', s'.requests[i])
    {
      assert Placed(s, s.requests[i]);
    }
  }

  /** Leading a new flight, part by part. */
  lemma LeadKeepsPlaces(s: System, id: nat)
    requires Inv(s) && Enabled(s, Begin(id)) && s.requests[id].key !in s.active
    ensures PlacesOk(Apply(s, Begin(id))) && FlightsOk(Apply(s, Begin(id)))
  {
    hide LeadersOk;
    var s' := Apply(s, Begin(id));
    forall i | i in s'.requests
      ensures Placed(s', s'.requests[i])
    {
      assert Placed(s, s.requests[i]);
    }
  }

  lemma LeadKeepsLeaders(s: System, id: nat)
    requires Inv(s) && Enabled(s, Begin(id)) && s.requests[id].key !in s.active
    ensures LeadersOk(Apply(s, Begin(id)))
  {
    var s', n := Apply(s, Begin(id)), |s.flights|;
    forall i, f | i != id
      ensures Leads(s', i, f) <==> Leads(s, i, f)
    {
    }
    forall f
      ensures Leads(s', id, f) <==> f == n
    {
    }
    forall k | k in s'.active
      ensures exists i :: Leads(s', i, s'.active[k])
    {
      if k in s.active {
        var i :| Leads(s, i, s.active[k]);
        assert i != id && Leads(s', i, s'.active[k]);
      } else {
        assert Leads(s', id, s'.active[k]);
      }
    }
    forall i | i in s.requests && i != id && s.requests[i].place.Leading?
      ensures s.requests[i].place.flight != n
    {
      assert Placed(s, s.requests[i]);
    }
  }

  lemma FinishKeepsInv(s: System, id: nat, servers: seq<Server>)
    requires Inv(s) && Enabled(s, Finish(id, servers))
    ensures Inv(Apply(s, Finish(id, servers)))
  {
    var s', f, key := Apply(s, Finish(id, servers)), s.requests[id].place.flight, s.requests[id].key;
    assert Placed(s, s.requests[id]) && Leads(s, id, f);
    forall i | i in s'.requests
      ensures Placed(s', s'.requests[i])
    {
      assert Placed(s, s.requests[i]);
      if i != id && s.requests[i].place.Leading? {
        assert Leads(s, i, s.requests[i].place.flight);
      }
    }
    forall k | k in s'.active
      ensures exists i :: Leads(s', i, s'.active[k])
    {
      var i :| Leads(s, i, s.active[k]);
      assert Leads(s', i, s'.active[k]);
    }
    forall i, j, g | Leads(s', i, g) && Leads(s', j, g)
      ensures i == j
    {
      assert Leads(s, i, g) && Leads(s, j, g);
    }
  }

  lemma MoveKeepsInv(s: System, step: Step)
    requires Inv(s) && Enabled(s, step) && (step.Arrive? || step.Receive? || step.Cancel?)
    ensures Inv(Apply(s, step))
  {
    var s' := Apply(s, step);
    forall i, f
      ensures Leads(s', i, f) <==> Leads(s, i, f)
    {
    }
    forall i | i in s'.requests
      ensures Placed(s', s'.requests[i])
    {
      assert i in s.requests ==> Placed(s, s.requests[i]);
    }
  }

  lemma StepKeepsInv(s: System, step: Step)
    requires Inv(s) && Enabled(s, step)
    ensures Inv(Apply(s, step))
  {
    match step
    case Begin(id) =>
      if s.requests[id].key in s.active {
        JoinKeepsInv(s, id);
      } else {
        LeadKeepsPlaces(s, id);
        LeadKeepsLeaders(s, id);
      }
    case Finish(id, servers) => FinishKeepsInv(s, id, servers);
    case _ => MoveKeepsInv(s, step);
  }

  predicate ValidRun(s: System, steps: seq<Step>)
    decreases |steps|
  {
    steps == [] || (Enabled(s, steps[0]) && ValidRun(Apply(s, steps[0]), steps[1..]))
  }

  function Exec(s: System, steps: seq<Step>): System
    requires ValidRun(s, steps)
    decreases |steps|
  {
    if steps == [] then s else Exec(Apply(s, steps[0]), steps[1..])
  }

  const START := System([], map[], map[])

  lemma {:induction false} EveryRunKeepsInv(s: System, steps: seq<Step>)
    requires Inv(s) && ValidRun(s, steps)
    ensures Inv(Exec(s, steps))
    decreases |steps|
  {
    hide Inv;
    if steps != [] {
      StepKeepsInv(s, steps[0]);
      EveryRunKeepsInv(Apply(s, steps[0]), steps[1..]);
    }
  }

  /**
   In every interleaving: at most one leader per key; every request that
   returned a list returned the one its own flight's leader published; and a
   channel is closed once.
   */
  lemma ReachableFlights(steps: seq<Step>)
    requires ValidRun(START, steps)
    ensures
      var s := Exec(START, steps);
      && (forall i, j | i in s.requests && j in s.requests && s.requests[i].place.Leading? && s.requests[j].place.Leading? &&
            s.requests[i].key == s.requests[j].key :: i == j)
      && (forall i | i in s.requests && s.requests[i].place.Returned? ::
            var r := s.requests[i];
            r.place.flight < |s.flights| && s.flights[r.place.flight] == Flight(r.key, r.place.servers, 1))
      && (forall f | 0 <= f < |s.flights| :: s.flights[f].closes <= 1)
  {
    EveryRunKeepsInv(START, steps);
    var s := Exec(START, steps);
    forall i, j | i in s.requests && j in s.requests && s.requests[i].place.Leading? && s.requests[j].place.Leading? &&
        s.requests[i].key == s.requests[j].key
      ensures i == j
    {
      assert Placed(s, s.requests[i]) && Placed(s, s.requests[j]);
      assert Leads(s, i, s.requests[i].place.flight) && Leads(s, j, s.requests[j].place.flight);
    }
    assert forall i | i in s.requests :: Placed(s, s.requests[i]);
  }

  /** A published list is final: no later step changes a closed flight. */
  lemma PublishedIsFinal(s: System, step: Step, f: nat)
    requires Inv(s) && Enabled(s, step) && f < |s.flights| && s.flights[f].closes == 1
    ensures f < |Apply(s, step).flights| && Apply(s, step).flights[f] == s.flights[f]
  {
    if step.Finish? {
      assert Placed(s, s.requests[step.id]);
    }
  }

  /** A request that has returned or given up does nothing more. */
  lemma {:induction false} ReturnedStays(s: System, steps: seq<Step>, id: nat, place: Place)
    requires ValidRun(s, steps) && id in s.requests && (place.Returned? || place.GaveUp?) && s.requests[id].place == place
    ensures id in Exec(s, steps).requests && Exec(s, steps).requests[id].place == place
    decreases |steps|
  {
    if steps != [] {
      ReturnedStays(Apply(s, steps[0]), steps[1..], id, place);
    }
  }

  /**
   In every run, the list a leader finishes with is the one it returns itself,
   and the one every request returns that ever waited for its flight, earlier or later.
   */
  lemma {:induction false} LeadersListIsReturned(s: System, steps: seq<Step>, i: nat, id: nat, servers: seq<Server>)
    requires Inv(s) && ValidRun(s, steps) && i < |steps| && steps[i] == Finish(id, servers)
    ensures
      var s' := Exec(s, steps);
      && id in s'.requests && s'.requests[id].place.Returned? && s'.requests[id].place.servers == servers
      && forall j | j in s'.requests && s'.requests[j].place.Returned? && s'.requests[j].place.flight == s'.requests[id].place.flight ::
           s'.requests[j].place.servers == servers
    decreases |steps|
  {
    hide Inv;
    var s1, s' := Apply(s, steps[0]), Exec(s, steps);
    StepKeepsInv(s, steps[0]);
    if i == 0 {
      ReturnedStays(s1, steps[1..], id, s1.requests[id].place);
      EveryRunKeepsInv(s, steps);
      forall j | j in s'.requests && s'.requests[j].place.Returned? && s'.requests[j].place.flight == s'.requests[id].place.flight
        ensures s'.requests[j].place.servers == servers
      {
        SameFlightSameList(s', id, j);
      }
    } else {
      LeadersListIsReturned(s1, steps[1..], i - 1, id, servers);
    }
  }

  /** A waiter that gave up returns nothing, also when its flight's list comes later. */
  lemma {:induction false} CancelledReturnsNothing(s: System, steps: seq<Step>, i: nat, id: nat)
    requires ValidRun(s, steps) && i < |steps| && steps[i] == Cancel(id)
    ensures id in Exec(s, steps).requests && Exec(s, steps).requests[id].place == GaveUp
    decreases |steps|
  {
    if i == 0 {
      ReturnedStays(Apply(s, steps[0]), steps[1..], id, GaveUp);
    } else {
      CancelledReturnsNothing(Apply(s, steps[0]), steps[1..], i - 1, id);
    }
  }

  lemma SameFlightSameList(s: System, i: nat, j: nat)
    requires Inv(s) && i in s.requests && j in s.requests
    requires s.requests[i].place.Returned? && s.requests[j].place.Returned? && s.requests[i].place.flight == s.requests[j].place.flight
    ensures s.requests[i].place.servers == s.requests[j].place.servers
  {
    assert Placed(s, s.requests[i]) && Placed(s, s.requests[j]);
  }

  /** A request that begins while its key is in flight waits for that flight's list; with no flight for its key it leads. */
  lemma BeginJoinsOrLeads(s: System, id: nat)
    requires Inv(s) && Enabled(s, Begin(id))
    ensures
      var place := Apply(s, Begin(id)).requests[id].place;
      if exists leader :: leader in s.requests && s.requests[leader].place.Leading? && s.requests[leader].key == s.requests[id].key
      then exists leader, f :: Leads(s, leader, f) && s.requests[leader].key == s.requests[id].key && place == Waiting(f)
      else place.Leading? && forall j :: !Leads(s, j, place.flight)
  {
    var key := s.requests[id].key;
    if leader :| leader in s.requests && s.requests[leader].place.Leading? && s.requests[leader].key == key {
      assert Placed(s, s.requests[leader]);
      assert Leads(s, leader, s.active[key]);
    } else {
      assert forall j | j in s.requests :: Placed(s, s.requests[j]);
    }
  }

  /** A waiter is never stuck: its flight is closed, or the leader that will close it is at work. */
  lemma WaitersAreServed(s: System, id: nat)
    requires Inv(s) && id in s.requests && s.requests[id].place.Waiting?
    ensures Enabled(s, Receive(id)) || exists leader :: Leads(s, leader, s.requests[id].place.flight) && Enabled(s, Finish(leader, []))
  {
    var f := s.requests[id].place.flight;
    assert Placed(s, s.requests[id]);
    if s.flights[f].closes == 0 {
      var leader :| Leads(s, leader, s.active[s.flights[f].key]);
      assert Enabled(s, Finish(leader, []));
    }
  }
}
