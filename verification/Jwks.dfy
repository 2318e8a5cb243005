/**
 The JWKS refresh monitor of internal/auth/jwks.go.  GetKey runs under one
 mutex and gives it up only in cond.Wait, so a call is a series of critical
 sections; the background refresh holds the same mutex during its fetch.
 Clock readings, fetched entries and the schedule are arbitrary.
 */
module Jwks {
  import opened Prelude

  const SECOND := 1_000_000_000
  const REFRESH_MIN_INTERVAL := 60 * SECOND
  const KEY_TTL := 3600 * SECOND

  datatype PublicKey = PublicKey(material: nat)

  /** One entry of a fetched set: its kid and, when parsing succeeded, its key. */
  datatype Entry = Entry(kid: string, key: Option<PublicKey>)

  /** What the HTTP fetch and JSON decoding gave. */
  datatype Fetch = FetchFailed | Fetched(entries: seq<Entry>)

  type Keys = map<string, PublicKey>

  /**
   The fields guarded by the mutex, and how many refresh goroutines there are:
   pending ones have not fetched yet, finishing ones have fetched but not yet
   cleared the refreshing flag.  starts is a history: how often the flag was set.
   None for a time is Go's zero time.
   */
  datatype Monitor = Monitor(keys: Keys, expires: Option<int>, refreshing: bool, lastAttempt: Option<int>,
                             pending: nat, finishing: nat, starts: nat)

  /** The clock readings of one pass of GetKey's loop, in the order they are taken. */
  datatype Readings = Readings(check: int, stale: int, since: int, attempt: int, install: int) {
    predicate Ordered() {
      check <= stale <= since <= attempt <= install
    }
  }

  predicate Unexpired(now: int, expires: Option<int>) {
    expires.Some? && now < expires.value
  }

  // ----- installing a fetched key set -----

  /** The usable entries: no empty kid, key parsed; a later entry for a kid wins. */
  function Usable(entries: seq<Entry>): Keys {
    if entries == [] then map[]
    else
      var before, e := Usable(entries[..|entries| - 1]), entries[|entries| - 1];
      if e.kid == "" || e.key.None? then before else before[e.kid := e.key.value]
  }

  /** A kid is in the installed set exactly when an entry offers it, with its last offered key. */
  lemma {:induction false} UsableLookup(entries: seq<Entry>, kid: string)
    ensures kid in Usable(entries) <==> kid != "" && exists e :: e in entries && e.kid == kid && e.key.Some?
    ensures kid in Usable(entries) ==>
      exists i :: 0 <= i < |entries| && entries[i] == Entry(kid, Some(Usable(entries)[kid])) &&
        forall j | i < j < |entries| :: entries[j].kid == kid ==> entries[j].key.None?
  {
    if entries != [] {
      var n := |entries| - 1;
      UsableLookup(entries[..n], kid);
      assert entries == entries[..n] + [entries[n]];
      if kid in Usable(entries) {
        if entries[n].kid == kid && entries[n].key.Some? {
          assert entries[n] == Entry(kid, Some(Usable(entries)[kid]));
        } else {
          var i :| 0 <= i < n && entries[..n][i] == Entry(kid, Some(Usable(entries)[kid])) &&
            forall j | i < j < n :: entries[..n][j].kid == kid ==> entries[..n][j].key.None?;
          assert entries[i] == entries[..n][i];
          forall j | i < j < |entries|
            ensures entries[j].kid == kid ==> entries[j].key.None?
          {
            if j < n {
              assert entries[j] == entries[..n][j];
            }
          }
        }
      }
    }
  }

  /** The key set a successful, non-empty fetch installs; anything else installs nothing. */
  function Installed(fetch: Fetch): Option<Keys> {
    match fetch
    case FetchFailed => None
    case Fetched(entries) => if Usable(entries) == map[] then None else Some(Usable(entries))
  }

  function Install(m: Monitor, fetch: Fetch, now: int): Monitor {
    match Installed(fetch)
    case None => m
    case Some(keys) => m.(keys := keys, expires := Some(now + KEY_TTL))
  }

  // ----- one pass of GetKey's loop -----

  datatype Exit = Found(key: PublicKey) | Unknown | RefreshError | Sleep | Again

  datatype Pass = Pass(exit: Exit, monitor: Monitor, attempted: bool)

  /** Fresh keys: unexpired and at least one. */
  predicate Fresh(m: Monitor, now: int) {
    Unexpired(now, m.expires) && m.keys != map[]
  }

  predicate CooledDown(m: Monitor, now: int) {
    m.lastAttempt.None? || now - m.lastAttempt.value >= REFRESH_MIN_INTERVAL
  }

  function OnePass(m: Monitor, kid: string, attempted: bool, t: Readings, fetch: Fetch): Pass {
    if kid in m.keys && Unexpired(t.check, m.expires) then Pass(Found(m.keys[kid]), m, attempted)
    else if Fresh(m, t.stale) || m.refreshing then
      var allow := CooledDown(m, t.since);
      var start := Fresh(m, t.stale) && !m.refreshing && !attempted && allow;
      var m1 := if start then m.(lastAttempt := Some(t.attempt), refreshing := true, pending := m.pending + 1, starts := m.starts + 1) else m;
      var attempted1 := attempted || start;
      if m1.refreshing then Pass(Sleep, m1, attempted1)
      else if attempted1 || !allow then Pass(Unknown, m1, attempted1)
      else Pass(Again, m1, attempted1)
    else if attempted then Pass(Unknown, m, attempted)
    else
      var m1 := Install(m.(lastAttempt := Some(t.attempt), starts := m.starts + 1), fetch, t.install);
      if Installed(fetch).Some? then Pass(Again, m1, true)
      else if kid in m1.keys then Pass(Found(m1.keys[kid]), m1, true)
      else Pass(RefreshError, m1, true)
  }

  /** The pass began a refresh, on this goroutine or in the background: it set the flag. */
  predicate Attempts(m: Monitor, p: Pass) {
    p.monitor.starts > m.starts
  }

  /**
   Exactly when a pass begins a refresh.  The cooldown guards fresh keys only:
   with stale or empty keys every call begins one, whatever came before.
   */
  lemma AttemptsIff(m: Monitor, kid: string, attempted: bool, t: Readings, fetch: Fetch)
    ensures Attempts(m, OnePass(m, kid, attempted, t, fetch)) <==>
      && !attempted && !m.refreshing
      && !(kid in m.keys && m.expires.Some? && t.check < m.expires.value)
      && (m.keys != map[] && m.expires.Some? && t.stale < m.expires.value && m.lastAttempt.Some? ==>
            t.since - m.lastAttempt.value >= 60 * SECOND)
    ensures Attempts(m, OnePass(m, kid, attempted, t, fetch)) ==>
      OnePass(m, kid, attempted, t, fetch).monitor.lastAttempt == Some(t.attempt)
    ensures !Attempts(m, OnePass(m, kid, attempted, t, fetch)) ==>
      OnePass(m, kid, attempted, t, fetch).monitor == m
    ensures
      var p := OnePass(m, kid, attempted, t, fetch);
      p.monitor.starts == m.starts + (if p.attempted && !attempted then 1 else 0) && (attempted ==> p.attempted)
  {
  }

  /** The loop never spins: a pass repeats only right after this call's own successful refresh. */
  lemma AgainOnlyAfterOwnRefresh(m: Monitor, kid: string, attempted: bool, t: Readings, fetch: Fetch)
    ensures
      var p := OnePass(m, kid, attempted, t, fetch);
      p.exit.Again? ==> !attempted && p.attempted && !m.refreshing && !p.monitor.refreshing && Installed(fetch) == Some(p.monitor.keys)
  {
  }

  /** A returned key is the current one for the kid, and expired only after this call's own failed refresh. */
  lemma FoundIsCurrent(m: Monitor, kid: string, attempted: bool, t: Readings, fetch: Fetch)
    ensures
      var p := OnePass(m, kid, attempted, t, fetch);
      && (p.exit.Found? ==> kid in m.keys && p.exit.key == m.keys[kid] && p.monitor.keys == m.keys)
      && (p.exit.Found? ==> Unexpired(t.check, m.expires) || (Attempts(m, p) && Installed(fetch).None?))
      && (p.exit.Unknown? || p.exit.RefreshError? ==> kid !in m.keys || !Unexpired(t.check, m.expires))
  {
  }

  // ----- one critical section -----

  /** From taking the mutex to Wait or return: one pass, and a second one after an own successful refresh. */
  function Section(m: Monitor, kid: string, attempted: bool, t1: Readings, f1: Fetch, t2: Readings, f2: Fetch): Pass {
    var p := OnePass(m, kid, attempted, t1, f1);
    if p.exit.Again? then OnePass(p.monitor, kid, p.attempted, t2, f2) else p
  }

  // ----- what a section answers, case by case -----

  /** entries[i] is the last entry that offers a key for kid. */
  predicate Offers(entries: seq<Entry>, i: nat, kid: string) {
    && i < |entries| && kid != "" && entries[i].kid == kid && entries[i].key.Some?
    && forall j | i < j < |entries| :: entries[j].kid == kid ==> entries[j].key.None?
  }

  /** The keys cannot be used at time now: none, or past their expiry. */
  predicate Stale(m: Monitor, now: int) {
    m.keys == map[] || m.expires.None? || m.expires.value <= now
  }

  lemma OfferedIsUsable(entries: seq<Entry>, i: nat, kid: string)
    requires Offers(entries, i, kid)
    ensures kid in Usable(entries) && Usable(entries)[kid] == entries[i].key.value
  {
    UsableLookup(entries, kid);
  }

  lemma UsableIsOffered(entries: seq<Entry>, kid: string)
    requires kid in Usable(entries)
    ensures exists i: nat :: Offers(entries, i, kid)
  {
    UsableLookup(entries, kid);
    var i :| 0 <= i < |entries| && entries[i] == Entry(kid, Some(Usable(entries)[kid])) &&
      forall j | i < j < |entries| :: entries[j].kid == kid ==> entries[j].key.None?;
    assert Offers(entries, i, kid);
  }

  /** A known kid is answered from the current set, and nothing changes, while the set has not expired. */
  lemma KnownKidIsServed(m: Monitor, kid: string, attempted: bool, t1: Readings, f1: Fetch, t2: Readings, f2: Fetch)
    requires kid in m.keys && m.expires.Some? && t1.check < m.expires.value
    ensures Section(m, kid, attempted, t1, f1, t2, f2) == Pass(Found(m.keys[kid]), m, attempted)
  {
  }

  /**
   A call that finds the keys stale and nobody refreshing them refreshes them
   itself.  A key offered for its kid is served, the last one offered, unless the
   next look at the clock comes after the set's hour; a kid not offered is unknown.
   */
  lemma FetchedKeyIsServed(m: Monitor, kid: string, t1: Readings, entries: seq<Entry>, i: nat, t2: Readings, f2: Fetch)
    requires Stale(m, t1.check) && Stale(m, t1.stale) && !m.refreshing && Offers(entries, i, kid)
    ensures
      var exit := Section(m, kid, false, t1, Fetched(entries), t2, f2).exit;
      && (t2.check < t1.install + 3600 * SECOND ==> exit == Found(entries[i].key.value))
      && (t1.install + 3600 * SECOND <= t2.check <= t2.stale ==> exit == Unknown)
  {
    OfferedIsUsable(entries, i, kid);
    hide Usable;
  }

  lemma UnofferedKidIsUnknown(m: Monitor, kid: string, t1: Readings, entries: seq<Entry>, t2: Readings, f2: Fetch)
    requires Stale(m, t1.check) && Stale(m, t1.stale) && !m.refreshing
    requires forall i: nat :: !Offers(entries, i, kid)
    requires exists other: string, i: nat :: Offers(entries, i, other)
    ensures Section(m, kid, false, t1, Fetched(entries), t2, f2).exit == Unknown
    ensures Section(m, kid, false, t1, Fetched(entries), t2, f2).monitor.keys == Usable(entries)
  {
    var other: string, i: nat :| Offers(entries, i, other);
    OfferedIsUsable(entries, i, other);
    if kid in Usable(entries) {
      UsableIsOffered(entries, kid);
    }
    hide Usable;
  }

  /** When its refresh brings nothing usable, the call answers from the old keys, expired or not. */
  lemma OldKeyOutlivesFailedRefresh(m: Monitor, kid: string, t1: Readings, f1: Fetch, t2: Readings, f2: Fetch)
    requires !(kid in m.keys && m.expires.Some? && t1.check < m.expires.value)
    requires Stale(m, t1.stale) && !m.refreshing
    requires f1.Fetched? ==> forall other: string, i: nat :: !Offers(f1.entries, i, other)
    ensures
      var p := Section(m, kid, false, t1, f1, t2, f2);
      && p.exit == (if kid in m.keys then Found(m.keys[kid]) else RefreshError)
      && p.monitor.keys == m.keys && p.monitor.expires == m.expires
  {
    if f1.Fetched? && Usable(f1.entries) != map[] {
      var other :| other in Usable(f1.entries);
      UsableIsOffered(f1.entries, other);
    }
    hide Usable;
  }

  /**
   The other cases never fetch.  With usable keys that lack the kid, the call
   waits for a refresh in the background, its own if it may begin one; where it
   may not, or has already had its refresh, the kid is unknown.
   */
  lemma OtherwiseWaitsOrUnknown(m: Monitor, kid: string, attempted: bool, t1: Readings, f1: Fetch, t2: Readings, f2: Fetch)
    requires !(kid in m.keys && m.expires.Some? && t1.check < m.expires.value)
    requires !Stale(m, t1.stale) || m.refreshing || attempted
    ensures
      var p := Section(m, kid, attempted, t1, f1, t2, f2);
      var mayBegin := !attempted && (m.lastAttempt.Some? ==> t1.since - m.lastAttempt.value >= 60 * SECOND);
      && p.exit == (if m.refreshing || (mayBegin && !Stale(m, t1.stale)) then Sleep else Unknown)
      && p.monitor.keys == m.keys && p.monitor.expires == m.expires && p.monitor.refreshing == p.exit.Sleep?
  {
  }

  /** The fields under the mutex and the code that changes them. */
  class JwksMonitor {
    var keys: Keys
    var expires: Option<int>
    var refreshing: bool
    var lastAttempt: Option<int>
    var pending: nat
    var finishing: nat
    var starts: nat

    function State(): Monitor
      reads this
    {
      Monitor(keys, expires, refreshing, lastAttempt, pending, finishing, starts)
    }

    /** doRefreshLocked: build the new set entry by entry; install it unless it is empty. */
    method DoRefreshLocked(fetch: Fetch, now: int) returns (ok: bool)
      modifies this
      ensures State() == Install(old(State()), fetch, now)
      ensures ok <==> Installed(fetch).Some?
    {
      if fetch.FetchFailed? {
        return false;
      }
      var newKeys: Keys := map[];
      for i := 0 to |fetch.entries|
        invariant newKeys == Usable(fetch.entries[..i])
        invariant State() == old(State())
      {
        var entry := fetch.entries[i];
        assert fetch.entries[..i + 1][..i] == fetch.entries[..i];
        if entry.kid == "" {
          continue;
        }
        if entry.key.Some? {
          newKeys := newKeys[entry.kid := entry.key.value];
        }
      }
      assert fetch.entries[..|fetch.entries|] == fetch.entries;
      if |newKeys| == 0 {
        return false;
      }
      keys := newKeys;
      expires := Some(now + KEY_TTL);
      return true;
    }

    /** The body of GetKey's loop. */
    method OneTurn(kid: string, attempted0: bool, t: Readings, fetch: Fetch) returns (exit: Exit, attempted: bool)
      modifies this
      ensures Pass(exit, State(), attempted) == OnePass(old(State()), kid, attempted0, t, fetch)
    {
      attempted := attempted0;
      if kid in keys && Unexpired(t.check, expires) {
        return Found(keys[kid]), attempted;
      }
      var usable := Unexpired(t.stale, expires) && |keys| > 0;
      if usable || refreshing {
        var allow := lastAttempt.None? || t.since - lastAttempt.value >= REFRESH_MIN_INTERVAL;
        if usable && !refreshing && !attempted && allow {
          attempted := true;
          lastAttempt := Some(t.attempt);
          refreshing := true;
          starts := starts + 1;
          pending := pending + 1;
        }
        if refreshing {
          return Sleep, attempted;
        }
        if attempted || !allow {
          return Unknown, attempted;
        }
        return Again, attempted;
      }
      if attempted {
        return Unknown, attempted;
      }
      attempted := true;
      lastAttempt := Some(t.attempt);
      refreshing := true;
      starts := starts + 1;
      var ok := DoRefreshLocked(fetch, t.install);
      refreshing := false;
      if !ok {
        return if kid in keys then Found(keys[kid]) else RefreshError, attempted;
      }
      exit := Again;
    }

    /** One critical section of GetKey: its loop ends by its second turn. */
    method GetKeySection(kid: string, attempted0: bool, t1: Readings, f1: Fetch, t2: Readings, f2: Fetch)
      returns (exit: Exit, attempted: bool)
      modifies this
      ensures Pass(exit, State(), attempted) == Section(old(State()), kid, attempted0, t1, f1, t2, f2)
      ensures !exit.Again?
    {
      hide OnePass;
      exit, attempted := Again, attempted0;
      var turn := 1;
      while exit.Again?
        invariant 1 <= turn <= 3
        invariant turn == 1 ==> exit.Again? && State() == old(State()) && attempted == attempted0
        invariant turn == 2 ==> Pass(exit, State(), attempted) == OnePass(old(State()), kid, attempted0, t1, f1)
        invariant turn == 2 && exit.Again? ==> attempted
        invariant turn == 3 ==> !exit.Again? && Pass(exit, State(), attempted) == Section(old(State()), kid, attempted0, t1, f1, t2, f2)
        decreases 3 - turn
      {
        AgainOnlyAfterOwnRefresh(State(), kid, attempted, if turn == 1 then t1 else t2, if turn == 1 then f1 else f2);
        exit, attempted := OneTurn(kid, attempted, if turn == 1 then t1 else t2, if turn == 1 then f1 else f2);
        turn := turn + 1;
      }
    }
  }

  // ----- every interleaving -----

  datatype Place = Ready | Asleep | Done(exit: Exit)

  /** A GetKey call in progress; begun counts how often its sections set the refreshing flag. */
  datatype Call = Call(kid: string, attempted: bool, place: Place, begun: int)

  /** One refresh attempt: when, and whether the keys were fresh (an unknown kid) at the time. */
  datatype Attempt = Attempt(time: int, unknownKid: bool)

  /** One key set installed, and when. */
  datatype Installation = Installation(keys: Keys, time: int)

  /** The whole system: monitor, calls, the latest clock reading, and two histories. */
  datatype System = System(monitor: Monitor, calls: map<nat, Call>, clock: int, attempts: seq<Attempt>, installs: seq<Installation>)

  function Start(clock: int): System {
    System(Monitor(map[], None, false, None, 0, 0, 0), map[], clock, [], [])
  }

  /**
   What may happen next: a call arrives; a ready call runs one critical
   section; a refresh goroutine does its fetch; one that has fetched clears
   the flag and broadcasts.
   */
  datatype Step =
    | Arrive(id: nat, kid: string)
    | Run(id: nat, t1: Readings, f1: Fetch, t2: Readings, f2: Fetch)
    | BackgroundFetch(fetch: Fetch, now: int)
    | Clear

  predicate Enabled(s: System, step: Step) {
    match step
    case Arrive(id, kid) => id !in s.calls
    case Run(id, t1, f1, t2, f2) =>
      && id in s.calls && s.calls[id].place.Ready?
      && t1.Ordered() && t2.Ordered() && s.clock <= t1.check && t1.install <= t2.check
    case BackgroundFetch(fetch, now) => s.monitor.pending > 0 && s.clock <= now
    case Clear => s.monitor.finishing > 0
  }

  function WakeAll(calls: map<nat, Call>): map<nat, Call> {
    map id | id in calls :: if calls[id].place.Asleep? then calls[id].(place := Ready) else calls[id]
  }

  function Logged(installs: seq<Installation>, fetch: Fetch, now: int): seq<Installation> {
    match Installed(fetch) case Some(keys) => installs + [Installation(keys, now)] case None => installs
  }

  function RunStep(s: System, id: nat, t1: Readings, f1: Fetch, t2: Readings, f2: Fetch): System
    requires id in s.calls
  {
    var c := s.calls[id];
    var p := Section(s.monitor, c.kid, c.attempted, t1, f1, t2, f2);
    var began := p.monitor.starts > s.monitor.starts;
    var inline := began && p.monitor.pending == s.monitor.pending;
    var c' := Call(c.kid, p.attempted, if p.exit.Sleep? then Asleep else Done(p.exit),
                   c.begun + (p.monitor.starts - s.monitor.starts));
    System(p.monitor,
           (if inline then WakeAll(s.calls) else s.calls)[id := c'],
           t2.install,
           if began then s.attempts + [Attempt(t1.attempt, Fresh(s.monitor, t1.stale))] else s.attempts,
           if inline then Logged(s.installs, f1, t1.install) else s.installs)
  }

  function Apply(s: System, step: Step): System
    requires Enabled(s, step)
  {
    match step
    case Arrive(id, kid) => s.(calls := s.calls[id := Call(kid, false, Ready, 0)])
    case Run(id, t1, f1, t2, f2) => RunStep(s, id, t1, f1, t2, f2)
    case BackgroundFetch(fetch, now) =>
      var m := s.monitor;
      s.(monitor := Install(m, fetch, now).(pending := m.pending - 1, finishing := m.finishing + 1),
         clock := now, installs := Logged(s.installs, fetch, now))
    case Clear =>
      s.(monitor := s.monitor.(refreshing := false, finishing := s.monitor.finishing - 1), calls := WakeAll(s.calls))
  }

  predicate ValidRun(s: System, steps: seq<Step>)
    decreases |steps|
  {
    steps == [] || (Enabled(s, steps[0]) && ValidRun(Apply(s, steps[0]), steps[1..]))
  }

  function Exec(s: System, steps: seq<Step>): System
    requires ValidRun(s, steps)
    decreases |steps|
  {
    if steps == [] then s else Exec(Apply(s, steps[0]), steps[1..])
  }

  lemma FirstStep(s: System, step: Step, rest: seq<Step>)
    requires Enabled(s, step) && ValidRun(Apply(s, step), rest)
    ensures ValidRun(s, [step] + rest) && Exec(s, [step] + rest) == Exec(Apply(s, step), rest)
  {
    assert ([step] + rest)[1..] == rest;
  }

  // ----- what every run keeps -----

  /** At most one refresh is in flight, and the flag says whether. */
  predicate OneRefresh(m: Monitor) {
    m.pending + m.finishing == if m.refreshing then 1 else 0
  }

  /** Nobody sleeps unless a refresh is there to wake it. */
  predicate NoLostWakeup(s: System) {
    forall id | id in s.calls :: s.calls[id].place.Asleep? ==> s.monitor.refreshing
  }

  /** A call sets the flag at most once, and its attempted variable says whether. */
  predicate OneAttemptPerCall(s: System) {
    forall id | id in s.calls :: s.calls[id].begun == if s.calls[id].attempted then 1 else 0
  }

  /** The keys are those of the last successful, non-empty refresh, and live for an hour from it. */
  predicate KeysAreLastInstalled(s: System) {
    && (if s.installs == [] then s.monitor.keys == map[] && s.monitor.expires.None?
        else
          var last := s.installs[|s.installs| - 1];
          s.monitor.keys == last.keys && s.monitor.expires == Some(last.time + 3600 * SECOND))
    && forall i | 0 <= i < |s.installs| :: s.installs[i].keys != map[]
  }

  /** A refresh for an unknown kid comes at least the minimum interval after every earlier attempt. */
  predicate Spaced(attempts: seq<Attempt>) {
    forall i, j | 0 <= i < j < |attempts| && attempts[j].unknownKid :: attempts[j].time - attempts[i].time >= 60 * SECOND
  }

  predicate AttemptsLogged(s: System) {
    var n := |s.attempts|;
    && s.monitor.starts == n
    && s.monitor.lastAttempt == (if n == 0 then None else Some(s.attempts[n - 1].time))
    && (forall i | 0 <= i < n :: s.attempts[i].time <= s.clock)
    && (forall i, j | 0 <= i < j < n :: s.attempts[i].time <= s.attempts[j].time)
  }

  predicate Inv(s: System) {
    OneRefresh(s.monitor) && NoLostWakeup(s) && OneAttemptPerCall(s) && KeysAreLastInstalled(s) &&
    AttemptsLogged(s) && Spaced(s.attempts)
  }

  /** What a critical section does to the monitor, whatever it returns. */
  lemma SectionEffect(m: Monitor, kid: string, attempted: bool, t1: Readings, f1: Fetch, t2: Readings, f2: Fetch)
    ensures
      var p := Section(m, kid, attempted, t1, f1, t2, f2);
      var began := p.attempted && !attempted;
      && !p.exit.Again? && (attempted ==> p.attempted)
      && p.monitor.starts == m.starts + (if began then 1 else 0)
      && (p.exit.Sleep? ==> p.monitor.refreshing)
      && (!began ==> p.monitor == m)
      && (began ==> !m.refreshing && p.monitor.lastAttempt == Some(t1.attempt) && (Fresh(m, t1.stale) ==> CooledDown(m, t1.since)))
      && (began && p.monitor.pending == m.pending ==>
            p.monitor == Install(m.(lastAttempt := Some(t1.attempt), starts := m.starts + 1), f1, t1.install) && !p.exit.Sleep?)
      && (began && p.monitor.pending != m.pending ==>
            p.monitor == m.(lastAttempt := Some(t1.attempt), refreshing := true, pending := m.pending + 1, starts := m.starts + 1))
  {
  }

  lemma LogsKept(s: System, attempt: Attempt)
    requires AttemptsLogged(s) && Spaced(s.attempts)
    requires s.clock <= attempt.time
    requires attempt.unknownKid ==> s.monitor.lastAttempt.None? || attempt.time - s.monitor.lastAttempt.value >= REFRESH_MIN_INTERVAL
    ensures Spaced(s.attempts + [attempt])
  {
  }

  lemma RunStepKeepsRefresh(s: System, id: nat, t1: Readings, f1: Fetch, t2: Readings, f2: Fetch)
    requires Inv(s) && Enabled(s, Run(id, t1, f1, t2, f2))
    ensures OneRefresh(RunStep(s, id, t1, f1, t2, f2).monitor)
  {
    var c := s.calls[id];
    SectionEffect(s.monitor, c.kid, c.attempted, t1, f1, t2, f2);
    hide Section, AttemptsLogged, Spaced, Fresh, CooledDown, Logged, KeysAreLastInstalled, NoLostWakeup, OneAttemptPerCall, WakeAll;
  }

  lemma RunStepKeepsCalls(s: System, id: nat, t1: Readings, f1: Fetch, t2: Readings, f2: Fetch)
    requires Inv(s) && Enabled(s, Run(id, t1, f1, t2, f2))
    ensures NoLostWakeup(RunStep(s, id, t1, f1, t2, f2)) && OneAttemptPerCall(RunStep(s, id, t1, f1, t2, f2))
  {
    var c := s.calls[id];
    SectionEffect(s.monitor, c.kid, c.attempted, t1, f1, t2, f2);
    hide Section, AttemptsLogged, Spaced, Fresh, CooledDown, Logged, KeysAreLastInstalled;
  }

  lemma RunStepKeepsKeys(s: System, id: nat, t1: Readings, f1: Fetch, t2: Readings, f2: Fetch)
    requires Inv(s) && Enabled(s, Run(id, t1, f1, t2, f2))
    ensures KeysAreLastInstalled(RunStep(s, id, t1, f1, t2, f2))
  {
    var c := s.calls[id];
    SectionEffect(s.monitor, c.kid, c.attempted, t1, f1, t2, f2);
    hide Section, AttemptsLogged, Spaced, Fresh, CooledDown, NoLostWakeup, OneAttemptPerCall, OneRefresh, WakeAll;
  }

  lemma RunStepKeepsLogs(s: System, id: nat, t1: Readings, f1: Fetch, t2: Readings, f2: Fetch)
    requires Inv(s) && Enabled(s, Run(id, t1, f1, t2, f2))
    ensures
      var s' := RunStep(s, id, t1, f1, t2, f2);
      AttemptsLogged(s') && Spaced(s'.attempts)
  {
    var c := s.calls[id];
    SectionEffect(s.monitor, c.kid, c.attempted, t1, f1, t2, f2);
    hide Section, OneRefresh, NoLostWakeup, OneAttemptPerCall, KeysAreLastInstalled;
    var s' := RunStep(s, id, t1, f1, t2, f2);
    if s'.attempts != s.attempts {
      LogsKept(s, Attempt(t1.attempt, Fresh(s.monitor, t1.stale)));
    }
  }

  lemma RunStepKeepsInv(s: System, id: nat, t1: Readings, f1: Fetch, t2: Readings, f2: Fetch)
    requires Inv(s) && Enabled(s, Run(id, t1, f1, t2, f2))
    ensures Inv(RunStep(s, id, t1, f1, t2, f2))
  {
    hide Section, OneRefresh, NoLostWakeup, OneAttemptPerCall, KeysAreLastInstalled, AttemptsLogged, Spaced, RunStep;
    RunStepKeepsRefresh(s, id, t1, f1, t2, f2);
    RunStepKeepsCalls(s, id, t1, f1, t2, f2);
    RunStepKeepsKeys(s, id, t1, f1, t2, f2);
    RunStepKeepsLogs(s, id, t1, f1, t2, f2);
  }

  lemma StepKeepsInv(s: System, step: Step)
    requires Inv(s) && Enabled(s, step)
    ensures Inv(Apply(s, step))
  {
    match step
    case Arrive(id, kid) =>
    case Run(id, t1, f1, t2, f2) => RunStepKeepsInv(s, id, t1, f1, t2, f2);
    case BackgroundFetch(fetch, now) =>
    case Clear =>
  }

  /** Over all interleavings: whatever happens, in whatever order, from the start on. */
  lemma {:induction false} EveryRunKeepsInv(s: System, steps: seq<Step>)
    requires Inv(s) && ValidRun(s, steps)
    ensures Inv(Exec(s, steps))
    decreases |steps|
  {
    if steps != [] {
      StepKeepsInv(s, steps[0]);
      EveryRunKeepsInv(Apply(s, steps[0]), steps[1..]);
    }
  }

  lemma ReachableStates(clock: int, steps: seq<Step>)
    requires ValidRun(Start(clock), steps)
    ensures Inv(Exec(Start(clock), steps))
  {
    EveryRunKeepsInv(Start(clock), steps);
  }

  /** No reachable state is stuck: while a call is unfinished, some call or refresh goroutine can move. */
  lemma NoDeadlock(s: System, id: nat)
    requires Inv(s) && id in s.calls && !s.calls[id].place.Done?
    ensures exists step :: Enabled(s, step) && !step.Arrive?
  {
    var t := Readings(s.clock, s.clock, s.clock, s.clock, s.clock);
    if s.calls[id].place.Ready? {
      assert Enabled(s, Run(id, t, FetchFailed, t, FetchFailed));
    } else if s.monitor.pending > 0 {
      assert Enabled(s, BackgroundFetch(FetchFailed, s.clock));
    } else {
      assert Enabled(s, Clear);
    }
  }

  /** A sleeper is woken by the refresh in flight: its fetch, if still to come, and its broadcast. */
  lemma SleepersWake(s: System, id: nat, fetch: Fetch)
    requires Inv(s) && id in s.calls && s.calls[id].place.Asleep?
    ensures
      var steps := (if s.monitor.pending > 0 then [BackgroundFetch(fetch, s.clock)] else []) + [Clear];
      && ValidRun(s, steps)
      && !Exec(s, steps).monitor.refreshing
      && forall i | i in s.calls && s.calls[i].place.Asleep? :: i in Exec(s, steps).calls && Exec(s, steps).calls[i].place.Ready?
  {
    if s.monitor.pending > 0 {
      var fetched := BackgroundFetch(fetch, s.clock);
      var s1 := Apply(s, fetched);
      assert [fetched, Clear][1..] == [Clear] && [Clear][1..] == [];
      assert Exec(s1, [Clear]) == Apply(s1, Clear);
      assert [fetched] + [Clear] == [fetched, Clear];
      assert ValidRun(s1, [Clear]);
    } else {
      assert [Clear][1..] == [] && [] + [Clear] == [Clear];
    }
  }

  /** And it is served: when the refresh offers its kid a key, its next section, within the hour, returns that key. */
  lemma SleeperIsServed(s: System, id: nat, entries: seq<Entry>, i: nat, now: int, t1: Readings, f1: Fetch, t2: Readings, f2: Fetch)
    requires Inv(s) && id in s.calls && s.calls[id].place.Asleep? && s.monitor.pending > 0
    requires Offers(entries, i, s.calls[id].kid) && s.clock <= now
    requires t1.Ordered() && t2.Ordered() && now <= t1.check < now + 3600 * SECOND && t1.install <= t2.check
    ensures
      var steps := [BackgroundFetch(Fetched(entries), now), Clear, Run(id, t1, f1, t2, f2)];
      && ValidRun(s, steps) && id in Exec(s, steps).calls
      && Exec(s, steps).calls[id].place == Done(Found(entries[i].key.value))
  {
    var fetched, run := BackgroundFetch(Fetched(entries), now), Run(id, t1, f1, t2, f2);
    OfferedIsUsable(entries, i, s.calls[id].kid);
    hide Usable;
    var s1 := Apply(s, fetched);
    var s2 := Apply(s1, Clear);
    KnownKidIsServed(s2.monitor, s.calls[id].kid, s.calls[id].attempted, t1, f1, t2, f2);
    assert Enabled(s1, Clear) && Enabled(s2, run);
    assert Apply(s2, run).calls[id].place == Done(Found(entries[i].key.value));
    hide Inv, Apply, Enabled;
    FirstStep(s2, run, []);
    FirstStep(s1, Clear, [run]);
    FirstStep(s, fetched, [Clear, run]);
    assert [fetched] + [Clear, run] == [fetched, Clear, run] && [Clear] + [run] == [Clear, run] && [run] + [] == [run];
  }

  /** The interval is not kept between attempts in general: with no keys yet, two calls refresh at the same instant. */
  lemma StaleRefreshesIgnoreTheInterval(kid: string)
    ensures
      var t := Readings(0, 0, 0, 0, 0);
      var steps := [Arrive(0, kid), Run(0, t, FetchFailed, t, FetchFailed), Arrive(1, kid), Run(1, t, FetchFailed, t, FetchFailed)];
      ValidRun(Start(0), steps) && Exec(Start(0), steps).attempts == [Attempt(0, false), Attempt(0, false)]
  {
    var t := Readings(0, 0, 0, 0, 0);
    var run0, run1 := Run(0, t, FetchFailed, t, FetchFailed), Run(1, t, FetchFailed, t, FetchFailed);
    var steps := [Arrive(0, kid), run0, Arrive(1, kid), run1];
    assert steps[1..] == [run0, Arrive(1, kid), run1] && steps[1..][1..] == [Arrive(1, kid), run1];
    assert steps[1..][1..][1..] == [run1] && steps[1..][1..][1..][1..] == [];
    var s1 := Apply(Start(0), steps[0]);
    var s2 := Apply(s1, run0);
    var s3 := Apply(s2, Arrive(1, kid));
    assert s2.attempts == [Attempt(0, false)] && s2.monitor.keys == map[] && !s2.monitor.refreshing;
    var s4 := Apply(s3, run1);
    assert s4.attempts == [Attempt(0, false), Attempt(0, false)];
    assert Exec(s3, [run1]) == s4;
    assert Exec(s2, [Arrive(1, kid), run1]) == s4;
    assert Exec(s1, [run0, Arrive(1, kid), run1]) == s4;
  }
}
