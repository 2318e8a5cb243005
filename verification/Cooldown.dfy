/**
 The 429 cooldown ladder of internal/streaming/animex.go: coolingDown,
 setCooldown, decayThrottle and resetThrottle.  Durations are in nanoseconds
 and time is passed in.
 */
module Cooldown {
  import opened Prelude

  const SECOND := 1_000_000_000
  const COOLDOWN_CAP := 900 * SECOND

  /** until is None for Go's zero time. */
  datatype Throttle = Throttle(until: Option<int>, streak: nat) {
    predicate CoolingDown(now: int) {
      until.Some? && now < until.value
    }
  }

  const IDLE := Throttle(None, 0)

  /** The window a 429 with advice d asks for at a streak: d, 2d, then 4d, at most the cap. */
  function Window(streak: nat, d: int): int {
    Min(d * (if streak <= 1 then 1 else if streak == 2 then 2 else 4), COOLDOWN_CAP)
  }

  function Later(a: Option<int>, b: int): Option<int> {
    if a.None? || a.value < b then Some(b) else a
  }

  /** A 429: a new episode only if no window is open; windows never shrink. */
  function Limited(t: Throttle, d: int, now: int): Throttle {
    var streak := if t.CoolingDown(now) then t.streak else t.streak + 1;
    Throttle(Later(t.until, now + Window(streak, d)), streak)
  }

  /** A healthy answer: one step down, and an open window goes with the last step. */
  function Decayed(t: Throttle): Throttle {
    if t.streak <= 1 then IDLE else t.(streak := t.streak - 1)
  }

  class AnimeXThrottle {
    var limitUntil: Option<int>
    var limitStreak: nat

    function State(): Throttle
      reads this
    {
      Throttle(limitUntil, limitStreak)
    }

    constructor ()
      ensures State() == IDLE
    {
      limitUntil, limitStreak := None, 0;
    }

    method SetCooldown(advice: int, now: int)
      modifies this
      ensures State() == Limited(old(State()), advice, now)
    {
      var d := advice;
      if limitUntil.None? || !(now < limitUntil.value) {
        limitStreak := limitStreak + 1;
      }
      var shift := limitStreak - 1;
      if shift > 2 {
        shift := 2;
      }
      if shift > 0 {
        d := d * (if shift == 1 then 2 else 4);
      }
      if d > COOLDOWN_CAP {
        d := COOLDOWN_CAP;
      }
      var until := now + d;
      if limitUntil.None? || until > limitUntil.value {
        limitUntil := Some(until);
      }
    }

    method DecayThrottle()
      modifies this
      ensures State() == Decayed(old(State()))
    {
      if limitStreak > 0 {
        limitStreak := limitStreak - 1;
      }
      if limitStreak == 0 {
        limitUntil := None;
      }
    }

    method ResetThrottle()
      modifies this
      ensures State() == IDLE
    {
      limitStreak := 0;
      limitUntil := None;
    }
  }

  // ----- runs -----

  datatype Event = TooMany(d: int, now: int) | Healthy(now: int) | Reset(now: int)

  function Next(t: Throttle, e: Event): Throttle {
    match e
    case TooMany(d, now) => Limited(t, d, now)
    case Healthy(_) => Decayed(t)
    case Reset(_) => IDLE
  }

  function After(t: Throttle, events: seq<Event>): Throttle
    decreases |events|
  {
    if events == [] then t else After(Next(t, events[0]), events[1..])
  }

  predicate Ordered(events: seq<Event>) {
    forall i, j | 0 <= i < j < |events| :: events[i].now <= events[j].now
  }

  /** The 429s that opened a new episode. */
  function Episodes(t: Throttle, events: seq<Event>): nat
    decreases |events|
  {
    if events == [] then 0
    else
      (if events[0].TooMany? && !t.CoolingDown(events[0].now) then 1 else 0) + Episodes(Next(t, events[0]), events[1..])
  }

  /** The longest advice of any 429 in the run. */
  function LongestAdvice(events: seq<Event>): int {
    if events == [] then 0
    else Max(if events[0].TooMany? then events[0].d else 0, LongestAdvice(events[1..]))
  }

  predicate Within(t: Throttle, limit: int) {
    t.until.Some? ==> t.until.value <= limit
  }

  /**
   At every moment of a run from the idle state the window ends within the cap,
   and within four times the longest advice: the ladder stops at its third rung.
   */
  lemma {:induction false} WindowIsBounded(t: Throttle, events: seq<Event>, longest: int, now: int)
    requires events != [] ==> now <= events[0].now
    requires Ordered(events) && 0 <= longest && LongestAdvice(events) <= longest
    requires Within(t, now + Min(4 * longest, COOLDOWN_CAP))
    ensures
      var last := if events == [] then now else events[|events| - 1].now;
      Within(After(t, events), last + Min(4 * longest, COOLDOWN_CAP))
    decreases |events|
  {
    if events != [] {
      var e, rest := events[0], events[1..];
      assert forall i | 0 <= i < |rest| :: rest[i] == events[i + 1];
      WindowIsBounded(Next(t, e), rest, longest, e.now);
    }
  }

  /** Within one storm the windows never shrink. */
  lemma {:induction false} WindowNeverShrinks(t: Throttle, events: seq<Event>)
    requires t.until.Some? && forall e | e in events :: e.TooMany?
    ensures After(t, events).until.Some? && After(t, events).until.value >= t.until.value
    decreases |events|
  {
    if events != [] {
      WindowNeverShrinks(Next(t, events[0]), events[1..]);
    }
  }

  /** The ladder never steps all the way down in the run. */
  predicate StaysThrottled(t: Throttle, events: seq<Event>)
    decreases |events|
  {
    events == [] || (Next(t, events[0]).streak > 0 && StaysThrottled(Next(t, events[0]), events[1..]))
  }

  /**
   Episodes are at least one window apart.  With windows of at least d, a storm
   that began with a window open until u has its k-th further episode no earlier than u + (k - 1) * d,
   however many 429s race in and whatever healthy answers fall between.
   */
  lemma {:induction false} EpisodesAreSpaced(t: Throttle, events: seq<Event>, d: int)
    requires t.streak > 0 && t.until.Some? && StaysThrottled(t, events)
    requires Ordered(events) && 0 < d <= COOLDOWN_CAP
    requires forall e | e in events && e.TooMany? :: d <= e.d
    ensures Episodes(t, events) > 0 ==> t.until.value + (Episodes(t, events) - 1) * d <= events[|events| - 1].now
    decreases |events|
  {
    if events != [] {
      var e, rest := events[0], events[1..];
      var t' := Next(t, e);
      assert forall i | 0 <= i < |rest| :: rest[i] == events[i + 1];
      EpisodesAreSpaced(t', rest, d);
      var k := Episodes(t', rest);
      if e.TooMany? && !t.CoolingDown(e.now) {
        assert t'.until.value >= t.until.value + d;
        assert k > 0 ==> t.until.value + d + (k - 1) * d <= events[|events| - 1].now;
        OneMore(k, d);
      }
    }
  }

  /** The healthy answers and resets that close a window. */
  function Clears(t: Throttle, events: seq<Event>): nat
    decreases |events|
  {
    if events == [] then 0
    else (if t.until.Some? && Next(t, events[0]).until.None? then 1 else 0) + Clears(Next(t, events[0]), events[1..])
  }

  /** d for every episode less d for every closed window. */
  function Net(t: Throttle, events: seq<Event>, d: int): int
    decreases |events|
  {
    if events == [] then 0
    else
      (if events[0].TooMany? && !t.CoolingDown(events[0].now) then d else 0)
      - (if t.until.Some? && Next(t, events[0]).until.None? then d else 0)
      + Net(Next(t, events[0]), events[1..], d)
  }

  lemma {:induction false} NetIs(t: Throttle, events: seq<Event>, d: int)
    ensures Net(t, events, d) == (Episodes(t, events) - Clears(t, events)) * d
    decreases |events|
  {
    if events != [] {
      var t', rest := Next(t, events[0]), events[1..];
      NetIs(t', rest, d);
      var e := if events[0].TooMany? && !t.CoolingDown(events[0].now) then 1 else 0;
      var c := if t.until.Some? && t'.until.None? then 1 else 0;
      Distribute(e, c, Episodes(t', rest) - Clears(t', rest), d);
    }
  }

  lemma Distribute(e: int, c: int, n: int, d: int)
    requires 0 <= e <= 1 && 0 <= c <= 1
    ensures (e - c + n) * d == (if e == 1 then d else 0) - (if c == 1 then d else 0) + n * d
  {
  }

  /** What a 429 with advice of at least d leaves: a window of at least d from now, and none shorter than before. */
  lemma WindowAfter(t: Throttle, advice: int, now: int, d: int)
    requires 0 < d <= COOLDOWN_CAP && d <= advice
    ensures
      var u := Limited(t, advice, now).until;
      u.Some? && now + d <= u.value && (t.until.Some? ==> t.until.value <= u.value)
  {
  }

  /**
   The same for every run, also where healthy answers bring the ladder all the
   way down: a closed window lets one episode come early, and no more.  a is the
   time of the last episode, or any time before the run.
   */
  lemma {:induction false} EpisodesAndClears(t: Throttle, events: seq<Event>, d: int, a: int)
    requires Ordered(events) && (forall e | e in events :: a <= e.now) && 0 < d <= COOLDOWN_CAP
    requires forall e | e in events && e.TooMany? :: d <= e.d
    requires t.until.Some? ==> a + d <= t.until.value
    ensures events != [] ==> a + (if t.until.Some? then d else 0) + Net(t, events, d) - d <= events[|events| - 1].now
    ensures events == [] ==> Net(t, events, d) == 0
    decreases |events|
  {
    if events != [] {
      var e, rest := events[0], events[1..];
      assert e in events && forall x | x in rest :: x in events;
      assert forall i | 0 <= i < |rest| :: rest[i] == events[i + 1];
      if e.TooMany? {
        WindowAfter(t, e.d, e.now, d);
      }
      hide Limited, Window;
      if e.TooMany? && !t.CoolingDown(e.now) {
        EpisodesAndClears(Next(t, e), rest, d, e.now);
      } else {
        EpisodesAndClears(Next(t, e), rest, d, a);
      }
    }
  }

  /** From idle, in every run: besides the first episode and one for each closed window, at most one per d. */
  lemma EpisodeRate(events: seq<Event>, d: int)
    requires events != [] && Ordered(events) && 0 < d <= COOLDOWN_CAP
    requires forall e | e in events && e.TooMany? :: d <= e.d
    ensures (Episodes(IDLE, events) - Clears(IDLE, events)) * d - d <= events[|events| - 1].now - events[0].now
  {
    EpisodesAndClears(IDLE, events, d, events[0].now);
    NetIs(IDLE, events, d);
  }

  /** While the ladder stays up nothing is cleared, so the rate of a storm is one episode per d after the first. */
  lemma {:induction false} NoClearsWhileThrottled(t: Throttle, events: seq<Event>)
    requires StaysThrottled(t, events)
    ensures Clears(t, events) == 0
    decreases |events|
  {
    if events != [] {
      NoClearsWhileThrottled(Next(t, events[0]), events[1..]);
    }
  }

  lemma OneMore(k: nat, d: int)
    ensures d + (k - 1) * d == k * d
  {
  }

  /** After n 429s each past its window, and no healthy answer, the rung is the n-th, up to the third. */
  lemma {:induction false} StreakCountsEpisodes(t: Throttle, events: seq<Event>)
    requires forall e | e in events :: e.TooMany?
    ensures After(t, events).streak == t.streak + Episodes(t, events)
    decreases |events|
  {
    if events != [] {
      StreakCountsEpisodes(Next(t, events[0]), events[1..]);
    }
  }

  function Doubled(d: int, times: nat): int {
    if times == 0 then d else 2 * Doubled(d, times - 1)
  }

  /** Two episodes in a row: the second window is twice the first, up to the cap, and from the third rung on it stays. */
  lemma WindowDoubles(t: Throttle, d: int, now: int, later: int)
    requires d > 0 && !t.CoolingDown(now) && !Limited(t, d, now).CoolingDown(later)
    ensures
      var u := Limited(t, d, now);
      var v := Limited(u, d, later);
      && u.until.Some? && v.until.Some? && u.until.value > now
      && v.until.value - later ==
         if t.streak < 2 then Min(2 * (u.until.value - now), 900 * SECOND) else u.until.value - now
  {
  }

  lemma {:induction false} AfterOneMore(t: Throttle, events: seq<Event>, e: Event)
    ensures After(t, events + [e]) == Next(After(t, events), e)
    ensures Episodes(t, events + [e]) ==
      Episodes(t, events) + if e.TooMany? && !After(t, events).CoolingDown(e.now) then 1 else 0
    decreases |events|
  {
    if events == [] {
      assert [] + [e] == [e] && [e][1..] == [];
    } else {
      assert (events + [e])[1..] == events[1..] + [e];
      AfterOneMore(Next(t, events[0]), events[1..], e);
    }
  }

  /** The window after the n-th episode of a storm: d doubled n - 1 times, but at most twice and at most to the cap. */
  function StormWindow(n: int, d: int): int {
    Min(Doubled(d, if n <= 1 then 0 else Min(n - 1, 2)), 900 * SECOND)
  }

  lemma OneMore429(t: Throttle, d: int, now: int)
    requires d >= 0 && (t == IDLE || (t.streak > 0 && t.until.Some? && t.until.value <= now + StormWindow(t.streak, d)))
    ensures Limited(t, d, now).until == Some(now + StormWindow(Limited(t, d, now).streak, d))
    ensures Limited(t, d, now).streak == t.streak + if t.until.Some? && now < t.until.value then 0 else 1
  {
    assert Doubled(d, 0) == d && Doubled(d, 1) == 2 * d && Doubled(d, 2) == 4 * d;
  }

  /** A storm: 429s with advice d, in the order of time. */
  predicate Storm(events: seq<Event>, d: int) {
    Ordered(events) && forall i | 0 <= i < |events| :: events[i].TooMany? && events[i].d == d
  }

  lemma StormEnd(events: seq<Event>, d: int)
    requires Storm(events, d) && events != []
    ensures
      var n := |events| - 1;
      && events == events[..n] + [TooMany(d, events[n].now)] && Storm(events[..n], d)
      && (n > 0 ==> events[..n][n - 1].now <= events[n].now)
  {
  }

  /**
   A storm from idle, with any number of 429s racing in each window: after n
   episodes the ladder is at rung n, and the provider is held back for the n-th
   window from the latest 429 on.
   */
  lemma {:induction false} StormHoldsBack(events: seq<Event>, d: int, at: int)
    requires events != [] && Storm(events, d) && d >= 0
    ensures
      var n, last := Episodes(IDLE, events), events[|events| - 1].now;
      && n > 0 && After(IDLE, events) == Throttle(Some(last + StormWindow(n, d)), n)
      && (After(IDLE, events).CoolingDown(at) <==> at < last + StormWindow(n, d))
    decreases |events|
  {
    var m := |events| - 1;
    var before, now := events[..m], events[m].now;
    StormEnd(events, d);
    AfterOneMore(IDLE, before, TooMany(d, now));
    hide StormWindow, Storm, Ordered, Limited;
    if m == 0 {
      OneMore429(IDLE, d, now);
    } else {
      StormHoldsBack(before, d, now);
      hide After, Episodes;
      OneMore429(After(IDLE, before), d, now);
    }
  }

  lemma {:induction false} AfterInParts(t: Throttle, a: seq<Event>, b: seq<Event>)
    ensures After(t, a + b) == After(After(t, a), b)
    decreases |a|
  {
    hide Next;
    if a == [] {
      assert a + b == b;
    } else {
      assert (a + b)[1..] == a[1..] + b;
      AfterInParts(Next(t, a[0]), a[1..], b);
    }
  }

  /** A reset forgets everything before it. */
  lemma ResetForgets(t: Throttle, before: seq<Event>, now: int, events: seq<Event>)
    ensures After(t, before + ([Reset(now)] + events)) == After(IDLE, events)
  {
    AfterInParts(t, before, [Reset(now)] + events);
    assert ([Reset(now)] + events)[1..] == events;
  }

  /** n healthy answers in a row take n rungs off; the last rung takes the window with it. */
  lemma {:induction false} HealthyAnswersStepDown(t: Throttle, events: seq<Event>)
    requires events != [] && forall e | e in events :: e.Healthy?
    ensures After(t, events) == if t.streak <= |events| then IDLE else Throttle(t.until, t.streak - |events|)
    decreases |events|
  {
    assert events[0] in events && forall e | e in events[1..] :: e in events;
    if |events| == 1 {
      assert events[1..] == [] && After(Next(t, events[0]), []) == Next(t, events[0]);
    } else {
      HealthyAnswersStepDown(Next(t, events[0]), events[1..]);
    }
  }

  /** An idle ladder has no window: the provider is never held back at streak zero. */
  lemma {:induction false} IdleMeansOpen(events: seq<Event>, t: Throttle)
    requires t.streak == 0 ==> t.until.None?
    ensures After(t, events).streak == 0 ==> After(t, events).until.None?
    decreases |events|
  {
    if events != [] {
      IdleMeansOpen(events[1..], Next(t, events[0]));
    }
  }
}
