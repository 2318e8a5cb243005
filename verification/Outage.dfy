/**
 The outage breakers of internal/streaming/outage.go, novuscloud.go and
 animegg.go.  Two compute the pause with an int64 shift, one with a doubling
 loop; two assign the end of the pause, one only ever extends it.  Durations
 are in nanoseconds and time is passed in.
 */
module Outage {
  import opened Prelude

  const SECOND := 1_000_000_000
  const BASE_PAUSE := 600 * SECOND
  const MAX_PAUSE := 3600 * SECOND

  function Pow2(k: nat): (p: nat)
    ensures p >= 1
  {
    if k == 0 then 1 else 2 * Pow2(k - 1)
  }

  /** Go's shift of an int64: bits beyond the word are lost. */
  function ShiftLeft(x: int, k: nat): int {
    if k >= 64 then 0 else Wrap64(x * Pow2(k))
  }

  /** The pause of the shift ladder: shifted, then clamped. */
  function ShiftPause(strikes: nat): int
    requires strikes >= 1
  {
    var d := ShiftLeft(BASE_PAUSE, strikes - 1);
    if d > MAX_PAUSE || d <= 0 then MAX_PAUSE else d
  }

  /** The intended pause: doubled per strike, at most the cap. */
  function Ladder(strikes: nat): int
    requires strikes >= 1
  {
    Min(BASE_PAUSE * Pow2(strikes - 1), MAX_PAUSE)
  }

  lemma {:induction false} Pow2Adds(a: nat, b: nat)
    ensures Pow2(a + b) == Pow2(a) * Pow2(b)
  {
    if a > 0 {
      Pow2Adds(a - 1, b);
      assert Pow2(a + b) == 2 * Pow2(a - 1 + b);
    }
  }

  lemma {:induction false} Pow2Grows(a: nat, b: nat)
    requires a <= b
    ensures Pow2(a) <= Pow2(b)
  {
    if a < b {
      Pow2Grows(a, b - 1);
    }
  }

  lemma Powers()
    ensures Pow2(8) == 256 && Pow2(16) == 65536 && Pow2(23) == 8388608
    ensures Pow2(24) == 16777216 && Pow2(30) == 1073741824
  {
    assert Pow2(4) == 16;
    Pow2Adds(4, 4);
    Pow2Adds(8, 8);
    Pow2Adds(16, 7);
    assert Pow2(7) == 128;
    assert Pow2(24) == 2 * Pow2(23);
    assert Pow2(6) == 64;
    Pow2Adds(24, 6);
  }

  /** A shifted value the clamp replaces by the cap. */
  predicate Clamped(w: int) {
    w <= 0 || w > MAX_PAUSE
  }

  /** A multiple of 2^42 stays one in the register, and no such value lies in 1..MAX_PAUSE. */
  lemma WrapKeepsMultiple(x: int)
    ensures Clamped(Wrap64(x * 0x400_0000_0000))
  {
    var n := x * 0x400_0000_0000;
    var w := Wrap64(n);
    var q := (w - n) / TWO_TO_64;
    assert w - n == q * TWO_TO_64;
    assert w == (x + q * 0x40_0000) * 0x400_0000_0000;
  }

  /** Finding the register's value by subtracting whole words. */
  lemma WrapIs(n: int, words: int)
    requires IsInt64(n - words * TWO_TO_64)
    ensures Wrap64(n) == n - words * TWO_TO_64
  {
    var d := Wrap64(n) - (n - words * TWO_TO_64);
    assert d == (Wrap64(n) - n) + words * TWO_TO_64;
    assert d % TWO_TO_64 == 0;
    assert -TWO_TO_64 < d < TWO_TO_64;
  }

  /** The shifts that overflow without yet losing every bit below 2^42. */
  lemma OverflowedShifts(k: nat)
    requires 24 <= k < 30
    ensures Clamped(Wrap64(BASE_PAUSE * Pow2(k)))
  {
    Powers();
    hide Wrap64;
    var n := BASE_PAUSE * 16777216;
    if k <= 26 {
      assert Pow2(25) == 2 * Pow2(24) && Pow2(26) == 2 * Pow2(25);
      WrapIs(n, 1);
      WrapIs(2 * n, 1);
      WrapIs(4 * n, 2);
    } else {
      assert Pow2(3) == 8;
      Pow2Adds(24, 3);
      assert Pow2(28) == 2 * Pow2(27) && Pow2(29) == 2 * Pow2(28);
      WrapIs(8 * n, 4);
      WrapIs(16 * n, 9);
      WrapIs(32 * n, 17);
    }
  }

  lemma LateShifts(k: nat)
    requires 30 <= k
    ensures Clamped(Wrap64(BASE_PAUSE * Pow2(k)))
  {
    hide Pow2, Wrap64, Clamped;
    Powers();
    Pow2Adds(30, k - 30);
    var p := Pow2(k - 30);
    assert BASE_PAUSE * 1073741824 == 146484375 * 0x400_0000_0000;
    assert BASE_PAUSE * Pow2(k) == BASE_PAUSE * (1073741824 * p) == (146484375 * p) * 0x400_0000_0000;
    WrapKeepsMultiple(146484375 * p);
  }

  /** Shifting past the word: for every strike count the clamped shift is the intended pause. */
  lemma ShiftLadder(strikes: nat)
    requires strikes >= 1
    ensures ShiftPause(strikes) == Ladder(strikes)
  {
    hide Pow2, Wrap64;
    var k := strikes - 1;
    Powers();
    if k <= 23 {
      Pow2Grows(k, 23);
      assert IsInt64(BASE_PAUSE * Pow2(k));
    } else {
      Pow2Grows(24, k);
      assert Ladder(strikes) == MAX_PAUSE;
      if k < 30 {
        OverflowedShifts(k);
      } else {
        LateShifts(k);
      }
    }
  }

  /** The loop ladder of noteOutageHealth in animegg.go. */
  method LoopPause(strikes: nat) returns (d: int)
    requires strikes >= 1
    ensures d == Ladder(strikes)
  {
    d := BASE_PAUSE;
    var i := 1;
    while i < strikes
      invariant 1 <= i <= strikes
      invariant d == BASE_PAUSE * Pow2(i - 1) < MAX_PAUSE || (i == 1 && d == BASE_PAUSE)
    {
      d := d * 2;
      if d >= MAX_PAUSE {
        Pow2Grows(i, strikes - 1);
        break;
      }
      i := i + 1;
    }
    if d > MAX_PAUSE {
      d := MAX_PAUSE;
    }
  }

  // ----- the breakers -----

  /** until is None for Go's zero time. */
  datatype Breaker = Breaker(strikes: nat, until: Option<int>) {
    predicate Paused(now: int) {
      until.Some? && now < until.value
    }
  }

  const CLOSED := Breaker(0, None)

  /** note in outage.go and noteOutageHealth in novuscloud.go: a sick resolve assigns the end of the pause. */
  function AssignNote(b: Breaker, healthy: bool, now: int): Breaker {
    if healthy then CLOSED else Breaker(b.strikes + 1, Some(now + Ladder(b.strikes + 1)))
  }

  /** noteOutageHealth in animegg.go: a sick resolve only ever moves the end of the pause later. */
  function ExtendNote(b: Breaker, healthy: bool, now: int): Breaker {
    if healthy then CLOSED
    else
      var until := now + Ladder(b.strikes + 1);
      Breaker(b.strikes + 1, if b.until.None? || until > b.until.value then Some(until) else b.until)
  }

  class OutageBreaker {
    var strikes: nat
    var until: Option<int>
    const probeMin: int

    constructor (probeMin: int)
      ensures State() == CLOSED && this.probeMin == probeMin
    {
      strikes, until, this.probeMin := 0, None, probeMin;
    }

    function State(): Breaker
      reads this
    {
      Breaker(strikes, until)
    }

    method Paused(now: int) returns (r: bool)
      ensures r == State().Paused(now)
    {
      r := until.Some? && now < until.value;
    }

    method Note(healthy: bool, now: int)
      modifies this
      ensures State() == AssignNote(old(State()), healthy, now)
    {
      if healthy {
        strikes := 0;
        until := None;
        return;
      }
      strikes := strikes + 1;
      var d := ShiftLeft(BASE_PAUSE, strikes - 1);
      if d > MAX_PAUSE || d <= 0 {
        d := MAX_PAUSE;
      }
      ShiftLadder(strikes);
      until := Some(now + d);
    }

    /** The code takes a resolve that reached probeMin for a healthy one, against its own comment. */
    method NoteResolve(d: int, now: int)
      modifies this
      ensures State() == AssignNote(old(State()), d >= probeMin, now)
    {
      Note(d >= probeMin, now);
    }
  }

  class AnimeGGBreaker {
    var outageStrikes: nat
    var outageUntil: Option<int>

    constructor ()
      ensures State() == CLOSED
    {
      outageStrikes, outageUntil := 0, None;
    }

    function State(): Breaker
      reads this
    {
      Breaker(outageStrikes, outageUntil)
    }

    method NoteOutageHealth(healthy: bool, now: int)
      modifies this
      ensures State() == ExtendNote(old(State()), healthy, now)
    {
      if healthy {
        outageStrikes := 0;
        outageUntil := None;
        return;
      }
      outageStrikes := outageStrikes + 1;
      var d := LoopPause(outageStrikes);
      var until := now + d;
      if outageUntil.None? || until > outageUntil.value {
        outageUntil := Some(until);
      }
    }
  }

  // ----- traces -----

  datatype Event = Event(healthy: bool, now: int)

  predicate Ordered(events: seq<Event>) {
    forall i, j | 0 <= i < j < |events| :: events[i].now <= events[j].now
  }

  function Assigned(events: seq<Event>): Breaker {
    if events == [] then CLOSED
    else var n := |events| - 1; AssignNote(Assigned(events[..n]), events[n].healthy, events[n].now)
  }

  function Extended(events: seq<Event>): Breaker {
    if events == [] then CLOSED
    else var n := |events| - 1; ExtendNote(Extended(events[..n]), events[n].healthy, events[n].now)
  }

  /** How many events at the end of a trace are sick. */
  function SickRun(events: seq<Event>): nat {
    if events == [] || events[|events| - 1].healthy then 0 else 1 + SickRun(events[..|events| - 1])
  }

  /**
   What the breaker means: it counts the sick resolves since the last healthy
   one, and pauses for the ladder's time from the last of them.
   */
  lemma {:induction false} AssignedMeans(events: seq<Event>)
    ensures
      var n := SickRun(events);
      Assigned(events) == Breaker(n, if n == 0 then None else Some(events[|events| - 1].now + Ladder(n)))
  {
    if events != [] {
      AssignedMeans(events[..|events| - 1]);
    }
  }

  /** Ten minutes after the first sick resolve in a row, twenty after the second, forty after the third, an hour after any other. */
  function Pause(n: nat): int {
    if n == 1 then 600 * SECOND else if n == 2 then 1200 * SECOND else if n == 3 then 2400 * SECOND else 3600 * SECOND
  }

  lemma LadderIsPause(n: nat)
    requires n >= 1
    ensures Ladder(n) == Pause(n)
  {
    if n <= 3 {
      assert Pow2(0) == 1 && Pow2(1) == 2 && Pow2(2) == 4;
    } else {
      assert Pow2(3) == 8;
      Pow2Grows(3, n - 1);
      hide Pow2;
    }
  }

  /**
   What paused answers after a trace: the provider is paused exactly when the
   last resolve was sick and less than its pause ago.
   */
  lemma PausedIff(events: seq<Event>, now: int)
    ensures
      var n := SickRun(events);
      Assigned(events).Paused(now) <==> n > 0 && now - events[|events| - 1].now < Pause(n)
  {
    AssignedMeans(events);
    if SickRun(events) > 0 {
      LadderIsPause(SickRun(events));
    }
  }

  /**
   The extending design, on every trace, ordered or not: the provider is paused
   exactly when some sick resolve since the last healthy one is less than its pause ago.
   */
  lemma {:induction false} ExtendedPausedIff(events: seq<Event>, now: int)
    ensures Extended(events).strikes == SickRun(events) && (SickRun(events) == 0 ==> Extended(events).until.None?)
    ensures Extended(events).Paused(now) <==>
      exists k | 1 <= k <= SickRun(events) :: now - SickAt(events, k) < Pause(k)
  {
    if events != [] {
      var m := |events| - 1;
      ExtendedPausedIff(events[..m], now);
      var n := SickRun(events);
      if n > 0 {
        LadderIsPause(n);
        hide Ladder, Pause;
        assert SickAt(events, n) == events[m].now;
        forall k | 1 <= k < n
          ensures SickAt(events[..m], k) == SickAt(events, k)
        {
          SickRunFits(events[..m]);
          var at := |events| - n + k - 1;
          assert 0 <= at < m && events[..m][at] == events[at];
        }
      }
    }
  }

  lemma {:induction false} SickRunFits(events: seq<Event>)
    ensures SickRun(events) <= |events|
  {
    if events != [] {
      SickRunFits(events[..|events| - 1]);
    }
  }

  /** The time of the k-th sick resolve since the last healthy one. */
  function SickAt(events: seq<Event>, k: nat): int
    requires 1 <= k <= SickRun(events)
  {
    SickRunFits(events);
    events[|events| - SickRun(events) + k - 1].now
  }

  lemma LadderGrows(strikes: nat)
    requires strikes >= 1
    ensures 0 < Ladder(strikes) <= Ladder(strikes + 1) <= MAX_PAUSE
  {
    Pow2Grows(0, strikes - 1);
  }

  /** The two designs give the same strikes and pauses on every trace whose times do not decrease. */
  lemma {:induction false} DesignsAgree(events: seq<Event>)
    requires Ordered(events)
    ensures Assigned(events) == Extended(events)
  {
    if events != [] {
      var n := |events| - 1;
      var before := events[..n];
      DesignsAgree(before);
      AssignedMeans(before);
      if SickRun(before) > 0 {
        LadderGrows(SickRun(before));
        assert before[n - 1] == events[n - 1];
      }
    }
  }

  /** With a clock that steps back they differ: only the assigning design shortens the pause. */
  lemma DesignsNeedOrderedTime()
    ensures
      var events := [Event(false, 1000 * SECOND), Event(false, 0)];
      !Assigned(events).Paused(1300 * SECOND) && Extended(events).Paused(1300 * SECOND)
  {
    var events := [Event(false, 1000 * SECOND), Event(false, 0)];
    assert events[..1] == [Event(false, 1000 * SECOND)] && events[..1][..0] == [];
    assert Pow2(1) == 2;
    assert Assigned(events[..1]) == Breaker(1, Some(1600 * SECOND)) == Extended(events[..1]);
  }
}
