/**
 The per-IP token bucket of internal/api/middleware/ratelimit.go.  Visitors are
 heap objects reached through the map, as in the source; the limiter's
 behaviour is proved to be a step relation on their values, and the rate and
 size bounds are proved over runs of that relation.
 */
module RateLimit {
  import opened Prelude

  /** rate tokens per interval, at most burst of them, at most maxVisitors buckets. */
  datatype Config = Config(rate: int, burst: int, interval: int, maxVisitors: int) {
    predicate Valid() {
      rate >= 0 && interval > 0
    }
  }

  datatype Bucket = Bucket(tokens: int, lastSeen: int)

  type Buckets = map<string, Bucket>

  /** The refill part of allow: whole intervals only, capped, and only then is lastSeen moved. */
  function Refill(c: Config, b: Bucket, now: int): Bucket
    requires c.interval > 0
  {
    var refill := (now - b.lastSeen) / c.interval;
    if refill > 0 then Bucket(Min(b.tokens + refill * c.rate, c.burst), now) else b
  }

  /** A request of a known visitor: refill, then take a token if there is one. */
  function Take(c: Config, b: Bucket, now: int): (Bucket, bool)
    requires c.interval > 0
  {
    var r := Refill(c, b, now);
    if r.tokens > 0 then (r.(tokens := r.tokens - 1), true) else (r, false)
  }

  // ----- the limiter -----

  /** k was seen least recently; which one, among equals, is up to the map's order. */
  ghost predicate Oldest(s: Buckets, k: string) {
    k in s && forall j | j in s :: s[k].lastSeen <= s[j].lastSeen
  }

  /** Room is made only at capacity, and never by removing the empty IP. */
  ghost predicate Evicts(c: Config, s: Buckets, s': Buckets) {
    if |s| < c.maxVisitors || s == map[] then s' == s
    else exists k :: Oldest(s, k) && s' == if k == "" then s else s - {k}
  }

  /** One call allow(ip) at time now, for some map order. */
  ghost predicate Allows(c: Config, s: Buckets, ip: string, now: int, s': Buckets, ok: bool)
    requires c.interval > 0
  {
    if ip in s then (s'.Keys == s.Keys && s' == s[ip := Take(c, s[ip], now).0] && ok == Take(c, s[ip], now).1)
    else ok && exists kept :: Evicts(c, s, kept) && s' == kept[ip := Bucket(c.burst - 1, now)]
  }

  class Visitor {
    var tokens: int
    var lastSeen: int

    constructor (tokens: int, lastSeen: int)
      ensures this.tokens == tokens && this.lastSeen == lastSeen
    {
      this.tokens, this.lastSeen := tokens, lastSeen;
    }
  }

  class RateLimiter {
    var visitors: map<string, Visitor>
    const config: Config

    constructor (config: Config)
      requires config.Valid()
      ensures Valid() && State() == map[] && this.config == config
    {
      visitors, this.config := map[], config;
    }

    /** Buckets are not shared: two IPs never reach one visitor object. */
    ghost predicate Valid()
      reads this
    {
      config.Valid() && forall j, k | j in visitors && k in visitors && visitors[j] == visitors[k] :: j == k
    }

    ghost function State(): (s: Buckets)
      reads this, visitors.Values
      ensures s.Keys == visitors.Keys
    {
      map k | k in visitors :: Bucket(visitors[k].tokens, visitors[k].lastSeen)
    }

    /** The scan for the visitor seen least recently; "" also stands for having found none. */
    method FindOldest() returns (oldestIP: string)
      ensures visitors == map[] ==> oldestIP == ""
      ensures visitors != map[] ==> Oldest(State(), oldestIP)
    {
      oldestIP := "";
      var oldest, first, todo := 0, true, visitors.Keys;
      while todo != {}
        invariant todo <= visitors.Keys
        invariant first <==> todo == visitors.Keys
        invariant !first ==> oldestIP in visitors && visitors[oldestIP].lastSeen == oldest
        invariant !first ==> forall k | k in visitors && k !in todo :: oldest <= visitors[k].lastSeen
        invariant first ==> oldestIP == ""
      {
        var k :| k in todo;
        if first || visitors[k].lastSeen < oldest {
          oldestIP, oldest, first := k, visitors[k].lastSeen, false;
        }
        todo := todo - {k};
      }
    }

    /** Room for one more: the oldest visitor goes, unless that is the empty IP. */
    method MakeRoom()
      requires Valid()
      modifies this
      ensures Valid() && visitors.Keys <= old(visitors.Keys)
      ensures Evicts(config, old(State()), State())
    {
      hide Oldest;
      ghost var before := State();
      assert |before| == |before.Keys| && |visitors| == |visitors.Keys|;
      if |visitors| >= config.maxVisitors {
        var oldestIP := FindOldest();
        if oldestIP != "" {
          visitors := visitors - {oldestIP};
          assert State() == before - {oldestIP};
        }
      }
    }

    method Insert(ip: string, v: Visitor)
      requires Valid() && v !in visitors.Values
      modifies this
      ensures Valid()
      ensures State() == old(State())[ip := Bucket(v.tokens, v.lastSeen)]
    {
      assert forall k | k in visitors :: visitors[k] in visitors.Values;
      visitors := visitors[ip := v];
    }

    method Allow(ip: string, now: int) returns (ok: bool)
      requires Valid()
      modifies this, visitors.Values
      ensures Valid()
      ensures Allows(config, old(State()), ip, now, State(), ok)
    {
      hide Evicts;
      if ip !in visitors {
        MakeRoom();
        ghost var kept := State();
        assert Evicts(config, old(State()), kept);
        var v := new Visitor(config.burst - 1, now);
        Insert(ip, v);
        return true;
      }
      var v := visitors[ip];
      var refill := (now - v.lastSeen) / config.interval;
      if refill > 0 {
        v.tokens := v.tokens + refill * config.rate;
        if v.tokens > config.burst {
          v.tokens := config.burst;
        }
        v.lastSeen := now;
      }
      ok := v.tokens > 0;
      if ok {
        v.tokens := v.tokens - 1;
      }
      assert State()[ip] == Take(config, old(State())[ip], now).0;
    }
  }

  // ----- the rate of one bucket -----

  /** A bucket's requests at the given times: where it ends up and how many were allowed. */
  function Requests(c: Config, b: Bucket, times: seq<int>): (Bucket, nat)
    requires c.interval > 0
    decreases |times|
  {
    if times == [] then (b, 0)
    else
      var (b1, ok) := Take(c, b, times[0]);
      var (b2, n) := Requests(c, b1, times[1..]);
      (b2, if ok then n + 1 else n)
  }

  /** Times do not decrease and lie in [from, to]. */
  predicate Within(times: seq<int>, from: int, to: int) {
    && (forall i | 0 <= i < |times| :: from <= times[i] <= to)
    && (forall i, j | 0 <= i < j < |times| :: times[i] <= times[j])
  }

  lemma QuotientAtMost(n: int, q: int, d: int, r: int)
    requires 0 <= r < n && n * q <= n * d + r
    ensures q <= d
  {
    if q > d {
      RateMonotone(n, d + 1, q);
    }
  }

  lemma FloorAtLeast(x: int, q: int, n: int)
    requires n > 0 && n * q <= x
    ensures q <= x / n
  {
    QuotientAtMost(n, q, x / n, x % n);
  }

  lemma FloorsAdd(a: nat, b: nat, n: int)
    requires n > 0
    ensures a / n + b / n <= (a + b) / n
  {
    assert a == n * (a / n) + a % n && b == n * (b / n) + b % n;
    assert n * (a / n + b / n) == n * (a / n) + n * (b / n);
    FloorAtLeast(a + b, a / n + b / n, n);
  }

  lemma FloorGrows(a: int, b: int, n: int)
    requires n > 0 && a <= b
    ensures a / n <= b / n
  {
    assert n * (a / n) <= a;
    FloorAtLeast(b, a / n, n);
  }

  lemma TakeConserves(c: Config, b: Bucket, now: int)
    requires c.Valid() && b.lastSeen <= now
    ensures
      var (b1, ok) := Take(c, b, now);
      && b.lastSeen <= b1.lastSeen <= now
      && (if ok then 1 else 0) + b1.tokens <= b.tokens + c.rate * ((b1.lastSeen - b.lastSeen) / c.interval)
      && (b.tokens >= 0 && c.burst >= 0 ==> b1.tokens >= 0)
      && (b.tokens <= 0 && c.burst <= 0 ==> !ok && b1.tokens <= 0)
  {
    var refill := (now - b.lastSeen) / c.interval;
    assert refill * c.rate == c.rate * refill;
    RateMonotone(c.rate, 0, refill);
    assert 0 / c.interval == 0;
  }

  /** Conservation: what was allowed plus what is left never exceeds what was there plus what was refilled. */
  lemma {:induction false} TokensConserved(c: Config, b: Bucket, times: seq<int>, to: int)
    requires c.Valid() && b.lastSeen <= to && Within(times, b.lastSeen, to)
    ensures
      var (e, n) := Requests(c, b, times);
      && b.lastSeen <= e.lastSeen <= to
      && n + e.tokens <= b.tokens + c.rate * ((e.lastSeen - b.lastSeen) / c.interval)
      && (b.tokens >= 0 && c.burst >= 0 ==> e.tokens >= 0)
      && (b.tokens <= 0 && c.burst <= 0 ==> n == 0)
    decreases |times|
  {
    hide Take;
    if times == [] {
      assert 0 / c.interval == 0;
    } else {
      var b1, rest := Take(c, b, times[0]).0, times[1..];
      TakeConserves(c, b, times[0]);
      TokensConserved(c, b1, rest, to);
      var e := Requests(c, b1, rest).0;
      assert Requests(c, b, times).0 == e;
      assert Requests(c, b, times).1 == Requests(c, b1, rest).1 + if Take(c, b, times[0]).1 then 1 else 0;
      hide Requests;
      var first, later := b1.lastSeen - b.lastSeen, e.lastSeen - b1.lastSeen;
      assert e.lastSeen - b.lastSeen == first + later;
      FloorsAdd(first, later, c.interval);
      RateGrows(c.rate, first / c.interval, later / c.interval, (first + later) / c.interval);
    }
  }

  lemma RateGrows(rate: int, a: int, b: int, sum: int)
    requires rate >= 0 && a + b <= sum
    ensures rate * a + rate * b <= rate * sum
  {
    assert rate * (a + b) == rate * a + rate * b;
  }

  lemma RateMonotone(rate: int, a: int, b: int)
    requires rate >= 0 && a <= b
    ensures rate * a <= rate * b
  {
  }

  /**
   Since its creation at t0 (whose request is always allowed) a bucket allows at
   most max(1, burst) plus rate per whole interval.
   */
  lemma RateSinceCreation(c: Config, t0: int, times: seq<int>, t: int)
    requires c.Valid() && t0 <= t && Within(times, t0, t)
    ensures 1 + Requests(c, Bucket(c.burst - 1, t0), times).1 <= Max(1, c.burst) + c.rate * ((t - t0) / c.interval)
  {
    var b := Bucket(c.burst - 1, t0);
    TokensConserved(c, b, times, t);
    var (e, n) := Requests(c, b, times);
    FloorGrows(e.lastSeen - t0, t - t0, c.interval);
    FloorAtLeast(t - t0, 0, c.interval);
    RateMonotone(c.rate, (e.lastSeen - t0) / c.interval, (t - t0) / c.interval);
    RateMonotone(c.rate, 0, (t - t0) / c.interval);
  }

  lemma RefillOnce(c: Config, b: Bucket, now: int)
    requires c.interval > 0
    ensures Refill(c, Refill(c, b, now), now) == Refill(c, b, now)
    ensures Take(c, Refill(c, b, now), now) == Take(c, b, now)
  {
    assert 0 / c.interval == 0;
  }

  /** After a refill less than an interval is owing, and the bucket is within its bounds. */
  lemma RefillSettles(c: Config, b: Bucket, now: int)
    requires c.Valid() && b.tokens <= c.burst && (c.burst >= 1 ==> b.tokens >= 0) && b.lastSeen <= now
    ensures
      var b1 := Refill(c, b, now);
      && b.lastSeen <= b1.lastSeen <= now && now - b1.lastSeen < c.interval
      && b1.tokens <= c.burst && (c.burst >= 1 ==> b1.tokens >= 0)
  {
    var elapsed := now - b.lastSeen;
    if elapsed >= c.interval {
      FloorAtLeast(elapsed, 1, c.interval);
    }
    FloorAtLeast(elapsed, 0, c.interval);
    hide Refill;
    RateMonotone(c.rate, 0, elapsed / c.interval);
    RefillIs(c, b, now);
  }

  lemma RefillIs(c: Config, b: Bucket, now: int)
    requires c.interval > 0
    ensures
      var n := (now - b.lastSeen) / c.interval;
      Refill(c, b, now) == if n > 0 then Bucket(Min(b.tokens + c.rate * n, c.burst), now) else b
  {
  }

  /** In any window of length T a bucket allows at most max(0, burst) + rate * (T / interval + 1). */
  lemma RateInWindow(c: Config, b: Bucket, times: seq<int>, from: int, length: nat)
    requires c.Valid() && b.tokens <= c.burst && b.lastSeen <= from && Within(times, from, from + length)
    requires c.burst >= 1 ==> b.tokens >= 0
    ensures Requests(c, b, times).1 <= Max(0, c.burst) + c.rate * (length / c.interval + 1)
  {
    FloorAtLeast(length, 0, c.interval);
    RateMonotone(c.rate, 0, length / c.interval + 1);
    if times != [] {
      var b1 := Refill(c, b, times[0]);
      RequestsAfterRefill(c, b, times);
      RefillSettles(c, b, times[0]);
      hide Requests, Refill, Take;
      TokensConserved(c, b1, times, from + length);
      var e := Requests(c, b1, times).0;
      WindowFloor(e.lastSeen - b1.lastSeen, length, c.interval);
      RateMonotone(c.rate, (e.lastSeen - b1.lastSeen) / c.interval, length / c.interval + 1);
    }
  }

  lemma RequestsAfterRefill(c: Config, b: Bucket, times: seq<int>)
    requires c.interval > 0 && times != []
    ensures Requests(c, Refill(c, b, times[0]), times) == Requests(c, b, times)
  {
    RefillOnce(c, b, times[0]);
    hide Refill;
  }

  lemma WindowFloor(x: int, length: nat, n: int)
    requires n > 0 && x < length + n
    ensures x / n <= length / n + 1
  {
    var d := length / n;
    assert n * (d + 1) == n * d + n;
    QuotientAtMost(n, x / n, d + 1, length % n);
  }

  // ----- what a bucket is sure to allow -----

  /** k whole idle intervals are worth k times the rate, up to the burst. */
  lemma IdleRefills(c: Config, b: Bucket, now: int, k: nat)
    requires c.Valid() && b.tokens <= c.burst && now - b.lastSeen >= k * c.interval
    ensures Refill(c, b, now).tokens >= Min(c.burst, b.tokens + c.rate * k)
  {
    var n := (now - b.lastSeen) / c.interval;
    assert c.interval * k == k * c.interval;
    FloorAtLeast(now - b.lastSeen, k, c.interval);
    RateMonotone(c.rate, k, n);
    hide Refill;
    RefillIs(c, b, now);
    if n == 0 {
      assert c.rate * k == 0;
    }
  }

  /** A request never leaves fewer tokens than one less than before. */
  lemma TakeTakesOne(c: Config, b: Bucket, now: int)
    requires c.Valid() && 1 <= b.tokens <= c.burst
    ensures Take(c, b, now).1 && b.tokens - 1 <= Take(c, b, now).0.tokens <= c.burst
  {
    var n := (now - b.lastSeen) / c.interval;
    if n > 0 {
      RateMonotone(c.rate, 0, n);
    }
    hide Refill;
    RefillIs(c, b, now);
  }

  /** As many requests as there are tokens are all allowed, whenever they come. */
  lemma {:induction false} TokensSuffice(c: Config, b: Bucket, times: seq<int>)
    requires c.Valid() && |times| <= b.tokens <= c.burst
    ensures Requests(c, b, times).1 == |times|
    decreases |times|
  {
    hide Take;
    if times != [] {
      TakeTakesOne(c, b, times[0]);
      TokensSuffice(c, Take(c, b, times[0]).0, times[1..]);
    }
  }

  /** The limiter never denies too much: after k whole idle intervals the next min(burst, tokens + k * rate) requests pass. */
  lemma IdleVisitorIsServed(c: Config, b: Bucket, times: seq<int>, k: nat)
    requires c.Valid() && b.tokens <= c.burst && times != [] && times[0] - b.lastSeen >= k * c.interval
    requires |times| <= Min(c.burst, b.tokens + c.rate * k)
    ensures Requests(c, b, times).1 == |times|
  {
    IdleRefills(c, b, times[0], k);
    RequestsAfterRefill(c, b, times);
    RefillCapped(c, b, times[0]);
    hide Refill, Requests;
    TokensSuffice(c, Refill(c, b, times[0]), times);
  }

  /** When the last refill was, or at when there was none: the first request at least an interval after the one before it refills. */
  function LastRefill(interval: int, at: int, times: seq<int>): int
    decreases |times|
  {
    if times == [] then at
    else LastRefill(interval, if times[0] - at >= interval then times[0] else at, times[1..])
  }

  lemma {:induction false} LastSeenIsLastRefill(c: Config, b: Bucket, times: seq<int>)
    requires c.Valid()
    ensures Requests(c, b, times).0.lastSeen == LastRefill(c.interval, b.lastSeen, times)
    decreases |times|
  {
    if times != [] {
      TakeSeen(c, b, times[0]);
      hide Take;
      LastSeenIsLastRefill(c, Take(c, b, times[0]).0, times[1..]);
    }
  }

  lemma TakeSeen(c: Config, b: Bucket, now: int)
    requires c.Valid()
    ensures Take(c, b, now).0.lastSeen == if now - b.lastSeen >= c.interval then now else b.lastSeen
  {
    var elapsed := now - b.lastSeen;
    if elapsed >= c.interval {
      FloorAtLeast(elapsed, 1, c.interval);
    } else if elapsed / c.interval > 0 {
      RateMonotone(c.interval, 1, elapsed / c.interval);
    }
    hide Refill;
    RefillIs(c, b, now);
  }

  /**
   Asking too often costs a visitor nothing: whatever requests came before,
   allowed or denied, one that comes at least an interval after the last refill is allowed.
   */
  lemma PollingCostsNoTime(c: Config, b: Bucket, times: seq<int>, now: int)
    requires c.Valid() && c.rate >= 1 && c.burst >= 1 && 0 <= b.tokens <= c.burst
    requires b.lastSeen <= now && Within(times, b.lastSeen, now)
    requires now - LastRefill(c.interval, b.lastSeen, times) >= c.interval
    ensures Requests(c, b, times + [now]).1 == Requests(c, b, times).1 + 1
  {
    var e := Requests(c, b, times).0;
    LastSeenIsLastRefill(c, b, times);
    RequestsKeepBounds(c, b, times);
    OneMoreRequest(c, b, times, now);
    IdleRefills(c, e, now, 1);
    assert c.interval == 1 * c.interval;
  }

  lemma {:induction false} RequestsKeepBounds(c: Config, b: Bucket, times: seq<int>)
    requires c.Valid() && c.burst >= 0 && 0 <= b.tokens <= c.burst
    ensures 0 <= Requests(c, b, times).0.tokens <= c.burst
    decreases |times|
  {
    if times != [] {
      var n := (times[0] - b.lastSeen) / c.interval;
      if n > 0 {
        RateMonotone(c.rate, 0, n);
      }
      RefillIs(c, b, times[0]);
      RequestsKeepBounds(c, Take(c, b, times[0]).0, times[1..]);
    }
  }

  lemma {:induction false} OneMoreRequest(c: Config, b: Bucket, times: seq<int>, now: int)
    requires c.interval > 0
    ensures Requests(c, b, times + [now]).1 ==
      Requests(c, b, times).1 + if Take(c, Requests(c, b, times).0, now).1 then 1 else 0
    decreases |times|
  {
    if times == [] {
      assert [] + [now] == [now] && [now][1..] == [];
    } else {
      hide Take;
      assert (times + [now])[1..] == times[1..] + [now];
      OneMoreRequest(c, Take(c, b, times[0]).0, times[1..], now);
    }
  }

  lemma RefillCapped(c: Config, b: Bucket, now: int)
    requires c.interval > 0 && b.tokens <= c.burst
    ensures Refill(c, b, now).tokens <= c.burst
  {
  }

  // ----- runs of the limiter -----

  /** A request with its answer, or the cleanup goroutine deleting some buckets. */
  datatype Event = Request(ip: string, now: int, ok: bool) | Cleanup(removed: set<string>)

  ghost predicate Next(c: Config, s: Buckets, e: Event, s': Buckets)
    requires c.interval > 0
  {
    match e
    case Request(ip, now, ok) => Allows(c, s, ip, now, s', ok)
    case Cleanup(removed) => s' == s - removed
  }

  ghost predicate Run(c: Config, states: seq<Buckets>, events: seq<Event>)
    requires c.interval > 0
  {
    |states| == |events| + 1 && forall i | 0 <= i < |events| :: Next(c, states[i], events[i], states[i + 1])
  }

  /** One IP's request times and allowed requests in a run. */
  function Times(events: seq<Event>, ip: string): seq<int> {
    if events == [] then []
    else (if events[0].Request? && events[0].ip == ip then [events[0].now] else []) + Times(events[1..], ip)
  }

  function Allowed(events: seq<Event>, ip: string): nat {
    if events == [] then 0
    else (if events[0].Request? && events[0].ip == ip && events[0].ok then 1 else 0) + Allowed(events[1..], ip)
  }

  lemma OthersKeepBucket(c: Config, s: Buckets, e: Event, s': Buckets, ip: string)
    requires c.interval > 0 && Next(c, s, e, s') && ip in s && ip in s'
    ensures s'[ip] == if e.Request? && e.ip == ip then Take(c, s[ip], e.now).0 else s[ip]
    ensures e.Request? && e.ip == ip ==> e.ok == Take(c, s[ip], e.now).1
  {
    hide Take, Oldest;
  }

  /** While a visitor is neither evicted nor cleaned up, all other traffic leaves its bucket alone. */
  lemma {:induction false} RunIsOwnRequests(c: Config, states: seq<Buckets>, events: seq<Event>, ip: string)
    requires c.interval > 0 && Run(c, states, events)
    requires forall i | 0 <= i < |states| :: ip in states[i]
    ensures Requests(c, states[0][ip], Times(events, ip)) == (states[|events|][ip], Allowed(events, ip))
    decreases |events|
  {
    hide Take, Next;
    if events != [] {
      OthersKeepBucket(c, states[0], events[0], states[1], ip);
      forall i | 0 <= i < |events| - 1
        ensures Next(c, states[1..][i], events[1..][i], states[1..][i + 1])
      {
        assert Next(c, states[i + 1], events[i + 1], states[i + 2]);
      }
      RunIsOwnRequests(c, states[1..], events[1..], ip);
      if events[0].Request? && events[0].ip == ip {
        assert Times(events, ip)[1..] == Times(events[1..], ip);
      } else {
        assert Times(events, ip) == Times(events[1..], ip);
      }
    }
  }

  /** What every bucket keeps: at most burst tokens, no debt when burst is positive, and no sight of the future. */
  predicate Settled(c: Config, b: Bucket, now: int) {
    b.tokens <= c.burst && (c.burst >= 1 ==> b.tokens >= 0) && b.lastSeen <= now
  }

  predicate AllSettled(c: Config, s: Buckets, now: int) {
    forall ip | ip in s :: Settled(c, s[ip], now)
  }

  lemma TakeKeepsSettled(c: Config, b: Bucket, now: int, to: int)
    requires c.Valid() && Settled(c, b, to) && now <= to
    ensures Settled(c, Take(c, b, now).0, to)
  {
    var refill := (now - b.lastSeen) / c.interval;
    if refill > 0 {
      RateMonotone(c.rate, 0, refill);
      assert refill * c.rate == c.rate * refill;
    }
  }

  lemma NextKeepsSettled(c: Config, s: Buckets, e: Event, s': Buckets, to: int)
    requires c.Valid() && Next(c, s, e, s') && AllSettled(c, s, to) && (e.Request? ==> e.now <= to)
    ensures AllSettled(c, s', to)
  {
    hide Take, Oldest;
    if e.Request? && e.ip in s {
      TakeKeepsSettled(c, s[e.ip], e.now, to);
    }
  }

  /** Every bucket of every reachable state is settled; no bucket needs to be assumed so. */
  lemma {:induction false} ReachableBuckets(c: Config, states: seq<Buckets>, events: seq<Event>, to: int)
    requires c.Valid() && Run(c, states, events) && states[0] == map[]
    requires forall e | e in events && e.Request? :: e.now <= to
    ensures AllSettled(c, states[|events|], to)
    decreases |events|
  {
    hide Next, Settled;
    if events != [] {
      var n := |events| - 1;
      assert events[n] in events;
      ReachableBuckets(c, states[..n + 1], events[..n], to);
      assert Next(c, states[n], events[n], states[n + 1]);
      NextKeepsSettled(c, states[n], events[n], states[n + 1], to);
    }
  }

  /** The rate bound of the running limiter, in a window that begins with the visitor's bucket in order. */
  lemma RunRateInWindow(c: Config, states: seq<Buckets>, events: seq<Event>, ip: string, from: int, length: nat)
    requires c.Valid() && Run(c, states, events)
    requires forall i | 0 <= i < |states| :: ip in states[i]
    requires Within(Times(events, ip), from, from + length)
    requires Settled(c, states[0][ip], from)
    ensures Allowed(events, ip) <= Max(0, c.burst) + c.rate * (length / c.interval + 1)
  {
    RunIsOwnRequests(c, states, events, ip);
    RateInWindow(c, states[0][ip], Times(events, ip), from, length);
  }

  /**
   The rate bound for every IP in every window of every run from the empty
   limiter, whatever the burst, as long as the visitor is there throughout.
   The window is events i to j: nothing before it is later than from, and the
   IP's own requests in it lie in [from, from + length].
   */
  lemma EveryWindow(c: Config, states: seq<Buckets>, events: seq<Event>, ip: string, i: nat, j: nat, from: int, length: nat)
    requires c.Valid() && Run(c, states, events) && states[0] == map[] && i <= j <= |events|
    requires forall e | e in events[..i] && e.Request? :: e.now <= from
    requires Within(Times(events[i..j], ip), from, from + length)
    requires forall k | i <= k <= j :: ip in states[k]
    ensures Allowed(events[i..j], ip) <= Max(0, c.burst) + c.rate * (length / c.interval + 1)
  {
    hide Next;
    ReachableBuckets(c, states[..i + 1], events[..i], from);
    RunPart(c, states, events, i, j);
    RunRateInWindow(c, states[i..j + 1], events[i..j], ip, from, length);
  }

  /**
   The same promise in every run from the empty limiter: a visitor that stays,
   and that was idle for k whole intervals before its first request of the
   window, has min(burst, k * rate) requests in a row allowed, whatever the
   other traffic.
   */
  lemma EveryIdleVisitorIsServed(c: Config, states: seq<Buckets>, events: seq<Event>, ip: string, i: nat, j: nat, k: nat, to: int)
    requires c.Valid() && Run(c, states, events) && states[0] == map[] && i <= j <= |events|
    requires forall e | e in events[..i] && e.Request? :: e.now <= to
    requires forall m | i <= m <= j :: ip in states[m]
    requires
      var times := Times(events[i..j], ip);
      times != [] && times[0] - states[i][ip].lastSeen >= k * c.interval && |times| <= Min(c.burst, c.rate * k)
    ensures Allowed(events[i..j], ip) == |Times(events[i..j], ip)|
  {
    hide Next;
    var b, times := states[i][ip], Times(events[i..j], ip);
    ReachableBuckets(c, states[..i + 1], events[..i], to);
    assert Settled(c, b, to);
    RunPart(c, states, events, i, j);
    RunIsOwnRequests(c, states[i..j + 1], events[i..j], ip);
    IdleVisitorIsServed(c, b, times, k);
  }

  lemma RunPart(c: Config, states: seq<Buckets>, events: seq<Event>, i: nat, j: nat)
    requires c.interval > 0 && Run(c, states, events) && i <= j <= |events|
    ensures Run(c, states[i..j + 1], events[i..j])
  {
    hide Next;
    forall k | 0 <= k < j - i
      ensures Next(c, states[i..j + 1][k], events[i..j][k], states[i..j + 1][k + 1])
    {
      assert Next(c, states[i + k], events[i + k], states[i + k + 1]);
    }
  }

  /** The rate bound from the request that creates the bucket on. */
  lemma RunRateSinceCreation(c: Config, before: Buckets, t0: int, states: seq<Buckets>, events: seq<Event>, ip: string, t: int)
    requires c.Valid() && ip !in before && |states| > 0 && Allows(c, before, ip, t0, states[0], true)
    requires Run(c, states, events) && forall i | 0 <= i < |states| :: ip in states[i]
    requires t0 <= t && Within(Times(events, ip), t0, t)
    ensures 1 + Allowed(events, ip) <= Max(1, c.burst) + c.rate * ((t - t0) / c.interval)
  {
    RunIsOwnRequests(c, states, events, ip);
    RateSinceCreation(c, t0, Times(events, ip), t);
  }

  /** A new visitor that stays has its first burst requests allowed, the one that created its bucket included. */
  lemma NewVisitorIsServed(c: Config, before: Buckets, t0: int, states: seq<Buckets>, events: seq<Event>, ip: string, ok: bool)
    requires c.Valid() && ip !in before && |states| > 0 && Allows(c, before, ip, t0, states[0], ok)
    requires Run(c, states, events) && forall i | 0 <= i < |states| :: ip in states[i]
    requires |Times(events, ip)| <= c.burst - 1
    ensures ok && Allowed(events, ip) == |Times(events, ip)|
  {
    hide Next, Evicts;
    RunIsOwnRequests(c, states, events, ip);
    assert states[0][ip] == Bucket(c.burst - 1, t0);
    TokensSuffice(c, states[0][ip], Times(events, ip));
  }

  // ----- who is kept -----

  /**
   A visitor is forgotten only by a cleanup, or as one of those seen least
   recently when the map is full: while some other visitor was seen before it
   whenever the map is full, it stays.
   */
  lemma {:induction false} VisitorStays(c: Config, states: seq<Buckets>, events: seq<Event>, ip: string)
    requires c.interval > 0 && Run(c, states, events) && ip in states[0]
    requires forall i | 0 <= i < |states| && ip in states[i] && |states[i]| >= c.maxVisitors ::
      exists j :: j in states[i] && states[i][j].lastSeen < states[i][ip].lastSeen
    requires forall i | 0 <= i < |events| && events[i].Cleanup? :: ip !in events[i].removed
    ensures ip in states[|events|]
    decreases |events|
  {
    hide Next;
    if events != [] {
      var n := |events| - 1;
      assert Next(c, states[n], events[n], states[n + 1]);
      VisitorStays(c, states[..n + 1], events[..n], ip);
      NextKeepsVisitor(c, states[n], events[n], states[n + 1], ip);
    }
  }

  lemma NextKeepsVisitor(c: Config, s: Buckets, e: Event, s': Buckets, ip: string)
    requires c.interval > 0 && Next(c, s, e, s') && ip in s && (e.Cleanup? ==> ip !in e.removed)
    requires |s| >= c.maxVisitors ==> exists j :: j in s && s[j].lastSeen < s[ip].lastSeen
    ensures ip in s'
  {
    hide Take;
  }

  // ----- the size of the map -----

  lemma SizeAfterInsert(s: Buckets, ip: string, b: Bucket)
    ensures |s[ip := b]| == |s| + if ip in s then 0 else 1
  {
    assert s[ip := b].Keys == s.Keys + {ip};
    assert |s| == |s.Keys| && |s[ip := b]| == |s[ip := b].Keys|;
  }

  lemma SizeAfterRemove(s: Buckets, k: string)
    requires k in s
    ensures |s - {k}| == |s| - 1
  {
    assert (s - {k}).Keys == s.Keys - {k};
    assert |s| == |s.Keys| && |s - {k}| == |(s - {k}).Keys|;
  }

  /**
   A request keeps the map within its bound, for every map order, exactly unless
   it needs room while the empty IP is among the visitors seen least recently:
   "" is also the scan's mark for having found nobody.
   */
  lemma SizeKeptIff(c: Config, s: Buckets, ip: string, now: int)
    requires c.interval > 0 && 1 <= c.maxVisitors && |s| <= c.maxVisitors
    ensures (forall s', ok | Allows(c, s, ip, now, s', ok) :: |s'| <= c.maxVisitors) <==>
            !(ip !in s && |s| == c.maxVisitors && Oldest(s, ""))
  {
    hide Take, Oldest;
    var b := Bucket(c.burst - 1, now);
    if ip !in s && |s| == c.maxVisitors && Oldest(s, "") {
      assert Evicts(c, s, s);
      SizeAfterInsert(s, ip, b);
      assert Allows(c, s, ip, now, s[ip := b], true);
    } else {
      forall s', ok | Allows(c, s, ip, now, s', ok)
        ensures |s'| <= c.maxVisitors
      {
        if ip in s {
          assert |s'| == |s'.Keys| && |s| == |s.Keys|;
        } else {
          var kept :| Evicts(c, s, kept) && s' == kept[ip := b];
          SizeAfterInsert(kept, ip, b);
          if |s| == c.maxVisitors && s != map[] {
            var k :| Oldest(s, k) && kept == if k == "" then s else s - {k};
            OldestIsKey(s, k);
            SizeAfterRemove(s, k);
          }
        }
      }
    }
  }

  lemma OldestIsKey(s: Buckets, k: string)
    requires Oldest(s, k)
    ensures k in s
  {
  }

  /** n visitors, the empty IP first and the longest ago. */
  function Visitors(c: Config, n: nat): Buckets {
    if n == 0 then map[] else Visitors(c, n - 1)[Name(n - 1) := Bucket(c.burst - 1, n - 1)]
  }

  lemma {:induction false} VisitorsAre(c: Config, n: nat)
    ensures
      var s := Visitors(c, n);
      && |s| == n
      && (forall ip :: ip in s <==> |ip| < n && ip == Name(|ip|))
      && (forall ip | ip in s :: s[ip] == Bucket(c.burst - 1, |ip|))
  {
    hide Name;
    if n > 0 {
      VisitorsAre(c, n - 1);
      assert Name(n - 1) !in Visitors(c, n - 1);
      SizeAfterInsert(Visitors(c, n - 1), Name(n - 1), Bucket(c.burst - 1, n - 1));
    }
  }

  function Name(i: nat): (ip: string)
    ensures |ip| == i
  {
    seq(i, _ => 'a')
  }

  /** Visitor after visitor, each with an IP of its own, the empty one first. */
  function Arrivals(n: nat): seq<Event> {
    seq(n, i requires 0 <= i < n => Request(Name(i), i, true))
  }

  /** The next arrival finds the empty IP to be the only oldest one, and so no room is made. */
  lemma OneMoreVisitor(c: Config, n: nat, s': Buckets, ok: bool)
    requires c.interval > 0
    ensures Allows(c, Visitors(c, n), Name(n), n, s', ok) <==> ok && s' == Visitors(c, n + 1)
  {
    VisitorsAre(c, n);
    hide Visitors, Name;
    var s := Visitors(c, n);
    assert Name(n) !in s;
    forall k | Oldest(s, k)
      ensures k == ""
    {
      assert Name(0) in s;
    }
    if n > 0 {
      assert Name(0) == "" && Oldest(s, "");
    } else {
      assert s == map[];
    }
    assert Evicts(c, s, s);
    NextVisitors(c, n);
  }

  lemma NextVisitors(c: Config, n: nat)
    ensures Visitors(c, n + 1) == Visitors(c, n)[Name(n) := Bucket(c.burst - 1, n)]
  {
  }

  /**
   The bound fails in the open: for every n there is a run from the empty
   limiter, and no map order can prevent it, after which n visitors are kept,
   whatever maxVisitors says.
   */
  lemma {:induction false} MapGrowsWithoutBound(c: Config, states: seq<Buckets>, n: nat)
    requires c.interval > 0 && Run(c, states, Arrivals(n)) && states[0] == map[]
    ensures states[n] == Visitors(c, n) && |states[n]| == n
  {
    VisitorsAre(c, n);
    hide Visitors, Name, Allows;
    if n == 0 {
      NoVisitors(c);
    } else {
      assert Arrivals(n)[..n - 1] == Arrivals(n - 1);
      RunPart(c, states, Arrivals(n), 0, n - 1);
      MapGrowsWithoutBound(c, states[0..n], n - 1);
      assert Next(c, states[n - 1], Arrivals(n)[n - 1], states[n]);
      OneMoreVisitor(c, n - 1, states[n], true);
    }
  }

  lemma NoVisitors(c: Config)
    ensures Visitors(c, 0) == map[]
  {
  }

  /** Such runs exist: the visitors' own history is one. */
  lemma ArrivalsRun(c: Config, n: nat) returns (states: seq<Buckets>)
    requires c.interval > 0
    ensures Run(c, states, Arrivals(n)) && states[0] == map[]
  {
    states := seq(n + 1, i requires 0 <= i < n + 1 => Visitors(c, i));
    NoVisitors(c);
    hide Visitors, Name, Next;
    forall i | 0 <= i < n
      ensures Next(c, states[i], Arrivals(n)[i], states[i + 1])
    {
      ArrivalIsNext(c, i);
    }
  }

  lemma ArrivalIsNext(c: Config, i: nat)
    requires c.interval > 0
    ensures Next(c, Visitors(c, i), Request(Name(i), i, true), Visitors(c, i + 1))
  {
    hide Visitors, Name, Allows;
    OneMoreVisitor(c, i, Visitors(c, i + 1), true);
  }

  /** Without requests from the empty IP the map never outgrows its bound. */
  lemma {:induction false} SizeBounded(c: Config, states: seq<Buckets>, events: seq<Event>)
    requires c.interval > 0 && 1 <= c.maxVisitors && Run(c, states, events)
    requires |states[0]| <= c.maxVisitors && "" !in states[0]
    requires forall i | 0 <= i < |events| && events[i].Request? :: events[i].ip != ""
    ensures |states[|events|]| <= c.maxVisitors && "" !in states[|events|]
    decreases |events|
  {
    hide Take, Allows;
    if events != [] {
      var n := |events| - 1;
      SizeBounded(c, states[..|events|], events[..n]);
      var s, s' := states[n], states[n + 1];
      assert Next(c, s, events[n], s');
      match events[n]
      case Request(ip, now, ok) =>
        SizeKeptIff(c, s, ip, now);
        NoEmptyIP(c, s, ip, now, s', ok);
      case Cleanup(removed) =>
        assert s'.Keys <= s.Keys;
        SubsetSize(s'.Keys, s.Keys);
        assert |s'| == |s'.Keys| && |s| == |s.Keys|;
    }
  }

  lemma NoEmptyIP(c: Config, s: Buckets, ip: string, now: int, s': Buckets, ok: bool)
    requires c.interval > 0 && "" !in s && ip != "" && Allows(c, s, ip, now, s', ok)
    ensures "" !in s'
  {
    hide Take, Oldest;
  }

  lemma {:induction false} SubsetSize<T>(a: set<T>, b: set<T>)
    requires a <= b
    ensures |a| <= |b|
    decreases a
  {
    if x :| x in a {
      SubsetSize(a - {x}, b - {x});
    }
  }
}
