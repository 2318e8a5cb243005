/**
 The season concatenation of internal/tmdb/direct.go: directSeasons,
 pickDirectSeason and assignDirectSlots.  A show's JSON is taken as the list
 of its (season number, episode count) pairs, the titles as the list of the
 numbers their season markers name, in the order they are tried.
 */
module DirectSlots {
  datatype Season = Season(number: int, episodes: int) {
    predicate Regular() {
      number > 0 && episodes > 0
    }
  }

  datatype Slot = Slot(season: int, episode: int)

  predicate AllRegular(seasons: seq<Season>) {
    forall i | 0 <= i < |seasons| :: seasons[i].Regular()
  }

  predicate Sorted(seasons: seq<Season>) {
    forall i, j | 0 <= i < j < |seasons| :: seasons[i].number <= seasons[j].number
  }

  // ----- directSeasons -----

  function Regulars(raw: seq<Season>): seq<Season> {
    if raw == [] then []
    else (if raw[0].Regular() then [raw[0]] else []) + Regulars(raw[1..])
  }

  /** Specials and empty seasons are dropped, nothing else; the rest is in season order. */
  method DirectSeasons(raw: seq<Season>) returns (seasons: seq<Season>)
    ensures AllRegular(seasons) && Sorted(seasons)
    ensures forall s: Season :: multiset(seasons)[s] == if s.number > 0 && s.episodes > 0 then multiset(raw)[s] else 0
  {
    RegularsCount(raw);
    seasons := [];
    assert raw[0..] == raw;
    for i := 0 to |raw|
      invariant AllRegular(seasons) && Sorted(seasons)
      invariant multiset(seasons) + multiset(Regulars(raw[i..])) == multiset(Regulars(raw))
    {
      RegularsFrom(raw, i);
      hide Regulars, InsertByNumber;
      if !raw[i].Regular() {
        continue;
      }
      InsertKeepsOrder(seasons, raw[i]);
      seasons := InsertByNumber(seasons, raw[i]);
    }
  }

  lemma {:induction false} RegularsCount(raw: seq<Season>)
    ensures forall s: Season :: multiset(Regulars(raw))[s] == if s.number > 0 && s.episodes > 0 then multiset(raw)[s] else 0
  {
    if raw != [] {
      RegularsCount(raw[1..]);
      assert raw == [raw[0]] + raw[1..];
    }
  }

  lemma RegularsFrom(raw: seq<Season>, i: nat)
    requires i < |raw|
    ensures multiset(Regulars(raw[i..])) ==
            (if raw[i].Regular() then multiset{raw[i]} else multiset{}) + multiset(Regulars(raw[i + 1..]))
  {
    assert raw[i..][1..] == raw[i + 1..];
  }

  /** Where s belongs in season order. */
  function InsertByNumber(seasons: seq<Season>, s: Season): (r: seq<Season>)
    ensures multiset(r) == multiset(seasons) + multiset{s}
  {
    if seasons == [] || s.number < seasons[0].number then [s] + seasons
    else
      assert seasons == [seasons[0]] + seasons[1..];
      [seasons[0]] + InsertByNumber(seasons[1..], s)
  }

  lemma {:induction false} InsertKeepsOrder(seasons: seq<Season>, s: Season)
    requires Sorted(seasons) && AllRegular(seasons) && s.Regular()
    ensures Sorted(InsertByNumber(seasons, s)) && AllRegular(InsertByNumber(seasons, s))
    ensures InsertByNumber(seasons, s)[0] == s || (seasons != [] && InsertByNumber(seasons, s)[0] == seasons[0])
  {
    if seasons != [] && s.number >= seasons[0].number {
      InsertKeepsOrder(seasons[1..], s);
    }
  }

  // ----- pickDirectSeason -----

  predicate Listed(seasons: seq<Season>, number: int) {
    exists i :: 0 <= i < |seasons| && seasons[i].number == number
  }

  /** The only season with that episode count. */
  predicate OnlyMatch(seasons: seq<Season>, total: int, i: int) {
    0 <= i < |seasons| && seasons[i].episodes == total &&
    forall j | 0 <= j < |seasons| && j != i :: seasons[j].episodes != total
  }

  /** The marker that decides: the first one that names a listed season. */
  predicate DecidingMark(seasons: seq<Season>, marks: seq<int>, i: int) {
    0 <= i < |marks| && marks[i] > 0 && Listed(seasons, marks[i]) &&
    forall j | 0 <= j < i :: !(marks[j] > 0 && Listed(seasons, marks[j]))
  }

  /** Markers win, then a lone season, then a unique episode count, then the first season. */
  method PickDirectSeason(seasons: seq<Season>, marks: seq<int>, knownTotal: int) returns (r: int)
    requires AllRegular(seasons)
    ensures seasons == [] ==> r == 0
    ensures seasons != [] ==> Listed(seasons, r)
    ensures forall i | DecidingMark(seasons, marks, i) :: seasons != [] ==> r == marks[i]
    ensures seasons != [] && (forall i :: !DecidingMark(seasons, marks, i)) ==>
      (forall i | |seasons| > 1 && knownTotal > 0 && OnlyMatch(seasons, knownTotal, i) :: r == seasons[i].number) &&
      ((|seasons| == 1 || knownTotal <= 0 || forall i :: !OnlyMatch(seasons, knownTotal, i)) ==> r == seasons[0].number)
  {
    if |seasons| == 0 {
      return 0;
    }
    for i := 0 to |marks|
      invariant forall j | 0 <= j < i :: !(marks[j] > 0 && Listed(seasons, marks[j]))
    {
      if marks[i] > 0 && Listed(seasons, marks[i]) {
        assert DecidingMark(seasons, marks, i);
        return marks[i];
      }
    }
    assert Listed(seasons, seasons[0].number);
    if |seasons| == 1 {
      return seasons[0].number;
    }
    if knownTotal > 0 {
      var match_ := 0;
      ghost var at := 0;
      for i := 0 to |seasons|
        invariant match_ == 0 ==> forall j | 0 <= j < i :: seasons[j].episodes != knownTotal
        invariant match_ != 0 ==> at < i && OnlyMatch(seasons[..i], knownTotal, at) && match_ == seasons[at].number
      {
        if seasons[i].episodes != knownTotal {
          continue;
        }
        if match_ != 0 {
          assert seasons[at].episodes == knownTotal && seasons[i].episodes == knownTotal;
          return seasons[0].number;
        }
        match_, at := seasons[i].number, i;
      }
      assert seasons[..|seasons|] == seasons;
      if match_ > 0 {
        assert OnlyMatch(seasons, knownTotal, at);
        return match_;
      }
    }
    return seasons[0].number;
  }

  // ----- assignDirectSlots -----

  function SeasonSlots(s: Season): (r: seq<Slot>)
    requires s.Regular()
    ensures |r| == s.episodes
  {
    seq(s.episodes, i => Slot(s.number, i + 1))
  }

  /** All episodes of the seasons, one after the other. */
  function Line(seasons: seq<Season>): seq<Slot>
    requires AllRegular(seasons)
  {
    if seasons == [] then [] else SeasonSlots(seasons[0]) + Line(seasons[1..])
  }

  function FromSeason(seasons: seq<Season>, start: int): (r: seq<Season>)
    ensures AllRegular(seasons) ==> AllRegular(r)
    ensures Listed(seasons, start) ==> r != [] && r[0].number == start
  {
    if seasons == [] then []
    else if seasons[0].number == start then seasons
    else
      assert forall i | 1 <= i < |seasons| :: seasons[i] == seasons[1..][i - 1];
      FromSeason(seasons[1..], start)
  }

  /** Slot n of the show: the n-th element of the line, for a requested number inside it. */
  predicate IsAssignment(line: seq<Slot>, nums: seq<int>, upTo: int, slots: map<int, Slot>) {
    && (forall n | n in slots :: n in nums && 1 <= n <= |line| && n <= upTo && slots[n] == line[n - 1])
    && (forall n | n in nums && 1 <= n <= |line| && n <= upTo :: n in slots)
  }

  lemma {:induction false} LineIndex(seasons: seq<Season>, k: nat, i: nat)
    requires AllRegular(seasons) && k < |seasons| && i < seasons[k].episodes
    ensures |Line(seasons[..k])| + i < |Line(seasons)|
    ensures Line(seasons)[|Line(seasons[..k])| + i] == Slot(seasons[k].number, i + 1)
    ensures |Line(seasons[..k + 1])| == |Line(seasons[..k])| + seasons[k].episodes
  {
    if k == 0 {
      assert seasons[..1][1..] == [] && seasons[..1][0] == seasons[0];
    } else {
      assert seasons[..k][1..] == seasons[1..][..k - 1] && seasons[..k + 1][1..] == seasons[1..][..k];
      LineIndex(seasons[1..], k - 1, i);
    }
  }

  lemma {:induction false} LinePrefix(seasons: seq<Season>, k: nat)
    requires AllRegular(seasons) && k <= |seasons|
    ensures |Line(seasons[..k])| <= |Line(seasons)|
  {
    if k > 0 {
      assert seasons[..k][1..] == seasons[1..][..k - 1];
      LinePrefix(seasons[1..], k - 1);
    }
  }

  /** One season's share: slots for the requested numbers in (offset, offset + episodes], and the season if there are any. */
  ghost predicate SeasonAssigned(s: Season, offset: int, req: set<int>, slots0: map<int, Slot>, needed0: set<int>,
                                 slots: map<int, Slot>, needed: set<int>)
  {
    && (forall n :: n in slots <==> n in slots0 || (n in req && offset < n <= offset + s.episodes))
    && (forall n | n in slots :: slots[n] == if n in slots0 then slots0[n] else Slot(s.number, n - offset))
    && needed == needed0 + (if exists n :: n in req && offset < n <= offset + s.episodes then {s.number} else {})
  }

  /** One season's inner loop. */
  method AssignSeason(s: Season, offset: int, req: set<int>, slots0: map<int, Slot>, needed0: set<int>)
    returns (slots: map<int, Slot>, needed: set<int>)
    requires s.Regular() && forall n | n in slots0 :: n <= offset
    ensures SeasonAssigned(s, offset, req, slots0, needed0, slots, needed)
  {
    slots, needed := slots0, needed0;
    var n := offset + 1;
    while n <= offset + s.episodes
      invariant offset + 1 <= n <= offset + s.episodes + 1
      invariant forall m :: m in slots <==> m in slots0 || (m in req && offset < m < n)
      invariant forall m | m in slots :: slots[m] == if m in slots0 then slots0[m] else Slot(s.number, m - offset)
      invariant needed == needed0 + (if exists m :: m in req && offset < m < n then {s.number} else {})
    {
      if n in req {
        slots := slots[n := Slot(s.number, n - offset)];
        needed := needed + {s.number};
      }
      n := n + 1;
    }
  }

  /** The seasons that slots refer to. */
  function Used(slots: map<int, Slot>): set<int> {
    set n | n in slots :: slots[n].season
  }

  /** The numbers up to the end of the first k seasons are done. */
  ghost predicate Progress(rest: seq<Season>, k: nat, nums: seq<int>, slots: map<int, Slot>, needed: set<int>)
    requires AllRegular(rest) && k <= |rest|
  {
    IsAssignment(Line(rest), nums, |Line(rest[..k])|, slots) && needed == Used(slots)
  }

  /** The first loop of assignDirectSlots: the requested numbers, and a bound on them. */
  method RequestedNumbers(nums: seq<int>) returns (req: set<int>, maxNum: int)
    ensures req == set n | n in nums
    ensures maxNum >= 0 && forall n | n in nums :: n <= maxNum
  {
    req, maxNum := {}, 0;
    for i := 0 to |nums|
      invariant req == set n | n in nums[..i]
      invariant maxNum >= 0 && forall n | n in nums[..i] :: n <= maxNum
    {
      req := req + {nums[i]};
      if nums[i] > maxNum {
        maxNum := nums[i];
      }
      assert nums[..i + 1] == nums[..i] + [nums[i]];
    }
    assert nums[..|nums|] == nums;
  }

  /**
   assignDirectSlots: exactly the requested numbers inside the line get slots,
   each its own element of the line, and needed is exactly the seasons used;
   leaving the loop once the largest number is passed loses nothing.
   */
  method AssignDirectSlots(seasons: seq<Season>, start: int, nums: seq<int>)
    returns (slots: map<int, Slot>, needed: set<int>)
    requires AllRegular(seasons)
    ensures var line := Line(FromSeason(seasons, start)); IsAssignment(line, nums, |line|, slots)
    ensures needed == Used(slots)
  {
    slots, needed := map[], {};
    var req, maxNum := RequestedNumbers(nums);
    var offset, started := 0, false;
    ghost var rest, k := FromSeason(seasons, start), 0;
    assert seasons[0..] == seasons && Progress(rest, 0, nums, slots, needed);
    hide Progress, IsAssignment, Used, Line, SeasonAssigned;
    NothingBefore(rest);
    for j := 0 to |seasons|
      invariant started ==> k <= |rest| && seasons[j..] == rest[k..]
      invariant !started ==> k == 0 && FromSeason(seasons[j..], start) == rest
      invariant k <= |rest| && offset == |Line(rest[..k])| && Progress(rest, k, nums, slots, needed)
    {
      var s := seasons[j];
      assert seasons[j..][0] == s && seasons[j..][1..] == seasons[j + 1..];
      if !started {
        if s.number != start {
          continue;
        }
        started := true;
        assert rest[0..] == rest;
      }
      assert rest[k..][0] == s && rest[k..][1..] == rest[k + 1..];
      StepInto(rest, k);
      DoneSoFar(rest, k, nums, slots, needed);
      var slots1, needed1 := AssignSeason(s, offset, req, slots, needed);
      AssignmentGrows(rest, k, nums, req, slots, needed, slots1, needed1);
      slots, needed, offset, k := slots1, needed1, offset + s.episodes, k + 1;
      if offset >= maxNum {
        BreakLosesNothing(rest, k, nums, slots, needed);
        return;
      }
    }
    AllDone(rest, k, nums, slots, needed);
  }

  lemma NothingBefore(rest: seq<Season>)
    requires AllRegular(rest)
    ensures |Line(rest[..0])| == 0
  {
  }

  lemma DoneSoFar(rest: seq<Season>, k: nat, nums: seq<int>, slots: map<int, Slot>, needed: set<int>)
    requires AllRegular(rest) && k <= |rest| && Progress(rest, k, nums, slots, needed)
    ensures forall n | n in slots :: n <= |Line(rest[..k])|
  {
  }

  /** Once the largest requested number is passed, the seasons left have nothing to add. */
  lemma BreakLosesNothing(rest: seq<Season>, k: nat, nums: seq<int>, slots: map<int, Slot>, needed: set<int>)
    requires AllRegular(rest) && k <= |rest| && Progress(rest, k, nums, slots, needed)
    requires forall n | n in nums :: n <= |Line(rest[..k])|
    ensures IsAssignment(Line(rest), nums, |Line(rest)|, slots) && needed == Used(slots)
  {
    LinePrefix(rest, k);
  }

  lemma AllDone(rest: seq<Season>, k: nat, nums: seq<int>, slots: map<int, Slot>, needed: set<int>)
    requires AllRegular(rest) && k == |rest| && Progress(rest, k, nums, slots, needed)
    ensures IsAssignment(Line(rest), nums, |Line(rest)|, slots) && needed == Used(slots)
  {
    assert rest[..k] == rest;
  }

  lemma StepInto(rest: seq<Season>, k: nat)
    requires AllRegular(rest) && k < |rest|
    ensures |Line(rest[..k + 1])| == |Line(rest[..k])| + rest[k].episodes
  {
    LineIndex(rest, k, 0);
  }

  /** One more season extends an assignment of the numbers up to offset. */
  lemma AssignmentGrows(rest: seq<Season>, k: nat, nums: seq<int>, req: set<int>, slots: map<int, Slot>, needed: set<int>,
                        slots1: map<int, Slot>, needed1: set<int>)
    requires AllRegular(rest) && k < |rest| && req == set n | n in nums
    requires Progress(rest, k, nums, slots, needed)
    requires SeasonAssigned(rest[k], |Line(rest[..k])|, req, slots, needed, slots1, needed1)
    ensures Progress(rest, k + 1, nums, slots1, needed1)
  {
    var s, offset := rest[k], |Line(rest[..k])|;
    StepInto(rest, k);
    forall n | n in slots1
      ensures n in nums && 1 <= n <= |Line(rest)| && slots1[n] == Line(rest)[n - 1]
    {
      if n !in slots {
        LineIndex(rest, k, n - offset - 1);
      }
    }
    UsedGrows(s, offset, req, slots, needed, slots1, needed1);
  }

  lemma UsedGrows(s: Season, offset: int, req: set<int>, slots: map<int, Slot>, needed: set<int>, slots1: map<int, Slot>, needed1: set<int>)
    requires SeasonAssigned(s, offset, req, slots, needed, slots1, needed1) && needed == Used(slots)
    requires forall n | n in slots :: n <= offset
    ensures needed1 == Used(slots1)
  {
    forall n | n in slots1
      ensures slots1[n].season in needed1
    {
      assert n in slots ==> slots[n].season in Used(slots);
    }
    forall x | x in needed1
      ensures x in Used(slots1)
    {
      if x in needed {
        var n :| n in slots && slots[n].season == x;
        assert n in slots1;
      } else {
        var n :| n in req && offset < n <= offset + s.episodes;
        assert n in slots1 && slots1[n].season == x;
      }
    }
  }

  // ----- what the line is like -----

  predicate DistinctNumbers(seasons: seq<Season>) {
    forall i, j | 0 <= i < j < |seasons| :: seasons[i].number != seasons[j].number
  }

  /** No two numbers of the show share a slot, exactly when no season number occurs twice. */
  lemma LineInjectiveIff(seasons: seq<Season>)
    requires AllRegular(seasons)
    ensures (forall i, j | 0 <= i < j < |Line(seasons)| :: Line(seasons)[i] != Line(seasons)[j]) <==> DistinctNumbers(seasons)
  {
    if DistinctNumbers(seasons) {
      forall i, j | 0 <= i < j < |Line(seasons)|
        ensures Line(seasons)[i] != Line(seasons)[j]
      {
        var a, x := LineLocated(seasons, i);
        var b, y := LineLocated(seasons, j);
      }
    } else {
      var a, b :| 0 <= a < b < |seasons| && seasons[a].number == seasons[b].number;
      LineIndex(seasons, a, 0);
      LineIndex(seasons, b, 0);
      LineIndex(seasons[..b], a, 0);
      assert seasons[..b][..a] == seasons[..a];
    }
  }

  lemma {:induction false} LineLocated(seasons: seq<Season>, n: nat) returns (k: nat, i: nat)
    requires AllRegular(seasons) && n < |Line(seasons)|
    ensures k < |seasons| && i < seasons[k].episodes && n == |Line(seasons[..k])| + i
    ensures Line(seasons)[n] == Slot(seasons[k].number, i + 1)
  {
    if n < seasons[0].episodes {
      k, i := 0, n;
      LineIndex(seasons, 0, n);
    } else {
      k, i := LineLocated(seasons[1..], n - seasons[0].episodes);
      k := k + 1;
      assert seasons[..k][1..] == seasons[1..][..k - 1];
    }
  }

  /** In season order, later numbers get later slots. */
  lemma LineOrdered(seasons: seq<Season>, i: nat, j: nat)
    requires AllRegular(seasons) && Sorted(seasons) && DistinctNumbers(seasons) && i < j < |Line(seasons)|
    ensures
      var a, b := Line(seasons)[i], Line(seasons)[j];
      a.season < b.season || (a.season == b.season && a.episode < b.episode)
  {
    var k1, x1 := LineLocated(seasons, i);
    var k2, x2 := LineLocated(seasons, j);
    if k2 < k1 {
      assert seasons[..k1][..k2] == seasons[..k2];
      LineIndex(seasons[..k1], k2, x2);
    }
  }

  /** The line begins with the first season of the picked number, and nothing after it is left out. */
  lemma {:induction false} FromSeasonIsSuffix(seasons: seq<Season>, start: int) returns (k: nat)
    ensures k <= |seasons| && FromSeason(seasons, start) == seasons[k..]
    ensures forall j | 0 <= j < k :: seasons[j].number != start
    ensures k < |seasons| ==> seasons[k].number == start
  {
    if seasons == [] || seasons[0].number == start {
      k := 0;
    } else {
      k := FromSeasonIsSuffix(seasons[1..], start);
      k := k + 1;
      assert forall j | 0 < j < k :: seasons[j] == seasons[1..][j - 1];
    }
  }

  function Episodes(seasons: seq<Season>): int {
    if seasons == [] then 0 else seasons[0].episodes + Episodes(seasons[1..])
  }

  lemma {:induction false} LineLength(seasons: seq<Season>)
    requires AllRegular(seasons)
    ensures |Line(seasons)| == Episodes(seasons)
  {
    if seasons != [] {
      LineLength(seasons[1..]);
    }
  }

  /**
   Slot n is episode e of season a exactly when e is one of that season's
   episodes and n counts those of the seasons before it from the picked one on.
   */
  lemma SlotMeans(seasons: seq<Season>, start: int, nums: seq<int>, slots: map<int, Slot>, k: nat, a: nat, e: int, n: int)
    requires AllRegular(seasons) && k <= a < |seasons| && seasons[k].number == start
    requires forall j | 0 <= j < k :: seasons[j].number != start
    requires var line := Line(FromSeason(seasons, start)); IsAssignment(line, nums, |line|, slots)
    requires 1 <= e <= seasons[a].episodes && n == Episodes(seasons[k..a]) + e
    ensures n in slots <==> n in nums
    ensures n in slots ==> slots[n] == Slot(seasons[a].number, e)
  {
    var k1 := FromSeasonIsSuffix(seasons, start);
    assert k1 == k;
    var rest := seasons[k..];
    assert rest[..a - k] == seasons[k..a];
    LineLength(rest[..a - k]);
    LineIndex(rest, a - k, e - 1);
    hide Line, FromSeason;
  }

  /** A picked season is listed, so its first episode is always slot 1. */
  lemma PickedSeasonStartsTheLine(seasons: seq<Season>, start: int)
    requires AllRegular(seasons) && Listed(seasons, start)
    ensures
      var line := Line(FromSeason(seasons, start));
      |line| >= 1 && line[0] == Slot(start, 1)
  {
    LineIndex(FromSeason(seasons, start), 0, 0);
  }
}
