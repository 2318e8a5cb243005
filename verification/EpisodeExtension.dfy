/**
 The mapping part of ResolveEpisodesWithTitles in internal/tmdb/resolver.go:
 selectTmdbMappingForEpisode and the loop that extends identity-aligned tv
 mappings past their verified end.  Go maps are references, so a mapping's
 ranges are a heap object here: sharing one between mappings, or writing into
 a base mapping's map, would be visible.
 */
module EpisodeExtension {
  import opened Prelude
  import opened Text
  import opened EpisodeRanges

  /** A Go map[string]string value: what mappings share when the struct is copied. */
  class RangesObject {
    var entries: RangeMap

    constructor (entries: RangeMap)
      ensures this.entries == entries
    {
      this.entries := entries;
    }
  }

  /** tmdbMapping, a struct: copying it copies the reference to its ranges. */
  datatype Mapping = Mapping(isTv: bool, showId: int, seasonNumber: int, movieId: int,
                             ranges: RangesObject, tmdbNumber: Option<int>)

  /** The range maps behind a list of mappings, read off the heap. */
  function RangesOf(ms: seq<Mapping>): (rs: seq<RangeMap>)
    reads set m | m in ms :: m.ranges
    ensures |rs| == |ms| && forall i | 0 <= i < |ms| :: rs[i] == ms[i].ranges.entries
  {
    if ms == [] then [] else [ms[0].ranges.entries] + RangesOf(ms[1..])
  }

  // ----- selection -----

  /** choice is the only mapping with an answer and that answer, or None when not exactly one answers. */
  ghost predicate OnlyAnswer(answers: seq<Option<int>>, choice: Option<(nat, int)>) {
    match choice
    case Some((i, v)) =>
      i < |answers| && answers[i] == Some(v) && forall j | 0 <= j < |answers| && j != i :: answers[j].None?
    case None =>
      forall i | 0 <= i < |answers| && answers[i].Some? :: exists j :: 0 <= j < |answers| && j != i && answers[j].Some?
  }

  ghost predicate Answers(rs: seq<RangeMap>, episode: int, answers: seq<Option<int>>) {
    |answers| == |rs| && forall i | 0 <= i < |rs| :: MapsTo(rs[i], episode, answers[i])
  }

  /** What selectTmdbMappingForEpisode may choose. */
  ghost predicate Selects(rs: seq<RangeMap>, episode: int, choice: Option<(nat, int)>) {
    exists answers :: Answers(rs, episode, answers) && OnlyAnswer(answers, choice)
  }

  /** r is the mapping a choice stands for, carrying its target. */
  ghost predicate Stands(ms: seq<Mapping>, choice: Option<(nat, int)>, r: Option<Mapping>) {
    match choice
    case Some((i, v)) => i < |ms| && r == Some(ms[i].(tmdbNumber := Some(v)))
    case None => r.None?
  }

  method SelectTmdbMappingForEpisode(ms: seq<Mapping>, episode: int)
    returns (r: Option<Mapping>, ghost choice: Option<(nat, int)>)
    ensures Selects(RangesOf(ms), episode, choice) && Stands(ms, choice, r)
    ensures exists c :: Selects(RangesOf(ms), episode, c) && Stands(ms, c, r)
  {
    hide MapsTo;
    var candidates: seq<Mapping> := [];
    ghost var answers: seq<Option<int>>, one: nat, two: nat := [], 0, 0;
    for i := 0 to |ms|
      invariant |answers| == i && forall j | 0 <= j < i :: MapsTo(ms[j].ranges.entries, episode, answers[j])
      invariant |candidates| == 0 ==> forall j | 0 <= j < i :: answers[j].None?
      invariant |candidates| == 1 ==> one < i && answers[one].Some? && candidates[0] == ms[one].(tmdbNumber := answers[one])
      invariant |candidates| == 1 ==> forall j | 0 <= j < i && j != one :: answers[j].None?
      invariant |candidates| >= 2 ==> one < two < i && answers[one].Some? && answers[two].Some?
    {
      var n := MapEpisodeNumber(ms[i].ranges.entries, episode);
      answers := answers + [n];
      if n.Some? {
        if |candidates| == 0 {
          one := i;
        } else if |candidates| == 1 {
          two := i;
        }
        candidates := candidates + [ms[i].(tmdbNumber := n)];
      }
    }
    assert Answers(RangesOf(ms), episode, answers);
    if |candidates| == 1 {
      choice := Some((one, answers[one].value));
      assert OnlyAnswer(answers, choice);
      return Some(candidates[0]), choice;
    }
    choice := None;
    assert OnlyAnswer(answers, choice);
    r := None;
  }

  // ----- extension -----

  /** Mapping i may be extended to episode n, which lies past its verified end. */
  ghost predicate Extends(tv: seq<bool>, rs: seq<RangeMap>, n: int, i: nat, offset: int, end: int)
    requires |tv| == |rs|
  {
    i < |rs| && tv[i] && Continues(rs[i], offset, end) && n > end
  }

  /** The chosen base: the largest verified end wins, the first mapping among equals. */
  ghost predicate IsBase(tv: seq<bool>, rs: seq<RangeMap>, n: int, i: nat, offset: int, end: int)
    requires |tv| == |rs|
  {
    && Extends(tv, rs, n, i, offset, end)
    && (forall j: nat, o, e | Extends(tv, rs, n, j, o, e) :: e < end || (e == end && i <= j))
  }

  /** Mapping i, extended by offset, is the base for n. */
  ghost predicate HasBase(tv: seq<bool>, rs: seq<RangeMap>, n: int, i: nat, offset: int)
    requires |tv| == |rs|
  {
    exists end :: IsBase(tv, rs, n, i, offset, end)
  }

  ghost predicate NoBase(tv: seq<bool>, rs: seq<RangeMap>, n: int)
    requires |tv| == |rs|
  {
    forall j: nat, o, e :: !Extends(tv, rs, n, j, o, e)
  }

  /** What becomes of a requested number: a verified target, an extended one, or none. */
  datatype Outcome = Verified(base: nat, target: int) | Extended(base: nat, target: int) | Unmapped

  /**
   The outcome of number n, said from the original mappings alone: no other
   requested number occurs in it.
   */
  ghost predicate IsOutcome(tv: seq<bool>, rs: seq<RangeMap>, n: int, o: Outcome)
    requires |tv| == |rs|
  {
    match o
    case Verified(i, v) => Selects(rs, n, Some((i, v)))
    case Extended(i, v) => Selects(rs, n, None) && HasBase(tv, rs, n, i, v - n) && v <= MAX_INT64
    case Unmapped => Selects(rs, n, None) && (NoBase(tv, rs, n) || Overflows(tv, rs, n))
  }

  /** There is a base, but its offset takes n out of the int64 range. */
  ghost predicate Overflows(tv: seq<bool>, rs: seq<RangeMap>, n: int)
    requires |tv| == |rs|
  {
    exists i: nat, offset :: HasBase(tv, rs, n, i, offset) && n + offset > MAX_INT64
  }

  lemma SelectionIsUnique(rs: seq<RangeMap>, n: int, c1: Option<(nat, int)>, c2: Option<(nat, int)>)
    requires forall i | 0 <= i < |rs| :: SourcesDisjoint(rs[i])
    requires Selects(rs, n, c1) && Selects(rs, n, c2)
    ensures c1 == c2
  {
    hide MapsTo, SourcesDisjoint;
    var a1 :| Answers(rs, n, a1) && OnlyAnswer(a1, c1);
    var a2 :| Answers(rs, n, a2) && OnlyAnswer(a2, c2);
    forall i | 0 <= i < |rs|
      ensures a1[i] == a2[i]
    {
      DisjointSourcesGiveOneAnswer(rs[i], n, a1[i], a2[i]);
    }
    assert a1 == a2;
  }

  /**
   Extension does not interfere: with disjoint source ranges the outcome of n
   is determined by n and the original mappings, so two requests that share n
   agree on it whatever else they ask for, in every map order.
   */
  lemma OutcomeIsUnique(tv: seq<bool>, rs: seq<RangeMap>, n: int, o1: Outcome, o2: Outcome)
    requires |tv| == |rs|
    requires forall i | 0 <= i < |rs| :: SourcesDisjoint(rs[i])
    requires IsOutcome(tv, rs, n, o1) && IsOutcome(tv, rs, n, o2)
    ensures o1 == o2
  {
    hide Selects, Continues, SourcesDisjoint;
    var choice := (o: Outcome) => if o.Verified? then Some((o.base, o.target)) else None;
    SelectionIsUnique(rs, n, choice(o1), choice(o2));
    if o1.Extended? && o2.Extended? {
      BaseIsUnique(tv, rs, n, o1.base, o1.target - n, o2.base, o2.target - n);
    } else if o1.Extended? && o2.Unmapped? {
      NoOverflow(tv, rs, n, o1);
    } else if o2.Extended? && o1.Unmapped? {
      NoOverflow(tv, rs, n, o2);
    }
  }

  lemma BaseIsUnique(tv: seq<bool>, rs: seq<RangeMap>, n: int, i1: nat, o1: int, i2: nat, o2: int)
    requires |tv| == |rs| && HasBase(tv, rs, n, i1, o1) && HasBase(tv, rs, n, i2, o2)
    ensures i1 == i2 && o1 == o2
  {
    hide Continues;
    var e1 :| IsBase(tv, rs, n, i1, o1, e1);
    var e2 :| IsBase(tv, rs, n, i2, o2, e2);
    ContinuesIsUnique(rs[i1], o1, e1, o2, e2);
  }

  /** A number with an extended target has a base, and its offset does not overflow. */
  lemma NoOverflow(tv: seq<bool>, rs: seq<RangeMap>, n: int, o: Outcome)
    requires |tv| == |rs| && o.Extended? && HasBase(tv, rs, n, o.base, o.target - n) && o.target <= MAX_INT64
    ensures !NoBase(tv, rs, n) && !Overflows(tv, rs, n)
  {
    hide Continues, Extends;
    var end :| IsBase(tv, rs, n, o.base, o.target - n, end);
    if Overflows(tv, rs, n) {
      var i: nat, offset :| HasBase(tv, rs, n, i, offset) && n + offset > MAX_INT64;
      BaseIsUnique(tv, rs, n, o.base, o.target - n, i, offset);
    }
  }

  /**
   An extended number's base, in the source's own terms: the aligned tv mapping
   whose verified end lies highest below n, the first of several; an unmapped
   number has no such mapping, or its target would leave the int64 range.
   */
  lemma ExtendedFromHighestBase(tv: seq<bool>, rs: seq<RangeMap>, n: int, o: Outcome) returns (end: int)
    requires |tv| == |rs| && IsOutcome(tv, rs, n, o)
    ensures o.Extended? ==>
      && o.base < |rs| && tv[o.base] && Continues(rs[o.base], o.target - n, end) && end < n
      && forall j, off, e | 0 <= j < |rs| && tv[j] && Continues(rs[j], off, e) && e < n :: e < end || (e == end && o.base <= j)
    ensures o.Unmapped? ==>
      || (forall j, off, e | 0 <= j < |rs| && tv[j] && Continues(rs[j], off, e) :: n <= e)
      || (exists j, off, e :: 0 <= j < |rs| && tv[j] && Continues(rs[j], off, e) && e < n && n + off > MAX_INT64)
  {
    hide Continues, Selects;
    match o
    case Verified(_, _) => end := 0;
    case Extended(i, v) =>
      end :| IsBase(tv, rs, n, i, v - n, end);
      forall j, off, e | 0 <= j < |rs| && tv[j] && Continues(rs[j], off, e) && e < n
        ensures e < end || (e == end && i <= j)
      {
        assert Extends(tv, rs, n, j, off, e);
      }
    case Unmapped =>
      end := 0;
      if Overflows(tv, rs, n) {
        var i: nat, offset :| HasBase(tv, rs, n, i, offset) && n + offset > MAX_INT64;
        end :| IsBase(tv, rs, n, i, offset, end);
        assert Extends(tv, rs, n, i, offset, end);
      } else {
        forall j, off, e | 0 <= j < |rs| && tv[j] && Continues(rs[j], off, e)
          ensures n <= e
        {
          assert !Extends(tv, rs, n, j, off, e);
        }
      }
  }

  // ----- verified and extended targets together -----

  lemma OutcomeHasBase(tv: seq<bool>, rs: seq<RangeMap>, n: int, o: Outcome)
    requires |tv| == |rs| && IsOutcome(tv, rs, n, o) && !o.Unmapped?
    ensures o.base < |rs|
    ensures o.Verified? ==> MapsTo(rs[o.base], n, Some(o.target))
    ensures o.Extended? ==> HasBase(tv, rs, n, o.base, o.target - n)
  {
    hide MapsTo, Continues;
    if o.Verified? {
      var answers :| Answers(rs, n, answers) && OnlyAnswer(answers, Some((o.base, o.target)));
    }
  }

  /** Whatever an aligned map answers is the shift, and only inside its verified range. */
  lemma AlignedAnswerIsShift(m: RangeMap, offset: int, end: int, n: int, v: int)
    requires Continues(m, offset, end) && MapsTo(m, n, Some(v))
    ensures 1 <= n <= end && v == n + offset
  {
    hide ParseRange, AlignedTarget, EntryTarget, BadRatio;
    var k :| k in m && Covers(k, n) && Some(v) == EntryTarget(k, m[k], n);
    assert AlignedEntry(k, m[k], offset);
    AlignedEntryShifts(k, m[k], offset, n);
  }

  /**
   Extension continues the verified map: on a base that passes the alignment
   test, every target, verified or extended, is the number plus the same
   offset; the verified numbers end where the extended ones begin.
   */
  lemma OutcomesShift(tv: seq<bool>, rs: seq<RangeMap>, n: int, o: Outcome, offset: int, end: int)
    requires |tv| == |rs| && IsOutcome(tv, rs, n, o) && !o.Unmapped? && o.base < |rs|
    requires Continues(rs[o.base], offset, end)
    ensures o.target == n + offset
    ensures o.Verified? <==> 1 <= n <= end
    ensures o.Extended? <==> n > end
  {
    OutcomeHasBase(tv, rs, n, o);
    hide IsOutcome, Continues, MapsTo;
    if o.Verified? {
      AlignedAnswerIsShift(rs[o.base], offset, end, n, o.target);
    } else {
      var e :| IsBase(tv, rs, n, o.base, o.target - n, e);
      ContinuesIsUnique(rs[o.base], offset, end, o.target - n, e);
    }
  }

  /** So the numbers on one such base form one strictly increasing, injective map, whichever loop resolved them. */
  lemma SharedBaseIncreases(tv: seq<bool>, rs: seq<RangeMap>, n1: int, o1: Outcome, n2: int, o2: Outcome, offset: int, end: int)
    requires |tv| == |rs| && IsOutcome(tv, rs, n1, o1) && IsOutcome(tv, rs, n2, o2)
    requires !o1.Unmapped? && !o2.Unmapped? && o1.base == o2.base < |rs| && Continues(rs[o1.base], offset, end)
    ensures n1 < n2 <==> o1.target < o2.target
    ensures n1 == n2 <==> o1.target == o2.target
    ensures n1 < n2 && o2.Verified? ==> o1.Verified?
  {
    hide IsOutcome, Continues;
    OutcomesShift(tv, rs, n1, o1, offset, end);
    OutcomesShift(tv, rs, n2, o2, offset, end);
  }

  lemma NoAnswerPastEnd(m: RangeMap, offset: int, end: int, n: int, r: Option<int>)
    requires Continues(m, offset, end) && n > end && MapsTo(m, n, r)
    ensures r.None?
  {
    hide Continues, MapsTo;
    if r.Some? {
      AlignedAnswerIsShift(m, offset, end, n, r.value);
    }
  }

  lemma OneAnswer(m: RangeMap, n: int, choice: Option<(nat, int)>) returns (r: Option<int>)
    requires Selects([m], n, choice)
    ensures MapsTo(m, n, r) && choice == match r case Some(v) => Some((0, v)) case None => None
  {
    hide MapsTo;
    var answers :| Answers([m], n, answers) && OnlyAnswer(answers, choice);
    r := answers[0];
    assert MapsTo([m][0], n, answers[0]);
  }

  lemma OneBase(m: RangeMap, offset: int, end: int, n: int)
    requires Continues(m, offset, end) && n > end
    ensures HasBase([true], [m], n, 0, offset)
  {
    hide Continues;
    forall j: nat, o, e | Extends([true], [m], n, j, o, e)
      ensures e < end || (e == end && 0 <= j)
    {
      ContinuesIsUnique(m, offset, end, o, e);
    }
    assert IsBase([true], [m], n, 0, offset, end);
  }

  lemma OneMappingPastEnd(m: RangeMap, offset: int, end: int, n: int, o: Outcome)
    requires Continues(m, offset, end) && n > end && n + offset <= MAX_INT64 && IsOutcome([true], [m], n, o)
    ensures o == Extended(0, n + offset)
  {
    hide Continues, MapsTo, Selects, HasBase, NoBase, Overflows;
    OneBase(m, offset, end, n);
    match o
    case Verified(i, v) =>
      var r := OneAnswer(m, n, Some((i, v)));
      NoAnswerPastEnd(m, offset, end, n, r);
    case Extended(i, v) => BaseIsUnique([true], [m], n, i, v - n, 0, offset);
    case Unmapped => NoOverflow([true], [m], n, Extended(0, n + offset));
  }

  lemma OneMappingUpToEnd(m: RangeMap, offset: int, end: int, n: int, o: Outcome)
    requires Continues(m, offset, end) && 1 <= n <= end && IsOutcome([true], [m], n, o)
    requires forall k | k in m :: !BadRatio(m[k])
    ensures o == Verified(0, n + offset)
  {
    VerifiedRangeIsShifted(m, offset, end);
    hide Continues, MapsTo, BadRatio, Selects, HasBase, NoBase, Overflows;
    var r := OneAnswer(m, n, if o.Verified? then Some((o.base, o.target)) else None);
  }

  /**
   A show with one aligned tv mapping and no ratio other than 1: every number
   from 1 on is mapped, and the whole map is the shift, as far as int64 goes.
   */
  lemma OneMappingShiftsAll(m: RangeMap, offset: int, end: int, n: int, o: Outcome)
    requires Continues(m, offset, end) && forall k | k in m :: !BadRatio(m[k])
    requires 1 <= n && n + offset <= MAX_INT64 && IsOutcome([true], [m], n, o)
    ensures o == if n <= end then Verified(0, n + offset) else Extended(0, n + offset)
  {
    hide Continues, IsOutcome, BadRatio;
    if n <= end {
      OneMappingUpToEnd(m, offset, end, n, o);
    } else {
      OneMappingPastEnd(m, offset, end, n, o);
    }
  }

  /** A mapping extended to n is never a base again: its key n does not start at 1. */
  lemma ExtendedMapNeverContinues(m: RangeMap, offset: int, end: int, n: int, m': RangeMap)
    requires Continues(m, offset, end) && end < n <= MAX_INT64
    requires Digits(n) in m'
    ensures forall o, e :: !Continues(m', o, e)
  {
    ContinuationIsPositive(m, offset, end);
    ParseRangeOfDigits(n);
    hide ParseRange, AlignedTarget, Digits;
    assert forall o :: !AlignedEntry(Digits(n), m'[Digits(n)], o);
  }

  lemma ContinuationIsPositive(m: RangeMap, offset: int, end: int)
    requires Continues(m, offset, end)
    ensures 0 <= offset <= MAX_INT64 && end >= 1
  {
    hide ParseRange;
    var top :| top in m && ParseRange(top).value.end.value == end;
    assert AlignedEntry(top, m[top], offset);
  }

  /** The cloned map with its new key answers n with the extended target, in every order. */
  lemma ExtendedMapAnswers(m: RangeMap, offset: int, end: int, n: int, r: Option<int>)
    requires Continues(m, offset, end) && end < n && n + offset <= MAX_INT64
    requires n >= 0 && n + offset >= 0
    requires MapsTo(m[Digits(n) := Digits(n + offset)], n, r)
    ensures r == Some(n + offset)
  {
    ContinuationIsPositive(m, offset, end);
    SingletonTarget(n, n + offset);
    hide ParseRange, AlignedTarget, Digits, EntryTarget;
    var key := Digits(n);
    var m' := m[key := Digits(n + offset)];
    assert key in m';
    forall k | k in m' && Covers(k, n)
      ensures k == key
    {
      assert k in m ==> AlignedEntry(k, m[k], offset);
    }
  }

  lemma SingletonTarget(n: nat, target: nat)
    requires 1 <= n <= MAX_INT64 && 1 <= target <= MAX_INT64
    ensures Covers(Digits(n), n) && EntryTarget(Digits(n), Digits(target), n) == Some(target)
  {
    hide ParseRange, Digits, Trim, Before, After, Nth;
    ParseRangeOfDigits(n);
    ParseRangeOfDigits(target);
    var t, r := Digits(target), Range(target, Some(target));
    assert Split(t, ',') == [t];
    assert Parsed([t]) == [r] + Parsed([]);
    assert TargetRanges(t) == [r];
    NthStep([r], 0);
    hide Split, Parsed, TargetRanges;
  }

  /** One clone-and-append: the base mapping's own map object is not touched. */
  method ExtendMapping(base: Mapping, n: int, target: int) returns (ext: Mapping)
    requires n >= 0 && target >= 0
    ensures fresh(ext.ranges) && ext.ranges.entries == base.ranges.entries[Digits(n) := Digits(target)]
    ensures ext == base.(ranges := ext.ranges, tmdbNumber := Some(target))
  {
    var ranges := new RangesObject(base.ranges.entries);
    ranges.entries := ranges.entries[Digits(n) := Digits(target)];
    ext := base.(ranges := ranges, tmdbNumber := Some(target));
  }

  ghost function TvFlags(ms: seq<Mapping>): seq<bool> {
    seq(|ms|, i requires 0 <= i < |ms| => ms[i].isTv)
  }

  /** Every mapping from position k on is an extended copy, which no search may take as a base. */
  ghost predicate NoBaseFrom(ms: seq<Mapping>, k: nat)
    reads set m | m in ms :: m.ranges
  {
    forall j, o, e | k <= j < |ms| :: !Continues(ms[j].ranges.entries, o, e)
  }

  /** The search for the base runs over the grown list; it can only find an original mapping. */
  method FindBase(ms: seq<Mapping>, ghost originals: nat, n: int) returns (best: Option<Mapping>, offset: int, ghost at: nat)
    requires originals <= |ms| && NoBaseFrom(ms, originals)
    ensures
      var tv, rs := TvFlags(ms[..originals]), RangesOf(ms[..originals]);
      match best
      case None => NoBase(tv, rs, n)
      case Some(b) => at < originals && b == ms[at] && HasBase(tv, rs, n, at, offset)
  {
    hide Continues;
    best, offset, at := None, 0, 0;
    var bestEnd := 0;
    ghost var tv, rs := TvFlags(ms[..originals]), RangesOf(ms[..originals]);
    for i := 0 to |ms|
      invariant best.Some? ==> at < originals && at < i && best == Some(ms[at]) && Extends(tv, rs, n, at, offset, bestEnd)
      invariant best.Some? ==> forall j: nat, o, e | j < i && Extends(tv, rs, n, j, o, e) :: e < bestEnd || (e == bestEnd && at <= j)
      invariant best.None? ==> forall j: nat, o, e | j < i :: !Extends(tv, rs, n, j, o, e)
    {
      var m := ms[i];
      if m.isTv {
        var off, end, ok := IdentityAlignedContinuation(m.ranges.entries);
        forall o, e | Extends(tv, rs, n, i, o, e)
          ensures ok && o == off && e == end
        {
          ContinuesIsUnique(rs[i], o, e, off, end);
        }
        if ok && n > end {
          assert i < originals && Extends(tv, rs, n, i, off, end);
          if best.None? || end > bestEnd {
            best, bestEnd, offset, at := Some(m), end, off, i;
          }
        }
      }
    }
    if best.Some? {
      assert IsBase(tv, rs, n, at, offset, bestEnd);
    }
  }

  /** The mapping a requested number ends up with, given its outcome. */
  ghost predicate Renders(ms: seq<Mapping>, rs: seq<RangeMap>, n: int, o: Outcome, r: Option<Mapping>)
    requires |rs| == |ms|
    reads if r.Some? then {r.value.ranges} else {}
  {
    match o
    case Verified(i, v) => i < |ms| && r == Some(ms[i].(tmdbNumber := Some(v)))
    case Extended(i, v) =>
      && i < |ms| && n >= 0 && v >= 0 && r.Some?
      && r.value == ms[i].(tmdbNumber := Some(v), ranges := r.value.ranges)
      && r.value.ranges !in (set m | m in ms :: m.ranges)
      && r.value.ranges.entries == rs[i][Digits(n) := Digits(v)]
    case Unmapped => r.None?
  }

  /** What the caller gets for one number: an outcome of the original mappings, and the mapping it stands for. */
  ghost predicate Resolved(ms: seq<Mapping>, rs: seq<RangeMap>, n: int, o: Outcome, r: Option<Mapping>)
    requires |rs| == |ms|
    reads if r.Some? then {r.value.ranges} else {}
  {
    IsOutcome(TvFlags(ms), rs, n, o) && Renders(ms, rs, n, o, r)
  }

  /** The guard against a target below 1 catches exactly the sums that overflow. */
  lemma TargetSign(n: int, offset: int)
    requires 1 <= n <= MAX_INT64 && 0 <= offset <= MAX_INT64
    ensures Wrap64(n + offset) < 1 <==> n + offset > MAX_INT64
    ensures n + offset <= MAX_INT64 ==> Wrap64(n + offset) == n + offset
  {
    assert (n + offset) % TWO_TO_64 == n + offset;
  }

  /** One pass of the extension loop, for a number no mapping answers alone. */
  method ExtendNumber(original: seq<Mapping>, mappings: seq<Mapping>, n: int)
    returns (r: Option<Mapping>, grown: seq<Mapping>, ghost o: Outcome)
    requires 1 <= n <= MAX_INT64 && Selects(RangesOf(original), n, None)
    requires original <= mappings && NoBaseFrom(mappings, |original|)
    ensures Resolved(original, RangesOf(original), n, o, r)
    ensures r.Some? ==> fresh(r.value.ranges)
    ensures !o.Verified? && original <= grown && NoBaseFrom(grown, |original|)
  {
    hide Selects, HasBase, NoBase, Continues, Wrap64;
    ghost var tv, rs := TvFlags(original), RangesOf(original);
    r, grown, o := None, mappings, Unmapped;
    assert mappings[..|original|] == original;
    var best, offset, at := FindBase(mappings, |original|, n);
    if best.Some? {
      var target := Wrap64(n + offset);
      ContinuesOfBase(tv, rs, n, at, offset);
      TargetSign(n, offset);
      if target >= 1 {
        var ext := ExtendMapping(best.value, n, target);
        NoBaseAppended(tv, rs, mappings, |original|, n, at, offset, ext);
        r, grown, o := Some(ext), mappings + [ext], Extended(at, target);
      } else {
        assert Overflows(tv, rs, n);
      }
    }
  }

  /** The outcome after the first loop, and the mapping it stands for. */
  ghost predicate Selected(ms: seq<Mapping>, rs: seq<RangeMap>, n: int, o: Outcome, r: Option<Mapping>) {
    match o
    case Verified(i, v) => Selects(rs, n, Some((i, v))) && i < |ms| && r == Some(ms[i].(tmdbNumber := Some(v)))
    case Extended(_, _) => false
    case Unmapped => Selects(rs, n, None) && r.None?
  }

  /** The first loop: each requested number's verified mapping, if exactly one answers. */
  method SelectRequested(original: seq<Mapping>, nums: seq<int>)
    returns (requested: map<int, Option<Mapping>>, ghost outcomes: seq<Outcome>)
    requires forall i, j | 0 <= i < j < |nums| :: nums[i] < nums[j]
    ensures requested.Keys == (set n | n in nums) && |outcomes| == |nums|
    ensures forall i | 0 <= i < |nums| :: Selected(original, RangesOf(original), nums[i], outcomes[i], requested[nums[i]])
  {
    hide Selects;
    requested, outcomes := map[], [];
    for k := 0 to |nums|
      invariant requested.Keys == (set n | n in nums[..k]) && |outcomes| == k
      invariant forall i | 0 <= i < k :: nums[i] in requested
      invariant forall i | 0 <= i < k :: Selected(original, RangesOf(original), nums[i], outcomes[i], requested[nums[i]])
    {
      var n := nums[k];
      var r, choice := SelectTmdbMappingForEpisode(original, n);
      requested := requested[n := r];
      outcomes := outcomes + [match choice case Some((i, v)) => Verified(i, v) case None => Unmapped];
      assert nums[..k + 1] == nums[..k] + [n];
    }
    assert nums[..|nums|] == nums;
  }

  lemma SelectedIsResolved(ms: seq<Mapping>, rs: seq<RangeMap>, n: int, o: Outcome, r: Option<Mapping>)
    requires |rs| == |ms| && Selected(ms, rs, n, o, r)
    ensures r.None? ==> Selects(rs, n, None)
    ensures r.Some? ==> Resolved(ms, rs, n, o, r) && !o.Extended?
  {
  }

  /** The body of the extension loop: a number with a verified mapping keeps it. */
  method ExtendUnselected(original: seq<Mapping>, mappings: seq<Mapping>, n: int, selected: Option<Mapping>, ghost outcome: Outcome)
    returns (r: Option<Mapping>, grown: seq<Mapping>, ghost o: Outcome)
    requires 1 <= n <= MAX_INT64 && Selected(original, RangesOf(original), n, outcome, selected)
    requires original <= mappings && NoBaseFrom(mappings, |original|)
    ensures Resolved(original, RangesOf(original), n, o, r)
    ensures selected.Some? ==> r == selected && o == outcome
    ensures r.Some? && selected.None? ==> fresh(r.value.ranges)
    ensures original <= grown && NoBaseFrom(grown, |original|)
  {
    SelectedIsResolved(original, RangesOf(original), n, outcome, selected);
    hide Selected, Resolved, NoBaseFrom;
    r, grown, o := selected, mappings, outcome;
    if selected.None? {
      r, grown, o := ExtendNumber(original, mappings, n);
    }
  }

  type Requested = map<int, Option<Mapping>>

  ghost function RangesIn(requested: Requested): set<object> {
    set n | n in requested && requested[n].Some? :: requested[n].value.ranges
  }

  /** The state of the second loop: the first k numbers are resolved, the others only selected. */
  ghost predicate ResolvedUpTo(ms: seq<Mapping>, rs: seq<RangeMap>, nums: seq<int>, k: nat, requested: Requested, outcomes: seq<Outcome>)
    requires |rs| == |ms|
    reads RangesIn(requested)
  {
    && |outcomes| == |nums| && requested.Keys == (set n | n in nums)
    && (forall i | 0 <= i < |nums| && i < k :: Resolved(ms, rs, nums[i], outcomes[i], requested[nums[i]]))
    && (forall i | k <= i < |nums| :: Selected(ms, rs, nums[i], outcomes[i], requested[nums[i]]))
  }

  lemma OneMoreResolved(ms: seq<Mapping>, rs: seq<RangeMap>, nums: seq<int>, k: nat, requested: Requested, outcomes: seq<Outcome>,
                        r: Option<Mapping>, o: Outcome)
    requires |rs| == |ms| && ResolvedUpTo(ms, rs, nums, k, requested, outcomes) && k < |nums|
    requires forall i, j | 0 <= i < j < |nums| :: nums[i] < nums[j]
    requires Resolved(ms, rs, nums[k], o, r)
    ensures ResolvedUpTo(ms, rs, nums, k + 1, requested[nums[k] := r], outcomes[k := o])
  {
    hide Resolved, Selected;
    forall i | 0 <= i < |nums| && i != k
      ensures nums[i] != nums[k]
    {
    }
  }

  /**
   Both loops, for the distinct positive numbers of a request.  There is no
   modifies clause, so every range map that existed before is unchanged; each
   number's outcome is one of the original mappings' (IsOutcome); and an
   extended mapping shares its ranges with none of them (Renders).
   */
  method MapRequested(original: seq<Mapping>, nums: seq<int>)
    returns (requested: map<int, Option<Mapping>>, mappings: seq<Mapping>, ghost outcomes: seq<Outcome>)
    requires forall i | 0 <= i < |nums| :: 1 <= nums[i] <= MAX_INT64
    requires forall i, j | 0 <= i < j < |nums| :: nums[i] < nums[j]
    ensures requested.Keys == (set n | n in nums) && |outcomes| == |nums|
    ensures forall i | 0 <= i < |nums| :: Resolved(original, RangesOf(original), nums[i], outcomes[i], requested[nums[i]])
    ensures original <= mappings && NoBaseFrom(mappings, |original|)
  {
    hide Selects, IsOutcome, Selected, Renders, Resolved, NoBaseFrom;
    requested, outcomes := SelectRequested(original, nums);
    mappings := original;
    NoBaseAtStart(mappings);
    ghost var rs := RangesOf(original);
    assert ResolvedUpTo(original, rs, nums, 0, requested, outcomes);
    for k := 0 to |nums|
      invariant ResolvedUpTo(original, rs, nums, k, requested, outcomes)
      invariant RangesOf(original) == rs
      invariant original <= mappings && NoBaseFrom(mappings, |original|)
    {
      hide ResolvedUpTo;
      var n := nums[k];
      NextIsSelected(original, rs, nums, k, requested, outcomes);
      assert forall o | o in RangesIn(requested) :: allocated(o);
      var r, grown, o := ExtendUnselected(original, mappings, n, requested[n], outcomes[k]);
      OneMoreResolved(original, rs, nums, k, requested, outcomes, r, o);
      mappings, requested, outcomes := grown, requested[n := r], outcomes[k := o];
    }
  }

  lemma NextIsSelected(ms: seq<Mapping>, rs: seq<RangeMap>, nums: seq<int>, k: nat, requested: Requested, outcomes: seq<Outcome>)
    requires |rs| == |ms| && ResolvedUpTo(ms, rs, nums, k, requested, outcomes) && k < |nums|
    ensures nums[k] in requested && k < |outcomes| && Selected(ms, rs, nums[k], outcomes[k], requested[nums[k]])
  {
    hide Selected, Resolved;
    assert nums[k] in nums;
  }

  lemma NoBaseAtStart(ms: seq<Mapping>)
    ensures NoBaseFrom(ms, |ms|)
  {
  }

  lemma ContinuesOfBase(tv: seq<bool>, rs: seq<RangeMap>, n: int, at: nat, offset: int)
    requires |tv| == |rs| && HasBase(tv, rs, n, at, offset)
    ensures 0 <= offset <= MAX_INT64 && at < |rs|
  {
    hide Continues;
    var end :| IsBase(tv, rs, n, at, offset, end);
    ContinuationIsPositive(rs[at], offset, end);
  }

  lemma NoBaseAppended(tv: seq<bool>, rs: seq<RangeMap>, ms: seq<Mapping>, k: nat, n: int, at: nat, offset: int, ext: Mapping)
    requires |tv| == |rs| && HasBase(tv, rs, n, at, offset) && 1 <= n <= MAX_INT64
    requires NoBaseFrom(ms, k) && Digits(n) in ext.ranges.entries
    ensures NoBaseFrom(ms + [ext], k)
  {
    hide Continues;
    var end :| IsBase(tv, rs, n, at, offset, end);
    ExtendedMapNeverContinues(rs[at], offset, end, n, ext.ranges.entries);
  }

  /** What a resolved number shows to its caller, apart from the identity of the range map. */
  ghost predicate Shows(ms: seq<Mapping>, o: Outcome, r: Option<Mapping>) {
    if o.Unmapped? then r.None?
    else o.base < |ms| && r.Some? && r.value.(ranges := ms[o.base].ranges) == ms[o.base].(tmdbNumber := Some(o.target))
  }

  lemma ResolvedShows(ms: seq<Mapping>, rs: seq<RangeMap>, n: int, o: Outcome, r: Option<Mapping>)
    requires |rs| == |ms| && Resolved(ms, rs, n, o, r)
    ensures IsOutcome(TvFlags(ms), rs, n, o) && Shows(ms, o, r)
  {
  }

  /**
   Every mapping handed out answers for its number by itself: whichever entry of
   its own range map is read, the map sends n to the target the mapping carries.
   */
  lemma ResolvedAnswersItself(ms: seq<Mapping>, rs: seq<RangeMap>, n: int, o: Outcome, r: Option<Mapping>, own: RangeMap, t: Option<int>)
    requires |rs| == |ms| && Resolved(ms, rs, n, o, r) && r.Some?
    requires own == if o.Extended? then r.value.ranges.entries else rs[o.base]
    requires o.Verified? ==> SourcesDisjoint(own)
    requires n <= MAX_INT64 && MapsTo(own, n, t)
    ensures r.value.tmdbNumber.Some? && t == r.value.tmdbNumber
  {
    hide MapsTo, Continues, SourcesDisjoint;
    OutcomeHasBase(TvFlags(ms), rs, n, o);
    if o.Verified? {
      DisjointSourcesGiveOneAnswer(own, n, t, Some(o.target));
    } else {
      var end :| IsBase(TvFlags(ms), rs, n, o.base, o.target - n, end);
      ExtendedMapAnswers(rs[o.base], o.target - n, end, n, t);
    }
  }

  /**
   Two requests over the same mappings, one after the other: a number they
   share shows the same mapping and target, whatever else each of them asks.
   */
  method TwoRequests(original: seq<Mapping>, nums1: seq<int>, nums2: seq<int>)
    returns (requested1: map<int, Option<Mapping>>, requested2: map<int, Option<Mapping>>, ghost outcomes: map<int, Outcome>)
    requires forall i | 0 <= i < |nums1| :: 1 <= nums1[i] <= MAX_INT64
    requires forall i, j | 0 <= i < j < |nums1| :: nums1[i] < nums1[j]
    requires forall i | 0 <= i < |nums2| :: 1 <= nums2[i] <= MAX_INT64
    requires forall i, j | 0 <= i < j < |nums2| :: nums2[i] < nums2[j]
    requires forall i | 0 <= i < |original| :: SourcesDisjoint(original[i].ranges.entries)
    ensures requested1.Keys == (set n | n in nums1) && requested2.Keys == (set n | n in nums2)
    ensures forall n | n in requested1 && n in requested2 ::
      n in outcomes && Shows(original, outcomes[n], requested1[n]) && Shows(original, outcomes[n], requested2[n])
  {
    hide IsOutcome, Shows, Resolved, SourcesDisjoint, NoBaseFrom;
    ghost var tv, rs := TvFlags(original), RangesOf(original);
    var ms1, ms2;
    ghost var outcomes1, outcomes2;
    requested1, ms1, outcomes1 := MapRequested(original, nums1);
    forall i | 0 <= i < |nums1|
      ensures IsOutcome(tv, rs, nums1[i], outcomes1[i]) && Shows(original, outcomes1[i], requested1[nums1[i]])
    {
      ResolvedShows(original, rs, nums1[i], outcomes1[i], requested1[nums1[i]]);
    }
    requested2, ms2, outcomes2 := MapRequested(original, nums2);
    outcomes := map n | n in requested1 && n in requested2 :: var i :| 0 <= i < |nums1| && nums1[i] == n; outcomes1[i];
    forall n | n in requested1 && n in requested2
      ensures Shows(original, outcomes[n], requested1[n]) && Shows(original, outcomes[n], requested2[n])
    {
      var i :| 0 <= i < |nums1| && nums1[i] == n && outcomes[n] == outcomes1[i];
      var j :| 0 <= j < |nums2| && nums2[j] == n;
      ResolvedShows(original, rs, n, outcomes2[j], requested2[n]);
      OutcomeIsUnique(tv, rs, n, outcomes1[i], outcomes2[j]);
    }
  }
}
