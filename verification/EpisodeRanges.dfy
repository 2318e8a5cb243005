/**
 The range maps of internal/tmdb/resolver.go: parseRange, mapEpisodeNumber
 and identityAlignedContinuation, on the strings the source stores.  A Go map
 is read in an arbitrary order, so the methods pick keys nondeterministically
 and what they return is a relation of the map and the episode.
 */
module EpisodeRanges {
  import opened Prelude
  import opened Text

  /** A parsed range; end is None when it is open. */
  datatype Range = Range(start: int, end: Option<int>) {
    predicate Covers(n: int) {
      start <= n && (end.Some? ==> n <= end.value)
    }

    /** What parseRange lets through: it starts at 1 or later, is not empty, and its ends are int64s. */
    predicate Proper() {
      1 <= start <= MAX_INT64 && (end.Some? ==> start <= end.value <= MAX_INT64)
    }

    /** How many episodes mapEpisodeNumber lets the range take; an open one takes 1 << 30. */
    function Length(): int {
      if end.None? then 0x4000_0000 else end.value - start + 1
    }
  }

  type RangeMap = map<string, string>

  /** How many digits s starts with. */
  function DigitRun(s: string): (k: nat)
    ensures k <= |s| && AllDigits(s[..k])
    ensures k < |s| ==> !IsDigit(s[k])
  {
    if s == "" || !IsDigit(s[0]) then 0 else 1 + DigitRun(s[1..])
  }

  /** parseRange: "5", "1-12" or "1-", digits only, start at least 1 and end not before it. */
  function ParseRange(s: string): (r: Option<Range>)
    ensures r.Some? ==> r.value.Proper()
  {
    var t := Trim(s);
    var k := DigitRun(t);
    if k == 0 || (k < |t| && (t[k] != '-' || !AllDigits(t[k + 1..]))) then None
    else
      var start := AtoiClamped(t[..k]);
      if start <= 0 then None
      else if k == |t| then Some(Range(start, Some(start)))
      else if t[k + 1..] == "" then Some(Range(start, None))
      else
        var end := AtoiClamped(t[k + 1..]);
        if end < start then None else Some(Range(start, Some(end)))
  }

  // ----- one entry -----

  /** The flag behind '|' names a ratio other than 1, which mapEpisodeNumber does not follow. */
  predicate BadRatio(target: string) {
    var flag := After(Trim(target), '|');
    flag.Some? && Atoi(Trim(flag.value)).Some? && Atoi(Trim(flag.value)).value != 1
  }

  /** The comma-listed target ranges, unreadable ones left out. */
  function TargetRanges(target: string): (rs: seq<Range>)
    ensures forall r <- rs :: r.Proper()
  {
    Parsed(Split(Trim(Before(Trim(target), '|')), ','))
  }

  function Parsed(parts: seq<string>): (rs: seq<Range>)
    ensures forall r <- rs :: r.Proper()
  {
    if parts == [] then []
    else (match ParseRange(Trim(parts[0])) case Some(r) => [r] case None => []) + Parsed(parts[1..])
  }

  /** Every episode of a range in order. */
  function Span(r: Range): (s: seq<int>)
    requires r.Length() >= 0
    ensures |s| == r.Length()
  {
    seq(r.Length(), i => r.start + i)
  }

  /** The concatenation of the ranges: what a target list means. */
  function Flat(rs: seq<Range>): seq<int>
    requires forall r <- rs :: r.Length() >= 0
  {
    if rs == [] then [] else Span(rs[0]) + Flat(rs[1..])
  }

  function Nth(rs: seq<Range>, k: nat): Option<int>
    requires forall r <- rs :: r.Length() >= 0
  {
    if k < |Flat(rs)| then Some(Flat(rs)[k]) else None
  }

  /** The int64 a sum ends up in. */
  function Wrapped(sum: Option<int>): Option<int> {
    match sum
    case Some(v) => Some(Wrap64(v))
    case None => None
  }

  /** What the entry (key, target) answers for an episode its key covers. */
  function EntryTarget(key: string, target: string, episode: int): Option<int>
    requires Covers(key, episode)
  {
    if BadRatio(target) then None
    else Wrapped(Nth(TargetRanges(target), episode - ParseRange(key).value.start))
  }

  predicate Covers(key: string, episode: int) {
    var src := ParseRange(key);
    src.Some? && src.value.Covers(episode)
  }

  // ----- mapEpisodeNumber -----

  /** r is a possible answer of mapEpisodeNumber: some covering key's, or none when no key covers. */
  ghost predicate MapsTo(m: RangeMap, episode: int, r: Option<int>) {
    if episode <= 0 || forall k | k in m :: !Covers(k, episode) then r == None
    else exists k :: k in m && Covers(k, episode) && r == EntryTarget(k, m[k], episode)
  }

  /** Skipping a whole range is moving on in the concatenation. */
  lemma NthStep(rs: seq<Range>, k: nat)
    requires rs != [] && forall r <- rs :: r.Length() >= 0
    ensures
      var length := match rs[0].end { case Some(end) => end - rs[0].start + 1 case None => 1073741824 };
      Nth(rs, k) == if k < length then Some(rs[0].start + k) else Nth(rs[1..], k - length)
  {
    assert Flat(rs) == Span(rs[0]) + Flat(rs[1..]);
  }

  lemma ParsedStep(parts: seq<string>, i: nat)
    requires i < |parts|
    ensures
      var tr := ParseRange(Trim(parts[i]));
      && (tr.None? ==> Parsed(parts[i..]) == Parsed(parts[i + 1..]))
      && (tr.Some? ==> Parsed(parts[i..]) == [tr.value] + Parsed(parts[i + 1..]))
  {
    hide ParseRange;
    assert parts[i..][1..] == parts[i + 1..];
  }

  /** The inner loop of mapEpisodeNumber: walk the target list, using up the offset. */
  method WalkTargets(parts: seq<string>, first: nat) returns (r: Option<int>)
    ensures r == Wrapped(Nth(Parsed(parts), first))
  {
    hide ParseRange;
    var offset := first;
    assert parts[0..] == parts;
    for i := 0 to |parts|
      invariant offset >= 0
      invariant Nth(Parsed(parts), first) == Nth(Parsed(parts[i..]), offset)
    {
      var tr := ParseRange(Trim(parts[i]));
      ParsedStep(parts, i);
      if tr.None? {
        continue;
      }
      assert Parsed(parts[i..])[1..] == Parsed(parts[i + 1..]);
      NthStep(Parsed(parts[i..]), offset);
      var length := tr.value.Length();
      if offset < length {
        return Some(Wrap64(tr.value.start + offset));
      }
      offset := offset - length;
    }
    return None;
  }

  method MapEpisodeNumber(m: RangeMap, episode: int) returns (r: Option<int>)
    ensures MapsTo(m, episode, r)
  {
    if episode <= 0 {
      return None;
    }
    var todo := m.Keys;
    while todo != {}
      invariant todo <= m.Keys
      invariant forall k | k in m && k !in todo :: !Covers(k, episode)
    {
      var key :| key in todo;
      todo := todo - {key};
      var src := ParseRange(key);
      if src.None? || !src.value.Covers(episode) {
        continue;
      }
      if BadRatio(m[key]) {
        return None;
      }
      r := WalkTargets(Split(Trim(Before(Trim(m[key]), '|')), ','), episode - src.value.start);
      return;
    }
    return None;
  }

  // ----- when the answer does not depend on the order -----

  /** No episode is covered by two keys. */
  ghost predicate SourcesDisjoint(m: RangeMap) {
    forall k1, k2, n: int | k1 in m && k2 in m && Covers(k1, n) && Covers(k2, n) :: k1 == k2
  }

  lemma DisjointSourcesGiveOneAnswer(m: RangeMap, episode: int, r1: Option<int>, r2: Option<int>)
    requires SourcesDisjoint(m)
    requires MapsTo(m, episode, r1) && MapsTo(m, episode, r2)
    ensures r1 == r2
  {
  }

  /** Two ranges share no target episode; an open one reaches as far as mapEpisodeNumber lets it. */
  predicate Apart(a: Range, b: Range) {
    a.start + a.Length() <= b.start || b.start + b.Length() <= a.start
  }

  predicate PairwiseApart(rs: seq<Range>) {
    forall i, j | 0 <= i < j < |rs| :: Apart(rs[i], rs[j])
  }

  predicate AllApart(rs1: seq<Range>, rs2: seq<Range>) {
    forall i, j | 0 <= i < |rs1| && 0 <= j < |rs2| :: Apart(rs1[i], rs2[j])
  }

  /** No target episode is listed twice, in one entry or in two. */
  ghost predicate TargetsDisjoint(m: RangeMap) {
    && (forall k | k in m :: PairwiseApart(TargetRanges(m[k])))
    && (forall k1, k2 | k1 in m && k2 in m && k1 != k2 :: AllApart(TargetRanges(m[k1]), TargetRanges(m[k2])))
  }

  /** A position in the concatenation lies in one of the ranges, and earlier positions in that one or earlier ones. */
  lemma {:induction false} NthLocated(rs: seq<Range>, k: nat) returns (i: nat)
    requires forall r <- rs :: r.Length() >= 0
    requires Nth(rs, k).Some?
    ensures i < |rs| && rs[i].start <= Nth(rs, k).value < rs[i].start + rs[i].Length()
    ensures Nth(rs, k).value == rs[i].start + k - |Flat(rs[..i])|
    ensures |Flat(rs[..i])| <= k
  {
    NthStep(rs, k);
    if k < rs[0].Length() {
      i := 0;
    } else {
      var j := NthLocated(rs[1..], k - rs[0].Length());
      i := j + 1;
      assert rs[..i][1..] == rs[1..][..j];
    }
  }

  lemma NthInjective(rs: seq<Range>, a: nat, b: nat)
    requires forall r <- rs :: r.Length() >= 0
    requires PairwiseApart(rs)
    requires Nth(rs, a).Some? && Nth(rs, a) == Nth(rs, b)
    ensures a == b
  {
    hide Nth, Flat;
    var i := NthLocated(rs, a);
    var j := NthLocated(rs, b);
  }

  lemma NthDiffers(rs1: seq<Range>, rs2: seq<Range>, a: nat, b: nat)
    requires (forall r <- rs1 :: r.Length() >= 0) && (forall r <- rs2 :: r.Length() >= 0)
    requires AllApart(rs1, rs2)
    requires Nth(rs1, a).Some? && Nth(rs2, b).Some?
    ensures Nth(rs1, a) != Nth(rs2, b)
  {
    hide Nth, Flat;
    var i := NthLocated(rs1, a);
    var j := NthLocated(rs2, b);
  }

  /** Sums of a range start and an offset within the range are too small to meet after wrapping. */
  lemma WrapKeepsApart(a: int, b: int)
    requires 0 <= a < MAX_INT64 + 0x8000_0000 && 0 <= b < MAX_INT64 + 0x8000_0000
    requires Wrap64(a) == Wrap64(b)
    ensures a == b
  {
    assert a % TWO_TO_64 == a && b % TWO_TO_64 == b;
  }

  lemma NthInWord(rs: seq<Range>, k: nat)
    requires forall r <- rs :: r.Proper() && r.Length() >= 0
    ensures Nth(rs, k).Some? ==> 0 <= Nth(rs, k).value < MAX_INT64 + 0x8000_0000
  {
    hide Nth, Flat;
    if Nth(rs, k).Some? {
      var i := NthLocated(rs, k);
      assert rs[i].Proper();
    }
  }

  /** v is the episode's place in the target list, short by whole words. */
  predicate AnswersUpToWords(key: string, target: string, episode: int, v: int)
    requires Covers(key, episode)
  {
    var place := Nth(TargetRanges(target), episode - ParseRange(key).value.start);
    !BadRatio(target) && place.Some? && (v - place.value) % TWO_TO_64 == 0
  }

  /** Every answer is an int64, and short of the episode's place in the target list by whole words. */
  lemma AnswersAreInts(m: RangeMap, episode: int, v: int)
    requires MapsTo(m, episode, Some(v))
    ensures IsInt64(v)
    ensures exists k :: k in m && Covers(k, episode) && AnswersUpToWords(k, m[k], episode, v)
  {
    hide ParseRange, TargetRanges, Nth, BadRatio, Wrap64;
  }

  /** With disjoint targets no two episodes share a target, whichever entries answer for them. */
  lemma DisjointTargetsAreInjective(m: RangeMap, e1: int, e2: int, v: int)
    requires TargetsDisjoint(m)
    requires MapsTo(m, e1, Some(v)) && MapsTo(m, e2, Some(v))
    ensures e1 == e2
  {
    hide ParseRange, TargetRanges, Nth, PairwiseApart, AllApart, BadRatio, Flat, Wrap64;
    var k1 :| k1 in m && Covers(k1, e1) && Some(v) == EntryTarget(k1, m[k1], e1);
    var k2 :| k2 in m && Covers(k2, e2) && Some(v) == EntryTarget(k2, m[k2], e2);
    var a, b := e1 - ParseRange(k1).value.start, e2 - ParseRange(k2).value.start;
    NthInWord(TargetRanges(m[k1]), a);
    NthInWord(TargetRanges(m[k2]), b);
    WrapKeepsApart(Nth(TargetRanges(m[k1]), a).value, Nth(TargetRanges(m[k2]), b).value);
    if k1 == k2 {
      NthInjective(TargetRanges(m[k1]), a, b);
    } else {
      NthDiffers(TargetRanges(m[k1]), TargetRanges(m[k2]), a, b);
    }
  }

  // ----- identityAlignedContinuation -----

  /** The source's reading of a target for the alignment test: the text before '|', one range. */
  function AlignedTarget(target: string): Option<Range> {
    ParseRange(Trim(Before(target, '|')))
  }

  predicate AlignedEntry(key: string, target: string, offset: int) {
    var src, tgt := ParseRange(key), AlignedTarget(target);
    src.Some? && tgt.Some? && src.value.start == 1 && src.value.end.Some? && tgt.value.end.Some? &&
    tgt.value.start - 1 == offset && tgt.value.end.value - src.value.end.value == offset
  }

  /** Every entry is 1..e -> 1+offset..e+offset, and end is the largest e. */
  ghost predicate Continues(m: RangeMap, offset: int, end: int) {
    && m != map[]
    && (forall k | k in m :: AlignedEntry(k, m[k], offset))
    && (exists k :: k in m && ParseRange(k).value.end.value == end)
    && (forall k | k in m :: ParseRange(k).value.end.value <= end)
  }

  lemma ContinuesIsUnique(m: RangeMap, o1: int, e1: int, o2: int, e2: int)
    requires Continues(m, o1, e1) && Continues(m, o2, e2)
    ensures o1 == o2 && e1 == e2
  {
  }

  /** (offset, end, ok) for every order in which the entries are visited. */
  method IdentityAlignedContinuation(m: RangeMap) returns (offset: int, maxEnd: int, ok: bool)
    ensures ok ==> Continues(m, offset, maxEnd)
    ensures !ok ==> offset == 0 && maxEnd == 0 && forall o, e :: !Continues(m, o, e)
  {
    hide ParseRange, Before, Trim;
    if |m| == 0 {
      return 0, 0, false;
    }
    offset, maxEnd := 0, 0;
    var first, todo := true, m.Keys;
    while todo != {}
      invariant todo <= m.Keys
      invariant first <==> todo == m.Keys
      invariant forall k | k in m && k !in todo :: AlignedEntry(k, m[k], offset) && ParseRange(k).value.end.value <= maxEnd
      invariant !first ==> exists k :: k in m && k !in todo && ParseRange(k).value.end.value == maxEnd
      invariant first ==> maxEnd == 0
    {
      var key :| key in todo;
      var src, tgt := ParseRange(key), AlignedTarget(m[key]);
      if src.None? || tgt.None? || src.value.start != 1 || src.value.end.None? || tgt.value.end.None? {
        return 0, 0, false;
      }
      var off := tgt.value.start - src.value.start;
      if tgt.value.end.value - src.value.end.value != off {
        return 0, 0, false;
      }
      if first {
        offset, first := off, false;
      } else if off != offset {
        return 0, 0, false;
      }
      if src.value.end.value > maxEnd {
        maxEnd := src.value.end.value;
      }
      todo := todo - {key};
    }
    ok := true;
  }

  /** Text that parses as a range is digits and at most one dash. */
  lemma RangeTextHasNoComma(u: string)
    requires Trim(u) == u && ParseRange(u).Some?
    ensures ',' !in u
  {
    var k := DigitRun(u);
    assert u == u[..k] + u[k..];
    assert k < |u| ==> u[k..] == ['-'] + u[k + 1..];
  }

  /** A target that parses as one range is the whole target list. */
  lemma AlignedTargetIsOnlyTarget(target: string)
    requires AlignedTarget(target).Some?
    ensures TargetRanges(target) == [AlignedTarget(target).value]
  {
    hide ParseRange, Trim, Before;
    var u := Trim(Before(target, '|'));
    TrimBeforeCut(target, '|');
    TrimTwice(Before(target, '|'));
    RangeTextHasNoComma(u);
    assert Split(u, ',') == [u];
    assert Parsed([u]) == [ParseRange(u).value] + Parsed([]);
  }

  /** An aligned entry without a bad ratio shifts every episode its key covers. */
  lemma AlignedEntryShifts(key: string, target: string, offset: int, n: int)
    requires AlignedEntry(key, target, offset) && Covers(key, n)
    ensures EntryTarget(key, target, n) == if BadRatio(target) then None else Some(n + offset)
  {
    assert AlignedTarget(target).value.Proper();
    AlignedTargetIsOnlyTarget(target);
    hide ParseRange, BadRatio, TargetRanges, AlignedTarget, Nth, Flat;
    NthOfOne(AlignedTarget(target).value, n - 1);
  }

  lemma NthOfOne(r: Range, k: nat)
    requires r.Length() >= 0
    ensures Nth([r], k) == if k < r.Length() then Some(r.start + k) else None
  {
    NthStep([r], k);
  }

  /**
   A continuation extends the verified map: inside its range, mapEpisodeNumber
   answers n + offset in every visiting order, if and only if no target carries
   a ratio other than 1.
   */
  lemma VerifiedRangeIsShifted(m: RangeMap, offset: int, end: int)
    requires Continues(m, offset, end)
    ensures (forall n, r | 1 <= n <= end && MapsTo(m, n, r) :: r == Some(n + offset)) <==>
            (forall k | k in m :: !BadRatio(m[k]))
  {
    hide ParseRange, BadRatio, AlignedTarget, EntryTarget;
    if k :| k in m && BadRatio(m[k]) {
      assert AlignedEntry(k, m[k], offset);
      AlignedEntryShifts(k, m[k], offset, 1);
      assert MapsTo(m, 1, None);
    } else {
      forall n, r | 1 <= n <= end && MapsTo(m, n, r)
        ensures r == Some(n + offset)
      {
        var top :| top in m && ParseRange(top).value.end.value == end;
        assert AlignedEntry(top, m[top], offset);
        assert Covers(top, n);
        var k :| k in m && Covers(k, n) && r == EntryTarget(k, m[k], n);
        AlignedEntryShifts(k, m[k], offset, n);
      }
    }
  }

  // ----- open-ended sources -----

  /** Some open key reaches the episode: later seasons may continue it. */
  ghost predicate OpenEnded(m: RangeMap, episode: int) {
    episode > 0 && exists k :: k in m && ParseRange(k).Some? && ParseRange(k).value.end.None? && episode >= ParseRange(k).value.start
  }

  /** That is: some key covers every episode from this one on. */
  lemma OpenEndedIff(m: RangeMap, episode: int)
    ensures OpenEnded(m, episode) <==> episode > 0 && exists k :: k in m && forall n: int | n >= episode :: Covers(k, n)
  {
    hide ParseRange;
    if OpenEnded(m, episode) {
      var k :| k in m && ParseRange(k).Some? && ParseRange(k).value.end.None? && episode >= ParseRange(k).value.start;
      assert forall n: int | n >= episode :: Covers(k, n);
    }
    if k :| episode > 0 && k in m && forall n: int | n >= episode :: Covers(k, n) {
      assert Covers(k, episode);
      var beyond := match ParseRange(k).value.end case Some(end) => Max(episode, end + 1) case None => episode;
      assert Covers(k, beyond);
    }
  }

  method HasOpenEndedSourceRange(m: RangeMap, episode: int) returns (r: bool)
    ensures r <==> OpenEnded(m, episode)
  {
    hide ParseRange;
    if episode <= 0 {
      return false;
    }
    var todo := m.Keys;
    while todo != {}
      invariant todo <= m.Keys
      invariant forall k | k in m && k !in todo && ParseRange(k).Some? && ParseRange(k).value.end.None? :: episode < ParseRange(k).value.start
    {
      var key :| key in todo;
      todo := todo - {key};
      var src := ParseRange(key);
      if src.Some? && src.value.end.None? && episode >= src.value.start {
        return true;
      }
    }
    return false;
  }

  /** An extended mapping never takes part in the continuation over later seasons. */
  lemma ExtendedMapIsClosed(m: RangeMap, offset: int, end: int, n: nat, target: string, episode: int)
    requires Continues(m, offset, end) && 1 <= n <= MAX_INT64
    ensures !OpenEnded(m[Digits(n) := target], episode)
  {
    ParseRangeOfDigits(n);
    hide ParseRange, Digits, AlignedTarget;
    forall k | k in m
      ensures ParseRange(k).Some? && ParseRange(k).value.end.Some?
    {
      assert AlignedEntry(k, m[k], offset);
    }
  }

  // ----- numbers printed as keys -----

  /** strconv.Itoa of a positive number reads back as the one-episode range. */
  lemma ParseRangeOfDigits(n: nat)
    requires 1 <= n <= MAX_INT64
    ensures ParseRange(Digits(n)) == Some(Range(n, Some(n)))
    ensures Trim(Digits(n)) == Digits(n) && '|' !in Digits(n) && ',' !in Digits(n)
  {
    var s := Digits(n);
    TrimWithoutSpaces(s);
    ValueOfDigits(n);
    AllDigitsRun(s);
    assert s[..|s|] == s;
  }

  lemma {:induction false} AllDigitsRun(s: string)
    requires AllDigits(s)
    ensures DigitRun(s) == |s|
  {
    if s != "" {
      AllDigitsRun(s[1..]);
    }
  }
}
