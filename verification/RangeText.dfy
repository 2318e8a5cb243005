/**
 What a range map means: range maps as values, the notation AniBridge writes
 them in, and the proof that mapEpisodeNumber (internal/tmdb/resolver.go) on
 that notation indexes the concatenation of the listed target ranges.
 */
module RangeText {
  import opened Prelude
  import opened Text
  import opened EpisodeRanges

  // ----- the notation of a range -----

  /**
   A range as written: spaces, digits (leading zeros allowed), then nothing for
   a single episode, a dash for an open range, or a dash and the last episode,
   and spaces again.  Numbers beyond the int64 range stand for the largest one.
   */
  datatype Written = Written(left: string, first: string, tail: Option<string>, right: string) {
    predicate Valid() {
      && AllSpaces(left) && AllSpaces(right)
      && first != "" && AllDigits(first) && 1 <= Value(first)
      && (tail.Some? ==> AllDigits(tail.value))
      && (tail.Some? && tail.value != "" ==> AtoiClamped(first) <= AtoiClamped(tail.value))
    }

    function Core(): string {
      first + match tail case None => "" case Some(last) => "-" + last
    }

    function String(): string {
      left + Core() + right
    }

    function Denoted(): (r: Range)
      requires Valid()
      ensures r.Proper()
    {
      match tail
      case None => Range(AtoiClamped(first), Some(AtoiClamped(first)))
      case Some(last) => Range(AtoiClamped(first), if last == "" then None else Some(AtoiClamped(last)))
    }
  }

  predicate RangeChar(c: char) {
    IsDigit(c) || c == '-'
  }

  lemma CoreChars(w: Written)
    requires w.Valid()
    ensures w.Core() != "" && forall c | c in w.Core() :: RangeChar(c)
  {
  }

  lemma {:induction false} DigitRunOf(a: string, rest: string)
    requires AllDigits(a) && (rest != "" ==> !IsDigit(rest[0]))
    ensures DigitRun(a + rest) == |a|
  {
    if a == "" {
      assert a + rest == rest;
    } else {
      assert (a + rest)[1..] == a[1..] + rest;
      DigitRunOf(a[1..], rest);
    }
  }

  /** Digits, and then nothing or a dash and more digits or none: what the parser makes of them. */
  lemma ParseOfCore(w: Written, t: string)
    requires w.Valid() && Trim(t) == w.Core()
    ensures ParseRange(t) == Some(w.Denoted())
  {
    var core := w.Core();
    var rest := core[|w.first|..];
    assert core == w.first + rest;
    DigitRunOf(w.first, rest);
    assert core[..|w.first|] == w.first;
    assert w.tail.Some? ==> core[|w.first|] == '-' && core[|w.first| + 1..] == w.tail.value;
    hide DigitRun, Trim, Value;
  }

  /** parseRange inverts writing, however the range is written. */
  lemma ParseInvertsPrint(w: Written)
    requires w.Valid()
    ensures Trim(w.String()) == w.Core() && ParseRange(w.String()) == Some(w.Denoted())
  {
    CoreChars(w);
    TrimPadded(w.left, w.Core(), w.right);
    ParseOfCore(w, w.String());
  }

  /** What a text must look like for the parser to read r. */
  ghost predicate Reads(t: string, r: Range) {
    exists w: Written :: w.Valid() && t == w.String() && r == w.Denoted()
  }

  /** A text that parses has the written form, and no other text does. */
  lemma ParsedTextIsWritten(t: string)
    requires ParseRange(t).Some?
    ensures Reads(t, ParseRange(t).value)
  {
    var left, right := TrimSplits(t);
    var u := Trim(t);
    var k := DigitRun(u);
    var w := Written(left, u[..k], if k == |u| then None else Some(u[k + 1..]), right);
    assert u == u[..k] + u[k..];
    assert k < |u| ==> u[k..] == ['-'] + u[k + 1..];
    assert w.Core() == u;
    hide Trim, DigitRun;
    assert w.Valid();
  }

  /** parseRange reads r from exactly the texts that write r. */
  lemma ParseIff(t: string, r: Range)
    ensures ParseRange(t) == Some(r) <==> Reads(t, r)
  {
    hide ParseRange;
    if ParseRange(t) == Some(r) {
      ParsedTextIsWritten(t);
    }
    if Reads(t, r) {
      var w: Written :| w.Valid() && t == w.String() && r == w.Denoted();
      ParseInvertsPrint(w);
    }
  }

  /** Every proper range can be written. */
  function Plainly(r: Range): (w: Written)
    requires r.Proper()
    ensures w.Valid() && w.Denoted() == r
  {
    ValueOfDigits(r.start);
    match r.end
    case None => Written("", Digits(r.start), Some(""), "")
    case Some(end) =>
      ValueOfDigits(end);
      Written("", Digits(r.start), Some(Digits(end)), "")
  }

  // ----- the notation of a target -----

  predicate AllWritten(ws: seq<Written>) {
    forall i | 0 <= i < |ws| :: ws[i].Valid()
  }

  function AllDenoted(ws: seq<Written>): (rs: seq<Range>)
    requires AllWritten(ws)
    ensures |rs| == |ws| && forall i | 0 <= i < |rs| :: rs[i] == ws[i].Denoted()
  {
    seq(|ws|, i requires 0 <= i < |ws| => ws[i].Denoted())
  }

  /** The ranges of a target, comma-listed. */
  function Joined(ws: seq<Written>): string
    requires ws != []
  {
    if |ws| == 1 then ws[0].String() else ws[0].String() + "," + Joined(ws[1..])
  }

  /** A target: ranges, and after a bar a ratio if there is one. */
  datatype WrittenTarget = WrittenTarget(ranges: seq<Written>, ratio: Option<nat>) {
    predicate Valid() {
      ranges != [] && AllWritten(ranges) && (ratio.Some? ==> ratio.value <= MAX_INT64)
    }

    function String(): string
      requires Valid()
    {
      Joined(ranges) + match ratio case None => "" case Some(n) => "|" + Digits(n)
    }
  }

  predicate ListChar(c: char) {
    RangeChar(c) || IsSpace(c) || c == ','
  }

  lemma StringChars(w: Written)
    requires w.Valid()
    ensures w.String() != "" && forall c | c in w.String() :: RangeChar(c) || IsSpace(c)
  {
    CoreChars(w);
  }

  lemma {:induction false} JoinedChars(ws: seq<Written>)
    requires AllWritten(ws) && ws != []
    ensures Joined(ws) != "" && forall c | c in Joined(ws) :: ListChar(c)
  {
    StringChars(ws[0]);
    if |ws| > 1 {
      JoinedChars(ws[1..]);
    }
  }

  /** The first of several pieces. */
  lemma ParsedStepOf(a: string, rest: string, r: Range)
    requires ',' !in a && ParseRange(Trim(a)) == Some(r)
    ensures Parsed(Split((a + ",") + rest, ',')) == [r] + Parsed(Split(rest, ','))
    ensures Parsed(Split(a, ',')) == [r]
  {
    hide ParseRange, Trim;
    BeforeOf(a, ',', rest);
    var parts := Split(rest, ',');
    assert Split((a + ",") + rest, ',') == [a] + parts;
    assert ([a] + parts)[1..] == parts;
    assert Split(a, ',') == [a];
    assert Parsed([a]) == [r] + Parsed([]);
  }

  lemma ParsedPiece(w: Written)
    requires w.Valid()
    ensures ',' !in w.String() && ParseRange(Trim(w.String())) == Some(w.Denoted())
  {
    ParseInvertsPrint(w);
    StringChars(w);
    TrimTwice(w.String());
    ParseOfCore(w, w.Core());
  }

  lemma JoinedStep(ws: seq<Written>)
    requires |ws| > 1
    ensures Joined(ws) == (ws[0].String() + ",") + Joined(ws[1..])
  {
  }

  lemma DenotedStep(ws: seq<Written>)
    requires AllWritten(ws) && ws != []
    ensures AllDenoted(ws) == [ws[0].Denoted()] + AllDenoted(ws[1..])
  {
  }

  lemma {:induction false} ParsedTarget(ws: seq<Written>)
    requires AllWritten(ws) && ws != []
    ensures Parsed(Split(Joined(ws), ',')) == AllDenoted(ws)
  {
    var first, r := ws[0].String(), ws[0].Denoted();
    if |ws| == 1 {
      assert Joined(ws) == first && AllDenoted(ws) == [r];
      hide ParseRange, Trim, Split, Parsed, Joined, AllDenoted;
      ParsedPiece(ws[0]);
      ParsedStepOf(first, "", r);
    } else {
      hide ParseRange, Trim, Split, Parsed, Joined, AllDenoted;
      ParsedPiece(ws[0]);
      JoinedStep(ws);
      DenotedStep(ws);
      ParsedStepOf(first, Joined(ws[1..]), r);
      ParsedTarget(ws[1..]);
    }
  }

  // ----- trimming a target -----

  function WithoutLeft(ws: seq<Written>): seq<Written>
    requires ws != []
  {
    [ws[0].(left := "")] + ws[1..]
  }

  function WithoutRight(ws: seq<Written>): (r: seq<Written>)
    requires ws != []
    ensures |r| == |ws|
  {
    ws[..|ws| - 1] + [ws[|ws| - 1].(right := "")]
  }

  lemma CutLeft(w: Written)
    requires w.Valid()
    ensures
      var v := w.(left := "");
      v.Valid() && v.Denoted() == w.Denoted() && w.String() == w.left + v.String() && v.String() != "" && !IsSpace(v.String()[0])
  {
    CoreChars(w);
    var v := w.(left := "");
    assert v.String() == w.Core() + w.right && w.String() == w.left + v.String();
    assert v.String()[0] == w.Core()[0] && w.Core()[0] in w.Core();
  }

  lemma CutRight(w: Written)
    requires w.Valid()
    ensures
      var v := w.(right := "");
      v.Valid() && v.Denoted() == w.Denoted() && w.String() == v.String() + w.right && v.String() != "" && !IsSpace(v.String()[|v.String()| - 1])
  {
    CoreChars(w);
    var v := w.(right := "");
    assert v.String() == w.left + w.Core() && w.String() == v.String() + w.right;
    assert v.String()[|v.String()| - 1] == w.Core()[|w.Core()| - 1] && w.Core()[|w.Core()| - 1] in w.Core();
  }

  /** A text in front of another does not change where a space at its end can be. */
  lemma Assemble(front: string, back: string, right: string, all: string)
    requires all == front + back && back != "" && !IsSpace(back[|back| - 1])
    ensures all + right == front + (back + right) && all != "" && !IsSpace(all[|all| - 1])
  {
  }

  lemma JoinedWithoutLeft(ws: seq<Written>)
    requires AllWritten(ws) && ws != []
    ensures AllWritten(WithoutLeft(ws)) && AllDenoted(WithoutLeft(ws)) == AllDenoted(ws)
    ensures Joined(ws) == ws[0].left + Joined(WithoutLeft(ws))
    ensures Joined(WithoutLeft(ws)) != "" && !IsSpace(Joined(WithoutLeft(ws))[0])
  {
    var w, v, vs := ws[0], ws[0].(left := ""), WithoutLeft(ws);
    CutLeft(w);
    assert vs[0] == v && vs[1..] == ws[1..];
    assert AllWritten(vs) && AllDenoted(vs) == AllDenoted(ws);
    if |ws| > 1 {
      JoinedStep(ws);
      JoinedStep(vs);
      hide Joined, AllWritten;
      Reassociate(w.left, v.String(), ",", Joined(ws[1..]));
    }
  }

  lemma Reassociate(a: string, b: string, c: string, d: string)
    ensures ((a + b) + c) + d == a + ((b + c) + d)
  {
  }

  lemma DenotedWithoutRight(ws: seq<Written>)
    requires AllWritten(ws) && ws != []
    ensures AllWritten(WithoutRight(ws)) && AllDenoted(WithoutRight(ws)) == AllDenoted(ws)
  {
    CutRight(ws[|ws| - 1]);
  }

  lemma {:induction false} JoinedWithoutRight(ws: seq<Written>)
    requires AllWritten(ws) && ws != []
    ensures Joined(ws) == Joined(WithoutRight(ws)) + ws[|ws| - 1].right
    ensures Joined(WithoutRight(ws)) != "" && !IsSpace(Joined(WithoutRight(ws))[|Joined(WithoutRight(ws))| - 1])
  {
    if |ws| == 1 {
      CutRight(ws[0]);
      assert WithoutRight(ws) == [ws[0].(right := "")];
    } else {
      var vs := WithoutRight(ws);
      assert vs[1..] == WithoutRight(ws[1..]) && vs[0] == ws[0];
      hide Joined, WithoutRight, AllWritten;
      JoinedStep(ws);
      JoinedStep(vs);
      JoinedWithoutRight(ws[1..]);
      Assemble(ws[0].String() + ",", Joined(vs[1..]), ws[|ws| - 1].right, Joined(vs));
    }
  }

  /** The text in front of the ratio. */
  lemma TrimJoined(ws: seq<Written>)
    requires AllWritten(ws) && ws != []
    ensures Parsed(Split(Trim(Joined(ws)), ',')) == AllDenoted(ws)
  {
    var vs := WithoutLeft(ws);
    JoinedWithoutLeft(ws);
    JoinedWithoutRight(vs);
    DenotedWithoutRight(vs);
    ParsedTarget(WithoutRight(vs));
    TrimLeftPadded(ws[0].left, Joined(vs));
    hide Joined, WithoutLeft, WithoutRight, Parsed, Split;
    TrimRightPadded(Joined(WithoutRight(vs)), vs[|vs| - 1].right);
  }

  lemma BeforeBar(list: string, digits: string)
    requires '|' !in list
    ensures Before(list + ("|" + digits), '|') == list
  {
    BeforeOf(list, '|', digits);
    assert list + ("|" + digits) == list + ['|'] + digits;
  }

  lemma BeforeRatio(t: WrittenTarget)
    requires t.Valid()
    ensures Before(t.String(), '|') == Joined(t.ranges)
  {
    JoinedChars(t.ranges);
    hide Before, Joined, Digits;
    match t.ratio
    case None => assert t.String() == Joined(t.ranges);
    case Some(n) => BeforeBar(Joined(t.ranges), Digits(n));
  }

  /** The ratio behind a trimmed list of ranges. */
  lemma RatioBehind(list: string, digits: string)
    requires '|' !in list && list != "" && !IsSpace(list[0]) && digits != "" && AllDigits(digits)
    ensures Trim(list + "|" + digits) == list + "|" + digits
    ensures After(list + "|" + digits, '|') == Some(digits)
  {
    hide Trim, After;
    BeforeOf(list, '|', digits);
    TrimTight(list + "|" + digits);
  }

  lemma FlagDecides(target: string, flag: string)
    requires After(Trim(target), '|') == Some(flag) && Trim(flag) == flag
    ensures BadRatio(target) <==> Atoi(flag).Some? && Atoi(flag).value != 1
  {
    hide After, Trim, Atoi;
  }

  lemma NoRatioRead(t: WrittenTarget)
    requires t.Valid() && t.ratio.None?
    ensures !BadRatio(t.String())
  {
    JoinedChars(t.ranges);
    assert t.String() == Joined(t.ranges);
    hide Trim, After, Joined;
    TrimKeepsChars(t.String());
    assert '|' !in Trim(t.String());
  }

  lemma AtoiOfDigits(n: nat)
    requires n <= MAX_INT64
    ensures Atoi(Digits(n)) == Some(n) && Trim(Digits(n)) == Digits(n)
  {
    ValueOfDigits(n);
    TrimWithoutSpaces(Digits(n));
  }

  lemma RatioOfText(text: string, left: string, list: string, digits: string)
    requires AllSpaces(left) && '|' !in list && list != "" && !IsSpace(list[0])
    requires digits != "" && AllDigits(digits) && Trim(digits) == digits && text == left + (list + "|" + digits)
    ensures BadRatio(text) <==> Atoi(digits).Some? && Atoi(digits).value != 1
  {
    hide Trim, After, Atoi, BadRatio;
    RatioBehind(list, digits);
    TrimSpacesBefore(left, list + "|" + digits);
    FlagDecides(text, digits);
  }

  lemma SomeRatioRead(t: WrittenTarget)
    requires t.Valid() && t.ratio.Some?
    ensures BadRatio(t.String()) <==> t.ratio.value != 1
  {
    var left, list, digits := t.ranges[0].left, Joined(WithoutLeft(t.ranges)), Digits(t.ratio.value);
    JoinedWithoutLeft(t.ranges);
    JoinedChars(WithoutLeft(t.ranges));
    AtoiOfDigits(t.ratio.value);
    assert t.String() == Joined(t.ranges) + ("|" + digits);
    Glue(left, list, digits);
    hide Joined, WithoutLeft, Digits, Trim, After, Atoi, BadRatio;
    RatioOfText(t.String(), left, list, digits);
  }

  lemma Glue(left: string, list: string, digits: string)
    ensures (left + list) + ("|" + digits) == left + (list + "|" + digits)
  {
  }

  /** A written target reads back as the ranges it lists, in order, and its ratio is bad exactly when it is not 1. */
  lemma TargetInvertsPrint(t: WrittenTarget)
    requires t.Valid()
    ensures TargetRanges(t.String()) == AllDenoted(t.ranges)
    ensures BadRatio(t.String()) <==> t.ratio.Some? && t.ratio.value != 1
  {
    if t.ratio.Some? {
      SomeRatioRead(t);
    } else {
      NoRatioRead(t);
    }
    BeforeRatio(t);
    TrimJoined(t.ranges);
    hide Joined, Trim, Before, After, Split, Parsed, BadRatio;
    TrimBeforeCut(t.String(), '|');
  }

  // ----- a whole map -----

  /** What one entry of a range map says. */
  datatype Entry = Entry(source: Range, targets: seq<Range>, ratio: Option<nat>) {
    /** The answer for an episode of the source: none under a ratio other than 1, else its place in the concatenation. */
    function Answer(episode: int): Option<int>
      requires source.Covers(episode) && AllProper(targets)
    {
      if ratio.Some? && ratio.value != 1 then None else Wrapped(Nth(targets, episode - source.start))
    }
  }

  /** The texts key and target write the entry e. */
  ghost predicate Writes(key: string, target: string, e: Entry) {
    exists w: Written, t: WrittenTarget :: WritesAs(key, target, e, w, t)
  }

  predicate WritesAs(key: string, target: string, e: Entry, w: Written, t: WrittenTarget) {
    && w.Valid() && t.Valid() && key == w.String() && target == t.String()
    && e == Entry(w.Denoted(), AllDenoted(t.ranges), t.ratio)
  }

  type Entries = map<string, Entry>

  /** m is a range map in AniBridge's notation, entry by entry. */
  ghost predicate WritesMap(m: RangeMap, es: Entries) {
    m.Keys == es.Keys && forall k | k in m :: Writes(k, m[k], es[k])
  }

  predicate AllProper(rs: seq<Range>) {
    forall r | r in rs :: r.Proper() && r.Length() >= 0
  }

  /** The meaning of a range map: some covering entry's answer, or none where no entry covers. */
  ghost predicate Means(es: Entries, episode: int, r: Option<int>)
    requires forall k | k in es :: AllProper(es[k].targets)
  {
    if episode <= 0 || forall k | k in es :: !es[k].source.Covers(episode) then r == None
    else exists k :: k in es && es[k].source.Covers(episode) && r == es[k].Answer(episode)
  }

  lemma WrittenEntry(key: string, target: string, e: Entry, episode: int)
    requires Writes(key, target, e)
    ensures e.source.Proper() && AllProper(e.targets)
    ensures Covers(key, episode) <==> e.source.Covers(episode)
    ensures e.source.Covers(episode) ==> EntryTarget(key, target, episode) == e.Answer(episode)
  {
    var w: Written, t: WrittenTarget :| WritesAs(key, target, e, w, t);
    ParseInvertsPrint(w);
    TargetInvertsPrint(t);
    hide ParseRange, TargetRanges, BadRatio, Nth, Flat;
  }

  /** mapEpisodeNumber on a written map answers exactly what the map means, no more and no less. */
  lemma WrittenMapMeans(m: RangeMap, es: Entries, episode: int, r: Option<int>)
    requires WritesMap(m, es)
    ensures forall k | k in es :: AllProper(es[k].targets)
    ensures MapsTo(m, episode, r) <==> Means(es, episode, r)
  {
    hide Writes, EntryTarget, Covers;
    forall k | k in es
      ensures AllProper(es[k].targets) && (Covers(k, episode) <==> es[k].source.Covers(episode))
      ensures es[k].source.Covers(episode) ==> EntryTarget(k, m[k], episode) == es[k].Answer(episode)
    {
      assert k in m;
      WrittenEntry(k, m[k], es[k], episode);
    }
  }

  predicate Overlap(a: Range, b: Range) {
    (b.end.None? || a.start <= b.end.value) && (a.end.None? || b.start <= a.end.value)
  }

  /** No episode is covered by two keys of a written map, exactly when no two of its sources overlap. */
  lemma WrittenSourcesDisjointIff(m: RangeMap, es: Entries)
    requires WritesMap(m, es)
    ensures SourcesDisjoint(m) <==> forall k1, k2 | k1 in es && k2 in es && Overlap(es[k1].source, es[k2].source) :: k1 == k2
  {
    hide Writes, EntryTarget, Covers;
    if k1, k2 :| k1 in es && k2 in es && Overlap(es[k1].source, es[k2].source) && k1 != k2 {
      var n := Max(es[k1].source.start, es[k2].source.start);
      assert k1 in m && k2 in m;
      WrittenEntry(k1, m[k1], es[k1], n);
      WrittenEntry(k2, m[k2], es[k2], n);
    } else {
      forall k1, k2, n: int | k1 in m && k2 in m && Covers(k1, n) && Covers(k2, n)
        ensures k1 == k2
      {
        WrittenEntry(k1, m[k1], es[k1], n);
        WrittenEntry(k2, m[k2], es[k2], n);
        assert Overlap(es[k1].source, es[k2].source);
      }
    }
  }

  // ----- every map can be written -----

  function AllPlainly(rs: seq<Range>): (ws: seq<Written>)
    requires forall r <- rs :: r.Proper()
    ensures AllWritten(ws) && AllDenoted(ws) == rs
  {
    seq(|rs|, i requires 0 <= i < |rs| => Plainly(rs[i]))
  }

  predicate Expressible(e: Entry) {
    e.source.Proper() && e.targets != [] && (forall r <- e.targets :: r.Proper()) && (e.ratio.Some? ==> e.ratio.value <= MAX_INT64)
  }

  function KeyOf(e: Entry): string
    requires Expressible(e)
  {
    Plainly(e.source).String()
  }

  function TargetOf(e: Entry): string
    requires Expressible(e)
  {
    WrittenTarget(AllPlainly(e.targets), e.ratio).String()
  }

  lemma EntryCanBeWritten(e: Entry)
    requires Expressible(e)
    ensures Writes(KeyOf(e), TargetOf(e), e) && ParseRange(KeyOf(e)) == Some(e.source)
  {
    assert WritesAs(KeyOf(e), TargetOf(e), e, Plainly(e.source), WrittenTarget(AllPlainly(e.targets), e.ratio));
    ParseInvertsPrint(Plainly(e.source));
  }

  /** Any entries with different sources can be written as one map: two ranges never print alike. */
  lemma {:induction false} EveryMapCanBeWritten(entries: seq<Entry>) returns (m: RangeMap, es: Entries)
    requires forall e <- entries :: Expressible(e)
    requires forall i, j | 0 <= i < j < |entries| :: entries[i].source != entries[j].source
    ensures WritesMap(m, es) && es.Values == set e | e in entries
    ensures forall k | k in es :: ParseRange(k) == Some(es[k].source)
  {
    hide Writes, ParseRange, Expressible, KeyOf, TargetOf;
    m, es := map[], map[];
    if entries != [] {
      var n := |entries| - 1;
      var e := entries[n];
      assert e in entries && entries == entries[..n] + [e];
      m, es := EveryMapCanBeWritten(entries[..n]);
      EntryCanBeWritten(e);
      NewKey(entries[..n], e, es);
      ValuesGrow(es, KeyOf(e), e);
      m, es := m[KeyOf(e) := TargetOf(e)], es[KeyOf(e) := e];
    }
  }

  lemma NewKey(entries: seq<Entry>, e: Entry, es: Entries)
    requires Expressible(e) && forall i | 0 <= i < |entries| :: entries[i].source != e.source
    requires es.Values == set x | x in entries
    requires forall k | k in es :: ParseRange(k) == Some(es[k].source)
    ensures KeyOf(e) !in es
  {
    hide Expressible, ParseRange, KeyOf;
    EntryCanBeWritten(e);
    forall k | k in es
      ensures k != KeyOf(e)
    {
      assert es[k] in es.Values;
      var i :| 0 <= i < |entries| && entries[i] == es[k];
    }
  }

  lemma ValuesGrow(es: Entries, key: string, e: Entry)
    requires key !in es
    ensures es[key := e].Values == es.Values + {e}
  {
    var es' := es[key := e];
    forall x | x in es.Values + {e}
      ensures x in es'.Values
    {
      if x in es.Values {
        var k :| k in es && es[k] == x;
        assert es'[k] == x;
      } else {
        assert es'[key] == e;
      }
    }
  }

  // ----- a ratio on an aligned target -----

  /**
   The comment in the source says flags fail the alignment test.  They do not:
   every aligned entry with a ratio other than 1, however written, passes it,
   and then maps no episode at all.
   */
  lemma RatioPassesAlignment(w: Written, v: Written, ratio: nat, offset: nat, end: int)
    requires w.Valid() && v.Valid() && ratio <= MAX_INT64 && ratio != 1
    requires w.Denoted() == Range(1, Some(end)) && v.Denoted() == Range(1 + offset, Some(end + offset))
    ensures
      var m: RangeMap := map[w.String() := WrittenTarget([v], Some(ratio)).String()];
      Continues(m, offset, end) && forall n, r | MapsTo(m, n, r) :: r == None
  {
    var key, t := w.String(), WrittenTarget([v], Some(ratio));
    FlaggedEntry(w, v, ratio, offset, end);
    OneBadEntry(key, t.String(), offset, end);
  }

  lemma FlaggedEntry(w: Written, v: Written, ratio: nat, offset: int, end: int)
    requires w.Valid() && v.Valid() && ratio <= MAX_INT64 && ratio != 1
    requires w.Denoted() == Range(1, Some(end)) && v.Denoted() == Range(1 + offset, Some(end + offset))
    ensures
      var target := WrittenTarget([v], Some(ratio)).String();
      AlignedEntry(w.String(), target, offset) && BadRatio(target) && ParseRange(w.String()) == Some(Range(1, Some(end)))
  {
    var t := WrittenTarget([v], Some(ratio));
    ParseInvertsPrint(w);
    ParsedPiece(v);
    BeforeRatio(t);
    SomeRatioRead(t);
    assert Joined([v]) == v.String();
    hide ParseRange, BadRatio, Trim, Before, Joined;
  }

  lemma OneBadEntry(key: string, target: string, offset: int, end: int)
    requires AlignedEntry(key, target, offset) && BadRatio(target) && ParseRange(key) == Some(Range(1, Some(end)))
    ensures Continues(map[key := target], offset, end)
    ensures forall n, r | MapsTo(map[key := target], n, r) :: r == None
  {
    hide ParseRange, BadRatio, AlignedTarget;
    var m: RangeMap := map[key := target];
    assert key in m;
  }
}
