/**
 The bigram similarity of internal/streaming/animegg.go (animeggDice), on the
 normalized names.  The score is the exact quotient the source divides in
 floating point.
 */
module Dice {

  type Bigram = string

  /** Every pair of neighbouring characters, with multiplicity. */
  function Bigrams(s: string): multiset<Bigram> {
    if |s| < 2 then multiset{} else multiset{s[..2]} + Bigrams(s[1..])
  }

  function Count(m: map<Bigram, nat>, g: Bigram): nat {
    if g in m then m[g] else 0
  }

  lemma {:induction false} BigramCount(s: string)
    ensures |Bigrams(s)| == if |s| < 2 then 0 else |s| - 1
  {
    if |s| >= 2 {
      BigramCount(s[1..]);
    }
  }

  function Windows(s: string): (ws: seq<Bigram>)
    ensures |ws| == if |s| < 2 then 0 else |s| - 1
    ensures forall i | 0 <= i < |ws| :: ws[i] == s[i..i + 2]
  {
    seq(if |s| < 2 then 0 else |s| - 1, i requires 0 <= i < |s| - 1 => s[i..i + 2])
  }

  lemma WindowsStep(s: string)
    requires |s| >= 2
    ensures Windows(s) == [s[..2]] + Windows(s[1..])
  {
    hide Windows;
    var all, later := Windows(s), [s[..2]] + Windows(s[1..]);
    forall i | 0 <= i < |all|
      ensures all[i] == later[i]
    {
      if i > 0 {
        TailWindow(s, i);
      }
    }
  }

  lemma TailWindow(s: string, i: nat)
    requires 0 < i && i + 2 <= |s|
    ensures s[1..][i - 1..i + 1] == s[i..i + 2]
  {
  }

  /** The bigrams are the windows of length two at every position. */
  lemma {:induction false} BigramsAreWindows(s: string)
    ensures Bigrams(s) == multiset(Windows(s))
  {
    if |s| >= 2 {
      BigramsAreWindows(s[1..]);
      WindowsStep(s);
      hide Windows;
      FirstCounts(s[..2], Windows(s[1..]));
    } else {
      assert Windows(s) == [];
    }
  }

  lemma FirstCounts(g: Bigram, gs: seq<Bigram>)
    ensures multiset([g] + gs) == multiset{g} + multiset(gs)
  {
  }

  /** The first loop: how often each bigram occurs. */
  method CountBigrams(s: string) returns (grams: map<Bigram, nat>)
    ensures forall g: Bigram :: Count(grams, g) == Bigrams(s)[g]
  {
    grams := map[];
    var i := 0;
    assert s[0..] == s;
    while i + 1 < |s|
      invariant 0 <= i <= |s|
      invariant forall g: Bigram :: Count(grams, g) + Bigrams(s[i..])[g] == Bigrams(s)[g]
    {
      var gram := s[i..i + 2];
      assert s[i..][..2] == gram && s[i..][1..] == s[i + 1..];
      grams := grams[gram := Count(grams, gram) + 1];
      i := i + 1;
    }
  }

  /** What is left of a after counting down seen. */
  function Left(a: multiset<Bigram>, seen: multiset<Bigram>, g: Bigram): nat {
    if seen[g] < a[g] then a[g] - seen[g] else 0
  }

  ghost predicate CountsLeft(grams: map<Bigram, nat>, a: multiset<Bigram>, seen: multiset<Bigram>) {
    forall g: Bigram :: Count(grams, g) == Left(a, seen, g)
  }

  /** One more bigram adds one to the intersection exactly while the counter has one left. */
  lemma CountDown(grams: map<Bigram, nat>, a: multiset<Bigram>, seen: multiset<Bigram>, g: Bigram)
    requires CountsLeft(grams, a, seen)
    ensures
      var seen' := seen + multiset{g};
      if Count(grams, g) > 0 then CountsLeft(grams[g := grams[g] - 1], a, seen') && |a * seen'| == |a * seen| + 1
      else CountsLeft(grams, a, seen') && |a * seen'| == |a * seen|
  {
    var grams' := if Count(grams, g) > 0 then grams[g := grams[g] - 1] else grams;
    forall h: Bigram
      ensures Count(grams', h) == Left(a, seen + multiset{g}, h)
    {
      assert Count(grams, h) == Left(a, seen, h);
      assert Count(grams, g) == Left(a, seen, g);
    }
    if seen[g] < a[g] {
      assert a * (seen + multiset{g}) == (a * seen) + multiset{g};
    } else {
      assert a * (seen + multiset{g}) == a * seen;
    }
  }

  /** The second loop at position i: seen is what it has read, hits how much of that was left to count. */
  ghost predicate Tally(s: string, i: nat, a: multiset<Bigram>, grams: map<Bigram, nat>, seen: multiset<Bigram>, hits: nat) {
    && i <= |s| && seen + Bigrams(s[i..]) == Bigrams(s)
    && CountsLeft(grams, a, seen) && hits == |a * seen|
  }

  lemma TallyStep(s: string, i: nat, a: multiset<Bigram>, grams: map<Bigram, nat>, seen: multiset<Bigram>, hits: nat)
    requires i + 1 < |s| && Tally(s, i, a, grams, seen, hits)
    ensures
      var gram := s[i..i + 2];
      if Count(grams, gram) > 0 then Tally(s, i + 1, a, grams[gram := grams[gram] - 1], seen + multiset{gram}, hits + 1)
      else Tally(s, i + 1, a, grams, seen + multiset{gram}, hits)
  {
    var gram := s[i..i + 2];
    assert Bigrams(s[i..]) == multiset{gram} + Bigrams(s[i + 1..]) by {
      assert s[i..][..2] == gram && s[i..][1..] == s[i + 1..];
    }
    hide CountsLeft, Bigrams;
    CountDown(grams, a, seen, gram);
  }

  /**
   The second loop counts down the first string's bigrams; what it counts is the
   size of the multiset intersection.
   */
  method Hits(grams0: map<Bigram, nat>, ghost a: multiset<Bigram>, s: string) returns (hits: nat)
    requires forall g: Bigram :: Count(grams0, g) == a[g]
    ensures hits == |a * Bigrams(s)|
  {
    var grams := grams0;
    hits := 0;
    ghost var seen: multiset<Bigram> := multiset{};
    var i := 0;
    assert Tally(s, 0, a, grams, seen, 0) by {
      assert s[0..] == s && a * seen == multiset{};
    }
    hide Tally;
    while i + 1 < |s|
      invariant i <= |s|
      invariant Tally(s, i, a, grams, seen, hits)
    {
      var gram := s[i..i + 2];
      TallyStep(s, i, a, grams, seen, hits);
      if Count(grams, gram) > 0 {
        hits := hits + 1;
        grams := grams[gram := grams[gram] - 1];
      }
      seen := seen + multiset{gram};
      i := i + 1;
    }
    TallyEnd(s, i, a, grams, seen, hits);
  }

  lemma TallyEnd(s: string, i: nat, a: multiset<Bigram>, grams: map<Bigram, nat>, seen: multiset<Bigram>, hits: nat)
    requires i + 1 >= |s| && Tally(s, i, a, grams, seen, hits)
    ensures hits == |a * Bigrams(s)|
  {
    assert |s[i..]| < 2;
    assert seen == Bigrams(s);
  }

  /** What the score means: twice the shared bigrams over all bigrams; 1 for equal names, 0 for too short ones. */
  function Score(na: string, nb: string): real {
    if na == nb then 1.0
    else if |na| < 2 || |nb| < 2 then 0.0
    else (2 * |Bigrams(na) * Bigrams(nb)|) as real / (|na| + |nb| - 2) as real
  }

  /** animeggDice on normalized names. */
  method AnimeggDice(na: string, nb: string) returns (r: real)
    ensures r == Score(na, nb)
  {
    if na == nb {
      return 1.0;
    }
    if |na| < 2 || |nb| < 2 {
      return 0.0;
    }
    var grams := CountBigrams(na);
    var hits := Hits(grams, Bigrams(na), nb);
    return (2 * hits) as real / (|na| + |nb| - 2) as real;
  }

  lemma {:induction false} SubsetSize(a: multiset<Bigram>, b: multiset<Bigram>)
    requires a <= b
    ensures |a| <= |b|
    ensures |a| == |b| ==> a == b
  {
    assert b == a + (b - a);
    assert |b| == |a| + |b - a|;
  }

  lemma QuotientBounds(x: int, y: int)
    requires 0 <= x <= y && y > 0
    ensures 0.0 <= x as real / y as real <= 1.0
    ensures x as real / y as real == 1.0 <==> x == y
  {
  }

  /** Shared bigrams are at most half of all, and half of all only when every bigram is shared. */
  lemma SharedBigrams(na: string, nb: string)
    requires |na| >= 2 && |nb| >= 2
    ensures
      var shared := Bigrams(na) * Bigrams(nb);
      && 2 * |shared| <= |na| + |nb| - 2
      && (2 * |shared| == |na| + |nb| - 2 <==> Bigrams(na) == Bigrams(nb))
  {
    var a, b := Bigrams(na), Bigrams(nb);
    BigramCount(na);
    BigramCount(nb);
    hide Bigrams;
    SubsetSize(a * b, a);
    SubsetSize(a * b, b);
    assert a == b ==> a * b == a;
  }

  /** The share of all bigrams that only one of the names has. */
  function Distance(na: string, nb: string): real
    requires |na| >= 2 && |nb| >= 2
  {
    Quotient(|Bigrams(na) - Bigrams(nb)| + |Bigrams(nb) - Bigrams(na)|, |na| + |nb| - 2)
  }

  function Quotient(x: int, y: int): real
    requires y > 0
  {
    x as real / y as real
  }

  lemma SharesAddUp(x: int, y: int, total: int)
    requires total > 0 && x + y == total
    ensures Quotient(x, total) + Quotient(y, total) == 1.0
  {
    assert x as real + y as real == total as real;
  }

  lemma Unshared(a: multiset<Bigram>, b: multiset<Bigram>)
    ensures |a - b| + |b - a| == |a| + |b| - 2 * |a * b|
  {
    assert a == (a - b) + (a * b) && b == (b - a) + (b * a);
    assert a * b == b * a;
  }

  /** What the score falls short of 1 is the share of the bigrams that only one of the names has. */
  lemma ScoreCountsDifferences(na: string, nb: string)
    requires |na| >= 2 && |nb| >= 2
    ensures Score(na, nb) + Distance(na, nb) == 1.0
  {
    var a, b := Bigrams(na), Bigrams(nb);
    BigramCount(na);
    BigramCount(nb);
    Unshared(a, b);
    ScoreIs(na, nb);
    hide Bigrams, Quotient, Score;
    SharesAddUp(2 * |a * b|, |a - b| + |b - a|, |na| + |nb| - 2);
  }

  lemma ScoreIs(na: string, nb: string)
    requires |na| >= 2 && |nb| >= 2
    ensures Score(na, nb) == Quotient(2 * |Bigrams(na) * Bigrams(nb)|, |na| + |nb| - 2)
  {
    hide Bigrams;
    if na == nb {
      BigramCount(na);
      assert Bigrams(na) * Bigrams(nb) == Bigrams(na);
      QuotientBounds(2 * |Bigrams(na) * Bigrams(nb)|, |na| + |nb| - 2);
    }
  }

  /** Symmetric, within [0,1], and 1 only for equal names or names with the same bigrams. */
  lemma ScoreLaws(na: string, nb: string)
    ensures Score(na, nb) == Score(nb, na)
    ensures 0.0 <= Score(na, nb) <= 1.0
    ensures Score(na, nb) == 1.0 <==> na == nb || (|na| >= 2 && |nb| >= 2 && Bigrams(na) == Bigrams(nb))
  {
    hide Bigrams;
    if na != nb && |na| >= 2 && |nb| >= 2 {
      assert Bigrams(na) * Bigrams(nb) == Bigrams(nb) * Bigrams(na);
      SharedBigrams(na, nb);
      QuotientBounds(2 * |Bigrams(na) * Bigrams(nb)|, |na| + |nb| - 2);
    }
  }
}
