/**
 The string functions the range parser and the snapshot keys are built from:
 strings.TrimSpace, strings.SplitN at one separator, strings.Split, and the
 decimal readers and printers of strconv.
 */
module Text {
  import opened Prelude

  predicate IsDigit(c: char) {
    '0' <= c <= '9'
  }

  predicate AllDigits(s: string) {
    forall i | 0 <= i < |s| :: IsDigit(s[i])
  }

  /** The characters with Unicode's White_Space property, as unicode.IsSpace has them. */
  predicate IsSpace(c: char) {
    '\t' <= c <= '\r' || c == ' ' || c == '\U{0085}' || c == '\U{00A0}' || c == '\U{1680}' ||
    '\U{2000}' <= c <= '\U{200A}' || c == '\U{2028}' || c == '\U{2029}' || c == '\U{202F}' ||
    c == '\U{205F}' || c == '\U{3000}'
  }

  function TrimLeft(s: string): string {
    if s != "" && IsSpace(s[0]) then TrimLeft(s[1..]) else s
  }

  function TrimRight(s: string): string {
    if s != "" && IsSpace(s[|s| - 1]) then TrimRight(s[..|s| - 1]) else s
  }

  function Trim(s: string): string {
    TrimRight(TrimLeft(s))
  }

  /** The text before the first separator, or all of it. */
  function Before(s: string, sep: char): (r: string)
    ensures sep !in r
    ensures sep !in s ==> r == s
  {
    if s == "" || s[0] == sep then "" else [s[0]] + Before(s[1..], sep)
  }

  /** The text after the first separator, if there is one. */
  function After(s: string, sep: char): (r: Option<string>)
    ensures r.Some? <==> sep in s
    ensures r.Some? ==> s == Before(s, sep) + [sep] + r.value
  {
    if s == "" then None
    else if s[0] == sep then Some(s[1..])
    else After(s[1..], sep)
  }

  /** Where the first separator of a + sep + rest is, if a has none. */
  lemma {:induction false} BeforeOf(a: string, sep: char, rest: string)
    requires sep !in a
    ensures Before(a + [sep] + rest, sep) == a && After(a + [sep] + rest, sep) == Some(rest)
  {
    var s := a + [sep] + rest;
    if a == "" {
      assert s == [sep] + rest;
    } else {
      assert s[1..] == a[1..] + [sep] + rest;
      BeforeOf(a[1..], sep, rest);
    }
  }

  /** strings.Split: the pieces between separators, at least one. */
  function Split(s: string, sep: char): (r: seq<string>)
    ensures |r| > 0
    ensures sep !in s ==> r == [s]
    decreases |s|
  {
    match After(s, sep)
    case None => [s]
    case Some(rest) => [Before(s, sep)] + Split(rest, sep)
  }

  // ----- decimal numbers -----

  function DigitOf(c: char): int
    requires IsDigit(c)
  {
    c as int - '0' as int
  }

  function DigitChar(d: nat): (c: char)
    requires d < 10
    ensures IsDigit(c) && DigitOf(c) == d
  {
    ('0' as int + d) as char
  }

  /** The number a run of digits denotes. */
  function Value(s: string): nat
    requires AllDigits(s)
  {
    if s == "" then 0 else Value(s[..|s| - 1]) * 10 + DigitOf(s[|s| - 1])
  }

  /** The decimal digits of n, without leading zeros. */
  function Digits(n: nat): (s: string)
    ensures s != "" && AllDigits(s)
  {
    if n < 10 then [DigitChar(n)] else Digits(n / 10) + [DigitChar(n % 10)]
  }

  lemma {:induction false} ValueOfDigits(n: nat)
    ensures Value(Digits(n)) == n
  {
    if n >= 10 {
      var s := Digits(n);
      assert s[..|s| - 1] == Digits(n / 10);
      ValueOfDigits(n / 10);
    }
  }

  /** strconv.Atoi on unsigned digits with its error ignored: out of range gives the largest int. */
  function AtoiClamped(s: string): nat
    requires AllDigits(s)
  {
    Min(Value(s), MAX_INT64)
  }

  /** strconv.Atoi: the number when there is no error. */
  function Atoi(s: string): Option<int>
  {
    var signed := s != "" && (s[0] == '-' || s[0] == '+');
    var digits := if signed then s[1..] else s;
    if digits == "" || !AllDigits(digits) then None
    else
      var v: int := Value(digits);
      var n := if signed && s[0] == '-' then -v else v;
      if IsInt64(n) then Some(n) else None
  }

  /** s writes n: digits, at least one, behind a sign or none. */
  predicate WritesInt(s: string, digits: string, n: int) {
    && digits != "" && AllDigits(digits)
    && (((s == digits || s == "+" + digits) && n == Value(digits)) || (s == "-" + digits && n == 0 - Value(digits)))
  }

  /** strconv.Atoi reads n from exactly the texts that write it, and no int but an int64. */
  lemma AtoiIff(s: string, n: int)
    ensures Atoi(s) == Some(n) <==> IsInt64(n) && exists digits :: WritesInt(s, digits, n)
  {
    var signed := s != "" && (s[0] == '-' || s[0] == '+');
    var digits := if signed then s[1..] else s;
    assert signed ==> s == [s[0]] + digits;
    if Atoi(s) == Some(n) {
      assert WritesInt(s, digits, n);
    }
    forall other | WritesInt(s, other, n)
      ensures other == digits
    {
      assert IsDigit(other[0]);
    }
  }

  // ----- trimming and separators -----

  lemma {:induction false} TrimLeftResult(s: string)
    ensures TrimLeft(s) != "" ==> !IsSpace(TrimLeft(s)[0])
  {
    if s != "" && IsSpace(s[0]) {
      TrimLeftResult(s[1..]);
    }
  }

  lemma {:induction false} TrimRightKeepsFront(s: string)
    ensures TrimRight(s) <= s
    ensures s != "" && !IsSpace(s[0]) ==> TrimRight(s) != ""
    ensures TrimRight(s) != "" ==> !IsSpace(TrimRight(s)[|TrimRight(s)| - 1])
  {
    if s != "" && IsSpace(s[|s| - 1]) {
      TrimRightKeepsFront(s[..|s| - 1]);
    }
  }

  /** Trimmed text neither starts nor ends with a space, so trimming it again changes nothing. */
  lemma TrimTwice(s: string)
    ensures TrimLeft(Trim(s)) == Trim(s)
    ensures Trim(Trim(s)) == Trim(s)
  {
    TrimLeftResult(s);
    TrimRightKeepsFront(TrimLeft(s));
  }

  lemma TrimWithoutSpaces(s: string)
    requires forall c | c in s :: !IsSpace(c)
    ensures Trim(s) == s
  {
  }

  lemma {:induction false} BeforeTrimLeft(s: string, sep: char)
    requires !IsSpace(sep)
    ensures Before(TrimLeft(s), sep) == TrimLeft(Before(s, sep))
  {
    if s != "" && IsSpace(s[0]) {
      assert Before(s, sep)[1..] == Before(s[1..], sep);
      BeforeTrimLeft(s[1..], sep);
    }
  }

  lemma {:induction false} BeforeOfExtended(s: string, c: char, sep: char)
    requires c != sep
    ensures Before(s + [c], sep) == if sep in s then Before(s, sep) else s + [c]
  {
    if s != "" && s[0] != sep {
      assert (s + [c])[1..] == s[1..] + [c];
      BeforeOfExtended(s[1..], c, sep);
    }
  }

  lemma {:induction false} BeforeTrimRight(s: string, sep: char)
    requires !IsSpace(sep)
    ensures TrimRight(Before(TrimRight(s), sep)) == TrimRight(Before(s, sep))
  {
    if s != "" && IsSpace(s[|s| - 1]) {
      var init, last := s[..|s| - 1], s[|s| - 1];
      assert s == init + [last];
      BeforeOfExtended(init, last, sep);
      BeforeTrimRight(init, sep);
      if sep !in init {
        assert (init + [last])[..|init|] == init;
      }
    }
  }

  /** Trimming before or after cutting at a separator leaves the same trimmed front part. */
  lemma TrimBeforeCut(s: string, sep: char)
    requires !IsSpace(sep)
    ensures Trim(Before(Trim(s), sep)) == Trim(Before(s, sep))
  {
    TrimTwice(s);
    BeforeTrimLeft(Trim(s), sep);
    BeforeTrimRight(TrimLeft(s), sep);
    BeforeTrimLeft(s, sep);
  }

  lemma {:induction false} TrimRightKeepsChars(s: string)
    ensures forall c | c in TrimRight(s) :: c in s
  {
    if s != "" && IsSpace(s[|s| - 1]) {
      TrimRightKeepsChars(s[..|s| - 1]);
    }
  }

  lemma {:induction false} TrimLeftKeepsChars(s: string)
    ensures forall c | c in TrimLeft(s) :: c in s
  {
    if s != "" && IsSpace(s[0]) {
      TrimLeftKeepsChars(s[1..]);
    }
  }

  lemma TrimKeepsChars(s: string)
    ensures forall c | c in Trim(s) :: c in s
  {
    TrimLeftKeepsChars(s);
    TrimRightKeepsChars(TrimLeft(s));
  }

  predicate AllSpaces(s: string) {
    forall i | 0 <= i < |s| :: IsSpace(s[i])
  }

  lemma TrimLeftPadded(left: string, s: string)
    requires AllSpaces(left) && (s != "" ==> !IsSpace(s[0]))
    ensures TrimLeft(left + s) == s
  {
    SkipSpaces(left, s);
  }

  lemma {:induction false} TrimRightPadded(s: string, right: string)
    requires AllSpaces(right) && s != "" && !IsSpace(s[|s| - 1])
    ensures TrimRight(s + right) == s
  {
    var all := s + right;
    if right == "" {
      assert all == s;
    } else {
      assert all[..|all| - 1] == s + right[..|right| - 1];
      TrimRightPadded(s, right[..|right| - 1]);
    }
  }

  /** Text with spaces on both sides is trimmed to the text. */
  lemma TrimPadded(left: string, s: string, right: string)
    requires AllSpaces(left) && AllSpaces(right)
    requires s != "" && !IsSpace(s[0]) && !IsSpace(s[|s| - 1])
    ensures Trim(left + s + right) == s
  {
    assert left + s + right == left + (s + right);
    TrimLeftPadded(left, s + right);
    TrimRightPadded(s, right);
  }

  lemma TrimSpacesBefore(left: string, s: string)
    requires AllSpaces(left)
    ensures Trim(left + s) == Trim(s)
  {
    SkipSpaces(left, s);
  }

  lemma {:induction false} SkipSpaces(left: string, s: string)
    requires AllSpaces(left)
    ensures TrimLeft(left + s) == TrimLeft(s)
  {
    if left == "" {
      assert left + s == s;
    } else {
      assert (left + s)[1..] == left[1..] + s;
      SkipSpaces(left[1..], s);
    }
  }

  /** Text with no space at either end is trimmed already. */
  lemma TrimTight(s: string)
    requires s != "" && !IsSpace(s[0]) && !IsSpace(s[|s| - 1])
    ensures Trim(s) == s
  {
  }

  /** Trimming takes spaces off the ends and nothing else. */
  lemma {:induction false} TrimLeftSplits(s: string) returns (left: string)
    ensures AllSpaces(left) && s == left + TrimLeft(s)
  {
    if s != "" && IsSpace(s[0]) {
      var rest := TrimLeftSplits(s[1..]);
      assert TrimLeft(s) == TrimLeft(s[1..]);
      hide TrimLeft;
      left := [s[0]] + rest;
      assert s == [s[0]] + s[1..] && left + TrimLeft(s) == [s[0]] + (rest + TrimLeft(s));
    } else {
      left := "";
    }
  }

  lemma {:induction false} TrimRightSplits(s: string) returns (right: string)
    ensures AllSpaces(right) && s == TrimRight(s) + right
  {
    if s != "" && IsSpace(s[|s| - 1]) {
      var front, last := s[..|s| - 1], [s[|s| - 1]];
      var rest := TrimRightSplits(front);
      assert TrimRight(s) == TrimRight(front);
      hide TrimRight;
      right := rest + last;
      assert s == front + last && TrimRight(s) + right == (TrimRight(s) + rest) + last;
    } else {
      right := "";
    }
  }

  lemma TrimSplits(s: string) returns (left: string, right: string)
    ensures AllSpaces(left) && AllSpaces(right) && s == left + Trim(s) + right
  {
    left := TrimLeftSplits(s);
    right := TrimRightSplits(TrimLeft(s));
  }
}
