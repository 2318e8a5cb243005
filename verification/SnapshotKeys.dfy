/**
 The disk snapshot of internal/streaming/servers_stability.go: provider keys
 printed as "id/episode/lang/hentai/provider", parsed back with the file's own
 integer reader, and the save and load of the provider map around them.  Ints
 are 64 bits wide, with wrap-around.
 */
module SnapshotKeys {
  import opened Prelude
  import opened Text
  import opened ServerLists
  import opened Stability

  // ----- integers -----

  /** itoaDefault; -n wraps for the smallest int, whose digits are then never written. */
  function ItoaDefault(n: int): string
    requires IsInt64(n)
  {
    if n == 0 then "0"
    else
      var m := if n < 0 then Wrap64(-n) else n;
      var digits := if m > 0 then Digits(m) else "";
      if n < 0 then "-" + digits else digits
  }

  /** The digit loop of itoaDefault, which prepends. */
  method PrintDigits(m0: int) returns (digits: string)
    ensures digits == if m0 > 0 then Digits(m0) else ""
  {
    digits := "";
    var m := m0;
    while m > 0
      invariant m0 > 0 ==> m >= 0 && (if m == 0 then digits == Digits(m0) else Digits(m) + digits == Digits(m0))
      invariant m0 <= 0 ==> m == m0 && digits == ""
      decreases m
    {
      assert m >= 10 ==> Digits(m) == Digits(m / 10) + [DigitChar(m % 10)];
      digits := [DigitChar(m % 10)] + digits;
      m := m / 10;
    }
  }

  /** What the accumulation loop of atoiDefault computes: the digits' value, wrapped at every step. */
  function WrappedValue(s: string): int
    requires AllDigits(s)
  {
    if s == "" then 0 else Wrap64(WrappedValue(s[..|s| - 1]) * 10 + DigitOf(s[|s| - 1]))
  }

  /** atoiDefault: 0 for anything that is not an optional minus and digits. */
  function AtoiDefault(s: string): int {
    var neg := s != "" && s[0] == '-';
    var digits := if neg then s[1..] else s;
    if !AllDigits(digits) then 0
    else if neg then Wrap64(-WrappedValue(digits)) else WrappedValue(digits)
  }

  lemma WrappedStep(s: string, i: nat)
    requires i < |s| && AllDigits(s[..i])
    ensures IsDigit(s[i]) <==> AllDigits(s[..i + 1])
    ensures !IsDigit(s[i]) ==> !AllDigits(s)
    ensures IsDigit(s[i]) ==> WrappedValue(s[..i + 1]) == Wrap64(WrappedValue(s[..i]) * 10 + DigitOf(s[i]))
  {
    assert s[..i + 1][..i] == s[..i];
    assert forall k | 0 <= k < i :: s[k] == s[..i][k];
  }

  method ReadInt(text: string) returns (n: int)
    ensures n == AtoiDefault(text)
  {
    var neg, s := false, text;
    if s != "" && s[0] == '-' {
      neg := true;
      s := s[1..];
    }
    n := 0;
    for i := 0 to |s|
      invariant AllDigits(s[..i]) && n == WrappedValue(s[..i])
    {
      WrappedStep(s, i);
      hide WrappedValue, Wrap64, DigitOf, IsDigit;
      if !IsDigit(s[i]) {
        return 0;
      }
      n := Wrap64(n * 10 + DigitOf(s[i]));
    }
    assert s[..|s|] == s;
    if neg {
      n := Wrap64(-n);
    }
  }

  lemma {:induction false} NoWrapInRange(s: string)
    requires AllDigits(s) && Value(s) <= MAX_INT64
    ensures WrappedValue(s) == Value(s)
  {
    if s != "" {
      NoWrapInRange(s[..|s| - 1]);
    }
  }

  /** Reading inverts printing for every 64-bit integer except the smallest. */
  lemma AtoiInvertsItoaIff(n: int)
    requires IsInt64(n)
    ensures AtoiDefault(ItoaDefault(n)) == n <==> n != MIN_INT64
  {
    if n == MIN_INT64 {
      WrapOfMinimum();
      assert ItoaDefault(n) == "-";
    } else {
      var m := if n < 0 then -n else n;
      ValueOfDigits(m);
      NoWrapInRange(Digits(m));
      if n < 0 {
        assert ("-" + Digits(m))[1..] == Digits(m);
      } else if n == 0 {
        assert Value("0") == 0;
      }
    }
  }

  lemma WrapOfMinimum()
    ensures Wrap64(-MIN_INT64) == MIN_INT64
  {
  }

  lemma ItoaHasNoSlash(n: int)
    requires IsInt64(n)
    ensures '/' !in ItoaDefault(n)
  {
  }

  // ----- keys -----

  /** stabilityKeyString. */
  function KeyString(k: ProviderKey): string
    requires IsInt64(k.request.animeID) && IsInt64(k.request.episode)
  {
    ItoaDefault(k.request.animeID) + "/" + (ItoaDefault(k.request.episode) + "/" + (k.request.lang + "/" +
    (ItoaDefault(if k.request.hentai then 1 else 0) + "/" + k.provider)))
  }

  /** The pieces between the first n slashes, and the rest. */
  function SplitAt(s: string, n: nat): (parts: seq<string>)
    ensures 1 <= |parts| <= n + 1
    decreases n
  {
    if n == 0 || After(s, '/').None? then [s] else [Before(s, '/')] + SplitAt(After(s, '/').value, n - 1)
  }

  /** splitStabilityKey: at most five pieces, so the provider may contain slashes. */
  method SplitStabilityKey(k: string) returns (out: seq<string>)
    ensures out == SplitAt(k, 4)
  {
    hide SplitAt;
    out := [];
    var start, i := 0, 0;
    assert k[0..] == k;
    while i < |k| && |out| < 4
      invariant 0 <= start <= i <= |k| && |out| <= 4
      invariant '/' !in k[start..i]
      invariant out + SplitAt(k[start..], 4 - |out|) == SplitAt(k, 4)
    {
      if k[i] == '/' {
        SplitStep(k, start, i, out);
        out := out + [k[start..i]];
        start := i + 1;
      } else {
        assert k[start..i + 1] == k[start..i] + [k[i]];
      }
      i := i + 1;
    }
    assert i == |k| ==> k[start..i] == k[start..];
    SplitRest(k[start..], 4 - |out|);
    out := out + [k[start..]];
  }

  lemma SplitStep(k: string, start: nat, i: nat, out: seq<string>)
    requires start <= i < |k| && k[i] == '/' && '/' !in k[start..i] && |out| < 4
    ensures out + SplitAt(k[start..], 4 - |out|) == (out + [k[start..i]]) + SplitAt(k[i + 1..], 3 - |out|)
  {
    hide Before, After;
    CutAt(k, start, i);
  }

  lemma SplitRest(s: string, n: nat)
    requires n == 0 || '/' !in s
    ensures SplitAt(s, n) == [s]
  {
  }

  lemma CutAt(k: string, start: nat, i: nat)
    requires start <= i < |k| && k[i] == '/' && '/' !in k[start..i]
    ensures Before(k[start..], '/') == k[start..i] && After(k[start..], '/') == Some(k[i + 1..])
  {
    assert k[start..] == k[start..i] + "/" + k[i + 1..];
    BeforeOf(k[start..i], '/', k[i + 1..]);
  }

  lemma SplitConcat(a: string, b: string, n: nat)
    requires '/' !in a && n > 0
    ensures SplitAt(a + "/" + b, n) == [a] + SplitAt(b, n - 1)
  {
    BeforeOf(a, '/', b);
  }

  lemma FivePieces(a: string, b: string, c: string, d: string, e: string)
    requires '/' !in a && '/' !in b && '/' !in c && '/' !in d
    ensures SplitAt(a + "/" + (b + "/" + (c + "/" + (d + "/" + e))), 4) == [a, b, c, d, e]
  {
    hide SplitAt;
    var s1 := d + "/" + e;
    SplitConcat(d, e, 1);
    SplitRest(e, 0);
    assert SplitAt(s1, 1) == [d, e];
    var s2 := c + "/" + s1;
    SplitConcat(c, s1, 2);
    assert SplitAt(s2, 2) == [c, d, e];
    var s3 := b + "/" + s2;
    SplitConcat(b, s2, 3);
    assert SplitAt(s3, 3) == [b, c, d, e];
    SplitConcat(a, s3, 4);
  }

  /** The pieces of a printed key, as long as the language has no slash. */
  lemma SplitOfKey(k: ProviderKey)
    requires IsInt64(k.request.animeID) && IsInt64(k.request.episode) && '/' !in k.request.lang
    ensures SplitAt(KeyString(k), 4) ==
            [ItoaDefault(k.request.animeID), ItoaDefault(k.request.episode), k.request.lang,
             ItoaDefault(if k.request.hentai then 1 else 0), k.provider]
  {
    hide ItoaDefault, SplitAt;
    var a, e, h := ItoaDefault(k.request.animeID), ItoaDefault(k.request.episode), ItoaDefault(if k.request.hentai then 1 else 0);
    ItoaHasNoSlash(k.request.animeID);
    ItoaHasNoSlash(k.request.episode);
    ItoaHasNoSlash(if k.request.hentai then 1 else 0);
    FivePieces(a, e, k.request.lang, h, k.provider);
  }

  /** The key a snapshot string stands for when it has five pieces. */
  function ParsedKey(s: string): Option<ProviderKey> {
    var parts := SplitAt(s, 4);
    if |parts| != 5 then None
    else Some(ProviderKey(RequestKey(AtoiDefault(parts[0]), AtoiDefault(parts[1]), parts[2], parts[3] == "1"), parts[4]))
  }

  predicate Plain(k: ProviderKey) {
    && IsInt64(k.request.animeID) && k.request.animeID != MIN_INT64
    && IsInt64(k.request.episode) && k.request.episode != MIN_INT64
    && '/' !in k.request.lang
  }

  /** Parsing inverts printing exactly for keys whose numbers print and whose language has no slash. */
  lemma KeyRoundTripIff(k: ProviderKey)
    requires IsInt64(k.request.animeID) && IsInt64(k.request.episode)
    ensures ParsedKey(KeyString(k)) == Some(k) <==> Plain(k)
  {
    if '/' in k.request.lang {
      ParsedLangHasNoSlash(KeyString(k));
    } else {
      SplitOfKey(k);
      AtoiInvertsItoaIff(k.request.animeID);
      AtoiInvertsItoaIff(k.request.episode);
      hide SplitAt, KeyString, AtoiDefault;
      assert ItoaDefault(1) == "1" && ItoaDefault(0) == "0" by {
        assert Digits(1) == "1";
      }
    }
  }

  lemma ParsedLangHasNoSlash(s: string)
    ensures ParsedKey(s).Some? ==> '/' !in ParsedKey(s).value.request.lang
  {
    hide AtoiDefault;
    if After(s, '/').Some? {
      var s1 := After(s, '/').value;
      if After(s1, '/').Some? {
        var s2 := After(s1, '/').value;
        assert SplitAt(s, 4) == [Before(s, '/')] + SplitAt(s1, 3);
        assert SplitAt(s1, 3) == [Before(s1, '/')] + SplitAt(s2, 2);
      }
    }
  }

  /** With a slash in the language two different keys print alike, so one of them is lost. */
  lemma SlashMergesKeys()
    ensures
      var k1, k2 := ProviderKey(RequestKey(1, 1, "a", false), "0/p"), ProviderKey(RequestKey(1, 1, "a/0", false), "p");
      k1 != k2 && KeyString(k1) == KeyString(k2)
  {
  }

  // ----- save and load -----

  predicate TokenBased(provider: string) {
    provider == "anv" || provider == "animex"
  }

  /** What one saved entry holds; the JSON encoding keeps it. */
  datatype Entry = Entry(servers: seq<Server>, storedAt: int)

  predicate AllPlain(p: Providers) {
    forall k | k in p :: Plain(k)
  }

  predicate AllInts(p: Providers) {
    forall k | k in p :: IsInt64(k.request.animeID) && IsInt64(k.request.episode)
  }

  /** Entry s of a file is the one key k is saved under. */
  predicate SavedAs(p: Providers, k: ProviderKey, file: map<string, Entry>, s: string)
    requires AllInts(p)
  {
    k in p && !TokenBased(k.provider) && s in file && s == KeyString(k) && file[s] == Entry(p[k].servers, p[k].storedAt)
  }

  /** Every provider that is not token-based has an entry under its string, and every entry is some such provider's. */
  ghost predicate Saved(p: Providers, file: map<string, Entry>)
    requires AllInts(p)
  {
    && (forall k | k in p && !TokenBased(k.provider) :: KeyString(k) in file)
    && (forall s | s in file :: exists k :: SavedAs(p, k, file, s))
  }

  lemma KeyStringsDiffer(k1: ProviderKey, k2: ProviderKey)
    requires Plain(k1) && Plain(k2) && KeyString(k1) == KeyString(k2)
    ensures k1 == k2
  {
    KeyRoundTripIff(k1);
    KeyRoundTripIff(k2);
  }

  /** saveProvidersSnapshot, for any order of the map. */
  method Save(p: Providers) returns (file: map<string, Entry>)
    requires AllInts(p)
    ensures Saved(p, file)
  {
    hide KeyString;
    file := map[];
    var todo := p.Keys;
    while todo != {}
      invariant todo <= p.Keys
      invariant forall k | k in p && k !in todo && !TokenBased(k.provider) :: KeyString(k) in file
      invariant forall s | s in file :: exists k :: SavedAs(p, k, file, s)
    {
      var k :| k in todo;
      todo := todo - {k};
      if TokenBased(k.provider) {
        continue;
      }
      ghost var before := file;
      file := file[KeyString(k) := Entry(p[k].servers, p[k].storedAt)];
      forall s | s in file
        ensures exists j :: SavedAs(p, j, file, s)
      {
        if s == KeyString(k) {
          assert SavedAs(p, k, file, s);
        } else {
          var j :| SavedAs(p, j, before, s);
          assert SavedAs(p, j, file, s);
        }
      }
    }
  }

  /** Whether loadProvidersSnapshot takes an entry at time now. */
  predicate Restorable(k: ProviderKey, storedAt: int, now: int) {
    !TokenBased(k.provider) && now - storedAt < ProviderSnapshotTTL(k.provider)
  }

  /** The file's entry s puts snapshot v under key k. */
  predicate Restores(file: map<string, Entry>, s: string, now: int, k: ProviderKey, v: Snapshot) {
    s in file && ParsedKey(s) == Some(k) && Restorable(k, file[s].storedAt, now) &&
    v == Snapshot(file[s].servers, file[s].storedAt, None)
  }

  /** What loadProvidersSnapshot may leave in an empty cache: every restorable key, with one of its entries' snapshots. */
  ghost predicate Loaded(file: map<string, Entry>, now: int, p: Providers) {
    && (forall k | k in p :: exists s :: Restores(file, s, now, k, p[k]))
    && (forall s | s in file && ParsedKey(s).Some? && Restorable(ParsedKey(s).value, file[s].storedAt, now) ::
          ParsedKey(s).value in p)
  }

  /** loadProvidersSnapshot into an empty cache, for any order of the file's entries. */
  method Load(file: map<string, Entry>, now: int) returns (p: Providers)
    ensures Loaded(file, now, p)
  {
    hide ParsedKey;
    p := map[];
    var todo := file.Keys;
    while todo != {}
      invariant todo <= file.Keys
      invariant forall k | k in p :: exists s :: Restores(file, s, now, k, p[k])
      invariant forall s | s in file && s !in todo && ParsedKey(s).Some? && Restorable(ParsedKey(s).value, file[s].storedAt, now) ::
        ParsedKey(s).value in p
    {
      var s :| s in todo;
      todo := todo - {s};
      var key := ParsedKey(s);
      if key.None? || !Restorable(key.value, file[s].storedAt, now) {
        continue;
      }
      assert Restores(file, s, now, key.value, Snapshot(file[s].servers, file[s].storedAt, None));
      p := p[key.value := Snapshot(file[s].servers, file[s].storedAt, None)];
    }
  }

  /** Whatever was saved, only plain keys come back: the numbers in front were printed, and no piece has a slash. */
  lemma ParsedIsPlain(k: ProviderKey)
    requires IsInt64(k.request.animeID) && IsInt64(k.request.episode)
    ensures ParsedKey(KeyString(k)).Some? ==> Plain(ParsedKey(KeyString(k)).value)
  {
    var a, e := ItoaDefault(k.request.animeID), ItoaDefault(k.request.episode);
    ItoaHasNoSlash(k.request.animeID);
    ItoaHasNoSlash(k.request.episode);
    AtoiOfItoa(k.request.animeID);
    AtoiOfItoa(k.request.episode);
    ParsedLangHasNoSlash(KeyString(k));
    hide ItoaDefault, AtoiDefault, SplitAt;
    TwoPieces(a, e, k.request.lang + "/" + (ItoaDefault(if k.request.hentai then 1 else 0) + "/" + k.provider));
  }

  lemma TwoPieces(a: string, b: string, rest: string)
    requires '/' !in a && '/' !in b
    ensures
      var parts := SplitAt(a + "/" + (b + "/" + rest), 4);
      |parts| >= 2 && parts[0] == a && parts[1] == b
  {
    hide SplitAt;
    SplitConcat(a, b + "/" + rest, 4);
    SplitConcat(b, rest, 3);
  }

  lemma AtoiOfItoa(n: int)
    requires IsInt64(n)
    ensures IsInt64(AtoiDefault(ItoaDefault(n))) && AtoiDefault(ItoaDefault(n)) != MIN_INT64
  {
    AtoiInvertsItoaIff(n);
    if n == MIN_INT64 {
      WrapOfMinimum();
      assert ItoaDefault(n) == "-" && "-"[1..] == "";
    }
  }

  /** The snapshots a restart should bring back: those of durable providers that are less than two hours old. */
  function Expected(p: Providers, now: int): Providers {
    map k | k in p && k.provider != "anv" && k.provider != "animex" && now - p[k].storedAt < 7200 * SECOND :: p[k]
  }

  /**
   The condition for a faithful restart, said of the keys alone: every snapshot
   that should come back has a key without a slash in its lang (and numbers that
   print), and no other saved key prints to the same string.
   */
  predicate KeysFaithful(p: Providers, now: int)
    requires AllInts(p)
  {
    forall k | k in p && Restorable(k, p[k].storedAt, now) ::
      Plain(k) && forall j | j in p && !TokenBased(j.provider) && KeyString(j) == KeyString(k) :: j == k
  }

  /** A restart through the file: whatever order the maps are read in. */
  ghost predicate Restarts(p: Providers, now: int, restored: Providers)
    requires AllInts(p)
  {
    exists file :: Saved(p, file) && Loaded(file, now, restored)
  }

  /** The same lifetime holds for every provider, so an entry's own key decides whether it is too old. */
  lemma SameLifetime(k1: ProviderKey, k2: ProviderKey)
    ensures ProviderSnapshotTTL(k1.provider) == ProviderSnapshotTTL(k2.provider)
  {
  }

  /** Where a restored snapshot comes from: a saved key that was itself restorable. */
  lemma RestoredFrom(p: Providers, file: map<string, Entry>, now: int, k: ProviderKey, v: Snapshot, s: string) returns (j: ProviderKey)
    requires AllInts(p) && Saved(p, file) && Restores(file, s, now, k, v)
    ensures SavedAs(p, j, file, s) && Restorable(j, p[j].storedAt, now) && ParsedKey(KeyString(j)) == Some(k)
    ensures v == Snapshot(p[j].servers, p[j].storedAt, None)
  {
    hide ParsedKey, KeyString;
    j :| SavedAs(p, j, file, s);
    SameLifetime(j, k);
  }

  lemma RestorableIsExpected(p: Providers, now: int, k: ProviderKey)
    requires k in p
    ensures k in Expected(p, now) <==> Restorable(k, p[k].storedAt, now)
  {
  }

  lemma FaithfulRestart(p: Providers, file: map<string, Entry>, now: int, restored: Providers)
    requires AllInts(p) && forall k | k in p :: p[k].expires.None?
    requires KeysFaithful(p, now) && Saved(p, file) && Loaded(file, now, restored)
    ensures restored == Expected(p, now)
  {
    hide KeyString, ParsedKey, Plain, Restorable;
    forall k | k in restored
      ensures k in Expected(p, now) && restored[k] == p[k]
    {
      var s :| Restores(file, s, now, k, restored[k]);
      var j := RestoredFrom(p, file, now, k, restored[k], s);
      KeyRoundTripIff(j);
      RestorableIsExpected(p, now, k);
    }
    forall k | k in Expected(p, now)
      ensures k in restored
    {
      RestorableIsExpected(p, now, k);
      ExpectedIsRestored(p, file, now, restored, k);
    }
  }

  lemma ExpectedIsRestored(p: Providers, file: map<string, Entry>, now: int, restored: Providers, k: ProviderKey)
    requires AllInts(p) && KeysFaithful(p, now) && Saved(p, file) && Loaded(file, now, restored)
    requires k in p && Restorable(k, p[k].storedAt, now)
    ensures k in restored
  {
    hide KeyString, ParsedKey, Plain;
    var s := KeyString(k);
    assert s in file;
    var j :| SavedAs(p, j, file, s);
    KeyRoundTripIff(k);
  }

  // ----- some file, some restored map -----

  lemma {:induction false} SomeSave(p: Providers) returns (file: map<string, Entry>)
    requires AllInts(p)
    ensures Saved(p, file)
    decreases p.Keys
  {
    hide KeyString, TokenBased, Saved;
    if k :| k in p {
      assert (p - {k}).Keys == p.Keys - {k};
      file := SomeSave(p - {k});
      OneMoreSaved(p, k, file);
      file := WithKey(p, k, file);
    } else {
      file := map[];
      NothingSaved(p);
    }
  }

  lemma NothingSaved(p: Providers)
    requires p.Keys == {}
    ensures Saved(p, map[])
  {
  }

  /** The file after key k has been written, too. */
  function WithKey(p: Providers, k: ProviderKey, before: map<string, Entry>): map<string, Entry>
    requires AllInts(p) && k in p
  {
    if TokenBased(k.provider) then before else before[KeyString(k) := Entry(p[k].servers, p[k].storedAt)]
  }

  lemma OneMoreSaved(p: Providers, k: ProviderKey, before: map<string, Entry>)
    requires AllInts(p) && k in p && Saved(p - {k}, before)
    ensures Saved(p, WithKey(p, k, before))
  {
    hide KeyString, TokenBased;
    var file := WithKey(p, k, before);
    forall s | s in file
      ensures exists j :: SavedAs(p, j, file, s)
    {
      if !TokenBased(k.provider) && s == KeyString(k) {
        assert SavedAs(p, k, file, s);
      } else {
        var j :| SavedAs(p - {k}, j, before, s);
        assert SavedAs(p, j, file, s);
      }
    }
    forall j | j in p && !TokenBased(j.provider)
      ensures KeyString(j) in file
    {
      assert j != k ==> j in p - {k};
    }
  }

  lemma {:induction false} SomeLoad(file: map<string, Entry>, now: int) returns (p: Providers)
    ensures Loaded(file, now, p)
    decreases file.Keys
  {
    hide ParsedKey, Restorable;
    if file == map[] {
      p := map[];
    } else {
      var s :| s in file;
      var rest := file - {s};
      assert rest.Keys == file.Keys - {s};
      var before := SomeLoad(rest, now);
      var key := ParsedKey(s);
      p := if key.Some? && Restorable(key.value, file[s].storedAt, now)
      then before[key.value := Snapshot(file[s].servers, file[s].storedAt, None)] else before;
      OneMoreLoaded(file, now, s, before, p);
    }
  }

  lemma OneMoreLoaded(file: map<string, Entry>, now: int, s: string, before: Providers, p: Providers)
    requires s in file && Loaded(file - {s}, now, before)
    requires
      var key := ParsedKey(s);
      p == if key.Some? && Restorable(key.value, file[s].storedAt, now)
      then before[key.value := Snapshot(file[s].servers, file[s].storedAt, None)] else before
    ensures Loaded(file, now, p)
  {
    hide ParsedKey, Restorable;
    forall k | k in p
      ensures exists t :: Restores(file, t, now, k, p[k])
    {
      if ParsedKey(s) == Some(k) && Restorable(k, file[s].storedAt, now) {
        assert Restores(file, s, now, k, p[k]);
      } else {
        var t :| Restores(file - {s}, t, now, k, before[k]);
        assert Restores(file, t, now, k, p[k]);
      }
    }
    forall t | t in file && ParsedKey(t).Some? && Restorable(ParsedKey(t).value, file[t].storedAt, now)
      ensures ParsedKey(t).value in p
    {
      assert t != s ==> t in file - {s};
    }
  }

  // ----- what unfaithful keys cost -----

  /** A key that does not print plainly never comes back. */
  lemma UnplainIsLost(p: Providers, file: map<string, Entry>, now: int, restored: Providers, k: ProviderKey)
    requires AllInts(p) && Saved(p, file) && Loaded(file, now, restored) && !Plain(k)
    ensures k !in restored
  {
    hide KeyString, ParsedKey, Plain, Saved;
    if k in restored {
      var s :| Restores(file, s, now, k, restored[k]);
      var j := RestoredFrom(p, file, now, k, restored[k], s);
      ParsedIsPlain(j);
    }
  }

  /** A plain key does not come back when the file holds, under its string, the entry of a key too old to come back. */
  lemma CollisionLosesKey(p: Providers, file: map<string, Entry>, now: int, restored: Providers, k: ProviderKey, j: ProviderKey)
    requires AllInts(p) && Saved(p, file) && Loaded(file, now, restored)
    requires forall i | i in p && Restorable(i, p[i].storedAt, now) :: Plain(i)
    requires k in p && j in p && Restorable(k, p[k].storedAt, now) && !TokenBased(j.provider) && !Restorable(j, p[j].storedAt, now)
    requires KeyString(j) == KeyString(k) && KeyString(j) in file && file[KeyString(j)] == Entry(p[j].servers, p[j].storedAt)
    ensures k !in restored
  {
    hide KeyString, ParsedKey, Plain, Saved;
    if k in restored {
      var s :| Restores(file, s, now, k, restored[k]);
      var i := RestoredFrom(p, file, now, k, restored[k], s);
      KeyRoundTripIff(i);
      SameLifetime(j, k);
    }
  }

  /** Without faithful keys, some restart loses a snapshot that should come back. */
  lemma UnfaithfulRestart(p: Providers, now: int) returns (restored: Providers)
    requires AllInts(p) && !KeysFaithful(p, now)
    ensures Restarts(p, now, restored) && restored != Expected(p, now)
  {
    hide KeyString, ParsedKey, Plain, Saved, Loaded, TokenBased;
    if i :| i in p && Restorable(i, p[i].storedAt, now) && !Plain(i) {
      var file := SomeSave(p);
      restored := SomeLoad(file, now);
      UnplainIsLost(p, file, now, restored, i);
      RestorableIsExpected(p, now, i);
    } else {
      var k, j := Collision(p, now);
      assert (p - {j}).Keys == p.Keys - {j};
      var before := SomeSave(p - {j});
      var file := WithKey(p, j, before);
      OneMoreSaved(p, j, before);
      restored := SomeLoad(file, now);
      CollisionLosesKey(p, file, now, restored, k, j);
      RestorableIsExpected(p, now, k);
    }
  }

  lemma Collision(p: Providers, now: int) returns (k: ProviderKey, j: ProviderKey)
    requires AllInts(p) && !KeysFaithful(p, now)
    requires forall i | i in p && Restorable(i, p[i].storedAt, now) :: Plain(i)
    ensures k in p && j in p && Restorable(k, p[k].storedAt, now) && !TokenBased(j.provider) && !Restorable(j, p[j].storedAt, now)
    ensures KeyString(j) == KeyString(k)
  {
    hide KeyString, Plain;
    k, j :| k in p && j in p && Restorable(k, p[k].storedAt, now) && !TokenBased(j.provider) && KeyString(j) == KeyString(k) && j != k;
    if Restorable(j, p[j].storedAt, now) {
      KeyStringsDiffer(j, k);
    }
  }

  /**
   The exact condition: a restart restores exactly the snapshots of durable
   providers that are younger than their last-good time, each under its own
   key, whatever order the maps are read in, if and only if the keys are faithful.
   */
  lemma RestartFaithfulIff(p: Providers, now: int)
    requires AllInts(p) && forall k | k in p :: p[k].expires.None?
    ensures (forall restored | Restarts(p, now, restored) :: restored == Expected(p, now)) <==> KeysFaithful(p, now)
  {
    hide KeysFaithful, Saved, Loaded, AllInts;
    if KeysFaithful(p, now) {
      forall restored | Restarts(p, now, restored)
        ensures restored == Expected(p, now)
      {
        var file :| Saved(p, file) && Loaded(file, now, restored);
        FaithfulRestart(p, file, now, restored);
      }
    } else {
      var restored := UnfaithfulRestart(p, now);
    }
  }

  lemma PlainKeysAreFaithful(p: Providers, now: int)
    requires AllInts(p) && AllPlain(p)
    ensures KeysFaithful(p, now)
  {
    hide KeyString, Plain;
    forall k, j | k in p && j in p && KeyString(j) == KeyString(k)
      ensures j == k
    {
      KeyStringsDiffer(j, k);
    }
  }

  /** A restart: its outcome is one of those above, and all is restored when every key is plain. */
  method SaveThenLoad(p: Providers, now: int) returns (restored: Providers)
    requires AllInts(p) && forall k | k in p :: p[k].expires.None?
    ensures Restarts(p, now, restored)
    ensures KeysFaithful(p, now) ==> restored == Expected(p, now)
    ensures AllPlain(p) ==> restored == Expected(p, now)
    ensures restored == Expected(p, now) ==> forall k | k in p && Restorable(k, p[k].storedAt, now) :: Plain(k)
  {
    hide KeyString, ParsedKey, Plain, Saved, Loaded, KeysFaithful, AllPlain, AllInts;
    var file := Save(p);
    restored := Load(file, now);
    if AllPlain(p) {
      PlainKeysAreFaithful(p, now);
    }
    if KeysFaithful(p, now) {
      FaithfulRestart(p, file, now, restored);
    }
    forall k | k in p && Restorable(k, p[k].storedAt, now) && !Plain(k)
      ensures restored != Expected(p, now)
    {
      UnplainIsLost(p, file, now, restored, k);
      assert k in Expected(p, now);
    }
  }

  // ----- the cache after a restart -----

  /** A set whose elements a function finds from those of another is no larger. */
  lemma {:induction false} CoveredSize<A, B>(image: set<B>, source: set<A>, f: A -> Option<B>)
    requires forall y | y in image :: exists x :: x in source && f(x) == Some(y)
    ensures |image| <= |source|
    decreases image
  {
    if y :| y in image {
      var x :| x in source && f(x) == Some(y);
      forall z | z in image - {y}
        ensures exists w :: w in source - {x} && f(w) == Some(z)
      {
        var w :| w in source && f(w) == Some(z);
        assert w in source - {x};
      }
      CoveredSize(image - {y}, source - {x}, f);
    }
  }

  /** KeyString where the numbers are int64s, which they are for every key of a program. */
  function StringOrNone(k: ProviderKey): Option<string> {
    if IsInt64(k.request.animeID) && IsInt64(k.request.episode) then Some(KeyString(k)) else None
  }

  lemma FileSize(p: Providers, file: map<string, Entry>)
    requires AllInts(p) && Saved(p, file)
    ensures |file| <= |p|
  {
    hide KeyString, TokenBased;
    forall s | s in file.Keys
      ensures exists k :: k in p.Keys && StringOrNone(k) == Some(s)
    {
      var k :| SavedAs(p, k, file, s);
      assert k in p.Keys && StringOrNone(k) == Some(s);
    }
    CoveredSize(file.Keys, p.Keys, StringOrNone);
    assert |file| == |file.Keys| && |p| == |p.Keys|;
  }

  lemma LoadedSize(file: map<string, Entry>, now: int, restored: Providers)
    requires Loaded(file, now, restored)
    ensures |restored| <= |file|
  {
    hide ParsedKey, Restorable;
    forall k | k in restored.Keys
      ensures exists s :: s in file.Keys && ParsedKey(s) == Some(k)
    {
      var s :| Restores(file, s, now, k, restored[k]);
      assert s in file.Keys && ParsedKey(s) == Some(k);
    }
    CoveredSize(restored.Keys, file.Keys, ParsedKey);
    assert |file| == |file.Keys| && |restored| == |restored.Keys|;
  }

  /** A restart brings back no more snapshots than were saved. */
  lemma RestartKeepsSize(p: Providers, now: int, restored: Providers)
    requires AllInts(p) && Restarts(p, now, restored)
    ensures |restored| <= |p|
  {
    hide Saved, Loaded;
    var file :| Saved(p, file) && Loaded(file, now, restored);
    FileSize(p, file);
    LoadedSize(file, now, restored);
  }

  /** So the bound of 2048 entries holds over restarts, too: a run from a restored cache stays within it. */
  lemma RestartedRunStaysBounded(p: Providers, now: int, states: seq<Providers>, rounds: seq<Round>)
    requires AllInts(p) && |p| <= MAX_PROVIDER_SNAPSHOTS
    requires Run(states, rounds) && Restarts(p, now, states[0])
    ensures |states[|rounds|]| <= MAX_PROVIDER_SNAPSHOTS
  {
    hide Restarts;
    RestartKeepsSize(p, now, states[0]);
    ProvidersStayBounded(states, rounds);
  }

  lemma {:induction false} UnproductiveSince(start: Providers, rounds: seq<Round>, k: ProviderKey)
    requires forall r | r in rounds :: !Productive(r, k)
    ensures LastGood(start, rounds, k) == if k in start then Some(start[k]) else None
    decreases |rounds|
  {
    if rounds != [] {
      assert rounds[|rounds| - 1] in rounds;
      UnproductiveSince(start, rounds[..|rounds| - 1], k);
    }
  }

  /**
   What the snapshot is for.  After a restart with faithful keys, a provider
   that has not answered since is still listed: while its snapshot is not
   evicted, an empty round brings back the list saved before the restart, exactly
   until the last-good time of the last answer has passed.
   */
  lemma LastGoodSurvivesRestart(p: Providers, now: int, states: seq<Providers>, rounds: seq<Round>, r: Round, p': Providers)
    requires AllInts(p) && (forall k | k in p :: p[k].expires.None?) && KeysFaithful(p, now)
    requires Run(states, rounds) && Restarts(p, now, states[0])
    requires r.key in p && Restorable(r.key, p[r.key].storedAt, now) && forall q | q in rounds :: !Productive(q, r.key)
    requires r.found == [] && r.allowFallback && r.key in states[|rounds|]
    requires Stabilizes(states[|rounds|], r.key, r.found, r.allowFallback, r.now, p', r.servers, r.reused)
    ensures r.reused <==> r.now - p[r.key].storedAt <= 7200 * SECOND
    ensures r.servers == if r.reused then p[r.key].servers else []
  {
    var file :| Saved(p, file) && Loaded(file, now, states[0]);
    hide Saved, Loaded, KeysFaithful, Stabilizes, AllInts;
    FaithfulRestart(p, file, now, states[0]);
    UnproductiveSince(states[0], rounds, r.key);
    EmptyRoundReturnsLastGood(states, rounds, r, p');
  }
}
