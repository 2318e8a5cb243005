/**
 The AnimeX proxy URL codec of internal/streaming/animex.go: NUL-joined parts,
 XOR with a repeating key, base64url without padding (RFC 4648, sections 3.2
 and 5), behind a fixed URL prefix.  Go strings are byte strings.
 */
module ProxyCodec {
  import opened Prelude

  type Bytes = seq<bv8>

  // ----- base64 -----

  /** Which 62nd and 63rd characters: RFC 4648 section 4 or section 5. */
  datatype Alphabet = Std | Url

  /** The character of a six-bit value. */
  function Symbol(a: Alphabet, x: bv8): bv8 {
    if x < 26 then x + 65
    else if x < 52 then x + 71
    else if x < 62 then x - 4
    else if x == 62 then (if a.Std? then 43 else 45)
    else if a.Std? then 47 else 95
  }

  /** The six-bit value of a character, or 255. */
  function SymbolValue(a: Alphabet, c: bv8): bv8 {
    if 65 <= c <= 90 then c - 65
    else if 97 <= c <= 122 then c - 71
    else if 48 <= c <= 57 then c + 4
    else if c == (if a.Std? then 43 else 45) then 62
    else if c == (if a.Std? then 47 else 95) then 63
    else 255
  }

  /** The two alphabets, written out. */
  lemma SymbolsSpelled(a: Alphabet, x: bv8)
    requires x < 64
    ensures
      var n := x as int;
      Symbol(a, x) as int ==
        if n < 26 then 'A' as int + n
        else if n < 52 then 'a' as int + n - 26
        else if n < 62 then '0' as int + n - 52
        else if n == 62 then (if a.Std? then '+' else '-') as int
        else (if a.Std? then '/' else '_') as int
  {
  }

  lemma SymbolRoundTrip(a: Alphabet, x: bv8)
    requires x < 64
    ensures SymbolValue(a, Symbol(a, x)) == x
  {
  }

  /** Symbols are none of '/' (in the URL alphabet), CR and LF. */
  lemma SymbolIsPlain(x: bv8)
    requires x < 64
    ensures Symbol(Url, x) != 47 && Symbol(Url, x) != 10 && Symbol(Url, x) != 13
  {
  }

  function First(b0: bv8): bv8 { b0 >> 2 }
  function Second(b0: bv8, b1: bv8): bv8 { ((b0 & 3) << 4) | (b1 >> 4) }
  function Third(b1: bv8, b2: bv8): bv8 { ((b1 & 15) << 2) | (b2 >> 6) }
  function Fourth(b2: bv8): bv8 { b2 & 63 }

  function Byte0(s0: bv8, s1: bv8): bv8 { (s0 << 2) | (s1 >> 4) }
  function Byte1(s1: bv8, s2: bv8): bv8 { (s1 << 4) | (s2 >> 2) }
  function Byte2(s2: bv8, s3: bv8): bv8 { (s2 << 6) | s3 }

  lemma SextetsRoundTrip(b0: bv8, b1: bv8, b2: bv8)
    ensures First(b0) < 64 && Second(b0, b1) < 64 && Third(b1, b2) < 64 && Fourth(b2) < 64
    ensures Byte0(First(b0), Second(b0, b1)) == b0
    ensures Byte1(Second(b0, b1), Third(b1, b2)) == b1
    ensures Byte2(Third(b1, b2), Fourth(b2)) == b2
  {
  }

  /** Four six-bit values are the bits of three bytes, the first bits first. */
  lemma SextetsSpellBytes(b0: bv8, b1: bv8, b2: bv8)
    ensures
      (First(b0) as bv24 << 18) | (Second(b0, b1) as bv24 << 12) | (Third(b1, b2) as bv24 << 6) | Fourth(b2) as bv24 ==
      (b0 as bv24 << 16) | (b1 as bv24 << 8) | b2 as bv24
  {
  }

  /** The six-bit values of a byte string, zero bits filling the last one. */
  function Sextets(s: Bytes): Bytes {
    if |s| == 0 then []
    else if |s| == 1 then [First(s[0]), Second(s[0], 0)]
    else if |s| == 2 then [First(s[0]), Second(s[0], s[1]), Third(s[1], 0)]
    else [First(s[0]), Second(s[0], s[1]), Third(s[1], s[2]), Fourth(s[2])] + Sextets(s[3..])
  }

  function Symbols(a: Alphabet, v: Bytes): Bytes {
    if v == [] then [] else [Symbol(a, v[0])] + Symbols(a, v[1..])
  }

  /** EncodeToString without padding. */
  function Encode(a: Alphabet, s: Bytes): Bytes {
    Symbols(a, Sextets(s))
  }

  /** The six-bit values of a text, or None at a foreign character. */
  function Values(a: Alphabet, text: Bytes): Option<Bytes> {
    if text == [] then Some([])
    else
      var rest := Values(a, text[1..]);
      if SymbolValue(a, text[0]) == 255 || rest.None? then None else Some([SymbolValue(a, text[0])] + rest.value)
  }

  /** The bytes of a run of sextets; left-over bits are not checked, a lone sextet is an error. */
  function Join(v: Bytes): Option<Bytes> {
    if |v| == 0 then Some([])
    else if |v| == 1 then None
    else if |v| == 2 then Some([Byte0(v[0], v[1])])
    else if |v| == 3 then Some([Byte0(v[0], v[1]), Byte1(v[1], v[2])])
    else
      var rest := Join(v[4..]);
      if rest.None? then None else Some([Byte0(v[0], v[1]), Byte1(v[1], v[2]), Byte2(v[2], v[3])] + rest.value)
  }

  /** Go's decoders skip CR and LF wherever they stand. */
  function WithoutNewlines(text: Bytes): Bytes {
    if text == [] then []
    else (if text[0] == 10 || text[0] == 13 then [] else [text[0]]) + WithoutNewlines(text[1..])
  }

  function DecodePlain(a: Alphabet, text: Bytes): Option<Bytes> {
    var v := Values(a, text);
    if v.None? then None else Join(v.value)
  }

  /** RawURLEncoding.DecodeString. */
  function DecodeRawUrl(text: Bytes): Option<Bytes> {
    DecodePlain(Url, WithoutNewlines(text))
  }

  /** StdEncoding.DecodeString: whole quantums, the last one padded with '='. */
  function DecodeStd(text: Bytes): Option<Bytes> {
    var t := WithoutNewlines(text);
    var n := |t|;
    if n % 4 != 0 then None
    else if n > 0 && t[n - 2] == 61 && t[n - 1] == 61 then DecodePlain(Std, t[..n - 2])
    else if n > 0 && t[n - 1] == 61 then DecodePlain(Std, t[..n - 1])
    else DecodePlain(Std, t)
  }

  predicate AllSextets(v: Bytes) {
    forall i | 0 <= i < |v| :: v[i] < 64
  }

  lemma {:induction false} ValuesOfSymbols(a: Alphabet, v: Bytes)
    requires AllSextets(v)
    ensures Values(a, Symbols(a, v)) == Some(v)
  {
    if v != [] {
      SymbolRoundTrip(a, v[0]);
      ValuesOfSymbols(a, v[1..]);
      assert Symbols(a, v)[1..] == Symbols(a, v[1..]);
      assert v == [v[0]] + v[1..];
    }
  }

  lemma {:induction false} JoinOfSextets(s: Bytes)
    ensures AllSextets(Sextets(s))
    ensures Join(Sextets(s)) == Some(s)
    decreases |s|
  {
    if |s| > 0 {
      var b1, b2 := if |s| > 1 then s[1] else 0, if |s| > 2 then s[2] else 0;
      SextetsRoundTrip(s[0], b1, b2);
      hide First, Second, Third, Fourth, Byte0, Byte1, Byte2;
      if |s| == 1 {
        assert s == [s[0]];
      } else if |s| == 2 {
        assert s == [s[0], s[1]];
      } else {
        JoinOfSextets(s[3..]);
        assert Sextets(s)[4..] == Sextets(s[3..]);
        assert s == [s[0], s[1], s[2]] + s[3..];
      }
    }
  }

  lemma {:induction false} SymbolsArePlain(v: Bytes)
    requires AllSextets(v)
    ensures 47 !in Symbols(Url, v) && WithoutNewlines(Symbols(Url, v)) == Symbols(Url, v)
  {
    if v != [] {
      SymbolIsPlain(v[0]);
      SymbolsArePlain(v[1..]);
      assert Symbols(Url, v)[1..] == Symbols(Url, v[1..]);
    }
  }

  /** Decoding inverts encoding, for every byte string and both alphabets. */
  lemma DecodeInvertsEncode(a: Alphabet, s: Bytes)
    ensures DecodePlain(a, Encode(a, s)) == Some(s)
    ensures DecodeRawUrl(Encode(Url, s)) == Some(s)
  {
    JoinOfSextets(s);
    ValuesOfSymbols(a, Sextets(s));
    ValuesOfSymbols(Url, Sextets(s));
    SymbolsArePlain(Sextets(s));
  }

  // ----- the payload -----

  /** animexXORKey, "10b06cdc1ca48c9fb0b94af97cc040cf". */
  const KEY: Bytes :=
    [49, 48, 98, 48, 54, 99, 100, 99, 49, 99, 97, 52, 56, 99, 57, 102,
     98, 48, 98, 57, 52, 97, 102, 57, 55, 99, 99, 48, 52, 48, 99, 102]

  function Xored(s: Bytes): (r: Bytes)
    ensures |r| == |s|
  {
    seq(|s|, i requires 0 <= i < |s| => s[i] ^ KEY[i % |KEY|])
  }

  /** The in-place loop that both directions share. */
  method XorInPlace(payload: array<bv8>)
    modifies payload
    ensures payload[..] == Xored(old(payload[..]))
  {
    for i := 0 to payload.Length
      invariant forall k | 0 <= k < i :: payload[k] == old(payload[k]) ^ KEY[k % |KEY|]
      invariant forall k | i <= k < payload.Length :: payload[k] == old(payload[k])
    {
      payload[i] := payload[i] ^ KEY[i % |KEY|];
    }
  }

  lemma XorTwice(s: Bytes)
    ensures Xored(Xored(s)) == s
  {
    forall i | 0 <= i < |s|
      ensures Xored(Xored(s))[i] == s[i]
    {
      XorCancels(s[i], KEY[i % |KEY|]);
    }
  }

  lemma XorCancels(x: bv8, k: bv8)
    ensures (x ^ k) ^ k == x
  {
  }

  /** Masked and plain bytes differ by the key, over and over. */
  lemma MaskIsKeyStream(s: Bytes, i: nat)
    requires i < |s|
    ensures Xored(s)[i] ^ s[i] == KEY[i % 32]
  {
    XorSwaps(s[i], KEY[i % |KEY|]);
  }

  lemma XorSwaps(x: bv8, k: bv8)
    ensures (x ^ k) ^ x == k
  {
  }

  /** URL, NUL, referer, and the user agent behind another NUL unless it is empty. */
  function Payload(url: Bytes, referer: Bytes, userAgent: Bytes): Bytes {
    url + [0] + referer + (if userAgent == [] then [] else [0] + userAgent)
  }

  /** strings.Split at NUL. */
  function SplitNul(s: Bytes): (r: seq<Bytes>)
    ensures |r| >= 1
    ensures 0 !in s ==> r == [s]
  {
    if s == [] then [[]]
    else
      var rest := SplitNul(s[1..]);
      assert s == [s[0]] + s[1..];
      if s[0] == 0 then [[]] + rest else [[s[0]] + rest[0]] + rest[1..]
  }

  // ----- the proxy URL -----

  /** "/uwu/" */
  const MARK: Bytes := [47, 117, 119, 117, 47]

  /** animexCDNBase, "https://cdnx.aniwatchtv.site". */
  const CDN_BASE: Bytes :=
    [104, 116, 116, 112, 115, 58, 47, 47, 99, 100, 110, 120, 46, 97, 110, 105, 119, 97, 116, 99, 104, 116, 118, 46, 115,
     105, 116, 101]

  function ProxyURL(url: Bytes, referer: Bytes, userAgent: Bytes): Bytes {
    CDN_BASE + MARK + Encode(Url, Xored(Payload(url, referer, userAgent)))
  }

  /** EncodeAnimeXProxyURL. */
  method EncodeAnimeXProxyURL(url: Bytes, referer: Bytes, userAgent: Bytes) returns (proxyURL: Bytes)
    ensures proxyURL == ProxyURL(url, referer, userAgent)
  {
    var parts := url + [0];
    parts := parts + referer;
    if userAgent != [] {
      parts := parts + [0];
      parts := parts + userAgent;
    }
    assert parts == Payload(url, referer, userAgent);
    var payload := new bv8[|parts|](i requires 0 <= i < |parts| => parts[i]);
    assert payload[..] == parts;
    XorInPlace(payload);
    proxyURL := CDN_BASE + MARK + Encode(Url, payload[..]);
  }

  /** Where the first mark starts: strings.Index. */
  function MarkIndex(s: Bytes): Option<nat> {
    if |s| < |MARK| then None
    else if s[..|MARK|] == MARK then Some(0)
    else match MarkIndex(s[1..]) case Some(i) => Some(i + 1) case None => None
  }

  function Replaced(s: Bytes, c: bv8, d: bv8): Bytes {
    seq(|s|, i requires 0 <= i < |s| => if s[i] == c then d else s[i])
  }

  /** The second try of the decoder: standard alphabet, padding restored. */
  function StdToken(token: Bytes): Bytes {
    var t := Replaced(Replaced(token, 45, 43), 95, 47);
    var pad := |t| % 4;
    if pad == 0 then t else t + seq(4 - pad, _ => 61)
  }

  datatype Triple = Triple(url: Bytes, referer: Bytes, userAgent: Bytes)

  function FromParts(parts: seq<Bytes>): Triple
    requires |parts| >= 1
  {
    Triple(parts[0], if |parts| >= 2 then parts[1] else [], if |parts| >= 3 then parts[2] else [])
  }

  /** DecodeAnimeXProxyURL: what is not a proxy URL comes back unchanged. */
  method DecodeAnimeXProxyURL(proxyURL: Bytes) returns (r: Triple)
    ensures r == Decoded(proxyURL)
  {
    hide Xored, SplitNul, DecodeRawUrl, DecodeStd, StdToken, MarkIndex;
    var at := MarkIndex(proxyURL);
    if at.None? {
      return Triple(proxyURL, [], []);
    }
    MarkIndexInRange(proxyURL);
    var token := proxyURL[at.value + |MARK|..];
    var decoded := DecodeRawUrl(token);
    if decoded.None? {
      decoded := DecodeStd(StdToken(token));
      if decoded.None? {
        return Triple(proxyURL, [], []);
      }
    }
    var payload := new bv8[|decoded.value|](i requires 0 <= i < |decoded.value| => decoded.value[i]);
    assert payload[..] == decoded.value;
    XorInPlace(payload);
    r := FromParts(SplitNul(payload[..]));
  }

  lemma {:induction false} MarkIndexInRange(s: Bytes)
    ensures MarkIndex(s).Some? ==> MarkIndex(s).value + |MARK| <= |s|
  {
    if |s| >= |MARK| && s[..|MARK|] != MARK {
      MarkIndexInRange(s[1..]);
    }
  }

  function Decoded(proxyURL: Bytes): Triple {
    MarkIndexInRange(proxyURL);
    match MarkIndex(proxyURL)
    case None => Triple(proxyURL, [], [])
    case Some(at) =>
      var token := proxyURL[at + |MARK|..];
      var first := DecodeRawUrl(token);
      var decoded := if first.Some? then first else DecodeStd(StdToken(token));
      if decoded.None? then Triple(proxyURL, [], []) else FromParts(SplitNul(Xored(decoded.value)))
  }

  // ----- the round trip -----

  lemma NoMarkInPrefix(k: nat)
    requires k < |CDN_BASE|
    ensures (CDN_BASE + MARK)[k] != MARK[0] || (CDN_BASE + MARK)[k + 1] != MARK[1]
  {
  }

  /** The fixed prefix holds no mark, not even one that reaches into what follows. */
  lemma {:induction false} MarkAfterPrefix(s: Bytes, k: nat)
    requires k <= |CDN_BASE| && CDN_BASE + MARK <= s
    ensures MarkIndex(s[k..]) == Some(|CDN_BASE| - k)
    decreases |CDN_BASE| - k
  {
    var t := s[k..];
    if k == |CDN_BASE| {
      assert t[..|MARK|] == MARK;
    } else {
      NotMarkedAt(s, k);
      assert t[1..] == s[k + 1..];
      MarkAfterPrefix(s, k + 1);
    }
  }

  lemma NotMarkedAt(s: Bytes, k: nat)
    requires k < |CDN_BASE| && CDN_BASE + MARK <= s
    ensures s[k..][..|MARK|] != MARK
  {
    NoMarkInPrefix(k);
    var t := s[k..];
    assert t[..|MARK|][0] == t[0] == (CDN_BASE + MARK)[k] && t[..|MARK|][1] == t[1] == (CDN_BASE + MARK)[k + 1];
  }

  lemma {:induction false} SplitNulAt(a: Bytes, b: Bytes)
    requires 0 !in a
    ensures SplitNul(a + [0] + b) == [a] + SplitNul(b)
  {
    var s := a + [0] + b;
    if a == [] {
      assert s[1..] == b;
    } else {
      assert s[1..] == a[1..] + [0] + b;
      SplitNulAt(a[1..], b);
      assert [a[0]] + a[1..] == a;
    }
  }

  /** With a NUL inside, the first piece is shorter than the text. */
  lemma {:induction false} FirstPiece(s: Bytes)
    ensures 0 !in SplitNul(s)[0]
  {
    if s != [] {
      FirstPiece(s[1..]);
    }
  }

  lemma DecodedOfEncoded(url: Bytes, referer: Bytes, userAgent: Bytes)
    ensures Decoded(ProxyURL(url, referer, userAgent)) == FromParts(SplitNul(Payload(url, referer, userAgent)))
  {
    var payload := Payload(url, referer, userAgent);
    var s, token := ProxyURL(url, referer, userAgent), Encode(Url, Xored(payload));
    hide Payload, Xored, Encode, DecodeRawUrl, SplitNul, KEY;
    MarkAfterPrefix(s, 0);
    assert s[0..] == s && s[|CDN_BASE| + |MARK|..] == token;
    DecodeInvertsEncode(Url, Xored(payload));
    XorTwice(payload);
  }

  /** What follows the URL. */
  function Tail(referer: Bytes, userAgent: Bytes): Bytes {
    if userAgent == [] then referer else referer + [0] + userAgent
  }

  lemma PayloadIs(url: Bytes, referer: Bytes, userAgent: Bytes)
    ensures Payload(url, referer, userAgent) == url + [0] + Tail(referer, userAgent)
  {
    assert url + [0] + referer + ([0] + userAgent) == url + [0] + (referer + [0] + userAgent);
  }

  lemma TailParts(referer: Bytes, userAgent: Bytes)
    ensures
      var parts := SplitNul(Tail(referer, userAgent));
      parts[0] == referer && (if |parts| >= 2 then parts[1] else []) == userAgent <==> 0 !in referer && 0 !in userAgent
  {
    FirstPiece(Tail(referer, userAgent));
    if userAgent != [] && 0 !in referer {
      SplitNulAt(referer, userAgent);
      FirstPiece(userAgent);
    }
  }

  /** Decoding an encoded URL gives back the three parts exactly when none of them contains a NUL. */
  lemma RoundTripIff(url: Bytes, referer: Bytes, userAgent: Bytes)
    ensures Decoded(ProxyURL(url, referer, userAgent)) == Triple(url, referer, userAgent) <==>
            0 !in url && 0 !in referer && 0 !in userAgent
  {
    DecodedOfEncoded(url, referer, userAgent);
    var tail := Tail(referer, userAgent);
    PayloadIs(url, referer, userAgent);
    hide Payload, ProxyURL, Decoded, Tail;
    FirstPiece(url + [0] + tail);
    if 0 !in url {
      SplitNulAt(url, tail);
      TailParts(referer, userAgent);
    }
  }

  // ----- the tokens the decoder also takes -----

  /** What the decoder makes of a token: raw base64url first, then the standard alphabet with padding restored. */
  function DecodeToken(token: Bytes): Option<Bytes> {
    var first := DecodeRawUrl(token);
    if first.Some? then first else DecodeStd(StdToken(token))
  }

  /** The padding of n symbols. */
  function Padding(n: nat): Bytes {
    if n % 4 == 0 then [] else seq(4 - n % 4, _ => 61)
  }

  /** A payload as a token: in either alphabet, padded or not. */
  function Token(a: Alphabet, padded: bool, s: Bytes): Bytes {
    Encode(a, s) + if padded then Padding(|Encode(a, s)|) else []
  }

  lemma SymbolFacts(a: Alphabet, x: bv8)
    requires x < 64
    ensures
      var c := Symbol(a, x);
      && c != 10 && c != 13 && c != 61
      && (if x < 62 then SymbolValue(Url, c) == x && c != 45 && c != 95 && c == Symbol(Std, x) else a.Std? ==> SymbolValue(Url, c) == 255)
      && (a.Url? ==> SymbolValue(Url, c) == x)
      && (if c == 45 then 43 else if c == 95 then 47 else c) == Symbol(Std, x)
  {
  }

  /** Reading symbols of either alphabet in the URL alphabet: the values, or an error at a foreign symbol. */
  lemma {:induction false} UrlValuesOfSymbols(a: Alphabet, v: Bytes)
    requires AllSextets(v)
    ensures Values(Url, Symbols(a, v)) == Some(v) || Values(Url, Symbols(a, v)).None?
    ensures a.Url? ==> Values(Url, Symbols(a, v)) == Some(v)
  {
    if v != [] {
      SymbolFacts(a, v[0]);
      hide Symbol, SymbolValue;
      UrlValuesOfSymbols(a, v[1..]);
      assert Symbols(a, v)[1..] == Symbols(a, v[1..]);
      assert v == [v[0]] + v[1..];
    }
  }

  /** Symbols hold no line break and no padding. */
  lemma {:induction false} SymbolsAreClean(a: Alphabet, v: Bytes)
    requires AllSextets(v)
    ensures |Symbols(a, v)| == |v| && forall c | c in Symbols(a, v) :: c != 10 && c != 13 && c != 61
  {
    if v != [] {
      SymbolFacts(a, v[0]);
      SymbolsAreClean(a, v[1..]);
    }
  }

  lemma {:induction false} NoNewlines(s: Bytes)
    requires 10 !in s && 13 !in s
    ensures WithoutNewlines(s) == s
  {
    if s != [] {
      NoNewlines(s[1..]);
      assert s == [s[0]] + s[1..];
    }
  }

  /** A padding character is foreign to both alphabets. */
  lemma {:induction false} PaddedHasNoValues(a: Alphabet, t: Bytes)
    requires 61 in t
    ensures Values(a, t).None?
  {
    if t[0] != 61 {
      PaddedHasNoValues(a, t[1..]);
    }
  }

  /** Mapping '-' to '+' and '_' to '/' turns either alphabet's symbols into standard ones, and keeps padding. */
  lemma {:induction false} StandardSymbols(a: Alphabet, v: Bytes, pad: Bytes)
    requires AllSextets(v) && forall c | c in pad :: c == 61
    ensures Replaced(Replaced(Symbols(a, v) + pad, 45, 43), 95, 47) == Symbols(Std, v) + pad
  {
    var r := Replaced(Replaced(Symbols(a, v) + pad, 45, 43), 95, 47);
    if v == [] {
      assert forall i | 0 <= i < |pad| :: pad[i] in pad;
      assert Symbols(a, v) + pad == pad && r == pad;
    } else {
      SymbolFacts(a, v[0]);
      StandardSymbols(a, v[1..], pad);
      var rest := Symbols(a, v[1..]) + pad;
      assert Symbols(a, v) + pad == [Symbol(a, v[0])] + rest;
      assert r == [Symbol(Std, v[0])] + Replaced(Replaced(rest, 45, 43), 95, 47);
    }
  }

  lemma {:induction false} SextetCount(s: Bytes)
    ensures |Sextets(s)| % 4 != 1
    decreases |s|
  {
    if |s| > 2 {
      SextetCount(s[3..]);
    }
  }

  /** Padding brings a text to a multiple of four, and is cut off again. */
  lemma PaddingIsStripped(t: Bytes)
    requires |t| % 4 != 1 && forall c | c in t :: c != 10 && c != 13 && c != 61
    ensures DecodeStd(t + Padding(|t|)) == DecodePlain(Std, t)
  {
    var pad := Padding(|t|);
    NoNewlines(t + pad);
    Stripped(t, pad);
    hide DecodePlain, WithoutNewlines, Padding;
    assert WithoutNewlines(t + pad) == t + pad;
    if |pad| == 0 {
      assert t + pad == t;
    } else if |pad| == 1 {
      assert (t + pad)[..|t + pad| - 1] == t;
    } else {
      assert (t + pad)[..|t + pad| - 2] == t;
    }
  }

  /** Which of DecodeStd's cases a padded text falls into. */
  lemma Stripped(t: Bytes, pad: Bytes)
    requires |t| % 4 != 1 && pad == Padding(|t|) && 61 !in t
    ensures
      var n := |t + pad|;
      && n % 4 == 0 && |pad| <= 2
      && (n > 0 && |pad| == 0 ==> (t + pad)[n - 1] != 61)
      && (|pad| == 1 ==> n > 1 && (t + pad)[n - 2] != 61 && (t + pad)[n - 1] == 61)
      && (|pad| == 2 ==> (t + pad)[n - 2] == 61 && (t + pad)[n - 1] == 61)
      && (t + pad)[..n - |pad|] == t
  {
    assert |t| > 0 ==> t[|t| - 1] in t;
  }

  /** What the second try makes of a token: standard symbols, padded to a multiple of four. */
  lemma StdTokenIs(a: Alphabet, padded: bool, v: Bytes)
    requires AllSextets(v) && |v| % 4 != 1
    ensures StdToken(Symbols(a, v) + if padded then Padding(|v|) else []) == Symbols(Std, v) + Padding(|v|)
  {
    var pad := if padded then Padding(|v|) else [];
    StandardSymbols(a, v, pad);
    SymbolsAreClean(Std, v);
    hide Symbols, Replaced;
    RestoredPadding(Symbols(Std, v), padded);
  }

  lemma RestoredPadding(t: Bytes, padded: bool)
    requires |t| % 4 != 1
    ensures
      var u := t + if padded then Padding(|t|) else [];
      (if |u| % 4 == 0 then u else u + seq(4 - |u| % 4, _ => 61)) == t + Padding(|t|)
  {
    if padded {
      assert |t + Padding(|t|)| % 4 == 0;
    } else {
      assert t + [] == t;
    }
  }

  lemma RawDecodes(a: Alphabet, s: Bytes)
    ensures
      var got := DecodeRawUrl(Encode(a, s));
      got.None? || got == Some(s)
  {
    var v := Sextets(s);
    JoinOfSextets(s);
    SymbolsAreClean(a, v);
    NoNewlines(Symbols(a, v));
    UrlValuesOfSymbols(a, v);
    hide Symbols, Sextets, Join, Values, WithoutNewlines;
  }

  lemma RawRefusesPadding(t: Bytes, pad: Bytes)
    requires pad != [] && pad[0] == 61
    requires forall c | c in t + pad :: c != 10 && c != 13
    ensures DecodeRawUrl(t + pad).None?
  {
    NoNewlines(t + pad);
    assert (t + pad)[|t|] == 61;
    PaddedHasNoValues(Url, t + pad);
  }

  lemma SecondTryDecodes(a: Alphabet, padded: bool, s: Bytes)
    ensures DecodeStd(StdToken(Token(a, padded, s))) == Some(s)
  {
    var v := Sextets(s);
    JoinOfSextets(s);
    SextetCount(s);
    SymbolsAreClean(a, v);
    SymbolsAreClean(Std, v);
    ValuesOfSymbols(Std, v);
    StdTokenIs(a, padded, v);
    hide Symbols, Sextets, StdToken, DecodeStd, Join, Values;
    PaddingIsStripped(Symbols(Std, v));
  }

  /** Every such token gives back the payload. */
  lemma TokenDecodes(a: Alphabet, padded: bool, s: Bytes)
    ensures DecodeToken(Token(a, padded, s)) == Some(s)
  {
    var t, pad := Encode(a, s), if padded then Padding(|Encode(a, s)|) else [];
    SecondTryDecodes(a, padded, s);
    JoinOfSextets(s);
    SymbolsAreClean(a, Sextets(s));
    hide Encode, DecodeRawUrl, DecodeStd, StdToken;
    if pad == [] {
      assert t + pad == t;
      RawDecodes(a, s);
    } else {
      RawRefusesPadding(t, pad);
    }
  }

  /** So a proxy URL decodes to its triple whichever base64 its token is written in. */
  lemma EveryTokenFormDecodes(a: Alphabet, padded: bool, url: Bytes, referer: Bytes, userAgent: Bytes)
    requires 0 !in url && 0 !in referer && 0 !in userAgent
    ensures Decoded(CDN_BASE + MARK + Token(a, padded, Xored(Payload(url, referer, userAgent)))) == Triple(url, referer, userAgent)
  {
    var masked := Xored(Payload(url, referer, userAgent));
    SameToken(a, padded, masked);
    RoundTripIff(url, referer, userAgent);
  }

  lemma SameToken(a: Alphabet, padded: bool, masked: Bytes)
    ensures Decoded(CDN_BASE + MARK + Token(a, padded, masked)) == Decoded(CDN_BASE + MARK + Encode(Url, masked))
  {
    DecodedOfToken(Token(a, padded, masked));
    DecodedOfToken(Encode(Url, masked));
    TokenDecodes(a, padded, masked);
    TokenDecodes(Url, false, masked);
    assert Token(Url, false, masked) == Encode(Url, masked);
  }

  lemma {:induction false} BreakIsSkipped(a: Bytes, c: bv8, b: Bytes)
    requires c == 10 || c == 13
    ensures WithoutNewlines(a + [c] + b) == WithoutNewlines(a + b)
  {
    if a == [] {
      assert ([] + [c] + b)[1..] == b && [] + b == b;
    } else {
      assert (a + [c] + b)[1..] == a[1..] + [c] + b && (a + b)[1..] == a[1..] + b;
      BreakIsSkipped(a[1..], c, b);
    }
  }

  /** A line break in a token changes nothing, wherever it stands. */
  lemma LineBreaksAreSkipped(a: Bytes, c: bv8, b: Bytes)
    requires c == 10 || c == 13
    ensures DecodeRawUrl(a + [c] + b) == DecodeRawUrl(a + b)
    ensures DecodeStd(a + [c] + b) == DecodeStd(a + b)
  {
    BreakIsSkipped(a, c, b);
    hide WithoutNewlines, DecodePlain;
  }

  lemma JoinStep(v: Bytes)
    requires |v| > 4
    ensures Join(v[4..]).None? ==> Join(v).None?
  {
    hide Byte0, Byte1, Byte2;
  }

  lemma {:induction false} LoneSextetIsRefused(v: Bytes, quantums: nat)
    requires |v| == 4 * quantums + 1
    ensures Join(v).None?
    decreases quantums
  {
    if quantums > 0 {
      JoinStep(v);
      hide Join;
      LoneSextetIsRefused(v[4..], quantums - 1);
    }
  }

  /** A token with one character left over is refused by both tries. */
  lemma LoneSymbolIsRefused(a: Alphabet, v: Bytes)
    requires AllSextets(v) && |v| % 4 == 1
    ensures DecodeToken(Symbols(a, v)).None?
  {
    var token, std := Symbols(a, v), Symbols(Std, v);
    SymbolsAreClean(a, v);
    SymbolsAreClean(Std, v);
    NoNewlines(token);
    UrlValuesOfSymbols(a, v);
    LoneSextetIsRefused(v, |v| / 4);
    StandardSymbols(a, v, []);
    assert token + [] == token && std + [] == std;
    hide Symbols, Values, Join, WithoutNewlines, DecodeStd;
    assert StdToken(token) == std + [61, 61, 61];
    TriplePaddingIsRefused(std);
  }

  lemma TriplePaddingIsRefused(t: Bytes)
    requires |t| % 4 == 1 && 10 !in t && 13 !in t
    ensures DecodeStd(t + [61, 61, 61]).None?
  {
    var u := t + [61, 61, 61];
    NoNewlines(u);
    assert u[..|t| + 1] == t + [61];
    PaddedHasNoValues(Std, t + [61]);
    hide Values, WithoutNewlines, Join;
  }

  /** The first mark of a text: there is one at the index found, and none before. */
  lemma {:induction false} MarkIndexIs(s: Bytes)
    ensures MarkIndex(s).Some? ==> MarkIndex(s).value + 5 <= |s| && MarkedAt(s, MarkIndex(s).value)
    ensures forall i | 0 <= i <= |s| - 5 && MarkedAt(s, i) :: MarkIndex(s).Some? && MarkIndex(s).value <= i
  {
    if |s| >= 5 && s[..5] != MARK {
      MarkIndexIs(s[1..]);
      forall i | 1 <= i <= |s| - 5
        ensures MarkedAt(s, i) == MarkedAt(s[1..], i - 1)
      {
        assert s[i..i + 5] == s[1..][i - 1..i + 4];
      }
    }
  }

  predicate MarkedAt(s: Bytes, i: nat)
    requires i + 5 <= |s|
  {
    s[i..i + 5] == MARK
  }

  /** A text without a mark is no proxy URL, whatever else it holds, and comes back as it is. */
  lemma NoMarkNoProxyURL(s: Bytes)
    requires forall i | 0 <= i <= |s| - 5 :: !MarkedAt(s, i)
    ensures Decoded(s) == Triple(s, [], [])
  {
    MarkIndexIs(s);
    hide MarkIndex, DecodeRawUrl, DecodeStd, StdToken, Xored, SplitNul, FromParts;
  }

  /** With a mark, what follows the first one is the token; a token that does not decode leaves the text as it is. */
  lemma DecodedAtFirstMark(s: Bytes, at: nat)
    requires at + 5 <= |s| && MarkedAt(s, at) && forall i | 0 <= i < at :: !MarkedAt(s, i)
    ensures
      var payload := DecodeToken(s[at + 5..]);
      Decoded(s) == if payload.None? then Triple(s, [], []) else FromParts(SplitNul(Xored(payload.value)))
  {
    MarkIndexIs(s);
    hide MarkIndex, DecodeRawUrl, DecodeStd, StdToken, Xored, SplitNul, FromParts;
  }

  /** No letter, digit, '+', '/', '-', '_', '=' or line break: a character no token may hold. */
  predicate Foreign(c: bv8) {
    !(65 <= c <= 90) && !(97 <= c <= 122) && !(48 <= c <= 57) && c !in [43, 47, 45, 95, 61, 10, 13]
  }

  lemma {:induction false} ForeignHasNoValues(a: Alphabet, t: Bytes, c: bv8)
    requires c in t && Foreign(c)
    ensures Values(a, t).None?
  {
    if t[0] != c {
      ForeignHasNoValues(a, t[1..], c);
    }
  }

  lemma {:induction false} NewlinesHideNothing(t: Bytes, c: bv8)
    requires c in t && c != 10 && c != 13
    ensures c in WithoutNewlines(t)
  {
    if t[0] != c {
      NewlinesHideNothing(t[1..], c);
    }
  }

  /** A token with a foreign character is refused by both tries. */
  lemma ForeignTokenIsRefused(token: Bytes, c: bv8)
    requires c in token && Foreign(c)
    ensures DecodeToken(token).None?
  {
    NewlinesHideNothing(token, c);
    ForeignHasNoValues(Url, WithoutNewlines(token), c);
    var t := StdToken(token);
    ForeignStays(token, c);
    NewlinesHideNothing(t, c);
    var u := WithoutNewlines(t);
    var n := |u|;
    ForeignHasNoValues(Std, u, c);
    hide WithoutNewlines, StdToken, Values;
    if n % 4 == 0 && u[n - 1] == 61 {
      assert u == u[..n - 1] + [u[n - 1]] && c in u[..n - 1];
      ForeignHasNoValues(Std, u[..n - 1], c);
      if u[n - 2] == 61 {
        assert u[..n - 1] == u[..n - 2] + [u[n - 2]] && c in u[..n - 2];
        ForeignHasNoValues(Std, u[..n - 2], c);
      }
    }
  }

  lemma ForeignStays(token: Bytes, c: bv8)
    requires c in token && Foreign(c)
    ensures c in StdToken(token)
  {
    var t := Replaced(Replaced(token, 45, 43), 95, 47);
    var i :| 0 <= i < |token| && token[i] == c;
    assert t[i] == c;
    assert StdToken(token)[i] == c;
  }

  lemma DecodedOfToken(token: Bytes)
    ensures
      var s, payload := CDN_BASE + MARK + token, DecodeToken(token);
      Decoded(s) == if payload.None? then Triple(s, [], []) else FromParts(SplitNul(Xored(payload.value)))
  {
    var s := CDN_BASE + MARK + token;
    MarkAfterPrefix(s, 0);
    assert s[0..] == s && s[|CDN_BASE| + |MARK|..] == token;
    hide MarkIndex, DecodeRawUrl, DecodeStd, StdToken, Xored, SplitNul, FromParts;
  }
}
