/** Percent encoding, the PKCE authorization URL, and the query of the loopback callback. */
module Pkce {
  import opened Utf8
  import opened Text
  import opened Percent

  const PLUS: byte := 0x2B
  const AMP: byte := 0x26
  const EQUALS: byte := 0x3D
  const QUESTION: byte := 0x3F
  const HASH: byte := 0x23

  // ---- encoding ----

  predicate IsUnreserved(b: byte) {
    0x41 <= b <= 0x5A || 0x61 <= b <= 0x7A || 0x30 <= b <= 0x39 || b == 0x2D || b == 0x2E || b == 0x5F || b == 0x7E
  }

  function HexDigit(n: byte): byte
    requires n < 16
  {
    if n < 10 then 0x30 + n else 0x41 + n - 10
  }

  function EncodeByte(b: byte): Bytes {
    if IsUnreserved(b) then [b] else [PERCENT, HexDigit(b / 16), HexDigit(b % 16)]
  }

  function Encode(s: Bytes): Bytes {
    if s == [] then [] else EncodeByte(s[0]) + Encode(s[1..])
  }

  /** `percent_encode`. */
  method PercentEncode(input: Bytes) returns (out: Bytes)
    ensures out == Encode(input)
  {
    out := [];
    assert input[0..] == input;
    for i := 0 to |input|
      invariant out + Encode(input[i..]) == Encode(input)
    {
      var b := input[i];
      assert input[i..][1..] == input[i + 1..];
      ConcatAssoc(out, EncodeByte(b), Encode(input[i + 1..]));
      if IsUnreserved(b) {
        out := out + [b];
      } else {
        out := out + [PERCENT, HexDigit(b / 16), HexDigit(b % 16)];
      }
    }
    assert out + [] == out;
  }

  // ---- decoding ----

  /** Two characters as a number to base 16: a `+` may stand in front of a single digit. */
  function Radix16(hi: byte, lo: byte): Option<byte> {
    NibbleIsSmall(hi);
    NibbleIsSmall(lo);
    if hi == PLUS then HexNibble(lo)
    else
      match (HexNibble(hi), HexNibble(lo))
      case (Some(h), Some(l)) => Some(h * 16 + l)
      case _ => None
  }

  function DecodeBytes(s: Bytes): Bytes {
    if s == [] then []
    else if s[0] == PLUS then [SPACE] + DecodeBytes(s[1..])
    else if s[0] == PERCENT && |s| > 2 && Radix16(s[1], s[2]).Some? then [Radix16(s[1], s[2]).value] + DecodeBytes(s[3..])
    else [s[0]] + DecodeBytes(s[1..])
  }

  /** `url_decode`. */
  method UrlDecode(s: Bytes) returns (text: Bytes)
    ensures text == Lossy(DecodeBytes(s))
  {
    var out: Bytes, i := [], 0;
    assert s[0..] == s;
    while i < |s|
      invariant 0 <= i <= |s|
      invariant out + DecodeBytes(s[i..]) == DecodeBytes(s)
    {
      ghost var rest := s[i..];
      if s[i] == PLUS {
        assert rest[1..] == s[i + 1..];
        ConcatAssoc(out, [SPACE], DecodeBytes(s[i + 1..]));
        out := out + [SPACE];
        i := i + 1;
      } else if s[i] == PERCENT && i + 2 < |s| && Radix16(s[i + 1], s[i + 2]).Some? {
        assert rest[3..] == s[i + 3..];
        ConcatAssoc(out, [Radix16(s[i + 1], s[i + 2]).value], DecodeBytes(s[i + 3..]));
        out := out + [Radix16(s[i + 1], s[i + 2]).value];
        i := i + 3;
      } else {
        assert rest[1..] == s[i + 1..];
        ConcatAssoc(out, [s[i]], DecodeBytes(s[i + 1..]));
        out := out + [s[i]];
        i := i + 1;
      }
    }
    assert out + [] == out;
    text := Lossy(out);
  }

  lemma DecodesByte(b: byte, rest: Bytes)
    ensures DecodeBytes(EncodeByte(b) + rest) == [b] + DecodeBytes(rest)
  {
  }

  lemma {:induction false} DecodesEncoded(s: Bytes)
    ensures DecodeBytes(Encode(s)) == s
  {
    if s != [] {
      DecodesEncoded(s[1..]);
      DecodesByte(s[0], Encode(s[1..]));
    }
  }

  /** Encoded text decodes to itself. */
  lemma EncodeReadsBack(s: Bytes)
    requires IsText(s)
    ensures Lossy(DecodeBytes(Encode(s))) == s
  {
    DecodesEncoded(s);
  }

  /** Characters that percent encoding never writes. */
  predicate IsMark(b: byte) {
    b == AMP || b == EQUALS || b == QUESTION || b == PLUS || b == HASH || b == 0x2F
  }

  lemma {:induction false} EncodeHasNoMark(s: Bytes, b: byte)
    requires IsMark(b)
    ensures b !in Encode(s)
  {
    if s != [] {
      EncodeHasNoMark(s[1..], b);
      assert b !in EncodeByte(s[0]);
    }
  }

  predicate IsPlain(s: Bytes) {
    s == [] || (IsUnreserved(s[0]) && IsPlain(s[1..]))
  }

  lemma {:induction false} PlainEncodesAsSelf(s: Bytes)
    requires IsPlain(s)
    ensures Encode(s) == s
  {
    if s != [] {
      PlainEncodesAsSelf(s[1..]);
    }
  }

  // ---- queries ----

  type Pair = (Bytes, Bytes)

  /** `key=value`, as it stands; nothing for an empty part or one without `=`. */
  function RawPair(part: Bytes): seq<Pair> {
    var at := FirstIndex(part, EQUALS);
    if at == |part| then [] else [(part[..at], part[at + 1..])]
  }

  function RawPairs(parts: seq<Bytes>): seq<Pair> {
    if parts == [] then [] else RawPair(parts[0]) + RawPairs(parts[1..])
  }

  /** The pairs of a query, decoded. */
  function DecodedPairs(pairs: seq<Pair>): seq<Pair> {
    if pairs == [] then []
    else [(Lossy(DecodeBytes(pairs[0].0)), Lossy(DecodeBytes(pairs[0].1)))] + DecodedPairs(pairs[1..])
  }

  function ParseQuery(query: Bytes): seq<Pair> {
    DecodedPairs(RawPairs(Split(query, AMP)))
  }

  function Param(pair: Pair): Bytes {
    Encode(pair.0) + [EQUALS] + Encode(pair.1)
  }

  function Params(pairs: seq<Pair>): seq<Bytes> {
    if pairs == [] then [] else [Param(pairs[0])] + Params(pairs[1..])
  }

  /** The pairs, each behind an ampersand. */
  function More(pairs: seq<Pair>): Bytes {
    if pairs == [] then [] else [AMP] + (Param(pairs[0]) + More(pairs[1..]))
  }

  predicate AreTexts(pairs: seq<Pair>) {
    pairs == [] || (IsText(pairs[0].0) && IsText(pairs[0].1) && AreTexts(pairs[1..]))
  }

  lemma ParamHasNoAmp(pair: Pair)
    ensures AMP !in Param(pair)
    ensures RawPair(Param(pair)) == [(Encode(pair.0), Encode(pair.1))]
  {
    EncodeHasNoMark(pair.0, AMP);
    EncodeHasNoMark(pair.1, AMP);
    EncodeHasNoMark(pair.0, EQUALS);
    FindAfter(Encode(pair.0), EQUALS, Encode(pair.1));
    var s, n := Param(pair), |Encode(pair.0)|;
    assert s[..n] == Encode(pair.0) && s[n + 1..] == Encode(pair.1);
  }

  lemma {:induction false} SplitMore(x: Bytes, pairs: seq<Pair>)
    requires AMP !in x
    ensures Split(x + More(pairs), AMP) == [x] + Params(pairs)
    decreases |pairs|
  {
    if pairs == [] {
      assert x + More(pairs) == x && [x] + Params(pairs) == [x];
      SplitFirst(x, AMP, []);
    } else {
      var rest := Param(pairs[0]) + More(pairs[1..]);
      ParamHasNoAmp(pairs[0]);
      SplitMore(Param(pairs[0]), pairs[1..]);
      ConcatAssoc(x, [AMP], rest);
      SplitFirst(x, AMP, rest);
    }
  }

  lemma {:induction false} ParamsRead(pairs: seq<Pair>)
    requires AreTexts(pairs)
    ensures DecodedPairs(RawPairs(Params(pairs))) == pairs
  {
    if pairs != [] {
      var pair, rest := pairs[0], pairs[1..];
      ParamsRead(rest);
      ParamHasNoAmp(pair);
      EncodeReadsBack(pair.0);
      EncodeReadsBack(pair.1);
      assert Params(pairs)[1..] == Params(rest);
      var raw: Pair := (Encode(pair.0), Encode(pair.1));
      assert RawPairs(Params(pairs)) == [raw] + RawPairs(Params(rest));
      assert ([raw] + RawPairs(Params(rest)))[1..] == RawPairs(Params(rest));
    }
  }

  /** A printed query parses to the pairs it was printed from. */
  lemma QueryReadsBack(first: Pair, more: seq<Pair>)
    requires AreTexts([first] + more)
    ensures ParseQuery(Param(first) + More(more)) == [first] + more
  {
    ParamHasNoAmp(first);
    SplitMore(Param(first), more);
    var all := [first] + more;
    assert all[1..] == more;
    assert Params(all) == [Param(first)] + Params(more);
    ParamsRead(all);
  }

  // ---- the authorization URL ----

  function Ascii(s: string): (b: Bytes)
    ensures |b| == |s|
  {
    seq(|s|, i requires 0 <= i < |s| => s[i] as int % 128)
  }

  const CLIENT_ID: Bytes := Ascii("client_id")
  const RESPONSE_TYPE: Bytes := Ascii("response_type")
  const REDIRECT_URI: Bytes := Ascii("redirect_uri")
  const CODE_CHALLENGE: Bytes := Ascii("code_challenge")
  const CODE_CHALLENGE_METHOD: Bytes := Ascii("code_challenge_method")
  const STATE: Bytes := Ascii("state")
  const SCOPE: Bytes := Ascii("scope")
  const CODE: Bytes := Ascii("code")
  const S256: Bytes := Ascii("S256")

  const RESERVED: set<Bytes> := {
    Ascii("redirect_uri"), Ascii("response_type"), Ascii("client_id"), Ascii("code_challenge"),
    Ascii("code_challenge_method"), Ascii("state"), Ascii("code_verifier"), Ascii("grant_type"), Ascii("scope"),
    Ascii("client_secret"), Ascii("access_token"), Ascii("refresh_token"), Ascii("id_token"), Ascii("password"),
    Ascii("client_assertion"), Ascii("client_assertion_type"), Ascii("assertion"), Ascii("device_code"),
    Ascii("code")
  }

  function Lower(s: Bytes): (t: Bytes)
    ensures |t| == |s|
  {
    seq(|s|, i requires 0 <= i < |s| => if 0x41 <= s[i] <= 0x5A then s[i] + 0x20 else s[i])
  }

  /** `is_reserved_authorize_param`. */
  predicate IsReserved(key: Bytes) {
    Lower(key) in RESERVED
  }

  function Engine(clientId: Bytes, redirect: Bytes, challenge: Bytes, state: Bytes, scope: Option<Bytes>): seq<Pair> {
    var five := [(RESPONSE_TYPE, CODE), (REDIRECT_URI, redirect), (CODE_CHALLENGE, challenge),
                 (CODE_CHALLENGE_METHOD, S256), (STATE, state)];
    if scope.Some? then five + [(SCOPE, scope.value)] else five
  }

  /** The extras that may be sent, in the order of the map. */
  function Kept(extras: seq<Pair>): seq<Pair> {
    if extras == [] then []
    else (if IsReserved(extras[0].0) then [] else [extras[0]]) + Kept(extras[1..])
  }

  predicate IsPlainAscii(s: string) {
    forall i :: 0 <= i < |s| ==> 'a' <= s[i] <= 'z' || s[i] == '_' || 'A' <= s[i] <= 'Z' || '0' <= s[i] <= '9'
  }

  lemma NothingEncoded()
    ensures Encode([]) == []
  {
  }

  lemma {:induction false} PlainAscii(s: string)
    requires IsPlainAscii(s)
    ensures IsPlain(Ascii(s)) && Encode(Ascii(s)) == Ascii(s)
  {
    hide Encode;
    if s == [] {
      NothingEncoded();
    } else {
      PlainAscii(s[1..]);
      assert Ascii(s)[1..] == Ascii(s[1..]);
      PlainEncodesAsSelf(Ascii(s));
    }
  }

  lemma PlainNames()
    ensures IsPlainAscii("client_id") && IsPlainAscii("response_type") && IsPlainAscii("redirect_uri")
    ensures IsPlainAscii("code_challenge") && IsPlainAscii("code_challenge_method") && IsPlainAscii("state")
    ensures IsPlainAscii("scope") && IsPlainAscii("code") && IsPlainAscii("S256")
  {
  }

  function Appended(url: Bytes, key: Bytes, value: Bytes): Bytes {
    url + [AMP] + key + [EQUALS] + value
  }

  lemma {:induction false} MoreJoins(a: seq<Pair>, b: seq<Pair>)
    ensures More(a + b) == More(a) + More(b)
  {
    hide Param;
    if a == [] {
      assert a + b == b;
    } else {
      MoreJoins(a[1..], b);
      assert (a + b)[1..] == a[1..] + b;
      ConcatAssoc(Param(a[0]), More(a[1..]), More(b));
      ConcatAssoc([AMP], Param(a[0]) + More(a[1..]), More(b));
    }
  }

  lemma AppendedAssoc(url: Bytes, key: Bytes, value: Bytes)
    ensures url + ([AMP] + (key + [EQUALS] + value)) == Appended(url, key, value)
  {
  }

  lemma MoreOne(pair: Pair)
    ensures More([pair]) == [AMP] + Param(pair)
  {
  }

  lemma AppendedIs(head: Bytes, pairs: seq<Pair>, key: Bytes, value: Bytes)
    ensures Appended(head + More(pairs), Encode(key), Encode(value)) == head + More(pairs + [(key, value)])
  {
    var pair: Pair := (key, value);
    MoreJoins(pairs, [pair]);
    MoreOne(pair);
    ConcatAssoc(head, More(pairs), [AMP] + Param(pair));
    AppendedAssoc(head + More(pairs), Encode(key), Encode(value));
  }

  lemma {:induction false} AppendedFive(head: Bytes, pairs: seq<Pair>)
    requires |pairs| == 5
    ensures var u1 := Appended(head, Encode(pairs[0].0), Encode(pairs[0].1));
            var u2 := Appended(u1, Encode(pairs[1].0), Encode(pairs[1].1));
            var u3 := Appended(u2, Encode(pairs[2].0), Encode(pairs[2].1));
            var u4 := Appended(u3, Encode(pairs[3].0), Encode(pairs[3].1));
            Appended(u4, Encode(pairs[4].0), Encode(pairs[4].1)) == head + More(pairs)
  {
    assert head + More([]) == head;
    forall i: nat | i < 5
      ensures Appended(head + More(pairs[..i]), Encode(pairs[i].0), Encode(pairs[i].1)) == head + More(pairs[..i + 1])
    {
      AppendedIs(head, pairs[..i], pairs[i].0, pairs[i].1);
      assert pairs[..i + 1] == pairs[..i] + [(pairs[i].0, pairs[i].1)];
    }
    assert pairs[..0] == [] && pairs[..5] == pairs;
    assert pairs[..1 + 1] == pairs[..2] && pairs[..2 + 1] == pairs[..3] && pairs[..3 + 1] == pairs[..4] && pairs[..4 + 1] == pairs[..5];
  }

  /** The fixed part of the URL. */
  function EngineUrl(authorizeUrl: Bytes, clientId: Bytes, redirect: Bytes, challenge: Bytes, state: Bytes): Bytes {
    var start := authorizeUrl + [QUESTION] + CLIENT_ID + [EQUALS] + Encode(clientId);
    var withType := Appended(start, RESPONSE_TYPE, CODE);
    var withRedirect := Appended(withType, REDIRECT_URI, Encode(redirect));
    var withChallenge := Appended(withRedirect, CODE_CHALLENGE, Encode(challenge));
    var withMethod := Appended(withChallenge, CODE_CHALLENGE_METHOD, S256);
    Appended(withMethod, STATE, Encode(state))
  }

  lemma EncodedNames()
    ensures Encode(CLIENT_ID) == CLIENT_ID && Encode(RESPONSE_TYPE) == RESPONSE_TYPE && Encode(REDIRECT_URI) == REDIRECT_URI
    ensures Encode(CODE_CHALLENGE) == CODE_CHALLENGE && Encode(CODE_CHALLENGE_METHOD) == CODE_CHALLENGE_METHOD
    ensures Encode(STATE) == STATE && Encode(SCOPE) == SCOPE && Encode(CODE) == CODE && Encode(S256) == S256
  {
    PlainNames();
    PlainAscii("client_id");
    PlainAscii("response_type");
    PlainAscii("redirect_uri");
    PlainAscii("code_challenge");
    PlainAscii("code_challenge_method");
    PlainAscii("state");
    PlainAscii("scope");
    PlainAscii("code");
    PlainAscii("S256");
  }

  function Head(authorizeUrl: Bytes, clientId: Bytes): Bytes {
    authorizeUrl + [QUESTION] + Param((CLIENT_ID, clientId))
  }

  lemma EngineUrlIs(authorizeUrl: Bytes, clientId: Bytes, redirect: Bytes, challenge: Bytes, state: Bytes)
    ensures EngineUrl(authorizeUrl, clientId, redirect, challenge, state)
         == Head(authorizeUrl, clientId) + More(Engine(clientId, redirect, challenge, state, None))
  {
    hide Encode, Param;
    EncodedNames();
    HeadIs(authorizeUrl, clientId);
    AppendedFive(Head(authorizeUrl, clientId), Engine(clientId, redirect, challenge, state, None));
  }

  lemma HeadIs(authorizeUrl: Bytes, clientId: Bytes)
    ensures Head(authorizeUrl, clientId) == authorizeUrl + [QUESTION] + Encode(CLIENT_ID) + [EQUALS] + Encode(clientId)
  {
  }

  lemma {:induction false} KeptJoins(a: seq<Pair>, b: seq<Pair>)
    ensures Kept(a + b) == Kept(a) + Kept(b)
  {
    if a == [] {
      assert a + b == b;
    } else {
      KeptJoins(a[1..], b);
      assert (a + b)[1..] == a[1..] + b;
      ConcatAssoc(if IsReserved(a[0].0) then [] else [a[0]], Kept(a[1..]), Kept(b));
    }
  }

  /** `build_auth_url`; `extras` are the entries of the map in the order of their keys. */
  method BuildAuthUrl(authorizeUrl: Bytes, clientId: Bytes, redirect: Bytes, scope: Option<Bytes>, challenge: Bytes,
                      state: Bytes, extras: seq<Pair>)
    returns (url: Bytes)
    ensures url == Head(authorizeUrl, clientId) + More(Engine(clientId, redirect, challenge, state, scope) + Kept(extras))
  {
    ghost var head := Head(authorizeUrl, clientId);
    ghost var engine := Engine(clientId, redirect, challenge, state, scope);
    EncodedNames();
    EngineUrlIs(authorizeUrl, clientId, redirect, challenge, state);
    url := EngineUrl(authorizeUrl, clientId, redirect, challenge, state);
    if scope.Some? {
      AppendedIs(head, Engine(clientId, redirect, challenge, state, None), SCOPE, scope.value);
      url := Appended(url, SCOPE, Encode(scope.value));
    }
    url := AppendExtras(url, head, engine, extras);
  }

  method AppendExtras(start: Bytes, ghost head: Bytes, ghost engine: seq<Pair>, extras: seq<Pair>) returns (url: Bytes)
    requires start == head + More(engine)
    ensures url == head + More(engine + Kept(extras))
  {
    url := start;
    assert engine + Kept(extras[..0]) == engine;
    for i := 0 to |extras|
      invariant url == head + More(engine + Kept(extras[..i]))
    {
      KeptStep(engine, extras, i);
      if IsReserved(extras[i].0) {
        continue;
      }
      AppendedIs(head, engine + Kept(extras[..i]), extras[i].0, extras[i].1);
      url := Appended(url, Encode(extras[i].0), Encode(extras[i].1));
    }
    assert extras[..|extras|] == extras;
  }

  lemma KeptStep(engine: seq<Pair>, extras: seq<Pair>, i: nat)
    requires i < |extras|
    ensures var before := engine + Kept(extras[..i]);
            engine + Kept(extras[..i + 1]) == if IsReserved(extras[i].0) then before else before + [(extras[i].0, extras[i].1)]
  {
    assert extras[..i + 1] == extras[..i] + [extras[i]];
    var one: seq<Pair> := [extras[i]];
    KeptJoins(extras[..i], one);
    assert one[1..] == [];
    assert Kept(one) == if IsReserved(extras[i].0) then [] else one;
    ConcatAssoc(engine, Kept(extras[..i]), one);
    assert Kept(extras[..i]) + [] == Kept(extras[..i]);
  }

  // ---- what the URL says ----

  /** A URL without its fragment. */
  function Unfragmented(url: Bytes): Bytes {
    url[..FirstIndex(url, HASH)]
  }

  /** What stands behind the first question mark. */
  function Asked(url: Bytes): Bytes {
    var at := FirstIndex(url, QUESTION);
    if at == |url| then [] else url[at + 1..]
  }

  /** The query of a URL, as its server gets it. */
  function QueryOf(url: Bytes): Bytes {
    Asked(Unfragmented(url))
  }

  lemma {:induction false} SplitEnds(s: Bytes, more: seq<Pair>)
    ensures Split(s + More(more), AMP) == Split(s, AMP) + Params(more)
    decreases |s|
  {
    var at := FirstIndex(s, AMP);
    if at == |s| {
      assert s[..at] == s;
      SplitMore(s, more);
      assert Split(s, AMP) == [s];
    } else {
      var a, b := s[..at], s[at + 1..];
      SplitEnds(b, more);
      assert s == a + [AMP] + b;
      SplitFirst(a, AMP, b);
      SplitFirst(a, AMP, b + More(more));
      ConcatAssoc(a + [AMP], b, More(more));
      ConcatAssoc([a], Split(b, AMP), Params(more));
    }
  }

  lemma {:induction false} RawPairsJoin(a: seq<Bytes>, b: seq<Bytes>)
    ensures RawPairs(a + b) == RawPairs(a) + RawPairs(b)
  {
    if a == [] {
      assert a + b == b;
    } else {
      RawPairsJoin(a[1..], b);
      assert (a + b)[1..] == a[1..] + b;
      ConcatAssoc(RawPair(a[0]), RawPairs(a[1..]), RawPairs(b));
    }
  }

  lemma {:induction false} DecodedPairsJoin(a: seq<Pair>, b: seq<Pair>)
    ensures DecodedPairs(a + b) == DecodedPairs(a) + DecodedPairs(b)
  {
    hide Lossy, DecodeBytes;
    if a == [] {
      assert a + b == b;
    } else {
      DecodedPairsJoin(a[1..], b);
      assert (a + b)[0] == a[0] && (a + b)[1..] == a[1..] + b;
      ConcatAssoc([(Lossy(DecodeBytes(a[0].0)), Lossy(DecodeBytes(a[0].1)))], DecodedPairs(a[1..]), DecodedPairs(b));
    }
  }

  /** A query that is followed by printed pairs parses to its own pairs and those. */
  lemma ParseMore(s: Bytes, more: seq<Pair>)
    requires AreTexts(more)
    ensures ParseQuery(s + More(more)) == ParseQuery(s) + more
  {
    SplitEnds(s, more);
    RawPairsJoin(Split(s, AMP), Params(more));
    DecodedPairsJoin(RawPairs(Split(s, AMP)), RawPairs(Params(more)));
    ParamsRead(more);
  }

  /** The first byte decoded, and how many are read for it. */
  function DecodeFirst(s: Bytes): (first: (byte, nat))
    requires s != []
    ensures 0 < first.1 <= |s|
  {
    if s[0] == PLUS then (SPACE, 1)
    else if s[0] == PERCENT && |s| > 2 && Radix16(s[1], s[2]).Some? then (Radix16(s[1], s[2]).value, 3)
    else (s[0], 1)
  }

  lemma DecodeFirstStays(x: Bytes, y: Bytes)
    requires x != []
    ensures DecodeFirst(x + [QUESTION] + y) == DecodeFirst(x)
  {
  }

  lemma DecodesFirst(s: Bytes)
    requires s != []
    ensures DecodeBytes(s) == [DecodeFirst(s).0] + DecodeBytes(s[DecodeFirst(s).1..])
  {
  }

  lemma {:induction false} DecodeSplits(x: Bytes, y: Bytes)
    ensures DecodeBytes(x + [QUESTION] + y) == DecodeBytes(x) + [QUESTION] + DecodeBytes(y)
    decreases |x|
  {
    var s := x + [QUESTION] + y;
    if x == [] {
      assert s[0] == QUESTION && s[1..] == y;
    } else {
      var (b, n) := DecodeFirst(x);
      DecodeFirstStays(x, y);
      DecodesFirst(x);
      DecodesFirst(s);
      DecodeSplits(x[n..], y);
      assert s[n..] == x[n..] + [QUESTION] + y;
      var rest := DecodeBytes(x[n..]);
      ConcatAssoc([b], rest + [QUESTION], DecodeBytes(y));
      ConcatAssoc([b], rest, [QUESTION]);
    }
  }

  lemma {:induction false} DecodesPrefix(s: Bytes, rest: Bytes)
    ensures DecodeBytes(Encode(s) + rest) == s + DecodeBytes(rest)
  {
    hide DecodeBytes, EncodeByte;
    if s == [] {
      assert Encode(s) + rest == rest;
    } else {
      DecodesPrefix(s[1..], rest);
      ConcatAssoc(EncodeByte(s[0]), Encode(s[1..]), rest);
      DecodesByte(s[0], Encode(s[1..]) + rest);
    }
  }

  /** A question mark in front of an encoded text is read as a part of it. */
  lemma MarkedIsLonger(x: Bytes, s: Bytes, rest: Bytes)
    ensures |Lossy(DecodeBytes(x + [QUESTION] + (Encode(s) + rest)))| > |s| + |DecodeBytes(rest)|
  {
    DecodeSplits(x, Encode(s) + rest);
    DecodesPrefix(s, rest);
    LossyNeverShrinks(DecodeBytes(x + [QUESTION] + (Encode(s) + rest)));
  }

  lemma RawPairIs(key: Bytes, value: Bytes)
    requires EQUALS !in key
    ensures RawPair(key + [EQUALS] + value) == [(key, value)]
  {
    var part := key + [EQUALS] + value;
    FindAfter(key, EQUALS, value);
    assert part[..|key|] == key && part[|key| + 1..] == value;
  }

  lemma OneDecoded(raw: Pair)
    ensures DecodedPairs([raw]) == [(Lossy(DecodeBytes(raw.0)), Lossy(DecodeBytes(raw.1)))]
  {
  }

  /** The question mark falls into the value. */
  lemma MarkedValue(key: Bytes, v: Bytes, pair: Pair)
    requires EQUALS !in key
    ensures var part := key + [EQUALS] + v + [QUESTION] + Param(pair);
            |RawPair(part)| == 1 && DecodedPairs(RawPair(part)) != [pair]
  {
    var value := v + [QUESTION] + Param(pair);
    ConcatAssoc(key + [EQUALS], v + [QUESTION], Param(pair));
    ConcatAssoc(key + [EQUALS], v, [QUESTION]);
    RawPairIs(key, value);
    OneDecoded((key, value));
    var tail := [EQUALS] + Encode(pair.1);
    ConcatAssoc(Encode(pair.0), [EQUALS], Encode(pair.1));
    MarkedIsLonger(v, pair.0, tail);
    assert tail[1..] == Encode(pair.1);
    DecodesEncoded(pair.1);
  }

  /** The question mark falls into the key. */
  lemma MarkedKey(x: Bytes, pair: Pair)
    requires EQUALS !in x
    ensures var part := x + [QUESTION] + Param(pair);
            |RawPair(part)| == 1 && DecodedPairs(RawPair(part)) != [pair]
  {
    var key := x + [QUESTION] + Encode(pair.0);
    EncodeHasNoMark(pair.0, EQUALS);
    assert x + [QUESTION] + Param(pair) == key + [EQUALS] + Encode(pair.1);
    RawPairIs(key, Encode(pair.1));
    OneDecoded((key, Encode(pair.1)));
    MarkedIsLonger(x, pair.0, []);
    assert Encode(pair.0) + [] == Encode(pair.0);
  }

  /** The pair is not read as printed when a question mark comes before it. */
  lemma MarkedPair(x: Bytes, pair: Pair)
    ensures var part := x + [QUESTION] + Param(pair);
            |RawPair(part)| == 1 && DecodedPairs(RawPair(part)) != [pair]
  {
    var at := FirstIndex(x, EQUALS);
    if at < |x| {
      assert x == x[..at] + [EQUALS] + x[at + 1..];
      MarkedValue(x[..at], x[at + 1..], pair);
    } else {
      assert x[..at] == x;
      MarkedKey(x, pair);
    }
  }

  lemma OnePart(part: Bytes)
    requires AMP !in part
    ensures ParseQuery(part) == DecodedPairs(RawPair(part))
  {
    var parts: seq<Bytes> := [part];
    SplitFirst(part, AMP, []);
    assert parts[1..] == [];
    assert RawPairs(parts) == RawPair(part);
  }

  lemma FirstPart(a: Bytes, rest: Bytes)
    requires AMP !in a
    ensures ParseQuery(a + [AMP] + rest) == DecodedPairs(RawPair(a)) + ParseQuery(rest)
  {
    var parts := Split(rest, AMP);
    SplitFirst(a, AMP, rest);
    assert ([a] + parts)[1..] == parts;
    DecodedPairsJoin(RawPair(a), RawPairs(parts));
  }

  lemma {:induction false} MarkedQuery(suffix: Bytes, pair: Pair)
    ensures var pairs := ParseQuery(suffix + [QUESTION] + Param(pair)); pairs != [] && pairs != [pair]
    decreases |suffix|
  {
    var at := FirstIndex(suffix, AMP);
    if at == |suffix| {
      assert suffix[..at] == suffix;
      ParamHasNoAmp(pair);
      OnePart(suffix + [QUESTION] + Param(pair));
      MarkedPair(suffix, pair);
    } else {
      var a, b := suffix[..at], suffix[at + 1..];
      var rest := b + [QUESTION] + Param(pair);
      assert suffix + [QUESTION] + Param(pair) == a + [AMP] + rest by {
        assert suffix == a + [AMP] + b;
      }
      MarkedQuery(b, pair);
      FirstPart(a, rest);
    }
  }

  lemma KeptFirst(extras: seq<Pair>)
    requires extras != []
    ensures if IsReserved(extras[0].0) then Kept(extras) == Kept(extras[1..])
            else Kept(extras) != [] && Kept(extras)[0] == extras[0] && Kept(extras)[1..] == Kept(extras[1..])
  {
  }

  lemma {:induction false} AsciiIsText(s: string)
    ensures IsText(Ascii(s))
  {
    if s != [] {
      AsciiIsText(s[1..]);
      var t := Ascii(s);
      assert t[1..] == Ascii(s[1..]);
      LossySplitsAtAscii([], t[0], t[1..]);
      assert t == [] + [t[0]] + t[1..];
    }
  }

  lemma {:induction false} KeptTexts(extras: seq<Pair>)
    requires AreTexts(extras)
    ensures AreTexts(Kept(extras))
  {
    if extras != [] {
      KeptTexts(extras[1..]);
      KeptFirst(extras);
    }
  }

  lemma {:induction false} TextsJoin(a: seq<Pair>, b: seq<Pair>)
    requires AreTexts(a) && AreTexts(b)
    ensures AreTexts(a + b)
  {
    if a == [] {
      assert a + b == b;
    } else {
      TextsJoin(a[1..], b);
      assert (a + b)[1..] == a[1..] + b;
    }
  }

  lemma TextFirst(key: Bytes, value: Bytes, rest: seq<Pair>)
    requires IsText(key) && IsText(value) && AreTexts(rest)
    ensures AreTexts([(key, value)] + rest)
  {
  }

  lemma {:induction false} FiveTexts(a: Pair, b: Pair, c: Pair, d: Pair, e: Pair, last: seq<Pair>)
    requires IsText(a.0) && IsText(a.1) && IsText(b.0) && IsText(b.1) && IsText(c.0) && IsText(c.1)
    requires IsText(d.0) && IsText(d.1) && IsText(e.0) && IsText(e.1) && AreTexts(last)
    ensures AreTexts([a, b, c, d, e] + last)
  {
    TextFirst(e.0, e.1, last);
    TextFirst(d.0, d.1, [e] + last);
    TextFirst(c.0, c.1, [d] + ([e] + last));
    TextFirst(b.0, b.1, [c] + ([d] + ([e] + last)));
    TextFirst(a.0, a.1, [b] + ([c] + ([d] + ([e] + last))));
    assert [a, b, c, d, e] + last == [a] + ([b] + ([c] + ([d] + ([e] + last))));
  }

  lemma NamesAreTexts()
    ensures IsText(CLIENT_ID) && IsText(RESPONSE_TYPE) && IsText(REDIRECT_URI) && IsText(CODE_CHALLENGE)
    ensures IsText(CODE_CHALLENGE_METHOD) && IsText(STATE) && IsText(SCOPE) && IsText(CODE) && IsText(S256)
  {
    AsciiIsText("client_id");
    AsciiIsText("response_type");
    AsciiIsText("redirect_uri");
    AsciiIsText("code_challenge");
    AsciiIsText("code_challenge_method");
    AsciiIsText("state");
    AsciiIsText("scope");
    AsciiIsText("code");
    AsciiIsText("S256");
  }

  lemma {:induction false} EngineTexts(clientId: Bytes, redirect: Bytes, scope: Option<Bytes>, challenge: Bytes, state: Bytes)
    requires IsText(redirect) && IsText(challenge) && IsText(state) && (scope.Some? ==> IsText(scope.value))
    ensures AreTexts(Engine(clientId, redirect, challenge, state, scope))
  {
    NamesAreTexts();
    var last: seq<Pair> := if scope.Some? then [(SCOPE, scope.value)] else [];
    assert last != [] ==> last[1..] == [];
    FiveTexts((RESPONSE_TYPE, CODE), (REDIRECT_URI, redirect), (CODE_CHALLENGE, challenge), (CODE_CHALLENGE_METHOD, S256),
              (STATE, state), last);
    assert scope.None? ==> Engine(clientId, redirect, challenge, state, scope) + [] == Engine(clientId, redirect, challenge, state, scope);
  }

  lemma UnmarkedUrlReads(base: Bytes, first: Pair, more: seq<Pair>)
    requires QUESTION !in base && IsText(first.0) && IsText(first.1) && AreTexts(more)
    ensures ParseQuery(Asked(base + [QUESTION] + Param(first) + More(more))) == [first] + more
  {
    ConcatAssoc(base + [QUESTION], Param(first), More(more));
    QueryBehind(base, Param(first) + More(more));
    assert ([first] + more)[1..] == more;
    QueryReadsBack(first, more);
  }

  lemma UrlReads(authorizeUrl: Bytes, first: Pair, more: seq<Pair>)
    requires IsText(first.0) && IsText(first.1) && AreTexts(more)
    ensures ParseQuery(Asked(authorizeUrl + [QUESTION] + Param(first) + More(more))) == [first] + more
            <==> QUESTION !in authorizeUrl
  {
    var at := FirstIndex(authorizeUrl, QUESTION);
    assert authorizeUrl[..|authorizeUrl|] == authorizeUrl;
    if at == |authorizeUrl| {
      UnmarkedUrlReads(authorizeUrl, first, more);
    } else {
      assert authorizeUrl == authorizeUrl[..at] + [QUESTION] + authorizeUrl[at + 1..];
      MarkedUrlReads(authorizeUrl[..at], authorizeUrl[at + 1..], first, more);
    }
  }

  lemma QueryBehind(base: Bytes, query: Bytes)
    requires QUESTION !in base
    ensures Asked(base + [QUESTION] + query) == query
  {
    FindAfter(base, QUESTION, query);
    assert (base + [QUESTION] + query)[|base| + 1..] == query;
  }

  lemma MarkedUrlReads(base: Bytes, suffix: Bytes, first: Pair, more: seq<Pair>)
    requires QUESTION !in base && AreTexts(more)
    ensures ParseQuery(Asked(base + [QUESTION] + suffix + [QUESTION] + Param(first) + More(more))) != [first] + more
  {
    var query := suffix + [QUESTION] + Param(first);
    ConcatAssoc(base + [QUESTION], suffix + [QUESTION], Param(first));
    ConcatAssoc(base + [QUESTION], suffix, [QUESTION]);
    ConcatAssoc(base + [QUESTION], query, More(more));
    QueryBehind(base, query + More(more));
    ParseMore(query, more);
    MarkedQuery(suffix, first);
    if ParseQuery(query) + more == [first] + more {
      SamePrefix(ParseQuery(query), [first], more);
    }
  }

  lemma SamePrefix(a: seq<Pair>, b: seq<Pair>, c: seq<Pair>)
    requires a + c == b + c
    ensures a == b
  {
    assert |a| == |b|;
    assert a == (a + c)[..|a|] == (b + c)[..|b|] == b;
  }

  // Nothing that is appended starts a fragment.

  lemma ParamHasNoHash(pair: Pair)
    ensures HASH !in Param(pair)
  {
    EncodeHasNoMark(pair.0, HASH);
    EncodeHasNoMark(pair.1, HASH);
  }

  lemma {:induction false} MoreHasNoHash(pairs: seq<Pair>)
    ensures HASH !in More(pairs)
  {
    if pairs != [] {
      ParamHasNoHash(pairs[0]);
      MoreHasNoHash(pairs[1..]);
    }
  }

  lemma {:induction false} FragmentStarts(base: Bytes, rest: Bytes)
    requires HASH !in rest
    ensures Unfragmented(base + rest) == if HASH in base then Unfragmented(base) else base + rest
  {
    if HASH in base {
      var at := FirstIndex(base, HASH);
      assert base[..|base|] == base;
      var tail := base[at + 1..] + rest;
      assert base == base[..at] + [HASH] + base[at + 1..];
      assert base + rest == base[..at] + [HASH] + tail;
      FindAfter(base[..at], HASH, tail);
      assert (base + rest)[..at] == base[..at];
    } else {
      FindNone(base + rest, HASH);
      assert (base + rest)[..|base + rest|] == base + rest;
    }
  }

  lemma UrlFragment(authorizeUrl: Bytes, first: Pair, more: seq<Pair>)
    ensures var url := authorizeUrl + [QUESTION] + Param(first) + More(more);
            Unfragmented(url) == if HASH in authorizeUrl then Unfragmented(authorizeUrl) else url
  {
    var rest := [QUESTION] + Param(first) + More(more);
    ParamHasNoHash(first);
    MoreHasNoHash(more);
    assert HASH !in rest;
    FragmentStarts(authorizeUrl, rest);
    ConcatAssoc(authorizeUrl, [QUESTION] + Param(first), More(more));
    ConcatAssoc(authorizeUrl, [QUESTION], Param(first));
  }

  /** Does the query of the built URL parse to the engine's parameters and the extras that may be sent? */
  predicate ReadsBack(authorizeUrl: Bytes, clientId: Bytes, redirect: Bytes, scope: Option<Bytes>, challenge: Bytes,
                      state: Bytes, extras: seq<Pair>) {
    var more := Engine(clientId, redirect, challenge, state, scope) + Kept(extras);
    ParseQuery(QueryOf(Head(authorizeUrl, clientId) + More(more))) == [(CLIENT_ID, clientId)] + more
  }

  /** For a configured URL without a fragment the parameters read back exactly when it has no query either. */
  lemma {:induction false} PlainUrlReadsBack(authorizeUrl: Bytes, clientId: Bytes, redirect: Bytes, scope: Option<Bytes>,
                                             challenge: Bytes, state: Bytes, extras: seq<Pair>)
    requires IsText(clientId) && IsText(redirect) && IsText(challenge) && IsText(state)
    requires (scope.Some? ==> IsText(scope.value)) && AreTexts(extras) && HASH !in authorizeUrl
    ensures ReadsBack(authorizeUrl, clientId, redirect, scope, challenge, state, extras) <==> QUESTION !in authorizeUrl
  {
    hide Engine, Kept, More, Param, ParseQuery, Asked, Unfragmented, IsText, AreTexts;
    var engine := Engine(clientId, redirect, challenge, state, scope);
    NamesAreTexts();
    EngineTexts(clientId, redirect, scope, challenge, state);
    KeptTexts(extras);
    TextsJoin(engine, Kept(extras));
    UrlReads(authorizeUrl, (CLIENT_ID, clientId), engine + Kept(extras));
    UrlFragment(authorizeUrl, (CLIENT_ID, clientId), engine + Kept(extras));
  }

  /** With a fragment the query does not depend on what is appended, so it is right for one state at most. */
  lemma {:induction false} FragmentHidesState(authorizeUrl: Bytes, clientId: Bytes, redirect: Bytes, scope: Option<Bytes>,
                                              challenge: Bytes, s: Bytes, t: Bytes, extras: seq<Pair>)
    requires HASH in authorizeUrl && s != t
    ensures !(ReadsBack(authorizeUrl, clientId, redirect, scope, challenge, s, extras)
              && ReadsBack(authorizeUrl, clientId, redirect, scope, challenge, t, extras))
  {
    hide More, Param, ParseQuery, Asked, Unfragmented, Kept;
    var a := Engine(clientId, redirect, challenge, s, scope) + Kept(extras);
    var b := Engine(clientId, redirect, challenge, t, scope) + Kept(extras);
    var first := (CLIENT_ID, clientId);
    UrlFragment(authorizeUrl, first, a);
    UrlFragment(authorizeUrl, first, b);
    assert ([first] + a)[5] == (STATE, s) && ([first] + b)[5] == (STATE, t);
  }

  /**
   Whatever the state of a login, the query of the URL parses to the engine's parameters followed by the extras that may
   be sent, exactly when the configured URL has neither a query nor a fragment of its own.
   */
  lemma {:induction false} AuthUrlReadsBack(authorizeUrl: Bytes, clientId: Bytes, redirect: Bytes, scope: Option<Bytes>,
                                            challenge: Bytes, extras: seq<Pair>)
    requires IsText(clientId) && IsText(redirect) && IsText(challenge)
    requires (scope.Some? ==> IsText(scope.value)) && AreTexts(extras)
    ensures (forall state :: IsText(state) ==> ReadsBack(authorizeUrl, clientId, redirect, scope, challenge, state, extras))
            <==> QUESTION !in authorizeUrl && HASH !in authorizeUrl
  {
    var one := Ascii("a");
    AsciiIsText("a");
    AsciiIsText("");
    if HASH in authorizeUrl {
      FragmentHidesState(authorizeUrl, clientId, redirect, scope, challenge, one, Ascii(""), extras);
    } else {
      PlainUrlReadsBack(authorizeUrl, clientId, redirect, scope, challenge, one, extras);
      forall state | IsText(state) && QUESTION !in authorizeUrl
        ensures ReadsBack(authorizeUrl, clientId, redirect, scope, challenge, state, extras)
      {
        PlainUrlReadsBack(authorizeUrl, clientId, redirect, scope, challenge, state, extras);
      }
    }
  }

  predicate HasKey(pairs: seq<Pair>, key: Bytes) {
    pairs != [] && (pairs[0].0 == key || HasKey(pairs[1..], key))
  }

  /** Every key stands once, as in a map. */
  predicate KeysDiffer(pairs: seq<Pair>) {
    pairs == [] || (!HasKey(pairs[1..], pairs[0].0) && KeysDiffer(pairs[1..]))
  }

  lemma {:induction false} KeptKeys(extras: seq<Pair>, key: Bytes)
    ensures HasKey(Kept(extras), key) ==> HasKey(extras, key) && !IsReserved(key)
  {
    if extras != [] {
      KeptKeys(extras[1..], key);
      KeptFirst(extras);
    }
  }

  lemma {:induction false} KeptDiffers(extras: seq<Pair>)
    requires KeysDiffer(extras)
    ensures KeysDiffer(Kept(extras))
  {
    if extras != [] {
      KeptDiffers(extras[1..]);
      KeptKeys(extras[1..], extras[0].0);
      KeptFirst(extras);
    }
  }

  lemma {:induction false} HasKeyJoin(a: seq<Pair>, b: seq<Pair>, key: Bytes)
    ensures HasKey(a + b, key) <==> HasKey(a, key) || HasKey(b, key)
  {
    if a == [] {
      assert a + b == b;
    } else {
      HasKeyJoin(a[1..], b, key);
      assert (a + b)[1..] == a[1..] + b;
    }
  }

  predicate AllReserved(pairs: seq<Pair>) {
    pairs == [] || (IsReserved(pairs[0].0) && AllReserved(pairs[1..]))
  }

  predicate Unlike(pairs: seq<Pair>, others: seq<Pair>) {
    pairs == [] || (!HasKey(others, pairs[0].0) && Unlike(pairs[1..], others))
  }

  lemma {:induction false} ReservedIsUnlike(pairs: seq<Pair>, extras: seq<Pair>)
    requires AllReserved(pairs)
    ensures Unlike(pairs, Kept(extras))
  {
    if pairs != [] {
      KeptKeys(extras, pairs[0].0);
      ReservedIsUnlike(pairs[1..], extras);
    }
  }

  lemma {:induction false} DifferJoin(pairs: seq<Pair>, others: seq<Pair>)
    requires KeysDiffer(pairs) && KeysDiffer(others) && Unlike(pairs, others)
    ensures KeysDiffer(pairs + others)
  {
    if pairs == [] {
      assert pairs + others == others;
    } else {
      DifferJoin(pairs[1..], others);
      HasKeyJoin(pairs[1..], others, pairs[0].0);
      assert (pairs + others)[1..] == pairs[1..] + others;
    }
  }

  lemma LowerKeeps(name: string)
    requires IsPlainAscii(name) && forall i :: 0 <= i < |name| ==> !('A' <= name[i] <= 'Z')
    ensures Lower(Ascii(name)) == Ascii(name)
  {
  }

  lemma EngineNamesReserved()
    ensures IsReserved(CLIENT_ID) && IsReserved(RESPONSE_TYPE) && IsReserved(REDIRECT_URI) && IsReserved(CODE_CHALLENGE)
    ensures IsReserved(CODE_CHALLENGE_METHOD) && IsReserved(STATE) && IsReserved(SCOPE)
  {
    PlainNames();
    LowerKeeps("client_id");
    LowerKeeps("response_type");
    LowerKeeps("redirect_uri");
    LowerKeeps("code_challenge");
    LowerKeeps("code_challenge_method");
    LowerKeeps("state");
    LowerKeeps("scope");
  }

  lemma EngineNamesDiffer()
    ensures |CLIENT_ID| == 9 && |RESPONSE_TYPE| == 13 && |REDIRECT_URI| == 12 && |CODE_CHALLENGE| == 14
    ensures |CODE_CHALLENGE_METHOD| == 21 && |STATE| == |SCOPE| == 5 && STATE != SCOPE
  {
    assert STATE[1] != SCOPE[1];
  }

  lemma {:induction false} DifferByIndex(pairs: seq<Pair>)
    requires forall i, j :: 0 <= i < j < |pairs| ==> pairs[i].0 != pairs[j].0
    requires forall i :: 0 <= i < |pairs| ==> IsReserved(pairs[i].0)
    ensures KeysDiffer(pairs) && AllReserved(pairs)
  {
    if pairs != [] {
      var key := pairs[0].0;
      forall i | 0 <= i < |pairs| - 1 ensures pairs[1..][i].0 != key {
        assert pairs[1..][i] == pairs[i + 1];
      }
      NoKeyByIndex(pairs[1..], key);
      DifferByIndex(pairs[1..]);
    }
  }

  lemma {:induction false} NoKeyByIndex(pairs: seq<Pair>, key: Bytes)
    requires forall i :: 0 <= i < |pairs| ==> pairs[i].0 != key
    ensures !HasKey(pairs, key)
  {
    if pairs != [] {
      NoKeyByIndex(pairs[1..], key);
    }
  }

  lemma SevenDiffer(pairs: seq<Pair>, scoped: bool)
    requires |pairs| == if scoped then 7 else 6
    requires pairs[0].0 == CLIENT_ID && pairs[1].0 == RESPONSE_TYPE && pairs[2].0 == REDIRECT_URI
    requires pairs[3].0 == CODE_CHALLENGE && pairs[4].0 == CODE_CHALLENGE_METHOD && pairs[5].0 == STATE
    requires scoped ==> pairs[6].0 == SCOPE
    ensures KeysDiffer(pairs) && AllReserved(pairs)
  {
    hide KeysDiffer, IsReserved, AllReserved;
    EngineNamesReserved();
    EngineNamesDiffer();
    DifferByIndex(pairs);
  }

  /** The engine's parameters stand once each: no extra can repeat one, in any spelling. */
  lemma {:induction false} ParamsStandOnce(clientId: Bytes, redirect: Bytes, scope: Option<Bytes>, challenge: Bytes,
                                           state: Bytes, extras: seq<Pair>)
    requires KeysDiffer(extras)
    ensures KeysDiffer([(CLIENT_ID, clientId)] + Engine(clientId, redirect, challenge, state, scope) + Kept(extras))
  {
    var engine := [(CLIENT_ID, clientId)] + Engine(clientId, redirect, challenge, state, scope);
    SevenDiffer(engine, scope.Some?);
    KeptDiffers(extras);
    ReservedIsUnlike(engine, extras);
    DifferJoin(engine, Kept(extras));
  }

  // ---- the callback ----

  datatype Callback =
    | Granted(code: Bytes, state: Bytes)
    | Denied(error: Option<Bytes>, description: Option<Bytes>)
    | MissingCode
    | MissingState

  const ERROR: Bytes := Ascii("error")
  const ERROR_DESCRIPTION: Bytes := Ascii("error_description")

  /** The decoded value of the last pair with this key; keys are compared as they stand. */
  function LastValue(pairs: seq<Pair>, key: Bytes): Option<Bytes> {
    if pairs == [] then None
    else if pairs[|pairs| - 1].0 == key then Some(Lossy(DecodeBytes(pairs[|pairs| - 1].1)))
    else LastValue(pairs[..|pairs| - 1], key)
  }

  predicate Given(value: Option<Bytes>) {
    value.Some? && value.value != []
  }

  function Outcome(code: Option<Bytes>, state: Option<Bytes>, error: Option<Bytes>, description: Option<Bytes>): Callback {
    if Given(code) && Given(state) then Granted(code.value, state.value)
    else if error.Some? || description.Some? then Denied(error, description)
    else if !Given(code) then MissingCode
    else MissingState
  }

  lemma LastValueStep(parts: seq<Bytes>, i: nat, key: Bytes)
    requires i < |parts|
    ensures LastValue(RawPairs(parts[..i + 1]), key)
         == if RawPair(parts[i]) != [] && RawPair(parts[i])[0].0 == key then Some(Lossy(DecodeBytes(RawPair(parts[i])[0].1)))
            else LastValue(RawPairs(parts[..i]), key)
  {
    var one: seq<Bytes> := [parts[i]];
    assert parts[..i + 1] == parts[..i] + one;
    RawPairsJoin(parts[..i], one);
    assert one[1..] == [];
    assert RawPairs(one) == RawPair(parts[i]);
    var before, pair := RawPairs(parts[..i]), RawPair(parts[i]);
    if pair == [] {
      assert before + pair == before;
    } else {
      assert (before + pair)[..|before + pair| - 1] == before;
    }
  }

  /** `pkce_callback_from_query`; the text of a vendor error is left to its caller. */
  method CallbackFromQuery(query: Bytes) returns (result: Callback)
    ensures var pairs := RawPairs(Split(query, AMP));
            result == Outcome(LastValue(pairs, CODE), LastValue(pairs, STATE), LastValue(pairs, ERROR),
                              LastValue(pairs, ERROR_DESCRIPTION))
  {
    var code, state, error, description: Option<Bytes> := None, None, None, None;
    var parts := Split(query, AMP);
    CallbackNamesDiffer();
    for i := 0 to |parts|
      invariant code == LastValue(RawPairs(parts[..i]), CODE) && state == LastValue(RawPairs(parts[..i]), STATE)
      invariant error == LastValue(RawPairs(parts[..i]), ERROR)
      invariant description == LastValue(RawPairs(parts[..i]), ERROR_DESCRIPTION)
    {
      LastValueStep(parts, i, CODE);
      LastValueStep(parts, i, STATE);
      LastValueStep(parts, i, ERROR);
      LastValueStep(parts, i, ERROR_DESCRIPTION);
      if parts[i] == [] {
        continue;
      }
      var at := FirstIndex(parts[i], EQUALS);
      if at < |parts[i]| {
        var k := parts[i][..at];
        var value := UrlDecode(parts[i][at + 1..]);
        if k == CODE {
          code := Some(value);
        } else if k == STATE {
          state := Some(value);
        } else if k == ERROR {
          error := Some(value);
        } else if k == ERROR_DESCRIPTION {
          description := Some(value);
        }
      }
    }
    assert parts[..|parts|] == parts;
    result := Outcome(code, state, error, description);
  }

  lemma CallbackNamesDiffer()
    ensures |CODE| == 4 && |STATE| == 5 && |ERROR| == 5 && |ERROR_DESCRIPTION| == 17 && STATE != ERROR
  {
    assert STATE[0] != ERROR[0];
  }

  /** The last value a list of pairs gives a key. */
  function LastOf(pairs: seq<Pair>, key: Bytes): Option<Bytes> {
    if pairs == [] then None
    else if pairs[|pairs| - 1].0 == key then Some(pairs[|pairs| - 1].1)
    else LastOf(pairs[..|pairs| - 1], key)
  }

  function EncodedPairs(pairs: seq<Pair>): seq<Pair> {
    if pairs == [] then [] else EncodedPairs(pairs[..|pairs| - 1]) + [(Encode(pairs[|pairs| - 1].0), Encode(pairs[|pairs| - 1].1))]
  }

  lemma EncodeIsInjective(a: Bytes, b: Bytes)
    ensures Encode(a) == Encode(b) <==> a == b
  {
    DecodesEncoded(a);
    DecodesEncoded(b);
  }

  lemma {:induction false} LastOfEncoded(pairs: seq<Pair>, key: Bytes)
    requires AreTexts(pairs)
    ensures LastValue(EncodedPairs(pairs), Encode(key)) == LastOf(pairs, key)
  {
    if pairs != [] {
      var front, last := pairs[..|pairs| - 1], pairs[|pairs| - 1];
      TextsSplit(pairs);
      LastOfEncoded(front, key);
      EncodeIsInjective(last.0, key);
      EncodeReadsBack(last.1);
      var raw: Pair := (Encode(last.0), Encode(last.1));
      var all := EncodedPairs(front) + [raw];
      assert all[..|all| - 1] == EncodedPairs(front);
    }
  }

  lemma {:induction false} TextsSplit(pairs: seq<Pair>)
    requires AreTexts(pairs) && pairs != []
    ensures AreTexts(pairs[..|pairs| - 1]) && IsText(pairs[|pairs| - 1].1)
  {
    if |pairs| > 1 {
      TextsSplit(pairs[1..]);
      var front := pairs[..|pairs| - 1];
      assert front[1..] == pairs[1..][..|pairs| - 2];
    }
  }

  lemma {:induction false} RawPairsOfParams(pairs: seq<Pair>)
    ensures RawPairs(Params(pairs)) == EncodedPairs(pairs)
  {
    if pairs != [] {
      var front, last := pairs[..|pairs| - 1], pairs[|pairs| - 1];
      RawPairsOfParams(front);
      ParamsJoin(front, last);
      assert pairs == front + [last];
      var one: seq<Bytes> := [Param(last)];
      RawPairsJoin(Params(front), one);
      assert one[1..] == [];
      ParamHasNoAmp(last);
      assert RawPairs(one) == RawPair(Param(last));
    }
  }

  lemma {:induction false} ParamsJoin(front: seq<Pair>, last: Pair)
    ensures Params(front + [last]) == Params(front) + [Param(last)]
  {
    if front == [] {
      assert front + [last] == [last] && [last][1..] == [];
    } else {
      ParamsJoin(front[1..], last);
      assert (front + [last])[1..] == front[1..] + [last];
    }
  }

  /** A callback query printed from pairs is understood by the last value of each of the four keys. */
  lemma CallbackReadsBack(first: Pair, more: seq<Pair>, key: string)
    requires AreTexts([first] + more) && IsPlainAscii(key)
    ensures LastValue(RawPairs(Split(Param(first) + More(more), AMP)), Ascii(key)) == LastOf([first] + more, Ascii(key))
  {
    var all := [first] + more;
    PlainAscii(key);
    ParamHasNoAmp(first);
    SplitMore(Param(first), more);
    assert all[1..] == more;
    assert Params(all) == [Param(first)] + Params(more);
    RawPairsOfParams(all);
    LastOfEncoded(all, Ascii(key));
  }
}
