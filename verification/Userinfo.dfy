/** Userinfo in URLs: the check catalogs are read with, and the redaction of origins in messages. */
module Userinfo {
  import opened Utf8
  import opened Percent

  /** Does `b` end an authority? */
  predicate IsDelimiter(b: byte) {
    b == 0x2F || b == 0x3F || b == 0x23
  }

  /** Index of the first delimiter, or the length of `s`. */
  function AuthorityLength(s: Bytes): (n: nat)
    ensures n <= |s|
  {
    if s == [] || IsDelimiter(s[0]) then 0 else 1 + AuthorityLength(s[1..])
  }

  function Authority(rest: Bytes): Bytes {
    rest[..AuthorityLength(rest)]
  }

  predicate HasDelimiter(s: Bytes) {
    AuthorityLength(s) < |s|
  }

  lemma {:induction false} AuthorityHasNoDelimiter(rest: Bytes)
    ensures !HasDelimiter(Authority(rest))
  {
    if rest != [] && !IsDelimiter(rest[0]) {
      AuthorityHasNoDelimiter(rest[1..]);
      assert Authority(rest)[1..] == Authority(rest[1..]);
    }
  }

  // ---- the catalog check ----

  /** `bytes_contain_userinfo`: an `@`, or one still spelt `%40`. */
  predicate ShowsUserinfo(s: Bytes) {
    AT in s || exists i :: 0 <= i < |s| - 2 && s[i] == PERCENT && s[i + 1] == 0x34 && s[i + 2] == 0x30
  }

  lemma {:induction false} FullPassIsSame(s: Bytes)
    requires |Pass(s)| == |s|
    ensures Pass(s) == s
  {
    if s != [] && !IsTriple(s, 0) {
      FullPassIsSame(s[1..]);
      assert s == [s[0]] + s[1..];
    }
  }

  lemma ShownIsThere(s: Bytes)
    requires ShowsUserinfo(s)
    ensures AT in Stable(s)
  {
    if AT in s {
      AtStays(s);
    } else {
      var i :| 0 <= i < |s| - 2 && s[i] == PERCENT && s[i + 1] == 0x34 && s[i + 2] == 0x30;
      var t := Contract(s, i);
      assert t[i] == AT;
      NormalKeepsByte(t, AT);
      ContractKeepsNormal(s, i);
      StableIsNormal(s);
    }
  }

  /** `percent_decode_bytes`, the catalog's own decode pass. */
  method PercentDecodeBytes(input: Bytes) returns (out: Bytes)
    ensures out == Pass(input)
  {
    hide Pass, HexNibble;
    out := [];
    var index := 0;
    assert input[0..] == input;
    while index < |input|
      invariant 0 <= index <= |input|
      invariant out + Pass(input[index..]) == Pass(input)
      decreases |input| - index
    {
      PassAt(input, index);
      if input[index] == PERCENT && index + 2 < |input| {
        var hi, lo := HexNibble(input[index + 1]), HexNibble(input[index + 2]);
        if hi.Some? && lo.Some? {
          NibbleIsSmall(input[index + 1]);
          NibbleIsSmall(input[index + 2]);
          var b: byte := hi.value * 16 + lo.value;
          ConcatAssoc(out, [b], Pass(input[index + 3..]));
          out := out + [b];
          index := index + 3;
          continue;
        }
      }
      ConcatAssoc(out, [input[index]], Pass(input[index + 1..]));
      out := out + [input[index]];
      index := index + 1;
    }
    assert out + [] == out;
  }

  /** `catalog_authority_has_userinfo`: true exactly if decoding the authority until stable shows an `@`. */
  method CatalogAuthorityHasUserinfo(rest: Bytes) returns (found: bool)
    ensures found <==> AT in Stable(Authority(rest))
  {
    var current := Authority(rest);
    var guard := |current| + 1;
    while true
      invariant Stable(current) == Stable(Authority(rest))
      invariant guard >= |current|
      decreases guard
    {
      if ShowsUserinfo(current) {
        ShownIsThere(current);
        return true;
      }
      if guard == 0 {
        return false;
      }
      guard := guard - 1;
      var decoded := PercentDecodeBytes(current);
      if decoded == current {
        return false;
      }
      if |decoded| == |current| {
        FullPassIsSame(current);
      }
      current := decoded;
    }
  }

  // ---- redaction ----

  /** Index of the last `b`, or -1. */
  function LastIndex(s: Bytes, b: byte): (at: int)
    ensures -1 <= at < |s|
  {
    if s == [] then -1 else if s[|s| - 1] == b then |s| - 1 else LastIndex(s[..|s| - 1], b)
  }

  /** `host_after_userinfo`. */
  function HostAfterUserinfo(authority: Bytes): Bytes {
    var decoded := Stable(authority);
    if AT !in decoded then authority
    else
      var host := decoded[LastIndex(decoded, AT) + 1..];
      Lossy(Authority(host))
  }

  lemma NothingAfterLast(s: Bytes, b: byte)
    ensures b !in s[LastIndex(s, b) + 1..]
  {
  }

  lemma PartIsNormal(s: Bytes, from: nat, to: nat)
    requires IsNormal(s) && from <= to <= |s|
    ensures IsNormal(s[from..to])
  {
    var part := s[from..to];
    forall i: nat ensures !IsTriple(part, i) {
      assert !IsTriple(s, from + i);
    }
  }

  lemma SuffixTriple(s: Bytes, n: nat, j: nat)
    requires n <= |s| && IsTriple(s[n..], j)
    ensures IsTriple(s, n + j)
  {
  }

  lemma SkipNoAscii(first: Bytes, rest: Bytes, i: nat)
    requires NoAscii(first) && IsTriple(first + rest, i)
    ensures i >= |first| && IsTriple(rest, i - |first|)
  {
  }

  lemma AsciiTriple(s: Bytes)
    requires IsTriple(Lossy(s), 0)
    ensures IsTriple(s, 0)
  {
    LossyFirstAscii(s);
    LossyFirstAscii(s[1..]);
    LossyFirstAscii(s[1..][1..]);
  }

  lemma LossySome(s: Bytes, i: nat)
    requires IsTriple(Lossy(s), i)
    ensures s != [] && Lossy(s) != []
  {
  }

  lemma LossyOfAscii(s: Bytes)
    requires s != [] && s[0] < 0x80
    ensures Lossy(s) != [] && Lossy(s)[1..] == Lossy(s[1..])
  {
  }

  /** Lossy decoding makes no triple that was not there. */
  lemma {:induction false} LossyTripleIsThere(s: Bytes, i: nat) returns (j: nat)
    requires IsTriple(Lossy(s), i)
    ensures IsTriple(s, j)
    decreases |s|
  {
    hide Lossy, IsTriple, NoAscii;
    LossySome(s, i);
    if s[0] < 0x80 {
      if i == 0 {
        AsciiTriple(s);
        j := 0;
      } else {
        TripleLater(Lossy(s), i - 1);
        LossyOfAscii(s);
        j := LossyTripleIsThere(s[1..], i - 1);
        TripleLater(s, j);
        j := j + 1;
      }
    } else {
      var n, first := FirstSubpart(s);
      SkipNoAscii(first, Lossy(s[n..]), i);
      j := LossyTripleIsThere(s[n..], i - |first|);
      SuffixTriple(s, n, j);
      j := n + j;
    }
  }

  lemma LossyStaysNormal(s: Bytes)
    requires IsNormal(s)
    ensures IsNormal(Lossy(s))
  {
    forall i: nat ensures !IsTriple(Lossy(s), i) {
      if IsTriple(Lossy(s), i) {
        var j := LossyTripleIsThere(s, i);
      }
    }
  }

  lemma {:induction false} DelimiterIsThere(s: Bytes)
    ensures HasDelimiter(s) <==> exists b :: b in s && IsDelimiter(b)
  {
    if s != [] {
      assert s[0] in s;
      if !IsDelimiter(s[0]) {
        DelimiterIsThere(s[1..]);
        assert s == [s[0]] + s[1..];
      }
    }
  }

  lemma {:induction false} WholeAuthority(s: Bytes)
    requires !HasDelimiter(s)
    ensures Authority(s) == s
  {
  }

  /**
   The host left by the redaction shows no `@`, however often it is decoded again; and one that was cut out of userinfo
   is fully decoded and holds no delimiter.
   */
  lemma HostHidesUserinfo(authority: Bytes, n: nat)
    ensures AT !in Stable(HostAfterUserinfo(authority)) && AT !in Passes(HostAfterUserinfo(authority), n)
    ensures AT in Stable(authority) ==>
              !HasDelimiter(HostAfterUserinfo(authority)) && Stable(HostAfterUserinfo(authority)) == HostAfterUserinfo(authority)
  {
    hide Stable, Pass, Lossy, IsNormal, IsTriple, HasDelimiter, Passes;
    var decoded, host := Stable(authority), HostAfterUserinfo(authority);
    if AT in decoded {
      var at := LastIndex(decoded, AT);
      var rest := decoded[at + 1..];
      NothingAfterLast(decoded, AT);
      StableIsNormal(authority);
      NormalIsSelf(authority);
      PartIsNormal(decoded, at + 1, at + 1 + AuthorityLength(rest));
      var cut := Authority(rest);
      assert cut == decoded[at + 1..at + 1 + AuthorityLength(rest)];
      CutIsClean(rest, cut);
      LossyStaysNormal(cut);
      NormalIsSelf(host);
      StableIsNormal(host);
    }
    NoPassShowsAt(host, n);
  }

  lemma CutIsClean(rest: Bytes, cut: Bytes)
    requires cut == Authority(rest) && AT !in rest
    ensures AT !in Lossy(cut) && !HasDelimiter(Lossy(cut))
  {
    assert forall b :: b in cut ==> b in rest;
    if AT in Lossy(cut) {
      LossyByteIsThere(cut, AT);
    }
    AuthorityHasNoDelimiter(rest);
    DelimiterIsThere(cut);
    DelimiterIsThere(Lossy(cut));
    if HasDelimiter(Lossy(cut)) {
      var b :| b in Lossy(cut) && IsDelimiter(b);
      LossyByteIsThere(cut, b);
    }
  }

  // ---- whole URLs ----

  const SCHEME_END: Bytes := [0x3A, 0x2F, 0x2F]

  /** Index of the first `://`, or the length of `s`. */
  function SchemeLength(s: Bytes): (n: nat)
    ensures n <= |s|
    ensures n < |s| ==> SCHEME_END <= s[n..]
  {
    if s == [] || SCHEME_END <= s then 0
    else
      var n := 1 + SchemeLength(s[1..]);
      assert s[n..] == s[1..][n - 1..];
      n
  }

  predicate HasScheme(s: Bytes) {
    SchemeLength(s) < |s|
  }

  /** What is in front of the authority: the scheme with its `://`, or nothing. */
  function Front(s: Bytes): Bytes {
    if HasScheme(s) then s[..SchemeLength(s)] + SCHEME_END else []
  }

  function AfterScheme(s: Bytes): Bytes {
    if HasScheme(s) then s[SchemeLength(s) + 3..] else s
  }

  /** `redact_url_origin`. */
  function RedactUrlOrigin(raw: Bytes): Bytes {
    Front(raw) + HostAfterUserinfo(Authority(AfterScheme(raw)))
  }

  /** The scheme ends where the first `://` does, whatever follows it. */
  lemma {:induction false} SchemeStays(s: Bytes, t: Bytes)
    requires HasScheme(s) && |t| >= SchemeLength(s) + 3 && t[..SchemeLength(s) + 3] == s[..SchemeLength(s) + 3]
    ensures SchemeLength(t) == SchemeLength(s)
  {
    var n := SchemeLength(s);
    SameStart(s, t, n + 3);
    if n > 0 {
      assert t[1..][..n + 2] == t[..n + 3][1..] == s[..n + 3][1..] == s[1..][..n + 2];
      SchemeStays(s[1..], t[1..]);
    }
  }

  lemma SameStart(s: Bytes, t: Bytes, n: nat)
    requires 3 <= n <= |s| && n <= |t| && t[..n] == s[..n]
    ensures SCHEME_END <= t <==> SCHEME_END <= s
  {
  }

  lemma {:induction false} NoSchemeInHost(s: Bytes)
    requires !HasDelimiter(s)
    ensures !HasScheme(s)
  {
    if s != [] {
      NoSchemeInHost(s[1..]);
      DelimiterIsThere(s);
      if |s| > 1 {
        assert s[1] in s;
      }
    }
  }

  lemma HostHasNoDelimiter(rest: Bytes)
    ensures !HasDelimiter(HostAfterUserinfo(Authority(rest)))
  {
    AuthorityHasNoDelimiter(rest);
    HostHidesUserinfo(Authority(rest), 0);
  }

  lemma RedactedParts(raw: Bytes)
    ensures var host := HostAfterUserinfo(Authority(AfterScheme(raw)));
            && Front(RedactUrlOrigin(raw)) == Front(raw)
            && AfterScheme(RedactUrlOrigin(raw)) == host && Authority(host) == host
  {
    var host := HostAfterUserinfo(Authority(AfterScheme(raw)));
    var out := RedactUrlOrigin(raw);
    HostHasNoDelimiter(AfterScheme(raw));
    WholeAuthority(host);
    if HasScheme(raw) {
      var n := SchemeLength(raw);
      assert raw[..n + 3] == raw[..n] + SCHEME_END by {
        assert raw[n..][..3] == SCHEME_END;
      }
      assert out[..n + 3] == raw[..n + 3];
      SchemeStays(raw, out);
      assert out[..n] == raw[..n] && out[n + 3..] == host;
    } else {
      NoSchemeInHost(host);
      assert [] + host == host;
    }
  }

  /**
   A redacted URL keeps its scheme, passes the catalog's userinfo check, and is left alone by a second redaction.
   */
  lemma RedactedHasNoUserinfo(raw: Bytes)
    ensures Front(RedactUrlOrigin(raw)) == Front(raw)
    ensures AT !in Stable(Authority(AfterScheme(RedactUrlOrigin(raw))))
    ensures RedactUrlOrigin(RedactUrlOrigin(raw)) == RedactUrlOrigin(raw)
  {
    RedactedParts(raw);
    HostHidesUserinfo(Authority(AfterScheme(raw)), 0);
  }
}
