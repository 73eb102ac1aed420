/** Percent decoding and redaction told by examples of every shape: which bytes triples stand for, and what is kept of a URL. */
module Redaction {
  import opened Utf8
  import opened Percent
  import opened Userinfo

  // ---- triples ----

  const LOWER: Bytes := [48, 49, 50, 51, 52, 53, 54, 55, 56, 57, 97, 98, 99, 100, 101, 102]
  const UPPER: Bytes := [48, 49, 50, 51, 52, 53, 54, 55, 56, 57, 65, 66, 67, 68, 69, 70]

  /** `digit` is the hexadecimal digit `n`, in either case. */
  predicate IsDigit(digit: byte, n: nat) {
    n < 16 && (digit == LOWER[n] || digit == UPPER[n])
  }

  lemma DigitIs(digit: byte, n: nat)
    requires n < 16
    ensures HexNibble(digit) == Some(n) <==> IsDigit(digit, n)
  {
    if HexNibble(digit) == Some(n) {
      assert digit == if n < 10 then 48 + n else if digit < 97 then 55 + n else 87 + n;
    }
  }

  /** A percent sign before two digits is the byte they spell; any other byte stands for itself. */
  lemma PassReads(first: byte, high: byte, low: byte, n: nat, m: nat, rest: Bytes)
    ensures IsDigit(high, n) && IsDigit(low, m) ==> Pass([0x25, high, low] + rest) == [n * 16 + m] + Pass(rest)
    ensures (forall k | 0 <= k < 16 :: !IsDigit(high, k)) || (forall k | 0 <= k < 16 :: !IsDigit(low, k)) ==>
              Pass([0x25, high, low] + rest) == [0x25] + Pass([high, low] + rest)
    ensures first != 0x25 ==> Pass([first] + rest) == [first] + Pass(rest)
    ensures Pass([0x25, high]) == [0x25] + Pass([high]) && Pass([0x25]) == [0x25] && Pass([]) == []
  {
    var s := [0x25, high, low] + rest;
    assert s[3..] == rest && s[1..] == [high, low] + rest && ([first] + rest)[1..] == rest;
    assert [0x25, high][1..] == [high];
    if n < 16 && m < 16 {
      DigitIs(high, n);
      DigitIs(low, m);
    }
    NibbleIsSmall(high);
    NibbleIsSmall(low);
    if HexNibble(high).Some? {
      DigitIs(high, HexNibble(high).value);
    }
    if HexNibble(low).Some? {
      DigitIs(low, HexNibble(low).value);
    }
  }

  // ---- texts in parts ----

  /** A byte that no triple holds. */
  predicate Parts(c: byte) {
    c != 0x25 && forall n | 0 <= n < 16 :: !IsDigit(c, n)
  }

  lemma PartsIsNoDigit(c: byte)
    requires Parts(c)
    ensures HexNibble(c).None?
  {
    NibbleIsSmall(c);
    if HexNibble(c).Some? {
      DigitIs(c, HexNibble(c).value);
    }
  }

  lemma ContractsInside(a: Bytes, c: byte, b: Bytes, i: nat)
    ensures IsTriple(a, i) ==> IsTriple(a + [c] + b, i) && Contract(a + [c] + b, i) == Contract(a, i) + [c] + b
    ensures IsTriple(b, i) ==>
              IsTriple(a + [c] + b, |a| + 1 + i) && Contract(a + [c] + b, |a| + 1 + i) == a + [c] + Contract(b, i)
  {
    var t := a + [c] + b;
    if IsTriple(a, i) {
      assert t[i] == a[i] && t[i + 1] == a[i + 1] && t[i + 2] == a[i + 2];
    }
    if IsTriple(b, i) {
      var j := |a| + 1 + i;
      assert t[j] == b[i] && t[j + 1] == b[i + 1] && t[j + 2] == b[i + 2];
    }
  }

  lemma NormalInParts(a: Bytes, c: byte, b: Bytes)
    requires Parts(c) && IsNormal(a) && IsNormal(b)
    ensures IsNormal(a + [c] + b)
  {
    PartsIsNoDigit(c);
    var t := a + [c] + b;
    assert t[|a|] == c;
    forall k: nat ensures !IsTriple(t, k) {
      if IsTriple(t, k) {
        if k + 3 <= |a| {
          assert IsTriple(a, k);
        } else if k > |a| {
          assert IsTriple(b, k - |a| - 1);
        }
      }
    }
  }

  lemma {:induction false} NormalSplits(a: Bytes, c: byte, b: Bytes)
    requires Parts(c)
    ensures Normal(a + [c] + b) == Normal(a) + [c] + Normal(b)
    decreases |a| + |b|
  {
    hide Parts, Contract;
    var i, j := FirstTriple(a, 0), FirstTriple(b, 0);
    ContractsInside(a, c, b, i);
    ContractsInside(a, c, b, j);
    if i < |a| {
      ContractKeepsNormal(a + [c] + b, i);
      NormalSplits(Contract(a, i), c, b);
    } else if j < |b| {
      ContractKeepsNormal(a + [c] + b, |a| + 1 + j);
      NormalSplits(a, c, Contract(b, j));
    } else {
      NormalIsSelf(a);
      NormalIsSelf(b);
      NormalInParts(a, c, b);
      NormalIsSelf(a + [c] + b);
    }
  }

  /** Decoding never reaches across a byte that is neither a percent sign nor a digit. */
  lemma StableSplits(a: Bytes, c: byte, b: Bytes)
    requires Parts(c)
    ensures Stable(a + [c] + b) == Stable(a) + [c] + Stable(b)
  {
    NormalSplits(a, c, b);
    StableIsNormal(a + [c] + b);
    StableIsNormal(a);
    StableIsNormal(b);
  }

  // ---- what is kept of a URL ----

  lemma {:induction false} LastIndexIs(x: Bytes, b: byte, y: Bytes)
    requires b !in y
    ensures LastIndex(x + [b] + y, b) == |x|
    decreases |y|
  {
    var t := x + [b] + y;
    if y == [] {
      assert t[|t| - 1] == b;
    } else {
      var n := |y| - 1;
      assert t[|t| - 1] == y[n] && t[..|t| - 1] == x + [b] + y[..n];
      LastIndexIs(x, b, y[..n]);
    }
  }

  /** Behind userinfo, whatever it is and however it is spelt, the decoded host is left. */
  lemma KeepsHost(userinfo: Bytes, host: Bytes)
    requires 0x40 !in Stable(host)
    ensures HostAfterUserinfo(userinfo + [0x40] + host) == Lossy(Authority(Stable(host)))
  {
    hide Stable, Lossy;
    var before, after := Stable(userinfo), Stable(host);
    StableSplits(userinfo, AT, host);
    LastIndexIs(before, AT, after);
    var decoded := before + [AT] + after;
    assert decoded[|before|] == AT && decoded[|before| + 1..] == after;
  }

  /** A host as it is written: text without percent signs, `@` or an authority's end. */
  predicate IsPlainHost(host: Bytes) {
    IsText(host) && forall b | b in host :: b != 0x25 && b != 0x40 && b != 0x2F && b != 0x3F && b != 0x23
  }

  lemma PlainHostStays(host: Bytes)
    requires IsPlainHost(host)
    ensures Stable(host) == host && Authority(host) == host && 0x40 !in host
  {
    assert IsNormal(host) by {
      forall i: nat ensures !IsTriple(host, i) {
        assert i < |host| ==> host[i] in host;
      }
    }
    NormalIsSelf(host);
    StableIsNormal(host);
    DelimiterIsThere(host);
    WholeAuthority(host);
  }

  /** What stands behind an authority: nothing, or a path, a query or a fragment. */
  predicate EndsAuthority(rest: Bytes) {
    rest == [] || rest[0] == 0x2F || rest[0] == 0x3F || rest[0] == 0x23
  }

  lemma {:induction false} AuthorityIs(s: Bytes, rest: Bytes)
    requires EndsAuthority(rest) && forall b | b in s :: b != 0x2F && b != 0x3F && b != 0x23
    ensures Authority(s + rest) == s
  {
    if s == [] {
      assert s + rest == rest;
    } else {
      assert s[0] in s && forall b | b in s[1..] :: b in s;
      assert (s + rest)[1..] == s[1..] + rest;
      AuthorityIs(s[1..], rest);
      assert s == [s[0]] + s[1..];
      var n := AuthorityLength(s[1..] + rest);
      assert (s + rest)[..n + 1] == [s[0]] + (s[1..] + rest)[..n];
    }
  }

  lemma {:induction false} SchemeIs(scheme: Bytes, rest: Bytes)
    requires 0x3A !in scheme
    ensures SchemeLength(scheme + [0x3A, 0x2F, 0x2F] + rest) == |scheme|
  {
    var s := scheme + [0x3A, 0x2F, 0x2F] + rest;
    if scheme == [] {
      assert s == SCHEME_END + rest;
    } else {
      assert s[0] == scheme[0] && s[1..] == scheme[1..] + [0x3A, 0x2F, 0x2F] + rest;
      SchemeIs(scheme[1..], rest);
    }
  }

  lemma RedactsAuthority(scheme: Bytes, authority: Bytes, rest: Bytes)
    requires 0x3A !in scheme && EndsAuthority(rest) && forall b | b in authority :: b != 0x2F && b != 0x3F && b != 0x23
    ensures RedactUrlOrigin(scheme + [0x3A, 0x2F, 0x2F] + (authority + rest))
         == scheme + [0x3A, 0x2F, 0x2F] + HostAfterUserinfo(authority)
  {
    var raw := scheme + [0x3A, 0x2F, 0x2F] + (authority + rest);
    SchemeIs(scheme, authority + rest);
    AuthorityIs(authority, rest);
    assert raw[..|scheme|] == scheme && raw[|scheme| + 3..] == authority + rest;
  }

  /** A redacted URL is its scheme and its host: userinfo, path, query and fragment are left out. */
  lemma RedactsUrl(scheme: Bytes, userinfo: Bytes, host: Bytes, rest: Bytes)
    requires 0x3A !in scheme && EndsAuthority(rest) && IsPlainHost(host)
    requires forall b | b in userinfo :: b != 0x2F && b != 0x3F && b != 0x23
    ensures RedactUrlOrigin(scheme + [0x3A, 0x2F, 0x2F] + (userinfo + [0x40] + host + rest)) == scheme + [0x3A, 0x2F, 0x2F] + host
    ensures RedactUrlOrigin(scheme + [0x3A, 0x2F, 0x2F] + (host + rest)) == scheme + [0x3A, 0x2F, 0x2F] + host
  {
    hide RedactUrlOrigin, Stable;
    PlainHostStays(host);
    KeepsHost(userinfo, host);
    RedactsAuthority(scheme, userinfo + [0x40] + host, rest);
    RedactsAuthority(scheme, host, rest);
  }
}
