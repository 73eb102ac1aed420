/** The lossy decoding told by the encoding of characters: what it keeps and what it replaces. */
module Characters {
  import opened Utf8

  /** Unicode scalar values. */
  predicate IsScalar(c: nat) {
    c < 0x11_0000 && !(0xD800 <= c < 0xE000)
  }

  /** UTF-8, section 3 of RFC 3629. */
  function Encoded(c: nat): Bytes
    requires IsScalar(c)
  {
    if c < 0x80 then [c]
    else if c < 0x800 then [0xC0 + c / 64, 0x80 + c % 64]
    else if c < 0x1_0000 then [0xE0 + c / 4096, 0x80 + c / 64 % 64, 0x80 + c % 64]
    else [0xF0 + c / 262144, 0x80 + c / 4096 % 64, 0x80 + c / 64 % 64, 0x80 + c % 64]
  }

  lemma Leads(c: nat)
    requires IsScalar(c)
    ensures var e := Encoded(c);
            && |e| > 0 && Width(e[0]) == |e|
            && (|e| > 1 ==> IsSecond(e[0], e[1])) && (|e| > 2 ==> IsContinuation(e[2])) && (|e| > 3 ==> IsContinuation(e[3]))
  {
  }

  /** A byte sequence that starts as a character does is matched as far as it does. */
  lemma MatchesAsFar(s: Bytes, c: nat, n: nat)
    requires IsScalar(c) && 0 < n <= |s| && s[..n] <= Encoded(c)
    ensures Matched(s) >= n && Width(s[0]) == |Encoded(c)|
    ensures n == |Encoded(c)| ==> Matched(s) == n
  {
    hide Encoded;
    Leads(c);
    var e, start := Encoded(c), s[..n];
    assert forall i | 0 <= i < n :: s[i] == start[i] == e[i];
  }

  /** A character is kept. */
  lemma KeepsCharacter(c: nat, rest: Bytes)
    requires IsScalar(c)
    ensures Lossy(Encoded(c) + rest) == Encoded(c) + Lossy(rest)
  {
    hide Encoded;
    var e := Encoded(c);
    Leads(c);
    assert e[..|e|] == e;
    MatchesAsFar(e, c, |e|);
    LossyKeepsCharacter(e, rest);
  }

  /** The character of well-formed bytes. */
  function Scalar(a: byte, b: byte, c: byte, d: byte): int {
    if a < 0x80 then a
    else if a < 0xE0 then (a - 0xC0) * 64 + (b - 0x80)
    else if a < 0xF0 then (a - 0xE0) * 4096 + (b - 0x80) * 64 + (c - 0x80)
    else (a - 0xF0) * 262144 + (b - 0x80) * 4096 + (c - 0x80) * 64 + (d - 0x80)
  }

  lemma SixBits(high: int, low: int)
    requires 0 <= low < 64
    ensures (high * 64 + low) / 64 == high && (high * 64 + low) % 64 == low
  {
  }

  lemma TwoIs(a: byte, b: byte)
    requires 0xC2 <= a < 0xE0 && 0x80 <= b < 0xC0
    ensures var n := Scalar(a, b, 0x80, 0x80);
            n >= 0 && IsScalar(n) && Encoded(n) == [a, b]
  {
    SixBits(a - 0xC0, b - 0x80);
  }

  lemma ThreeIs(a: byte, b: byte, c: byte)
    requires 0xE0 <= a < 0xF0 && IsSecond(a, b) && 0x80 <= c < 0xC0
    ensures var n := Scalar(a, b, c, 0x80);
            n >= 0 && IsScalar(n) && Encoded(n) == [a, b, c]
  {
    var high := (a - 0xE0) * 64 + (b - 0x80);
    SixBits(a - 0xE0, b - 0x80);
    SixBits(high, c - 0x80);
    var n := Scalar(a, b, c, 0x80);
    assert n == high * 64 + (c - 0x80) && n / 4096 == a - 0xE0;
    assert 0x800 <= n < 0x1_0000;
  }

  lemma FourIs(a: byte, b: byte, c: byte, d: byte)
    requires 0xF0 <= a < 0xF5 && IsSecond(a, b) && 0x80 <= c < 0xC0 && 0x80 <= d < 0xC0
    ensures var n := Scalar(a, b, c, d);
            n >= 0 && IsScalar(n) && Encoded(n) == [a, b, c, d]
  {
    var top := (a - 0xF0) * 64 + (b - 0x80);
    var high := top * 64 + (c - 0x80);
    SixBits(a - 0xF0, b - 0x80);
    SixBits(top, c - 0x80);
    SixBits(high, d - 0x80);
    var n := Scalar(a, b, c, d);
    assert n == high * 64 + (d - 0x80) && n / 4096 == top && n / 262144 == a - 0xF0;
    assert 0x1_0000 <= n < 0x11_0000;
  }

  lemma ScalarIs(a: byte, b: byte, c: byte, d: byte)
    requires Width(a) > 0 && IsSecond(a, b) && IsContinuation(c) && IsContinuation(d)
    ensures var n := Scalar(a, b, c, d);
            n >= 0 && IsScalar(n) && Encoded(n) == [a, b, c, d][..Width(a)]
  {
    if 0xF0 <= a {
      FourIs(a, b, c, d);
    } else if 0xE0 <= a {
      ThreeIs(a, b, c);
    } else if 0x80 <= a {
      TwoIs(a, b);
    }
  }

  /** What the first `n` matched bytes are the start of. */
  lemma StartsCharacter(s: Bytes, n: nat) returns (c: nat)
    requires s != [] && Width(s[0]) > 0 && n == Matched(s)
    ensures IsScalar(c) && s[..n] <= Encoded(c) && |Encoded(c)| == Width(s[0])
  {
    hide Scalar, Encoded;
    var second: byte := if n > 1 then s[1] else if s[0] == 0xED then 0x80 else if s[0] == 0xE0 then 0xA0 else
                        if s[0] == 0xF0 then 0x90 else 0x80;
    var third: byte := if n > 2 then s[2] else 0x80;
    var fourth: byte := if n > 3 then s[3] else 0x80;
    ScalarIs(s[0], second, third, fourth);
    c := Scalar(s[0], second, third, fourth);
    var all := [s[0], second, third, fourth];
    assert n <= Width(s[0]);
    assert forall i | 0 <= i < n :: s[i] == all[i];
    assert s[..n] == all[..Width(s[0])][..n];
  }

  ghost predicate StartsWithCharacter(s: Bytes) {
    exists c: nat :: IsScalar(c) && Encoded(c) <= s
  }

  /** The first `n` bytes are the start of a character. */
  ghost predicate IsStart(s: Bytes, n: nat)
    requires n <= |s|
  {
    exists c: nat :: IsScalar(c) && s[..n] <= Encoded(c)
  }

  lemma WellFormedStarts(s: Bytes)
    requires s != [] && StartsWellFormed(s)
    ensures StartsWithCharacter(s)
  {
    hide Encoded;
    var c := StartsCharacter(s, Matched(s));
    assert Encoded(c) == s[..Matched(s)];
  }

  /**
   Where no character stands, the longest piece that is the start of one gives way to one replacement character; a single
   byte does where there is no such piece.
   */
  lemma ReplacesOthers(s: Bytes) returns (n: nat)
    requires s != [] && !StartsWithCharacter(s)
    ensures 0 < n <= |s| && Lossy(s) == [0xEF, 0xBF, 0xBD] + Lossy(s[n..])
    ensures n > 1 ==> IsStart(s, n)
    ensures n < |s| ==> !IsStart(s, n + 1)
  {
    hide Encoded;
    n := Matched(s);
    if StartsWellFormed(s) {
      WellFormedStarts(s);
    }
    if Width(s[0]) > 0 {
      var c := StartsCharacter(s, n);
      assert IsStart(s, n);
    }
    if n < |s| && IsStart(s, n + 1) {
      var c: nat :| IsScalar(c) && s[..n + 1] <= Encoded(c);
      MatchesAsFar(s, c, n + 1);
    }
  }
}
