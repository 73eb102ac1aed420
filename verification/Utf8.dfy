/** Options, results, bytes, and the lossy UTF-8 decoding the stream readers apply. */
module Utf8 {
  datatype Option<+T> = None | Some(value: T)

  datatype Result<+T, +E> = Ok(value: T) | Err(error: E)

  type byte = x: int | 0 <= x < 256
  type Bytes = seq<byte>

  const LF: byte := 10
  const CR: byte := 13
  const SPACE: byte := 32
  /** U+FFFD in UTF-8. */
  const REPLACEMENT: Bytes := [0xEF, 0xBF, 0xBD]

  lemma ConcatAssoc<T>(a: seq<T>, b: seq<T>, c: seq<T>)
    ensures a + (b + c) == a + b + c
  {
  }

  predicate IsContinuation(b: byte) {
    0x80 <= b < 0xC0
  }

  /** Well-formed second bytes (table 3-7 of the Unicode Standard). */
  predicate IsSecond(lead: byte, b: byte) {
    if lead == 0xE0 then 0xA0 <= b < 0xC0
    else if lead == 0xED then 0x80 <= b < 0xA0
    else if lead == 0xF0 then 0x90 <= b < 0xC0
    else if lead == 0xF4 then 0x80 <= b < 0x90
    else IsContinuation(b)
  }

  /** Bytes a character with this lead byte takes; 0 for a byte that cannot lead. */
  function Width(lead: byte): nat {
    if lead < 0x80 then 1
    else if 0xC2 <= lead < 0xE0 then 2
    else if 0xE0 <= lead < 0xF0 then 3
    else if 0xF0 <= lead < 0xF5 then 4
    else 0
  }

  /** Length of the maximal subpart at the front of `s`. */
  function Matched(s: Bytes): (n: nat)
    requires s != []
    ensures 1 <= n <= |s|
  {
    var w := Width(s[0]);
    if w <= 1 || |s| < 2 || !IsSecond(s[0], s[1]) then 1
    else if w == 2 || |s| < 3 || !IsContinuation(s[2]) then 2
    else if w == 3 || |s| < 4 || !IsContinuation(s[3]) then 3
    else 4
  }

  predicate StartsWellFormed(s: Bytes)
    requires s != []
  {
    Width(s[0]) == Matched(s)
  }

  /** `String::from_utf8_lossy`: every ill-formed maximal subpart becomes one U+FFFD. */
  function Lossy(s: Bytes): Bytes {
    if s == [] then []
    else
      var n := Matched(s);
      (if StartsWellFormed(s) then s[..n] else REPLACEMENT) + Lossy(s[n..])
  }

  /** `s` is UTF-8 text. */
  predicate IsText(s: Bytes) {
    Lossy(s) == s
  }

  /** The first subpart ends before an ASCII byte. */
  lemma {:induction false} MatchedStopsAtAscii(x: Bytes, s: Bytes)
    requires x != [] && |x| < |s| && x == s[..|x|] && s[|x|] < 0x80
    ensures Matched(s) == Matched(x)
  {
  }

  lemma {:induction false} LossyJoinsBeforeAscii(x: Bytes, t: Bytes)
    requires t != [] && t[0] < 0x80
    ensures Lossy(x + t) == Lossy(x) + Lossy(t)
    decreases |x|
  {
    var s := x + t;
    if x == [] {
      assert s == t;
    } else {
      var n := Matched(x);
      MatchedStopsAtAscii(x, s);
      var first := if StartsWellFormed(x) then x[..n] else REPLACEMENT;
      assert s[0] == x[0] && s[..n] == x[..n];
      assert s[n..] == x[n..] + t;
      LossyJoinsBeforeAscii(x[n..], t);
      ConcatAssoc(first, Lossy(x[n..]), Lossy(t));
    }
  }

  /** Decoding never reaches across an ASCII byte. */
  lemma {:induction false} LossySplitsAtAscii(x: Bytes, c: byte, y: Bytes)
    requires c < 0x80
    ensures Lossy(x + [c] + y) == Lossy(x) + [c] + Lossy(y)
  {
    var t := [c] + y;
    assert t[..1] == [c] && t[1..] == y;
    LossyJoinsBeforeAscii(x, t);
    assert x + [c] + y == x + t;
  }

  /** A well-formed first character is kept whatever follows it. */
  lemma {:induction false} LossyKeepsCharacter(v: Bytes, rest: Bytes)
    requires v != [] && StartsWellFormed(v) && Matched(v) == |v|
    ensures Lossy(v + rest) == v + Lossy(rest)
  {
  }

  /** Decoding yields text, so decoding twice is decoding once. */
  lemma {:induction false} LossyIsText(s: Bytes)
    ensures IsText(Lossy(s))
    decreases |s|
  {
    if s != [] {
      var n := Matched(s);
      LossyIsText(s[n..]);
      if StartsWellFormed(s) {
        assert Matched(s[..n]) == n;
        LossyKeepsCharacter(s[..n], Lossy(s[n..]));
      } else {
        LossyKeepsCharacter(REPLACEMENT, Lossy(s[n..]));
      }
    }
  }

  lemma {:induction false} TextJoins(x: Bytes, c: byte, y: Bytes)
    requires c < 0x80 && IsText(x) && IsText(y)
    ensures IsText(x + [c] + y)
  {
    LossySplitsAtAscii(x, c, y);
  }

  lemma {:induction false} LossyNeverShrinks(s: Bytes)
    ensures |Lossy(s)| >= |s|
    decreases |s|
  {
    if s != [] {
      LossyNeverShrinks(s[Matched(s)..]);
    }
  }

  /** Both sides of an ASCII byte in a text are texts. */
  lemma {:induction false} TextSplits(x: Bytes, c: byte, y: Bytes)
    requires c < 0x80 && IsText(x + [c] + y)
    ensures IsText(x) && IsText(y)
  {
    LossySplitsAtAscii(x, c, y);
    LossyNeverShrinks(x);
    LossyNeverShrinks(y);
    var s, d := x + [c] + y, Lossy(x) + [c] + Lossy(y);
    assert x == s[..|x|] == d[..|x|] == Lossy(x);
    assert y == s[|x| + 1..] == d[|x| + 1..] == Lossy(y);
  }

  /** An ASCII byte in front of the lossy text stood in front of the text. */
  lemma LossyFirstAscii(s: Bytes)
    requires Lossy(s) != [] && Lossy(s)[0] < 0x80
    ensures s != [] && s[0] == Lossy(s)[0] && Lossy(s)[1..] == Lossy(s[1..])
  {
  }

  /** Bytes that replace ill-formed ones, or belong to longer characters, are not ASCII. */
  predicate NoAscii(s: Bytes) {
    forall k :: 0 <= k < |s| ==> s[k] >= 0x80
  }

  lemma FirstSubpart(s: Bytes) returns (n: nat, first: Bytes)
    requires s != [] && s[0] >= 0x80
    ensures 0 < n <= |s| && NoAscii(first) && Lossy(s) == first + Lossy(s[n..])
  {
    n := Matched(s);
    first := if StartsWellFormed(s) then s[..n] else REPLACEMENT;
  }

  /** Lossy decoding makes no ASCII byte that was not there. */
  lemma {:induction false} LossyByteIsThere(s: Bytes, b: byte)
    requires b < 0x80 && b in Lossy(s)
    ensures b in s
    decreases |s|
  {
    if s[0] < 0x80 {
      assert Lossy(s) == [s[0]] + Lossy(s[1..]);
      if b != s[0] {
        LossyByteIsThere(s[1..], b);
      }
    } else {
      var n, first := FirstSubpart(s);
      assert b in Lossy(s[n..]);
      LossyByteIsThere(s[n..], b);
    }
  }
}
