/** Strings as the standard library handles them: trimming and searching. */
module Text {
  /** White space, as the Unicode Standard lists it. */
  predicate IsWhite(c: char) {
    || '\U{9}' <= c <= '\U{D}' || c == ' ' || c == '\U{85}' || c == '\U{A0}' || c == '\U{1680}'
    || '\U{2000}' <= c <= '\U{200A}' || c == '\U{2028}' || c == '\U{2029}' || c == '\U{202F}'
    || c == '\U{205F}' || c == '\U{3000}'
  }

  function TrimStart(s: string): string {
    if s != [] && IsWhite(s[0]) then TrimStart(s[1..]) else s
  }

  function TrimEnd(s: string): string {
    if s != [] && IsWhite(s[|s| - 1]) then TrimEnd(s[..|s| - 1]) else s
  }

  function Trim(s: string): string {
    TrimEnd(TrimStart(s))
  }

  /** Index of the first `c`, or the length of `s` if there is none. */
  function FirstIndex<T(==)>(s: seq<T>, c: T): (at: nat)
    ensures at <= |s|
    ensures at < |s| ==> s[at] == c
    ensures c !in s[..at]
  {
    if s == [] then 0
    else if s[0] == c then 0
    else
      var at := FirstIndex(s[1..], c) + 1;
      assert s[..at] == [s[0]] + s[1..][..at - 1];
      at
  }

  /** The first `c` of `a + [c] + b` ends an `a` without one. */
  lemma {:induction false} FindAfter<T>(a: seq<T>, c: T, b: seq<T>)
    requires c !in a
    ensures FirstIndex(a + [c] + b, c) == |a|
  {
    if a != [] {
      FindAfter(a[1..], c, b);
      assert (a + [c] + b)[1..] == a[1..] + [c] + b;
    }
  }

  lemma FindNone<T>(s: seq<T>, c: T)
    requires c !in s
    ensures FirstIndex(s, c) == |s|
  {
  }

  /** The parts of `s` between the `c`s; always at least one. */
  function Split<T(==)>(s: seq<T>, c: T): (parts: seq<seq<T>>)
    ensures parts != []
  {
    var at := FirstIndex(s, c);
    if at == |s| then [s] else [s[..at]] + Split(s[at + 1..], c)
  }

  lemma SplitFirst<T>(a: seq<T>, c: T, b: seq<T>)
    requires c !in a
    ensures Split(a, c) == [a]
    ensures Split(a + [c] + b, c) == [a] + Split(b, c)
  {
    FindNone(a, c);
    FindAfter(a, c, b);
    assert (a + [c] + b)[..|a|] == a;
    assert (a + [c] + b)[|a| + 1..] == b;
  }

  /** Every `pattern` replaced, from left to right. */
  function Replace(s: string, pattern: string, put: string): string
    requires pattern != []
    decreases |s|
  {
    if s == [] then []
    else if pattern <= s then put + Replace(s[|pattern|..], pattern, put)
    else [s[0]] + Replace(s[1..], pattern, put)
  }

  // ---- decimal digits ----

  predicate IsDigit(c: char) {
    '0' <= c <= '9'
  }

  predicate IsNumber(s: string) {
    s == [] || (IsDigit(s[|s| - 1]) && IsNumber(s[..|s| - 1]))
  }

  function NumberOf(s: string): nat
    requires IsNumber(s)
  {
    if s == [] then 0 else NumberOf(s[..|s| - 1]) * 10 + (s[|s| - 1] as int - 48)
  }

  function Digit(n: nat): char
    requires n < 10
  {
    (48 + n) as char
  }

  function Zeros(n: nat): string {
    if n == 0 then [] else Zeros(n - 1) + ['0']
  }

  /** A number printed with at least `width` digits. */
  function Padded(n: nat, width: nat): (text: string)
    ensures |text| >= width && |text| >= 1
    ensures IsNumber(text)
    ensures NumberOf(text) == n
  {
    var rest := if width > 0 then width - 1 else 0;
    if n < 10 then
      ZerosAreZero(rest);
      Zeros(rest) + [Digit(n)]
    else
      Padded(n / 10, rest) + [Digit(n % 10)]
  }

  lemma ZerosAreZero(n: nat)
    ensures |Zeros(n)| == n && IsNumber(Zeros(n)) && NumberOf(Zeros(n)) == 0
  {
  }

  lemma {:induction false} NumberStartsWithDigit(s: string)
    requires IsNumber(s) && s != []
    ensures IsDigit(s[0])
  {
    if |s| > 1 {
      NumberStartsWithDigit(s[..|s| - 1]);
    }
  }

  lemma ConcatAssoc3<T>(a: seq<T>, b: seq<T>, c: seq<T>, d: seq<T>)
    ensures a + b + c + d == a + (b + c + d)
  {
  }

  /** The last part, taken off first. */
  lemma {:induction false} SplitLast<T>(a: seq<T>, c: T, b: seq<T>)
    requires c !in b
    ensures Split(a + [c] + b, c) == Split(a, c) + [b]
    decreases |a|
  {
    hide Split;
    var at := FirstIndex(a, c);
    if at == |a| {
      assert a[..|a|] == a;
      SplitFirst(a, c, b);
      SplitFirst(b, c, []);
    } else {
      var x, y := a[..at], a[at + 1..];
      SplitLast(y, c, b);
      assert a == x + [c] + y;
      ConcatAssoc3(x + [c], y, [c], b);
      SplitFirst(x, c, y);
      SplitFirst(x, c, y + [c] + b);
      assert [x] + (Split(y, c) + [b]) == [x] + Split(y, c) + [b];
    }
  }

  // ---- sequences in parts ----

  function Concat<V>(parts: seq<seq<V>>): seq<V> {
    if parts == [] then [] else Concat(parts[..|parts| - 1]) + parts[|parts| - 1]
  }

  lemma {:induction false} ConcatJoins<V>(a: seq<seq<V>>, b: seq<seq<V>>)
    ensures Concat(a + b) == Concat(a) + Concat(b)
    decreases |b|
  {
    if b == [] {
      assert a + b == a;
    } else {
      var n := |b| - 1;
      assert (a + b)[..|a + b| - 1] == a + b[..n];
      ConcatJoins(a, b[..n]);
      assert Concat(a) + (Concat(b[..n]) + b[n]) == Concat(a) + Concat(b[..n]) + b[n];
    }
  }
}
