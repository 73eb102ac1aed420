/** Percent decoding until nothing is left to decode. */
module Percent {
  import opened Utf8

  const PERCENT: byte := 0x25
  const AT: byte := 0x40

  // ---- one pass ----

  function HexNibble(b: byte): Option<byte> {
    if 0x30 <= b <= 0x39 then Some(b - 0x30)
    else if 0x61 <= b <= 0x66 then Some(b - 0x61 + 10)
    else if 0x41 <= b <= 0x46 then Some(b - 0x41 + 10)
    else None
  }

  /** Is there a `%HH` at `i`? */
  predicate IsTriple(s: Bytes, i: nat) {
    i + 3 <= |s| && s[i] == PERCENT && HexNibble(s[i + 1]).Some? && HexNibble(s[i + 2]).Some?
  }

  lemma NibbleIsSmall(b: byte)
    ensures HexNibble(b).Some? ==> HexNibble(b).value < 16
  {
  }

  function TripleByte(s: Bytes, i: nat): byte
    requires IsTriple(s, i)
  {
    NibbleIsSmall(s[i + 1]);
    NibbleIsSmall(s[i + 2]);
    HexNibble(s[i + 1]).value * 16 + HexNibble(s[i + 2]).value
  }

  /** Every triple replaced, from left to right. */
  function Pass(s: Bytes): (out: Bytes)
    ensures |out| <= |s|
  {
    if s == [] then []
    else if IsTriple(s, 0) then [TripleByte(s, 0)] + Pass(s[3..])
    else [s[0]] + Pass(s[1..])
  }

  /** `percent_decode` and `percent_decode_bytes`. */
  method PercentDecode(input: Bytes) returns (out: Bytes)
    ensures out == Pass(input)
  {
    hide Pass, IsTriple, TripleByte;
    out := [];
    var index := 0;
    assert input[0..] == input;
    while index < |input|
      invariant 0 <= index <= |input|
      invariant out + Pass(input[index..]) == Pass(input)
    {
      PassAt(input, index);
      if IsTriple(input, index) {
        ConcatAssoc(out, [TripleByte(input, index)], Pass(input[index + 3..]));
        out := out + [TripleByte(input, index)];
        index := index + 3;
      } else {
        ConcatAssoc(out, [input[index]], Pass(input[index + 1..]));
        out := out + [input[index]];
        index := index + 1;
      }
    }
    NothingPasses(input[index..]);
    assert out + [] == out;
  }

  lemma NothingPasses(s: Bytes)
    requires s == []
    ensures Pass(s) == []
  {
  }

  /** The pass from `i` on. */
  lemma PassAt(s: Bytes, i: nat)
    requires i < |s|
    ensures IsTriple(s, i) ==> i + 3 <= |s| && Pass(s[i..]) == [TripleByte(s, i)] + Pass(s[i + 3..])
    ensures !IsTriple(s, i) ==> Pass(s[i..]) == [s[i]] + Pass(s[i + 1..])
  {
    var rest := s[i..];
    if IsTriple(s, i) {
      assert rest[3..] == s[i + 3..];
    } else {
      assert rest[1..] == s[i + 1..];
    }
  }

  // ---- until stable ----

  /** Passes repeated until one does not shrink the text. */
  function Stable(s: Bytes): Bytes
    decreases |s|
  {
    if |Pass(s)| < |s| then Stable(Pass(s)) else s
  }

  /** `percent_decode_until_stable`. */
  method PercentDecodeUntilStable(input: Bytes) returns (current: Bytes)
    ensures current == Stable(input)
  {
    current := input;
    var passes := |input| + 1;
    for k := 0 to passes
      invariant Stable(current) == Stable(input)
      invariant |current| + k <= |input|
    {
      var decoded := PercentDecode(current);
      if |decoded| >= |current| {
        break;
      }
      current := decoded;
    }
  }

  // ---- rewriting in any order ----

  /** One triple replaced by its byte. */
  function Contract(s: Bytes, i: nat): (t: Bytes)
    requires IsTriple(s, i)
    ensures |t| == |s| - 2
  {
    s[..i] + [TripleByte(s, i)] + s[i + 3..]
  }

  ghost predicate IsNormal(s: Bytes) {
    forall i: nat :: !IsTriple(s, i)
  }

  /** The first triple at or after `i`; the length of `s` if there is none. */
  function FirstTriple(s: Bytes, i: nat): (k: nat)
    requires i <= |s|
    ensures i <= k <= |s| && (k < |s| ==> IsTriple(s, k))
    decreases |s| - i
  {
    if i == |s| || IsTriple(s, i) then i else FirstTriple(s, i + 1)
  }

  lemma {:induction false} NoneBeforeFirst(s: Bytes, i: nat, j: nat)
    requires i <= |s| && i <= j < FirstTriple(s, i)
    ensures !IsTriple(s, j)
    decreases |s| - i
  {
    if i < j {
      NoneBeforeFirst(s, i + 1, j);
    }
  }

  /** Replacing the first triple until there is none. */
  function Normal(s: Bytes): Bytes
    decreases |s|
  {
    var k := FirstTriple(s, 0);
    if k == |s| then s else Normal(Contract(s, k))
  }

  lemma {:induction false} FirstIs(s: Bytes, i: nat, k: nat)
    requires i <= k && IsTriple(s, k)
    requires forall j :: i <= j < k ==> !IsTriple(s, j)
    ensures FirstTriple(s, i) == k
    decreases k - i
  {
    if i < k {
      FirstIs(s, i + 1, k);
    }
  }

  /** Triples never overlap, so two of them can be replaced in either order. */
  lemma Commute(s: Bytes, i: nat, j: nat)
    requires IsTriple(s, i) && IsTriple(s, j) && i < j
    ensures i + 3 <= j
    ensures IsTriple(Contract(s, j), i) && IsTriple(Contract(s, i), j - 2)
    ensures Contract(Contract(s, j), i) == Contract(Contract(s, i), j - 2)
  {
  }

  lemma FirstStays(s: Bytes, i: nat, j: nat)
    requires IsTriple(s, i) && IsTriple(s, j) && i < j && FirstTriple(s, 0) == i
    ensures FirstTriple(Contract(s, j), 0) == i
  {
    Commute(s, i, j);
    var a := Contract(s, j);
    forall k | 0 <= k < i ensures !IsTriple(a, k) {
      NoneBeforeFirst(s, 0, k);
      assert a[k] == s[k] && a[k + 1] == s[k + 1] && a[k + 2] == s[k + 2];
    }
    FirstIs(a, 0, i);
  }

  /** Whichever triple is replaced, the normal form stays. */
  lemma {:induction false} ContractKeepsNormal(s: Bytes, j: nat)
    requires IsTriple(s, j)
    ensures Normal(Contract(s, j)) == Normal(s)
    decreases |s|
  {
    hide HexNibble, TripleByte, Contract;
    var i := FirstTriple(s, 0);
    if j < i {
      NoneBeforeFirst(s, 0, j);
    } else if i < j {
      Commute(s, i, j);
      FirstStays(s, i, j);
      ContractKeepsNormal(Contract(s, i), j - 2);
    }
  }

  /** The text after replacing triples at the given places, in turn. */
  function Contracted(s: Bytes, places: seq<nat>): Option<Bytes>
    decreases |places|
  {
    if places == [] then Some(s)
    else if IsTriple(s, places[0]) then Contracted(Contract(s, places[0]), places[1..])
    else None
  }

  lemma {:induction false} NormalIsSelf(s: Bytes)
    ensures IsNormal(s) ==> Normal(s) == s
    ensures IsNormal(Normal(s))
    decreases |s|
  {
    var k := FirstTriple(s, 0);
    if k == |s| {
      forall j: nat ensures !IsTriple(s, j) {
        if j < |s| {
          NoneBeforeFirst(s, 0, j);
        }
      }
    } else {
      assert IsTriple(s, k);
      NormalIsSelf(Contract(s, k));
    }
  }

  lemma TripleInside(before: Bytes, s: Bytes)
    requires IsTriple(s, 0)
    ensures IsTriple(before + s, |before|)
    ensures Contract(before + s, |before|) == before + [TripleByte(s, 0)] + s[3..]
  {
  }

  /** A pass replaces triples and nothing else, wherever it stands in a longer text. */
  lemma {:induction false} PassKeepsNormal(before: Bytes, s: Bytes)
    ensures Normal(before + Pass(s)) == Normal(before + s)
    decreases |s|
  {
    if s == [] {
      assert Pass(s) == s;
    } else if IsTriple(s, 0) {
      PassKeepsNormal(before + [TripleByte(s, 0)], s[3..]);
      ConcatAssoc(before, [TripleByte(s, 0)], Pass(s[3..]));
      TripleInside(before, s);
      ContractKeepsNormal(before + s, |before|);
    } else {
      PassKeepsNormal(before + [s[0]], s[1..]);
      ConcatAssoc(before, [s[0]], Pass(s[1..]));
      ConcatAssoc(before, [s[0]], s[1..]);
      assert s == [s[0]] + s[1..];
    }
  }

  lemma TripleLater(s: Bytes, i: nat)
    requires s != []
    ensures IsTriple(s, i + 1) <==> IsTriple(s[1..], i)
  {
  }

  lemma {:induction false} ShortPassIsNormal(s: Bytes)
    requires |Pass(s)| >= |s|
    ensures IsNormal(s)
    decreases |s|
  {
    if s != [] && !IsTriple(s, 0) {
      ShortPassIsNormal(s[1..]);
      forall i: nat ensures !IsTriple(s, i) {
        if i > 0 {
          TripleLater(s, i - 1);
        }
      }
    }
  }

  lemma {:induction false} StableIsNormal(s: Bytes)
    ensures Stable(s) == Normal(s)
    decreases |s|
  {
    if |Pass(s)| < |s| {
      PassKeepsNormal([], s);
      assert [] + Pass(s) == Pass(s) && [] + s == s;
      StableIsNormal(Pass(s));
    } else {
      ShortPassIsNormal(s);
      NormalIsSelf(s);
    }
  }

  lemma {:induction false} ContractedKeepsNormal(s: Bytes, places: seq<nat>)
    requires Contracted(s, places).Some?
    ensures Normal(Contracted(s, places).value) == Normal(s)
    decreases |places|
  {
    if places != [] {
      ContractKeepsNormal(s, places[0]);
      ContractedKeepsNormal(Contract(s, places[0]), places[1..]);
    }
  }

  /**
   Decoding until stable reaches a text without triples, and replacing triples in any other order until none is left
   reaches the same one.
   */
  lemma StableIsUnique(s: Bytes, places: seq<nat>)
    requires Contracted(s, places).Some? && IsNormal(Contracted(s, places).value)
    ensures Contracted(s, places).value == Stable(s)
    ensures IsNormal(Stable(s))
  {
    ContractedKeepsNormal(s, places);
    NormalIsSelf(Contracted(s, places).value);
    NormalIsSelf(s);
    StableIsNormal(s);
  }

  // ---- what the decoded text shows ----

  lemma {:induction false} NormalKeepsByte(s: Bytes, b: byte)
    requires b in s && b != PERCENT && HexNibble(b) == None
    ensures b in Normal(s)
    decreases |s|
  {
    var k := FirstTriple(s, 0);
    if k < |s| {
      assert b in Contract(s, k) by {
        var at :| 0 <= at < |s| && s[at] == b;
        assert at < k || at >= k + 3;
        assert at < k ==> Contract(s, k)[at] == b;
        assert at >= k + 3 ==> Contract(s, k)[at - 2] == b;
      }
      NormalKeepsByte(Contract(s, k), b);
    }
  }

  /** An `@` never goes away. */
  lemma AtStays(s: Bytes)
    requires AT in s
    ensures AT in Stable(s)
  {
    NormalKeepsByte(s, AT);
    StableIsNormal(s);
  }

  /** `n` decode passes. */
  function Passes(s: Bytes, n: nat): Bytes
    decreases n
  {
    if n == 0 then s else Passes(Pass(s), n - 1)
  }

  /** If decoding until stable shows no `@`, no number of passes does. */
  lemma {:induction false} NoPassShowsAt(s: Bytes, n: nat)
    requires AT !in Stable(s)
    ensures AT !in Passes(s, n)
    decreases n
  {
    if AT in s {
      AtStays(s);
    }
    if n > 0 {
      PassKeepsNormal([], s);
      assert [] + Pass(s) == Pass(s) && [] + s == s;
      StableIsNormal(s);
      StableIsNormal(Pass(s));
      NoPassShowsAt(Pass(s), n - 1);
    }
  }
}
