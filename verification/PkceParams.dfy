/** The authorization URL and the callback told parameter by parameter. */
module PkceParams {
  import opened Utf8
  import opened Text
  import opened Percent
  import opened Pkce
  import R = Redaction

  // ---- encoding and decoding ----

  /** Letters, digits and `-._~`: RFC 3986, section 2.3. */
  predicate StandsForItself(b: byte) {
    || 97 <= b <= 122 || 65 <= b <= 90 || 48 <= b <= 57
    || b == 45 || b == 46 || b == 95 || b == 126
  }

  lemma {:induction false} EncodeJoins(a: Bytes, b: Bytes)
    ensures Encode(a + b) == Encode(a) + Encode(b)
  {
    if a == [] {
      assert a + b == b;
    } else {
      EncodeJoins(a[1..], b);
      assert (a + b)[1..] == a[1..] + b;
      ConcatAssoc(EncodeByte(a[0]), Encode(a[1..]), Encode(b));
    }
  }

  /** Every byte is encoded by itself: as it is, or as a percent sign and two capital digits. */
  lemma EncodeParts(a: Bytes, b: byte, c: Bytes)
    ensures Encode(a + [b] + c)
         == Encode(a) + (if StandsForItself(b) then [b] else [0x25, R.UPPER[b / 16], R.UPPER[b % 16]]) + Encode(c)
    ensures Encode([]) == []
  {
    hide EncodeByte;
    EncodeJoins(a + [b], c);
    EncodeJoins(a, [b]);
    assert [b][1..] == [];
    assert Encode([b]) == EncodeByte(b) + [] == EncodeByte(b);
    ByteIs(b);
  }

  lemma DigitIs(n: byte)
    requires n < 16
    ensures HexDigit(n) == R.UPPER[n]
  {
  }

  lemma ByteIs(b: byte)
    ensures EncodeByte(b) == if StandsForItself(b) then [b] else [0x25, R.UPPER[b / 16], R.UPPER[b % 16]]
  {
    DigitIs(b / 16);
    DigitIs(b % 16);
  }

  /** A plus is a space; a percent sign takes two digits, or a sign and one; every other byte stands for itself. */
  lemma DecodeReads(b: byte, high: byte, low: byte, n: nat, m: nat, rest: Bytes)
    ensures DecodeBytes([0x2B] + rest) == [0x20] + DecodeBytes(rest)
    ensures R.IsDigit(high, n) && R.IsDigit(low, m) ==> DecodeBytes([0x25, high, low] + rest) == [n * 16 + m] + DecodeBytes(rest)
    ensures R.IsDigit(low, m) ==> DecodeBytes([0x25, 0x2B, low] + rest) == [m] + DecodeBytes(rest)
    ensures (R.Parts(high) && high != 0x2B) || R.Parts(low) ==>
              DecodeBytes([0x25, high, low] + rest) == [0x25] + DecodeBytes([high, low] + rest)
    ensures b != 0x25 && b != 0x2B ==> DecodeBytes([b] + rest) == [b] + DecodeBytes(rest)
  {
    hide R.IsDigit, R.Parts, HexNibble;
    assert ([0x2B] + rest)[1..] == rest && ([b] + rest)[1..] == rest;
    if n < 16 && m < 16 {
      R.DigitIs(high, n);
    }
    if m < 16 {
      R.DigitIs(low, m);
    }
    SmallDigit(high, n);
    SmallDigit(low, m);
    NoDigit(high);
    NoDigit(low);
    TripleReads(high, low, rest);
    TripleReads(0x2B, low, rest);
  }

  lemma SmallDigit(b: byte, n: nat)
    ensures R.IsDigit(b, n) ==> n < 16 && b != 0x2B
  {
  }

  lemma TripleReads(high: byte, low: byte, rest: Bytes)
    ensures DecodeBytes([0x25, high, low] + rest)
         == match Radix16(high, low)
            case Some(b) => [b] + DecodeBytes(rest)
            case None => [0x25] + DecodeBytes([high, low] + rest)
  {
    hide Radix16;
    var s := [0x25, high, low] + rest;
    assert s[3..] == rest && s[1..] == [high, low] + rest;
  }

  lemma NoDigit(b: byte)
    ensures R.Parts(b) ==> HexNibble(b).None?
  {
    if R.Parts(b) {
      R.PartsIsNoDigit(b);
    }
  }

  // ---- extras ----

  const NAMES: seq<string> := [
    "redirect_uri", "response_type", "client_id", "code_challenge", "code_challenge_method", "state", "code_verifier",
    "grant_type", "scope", "client_secret", "access_token", "refresh_token", "id_token", "password", "client_assertion",
    "client_assertion_type", "assertion", "device_code", "code"]

  /** `key` is `name`, in any case. */
  predicate Spells(key: Bytes, name: string) {
    |key| == |name|
    && forall i | 0 <= i < |key| :: key[i] == name[i] as int || (65 <= key[i] <= 90 && key[i] + 32 == name[i] as int)
  }

  predicate IsSmall(name: string) {
    forall i | 0 <= i < |name| :: 'a' <= name[i] <= 'z' || name[i] == '_'
  }

  lemma EngineNamesAreSmall()
    ensures IsSmall("redirect_uri")
    ensures IsSmall("response_type")
    ensures IsSmall("client_id")
    ensures IsSmall("code_challenge")
    ensures IsSmall("code_challenge_method")
  {
  }

  lemma TokenNamesAreSmall()
    ensures IsSmall("state")
    ensures IsSmall("code_verifier")
    ensures IsSmall("grant_type")
    ensures IsSmall("scope")
    ensures IsSmall("client_secret")
  {
  }

  lemma ClientNamesAreSmall()
    ensures IsSmall("access_token")
    ensures IsSmall("refresh_token")
    ensures IsSmall("id_token")
    ensures IsSmall("password")
    ensures IsSmall("client_assertion")
  {
  }

  lemma OtherNamesAreSmall()
    ensures IsSmall("client_assertion_type")
    ensures IsSmall("assertion")
    ensures IsSmall("device_code")
    ensures IsSmall("code")
  {
  }

  lemma NamesAreSmall(n: nat)
    requires n < |NAMES|
    ensures IsSmall(NAMES[n])
  {
    hide IsSmall;
    EngineNamesAreSmall();
    TokenNamesAreSmall();
    ClientNamesAreSmall();
    OtherNamesAreSmall();
  }

  lemma LowerSpells(key: Bytes, name: string)
    requires IsSmall(name)
    ensures Lower(key) == Ascii(name) <==> Spells(key, name)
  {
    if Lower(key) == Ascii(name) {
      assert |key| == |name|;
      forall i | 0 <= i < |key| ensures key[i] == name[i] as int || (65 <= key[i] <= 90 && key[i] + 32 == name[i] as int) {
        assert Lower(key)[i] == Ascii(name)[i];
      }
    }
    if Spells(key, name) {
      forall i | 0 <= i < |key| ensures Lower(key)[i] == Ascii(name)[i] {
      }
    }
  }

  /** The reserved names, in any spelling, and no others. */
  lemma ReservedIs(key: Bytes)
    ensures IsReserved(key) <==> exists n | 0 <= n < |NAMES| :: Spells(key, NAMES[n])
  {
    hide Ascii, Lower, Spells, IsSmall;
    forall n | 0 <= n < |NAMES| ensures Lower(key) == Ascii(NAMES[n]) <==> Spells(key, NAMES[n]) {
      NamesAreSmall(n);
      LowerSpells(key, NAMES[n]);
    }
    ReservedList();
  }

  lemma ReservedList()
    ensures forall key :: key in RESERVED <==> exists n | 0 <= n < |NAMES| :: key == Ascii(NAMES[n])
  {
    hide Ascii;
    assert NAMES == NAMES[..19];
    forall key ensures key in RESERVED <==> exists n | 0 <= n < |NAMES| :: key == Ascii(NAMES[n]) {
      assert key in RESERVED ==>
          || key == Ascii(NAMES[0]) || key == Ascii(NAMES[1]) || key == Ascii(NAMES[2]) || key == Ascii(NAMES[3])
          || key == Ascii(NAMES[4]) || key == Ascii(NAMES[5]) || key == Ascii(NAMES[6]) || key == Ascii(NAMES[7])
          || key == Ascii(NAMES[8]) || key == Ascii(NAMES[9]) || key == Ascii(NAMES[10]) || key == Ascii(NAMES[11])
          || key == Ascii(NAMES[12]) || key == Ascii(NAMES[13]) || key == Ascii(NAMES[14]) || key == Ascii(NAMES[15])
          || key == Ascii(NAMES[16]) || key == Ascii(NAMES[17]) || key == Ascii(NAMES[18]);
    }
  }

  /** Extras are sent in their order, without those of a reserved name. */
  lemma KeptIs(a: seq<Pair>, extra: Pair, b: seq<Pair>)
    ensures Kept(a + [extra] + b)
         == Kept(a) + (if exists n | 0 <= n < |NAMES| :: Spells(extra.0, NAMES[n]) then [] else [extra]) + Kept(b)
    ensures Kept([]) == []
  {
    hide IsReserved, Spells;
    ReservedIs(extra.0);
    KeptJoins(a + [extra], b);
    KeptJoins(a, [extra]);
    var one: seq<Pair> := [extra];
    assert one[1..] == [];
    assert Kept(one) == if IsReserved(extra.0) then [] else one;
  }

  // ---- the URL ----

  /** What a server reads in the query of the URL that is built. */
  lemma {:induction false} UrlSays(authorizeUrl: Bytes, clientId: Bytes, redirect: Bytes, scope: Option<Bytes>, challenge: Bytes,
                                   state: Bytes, extras: seq<Pair>)
    requires IsText(clientId) && IsText(redirect) && IsText(challenge) && IsText(state)
    requires (scope.Some? ==> IsText(scope.value)) && AreTexts(extras) && 0x23 !in authorizeUrl && 0x3F !in authorizeUrl
    ensures var url := Head(authorizeUrl, clientId) + More(Engine(clientId, redirect, challenge, state, scope) + Kept(extras));
            var pairs := ParseQuery(QueryOf(url));
            && |pairs| >= 7 - (if scope.Some? then 0 else 1)
            && pairs[0] == (Ascii("client_id"), clientId) && pairs[1] == (Ascii("response_type"), Ascii("code"))
            && pairs[2] == (Ascii("redirect_uri"), redirect) && pairs[3] == (Ascii("code_challenge"), challenge)
            && pairs[4] == (Ascii("code_challenge_method"), Ascii("S256")) && pairs[5] == (Ascii("state"), state)
            && (match scope
                case Some(asked) => pairs[6] == (Ascii("scope"), asked) && pairs[7..] == Kept(extras)
                case None => pairs[6..] == Kept(extras))
            && authorizeUrl + [0x3F] <= url
  {
    hide Kept, More, Param, ParseQuery, QueryOf, IsText, AreTexts, Ascii;
    PlainUrlReadsBack(authorizeUrl, clientId, redirect, scope, challenge, state, extras);
  }

  // ---- the callback ----

  /** The last pair with this key gives it this value. */
  predicate Gives(pairs: seq<Pair>, key: Bytes, value: Bytes) {
    exists i | 0 <= i < |pairs| :: pairs[i] == (key, value) && forall j | i < j < |pairs| :: pairs[j].0 != key
  }

  predicate Names(pairs: seq<Pair>, key: Bytes) {
    exists i | 0 <= i < |pairs| :: pairs[i].0 == key
  }

  lemma OtherLast(pairs: seq<Pair>, key: Bytes, value: Bytes)
    requires pairs != [] && pairs[|pairs| - 1].0 != key
    ensures var front := pairs[..|pairs| - 1];
            (Gives(pairs, key, value) <==> Gives(front, key, value)) && (Names(pairs, key) <==> Names(front, key))
  {
    var front := pairs[..|pairs| - 1];
    if i :| 0 <= i < |front| && front[i] == (key, value) && forall j | i < j < |front| :: front[j].0 != key {
      assert pairs[i] == (key, value);
    }
    if i :| 0 <= i < |pairs| && pairs[i] == (key, value) && forall j | i < j < |pairs| :: pairs[j].0 != key {
      assert front[i] == (key, value);
    }
    if i :| 0 <= i < |front| && front[i].0 == key {
      assert pairs[i].0 == key;
    }
    if i :| 0 <= i < |pairs| && pairs[i].0 == key {
      assert front[i].0 == key;
    }
  }

  lemma SameLast(pairs: seq<Pair>, key: Bytes, value: Bytes)
    requires pairs != [] && pairs[|pairs| - 1].0 == key
    ensures Names(pairs, key) && (Gives(pairs, key, value) <==> value == pairs[|pairs| - 1].1)
  {
    assert pairs[|pairs| - 1] == (key, pairs[|pairs| - 1].1);
  }

  lemma {:induction false} LastOfIs(pairs: seq<Pair>, key: Bytes)
    ensures match LastOf(pairs, key)
            case Some(value) => Names(pairs, key) && Gives(pairs, key, value) && forall v :: Gives(pairs, key, v) <==> v == value
            case None => !Names(pairs, key) && forall v :: !Gives(pairs, key, v)
    decreases |pairs|
  {
    if pairs != [] {
      var n := |pairs| - 1;
      hide Gives, Names;
      if pairs[n].0 == key {
        forall v ensures Names(pairs, key) && (Gives(pairs, key, v) <==> v == pairs[n].1) {
          SameLast(pairs, key, v);
        }
      } else {
        LastOfIs(pairs[..n], key);
        forall v ensures Gives(pairs, key, v) <==> Gives(pairs[..n], key, v) {
          OtherLast(pairs, key, v);
        }
        OtherLast(pairs, key, []);
      }
    }
  }

  /** How `CallbackFromQuery` understands a query. */
  function Understood(query: Bytes): Callback {
    var pairs := RawPairs(Split(query, AMP));
    Outcome(LastValue(pairs, CODE), LastValue(pairs, STATE), LastValue(pairs, ERROR), LastValue(pairs, ERROR_DESCRIPTION))
  }

  /**
   A callback is granted exactly with a code and a state that are not empty, whatever else it says; else it is denied if it
   names an error or describes one; else its code is missing, or its state.
   */
  lemma {:induction false} CallbackTells(first: Pair, more: seq<Pair>, query: Bytes)
    requires AreTexts([first] + more) && query == Param(first) + More(more)
    ensures var all, result := [first] + more, Understood(query);
            && (forall code, state ::
                  result == Granted(code, state) <==> code != [] && state != [] && Gives(all, Ascii("code"), code) && Gives(all, Ascii("state"), state))
            && (!result.Granted? ==>
                  if Names(all, Ascii("error")) || Names(all, Ascii("error_description")) then
                    && result.Denied?
                    && (forall text :: result.error == Some(text) <==> Gives(all, Ascii("error"), text))
                    && (forall text :: result.description == Some(text) <==> Gives(all, Ascii("error_description"), text))
                  else result == if exists code :: code != [] && Gives(all, Ascii("code"), code) then MissingState else MissingCode)
  {
    hide Ascii, Gives, Names, AreTexts, RawPairs, Split, Param, More, LastValue, LastOf;
    var all := [first] + more;
    Keys();
    CallbackReadsBack(first, more, "code");
    CallbackReadsBack(first, more, "state");
    CallbackReadsBack(first, more, "error");
    CallbackReadsBack(first, more, "error_description");
    LastOfIs(all, Ascii("code"));
    LastOfIs(all, Ascii("state"));
    LastOfIs(all, Ascii("error"));
    LastOfIs(all, Ascii("error_description"));
  }

  lemma Keys()
    ensures IsPlainAscii("code") && IsPlainAscii("state") && IsPlainAscii("error") && IsPlainAscii("error_description")
  {
  }
}
