/** What the date parsers make of zones, fractions, separators and fields out of range. */
module Zones {
  import opened Utf8
  import opened Calendar
  import opened Text
  import opened Rfc3339

  // ---- zones ----

  /** The zone told by its own text. */
  function ZoneOf(zone: string): Result<int, DateError> {
    if zone == "" || zone[0] == 'Z' || |zone| < 5 then Ok(0) else ReadZone(zone, 0)
  }

  lemma ZoneMoves(s: string, pos: nat)
    requires pos + 5 <= |s|
    ensures ReadZone(s, pos) == ReadZone(s[pos..], 0)
  {
    var zone := s[pos..];
    assert zone[1..3] == s[pos + 1..pos + 3] && zone[0] == s[pos] && zone[3] == s[pos + 3];
    if |zone| >= 6 {
      assert zone[4..6] == s[pos + 4..pos + 6];
    }
    assert zone[3..5] == s[pos + 3..pos + 5];
  }

  lemma {:induction false} FindsZone(front: string, digits: string, zone: string)
    requires IsNumber(digits) && (zone == "" || zone[0] == 'Z' || zone[0] == '+' || zone[0] == '-')
    ensures FindZone(front + digits + zone, |front|) == if zone == "" then None else Some(|front| + |digits|)
    decreases |digits|
  {
    var s := front + digits + zone;
    if digits == "" {
      assert front + "" == front;
    } else {
      NumberStartsWithDigit(digits);
      NumberTail(digits);
      assert s == (front + [digits[0]]) + digits[1..] + zone;
      FindsZone(front + [digits[0]], digits[1..], zone);
    }
  }

  lemma {:induction false} NumberTail(s: string)
    requires IsNumber(s) && s != ""
    ensures IsNumber(s[1..])
    decreases |s|
  {
    if |s| > 1 {
      NumberTail(s[..|s| - 1]);
      assert s[1..][..|s| - 2] == s[..|s| - 1][1..];
    }
  }

  /** A fraction, or none. */
  predicate IsFraction(fraction: string) {
    fraction == "" || (fraction[0] == '.' && IsNumber(fraction[1..]))
  }

  predicate StartsZone(zone: string) {
    zone == "" || zone[0] == 'Z' || zone[0] == '+' || zone[0] == '-'
  }

  lemma {:induction false} OffsetIs(stamp: string, fraction: string, zone: string)
    requires |stamp| == 19 && IsFraction(fraction) && StartsZone(zone)
    ensures ZoneOffset(stamp + fraction + zone) == ZoneOf(zone)
  {
    hide ReadZone;
    var s, pos := stamp + fraction + zone, 19 + |fraction|;
    assert s[pos..] == zone;
    if fraction != "" {
      var front, digits := stamp + ".", fraction[1..];
      assert s == front + digits + zone;
      FindsZone(front, digits, zone);
    }
    if pos + 5 <= |s| {
      ZoneMoves(s, pos);
    }
  }

  /** A stamp, a fraction and a zone read as the seconds of the stamp less the zone. */
  lemma {:induction false} StampWithZone(at: Instant, fraction: string, zone: string)
    requires IsTaken(at) && at.date.year < 10000 && IsFraction(fraction) && StartsZone(zone)
    requires IsAscii(fraction + zone) && (zone != "" ==> !IsWhite(zone[|zone| - 1])) && ZoneOf(zone).Ok?
    ensures Parse(Stamp(at) + fraction + zone) == Ok(AtLeastZero(SecondsOf(at) - ZoneOf(zone).value))
  {
    hide ReadFields, DaysSinceEpoch, ZoneOf, ZoneOffset, CheckFields, Stamp, IsWhite;
    var tail := fraction + zone;
    var s := Stamp(at) + tail;
    assert s == Stamp(at) + fraction + zone;
    StampFields(at, tail);
    StampIsText(at, fraction, zone);
    InstantChecks(at);
    OffsetIs(Stamp(at), fraction, zone);
    AsciiLength(s);
  }

  lemma {:induction false} StampIsText(at: Instant, fraction: string, zone: string)
    requires IsTaken(at) && IsFraction(fraction) && IsAscii(fraction + zone)
    requires zone != "" ==> !IsWhite(zone[|zone| - 1])
    ensures var s := Stamp(at) + (fraction + zone);
            IsAscii(s) && Trim(s) == s
  {
    hide IsAscii, IsNumber;
    var stamp, tail := Stamp(at), fraction + zone;
    StampIsPlain(at);
    AsciiFront(stamp);
    AsciiJoins(stamp, tail);
    StampEnds(at);
    if zone == "" && fraction != "" {
      FractionEnds(fraction);
    }
    TrimKeeps(stamp + tail);
  }

  lemma AsciiFront(stamp: string)
    requires IsAscii(stamp + "Z")
    ensures IsAscii(stamp)
  {
    assert (stamp + "Z")[..|stamp|] == stamp;
  }

  lemma FractionEnds(fraction: string)
    requires IsFraction(fraction) && fraction != ""
    ensures !IsWhite(fraction[|fraction| - 1])
  {
    if |fraction| > 1 {
      assert fraction[|fraction| - 1] == fraction[1..][|fraction| - 2];
    }
  }

  lemma StampEnds(at: Instant)
    requires IsTaken(at)
    ensures Stamp(at) != "" && !IsWhite(Stamp(at)[0]) && !IsWhite(Stamp(at)[|Stamp(at)| - 1])
  {
    hide Padded;
    var year, second := Padded(at.date.year, 4), Padded(at.second, 2);
    NumberStartsWithDigit(year);
    assert IsDigit(second[|second| - 1]);
    assert Stamp(at)[0] == year[0] && Stamp(at)[|Stamp(at)| - 1] == second[|second| - 1];
  }

  lemma ShiftReads(sign: char, h: string, m: string, colon: string, hours: nat, minutes: nat)
    requires (sign == '+' || sign == '-') && |h| == |m| == 2 && m[0] != ':' && (colon == ":" || colon == "")
    requires ReadSigned(h) == Some(hours) && ReadSigned(m) == Some(minutes)
    ensures ZoneOf([sign] + h + colon + m) == Ok((if sign == '+' then 1 else -1) * (hours * 3600 + minutes * 60))
  {
    hide ReadSigned;
    var zone := [sign] + h + colon + m;
    assert zone[1..3] == h && zone[0] == sign;
    if colon == ":" {
      assert zone[3] == ':' && zone[4..6] == m;
    } else {
      assert zone[3] == m[0] && zone[3..5] == m;
    }
  }

  lemma ShiftIs(sign: char, hours: nat, minutes: nat, colon: string)
    requires (sign == '+' || sign == '-') && hours < 100 && minutes < 100 && (colon == ":" || colon == "")
    ensures var zone := [sign] + Padded(hours, 2) + colon + Padded(minutes, 2);
            && StartsZone(zone) && IsAscii(zone) && !IsWhite(zone[|zone| - 1])
            && ZoneOf(zone) == Ok((if sign == '+' then 1 else -1) * (hours * 3600 + minutes * 60))
  {
    hide Padded, ReadSigned, ReadUnsigned, IsAscii, StartsZone, ZoneOf;
    var h, m := Padded(hours, 2), Padded(minutes, 2);
    TwoDigits(hours);
    TwoDigits(minutes);
    PaddedReads(hours, 2);
    PaddedReads(minutes, 2);
    NumberStartsWithDigit(m);
    ShiftReads(sign, h, m, colon, hours, minutes);
    var zone := [sign] + h + colon + m;
    assert IsDigit(m[1]) && zone[|zone| - 1] == m[1];
    ZoneIsAscii(sign, h, colon, m);
    SignStarts(sign, zone);
  }

  lemma SignStarts(sign: char, zone: string)
    requires (sign == '+' || sign == '-') && zone != "" && zone[0] == sign
    ensures StartsZone(zone)
  {
  }

  lemma ZoneIsAscii(sign: char, h: string, colon: string, m: string)
    requires IsNumber(h) && IsNumber(m) && sign < '\U{80}' && (colon == ":" || colon == "")
    ensures IsAscii([sign] + h + colon + m)
  {
    NumberIsAscii(h);
    NumberIsAscii(m);
    AsciiJoins([sign], h);
    AsciiJoins([sign] + h, colon);
    AsciiJoins([sign] + h + colon, m);
  }

  lemma {:induction false} FractionIsAscii(fraction: string, zone: string)
    requires IsFraction(fraction) && IsAscii(zone)
    ensures IsAscii(fraction + zone)
  {
    if fraction == "" {
      assert fraction + zone == zone;
    } else {
      NumberIsAscii(fraction[1..]);
      AsciiJoins(".", fraction[1..]);
      assert "." + fraction[1..] == fraction;
      AsciiJoins(fraction, zone);
    }
  }

  /**
   A stamp reads as its seconds without a zone or with `Z`, less a zone ahead of UTC and plus one behind it, but never
   below the epoch; a fraction of any length, and the colon of the zone, do not count.
   */
  lemma {:induction false} ZonesAreTaken(at: Instant, fraction: string, hours: nat, minutes: nat, colon: string)
    requires IsTaken(at) && at.date.year < 10000 && IsFraction(fraction)
    requires hours < 100 && minutes < 100 && (colon == ":" || colon == "")
    ensures var zone, seconds := Padded(hours, 2) + colon + Padded(minutes, 2), SecondsOf(at);
            && Parse(Stamp(at) + fraction + "") == Parse(Stamp(at) + fraction + "Z") == Ok(if seconds > 0 then seconds else 0)
            && (var ahead := seconds - (hours * 3600 + minutes * 60);
                Parse(Stamp(at) + fraction + ("+" + zone)) == Ok(if ahead > 0 then ahead else 0))
            && (var behind := seconds + (hours * 3600 + minutes * 60);
                Parse(Stamp(at) + fraction + ("-" + zone)) == Ok(if behind > 0 then behind else 0))
  {
    hide *;
    var zone := Padded(hours, 2) + colon + Padded(minutes, 2);
    NoShift();
    FractionIsAscii(fraction, "");
    FractionIsAscii(fraction, "Z");
    StampWithZone(at, fraction, "");
    StampWithZone(at, fraction, "Z");
    ShiftedReads(at, fraction, '+', hours, minutes, colon);
    ShiftedReads(at, fraction, '-', hours, minutes, colon);
    assert "+" + zone == ['+'] + zone && "-" + zone == ['-'] + zone;
  }

  lemma {:induction false} ShiftedReads(at: Instant, fraction: string, sign: char, hours: nat, minutes: nat, colon: string)
    requires IsTaken(at) && at.date.year < 10000 && IsFraction(fraction) && (sign == '+' || sign == '-')
    requires hours < 100 && minutes < 100 && (colon == ":" || colon == "")
    ensures var zone := Padded(hours, 2) + colon + Padded(minutes, 2);
            var seconds := SecondsOf(at) - (if sign == '+' then 1 else -1) * (hours * 3600 + minutes * 60);
            Parse(Stamp(at) + fraction + ([sign] + zone)) == Ok(if seconds > 0 then seconds else 0)
  {
    hide Stamp, SecondsOf, Padded, IsTaken, ZoneOf, IsFraction, Parse;
    var h, m := Padded(hours, 2), Padded(minutes, 2);
    ShiftIs(sign, hours, minutes, colon);
    assert [sign] + (h + colon + m) == [sign] + h + colon + m;
    FractionIsAscii(fraction, [sign] + (h + colon + m));
    StampWithZone(at, fraction, [sign] + (h + colon + m));
  }

  lemma NoShift()
    ensures StartsZone("") && StartsZone("Z") && !IsWhite('Z') && "Z"[0] == 'Z'
    ensures forall n: int :: AtLeastZero(n) == if n > 0 then n else 0
    ensures IsAscii("") && IsAscii("Z") && ZoneOf("") == ZoneOf("Z") == Ok(0)
  {
  }

  // ---- fields ----

  /** Fields of the usual widths are taken exactly in their ranges, and the first that is not is the error. */
  lemma {:induction false} RangesAreChecked(year: nat, month: nat, day: nat, hour: nat, minute: nat, second: nat)
    requires year < 10000 && month < 100 && day < 100 && hour < 100 && minute < 100 && second < 100
    ensures var text := Joined(Padded(year, 4), Padded(month, 2), Padded(day, 2), Padded(hour, 2), Padded(minute, 2), Padded(second, 2)) + "Z";
            if month < 1 || month > 12 then Parse(text) == Err(MonthOutOfRange(month))
            else if day < 1 || day > 31 then Parse(text) == Err(DayOutOfRange(day))
            else if hour > 23 || minute > 59 || second > 59 then Parse(text) == Err(TimeOutOfRange)
            else Parse(text).Ok?
  {
    hide Padded, Joined, IsWhite, IsAscii, DaysSinceEpoch;
    var y, mo, d := Padded(year, 4), Padded(month, 2), Padded(day, 2);
    var h, mi, s := Padded(hour, 2), Padded(minute, 2), Padded(second, 2);
    var text := Joined(y, mo, d, h, mi, s) + "Z";
    PaddedWidth(year);
    PaddedWidth(month);
    PaddedWidth(day);
    PaddedWidth(hour);
    PaddedWidth(minute);
    PaddedWidth(second);
    FieldsStand(y, mo, d, h, mi, s, "Z");
    PaddedReads(year, 4);
    PaddedReads(month, 2);
    PaddedReads(day, 2);
    PaddedReads(hour, 2);
    PaddedReads(minute, 2);
    PaddedReads(second, 2);
    JoinedIsPlain(y, mo, d, h, mi, s);
    NumberStartsWithDigit(y);
    PlainText(text);
    AsciiLength(text);
  }

  lemma PlainText(text: string)
    requires text != "" && IsDigit(text[0]) && text[|text| - 1] == 'Z'
    ensures Trim(text) == text
  {
    TrimKeeps(text);
  }

  lemma {:induction false} SameZone(s: string, t: string, from: nat)
    requires |s| == |t| >= 19 && 19 <= from && s[19..] == t[19..]
    ensures FindZone(s, from) == FindZone(t, from)
    ensures FindZone(s, from).Some? ==> from <= FindZone(s, from).value < |s|
    decreases |s| - from
  {
    if from < |s| {
      assert s[from] == s[19..][from - 19] == t[19..][from - 19] == t[from];
      SameZone(s, t, from + 1);
    }
  }

  /** What separates the fields is never looked at. */
  lemma {:induction false} OnlyFieldsCount(s: string, t: string)
    requires Trim(s) == s && Trim(t) == t && IsAscii(s) && IsAscii(t) && |s| == |t| >= 19
    requires s[0..4] == t[0..4] && s[5..7] == t[5..7] && s[8..10] == t[8..10]
    requires s[11..13] == t[11..13] && s[14..16] == t[14..16] && s[17..19] == t[17..19] && s[19..] == t[19..]
    ensures Parse(s) == Parse(t)
  {
    hide DaysSinceEpoch, ReadZone, ReadSigned, ReadUnsigned, Trim;
    AsciiLength(s);
    AsciiLength(t);
    assert ReadFields(s) == ReadFields(t);
    SameZone(s, t, 20);
    assert |s| > 19 ==> s[19] == s[19..][0] == t[19..][0] == t[19];
    var start := ZoneStart(s);
    assert start == ZoneStart(t);
    if start.Some? {
      var pos := start.value;
      assert s[pos..] == s[19..][pos - 19..] == t[19..][pos - 19..] == t[pos..];
      assert pos < |s| ==> s[pos] == s[pos..][0] == t[pos..][0] == t[pos];
      if pos + 5 <= |s| {
        ZoneMoves(s, pos);
        ZoneMoves(t, pos);
      }
    }
  }

  /** A plus before a number does not count; a minus negates a year or a part of a zone, and makes any other field unreadable. */
  lemma SignsAreRead(n: nat, width: nat)
    ensures ReadSigned("-" + Padded(n, width)) == Some(-1 * n) && ReadSigned("+" + Padded(n, width)) == Some(n)
    ensures ReadUnsigned("+" + Padded(n, width)) == Some(n) && ReadUnsigned("-" + Padded(n, width)) == None
  {
    hide Padded;
    var digits := Padded(n, width);
    assert ("-" + digits)[1..] == digits && ("+" + digits)[1..] == digits;
    NumberStartsWithDigit(digits);
    PaddedReads(n, width);
    if IsNumber("-" + digits) {
      NumberStartsWithDigit("-" + digits);
    }
  }

  // ---- centuries ----

  /** A year divisible by 100 has a leap day only if it is divisible by 400. */
  lemma CenturyYears(century: nat)
    ensures DaysSinceEpoch(century * 100, 3, 1) - DaysSinceEpoch(century * 100, 2, 28) == if century % 4 == 0 then 2 else 1
  {
    CenturyIsLeap(century);
    LeapDay(century * 100);
  }

  lemma CenturyIsLeap(century: nat)
    ensures IsLeap(century * 100) <==> century % 4 == 0
  {
    var year, q, r := century * 100, century / 4, century % 4;
    QuotientIs(year, 100, century, 0);
    QuotientIs(year, 400, q, r * 100);
    QuotientIs(year, 4, century * 25, 0);
  }

  lemma LeapDay(year: nat)
    ensures DaysSinceEpoch(year, 3, 1) - DaysSinceEpoch(year, 2, 28) == if IsLeap(year) then 2 else 1
  {
    hide DaysSinceEpoch, FirstOf, IsLeap;
    FromMarch(year, 3, 1);
    FromMarch(year, 2, 28);
    YearGrows(year - 1);
  }

  lemma FromMarch(year: int, month: int, day: int)
    ensures DaysSinceEpoch(year, month, day) == FirstOf(MarchYear(year, month)) + DayOfYear(month, day) - 719468
  {
  }

  // ---- the compact form ----

  lemma CompactFields(year: string, month: string, day: string, hour: string, minute: string, second: string)
    requires |year| == 4 && |month| == 2 && |day| == 2 && |hour| == 2 && |minute| == 2 && |second| == 2
    ensures var d := year + month + day + "T" + hour + minute + second + "Z";
            && |d| == 16
            && d[0..4] == year && d[4..6] == month && d[6..8] == day
            && d[9..11] == hour && d[11..13] == minute && d[13..15] == second
  {
  }

  /** Up to the end of year 9999 the date of a signature is 16 characters, and with separators it is the printed date. */
  lemma AmzDateWithSeparators(seconds: nat)
    requires seconds <= MAX_SECONDS
    ensures var d := AmzDate(seconds);
            && |d| == 16
            && Format(seconds) == d[0..4] + "-" + d[4..6] + "-" + d[6..8] + "T" + d[9..11] + ":" + d[11..13] + ":" + d[13..15] + "Z"
  {
    hide Padded, Civil, CivilTruncating, DaysSinceEpoch, SecondsOf;
    var at := InstantOf(seconds);
    YearFits(seconds);
    CivilFormsAgree(seconds / 86400);
    Widths(at);
    CompactFields(Padded(at.date.year, 4), Padded(at.date.month, 2), Padded(at.date.day, 2),
                  Padded(at.hour, 2), Padded(at.minute, 2), Padded(at.second, 2));
  }
}
