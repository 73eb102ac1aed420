/**
 RFC 3339 dates as text: the printer, the two parsers and the compact form used in AWS signatures.
 */
module Rfc3339 {
  import opened Utf8
  import opened Calendar
  import opened Text

  // ---- instants ----

  datatype Instant = Instant(date: Date, hour: nat, minute: nat, second: nat)

  /** What the parsers take: any year, any day up to 31 in any month. */
  predicate IsTaken(at: Instant) {
    && 0 <= at.date.year && 1 <= at.date.month <= 12 && 1 <= at.date.day <= 31
    && at.hour < 24 && at.minute < 60 && at.second < 60
  }

  predicate IsInstant(at: Instant) {
    IsTaken(at) && IsLegal(at.date) && 1970 <= at.date.year
  }

  function InstantOf(seconds: nat): (at: Instant)
    ensures IsInstant(at)
    ensures SecondsOf(at) == seconds
  {
    var days, rest := seconds / 86400, seconds % 86400;
    DayOfClock(days);
    ClockParts(rest);
    Instant(Civil(days), rest / 3600, rest % 3600 / 60, rest % 60)
  }

  lemma DayOfClock(days: nat)
    ensures IsLegal(Civil(days)) && 1970 <= Civil(days).year
    ensures DaysSinceEpoch(Civil(days).year, Civil(days).month, Civil(days).day) == days
  {
    CivilIsLegalAndCounts(days);
    SinceEpoch(Civil(days));
  }

  lemma ClockParts(rest: nat)
    requires rest < 86400
    ensures rest / 3600 < 24 && rest % 3600 / 60 < 60
    ensures rest / 3600 * 3600 + rest % 3600 / 60 * 60 + rest % 60 == rest
  {
  }

  function SecondsOf(at: Instant): int {
    DaysSinceEpoch(at.date.year, at.date.month, at.date.day) * 86400 + at.hour * 3600 + at.minute * 60 + at.second
  }

  // ---- printing ----

  function Joined(year: string, month: string, day: string, hour: string, minute: string, second: string): string {
    year + "-" + month + "-" + day + "T" + hour + ":" + minute + ":" + second
  }

  /** Everything up to the seconds. */
  function Stamp(at: Instant): string
    requires IsTaken(at)
  {
    Joined(Padded(at.date.year, 4), Padded(at.date.month, 2), Padded(at.date.day, 2),
           Padded(at.hour, 2), Padded(at.minute, 2), Padded(at.second, 2))
  }

  /** `format_rfc3339_epoch`. */
  function Format(seconds: nat): string {
    Stamp(InstantOf(seconds)) + "Z"
  }

  /** `amz_date_now`, for the clock reading `seconds`. */
  function AmzDate(seconds: nat): string {
    var days, sod := seconds / 86400, seconds % 86400;
    CivilFormsAgree(days);
    DayOfClock(days);
    var date := CivilTruncating(days);
    Padded(date.year, 4) + Padded(date.month, 2) + Padded(date.day, 2) + "T"
    + Padded(sod / 3600, 2) + Padded(sod % 3600 / 60, 2) + Padded(sod % 60, 2) + "Z"
  }

  // ---- parsing ----

  /** Bytes a string takes in UTF-8. */
  function ByteLength(s: string): nat {
    if s == [] then 0
    else
      var c := s[|s| - 1];
      ByteLength(s[..|s| - 1]) + (if c < '\U{80}' then 1 else if c < '\U{800}' then 2 else if c < '\U{10000}' then 3 else 4)
  }

  predicate IsAscii(s: string) {
    s == [] || (s[|s| - 1] < '\U{80}' && IsAscii(s[..|s| - 1]))
  }

  function ReadDigits(s: string): Option<nat> {
    if s != [] && IsNumber(s) then Some(NumberOf(s)) else None
  }

  /** Parsing an unsigned integer: a leading `+` is taken, a leading `-` is not. */
  function ReadUnsigned(s: string): Option<nat> {
    ReadDigits(if s != [] && s[0] == '+' then s[1..] else s)
  }

  function ReadSigned(s: string): Option<int> {
    if s != [] && s[0] == '-' then
      match ReadDigits(s[1..])
      case Some(n) => Some(-1 * n)
      case None => None
    else
      match ReadUnsigned(s)
      case Some(n) => Some(n)
      case None => None
  }

  datatype Field = Year | Month | Day | Hour | Minute | Second | ZoneHour | ZoneMinute

  datatype DateError =
    | TooShort
    | NotAscii
    | BadNumber(field: Field)
    | MonthOutOfRange(month: nat)
    | DayOutOfRange(day: nat)
    | TimeOutOfRange
    | ZoneMinuteTooShort

  datatype Fields = Fields(year: int, month: nat, day: nat, hour: nat, minute: nat, second: nat)

  function ReadFields(s: string): Result<Fields, DateError>
    requires |s| >= 19
  {
    match (ReadSigned(s[0..4]), ReadUnsigned(s[5..7]), ReadUnsigned(s[8..10]),
           ReadUnsigned(s[11..13]), ReadUnsigned(s[14..16]), ReadUnsigned(s[17..19]))
    case (None, _, _, _, _, _) => Err(BadNumber(Year))
    case (_, None, _, _, _, _) => Err(BadNumber(Month))
    case (_, _, None, _, _, _) => Err(BadNumber(Day))
    case (_, _, _, None, _, _) => Err(BadNumber(Hour))
    case (_, _, _, _, None, _) => Err(BadNumber(Minute))
    case (_, _, _, _, _, None) => Err(BadNumber(Second))
    case (Some(year), Some(month), Some(day), Some(hour), Some(minute), Some(second)) =>
      Ok(Fields(year, month, day, hour, minute, second))
  }

  /** Days of 1 to 31 are taken for every month: a day past the month's end counts into the next one. */
  function CheckFields(f: Fields): Option<DateError> {
    if !(1 <= f.month <= 12) then Some(MonthOutOfRange(f.month))
    else if !(1 <= f.day <= 31) then Some(DayOutOfRange(f.day))
    else if f.hour > 23 || f.minute > 59 || f.second > 59 then Some(TimeOutOfRange)
    else None
  }

  function FindZone(s: string, from: nat): Option<nat>
    decreases |s| - from
  {
    if from >= |s| then None
    else if s[from] == 'Z' || s[from] == '+' || s[from] == '-' then Some(from)
    else FindZone(s, from + 1)
  }

  /** Where the time zone starts: after a fraction, if there is one. */
  function ZoneStart(s: string): Option<nat> {
    if |s| <= 19 then None
    else if s[19] == '.' then FindZone(s, 20)
    else Some(19)
  }

  function ReadZone(s: string, pos: nat): Result<int, DateError>
    requires pos + 5 <= |s|
  {
    var sign := if s[pos] == '+' then 1 else -1;
    match ReadSigned(s[pos + 1..pos + 3])
    case None => Err(BadNumber(ZoneHour))
    case Some(oh) =>
      var at := if s[pos + 3] == ':' then pos + 4 else pos + 3;
      if at + 2 > |s| then Err(ZoneMinuteTooShort)
      else
        match ReadSigned(s[at..at + 2])
        case None => Err(BadNumber(ZoneMinute))
        case Some(om) => Ok(sign * (oh * 3600 + om * 60))
  }

  function ZoneOffset(s: string): Result<int, DateError> {
    match ZoneStart(s)
    case None => Ok(0)
    case Some(pos) =>
      if pos < |s| && s[pos] == 'Z' then Ok(0)
      else if pos + 5 <= |s| then ReadZone(s, pos)
      else Ok(0)
  }

  function AtLeastZero(n: int): nat {
    if n > 0 then n else 0
  }

  function BaseSeconds(f: Fields, days: int): int {
    days * 86400 + f.hour * 3600 + f.minute * 60 + f.second
  }

  /** `parse_rfc3339` in helpers.rs: seconds since the epoch, 0 for an instant before it. */
  function Parse(input: string): Result<nat, DateError> {
    var s := Trim(input);
    if ByteLength(s) < 19 then Err(TooShort)
    else if !IsAscii(s) then Err(NotAscii)
    else
      AsciiLength(s);
      match ReadFields(s)
      case Err(e) => Err(e)
      case Ok(f) =>
        match CheckFields(f)
        case Some(e) => Err(e)
        case None =>
          match ZoneOffset(s)
          case Err(e) => Err(e)
          case Ok(offset) => Ok(AtLeastZero(BaseSeconds(f, DaysSinceEpoch(f.year, f.month, f.day)) - offset))
  }

  /** `parse_rfc3339` in aws_creds.rs, which stops at the first field it cannot read. */
  function AwsParse(input: string): Option<nat> {
    var s := Trim(input);
    if ByteLength(s) < 19 || !IsAscii(s) then None
    else
      AsciiLength(s);
      match (ReadSigned(s[0..4]), ReadUnsigned(s[5..7]), ReadUnsigned(s[8..10]),
             ReadUnsigned(s[11..13]), ReadUnsigned(s[14..16]), ReadUnsigned(s[17..19]))
      case (Some(year), Some(month), Some(day), Some(hour), Some(minute), Some(second)) =>
        if !(1 <= month <= 12) || !(1 <= day <= 31) || hour > 23 || minute > 59 || second > 59 then None
        else (
          match AwsZoneOffset(s)
          case None => None
          case Some(offset) =>
            var days := DaysSinceEpochTruncating(year, month, day);
            Some(AtLeastZero(days * 86400 + hour * 3600 + minute * 60 + second - offset)))
      case _ => None
  }

  function AwsZoneOffset(s: string): Option<int> {
    match ZoneStart(s)
    case None => Some(0)
    case Some(pos) =>
      if pos < |s| && s[pos] == 'Z' then Some(0)
      else if pos + 5 <= |s| then
        var sign := if s[pos] == '+' then 1 else -1;
        var at := if s[pos + 3] == ':' then pos + 4 else pos + 3;
        match (ReadSigned(s[pos + 1..pos + 3]), if at + 2 <= |s| then ReadSigned(s[at..at + 2]) else None)
        case (Some(oh), Some(om)) => Some(sign * (oh * 3600 + om * 60))
        case _ => None
      else Some(0)
  }

  lemma AsciiLength(s: string)
    requires IsAscii(s)
    ensures ByteLength(s) == |s|
  {
  }

  // ---- the two parsers ----

  /** Both parsers take the same texts and give them the same meaning. */
  lemma ParsersAgree(input: string)
    ensures AwsParse(input) == match Parse(input) { case Ok(t) => Some(t) case Err(_) => None }
  {
    hide Trim, ByteLength, IsAscii, ReadSigned, ReadUnsigned, ZoneOffset, AwsZoneOffset, DaysSinceEpoch, DaysSinceEpochTruncating;
    var s := Trim(input);
    if ByteLength(s) >= 19 && IsAscii(s) {
      AsciiLength(s);
      ZonesAgree(s);
      var fields := ReadFields(s);
      if fields.Ok? {
        DayCountsAgree(fields.value.year, fields.value.month, fields.value.day);
      }
    }
  }

  lemma ZonesAgree(s: string)
    ensures AwsZoneOffset(s) == match ZoneOffset(s) { case Ok(n) => Some(n) case Err(_) => None }
  {
  }

  // ---- what is printed reads back ----

  /** A printed number reads back. */
  lemma PaddedReads(n: nat, width: nat)
    ensures ReadUnsigned(Padded(n, width)) == Some(n)
    ensures ReadSigned(Padded(n, width)) == Some(n)
  {
    NumberStartsWithDigit(Padded(n, width));
  }

  lemma PaddedWidth(n: nat)
    ensures n < 100 ==> |Padded(n, 2)| == 2
    ensures n < 10000 ==> |Padded(n, 4)| == 4
    ensures 10000 <= n < 100000 ==> |Padded(n, 4)| == 5
  {
    if n < 100 {
      assert n >= 10 ==> n / 10 < 10;
    } else {
      var a := n / 10;
      var b := a / 10;
      assert |Padded(n, 4)| == |Padded(a, 3)| + 1;
      assert |Padded(a, 3)| == |Padded(b, 2)| + 1;
      if b >= 10 {
        var c := b / 10;
        assert |Padded(b, 2)| == |Padded(c, 1)| + 1;
        if c >= 10 {
          assert |Padded(c, 1)| == |Padded(c / 10, 0)| + 1;
        }
      }
    }
  }

  /** Six fields of the usual widths stand where the parsers look for them. */
  lemma FieldsStand(year: string, month: string, day: string, hour: string, minute: string, second: string,
                    tail: string)
    requires |year| == 4 && |month| == 2 && |day| == 2 && |hour| == 2 && |minute| == 2 && |second| == 2
    ensures var s := Joined(year, month, day, hour, minute, second) + tail;
            && |s| == 19 + |tail|
            && s[0..4] == year && s[5..7] == month && s[8..10] == day
            && s[11..13] == hour && s[14..16] == minute && s[17..19] == second
  {
  }

  /** A stamp with a four-digit year reads as its own fields. */
  lemma StampFields(at: Instant, tail: string)
    requires IsTaken(at) && at.date.year < 10000
    ensures |Stamp(at)| == 19
    ensures ReadFields(Stamp(at) + tail)
         == Ok(Fields(at.date.year, at.date.month, at.date.day, at.hour, at.minute, at.second))
  {
    Widths(at);
    FieldsStand(Padded(at.date.year, 4), Padded(at.date.month, 2), Padded(at.date.day, 2),
                Padded(at.hour, 2), Padded(at.minute, 2), Padded(at.second, 2), tail);
    PaddedReads(at.date.year, 4);
    PaddedReads(at.date.month, 2);
    PaddedReads(at.date.day, 2);
    PaddedReads(at.hour, 2);
    PaddedReads(at.minute, 2);
    PaddedReads(at.second, 2);
  }

  lemma Widths(at: Instant)
    requires IsTaken(at)
    ensures at.date.year < 10000 ==> |Padded(at.date.year, 4)| == 4
    ensures 10000 <= at.date.year < 100000 ==> |Padded(at.date.year, 4)| == 5
    ensures |Padded(at.date.month, 2)| == 2 && |Padded(at.date.day, 2)| == 2
    ensures |Padded(at.hour, 2)| == 2 && |Padded(at.minute, 2)| == 2 && |Padded(at.second, 2)| == 2
  {
    PaddedWidth(at.date.year);
    TwoDigits(at.date.month);
    TwoDigits(at.date.day);
    TwoDigits(at.hour);
    TwoDigits(at.minute);
    TwoDigits(at.second);
  }

  lemma TwoDigits(n: nat)
    requires n < 100
    ensures |Padded(n, 2)| == 2
  {
  }

  lemma {:induction false} NumberIsAscii(s: string)
    requires IsNumber(s)
    ensures IsAscii(s)
  {
    if s != [] {
      NumberIsAscii(s[..|s| - 1]);
    }
  }

  lemma {:induction false} AsciiJoins(a: string, b: string)
    requires IsAscii(a) && IsAscii(b)
    ensures IsAscii(a + b)
  {
    if b == [] {
      assert a + b == a;
    } else {
      AsciiJoins(a, b[..|b| - 1]);
      assert (a + b)[..|a + b| - 1] == a + b[..|b| - 1];
    }
  }

  lemma AppendNumber(p: string, number: string, mark: char)
    requires IsAscii(p) && IsNumber(number) && mark < '\U{80}'
    ensures IsAscii(p + number + [mark])
  {
    NumberIsAscii(number);
    AsciiJoins(p, number);
    AsciiJoins(p + number, [mark]);
  }

  lemma {:induction false} JoinedIsPlain(year: string, month: string, day: string, hour: string, minute: string, second: string)
    requires IsNumber(year) && IsNumber(month) && IsNumber(day) && IsNumber(hour) && IsNumber(minute) && IsNumber(second)
    requires year != []
    ensures var s := Joined(year, month, day, hour, minute, second) + "Z";
            IsAscii(s) && s[0] == year[0]
  {
    var p1 := year + "-";
    var p2 := p1 + month + "-";
    var p3 := p2 + day + "T";
    var p4 := p3 + hour + ":";
    var p5 := p4 + minute + ":";
    NumberIsAscii(year);
    AsciiJoins(year, "-");
    AppendNumber(p1, month, '-');
    AppendNumber(p2, day, 'T');
    AppendNumber(p3, hour, ':');
    AppendNumber(p4, minute, ':');
    AppendNumber(p5, second, 'Z');
  }

  lemma TrimKeeps(s: string)
    requires s != [] && !IsWhite(s[0]) && !IsWhite(s[|s| - 1])
    ensures Trim(s) == s
  {
  }

  /** A printed date is ASCII with no white space around it, so the parsers read it as it stands. */
  lemma StampIsPlain(at: Instant)
    requires IsTaken(at)
    ensures IsAscii(Stamp(at) + "Z") && Trim(Stamp(at) + "Z") == Stamp(at) + "Z"
  {
    var year := Padded(at.date.year, 4);
    NumberStartsWithDigit(year);
    JoinedIsPlain(year, Padded(at.date.month, 2), Padded(at.date.day, 2),
                  Padded(at.hour, 2), Padded(at.minute, 2), Padded(at.second, 2));
    TrimKeeps(Stamp(at) + "Z");
  }

  lemma EndOf9999()
    ensures DaysSinceEpoch(9999, 12, 31) == 2932896
  {
  }

  lemma YearFits(seconds: nat)
    ensures InstantOf(seconds).date.year <= 9999 <==> seconds <= MAX_SECONDS
  {
    var date := Civil(seconds / 86400);
    DayOfClock(seconds / 86400);
    EndOf9999();
    CountOrdersDates(Date(9999, 12, 31), date);
    CountOrdersDates(date, Date(9999, 12, 31));
  }

  /** What the parser makes of a plain UTC date. */
  lemma PlainReads(s: string, f: Fields)
    requires Trim(s) == s && IsAscii(s) && |s| == 20 && s[19] == 'Z'
    requires ReadFields(s) == Ok(f) && CheckFields(f) == None
    ensures Parse(s) == Ok(AtLeastZero(BaseSeconds(f, DaysSinceEpoch(f.year, f.month, f.day))))
  {
    AsciiLength(s);
    assert ZoneOffset(s) == Ok(0);
  }

  lemma InstantChecks(at: Instant)
    requires IsTaken(at)
    ensures CheckFields(Fields(at.date.year, at.date.month, at.date.day, at.hour, at.minute, at.second)) == None
  {
  }

  /** A stamp with a four-digit year reads as the seconds it stands for. */
  lemma StampReads(at: Instant)
    requires IsTaken(at) && at.date.year < 10000
    ensures Parse(Stamp(at) + "Z") == Ok(AtLeastZero(SecondsOf(at)))
  {
    var f := Fields(at.date.year, at.date.month, at.date.day, at.hour, at.minute, at.second);
    StampIsPlain(at);
    StampFields(at, "Z");
    InstantChecks(at);
    PlainReads(Stamp(at) + "Z", f);
  }

  /** A five-digit year pushes its dash into the month. */
  lemma LongYearFails(at: Instant)
    requires IsTaken(at) && 10000 <= at.date.year < 100000
    ensures Parse(Stamp(at) + "Z").Err?
  {
    var s := Stamp(at) + "Z";
    Widths(at);
    StampIsPlain(at);
    DashInMonth(Padded(at.date.year, 4), Padded(at.date.month, 2), Padded(at.date.day, 2),
                Padded(at.hour, 2), Padded(at.minute, 2), Padded(at.second, 2));
    AsciiLength(s);
    NoMonthNoDate(s);
  }

  lemma NoMonthNoDate(s: string)
    requires Trim(s) == s && IsAscii(s) && |s| >= 19 && s[5] == '-'
    ensures Parse(s).Err?
  {
    AsciiLength(s);
    var month := s[5..7];
    assert month[0] == '-';
    if IsNumber(month) {
      NumberStartsWithDigit(month);
    }
  }

  lemma DashInMonth(year: string, month: string, day: string, hour: string, minute: string, second: string)
    requires |year| == 5 && |month| == 2 && |day| == 2 && |hour| == 2 && |minute| == 2 && |second| == 2
    ensures var s := Joined(year, month, day, hour, minute, second) + "Z"; |s| == 21 && s[5] == '-'
  {
  }

  // No date with a four-digit year reaches the year 100000, whatever its zone.

  lemma {:induction false} NumberIsBelow(s: string, bound: nat)
    requires IsNumber(s)
    requires |s| == 4 ==> bound == 10000
    requires |s| == 3 ==> bound == 1000
    requires |s| == 2 ==> bound == 100
    requires |s| == 1 ==> bound == 10
    requires |s| == 0 ==> bound == 1
    requires |s| <= 4
    ensures NumberOf(s) < bound
  {
    if s != [] {
      NumberIsBelow(s[..|s| - 1], bound / 10);
    }
  }

  lemma SignedIsBelow(s: string, bound: int)
    requires (|s| == 4 && bound == 10000) || (|s| == 2 && bound == 100)
    ensures ReadSigned(s).Some? ==> -bound < ReadSigned(s).value < bound
  {
    if IsNumber(s) {
      NumberIsBelow(s, bound);
    }
    if IsNumber(s[1..]) {
      NumberIsBelow(s[1..], bound / 10);
    }
  }

  lemma ZoneIsBelow(s: string)
    ensures ZoneOffset(s).Ok? ==> -363000 < ZoneOffset(s).value
  {
    var start := ZoneStart(s);
    if start.Some? && start.value + 5 <= |s| {
      var pos := start.value;
      SignedIsBelow(s[pos + 1..pos + 3], 100);
      var at := if s[pos + 3] == ':' then pos + 4 else pos + 3;
      if at + 2 <= |s| {
        SignedIsBelow(s[at..at + 2], 100);
      }
    }
  }

  lemma DaysAreBelow(year: int, month: int, day: int)
    requires year < 10000 && 1 <= month <= 12 && 1 <= day <= 31
    ensures DaysSinceEpoch(year, month, day) < 2933000
  {
  }

  lemma ParsedIsBelow(input: string)
    ensures Parse(input).Ok? ==> Parse(input).value < 253411600000
  {
    var s := Trim(input);
    if Parse(input).Ok? {
      AsciiLength(s);
      var f := ReadFields(s).value;
      SignedIsBelow(s[0..4], 10000);
      DaysAreBelow(f.year, f.month, f.day);
      ZoneIsBelow(s);
    }
  }

  lemma LongYearsAreLate(date: Date)
    requires IsLegal(date) && date.year >= 100000
    ensures DaysSinceEpoch(date.year, date.month, date.day) > 30000000
  {
  }

  /** A printed instant reads back exactly up to the end of year 9999. */
  lemma FormatReadsBack(seconds: nat)
    ensures Parse(Format(seconds)) == Ok(seconds) <==> seconds <= MAX_SECONDS
  {
    var at := InstantOf(seconds);
    YearFits(seconds);
    if at.date.year < 10000 {
      StampReads(at);
    } else if at.date.year < 100000 {
      LongYearFails(at);
    } else {
      ParsedIsBelow(Format(seconds));
      LongYearsAreLate(at.date);
    }
  }

  // ---- the order of printed dates ----

  /** The order of strings, character by character. */
  predicate Less(a: string, b: string) {
    if b == [] then false
    else if a == [] then true
    else a[0] < b[0] || (a[0] == b[0] && Less(a[1..], b[1..]))
  }

  lemma {:induction false} LessJoins(a: string, x: string, b: string, y: string)
    requires |a| == |b|
    ensures Less(a + x, b + y) <==> Less(a, b) || (a == b && Less(x, y))
  {
    if a == [] {
      assert a + x == x && b + y == y;
    } else {
      LessJoins(a[1..], x, b[1..], y);
      assert (a + x)[1..] == a[1..] + x && (b + y)[1..] == b[1..] + y;
      assert a == b <==> a[0] == b[0] && a[1..] == b[1..];
    }
  }

  lemma {:induction false} NumbersOrder(a: string, b: string)
    requires IsNumber(a) && IsNumber(b) && |a| == |b|
    ensures Less(a, b) <==> NumberOf(a) < NumberOf(b)
    ensures a == b <==> NumberOf(a) == NumberOf(b)
  {
    if a != [] {
      var c, d := a[|a| - 1], b[|b| - 1];
      NumbersOrder(a[..|a| - 1], b[..|b| - 1]);
      LessJoins(a[..|a| - 1], [c], b[..|b| - 1], [d]);
      assert a == a[..|a| - 1] + [c] && b == b[..|b| - 1] + [d];
      assert Less([c], [d]) <==> c < d;
    }
  }

  /** Appending two numbers of one width, and the same mark, to texts of one length. */
  lemma AppendOrders(p: string, a: string, q: string, b: string, mark: string)
    requires |p| == |q| && |a| == |b| && IsNumber(a) && IsNumber(b)
    ensures Less(p + a + mark, q + b + mark) <==> Less(p, q) || (p == q && NumberOf(a) < NumberOf(b))
    ensures p + a + mark == q + b + mark <==> p == q && NumberOf(a) == NumberOf(b)
  {
    LessJoins(p + a, mark, q + b, mark);
    LessJoins(p, a, q, b);
    NumbersOrder(a, b);
    LessIsStrict(mark);
    SameJoin(p + a, mark, q + b, mark);
    SameJoin(p, a, q, b);
  }

  lemma SameJoin(a: string, x: string, b: string, y: string)
    requires |a| == |b|
    ensures a + x == b + y <==> a == b && x == y
  {
    if a + x == b + y {
      assert a == (a + x)[..|a|] == (b + y)[..|b|] == b;
      assert x == (a + x)[|a|..] == (b + y)[|b|..] == y;
    }
  }

  lemma LessIsStrict(s: string)
    ensures !Less(s, s)
  {
  }

  /** Order of instants, field by field. */
  predicate Earlier(a: Instant, b: Instant) {
    || Before(a.date, b.date)
    || (a.date == b.date && a.hour < b.hour)
    || (a.date == b.date && a.hour == b.hour && a.minute < b.minute)
    || (a.date == b.date && a.hour == b.hour && a.minute == b.minute && a.second < b.second)
  }

  lemma SecondsOrderInstants(a: Instant, b: Instant)
    requires IsInstant(a) && IsInstant(b)
    ensures SecondsOf(a) < SecondsOf(b) <==> Earlier(a, b)
  {
    CountOrdersDates(a.date, b.date);
    CountOrdersDates(b.date, a.date);
    ClockOrders(DaysSinceEpoch(a.date.year, a.date.month, a.date.day), a.hour, a.minute, a.second,
                DaysSinceEpoch(b.date.year, b.date.month, b.date.day), b.hour, b.minute, b.second);
  }

  lemma {:induction false} ClockOrders(d: int, h: nat, m: nat, s: nat, d2: int, h2: nat, m2: nat, s2: nat)
    requires h < 24 && m < 60 && s < 60 && h2 < 24 && m2 < 60 && s2 < 60
    ensures d * 86400 + h * 3600 + m * 60 + s < d2 * 86400 + h2 * 3600 + m2 * 60 + s2
       <==> if d != d2 then d < d2 else if h != h2 then h < h2 else if m != m2 then m < m2 else s < s2
  {
  }

  lemma StampsOrder(a: Instant, b: Instant)
    requires IsInstant(a) && IsInstant(b) && a.date.year < 10000 && b.date.year < 10000
    ensures Less(Stamp(a) + "Z", Stamp(b) + "Z") <==> Earlier(a, b)
  {
    Widths(a);
    Widths(b);
    JoinedOrder(Padded(a.date.year, 4), Padded(a.date.month, 2), Padded(a.date.day, 2),
                Padded(a.hour, 2), Padded(a.minute, 2), Padded(a.second, 2),
                Padded(b.date.year, 4), Padded(b.date.month, 2), Padded(b.date.day, 2),
                Padded(b.hour, 2), Padded(b.minute, 2), Padded(b.second, 2));
  }

  /** The first numbers decide; if they are equal, `rest` does. */
  predicate Leads(a: nat, b: nat, rest: bool) {
    a < b || (a == b && rest)
  }

  lemma {:induction false} JoinedOrder(year: string, month: string, day: string, hour: string, minute: string, second: string,
                    year2: string, month2: string, day2: string, hour2: string, minute2: string, second2: string)
    requires |year| == |year2|
    requires |month| == |month2|
    requires |day| == |day2|
    requires |hour| == |hour2|
    requires |minute| == |minute2|
    requires |second| == |second2|
    requires IsNumber(year) && IsNumber(month) && IsNumber(day) && IsNumber(hour) && IsNumber(minute) && IsNumber(second)
    requires IsNumber(year2) && IsNumber(month2) && IsNumber(day2) && IsNumber(hour2) && IsNumber(minute2) && IsNumber(second2)
    ensures Less(Joined(year, month, day, hour, minute, second) + "Z", Joined(year2, month2, day2, hour2, minute2, second2) + "Z")
       <==> Leads(NumberOf(year), NumberOf(year2), Leads(NumberOf(month), NumberOf(month2),
            Leads(NumberOf(day), NumberOf(day2), Leads(NumberOf(hour), NumberOf(hour2),
            Leads(NumberOf(minute), NumberOf(minute2), NumberOf(second) < NumberOf(second2))))))
  {
    var p1, q1 := year + "-", year2 + "-";
    var p2, q2 := p1 + month + "-", q1 + month2 + "-";
    var p3, q3 := p2 + day + "T", q2 + day2 + "T";
    var p4, q4 := p3 + hour + ":", q3 + hour2 + ":";
    var p5, q5 := p4 + minute + ":", q4 + minute2 + ":";
    assert "" + year == year && "" + year2 == year2;
    AppendOrders("", year, "", year2, "-");
    AppendOrders(p1, month, q1, month2, "-");
    AppendOrders(p2, day, q2, day2, "T");
    AppendOrders(p3, hour, q3, hour2, ":");
    AppendOrders(p4, minute, q4, minute2, ":");
    AppendOrders(p5, second, q5, second2, "Z");
  }

  /** Up to the end of year 9999 the order of printed dates is the order of time. */
  lemma FormatKeepsOrder(s: nat, t: nat)
    requires s <= MAX_SECONDS && t <= MAX_SECONDS
    ensures Less(Format(s), Format(t)) <==> s < t
  {
    YearFits(s);
    YearFits(t);
    StampsOrder(InstantOf(s), InstantOf(t));
    SecondsOrderInstants(InstantOf(s), InstantOf(t));
  }

  // ---- the compact form ----

  /** A date without its separators. */
  function Compact(s: string): string {
    if s == [] then []
    else
      var c := s[|s| - 1];
      Compact(s[..|s| - 1]) + (if c == '-' || c == ':' then [] else [c])
  }

  lemma {:induction false} CompactKeepsNumbers(p: string, number: string)
    requires IsNumber(number)
    ensures Compact(p + number) == Compact(p) + number
  {
    if number == [] {
      assert p + number == p;
    } else {
      var rest := number[..|number| - 1];
      CompactKeepsNumbers(p, rest);
      assert (p + number)[..|p + number| - 1] == p + rest;
    }
  }

  lemma CompactAppends(p: string, number: string, mark: char)
    requires IsNumber(number)
    ensures Compact(p + number + [mark])
         == if mark == '-' || mark == ':' then Compact(p) + number else Compact(p) + number + [mark]
  {
    CompactKeepsNumbers(p, number);
    assert (p + number + [mark])[..|p + number|] == p + number;
  }

  lemma {:induction false} CompactJoined(year: string, month: string, day: string, hour: string, minute: string, second: string)
    requires IsNumber(year) && IsNumber(month) && IsNumber(day) && IsNumber(hour) && IsNumber(minute) && IsNumber(second)
    ensures Compact(Joined(year, month, day, hour, minute, second) + "Z")
         == year + month + day + "T" + hour + minute + second + "Z"
  {
    var p1 := year + "-";
    var p2 := p1 + month + "-";
    var p3 := p2 + day + "T";
    var p4 := p3 + hour + ":";
    var p5 := p4 + minute + ":";
    assert "" + year == year;
    CompactAppends("", year, '-');
    assert Compact(p1) == year;
    CompactAppends(p1, month, '-');
    CompactAppends(p2, day, 'T');
    assert Compact(p3) == year + month + day + "T";
    CompactAppends(p3, hour, ':');
    CompactAppends(p4, minute, ':');
    CompactAppends(p5, second, 'Z');
  }

  /** The date in a signature is the printed date without separators, at every clock reading. */
  lemma AmzDateIsCompact(seconds: nat)
    ensures AmzDate(seconds) == Compact(Format(seconds))
  {
    var at := InstantOf(seconds);
    CivilFormsAgree(seconds / 86400);
    CompactJoined(Padded(at.date.year, 4), Padded(at.date.month, 2), Padded(at.date.day, 2),
                  Padded(at.hour, 2), Padded(at.minute, 2), Padded(at.second, 2));
  }

  // ---- dates that are no dates ----

  /** The seconds of an instant name it. */
  lemma SecondsNameInstant(at: Instant)
    requires IsInstant(at)
    ensures SecondsOf(at) >= 0 && InstantOf(SecondsOf(at)) == at
  {
    SinceEpoch(at.date);
    assert SecondsOf(at) >= 0 by {
      hide DaysSinceEpoch, IsLegal;
    }
    SameSeconds(at, InstantOf(SecondsOf(at)));
  }

  lemma SameSeconds(a: Instant, b: Instant)
    requires IsInstant(a) && IsInstant(b) && SecondsOf(a) == SecondsOf(b)
    ensures a == b
  {
    hide SecondsOf, IsLegal;
    SecondsOrderInstants(a, b);
    SecondsOrderInstants(b, a);
  }

  lemma LongYearIsLonger(at: Instant)
    requires IsTaken(at) && at.date.year >= 10000
    ensures |Stamp(at)| > 19
  {
    var year := Padded(at.date.year, 4);
    if |year| <= 4 {
      NumberIsBelow(year, 10000);
    }
    Widths(at);
  }

  lemma {:induction false} SameStampSameDate(a: Instant, b: Instant)
    requires IsTaken(a) && IsTaken(b) && a.date.year < 10000 && Stamp(a) + "Z" == Stamp(b) + "Z"
    ensures a.date == b.date
  {
    StampFields(a, "Z");
    if b.date.year < 10000 {
      StampFields(b, "Z");
    } else {
      LongYearIsLonger(b);
    }
  }

  /**
   The parsers take every day up to 31 of every year; what they make of a date prints as that date exactly when the day is
   a day of its month and year and the year is not before the epoch.
   */
  lemma TakenPrintsBackIfLegal(at: Instant)
    requires IsTaken(at) && at.date.year < 10000
    ensures var text := Stamp(at) + "Z";
            Parse(text).Ok? && (Format(Parse(text).value) == text <==> IsLegal(at.date) && 1970 <= at.date.year)
  {
    StampReads(at);
    var t := Parse(Stamp(at) + "Z").value;
    if IsLegal(at.date) && 1970 <= at.date.year {
      SecondsNameInstant(at);
    } else if Format(t) == Stamp(at) + "Z" {
      SameStampSameDate(at, InstantOf(t));
    }
  }

  lemma DayAfterFebruary()
    ensures DaysSinceEpoch(2023, 2, 30) == DaysSinceEpoch(2023, 3, 2)
  {
  }

  lemma NoonAfterFebruary()
    ensures var february, march := Instant(Date(2023, 2, 30), 12, 0, 0), Instant(Date(2023, 3, 2), 12, 0, 0);
            IsTaken(february) && IsTaken(march) && SecondsOf(february) == SecondsOf(march)
  {
    hide DaysSinceEpoch;
    DayAfterFebruary();
  }

  /** The 30th of February 2023 is taken for the 2nd of March. */
  lemma ThirtiethOfFebruary()
    ensures var february := Instant(Date(2023, 2, 30), 12, 0, 0);
            IsTaken(february) && Parse(Stamp(february) + "Z") == Parse(Stamp(Instant(Date(2023, 3, 2), 12, 0, 0)) + "Z")
  {
    hide *;
    NoonAfterFebruary();
    StampReads(Instant(Date(2023, 2, 30), 12, 0, 0));
    StampReads(Instant(Date(2023, 3, 2), 12, 0, 0));
  }

  const EVE_OF_EPOCH := Instant(Date(1969, 12, 31), 23, 59, 59)

  lemma SecondBeforeEpoch()
    ensures IsTaken(EVE_OF_EPOCH) && EVE_OF_EPOCH.date.year < 1970 && IsLegal(EVE_OF_EPOCH.date)
    ensures AtLeastZero(SecondsOf(EVE_OF_EPOCH)) == 0
  {
  }

  lemma TwoPrinted(n: nat, width: nat)
    requires 10 <= n < 100 && 1 <= width <= 2
    ensures Padded(n, width) == [Digit(n / 10), Digit(n % 10)]
  {
    assert Padded(n / 10, width - 1) == [Digit(n / 10)];
  }

  lemma LastPrinted(n: nat, width: nat)
    requires n >= 10 && width > 0
    ensures Padded(n, width) == Padded(n / 10, width - 1) + [Digit(n % 10)]
  {
  }

  lemma YearPrinted(n: nat)
    requires 1000 <= n < 10000
    ensures Padded(n, 4) == [Digit(n / 1000), Digit(n / 100 % 10), Digit(n / 10 % 10), Digit(n % 10)]
  {
    hide Padded, Digit;
    TwoPrinted(n / 100, 2);
    LastPrinted(n / 10, 3);
    LastPrinted(n, 4);
    assert n / 10 / 10 == n / 100 && n / 100 / 10 == n / 1000;
  }

  lemma EveIsPrinted()
    ensures Stamp(EVE_OF_EPOCH) + "Z" == "1969-12-31T23:59:59Z"
  {
    hide Padded, IsTaken;
    YearPrinted(1969);
    TwoPrinted(12, 2);
    TwoPrinted(31, 2);
    TwoPrinted(23, 2);
    TwoPrinted(59, 2);
  }

  /** The last second of 1969 is taken for the first of 1970, which prints as another text. */
  lemma LastSecondOf1969()
    ensures Parse("1969-12-31T23:59:59Z") == Ok(0) && Format(0) != "1969-12-31T23:59:59Z"
  {
    hide *;
    SecondBeforeEpoch();
    EveIsPrinted();
    StampReads(EVE_OF_EPOCH);
    TakenPrintsBackIfLegal(EVE_OF_EPOCH);
  }
}
