/** Civil dates: two forms of the day count and of its inverse, and the order of the calendar. */
module Calendar {
  datatype Date = Date(year: int, month: int, day: int)

  /** 9999-12-31T23:59:59Z. */
  const MAX_SECONDS: nat := 253402300799

  // ---- the calendar itself ----

  predicate IsLeap(year: int) {
    year % 4 == 0 && (year % 100 != 0 || year % 400 == 0)
  }

  function DaysIn(year: int, month: int): int {
    if month == 2 then if IsLeap(year) then 29 else 28
    else if month == 4 || month == 6 || month == 9 || month == 11 then 30
    else 31
  }

  predicate IsLegal(date: Date) {
    1 <= date.month <= 12 && 1 <= date.day <= DaysIn(date.year, date.month)
  }

  predicate Before(a: Date, b: Date) {
    || a.year < b.year
    || (a.year == b.year && a.month < b.month)
    || (a.year == b.year && a.month == b.month && a.day < b.day)
  }

  // ---- day counts ----

  /** Rust's `/` on signed integers. */
  function Truncate(a: int, b: int): int
    requires b > 0
  {
    if a >= 0 then a / b else -(-a / b)
  }

  /** Years run from March. */
  function MarchYear(year: int, month: int): int {
    if month <= 2 then year - 1 else year
  }

  function MarchMonth(month: int): int {
    if month <= 2 then month + 9 else month - 3
  }

  function DayOfYear(month: int, day: int): int {
    (153 * MarchMonth(month) + 2) / 5 + day - 1
  }

  /** `days_since_epoch`: Euclidean division. */
  function DaysSinceEpoch(year: int, month: int, day: int): int {
    var y := MarchYear(year, month);
    var yoe := y % 400;
    var doe := yoe * 365 + yoe / 4 - yoe / 100 + DayOfYear(month, day);
    y / 400 * 146097 + doe - 719468
  }

  /** The same count with truncating division. */
  function DaysSinceEpochTruncating(year: int, month: int, day: int): int {
    var y := MarchYear(year, month);
    var era := Truncate(if y >= 0 then y else y - 399, 400);
    var yoe := y - era * 400;
    var doe := yoe * 365 + yoe / 4 - yoe / 100 + DayOfYear(month, day);
    era * 146097 + doe - 719468
  }

  function YearOfEra(doe: int): int {
    (doe - doe / 1460 + doe / 36524 - doe / 146096) / 365
  }

  function CivilOf(era: int, doe: int): Date {
    var yoe := YearOfEra(doe);
    var y := yoe + era * 400;
    var doy := doe - (365 * yoe + yoe / 4 - yoe / 100);
    var mp := (5 * doy + 2) / 153;
    var d := doy - (153 * mp + 2) / 5 + 1;
    var m := if mp < 10 then mp + 3 else mp - 9;
    Date(if m <= 2 then y + 1 else y, m, d)
  }

  function Civil(days: int): Date {
    var z := days + 719468;
    CivilOf(z / 146097, z % 146097)
  }

  function CivilTruncating(days: int): Date {
    var z := days + 719468;
    var era := Truncate(if z >= 0 then z else z - 146096, 146097);
    CivilOf(era, z - era * 146097)
  }

  /** First day of a March year within its era. */
  function YearStart(yoe: int): int {
    365 * yoe + yoe / 4 - yoe / 100
  }

  lemma YearOfEraParts(c: int, q: int, a: int, t: int)
    requires 0 <= c <= 3 && 0 <= q <= 24 && 0 <= a <= 3
    requires 0 <= t <= 365 && (t == 365 ==> a == 3)
    requires q == 24 && c < 3 && a == 3 ==> t < 365
    ensures YearOfEra(36524 * c + 1461 * q + 365 * a + t) == 100 * c + 4 * q + a
  {
    var doe := 36524 * c + 1461 * q + 365 * a + t;
    var low := 24 * c + q + 365 * a + t;
    assert doe == 1460 * (25 * c + q) + low;
    assert doe / 1460 == 25 * c + q + low / 1460;
    if doe == 146096 {
      assert YearOfEra(doe) == 399;
    } else {
      assert doe / 36524 == c;
      assert doe / 146096 == 0;
      assert YearOfEra(doe) == (365 * (100 * c + 4 * q + a) + (t - low / 1460)) / 365;
    }
  }

  /** The first day of a year, from its century, its four-year cycle and its place there. */
  lemma StartOf(c: int, q: int, a: int)
    requires 0 <= q <= 24 && 0 <= a <= 3
    ensures YearStart(100 * c + 4 * q + a) == 36524 * c + 1461 * q + 365 * a
  {
    var y := 100 * c + 4 * q + a;
    assert y / 4 == 25 * c + q;
    assert y / 100 == c;
  }

  lemma FourthIsLeap(c: int, q: int)
    requires 0 <= c <= 3 && 0 <= q <= 24 && (q == 24 ==> c == 3)
    ensures IsLeap(100 * c + 4 * q + 4)
  {
    var y := 100 * c + 4 * q + 4;
    assert y == 4 * (25 * c + q + 1);
    if q < 24 {
      assert y % 100 == 4 * q + 4;
    }
  }

  lemma YearOfEraBounds(doe: int)
    requires 0 <= doe < 146097
    ensures var y := YearOfEra(doe);
            && 0 <= y <= 399
            && 0 <= doe - YearStart(y) <= 365
            && (doe - YearStart(y) == 365 ==> IsLeap(y + 1))
  {
    var c := if doe == 146096 then 3 else doe / 36524;
    var r := doe - 36524 * c;
    var q := if r == 36524 then 24 else r / 1461;
    var s := r - 1461 * q;
    var a := if s == 1460 then 3 else s / 365;
    YearOfEraParts(c, q, a, s - 365 * a);
    StartOf(c, q, a);
    if s == 1460 {
      FourthIsLeap(c, q);
    }
  }

  lemma MonthOfDay(doy: int)
    requires 0 <= doy <= 365
    ensures var mp := (5 * doy + 2) / 153;
            && 0 <= mp <= 11
            && 1 <= doy - (153 * mp + 2) / 5 + 1 <= (if mp == 11 then 29 else if mp == 1 || mp == 3 || mp == 6 || mp == 8 then 30 else 31)
            && (mp == 11 && doy - (153 * mp + 2) / 5 + 1 == 29 ==> doy == 365)
  {
  }

  lemma RemainderRepeats(a: int, b: int, k: int)
    requires b > 0
    ensures (a + k * b) % b == a % b
  {
    QuotientIs(a + k * b, b, a / b + k, a % b);
  }

  lemma QuotientIs(a: int, b: int, q: int, r: int)
    requires b > 0 && 0 <= r < b && a == q * b + r
    ensures a / b == q && a % b == r
  {
    var d := a / b - q;
    assert d * b == r - a % b;
    if d > 0 {
      MultipleIsLarge(d, b);
    } else if d < 0 {
      MultipleIsLarge(-d, b);
    }
  }

  lemma MultipleIsLarge(d: int, b: int)
    requires d > 0 && b > 0
    ensures d * b >= b
  {
  }

  lemma LeapRepeats(year: int, era: int)
    ensures IsLeap(year + era * 400) == IsLeap(year)
  {
    RemainderRepeats(year, 4, 100 * era);
    RemainderRepeats(year, 100, 4 * era);
    RemainderRepeats(year, 400, era);
  }

  /** What the civil date of day `doe` of era `era` is made of. */
  lemma CivilParts(era: int, doe: int)
    requires 0 <= doe < 146097
    ensures var date := CivilOf(era, doe);
            && IsLegal(date)
            && MarchYear(date.year, date.month) == YearOfEra(doe) + era * 400
            && DayOfYear(date.month, date.day) == doe - YearStart(YearOfEra(doe))
  {
    var yoe := YearOfEra(doe);
    YearOfEraBounds(doe);
    MonthOfDay(doe - YearStart(yoe));
    LeapRepeats(yoe + 1, era);
  }

  lemma EraOf(era: int, yoe: int)
    requires 0 <= yoe < 400
    ensures (yoe + era * 400) / 400 == era && (yoe + era * 400) % 400 == yoe
  {
  }

  /** The day count undoes the civil date, and the civil date is a legal one, for every day. */
  lemma CivilIsLegalAndCounts(days: int)
    ensures IsLegal(Civil(days))
    ensures DaysSinceEpoch(Civil(days).year, Civil(days).month, Civil(days).day) == days
  {
    var z := days + 719468;
    var era, doe := z / 146097, z % 146097;
    CivilParts(era, doe);
    YearOfEraBounds(doe);
    EraOf(era, YearOfEra(doe));
  }

  lemma TruncateFloors(a: int, b: int)
    requires b > 0
    ensures Truncate(if a >= 0 then a else a - (b - 1), b) == a / b
  {
    if a < 0 {
      var q, r := a / b, a % b;
      assert a == q * b + r;
      assert -(a - (b - 1)) == -q * b + (b - 1 - r);
      QuotientIs(-(a - (b - 1)), b, -q, b - 1 - r);
    }
  }

  /** Both divisions count the same days. */
  lemma DayCountsAgree(year: int, month: int, day: int)
    ensures DaysSinceEpochTruncating(year, month, day) == DaysSinceEpoch(year, month, day)
  {
    var y := MarchYear(year, month);
    TruncateFloors(y, 400);
    assert y - y / 400 * 400 == y % 400;
  }

  /** Both divisions name the same day. */
  lemma CivilFormsAgree(days: int)
    ensures CivilTruncating(days) == Civil(days)
  {
    var z := days + 719468;
    TruncateFloors(z, 146097);
    assert z - z / 146097 * 146097 == z % 146097;
  }

  // ---- order ----

  /** The first day of a March year, counted from the start of era 0. */
  function FirstOf(y: int): int {
    y / 400 * 146097 + YearStart(y % 400)
  }

  lemma QuartersGrow(n: int)
    ensures (n + 1) / 4 == n / 4 + if (n + 1) % 4 == 0 then 1 else 0
  {
  }

  lemma HundredthsGrow(n: int)
    ensures (n + 1) / 100 == n / 100 + if (n + 1) % 100 == 0 then 1 else 0
  {
  }

  lemma StartGrows(yoe: int)
    requires 0 <= yoe
    ensures YearStart(yoe + 1) == YearStart(yoe) + 365 + (if (yoe + 1) % 4 == 0 then 1 else 0) - (if (yoe + 1) % 100 == 0 then 1 else 0)
  {
    QuartersGrow(yoe);
    HundredthsGrow(yoe);
  }

  lemma YearGrows(y: int)
    ensures FirstOf(y + 1) == FirstOf(y) + (if IsLeap(y + 1) then 366 else 365)
  {
    var era, yoe := y / 400, y % 400;
    LeapRepeats(yoe + 1, era);
    StartGrows(yoe);
    if yoe == 399 {
      EraOf(era + 1, 0);
      assert YearStart(400) == 146097 - 1 && YearStart(0) == 0;
    } else {
      EraOf(era, yoe + 1);
    }
  }

  lemma {:induction false} YearsGrow(y: int, z: int)
    requires y <= z
    ensures FirstOf(y) + 365 * (z - y) <= FirstOf(z)
    decreases z - y
  {
    if y < z {
      YearsGrow(y, z - 1);
      YearGrows(z - 1);
    }
  }

  lemma DayWithinYear(date: Date)
    requires IsLegal(date)
    ensures 0 <= DayOfYear(date.month, date.day) < (if IsLeap(MarchYear(date.year, date.month) + 1) then 366 else 365)
  {
  }

  /** Later legal dates have larger day counts. */
  lemma LaterCountsMore(a: Date, b: Date)
    requires IsLegal(a) && IsLegal(b) && Before(a, b)
    ensures DaysSinceEpoch(a.year, a.month, a.day) < DaysSinceEpoch(b.year, b.month, b.day)
  {
    var y, z := MarchYear(a.year, a.month), MarchYear(b.year, b.month);
    DayWithinYear(a);
    DayWithinYear(b);
    if y < z {
      YearGrows(y);
      YearsGrow(y + 1, z);
    } else {
      assert y == z;
    }
  }

  /** The day count orders legal dates as the calendar does. */
  lemma CountOrdersDates(a: Date, b: Date)
    requires IsLegal(a) && IsLegal(b)
    ensures Before(a, b) <==> DaysSinceEpoch(a.year, a.month, a.day) < DaysSinceEpoch(b.year, b.month, b.day)
  {
    if Before(a, b) {
      LaterCountsMore(a, b);
    } else if a != b {
      LaterCountsMore(b, a);
    }
  }

  /** Each legal date is the civil date of its day count. */
  lemma CountNamesDate(date: Date)
    requires IsLegal(date)
    ensures Civil(DaysSinceEpoch(date.year, date.month, date.day)) == date
  {
    var days := DaysSinceEpoch(date.year, date.month, date.day);
    CivilIsLegalAndCounts(days);
    CountOrdersDates(date, Civil(days));
    CountOrdersDates(Civil(days), date);
  }

  /** The day count names a date that is not legal as another one: a day past the end of its month falls into the next. */
  lemma OnlyLegalDatesStand(date: Date)
    ensures Civil(DaysSinceEpoch(date.year, date.month, date.day)) == date <==> IsLegal(date)
  {
    CivilIsLegalAndCounts(DaysSinceEpoch(date.year, date.month, date.day));
    if IsLegal(date) {
      CountNamesDate(date);
    }
  }

  lemma Epoch()
    ensures DaysSinceEpoch(1970, 1, 1) == 0 && IsLegal(Date(1970, 1, 1))
  {
  }

  /** Days from the epoch on are those of the years from 1970 on. */
  lemma SinceEpoch(date: Date)
    requires IsLegal(date)
    ensures DaysSinceEpoch(date.year, date.month, date.day) >= 0 <==> date.year >= 1970
  {
    hide DaysSinceEpoch;
    Epoch();
    CountOrdersDates(date, Date(1970, 1, 1));
  }
}
