/** The date of a Unix timestamp, by integer division only, against counting days in the Gregorian calendar. */
module Calendar {
  import opened TextCodec

  datatype Date = Date(year: int, month: int, day: int)

  // ----- the calendar

  predicate IsLeap(y: int) { y % 4 == 0 && (y % 100 != 0 || y % 400 == 0) }

  function YearLength(y: int): nat { if IsLeap(y) then 366 else 365 }

  function MonthLength(y: int, m: int): nat
    requires 1 <= m <= 12
  {
    if m == 2 then if IsLeap(y) then 29 else 28
    else if m in {4, 6, 9, 11} then 30
    else 31
  }

  predicate ValidDate(date: Date) {
    1 <= date.month <= 12 && 1 <= date.day <= MonthLength(date.year, date.month)
  }

  function DaysBeforeYear(y: int): nat
    requires 1970 <= y
    decreases y
  {
    if y == 1970 then 0 else DaysBeforeYear(y - 1) + YearLength(y - 1)
  }

  function DaysBeforeMonth(y: int, m: int): nat
    requires 1 <= m <= 12
    decreases m
  {
    if m == 1 then 0 else DaysBeforeMonth(y, m - 1) + MonthLength(y, m - 1)
  }

  /** Days from 1 January 1970, counting year by year and month by month. */
  function DayNumber(date: Date): int
    requires 1970 <= date.year && ValidDate(date)
  {
    DaysBeforeYear(date.year) + DaysBeforeMonth(date.year, date.month) + date.day - 1
  }

  function NextDate(date: Date): Date
    requires ValidDate(date)
  {
    if date.day < MonthLength(date.year, date.month) then date.(day := date.day + 1)
    else if date.month < 12 then Date(date.year, date.month + 1, 1)
    else Date(date.year + 1, 1, 1)
  }

  // ----- the computation

  const ERA_DAYS := 146_097

  /** Digits of a year and of the other fields. */
  const YEAR_WIDTH: nat := 4
  const FIELD_WIDTH: nat := 2

  function YearOfEra(dayOfEra: int): int {
    (dayOfEra - dayOfEra / 1_460 + dayOfEra / 36_524 - dayOfEra / 146_096) / 365
  }

  /** Days of the era before a year of it, which begins in March. */
  function YearStart(yearOfEra: int): int { 365 * yearOfEra + yearOfEra / 4 - yearOfEra / 100 }

  /** Days of a year that begins in March before the month. */
  function MonthStart(monthPrime: int): int { (153 * monthPrime + 2) / 5 }

  /** The date of a day of an era. */
  function CivilFromEra(era: int, dayOfEra: int): Date {
    var yearOfEra := YearOfEra(dayOfEra);
    var dayOfYear := dayOfEra - YearStart(yearOfEra);
    var monthPrime := (5 * dayOfYear + 2) / 153;
    var day := dayOfYear - MonthStart(monthPrime) + 1;
    var month := if monthPrime < 10 then monthPrime + 3 else monthPrime - 9;
    Date(yearOfEra + era * 400 + (if month <= 2 then 1 else 0), month, day)
  }

  function CivilFromDays(days: nat): Date {
    var z := days + 719_468;
    CivilFromEra(z / ERA_DAYS, z % ERA_DAYS)
  }

  // ----- years

  /** A day of the era is in a century, a cycle of four years of it, a year of that and a day of that. */
  ghost predicate Placed(doe: int, c: int, q: int, k: int, t: int) {
    && 0 <= c <= 3 && 0 <= q <= 24 && 0 <= k <= 3 && 0 <= t <= 365
    && (t == 365 ==> k == 3 && (q < 24 || c == 3))
    && doe == 36_524 * c + 1_461 * q + 365 * k + t
  }

  lemma {:induction false} Place(doe: int) returns (c: int, q: int, k: int, t: int)
    requires 0 <= doe < ERA_DAYS
    ensures Placed(doe, c, q, k, t)
  {
    c := if doe / 36_524 > 3 then 3 else doe / 36_524;
    var r := doe - 36_524 * c;
    assert 0 <= r <= 36_524 && (r == 36_524 ==> c == 3);
    q := r / 1_461;
    var u := r - 1_461 * q;
    k := if u / 365 > 3 then 3 else u / 365;
    t := u - 365 * k;
  }

  lemma {:induction false} PlacedYear(c: int, q: int, k: int)
    requires 0 <= c <= 3 && 0 <= q <= 24 && 0 <= k <= 3
    ensures (100 * c + 4 * q + k) / 4 == 25 * c + q && (100 * c + 4 * q + k) / 100 == c
    ensures YearStart(100 * c + 4 * q + k) == 36_524 * c + 1_461 * q + 365 * k
  {
  }

  lemma {:induction false} Quotients(doe: int, c: int, q: int, k: int, t: int)
    requires Placed(doe, c, q, k, t)
    ensures doe / 1_460 == 25 * c + q + (if 24 * c + q + 365 * k + t >= 1_460 then 1 else 0)
    ensures doe / 36_524 - doe / 146_096 == c
  {
    var w := 24 * c + q + 365 * k + t;
    assert doe == 1_460 * (25 * c + q) + w && 0 <= w < 2_920;
    if doe == 146_096 {
      assert c == 3;
    } else {
      assert 0 <= doe - 36_524 * c < 36_524;
    }
  }

  /** The year of the era the formula gives is the one the day is in. */
  lemma {:induction false} YearFound(doe: int, c: int, q: int, k: int, t: int)
    requires Placed(doe, c, q, k, t)
    ensures YearOfEra(doe) == 100 * c + 4 * q + k
    ensures doe - YearStart(YearOfEra(doe)) == t
  {
    Quotients(doe, c, q, k, t);
    PlacedYear(c, q, k);
    var y := 100 * c + 4 * q + k;
    var n := doe - doe / 1_460 + doe / 36_524 - doe / 146_096;
    assert n == 365 * y + t - (if 24 * c + q + 365 * k + t >= 1_460 then 1 else 0);
    assert 365 * y <= n < 365 * y + 365;
  }

  lemma {:induction false} MonthFits(doy: int)
    requires 0 <= doy <= 365
    ensures
      var m := (5 * doy + 2) / 153;
      0 <= m <= 11 && MonthStart(m) <= doy && (m < 11 ==> doy < MonthStart(m + 1))
  {
  }

  // ----- closed forms

  /** Leap years among the years 1 to n. */
  function Leaps(n: int): int { n / 4 - n / 100 + n / 400 }

  lemma {:induction false} By4(y: int)
    ensures y / 4 - (y - 1) / 4 == if y % 4 == 0 then 1 else 0
  {
  }

  lemma {:induction false} By100(y: int)
    ensures y / 100 - (y - 1) / 100 == if y % 100 == 0 then 1 else 0
    ensures y % 100 == 0 ==> y % 4 == 0
  {
    if y % 100 == 0 {
      assert y == 4 * (25 * (y / 100));
    }
  }

  lemma {:induction false} By400(y: int)
    ensures y / 400 - (y - 1) / 400 == if y % 400 == 0 then 1 else 0
    ensures y % 400 == 0 ==> y % 100 == 0
  {
    if y % 400 == 0 {
      assert y == 100 * (4 * (y / 400));
    }
  }

  lemma {:induction false} LeapStep(y: int)
    ensures Leaps(y) - Leaps(y - 1) == if IsLeap(y) then 1 else 0
  {
    By4(y);
    By100(y);
    By400(y);
  }

  lemma {:induction false} DaysBeforeYearIs(y: int)
    requires 1970 <= y
    ensures DaysBeforeYear(y) == 365 * (y - 1970) + Leaps(y - 1) - Leaps(1969)
    decreases y
  {
    if y > 1970 {
      DaysBeforeYearIs(y - 1);
      LeapStep(y - 1);
    }
  }

  lemma {:induction false} DaysBeforeMonthIs(y: int, m: int)
    requires 1 <= m <= 12
    ensures m <= 2 ==> DaysBeforeMonth(y, m) == 31 * (m - 1)
    ensures m > 2 ==> DaysBeforeMonth(y, m) == (if IsLeap(y) then 60 else 59) + MonthStart(m - 3)
  {
    if m >= 2 {
      DaysBeforeMonthIs(y, m - 1);
    }
  }

  lemma {:induction false} SameInEveryEra(y: int, era: int)
    ensures IsLeap(y + 400 * era) == IsLeap(y)
  {
    Shift(y, 4, 100 * era);
    Shift(y, 100, 4 * era);
    Shift(y, 400, era);
  }

  lemma {:induction false} Shift(y: int, n: nat, k: int)
    requires n > 0
    ensures (y + n * k) % n == y % n
  {
    var q, r := y / n, y % n;
    assert y + n * k == n * (q + k) + r;
    Unique(y + n * k, n, q + k, r);
  }

  lemma {:induction false} Unique(x: int, n: nat, q: int, r: int)
    requires n > 0 && x == n * q + r && 0 <= r < n
    ensures x % n == r
  {
    var d := x / n - q;
    assert n * d == r - x % n;
    assert d > 0 ==> n * d >= n;
    assert d < 0 ==> n * d + n <= 0;
  }

  /** The last day of a year that begins in March exists only when its February has 29 days. */
  lemma {:induction false} LeapDay(c: int, q: int, era: int)
    requires 0 <= c <= 3 && 0 <= q <= 24
    ensures IsLeap(100 * c + 4 * q + 4 + 400 * era) <==> q < 24 || c == 3
  {
    SameInEveryEra(100 * c + 4 * q + 4, era);
    var y := 100 * c + 4 * (q + 1);
    assert y % 4 == 0 by {
      assert y == 4 * (25 * c + q + 1);
    }
    if q < 24 {
      Unique(y, 100, c, 4 * (q + 1));
    } else {
      Unique(y, 100, c + 1, 0);
      if c == 3 {
        assert y == 400;
      } else {
        Unique(y, 400, 0, 100 * (c + 1));
      }
    }
  }

  lemma {:induction false} EraLeaps(y: int, era: int)
    requires 0 <= y < 400
    ensures Leaps(y + 400 * era) == y / 4 - y / 100 + 97 * era
  {
    assert (y + 400 * era) / 4 == y / 4 + 100 * era;
    assert (y + 400 * era) / 100 == y / 100 + 4 * era;
    assert (y + 400 * era) / 400 == era;
  }

  // ----- the theorem

  /** A day, by years that begin in March. */
  lemma {:induction false} MarchYears(era: int, doe: int) returns (y: int, t: int)
    requires 0 <= doe < ERA_DAYS
    ensures y == YearOfEra(doe) + era * 400 && t == doe - YearStart(YearOfEra(doe))
    ensures 0 <= t <= 365 && (t == 365 ==> IsLeap(y + 1))
    ensures ERA_DAYS * era + doe == 365 * y + Leaps(y) + t
  {
    var c, q, k;
    c, q, k, t := Place(doe);
    YearFound(doe, c, q, k, t);
    y := 100 * c + 4 * q + k + era * 400;
    InEra(era, doe, c, q, k, t, y);
  }

  lemma {:induction false} InEra(era: int, doe: int, c: int, q: int, k: int, t: int, y: int)
    requires Placed(doe, c, q, k, t) && y == 100 * c + 4 * q + k + era * 400
    ensures ERA_DAYS * era + doe == 365 * y + Leaps(y) + t
    ensures t == 365 ==> IsLeap(y + 1)
  {
    var yoe := 100 * c + 4 * q + k;
    PlacedYear(c, q, k);
    EraLeaps(yoe, era);
    if t == 365 {
      LeapDay(c, q, era);
    }
  }

  lemma {:induction false} Late(y: int, t: int)
    requires 0 <= t <= 365 && 719_468 <= 365 * y + Leaps(y) + t
    ensures 1969 <= y && (y == 1969 ==> 306 <= t)
  {
  }

  lemma {:induction false} MonthLengths(y: int, m: int)
    requires 0 <= m < 11
    ensures m < 10 ==> MonthLength(y, m + 3) == MonthStart(m + 1) - MonthStart(m)
  {
  }

  lemma {:induction false} EraCounts(era: int, doe: int)
    requires 0 <= doe < ERA_DAYS && 719_468 <= ERA_DAYS * era + doe
    ensures
      var date := CivilFromEra(era, doe);
      1970 <= date.year && ValidDate(date) && DayNumber(date) == ERA_DAYS * era + doe - 719_468
  {
    var y, t := MarchYears(era, doe);
    Late(y, t);
    MonthFits(t);
    var m := (5 * t + 2) / 153;
    if m < 10 {
      assert CivilFromEra(era, doe) == Date(y, m + 3, t - MonthStart(m) + 1);
      SpringToWinter(y, t, m);
    } else {
      assert CivilFromEra(era, doe) == Date(y + 1, m - 9, t - MonthStart(m) + 1);
      Winter(y, t, m);
    }
  }

  /** March to December. */
  lemma {:induction false} SpringToWinter(y: int, t: int, m: int)
    requires 0 <= t <= 365 && 0 <= m < 10 && MonthStart(m) <= t < MonthStart(m + 1)
    requires 1969 <= y && (y == 1969 ==> 306 <= t)
    ensures
      var date := Date(y, m + 3, t - MonthStart(m) + 1);
      1970 <= y && ValidDate(date) && DayNumber(date) == 365 * y + Leaps(y) + t - 719_468
  {
    MonthLengths(y, m);
    DaysBeforeYearIs(y);
    DaysBeforeMonthIs(y, m + 3);
    LeapStep(y);
  }

  /** January and February, of the next calendar year. */
  lemma {:induction false} Winter(y: int, t: int, m: int)
    requires 0 <= t <= 365 && 10 <= m <= 11 && MonthStart(m) <= t && (m < 11 ==> t < MonthStart(m + 1))
    requires 1969 <= y && (t == 365 ==> IsLeap(y + 1))
    ensures
      var date := Date(y + 1, m - 9, t - MonthStart(m) + 1);
      ValidDate(date) && DayNumber(date) == 365 * y + Leaps(y) + t - 719_468
  {
    DaysBeforeYearIs(y + 1);
    DaysBeforeMonthIs(y + 1, m - 9);
  }

  /** The date computed for a day is a date of the calendar, and counting from the epoch to it gives the day back. */
  lemma {:induction false} CivilCounts(days: nat)
    ensures
      var date := CivilFromDays(days);
      1970 <= date.year && ValidDate(date) && DayNumber(date) == days
  {
    var z := days + 719_468;
    var era, doe := z / ERA_DAYS, z % ERA_DAYS;
    assert z == ERA_DAYS * era + doe;
    EraCounts(era, doe);
  }

  // ----- consecutive days

  lemma {:induction false} NextCounts(date: Date)
    requires 1970 <= date.year && ValidDate(date)
    ensures ValidDate(NextDate(date)) && DayNumber(NextDate(date)) == DayNumber(date) + 1
  {
    if date.day == MonthLength(date.year, date.month) && date.month == 12 {
      DaysBeforeMonthIs(date.year, 12);
    }
  }

  lemma {:induction false} YearsGrow(a: int, b: int)
    requires 1970 <= a < b
    ensures DaysBeforeYear(a) + YearLength(a) <= DaysBeforeYear(b)
    decreases b
  {
    if a < b - 1 {
      YearsGrow(a, b - 1);
    }
  }

  lemma {:induction false} MonthsGrow(y: int, a: int, b: int)
    requires 1 <= a < b <= 12
    ensures DaysBeforeMonth(y, a) + MonthLength(y, a) <= DaysBeforeMonth(y, b)
    decreases b
  {
    if a < b - 1 {
      MonthsGrow(y, a, b - 1);
    }
  }

  lemma {:induction false} WithinYear(date: Date)
    requires ValidDate(date)
    ensures 0 <= DaysBeforeMonth(date.year, date.month) + date.day - 1 < YearLength(date.year)
  {
    DaysBeforeMonthIs(date.year, 12);
    if date.month < 12 {
      MonthsGrow(date.year, date.month, 12);
    }
  }

  lemma {:induction false} DayNumberOrders(a: Date, b: Date)
    requires 1970 <= a.year && ValidDate(a) && 1970 <= b.year && ValidDate(b)
    requires a.year < b.year || (a.year == b.year && (a.month < b.month || (a.month == b.month && a.day < b.day)))
    ensures DayNumber(a) < DayNumber(b)
  {
    WithinYear(a);
    WithinYear(b);
    if a.year < b.year {
      YearsGrow(a.year, b.year);
    } else if a.month < b.month {
      MonthsGrow(a.year, a.month, b.month);
    }
  }

  lemma {:induction false} DayNumberInjective(a: Date, b: Date)
    requires 1970 <= a.year && ValidDate(a) && 1970 <= b.year && ValidDate(b) && DayNumber(a) == DayNumber(b)
    ensures a == b
  {
    if a != b {
      if a.year < b.year || (a.year == b.year && (a.month < b.month || (a.month == b.month && a.day < b.day))) {
        DayNumberOrders(a, b);
      } else {
        DayNumberOrders(b, a);
      }
    }
  }

  /** The day after is computed as the date after. */
  lemma {:induction false} ConsecutiveDays(days: nat)
    ensures ValidDate(CivilFromDays(days)) && CivilFromDays(days + 1) == NextDate(CivilFromDays(days))
  {
    CivilCounts(days);
    CivilCounts(days + 1);
    NextIs(CivilFromDays(days), CivilFromDays(days + 1));
  }

  lemma {:induction false} NextIs(a: Date, b: Date)
    requires 1970 <= a.year && ValidDate(a) && 1970 <= b.year && ValidDate(b) && DayNumber(b) == DayNumber(a) + 1
    ensures b == NextDate(a)
  {
    NextCounts(a);
    DayNumberInjective(b, NextDate(a));
  }

  // ----- the text

  /** `{:04}` and `{:02}`: at least that many digits. */
  function AtLeast(n: nat, width: nat): string {
    if n < Pow10(width) then Padded(n, width) else Decimal(n)
  }

  function DateTimeText(date: Date, time: nat): string
    requires ValidDate(date) && 0 <= date.year
  {
    AtLeast(date.year, YEAR_WIDTH) + "-" + AtLeast(date.month, FIELD_WIDTH) + "-" + AtLeast(date.day, FIELD_WIDTH) + "T"
    + AtLeast(time / 3_600, FIELD_WIDTH) + ":" + AtLeast(time % 3_600 / 60, FIELD_WIDTH) + ":"
    + AtLeast(time % 60, FIELD_WIDTH) + "Z"
  }

  /** `format_rfc3339`. */
  function FormatRfc3339(secs: nat): string {
    CivilCounts(secs / 86_400);
    DateTimeText(CivilFromDays(secs / 86_400), secs % 86_400)
  }

  /** Two digits that read as the number. */
  predicate IsField(s: string, n: nat) {
    |s| == 2 && IsDigit(s[0]) && IsDigit(s[1]) && DigitsValue(s) == n
  }

  lemma {:induction false} TwoDigits(n: nat)
    requires n < 100
    ensures AtLeast(n, FIELD_WIDTH) == Padded(n, FIELD_WIDTH) && IsField(Padded(n, FIELD_WIDTH), n)
  {
    assert Pow10(FIELD_WIDTH) == 100;
    PaddedValue(n, FIELD_WIDTH);
  }

  lemma {:induction false} DecimalLong(n: nat, w: nat)
    requires Pow10(w) <= n
    ensures w < |Decimal(n)|
  {
    if 0 < w {
      DecimalLong(n / 10, w - 1);
    }
  }

  /** A year is printed in full: in four digits up to 9999, in more after that. */
  lemma {:induction false} YearDigits(n: nat)
    ensures
      var y := AtLeast(n, YEAR_WIDTH);
      && 4 <= |y| && (|y| == 4 <==> n <= 9999) && (forall i :: 0 <= i < |y| ==> IsDigit(y[i])) && DigitsValue(y) == n
  {
    assert Pow10(YEAR_WIDTH) == 10_000;
    if n <= 9999 {
      PaddedValue(n, YEAR_WIDTH);
    } else {
      DecimalValue(n);
      DecimalLong(n, YEAR_WIDTH);
    }
  }

  /** The form of a date-time in section 5.6 of RFC 3339, with these fields, but for a year of four digits or more. */
  ghost predicate IsDateTime(s: string, date: Date, time: nat)
    requires ValidDate(date) && 0 <= date.year
  {
    && 20 <= |s|
    && var w := |s| - 16;
    && s[w] == '-' && s[w + 3] == '-' && s[w + 6] == 'T' && s[w + 9] == ':' && s[w + 12] == ':' && s[w + 15] == 'Z'
    && (forall i :: 0 <= i < w ==> IsDigit(s[i])) && DigitsValue(s[..w]) == date.year
    && IsField(s[w + 1..w + 3], date.month) && IsField(s[w + 4..w + 6], date.day)
    && IsField(s[w + 7..w + 9], time / 3_600) && IsField(s[w + 10..w + 12], time % 3_600 / 60)
    && IsField(s[w + 13..w + 15], time % 60)
  }

  lemma {:induction false} TextIsDateTime(date: Date, time: nat)
    requires ValidDate(date) && 0 <= date.year && time < 86_400
    ensures IsDateTime(DateTimeText(date, time), date, time)
    ensures |DateTimeText(date, time)| == 20 <==> date.year <= 9999
  {
    hide IsField;
    hide IsDateTime;
    hide AtLeast;
    hide Padded;
    hide DigitsValue;
    YearDigits(date.year);
    TwoDigits(date.month);
    TwoDigits(date.day);
    TwoDigits(time / 3_600);
    TwoDigits(time % 3_600 / 60);
    TwoDigits(time % 60);
    FieldsMake(AtLeast(date.year, YEAR_WIDTH), Padded(date.month, FIELD_WIDTH), Padded(date.day, FIELD_WIDTH),
               Padded(time / 3_600, FIELD_WIDTH), Padded(time % 3_600 / 60, FIELD_WIDTH), Padded(time % 60, FIELD_WIDTH),
               date, time);
  }

  lemma {:induction false} FieldsMake(y: string, mo: string, d: string, h: string, mi: string, sec: string, date: Date, time: nat)
    requires ValidDate(date) && 0 <= date.year
    requires 4 <= |y| && (forall i :: 0 <= i < |y| ==> IsDigit(y[i])) && DigitsValue(y) == date.year
    requires IsField(mo, date.month) && IsField(d, date.day)
    requires IsField(h, time / 3_600) && IsField(mi, time % 3_600 / 60) && IsField(sec, time % 60)
    ensures
      var s := y + "-" + mo + "-" + d + "T" + h + ":" + mi + ":" + sec + "Z";
      IsDateTime(s, date, time) && |s| == |y| + 16
  {
    hide ValidDate;
    hide DigitsValue;
    Layout(y, mo, d, h, mi, sec);
    assert |mo| == |d| == |h| == |mi| == |sec| == 2;
    hide IsField;
    var s := y + "-" + mo + "-" + d + "T" + h + ":" + mi + ":" + sec + "Z";
    assert forall i :: 0 <= i < |y| ==> s[i] == y[i];
  }

  /**
   The text has the form RFC 3339 asks for exactly up to the year 9999; a later year takes more than its four
   digits. In any year its fields are the date and the hours, minutes and seconds that make up the timestamp.
   */
  lemma {:induction false} FormatIsDateTime(secs: nat)
    ensures
      var date, time := CivilFromDays(secs / 86_400), secs % 86_400;
      && 1970 <= date.year && ValidDate(date) && IsDateTime(FormatRfc3339(secs), date, time)
      && (|FormatRfc3339(secs)| == 20 <==> date.year <= 9999)
      && 86_400 * DayNumber(date) + 3_600 * (time / 3_600) + 60 * (time % 3_600 / 60) + time % 60 == secs
      && time / 3_600 < 24
  {
    CivilCounts(secs / 86_400);
    TextIsDateTime(CivilFromDays(secs / 86_400), secs % 86_400);
    TimeParts(secs % 86_400);
  }

  lemma {:induction false} TenThousand()
    ensures CivilFromDays(2_932_897).year == 10_000
  {
    hide DayNumber;
    hide ValidDate;
  }

  /** The first second of the year 10000 is printed in more than twenty characters. */
  lemma {:induction false} TenThousandIsLong()
    ensures |FormatRfc3339(253_402_300_800)| != 20
  {
    hide *;
    FormatIsDateTime(253_402_300_800);
    TenThousand();
  }

  lemma {:induction false} TimeParts(time: nat)
    requires time < 86_400
    ensures 3_600 * (time / 3_600) + 60 * (time % 3_600 / 60) + time % 60 == time && time / 3_600 < 24
  {
  }

  lemma {:induction false} Layout(y: string, mo: string, d: string, h: string, mi: string, sec: string)
    requires |mo| == |d| == |h| == |mi| == |sec| == 2
    ensures
      var s, w := y + "-" + mo + "-" + d + "T" + h + ":" + mi + ":" + sec + "Z", |y|;
      && |s| == w + 16
      && s[w] == '-' && s[w + 3] == '-' && s[w + 6] == 'T' && s[w + 9] == ':' && s[w + 12] == ':' && s[w + 15] == 'Z'
      && s[..w] == y && s[w + 1..w + 3] == mo && s[w + 4..w + 6] == d
      && s[w + 7..w + 9] == h && s[w + 10..w + 12] == mi && s[w + 13..w + 15] == sec
  {
    var w := |y|;
    var tail := "-" + mo + "-" + d + "T" + h + ":" + mi + ":" + sec + "Z";
    Tail(mo, d, h, mi, sec);
    var s := y + "-" + mo + "-" + d + "T" + h + ":" + mi + ":" + sec + "Z";
    assert s == y + tail;
    assert s[w + 1..w + 3] == tail[1..3] && s[w + 4..w + 6] == tail[4..6] && s[w + 7..w + 9] == tail[7..9];
    assert s[w + 10..w + 12] == tail[10..12] && s[w + 13..w + 15] == tail[13..15];
  }

  lemma {:induction false} Tail(mo: string, d: string, h: string, mi: string, sec: string)
    requires |mo| == |d| == |h| == |mi| == |sec| == 2
    ensures
      var s := "-" + mo + "-" + d + "T" + h + ":" + mi + ":" + sec + "Z";
      && |s| == 16 && s[0] == '-' && s[3] == '-' && s[6] == 'T' && s[9] == ':' && s[12] == ':' && s[15] == 'Z'
      && s[1..3] == mo && s[4..6] == d && s[7..9] == h && s[10..12] == mi && s[13..15] == sec
  {
    var a := "-" + mo + "-" + d + "T";
    assert a[1..3] == mo && a[4..6] == d;
    var b := h + ":" + mi + ":" + sec + "Z";
    assert b[0..2] == h && b[3..5] == mi && b[6..8] == sec;
    var s := "-" + mo + "-" + d + "T" + h + ":" + mi + ":" + sec + "Z";
    assert s == a + b;
    assert s[1..3] == a[1..3] && s[4..6] == a[4..6];
    assert s[7..9] == b[0..2] && s[10..12] == b[3..5] && s[13..15] == b[6..8];
  }
}
