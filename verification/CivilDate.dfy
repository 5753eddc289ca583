/** Day numbers and proleptic Gregorian dates: the two halves of the certificate clock. */
module CivilDate {
  datatype Date = Date(y: int, m: int, d: int)

  predicate LeapYear(y: int) {
    y % 4 == 0 && (y % 100 != 0 || y % 400 == 0)
  }

  function DaysInMonth(y: int, m: int): int {
    if m == 2 then (if LeapYear(y) then 29 else 28)
    else if m == 4 || m == 6 || m == 9 || m == 11 then 30
    else 31
  }

  predicate ValidDate(t: Date) {
    1 <= t.m <= 12 && 1 <= t.d <= DaysInMonth(t.y, t.m)
  }

  /** The calendar day after `t`. */
  function NextDay(t: Date): Date {
    if t.d < DaysInMonth(t.y, t.m) then Date(t.y, t.m, t.d + 1)
    else if t.m < 12 then Date(t.y, t.m + 1, 1)
    else Date(t.y + 1, 1, 1)
  }

  ghost predicate Earlier(a: Date, b: Date) {
    a.y < b.y || (a.y == b.y && (a.m < b.m || (a.m == b.m && a.d < b.d)))
  }

  /** The source's `/` on a dividend of either sign: it cuts towards zero. */
  function Quotient(a: int, b: int): int
    requires b > 0
  {
    if a >= 0 then a / b else -(-a / b)
  }

  /** What is left over has the sign of the dividend. */
  lemma QuotientCuts(a: int, b: int)
    requires b > 0
    ensures var rest := a - Quotient(a, b) * b;
      if a >= 0 then 0 <= rest < b else -b < rest <= 0
  {
  }

  /** Days since 1970-01-01. The divisions by 400 are Euclidean in the source too; the one by five sees a
      negative dividend for months below -9, and the other dividends are never negative. */
  function DaysFromCivil(y: int, m: int, d: int): int {
    var y' := if m <= 2 then y - 1 else y;
    var era := y' / 400;
    var yoe := y' % 400;
    var mp := if m > 2 then m - 3 else m + 9;
    var doy := Quotient(153 * mp + 2, 5) + d - 1;
    var doe := yoe * 365 + yoe / 4 - yoe / 100 + doy;
    era * 146097 + doe - 719468
  }

  /** The year of the era, counted from its first of March. */
  function YearOf(doe: int): int {
    (doe - doe / 1460 + doe / 36524 - doe / 146096) / 365
  }

  /** Month and day, from the day of a March year. */
  function MonthAndDay(y: int, doy: int): Date {
    var mp := (5 * doy + 2) / 153;
    var d := doy - (153 * mp + 2) / 5 + 1;
    var m := if mp < 10 then mp + 3 else mp - 9;
    Date(if m <= 2 then y + 1 else y, m, d)
  }

  function CivilFromDays(days: int): Date {
    var z := days + 719468;
    var era := z / 146097;
    var doe := z % 146097;
    var yoe := YearOf(doe);
    MonthAndDay(yoe + era * 400, doe - (365 * yoe + yoe / 4 - yoe / 100))
  }

  // ----- years that start in March -----

  /** Days from 0000-03-01 to the first of March of year `y`. */
  function YearStart(y: int): int {
    y / 400 * 146097 + (y % 400 * 365 + y % 400 / 4 - y % 400 / 100)
  }

  /** Days from the first of March to the first day of the month numbered `mp` after March. */
  function MonthStart(mp: int): int {
    (153 * mp + 2) / 5
  }

  /** Leap years repeat every 400 years. */
  lemma LeapPeriod(era: int, y: int)
    ensures LeapYear(400 * era + y) == LeapYear(y)
  {
    assert 400 * era + y == 4 * (100 * era) + y == 100 * (4 * era) + y;
    Period(4, 100 * era, y);
    Period(100, 4 * era, y);
    Period(400, era, y);
  }

  lemma Period(n: int, k: int, y: int)
    requires n == 4 || n == 100 || n == 400
    ensures (n * k + y) % n == y % n
  {
  }

  lemma YearLengthInEra(yoe: int)
    requires 0 <= yoe < 399
    ensures (yoe + 1) / 4 - (yoe + 1) / 100 == yoe / 4 - yoe / 100 + if LeapYear(yoe + 1) then 1 else 0
  {
  }

  /** A March year has 366 days when the next January year is a leap year. */
  lemma YearLength(y: int)
    ensures YearStart(y + 1) == YearStart(y) + (if LeapYear(y + 1) then 366 else 365)
  {
    var era, yoe := y / 400, y % 400;
    LeapPeriod(era, yoe + 1);
    if yoe == 399 {
      assert (y + 1) / 400 == era + 1 && (y + 1) % 400 == 0;
    } else {
      assert (y + 1) / 400 == era && (y + 1) % 400 == yoe + 1;
      YearLengthInEra(yoe);
      hide LeapYear;
    }
  }

  /** The day of the era, split into centuries, four-year cycles, years and days. */
  lemma EraParts(doe: int) returns (c: int, q: int, y: int, r: int)
    requires 0 <= doe < 146097
    ensures doe == 36524 * c + 1461 * q + 365 * y + r
    ensures 0 <= c <= 3 && 0 <= q <= 24 && 0 <= y <= 3 && 0 <= r <= 365
    ensures r == 365 ==> y == 3 && (q < 24 || c == 3)
  {
    c := if doe == 146096 then 3 else doe / 36524;
    var r1 := doe - 36524 * c;
    q := r1 / 1461;
    var r2 := r1 - 1461 * q;
    y := if r2 == 1460 then 3 else r2 / 365;
    r := r2 - 365 * y;
  }

  /** The year formula recovers the parts. */
  lemma YearOfEra(doe: int, c: int, q: int, y: int, r: int)
    requires 0 <= doe < 146097 && doe == 36524 * c + 1461 * q + 365 * y + r
    requires 0 <= c <= 3 && 0 <= q <= 24 && 0 <= y <= 3 && 0 <= r <= 365
    requires r == 365 ==> y == 3 && (q < 24 || c == 3)
    ensures YearOf(doe) == 100 * c + 4 * q + y
    ensures var yoe := 100 * c + 4 * q + y; 365 * yoe + yoe / 4 - yoe / 100 == doe - r
  {
    var carry := if 24 * c + q + 365 * y + r >= 1460 then 1 else 0;
    assert doe == 1460 * (25 * c + q) + (24 * c + q + 365 * y + r);
    assert doe / 1460 == 25 * c + q + carry;
    assert doe / 36524 - doe / 146096 == c;
    var yoe := 100 * c + 4 * q + y;
    assert yoe / 4 == 25 * c + q;
    assert yoe / 100 == c;
  }

  /** A March year of 366 days is followed by a leap January year. */
  lemma LongYear(era: int, c: int, q: int)
    requires 0 <= c <= 3 && 0 <= q <= 24 && (q < 24 || c == 3)
    ensures LeapYear(400 * era + 100 * c + 4 * q + 3 + 1)
  {
    if q < 24 {
      LeapInCentury(4 * era + c, q + 1);
    } else {
      LeapEra(era + 1);
    }
  }

  lemma LeapInCentury(century: int, n: int)
    requires 0 < n < 25
    ensures LeapYear(100 * century + 4 * n)
  {
    var y := 100 * century + 4 * n;
    assert y == 4 * (25 * century + n);
    assert y % 100 == 4 * n;
  }

  lemma LeapEra(era: int)
    ensures LeapYear(400 * era)
  {
    assert 400 * era == 4 * (100 * era);
  }

  /** A March year and the day inside it, from the day of the era. */
  lemma SplitDays(era: int, doe: int) returns (y: int, doy: int)
    requires 0 <= doe < 146097
    ensures var yoe := YearOf(doe);
      0 <= yoe < 400 && y == yoe + era * 400 && doy == doe - (365 * yoe + yoe / 4 - yoe / 100)
    ensures era * 146097 + doe == YearStart(y) + doy
    ensures 0 <= doy < if LeapYear(y + 1) then 366 else 365
  {
    var c, q, k, r := EraParts(doe);
    YearOfEra(doe, c, q, k, r);
    var yoe := 100 * c + 4 * q + k;
    y, doy := yoe + era * 400, r;
    assert y / 400 == era && y % 400 == yoe;
    if r == 365 {
      LongYear(era, c, q);
    }
  }

  lemma MonthOfYear(y: int, doy: int)
    requires 0 <= doy < if LeapYear(y + 1) then 366 else 365
    ensures ValidDate(MonthAndDay(y, doy))
    ensures var t := MonthAndDay(y, doy); DaysFromCivil(t.y, t.m, t.d) == YearStart(y) + doy - 719468
  {
    hide DaysFromCivil, YearStart;
    var mp := (5 * doy + 2) / 153;
    assert 0 <= mp < 12;
    DaysByParts(y, mp, doy - MonthStart(mp) + 1);
  }

  /** The day number by parts: March year, month, day. */
  lemma DaysByParts(y: int, mp: int, d: int)
    requires 0 <= mp < 12
    ensures var m := if mp < 10 then mp + 3 else mp - 9;
      DaysFromCivil(if m <= 2 then y + 1 else y, m, d) == YearStart(y) + MonthStart(mp) + d - 1 - 719468
  {
  }

  // ----- the two halves are inverses -----

  /** Every day number is a valid calendar date, and that date's day number is the one started from. */
  lemma DaysRoundTrip(days: int)
    ensures var t := CivilFromDays(days); ValidDate(t) && DaysFromCivil(t.y, t.m, t.d) == days
  {
    hide DaysFromCivil, YearStart, ValidDate, LeapYear, YearOf, MonthAndDay;
    var z := days + 719468;
    var y, doy := SplitDays(z / 146097, z % 146097);
    MonthOfYear(y, doy);
  }

  /** `CivilFromDays` by parts. */
  lemma CivilByParts(y: int, doy: int)
    requires 0 <= doy < if LeapYear(y + 1) then 366 else 365
    ensures CivilFromDays(YearStart(y) + doy - 719468) == MonthAndDay(y, doy)
  {
    hide YearStart, LeapYear, YearOf, MonthAndDay;
    var z := YearStart(y) + doy;
    var y', doy' := SplitDays(z / 146097, z % 146097);
    if y < y' {
      YearsApart(y, y');
    } else if y' < y {
      YearsApart(y', y);
    }
  }

  lemma {:induction false} YearsApart(a: int, b: int)
    requires a < b
    ensures YearStart(a) + (if LeapYear(a + 1) then 366 else 365) <= YearStart(b)
    decreases b - a
  {
    hide YearStart, LeapYear;
    YearLength(b - 1);
    if a < b - 1 {
      YearsApart(a, b - 1);
    }
  }

  /** Every valid date survives the trip through its day number. */
  lemma CivilRoundTrip(t: Date)
    requires ValidDate(t)
    ensures CivilFromDays(DaysFromCivil(t.y, t.m, t.d)) == t
  {
    hide DaysFromCivil, CivilFromDays, YearStart, LeapYear, MonthAndDay;
    var y, mp := if t.m <= 2 then t.y - 1 else t.y, if t.m > 2 then t.m - 3 else t.m + 9;
    var doy := MonthStart(mp) + t.d - 1;
    DayOfYear(t, y, mp);
    DaysByParts(y, mp, t.d);
    CivilByParts(y, doy);
  }

  lemma DayOfYear(t: Date, y: int, mp: int)
    requires ValidDate(t)
    requires y == (if t.m <= 2 then t.y - 1 else t.y) && mp == if t.m > 2 then t.m - 3 else t.m + 9
    ensures var doy := MonthStart(mp) + t.d - 1;
      0 <= doy < (if LeapYear(y + 1) then 366 else 365) && MonthAndDay(y, doy) == t
  {
  }

  // ----- the calendar -----

  /** The next calendar day has the next day number; together with the epoch this fixes the day
      number of every date. */
  lemma NextDayFollows(t: Date)
    requires ValidDate(t)
    ensures ValidDate(NextDay(t))
    ensures DaysFromCivil(NextDay(t).y, NextDay(t).m, NextDay(t).d) == DaysFromCivil(t.y, t.m, t.d) + 1
  {
    hide YearStart, DaysFromCivil, LeapYear;
    var y, mp := if t.m <= 2 then t.y - 1 else t.y, if t.m > 2 then t.m - 3 else t.m + 9;
    DaysByParts(y, mp, t.d);
    if t.d < DaysInMonth(t.y, t.m) {
      DaysByParts(y, mp, t.d + 1);
    } else if mp < 11 {
      DaysByParts(y, mp + 1, 1);
    } else {
      YearLength(y);
      DaysByParts(y + 1, 0, 1);
    }
  }

  lemma Epoch()
    ensures DaysFromCivil(1970, 1, 1) == 0
    ensures CivilFromDays(0) == Date(1970, 1, 1)
  {
    hide CivilFromDays, DaysFromCivil;
    DaysByParts(1969, 10, 1);
    CivilRoundTrip(Date(1970, 1, 1));
  }

  lemma {:induction false} LaterDays(n: int, m: int)
    requires n < m
    ensures Earlier(CivilFromDays(n), CivilFromDays(m))
    decreases m - n
  {
    hide CivilFromDays, DaysFromCivil;
    var t := CivilFromDays(m - 1);
    DaysRoundTrip(m - 1);
    NextDayFollows(t);
    CivilRoundTrip(NextDay(t));
    if n < m - 1 {
      LaterDays(n, m - 1);
    }
  }

  /** Day numbers increase strictly with (year, month, day). */
  lemma DaysIncrease(a: Date, b: Date)
    requires ValidDate(a) && ValidDate(b)
    ensures Earlier(a, b) <==> DaysFromCivil(a.y, a.m, a.d) < DaysFromCivil(b.y, b.m, b.d)
  {
    var n, m := DaysFromCivil(a.y, a.m, a.d), DaysFromCivil(b.y, b.m, b.d);
    hide CivilFromDays, DaysFromCivil;
    CivilRoundTrip(a);
    CivilRoundTrip(b);
    if n < m {
      LaterDays(n, m);
    } else if m < n {
      LaterDays(m, n);
    }
  }
}
