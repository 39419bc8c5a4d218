/**
 * The calendar date of a day count, as the benchmark report computes it.
 *
 * The reference is the proleptic Gregorian calendar itself: leap years, month
 * lengths, the number of days before a date, and the day that follows a date.
 */
module Civil {

  datatype Date = Date(year: int, month: int, day: int)

  // ---- the calendar -------------------------------------------------------

  predicate IsLeap(y: int) {
    y % 4 == 0 && (y % 100 != 0 || y % 400 == 0)
  }

  function DaysInMonth(y: int, m: int): int {
    if m == 2 then (if IsLeap(y) then 29 else 28)
    else if m == 4 || m == 6 || m == 9 || m == 11 then 30 else 31
  }

  predicate IsDate(t: Date) {
    1 <= t.month <= 12 && 1 <= t.day <= DaysInMonth(t.year, t.month)
  }

  function NextDay(t: Date): Date {
    if t.day < DaysInMonth(t.year, t.month) then t.(day := t.day + 1)
    else if t.month < 12 then Date(t.year, t.month + 1, 1)
    else Date(t.year + 1, 1, 1)
  }

  /** Leap years among the years up to and including `y`, counted from year 1. */
  function LeapsThrough(y: int): int {
    y / 4 - y / 100 + y / 400
  }

  function DaysBeforeYear(y: int): int {
    365 * y + LeapsThrough(y - 1)
  }

  function DaysBeforeMonth(y: int, m: int): int
    decreases m
  {
    if m <= 1 then 0 else DaysBeforeMonth(y, m - 1) + DaysInMonth(y, m - 1)
  }

  /** Days from 1 January 1970 to `t`. */
  function DayCount(t: Date): int {
    DaysBeforeYear(t.year) + DaysBeforeMonth(t.year, t.month) + t.day - 1 - DaysBeforeYear(1970)
  }

  // ---- the computation ----------------------------------------------------

  function YearOfEra(doe: int): int {
    (doe - doe / 1460 + doe / 36524 - doe / 146096) / 365
  }

  /** The date of day `doe` of the 400-year era `era`. */
  function InEra(era: int, doe: int): Date {
    var yoe := YearOfEra(doe);
    var doy := doe - (365 * yoe + yoe / 4 - yoe / 100);
    var mp := (5 * doy + 2) / 153;
    var d := doy - (153 * mp + 2) / 5 + 1;
    var m := if mp < 10 then mp + 3 else mp - 9;
    var y := yoe + era * 400;
    Date(if m <= 2 then y + 1 else y, m, d)
  }

  function FromDays(days: int): Date {
    var z := days + 719468;
    InEra(z / 146097, z % 146097)
  }

  // ---- years that start in March ------------------------------------------

  /** A year of the 400-year era: century `c`, four-year group `q`, year `r`. */
  predicate IsYear(c: int, q: int, r: int) {
    0 <= c < 4 && 0 <= q < 25 && 0 <= r < 4
  }

  /** The length of that year: its last day is 29 February when the next year is leap. */
  function MarchYearLength(c: int, q: int, r: int): int {
    if r == 3 && (q < 24 || c == 3) then 366 else 365
  }

  /** The last day of the era is the only one that starts a century too many. */
  lemma CenturyOf(c: int, rest: int)
    requires 0 <= c < 4 && 0 <= rest <= 36524 && (rest == 36524 ==> c == 3)
    ensures var doe := 36524 * c + rest; doe / 36524 - doe / 146096 == c
  {
    var doe := 36524 * c + rest;
    assert doe / 36524 == if rest == 36524 then c + 1 else c;
    assert doe / 146096 == if rest == 36524 then 1 else 0;
  }

  lemma YearRecovered(c: int, q: int, r: int, doy: int)
    requires IsYear(c, q, r) && 0 <= doy < MarchYearLength(c, q, r)
    ensures YearOfEra(36524 * c + 1461 * q + 365 * r + doy) == 100 * c + 4 * q + r
  {
    var doe := 36524 * c + 1461 * q + 365 * r + doy;
    var rest := 24 * c + q + 365 * r + doy;
    var e := if rest >= 1460 then 1 else 0;
    assert doe == 1460 * (25 * c + q) + rest;
    assert doe / 1460 == 25 * c + q + e;
    CenturyOf(c, 1461 * q + 365 * r + doy);
    assert doe - doe / 1460 + c == 365 * (100 * c + 4 * q + r) + (doy - e);
    assert 0 <= doy - e < 365;
  }

  lemma YearStart(c: int, q: int, r: int)
    requires IsYear(c, q, r)
    ensures var yoe := 100 * c + 4 * q + r;
            365 * yoe + yoe / 4 - yoe / 100 == 36524 * c + 1461 * q + 365 * r
  {
    var yoe := 100 * c + 4 * q + r;
    assert yoe / 4 == 25 * c + q;
    assert yoe / 100 == c;
  }

  lemma YearOf(doe: int) returns (c: int, q: int, r: int, doy: int)
    requires 0 <= doe < 146097
    ensures IsYear(c, q, r) && 0 <= doy < MarchYearLength(c, q, r)
    ensures doe == 36524 * c + 1461 * q + 365 * r + doy
  {
    c := if doe / 36524 < 4 then doe / 36524 else 3;
    var inCentury := doe - 36524 * c;
    q := inCentury / 1461;
    var inGroup := inCentury - 1461 * q;
    r := if inGroup / 365 < 4 then inGroup / 365 else 3;
    doy := inGroup - 365 * r;
  }

  function MonthStart(mp: int): int {
    (153 * mp + 2) / 5
  }

  function MonthOf(mp: int): int {
    if mp < 10 then mp + 3 else mp - 9
  }

  /** Months counted from March: the straight-line formula against the month table. */
  lemma MonthRecovered(y: int, mp: int, d: int)
    requires 0 <= mp < 12 && 1 <= d <= DaysInMonth(y, MonthOf(mp))
    ensures (5 * (MonthStart(mp) + d - 1) + 2) / 153 == mp
  {
  }

  lemma MonthTotals(y: int, mp: int)
    requires 0 <= mp < 12
    ensures DaysBeforeMonth(y, MonthOf(mp)) ==
            if mp < 10 then 59 + (if IsLeap(y) then 1 else 0) + MonthStart(mp) else MonthStart(mp) - 306
  {
    assert DaysBeforeMonth(y, 2) == 31;
    assert DaysBeforeMonth(y, 3) == 59 + (if IsLeap(y) then 1 else 0);
    assert DaysBeforeMonth(y, 5) == DaysBeforeMonth(y, 3) + 61;
    assert DaysBeforeMonth(y, 7) == DaysBeforeMonth(y, 5) + 61;
    assert DaysBeforeMonth(y, 9) == DaysBeforeMonth(y, 7) + 62;
    assert DaysBeforeMonth(y, 11) == DaysBeforeMonth(y, 9) + 61;
  }

  lemma FourthStep(y: int)
    ensures y / 4 - (y - 1) / 4 == if y % 4 == 0 then 1 else 0
  {
  }

  lemma CenturyStep(y: int)
    ensures y / 100 - (y - 1) / 100 == if y % 100 == 0 then 1 else 0
  {
  }

  lemma EraStep(y: int)
    ensures y / 400 - (y - 1) / 400 == if y % 400 == 0 then 1 else 0
  {
  }

  lemma Multiples(y: int)
    ensures (y % 400 == 0 ==> y % 100 == 0) && (y % 100 == 0 ==> y % 4 == 0)
  {
    assert y == 400 * (y / 400) + y % 400 && y == 100 * (y / 100) + y % 100;
    assert y % 400 == 0 ==> y == 100 * (4 * (y / 400));
    assert y % 100 == 0 ==> y == 4 * (25 * (y / 100));
  }

  lemma LeapStep(y: int)
    ensures LeapsThrough(y) - LeapsThrough(y - 1) == if IsLeap(y) then 1 else 0
  {
    FourthStep(y);
    CenturyStep(y);
    EraStep(y);
    Multiples(y);
  }

  /** The date of month `mp` and day `d` in the March year `y`, and its day count. */
  lemma MarchDayCount(y: int, mp: int, d: int)
    requires 0 <= mp < 12
    ensures DayCount(Date(if mp < 10 then y else y + 1, MonthOf(mp), d)) ==
            365 * y + LeapsThrough(y) + MonthStart(mp) + d - 1 - 719468
  {
    MonthTotals(if mp < 10 then y else y + 1, mp);
    LeapStep(y);
  }

  lemma LeapsOfEra(era: int, c: int, q: int, r: int)
    requires IsYear(c, q, r)
    ensures var y := 400 * era + 100 * c + 4 * q + r;
            365 * y + LeapsThrough(y) == 146097 * era + 36524 * c + 1461 * q + 365 * r
  {
    var y := 400 * era + 100 * c + 4 * q + r;
    assert y / 4 == 100 * era + 25 * c + q;
    assert y / 100 == 4 * era + c;
    assert y / 400 == era;
  }

  /** The month and day of a position within a March year. */
  lemma MonthAndDay(y: int, c: int, q: int, r: int, doy: int) returns (mp: int, d: int)
    requires IsYear(c, q, r) && 0 <= doy < MarchYearLength(c, q, r)
    requires y % 400 == 100 * c + 4 * q + r
    ensures 0 <= mp < 12 && mp == (5 * doy + 2) / 153 && d == doy - MonthStart(mp) + 1
    ensures 1 <= d <= DaysInMonth(if mp < 10 then y else y + 1, MonthOf(mp))
  {
    mp := (5 * doy + 2) / 153;
    d := doy - MonthStart(mp) + 1;
    NextIsLeap(y, c, q, r);
  }

  lemma RemainderBy4(a: int, b: int)
    ensures (4 * a + b) % 4 == b % 4
  {
  }

  lemma RemainderBy100(a: int, b: int)
    ensures (100 * a + b) % 100 == b % 100
  {
  }

  lemma RemainderBy400(a: int, b: int)
    ensures (400 * a + b) % 400 == b % 400
  {
  }

  lemma NextIsLeap(y: int, c: int, q: int, r: int)
    requires IsYear(c, q, r) && y % 400 == 100 * c + 4 * q + r
    ensures IsLeap(y + 1) <==> MarchYearLength(c, q, r) == 366
  {
    var k := y / 400;
    RemainderBy4(100 * k + 25 * c + q, r + 1);
    RemainderBy100(4 * k + c, 4 * q + r + 1);
    RemainderBy400(k, 100 * c + 4 * q + r + 1);
    assert y + 1 == 400 * k + 100 * c + 4 * q + r + 1;
  }

  // ---- main results -------------------------------------------------------

  lemma EraOf(era: int, doe: int)
    requires 0 <= doe < 146097
    ensures (146097 * era + doe) / 146097 == era && (146097 * era + doe) % 146097 == doe
  {
  }

  /** The computation on a day given by the year of the era and the day of that March year. */
  lemma Assembled(era: int, c: int, q: int, r: int, doy: int)
    requires IsYear(c, q, r) && 0 <= doy < MarchYearLength(c, q, r)
    ensures var y := 400 * era + 100 * c + 4 * q + r;
            var mp := (5 * doy + 2) / 153;
            InEra(era, 36524 * c + 1461 * q + 365 * r + doy) ==
            Date(if MonthOf(mp) <= 2 then y + 1 else y, MonthOf(mp), doy - MonthStart(mp) + 1)
  {
    hide YearOfEra;
    YearRecovered(c, q, r, doy);
    YearStart(c, q, r);
  }

  lemma YearInEra(era: int, c: int, q: int, r: int)
    requires IsYear(c, q, r)
    ensures (400 * era + 100 * c + 4 * q + r) % 400 == 100 * c + 4 * q + r
  {
    RemainderBy400(era, 100 * c + 4 * q + r);
  }

  /** Every day count has a real calendar date, and that date has that day count. */
  lemma FromDaysIsADate(days: int)
    ensures IsDate(FromDays(days))
    ensures DayCount(FromDays(days)) == days
  {
    hide InEra, DayCount, LeapsThrough, YearOfEra, IsLeap, MonthStart, MarchYearLength;
    var z := days + 719468;
    var era, doe := z / 146097, z % 146097;
    var c, q, r, doy := YearOf(doe);
    var y := 400 * era + 100 * c + 4 * q + r;
    YearInEra(era, c, q, r);
    var mp, d := MonthAndDay(y, c, q, r, doy);
    MarchDayCount(y, mp, d);
    LeapsOfEra(era, c, q, r);
    Assembled(era, c, q, r, doy);
  }

  /** Every calendar date, before or after 1970, is recovered from its day count. */
  lemma DateRecovered(t: Date)
    requires IsDate(t)
    ensures FromDays(DayCount(t)) == t
  {
    hide InEra, DayCount, LeapsThrough, YearOfEra;
    var mp := if t.month > 2 then t.month - 3 else t.month + 9;
    var y := if t.month > 2 then t.year else t.year - 1;
    var era, yoe := y / 400, y % 400;
    var c, q, r := yoe / 100, yoe % 100 / 4, yoe % 4;
    assert yoe == 100 * c + 4 * q + r;
    var doy := MonthStart(mp) + t.day - 1;
    NextIsLeap(y, c, q, r);
    assert 0 <= doy < MarchYearLength(c, q, r) by {
      assert mp == 11 ==> t.day <= MarchYearLength(c, q, r) - 337;
    }
    MonthRecovered(t.year, mp, t.day);
    MarchDayCount(y, mp, t.day);
    LeapsOfEra(era, c, q, r);
    Assembled(era, c, q, r, doy);
    EraOf(era, 36524 * c + 1461 * q + 365 * r + doy);
  }

  lemma NextDayCount(t: Date)
    requires IsDate(t)
    ensures IsDate(NextDay(t)) && DayCount(NextDay(t)) == DayCount(t) + 1
  {
    if t.day == DaysInMonth(t.year, t.month) && t.month == 12 {
      MonthTotals(t.year, 9);
      LeapStep(t.year);
    }
  }

  lemma Epoch()
    ensures FromDays(0) == Date(1970, 1, 1)
  {
    hide FromDays;
    DateRecovered(Date(1970, 1, 1));
  }

  /** Consecutive day counts are consecutive calendar days, from 1 January 1970 on. */
  lemma ConsecutiveDays(days: int)
    ensures FromDays(days + 1) == NextDay(FromDays(days))
    ensures FromDays(0) == Date(1970, 1, 1)
  {
    hide FromDays, DayCount, NextDay;
    FromDaysIsADate(days);
    NextDayCount(FromDays(days));
    DateRecovered(NextDay(FromDays(days)));
    Epoch();
  }
}
