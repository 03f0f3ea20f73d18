/**
 * The parts of JavaScript's `Date` that the task store uses, over instants
 * given as integer milliseconds since 1970-01-01T00:00:00Z, in the
 * proleptic Gregorian calendar of section 21.4.1 of ECMA-262, read in UTC:
 * `getDate`, `getMonth`, and `setDate` / `setMonth`, which rebuild an instant
 * from a year, a month and a day that may lie outside the month and are
 * carried over into the following months (MakeDay).
 */
module Calendar {

  /** Milliseconds per day (msPerDay). */
  const DayMs: int := 86400000

  predicate IsLeapYear(y: int) {
    y % 4 == 0 && (y % 100 != 0 || y % 400 == 0)
  }

  function YearLength(y: int): int {
    if IsLeapYear(y) then 366 else 365
  }

  /** Number of days of month `m` (0 = January) of year `y`. */
  function MonthLength(y: int, m: int): (n: int)
    requires 0 <= m < 12
    ensures 28 <= n <= 31
  {
    if m == 1 then (if IsLeapYear(y) then 29 else 28)
    else if m == 3 || m == 5 || m == 8 || m == 10 then 30
    else 31
  }

  /** Days from the first of January of `y` to the first of month `m`. */
  function DaysBeforeMonth(y: int, m: int): (n: int)
    requires 0 <= m <= 12
    ensures m == 12 ==> n == YearLength(y)
  {
    [0, 31, 59, 90, 120, 151, 181, 212, 243, 273, 304, 334, 365][m]
    + (if m >= 2 && IsLeapYear(y) then 1 else 0)
  }

  lemma DaysBeforeMonthStep(y: int, m: int)
    requires 0 <= m < 12
    ensures DaysBeforeMonth(y, m) + MonthLength(y, m) == DaysBeforeMonth(y, m + 1)
  {
  }

  /** Days from 1970-01-01 to the first of January of `y` (negative before 1970). */
  function DaysBeforeYear(y: int): int
    decreases if y >= 1970 then y - 1970 else 1970 - y
  {
    if y == 1970 then 0
    else if y > 1970 then DaysBeforeYear(y - 1) + YearLength(y - 1)
    else DaysBeforeYear(y + 1) - YearLength(y)
  }

  lemma DaysBeforeYearStep(y: int)
    ensures DaysBeforeYear(y + 1) == DaysBeforeYear(y) + YearLength(y)
  {
  }

  /** Later years start after the whole of every earlier year. */
  lemma {:induction false} DaysBeforeYearMonotone(a: int, b: int)
    requires a < b
    ensures DaysBeforeYear(a) + YearLength(a) <= DaysBeforeYear(b)
    decreases b - a
  {
    DaysBeforeYearStep(b - 1);
    if a < b - 1 {
      DaysBeforeYearMonotone(a, b - 1);
    }
  }

  /**
   * The year and day of year of the day lying `d` days after the first of
   * January of `y` (`d` may be negative or exceed the year).
   */
  function YearAndDay(y: int, d: int): (r: (int, int))
    ensures 0 <= r.1 < YearLength(r.0)
    ensures DaysBeforeYear(r.0) + r.1 == DaysBeforeYear(y) + d
    decreases if d < 0 then 1 else 0, if d < 0 then -d else d
  {
    if d < 0 then
      DaysBeforeYearStep(y - 1);
      YearAndDay(y - 1, d + YearLength(y - 1))
    else if d < YearLength(y) then (y, d)
    else
      DaysBeforeYearStep(y);
      YearAndDay(y + 1, d - YearLength(y))
  }

  /** A day has exactly one year and day of year. */
  lemma YearAndDayUnique(y: int, d: int, year: int, doy: int)
    requires 0 <= doy < YearLength(year)
    requires DaysBeforeYear(year) + doy == DaysBeforeYear(y) + d
    ensures YearAndDay(y, d) == (year, doy)
  {
    var r := YearAndDay(y, d);
    if r.0 < year {
      DaysBeforeYearMonotone(r.0, year);
    } else if year < r.0 {
      DaysBeforeYearMonotone(year, r.0);
    }
  }

  /**
   * The month and day of month of day `doy` of year `y`, searching from
   * month `m` on.
   */
  function MonthAndDay(y: int, doy: int, m: int): (r: (int, int))
    requires 0 <= m < 12
    requires DaysBeforeMonth(y, m) <= doy < YearLength(y)
    ensures 0 <= r.0 < 12 && 1 <= r.1 <= MonthLength(y, r.0)
    ensures DaysBeforeMonth(y, r.0) + r.1 - 1 == doy
    decreases 12 - m
  {
    DaysBeforeMonthStep(y, m);
    if doy < DaysBeforeMonth(y, m + 1) then (m, doy - DaysBeforeMonth(y, m) + 1)
    else MonthAndDay(y, doy, m + 1)
  }

  /** Earlier months end no later than later months start. */
  lemma {:induction false} DaysBeforeMonthMonotone(y: int, a: int, b: int)
    requires 0 <= a < b <= 12
    ensures DaysBeforeMonth(y, a) + MonthLength(y, a) <= DaysBeforeMonth(y, b)
    decreases b - a
  {
    DaysBeforeMonthStep(y, b - 1);
    if a < b - 1 {
      DaysBeforeMonthStep(y, a);
      DaysBeforeMonthMonotone(y, a, b - 1);
    }
  }

  /** A day of the year has exactly one month and day of month. */
  lemma MonthAndDayUnique(y: int, doy: int, m: int, month: int, day: int)
    requires 0 <= m <= month < 12 && 1 <= day <= MonthLength(y, month)
    requires DaysBeforeMonth(y, month) + day - 1 == doy
    requires doy < YearLength(y)
    ensures MonthAndDay(y, doy, m) == (month, day)
    decreases 12 - m
  {
    if m < month {
      DaysBeforeMonthMonotone(y, m, month);
      MonthAndDayUnique(y, doy, m + 1, month, day);
    }
  }

  /** Day number (days since 1970-01-01) of day `d` of month `m` of year `y`. */
  function DayNumber(y: int, m: int, d: int): int
    requires 0 <= m < 12
  {
    DaysBeforeYear(y) + DaysBeforeMonth(y, m) + d - 1
  }

  /** An instant split into calendar fields, as the `getUTC…` accessors give them. */
  datatype CivilTime = CivilTime(year: int, month: int, day: int, msOfDay: int)

  predicate ValidCivil(c: CivilTime) {
    0 <= c.month < 12 && 1 <= c.day <= MonthLength(c.year, c.month)
    && 0 <= c.msOfDay < DayMs
  }

  /** The calendar fields of instant `t`; they name `t` back exactly. */
  function ToCivil(t: int): (c: CivilTime)
    ensures ValidCivil(c)
    ensures DayNumber(c.year, c.month, c.day) * DayMs + c.msOfDay == t
  {
    var days := t / DayMs;
    var yd := YearAndDay(1970, days);
    DaysBeforeMonthMonotone(yd.0, 0, 12);
    var md := MonthAndDay(yd.0, yd.1, 0);
    CivilTime(yd.0, md.0, md.1, t % DayMs)
  }

  /**
   * MakeDate(MakeDay(y, m, d), ms): the month is first brought into 0..11 by
   * carrying whole years, then the day counts on from the first of that month,
   * so an out-of-range day spills into neighbouring months.
   */
  function FromCivil(y: int, m: int, d: int, ms: int): (t: int)
    ensures 0 <= m < 12 ==> t == DayNumber(y, m, d) * DayMs + ms
    ensures 0 <= ms < DayMs ==> t % DayMs == ms
  {
    DayNumber(y + m / 12, m % 12, d) * DayMs + ms
  }

  /** Building an instant from valid fields and reading them back gives the same fields. */
  lemma CivilRoundTrip(c: CivilTime)
    requires ValidCivil(c)
    ensures ToCivil(FromCivil(c.year, c.month, c.day, c.msOfDay)) == c
  {
    var t := FromCivil(c.year, c.month, c.day, c.msOfDay);
    var n := DayNumber(c.year, c.month, c.day);
    assert t == n * DayMs + c.msOfDay;
    assert t / DayMs == n && t % DayMs == c.msOfDay;
    var doy := DaysBeforeMonth(c.year, c.month) + c.day - 1;
    DaysBeforeMonthMonotone(c.year, c.month, 12);
    YearAndDayUnique(1970, n, c.year, doy);
    MonthAndDayUnique(c.year, doy, 0, c.month, c.day);
  }

  /** Twelve months on is the same month of the next year. */
  lemma MonthCarry(y: int, m: int, d: int, ms: int)
    ensures FromCivil(y, m + 12, d, ms) == FromCivil(y + 1, m, d, ms)
  {
    assert (m + 12) / 12 == m / 12 + 1 && (m + 12) % 12 == m % 12;
  }

  /** `Date.prototype.getDate`: the day of the month, 1..31. */
  function DayOfMonth(t: int): (d: int)
    ensures 1 <= d <= 31
    ensures d <= MonthLength(ToCivil(t).year, ToCivil(t).month)
  {
    ToCivil(t).day
  }

  /** `Date.prototype.getMonth`: the month index, 0 = January .. 11 = December. */
  function MonthIndex(t: int): (m: int)
    ensures 0 <= m < 12
  {
    ToCivil(t).month
  }

  /**
   * `Date.prototype.setDate(d)`: same year, month and time of day, day `d`;
   * a day inside the month is read back unchanged.
   */
  function SetDate(t: int, d: int): (r: int)
    ensures var c := ToCivil(t);
            1 <= d <= MonthLength(c.year, c.month) ==> ToCivil(r) == CivilTime(c.year, c.month, d, c.msOfDay)
  {
    var c := ToCivil(t);
    assert 1 <= d <= MonthLength(c.year, c.month) ==>
             ToCivil(FromCivil(c.year, c.month, d, c.msOfDay)) == CivilTime(c.year, c.month, d, c.msOfDay) by {
      if 1 <= d <= MonthLength(c.year, c.month) {
        CivilRoundTrip(CivilTime(c.year, c.month, d, c.msOfDay));
      }
    }
    FromCivil(c.year, c.month, d, c.msOfDay)
  }

  /**
   * `Date.prototype.setMonth(m)`: same year, day and time of day, month `m`;
   * a month of this year that has the day is read back unchanged.
   */
  function SetMonth(t: int, m: int): (r: int)
    ensures var c := ToCivil(t);
            0 <= m < 12 && c.day <= MonthLength(c.year, m) ==> ToCivil(r) == CivilTime(c.year, m, c.day, c.msOfDay)
  {
    var c := ToCivil(t);
    assert 0 <= m < 12 && c.day <= MonthLength(c.year, m) ==>
             ToCivil(FromCivil(c.year, m, c.day, c.msOfDay)) == CivilTime(c.year, m, c.day, c.msOfDay) by {
      if 0 <= m < 12 && c.day <= MonthLength(c.year, m) {
        CivilRoundTrip(CivilTime(c.year, m, c.day, c.msOfDay));
      }
    }
    FromCivil(c.year, m, c.day, c.msOfDay)
  }

  /** The year and month that follow month `m` of year `y`. */
  function NextMonth(y: int, m: int): (r: (int, int))
    requires 0 <= m < 12
    ensures 0 <= r.1 < 12
  {
    if m == 11 then (y + 1, 0) else (y, m + 1)
  }

  lemma DayMsDistributes(k: int, n: int, ms: int)
    ensures k * DayMs + ms + n * DayMs == (k + n) * DayMs + ms
  {
  }

  /** Day `d` of a month is day `d - length` of the month after it. */
  lemma DayNumberCarry(y: int, m: int, d: int)
    requires 0 <= m < 12
    ensures DayNumber(y, m, d) == DayNumber(NextMonth(y, m).0, NextMonth(y, m).1, d - MonthLength(y, m))
  {
    DaysBeforeMonthStep(y, m);
    if m == 11 {
      DaysBeforeYearStep(y);
    }
  }

  /**
   * `d.setDate(d.getDate() + n)` moves the instant by exactly `n` days:
   * the time of day is kept and the day carries into other months.
   */
  lemma SetDateShift(t: int, n: int)
    ensures SetDate(t, DayOfMonth(t) + n) == t + n * DayMs
  {
  }

  /**
   * Moving an instant forward by `n <= 28` days lands either later in the
   * same month or early in the next one, at the same time of day.
   */
  lemma AddDaysCivil(t: int, n: int)
    requires 0 <= n <= 28
    ensures var c := ToCivil(t);
            var next := NextMonth(c.year, c.month);
            ToCivil(t + n * DayMs)
            == if c.day + n <= MonthLength(c.year, c.month)
               then CivilTime(c.year, c.month, c.day + n, c.msOfDay)
               else CivilTime(next.0, next.1, c.day + n - MonthLength(c.year, c.month), c.msOfDay)
  {
    var c := ToCivil(t);
    assert t + n * DayMs == FromCivil(c.year, c.month, c.day + n, c.msOfDay) by {
      assert c.month / 12 == 0 && c.month % 12 == c.month;
      DayMsDistributes(DayNumber(c.year, c.month, c.day), n, c.msOfDay);
    }
    LaterDayFields(c, n);
  }

  /** `AddDaysCivil` on calendar fields. */
  lemma LaterDayFields(c: CivilTime, n: int)
    requires ValidCivil(c) && 0 <= n <= 28
    ensures var next := NextMonth(c.year, c.month);
            ToCivil(FromCivil(c.year, c.month, c.day + n, c.msOfDay))
            == if c.day + n <= MonthLength(c.year, c.month)
               then CivilTime(c.year, c.month, c.day + n, c.msOfDay)
               else CivilTime(next.0, next.1, c.day + n - MonthLength(c.year, c.month), c.msOfDay)
  {
    if c.day + n <= MonthLength(c.year, c.month) {
      CivilRoundTrip(CivilTime(c.year, c.month, c.day + n, c.msOfDay));
    } else {
      OverflowIntoFollowingMonth(c.year, c.month, c.day + n, c.msOfDay);
    }
  }

  /** `d.setMonth(d.getMonth() + 1)` moves the instant forward by the length of its month. */
  lemma SetMonthNextShift(t: int)
    ensures var c := ToCivil(t);
            SetMonth(t, c.month + 1) == t + MonthLength(c.year, c.month) * DayMs
  {
    var c := ToCivil(t);
    var n := MonthLength(c.year, c.month);
    var next := NextMonth(c.year, c.month);
    var k := DayNumber(c.year, c.month, c.day);
    assert SetMonth(t, c.month + 1) == DayNumber(next.0, next.1, c.day) * DayMs + c.msOfDay by {
      NextMonthCarry(c.year, c.month);
    }
    assert DayNumber(next.0, next.1, c.day) == k + n by {
      DayNumberCarry(c.year, c.month, c.day + n);
    }
    DayMsDistributes(k, n, c.msOfDay);
  }

  /** `MakeDay`'s month carry for the month after `m`. */
  lemma NextMonthCarry(y: int, m: int)
    requires 0 <= m < 12
    ensures y + (m + 1) / 12 == NextMonth(y, m).0 && (m + 1) % 12 == NextMonth(y, m).1
  {
  }

  /**
   * `d.setMonth(d.getMonth() + 1)` keeps the day of the month and the time of
   * day in the next month when that month has the day; otherwise the surplus
   * days carry into the month after (31 January becomes 3 March, or 2 March
   * in a leap year).
   */
  lemma SetMonthNext(t: int)
    ensures var c := ToCivil(t);
            var next := NextMonth(c.year, c.month);
            var after := NextMonth(next.0, next.1);
            ToCivil(SetMonth(t, c.month + 1))
            == if c.day <= MonthLength(next.0, next.1)
               then CivilTime(next.0, next.1, c.day, c.msOfDay)
               else CivilTime(after.0, after.1, c.day - MonthLength(next.0, next.1), c.msOfDay)
  {
    NextMonthFields(ToCivil(t));
  }

  /** `SetMonthNext` on calendar fields: the fields of the same day one month on. */
  lemma NextMonthFields(c: CivilTime)
    requires ValidCivil(c)
    ensures var next := NextMonth(c.year, c.month);
            var after := NextMonth(next.0, next.1);
            ToCivil(FromCivil(c.year, c.month + 1, c.day, c.msOfDay))
            == if c.day <= MonthLength(next.0, next.1)
               then CivilTime(next.0, next.1, c.day, c.msOfDay)
               else CivilTime(after.0, after.1, c.day - MonthLength(next.0, next.1), c.msOfDay)
  {
    var next := NextMonth(c.year, c.month);
    var after := NextMonth(next.0, next.1);
    NextMonthCarry(c.year, c.month);
    assert FromCivil(c.year, c.month + 1, c.day, c.msOfDay) == FromCivil(next.0, next.1, c.day, c.msOfDay);
    if c.day <= MonthLength(next.0, next.1) {
      CivilRoundTrip(CivilTime(next.0, next.1, c.day, c.msOfDay));
    } else {
      OverflowIntoFollowingMonth(next.0, next.1, c.day, c.msOfDay);
    }
  }

  /** Day `d` past the end of month `m` is read back as a day of the month after. */
  lemma OverflowIntoFollowingMonth(y: int, m: int, d: int, ms: int)
    requires 0 <= m < 12 && MonthLength(y, m) < d <= MonthLength(y, m) + 28 && 0 <= ms < DayMs
    ensures var after := NextMonth(y, m);
            ToCivil(FromCivil(y, m, d, ms)) == CivilTime(after.0, after.1, d - MonthLength(y, m), ms)
  {
    var after := NextMonth(y, m);
    var e := d - MonthLength(y, m);
    assert FromCivil(y, m, d, ms) == DayNumber(y, m, d) * DayMs + ms by {
      assert m / 12 == 0 && m % 12 == m;
    }
    assert DayNumber(y, m, d) == DayNumber(after.0, after.1, e) by {
      DayNumberCarry(y, m, d);
    }
    assert FromCivil(after.0, after.1, e, ms) == DayNumber(after.0, after.1, e) * DayMs + ms by {
      assert after.1 / 12 == 0 && after.1 % 12 == after.1;
    }
    var c := CivilTime(after.0, after.1, e, ms);
    assert FromCivil(y, m, d, ms) == FromCivil(c.year, c.month, c.day, c.msOfDay);
    CivilRoundTrip(c);
  }


}
