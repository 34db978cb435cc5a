/**
 * Calendar arithmetic of the proleptic Gregorian calendar, the calendar that
 * JavaScript's Date and the date-fns library compute in. A calendar day is an
 * integer day number counted from 1970-01-01; the conversion to and from a
 * (year, month, day) triple is proved to be a bijection onto the valid triples.
 */
module Gregorian {

  /** A calendar day: the number of days since 1970-01-01 (negative before it). */
  type Day = int

  /** A (year, month, day) triple; year 0 is 1 BC, as in JavaScript. */
  datatype Civil = Civil(year: int, month: int, day: int)

  predicate IsLeapYear(y: int)
  {
    y % 4 == 0 && (y % 100 != 0 || y % 400 == 0)
  }

  function YearLength(y: int): int
  {
    if IsLeapYear(y) then 366 else 365
  }

  function DaysInMonth(y: int, m: int): int
    requires 1 <= m <= 12
  {
    if m == 2 then (if IsLeapYear(y) then 29 else 28)
    else if m == 4 || m == 6 || m == 9 || m == 11 then 30
    else 31
  }

  predicate ValidCivil(c: Civil)
  {
    1 <= c.month <= 12 && 1 <= c.day <= DaysInMonth(c.year, c.month)
  }

  /** Days from 0000-01-01 to January 1 of year y: 365 per year plus one per leap year. */
  function DaysBeforeYear(y: int): int
  {
    365 * y + (y + 3) / 4 - (y + 99) / 100 + (y + 399) / 400
  }

  /** Days from January 1 to the first day of month m of year y. */
  function DaysBeforeMonth(y: int, m: int): (n: int)
    requires 1 <= m <= 12
    ensures 0 <= n && n + DaysInMonth(y, m) <= YearLength(y)
    ensures m == 12 ==> n + DaysInMonth(y, m) == YearLength(y)
  {
    var common :=
      if m == 1 then 0 else if m == 2 then 31 else if m == 3 then 59
      else if m == 4 then 90 else if m == 5 then 120 else if m == 6 then 151
      else if m == 7 then 181 else if m == 8 then 212 else if m == 9 then 243
      else if m == 10 then 273 else if m == 11 then 304 else 334;
    common + (if m > 2 && IsLeapYear(y) then 1 else 0)
  }

  /** Consecutive months are one month length apart. */
  lemma MonthStep(y: int, m: int)
    requires 1 <= m < 12
    ensures DaysBeforeMonth(y, m + 1) == DaysBeforeMonth(y, m) + DaysInMonth(y, m)
  {
  }

  /** Day number of 0000-01-01 counted back from 1970-01-01. */
  const EpochOffset: int := 719528

  /** Days in one 400-year cycle, after which the Gregorian calendar repeats. */
  const EraDays: int := 146097

  /** The count of multiples of 4 grows by one exactly at a multiple of 4. */
  lemma QuadStep(y: int)
    ensures (y + 4) / 4 == (y + 3) / 4 + (if y % 4 == 0 then 1 else 0)
  {
  }

  /** The count of multiples of 100 grows by one exactly at a multiple of 100. */
  lemma CenturyStep(y: int)
    ensures (y + 100) / 100 == (y + 99) / 100 + (if y % 100 == 0 then 1 else 0)
  {
  }

  /** The count of multiples of 400 grows by one exactly at a multiple of 400. */
  lemma QuadCenturyStep(y: int)
    ensures (y + 400) / 400 == (y + 399) / 400 + (if y % 400 == 0 then 1 else 0)
  {
  }

  /** Consecutive January firsts are one year length apart. */
  lemma YearStep(y: int)
    ensures DaysBeforeYear(y + 1) == DaysBeforeYear(y) + YearLength(y)
  {
    QuadStep(y);
    CenturyStep(y);
    QuadCenturyStep(y);
  }

  /** Later years start later, by at least 365 days per year. */
  lemma {:induction false} YearsMonotone(a: int, b: int)
    requires a <= b
    ensures DaysBeforeYear(a) + 365 * (b - a) <= DaysBeforeYear(b)
    decreases b - a
  {
    if a < b {
      YearsMonotone(a, b - 1);
      YearStep(b - 1);
    }
  }

  /** Shifting a year by whole 400-year cycles shifts its first day by whole eras. */
  lemma EraShift(e: int, k: int)
    ensures DaysBeforeYear(400 * e + k) == EraDays * e + DaysBeforeYear(k)
  {
    assert (400 * e + k + 3) / 4 == 100 * e + (k + 3) / 4;
    assert (400 * e + k + 99) / 100 == 4 * e + (k + 99) / 100;
    assert (400 * e + k + 399) / 400 == e + (k + 399) / 400;
  }

  /** The offset within its era of the year that contains day r of that era. */
  function YearInEra(r: int, k: int): (y: int)
    requires 0 <= k < 400 && DaysBeforeYear(k) <= r < EraDays
    ensures k <= y < 400 && DaysBeforeYear(y) <= r < DaysBeforeYear(y + 1)
    decreases 400 - k
  {
    if r < DaysBeforeYear(k + 1) then k
    else
      assert DaysBeforeYear(400) == EraDays;
      YearInEra(r, k + 1)
  }

  /** The month of year y that contains day doy (0-based) of that year. */
  function MonthOf(y: int, doy: int, m: int): (r: int)
    requires 1 <= m <= 12 && DaysBeforeMonth(y, m) <= doy < YearLength(y)
    ensures m <= r <= 12
    ensures DaysBeforeMonth(y, r) <= doy < DaysBeforeMonth(y, r) + DaysInMonth(y, r)
    decreases 12 - m
  {
    if m == 12 then m
    else
      MonthStep(y, m);
      if doy < DaysBeforeMonth(y, m + 1) then m else MonthOf(y, doy, m + 1)
  }

  /** The day number of a valid calendar date. */
  function DaysFromCivil(c: Civil): Day
    requires ValidCivil(c)
  {
    DaysBeforeYear(c.year) + DaysBeforeMonth(c.year, c.month) + c.day - 1 - EpochOffset
  }

  /** The year containing day z counted from 0000-01-01: whole eras, then a year within the era. */
  function YearContaining(z: int): (year: int)
    ensures DaysBeforeYear(year) <= z < DaysBeforeYear(year + 1)
  {
    var e := z / EraDays;
    var y := YearInEra(z % EraDays, 0);
    EraShift(e, y);
    EraShift(e, y + 1);
    400 * e + y
  }

  /** The calendar date of a day number: always valid, and DaysFromCivil undoes it. */
  function CivilFromDays(d: Day): (c: Civil)
    ensures ValidCivil(c) && DaysFromCivil(c) == d
  {
    var z := d + EpochOffset;
    var year := YearContaining(z);
    YearStep(year);
    var doy := z - DaysBeforeYear(year);
    var m := MonthOf(year, doy, 1);
    Civil(year, m, doy - DaysBeforeMonth(year, m) + 1)
  }

  /** A valid date lies inside its own year. */
  lemma InsideYear(c: Civil)
    requires ValidCivil(c)
    ensures DaysBeforeYear(c.year) <= DaysFromCivil(c) + EpochOffset < DaysBeforeYear(c.year + 1)
  {
    YearStep(c.year);
  }

  /** Distinct valid dates have distinct day numbers. */
  lemma DaysFromCivilInjective(c1: Civil, c2: Civil)
    requires ValidCivil(c1) && ValidCivil(c2)
    requires DaysFromCivil(c1) == DaysFromCivil(c2)
    ensures c1 == c2
  {
    InsideYear(c1);
    InsideYear(c2);
    if c1.year < c2.year {
      YearsMonotone(c1.year + 1, c2.year);
    } else if c2.year < c1.year {
      YearsMonotone(c2.year + 1, c1.year);
    }
    assert c1.year == c2.year;
    var y := c1.year;
    if c1.month < c2.month {
      MonthsMonotone(y, c1.month + 1, c2.month);
    } else if c2.month < c1.month {
      MonthsMonotone(y, c2.month + 1, c1.month);
    }
  }

  lemma {:induction false} MonthsMonotone(y: int, a: int, b: int)
    requires 1 <= a <= b <= 12
    ensures DaysBeforeMonth(y, a) <= DaysBeforeMonth(y, b)
    decreases b - a
  {
    if a < b {
      MonthsMonotone(y, a, b - 1);
      MonthStep(y, b - 1);
    }
  }

  /** CivilFromDays undoes DaysFromCivil on every valid date. */
  lemma CivilRoundTrip(c: Civil)
    requires ValidCivil(c)
    ensures CivilFromDays(DaysFromCivil(c)) == c
  {
    DaysFromCivilInjective(CivilFromDays(DaysFromCivil(c)), c);
  }

  /** The weekday of a day, 0 for Sunday through 6 for Saturday; 1970-01-01 was a Thursday. */
  function Weekday(d: Day): (w: int)
    ensures 0 <= w < 7
  {
    (d + 4) % 7
  }

  /** The weekday advances by one, modulo seven, from one day to the next. */
  lemma WeekdayStep(d: Day)
    ensures Weekday(d + 1) == (Weekday(d) + 1) % 7
  {
  }
}
