/**
 * The business-day generator: which days are business days, the list of the
 * next `count` business days from a starting instant, and the date key of an
 * instant.
 */
module BusinessDays {
  import opened Gregorian
  import opened DateKey
  import opened Nullable

  /** An instant: milliseconds since 1970-01-01T00:00 in the one reference time zone. */
  type Instant = int

  const MsPerDay: int := 86_400_000

  /** date-fns `startOfDay`: the calendar day whose midnight starts the instant's day. */
  function StartOfDay(t: Instant): (d: Day)
    ensures d * 86_400_000 <= t < d * 86_400_000 + 86_400_000
  {
    t / MsPerDay
  }

  /** Monday to Friday; the weekday is `getDay`, 0 for Sunday and 6 for Saturday. */
  predicate IsBusinessDay(d: Day)
  {
    Weekday(d) != 0 && Weekday(d) != 6
  }

  /** A business day is exactly a day whose weekday is neither Sunday nor Saturday. */
  lemma BusinessDayWeekdays(d: Day)
    ensures IsBusinessDay(d) <==> 1 <= Weekday(d) <= 5
  {
  }

  /**
   * The first business day on or after d. It is at most two days away, since
   * every three consecutive days contain a business day.
   */
  function FirstBusinessDayFrom(d: Day): (f: Day)
    ensures d <= f <= d + 2 && IsBusinessDay(f)
    ensures f <= d + (if Weekday(d) == 6 then 2 else if Weekday(d) == 0 then 1 else 0)
    ensures forall x :: d <= x < f ==> !IsBusinessDay(x)
    decreases if Weekday(d) == 6 then 2 else if Weekday(d) == 0 then 1 else 0
  {
    WeekdayStep(d);
    if IsBusinessDay(d) then d else FirstBusinessDayFrom(d + 1)
  }

  /**
   * Reference definition of the generator's output: the first n business days
   * on or after start, each one found from the day after the previous one.
   */
  function BusinessDaysFrom(start: Day, n: nat): (r: seq<Day>)
    ensures |r| == n
    ensures forall i :: 0 <= i < n ==> IsBusinessDay(r[i])
    decreases n
  {
    if n == 0 then []
    else
      var f := FirstBusinessDayFrom(start);
      [f] + BusinessDaysFrom(f + 1, n - 1)
  }

  /**
   * The first n business days from start are strictly increasing, begin with
   * the first business day on or after start, and are exactly the business days
   * between start and the last of them: no gap and no duplicate.
   */
  lemma {:induction false} BusinessDaysFromWindow(start: Day, n: nat)
    requires n > 0
    ensures var r := BusinessDaysFrom(start, n);
      && r[0] == FirstBusinessDayFrom(start)
      && (forall i, j :: 0 <= i < j < n ==> r[i] < r[j])
      && (forall x :: x in r <==> start <= x <= r[n - 1] && IsBusinessDay(x))
    decreases n
  {
    var f := FirstBusinessDayFrom(start);
    var r := BusinessDaysFrom(start, n);
    if n > 1 {
      var r' := BusinessDaysFrom(f + 1, n - 1);
      BusinessDaysFromWindow(f + 1, n - 1);
      assert r == [f] + r';
      forall x
        ensures x in r <==> start <= x <= r[n - 1] && IsBusinessDay(x)
      {
        assert x in r <==> x == f || x in r';
      }
    }
  }

  /** The generator starts on the start day itself exactly when that day is a business day. */
  lemma InclusiveStart(start: Day, n: nat)
    requires n > 0
    ensures BusinessDaysFrom(start, n)[0] == start <==> IsBusinessDay(start)
    ensures !IsBusinessDay(start) ==> start < BusinessDaysFrom(start, n)[0] <= start + 2
  {
  }

  /** One more business day is the first business day after the last one so far. */
  lemma {:induction false} BusinessDaysFromSnoc(start: Day, n: nat)
    requires n > 0
    ensures BusinessDaysFrom(start, n + 1)
         == BusinessDaysFrom(start, n) + [FirstBusinessDayFrom(BusinessDaysFrom(start, n)[n - 1] + 1)]
    decreases n
  {
    if n > 1 {
      BusinessDaysFromSnoc(FirstBusinessDayFrom(start) + 1, n - 1);
    }
  }

  /** The day the generator pushes next, after having collected result from start. */
  ghost function NextToPush(start: Day, result: seq<Day>): Day
  {
    if result == [] then FirstBusinessDayFrom(start)
    else FirstBusinessDayFrom(result[|result| - 1] + 1)
  }

  /**
   * `getNextBusinessDays(count, from)`: walks a cursor day by day from the
   * start of from's day and collects count business days; the start day is
   * taken when it is itself a business day. A count of zero or less gives [].
   */
  method GetNextBusinessDays(count: int, from: Instant) returns (result: seq<Day>)
    ensures |result| == if count > 0 then count else 0
    ensures forall i :: 0 <= i < |result| ==> IsBusinessDay(result[i])
    ensures result == BusinessDaysFrom(StartOfDay(from), |result|)
  {
    result := [];
    var cursor := StartOfDay(from);
    ghost var start := cursor;
    while |result| < count
      invariant |result| <= (if count > 0 then count else 0)
      invariant result == BusinessDaysFrom(start, |result|)
      invariant |result| == 0 ==> cursor == start || !IsBusinessDay(cursor)
      invariant (|result| == 0 && cursor == start)
             || FirstBusinessDayFrom(cursor + 1) == NextToPush(start, result)
      decreases count - |result|, NextToPush(start, result) - cursor
    {
      if |result| == 0 && IsBusinessDay(cursor) {
        result := result + [cursor];
        continue;
      }
      assert FirstBusinessDayFrom(cursor + 1) == NextToPush(start, result);
      cursor := cursor + 1;
      if IsBusinessDay(cursor) {
        if |result| > 0 {
          BusinessDaysFromSnoc(start, |result|);
        }
        result := result + [cursor];
      }
    }
  }

  /** `toISODate`: the "yyyy-MM-dd" key of the day that contains the instant. */
  function ToISODate(t: Instant): string
  {
    FormatDay(StartOfDay(t))
  }

  /** In four-digit years the key has ten characters and reads back as the day of the instant. */
  lemma ToISODateRoundTrip(t: Instant)
    requires 1 <= CivilFromDays(StartOfDay(t)).year <= 9999
    ensures |ToISODate(t)| == 10 && ParseDateKey(ToISODate(t)) == Some(StartOfDay(t))
  {
    KeyRoundTrip(StartOfDay(t));
  }

  /** Every instant of day d, midnight included, starts day d. */
  lemma StartOfDayOf(d: Day, ms: int)
    requires 0 <= ms < MsPerDay
    ensures StartOfDay(d * MsPerDay + ms) == d
  {
  }

  /** The key ignores the time of day: every instant of a day has the key of that day. */
  lemma ToISODateIgnoresTime(d: Day, ms: int)
    requires 0 <= ms < MsPerDay
    ensures ToISODate(d * MsPerDay + ms) == FormatDay(d)
  {
    StartOfDayOf(d, ms);
  }

  /** Midnight starts its own day, so the key of a day's first instant is that day's key. */
  lemma ToISODateOfMidnight(d: Day)
    ensures ToISODate(d * MsPerDay) == FormatDay(d)
  {
    assert StartOfDay(d * MsPerDay) == d;
  }

  /** The key of the day numbered by a valid date is that date's rendering. */
  lemma FormatDayOfCivil(c: Civil, d: Day)
    requires ValidCivil(c) && d == DaysFromCivil(c)
    ensures FormatDay(d) == FormatCivil(c)
  {
    CivilRoundTrip(c);
  }

  /** The padded fields of the key of 20 October 2025. */
  lemma October2025Fields()
    ensures Pad(2025, 4) == "2025" && Pad(10, 2) == "10" && Pad(20, 2) == "20"
  {
  }

  /** A date of October 2025 renders as "2025-10-" and the zero-padded day of the month. */
  lemma October2025Text(dd: int)
    requires 1 <= dd <= 31
    ensures FormatCivil(Civil(2025, 10, dd)) == "2025-10-" + Pad(dd, 2)
  {
    October2025Fields();
    assert FormatCivil(Civil(2025, 10, dd)) == Pad(2025, 4) + "-" + Pad(10, 2) + "-" + Pad(dd, 2);
  }

  /** The key of a day of October 2025. */
  lemma October2025Key(dd: int, d: Day)
    requires 1 <= dd <= 31 && d == DaysFromCivil(Civil(2025, 10, dd))
    ensures FormatDay(d) == "2025-10-" + Pad(dd, 2)
  {
    FormatDayOfCivil(Civil(2025, 10, dd), d);
    October2025Text(dd);
  }

  /** Monday 2025-10-20 at noon: the list starts on that Monday. */
  lemma MondayStartIsIncluded(noon: Instant)
    requires noon == 20381 * MsPerDay + 43_200_000
    ensures BusinessDaysFrom(StartOfDay(noon), 3) == [20381, 20382, 20383]
    ensures ToISODate(noon) == "2025-10-20"
  {
    StartOfDayOf(20381, 43_200_000);
    assert BusinessDaysFrom(20381, 3) == [20381, 20382, 20383];
    October2025Key(20, StartOfDay(noon));
    October2025Fields();
  }

  /** Saturday 2025-10-18 at noon: the list is Monday 20 to Wednesday 22 October 2025. */
  lemma SaturdayStartSkipsWeekend(noon: Instant)
    requires noon == 20379 * MsPerDay + 43_200_000
    ensures StartOfDay(noon) == DaysFromCivil(Civil(2025, 10, 18))
    ensures BusinessDaysFrom(StartOfDay(noon), 3) == [
      DaysFromCivil(Civil(2025, 10, 20)),
      DaysFromCivil(Civil(2025, 10, 21)),
      DaysFromCivil(Civil(2025, 10, 22))]
  {
    StartOfDayOf(20379, 43_200_000);
    assert BusinessDaysFrom(20379, 3) == [20381, 20382, 20383];
  }
}
