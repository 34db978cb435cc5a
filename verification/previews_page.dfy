/**
 * The date window of the previews page: the next five business days from the
 * current instant, rendered as "yyyy-MM-dd" keys for the query and the view.
 */
module PreviewsPage {
  import opened Nullable
  import opened Seqs
  import opened Gregorian
  import opened DateKey
  import opened BusinessDays

  /** The number of business days the page covers. */
  const WindowLength := 5

  /** Every day lies in the years that "yyyy-MM-dd" writes with four digits. */
  predicate FourDigitYears(days: seq<Day>)
  {
    forall i :: 0 <= i < |days| ==> 1 <= CivilFromDays(days[i]).year <= 9999
  }

  /**
   * The keys of increasing days in four-digit years are distinct, read back as
   * those days, and so are in chronological order too.
   */
  lemma {:induction false} KeysOfIncreasingDays(days: seq<Day>, keys: seq<string>)
    requires FourDigitYears(days)
    requires forall i, j :: 0 <= i < j < |days| ==> days[i] < days[j]
    requires |keys| == |days| && forall i :: 0 <= i < |days| ==> keys[i] == FormatDay(days[i])
    ensures forall i :: 0 <= i < |keys| ==> ParseDateKey(keys[i]) == Some(days[i])
    ensures forall i, j :: 0 <= i < j < |keys| ==> ParseDateKey(keys[i]).value < ParseDateKey(keys[j]).value
    ensures Distinct(keys)
  {
    forall i | 0 <= i < |keys|
      ensures ParseDateKey(keys[i]) == Some(days[i])
    {
      KeyRoundTrip(days[i]);
    }
  }

  /**
   * The keys of the first n business days from a day, when those days lie in
   * four-digit years, are distinct, chronological and each names a weekday.
   */
  lemma BusinessDayKeys(start: Day, n: nat, keys: seq<string>)
    requires FourDigitYears(BusinessDaysFrom(start, n))
    requires |keys| == n && forall i :: 0 <= i < n ==> keys[i] == FormatDay(BusinessDaysFrom(start, n)[i])
    ensures Distinct(keys)
    ensures forall i :: 0 <= i < n ==> ParseDateKey(keys[i]).Some? && IsBusinessDay(ParseDateKey(keys[i]).value)
    ensures forall i, j :: 0 <= i < j < n ==> ParseDateKey(keys[i]).value < ParseDateKey(keys[j]).value
  {
    var days := BusinessDaysFrom(start, n);
    if n > 0 {
      BusinessDaysFromWindow(start, n);
    }
    KeysOfIncreasingDays(days, keys);
  }

  /**
   * `getNextBusinessDays(5).map(toISODate)`, with the clock reading passed in:
   * five keys, the i-th naming the i-th business day on or after today
   * (BusinessDayKeys says what the keys are then worth to the view).
   */
  method PreviewWindow(now: Instant) returns (isoDates: seq<string>)
    ensures |isoDates| == WindowLength
    ensures forall i :: 0 <= i < WindowLength ==>
      isoDates[i] == FormatDay(BusinessDaysFrom(StartOfDay(now), WindowLength)[i])
  {
    var days := GetNextBusinessDays(WindowLength, now);
    isoDates := seq(|days|, i requires 0 <= i < |days| => ToISODate(days[i] * MsPerDay));
    forall i | 0 <= i < |days|
      ensures isoDates[i] == FormatDay(days[i])
    {
      ToISODateOfMidnight(days[i]);
    }
  }
}
