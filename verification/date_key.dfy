/**
 * Date keys: the "yyyy-MM-dd" text that date-fns `format` produces for a
 * calendar day, and the reading of such a key back into a day, as date-fns
 * `parseISO` does for a plain calendar date.
 */
module DateKey {
  import opened Gregorian
  import opened Nullable

  predicate IsDigit(c: char)
  {
    '0' <= c <= '9'
  }

  predicate AllDigits(s: string)
  {
    forall i :: 0 <= i < |s| ==> IsDigit(s[i])
  }

  function DigitChar(n: int): (c: char)
    requires 0 <= n < 10
    ensures IsDigit(c)
  {
    ('0' as int + n) as char
  }

  function DigitValue(c: char): int
    requires IsDigit(c)
  {
    c as int - '0' as int
  }

  function Pow10(w: nat): (p: nat)
    ensures p >= 1
  {
    if w == 0 then 1 else 10 * Pow10(w - 1)
  }

  /** The value of a string of decimal digits, most significant first. */
  function DigitsValue(s: string): (v: nat)
    requires AllDigits(s)
    ensures v < Pow10(|s|)
  {
    if s == [] then 0 else 10 * DigitsValue(s[..|s| - 1]) + DigitValue(s[|s| - 1])
  }

  /** `toString` of a non-negative integer: its decimal digits without leading zeros. */
  function NatToString(n: nat): (s: string)
    ensures 1 <= |s| && AllDigits(s)
    ensures DigitsValue(s) == n
  {
    if n < 10 then [DigitChar(n)]
    else
      var s := NatToString(n / 10) + [DigitChar(n % 10)];
      assert s[..|s| - 1] == NatToString(n / 10);
      s
  }

  function Zeros(k: nat): (s: string)
    ensures |s| == k && AllDigits(s)
  {
    if k == 0 then [] else Zeros(k - 1) + ['0']
  }

  /** `padStart(w, "0")`: s with zeros prepended up to length w. */
  function PadStart(s: string, w: nat): (r: string)
    ensures |r| == if |s| >= w then |s| else w
  {
    if |s| >= w then s else Zeros(w - |s|) + s
  }

  /** date-fns `addLeadingZeros` for a non-negative number: at least w digits. */
  function Pad(n: nat, w: nat): (s: string)
    ensures AllDigits(s) && DigitsValue(s) == n
    ensures 1 <= w && n < Pow10(w) ==> |s| == w
  {
    NatToStringLength(n, w);
    ZerosValue(if |NatToString(n)| >= w then 0 else w - |NatToString(n)|, NatToString(n));
    PadStart(NatToString(n), w)
  }

  /** A number below 10^w has at most w digits. */
  lemma {:induction false} NatToStringLength(n: nat, w: nat)
    ensures n < Pow10(w) && w >= 1 ==> |NatToString(n)| <= w
  {
    if n >= 10 && n < Pow10(w) && w >= 1 {
      NatToStringLength(n / 10, w - 1);
    }
  }

  /** Leading zeros do not change the value of a digit string. */
  lemma {:induction false} ZerosValue(k: nat, s: string)
    requires AllDigits(s)
    ensures AllDigits(Zeros(k) + s) && DigitsValue(Zeros(k) + s) == DigitsValue(s)
    decreases |s|, k
  {
    var z := Zeros(k) + s;
    if s == [] {
      assert z == Zeros(k);
      if k > 0 {
        assert z[..|z| - 1] == Zeros(k - 1) + [];
        ZerosValue(k - 1, []);
      }
    } else {
      assert z[..|z| - 1] == Zeros(k) + s[..|s| - 1];
      ZerosValue(k, s[..|s| - 1]);
    }
  }

  /** Two digit strings of the same length with the same value are the same string. */
  lemma {:induction false} DigitsValueInjective(a: string, b: string)
    requires AllDigits(a) && AllDigits(b) && |a| == |b|
    requires DigitsValue(a) == DigitsValue(b)
    ensures a == b
  {
    if a != [] {
      var n := |a| - 1;
      assert DigitValue(a[n]) == DigitsValue(a) % 10;
      assert DigitValue(b[n]) == DigitsValue(b) % 10;
      DigitsValueInjective(a[..n], b[..n]);
      assert a == a[..n] + [a[n]];
      assert b == b[..n] + [b[n]];
    }
  }

  /** The year as date-fns prints it for "yyyy": years up to 0 count as years before Christ. */
  function EraYear(y: int): (r: nat)
    ensures r >= 1
    ensures y >= 1 ==> r == y
  {
    if y > 0 then y else 1 - y
  }

  /** The "yyyy-MM-dd" rendering of a valid calendar date. */
  function FormatCivil(c: Civil): string
    requires ValidCivil(c)
  {
    Pad(EraYear(c.year), 4) + "-" + Pad(c.month, 2) + "-" + Pad(c.day, 2)
  }

  /** The date key of a calendar day. */
  function FormatDay(d: Day): string
  {
    FormatCivil(CivilFromDays(d))
  }

  /**
   * date-fns `parseISO` on a "yyyy-MM-dd" key: the day it denotes, or None
   * when the text is not of that shape or names a day that does not exist.
   */
  function ParseDateKey(s: string): (r: Option<Day>)
  {
    if |s| == 10 && s[4] == '-' && s[7] == '-'
       && AllDigits(s[..4]) && AllDigits(s[5..7]) && AllDigits(s[8..])
    then
      var c := Civil(DigitsValue(s[..4]), DigitsValue(s[5..7]), DigitsValue(s[8..]));
      if ValidCivil(c) then Some(DaysFromCivil(c)) else None
    else None
  }

  /** Splitting a rendered key at its dashes gives back the three padded fields. */
  lemma FormatFields(c: Civil)
    requires ValidCivil(c) && 1 <= c.year <= 9999
    ensures var s := FormatCivil(c);
      |s| == 10 && s[4] == '-' && s[7] == '-'
      && s[..4] == Pad(c.year, 4) && s[5..7] == Pad(c.month, 2) && s[8..] == Pad(c.day, 2)
  {
    assert Pow10(4) == 10000;
    assert Pow10(2) == 100;
  }

  /** Parsing a rendered key gives back the day, for every year from 1 to 9999. */
  lemma KeyRoundTrip(d: Day)
    requires 1 <= CivilFromDays(d).year <= 9999
    ensures |FormatDay(d)| == 10
    ensures ParseDateKey(FormatDay(d)) == Some(d)
  {
    FormatFields(CivilFromDays(d));
  }

  /** A digit string is the zero-padded rendering of its own value. */
  lemma PadOfDigits(x: string)
    requires AllDigits(x) && |x| >= 1
    ensures Pad(DigitsValue(x), |x|) == x
  {
    DigitsValueInjective(Pad(DigitsValue(x), |x|), x);
  }

  /** A key of the right shape is its three fields joined by dashes. */
  lemma KeyShape(s: string)
    requires |s| == 10 && s[4] == '-' && s[7] == '-'
    ensures s == s[..4] + "-" + s[5..7] + "-" + s[8..]
  {
  }

  /** A key that parses is the rendering of the day it denotes, when that day is in year 1 or later. */
  lemma ParsedKeyIsCanonical(s: string)
    requires ParseDateKey(s).Some?
    requires CivilFromDays(ParseDateKey(s).value).year >= 1
    ensures FormatDay(ParseDateKey(s).value) == s
  {
    var c := Civil(DigitsValue(s[..4]), DigitsValue(s[5..7]), DigitsValue(s[8..]));
    CivilRoundTrip(c);
    PadOfDigits(s[..4]);
    PadOfDigits(s[5..7]);
    PadOfDigits(s[8..]);
    KeyShape(s);
  }

  /** Two keys that parse to the same day are the same key. */
  lemma ParseInjective(s1: string, s2: string)
    requires ParseDateKey(s1).Some? && ParseDateKey(s1) == ParseDateKey(s2)
    ensures s1 == s2
  {
    var c1 := Civil(DigitsValue(s1[..4]), DigitsValue(s1[5..7]), DigitsValue(s1[8..]));
    var c2 := Civil(DigitsValue(s2[..4]), DigitsValue(s2[5..7]), DigitsValue(s2[8..]));
    DaysFromCivilInjective(c1, c2);
    DigitsValueInjective(s1[..4], s2[..4]);
    DigitsValueInjective(s1[5..7], s2[5..7]);
    DigitsValueInjective(s1[8..], s2[8..]);
    KeyShape(s1);
    KeyShape(s2);
  }
}
