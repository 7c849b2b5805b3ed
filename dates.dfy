/**
 * Calendar dates as Python's `datetime.date` has them: the proleptic Gregorian calendar
 * for years 1 to 9999 (`MINYEAR`, `MAXYEAR`), `calendar.isleap` and
 * `calendar.monthrange`, the ordinal day number of `date.toordinal()`, subtraction of a
 * `timedelta` of whole days, and the text form `YYYY-MM-DD` written by `str(date)`
 * (and by `strftime('%Y-%m-%d')`) and read back by `date.fromisoformat`.
 */
module Dates {
  import opened Wrappers
  import opened Text

  datatype Date = Date(year: int, month: int, day: int)

  const MinYear := 1
  const MaxYear := 9999

  /** `calendar.isleap`. */
  predicate IsLeapYear(y: int) {
    y % 4 == 0 && (y % 100 != 0 || y % 400 == 0)
  }

  /** `calendar.monthrange(y, m)[1]`: the number of days of month `m` of year `y`. */
  function DaysInMonth(y: int, m: int): (n: int)
    requires 1 <= m <= 12
    ensures 28 <= n <= 31
    ensures m == 2 ==> (n == 29 <==> IsLeapYear(y))
  {
    if m == 2 then (if IsLeapYear(y) then 29 else 28)
    else if m == 4 || m == 6 || m == 9 || m == 11 then 30
    else 31
  }

  /** The dates `datetime.date(year, month, day)` accepts. */
  predicate ValidDate(d: Date) {
    && MinYear <= d.year <= MaxYear
    && 1 <= d.month <= 12
    && 1 <= d.day <= DaysInMonth(d.year, d.month)
  }

  /** Calendar order: `a < b` on dates. */
  predicate Before(a: Date, b: Date) {
    || a.year < b.year
    || (a.year == b.year && a.month < b.month)
    || (a.year == b.year && a.month == b.month && a.day < b.day)
  }

  /** `a <= b` on dates. */
  predicate NotAfter(a: Date, b: Date) {
    !Before(b, a)
  }

  function Min(a: int, b: int): int {
    if a <= b then a else b
  }

  /** The number of the month of `d` counted from January of year 0. */
  function MonthIndex(d: Date): int {
    d.year * 12 + d.month - 1
  }

  // ---------------------------------------------------------------------------
  // Day numbers

  /** Days before January 1 of year `y`, counted from 0001-01-01. */
  function DaysBeforeYear(y: int): nat
    requires y >= 1
  {
    if y == 1 then 0 else DaysBeforeYear(y - 1) + DaysInYear(y - 1)
  }

  lemma LeapCounts(p: int)
    requires p >= 1
    ensures p / 4 == (p - 1) / 4 + (if p % 4 == 0 then 1 else 0)
    ensures p / 100 == (p - 1) / 100 + (if p % 100 == 0 then 1 else 0)
    ensures p / 400 == (p - 1) / 400 + (if p % 400 == 0 then 1 else 0)
  {
  }

  /** The same count in the closed form Python's `_days_before_year` computes. */
  lemma {:induction false} DaysBeforeYearClosedForm(y: int)
    requires y >= 1
    ensures var p := y - 1; DaysBeforeYear(y) == p * 365 + p / 4 - p / 100 + p / 400
  {
    if y > 1 {
      var p := y - 1;
      DaysBeforeYearClosedForm(p);
      LeapCounts(p);
      LeapIndicator(p);
      assert DaysBeforeYear(y) == DaysBeforeYear(p) + DaysInYear(p);
      assert p * 365 == (p - 1) * 365 + 365;
    }
  }

  /** The Gregorian rule as the sum of the three divisibility tests. */
  lemma LeapIndicator(p: int)
    ensures DaysInYear(p) - 365
      == (if p % 4 == 0 then 1 else 0) - (if p % 100 == 0 then 1 else 0) + (if p % 400 == 0 then 1 else 0)
  {
    if p % 400 == 0 {
      CenturyOfFour(p);
    }
    if p % 100 == 0 {
      FourOfCentury(p);
    }
  }

  lemma CenturyOfFour(p: int)
    requires p % 400 == 0
    ensures p % 100 == 0
  {
    var k := p / 400;
    assert p == 100 * (4 * k);
  }

  lemma FourOfCentury(p: int)
    requires p % 100 == 0
    ensures p % 4 == 0
  {
    var k := p / 100;
    assert p == 4 * (25 * k);
  }

  function DaysInYear(y: int): int {
    if IsLeapYear(y) then 366 else 365
  }

  /** Days of year `y` before the first of month `m`; month 13 stands for the next year. */
  function DaysBeforeMonth(y: int, m: int): int
    requires 1 <= m <= 13
  {
    var table := [0, 31, 59, 90, 120, 151, 181, 212, 243, 273, 304, 334, 365];
    table[m - 1] + (if m > 2 && IsLeapYear(y) then 1 else 0)
  }

  /** `date.toordinal()`: 0001-01-01 is day 1. */
  function Ordinal(d: Date): int
    requires ValidDate(d)
  {
    DaysBeforeYear(d.year) + DaysBeforeMonth(d.year, d.month) + d.day
  }

  lemma YearStep(y: int)
    requires y >= 1
    ensures DaysBeforeYear(y + 1) == DaysBeforeYear(y) + DaysInYear(y)
  {
  }

  lemma MonthStep(y: int, m: int)
    requires 1 <= m <= 12
    ensures DaysBeforeMonth(y, m + 1) == DaysBeforeMonth(y, m) + DaysInMonth(y, m)
  {
  }

  lemma {:induction false} YearsMonotone(y1: int, y2: int)
    requires 1 <= y1 < y2
    ensures DaysBeforeYear(y1) + DaysInYear(y1) <= DaysBeforeYear(y2)
    decreases y2 - y1
  {
    YearStep(y1);
    if y1 + 1 < y2 {
      YearsMonotone(y1 + 1, y2);
    }
  }

  lemma {:induction false} MonthsMonotone(y: int, m1: int, m2: int)
    requires 1 <= m1 < m2 <= 13
    ensures DaysBeforeMonth(y, m1) + DaysInMonth(y, m1) <= DaysBeforeMonth(y, m2)
    decreases m2 - m1
  {
    MonthStep(y, m1);
    if m1 + 1 < m2 {
      MonthsMonotone(y, m1 + 1, m2);
    }
  }

  /** A date's day number lies within its year's span of day numbers. */
  lemma OrdinalWithinYear(d: Date)
    requires ValidDate(d)
    ensures DaysBeforeYear(d.year) < Ordinal(d) <= DaysBeforeYear(d.year) + DaysInYear(d.year)
  {
    if d.month < 12 {
      MonthsMonotone(d.year, d.month, 13);
    } else {
      MonthStep(d.year, 12);
    }
  }

  /** Day numbers follow calendar order, so they identify dates. */
  lemma OrdinalOrder(a: Date, b: Date)
    requires ValidDate(a) && ValidDate(b)
    ensures Before(a, b) <==> Ordinal(a) < Ordinal(b)
    ensures Ordinal(a) == Ordinal(b) <==> a == b
  {
    OrdinalWithinYear(a);
    OrdinalWithinYear(b);
    if a.year < b.year {
      YearsMonotone(a.year, b.year);
    } else if b.year < a.year {
      YearsMonotone(b.year, a.year);
    } else if a.month < b.month {
      MonthsMonotone(a.year, a.month, b.month);
    } else if b.month < a.month {
      MonthsMonotone(a.year, b.month, a.month);
    }
  }

  // ---------------------------------------------------------------------------
  // Month and day arithmetic

  /**
   * `_two_months_before`: the same day two calendar months earlier, clamped to the last
   * day of that month; January and February go back into the previous year. Python
   * raises ValueError when that year is 0 (before `MINYEAR`), modelled as None.
   */
  function TwoMonthsBefore(d: Date): (r: Option<Date>)
    requires ValidDate(d)
    ensures r.None? <==> d.year == MinYear && d.month <= 2
    ensures r.Some? ==> ValidDate(r.value) && Before(r.value, d)
    ensures r.Some? ==> MonthIndex(r.value) == MonthIndex(d) - 2
    ensures r.Some? ==> r.value.day == Min(d.day, DaysInMonth(r.value.year, r.value.month))
    ensures r.Some? ==> r.value.day <= d.day
    ensures r.Some? && r.value.day < d.day ==> r.value.day == DaysInMonth(r.value.year, r.value.month)
  {
    var month := d.month - 2;
    var y := if month <= 0 then d.year - 1 else d.year;
    var m := if month <= 0 then month + 12 else month;
    var day := Min(d.day, DaysInMonth(y, m));
    if y < MinYear then None else Some(Date(y, m, day))
  }

  /** The worked cases of the docstring and of the reconciliation design. */
  lemma TwoMonthsBeforeExamples()
    ensures TwoMonthsBefore(Date(2024, 4, 30)) == Some(Date(2024, 2, 29))
    ensures TwoMonthsBefore(Date(2024, 8, 31)) == Some(Date(2024, 6, 30))
    ensures TwoMonthsBefore(Date(2024, 3, 31)) == Some(Date(2024, 1, 31))
    ensures TwoMonthsBefore(Date(2023, 4, 30)) == Some(Date(2023, 2, 28))
    ensures TwoMonthsBefore(Date(2024, 1, 15)) == Some(Date(2023, 11, 15))
    ensures TwoMonthsBefore(Date(2024, 2, 29)) == Some(Date(2023, 12, 29))
  {
  }

  /** The day before `d`; None before 0001-01-01, where Python raises OverflowError. */
  function PrevDay(d: Date): (r: Option<Date>)
    requires ValidDate(d)
    ensures r.None? <==> d == Date(MinYear, 1, 1)
    ensures r.Some? ==> ValidDate(r.value)
  {
    if d.day > 1 then Some(Date(d.year, d.month, d.day - 1))
    else if d.month > 1 then Some(Date(d.year, d.month - 1, DaysInMonth(d.year, d.month - 1)))
    else if d.year > MinYear then Some(Date(d.year - 1, 12, 31))
    else None
  }

  /** The day before has the day number one less; only day 1 has no day before it. */
  lemma PrevDayOrdinal(d: Date)
    requires ValidDate(d)
    ensures PrevDay(d).None? <==> Ordinal(d) == 1
    ensures PrevDay(d).Some? ==> Ordinal(PrevDay(d).value) == Ordinal(d) - 1
  {
    PrevDayFacts(d);
  }

  lemma PrevDayFacts(d: Date)
    requires ValidDate(d)
    ensures Ordinal(d) == 1 <==> d == Date(MinYear, 1, 1)
    ensures d.day == 1 && d.month > 1 ==>
      Ordinal(Date(d.year, d.month - 1, DaysInMonth(d.year, d.month - 1))) == Ordinal(d) - 1
    ensures d.day == 1 && d.month == 1 && d.year > MinYear ==>
      Ordinal(Date(d.year - 1, 12, 31)) == Ordinal(d) - 1
  {
    if d.month > 1 {
      MonthStep(d.year, d.month - 1);
    }
    if d.year > MinYear {
      YearStep(d.year - 1);
      MonthStep(d.year - 1, 12);
      YearsMonotone(1, d.year);
    }
  }

  /** `d - timedelta(days=n)`; None when that falls before 0001-01-01 (OverflowError). */
  function MinusDays(d: Date, n: nat): (r: Option<Date>)
    requires ValidDate(d)
    ensures r.None? <==> Ordinal(d) <= n
    ensures r.Some? ==> ValidDate(r.value) && Ordinal(r.value) == Ordinal(d) - n
    decreases n
  {
    if n == 0 then Some(d)
    else if d == Date(MinYear, 1, 1) then
      PrevDayOrdinal(d);
      None
    else
      var p := PrevDay(d).value;
      PrevDayOrdinal(d);
      MinusDays(p, n - 1)
  }

  /** Going back a positive number of days gives an earlier date. */
  lemma MinusDaysBefore(d: Date, n: nat)
    requires ValidDate(d) && n > 0 && MinusDays(d, n).Some?
    ensures Before(MinusDays(d, n).value, d)
  {
    OrdinalOrder(MinusDays(d, n).value, d);
  }

  // ---------------------------------------------------------------------------
  // The text form YYYY-MM-DD

  function Pow10(w: nat): nat {
    if w == 0 then 1 else 10 * Pow10(w - 1)
  }

  predicate IsDigit(c: char) {
    '0' <= c <= '9'
  }

  predicate AllDigits(s: string) {
    forall i :: 0 <= i < |s| ==> IsDigit(s[i])
  }

  function DigitChar(v: int): char
    requires 0 <= v < 10
  {
    ('0' as int + v) as char
  }

  /** `n` written with exactly `w` decimal digits, zero-padded (`%0wd`). */
  function Digits(n: nat, w: nat): (s: string)
    ensures |s| == w && AllDigits(s)
  {
    if w == 0 then [] else Digits(n / 10, w - 1) + [DigitChar(n % 10)]
  }

  /** The value of a string of decimal digits. */
  function DigitsValue(s: string): (v: nat)
    requires AllDigits(s)
    ensures v < Pow10(|s|)
  {
    if s == [] then 0
    else DigitsValue(s[..|s| - 1]) * 10 + (s[|s| - 1] as int - '0' as int)
  }

  lemma {:induction false} DigitsRoundTrip(n: nat, w: nat)
    requires n < Pow10(w)
    ensures DigitsValue(Digits(n, w)) == n
  {
    if w > 0 {
      DigitsRoundTrip(n / 10, w - 1);
      assert Digits(n, w)[..w - 1] == Digits(n / 10, w - 1);
    }
  }

  lemma {:induction false} DigitsValueRoundTrip(s: string)
    requires AllDigits(s)
    ensures Digits(DigitsValue(s), |s|) == s
  {
    if s != [] {
      var init := s[..|s| - 1];
      DigitsValueRoundTrip(init);
      var v := DigitsValue(s);
      assert v / 10 == DigitsValue(init);
      assert s == init + [s[|s| - 1]];
    }
  }

  /** `str(d)` (`d.isoformat()`): `YYYY-MM-DD`. */
  function IsoDate(d: Date): (s: string)
    ensures |s| == 10
  {
    Digits(if d.year < 0 then 0 else d.year, 4) + "-" + Digits(if d.month < 0 then 0 else d.month, 2)
      + "-" + Digits(if d.day < 0 then 0 else d.day, 2)
  }

  /** `date.fromisoformat(s)` for the `YYYY-MM-DD` form; None where Python raises ValueError. */
  function ParseIsoDate(s: string): (r: Option<Date>)
    ensures r.Some? ==> ValidDate(r.value)
  {
    if |s| == 10 && s[4] == '-' && s[7] == '-'
       && AllDigits(s[..4]) && AllDigits(s[5..7]) && AllDigits(s[8..])
    then
      var d := Date(DigitsValue(s[..4]), DigitsValue(s[5..7]), DigitsValue(s[8..]));
      if ValidDate(d) then Some(d) else None
    else None
  }

  /** Reading back what `str(d)` wrote gives `d`. */
  lemma IsoDateRoundTrip(d: Date)
    requires ValidDate(d)
    ensures ParseIsoDate(IsoDate(d)) == Some(d)
  {
    var s := IsoDate(d);
    var y, m, dd := Digits(d.year, 4), Digits(d.month, 2), Digits(d.day, 2);
    assert s == y + "-" + m + "-" + dd;
    assert s[..4] == y && s[5..7] == m && s[8..] == dd;
    assert Pow10(4) == 10000 && Pow10(2) == 100;
    DigitsRoundTrip(d.year, 4);
    DigitsRoundTrip(d.month, 2);
    DigitsRoundTrip(d.day, 2);
  }

  /** Every string that parses is the text form of the date it parses to. */
  lemma ParseIsoDateCanonical(s: string)
    requires ParseIsoDate(s).Some?
    ensures IsoDate(ParseIsoDate(s).value) == s
  {
    DigitsValueRoundTrip(s[..4]);
    DigitsValueRoundTrip(s[5..7]);
    DigitsValueRoundTrip(s[8..]);
    assert s == s[..4] + "-" + s[5..7] + "-" + s[8..];
  }

  // ---------------------------------------------------------------------------
  // Text order agrees with date order

  lemma {:induction false} StrLeSameLengthPrefix(x1: string, r1: string, x2: string, r2: string)
    requires |x1| == |x2|
    ensures StrLe(x1 + r1, x2 + r2) <==> (x1 != x2 && StrLe(x1, x2)) || (x1 == x2 && StrLe(r1, r2))
  {
    if x1 != [] {
      assert (x1 + r1)[0] == x1[0] && (x2 + r2)[0] == x2[0];
      assert (x1 + r1)[1..] == x1[1..] + r1 && (x2 + r2)[1..] == x2[1..] + r2;
      StrLeSameLengthPrefix(x1[1..], r1, x2[1..], r2);
      if x1[0] == x2[0] {
        assert x1 == x2 <==> x1[1..] == x2[1..] by {
          assert x1 == [x1[0]] + x1[1..] && x2 == [x2[0]] + x2[1..];
        }
      }
    } else {
      assert x1 + r1 == r1 && x2 + r2 == r2;
    }
  }

  lemma {:induction false} DigitsOrder(a: nat, b: nat, w: nat)
    requires a < Pow10(w) && b < Pow10(w)
    ensures StrLe(Digits(a, w), Digits(b, w)) <==> a <= b
    ensures Digits(a, w) == Digits(b, w) <==> a == b
  {
    if w > 0 {
      DecimalSplit(a, b, w);
      DigitsOrder(a / 10, b / 10, w - 1);
      StrLeSameLengthPrefix(Digits(a / 10, w - 1), [DigitChar(a % 10)], Digits(b / 10, w - 1), [DigitChar(b % 10)]);
      if Digits(a, w) == Digits(b, w) {
        DigitsRoundTrip(a, w);
        DigitsRoundTrip(b, w);
      }
    }
  }

  /** Order and equality of two numbers, read off their leading digits and their last digit. */
  lemma DecimalSplit(a: nat, b: nat, w: nat)
    requires w > 0 && a < Pow10(w) && b < Pow10(w)
    ensures a / 10 < Pow10(w - 1) && b / 10 < Pow10(w - 1)
    ensures a <= b <==> a / 10 < b / 10 || (a / 10 == b / 10 && a % 10 <= b % 10)
    ensures a == b <==> a / 10 == b / 10 && a % 10 == b % 10
  {
    assert a == 10 * (a / 10) + a % 10;
    assert b == 10 * (b / 10) + b % 10;
  }

  /**
   * For valid dates, comparing the stored `YYYY-MM-DD` texts as strings gives the
   * calendar order; this is why range conditions on the text column select date ranges.
   */
  lemma IsoDateOrder(a: Date, b: Date)
    requires ValidDate(a) && ValidDate(b)
    ensures StrLe(IsoDate(a), IsoDate(b)) <==> NotAfter(a, b)
    ensures IsoDate(a) == IsoDate(b) <==> a == b
  {
    IsoDateLe(a, b);
    if IsoDate(a) == IsoDate(b) {
      IsoDateRoundTrip(a);
      IsoDateRoundTrip(b);
    }
  }

  /** The text of a valid date, nested to the right field by field. */
  lemma IsoDateParts(d: Date)
    requires ValidDate(d)
    ensures IsoDate(d) == Digits(d.year, 4) + ("-" + (Digits(d.month, 2) + ("-" + Digits(d.day, 2))))
  {
  }

  lemma IsoDateLe(a: Date, b: Date)
    requires ValidDate(a) && ValidDate(b)
    ensures StrLe(IsoDate(a), IsoDate(b)) <==> NotAfter(a, b)
  {
    assert Pow10(4) == 10000 && Pow10(2) == 100;
    var ya, ma, da := Digits(a.year, 4), Digits(a.month, 2), Digits(a.day, 2);
    var yb, mb, db := Digits(b.year, 4), Digits(b.month, 2), Digits(b.day, 2);
    DigitsOrder(a.year, b.year, 4);
    DigitsOrder(a.month, b.month, 2);
    DigitsOrder(a.day, b.day, 2);
    IsoDateParts(a);
    IsoDateParts(b);
    StrLeSameLengthPrefix(ya, "-" + (ma + ("-" + da)), yb, "-" + (mb + ("-" + db)));
    StrLeSameLengthPrefix("-", ma + ("-" + da), "-", mb + ("-" + db));
    StrLeSameLengthPrefix(ma, "-" + da, mb, "-" + db);
    StrLeSameLengthPrefix("-", da, "-", db);
  }
}
