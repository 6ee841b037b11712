/** Proleptic Gregorian calendar dates as Python's `datetime` has them (years 1 to 9999),
    day numbers as `date.toordinal()` counts them, and the `strftime` renderings the analyzer uses. */
module Calendar {
  import opened Text

  datatype Date = Date(year: int, month: int, day: int)

  /** A time of day on a date, for the analysis timestamp of the summary sheet. */
  datatype DateTime = DateTime(date: Date, hour: int, minute: int, second: int)

  predicate IsLeap(y: int) { y % 4 == 0 && (y % 100 != 0 || y % 400 == 0) }

  function DaysInMonth(y: int, m: int): int {
    if m == 2 then (if IsLeap(y) then 29 else 28)
    else if m == 4 || m == 6 || m == 9 || m == 11 then 30
    else 31
  }

  /** The dates `datetime(year, month, day)` accepts without raising ValueError. */
  predicate ValidDate(d: Date) {
    1 <= d.year <= 9999 && 1 <= d.month <= 12 && 1 <= d.day <= DaysInMonth(d.year, d.month)
  }

  function DaysInYear(y: int): int { if IsLeap(y) then 366 else 365 }

  /** Days in the years before `y` (Python's `_days_before_year`). */
  function DaysBeforeYear(y: int): int
    requires y >= 1
  {
    var k := y - 1;
    365 * k + k / 4 - k / 100 + k / 400
  }

  /** Days in the months of year `y` before month `m`; month 13 stands for the year's end. */
  function DaysBeforeMonth(y: int, m: int): int
    requires 1 <= m <= 13
  {
    var common :=
      if m == 1 then 0 else if m == 2 then 31 else if m == 3 then 59 else if m == 4 then 90
      else if m == 5 then 120 else if m == 6 then 151 else if m == 7 then 181
      else if m == 8 then 212 else if m == 9 then 243 else if m == 10 then 273
      else if m == 11 then 304 else if m == 12 then 334 else 365;
    if m > 2 && IsLeap(y) then common + 1 else common
  }

  /** Python's `date.toordinal()`: 0001-01-01 is day 1. */
  function DayNumber(d: Date): int
    requires ValidDate(d)
  {
    DaysBeforeYear(d.year) + DaysBeforeMonth(d.year, d.month) + d.day
  }

  const MaxDate := Date(9999, 12, 31)
  const MaxDayNumber := 3652059

  lemma MaxDayNumberValue()
    ensures ValidDate(MaxDate) && DayNumber(MaxDate) == MaxDayNumber
  {
  }

  lemma DaysBeforeMonthStep(y: int, m: int)
    requires 1 <= m <= 12
    ensures DaysBeforeMonth(y, m + 1) == DaysBeforeMonth(y, m) + DaysInMonth(y, m)
  {
  }

  lemma DaysBeforeYearStep(y: int)
    requires y >= 1
    ensures DaysBeforeYear(y + 1) == DaysBeforeYear(y) + DaysInYear(y)
  {
    var k := y - 1;
    assert (k + 1) / 4 == k / 4 + (if y % 4 == 0 then 1 else 0);
    assert (k + 1) / 100 == k / 100 + (if y % 100 == 0 then 1 else 0);
    assert (k + 1) / 400 == k / 400 + (if y % 400 == 0 then 1 else 0);
  }

  /** A valid date's day number lies within its year's range. */
  lemma DayNumberInYear(d: Date)
    requires ValidDate(d)
    ensures DaysBeforeYear(d.year) < DayNumber(d) <= DaysBeforeYear(d.year) + DaysInYear(d.year)
  {
  }

  lemma {:induction false} DaysBeforeYearMonotone(a: int, b: int)
    requires 1 <= a <= b
    ensures DaysBeforeYear(a) + 365 * (b - a) <= DaysBeforeYear(b)
    decreases b - a
  {
    if a < b {
      DaysBeforeYearStep(a);
      DaysBeforeYearMonotone(a + 1, b);
    }
  }

  /** The calendar order of dates. */
  predicate DateBefore(a: Date, b: Date) {
    a.year < b.year || (a.year == b.year && (a.month < b.month || (a.month == b.month && a.day < b.day)))
  }

  /** Day numbers follow the calendar order, so a difference of day numbers counts days. */
  lemma DayNumberOrder(a: Date, b: Date)
    requires ValidDate(a) && ValidDate(b) && DateBefore(a, b)
    ensures DayNumber(a) < DayNumber(b)
  {
    DayNumberInYear(a);
    DayNumberInYear(b);
    if a.year < b.year {
      DaysBeforeYearStep(a.year);
      DaysBeforeYearMonotone(a.year + 1, b.year);
    }
  }

  /** Different valid dates have different day numbers. */
  lemma DayNumberInjective(a: Date, b: Date)
    requires ValidDate(a) && ValidDate(b) && DayNumber(a) == DayNumber(b)
    ensures a == b
  {
    if DateBefore(a, b) { DayNumberOrder(a, b); }
    if DateBefore(b, a) { DayNumberOrder(b, a); }
  }

  /** The following calendar day (Python's `d + timedelta(days=1)`). */
  function NextDay(d: Date): Date {
    if d.day < DaysInMonth(d.year, d.month) then Date(d.year, d.month, d.day + 1)
    else if d.month < 12 then Date(d.year, d.month + 1, 1)
    else Date(d.year + 1, 1, 1)
  }

  lemma NextDayNumber(d: Date)
    requires ValidDate(d) && d != MaxDate
    ensures ValidDate(NextDay(d)) && DayNumber(NextDay(d)) == DayNumber(d) + 1
  {
    if d.day == DaysInMonth(d.year, d.month) && d.month == 12 {
      DaysBeforeYearStep(d.year);
    }
  }

  /** `d + timedelta(days=n)`: `n` successive calendar days after `d`. */
  function AddDays(d: Date, n: nat): (r: Date)
    requires ValidDate(d) && DayNumber(d) + n <= MaxDayNumber
    ensures ValidDate(r) && DayNumber(r) == DayNumber(d) + n
  {
    if n == 0 then d
    else
      var prev := AddDays(d, n - 1);
      MaxDayNumberValue();
      NextDayNumber(prev);
      NextDay(prev)
  }

  // ---------------------------------------------------------------------------
  // strftime renderings
  // ---------------------------------------------------------------------------

  /** `%Y`: the year padded to four digits. */
  function Year4(y: int): string
    requires y >= 0
  {
    PadNat(y, 4)
  }

  /** `%d`, `%m`, `%H`, `%M`, `%S`: two digits. */
  function Two(n: int): string
    requires n >= 0
  {
    PadNat(n, 2)
  }

  lemma {:induction false} NatToStringLength(n: nat, k: nat)
    requires 1 <= k && n < Pow10(k)
    ensures |NatToString(n)| <= k
    decreases k
  {
    if n >= 10 {
      assert n / 10 < Pow10(k - 1);
      NatToStringLength(n / 10, k - 1);
    }
  }

  /** A pad to width k of a number below 10^k has exactly k digits. */
  lemma PadExact(n: nat, k: nat)
    requires 1 <= k && n < Pow10(k)
    ensures |PadNat(n, k)| == k
  {
    NatToStringLength(n, k);
  }

  /** `strftime('%d/%m/%Y')`, the rendering of the critical sheet's expiry date. */
  function FormatDayMonthYear(d: Date): string
    requires ValidDate(d)
  {
    Two(d.day) + "/" + Two(d.month) + "/" + Year4(d.year)
  }

  /** `strftime('%Y-%m-%d')`, the rendering of the default export file name's date. */
  function FormatIso(d: Date): string
    requires ValidDate(d)
  {
    Year4(d.year) + "-" + Two(d.month) + "-" + Two(d.day)
  }

  /** `strftime('%m/%Y')`, the key of a month bucket. */
  function MonthYear(d: Date): (r: string)
    requires ValidDate(d)
    ensures |r| == 7 && r[2] == '/'
    ensures AllDigits(r[..2]) && DigitsValue(r[..2]) == d.month
    ensures AllDigits(r[3..]) && DigitsValue(r[3..]) == d.year
  {
    PadExact(d.month, 2);
    PadExact(d.year, 4);
    var r := Two(d.month) + "/" + Year4(d.year);
    assert r[..2] == Two(d.month) && r[3..] == Year4(d.year);
    r
  }

  /** Two dates share a month bucket exactly when they fall in the same calendar month. */
  lemma MonthYearSameMonth(a: Date, b: Date)
    requires ValidDate(a) && ValidDate(b)
    ensures MonthYear(a) == MonthYear(b) <==> (a.month == b.month && a.year == b.year)
  {
    var ka, kb := MonthYear(a), MonthYear(b);
    if ka == kb {
      assert ka[..2] == kb[..2] && ka[3..] == kb[3..];
    }
  }

  /** `strftime('%d/%m/%Y %H:%M:%S')`. */
  function FormatDateTime(t: DateTime): string
    requires ValidDate(t.date) && 0 <= t.hour && 0 <= t.minute && 0 <= t.second
  {
    FormatDayMonthYear(t.date) + " " + Two(t.hour) + ":" + Two(t.minute) + ":" + Two(t.second)
  }
}
