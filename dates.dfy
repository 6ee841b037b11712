/** The date normaliser of the processor (`parse_date`): a cell of the expiry column becomes
    a calendar date or None. Formats are tried in a fixed order: `D/M/YYYY`, `D-M-YYYY`,
    `YYYY-M-D` followed by anything after a space, and finally a spreadsheet serial day count
    from 1899-12-30. A format whose shape matches but whose date is not a calendar date does
    not try the later formats: it goes straight to the serial attempt. */
module DateParser {
  import opened Common
  import opened Text
  import opened Numbers
  import opened Calendar

  /** Raw cell texts that mean "no date", compared before any trimming. */
  const Sentinels: seq<string> := ["", "NULL", "null", "NaN", "Invalid Date"]

  /** Day zero of spreadsheet serial dates. */
  const SerialEpoch := Date(1899, 12, 30)

  /** Serial numbers must lie strictly between 0 and this bound. */
  const SerialLimit := 50000

  lemma EpochDayNumber()
    ensures ValidDate(SerialEpoch) && DayNumber(SerialEpoch) == 693594
  {
  }

  /** The regular expression `^\d{1,2}<sep>\d{1,2}<sep>\d{4}$`: three runs of digits of
      lengths 1-2, 1-2 and 4 separated by `sep`. */
  predicate DayMonthYearShape(s: string, sep: char) {
    var parts := Split(s, sep);
    && |parts| == 3
    && 1 <= |parts[0]| <= 2 && 1 <= |parts[1]| <= 2 && |parts[2]| == 4
    && AllDigits(parts[0]) && AllDigits(parts[1]) && AllDigits(parts[2])
  }

  /** The regular expression `^\d{4}-\d{1,2}-\d{1,2}`, anchored at the start only. */
  predicate IsoShape(s: string) {
    && |s| >= 8 && AllDigits(s[..4]) && s[4] == '-' && IsDigit(s[5])
    && ((s[6] == '-' && IsDigit(s[7])) || (IsDigit(s[6]) && s[7] == '-' && |s| >= 9 && IsDigit(s[8])))
  }

  /** `datetime(year, month, day)`, None where the conversions or the constructor raise. */
  function MakeDate(year: Option<int>, month: Option<int>, day: Option<int>): (r: Option<Date>)
    ensures r.Some? ==> ValidDate(r.value)
    ensures r.Some? <==> year.Some? && month.Some? && day.Some? && ValidDate(Date(year.value, month.value, day.value))
  {
    if year.Some? && month.Some? && day.Some? && ValidDate(Date(year.value, month.value, day.value)) then
      Some(Date(year.value, month.value, day.value))
    else None
  }

  /** `day, month, year = map(int, s.split(sep))` and the date they name. */
  function DayMonthYearDate(s: string, sep: char): Option<Date> {
    var parts := Split(s, sep);
    if |parts| == 3 then MakeDate(ParseInt(parts[2]), ParseInt(parts[1]), ParseInt(parts[0])) else None
  }

  /** The ISO branch: the text before the first space, split at `-` into year, month, day;
      a different number of pieces fails to unpack. */
  function IsoDate(s: string): Option<Date> {
    var datePart := Split(s, ' ')[0];
    var parts := Split(datePart, '-');
    if |parts| == 3 then MakeDate(ParseInt(parts[0]), ParseInt(parts[1]), ParseInt(parts[2])) else None
  }

  /** The `if`/`elif` chain of the three written formats on the trimmed text; None when no
      shape matches or the matching branch fails. */
  function FormattedDate(s: string): Option<Date> {
    if DayMonthYearShape(s, '/') then DayMonthYearDate(s, '/')
    else if DayMonthYearShape(s, '-') then DayMonthYearDate(s, '-')
    else if IsoShape(s) then IsoDate(s)
    else None
  }

  /** The date `n` days after the serial epoch. */
  function SerialDay(n: nat): (r: Date)
    requires n <= SerialLimit
    ensures ValidDate(r) && DayNumber(r) == DayNumber(SerialEpoch) + n
  {
    EpochDayNumber();
    MaxDayNumberValue();
    AddDays(SerialEpoch, n)
  }

  const MicrosPerDay := 86400000000

  /** Rounding to the nearest integer, ties to the even one: how `timedelta` turns a
      fractional count of microseconds into a whole one. */
  function RoundHalfEven(x: real): (r: int)
    ensures -0.5 <= r as real - x <= 0.5
    ensures r as real - x == 0.5 ==> r % 2 == 0
    ensures r as real - x == -0.5 ==> r % 2 == 0
  {
    var n := x.Floor;
    var f := x - n as real;
    if f > 0.5 || (f == 0.5 && n % 2 == 1) then n + 1 else n
  }

  /** The whole day of `timedelta(days=x)`: `x` days rounded to microseconds. The time of
      day the sum keeps is dropped, since the analyzer only subtracts midnight from it and
      reads `.days`. */
  function SerialOffset(x: real): (r: nat)
    requires 0.0 < x < SerialLimit as real
    ensures r <= SerialLimit
  {
    var us := RoundHalfEven(x * MicrosPerDay as real);
    assert 0 <= us <= SerialLimit * MicrosPerDay;
    us / MicrosPerDay
  }

  /** The serial attempt on the value `float()` gave (None where it raised): accepted
      strictly between 0 and 50000. */
  function SerialFromFloat(f: Option<Float>): (r: Option<Date>)
    ensures r.Some? ==> ValidDate(r.value)
    ensures r.Some? <==> f.Some? && Between(0.0, f.value, SerialLimit as real)
  {
    match f
    case Some(Finite(x)) =>
      if 0.0 < x < SerialLimit as real then Some(SerialDay(SerialOffset(x))) else None
    case _ => None
  }

  function SerialDate(s: string): (r: Option<Date>)
    ensures r.Some? ==> ValidDate(r.value)
  {
    SerialFromFloat(ParseFloat(s))
  }

  /** `parse_date`: None for a missing cell, a sentinel or any text no format accepts. */
  function ParseDate(cell: Cell): (r: Option<Date>)
    ensures r.Some? ==> ValidDate(r.value)
  {
    match cell
    case None => None
    case Some(raw) =>
      if raw in Sentinels then None
      else
        var s := Strip(raw);
        var formatted := FormattedDate(s);
        if formatted.Some? then formatted else SerialDate(s)
  }

  /** The range of a C `int`. `datetime()` converts each argument to one before it checks
      the date, and a number outside this range raises OverflowError. The `except ValueError`
      of a format branch does not catch that error, so it leaves `parse_date` altogether. */
  const IntMin := -0x8000_0000
  const IntMax := 0x7FFF_FFFF

  /** `datetime(year, month, day)` raises OverflowError: every `int()` conversion succeeded
      and one of the numbers does not fit a C `int`. */
  predicate Overflows(year: Option<int>, month: Option<int>, day: Option<int>) {
    && year.Some? && month.Some? && day.Some?
    && !(IntMin <= year.value <= IntMax && IntMin <= month.value <= IntMax && IntMin <= day.value <= IntMax)
  }

  /** The day-month-year branch raises OverflowError. */
  predicate DayMonthYearRaises(s: string, sep: char) {
    var parts := Split(s, sep);
    |parts| == 3 && Overflows(ParseInt(parts[2]), ParseInt(parts[1]), ParseInt(parts[0]))
  }

  /** The ISO branch raises OverflowError. */
  predicate IsoRaises(s: string) {
    var parts := Split(Split(s, ' ')[0], '-');
    |parts| == 3 && Overflows(ParseInt(parts[0]), ParseInt(parts[1]), ParseInt(parts[2]))
  }

  /** The branch of the format chain that the trimmed text selects raises OverflowError. */
  predicate FormattedRaises(s: string) {
    if DayMonthYearShape(s, '/') then DayMonthYearRaises(s, '/')
    else if DayMonthYearShape(s, '-') then DayMonthYearRaises(s, '-')
    else IsoShape(s) && IsoRaises(s)
  }

  /** `parse_date` raises instead of returning: the cell holds text that is not a sentinel
      and whose format branch overflows. */
  predicate ParseDateRaises(cell: Cell) {
    cell.Some? && cell.value !in Sentinels && FormattedRaises(Strip(cell.value))
  }
}

/** What `parse_date` accepts and what it returns for each format. */
module DateFormats {
  import opened Common
  import opened Text
  import opened Numbers
  import opened Calendar
  import opened DateParser

  lemma ParseDateSentinel(raw: string)
    requires raw in Sentinels
    ensures ParseDate(Some(raw)) == None
  {
  }

  /** On a text without surrounding whitespace and not a sentinel, `parse_date` is the chain
      of written formats with the serial attempt as the fallback. */
  lemma ParseDateTrimmed(s: string)
    requires Strip(s) == s && s !in Sentinels
    ensures ParseDate(Some(s)) == if FormattedDate(s).Some? then FormattedDate(s) else SerialDate(s)
  {
    ParseDateOfText(s);
  }

  /** A text that is not a sentinel is stripped and then read by the format chain, with the
      serial attempt as the fallback. */
  lemma ParseDateOfText(raw: string)
    requires raw !in Sentinels
    ensures var s := Strip(raw);
      ParseDate(Some(raw)) == if FormattedDate(s).Some? then FormattedDate(s) else SerialDate(s)
  {
  }

  /** Where the serial attempt fails, `parse_date` is the chain of written formats alone. */
  lemma ParseDateNoSerial(s: string)
    requires Strip(s) == s && s !in Sentinels && SerialDate(s) == None
    ensures ParseDate(Some(s)) == FormattedDate(s)
  {
    ParseDateTrimmed(s);
  }

  lemma DigitsExclude(a: string, c: char)
    requires AllDigits(a) && !IsDigit(c)
    ensures c !in a
  {
  }

  lemma SplitSingle(s: string, sep: char)
    requires sep !in s
    ensures Split(s, sep) == [s]
  {
    SplitJoin([s], sep);
  }

  lemma SplitThree(a: string, b: string, c: string, sep: char)
    requires sep !in a && sep !in b && sep !in c
    ensures Split(a + [sep] + b + [sep] + c, sep) == [a, b, c]
  {
    assert [a, b, c][1..] == [b, c];
    assert [b, c][1..] == [c];
    assert Join([b, c], sep) == b + [sep] + c;
    assert Join([a, b, c], sep) == a + [sep] + (b + [sep] + c);
    assert a + [sep] + (b + [sep] + c) == a + [sep] + b + [sep] + c;
    SplitJoin([a, b, c], sep);
  }

  /** A text that starts with a digit is none of the sentinels. */
  lemma NotSentinel(s: string)
    requires |s| > 0 && IsDigit(s[0])
    ensures s !in Sentinels
  {
  }

  /** A day/month/year text has the shape of its separator and names the date of its
      three numbers. */
  lemma DayMonthYearPieces(a: string, b: string, c: string, sep: char)
    requires sep == '/' || sep == '-'
    requires 1 <= |a| <= 2 && 1 <= |b| <= 2 && |c| == 4
    requires AllDigits(a) && AllDigits(b) && AllDigits(c)
    ensures var s := a + [sep] + b + [sep] + c;
      && DayMonthYearShape(s, sep)
      && DayMonthYearDate(s, sep) == MakeDate(Some(DigitsValue(c) as int), Some(DigitsValue(b) as int), Some(DigitsValue(a) as int))
  {
    DigitsExclude(a, sep);
    DigitsExclude(b, sep);
    DigitsExclude(c, sep);
    SplitThree(a, b, c, sep);
    DayMonthYearOfParts(a + [sep] + b + [sep] + c, a, b, c, sep);
  }

  lemma DayMonthYearOfParts(s: string, a: string, b: string, c: string, sep: char)
    requires Split(s, sep) == [a, b, c]
    requires 1 <= |a| <= 2 && 1 <= |b| <= 2 && |c| == 4
    requires AllDigits(a) && AllDigits(b) && AllDigits(c)
    ensures DayMonthYearShape(s, sep)
    ensures DayMonthYearDate(s, sep) == MakeDate(Some(DigitsValue(c) as int), Some(DigitsValue(b) as int), Some(DigitsValue(a) as int))
  {
    ParseIntShort(a);
    ParseIntShort(b);
    ParseIntShort(c);
  }

  /** A text with a dash and digits but no slash does not have the slash shape. */
  lemma NoSlashShape(a: string, b: string, c: string)
    requires AllDigits(a) && AllDigits(b) && AllDigits(c)
    ensures !DayMonthYearShape(a + ['-'] + b + ['-'] + c, '/')
  {
    var s := a + ['-'] + b + ['-'] + c;
    DigitsExclude(a, '/');
    DigitsExclude(b, '/');
    DigitsExclude(c, '/');
    assert '/' !in s;
    SplitSingle(s, '/');
  }

  /** The written day/month/year text selects its own branch of the chain. */
  lemma FormattedDayMonthYear(a: string, b: string, c: string, sep: char)
    requires sep == '/' || sep == '-'
    requires 1 <= |a| <= 2 && 1 <= |b| <= 2 && |c| == 4
    requires AllDigits(a) && AllDigits(b) && AllDigits(c)
    ensures var d := Date(DigitsValue(c), DigitsValue(b), DigitsValue(a));
      FormattedDate(a + [sep] + b + [sep] + c) == if ValidDate(d) then Some(d) else None
  {
    DayMonthYearPieces(a, b, c, sep);
    if sep == '-' {
      NoSlashShape(a, b, c);
    }
  }

  /** A day/month/year text is not a float literal, so an invalid date is not rescued by
      the serial attempt. */
  lemma SerialRejectsDayMonthYear(a: string, b: string, c: string, sep: char)
    requires sep == '/' || sep == '-'
    requires 1 <= |a| <= 2 && 1 <= |b| <= 2 && |c| == 4
    requires AllDigits(a) && AllDigits(b) && AllDigits(c)
    ensures SerialDate(a + [sep] + b + [sep] + c) == None
  {
    var s := a + [sep] + b + [sep] + c;
    assert s[..|a|] == a;
    assert s[|s| - 1] == c[3];
    StripNoop(s);
    ParseBareFloatRejectsSeparated(s, |a|);
    ParseFloatOfStripped(s, None);
  }

  /** `D/M/YYYY` and `D-M-YYYY` are read as day, month and year; a text of that shape that
      names no calendar date (such as `32/01/2024`) gives None. */
  lemma ParseDayMonthYear(a: string, b: string, c: string, sep: char)
    requires sep == '/' || sep == '-'
    requires 1 <= |a| <= 2 && 1 <= |b| <= 2 && |c| == 4
    requires AllDigits(a) && AllDigits(b) && AllDigits(c)
    ensures var d := Date(DigitsValue(c), DigitsValue(b), DigitsValue(a));
      && (ParseDate(Some(a + [sep] + b + [sep] + c)) == if ValidDate(d) then Some(d) else None)
      && !ParseDateRaises(Some(a + [sep] + b + [sep] + c))
  {
    var s := a + [sep] + b + [sep] + c;
    assert s[0] == a[0] && s[|s| - 1] == c[3];
    NotSentinel(s);
    StripNoop(s);
    FormattedDayMonthYear(a, b, c, sep);
    SerialRejectsDayMonthYear(a, b, c, sep);
    DayMonthYearPieces(a, b, c, sep);
    DayMonthYearNeverRaises(s, sep);
    RaisesTrimmed(s);
  }

  /** Numbers of at most four digits fit a C `int`: the day-month-year branches never raise. */
  lemma DayMonthYearFits(s: string, sep: char)
    ensures DayMonthYearShape(s, sep) ==> !DayMonthYearRaises(s, sep)
  {
    var parts := Split(s, sep);
    if DayMonthYearShape(s, sep) {
      forall i | 0 <= i < 3
        ensures ParseInt(parts[i]) == Some(DigitsValue(parts[i]) as int) && DigitsValue(parts[i]) < 10000
      {
        ParseIntDigits(parts[i]);
        ShortDigits(parts[i]);
      }
    }
  }

  /** Where `parse_date` raises it returns no date either: the overflowing branch builds
      none, and its text, four digits and a dash, is no float literal. */
  lemma ParseDateRaisesNone(cell: Cell)
    requires ParseDateRaises(cell)
    ensures ParseDate(cell) == None
  {
    var s := Strip(cell.value);
    assert FormattedRaises(s);
    FormattedRaisesIso(s);
    assert |s| > 4;
    assert AllDigits(s[..4]);
    assert s[4] == '-';
    IsoRaisesNoDate(s);
    assert FormattedDate(s) == None;
    SerialRejectsStrippedIso(cell.value);
    assert SerialDate(s) == None;
  }

  lemma SerialRejectsStrippedIso(raw: string)
    requires |Strip(raw)| > 4 && AllDigits(Strip(raw)[..4]) && Strip(raw)[4] == '-'
    ensures SerialDate(Strip(raw)) == None
  {
    SerialRejectsIso(Strip(raw));
  }

  /** A cell that reads as a date does not raise. */
  lemma ParseDateNotRaised(cell: Cell)
    ensures ParseDate(cell).Some? ==> !ParseDateRaises(cell)
  {
    if ParseDateRaises(cell) {
      ParseDateRaisesNone(cell);
    }
  }

  /** Only the ISO branch of the chain can raise. */
  lemma FormattedRaisesIso(s: string)
    requires FormattedRaises(s)
    ensures !DayMonthYearShape(s, '/') && !DayMonthYearShape(s, '-') && IsoShape(s) && IsoRaises(s)
    ensures FormattedDate(s) == IsoDate(s)
  {
    DayMonthYearFits(s, '/');
    DayMonthYearFits(s, '-');
  }

  lemma IsoRaisesNoDate(s: string)
    requires IsoRaises(s)
    ensures IsoDate(s) == None
  {
    var parts := Split(Split(s, ' ')[0], '-');
    OverflowNoDate(ParseInt(parts[0]), ParseInt(parts[1]), ParseInt(parts[2]));
  }

  /** A number beyond the C `int` range is no year, month or day of a calendar date. */
  lemma OverflowNoDate(year: Option<int>, month: Option<int>, day: Option<int>)
    requires Overflows(year, month, day)
    ensures MakeDate(year, month, day) == None
  {
  }

  lemma ShortDigits(s: string)
    requires AllDigits(s) && |s| <= 4
    ensures DigitsValue(s) < 10000
  {
    DigitsBound(s);
    assert Pow10(0) == 1 && Pow10(1) == 10 && Pow10(2) == 100 && Pow10(3) == 1000 && Pow10(4) == 10000;
  }

  /** A trimmed text that is not a sentinel raises exactly where its format branch does. */
  lemma RaisesTrimmed(s: string)
    requires Strip(s) == s && s !in Sentinels
    ensures ParseDateRaises(Some(s)) == FormattedRaises(s)
  {
  }

  /** A text of a day-month-year shape does not raise. */
  lemma DayMonthYearNeverRaises(s: string, sep: char)
    requires sep == '/' || sep == '-'
    requires DayMonthYearShape(s, sep)
    ensures !FormattedRaises(s)
  {
    DayMonthYearFits(s, '/');
    DayMonthYearFits(s, '-');
  }

  /** A text without either day-month-year shape raises exactly where the ISO branch does. */
  lemma IsoBranchRaises(s: string)
    requires !DayMonthYearShape(s, '/') && !DayMonthYearShape(s, '-') && IsoShape(s)
    ensures FormattedRaises(s) == IsoRaises(s)
  {
  }

  /** The first piece of a split is the text before the first separator. */
  lemma SplitFirst(s: string, sep: char)
    ensures Split(s, sep)[0] == s[..IndexOf(s, sep)]
  {
    if IndexOf(s, sep) == |s| {
      assert s[..|s|] == s;
    }
  }

  /** A text whose first five characters hold no slash does not have the slash shape. */
  lemma NoSlashPrefix(s: string)
    requires |s| >= 5 && forall i :: 0 <= i < 5 ==> s[i] != '/'
    ensures !DayMonthYearShape(s, '/')
  {
    SplitFirst(s, '/');
  }

  /** The text before the first space of an ISO text is its date part. */
  lemma IsoDatePart(y: string, m: string, d: string, rest: string)
    requires AllDigits(y) && AllDigits(m) && AllDigits(d)
    requires rest == [] || rest[0] == ' '
    ensures Split(y + ['-'] + m + ['-'] + d + rest, ' ')[0] == y + ['-'] + m + ['-'] + d
  {
    var core := y + ['-'] + m + ['-'] + d;
    var s := core + rest;
    assert IndexOf(s, ' ') == |core| by {
      DigitsExclude(y, ' ');
      DigitsExclude(m, ' ');
      DigitsExclude(d, ' ');
      forall i | 0 <= i < |core| ensures s[i] != ' ' { assert s[i] == core[i]; }
      if rest != [] { assert s[|core|] == rest[0]; }
    }
    SplitFirst(s, ' ');
    assert s[..|core|] == core;
  }

  /** An ISO text has the ISO shape. */
  lemma IsoShapeHolds(y: string, m: string, d: string, rest: string)
    requires |y| == 4 && 1 <= |m| <= 2 && 1 <= |d|
    requires AllDigits(y) && AllDigits(m) && AllDigits(d)
    ensures IsoShape(y + ['-'] + m + ['-'] + d + rest)
  {
    var s := y + ['-'] + m + ['-'] + d + rest;
    assert s[..4] == y;
  }

  /** An ISO text names the date of its three numbers. */
  lemma IsoPieces(y: string, m: string, d: string, rest: string)
    requires |y| == 4 && 1 <= |m| <= 2 && 1 <= |d|
    requires AllDigits(y) && AllDigits(m) && AllDigits(d)
    requires rest == [] || rest[0] == ' '
    ensures var s := y + ['-'] + m + ['-'] + d + rest;
      && IsoShape(s)
      && IsoDate(s) == MakeDate(Some(DigitsValue(y) as int), Some(DigitsValue(m) as int),
                                if |d| <= MaxStrDigits then Some(DigitsValue(d) as int) else None)
  {
    IsoShapeHolds(y, m, d, rest);
    IsoDatePart(y, m, d, rest);
    DigitsExclude(y, '-');
    DigitsExclude(m, '-');
    DigitsExclude(d, '-');
    SplitThree(y, m, d, '-');
    ParseIntDigits(y);
    ParseIntDigits(m);
    ParseIntDigits(d);
  }

  /** An ISO text raises exactly when `int()` reads its day and the day does not fit a C `int`. */
  lemma IsoRaisesPieces(y: string, m: string, d: string, rest: string)
    requires |y| == 4 && 1 <= |m| <= 2 && 1 <= |d|
    requires AllDigits(y) && AllDigits(m) && AllDigits(d)
    requires rest == [] || rest[0] == ' '
    ensures IsoRaises(y + ['-'] + m + ['-'] + d + rest) <==> |d| <= MaxStrDigits && DigitsValue(d) > IntMax
  {
    IsoParts(y, m, d, rest);
    IsoRaisesOfParts(y + ['-'] + m + ['-'] + d + rest, y, m, d);
  }

  lemma IsoRaisesOfParts(s: string, y: string, m: string, d: string)
    requires |y| == 4 && 1 <= |m| <= 2 && 1 <= |d|
    requires AllDigits(y) && AllDigits(m) && AllDigits(d)
    requires Split(Split(s, ' ')[0], '-') == [y, m, d]
    ensures IsoRaises(s) <==> |d| <= MaxStrDigits && DigitsValue(d) > IntMax
  {
    ParseIntDigits(y);
    ParseIntDigits(m);
    ParseIntDigits(d);
    ShortDigits(y);
    ShortDigits(m);
    if |d| <= MaxStrDigits {
      OverflowsDay(DigitsValue(y), DigitsValue(m), DigitsValue(d));
    }
  }

  /** The year, month and day pieces of an ISO text are its three runs of digits. */
  lemma IsoParts(y: string, m: string, d: string, rest: string)
    requires AllDigits(y) && AllDigits(m) && AllDigits(d)
    requires rest == [] || rest[0] == ' '
    ensures Split(Split(y + ['-'] + m + ['-'] + d + rest, ' ')[0], '-') == [y, m, d]
  {
    IsoDatePart(y, m, d, rest);
    DigitsExclude(y, '-');
    DigitsExclude(m, '-');
    DigitsExclude(d, '-');
    SplitThree(y, m, d, '-');
  }

  lemma OverflowsDay(year: nat, month: nat, day: nat)
    requires year < 10000 && month < 10000
    ensures Overflows(Some(year), Some(month), Some(day)) <==> day > IntMax
  {
  }

  /** An ISO text selects the ISO branch of the chain. */
  lemma FormattedIso(y: string, m: string, d: string, rest: string)
    requires |y| == 4 && 1 <= |m| <= 2 && 1 <= |d|
    requires AllDigits(y) && AllDigits(m) && AllDigits(d)
    requires rest == [] || rest[0] == ' '
    ensures var date := Date(DigitsValue(y), DigitsValue(m), DigitsValue(d));
      FormattedDate(y + ['-'] + m + ['-'] + d + rest) == if |d| <= MaxStrDigits && ValidDate(date) then Some(date) else None
  {
    var s := y + ['-'] + m + ['-'] + d + rest;
    IsoPieces(y, m, d, rest);
    assert s[..4] == y && s[4] == '-';
    IsoNotDayMonthYear(s);
  }

  /** A text opening with four digits and a dash has neither day-month-year shape. */
  lemma IsoNotDayMonthYear(s: string)
    requires |s| >= 5 && AllDigits(s[..4]) && s[4] == '-'
    ensures !DayMonthYearShape(s, '/') && !DayMonthYearShape(s, '-')
  {
    assert forall i :: 0 <= i < 4 ==> s[..4][i] == s[i];
    assert forall i :: 0 <= i < 5 ==> s[i] != '/';
    NoSlashPrefix(s);
    assert IndexOf(s, '-') == 4;
    SplitFirst(s, '-');
  }

  /** An ISO text is not a float literal. */
  lemma SerialRejectsIso(s: string)
    requires |s| > 4 && AllDigits(s[..4]) && s[4] == '-' && !IsSpace(s[|s| - 1])
    ensures SerialDate(s) == None
  {
    IsoPrefixTrimmed(s);
    IsoPrefixNotFloat(s);
    ParseFloatOfStripped(s, None);
    SerialOfUnparsable(s);
  }

  lemma IsoPrefixNotFloat(s: string)
    requires |s| > 4 && AllDigits(s[..4]) && s[4] == '-'
    ensures ParseBareFloat(s) == None
  {
    ParseBareFloatRejectsSeparated(s, 4);
  }

  lemma IsoPrefixTrimmed(s: string)
    requires |s| > 4 && AllDigits(s[..4]) && !IsSpace(s[|s| - 1])
    ensures Strip(s) == s
  {
    assert s[..4][0] == s[0];
    StripNoop(s);
  }

  /** Text that `float()` rejects is no serial date. */
  lemma SerialOfUnparsable(s: string)
    requires ParseFloat(s) == None
    ensures SerialDate(s) == None
  {
  }

  /** `YYYY-M-D...`, optionally followed by a space and anything, is read as year, month and
      day; the part from the first space on is ignored, and a text of that shape that names
      no calendar date gives None. The regular expression bounds only the first two digits
      of the day. A day of more than `MaxStrDigits` digits makes `int()` raise ValueError,
      which the branch catches, so the text gives None even where its value names a day; a
      day that `int()` reads but that lies beyond the C `int` range makes `parse_date` raise,
      and nothing else of this shape does. */
  lemma ParseIsoDate(s: string, y: string, m: string, d: string, rest: string)
    requires s == y + ['-'] + m + ['-'] + d + rest
    requires |y| == 4 && 1 <= |m| <= 2 && 1 <= |d|
    requires AllDigits(y) && AllDigits(m) && AllDigits(d)
    requires rest == [] || (rest[0] == ' ' && !IsSpace(rest[|rest| - 1]))
    ensures var date := Date(DigitsValue(y), DigitsValue(m), DigitsValue(d));
      && (ParseDate(Some(s)) == if |d| <= MaxStrDigits && ValidDate(date) then Some(date) else None)
      && (ParseDateRaises(Some(s)) <==> |d| <= MaxStrDigits && DigitsValue(d) > IntMax)
  {
    IsoValue(s, y, m, d, rest);
    IsoRaisesExactly(s, y, m, d, rest);
  }

  lemma IsoValue(s: string, y: string, m: string, d: string, rest: string)
    requires s == y + ['-'] + m + ['-'] + d + rest
    requires |y| == 4 && 1 <= |m| <= 2 && 1 <= |d|
    requires AllDigits(y) && AllDigits(m) && AllDigits(d)
    requires rest == [] || (rest[0] == ' ' && !IsSpace(rest[|rest| - 1]))
    ensures var date := Date(DigitsValue(y), DigitsValue(m), DigitsValue(d));
      ParseDate(Some(s)) == if |d| <= MaxStrDigits && ValidDate(date) then Some(date) else None
  {
    IsoNotSerial(y, m, d, rest);
    ParseDateNoSerial(s);
    FormattedIso(y, m, d, rest);
  }

  lemma IsoRaisesExactly(s: string, y: string, m: string, d: string, rest: string)
    requires s == y + ['-'] + m + ['-'] + d + rest
    requires |y| == 4 && 1 <= |m| <= 2 && 1 <= |d|
    requires AllDigits(y) && AllDigits(m) && AllDigits(d)
    requires rest == [] || (rest[0] == ' ' && !IsSpace(rest[|rest| - 1]))
    ensures ParseDateRaises(Some(s)) <==> |d| <= MaxStrDigits && DigitsValue(d) > IntMax
  {
    IsoRaisesFormatted(s, y, m, d, rest);
    FormattedIsoRaises(s, y, m, d, rest);
  }

  lemma IsoStripped(y: string, m: string, d: string, rest: string)
    requires |y| == 4 && 1 <= |m| <= 2 && 1 <= |d|
    requires AllDigits(y) && AllDigits(m) && AllDigits(d)
    requires rest == [] || (rest[0] == ' ' && !IsSpace(rest[|rest| - 1]))
    ensures var s := y + ['-'] + m + ['-'] + d + rest;
      Strip(s) == s && s !in Sentinels
  {
    IsoTrimmed(y, m, d, rest);
  }

  /** An ISO text raises exactly where its format branch does. */
  lemma IsoRaisesFormatted(s: string, y: string, m: string, d: string, rest: string)
    requires s == y + ['-'] + m + ['-'] + d + rest
    requires |y| == 4 && 1 <= |m| <= 2 && 1 <= |d|
    requires AllDigits(y) && AllDigits(m) && AllDigits(d)
    requires rest == [] || (rest[0] == ' ' && !IsSpace(rest[|rest| - 1]))
    ensures ParseDateRaises(Some(s)) == FormattedRaises(s)
  {
    IsoStripped(y, m, d, rest);
    RaisesTrimmed(s);
  }

  /** The format chain on an ISO text raises exactly when `int()` reads the day and the day
      does not fit a C `int`. */
  lemma FormattedIsoRaises(s: string, y: string, m: string, d: string, rest: string)
    requires s == y + ['-'] + m + ['-'] + d + rest
    requires |y| == 4 && 1 <= |m| <= 2 && 1 <= |d|
    requires AllDigits(y) && AllDigits(m) && AllDigits(d)
    requires rest == [] || rest[0] == ' '
    ensures FormattedRaises(s) <==> |d| <= MaxStrDigits && DigitsValue(d) > IntMax
  {
    IsoShapeHolds(y, m, d, rest);
    IsoRaisesPieces(y, m, d, rest);
    assert s[..4] == y && s[4] == '-';
    IsoNotDayMonthYear(s);
    IsoBranchRaises(s);
  }

  /** `2024-01-10000000000` has the ISO shape and a day no C `int` holds: `parse_date`
      raises on it. */
  lemma IsoDayOverflow()
    ensures ParseDateRaises(Some("2024-01-10000000000"))
  {
    var d := "10000000000";
    DigitsLowerBound(d);
    assert Pow10(10) == 10000000000;
    assert "2024-01-10000000000" == "2024" + ['-'] + "01" + ['-'] + d + [];
    ParseIsoDate("2024-01-10000000000", "2024", "01", d, []);
  }

  /** An ISO date whose day has more than `MaxStrDigits` digits, such as `2024-01-` followed
      by 4300 zeros and a `5`: `int()` raises ValueError on the day, the ISO branch catches
      it, and `parse_date` returns None without raising. */
  lemma IsoDayTooLong(d: string)
    requires AllDigits(d) && |d| > MaxStrDigits
    ensures ParseDate(Some("2024-01-" + d)) == None && !ParseDateRaises(Some("2024-01-" + d))
  {
    assert "2024-01-" + d == "2024" + ['-'] + "01" + ['-'] + d + [];
    ParseIsoDate("2024-01-" + d, "2024", "01", d, []);
  }

  lemma IsoNotSerial(y: string, m: string, d: string, rest: string)
    requires |y| == 4 && 1 <= |m| <= 2 && 1 <= |d|
    requires AllDigits(y) && AllDigits(m) && AllDigits(d)
    requires rest == [] || (rest[0] == ' ' && !IsSpace(rest[|rest| - 1]))
    ensures var s := y + ['-'] + m + ['-'] + d + rest;
      Strip(s) == s && s !in Sentinels && SerialDate(s) == None
  {
    IsoTrimmed(y, m, d, rest);
    SerialRejectsIso(y + ['-'] + m + ['-'] + d + rest);
  }

  lemma IsoTrimmed(y: string, m: string, d: string, rest: string)
    requires |y| == 4 && 1 <= |m| <= 2 && 1 <= |d|
    requires AllDigits(y) && AllDigits(m) && AllDigits(d)
    requires rest == [] || (rest[0] == ' ' && !IsSpace(rest[|rest| - 1]))
    ensures var s := y + ['-'] + m + ['-'] + d + rest;
      && Strip(s) == s && s !in Sentinels
      && |s| > 4 && AllDigits(s[..4]) && s[4] == '-' && !IsSpace(s[|s| - 1])
  {
    var s := y + ['-'] + m + ['-'] + d + rest;
    assert s[0] == y[0] && s[..4] == y && s[4] == '-';
    assert s[|s| - 1] == if rest == [] then d[|d| - 1] else rest[|rest| - 1];
    NotSentinel(s);
    StripNoop(s);
  }

  /** A plain digit string matches none of the written formats. */
  lemma FormattedDigits(s: string)
    requires |s| > 0 && AllDigits(s)
    ensures FormattedDate(s) == None
  {
    DigitsExclude(s, '/');
    DigitsExclude(s, '-');
    SplitSingle(s, '/');
    SplitSingle(s, '-');
  }

  /** A whole number n is read as a serial day count: the epoch plus n days when
      0 < n < 50000, and None otherwise. */
  lemma ParseSerialDigits(s: string)
    requires |s| > 0 && AllDigits(s)
    ensures var n := DigitsValue(s);
      ParseDate(Some(s)) == if 0 < n < SerialLimit then Some(SerialDay(n)) else None
  {
    NotSentinel(s);
    DigitsBare(s);
    ParseDateTrimmed(s);
    FormattedDigits(s);
    SerialDigits(s);
  }

  lemma SerialDigits(s: string)
    requires |s| > 0 && AllDigits(s)
    ensures var n := DigitsValue(s);
      SerialDate(s) == if 0 < n < SerialLimit then Some(SerialDay(n)) else None
  {
    ParseFloatDigits(s);
    SerialOfWhole(DigitsValue(s));
  }

  lemma SerialOfWhole(n: nat)
    ensures SerialFromFloat(Some(Finite(n as real))) == if 0 < n < SerialLimit then Some(SerialDay(n)) else None
  {
    if 0 < n < SerialLimit {
      assert (n as real * MicrosPerDay as real).Floor == n * MicrosPerDay;
    }
  }

  /** The day of a fractional serial is its whole part, or the next day when the
      fraction falls within half a microsecond of midnight. */
  lemma SerialOffsetNearFloor(x: real)
    requires 0.0 < x < SerialLimit as real
    ensures var d := SerialOffset(x);
      || d == x.Floor
      || (d == x.Floor + 1 && d as real - x <= 0.5 / MicrosPerDay as real)
  {
    var k := MicrosPerDay;
    var us := RoundHalfEven(x * k as real);
    var d := us / k;
    assert d * k <= us < d * k + k;
    var n := x.Floor;
    assert n as real <= x < n as real + 1.0;
    assert n * k <= us <= n * k + k by {
      assert (n * k) as real <= x * k as real < (n * k + k) as real;
    }
    if us < n * k + k {
      assert d == n;
    } else {
      assert us == (n + 1) * k;
      assert d == n + 1;
      assert (d * k) as real - x * k as real <= 0.5;
    }
  }

  /** `timedelta(days=1.999999999999999)` rounds to two whole days: the serial parses as
      1900-01-01, not as the 1899-12-31 of its whole part. */
  lemma SerialRoundsUp()
    ensures SerialFromFloat(Some(Finite(1.999999999999999))) == Some(Date(1900, 1, 1))
  {
    assert SerialOffset(1.999999999999999) == 2;
    assert SerialDay(2) == NextDay(SerialDay(1));
    SerialDayOne();
  }

  /** Serial day 1 is 1899-12-31. */
  lemma SerialOne()
    ensures ParseDate(Some("1")) == Some(Date(1899, 12, 31))
  {
    assert DigitsValue("1") == 1;
    ParseSerialDigits("1");
    SerialDayOne();
  }

  lemma SerialDayOne()
    ensures SerialDay(1) == Date(1899, 12, 31)
  {
    assert SerialDay(1) == NextDay(SerialEpoch);
  }

  /** A negative whole number matches no written format and is not a positive serial. */
  lemma ParseSerialNegative(t: string)
    requires |t| > 1 && t[0] == '-' && AllDigits(t[1..])
    ensures ParseDate(Some(t)) == None
  {
    NegativeTrimmed(t);
    FormattedNegative(t);
    SerialNegative(t);
    ParseDateTrimmed(t);
  }

  lemma NegativeTrimmed(t: string)
    requires |t| > 1 && t[0] == '-' && AllDigits(t[1..])
    ensures Strip(t) == t && t !in Sentinels
  {
    assert t[|t| - 1] == t[1..][|t| - 2];
    StripNoop(t);
  }

  lemma FormattedNegative(t: string)
    requires |t| > 1 && t[0] == '-' && AllDigits(t[1..])
    ensures FormattedDate(t) == None
  {
    assert '/' !in t by {
      DigitsExclude(t[1..], '/');
      forall i | 1 <= i < |t| ensures t[i] != '/' { assert t[i] == t[1..][i - 1]; }
    }
    SplitSingle(t, '/');
    assert IndexOf(t, '-') == 0;
    SplitFirst(t, '-');
  }

  lemma SerialNegative(t: string)
    requires |t| > 1 && t[0] == '-' && AllDigits(t[1..])
    ensures SerialDate(t) == None
  {
    var f := Some(Finite(-(DigitsValue(t[1..]) as real)));
    assert ParseFloat(t) == f by {
      ParseFloatNegativeDigits(t);
      assert t[|t| - 1] == t[1..][|t| - 2];
      ParseFloatOfUnspaced(t, f);
    }
    SerialOfNonPositive(f);
  }

  lemma SerialOfNonPositive(f: Option<Float>)
    requires f.Some? && f.value.Finite? && f.value.value <= 0.0
    ensures SerialFromFloat(f) == None
  {
  }

  /** The expiry date rendered `DD/MM/YYYY` reads back as the same date. */
  lemma DayMonthYearRoundTrip(d: Date)
    requires ValidDate(d)
    ensures ParseDate(Some(FormatDayMonthYear(d))) == Some(d)
  {
    PadExact(d.day, 2);
    PadExact(d.month, 2);
    PadExact(d.year, 4);
    assert FormatDayMonthYear(d) == Two(d.day) + ['/'] + Two(d.month) + ['/'] + Year4(d.year);
    ParseDayMonthYear(Two(d.day), Two(d.month), Year4(d.year), '/');
  }

  /** A date rendered `YYYY-MM-DD` reads back as the same date. */
  lemma IsoRoundTrip(d: Date)
    requires ValidDate(d)
    ensures ParseDate(Some(FormatIso(d))) == Some(d)
  {
    PadExact(d.day, 2);
    PadExact(d.month, 2);
    PadExact(d.year, 4);
    var s := FormatIso(d);
    assert s == Year4(d.year) + ['-'] + Two(d.month) + ['-'] + Two(d.day) + [];
    ParseIsoDate(s, Year4(d.year), Two(d.month), Two(d.day), []);
  }
}
