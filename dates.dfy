/**
 * Calendar dates as `datetime.date` has them (years 1 to 9999, Gregorian
 * leap years), the next-day step of `date + timedelta(days=1)`, and the
 * parsers `datetime.strptime` applies for the formats `%d/%m/%Y`,
 * `%d/%m/%y` and `%Y-%m-%d`, plus the `YYYY-MM-DD` form of
 * `date.fromisoformat`.
 *
 * CPython's `strptime` matches the directives with the regular expressions
 * `%d = 3[01]|[12]\d|0[1-9]|[1-9]| [1-9]`, `%m = 1[0-2]|0[1-9]|[1-9]`,
 * `%Y = \d\d\d\d`, `%y = \d\d`, requires the match to cover the whole
 * string, and then rejects a day beyond the end of the month.  Because no
 * field can contain the separator character, a string is accepted exactly
 * when its separator-delimited pieces are tokens of those forms.
 */
module Dates {
  import opened Wrappers
  import opened Strings

  datatype CivilDate = CivilDate(year: int, month: int, day: int)

  predicate IsLeap(y: int) { y % 4 == 0 && (y % 100 != 0 || y % 400 == 0) }

  function DaysInMonth(y: int, m: int): (n: int)
    requires 1 <= m <= 12
    ensures 28 <= n <= 31
  {
    if m == 2 then (if IsLeap(y) then 29 else 28)
    else if m == 4 || m == 6 || m == 9 || m == 11 then 30
    else 31
  }

  /** The dates `datetime.date` can represent. */
  predicate Valid(d: CivilDate) {
    1 <= d.year <= 9999 && 1 <= d.month <= 12 && 1 <= d.day <= DaysInMonth(d.year, d.month)
  }

  /** Chronological order, which for valid dates is the lexicographic order on (year, month, day). */
  predicate Less(a: CivilDate, b: CivilDate) {
    a.year < b.year || (a.year == b.year && (a.month < b.month || (a.month == b.month && a.day < b.day)))
  }

  predicate LessEq(a: CivilDate, b: CivilDate) { a == b || Less(a, b) }

  /** A key that grows with the date; used as a termination measure for day loops. */
  function Rank(d: CivilDate): int { d.year * 512 + d.month * 32 + d.day }

  lemma LessRank(a: CivilDate, b: CivilDate)
    requires Valid(a) && Valid(b)
    ensures Less(a, b) <==> Rank(a) < Rank(b)
  {
  }

  /** `date.max`: adding a day to it raises `OverflowError`. */
  const MaxDate := CivilDate(9999, 12, 31)

  /** `d + timedelta(days=1)`: the valid date right after `d`. */
  function NextDay(d: CivilDate): (r: CivilDate)
    requires Valid(d) && d != MaxDate
    ensures Valid(r) && Less(d, r)
    ensures forall x :: Valid(x) && Less(d, x) ==> LessEq(r, x)
  {
    if d.day < DaysInMonth(d.year, d.month) then CivilDate(d.year, d.month, d.day + 1)
    else if d.month < 12 then CivilDate(d.year, d.month + 1, 1)
    else CivilDate(d.year + 1, 1, 1)
  }

  // ---------------------------------------------------------------------------
  // strptime fields
  // ---------------------------------------------------------------------------

  /** The text `t` read as the `%d` directive: `01`..`31`, `1`..`9` or a space and `1`..`9`. */
  function DayToken(t: string): (r: Option<int>)
    ensures r.Some? ==> 1 <= r.value <= 31
  {
    if |t| == 2 && IsDigit(t[0]) && IsDigit(t[1]) && 1 <= DigitsValue(t) <= 31 then Some(DigitsValue(t))
    else if |t| == 1 && IsDigit(t[0]) && t[0] != '0' then Some(DigitValue(t[0]))
    else if |t| == 2 && t[0] == ' ' && IsDigit(t[1]) && t[1] != '0' then Some(DigitValue(t[1]))
    else None
  }

  /** The text `t` read as the `%m` directive: `01`..`12` or `1`..`9`. */
  function MonthToken(t: string): (r: Option<int>)
    ensures r.Some? ==> 1 <= r.value <= 12
  {
    if |t| == 2 && IsDigit(t[0]) && IsDigit(t[1]) && 1 <= DigitsValue(t) <= 12 then Some(DigitsValue(t))
    else if |t| == 1 && IsDigit(t[0]) && t[0] != '0' then Some(DigitValue(t[0]))
    else None
  }

  /** The two digits of `%y`: 69..99 are 1969..1999, 00..68 are 2000..2068. */
  function TwoDigitYear(v: nat): int {
    if v < 69 then 2000 + v else 1900 + v
  }

  /** `%y` gives back a year exactly when the year lies in 1969..2068. */
  lemma TwoDigitYearWindow(y: int)
    requires 1 <= y
    ensures 1969 <= TwoDigitYear(y % 100) <= 2068
    ensures TwoDigitYear(y % 100) == y <==> 1969 <= y <= 2068
  {
    if 1969 <= y < 2000 {
      assert y % 100 == y - 1900;
    } else if 2000 <= y <= 2068 {
      assert y % 100 == y - 2000;
    }
  }

  /** The date with these fields, if `datetime.date` accepts it. */
  function MakeDate(y: int, m: int, d: int): (r: Option<CivilDate>)
    ensures r.Some? ==> Valid(r.value) && r.value == CivilDate(y, m, d)
    ensures r.None? ==> !Valid(CivilDate(y, m, d))
  {
    if Valid(CivilDate(y, m, d)) then Some(CivilDate(y, m, d)) else None
  }

  /** `datetime.strptime(s, "%d/%m/%Y").date()` (or `%y` when `shortYear`), `None` where it raises. */
  function ParseDayMonthYear(s: string, shortYear: bool): (r: Option<CivilDate>)
    ensures r.Some? ==> Valid(r.value)
  {
    var parts := Split(s, "/");
    if |parts| != 3 then None
    else
      var d := DayToken(parts[0]);
      var m := MonthToken(parts[1]);
      var y := parts[2];
      if d.None? || m.None? then None
      else if !shortYear && |y| == 4 && AllDigits(y) then MakeDate(DigitsValue(y), m.value, d.value)
      else if shortYear && |y| == 2 && AllDigits(y) then MakeDate(TwoDigitYear(DigitsValue(y)), m.value, d.value)
      else None
  }

  /** `datetime.strptime(s, "%Y-%m-%d").date()`, `None` where it raises. */
  function ParseYearMonthDay(s: string): (r: Option<CivilDate>)
    ensures r.Some? ==> Valid(r.value)
  {
    if |s| < 5 || !AllDigits(s[..4]) || s[4] != '-' then None
    else
      var parts := Split(s[5..], "-");
      if |parts| != 2 then None
      else
        var m := MonthToken(parts[0]);
        var d := DayToken(parts[1]);
        if d.None? || m.None? then None
        else MakeDate(DigitsValue(s[..4]), m.value, d.value)
  }

  /** The `YYYY-MM-DD` form of `date.fromisoformat`. */
  function ParseIsoDate(s: string): (r: Option<CivilDate>)
    ensures r.Some? ==> Valid(r.value)
  {
    if |s| == 10 && s[4] == '-' && s[7] == '-' && AllDigits(s[..4]) && AllDigits(s[5..7]) && AllDigits(s[8..])
    then MakeDate(DigitsValue(s[..4]), DigitsValue(s[5..7]), DigitsValue(s[8..]))
    else None
  }

  /** A time of day as `fromisoformat` reads it here: `HH:MM` or `HH:MM:SS`, in range. */
  predicate IsoTime(t: string) {
    && (|t| == 5 || (|t| == 8 && t[5] == ':' && AllDigits(t[6..]) && DigitsValue(t[6..]) < 60))
    && t[2] == ':' && AllDigits(t[..2]) && AllDigits(t[3..5])
    && DigitsValue(t[..2]) < 24 && DigitsValue(t[3..5]) < 60
  }

  /**
   * `datetime.fromisoformat(s).date()`: a `YYYY-MM-DD` date alone, or
   * followed by one separator character and an `IsoTime`.
   */
  function ParseIsoDateTime(s: string): (r: Option<CivilDate>)
    ensures r.Some? ==> Valid(r.value)
  {
    if |s| == 10 then ParseIsoDate(s)
    else if |s| > 10 && IsoTime(s[11..]) then ParseIsoDate(s[..10])
    else None
  }

  // ---------------------------------------------------------------------------
  // Formatting, and the round trips with the parsers
  // ---------------------------------------------------------------------------

  function Pad4(n: nat): (s: string)
    requires n < 10000
    ensures |s| == 4 && AllDigits(s) && DigitsValue(s) == n
  {
    var s := Pad2(n / 100) + Pad2(n % 100);
    DigitsValueAppend2(Pad2(n / 100), Pad2(n % 100));
    s
  }

  lemma DigitsValueSnoc(a: string, c: char)
    requires AllDigits(a) && IsDigit(c)
    ensures AllDigits(a + [c]) && DigitsValue(a + [c]) == DigitsValue(a) * 10 + DigitValue(c)
  {
    assert (a + [c])[..|a|] == a;
  }

  lemma DigitsValueAppend2(a: string, b: string)
    requires AllDigits(a) && AllDigits(b) && |b| == 2
    ensures AllDigits(a + b) && DigitsValue(a + b) == DigitsValue(a) * 100 + DigitsValue(b)
  {
    DigitsValueSnoc(a, b[0]);
    DigitsValueSnoc(a + [b[0]], b[1]);
    assert a + b == a + [b[0]] + [b[1]];
    assert b[..1] == [b[0]] && [b[0]][..0] == [];
    assert b[..|b| - 1] == [b[0]];
    assert DigitsValue([b[0]]) == DigitValue(b[0]);
    assert DigitsValue(b) == DigitValue(b[0]) * 10 + DigitValue(b[1]);
    var v := DigitsValue(a);
    assert (v * 10 + DigitValue(b[0])) * 10 == v * 100 + DigitValue(b[0]) * 10;
  }

  /** `f"{d:%d/%m/%Y}"`. */
  function FormatDayMonthYear(d: CivilDate): string
    requires Valid(d)
  {
    Pad2(d.day) + "/" + Pad2(d.month) + "/" + Pad4(d.year)
  }

  /** `f"{d:%Y-%m-%d}"`, also what `date.isoformat()` gives. */
  function FormatIso(d: CivilDate): string
    requires Valid(d)
  {
    Pad4(d.year) + "-" + Pad2(d.month) + "-" + Pad2(d.day)
  }

  lemma DayTokenOfPad2(d: int)
    requires 1 <= d <= 31
    ensures DayToken(Pad2(d)) == Some(d)
  {
  }

  lemma MonthTokenOfPad2(m: int)
    requires 1 <= m <= 12
    ensures MonthToken(Pad2(m)) == Some(m)
  {
  }

  /** Reading back a date written as `DD/MM/YYYY` gives the date. */
  lemma ParseFormatDayMonthYear(d: CivilDate)
    requires Valid(d)
    ensures ParseDayMonthYear(FormatDayMonthYear(d), false) == Some(d)
  {
    var dd, mm, yy := Pad2(d.day), Pad2(d.month), Pad4(d.year);
    assert FormatDayMonthYear(d) == dd + ['/'] + (mm + ['/'] + yy);
    SplitAfterFree(dd, '/', mm + ['/'] + yy);
    SplitAfterFree(mm, '/', yy);
    SplitFree(yy, '/');
    DayTokenOfPad2(d.day);
    MonthTokenOfPad2(d.month);
  }

  /** The ISO form contains no slash, so the day-first parsers reject it. */
  lemma IsoHasNoSlash(d: CivilDate)
    requires Valid(d)
    ensures Split(FormatIso(d), "/") == [FormatIso(d)]
    ensures ParseDayMonthYear(FormatIso(d), false) == None
    ensures ParseDayMonthYear(FormatIso(d), true) == None
  {
    var b := FormatIso(d);
    assert forall i :: 0 <= i < |b| ==> b[i] != '/';
    SplitFree(b, '/');
  }

  /** Reading back a date written as `YYYY-MM-DD` gives the date, with either parser. */
  lemma ParseFormatIso(d: CivilDate)
    requires Valid(d)
    ensures ParseYearMonthDay(FormatIso(d)) == Some(d)
    ensures ParseIsoDate(FormatIso(d)) == Some(d)
  {
    var s := FormatIso(d);
    var yy, mm, dd := Pad4(d.year), Pad2(d.month), Pad2(d.day);
    assert s[..4] == yy && s[5..] == mm + ['-'] + dd;
    assert s[5..7] == mm && s[8..] == dd;
    SplitAfterFree(mm, '-', dd);
    SplitFree(dd, '-');
    DayTokenOfPad2(d.day);
    MonthTokenOfPad2(d.month);
  }
}
