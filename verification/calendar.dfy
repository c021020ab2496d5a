/**
 * Proleptic Gregorian calendar dates, the day before a date, and the
 * `YYYY-MM-DD` rendering used for the end of the order date range
 * (the full-date form of section 5.6 of RFC 3339, with the month lengths and
 * leap-year rule of section 5.7 of RFC 3339).
 */
module Calendar {
  import opened Options

  /** The year range of Python's `datetime.date`. */
  const MinYear: int := 1
  const MaxYear: int := 9999

  datatype Date = Date(year: int, month: int, day: int)

  /** The earliest representable date, whose predecessor does not exist. */
  const FirstDate: Date := Date(MinYear, 1, 1)

  predicate IsLeapYear(y: int) {
    y % 4 == 0 && (y % 100 != 0 || y % 400 == 0)
  }

  function DaysInMonth(y: int, m: int): (n: int)
    requires 1 <= m <= 12
    ensures 28 <= n <= 31
    ensures m == 2 ==> (n == 29 <==> IsLeapYear(y))
  {
    if m == 2 then (if IsLeapYear(y) then 29 else 28)
    else if m == 4 || m == 6 || m == 9 || m == 11 then 30
    else 31
  }

  function DaysInYear(y: int): int {
    if IsLeapYear(y) then 366 else 365
  }

  predicate Valid(d: Date) {
    && MinYear <= d.year <= MaxYear
    && 1 <= d.month <= 12
    && 1 <= d.day <= DaysInMonth(d.year, d.month)
  }

  /** Chronological order of dates: year, then month, then day. */
  predicate Before(a: Date, b: Date) {
    || a.year < b.year
    || (a.year == b.year && a.month < b.month)
    || (a.year == b.year && a.month == b.month && a.day < b.day)
  }

  // ---------------------------------------------------------------------
  // Day numbers: the reference count of days, with FirstDate as day 1.
  // Python's `datetime` subtracts a `timedelta` of one day by stepping this
  // proleptic ordinal (its `toordinal`) down by one.
  // ---------------------------------------------------------------------

  function DaysBeforeYear(y: int): nat
    decreases y
  {
    if y <= MinYear then 0 else DaysBeforeYear(y - 1) + DaysInYear(y - 1)
  }

  function DaysBeforeMonth(y: int, m: int): nat
    requires 1 <= m <= 12
  {
    if m == 1 then 0 else DaysBeforeMonth(y, m - 1) + DaysInMonth(y, m - 1)
  }

  function DayNumber(d: Date): int
    requires Valid(d)
  {
    DaysBeforeYear(d.year) + DaysBeforeMonth(d.year, d.month) + d.day
  }

  /** The days before December plus December's 31 days fill the year. */
  lemma DecemberClosesYear(y: int)
    ensures DaysBeforeMonth(y, 12) + 31 == DaysInYear(y)
  {
    var feb := DaysInMonth(y, 2);
    assert DaysBeforeMonth(y, 2) == 31;
    assert DaysBeforeMonth(y, 3) == 31 + feb;
    assert DaysBeforeMonth(y, 4) == 62 + feb;
    assert DaysBeforeMonth(y, 5) == 92 + feb;
    assert DaysBeforeMonth(y, 6) == 123 + feb;
    assert DaysBeforeMonth(y, 7) == 153 + feb;
    assert DaysBeforeMonth(y, 8) == 184 + feb;
    assert DaysBeforeMonth(y, 9) == 215 + feb;
    assert DaysBeforeMonth(y, 10) == 245 + feb;
    assert DaysBeforeMonth(y, 11) == 276 + feb;
    assert DaysBeforeMonth(y, 12) == 306 + feb;
  }

  // ---------------------------------------------------------------------
  // The day before
  // ---------------------------------------------------------------------

  /**
   * The calendar day immediately before `d`, or `None` when `d` is the first
   * representable date (Python's `datetime` raises `OverflowError` there).
   */
  function Yesterday(d: Date): (r: Option<Date>)
    requires Valid(d)
    ensures r.None? <==> d == FirstDate
    ensures r.Some? ==> Valid(r.value) && Before(r.value, d)
    ensures r.Some? ==> forall e :: Valid(e) && Before(e, d) ==> !Before(r.value, e)
  {
    if d.day > 1 then Some(Date(d.year, d.month, d.day - 1))
    else if d.month > 1 then Some(Date(d.year, d.month - 1, DaysInMonth(d.year, d.month - 1)))
    else if d.year > MinYear then Some(Date(d.year - 1, 12, 31))
    else None
  }

  /** Only the first date has day number 1. */
  lemma DayNumberOne(d: Date)
    requires Valid(d)
    ensures DayNumber(d) == 1 <==> d == FirstDate
  {
  }

  /** Stepping back one day lowers the day number by exactly one, and only day 1 has no predecessor. */
  lemma YesterdayIsPreviousDayNumber(d: Date)
    requires Valid(d)
    ensures Yesterday(d).None? <==> DayNumber(d) == 1
    ensures Yesterday(d).Some? ==> DayNumber(Yesterday(d).value) == DayNumber(d) - 1
  {
    DayNumberOne(d);
    var y, m := d.year, d.month;
    if d.day == 1 && m > 1 {
      assert DaysBeforeMonth(y, m) == DaysBeforeMonth(y, m - 1) + DaysInMonth(y, m - 1);
    } else if d.day == 1 && y > MinYear {
      assert DaysBeforeYear(y) == DaysBeforeYear(y - 1) + DaysInYear(y - 1);
      DecemberClosesYear(y - 1);
    }
  }

  // ---------------------------------------------------------------------
  // YYYY-MM-DD rendering and its inverse
  // ---------------------------------------------------------------------

  predicate IsDigit(c: char) {
    '0' <= c <= '9'
  }

  function DigitChar(k: int): (c: char)
    requires 0 <= k <= 9
    ensures IsDigit(c) && DigitValue(c) == k
  {
    ('0' as int + k) as char
  }

  function DigitValue(c: char): int {
    c as int - '0' as int
  }

  /** `n` as exactly two decimal digits, zero padded. */
  function Pad2(n: int): (s: string)
    requires 0 <= n <= 99
    ensures |s| == 2 && IsDigit(s[0]) && IsDigit(s[1])
    ensures 10 * DigitValue(s[0]) + DigitValue(s[1]) == n
  {
    [DigitChar(n / 10), DigitChar(n % 10)]
  }

  /** `n` as exactly four decimal digits, zero padded. */
  function Pad4(n: int): (s: string)
    requires 0 <= n <= 9999
    ensures |s| == 4 && forall i :: 0 <= i < 4 ==> IsDigit(s[i])
    ensures 1000 * DigitValue(s[0]) + 100 * DigitValue(s[1]) + 10 * DigitValue(s[2]) + DigitValue(s[3]) == n
  {
    var tens := n / 10;
    var hundreds := tens / 10;
    [DigitChar(hundreds / 10), DigitChar(hundreds % 10), DigitChar(tens % 10), DigitChar(n % 10)]
  }

  function FormatDate(d: Date): (s: string)
    requires Valid(d)
    ensures |s| == 10 && s[4] == '-' && s[7] == '-'
    ensures forall i :: 0 <= i < 10 && i != 4 && i != 7 ==> IsDigit(s[i])
  {
    Pad4(d.year) + "-" + Pad2(d.month) + "-" + Pad2(d.day)
  }

  /** Reads a `YYYY-MM-DD` string back into a date; `None` for anything else. */
  function ParseDate(s: string): (r: Option<Date>)
    ensures r.Some? ==> Valid(r.value)
  {
    if |s| == 10 && s[4] == '-' && s[7] == '-'
       && (forall i :: 0 <= i < 10 && i != 4 && i != 7 ==> IsDigit(s[i]))
    then
      var d := Date(
        1000 * DigitValue(s[0]) + 100 * DigitValue(s[1]) + 10 * DigitValue(s[2]) + DigitValue(s[3]),
        10 * DigitValue(s[5]) + DigitValue(s[6]),
        10 * DigitValue(s[8]) + DigitValue(s[9]));
      if Valid(d) then Some(d) else None
    else None
  }

  lemma FormatDateRoundTrip(d: Date)
    requires Valid(d)
    ensures ParseDate(FormatDate(d)) == Some(d)
  {
  }

  /** Distinct dates render as distinct strings, so comparing renderings compares dates. */
  lemma FormatDateInjective(a: Date, b: Date)
    requires Valid(a) && Valid(b)
    ensures FormatDate(a) == FormatDate(b) <==> a == b
  {
    if FormatDate(a) == FormatDate(b) {
      FormatDateRoundTrip(a);
      FormatDateRoundTrip(b);
    }
  }
}
