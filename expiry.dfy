/**
 * The expiry calculator: strict parsing of "YYYY-MM-DD" text, the expiry-date
 * validation rule exactly as the C++ code writes it, and the day offset between a
 * reference day and an expiry day.  A date is mapped to a civil day number, so the
 * "days to expiry" of the source (a seconds difference between two midnights divided
 * by 86400) becomes an exact integer difference.
 */
module Expiry {
  import opened Wrappers

  datatype Date = Date(year: int, month: int, day: int)

  // ---------------------------------------------------------------- calendar

  /** Gregorian leap-year rule (is_leap_year). */
  predicate IsLeapYear(year: int) {
    (year % 4 == 0 && year % 100 != 0) || year % 400 == 0
  }

  function DaysInYear(year: int): int {
    if IsLeapYear(year) then 366 else 365
  }

  function DaysInMonth(year: int, month: int): int
    requires 1 <= month <= 12
  {
    if month == 2 then (if IsLeapYear(year) then 29 else 28)
    else if month == 4 || month == 6 || month == 9 || month == 11 then 30
    else 31
  }

  /** A real day of the proleptic Gregorian calendar. */
  predicate IsCalendarDate(d: Date) {
    d.year >= 1 && 1 <= d.month <= 12 && 1 <= d.day <= DaysInMonth(d.year, d.month)
  }

  /** Lexicographic order of (year, month, day). */
  predicate Before(a: Date, b: Date) {
    a.year < b.year
    || (a.year == b.year && a.month < b.month)
    || (a.year == b.year && a.month == b.month && a.day < b.day)
  }

  /** The calendar day that follows d. */
  function NextDay(d: Date): (r: Date)
    requires IsCalendarDate(d)
    ensures IsCalendarDate(r) && Before(d, r)
  {
    if d.day < DaysInMonth(d.year, d.month) then Date(d.year, d.month, d.day + 1)
    else if d.month < 12 then Date(d.year, d.month + 1, 1)
    else Date(d.year + 1, 1, 1)
  }

  // ------------------------------------------------------------- day numbers

  /** Days in the years 1 .. year-1. */
  function DaysBeforeYear(year: int): int
    requires year >= 1
  {
    365 * (year - 1) + (year - 1) / 4 - (year - 1) / 100 + (year - 1) / 400
  }

  /** Days in the months 1 .. month-1 of the given year. */
  function DaysBeforeMonth(year: int, month: int): int
    requires 1 <= month <= 12
  {
    [0, 31, 59, 90, 120, 151, 181, 212, 243, 273, 304, 334][month - 1]
      + (if month > 2 && IsLeapYear(year) then 1 else 0)
  }

  /**
   * Day number of a date, counting 0001-01-01 as day 1.  The day of the month is
   * added linearly, so a day past the end of its month (2023-04-31, which the
   * validation admits) lands on the following month's day, as mktime normalises it.
   */
  function DayNumber(d: Date): int
    requires d.year >= 1 && 1 <= d.month <= 12
  {
    DaysBeforeYear(d.year) + DaysBeforeMonth(d.year, d.month) + d.day
  }

  /** How many multiples of 4, 100 and 400 the year itself adds to 1 .. year-1. */
  lemma MultiplesStep(n: int)
    requires n >= 1
    ensures n / 4 - (n - 1) / 4 == (if n % 4 == 0 then 1 else 0)
    ensures n / 100 - (n - 1) / 100 == (if n % 100 == 0 then 1 else 0)
    ensures n / 400 - (n - 1) / 400 == (if n % 400 == 0 then 1 else 0)
  {
  }

  lemma DaysBeforeYearStep(year: int)
    requires year >= 1
    ensures DaysBeforeYear(year + 1) == DaysBeforeYear(year) + DaysInYear(year)
  {
    var n := year;
    MultiplesStep(n);
    var a, b, c := n / 4 - (n - 1) / 4, n / 100 - (n - 1) / 100, n / 400 - (n - 1) / 400;
    assert DaysBeforeYear(n + 1) - DaysBeforeYear(n) == 365 + a - b + c;
    assert DaysInYear(n) == 365 + a - b + c by {
      if n % 400 == 0 {
        assert n % 100 == 0 && n % 4 == 0;
      } else if n % 100 == 0 {
        assert n % 4 == 0;
      }
    }
  }

  lemma {:induction false} DaysBeforeYearMonotone(y1: int, y2: int)
    requires 1 <= y1 < y2
    ensures DaysBeforeYear(y1) + DaysInYear(y1) <= DaysBeforeYear(y2)
    decreases y2 - y1
  {
    DaysBeforeYearStep(y1);
    if y1 + 1 < y2 {
      DaysBeforeYearMonotone(y1 + 1, y2);
    }
  }

  lemma DaysBeforeMonthStep(year: int, month: int)
    requires 1 <= month < 12
    ensures DaysBeforeMonth(year, month + 1) == DaysBeforeMonth(year, month) + DaysInMonth(year, month)
  {
  }

  lemma DaysBeforeMonthMonotone(year: int, m1: int, m2: int)
    requires 1 <= m1 < m2 <= 12
    ensures DaysBeforeMonth(year, m1) + DaysInMonth(year, m1) <= DaysBeforeMonth(year, m2)
  {
  }

  lemma DaysBeforeMonthEnd(year: int)
    ensures DaysBeforeMonth(year, 12) + DaysInMonth(year, 12) == DaysInYear(year)
  {
  }

  /** Consecutive calendar days have consecutive day numbers. */
  lemma DayNumberNextDay(d: Date)
    requires IsCalendarDate(d)
    ensures DayNumber(NextDay(d)) == DayNumber(d) + 1
  {
    if d.day == DaysInMonth(d.year, d.month) {
      if d.month < 12 {
        DaysBeforeMonthStep(d.year, d.month);
      } else {
        DaysBeforeYearStep(d.year);
        DaysBeforeMonthEnd(d.year);
      }
    }
  }

  lemma DayNumberBefore(a: Date, b: Date)
    requires IsCalendarDate(a) && IsCalendarDate(b) && Before(a, b)
    ensures DayNumber(a) < DayNumber(b)
  {
    if a.year < b.year {
      if a.month < 12 {
        DaysBeforeMonthMonotone(a.year, a.month, 12);
      }
      DaysBeforeMonthEnd(a.year);
      DaysBeforeYearMonotone(a.year, b.year);
    } else if a.month < b.month {
      DaysBeforeMonthMonotone(a.year, a.month, b.month);
    }
  }

  /** On real calendar days the day number is an order isomorphism. */
  lemma DayNumberOrder(a: Date, b: Date)
    requires IsCalendarDate(a) && IsCalendarDate(b)
    ensures Before(a, b) <==> DayNumber(a) < DayNumber(b)
    ensures a == b <==> DayNumber(a) == DayNumber(b)
  {
    if Before(a, b) {
      DayNumberBefore(a, b);
    } else if Before(b, a) {
      DayNumberBefore(b, a);
    }
  }

  // ----------------------------------------------------------------- parsing

  predicate IsDigit(c: char) {
    '0' <= c <= '9'
  }

  function DigitValue(c: char): int
    requires IsDigit(c)
  {
    c as int - '0' as int
  }

  function DigitChar(n: int): char
    requires 0 <= n <= 9
  {
    ('0' as int + n) as char
  }

  /** Exactly ten characters: four digits, '-', two digits, '-', two digits. */
  predicate IsDateText(s: string) {
    |s| == 10 && s[4] == '-' && s[7] == '-'
    && IsDigit(s[0]) && IsDigit(s[1]) && IsDigit(s[2]) && IsDigit(s[3])
    && IsDigit(s[5]) && IsDigit(s[6]) && IsDigit(s[8]) && IsDigit(s[9])
  }

  /** The fields of a "YYYY-MM-DD" text, or None when the text has another shape. */
  function ParseDate(s: string): (r: Option<Date>)
    ensures r.Some? <==> IsDateText(s)
    ensures r.Some? ==> 0 <= r.value.year <= 9999 && 0 <= r.value.month <= 99 && 0 <= r.value.day <= 99
  {
    if IsDateText(s) then
      Some(Date(
        1000 * DigitValue(s[0]) + 100 * DigitValue(s[1]) + 10 * DigitValue(s[2]) + DigitValue(s[3]),
        10 * DigitValue(s[5]) + DigitValue(s[6]),
        10 * DigitValue(s[8]) + DigitValue(s[9])))
    else None
  }

  predicate Printable(d: Date) {
    0 <= d.year <= 9999 && 0 <= d.month <= 99 && 0 <= d.day <= 99
  }

  /** Zero-padded "YYYY-MM-DD" rendering of a date (dateToString at day granularity). */
  function FormatDate(d: Date): (s: string)
    requires Printable(d)
    ensures IsDateText(s)
  {
    [ DigitChar(d.year / 10 / 10 / 10), DigitChar(d.year / 10 / 10 % 10), DigitChar(d.year / 10 % 10),
      DigitChar(d.year % 10), '-', DigitChar(d.month / 10), DigitChar(d.month % 10), '-',
      DigitChar(d.day / 10), DigitChar(d.day % 10) ]
  }

  lemma DivMod10(q: int, r: int)
    requires 0 <= r < 10
    ensures (10 * q + r) / 10 == q && (10 * q + r) % 10 == r
  {
  }

  lemma DigitRoundTrip(n: int, c: char)
    requires 0 <= n <= 9 && IsDigit(c)
    ensures DigitValue(DigitChar(n)) == n
    ensures DigitChar(DigitValue(c)) == c
  {
  }

  lemma ParseFormat(d: Date)
    requires Printable(d)
    ensures ParseDate(FormatDate(d)) == Some(d)
  {
    var s := FormatDate(d);
    var y := d.year;
    var q1, q2, q3 := y / 10, y / 10 / 10, y / 10 / 10 / 10;
    assert y == 10 * q1 + y % 10;
    assert q1 == 10 * q2 + q1 % 10;
    assert q2 == 10 * q3 + q2 % 10;
    DigitRoundTrip(q3, '0');
    DigitRoundTrip(q2 % 10, '0');
    DigitRoundTrip(q1 % 10, '0');
    DigitRoundTrip(y % 10, '0');
    DigitRoundTrip(d.month / 10, '0');
    DigitRoundTrip(d.month % 10, '0');
    DigitRoundTrip(d.day / 10, '0');
    DigitRoundTrip(d.day % 10, '0');
    assert ParseDate(s).value.year == 1000 * q3 + 100 * (q2 % 10) + 10 * (q1 % 10) + y % 10;
  }

  lemma FormatParse(s: string)
    requires IsDateText(s)
    ensures Printable(ParseDate(s).value) && FormatDate(ParseDate(s).value) == s
  {
    var d := ParseDate(s).value;
    var a, b, c, e := DigitValue(s[0]), DigitValue(s[1]), DigitValue(s[2]), DigitValue(s[3]);
    assert d.year == 10 * (10 * (10 * a + b) + c) + e;
    DivMod10(10 * (10 * a + b) + c, e);
    DivMod10(10 * a + b, c);
    DivMod10(a, b);
    DivMod10(0, a);
    DivMod10(DigitValue(s[5]), DigitValue(s[6]));
    DivMod10(0, DigitValue(s[5]));
    DivMod10(DigitValue(s[8]), DigitValue(s[9]));
    DivMod10(0, DigitValue(s[8]));
    var t := FormatDate(d);
    forall i | 0 <= i < 10
      ensures t[i] == s[i]
    {
      if i != 4 && i != 7 {
        DigitRoundTrip(0, s[i]);
      }
    }
  }

  // -------------------------------------------------------------- validation

  /** The field checks of validate_expiry_date, with its February clause as written. */
  predicate AcceptedFields(d: Date) {
    d.year >= 1900 && 1 <= d.month <= 12 && 1 <= d.day <= 31
    && (d.month != 2 || (d.day <= 29 && IsLeapYear(d.year)))
  }

  predicate ValidateExpiryDate(s: string) {
    match ParseDate(s)
    case None => false
    case Some(d) => AcceptedFields(d)
  }

  /**
   * What the rule accepts, measured against the real calendar: every real day
   * from 1900 on outside a non-leap February, no day of a non-leap February, and as
   * its only non-calendar days the 31st of April, June, September and November.
   */
  lemma AcceptedFieldsVersusCalendar(d: Date)
    ensures IsCalendarDate(d) && d.year >= 1900 && (d.month != 2 || IsLeapYear(d.year)) ==> AcceptedFields(d)
    ensures d.month == 2 && !IsLeapYear(d.year) ==> !AcceptedFields(d)
    ensures AcceptedFields(d) && !IsCalendarDate(d) <==>
              AcceptedFields(d) && d.day == 31 && (d.month == 4 || d.month == 6 || d.month == 9 || d.month == 11)
  {
  }

  lemma ValidateFormatted(d: Date)
    requires Printable(d)
    ensures ValidateExpiryDate(FormatDate(d)) <==> AcceptedFields(d)
  {
    ParseFormat(d);
  }

  // ---------------------------------------------------------- days to expiry

  /**
   * compute_days_to_expiry: -1 for a text the validation rejects, otherwise the
   * number of whole days from the reference day to the expiry day.
   */
  function DaysToExpiry(expiry: string, today: Date): (r: int)
    requires IsCalendarDate(today)
    ensures !ValidateExpiryDate(expiry) ==> r == -1
    ensures ValidateExpiryDate(expiry) && ParseDate(expiry).value == today ==> r == 0
  {
    if !ValidateExpiryDate(expiry) then -1
    else DayNumber(ParseDate(expiry).value) - DayNumber(today)
  }

  /** The documented sign convention, for an expiry day of the real calendar. */
  lemma DaysToExpirySign(expiry: string, today: Date)
    requires IsCalendarDate(today) && ValidateExpiryDate(expiry)
    requires IsCalendarDate(ParseDate(expiry).value)
    ensures var e := ParseDate(expiry).value;
            && (DaysToExpiry(expiry, today) > 0 <==> Before(today, e))
            && (DaysToExpiry(expiry, today) == 0 <==> e == today)
            && (DaysToExpiry(expiry, today) < 0 <==> Before(e, today))
  {
    DayNumberOrder(today, ParseDate(expiry).value);
    DayNumberOrder(ParseDate(expiry).value, today);
  }

  /** One more day of shelf life one day later on the calendar. */
  lemma DaysToExpiryNextDay(e: Date, today: Date)
    requires IsCalendarDate(today) && IsCalendarDate(e) && Printable(NextDay(e))
    requires AcceptedFields(e) && AcceptedFields(NextDay(e))
    ensures DaysToExpiry(FormatDate(NextDay(e)), today) == DaysToExpiry(FormatDate(e), today) + 1
  {
    ParseFormat(e);
    ParseFormat(NextDay(e));
    DayNumberNextDay(e);
  }

  // ---------------------------------------------------------- test vectors

  lemma ValidateAccepts()
    ensures ValidateExpiryDate("2023-12-31") && ValidateExpiryDate("2025-01-01")
    ensures ValidateExpiryDate("2024-02-29")
  {
    assert ParseDate("2023-12-31") == Some(Date(2023, 12, 31));
    assert ParseDate("2025-01-01") == Some(Date(2025, 1, 1));
    assert ParseDate("2024-02-29") == Some(Date(2024, 2, 29));
  }

  lemma ValidateRejects()
    ensures !ValidateExpiryDate("2021-02-29") && !ValidateExpiryDate("2023-13-01")
    ensures !ValidateExpiryDate("2023-12-32") && !ValidateExpiryDate("abcd-ef-gh")
  {
    assert ParseDate("2021-02-29") == Some(Date(2021, 2, 29));
    assert ParseDate("2023-13-01") == Some(Date(2023, 13, 1));
    assert ParseDate("2023-12-32") == Some(Date(2023, 12, 32));
    assert !IsDigit('a');
  }

  /** The combined February clause: any non-leap February is refused, April 31 is not. */
  lemma ValidateFebruaryClause()
    ensures !ValidateExpiryDate("2023-02-10") && ValidateExpiryDate("2023-04-31")
  {
    assert ParseDate("2023-02-10") == Some(Date(2023, 2, 10));
    assert ParseDate("2023-04-31") == Some(Date(2023, 4, 31));
  }

  lemma DaysToExpiryWithinMonth()
    ensures DaysToExpiry("2024-02-04", Date(2024, 2, 4)) == 0
    ensures DaysToExpiry("2024-02-10", Date(2024, 2, 4)) == 6
    ensures DaysToExpiry("2024-02-01", Date(2024, 2, 4)) == -3
  {
    assert ParseDate("2024-02-04") == Some(Date(2024, 2, 4));
    assert ParseDate("2024-02-10") == Some(Date(2024, 2, 10));
    assert ParseDate("2024-02-01") == Some(Date(2024, 2, 1));
  }

  lemma DaysToExpiryAcrossMonths()
    ensures DaysToExpiry("2024-05-31", Date(2024, 6, 30)) == -30
    ensures DaysToExpiry("2023-04-31", Date(2023, 5, 1)) == 0
    ensures DaysToExpiry("2021-02-29", Date(2021, 3, 1)) == -1
  {
    assert ParseDate("2024-05-31") == Some(Date(2024, 5, 31));
    assert ParseDate("2023-04-31") == Some(Date(2023, 4, 31));
    assert ParseDate("2021-02-29") == Some(Date(2021, 2, 29));
  }

  lemma DaysToExpiryAcrossYears()
    ensures DaysToExpiry("2023-12-31", Date(2024, 6, 28)) == -180
  {
    assert ParseDate("2023-12-31") == Some(Date(2023, 12, 31));
    DaysBeforeYearStep(2023);
    assert DayNumber(Date(2023, 12, 31)) == DaysBeforeYear(2023) + 365;
    assert DayNumber(Date(2024, 6, 28)) == DaysBeforeYear(2024) + 180;
  }
}
