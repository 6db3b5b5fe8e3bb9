/** The proleptic Gregorian calendar the pipeline's dates live in.

    Records carry their day as a day number (days since 0001-01-01), so that
    "the next day" is `d + 1`; the requested window is given as civil dates,
    whose year and month select the year files to read. */
module Calendar {

  datatype Date = Date(year: int, month: int, day: int)

  predicate IsLeapYear(y: int) {
    y % 4 == 0 && (y % 100 != 0 || y % 400 == 0)
  }

  function DaysInMonth(y: int, m: int): (n: int)
    requires 1 <= m <= 12
    ensures 28 <= n <= 31
  {
    if m == 2 then (if IsLeapYear(y) then 29 else 28)
    else if m == 4 || m == 6 || m == 9 || m == 11 then 30
    else 31
  }

  function DaysInYear(y: int): int {
    if IsLeapYear(y) then 366 else 365
  }

  /** A date with a four-digit year, a month and a day of that month. */
  predicate ValidDate(d: Date) {
    1 <= d.year <= 9999 && 1 <= d.month <= 12 && 1 <= d.day <= DaysInMonth(d.year, d.month)
  }

  type CivilDate = d: Date | ValidDate(d) witness Date(2000, 1, 1)

  /** Days of year `y` that precede the first of month `m`. */
  function DaysBeforeMonth(y: int, m: int): (n: int)
    requires 1 <= m <= 12
    ensures 0 <= n
    ensures n + DaysInMonth(y, m) <= DaysInYear(y)
  {
    var leap := if m > 2 && IsLeapYear(y) then 1 else 0;
    match m
    case 1 => 0
    case 2 => 31
    case 3 => 59 + leap
    case 4 => 90 + leap
    case 5 => 120 + leap
    case 6 => 151 + leap
    case 7 => 181 + leap
    case 8 => 212 + leap
    case 9 => 243 + leap
    case 10 => 273 + leap
    case 11 => 304 + leap
    case 12 => 334 + leap
  }

  /** Days from 0001-01-01 to the first of January of year `y`. */
  function DaysBeforeYear(y: int): (n: int)
    requires 1 <= y
    decreases y
  {
    if y == 1 then 0 else DaysBeforeYear(y - 1) + DaysInYear(y - 1)
  }

  /** The day number of a civil date: 0001-01-01 is day 0. */
  function DayNumber(d: CivilDate): int {
    DaysBeforeYear(d.year) + DaysBeforeMonth(d.year, d.month) + d.day - 1
  }

  /** Lexicographic order on (year, month, day): the order in which the
      zero-padded "YYYY-MM-DD" strings of the dates compare. */
  predicate Before(a: Date, b: Date) {
    a.year < b.year
    || (a.year == b.year && a.month < b.month)
    || (a.year == b.year && a.month == b.month && a.day < b.day)
  }

  lemma {:induction false} DaysBeforeYearGrows(a: int, b: int)
    requires 1 <= a < b
    ensures DaysBeforeYear(a) + DaysInYear(a) <= DaysBeforeYear(b)
    decreases b - a
  {
    if a + 1 < b {
      DaysBeforeYearGrows(a + 1, b);
      DaysBeforeYearGrows(a, a + 1);
    }
  }

  lemma DayNumberRespectsBefore(a: CivilDate, b: CivilDate)
    requires Before(a, b)
    ensures DayNumber(a) < DayNumber(b)
  {
    if a.year < b.year {
      DaysBeforeYearGrows(a.year, b.year);
    } else if a.month < b.month {
      assert DaysBeforeMonth(a.year, a.month) + DaysInMonth(a.year, a.month) <= DaysBeforeMonth(a.year, b.month);
    }
  }

  /** Comparing day numbers is comparing dates: the window filter of the
      pipeline, written on ISO date strings, keeps the same rows as one
      written on day numbers. */
  lemma DayNumberOrder(a: CivilDate, b: CivilDate)
    ensures Before(a, b) <==> DayNumber(a) < DayNumber(b)
    ensures a == b <==> DayNumber(a) == DayNumber(b)
  {
    if Before(a, b) {
      DayNumberRespectsBefore(a, b);
    } else if Before(b, a) {
      DayNumberRespectsBefore(b, a);
    }
  }

  /** First year file `get_daily_weather` reads: a January start also reads
      the previous year. */
  function StartYear(start: CivilDate): (y: int)
    ensures y == start.year - 1 <==> start.month == 1
    ensures y == start.year <==> start.month != 1
  {
    if start.month == 1 then start.year - 1 else start.year
  }

  /** Last year file `get_daily_weather` reads: a December end also reads
      the next year. */
  function EndYear(end: CivilDate): (y: int)
    ensures y == end.year + 1 <==> end.month == 12
    ensures y == end.year <==> end.month != 12
  {
    if end.month == 12 then end.year + 1 else end.year
  }
}
