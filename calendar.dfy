/**
 * The proleptic Gregorian calendar (ISO 8601:2004 section 3.2.1) as Python's
 * `datetime` implements it: day ordinals counted from 0001-01-01 = 1,
 * Monday-based weekdays, the conversion back from an ordinal, and the fixed
 * range of representable years 1..9999.
 */
module Calendar {

  datatype Date = Date(year: int, month: int, day: int)

  const MinYear: int := 1
  const MaxYear: int := 9999

  predicate IsLeapYear(y: int) {
    y % 4 == 0 && (y % 100 != 0 || y % 400 == 0)
  }

  function DaysInYear(y: int): int {
    if IsLeapYear(y) then 366 else 365
  }

  function DaysInMonth(y: int, m: int): (n: int)
    requires 1 <= m <= 12
    ensures 28 <= n <= 31
  {
    if m == 2 then (if IsLeapYear(y) then 29 else 28)
    else if m == 4 || m == 6 || m == 9 || m == 11 then 30
    else 31
  }

  /** A date `datetime.date` accepts. */
  predicate Valid(d: Date) {
    MinYear <= d.year <= MaxYear && 1 <= d.month <= 12 && 1 <= d.day <= DaysInMonth(d.year, d.month)
  }

  type ValidDate = d: Date | Valid(d) witness Date(2015, 7, 31)

  /** Number of days in the years 1 .. y-1. */
  function DaysBeforeYear(y: int): int {
    var p := y - 1;
    365 * p + p / 4 - p / 100 + p / 400
  }

  /** Number of days in year y before the first day of month m. */
  function DaysBeforeMonth(y: int, m: int): int
    requires 1 <= m <= 12
  {
    [0, 31, 59, 90, 120, 151, 181, 212, 243, 273, 304, 334][m - 1]
      + (if m > 2 && IsLeapYear(y) then 1 else 0)
  }

  /** `date.toordinal()`: 0001-01-01 is day 1. */
  function Ordinal(d: Date): int
    requires 1 <= d.month <= 12
  {
    DaysBeforeYear(d.year) + DaysBeforeMonth(d.year, d.month) + d.day
  }

  /** The ordinal of 9999-12-31, the last day `datetime` can represent. */
  const MaxOrdinal: int := 3652059

  /** `date.weekday()` of the day with ordinal n: Monday is 0, Sunday is 6. */
  function Weekday(n: int): (w: int)
    ensures 0 <= w < 7
  {
    (n + 6) % 7
  }

  /** A week earlier is the same weekday. */
  lemma WeekdayWeekEarlier(n: int)
    ensures Weekday(n - 7) == Weekday(n)
  {
    var q := (n + 6) / 7;
    assert n - 7 + 6 == 7 * (q - 1) + Weekday(n);
  }

  /** Ordinal of January 1st of year y. */
  function JanFirst(y: int): int {
    DaysBeforeYear(y) + 1
  }

  // ---------------------------------------------------------------------
  // Arithmetic facts about the year and month tables

  lemma YearLength(y: int)
    ensures DaysBeforeYear(y + 1) == DaysBeforeYear(y) + DaysInYear(y)
  {
    var p := y - 1;
    assert (p + 1) / 4 - p / 4 == (if (p + 1) % 4 == 0 then 1 else 0);
    assert (p + 1) / 100 - p / 100 == (if (p + 1) % 100 == 0 then 1 else 0);
    assert (p + 1) / 400 - p / 400 == (if (p + 1) % 400 == 0 then 1 else 0);
  }

  lemma {:induction false} DaysBeforeYearMonotone(a: int, b: int)
    requires a <= b
    ensures DaysBeforeYear(a) + 365 * (b - a) <= DaysBeforeYear(b)
    decreases b - a
  {
    if a < b {
      YearLength(a);
      DaysBeforeYearMonotone(a + 1, b);
    }
  }

  lemma MonthLength(y: int, m: int)
    requires 1 <= m <= 12
    ensures m < 12 ==> DaysBeforeMonth(y, m + 1) == DaysBeforeMonth(y, m) + DaysInMonth(y, m)
    ensures m == 12 ==> DaysBeforeMonth(y, m) + DaysInMonth(y, m) == DaysInYear(y)
  {
  }

  lemma {:induction false} DaysBeforeMonthMonotone(y: int, a: int, b: int)
    requires 1 <= a < b <= 12
    ensures DaysBeforeMonth(y, a) + DaysInMonth(y, a) <= DaysBeforeMonth(y, b)
    decreases b - a
  {
    MonthLength(y, a);
    if a + 1 < b {
      DaysBeforeMonthMonotone(y, a + 1, b);
    }
  }

  /** A valid date lies inside its own year. */
  lemma OrdinalInYear(d: Date)
    requires Valid(d)
    ensures JanFirst(d.year) <= Ordinal(d) <= DaysBeforeYear(d.year + 1)
  {
    YearLength(d.year);
    MonthLength(d.year, d.month);
    if d.month < 12 {
      DaysBeforeMonthMonotone(d.year, d.month, 12);
      MonthLength(d.year, 12);
    }
  }

  lemma MaxOrdinalIsLastDay()
    ensures Ordinal(Date(MaxYear, 12, 31)) == MaxOrdinal
    ensures DaysBeforeYear(MaxYear + 1) == MaxOrdinal
  {
  }

  // ---------------------------------------------------------------------
  // From an ordinal back to a date (`date.fromordinal`)

  /** The year containing day n, searched upwards from year y. */
  function YearOf(n: int, y: int): (r: int)
    requires DaysBeforeYear(y) < n
    ensures y <= r && DaysBeforeYear(r) < n <= DaysBeforeYear(r + 1)
    decreases n - DaysBeforeYear(y)
  {
    YearLength(y);
    if n <= DaysBeforeYear(y + 1) then y else YearOf(n, y + 1)
  }

  /** The month of year y containing its k-th day, searched upwards from m. */
  function MonthOf(y: int, k: int, m: int): (r: int)
    requires 1 <= m <= 12 && DaysBeforeMonth(y, m) < k <= DaysInYear(y)
    ensures m <= r <= 12
    ensures DaysBeforeMonth(y, r) < k <= DaysBeforeMonth(y, r) + DaysInMonth(y, r)
    decreases 12 - m
  {
    MonthLength(y, m);
    if m == 12 || k <= DaysBeforeMonth(y, m) + DaysInMonth(y, m) then m else MonthOf(y, k, m + 1)
  }

  /** January 1st of a year is its first day. */
  lemma OrdinalOfJanFirst(d: Date)
    requires d.month == 1 && d.day == 1
    ensures Ordinal(d) == JanFirst(d.year)
  {
  }

  /** No year is longer than 366 days, so the years before y have at most 366 days each. */
  lemma DaysBeforeYearAtMost(y: int)
    requires 1 <= y
    ensures DaysBeforeYear(y) <= 366 * (y - 1)
  {
    var p := y - 1;
    assert p / 400 <= p / 100 && p / 4 <= p;
  }

  /** `date.fromordinal(n)`, defined for 1 <= n <= MaxOrdinal. */
  function FromOrdinal(n: int): (d: Date)
    requires 1 <= n <= MaxOrdinal
    ensures Valid(d) && Ordinal(d) == n
  {
    // The search starts from a year that cannot be later than n's, a few years short of it.
    var start := (n - 1) / 366 + 1;
    DaysBeforeYearAtMost(start);
    var y := YearOf(n, start);
    if y > MaxYear then
      DaysBeforeYearMonotone(MaxYear + 1, y);
      assert false;
      Date(MaxYear, 12, 31)
    else
      YearLength(y);
      var k := n - DaysBeforeYear(y);
      var m := MonthOf(y, k, 1);
      Date(y, m, k - DaysBeforeMonth(y, m))
  }

  /** At most one year contains a given day. */
  lemma YearUnique(n: int, a: int, b: int)
    requires DaysBeforeYear(a) < n <= DaysBeforeYear(a + 1)
    requires DaysBeforeYear(b) < n <= DaysBeforeYear(b + 1)
    ensures a == b
  {
    if a < b {
      DaysBeforeYearMonotone(a + 1, b);
    } else if b < a {
      DaysBeforeYearMonotone(b + 1, a);
    }
  }

  /** At most one month of a year contains a given day of that year. */
  lemma MonthUnique(y: int, k: int, a: int, b: int)
    requires 1 <= a <= 12 && 1 <= b <= 12
    requires DaysBeforeMonth(y, a) < k <= DaysBeforeMonth(y, a) + DaysInMonth(y, a)
    requires DaysBeforeMonth(y, b) < k <= DaysBeforeMonth(y, b) + DaysInMonth(y, b)
    ensures a == b
  {
    if a < b {
      DaysBeforeMonthMonotone(y, a, b);
    } else if b < a {
      DaysBeforeMonthMonotone(y, b, a);
    }
  }

  /** Every valid date has an ordinal between 1 and that of 9999-12-31. */
  lemma OrdinalBounds(d: Date)
    requires Valid(d)
    ensures 1 <= Ordinal(d) <= MaxOrdinal
  {
    OrdinalInYear(d);
    DaysBeforeYearMonotone(1, d.year);
    DaysBeforeYearMonotone(d.year + 1, MaxYear + 1);
    MaxOrdinalIsLastDay();
  }

  /** Converting a valid date to its ordinal and back gives the date again. */
  lemma FromOrdinalOrdinal(d: Date)
    requires Valid(d)
    ensures 1 <= Ordinal(d) <= MaxOrdinal
    ensures FromOrdinal(Ordinal(d)) == d
  {
    var n := Ordinal(d);
    OrdinalBounds(d);
    OrdinalInYear(d);
    var e := FromOrdinal(n);
    OrdinalInYear(e);
    YearUnique(n, e.year, d.year);
    MonthUnique(d.year, n - DaysBeforeYear(d.year), e.month, d.month);
  }

  /** Two valid dates with the same ordinal are the same date. */
  lemma OrdinalInjective(d: Date, e: Date)
    requires Valid(d) && Valid(e) && Ordinal(d) == Ordinal(e)
    ensures d == e
  {
    FromOrdinalOrdinal(d);
    FromOrdinalOrdinal(e);
  }
}
