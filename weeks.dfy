/**
 * Week numberings of the proleptic Gregorian calendar:
 *  - the ISO 8601 week date (ISO 8601:2004 section 4.1.4: weeks start on
 *    Monday and week 1 is the week containing the year's first Thursday),
 *    computed as Python's `date.isocalendar()` does;
 *  - the C99 `%W` numbering (section 7.23.3.5 of ISO/IEC 9899:1999: weeks
 *    start on Monday, week 1 starts on the year's first Monday, earlier days
 *    are in week 0), as `strftime('%W')` prints it;
 *  - the inverse `%W` reading of `strptime('%Y-%W-%w')` with weekday 1.
 */
module WeekNumbering {
  import opened Wrappers
  import opened Calendar

  /** Ordinal of the Monday that starts ISO week 1 of the year whose January 1st has ordinal `first`. */
  function Week1MondayAfter(first: int): int {
    var fw := Weekday(first);
    if fw > 3 then first - fw + 7 else first - fw
  }

  /** `_isoweek1monday(y)`: ordinal of the Monday that starts ISO week 1 of year y. */
  function Week1Monday(y: int): int {
    Week1MondayAfter(JanFirst(y))
  }

  /** The ISO week of a day: its week-numbering year, week (1-based) and weekday (Monday = 1). */
  datatype IsoDate = IsoDate(year: int, week: int, weekday: int)

  /**
   * The body of `date.isocalendar()` for the day `today` of calendar year y,
   * given the week-1 Mondays of years y - 1, y and y + 1.
   */
  function IsoWeekDate(y: int, today: int, w0: int, w1: int, w2: int): IsoDate {
    var week := (today - w1) / 7;
    var day := (today - w1) % 7;
    if week < 0 then
      IsoDate(y - 1, (today - w0) / 7 + 1, (today - w0) % 7 + 1)
    else if week >= 52 && today >= w2 then
      IsoDate(y + 1, 1, day + 1)
    else
      IsoDate(y, week + 1, day + 1)
  }

  /** `date.isocalendar()`. */
  function IsoCalendar(d: Date): IsoDate
    requires 1 <= d.month <= 12
  {
    IsoWeekDate(d.year, Ordinal(d), Week1Monday(d.year - 1), Week1Monday(d.year), Week1Monday(d.year + 1))
  }

  /** `Timestamp.week`, the ISO week number of a date. */
  function IsoWeek(d: Date): (w: int)
    requires Valid(d)
    ensures 1 <= w <= 53
  {
    IsoCalendarSpec(d);
    IsoCalendar(d).week
  }

  /** ISO week 1 starts on a Monday and contains January 4th (hence the year's first Thursday). */
  lemma Week1MondayAfterSpec(first: int)
    ensures Weekday(Week1MondayAfter(first)) == 0
    ensures Week1MondayAfter(first) <= first + 3 < Week1MondayAfter(first) + 7
  {
  }

  lemma Week1MondaySpec(y: int)
    ensures Weekday(Week1Monday(y)) == 0
    ensures Week1Monday(y) <= Ordinal(Date(y, 1, 4)) < Week1Monday(y) + 7
  {
    Week1MondayAfterSpec(JanFirst(y));
  }

  /** Two Mondays are a whole number of weeks apart. */
  lemma MondaysApart(a: int, b: int)
    requires Weekday(a) == 0 && Weekday(b) == 0
    ensures (b - a) % 7 == 0
  {
    assert a + 6 == 7 * ((a + 6) / 7);
    assert b + 6 == 7 * ((b + 6) / 7);
    assert b - a == 7 * ((b + 6) / 7 - (a + 6) / 7);
  }

  /** An ISO year following a year of 365 or 366 days is 52 or 53 weeks long. */
  lemma Week1MondayGap(first: int, next: int)
    requires 365 <= next - first <= 366
    ensures var gap := Week1MondayAfter(next) - Week1MondayAfter(first); gap == 364 || gap == 371
  {
    Week1MondayAfterSpec(first);
    Week1MondayAfterSpec(next);
    MondaysApart(Week1MondayAfter(first), Week1MondayAfter(next));
  }

  /** The days from a Monday to a day: whole weeks, and the day's weekday. */
  lemma WeeksFromMonday(today: int, w: int)
    requires Weekday(w) == 0
    ensures today == w + 7 * ((today - w) / 7) + (today - w) % 7
    ensures (today - w) % 7 == Weekday(today)
  {
    var q, k := (w + 6) / 7, (today + 6) / 7;
    assert w + 6 == 7 * q;
    assert today - w == 7 * (k - q) + Weekday(today);
  }

  /** A day before ISO week 1 of its calendar year belongs to the last week of the previous ISO year. */
  lemma IsoWeekDateBefore(y: int, today: int, w0: int, w1: int, w2: int)
    requires Weekday(w0) == 0 && (w1 - w0 == 364 || w1 - w0 == 371)
    requires w1 - 4 < today < w1
    ensures var iso := IsoWeekDate(y, today, w0, w1, w2);
      && iso.year == y - 1 && 1 <= iso.week <= 53 && iso.weekday == Weekday(today) + 1
      && w0 <= today && today == w0 + 7 * (iso.week - 1) + (iso.weekday - 1)
  {
    assert (today - w1) / 7 < 0;
    WeeksFromMonday(today, w0);
  }

  /** A day on or after ISO week 1 of the next calendar year belongs to week 1 of the next ISO year. */
  lemma IsoWeekDateAfter(y: int, today: int, w0: int, w1: int, w2: int)
    requires Weekday(w2) == 0 && (w2 - w1 == 364 || w2 - w1 == 371)
    requires w2 <= today < w2 + 4
    ensures var iso := IsoWeekDate(y, today, w0, w1, w2);
      && iso.year == y + 1 && iso.week == 1 && iso.weekday == Weekday(today) + 1
      && today == w2 + (iso.weekday - 1)
  {
    WeeksFromMonday(today, w2);
    assert (today - w2) / 7 == 0;
    assert today - w1 == 7 * ((w2 - w1) / 7) + (today - w2);
    assert (today - w1) / 7 >= 52 && (today - w1) % 7 == today - w2;
  }

  /** A day between the ISO week 1 of its calendar year and the next one belongs to its own ISO year. */
  lemma IsoWeekDateWithin(y: int, today: int, w0: int, w1: int, w2: int)
    requires Weekday(w1) == 0 && (w2 - w1 == 364 || w2 - w1 == 371)
    requires w1 <= today < w2
    ensures var iso := IsoWeekDate(y, today, w0, w1, w2);
      && iso.year == y && 1 <= iso.week <= 53 && iso.weekday == Weekday(today) + 1
      && today == w1 + 7 * (iso.week - 1) + (iso.weekday - 1)
  {
    WeeksFromMonday(today, w1);
  }

  /** The arithmetic of `isocalendar()` on plain ordinals. */
  lemma IsoWeekDateSpec(y: int, today: int, j0: int, j1: int, j2: int, j3: int)
    requires 365 <= j1 - j0 <= 366 && 365 <= j2 - j1 <= 366 && 365 <= j3 - j2 <= 366
    requires j1 <= today < j2
    ensures var w0, w1, w2, w3 := Week1MondayAfter(j0), Week1MondayAfter(j1), Week1MondayAfter(j2), Week1MondayAfter(j3);
      var iso := IsoWeekDate(y, today, w0, w1, w2);
      && y - 1 <= iso.year <= y + 1
      && 1 <= iso.week <= 53
      && iso.weekday == Weekday(today) + 1
      && (iso.year == y - 1 ==> w0 <= today < w1 && today == w0 + 7 * (iso.week - 1) + (iso.weekday - 1))
      && (iso.year == y ==> w1 <= today < w2 && today == w1 + 7 * (iso.week - 1) + (iso.weekday - 1))
      && (iso.year == y + 1 ==> w2 <= today < w3 && today == w2 + 7 * (iso.week - 1) + (iso.weekday - 1))
  {
    var w0, w1, w2 := Week1MondayAfter(j0), Week1MondayAfter(j1), Week1MondayAfter(j2);
    Week1MondayAfterSpec(j1);
    Week1MondayAfterSpec(j2);
    Week1MondayGap(j1, j2);
    if today < w1 {
      Week1MondayAfterSpec(j0);
      Week1MondayGap(j0, j1);
      IsoWeekDateBefore(y, today, w0, w1, w2);
    } else if today < w2 {
      IsoWeekDateWithin(y, today, w0, w1, w2);
    } else {
      Week1MondayGap(j2, j3);
      IsoWeekDateAfter(y, today, w0, w1, w2);
    }
  }

  /** `date.isocalendar()` in terms of the ordinals of January 1st of the years around the date's. */
  lemma IsoCalendarUnfold(d: Date)
    requires 1 <= d.month <= 12
    ensures IsoCalendar(d) == IsoWeekDate(d.year, Ordinal(d), Week1MondayAfter(JanFirst(d.year - 1)),
                                          Week1MondayAfter(JanFirst(d.year)), Week1MondayAfter(JanFirst(d.year + 1)))
  {
  }

  /** A valid date lies in its calendar year, and each of the four years around it has 365 or 366 days. */
  lemma YearStarts(d: Date)
    requires Valid(d)
    ensures JanFirst(d.year) <= Ordinal(d) < JanFirst(d.year + 1)
    ensures 365 <= JanFirst(d.year) - JanFirst(d.year - 1) <= 366
    ensures 365 <= JanFirst(d.year + 1) - JanFirst(d.year) <= 366
    ensures 365 <= JanFirst(d.year + 2) - JanFirst(d.year + 1) <= 366
  {
    OrdinalInYear(d);
    YearGap(d.year - 1, d.year);
    YearGap(d.year, d.year + 1);
    YearGap(d.year + 1, d.year + 2);
  }

  /** Consecutive New Year's Days are 365 or 366 days apart. */
  lemma YearGap(y: int, next: int)
    requires next == y + 1
    ensures 365 <= JanFirst(next) - JanFirst(y) <= 366
  {
    YearLength(y);
  }

  /**
   * `isocalendar()` places every valid date of year y in the ISO year y - 1,
   * y or y + 1 whose week 1 starts on or before it and whose successor's
   * week 1 starts after it, at the week and weekday that its distance from
   * that week 1 gives.
   */
  lemma IsoCalendarSpec(d: Date)
    requires Valid(d)
    ensures var iso, n := IsoCalendar(d), Ordinal(d);
      && d.year - 1 <= iso.year <= d.year + 1
      && 1 <= iso.week <= 53
      && iso.weekday == Weekday(n) + 1
      && (iso.year == d.year - 1 ==> Week1Monday(d.year - 1) <= n < Week1Monday(d.year)
                                     && n == Week1Monday(d.year - 1) + 7 * (iso.week - 1) + (iso.weekday - 1))
      && (iso.year == d.year ==> Week1Monday(d.year) <= n < Week1Monday(d.year + 1)
                                 && n == Week1Monday(d.year) + 7 * (iso.week - 1) + (iso.weekday - 1))
      && (iso.year == d.year + 1 ==> Week1Monday(d.year + 1) <= n < Week1Monday(d.year + 2)
                                     && n == Week1Monday(d.year + 1) + 7 * (iso.week - 1) + (iso.weekday - 1))
  {
    var y := d.year;
    YearStarts(d);
    IsoWeekDateSpec(y, Ordinal(d), JanFirst(y - 1), JanFirst(y), JanFirst(y + 1), JanFirst(y + 2));
    IsoCalendarUnfold(d);
  }

  /** A day between its own year's week-1 Monday and the next year's is in its own ISO year, at the week its distance gives. */
  lemma IsoWeekWithinYear(d: Date)
    requires Valid(d) && Week1Monday(d.year) <= Ordinal(d) < Week1Monday(d.year + 1)
    ensures IsoCalendar(d).year == d.year
    ensures Ordinal(d) == Week1Monday(d.year) + 7 * (IsoWeek(d) - 1) + Weekday(Ordinal(d))
  {
    IsoCalendarSpec(d);
  }

  // ---------------------------------------------------------------------
  // The C99 %W numbering and its strptime inverse

  /** Ordinal of the first Monday on or after January 1st (ordinal `jan`), where `%W` week 1 starts. */
  function FirstMondayAfter(jan: int): int {
    jan + (7 - Weekday(jan)) % 7
  }

  function FirstMonday(y: int): int {
    FirstMondayAfter(JanFirst(y))
  }

  /** The `%W` week of day n of the year whose January 1st is day `jan`. */
  function MondayWeekOf(n: int, jan: int): int {
    (n - jan + 7 - Weekday(n)) / 7
  }

  /** `strftime('%W')`: the Monday-based week of the year, 0 before the first Monday. */
  function MondayWeek(d: Date): (w: int)
    requires Valid(d)
    ensures 0 <= w <= 53
  {
    OrdinalInYear(d);
    YearLength(d.year);
    MondayWeekOf(Ordinal(d), JanFirst(d.year))
  }

  lemma MondayWeekArith(n: int, jan: int)
    requires jan <= n
    ensures n - Weekday(n) == FirstMondayAfter(jan) + 7 * (MondayWeekOf(n, jan) - 1)
    ensures MondayWeekOf(n, jan) == 0 ==> 1 <= Weekday(jan)
  {
    var mon := n - Weekday(n);
    var f := FirstMondayAfter(jan);
    assert mon + 6 == 7 * ((n + 6) / 7);
    assert f + 6 == 7 * ((f + 6) / 7);
    var k := (n + 6) / 7 - (f + 6) / 7;
    assert mon - f == 7 * k;
    assert mon - jan + 7 == 7 * (k + 1) + (f - jan);
  }

  /** The Monday that starts a date's `%W` week lies 7 days per week from the year's first Monday. */
  lemma MondayWeekForm(d: Date)
    requires Valid(d)
    ensures Ordinal(d) - Weekday(Ordinal(d)) == FirstMonday(d.year) + 7 * (MondayWeek(d) - 1)
    ensures MondayWeek(d) == 0 ==> 1 <= Weekday(JanFirst(d.year))
  {
    OrdinalInYear(d);
    MondayWeekArith(Ordinal(d), JanFirst(d.year));
  }

  /**
   * `_calc_julian_from_U_or_W(y, week, 0, True)` for the year whose January
   * 1st is day `jan`: the day of the year (1 is January 1st; it may be below
   * 1 or beyond the year's end) of the Monday of `%W` week `week`.
   */
  function WeekMondayJulian(jan: int, week: int): int {
    var j := Weekday(jan);
    if week == 0 then 1 - j else 1 + (7 - j) % 7 + 7 * (week - 1)
  }

  lemma WeekMondayJulianArith(jan: int, week: int)
    requires 0 <= week
    ensures Weekday(jan - 1 + WeekMondayJulian(jan, week)) == 0
    ensures week >= 1 ==> jan - 1 + WeekMondayJulian(jan, week) == FirstMondayAfter(jan) + 7 * (week - 1)
    ensures week == 0 && 1 <= Weekday(jan) ==> jan - 1 + WeekMondayJulian(jan, week) == FirstMondayAfter(jan) - 7
  {
    var j := Weekday(jan);
    assert jan + 6 == 7 * ((jan + 6) / 7) + j;
  }

  /**
   * `datetime.strptime(str(y) + '-' + str(week) + '-1', '%Y-%W-%w')`.
   * The `%Y` field takes exactly four digits and the `%W` field a number in
   * 0..53; any other year or week does not match the format. A Monday that
   * falls into the previous year is moved there with its day count kept, so
   * the date is the ordinal of January 1st plus the julian day minus one;
   * a date beyond 9999-12-31 is out of range. Every failure is a ValueError.
   */
  function ParseYearWeekMonday(y: int, week: int): (r: Option<Date>)
    ensures r.Some? <==> 1000 <= y <= 9999 && 0 <= week <= 53
                         && JanFirst(y) - 1 + WeekMondayJulian(JanFirst(y), week) <= MaxOrdinal
    ensures r.Some? ==> Valid(r.value) && Weekday(Ordinal(r.value)) == 0
    ensures r.Some? ==> Ordinal(r.value) == JanFirst(y) - 1 + WeekMondayJulian(JanFirst(y), week)
    ensures r.Some? && week >= 1 ==> Ordinal(r.value) == FirstMonday(y) + 7 * (week - 1)
  {
    if !(1000 <= y <= 9999 && 0 <= week <= 53) then None
    else
      var n := JanFirst(y) - 1 + WeekMondayJulian(JanFirst(y), week);
      ParsedMonday(y, week, n);
      if n > MaxOrdinal then None
      else
        var monday := FromOrdinal(n);
        assert Ordinal(monday) == n;
        Some(monday)
  }

  /** The day the parser computes for a four-digit year is a Monday after the first day of the calendar. */
  lemma ParsedMonday(y: int, week: int, n: int)
    requires 1000 <= y && 0 <= week
    requires n == JanFirst(y) - 1 + WeekMondayJulian(JanFirst(y), week)
    ensures 1 <= n && Weekday(n) == 0
    ensures week >= 1 ==> n == FirstMonday(y) + 7 * (week - 1)
  {
    DaysBeforeYearMonotone(1, y);
    WeekMondayJulianArith(JanFirst(y), week);
  }

  /**
   * Reading back the `%W` week that `strftime` prints gives the Monday that
   * starts the date's week: `strptime` inverts `strftime('%W')`.
   */
  lemma ParseMondayWeek(d: Date)
    requires Valid(d) && 1000 <= d.year
    ensures ParseYearWeekMonday(d.year, MondayWeek(d)).Some?
    ensures var m := ParseYearWeekMonday(d.year, MondayWeek(d)).value;
      Ordinal(m) == Ordinal(d) - Weekday(Ordinal(d))
  {
    ParsedWeekStart(d);
  }

  /** The day the parser computes from a date's year and `%W` week is the Monday starting the date's week. */
  lemma ParsedWeekStart(d: Date)
    requires Valid(d)
    ensures JanFirst(d.year) - 1 + WeekMondayJulian(JanFirst(d.year), MondayWeek(d)) == Ordinal(d) - Weekday(Ordinal(d))
    ensures Ordinal(d) <= MaxOrdinal
  {
    OrdinalBounds(d);
    MondayWeekForm(d);
    WeekMondayJulianArith(JanFirst(d.year), MondayWeek(d));
  }

  lemma Week1MondayVersusFirstMonday(jan: int)
    ensures Week1MondayAfter(jan) == FirstMondayAfter(jan) - (if 1 <= Weekday(jan) <= 3 then 7 else 0)
  {
  }

  /**
   * Within its own ISO year, a date's ISO week is its `%W` week, plus one
   * when January 1st falls on a Tuesday, Wednesday or Thursday (then ISO
   * week 1 starts in the previous December while `%W` week 1 starts on the
   * first Monday of January).
   */
  lemma IsoWeekVersusMondayWeek(d: Date)
    requires Valid(d) && IsoCalendar(d).year == d.year
    ensures IsoWeek(d) == MondayWeek(d) + (if 1 <= Weekday(JanFirst(d.year)) <= 3 then 1 else 0)
  {
    IsoCalendarSpec(d);
    MondayWeekForm(d);
    Week1MondayVersusFirstMonday(JanFirst(d.year));
  }
}
