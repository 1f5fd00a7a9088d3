/**
 * `Rossmann.feature_engineering`: every cleaned row gets its date split into
 * parts, two "time since" counts measured in whole 30-day months and whole
 * weeks, and readable assortment and state-holiday names. The helper columns
 * `open`, `promo_interval` and `month_map` are dropped.
 */
module Features {
  import opened Wrappers
  import opened Calendar
  import opened WeekNumbering
  import Columns
  import Cleaning

  /** The `%Y-%W` label of a date, kept as its two numbers. */
  datatype YearWeek = YearWeek(year: int, week: int)

  /** A row after feature engineering, without the dropped columns. */
  datatype FeatureRow = FeatureRow(
    store: int,
    dayOfWeek: int,
    date: ValidDate,
    promo: int,
    stateHoliday: string,
    schoolHoliday: int,
    storeType: string,
    assortment: string,
    competitionDistance: real,
    competitionOpenSinceMonth: int,
    competitionOpenSinceYear: int,
    promo2: int,
    promo2SinceWeek: int,
    promo2SinceYear: int,
    isPromo: int,
    year: int,
    month: int,
    day: int,
    weekOfYear: int,
    yearWeek: YearWeek,
    competitionSince: ValidDate,
    competitionTimeMonth: int,
    promoSince: ValidDate,
    promoTimeWeek: int)

  // ---------------------------------------------------------------------
  // The per-row rules

  /** `datetime(year=year, month=month, day=1)`: a ValueError outside the calendar's range. */
  function CompetitionSince(year: int, month: int): (r: Result<ValidDate, Columns.RowError>)
    ensures r.Ok? <==> MinYear <= year <= MaxYear && 1 <= month <= 12
    ensures r.Ok? ==> r.value.year == year && r.value.month == month && r.value.day == 1
  {
    if MinYear <= year <= MaxYear && 1 <= month <= 12 then Ok(Date(year, month, 1))
    else Err(Columns.InvalidCompetitionSince)
  }

  /** `((date - since) / 30).days`: the whole 30-day periods between the two days, rounded down. */
  function CompetitionTimeMonth(date: ValidDate, since: ValidDate): (months: int)
    ensures 30 * months <= Ordinal(date) - Ordinal(since) < 30 * months + 30
  {
    (Ordinal(date) - Ordinal(since)) / 30
  }

  /**
   * `strptime(f"{year}-{week}-1", "%Y-%W-%w") - timedelta(days=7)`: the
   * Monday of `%W` week `week` of `year`, one week earlier.
   */
  function PromoSince(year: int, week: int): (r: Result<ValidDate, Columns.RowError>)
    ensures r.Ok? <==> ParseYearWeekMonday(year, week).Some?
    ensures r.Ok? ==> Ordinal(r.value) == Ordinal(ParseYearWeekMonday(year, week).value) - 7
                      && Weekday(Ordinal(r.value)) == 0
  {
    match ParseYearWeekMonday(year, week)
    case None => Err(Columns.InvalidPromoSince)
    case Some(monday) =>
      var n := Ordinal(monday);
      ParsedMondayAfterFirstWeek(year, week);
      WeekdayWeekEarlier(n);
      var since := FromOrdinal(n - 7);
      assert Weekday(n - 7) == 0;
      assert Ordinal(since) == n - 7;
      Ok(since)
  }

  /** A Monday the parser accepts is more than a week after the first day of the calendar. */
  lemma ParsedMondayAfterFirstWeek(year: int, week: int)
    requires ParseYearWeekMonday(year, week).Some?
    ensures Ordinal(ParseYearWeekMonday(year, week).value) > 7
  {
    DaysBeforeYearMonotone(1, year);
    assert 365 * (year - 1) >= 365 * 999;
  }

  /** `((date - since) / 7).days`: the whole weeks between the two days, rounded down. */
  function PromoTimeWeek(date: ValidDate, since: ValidDate): (weeks: int)
    ensures 7 * weeks <= Ordinal(date) - Ordinal(since) < 7 * weeks + 7
  {
    (Ordinal(date) - Ordinal(since)) / 7
  }

  /** The assortment level named by its code: `a` is basic, `b` extra, anything else extended. */
  function AssortmentName(code: string): (name: string)
    ensures name == "basic" <==> code == "a"
    ensures name == "extra" <==> code == "b"
    ensures name == "extended" <==> code != "a" && code != "b"
  {
    if code == "a" then "basic" else if code == "b" then "extra" else "extended"
  }

  /** The state holiday named by its code: `a` public, `b` Easter, `c` Christmas, anything else a regular day. */
  function StateHolidayName(code: string): (name: string)
    ensures name == "public_holiday" <==> code == "a"
    ensures name == "easter_holiday" <==> code == "b"
    ensures name == "christmas" <==> code == "c"
    ensures name == "regular_day" <==> code != "a" && code != "b" && code != "c"
  {
    if code == "a" then "public_holiday"
    else if code == "b" then "easter_holiday"
    else if code == "c" then "christmas"
    else "regular_day"
  }

  /**
   * Feature engineering of one row. Building the competition start date or
   * parsing the promo2 start week can fail; every other step is total.
   */
  function Derive(row: Cleaning.CleanRow): (r: Result<FeatureRow, Columns.RowError>)
    ensures r.Ok? <==> CompetitionSince(row.competitionOpenSinceYear, row.competitionOpenSinceMonth).Ok?
                       && PromoSince(row.promo2SinceYear, row.promo2SinceWeek).Ok?
    ensures r.Err? ==> (r.error == Columns.InvalidCompetitionSince
                        <==> CompetitionSince(row.competitionOpenSinceYear, row.competitionOpenSinceMonth).Err?)
  {
    var d := row.date;
    match CompetitionSince(row.competitionOpenSinceYear, row.competitionOpenSinceMonth)
    case Err(e) => Err(e)
    case Ok(competitionSince) =>
      match PromoSince(row.promo2SinceYear, row.promo2SinceWeek)
      case Err(e) => Err(e)
      case Ok(promoSince) =>
        Ok(FeatureRow(
          row.store, row.dayOfWeek, d, row.promo,
          StateHolidayName(row.stateHoliday), row.schoolHoliday, row.storeType,
          AssortmentName(row.assortment), row.competitionDistance,
          row.competitionOpenSinceMonth, row.competitionOpenSinceYear,
          row.promo2, row.promo2SinceWeek, row.promo2SinceYear, row.isPromo,
          d.year, d.month, d.day, IsoWeek(d), YearWeek(d.year, MondayWeek(d)),
          competitionSince, CompetitionTimeMonth(d, competitionSince),
          promoSince, PromoTimeWeek(d, promoSince)))
  }

  // ---------------------------------------------------------------------
  // Properties of one row

  /**
   * What a derived row holds: the date's parts, its ISO 8601 week, its `%W`
   * label (which `strptime` reads back as the Monday starting the date's
   * week), the competition months counted from the first of the opening
   * month, and the promo weeks counted from the Monday before the `%W`
   * Monday of the promo2 start week. Every column that is not derived or
   * dropped passes through unchanged.
   */
  lemma DeriveSpec(row: Cleaning.CleanRow)
    requires Derive(row).Ok?
    ensures var f := Derive(row).value; var n := Ordinal(row.date);
      && f.year == row.date.year && f.month == row.date.month && f.day == row.date.day
      && 1 <= f.weekOfYear <= 53 && f.weekOfYear == IsoCalendar(row.date).week
      && f.yearWeek.year == row.date.year && 0 <= f.yearWeek.week <= 53
      && (1000 <= row.date.year ==>
            ParseYearWeekMonday(f.yearWeek.year, f.yearWeek.week).Some?
            && Ordinal(ParseYearWeekMonday(f.yearWeek.year, f.yearWeek.week).value) == n - Weekday(n))
      && f.competitionSince == Date(row.competitionOpenSinceYear, row.competitionOpenSinceMonth, 1)
      && 30 * f.competitionTimeMonth <= n - Ordinal(f.competitionSince) < 30 * f.competitionTimeMonth + 30
      && Ordinal(f.promoSince) == Ordinal(ParseYearWeekMonday(row.promo2SinceYear, row.promo2SinceWeek).value) - 7
      && 7 * f.promoTimeWeek <= n - Ordinal(f.promoSince) < 7 * f.promoTimeWeek + 7
      && f.assortment == AssortmentName(row.assortment)
      && f.stateHoliday == StateHolidayName(row.stateHoliday)
      && f.yearWeek.week == MondayWeek(row.date)
      && f.store == row.store && f.dayOfWeek == row.dayOfWeek && f.date == row.date
      && f.promo == row.promo && f.schoolHoliday == row.schoolHoliday && f.storeType == row.storeType
      && f.competitionDistance == row.competitionDistance
      && f.competitionOpenSinceMonth == row.competitionOpenSinceMonth
      && f.competitionOpenSinceYear == row.competitionOpenSinceYear
      && f.promo2 == row.promo2 && f.promo2SinceWeek == row.promo2SinceWeek
      && f.promo2SinceYear == row.promo2SinceYear && f.isPromo == row.isPromo
  {
    if 1000 <= row.date.year {
      ParseMondayWeek(row.date);
    }
  }

  /**
   * When both competition fields were filled from the row's own date, the
   * competition started on the first of the date's month, so the count is
   * 0, except on the 31st: 30 days after the first is one whole period.
   */
  lemma CompetitionOfOwnMonth(d: ValidDate)
    ensures CompetitionSince(d.year, d.month).Ok?
    ensures CompetitionTimeMonth(d, CompetitionSince(d.year, d.month).value) == if d.day == 31 then 1 else 0
  {
    var first := CompetitionSince(d.year, d.month).value;
    assert Ordinal(d) - Ordinal(first) == d.day - 1;
  }

  /**
   * In the years 1000..9998 every week number either numbering can give is
   * accepted: the `%W` Monday of week 53 is still before the end of 9999.
   */
  lemma PromoSinceDefined(year: int, week: int)
    requires 1000 <= year <= 9998 && 0 <= week <= 53
    ensures PromoSince(year, week).Ok?
  {
    YearLength(year);
    DaysBeforeYearMonotone(year + 1, MaxYear);
    YearLength(MaxYear);
    assert JanFirst(year) + 371 <= MaxOrdinal;
  }

  /**
   * When both promo2 fields were filled from the date (ISO week, calendar
   * year) and the ISO year is the calendar year, the ISO week is read back
   * as a `%W` week: the count is 0 when January 1st is a Tuesday, Wednesday
   * or Thursday and 1 otherwise, wherever in the week the date falls.
   */
  lemma PromoOfOwnWeek(d: ValidDate)
    requires 1000 <= d.year <= 9998 && IsoCalendar(d).year == d.year
    ensures PromoSince(d.year, IsoWeek(d)).Ok?
    ensures PromoTimeWeek(d, PromoSince(d.year, IsoWeek(d)).value)
            == if 1 <= Weekday(JanFirst(d.year)) <= 3 then 0 else 1
  {
    var n := Ordinal(d);
    var w := IsoWeek(d);
    IsoWeekVersusMondayWeek(d);
    MondayWeekForm(d);
    OrdinalBounds(d);
    OrdinalInYear(d);
    DaysBeforeYearMonotone(d.year + 1, MaxYear + 1);
    WeekMondayJulianArith(JanFirst(d.year), w);
    var monday := JanFirst(d.year) - 1 + WeekMondayJulian(JanFirst(d.year), w);
    assert monday == n - Weekday(n) + (if 1 <= Weekday(JanFirst(d.year)) <= 3 then 7 else 0);
    assert monday <= MaxOrdinal by {
      YearLength(d.year);
      assert n <= DaysBeforeYear(d.year + 1);
    }
  }

  /**
   * The ISO and `%W` numberings disagree across a year boundary: 2016-01-01
   * lies in ISO week 53 (of 2015), and week 53 of 2016 read as `%W` is a
   * Monday a year later, so a row of that day with filled promo2 fields
   * gets a count of -52.
   */
  lemma PromoAcrossYearEnd(d: ValidDate)
    requires d.year == 2016 && d.month == 1 && d.day == 1
    ensures IsoWeek(d) == 53
    ensures PromoSince(d.year, IsoWeek(d)).Ok?
    ensures PromoTimeWeek(d, PromoSince(d.year, IsoWeek(d)).value) == -52
  {
    NewYear2016IsoWeek(d);
    PromoSinceWeek53Of2016(d.year, IsoWeek(d));
    var since := PromoSince(d.year, IsoWeek(d)).value;
    NewYear2016Ordinal(d);
    WeeksBackToPromoStart(d, since);
  }

  /** 2016-01-01 is day 735964 of the calendar. */
  lemma NewYear2016Ordinal(d: ValidDate)
    requires d.year == 2016 && d.month == 1 && d.day == 1
    ensures Ordinal(d) == 735964
  {
    OrdinalOfJanFirst(d);
    assert JanFirst(2016) == 735964;
  }

  /** From 2016-01-01 back to 2016-12-26 is 360 days: 52 whole weeks, rounded down. */
  lemma WeeksBackToPromoStart(date: ValidDate, since: ValidDate)
    requires Ordinal(date) == 735964 && Ordinal(since) == 736324
    ensures PromoTimeWeek(date, since) == -52
  {
  }

  /** Week 53 of 2016 read as a `%W` week starts on Monday 2017-01-02, so the promo start is 2016-12-26. */
  lemma PromoSinceWeek53Of2016(year: int, week: int)
    requires year == 2016 && week == 53
    ensures PromoSince(year, week).Ok?
    ensures Ordinal(PromoSince(year, week).value) == 736324
  {
    assert JanFirst(2016) == 735964;
    assert FirstMonday(2016) == 735967;
  }

  /** 2016-01-01, a Friday, is in ISO week 53 of 2015. */
  lemma NewYear2016IsoWeek(d: ValidDate)
    requires d.year == 2016 && d.month == 1 && d.day == 1
    ensures IsoWeek(d) == 53
  {
    IsoCalendarSpec(d);
    OrdinalOfJanFirst(d);
    assert JanFirst(2016) == 735964;
    assert Week1Monday(2015) == 735596;
    assert Week1Monday(2016) == 735967;
  }

  // ---------------------------------------------------------------------
  // The stage over a frame

  /** The position of the first row that fails the test, if any. */
  function FirstFailing(rows: seq<Cleaning.CleanRow>, fails: Cleaning.CleanRow -> bool): (r: Option<nat>)
    ensures r.None? <==> forall i :: 0 <= i < |rows| ==> !fails(rows[i])
    ensures r.Some? ==> r.value < |rows| && fails(rows[r.value])
                        && forall i :: 0 <= i < r.value ==> !fails(rows[i])
  {
    if rows == [] then None
    else if fails(rows[0]) then Some(0)
    else
      match FirstFailing(rows[1..], fails)
      case None => None
      case Some(k) => Some(k + 1)
  }

  predicate CompetitionFails(row: Cleaning.CleanRow) {
    CompetitionSince(row.competitionOpenSinceYear, row.competitionOpenSinceMonth).Err?
  }

  predicate PromoFails(row: Cleaning.CleanRow) {
    PromoSince(row.promo2SinceYear, row.promo2SinceWeek).Err?
  }

  /**
   * The error a frame raises. A frame without rows fails at the first
   * row-wise `apply`: over no rows it returns the whole frame, which cannot
   * be assigned to one column. Otherwise each column is computed for all
   * rows before the next one, so a bad competition start anywhere is raised
   * before any bad promo2 start; within a column the first bad row is raised.
   */
  function FrameFailure(rows: seq<Cleaning.CleanRow>): (r: Option<Columns.FrameError>)
    ensures rows == [] <==> r == Some(Columns.EmptyBatch)
    ensures r.None? <==> rows != [] && forall i :: 0 <= i < |rows| ==> !CompetitionFails(rows[i]) && !PromoFails(rows[i])
    ensures r.Some? && rows != [] ==> r.value.ComputationError? && r.value.row < |rows|
  {
    if rows == [] then Some(Columns.EmptyBatch)
    else
      match FirstFailing(rows, CompetitionFails)
      case Some(i) => Some(Columns.ComputationError(i, Columns.InvalidCompetitionSince))
      case None =>
        match FirstFailing(rows, PromoFails)
        case Some(i) => Some(Columns.ComputationError(i, Columns.InvalidPromoSince))
        case None => None
  }

  /**
   * A frame with rows fails exactly when one of its rows does, and a
   * competition failure is reported first; a frame without rows always fails.
   */
  lemma FrameFailureSpec(rows: seq<Cleaning.CleanRow>)
    ensures FrameFailure(rows).None? <==> rows != [] && forall i :: 0 <= i < |rows| ==> Derive(rows[i]).Ok?
    ensures rows == [] ==> FrameFailure(rows) == Some(Columns.EmptyBatch)
    ensures rows != [] && FrameFailure(rows).Some? ==>
              var e := FrameFailure(rows).value;
              e.ComputationError? && e.row < |rows| && Derive(rows[e.row]).Err?
              && Derive(rows[e.row]).error == e.cause
              && (e.cause == Columns.InvalidPromoSince ==> forall i :: 0 <= i < |rows| ==> !CompetitionFails(rows[i]))
  {
    forall i | 0 <= i < |rows|
      ensures Derive(rows[i]).Ok? <==> !CompetitionFails(rows[i]) && !PromoFails(rows[i])
    {
      DeriveFails(rows[i]);
    }
    var competition := FirstFailing(rows, CompetitionFails);
    if competition.Some? {
      DeriveFails(rows[competition.value]);
    } else {
      var promo := FirstFailing(rows, PromoFails);
      if promo.Some? {
        DeriveFails(rows[promo.value]);
      }
    }
  }

  /** A row fails on its competition start first, then on its promo2 start. */
  lemma DeriveFails(row: Cleaning.CleanRow)
    ensures Derive(row).Ok? <==> !CompetitionFails(row) && !PromoFails(row)
    ensures Derive(row).Err? ==>
              Derive(row).error == if CompetitionFails(row) then Columns.InvalidCompetitionSince else Columns.InvalidPromoSince
  {
  }

  /** `FirstFailing` is determined by where the first failure is. */
  lemma FirstFailingUnique(rows: seq<Cleaning.CleanRow>, fails: Cleaning.CleanRow -> bool, i: nat)
    requires i <= |rows| && forall k :: 0 <= k < i ==> !fails(rows[k])
    requires i < |rows| ==> fails(rows[i])
    ensures FirstFailing(rows, fails) == if i < |rows| then Some(i) else None
  {
  }
}
