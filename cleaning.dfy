/**
 * `Rossmann.data_cleaning`: the raw store-day rows become rows without
 * missing values. Missing competition fields and missing promo2 fields are
 * filled from the row's own date, a missing promo interval becomes a
 * sentinel, and every row gets the abbreviation of its month and a flag that
 * says whether a promo2 round starts in that month.
 */
module Cleaning {
  import opened Wrappers
  import opened Calendar
  import opened WeekNumbering
  import Tokens

  /** The promo interval after `fillna(0)`: the sentinel 0, or the text of the months. */
  datatype PromoInterval = NoInterval | Months(text: string)

  /** A row as it arrives; the nullable numeric and text fields are options. */
  datatype RawRow = RawRow(
    store: int,
    dayOfWeek: int,
    date: ValidDate,
    open: int,
    promo: int,
    stateHoliday: string,
    schoolHoliday: int,
    storeType: string,
    assortment: string,
    competitionDistance: Option<real>,
    competitionOpenSinceMonth: Option<int>,
    competitionOpenSinceYear: Option<int>,
    promo2: int,
    promo2SinceWeek: Option<int>,
    promo2SinceYear: Option<int>,
    promoInterval: Option<string>)

  /** A row after cleaning: nothing is missing, and two columns are added. */
  datatype CleanRow = CleanRow(
    store: int,
    dayOfWeek: int,
    date: ValidDate,
    open: int,
    promo: int,
    stateHoliday: string,
    schoolHoliday: int,
    storeType: string,
    assortment: string,
    competitionDistance: real,
    competitionOpenSinceMonth: int,
    competitionOpenSinceYear: int,
    promo2: int,
    promo2SinceWeek: int,
    promo2SinceYear: int,
    promoInterval: PromoInterval,
    monthMap: string,
    isPromo: int)

  /** The distance that stands for "no competitor nearby". */
  const MissingDistance: real := 200000.0

  /** The month abbreviations used by the promo interval texts. */
  function MonthAbbreviation(month: int): (name: string)
    requires 1 <= month <= 12
    ensures |name| == 3 && Tokens.Comma !in name
  {
    ["Jan", "Feb", "Mar", "Apr", "May", "Jun", "Jul", "Aug", "Sep", "Oct", "Nov", "Dec"][month - 1]
  }

  /**
   * A fill of missing values: the column afterwards holds a value in every
   * row, the value it had where there was one and the default elsewhere.
   */
  function FillMissing<T>(x: Option<T>, default: T): (r: Option<T>)
    ensures r.Some?
    ensures x.Some? ==> r == x
    ensures x.None? ==> r == Some(default)
  {
    Some(x.GetOr(default))
  }

  /** `is_promo`: 0 for the sentinel, otherwise whether the month is one of the comma-separated tokens. */
  function IsPromo(interval: PromoInterval, monthMap: string): (flag: int)
    ensures flag == 0 || flag == 1
    ensures interval.NoInterval? ==> flag == 0
  {
    match interval
    case NoInterval => 0
    case Months(text) => if monthMap in Tokens.Split(text) then 1 else 0
  }

  /** Cleaning one row. The promo2 week fill is applied twice, as the source does. */
  function Clean(raw: RawRow): (row: CleanRow)
    ensures row.date == raw.date
    ensures row.monthMap == MonthAbbreviation(raw.date.month)
  {
    var d := raw.date;
    var week := FillMissing(FillMissing(raw.promo2SinceWeek, IsoWeek(d)), IsoWeek(d));
    var interval := if raw.promoInterval.Some? then Months(raw.promoInterval.value) else NoInterval;
    var monthMap := MonthAbbreviation(d.month);
    CleanRow(
      raw.store, raw.dayOfWeek, d, raw.open, raw.promo, raw.stateHoliday,
      raw.schoolHoliday, raw.storeType, raw.assortment,
      raw.competitionDistance.GetOr(MissingDistance),
      raw.competitionOpenSinceMonth.GetOr(d.month),
      raw.competitionOpenSinceYear.GetOr(d.year),
      raw.promo2,
      week.value,
      raw.promo2SinceYear.GetOr(d.year),
      interval,
      monthMap,
      IsPromo(interval, monthMap))
  }

  // ---------------------------------------------------------------------
  // Properties of cleaning

  /**
   * Each missing field gets its fill value and each present field is kept:
   * the distance becomes 200000.0, the competition month and year the
   * date's month and year, the promo2 week the date's ISO 8601 week and the
   * promo2 year the calendar year (not the ISO year). The other fields pass
   * through unchanged.
   */
  lemma CleanFills(raw: RawRow)
    ensures var row := Clean(raw);
      && (raw.competitionDistance.None? ==> row.competitionDistance == MissingDistance)
      && (raw.competitionDistance.Some? ==> row.competitionDistance == raw.competitionDistance.value)
      && (raw.competitionOpenSinceMonth.None? ==> row.competitionOpenSinceMonth == raw.date.month)
      && (raw.competitionOpenSinceMonth.Some? ==> row.competitionOpenSinceMonth == raw.competitionOpenSinceMonth.value)
      && (raw.competitionOpenSinceYear.None? ==> row.competitionOpenSinceYear == raw.date.year)
      && (raw.competitionOpenSinceYear.Some? ==> row.competitionOpenSinceYear == raw.competitionOpenSinceYear.value)
      && (raw.promo2SinceWeek.None? ==> row.promo2SinceWeek == IsoWeek(raw.date) && 1 <= row.promo2SinceWeek <= 53)
      && (raw.promo2SinceWeek.Some? ==> row.promo2SinceWeek == raw.promo2SinceWeek.value)
      && (raw.promo2SinceYear.None? ==> row.promo2SinceYear == raw.date.year)
      && (raw.promo2SinceYear.Some? ==> row.promo2SinceYear == raw.promo2SinceYear.value)
      && (raw.promoInterval.None? <==> row.promoInterval.NoInterval?)
      && (raw.promoInterval.Some? ==> row.promoInterval == Months(raw.promoInterval.value))
      && row.store == raw.store && row.dayOfWeek == raw.dayOfWeek && row.open == raw.open
      && row.promo == raw.promo && row.stateHoliday == raw.stateHoliday
      && row.schoolHoliday == raw.schoolHoliday && row.storeType == raw.storeType
      && row.assortment == raw.assortment && row.promo2 == raw.promo2
  {
  }

  /** Filling a column that has already been filled changes nothing, so the repeated week fill is a no-op. */
  lemma FillMissingIdempotent<T>(x: Option<T>, default: T)
    ensures FillMissing(FillMissing(x, default), default) == FillMissing(x, default)
    ensures x.Some? ==> FillMissing(x, default) == x
  {
  }

  /** The example row dated 2015-07-31 with every competition and promo2 field missing. */
  lemma CleanExample(raw: RawRow)
    requires raw.date.year == 2015 && raw.date.month == 7 && raw.date.day == 31
    requires raw.competitionDistance.None? && raw.competitionOpenSinceMonth.None? && raw.competitionOpenSinceYear.None?
    requires raw.promo2SinceWeek.None? && raw.promo2SinceYear.None? && raw.promoInterval.None?
    ensures var row := Clean(raw);
      && row.competitionDistance == 200000.0
      && row.competitionOpenSinceMonth == 7 && row.competitionOpenSinceYear == 2015
      && row.promo2SinceWeek == 31 && row.promo2SinceYear == 2015
      && row.monthMap == "Jul" && row.isPromo == 0
  {
    ExampleIsoWeek(raw.date);
  }

  /** 2015-07-31, day 735810, lies in ISO week 31 of 2015, whose week 1 starts on day 735596. */
  lemma ExampleIsoWeek(d: Date)
    requires Valid(d) && d.year == 2015 && d.month == 7 && d.day == 31
    ensures IsoWeek(d) == 31
  {
    ExampleOrdinal(d);
    assert Week1Monday(2015) == 735596;
    assert Week1Monday(2016) == 735967;
    IsoWeekWithinYear(d);
  }

  lemma ExampleOrdinal(d: Date)
    requires d.year == 2015 && d.month == 7 && d.day == 31
    ensures Ordinal(d) == 735810
  {
    assert DaysBeforeYear(2015) == 735598;
  }

  /**
   * With an interval present, the flag is 1 exactly when the month's
   * abbreviation stands between commas (or at an end) of the interval text,
   * matched exactly and without trimming.
   */
  lemma IsPromoIff(text: string, month: int)
    requires 1 <= month <= 12
    ensures IsPromo(Months(text), MonthAbbreviation(month)) == 1 <==> Tokens.IsField(MonthAbbreviation(month), text)
  {
    Tokens.InSplitIff(MonthAbbreviation(month), text);
  }

  /**
   * A cleaned row is flagged exactly when it has a promo interval and the
   * abbreviation of its own month is one of that interval's fields.
   */
  lemma CleanIsPromoIff(raw: RawRow)
    ensures Clean(raw).isPromo == 0 || Clean(raw).isPromo == 1
    ensures Clean(raw).isPromo == 1 <==>
              raw.promoInterval.Some? && Tokens.IsField(MonthAbbreviation(raw.date.month), raw.promoInterval.value)
  {
    if raw.promoInterval.Some? {
      IsPromoIff(raw.promoInterval.value, raw.date.month);
    }
  }

  /** The tokens of one of the interval texts of the data. */
  lemma SplitOfQuarterly(text: string)
    requires text == "Mar,Jun,Sept,Dec"
    ensures Tokens.Split(text) == ["Mar", "Jun", "Sept", "Dec"]
  {
    var fields := ["Mar", "Jun", "Sept", "Dec"];
    assert Tokens.Join(fields) == text;
    Tokens.SplitJoin(fields);
  }

  /** That interval text spells September "Sept", so a September date is never flagged by it. */
  lemma SeptemberNotMatched(text: string)
    requires text == "Mar,Jun,Sept,Dec"
    ensures IsPromo(Months(text), MonthAbbreviation(9)) == 0
  {
    SplitOfQuarterly(text);
    SeptemberNotAmong(Tokens.Split(text));
  }

  lemma SeptemberNotAmong(fields: seq<string>)
    requires fields == ["Mar", "Jun", "Sept", "Dec"]
    ensures MonthAbbreviation(9) !in fields
  {
    var sep := MonthAbbreviation(9);
    assert sep == "Sep";
    assert sep != "Mar" && sep != "Jun" && sep != "Dec" && |sep| != |"Sept"|;
  }

  /** A December date is flagged by the same text. */
  lemma DecemberMatched(text: string)
    requires text == "Mar,Jun,Sept,Dec"
    ensures IsPromo(Months(text), MonthAbbreviation(12)) == 1
  {
    SplitOfQuarterly(text);
    assert Tokens.Split(text)[3] == MonthAbbreviation(12);
  }

  /** Whatever the date, a row without a promo interval is never flagged. */
  lemma NoIntervalNeverPromo(raw: RawRow)
    requires raw.promoInterval.None?
    ensures Clean(raw).isPromo == 0
  {
  }
}
