/**
 * The deterministic part of `Rossmann.data_preparation`: the assortment
 * level becomes an integer code, the cyclical columns are named by the value
 * and period they encode, the rescaled columns by the scaler applied to them,
 * and the 20 model inputs are selected in their fixed order.
 */
module Preparation {
  import opened Wrappers
  import Cleaning
  import Features
  import WeekNumbering

  /**
   * The fitted scalers the pipeline loads. The competition-distance scaler is
   * loaded but never applied: the distance goes through the scaler of the
   * competition time.
   */
  datatype Scaler = CompetitionDistanceScaler | CompetitionTimeScaler | PromoTimeScaler | YearScaler

  /** The value a scaler's `fit_transform` gives for this input within its batch. */
  datatype Scaled = Scaled(scaler: Scaler, input: real)

  /** The store-type label the label encoder assigns to this code within its batch. */
  datatype StoreTypeLabel = StoreTypeLabel(code: string)

  datatype Wave = Sine | Cosine

  /** `wave(2 * pi * value / period)`. */
  datatype Cyclic = Cyclic(wave: Wave, value: int, period: int)

  /** One row of the model's input: the 20 selected columns, in order. */
  datatype FeatureVector = FeatureVector(
    store: int,
    promo: int,
    storeType: StoreTypeLabel,
    assortment: Option<int>,
    competitionDistance: Scaled,
    competitionOpenSinceMonth: int,
    competitionOpenSinceYear: int,
    promo2: int,
    promo2SinceWeek: int,
    promo2SinceYear: int,
    competitionTimeMonth: Scaled,
    promoTimeWeek: Scaled,
    dayOfWeekSin: Cyclic,
    dayOfWeekCos: Cyclic,
    monthSin: Cyclic,
    monthCos: Cyclic,
    daySin: Cyclic,
    dayCos: Cyclic,
    weekOfYearSin: Cyclic,
    weekOfYearCos: Cyclic)

  /** `assortment_dic`: basic 1, extra 2, extended 3; `Series.map` leaves any other name missing. */
  function AssortmentCode(name: string): (code: Option<int>)
    ensures code.Some? <==> name == "basic" || name == "extra" || name == "extended"
    ensures code.Some? ==> 1 <= code.value <= 3
  {
    if name == "basic" then Some(1)
    else if name == "extra" then Some(2)
    else if name == "extended" then Some(3)
    else None
  }

  /** A sine column and the cosine column of the same value and period. */
  predicate Paired(sin: Cyclic, cos: Cyclic) {
    sin.wave == Sine && cos.wave == Cosine && sin.value == cos.value && sin.period == cos.period
  }

  /** The periods of the cyclical encodings: a week, a year of months, a month of days, a year of weeks. */
  const DaysPerWeek: int := 7
  const MonthsPerYear: int := 12
  const DaysPerMonth: int := 31
  const WeeksPerYear: int := 52

  /**
   * The selected columns of one derived row. The assortment code is missing
   * exactly when the name is not one of the three the map knows; the
   * distance goes through the competition-time scaler, like the competition
   * time itself; each sine column has a cosine partner over the same value
   * and period.
   */
  function Prepare(row: Features.FeatureRow): (v: FeatureVector)
    ensures v.assortment.Some? <==> row.assortment == "basic" || row.assortment == "extra" || row.assortment == "extended"
    ensures v.competitionDistance.scaler == v.competitionTimeMonth.scaler == CompetitionTimeScaler
    ensures v.promoTimeWeek.scaler == PromoTimeScaler
    ensures Paired(v.dayOfWeekSin, v.dayOfWeekCos) && Paired(v.monthSin, v.monthCos)
            && Paired(v.daySin, v.dayCos) && Paired(v.weekOfYearSin, v.weekOfYearCos)
  {
    FeatureVector(
      row.store, row.promo, StoreTypeLabel(row.storeType), AssortmentCode(row.assortment),
      Scaled(CompetitionTimeScaler, row.competitionDistance),
      row.competitionOpenSinceMonth, row.competitionOpenSinceYear,
      row.promo2, row.promo2SinceWeek, row.promo2SinceYear,
      Scaled(CompetitionTimeScaler, row.competitionTimeMonth as real),
      Scaled(PromoTimeScaler, row.promoTimeWeek as real),
      Cyclic(Sine, row.dayOfWeek, DaysPerWeek), Cyclic(Cosine, row.dayOfWeek, DaysPerWeek),
      Cyclic(Sine, row.month, MonthsPerYear), Cyclic(Cosine, row.month, MonthsPerYear),
      Cyclic(Sine, row.day, DaysPerMonth), Cyclic(Cosine, row.day, DaysPerMonth),
      Cyclic(Sine, row.weekOfYear, WeeksPerYear), Cyclic(Cosine, row.weekOfYear, WeeksPerYear))
  }

  // ---------------------------------------------------------------------
  // Properties

  /**
   * Remapping the assortment code to a name and the name to an integer never
   * loses a row's value: `a` becomes 1, `b` 2 and every other code 3.
   */
  lemma AssortmentRoundTrip(code: string)
    ensures AssortmentCode(Features.AssortmentName(code)) == Some(if code == "a" then 1 else if code == "b" then 2 else 3)
  {
  }

  /**
   * The model input of a cleaned row whose features could be derived: its
   * assortment code is present and in 1..3; the store, promo, competition
   * and promo2 fields are the cleaned ones; the distance and the two elapsed
   * counts go into their scalers as computed from the row; and each
   * cyclical pair encodes the day of week, the month, the day and the ISO
   * week of the row's date over 7, 12, 31 and 52.
   */
  lemma PrepareSpec(row: Features.FeatureRow, clean: Cleaning.CleanRow)
    requires Features.Derive(clean) == Ok(row)
    ensures Features.CompetitionSince(clean.competitionOpenSinceYear, clean.competitionOpenSinceMonth).Ok?
    ensures Features.PromoSince(clean.promo2SinceYear, clean.promo2SinceWeek).Ok?
    ensures var v := Prepare(row);
      && v.assortment.Some? && 1 <= v.assortment.value <= 3
      && v.store == clean.store && v.promo == clean.promo
      && v.storeType == StoreTypeLabel(clean.storeType)
      && v.competitionOpenSinceMonth == clean.competitionOpenSinceMonth
      && v.competitionOpenSinceYear == clean.competitionOpenSinceYear
      && v.promo2 == clean.promo2 && v.promo2SinceWeek == clean.promo2SinceWeek
      && v.promo2SinceYear == clean.promo2SinceYear
      && v.competitionDistance == Scaled(CompetitionTimeScaler, clean.competitionDistance)
      && v.competitionTimeMonth == Scaled(CompetitionTimeScaler,
           Features.CompetitionTimeMonth(clean.date,
             Features.CompetitionSince(clean.competitionOpenSinceYear, clean.competitionOpenSinceMonth).value) as real)
      && v.promoTimeWeek == Scaled(PromoTimeScaler,
           Features.PromoTimeWeek(clean.date, Features.PromoSince(clean.promo2SinceYear, clean.promo2SinceWeek).value) as real)
      && v.dayOfWeekSin == Cyclic(Sine, clean.dayOfWeek, 7) && v.dayOfWeekCos == Cyclic(Cosine, clean.dayOfWeek, 7)
      && v.monthSin == Cyclic(Sine, clean.date.month, 12) && v.monthCos == Cyclic(Cosine, clean.date.month, 12)
      && v.daySin == Cyclic(Sine, clean.date.day, 31) && v.dayCos == Cyclic(Cosine, clean.date.day, 31)
      && v.weekOfYearSin == Cyclic(Sine, WeekNumbering.IsoWeek(clean.date), 52)
      && v.weekOfYearCos == Cyclic(Cosine, WeekNumbering.IsoWeek(clean.date), 52)
      && 1 <= clean.date.month <= 12 && 1 <= clean.date.day <= 31 && 1 <= WeekNumbering.IsoWeek(clean.date) <= 53
  {
    Features.DeriveSpec(clean);
  }
}
