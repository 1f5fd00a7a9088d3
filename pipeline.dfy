/**
 * The stages of the Rossmann pipeline over a frame of rows, and their
 * composition. Each stage reads every row of its input array in order and
 * produces one row per input row; the column names travel alongside and are
 * checked the way the library checks them.
 */
module Pipeline {
  import opened Wrappers
  import opened Columns
  import Cleaning
  import Features
  import Preparation
  import WeekNumbering

  type RawRow = Cleaning.RawRow
  type CleanRow = Cleaning.CleanRow
  type FeatureRow = Features.FeatureRow
  type FeatureVector = Preparation.FeatureVector

  // ---------------------------------------------------------------------
  // data_cleaning

  /** Applies a per-row rule to every row of a frame, in order. */
  method MapRows<A, B(0)>(rows: array<A>, rule: A -> B) returns (out: array<B>)
    ensures fresh(out)
    ensures out.Length == rows.Length
    ensures forall i :: 0 <= i < rows.Length ==> out[i] == rule(rows[i])
  {
    out := new B[rows.Length];
    var i := 0;
    while i < rows.Length
      invariant 0 <= i <= rows.Length
      invariant forall k :: 0 <= k < i ==> out[k] == rule(rows[k])
    {
      out[i] := rule(rows[i]);
      i := i + 1;
    }
  }

  /**
   * `data_cleaning` over a frame: one cleaned row per raw row, in order. A
   * frame without rows is refused: the first row-wise `apply` over no rows
   * gives back the whole frame, and assigning that to one column raises
   * ValueError.
   */
  method CleanFrame(frame: array<RawRow>) returns (r: Result<array<CleanRow>, FrameError>)
    ensures r.Err? <==> frame.Length == 0
    ensures r.Err? ==> r.error == EmptyBatch
    ensures r.Ok? ==> fresh(r.value)
    ensures r.Ok? ==> r.value.Length == frame.Length
                      && forall i :: 0 <= i < frame.Length ==> r.value[i] == Cleaning.Clean(frame[i])
  {
    if frame.Length == 0 {
      return Err(EmptyBatch);
    }
    var cleaned := MapRows(frame, Cleaning.Clean);
    return Ok(cleaned);
  }

  // ---------------------------------------------------------------------
  // feature_engineering

  /** Scans the rows in order for the first one that fails the test. */
  method FindFirstFailing(rows: array<CleanRow>, fails: CleanRow -> bool) returns (r: Option<nat>)
    ensures r == Features.FirstFailing(rows[..], fails)
  {
    var i := 0;
    while i < rows.Length
      invariant 0 <= i <= rows.Length
      invariant forall k :: 0 <= k < i ==> !fails(rows[k])
    {
      if fails(rows[i]) {
        Features.FirstFailingUnique(rows[..], fails, i);
        return Some(i);
      }
      i := i + 1;
    }
    Features.FirstFailingUnique(rows[..], fails, rows.Length);
    return None;
  }

  /** The rows held by results that all succeeded. */
  method Successes(results: array<Result<FeatureRow, RowError>>) returns (derived: array<FeatureRow>)
    requires forall i :: 0 <= i < results.Length ==> results[i].Ok?
    ensures fresh(derived)
    ensures derived.Length == results.Length
    ensures forall i :: 0 <= i < results.Length ==> results[i] == Ok(derived[i])
  {
    derived := new FeatureRow[results.Length];
    var i := 0;
    while i < results.Length
      invariant 0 <= i <= results.Length
      invariant forall k :: 0 <= k < i ==> results[k] == Ok(derived[k])
    {
      derived[i] := results[i].value;
      i := i + 1;
    }
  }

  /**
   * `feature_engineering` over the rows of a frame: first the competition
   * start of every row, then the promo2 start of every row, then the
   * derived rows. Like cleaning, it refuses a frame without rows.
   */
  method DeriveFrame(rows: array<CleanRow>) returns (r: Result<array<FeatureRow>, FrameError>)
    ensures r.Err? <==> Features.FrameFailure(rows[..]).Some?
    ensures r.Err? ==> r.error == Features.FrameFailure(rows[..]).value
    ensures r.Ok? ==> fresh(r.value)
    ensures r.Ok? ==> r.value.Length == rows.Length
                      && forall i :: 0 <= i < rows.Length ==> Features.Derive(rows[i]) == Ok(r.value[i])
  {
    if rows.Length == 0 {
      return Err(EmptyBatch);
    }
    var competition := FindFirstFailing(rows, Features.CompetitionFails);
    if competition.Some? {
      return Err(ComputationError(competition.value, InvalidCompetitionSince));
    }
    var promo := FindFirstFailing(rows, Features.PromoFails);
    if promo.Some? {
      return Err(ComputationError(promo.value, InvalidPromoSince));
    }
    var results := MapRows(rows, Features.Derive);
    forall i | 0 <= i < results.Length
      ensures results[i].Ok?
    {
      assert !Features.CompetitionFails(rows[..][i]) && !Features.PromoFails(rows[..][i]);
      Features.DeriveFails(rows[i]);
    }
    var derived := Successes(results);
    return Ok(derived);
  }

  // ---------------------------------------------------------------------
  // data_preparation

  /**
   * The assortment codes, cyclical columns and rescaled columns of every
   * row, in order. A scaler's `fit_transform` refuses a batch without
   * samples with a ValueError.
   */
  method PrepareFrame(rows: array<FeatureRow>) returns (r: Result<array<FeatureVector>, FrameError>)
    ensures r.Err? <==> rows.Length == 0
    ensures r.Err? ==> r.error == EmptyBatch
    ensures r.Ok? ==> fresh(r.value)
    ensures r.Ok? ==> r.value.Length == rows.Length
                      && forall i :: 0 <= i < rows.Length ==> r.value[i] == Preparation.Prepare(rows[i])
  {
    if rows.Length == 0 {
      return Err(EmptyBatch);
    }
    var vectors := MapRows(rows, Preparation.Prepare);
    return Ok(vectors);
  }

  /**
   * The distinct values, in order of first appearance: the categories
   * `get_dummies` makes an indicator column of (pandas lists them sorted).
   */
  function Categories(values: seq<string>): (r: seq<string>)
    ensures forall v :: v in r <==> v in values
    ensures forall i, j :: 0 <= i < j < |r| ==> r[i] != r[j]
  {
    if values == [] then []
    else
      var last := values[|values| - 1];
      var rest := Categories(values[..|values| - 1]);
      assert forall v :: v in values <==> v in values[..|values| - 1] || v == last by {
        assert values == values[..|values| - 1] + [last];
      }
      if last in rest then rest else rest + [last]
  }

  function HolidayNames(rows: seq<FeatureRow>): seq<string> {
    seq(|rows|, i requires 0 <= i < |rows| => rows[i].stateHoliday)
  }

  // ---------------------------------------------------------------------
  // The whole pipeline

  /**
   * Cleaning, feature engineering and preparation of one row. It goes
   * through exactly when the competition start and the promo2 start, with
   * their missing fields filled from the date, can be built; a bad
   * competition start is the error reported first.
   */
  function TransformRow(raw: RawRow): (r: Result<FeatureVector, RowError>)
    ensures r.Ok? <==>
              Features.CompetitionSince(raw.competitionOpenSinceYear.GetOr(raw.date.year),
                                        raw.competitionOpenSinceMonth.GetOr(raw.date.month)).Ok?
              && Features.PromoSince(raw.promo2SinceYear.GetOr(raw.date.year),
                                     raw.promo2SinceWeek.GetOr(WeekNumbering.IsoWeek(raw.date))).Ok?
    ensures r.Err? ==>
              (r.error == InvalidCompetitionSince <==>
                 Features.CompetitionSince(raw.competitionOpenSinceYear.GetOr(raw.date.year),
                                           raw.competitionOpenSinceMonth.GetOr(raw.date.month)).Err?)
  {
    Cleaning.CleanFills(raw);
    match Features.Derive(Cleaning.Clean(raw))
    case Err(e) => Err(e)
    case Ok(row) => Ok(Preparation.Prepare(row))
  }

  /** A row that cleans and derives to `row` transforms to the preparation of `row`. */
  lemma TransformRowStages(raw: RawRow, row: FeatureRow)
    requires Features.Derive(Cleaning.Clean(raw)) == Ok(row)
    ensures TransformRow(raw) == Ok(Preparation.Prepare(row))
  {
  }

  /** The cleaned rows of a frame. */
  function CleanRows(raw: seq<RawRow>): (rows: seq<CleanRow>)
    ensures |rows| == |raw|
  {
    seq(|raw|, i requires 0 <= i < |raw| => Cleaning.Clean(raw[i]))
  }

  /**
   * The three stages in turn on a frame with the given column names. A frame
   * without exactly 16 columns is refused by the rename, before any row is
   * read; a frame without rows is refused by cleaning; otherwise the frame
   * fails as feature engineering fails on its cleaned rows, and succeeds
   * with one model input per row, under the 20 selected names.
   */
  method Transform(columns: seq<string>, raw: array<RawRow>) returns (r: Result<array<FeatureVector>, FrameError>, selected: seq<Column>)
    ensures |columns| != 16 ==> r == Err(LengthMismatch(|columns|, 16))
    ensures |columns| == 16 && raw.Length == 0 ==> r == Err(EmptyBatch)
    ensures |columns| == 16 ==> (r.Err? <==> Features.FrameFailure(CleanRows(raw[..])).Some?)
    ensures |columns| == 16 && r.Err? ==> r.error == Features.FrameFailure(CleanRows(raw[..])).value
    ensures r.Ok? ==> fresh(r.value)
    ensures r.Ok? ==> selected == SelectedNames && r.value.Length == raw.Length
                      && forall i :: 0 <= i < raw.Length ==> TransformRow(raw[i]) == Ok(r.value[i])
  {
    var names := CleaningColumns(columns);
    if names.Err? {
      return Err(names.error), [];
    }
    CleaningColumnsExact(columns);
    var cleaned := CleanFrame(raw);
    if cleaned.Err? {
      return Err(cleaned.error), [];
    }
    assert cleaned.value[..] == CleanRows(raw[..]);
    var derived := DeriveFrame(cleaned.value);
    if derived.Err? {
      return Err(derived.error), [];
    }
    var holidays := Categories(HolidayNames(derived.value[..]));
    SelectionExact(names.value, holidays);
    var featureNames := FeatureColumns(names.value).value;
    var preparedNames := PreparationColumns(featureNames, holidays);
    var vectors := PrepareFrame(derived.value);
    forall i | 0 <= i < raw.Length
      ensures TransformRow(raw[i]) == Ok(vectors.value[i])
    {
      TransformRowStages(raw[i], derived.value[i]);
    }
    return Ok(vectors.value), preparedNames.value;
  }

  // ---------------------------------------------------------------------
  // Properties of the whole pipeline

  /**
   * A row that comes out of the pipeline has an assortment code in 1..3, so
   * none of its 20 selected columns is missing, and it keeps the store, the
   * promo flags and the (filled) competition and promo2 fields of its input.
   */
  lemma TransformRowComplete(raw: RawRow)
    requires TransformRow(raw).Ok?
    ensures var v := TransformRow(raw).value;
      && v.assortment.Some? && 1 <= v.assortment.value <= 3
      && v.store == raw.store && v.promo == raw.promo && v.promo2 == raw.promo2
      && v.competitionOpenSinceMonth == raw.competitionOpenSinceMonth.GetOr(raw.date.month)
      && v.competitionOpenSinceYear == raw.competitionOpenSinceYear.GetOr(raw.date.year)
      && v.promo2SinceYear == raw.promo2SinceYear.GetOr(raw.date.year)
  {
    var clean := Cleaning.Clean(raw);
    Cleaning.CleanFills(raw);
    Preparation.PrepareSpec(Features.Derive(clean).value, clean);
  }

  /**
   * A row whose competition and promo2 fields are all missing, dated in the
   * years 1000..9998, always goes through; its competition time is 0, or 1
   * on the 31st of a month, before scaling.
   */
  lemma ImputedRowTransforms(raw: RawRow)
    requires raw.competitionOpenSinceMonth.None? && raw.competitionOpenSinceYear.None?
    requires raw.promo2SinceWeek.None? && raw.promo2SinceYear.None?
    requires 1000 <= raw.date.year <= 9998
    ensures TransformRow(raw).Ok?
    ensures TransformRow(raw).value.competitionTimeMonth
            == Preparation.Scaled(Preparation.CompetitionTimeScaler, if raw.date.day == 31 then 1.0 else 0.0)
  {
    var clean := Cleaning.Clean(raw);
    Cleaning.CleanFills(raw);
    Features.CompetitionOfOwnMonth(raw.date);
    Features.PromoSinceDefined(raw.date.year, clean.promo2SinceWeek);
  }
}
