/**
 * The column names of the frame at each stage of the `Rossmann` pipeline,
 * and the errors that abort a batch. Column-level operations follow pandas:
 * assigning a column that exists keeps its position, assigning a new one
 * appends it, dropping or selecting an absent column raises KeyError, and
 * renaming with `df.columns = names` needs a list of the frame's width.
 */
module Columns {
  import opened Wrappers

  /** Why the date arithmetic of one row failed. */
  datatype RowError = InvalidCompetitionSince | InvalidPromoSince

  /** An error that aborts a whole batch. */
  datatype FrameError =
    | LengthMismatch(actual: nat, expected: nat)    // ValueError from `df.columns = ...`
    | MissingColumn(column: Column)                   // KeyError
    | ComputationError(row: nat, cause: RowError)   // ValueError from datetime or strptime
    | EmptyBatch                                      // ValueError: a batch without rows

  /** The input columns' names, by position. */
  const RawNames: seq<string> := [
    "Store", "DayOfWeek", "Date", "Open", "Promo",
    "StateHoliday", "SchoolHoliday", "StoreType", "Assortment",
    "CompetitionDistance", "CompetitionOpenSinceMonth",
    "CompetitionOpenSinceYear", "Promo2", "Promo2SinceWeek",
    "Promo2SinceYear", "PromoInterval"]

  /** Every column the pipeline names; `Name` gives its label in the frame. */
  datatype Column =
    | Store | DayOfWeek | Date | Open | Promo | StateHoliday | SchoolHoliday | StoreType | Assortment
    | CompetitionDistance | CompetitionOpenSinceMonth | CompetitionOpenSinceYear
    | Promo2 | Promo2SinceWeek | Promo2SinceYear | PromoInterval
    | MonthMap | IsPromo
    | Year | Month | Day | WeekOfYear | YearWeek
    | CompetitionSince | CompetitionTimeMonth | PromoSince | PromoTimeWeek
    | StateHolidayIs(category: string)
    | DayOfWeekSin | DayOfWeekCos | MonthSin | MonthCos | DaySin | DayCos | WeekOfYearSin | WeekOfYearCos

  function Name(c: Column): string {
    match c
    case Store => "store"
    case DayOfWeek => "day_of_week"
    case Date => "date"
    case Open => "open"
    case Promo => "promo"
    case StateHoliday => "state_holiday"
    case SchoolHoliday => "school_holiday"
    case StoreType => "store_type"
    case Assortment => "assortment"
    case CompetitionDistance => "competition_distance"
    case CompetitionOpenSinceMonth => "competition_open_since_month"
    case CompetitionOpenSinceYear => "competition_open_since_year"
    case Promo2 => "promo2"
    case Promo2SinceWeek => "promo2_since_week"
    case Promo2SinceYear => "promo2_since_year"
    case PromoInterval => "promo_interval"
    case MonthMap => "month_map"
    case IsPromo => "is_promo"
    case Year => "year"
    case Month => "month"
    case Day => "day"
    case WeekOfYear => "week_of_year"
    case YearWeek => "year_week"
    case CompetitionSince => "competition_since"
    case CompetitionTimeMonth => "competition_time_month"
    case PromoSince => "promo_since"
    case PromoTimeWeek => "promo_time_week"
    case StateHolidayIs(category) => "state_holiday_" + category
    case DayOfWeekSin => "day_of_week_sin"
    case DayOfWeekCos => "day_of_week_cos"
    case MonthSin => "month_sin"
    case MonthCos => "month_cos"
    case DaySin => "day_sin"
    case DayCos => "day_cos"
    case WeekOfYearSin => "week_of_year_sin"
    case WeekOfYearCos => "week_of_year_cos"
  }

  /** The snake-case columns the input columns become, by position. */
  const SnakeNames: seq<Column> := [
    Store, DayOfWeek, Date, Open, Promo,
    StateHoliday, SchoolHoliday, StoreType, Assortment,
    CompetitionDistance, CompetitionOpenSinceMonth,
    CompetitionOpenSinceYear, Promo2, Promo2SinceWeek,
    Promo2SinceYear, PromoInterval]

  /** Columns that cleaning adds. */
  const CleaningAdded: seq<Column> := [MonthMap, IsPromo]

  /** Columns that feature engineering reads. */
  const FeatureInputs: seq<Column> := [
    Date, CompetitionOpenSinceYear, CompetitionOpenSinceMonth,
    Promo2SinceYear, Promo2SinceWeek, Assortment, StateHoliday]

  /** Columns that feature engineering assigns, in order. */
  const FeatureAdded: seq<Column> := [
    Year, Month, Day, WeekOfYear, YearWeek,
    CompetitionSince, CompetitionTimeMonth, PromoSince, PromoTimeWeek]

  /** Columns that feature engineering drops. */
  const Dropped: seq<Column> := [Open, PromoInterval, MonthMap]

  /** Columns that data preparation reads. */
  const PreparationInputs: seq<Column> := [
    CompetitionTimeMonth, PromoTimeWeek, CompetitionDistance, Year,
    StateHoliday, StoreType, Assortment,
    DayOfWeek, Month, Day, WeekOfYear]

  /** Columns that the cyclical encoding adds. */
  const CyclicAdded: seq<Column> := [
    DayOfWeekSin, DayOfWeekCos, MonthSin, MonthCos,
    DaySin, DayCos, WeekOfYearSin, WeekOfYearCos]

  /** The model's inputs that are read straight from the frame, in order. */
  const SelectedPlain: seq<Column> := [
    Store, Promo, StoreType, Assortment, CompetitionDistance,
    CompetitionOpenSinceMonth, CompetitionOpenSinceYear,
    Promo2, Promo2SinceWeek, Promo2SinceYear,
    CompetitionTimeMonth, PromoTimeWeek]

  /** The model's 20 input columns, in order: the plain ones, then the cyclical ones. */
  const SelectedNames: seq<Column> := SelectedPlain + CyclicAdded

  // ---------------------------------------------------------------------
  // Column operations

  /** `df.columns = names`: a positional rename; the old names play no part. */
  function Rename(columns: seq<string>, names: seq<Column>): (r: Result<seq<Column>, FrameError>)
    ensures r.Ok? <==> |columns| == |names|
    ensures r.Ok? ==> |r.value| == |columns| && forall i :: 0 <= i < |columns| ==> r.value[i] == names[i]
  {
    if |columns| != |names| then Err(LengthMismatch(|columns|, |names|)) else Ok(names)
  }

  /** The name, as a one-element list, unless it is already a column. */
  function Fresh(name: Column, columns: seq<Column>): seq<Column> {
    if name in columns then [] else [name]
  }

  /** `df[name] = ...` for each name in turn. */
  function Assign(columns: seq<Column>, names: seq<Column>): (r: seq<Column>)
    ensures forall c :: c in r <==> c in columns || c in names
    ensures |columns| <= |r| && r[..|columns|] == columns
    decreases |names|, |columns|  // naming both keeps a literal name list from being unrolled
  {
    if names == [] then columns
    else
      var next := columns + Fresh(names[0], columns);
      var r := Assign(next, names[1..]);
      assert r[..|next|][..|columns|] == r[..|columns|];
      assert forall c :: c in names <==> c == names[0] || c in names[1..];
      r
  }

  /** The first of `names` that is not a column, if any. */
  function FirstMissing(columns: seq<Column>, names: seq<Column>): (r: Option<Column>)
    ensures r.None? <==> forall n :: n in names ==> n in columns
    ensures r.Some? ==> r.value in names && r.value !in columns
    decreases |names|, |columns|
  {
    if names == [] then None
    else if names[0] !in columns then Some(names[0])
    else
      var r := FirstMissing(columns, names[1..]);
      assert forall n :: n in names <==> n == names[0] || n in names[1..];
      r
  }

  /** Reading columns: KeyError on the first one that is absent. */
  function Require(columns: seq<Column>, names: seq<Column>): (r: Option<FrameError>)
    ensures r.None? <==> forall n :: n in names ==> n in columns
    ensures r.Some? ==> r.value.MissingColumn? && r.value.column in names && r.value.column !in columns
  {
    match FirstMissing(columns, names)
    case Some(n) => Some(MissingColumn(n))
    case None => None
  }

  /** The columns other than `names`, in their order. */
  function Without(columns: seq<Column>, names: seq<Column>): (r: seq<Column>)
    ensures forall c :: c in r <==> c in columns && c !in names
    ensures |r| <= |columns|
  {
    if columns == [] then []
    else
      var rest := Without(columns[1..], names);
      assert forall c :: c in columns <==> c == columns[0] || c in columns[1..];
      Fresh(columns[0], names) + rest
  }

  /** `df.drop(names, axis=1)`: every name must be a column. */
  function Drop(columns: seq<Column>, names: seq<Column>): (r: Result<seq<Column>, FrameError>)
    ensures r.Ok? <==> forall n :: n in names ==> n in columns
    ensures r.Ok? ==> forall c :: c in r.value <==> c in columns && c !in names
  {
    match Require(columns, names)
    case Some(e) => Err(e)
    case None => Ok(Without(columns, names))
  }

  /** `df[names]`: the named columns in the given order. */
  function Select(columns: seq<Column>, names: seq<Column>): (r: Result<seq<Column>, FrameError>)
    ensures r.Ok? <==> forall n :: n in names ==> n in columns
    ensures r.Ok? ==> r.value == names
    ensures r.Err? ==> r.error.MissingColumn? && r.error.column in names && r.error.column !in columns
  {
    match Require(columns, names)
    case Some(e) => Err(e)
    case None => Ok(names)
  }

  // ---------------------------------------------------------------------
  // The column names of each stage

  /** `data_cleaning`: rename by position, then add the month abbreviation and the promo flag. */
  function CleaningColumns(columns: seq<string>): (r: Result<seq<Column>, FrameError>)
    ensures r.Ok? <==> |columns| == 16
  {
    match Rename(columns, SnakeNames)
    case Err(e) => Err(e)
    case Ok(named) => Ok(Assign(named, CleaningAdded))
  }

  /** `feature_engineering`: read the inputs, assign the derived columns, drop three. */
  function FeatureColumns(columns: seq<Column>): (r: Result<seq<Column>, FrameError>)
    ensures r.Ok? ==> forall c :: c in r.value <==> (c in columns || c in FeatureAdded) && c !in Dropped
  {
    match Require(columns, FeatureInputs)
    case Some(e) => Err(e)
    case None => Drop(Assign(columns, FeatureAdded), Dropped)
  }

  /**
   * `data_preparation`: read the inputs, replace `state_holiday` by one
   * indicator column per category present in the batch, appended in the
   * order `holidays` gives (pandas sorts the categories; the selection below
   * does not depend on their order), add the cyclical columns, then select
   * the model's inputs.
   */
  function PreparationColumns(columns: seq<Column>, holidays: seq<string>): (r: Result<seq<Column>, FrameError>)
    ensures r.Ok? ==> r.value == SelectedNames
  {
    match Require(columns, PreparationInputs)
    case Some(e) => Err(e)
    case None =>
      var dummies := seq(|holidays|, i requires 0 <= i < |holidays| => StateHolidayIs(holidays[i]));
      var encoded := Assign(Without(columns, [StateHoliday]) + dummies, CyclicAdded);
      Select(encoded, SelectedNames)
  }

  // ---------------------------------------------------------------------
  // Properties of the schema

  /** The column names after cleaning. */
  const CleanedNames: seq<Column> := SnakeNames + CleaningAdded

  /** Sixteen names in, sixteen names out: the rename maps position i of the input to the i-th snake-case name. */
  lemma RenameIsPositional(columns: seq<string>)
    requires |columns| == |RawNames|
    ensures Rename(columns, SnakeNames) == Ok(SnakeNames)
    ensures |RawNames| == |SnakeNames| == 16
  {
  }

  /** Assigning a name that is not yet a column appends it. */
  lemma AssignStep(columns: seq<Column>, names: seq<Column>)
    requires names != [] && names[0] !in columns
    ensures Assign(columns, names) == Assign(columns + [names[0]], names[1..])
  {
    assert Fresh(names[0], columns) == [names[0]];
  }

  /** Appending the first name and then the others appends them all. */
  lemma AppendFirst(columns: seq<Column>, names: seq<Column>)
    requires names != []
    ensures columns + [names[0]] + names[1..] == columns + names
  {
    assert names == [names[0]] + names[1..];
  }

  /** Assigning new distinct names appends them in order. */
  lemma {:induction false} AssignFresh(columns: seq<Column>, names: seq<Column>)
    requires forall i, j :: 0 <= i < j < |names| ==> names[i] != names[j]
    requires forall k :: 0 <= k < |names| ==> names[k] !in columns
    ensures Assign(columns, names) == columns + names
    decreases |names|
  {
    if names != [] {
      var n, rest := names[0], names[1..];
      AssignStep(columns, names);
      assert forall k :: 0 <= k < |rest| ==> rest[k] !in columns + [n] by {
        forall k | 0 <= k < |rest|
          ensures rest[k] !in columns + [n]
        {
          assert rest[k] == names[k + 1];
        }
      }
      assert forall i, j :: 0 <= i < j < |rest| ==> rest[i] != rest[j] by {
        forall i, j | 0 <= i < j < |rest|
          ensures rest[i] != rest[j]
        {
          assert rest[i] == names[i + 1] && rest[j] == names[j + 1];
        }
      }
      AssignFresh(columns + [n], rest);
      AppendFirst(columns, names);
    }
  }

  /** Cleaning any 16-column frame yields the snake-case names followed by `month_map` and `is_promo`. */
  lemma CleaningColumnsExact(columns: seq<string>)
    requires |columns| == 16
    ensures CleaningColumns(columns) == Ok(CleanedNames)
  {
    assert forall k :: 0 <= k < |CleaningAdded| ==> CleaningAdded[k] !in SnakeNames;
    AssignFresh(SnakeNames, CleaningAdded);
  }

  /**
   * Feature engineering accepts the cleaned frame; its columns are then the
   * cleaned ones and the derived ones, except exactly `open`,
   * `promo_interval` and `month_map`.
   */
  lemma FeatureColumnsOfCleaned()
    ensures FeatureColumns(CleanedNames).Ok?
    ensures forall c :: c in FeatureColumns(CleanedNames).value <==> (c in CleanedNames || c in FeatureAdded) && c !in Dropped
  {
    assert forall n :: n in FeatureInputs ==> n in CleanedNames;
    assert forall n :: n in Dropped ==> n in CleanedNames;
  }

  /**
   * Feature engineering cannot run twice: on its own output the inputs are
   * all present but dropping `open` again raises KeyError.
   */
  lemma FeatureColumnsSecondPassFails(columns: seq<Column>)
    requires FeatureColumns(columns).Ok?
    ensures FeatureColumns(FeatureColumns(columns).value) == Err(MissingColumn(Open))
  {
    var once := FeatureColumns(columns).value;
    assert Require(columns, FeatureInputs).None?;
    FeatureInputsKept();
    assert forall n :: n in FeatureInputs ==> n in once;
    var widened := Assign(once, FeatureAdded);
    assert Open !in widened by {
      OpenDroppedNotDerived();
    }
    assert Require(widened, Dropped) == Some(MissingColumn(Open));
  }

  /** No input of feature engineering is one of the columns it drops. */
  lemma FeatureInputsKept()
    ensures forall n :: n in FeatureInputs ==> n !in Dropped
  {
  }

  /** `open` is the first dropped column, and feature engineering does not derive it. */
  lemma OpenDroppedNotDerived()
    ensures Dropped[0] == Open && Open !in FeatureAdded
  {
  }

  /** Every input of data preparation is a cleaned or a derived column that feature engineering keeps. */
  lemma PreparationInputsSurvive()
    ensures forall n :: n in PreparationInputs ==> (n in SnakeNames || n in FeatureAdded) && n !in Dropped
  {
  }

  /** Every plain model input is a cleaned or a derived column, kept, and not the one-hot encoded one. */
  lemma SelectedPlainSurvive()
    ensures forall n :: n in SelectedPlain ==> (n in SnakeNames || n in FeatureAdded) && n !in Dropped && n != StateHoliday
  {
  }

  /**
   * Whatever state-holiday categories a batch holds, preparation of a frame
   * that has gone through feature engineering from (at least) the cleaned
   * columns selects exactly the 20 model inputs, in order.
   */
  lemma SelectionExact(columns: seq<Column>, holidays: seq<string>)
    requires forall n :: n in CleanedNames ==> n in columns
    ensures FeatureColumns(columns).Ok?
    ensures PreparationColumns(FeatureColumns(columns).value, holidays) == Ok(SelectedNames)
    ensures |SelectedNames| == 20
  {
    FeatureColumnsKeep(columns);
    var features := FeatureColumns(columns).value;
    assert forall n :: n in PreparationInputs ==> n in features by {
      PreparationInputsSurvive();
    }
    var dummies := seq(|holidays|, i requires 0 <= i < |holidays| => StateHolidayIs(holidays[i]));
    var kept := Without(features, [StateHoliday]);
    assert forall n :: n in SelectedPlain ==> n in kept by {
      SelectedPlainSurvive();
    }
    SelectedAfterEncoding(kept, dummies);
  }

  /** Feature engineering accepts a frame carrying the cleaned columns and keeps every cleaned or derived column it does not drop. */
  lemma FeatureColumnsKeep(columns: seq<Column>)
    requires forall n :: n in CleanedNames ==> n in columns
    ensures FeatureColumns(columns).Ok?
    ensures forall n :: (n in SnakeNames || n in FeatureAdded) && n !in Dropped ==> n in FeatureColumns(columns).value
  {
    assert forall n :: n in FeatureInputs ==> n in CleanedNames;
    assert forall n :: n in SnakeNames ==> n in CleanedNames;
  }

  /** Once the plain model inputs are kept, adding the cyclical columns leaves every model input present. */
  lemma SelectedAfterEncoding(kept: seq<Column>, dummies: seq<Column>)
    requires forall n :: n in SelectedPlain ==> n in kept
    ensures Select(Assign(kept + dummies, CyclicAdded), SelectedNames) == Ok(SelectedNames)
  {
    var encoded := Assign(kept + dummies, CyclicAdded);
    assert forall n :: n in SelectedNames ==> n in SelectedPlain || n in CyclicAdded;
    assert forall n :: n in SelectedNames ==> n in encoded;
  }
}
