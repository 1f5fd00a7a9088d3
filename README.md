# Rossmann sales-prediction preprocessing, modelled in Dafny

The Rossmann store-sales service passes each batch of raw store-day rows through three stages of its `Rossmann` class. The model then predicts the day's sales from the result. The three stages are:

- `data_cleaning` renames the 16 raw columns to snake case. It fills the missing competition and promo2 fields from the row's own date and gives a missing distance the value 200000. It adds the month abbreviation and an `is_promo` flag that says whether a promo2 round starts in that month.
- `feature_engineering` derives these columns:
  - the year, month and day, and the ISO 8601 week;
  - a year/`%W`-week pair;
  - the date the competitor opened, and the whole 30-day periods since then;
  - the Monday the promo2 round started (parsed from year and week, then moved back one week), and the whole weeks since then.

  It then spells out the assortment and state-holiday codes and drops `open`, `promo_interval` and `month_map`.
- `data_preparation` rescales, encodes and selects. It maps the assortment names to 1, 2 and 3, turns the date parts into sine/cosine pairs, and selects the 20 model inputs in a fixed order.

The project models each stage twice:

- **Rows**: one datatype per stage (`RawRow`, `CleanRow`, `FeatureRow`, `FeatureVector`) and a per-row function for each stage.
- **Frames**: the stages as methods over arrays of rows. The column names travel alongside and are checked the way pandas checks them: a positional rename, `KeyError` on a missing column, `drop`, and selection.

The calendar underneath is modelled on Python's proleptic Gregorian day ordinals. It covers `date.isocalendar()`, `strftime('%W')`, the `strptime('%Y-%W-%w')` week parser, and day differences divided with floor division.

Modules and files:

| file | module | what it holds |
|---|---|---|
| `wrappers.dfy` | `Wrappers` | `Option` and `Result` |
| `calendar.dfy` | `Calendar` | dates, day ordinals, weekdays, and the inverse of the ordinal |
| `weeks.dfy` | `WeekNumbering` | ISO weeks, `%W` weeks, and the week parser |
| `tokens.dfy` | `Tokens` | `str.split(',')` and its inverse |
| `columns.dfy` | `Columns` | the column names of every stage and the frame errors |
| `cleaning.dfy` | `Cleaning` | `data_cleaning` of a row |
| `features.dfy` | `Features` | `feature_engineering` of a row, and the error a frame raises |
| `preparation.dfy` | `Preparation` | the assortment map, the symbolic encodings and the 20-column vector |
| `pipeline.dfy` | `Pipeline` | the frame-level methods and their composition |

Two choices in the code shape what the derived counts mean, and the model keeps both:

- The elapsed "months" and "weeks" are floor divisions of the day difference by 30 and by 7, as `Timedelta / n` followed by `.days` computes them. They are not calendar months or ISO weeks.
- The promo2 start is parsed with `%W`, which numbers weeks from Monday and has a week 0 before the year's first Monday. The week filled into missing rows is an ISO week, and the model mixes the two numberings exactly as the code does. `Features.PromoOfOwnWeek` and `Features.PromoAcrossYearEnd` state the consequences.

## Model

| member | source | states |
|---|---|---|
| Calendar.OrdinalBounds | rossmann/Rossmann.py:90-96 | Every valid date has an ordinal between 1 (0001-01-01) and 3652059 (9999-12-31). |
| Calendar.FromOrdinalOrdinal | rossmann/Rossmann.py:90-96 | Every valid date has an ordinal in 1..3652059 (the `datetime` range), and converting that ordinal back gives the same date. Date differences are therefore differences of ordinals. |
| Calendar.OrdinalInjective | rossmann/Rossmann.py:91 | Two valid dates with the same ordinal are the same date, so a difference of zero days means the same day. |
| Calendar.FromOrdinal | rossmann/Rossmann.py:95 | Every ordinal in the `datetime` range is the ordinal of exactly one valid date. This is the conversion the week parser ends with. |
| WeekNumbering.IsoWeek | rossmann/Rossmann.py:84 | The ISO week of a valid date is in 1..53. |
| WeekNumbering.IsoCalendarSpec | rossmann/Rossmann.py:84 | `isocalendar()` places a date of year y in the week-numbering year y-1, y or y+1, with a week in 1..53 and a weekday of Monday=1. In each of the three cases, the date lies between that year's week-1 Monday and the next year's, exactly 7·(week-1)+(weekday-1) days after the first. |
| WeekNumbering.IsoWeekWithinYear | rossmann/Rossmann.py:84 | A date on or after its own year's week-1 Monday and before the next year's is in its own ISO year. Its ISO week is then the number of whole weeks since that Monday, plus one. |
| WeekNumbering.Week1MondaySpec | rossmann/Rossmann.py:84 | The Monday that starts ISO week 1 is the one whose week contains January 4th. |
| WeekNumbering.MondayWeek | rossmann/Rossmann.py:87 | `%W` gives a week in 0..53. |
| WeekNumbering.MondayWeekForm | rossmann/Rossmann.py:87 | The Monday starting a date's week is 7·(%W week - 1) days after the year's first Monday. Week 0 occurs only when January 1st is not a Monday. |
| WeekNumbering.ParseYearWeekMonday | rossmann/Rossmann.py:95 | `strptime(y-w-1, '%Y-%W-%w')` succeeds exactly when the year is 4 digits (1000..9999), the week is in 0..53 and the Monday lies within the `datetime` range. It then returns that Monday, 7·(w-1) days after the year's first Monday for w ≥ 1. |
| WeekNumbering.ParseMondayWeek | rossmann/Rossmann.py:87-95 | Round trip: parsing a date's own year and `%W` week gives the Monday of the date's week. |
| WeekNumbering.ParsedWeekStart | rossmann/Rossmann.py:87-95 | The parser's day arithmetic, applied to a date's year and `%W` week, lands on the Monday that starts the date's week. |
| WeekNumbering.Week1MondayVersusFirstMonday | rossmann/Rossmann.py:84-95 | ISO week 1 starts a week before the year's first Monday when January 1st is a Tuesday, Wednesday or Thursday, and on it otherwise. |
| WeekNumbering.IsoWeekVersusMondayWeek | rossmann/Rossmann.py:84-95 | Within the ISO year that equals the calendar year, the ISO week is the `%W` week plus 1 when January 1st is a Tuesday, Wednesday or Thursday, and equals it otherwise. |
| Tokens.Split | rossmann/Rossmann.py:67 | `split(',')` gives at least one field, and no field contains a comma. |
| Tokens.JoinSplit | rossmann/Rossmann.py:67 | Joining the fields of a split with commas rebuilds the text. |
| Tokens.SplitJoin | rossmann/Rossmann.py:67 | Splitting comma-free fields joined by commas gives the fields back. |
| Tokens.InSplitIff | rossmann/Rossmann.py:67 | A comma-free word is among the split fields exactly when it occurs in the text bounded by commas or by the text's ends. |
| Columns.Rename | rossmann/Rossmann.py:28 | Assigning `df.columns` succeeds exactly when the lengths agree. The i-th column then takes the i-th new name. |
| Columns.RenameIsPositional | rossmann/Rossmann.py:20-28 | Any 16 input columns are renamed to the 16 snake-case names, whatever they were called. |
| Columns.Assign | rossmann/Rossmann.py:66-67 | Assigning columns keeps the existing ones in place and adds exactly the new names. |
| Columns.Drop | rossmann/Rossmann.py:107-108 | `drop` succeeds exactly when every name is a column. What is left is the other columns. |
| Columns.Require | rossmann/Rossmann.py:75-102 | Reading columns succeeds exactly when every name is a column. Otherwise the KeyError names a missing column. |
| Columns.Select | rossmann/Rossmann.py:184 | `df[cols]` succeeds exactly when every name is a column, and then gives exactly the named columns in the given order. Otherwise the KeyError names a requested column that is missing. |
| Columns.CleaningColumns | rossmann/Rossmann.py:20-67 | Cleaning a frame succeeds on its columns exactly when it has 16 of them. |
| Columns.CleaningColumnsExact | rossmann/Rossmann.py:20-67 | Cleaning a 16-column frame gives the 16 snake-case names followed by `month_map` and `is_promo`. |
| Columns.FeatureColumns | rossmann/Rossmann.py:71-108 | After feature engineering, the columns are the input and derived ones, minus `open`, `promo_interval` and `month_map`. |
| Columns.FeatureColumnsOfCleaned | rossmann/Rossmann.py:71-110 | Feature engineering accepts the cleaned columns. The result is the cleaned and derived columns except exactly the three dropped ones. |
| Columns.FeatureColumnsSecondPassFails | rossmann/Rossmann.py:107-108 | Feature engineering cannot be applied twice: the second `drop` raises KeyError on `open`. |
| Columns.PreparationColumns | rossmann/Rossmann.py:128-184 | When preparation succeeds on the columns, the result is the 20 selected names. |
| Columns.SelectionExact | rossmann/Rossmann.py:128-184 | For any state-holiday categories in the batch, a frame carrying the cleaned columns passes feature engineering and preparation. The result is exactly the 20 listed columns, in order. |
| Cleaning.MonthAbbreviation | rossmann/Rossmann.py:65 | A month's abbreviation is three letters with no comma. |
| Cleaning.FillMissing | rossmann/Rossmann.py:35-55 | After a fill, the field holds a value: the one it had where there was one, and the default where it was missing. |
| Cleaning.FillMissingIdempotent | rossmann/Rossmann.py:47-53 | Filling again changes nothing, so the repeated `promo2_since_week` fill is harmless. |
| Cleaning.IsPromo | rossmann/Rossmann.py:64-67 | The flag is 0 or 1, and it is 0 for the `fillna(0)` sentinel. |
| Cleaning.Clean | rossmann/Rossmann.py:17-69 | Cleaning keeps the date and attaches the abbreviation of its month. |
| Cleaning.CleanFills | rossmann/Rossmann.py:35-64 | A missing distance becomes 200000.0. Missing competition month and year become the date's month and year. A missing promo2 week becomes the date's ISO week (1..53), and a missing promo2 year the calendar year. A missing interval becomes the sentinel. Present values and all other fields are kept. |
| Cleaning.CleanExample | rossmann/Rossmann.py:35-67 | A row of 2015-07-31 with every optional field missing becomes: distance 200000.0, competition 7/2015, promo2 week 31 of 2015, month `Jul`, flag 0. |
| Cleaning.IsPromoIff | rossmann/Rossmann.py:65-67 | With an interval present, the flag is 1 exactly when the month's abbreviation is one of the comma-separated fields of the interval text. |
| Cleaning.CleanIsPromoIff | rossmann/Rossmann.py:64-67 | A cleaned row's `is_promo` is 0 or 1. It is 1 exactly when the row has a promo interval and the abbreviation of the row's month is one of its comma-separated fields. |
| Cleaning.SplitOfQuarterly | rossmann/Rossmann.py:67 | The interval text `Mar,Jun,Sept,Dec` splits into its four month names. |
| Cleaning.ExampleIsoWeek | rossmann/Rossmann.py:48 | 2015-07-31 lies in ISO week 31. |
| Cleaning.SeptemberNotMatched | rossmann/Rossmann.py:65-67 | That text never flags a September row, because it spells the month `Sept` and the map gives `Sep`. |
| Cleaning.DecemberMatched | rossmann/Rossmann.py:65-67 | The same text flags a December row. |
| Cleaning.NoIntervalNeverPromo | rossmann/Rossmann.py:64-67 | A row without a promo interval is never flagged, whatever its month. |
| Features.CompetitionSince | rossmann/Rossmann.py:90 | `datetime(year, month, 1)` succeeds exactly when the year is in 1..9999 and the month in 1..12. It gives the first of that month. |
| Features.CompetitionTimeMonth | rossmann/Rossmann.py:91 | The competition time is the floor of the day difference divided by 30. |
| Features.PromoSince | rossmann/Rossmann.py:94-95 | The promo start exists exactly when the week parse succeeds. It is then a Monday, 7 days before the parsed Monday. |
| Features.PromoTimeWeek | rossmann/Rossmann.py:96 | The promo time is the floor of the day difference divided by 7. |
| Features.AssortmentName | rossmann/Rossmann.py:99 | `a` is basic, `b` is extra, and every other code is extended, in both directions. |
| Features.StateHolidayName | rossmann/Rossmann.py:102 | `a`, `b` and `c` are the public, Easter and Christmas holidays; every other code is a regular day, in both directions. |
| Features.Derive | rossmann/Rossmann.py:71-108 | A row's features exist exactly when both the competition start and the promo2 start exist. A failing row reports the competition error exactly when its competition start fails. |
| Features.DeriveSpec | rossmann/Rossmann.py:75-102 | For derived rows: the date parts match the date; the week is the ISO week; the year/week pair is the date's year and `%W` week and parses back to the date's Monday; each start date and elapsed count has the stated relation to the date; the two names are the mapped codes. Store, day of week, date, promo flags, school holiday, store type, distance, the competition and promo2 fields and `is_promo` are passed through unchanged. |
| Features.CompetitionOfOwnMonth | rossmann/Rossmann.py:41-91 | A competition imputed from the row's own date opened on the first of its month. Its elapsed time is 0, or 1 on the 31st. |
| Features.PromoSinceDefined | rossmann/Rossmann.py:95 | Any year in 1000..9998 with a week in 0..53 parses. |
| Features.PromoOfOwnWeek | rossmann/Rossmann.py:48-96 | An imputed promo2 start (ISO week parsed as a `%W` week) gives an elapsed time of 0 weeks when January 1st is a Tuesday, Wednesday or Thursday, and 1 otherwise. This holds within the ISO year that equals the calendar year. |
| Features.PromoAcrossYearEnd | rossmann/Rossmann.py:48-96 | On 2016-01-01 (ISO week 53 of 2015), the imputed promo2 start lies in the following December, so the elapsed time is -52 weeks. |
| Features.NewYear2016IsoWeek | rossmann/Rossmann.py:48 | 2016-01-01, a Friday, is in ISO week 53. |
| Features.PromoSinceWeek53Of2016 | rossmann/Rossmann.py:94-95 | Week 53 of 2016 read as a `%W` week gives a promo start of 2016-12-26 (day 736324). |
| Features.FirstFailing | rossmann/Rossmann.py:90-95 | The first failing row, if any: no earlier row fails, and none at all when there is no result. |
| Features.DeriveFails | rossmann/Rossmann.py:90-95 | A row's derivation succeeds exactly when both start dates can be built. If it fails, the cause is the competition start when that one fails, and the promo2 start otherwise. |
| Features.FrameFailure | rossmann/Rossmann.py:39-95 | A frame without rows fails with the empty-batch error, because the first row-wise `apply` assigns a whole frame to one column. A frame with rows fails exactly when some row has a bad competition or promo2 start, and the error names a row of the frame. |
| Features.FrameFailureSpec | rossmann/Rossmann.py:39-95 | A frame with rows fails exactly when some row's derivation fails, and a frame without rows always fails. The reported row is one that fails with the reported cause. A promo2 error is reported only when no row has a bad competition start. |
| Preparation.AssortmentCode | rossmann/Rossmann.py:134-137 | The map gives a code exactly for basic, extra and extended, and the code is in 1..3. |
| Preparation.AssortmentRoundTrip | rossmann/Rossmann.py:99-137 | Every raw assortment code survives both maps: `a` becomes 1, `b` 2, and anything else 3. |
| Preparation.Prepare | rossmann/Rossmann.py:113-184 | A vector has an assortment code exactly when the name is basic, extra or extended. The distance and the competition time go through the competition-time scaler, and the promo time through the promo-time scaler. Each date part is encoded as a sine and a cosine of the same value over the same period. |
| Preparation.PrepareSpec | rossmann/Rossmann.py:113-184 | For a derived row, the prepared vector has an assortment code in 1..3. Store, promo, store type label and the competition and promo2 fields are the cleaned row's. The scalers receive the cleaned distance and the elapsed months and weeks computed from the row. The sine and cosine columns encode the day of week over 7, the month over 12, the day over 31 and the ISO week over 52. |
| Pipeline.MapRows | rossmann/Rossmann.py:35-67 | A per-row rule applied over a frame gives a new array with one result per row, in order. |
| Pipeline.CleanFrame | rossmann/Rossmann.py:17-69 | Cleaning a frame without rows fails with the empty-batch error. Otherwise it gives one cleaned row per raw row, in order, in a new array. |
| Pipeline.FindFirstFailing | rossmann/Rossmann.py:90-95 | The scan returns the first failing row, as the specification function does. |
| Pipeline.DeriveFrame | rossmann/Rossmann.py:71-110 | Feature engineering of a frame fails exactly when the frame has no rows or some row fails, with the reported error. Otherwise it gives one derived row per input row, in order, in a new array. |
| Pipeline.PrepareFrame | rossmann/Rossmann.py:112-184 | Preparation of a frame without rows fails, since a scaler refuses zero samples. Otherwise it gives one model input per row, in order, in a new array. |
| Pipeline.Categories | rossmann/Rossmann.py:128 | The categories `get_dummies` creates are exactly the distinct values, each once. |
| Pipeline.TransformRow | rossmann/Rossmann.py:17-184 | A row goes through the three stages exactly when its competition start and its promo2 start, with missing fields filled from the date, can be built. A failing row reports the competition error exactly when its competition start cannot be built. |
| Pipeline.Transform | rossmann/Rossmann.py:17-184 | The three stages in turn: a frame without 16 columns is refused by the rename, and a 16-column frame without rows fails with the empty-batch error. Otherwise the result fails exactly when feature engineering fails on the cleaned rows, and it succeeds with one model input per row, each the row's own transform, under exactly the 20 selected names, in a new array. |
| Pipeline.TransformRowComplete | rossmann/Rossmann.py:41-137 | A row that comes through has an assortment code in 1..3. It keeps its store and promo flags, and its competition and promo2-year fields are filled from its date. |
| Pipeline.ImputedRowTransforms | rossmann/Rossmann.py:41-96 | A row dated in 1000..9998 with all four competition and promo2 date fields missing always comes through. Its competition time before scaling is 0, or 1 on the 31st. |

## Left out

- Loading the four scalers and the label encoder from pickles in the constructor is file I/O and is not part of this model.
- `get_prediction` (model inference, `expm1`, JSON rendering) is not part of this model.
- The scalers and the label encoder are fitted again on every batch, and their output depends on the whole batch in floating point. The model records which scaler or encoder a value goes through and its input, not the number that comes out.
- The sine and cosine encodings are floating point. The model records the wave, the value and the period.
- `pd.to_datetime`: dates arrive as valid calendar dates. Date strings are not parsed.
- `inflection.underscore`: the snake-case names are written out as constants, not computed.
- The year/week column is the pair of the year and the `%W` week, not its `'%Y-%W'` text.
- pandas timestamps cover only the years 1677..2262. The model uses the full `datetime` range 1..9999 and does not model the out-of-range error.
- Features.Derive, Pipeline.TransformRow, Pipeline.Transform: the date differences at lines 91 and 96 are taken in int64 nanoseconds, so a gap of more than 106751 days (about 292 years) raises OverflowError even between dates inside 1677..2262. The model computes the difference for any gap and does not report that error.
- The filled float columns are cast to `int64`. The model takes the competition and promo2 fields as integers, so a non-integral or out-of-range float is not modelled.
- A `state_holiday` value that is the integer 0 rather than the text `'0'` is not distinguished. Both are taken as a regular day.
- The rescaled `year` column and the state-holiday indicator columns are computed but never selected. The model tracks them only as column names.
- Pipeline.Categories: pandas sorts the categories of `get_dummies`, and the model lists them in order of first appearance. The indicator columns are therefore appended in a different order, but the selection of the 20 model inputs does not depend on that order.
- Pipeline.CleanFrame, Pipeline.DeriveFrame, Pipeline.Transform: the source renames, fills and extends the caller's frame in place (lines 28-67 and 75-102), so the caller sees the cleaned and derived columns afterwards. The model returns new arrays and leaves its input untouched, so that aliasing is not captured.
