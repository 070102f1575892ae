# Hotel-booking data preparation, modelled in Dafny

This project models the data-preparation core of a hotel-booking
cancellation study. A booking table passes through these stages:

- **Feature engineering.** `util/feature_engineering.py` and its earlier
  version `feature_engineering_function.py` derive room, party, ratio and
  calendar features from every booking.
  - The arrival date is built from year, month name and day.
  - The booking date is `lead_time` days earlier.
  - Each date gets its ISO week, season, weekday and special-day flags.
- **Encoding.** `util/encode.py` applies one-hot, frequency or circular
  (sine/cosine) encoding.
- **Cleaning.** `util/data_cleaning.py` fills three columns with the
  training split's modes and drops rows that have babies but no adults.
- **Outliers.** `util/handle_outlier.py` filters the training split with
  ten range checks.
- **Scaling.** Two versions of the scaler are modelled:
  - `data_scaling.py` scales the non-binary numeric columns in place;
  - `util/data_scaling.py` scales a copy and can return the fitted scaler.
- **Pipeline.** `main.py` chains the stages on the train, validation and
  hold-out splits.

Modules:

| module | file | models |
|---|---|---|
| `Common` | common.dfy | results, counting, lower-casing, string order |
| `Tables` | tables.dfy | the frame: `Table` values and the `Frame` class whose methods change a frame in place |
| `Calendar` | calendar.dfy | proleptic Gregorian calendar, weekdays, month names, seasons, ISO weeks, the nanosecond Timestamp range |
| `Bookings` | bookings.dfy | the raw booking row, shared flags, date parsing, calendar columns, `x / (y + 1e-10)` ratios |
| `Features` | features.dfy | `util/feature_engineering.py` |
| `FeaturesV1` | features_v1.dfy | `feature_engineering_function.py` |
| `OneHot` | onehot.dfy | `pd.get_dummies(..., drop_first=True, dtype=int)` |
| `Encode` | encode.dfy | `util/encode.py` |
| `Cleaning` | cleaning.dfy | `util/data_cleaning.py` |
| `Outlier` | outlier.dfy | `util/handle_outlier.py` |
| `Scaling` | scaling.dfy | `data_scaling.py` and `util/data_scaling.py` |
| `Pipeline` | pipeline.dfy | `main.py` lines 26-36 |

How the model represents the frames:

- A cell is `Int`, `Num` (a real), `Text` or `Missing` (pandas NaN/NA).
- A row maps column labels to cells.
- A `Table` is a list of distinct labels plus rows keyed by exactly those
  labels.
- Code that updates a frame in place works on a `Frame` object, and its
  methods are proved against functions on `Table` values.

Each feature function takes a batch of typed `Booking` records. It returns
the derived rows, or the date error pandas would raise.

## Model

| member | source | states |
|---|---|---|
| Bookings.SharedFlagsOfDescribed | util/feature_engineering.py:15-58 | the room and party flags are 0/1; the room flag is 1 iff reserved == assigned; no booking is both children-only and adults-only; the weekday flag is 1 iff adults-only and the arrival day is not Saturday or Sunday |
| Bookings.ArrivalDay | util/feature_engineering.py:44-46 | parsing succeeds iff the month name is known, (year, month, day) is a valid date and it lies within the Timestamp range, and then gives that date; a valid date outside the range is the out-of-bounds error, anything else the unparseable error |
| Bookings.BookingDay | util/feature_engineering.py:61 | booking day + lead time == arrival day, within the Timestamp range; an error exactly when the lead time exceeds the Timedelta range or the booking day leaves the Timestamp range |
| Bookings.ArrivalDays | util/feature_engineering.py:44-46 | the batch succeeds iff every row parses, and then gives each row's day in order |
| Bookings.BookingDays | util/feature_engineering.py:61 | the batch succeeds iff every row's booking day is in range, and then gives each row's booking day in order |
| Bookings.BatchDaysSucceed | util/feature_engineering.py:44-61 | when every row's dates are in range, both batch conversions succeed |
| Bookings.BookingDateColumns | util/feature_engineering.py:61-77 | the booking columns are the year, month name and number, day, ISO week (1..53, the week of its Thursday) and season of the booking day |
| Bookings.ArrivalDateColumns | util/feature_engineering.py:44-49 | the arrival timestamp is the raw year/month/day; its weekday name, month number and season follow from it |
| Bookings.DayFlagColumns | util/feature_engineering.py:89-106 | each special-day flag is 1 iff (month, day) is listed; each weekend flag is 1 iff the day is Saturday or Sunday |
| Bookings.EpsilonRatioMeaning | util/feature_engineering.py:118-136 | the ratio is exactly x / (y + 1e-10); it is defined for y >= 0 and non-negative when x is too |
| Calendar.DaysBeforeYearBounds | util/feature_engineering.py:44-46 | 146097(y-1) - 800 < 400 * days-before-year(y) < 146097(y-1) + 400, the bound that locates a day's year |
| Calendar.CivilFromDays | util/feature_engineering.py:64-67 | the date of a day number is a valid date that maps back to that day number |
| Calendar.CivilRoundTrip | util/feature_engineering.py:44-46 | date → day number → date is the identity on valid dates |
| Calendar.DaysFromCivilInjective | util/feature_engineering.py:61 | different valid dates have different day numbers |
| Calendar.Weekday | util/feature_engineering.py:49 | the weekday index is in 0..6, and day 0 (1970-01-01) is a Thursday (3) |
| Calendar.NextWeekday | util/feature_engineering.py:49 | each next day is the next weekday, Sunday (6) followed by Monday (0) |
| Calendar.WorkingDayNames | util/feature_engineering.py:57 | a day's name is one of Monday..Friday iff its weekday is not 5 or 6 (Saturday/Sunday) |
| Calendar.MonthFromName | util/feature_engineering.py:81-87 | a known name maps to the month 1..12 whose name it is |
| Calendar.MonthNameRoundTrip | util/feature_engineering.py:81-87 | month → name → month is the identity; only the twelve names are mapped |
| Calendar.ThreeMonthsPerSeason | util/feature_engineering.py:71-76 | each season has exactly its three months: Dec-Feb, Mar-May, Jun-Aug, Sep-Nov |
| Calendar.IsoWeekNumberIsIso | util/feature_engineering.py:66 | the week computed pandas' way equals the week of the date's Thursday, and is in 1..53 |
| Calendar.FirstThursdayIsInWeekOne | util/feature_engineering.py:66 | the first Thursday of a year falls in ISO week 1 |
| Calendar.TimestampRangeDates | util/feature_engineering.py:44-46 | the Timestamp range is 1677-09-22 .. 2262-04-11, with 1970-01-01 as day 0 |
| Features.PercentageBounds | util/feature_engineering.py:109-116 | the cancellation percentage is in [0, 100]; it is 0 with no previous bookings, otherwise cancellations / total * 100 |
| Features.AgentColumn | util/feature_engineering.py:185-186 | one filled agent per booking, in order; a missing agent becomes "unknown" |
| Features.PartyOf | util/feature_engineering.py:195-208 | total people is adults + children + babies (missing when children is); solo is 1 iff that total is 1 |
| Features.RatiosOfDescribed | util/feature_engineering.py:19-166 | each ratio column is its numerator / (denominator + 1e-10) |
| Features.FlagsOfDescribed | util/feature_engineering.py:145-205 | all eight flags are 0/1; an unchanged room is never downgraded, upgraded or a changed room; the repeated-guest flag is 1 iff a repeated guest's room changed; downgrade and upgrade exclude each other, as do early-refundable and late-non-refundable, and late booking and early-refundable; a late booking has lead time under 30; the meal flags need a no-meal plan |
| Features.DeriveHistory | util/feature_engineering.py:109-116 | the previous-booking total is the sum of its two inputs; the percentage is in [0, 100] for non-negative counts and 0 when there are none |
| Features.DeriveDescribes | util/feature_engineering.py:15-208 | every derived row satisfies all of the column descriptions above; country and agent are filled with "unknown"; the low-activity flag is 1 iff the agent has fewer than 1000 bookings in the batch; an adults-on-weekday booking never arrives on a weekend |
| Features.FeatureEngineeringFails | util/feature_engineering.py:44-61 | the batch succeeds iff every row's arrival and booking dates are within range |
| Features.FeatureEngineeringRows | util/feature_engineering.py:15-228 | one output row per booking, in order, each described by the column rules |
| Features.OutputColumnsSucceed | util/feature_engineering.py:211-225 | the final drop succeeds iff every dropped label exists after the assignments |
| Features.OutputColumnsLabels | util/feature_engineering.py:211-228 | the returned labels are the input plus the added ones, minus the 11 dropped, in order and without repeats |
| FeaturesV1.RatiosOfDescribed | feature_engineering_function.py:23-42 | the five ratios are numerator / (denominator + 1e-10); the total stay is weekend + week nights |
| FeaturesV1.DeriveDescribes | feature_engineering_function.py:19-111 | every derived row satisfies the shared flag and calendar descriptions and this version's special days (with April 1, without Dec 24 and May 1) |
| FeaturesV1.FeatureEngineeringFails | feature_engineering_function.py:51-68 | the batch succeeds iff every row's dates are within range |
| FeaturesV1.FeatureEngineeringRows | feature_engineering_function.py:19-113 | one described row per booking, in order |
| FeaturesV1.OutputColumns | feature_engineering_function.py:19-113 | nothing is dropped: the input labels stay in front, all 25 added labels are present, none repeats |
| OneHot.Insert | util/encode.py:26 | inserting into a strictly increasing list keeps it strictly increasing, with exactly the old elements plus the new one |
| OneHot.Levels | util/encode.py:26 | the levels are strictly increasing and are exactly the text values of the column |
| OneHot.DummiesOfColumn | util/encode.py:26 | a column has a dummy for a level iff the level occurs and is not the smallest |
| OneHot.GetDummies | util/encode.py:26 | KeyError iff a listed column is absent, naming such a column |
| OneHot.GetDummiesMeaning | util/encode.py:26 | the kept columns stay in front, in order and unchanged, followed by the dummy columns; a dummy is 1 iff the row holds its level |
| OneHot.AtMostOneDummy | util/encode.py:26 | no two dummies of one column are 1 in the same row |
| OneHot.DropFirstMeaning | util/encode.py:26 | all dummies of a column are 0 iff the cell is missing or the smallest level |
| Encode.ParseIgnoresCase | util/encode.py:23 | the method name is read case-insensitively |
| Encode.AliasesSelect | util/encode.py:25-42 | the three alias sets are disjoint; each alias selects its encoding; any other name is a ValueError |
| Encode.EncodeEach | util/encode.py:29-32 | the in-place loop leaves the frame exactly as the loop-then-drop specification says, or stops at the first absent column |
| Encode.EncodeStepsPrefix | util/encode.py:29-31 | after the loop has handled the first m columns, the frame holds exactly their new columns |
| Encode.EncodeEachOutcome | util/encode.py:29-39 | a missing column fails after the new columns of the columns before it are added, and nothing is dropped; otherwise every new column is added and the listed ones are dropped |
| Encode.EncodedAndDroppedValues | util/encode.py:29-39 | each new column holds the encoding of its source column, row by row |
| Encode.EncodeEachFailure | util/encode.py:29-39 | a failure names a listed column absent from the input |
| Encode.FrequencyCellMeaning | util/encode.py:30-31 | a present value encodes as its number of occurrences (1..rows); a missing value stays missing |
| Encode.FrequencyEncodingColumns | util/encode.py:28-32 | with all columns present, frequency encoding replaces each `c` by `c_frequency_encoded` |
| Encode.FrequencyEncodingValue | util/encode.py:28-32 | the `c_frequency_encoded` cell is the count of the row's value in `c` |
| Encode.MaxOf | util/encode.py:36 | the column maximum is attained by a numeric cell and bounds every numeric cell; none iff no cell is numeric |
| Encode.CircularOnUnitCircle | util/encode.py:36-38 | the sine and cosine cells are defined together, and sin² + cos² == 1 |
| Encode.CircularWraps | util/encode.py:36-38 | a value equal to the maximum encodes like 0 (a full turn) |
| Encode.EncodeResult | util/encode.py:23-44 | unknown name ⇒ ValueError with the frame untouched; one-hot leaves the caller's frame alone; frequency/circular return the caller's frame itself; any other error is a listed column that is absent; circular encoding is only defined on numeric or missing cells |
| Encode.Encode | util/encode.py:23-44 | the caller's frame and the returned frame are exactly those given by the value-level result; one-hot returns a fresh frame, the others the caller's |
| Encode.EncodeCopy | util/encode.py:10-11 | the returned frame is a different object with the documented result; the caller's frame is not modified |
| Encode.FrequencyChangesCaller | util/encode.py:28-32 | frequency encoding, under any method name that parses to it, succeeds and removes the listed columns from the caller's own frame |
| Encode.EncodeChangesCaller | util/encode.py:10-11 | a one-row frame with only `country` differs after frequency encoding, against the documented promise |
| Encode.ColumnListsDisjoint | util/encode.py:51-70 | no column is listed for two encodings |
| Encode.ColumnListsSeparate | util/encode.py:68-70 | the new labels of the frequency and circular lists are distinct and do not reuse an encoded column's name |
| Cleaning.Best | util/data_cleaning.py:35-37 | the chosen candidate is one of them and is not beaten by any other |
| Cleaning.Mode | util/data_cleaning.py:35-37 | `mode()[0]`: an element of highest count, the smallest among those |
| Cleaning.ModeIsUnique | util/data_cleaning.py:35-37 | any value meeting the mode's description is the mode |
| Cleaning.Present | util/data_cleaning.py:35-37 | the non-missing integers keep each value's count |
| Cleaning.ColumnMode | util/data_cleaning.py:35-37 | an all-missing column has no mode (`mode()[0]` raises); otherwise the mode of the present values |
| Cleaning.ModesOf | util/data_cleaning.py:34-38 | succeeds iff all three columns have a mode, and then holds those modes |
| Cleaning.Cleaned | util/data_cleaning.py:41-48 | the result keeps the columns, has no more rows, and still meets the cleaner's input conditions |
| Cleaning.CleanedIsClean | util/data_cleaning.py:41-48 | afterwards the three columns have no missing cell and no row has babies without adults |
| Cleaning.CleanedKeepsConsistentRows | util/data_cleaning.py:42-48 | every row without babies-but-no-adults survives, filled |
| Cleaning.CleanedRowsComeFromInput | util/data_cleaning.py:42-48 | every surviving row is a filled input row without babies-but-no-adults |
| Cleaning.CleanedKeepsOrder | util/data_cleaning.py:42-48 | the surviving rows keep their order (cleaning distributes over any split of the frame) and each filled consistent row keeps its multiplicity |
| Cleaning.CleanedOfClean | util/data_cleaning.py:41-48 | cleaning a clean frame changes nothing |
| Cleaning.CleanedIdempotent | util/data_cleaning.py:41-48 | cleaning twice equals cleaning once |
| Cleaning.Apply | util/data_cleaning.py:41-48 | the frame becomes the cleaned frame |
| Cleaning.DataCleaning | util/data_cleaning.py:3-53 | no mode ⇒ error and both frames untouched; otherwise both frames are cleaned with the training frame's entry modes (also when they are the same frame) and `df` is returned |
| Outlier.SequentialIsOneFilter | util/handle_outlier.py:2-11 | ten successive filters equal one filter by their conjunction |
| Outlier.HandleOutlier | util/handle_outlier.py:1-13 | same columns; a row is kept iff it passes every check; never more rows |
| Outlier.HandleOutlierKeepsOrder | util/handle_outlier.py:1-13 | the kept rows are the passing rows in their original order, with multiplicity |
| Outlier.HandleOutlierIdempotent | util/handle_outlier.py:1-13 | applying it twice equals applying it once |
| Scaling.NumericAmong | data_scaling.py:7 | keeps exactly the numeric listed columns, without repeats when the list has none |
| Scaling.NumericAmongInOrder | data_scaling.py:7 | any two selected columns occur in the list in the same order |
| Scaling.NonBinaryAmong | data_scaling.py:10-13 | keeps exactly the listed columns with a numeric value other than 0 and 1, without repeats when the list has none |
| Scaling.NonBinaryAmongInOrder | data_scaling.py:7-13 | any two selected columns occur in the list in the same order; with the frame's columns as the list, they keep frame order |
| Scaling.NumericColumns | util/data_scaling.py:46-47 | exactly the numeric columns of the frame, without repeats (frame order by NumericAmongInOrder) |
| Scaling.NonBinaryColumns | data_scaling.py:7-13 | exactly the numeric, non-binary columns, without repeats (frame order by NonBinaryAmongInOrder) |
| Scaling.Min | util/data_scaling.py:49-51 | the minimum is attained and bounds every value |
| Scaling.Max | util/data_scaling.py:49-51 | the maximum is attained and bounds every value |
| Scaling.FitColumn | util/data_scaling.py:37-51 | a fitted scale is never 0; min-max fits centre = minimum and scale = range (1 when the range is 0), so the scale is positive |
| Scaling.Fit | util/data_scaling.py:49-51 | one fitted transform for each listed column, and only those |
| Scaling.Transform | util/data_scaling.py:51 | same columns and rows; unlisted cells unchanged; numeric cells become (x - center) / scale |
| Scaling.ScaleRoundTrip | util/data_scaling.py:49-51 | a fitted transform loses nothing: the affine inverse of a scaled number gives it back |
| Scaling.ScaleMonotone | util/data_scaling.py:49-51 | scaling keeps the order of numbers |
| Scaling.MinMaxRange | util/data_scaling.py:22 | after min-max scaling every numeric cell of a scaled column is in [0, 1] |
| Scaling.ScalerByLowerName | util/data_scaling.py:37-44 | a scaler is found iff the lower-cased name is one of the three names, and it is the one the exact lookup gives for the lower-cased name |
| Scaling.ScalerNameIgnoresCase | util/data_scaling.py:37-41 | a name and its lower-case form find the same scaler; every name the in-place version accepts finds the same scaler here |
| Scaling.ScaleCopy | util/data_scaling.py:6-53 | unknown name ⇒ ValueError; an absent listed column ⇒ KeyError naming it; with the columns present, ValueError iff no column is selected or the frame has no row; on success the scaler is returned iff asked for and the copy keeps columns and row count |
| Scaling.ScaleCopyMeaning | util/data_scaling.py:46-53 | on success the frame is the listed columns transformed with a transform fitted on this frame |
| Scaling.ScaleCopyDefault | util/data_scaling.py:46-51 | with no column list every numeric column is scaled; a frame without a row or a numeric column raises ValueError |
| Scaling.ScaleInPlace | data_scaling.py:3-24 | unknown name ⇒ error and the frame unchanged; no non-binary numeric column ⇒ ValueError and the frame unchanged; otherwise the frame becomes its own transform fitted on its non-binary numeric columns |
| Scaling.NoRowsNothingToFit | data_scaling.py:10-13 | a frame without rows has no non-binary column, so the in-place scaler raises on it |
| Scaling.ScaleInPlaceColumns | data_scaling.py:10-24 | binary and non-numeric columns are left as they were |
| Scaling.NameMatching | data_scaling.py:15-22 | "MinMax" is rejected by the in-place version and accepted by the copying one |
| Pipeline.CleanedTraining | main.py:26 | the cleaned training split still has its three mode columns holding integers or missing cells, so its modes can be taken again |
| Pipeline.CleanedModes | main.py:26-27 | the cleaned training split has modes iff at least one of its rows survives the cleaning |
| Pipeline.CleanedChecked | main.py:26-31 | the cleaned training split still meets the outlier checks' input conditions |
| Pipeline.MinMaxCopy | main.py:34-36 | `scale(x, method="minmax")` fails with ValueError iff `x` has no row or no numeric column; otherwise it is the min-max transform of every numeric column, fitted on `x` itself |
| Pipeline.MinMaxCopyRange | main.py:34-36 | every scaled numeric cell is in [0, 1] |
| Pipeline.Unscaled | main.py:26-31 | fails iff the training split has no modes, or its cleaning removes every row (then the cleaned split has none); the validation and hold-out splits are cleaned with the modes of the already cleaned training split |
| Pipeline.Prepared | main.py:26-36 | a cleaning error stops the pipeline; otherwise the result is that of scaling the three cleaned splits one after the other |
| Pipeline.PreparedOutcome | main.py:26-36 | after a successful cleaning the pipeline raises ValueError iff a cleaned split has no row or no numeric column; otherwise the outputs are well formed and keep their columns and row counts |
| Pipeline.ScaleEach | main.py:34-36 | the three splits are scaled each with its own scaler; success iff each has a row and a numeric column; columns and row counts kept |
| Pipeline.Prepare | main.py:26-36 | runs the cleanings, the outlier filter and the three scalings on the frames and returns exactly the value-level result, scaler errors included; when the first modes are missing no frame changes; otherwise the training frame is cleaned, and the validation and hold-out frames are cleaned with the cleaned training frame's modes or, when those are missing, left as they were |
| Pipeline.CleanSplits | main.py:26-28 | the three in-place cleanings fail exactly when the value-level cleaning does, with its error; when the first modes are missing no frame changes; on success the training frame with its outliers removed, and the validation and hold-out frames, are the cleaned splits |
| Pipeline.UnscaledMeaning | main.py:26-31 | all three splits are clean, the training rows pass every outlier check, and no split gains rows |
| Pipeline.UnscaledModes | main.py:26-28 | every consistent validation and hold-out row survives with its missing cells of the three columns set to the modes of the cleaned training split |
| Pipeline.PreparedRange | main.py:34-36 | every numeric cell of every scaled split is in [0, 1] |
| Pipeline.RefitDisagrees | main.py:34-36 | the same adr 50 scales to 0.5 in training and 0.0 in validation |
| Pipeline.PreparedWithTrainScaler | util/data_scaling.py:26-28 | the corrected pipeline: cleaning as before, then one scaler fitted on the training split applied to all three |
| Pipeline.ScaleWithTrain | util/data_scaling.py:26-28 | with a training scaler, success iff the training split has a row and a numeric column and the other splits have a row; the other splits keep their columns and row counts |
| Pipeline.SharedScalerKeepsTrain | util/data_scaling.py:26-28 | wherever the original pipeline succeeds the corrected one does too, with the same training output |
| Pipeline.SameTrainScaling | util/data_scaling.py:26-28 | on any cleaned splits where scaling each on its own succeeds, the shared training scaler succeeds and gives the same training output |
| Pipeline.SharedScalerAgrees | util/data_scaling.py:26-28 | equal raw values of a training column scale to equal values in training and validation |
| Tables.Frame.SetColumn | util/encode.py:31 | `df[name] = values`: the frame becomes the value with that column assigned |
| Tables.Frame.FillMissing | util/data_cleaning.py:42-44 | `fillna(v, inplace=True)`: only the missing cells of the column change, to `v` |
| Tables.Frame.KeepRows | util/data_cleaning.py:47-48 | `drop(index=..., inplace=True)`: the frame keeps exactly the rows that pass, in order |
| Tables.Frame.DropColumns | util/encode.py:32 | `drop(columns=..., inplace=True)`: KeyError with the frame unchanged, or the labels removed |
| Tables.Frame.Copy | util/data_scaling.py:50 | `df.copy()`: a fresh frame with the same value |
| Tables.Filter | util/handle_outlier.py:2-11 | a boolean mask keeps exactly the passing rows and never adds rows |
| Tables.FilterFilter | util/handle_outlier.py:2-11 | two masks in a row equal one mask by their conjunction |
| Tables.DropLabels | util/feature_engineering.py:211-225 | `drop(columns=...)` succeeds iff every label exists, and then removes exactly those labels |
| Tables.AssignThenDrop | util/feature_engineering.py:15-225 | assigning columns and then dropping some succeeds iff each dropped label is present afterwards, leaving the expected labels |

## Left out

- **Caller frames.** `util/feature_engineering.py` assigns its new
  columns into the caller's frame before the final `drop` returns a new
  one. `feature_engineering_function.py` has no final drop and returns the
  caller's own frame with its new columns (line 113). The model only
  returns the derived rows; the caller's frame after either call, and the
  aliasing of the returned frame, are not modelled.
- FeaturesV1.FeatureEngineering: `feature_engineering_function.py` never
  imports pandas, so `pd.to_datetime` (line 51) raises NameError unless
  the calling namespace provides `pd`. The model assumes it does and
  always derives the dates.
- **I/O and split.** Reading the CSV (`main.py:10-11`) is left out. The
  train/validation/hold-out split (`util/split.py`) becomes the pipeline's
  three inputs.
- **Other scripts.** SMOTE, the visualisations and the download script are
  not part of this model.
- **Feature to encoding bridge.** The step from the typed feature rows to
  the generic frame that `encode` receives (`main.py:14-19`) is not
  composed. `Features` and `Encode` are proved separately.
- **Floating point.** Cells hold exact reals.
  - The `1e-10` ratios are exact rationals. The one division by zero
    (a denominator of -1e-10) gives a missing cell in the model, where
    pandas gives +inf or -inf for a non-zero numerator and NaN only for
    0 / 0.
  - `sin`, `cos` and `pi` are parameters (`Encode.Trig`), of which the
    model relies only on sin² + cos² = 1 and 2π periodicity.
- **Standard and robust statistics.** Their mean, deviation, median and
  IQR are parameters (`Scaling.Statistics`). Only min-max is computed.
- **Standard and robust scaling results.** Scaled cells are proved to be
  `(x - center) / scale`; no statement is made about their mean, variance
  or quantiles.
- **pandas dtypes.** Outside the modelled ones:
  - the `astype(str)` of agents is taken to yield the agent's text;
  - `Int64` columns are `Int` cells;
  - NaN is `Missing`.
- **Preconditions in place of other pandas errors.** The model requires
  these conditions instead of modelling the errors pandas or sklearn would
  raise when they fail:
  - `OneHot.GetDummies` requires text columns and fresh dummy labels
    (`OneHot.TextColumns`, `OneHot.FreshLabels`);
  - circular encoding requires the listed columns to hold numbers or
    missing cells (`Encode.CircularReady`), where `2 * np.pi * df[col]`
    raises TypeError on text;
  - the outlier checks require numeric or missing cells;
  - `Cleaning.DataCleaning` requires the five columns it reads;
  - `Scaling.ScaleCopy` requires listed columns to be numeric when present.
- **Columns without values.** A selected column whose cells are all
  missing is fitted with the identity in the model, where scikit-learn fits
  NaN parameters; its cells stay missing either way.
- Cleaning.DataCleaning: `df["babies"] > 0` (`util/data_cleaning.py:47`)
  raises TypeError when the `babies` column holds a string. The model
  does not model that error: a text `babies` cell compares false, so
  its row counts as consistent and is kept.
- Tables.Frame.KeepRows: `drop(index=bad_rows)` removes rows by index
  label, so it also removes any other row sharing a label with a bad row.
  The model has no index: it assumes unique labels, as a freshly read or
  split frame has, and removes exactly the bad rows.
- Scaling.NumericColumns: `select_dtypes(include="number")` decides by the
  column's dtype. The model decides by the cells: a column whose cells are
  all numbers or missing counts as numeric. An object column of numbers,
  or an all-None object column, is therefore selected by the model and not
  by pandas.
- `Cleaning.DataCleaning`: returns `df` as the code does. The documented
  return value (the dict of modes) is not produced.
- **Frequency counts.** `value_counts` is modelled as counting equal cells;
  its ordering and hashing do not affect the encoded values.

## Findings

| source | as written | input that shows it | evidently intended | confidence | as-written member | corrected member |
|---|---|---|---|---|---|---|
| util/encode.py:10-11 | frequency and circular encoding assign to and `drop(..., inplace=True)` the caller's frame | a frame with one `country` column of `"PRT"`, method `"freq"`: the caller's frame loses `country` | the caller's frame stays unchanged and a new frame is returned | not executed | Encode.EncodeChangesCaller | Encode.EncodeCopy |
| main.py:34-36 | each split is min-max scaled with a scaler fitted on that split | training adr [0, 50, 100], validation adr [50, 100]: adr 50 becomes 0.5 in training and 0.0 in validation | one scaler fitted on the training split, reused on validation and hold-out (as `util/data_scaling.py:26-28` describes) | not executed | Pipeline.RefitDisagrees | Pipeline.SharedScalerAgrees |
