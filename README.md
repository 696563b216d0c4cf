# Yellow-taxi trip data contracts, modelled in Dafny

This project models the data contracts of a small yellow-taxi analysis
pipeline. It also models the row handling of the pipeline's analyzer and two
decisions made by its validation script. It proves what each of them
guarantees.

- **Schema engine** (`contracts.dfy`, module `Contracts`). This is the
  declarative contract in the shape the schema library gives it:
  - per-column declarations of type, nullability and checks (`isin`, `ge`, `le`,
    `> 0`, and a null fraction over the whole column);
  - whole-table checks (no repeated row, no all-missing row, pickup not after
    dropoff).

  `Conforms` says what it means for a batch to satisfy a contract. `Failures`
  lists the failures in the order validation finds them for a contract without
  coercion (for `get_taxi_data_schema`, which coerces, see "Left out"). `Validate` either
  returns the batch or reports the first failure, the way a non-lazy
  `schema.validate(df)` raises its schema error.
- **Trip rows** (`trip_data.dfy`). The nineteen trip columns and a row whose
  every cell may be missing. Columns are looked up by their exact
  (case-sensitive) header name. Timestamps are whole seconds. Money, distances
  and the float-typed codes are reals, since the contracts only compare them.
- **Frames** (`frames.dfy`). `duplicated()` and `drop_duplicates()` keep the
  first occurrence of every distinct row, in order. Missing cells compare equal
  here, as they do in both operations.
- **The contracts themselves.** Each schema function becomes a function
  returning a `Schema` literal:
  - `get_taxi_data_schema` (`taxi_schema.dfy`);
  - `column_name_validation`, `threhold_validation` and
    `category_level_validation` (`validation_2_4_8.dfy`);
  - `get_taxi_postEDA_data_schema` (`post_eda_schema.dfy`).

  Beside each stands a hand-written predicate on rows that reads the
  declarations directly. Lemmas prove the two agree in both directions.
- **`TaxiDataAnalyzer`** (`run_eda.dfy`). This is a class with the
  analyzer's frame fields:
  - `LoadData` drops repeated rows on a successful read;
  - `FilterNegativeFares` replaces the frame in place with its non-negative-fare
    rows and reports how many were removed;
  - the `"train"` / `"test"` / `"all"` dispatch is shared by
    `display_summary_statistics` and `validate_data_schema`.
- **Validation script** (`run_validation.dfy`). Settings the configuration
  leaves out are filled in with defaults. The output format comes from the
  lower-cased text after the data path's last dot.

Two facts about the code shape the model:

- An empty batch is rejected by every contract that checks the fraction of
  missing fares. These are `get_taxi_data_schema` and `threhold_validation`.
  The mean of an empty null mask is NaN, and `NaN <= 0.01` is false, so the
  empty batch fails that check.
- Validation is not lazy. `schema.validate(df)` stops at the first failure.
  The contracts without `coerce` repair nothing; `get_taxi_data_schema` sets
  `coerce=True`, whose conversion the model does not carry out. There is no
  report of row-level failure cases, and no pruning step.

## Model

| member | source | states |
|---|---|---|
| `TripData.ColumnNamedRoundTrip` | scripts/run_validation.py:53-60 | every trip column is found under its own header name, and that name is one of the nineteen expected columns |
| `Frames.NoDuplicateRowsPairwise` | src/validation/schema.py:144 | `~df.duplicated().any()` holds exactly when all rows are pairwise different |
| `Frames.DropDuplicatesMembers` | scripts/run_eda.py:41 | `drop_duplicates()` keeps exactly the distinct rows of the input, no more and no fewer |
| `Frames.DropDuplicates` | scripts/run_eda.py:41 | no contract of its own: `drop_duplicates()` with keep="first"; `DropDuplicatesMembers`, `DropDuplicatesUnique` and `DropDuplicatesOrder` give its meaning |
| `Frames.DropDuplicatesUnique` | scripts/run_eda.py:41 | after `drop_duplicates()` no row repeats an earlier one |
| `Frames.DropDuplicatesOrder` | scripts/run_eda.py:41 | the survivors appear in the order of their first occurrences in the input |
| `Frames.DropDuplicatesOfUnique` | scripts/run_eda.py:41 | a frame with no repeated row is left unchanged |
| `Frames.DropDuplicatesIdempotent` | scripts/run_eda.py:41 | dropping duplicates twice gives the same frame as once |
| `Frames.FirstIndex` | scripts/run_eda.py:41 | the first position of a row: it holds that row and no earlier position does |
| `Contracts.NullCount` | src/validation/schema.py:104 | the number of missing cells is at most the column length, and is zero exactly when every cell is present |
| `Contracts.ColumnConformsByCells` | src/validation/schema.py:9-140 | a column declaration holds exactly when every cell is present (or the column is nullable), has the type and passes every element-wise check, and the whole-column checks hold |
| `Contracts.NullFractionOnePercent` | src/validation/schema.py:104 | `isna().mean() <= 0.01` holds exactly when the column has cells and at most one in a hundred is missing |
| `Contracts.FailuresEmptyIffConforms` | scripts/run_eda.py:269-275 | validation finds no failure exactly when the batch satisfies every column declaration and every table check |
| `Contracts.MissingColumnComesFirst` | src/validation/validation_2_4_8.py:65-78 | when a declared column is absent from the frame, the first failure reported is a missing column |
| `Contracts.FirstMissingColumn` | src/validation/validation_2_4_8.py:65-78 | the first declared column the frame lacks heads the list of missing columns |
| `Contracts.ConformsSingleColumn` | src/validation/validation_2_4_8.py:32-46 | with one declared column, a batch conforms exactly when that column and the table checks hold |
| `Contracts.ValidateReportsFirstMissingColumn` | src/validation/validation_2_4_8.py:65-78 | validation fails naming the first declared column the frame lacks |
| `Contracts.Validate` | scripts/run_eda.py:269-275 | `schema.validate(df)` returns the frame unchanged exactly when it conforms; otherwise it reports the first failure, and a missing declared column is always reported as such |
| `Contracts.Conforms` | scripts/run_eda.py:269-275 | no contract of its own: a batch satisfies a contract when every declared column and every table check holds; `FailuresEmptyIffConforms` ties it to the failures validation finds |
| `Contracts.MissingColumns` | scripts/run_eda.py:269-275 | the declared columns absent from the frame, in declaration order: only missing-column failures, and exactly one for each absent declared name |
| `Contracts.CheckFailures` | scripts/run_eda.py:269-275 | the declared checks a column fails, in declaration order: each names the column, and a check is listed exactly when it is declared and does not hold |
| `Contracts.TableFailures` | scripts/run_eda.py:269-275 | the table checks a batch fails: a check is listed exactly when it is declared and does not hold |
| `Contracts.Failures` | scripts/run_eda.py:269-275 | no contract of its own: missing columns first, then the failures of each present column, then the table checks; `FailuresEmptyIffConforms` and `MissingColumnComesFirst` give its meaning |
| `TaxiSchema.VendorIdContract` | src/validation/schema.py:9-14 | VendorID holds exactly when every row has a vendor, and it is 1 or 2 |
| `TaxiSchema.TimestampsContract` | src/validation/schema.py:15-24 | both timestamp columns hold exactly when no row lacks that timestamp |
| `TaxiSchema.PassengerCountContract` | src/validation/schema.py:25-37 | a passenger count may be missing; a present one lies between 0 and 6 |
| `TaxiSchema.TripDistanceContract` | src/validation/schema.py:38-43 | every trip distance is present and not negative |
| `TaxiSchema.RatecodeContract` | src/validation/schema.py:44-49 | RatecodeID may be missing; a present one is 1.0, 2.0, 3.0, 4.0 or 5.0 |
| `TaxiSchema.StoreAndFwdContract` | src/validation/schema.py:50-55 | the flag may be missing; a present one is "Y" or "N" |
| `TaxiSchema.LocationsContract` | src/validation/schema.py:56-69 | pickup and dropoff location IDs are present and at least 1 |
| `TaxiSchema.PaymentTypeContract` | src/validation/schema.py:70-75 | payment_type is present and between 1 and 7 |
| `TaxiSchema.AmountColumn` | src/validation/schema.py:82-140 | a float column with the single check `ge(0)` holds exactly when its amounts are present and not negative (required column), or not negative where present (nullable column) |
| `TaxiSchema.ExtraContract` | src/validation/schema.py:82-87 | extra is present and not negative in every row |
| `TaxiSchema.MtaTaxContract` | src/validation/schema.py:88-93 | mta_tax is present and not negative in every row |
| `TaxiSchema.TipAmountContract` | src/validation/schema.py:94-99 | tip_amount is present and not negative in every row |
| `TaxiSchema.TollsAmountContract` | src/validation/schema.py:111-116 | tolls_amount is present and not negative in every row |
| `TaxiSchema.ImprovementSurchargeContract` | src/validation/schema.py:117-122 | improvement_surcharge is present and not negative in every row |
| `TaxiSchema.TotalAmountContract` | src/validation/schema.py:123-128 | total_amount is present and not negative in every row |
| `TaxiSchema.ChargesContract` | src/validation/schema.py:82-128 | the six required charges together hold exactly when each is present and not negative in every row |
| `TaxiSchema.FareAmountContract` | src/validation/schema.py:100-110 | fare_amount holds exactly when every fare is present and not negative and the batch is not empty; the 1% null bound adds nothing else, since no fare may be missing at all |
| `TaxiSchema.CongestionSurchargeContract` | src/validation/schema.py:129-134 | congestion_surcharge may be missing, and is not negative where present |
| `TaxiSchema.AirportFeeContract` | src/validation/schema.py:135-140 | Airport_fee may be missing, and is not negative where present |
| `TaxiSchema.SurchargesContract` | src/validation/schema.py:129-140 | the two optional surcharges together are not negative where present |
| `TaxiSchema.TableChecksContract` | src/validation/schema.py:142-152 | the table checks hold exactly when no row repeats, no row is all-missing, and no pickup is after its dropoff (equal timestamps pass) |
| `TaxiSchema.NineteenHold` | src/validation/schema.py:8-141 | a property holds on all nineteen declarations exactly when it holds on each one |
| `TaxiSchema.ConformsByDeclaration` | src/validation/schema.py:6-156 | the raw contract holds exactly when each of its nineteen declarations and its table checks hold |
| `TaxiSchema.EveryTaxiColumnMeaning` | src/validation/schema.py:8-141 | the nineteen declarations hold exactly when every row meets every column rule and the batch is not empty |
| `TaxiSchema.TaxiSchemaMeaning` | src/validation/schema.py:6-156 | a batch satisfies `get_taxi_data_schema` exactly when every row is valid, the batch is not empty, no row repeats or is all-missing, and no pickup is after its dropoff |
| `TaxiSchema.TaxiDataSchema` | src/validation/schema.py:6-156 | no contract of its own: the nineteen declarations and three table checks written out; `TaxiSchemaMeaning` gives its meaning |
| `TaxiSchema.TaxiSchemaRejectsEmptyBatch` | src/validation/schema.py:104 | the empty batch is rejected, because the null fraction of an empty column is not a number |
| `TaxiSchema.FixtureConforms` | tests/test_run_eda.py:20-87 | rows two, six and nineteen of the analyzer's test batch, with their own cell values, pass together: row two has no congestion or airport surcharge, row six no passenger count or flag, row nineteen RatecodeID 2.0 |
| `Validation248.BatchChecksContract` | src/validation/validation_2_4_8.py:25-28 | the shared table checks hold exactly when no row repeats and no row is all-missing |
| `Validation248.PositiveColumn` | src/validation/validation_2_4_8.py:8-23 | a non-nullable float column with the check `> 0` holds exactly when every value is present and strictly positive |
| `Validation248.ColumnNameMeaning` | src/validation/validation_2_4_8.py:5-30 | `column_name_validation` holds exactly when every distance and fare is present and strictly positive and the table checks hold |
| `Validation248.ColumnNameSchema` | src/validation/validation_2_4_8.py:5-30 | no contract of its own: `column_name_validation` written out; `ColumnNameMeaning` gives its meaning |
| `Validation248.ColumnNameRejectsZero` | src/validation/validation_2_4_8.py:11-20 | a zero distance or a zero fare anywhere rejects the batch |
| `Validation248.MissingFares` | src/validation/validation_2_4_8.py:36 | the number of rows without a fare is at most the number of rows |
| `Validation248.NullCountAppend` | src/validation/validation_2_4_8.py:36 | appending one cell adds one to the null count exactly when that cell is missing |
| `Validation248.FareNullCount` | src/validation/validation_2_4_8.py:36 | the null count of the fare column is the number of rows without a fare |
| `Validation248.ThresholdColumnIsFraction` | src/validation/validation_2_4_8.py:35-39 | every cell passes the nullable fare declaration, so only the fraction decides |
| `Validation248.ThresholdColumnContract` | src/validation/validation_2_4_8.py:35-39 | the nullable fare column holds exactly when the batch is not empty and at most one row in a hundred lacks a fare |
| `Validation248.ThresholdMeaning` | src/validation/validation_2_4_8.py:32-46 | `threhold_validation` holds exactly when fares are missing from at most 1% of a non-empty batch and the table checks hold |
| `Validation248.ThresholdSchema` | src/validation/validation_2_4_8.py:32-46 | no contract of its own: `threhold_validation` written out; `ThresholdMeaning` gives its meaning |
| `Validation248.ThresholdAllowsOneGapInHundred` | src/validation/validation_2_4_8.py:36 | one missing fare in a hundred rows is accepted |
| `Validation248.CategoryAsWrittenRejectsEveryBatch` | src/validation/validation_2_4_8.py:48-85 | as written, the category contract rejects every trip batch, reporting the missing column "Store_and_fwd_flag" |
| `Validation248.CategoryLevelSchemaAsWritten` | src/validation/validation_2_4_8.py:48-84 | no contract of its own: `category_level_validation` as written, with the capitalised names; `CategoryAsWrittenRejectsEveryBatch` gives its meaning |
| `Validation248.CategoryVendorContract` | src/validation/validation_2_4_8.py:51-57 | VendorID is present and 1 or 2 |
| `Validation248.CategoryRatecodeContract` | src/validation/validation_2_4_8.py:58-64 | RatecodeID is present and one of 1.0 to 5.0 |
| `Validation248.CategoryFlagContract` | src/validation/validation_2_4_8.py:65-71 | the flag may be missing, otherwise it is "N" or "Y" |
| `Validation248.CategoryPaymentContract` | src/validation/validation_2_4_8.py:72-78 | the payment type is present and between 0 and 4 |
| `Validation248.CategoryMeaning` | src/validation/validation_2_4_8.py:48-85 | the category contract, with the trip file's header names, holds exactly when every row meets the four rules and the table checks hold |
| `Validation248.CategoryLevelSchema` | src/validation/validation_2_4_8.py:48-84 | no contract of its own: `category_level_validation` with the header names of the trip file; `CategoryMeaning` gives its meaning |
| `Validation248.CategoryRequiresRatecode` | src/validation/validation_2_4_8.py:58-64 | a missing RatecodeID, which the raw contract accepts, rejects the batch here |
| `Validation248.RejectDuplicatesAndEmptyRows` | src/validation/validation_2_4_8.py:25-28 | all contracts in this file reject a batch with a repeated row or an all-missing row |
| `PostEda.PostEdaMeaning` | src/validation/schema_postEDA.py:5-26 | the post-EDA contract holds exactly when every distance and fare is present and not negative, no row repeats, and no row is all-missing |
| `PostEda.PostEdaSchema` | src/validation/schema_postEDA.py:5-26 | no contract of its own: `get_taxi_postEDA_data_schema` written out; `PostEdaMeaning` gives its meaning |
| `PostEda.PostEdaAcceptsZero` | src/validation/schema_postEDA.py:10-16 | zero distances and fares pass here, while the strictly positive contract rejects them |
| `PostEda.PostEdaIgnoresOtherColumns` | src/validation/schema_postEDA.py:7-20 | two batches that agree on distance and fare, and both pass the table checks, get the same verdict, whatever their other columns hold |
| `PostEda.TaxiBatchPassesPostEda` | tests/test_run_eda.py:160-163 | any batch the raw contract accepts, including nulls in optional columns, passes the post-EDA contract |
| `RunEda.NonNegativeFares` | scripts/run_eda.py:82 | the filtered frame is never longer than the input |
| `RunEda.FareNonNegative` | scripts/run_eda.py:82 | no contract of its own: the mask `fare_amount >= 0`, false for a missing fare; `NonNegativeFaresMembers` gives its effect on the frame |
| `RunEda.NonNegativeFaresMembers` | scripts/run_eda.py:82 | a row survives the filter exactly when it is in the input and its fare is present and not negative |
| `RunEda.NonNegativeFaresAllValid` | tests/test_run_eda.py:126 | every remaining fare is present and at least zero |
| `RunEda.NonNegativeFaresAppend` | scripts/run_eda.py:82 | the filter distributes over concatenation, so the relative order of kept rows is unchanged |
| `RunEda.NonNegativeFaresCounts` | scripts/run_eda.py:82 | each kept row occurs as often as in the input; each dropped row does not occur at all |
| `RunEda.NonNegativeFaresUnchanged` | tests/test_run_eda.py:123-125 | the filter removes nothing exactly when no fare is negative or missing |
| `RunEda.NonNegativeFaresKeepsNoDuplicates` | scripts/run_eda.py:41-82 | filtering a frame without repeated rows leaves none |
| `RunEda.NoDuplicatesCountAtMostOne` | scripts/run_eda.py:41 | in a frame without repeats each row occurs at most once |
| `RunEda.NonNegativeFaresIdempotent` | scripts/run_eda.py:82 | filtering twice removes nothing more |
| `RunEda.CleanedFrameMeetsPostEda` | scripts/run_eda.py:277-287 | after loading and filtering, the frame passes the post-EDA contract exactly when every trip with a non-negative fare has a present, non-negative distance |
| `RunEda.TaxiDataAnalyzer.constructor` | scripts/run_eda.py:15-33 | the analyzer keeps its paths, uses the post-EDA contract, and starts with no frames |
| `RunEda.TaxiDataAnalyzer.LoadData` | scripts/run_eda.py:38-46 | a parsed file becomes the frame with repeats dropped, so it has no repeated row; a missing or unparsable file leaves the frame as it was |
| `RunEda.TaxiDataAnalyzer.FilterNegativeFares` | scripts/run_eda.py:76-86 | with nothing loaded nothing changes; otherwise the frame becomes its non-negative-fare rows, the report is the number removed, a frame without repeats keeps none, and only `df` changes |
| `RunEda.TaxiDataAnalyzer.SelectSubset` | scripts/run_eda.py:125-133 | a frame is selected exactly for "train", "test" and "all": "train" gives the train frame, "test" the test frame and "all" the full frame; any other name is an invalid subset |
| `RunEda.TaxiDataAnalyzer.DisplaySummaryStatistics` | scripts/run_eda.py:118-140 | statistics are shown exactly when the subset is known and its frame is loaded, and they are of that frame |
| `RunEda.TaxiDataAnalyzer.ValidateDataSchema` | scripts/run_eda.py:245-275 | unknown subset, missing frame, success and rejection are reported exactly in their cases; a rejection carries the first failure of validating the selected frame |
| `RunValidation.ResolveSettings` | scripts/run_validation.py:51-63 | every setting the file gives is used as it is, and an absent data path, delimiter or expected-column list takes its default (the raw trip file, the comma, the nineteen trip columns) |
| `RunValidation.EmptyConfigGivesDefaults` | scripts/run_validation.py:51-63 | a configuration with none of the keys gives the default data path, the comma, the nineteen trip columns in file order, 0.9 and 0.8 |
| `RunValidation.ThresholdDefaults` | scripts/run_validation.py:61-63 | a missing threshold section gives both default thresholds; otherwise each threshold is the file's value or its own default |
| `RunValidation.ExplicitConfigRoundTrip` | scripts/run_validation.py:51-63 | settings written out in full are read back unchanged |
| `RunValidation.ResolveSettingsIdempotent` | scripts/run_validation.py:51-63 | resolving the resolved settings again changes nothing |
| `RunValidation.SplitOnDot` | scripts/run_validation.py:86 | `split(".")` always gives at least one piece |
| `RunValidation.FirstDot` | scripts/run_validation.py:86 | the first dot's position, or -1: it holds a dot and no earlier character does, and with -1 no character is a dot |
| `RunValidation.SplitOnDotPiecesDotFree` | scripts/run_validation.py:86 | no piece of `split(".")` contains a dot |
| `RunValidation.LastDotBefore` | scripts/run_validation.py:86 | the last dot among a prefix of the path, or -1 when that prefix has none |
| `RunValidation.LastDot` | scripts/run_validation.py:86 | the last dot's position, or -1: it holds a dot and no later character does |
| `RunValidation.LastDotUnique` | scripts/run_validation.py:86 | a dot with no dot after it (or -1 on a dot-free path) can only be the last dot |
| `RunValidation.AfterLastDotShape` | scripts/run_validation.py:86 | the extension contains no dot, and it is either the whole path or follows a dot |
| `RunValidation.AfterDottedPrefix` | scripts/run_validation.py:86-99 | a dot-free text written after a path ending in a dot is that path's extension |
| `RunValidation.LastDotPastDot` | scripts/run_validation.py:86 | cutting the path after a dot moves the last dot by the length cut off |
| `RunValidation.AfterLastDotPastDot` | scripts/run_validation.py:86 | cutting the path after a dot keeps its extension |
| `RunValidation.LastPieceIsAfterLastDot` | scripts/run_validation.py:86 | the last piece of `split(".")` is the text after the last dot |
| `RunValidation.LowerChar` | scripts/run_validation.py:86 | upper-case ASCII letters become lower-case; other characters stay the same |
| `RunValidation.Lower` | scripts/run_validation.py:86 | lower-casing keeps the length and lowers each character |
| `RunValidation.LowerIdempotent` | scripts/run_validation.py:86 | lower-casing twice is lower-casing once |
| `RunValidation.LowerKeepsLowerCase` | scripts/run_validation.py:86 | a text without upper-case letters is unchanged by lower-casing |
| `RunValidation.LastDotLower` | scripts/run_validation.py:86 | lower-casing does not move the last dot |
| `RunValidation.AfterLastDotLower` | scripts/run_validation.py:86 | the extension of the lower-cased path is the lower-cased extension |
| `RunValidation.FormatForExtension` | scripts/run_validation.py:88-99 | parquet and xlsx are chosen exactly for those extensions, and csv for every other one |
| `RunValidation.OutputFormatByExtension` | scripts/run_validation.py:86-99 | the format chosen from the last piece of `split(".")` is the one for the lower-cased text after the last dot |
| `RunValidation.OutputFormatFor` | scripts/run_validation.py:86-99 | no contract of its own: the last piece of `split(".")`, lower-cased, given to the if/elif chain; `OutputFormatByExtension` and `FormatForExtension` give its meaning |
| `RunValidation.OutputFormatIgnoresCase` | scripts/run_validation.py:86 | two paths that differ only in letter case get the same format |
| `RunValidation.FormatExtension` | scripts/run_validation.py:89-99 | each format's extension contains no dot and names that format again |
| `RunValidation.ValidatedPathNamesFormat` | scripts/run_validation.py:87-99 | the validated file's extension is the extension of the chosen format |
| `RunValidation.ValidatedDataPath` | scripts/run_validation.py:86-99 | no contract of its own: the processed-data file name followed by the chosen extension; `ValidatedPathNamesFormat` and `ValidatedPathExtension` give its meaning |
| `RunValidation.ValidatedPathExtension` | scripts/run_validation.py:86-99 | the validated file keeps the data's lower-cased extension when it is csv, parquet or xlsx, and ends in csv otherwise |
| `RunValidation.FormatAfterDottedPrefix` | scripts/run_validation.py:86-99 | a path ending in a dot and a dot-free text gets the format of that text, lower-cased |
| `RunValidation.DefaultPathIsCsv` | scripts/run_validation.py:86-89 | the default data path is saved as csv |
| `RunValidation.UpperCaseParquet` | scripts/run_validation.py:86-92 | an upper-case PARQUET extension selects parquet |
| `RunValidation.LastDotDecidesXlsx` | scripts/run_validation.py:86-95 | only the last dot counts: `a.csv.xlsx` selects xlsx |
| `RunValidation.OtherExtensionFallsBack` | scripts/run_validation.py:96-99 | an unknown extension falls back on csv |
| `RunValidation.NoExtensionFallsBack` | scripts/run_validation.py:86-99 | a path without a dot falls back on csv |

## Left out

- Reading the CSV and YAML files, writing the validated file, logging, and the
  command-line interface are input and output. `LoadData` takes the outcome of
  the read as a parameter. The paths are data.
- The path of the validated file is given relative to the project root. The
  `os.path.join` with the absolute project root is not modelled.
- `split_dataset` is left out because it uses a seeded random split from a
  library. `train_df` and `test_df` are therefore only ever set by the
  constructor in this model.
- Charts are left out: `create_density_chart`, `visualize_missing_values`,
  `create_correlation_plot` and the SVG saving. `describe()` is left out too.
  The subset dispatch these methods share is modelled once, as `SelectSubset`.
- `RunEda.TaxiDataAnalyzer.DisplaySummaryStatistics` returns the frame whose
  statistics would be shown, not the statistics.
- The correlation guard is left out. It computes predictive-power scores with
  a library, on floating point.
- The `DataValidator` stub is left out. It only stores its argument, and the
  script calls a constructor and a method the stub does not have.
- The model has no type coercion. Cells already hold values of their column's
  type, so a cell whose text cannot be coerced is not represented.
- `Contracts.Failures` does not give the first failure of `get_taxi_data_schema`
  exactly. That contract sets `coerce=True`, and coercion runs before the
  nullable, type and check steps of every column. A missing cell in one of its
  non-nullable int columns (VendorID, PULocationID, DOLocationID,
  payment_type) is NaN, which cannot be cast to an integer, so it is reported
  as a coercion error, not as missing values. The kind and order of the first
  failure can then differ from `Failures`. The accept or reject verdict does not
  change, since such a batch fails the column's non-nullable declaration in the
  model too.
- How the table checks treat a row with a missing timestamp is not modelled.
  The pickup-before-dropoff check judges only rows with both timestamps. A row
  without one already fails its non-nullable timestamp column, so the verdict
  is the same.
- Float rounding is not modelled. Amounts are exact reals, and the 1% bound is
  the exact ratio.
- `RunValidation.Lower` lowers ASCII letters only. Python's `str.lower` also
  lowers other alphabets.
- `RunEda.TaxiDataAnalyzer.LoadData` has no outcome for a read error other than
  a missing file or a parser error. `load_data` catches only those two. An empty
  file raises `pandas.errors.EmptyDataError`, which is not a `ParserError`, and
  it and any other read error propagate out of `load_data` and `run_all`. The
  model has no exceptions, so these runs are not represented.
- An empty configuration file is not modelled. `yaml.safe_load` returns None
  for it, and the first `config.get` then raises `AttributeError`.
  `ValidationConfig` is always a mapping; `EmptyConfig` is a mapping with none
  of the keys.
- A configuration key holding an explicit null is not modelled. In the model, a
  key is either absent or holds a value of the expected type.
- The frame header is taken to be exactly the nineteen trip columns. The
  duplicate-row and empty-row table checks of every contract, and
  `drop_duplicates()` in `load_data`, read every column of the frame, declared
  or not. With an extra column, two rows that agree on the nineteen trip
  columns may not be duplicates, and a row whose nineteen trip cells are all
  missing may not be empty. The model's verdicts therefore hold only for a
  frame whose header is exactly the nineteen trip columns. The program's own
  trip file is such a frame: `scripts/download_data.py` writes the sampled
  trips with `index=False`. Undeclared columns are allowed by every contract:
  `get_taxi_data_schema` says `strict=False`, and the others rely on the
  schema library's default.
- The analyzer imports its contract from `src.schema_postEDA`, while the file
  sits under `src/validation/`. The model ignores the import path.

## Findings

| source | as written | input that shows it | evidently intended | confidence | as-written member | corrected member |
|---|---|---|---|---|---|---|
| src/validation/validation_2_4_8.py:65-78 | the category contract declares the columns "Store_and_fwd_flag" and "Payment_type", capitalised | any trip batch, e.g. the 20-row test batch: the trip file's headers are "store_and_fwd_flag" and "payment_type", so validation fails with the missing column "Store_and_fwd_flag" | the trip file's own header names, so that the four categorical rules are checked | high (not executed) | `Validation248.CategoryAsWrittenRejectsEveryBatch` | `Validation248.CategoryMeaning` |
