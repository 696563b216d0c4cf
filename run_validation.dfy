/**
 * Two pieces of the validation script's `main`: filling in settings the YAML
 * configuration leaves out, and choosing the validated file's format and name
 * from the data path's extension.  Reading the configuration, logging, the
 * validator itself and the file writes are not modelled.
 */
module RunValidation {
  import opened Wrappers
  import opened TripData

  // ---------------------------------------------------------------------------
  // Configuration defaults

  /** The `correlation_thresholds` mapping; a key the file leaves out is `None`. */
  datatype ThresholdSection = ThresholdSection(featureLabel: Option<real>, featureFeature: Option<real>)

  /** The loaded configuration; a key the file leaves out is `None`. */
  datatype ValidationConfig = ValidationConfig(
    dataPath: Option<string>,
    delimiter: Option<string>,
    expectedColumns: Option<seq<string>>,
    correlationThresholds: Option<ThresholdSection>)

  /** The settings the script goes on with. */
  datatype Settings = Settings(
    dataPath: string,
    delimiter: string,
    expectedColumns: seq<string>,
    featureLabelThreshold: real,
    featureFeatureThreshold: real)

  const DefaultDataPath: string := "data/raw/yellow_tripdata_2024-01.csv"
  const DefaultDelimiter: string := ","
  const DefaultFeatureLabelThreshold: real := 0.9
  const DefaultFeatureFeatureThreshold: real := 0.8

  const EmptyConfig := ValidationConfig(None, None, None, None)

  /** The `config.get(key, default)` calls, one per setting; a missing threshold
    * section reads as an empty one. */
  function ResolveSettings(config: ValidationConfig): (s: Settings)
    ensures config.dataPath.Some? ==> s.dataPath == config.dataPath.value
    ensures config.delimiter.Some? ==> s.delimiter == config.delimiter.value
    ensures config.expectedColumns.Some? ==> s.expectedColumns == config.expectedColumns.value
    ensures config.dataPath.None? ==> s.dataPath == DefaultDataPath
    ensures config.delimiter.None? ==> s.delimiter == DefaultDelimiter
    ensures config.expectedColumns.None? ==> s.expectedColumns == TaxiColumns
  {
    var section := config.correlationThresholds.GetOr(ThresholdSection(None, None));
    Settings(
      config.dataPath.GetOr(DefaultDataPath),
      config.delimiter.GetOr(DefaultDelimiter),
      config.expectedColumns.GetOr(TaxiColumns),
      section.featureLabel.GetOr(DefaultFeatureLabelThreshold),
      section.featureFeature.GetOr(DefaultFeatureFeatureThreshold))
  }

  /** A configuration with none of the keys gives every default, the expected columns being the nineteen trip
    * columns in file order. */
  lemma EmptyConfigGivesDefaults()
    ensures ResolveSettings(EmptyConfig) ==
      Settings(DefaultDataPath, DefaultDelimiter, TaxiColumns, 0.9, 0.8)
    ensures |ResolveSettings(EmptyConfig).expectedColumns| == 19
    ensures ResolveSettings(EmptyConfig).expectedColumns[0] == "VendorID"
    ensures ResolveSettings(EmptyConfig).expectedColumns[18] == "Airport_fee"
  {
  }

  /** Each threshold falls back on its own default, whether the section is missing or
    * only that key is; a value the file gives is used as it is. */
  lemma ThresholdDefaults(config: ValidationConfig)
    ensures config.correlationThresholds.None? ==>
      && ResolveSettings(config).featureLabelThreshold == DefaultFeatureLabelThreshold
      && ResolveSettings(config).featureFeatureThreshold == DefaultFeatureFeatureThreshold
    ensures config.correlationThresholds.Some? ==>
      var section := config.correlationThresholds.value;
      && ResolveSettings(config).featureLabelThreshold ==
           (if section.featureLabel.Some? then section.featureLabel.value else DefaultFeatureLabelThreshold)
      && ResolveSettings(config).featureFeatureThreshold ==
           (if section.featureFeature.Some? then section.featureFeature.value else DefaultFeatureFeatureThreshold)
  {
  }

  /** The configuration file that spells out every setting. */
  function ExplicitConfig(s: Settings): ValidationConfig {
    ValidationConfig(Some(s.dataPath), Some(s.delimiter), Some(s.expectedColumns),
                     Some(ThresholdSection(Some(s.featureLabelThreshold), Some(s.featureFeatureThreshold))))
  }

  /** Settings written out in full are read back unchanged. */
  lemma ExplicitConfigRoundTrip(s: Settings)
    ensures ResolveSettings(ExplicitConfig(s)) == s
  {
  }

  /** Writing the resolved settings back and resolving again changes nothing. */
  lemma ResolveSettingsIdempotent(config: ValidationConfig)
    ensures ResolveSettings(ExplicitConfig(ResolveSettings(config))) == ResolveSettings(config)
  {
    ExplicitConfigRoundTrip(ResolveSettings(config));
  }

  // ---------------------------------------------------------------------------
  // Output format

  /** No character of `s` is a dot. */
  predicate DotFree(s: string) {
    forall k | 0 <= k < |s| :: s[k] != '.'
  }

  /** `s.split(".")`: the pieces between the dots, left to right. */
  function SplitOnDot(s: string): (pieces: seq<string>)
    ensures |pieces| > 0
    decreases |s|
  {
    var i := FirstDot(s);
    if i < 0 then [s] else [s[..i]] + SplitOnDot(s[i + 1..])
  }

  /** Position of the first dot, or -1 when there is none. */
  function FirstDot(s: string): (i: int)
    ensures -1 <= i < |s|
    ensures i >= 0 ==> s[i] == '.'
    ensures forall k | 0 <= k < |s| && (i < 0 || k < i) :: s[k] != '.'
  {
    if s == [] then -1
    else if s[0] == '.' then 0
    else
      var i := FirstDot(s[1..]);
      if i < 0 then -1 else 1 + i
  }

  /** No piece of `split(".")` contains a dot. */
  lemma {:induction false} SplitOnDotPiecesDotFree(s: string)
    ensures forall k | 0 <= k < |SplitOnDot(s)| :: DotFree(SplitOnDot(s)[k])
    decreases |s|
  {
    var i := FirstDot(s);
    if i >= 0 {
      SplitOnDotPiecesDotFree(s[i + 1..]);
      assert SplitOnDot(s) == [s[..i]] + SplitOnDot(s[i + 1..]);
    }
  }

  /** Position of the last dot among the first `n` characters, or -1 when there is none. */
  function LastDotBefore(s: string, n: nat): (j: int)
    requires n <= |s|
    ensures -1 <= j < n
    ensures j >= 0 ==> s[j] == '.'
    ensures forall k | j < k < n :: s[k] != '.'
  {
    if n == 0 then -1
    else if s[n - 1] == '.' then n - 1
    else LastDotBefore(s, n - 1)
  }

  /** Position of the last dot, or -1 when there is none. */
  function LastDot(s: string): (j: int)
    ensures -1 <= j < |s|
    ensures j >= 0 ==> s[j] == '.'
    ensures forall k | j < k < |s| :: s[k] != '.'
  {
    LastDotBefore(s, |s|)
  }

  /** The contract pins the position down: a dot (or -1) with no dot after it. */
  lemma LastDotUnique(s: string, j: int)
    requires -1 <= j < |s| && (j >= 0 ==> s[j] == '.')
    requires forall k | j < k < |s| :: s[k] != '.'
    ensures j == LastDot(s)
  {
  }

  /** The text after the last dot, or all of `s` when it has none. */
  function AfterLastDot(s: string): string {
    s[LastDot(s) + 1..]
  }

  /** The extension is a dot-free tail of the path that is the whole path or follows a dot. */
  lemma AfterLastDotShape(s: string)
    ensures DotFree(AfterLastDot(s))
    ensures |AfterLastDot(s)| < |s| ==> s[|s| - |AfterLastDot(s)| - 1] == '.'
  {
    var j := LastDot(s);
    assert forall k | 0 <= k < |s| - j - 1 :: AfterLastDot(s)[k] == s[j + 1 + k];
  }

  /** A dot-free text after a path ending in a dot is that path's extension. */
  lemma AfterDottedPrefix(prefix: string, e: string)
    requires |prefix| > 0 && prefix[|prefix| - 1] == '.' && DotFree(e)
    ensures AfterLastDot(prefix + e) == e
  {
    var path := prefix + e;
    assert forall k | |prefix| <= k < |path| :: path[k] == e[k - |prefix|];
    LastDotUnique(path, |prefix| - 1);
    assert path[|prefix|..] == e;
  }

  /** The last dot of the text after a dot is the last dot of the whole text. */
  lemma LastDotPastDot(s: string, i: nat)
    requires i < |s| && s[i] == '.'
    ensures LastDot(s) == i + 1 + LastDot(s[i + 1..])
  {
    var rest := s[i + 1..];
    var r := LastDot(rest);
    var j := i + 1 + r;
    assert s[j] == '.' by {
      if r >= 0 { assert s[j] == rest[r]; }
    }
    assert forall k | j < k < |s| :: s[k] == rest[k - i - 1];
    LastDotUnique(s, j);
  }

  lemma DropOfDrop(s: string, a: nat, b: nat)
    requires a + b <= |s|
    ensures s[a..][b..] == s[a + b..]
  {
    assert forall k | 0 <= k < |s| - a - b :: s[a..][b..][k] == s[a + b + k];
  }

  /** Cutting the path after one of its dots keeps the extension. */
  lemma AfterLastDotPastDot(s: string, i: nat)
    requires i < |s| && s[i] == '.'
    ensures AfterLastDot(s[i + 1..]) == AfterLastDot(s)
  {
    LastDotPastDot(s, i);
    DropOfDrop(s, i + 1, LastDot(s[i + 1..]) + 1);
  }

  /** `split(".")[-1]` is the text after the last dot. */
  lemma {:induction false} LastPieceIsAfterLastDot(s: string)
    ensures SplitOnDot(s)[|SplitOnDot(s)| - 1] == AfterLastDot(s)
    decreases |s|
  {
    var i := FirstDot(s);
    if i < 0 {
      LastDotUnique(s, -1);
      assert s[0..] == s;
    } else {
      LastPieceIsAfterLastDot(s[i + 1..]);
      AfterLastDotPastDot(s, i);
    }
  }

  /** `str.lower()` on one character. */
  function LowerChar(c: char): (l: char)
    ensures 'A' <= c <= 'Z' ==> 'a' <= l <= 'z' && l as int - c as int == 32
    ensures !('A' <= c <= 'Z') ==> l == c
  {
    if 'A' <= c <= 'Z' then (c as int + 32) as char else c
  }

  function Lower(s: string): (l: string)
    ensures |l| == |s|
    ensures forall k | 0 <= k < |s| :: l[k] == LowerChar(s[k])
  {
    seq(|s|, k requires 0 <= k < |s| => LowerChar(s[k]))
  }

  lemma LowerIdempotent(s: string)
    ensures Lower(Lower(s)) == Lower(s)
  {
    assert forall k | 0 <= k < |s| :: LowerChar(LowerChar(s[k])) == LowerChar(s[k]);
  }

  /** A text without upper-case letters is its own lower-case form. */
  lemma LowerKeepsLowerCase(s: string)
    requires forall k | 0 <= k < |s| :: !('A' <= s[k] <= 'Z')
    ensures Lower(s) == s
  {
  }

  /** Lowering letters does not move the dots, so the extension of the lowered path is
    * the lowered extension. */
  lemma AfterLastDotLower(s: string)
    ensures AfterLastDot(Lower(s)) == Lower(AfterLastDot(s))
  {
    LastDotLower(s);
    LowerSuffix(s, LastDot(s) + 1);
  }

  lemma LastDotLower(s: string)
    ensures LastDot(Lower(s)) == LastDot(s)
  {
    var l := Lower(s);
    assert forall k | 0 <= k < |s| :: (l[k] == '.' <==> s[k] == '.');
    LastDotUnique(l, LastDot(s));
  }

  lemma LowerSuffix(s: string, j: nat)
    requires j <= |s|
    ensures Lower(s)[j..] == Lower(s[j..])
  {
  }

  /** The three formats the script can write. */
  datatype OutputFormat = Csv | Parquet | Xlsx

  /** The if/elif chain on the lower-cased extension. */
  function FormatForExtension(ext: string): (f: OutputFormat)
    ensures f == Parquet <==> ext == "parquet"
    ensures f == Xlsx <==> ext == "xlsx"
    ensures f == Csv <==> ext !in {"parquet", "xlsx"}
  {
    if ext == "csv" then Csv
    else if ext == "parquet" then Parquet
    else if ext == "xlsx" then Xlsx
    else Csv
  }

  /** `data_path.split(".")[-1].lower()` and the choice made on it. */
  function OutputFormatFor(dataPath: string): OutputFormat {
    var pieces := SplitOnDot(dataPath);
    FormatForExtension(Lower(pieces[|pieces| - 1]))
  }

  /** The format is decided by the text after the last dot. */
  lemma OutputFormatByExtension(dataPath: string)
    ensures OutputFormatFor(dataPath) == FormatForExtension(Lower(AfterLastDot(dataPath)))
  {
    LastPieceIsAfterLastDot(dataPath);
  }

  /** The choice ignores the case of the path. */
  lemma OutputFormatIgnoresCase(p: string, q: string)
    requires Lower(p) == Lower(q)
    ensures OutputFormatFor(p) == OutputFormatFor(q)
  {
    OutputFormatByExtension(p);
    OutputFormatByExtension(q);
    AfterLastDotLower(p);
    AfterLastDotLower(q);
    LowerIdempotent(AfterLastDot(p));
    LowerIdempotent(AfterLastDot(q));
  }

  function FormatExtension(f: OutputFormat): (e: string)
    ensures DotFree(e)
    ensures FormatForExtension(e) == f
  {
    match f
    case Csv => "csv"
    case Parquet => "parquet"
    case Xlsx => "xlsx"
  }

  /** Where the validated frame goes, relative to the project root. */
  function ValidatedDataPath(dataPath: string): string {
    "data/processed/yellow_tripdata_2024-01_validated." + FormatExtension(OutputFormatFor(dataPath))
  }

  /** The saved file's extension names the format chosen for it. */
  lemma ValidatedPathNamesFormat(dataPath: string)
    ensures AfterLastDot(ValidatedDataPath(dataPath)) == FormatExtension(OutputFormatFor(dataPath))
  {
    AfterDottedPrefix("data/processed/yellow_tripdata_2024-01_validated.",
      FormatExtension(OutputFormatFor(dataPath)));
  }

  /** So it keeps the data's extension, lower-cased, when it is one of the three the
    * script writes, and is a csv file otherwise. */
  lemma ValidatedPathExtension(dataPath: string)
    ensures var ext := Lower(AfterLastDot(dataPath));
      AfterLastDot(ValidatedDataPath(dataPath)) == (if ext in {"csv", "parquet", "xlsx"} then ext else "csv")
  {
    ValidatedPathNamesFormat(dataPath);
    OutputFormatByExtension(dataPath);
  }

  /** The format of a path whose last dot is at the end of `prefix`. */
  lemma FormatAfterDottedPrefix(path: string, prefix: string, e: string)
    requires path == prefix + e
    requires |prefix| > 0 && prefix[|prefix| - 1] == '.' && DotFree(e)
    ensures OutputFormatFor(path) == FormatForExtension(Lower(e))
  {
    OutputFormatByExtension(path);
    AfterDottedPrefix(prefix, e);
  }

  /** The default data path is written as a csv file. */
  lemma DefaultPathIsCsv(path: string)
    requires path == DefaultDataPath
    ensures OutputFormatFor(path) == Csv
  {
    FormatAfterDottedPrefix(path, "data/raw/yellow_tripdata_2024-01.", "csv");
    assert |Lower("csv")| == 3;
  }

  /** An upper-case extension is recognised. */
  lemma UpperCaseParquet(path: string)
    requires path == "t.PARQUET"
    ensures OutputFormatFor(path) == Parquet
  {
    FormatAfterDottedPrefix(path, "t.", "PARQUET");
    assert Lower("PARQUET") == "parquet";
  }

  /** Only the last dot counts. */
  lemma LastDotDecidesXlsx(path: string)
    requires path == "a.csv.xlsx"
    ensures OutputFormatFor(path) == Xlsx
  {
    FormatAfterDottedPrefix(path, "a.csv.", "xlsx");
    LowerKeepsLowerCase("xlsx");
  }

  /** Any other extension falls back on csv. */
  lemma OtherExtensionFallsBack(path: string)
    requires path == "t.json"
    ensures OutputFormatFor(path) == Csv
  {
    FormatAfterDottedPrefix(path, "t.", "json");
    LowerKeepsLowerCase("json");
  }

  /** So does a path without a dot. */
  lemma NoExtensionFallsBack(path: string)
    requires path == "t"
    ensures OutputFormatFor(path) == Csv
  {
    assert SplitOnDot(path) == [path];
    assert |Lower("t")| == 1;
  }
}
