/**
 * `TaxiDataAnalyzer`: the frame it loads (with repeated rows dropped), the
 * negative-fare filter it applies in place, and the "train" / "test" / "all"
 * dispatch its reporting methods share.  Reading the file is replaced by the
 * outcome of the read; charts, the train/test split and `describe()` are not
 * modelled.
 */
module RunEda {
  import opened Wrappers
  import opened TripData
  import opened Frames
  import opened Contracts
  import opened TaxiSchema
  import opened PostEda

  /** `df["fare_amount"] >= 0` for one row; a missing fare compares false. */
  predicate FareNonNegative(r: TripRow) {
    r.fareAmount.Some? && r.fareAmount.value >= 0.0
  }

  /** `df[df["fare_amount"] >= 0]`: the rows whose fare is present and not negative. */
  function NonNegativeFares(rows: seq<TripRow>): (kept: seq<TripRow>)
    ensures |kept| <= |rows|
    decreases |rows|
  {
    if rows == [] then []
    else
      var k := |rows| - 1;
      NonNegativeFares(rows[..k]) + (if FareNonNegative(rows[k]) then [rows[k]] else [])
  }

  /** Exactly the rows with a non-negative fare survive. */
  lemma {:induction false} NonNegativeFaresMembers(rows: seq<TripRow>)
    ensures forall r :: r in NonNegativeFares(rows) <==> r in rows && FareNonNegative(r)
    decreases |rows|
  {
    if rows != [] {
      var k := |rows| - 1;
      NonNegativeFaresMembers(rows[..k]);
      assert rows == rows[..k] + [rows[k]];
    }
  }

  /** Every remaining fare is present and at least zero. */
  lemma NonNegativeFaresAllValid(rows: seq<TripRow>)
    ensures forall i | 0 <= i < |NonNegativeFares(rows)| :: FareNonNegative(NonNegativeFares(rows)[i])
  {
    NonNegativeFaresMembers(rows);
    var kept := NonNegativeFares(rows);
    forall i | 0 <= i < |kept| ensures FareNonNegative(kept[i]) {
      assert kept[i] in kept;
    }
  }

  /** The filter works row by row, so it keeps the relative order of the rows. */
  lemma {:induction false} NonNegativeFaresAppend(a: seq<TripRow>, b: seq<TripRow>)
    ensures NonNegativeFares(a + b) == NonNegativeFares(a) + NonNegativeFares(b)
    decreases |b|
  {
    if b == [] {
      assert a + b == a;
    } else {
      var k := |b| - 1;
      NonNegativeFaresAppend(a, b[..k]);
      assert (a + b)[..|a + b| - 1] == a + b[..k];
    }
  }

  /** Each kept row appears as often as in the input; each dropped row not at all. */
  lemma {:induction false} NonNegativeFaresCounts(rows: seq<TripRow>, r: TripRow)
    ensures multiset(NonNegativeFares(rows))[r] == if FareNonNegative(r) then multiset(rows)[r] else 0
    decreases |rows|
  {
    if rows != [] {
      var k := |rows| - 1;
      NonNegativeFaresCounts(rows[..k], r);
      assert rows == rows[..k] + [rows[k]];
    }
  }

  /** Nothing is removed exactly when no fare is negative or missing. */
  lemma {:induction false} NonNegativeFaresUnchanged(rows: seq<TripRow>)
    ensures NonNegativeFares(rows) == rows <==> forall i | 0 <= i < |rows| :: FareNonNegative(rows[i])
    decreases |rows|
  {
    if rows != [] {
      var k := |rows| - 1;
      NonNegativeFaresUnchanged(rows[..k]);
      assert rows == rows[..k] + [rows[k]];
      if NonNegativeFares(rows) == rows {
        assert FareNonNegative(rows[k]);
        assert NonNegativeFares(rows[..k]) == rows[..k];
      }
    }
  }

  /** Filtering cannot bring back a repeated row. */
  lemma NonNegativeFaresKeepsNoDuplicates(rows: seq<TripRow>)
    requires NoDuplicateRows(rows)
    ensures NoDuplicateRows(NonNegativeFares(rows))
  {
    var kept := NonNegativeFares(rows);
    NoDuplicateRowsPairwise(rows);
    NoDuplicateRowsPairwise(kept);
    forall i, j | 0 <= i < j < |kept| ensures kept[i] != kept[j] {
      if kept[i] == kept[j] {
        NonNegativeFaresCounts(rows, kept[i]);
        assert multiset(kept)[kept[i]] >= 2 by {
          assert kept == kept[..i] + [kept[i]] + kept[i + 1..j] + [kept[j]] + kept[j + 1..];
        }
        NoDuplicatesCountAtMostOne(rows, kept[i]);
      }
    }
  }

  /** In a frame without repeats, every row occurs at most once. */
  lemma {:induction false} NoDuplicatesCountAtMostOne(rows: seq<TripRow>, r: TripRow)
    requires NoDuplicateRows(rows)
    ensures multiset(rows)[r] <= 1
    decreases |rows|
  {
    if rows != [] {
      var k := |rows| - 1;
      assert rows == rows[..k] + [rows[k]];
      assert NoDuplicateRows(rows[..k]) by {
        forall i | 0 <= i < k ensures !Duplicated(rows[..k], i) {
          assert !Duplicated(rows, i);
          assert rows[..k][..i] == rows[..i];
        }
      }
      NoDuplicatesCountAtMostOne(rows[..k], r);
      if rows[k] == r {
        assert !Duplicated(rows, k);
        assert multiset(rows[..k])[r] == 0;
      }
    }
  }

  /** Load, filter, then check the post-EDA contract on the whole frame: the cleaned
    * frame passes exactly when every trip with a non-negative fare has a distance that
    * is present and not negative. */
  lemma CleanedFrameMeetsPostEda(rows: seq<TripRow>)
    ensures Conforms(PostEdaSchema(), NonNegativeFares(DropDuplicates(rows))) <==>
      forall r | r in rows && FareNonNegative(r) :: PresentNonNegative(r.tripDistance)
  {
    var unique := DropDuplicates(rows);
    var cleaned := NonNegativeFares(unique);
    DropDuplicatesMembers(rows);
    DropDuplicatesUnique(rows);
    NonNegativeFaresMembers(unique);
    NonNegativeFaresAllValid(unique);
    NonNegativeFaresKeepsNoDuplicates(unique);
    PostEdaMeaning(cleaned);
    assert NoEmptyRowsIn(cleaned) by {
      forall i | 0 <= i < |cleaned| ensures !IsEmptyRow(cleaned[i]) {
        assert Get(cleaned[i], FareAmount).Some?;
      }
    }
    if forall r | r in rows && FareNonNegative(r) :: PresentNonNegative(r.tripDistance) {
      forall i | 0 <= i < |cleaned| ensures PostEdaRowValid(cleaned[i]) {
        assert cleaned[i] in cleaned;
      }
    }
    if Conforms(PostEdaSchema(), cleaned) {
      forall r | r in rows && FareNonNegative(r) ensures PresentNonNegative(r.tripDistance) {
        assert r in cleaned;
        var i :| 0 <= i < |cleaned| && cleaned[i] == r;
        assert PostEdaRowValid(cleaned[i]);
      }
    }
  }

  /** What `pd.read_csv` gave back, among the outcomes `load_data` handles. */
  datatype CsvRead = Parsed(rows: seq<TripRow>) | FileNotFound | ParserError(message: string)

  /** What `filter_negative_fares` reports: nothing loaded, or how many rows it removed. */
  datatype FilterReport = NotLoaded | Filtered(removed: nat)

  /** The frame a reporting method works on, or an unknown subset name. */
  datatype Selection = InvalidSubset | Selected(frame: Option<seq<TripRow>>)

  /** What `validate_data_schema` reports. */
  datatype SchemaReport = UnknownSubset | DataUnavailable | Validated | Rejected(failure: Failure)

  class TaxiDataAnalyzer {
    const filePath: string
    const chartsDir: string
    const schema: Schema
    var df: Option<seq<TripRow>>
    var trainDf: Option<seq<TripRow>>
    var testDf: Option<seq<TripRow>>

    constructor(filePath: string, chartsDir: string)
      ensures this.filePath == filePath && this.chartsDir == chartsDir
      ensures schema == PostEdaSchema()
      ensures df.None? && trainDf.None? && testDf.None?
    {
      this.filePath := filePath;
      this.chartsDir := chartsDir;
      schema := PostEdaSchema();
      df := None;
      trainDf := None;
      testDf := None;
    }

    /** `load_data`: a parsed file replaces the frame with its rows, repeats dropped;
      * a missing or malformed file leaves the frame as it was. */
    method LoadData(read: CsvRead)
      modifies this`df
      ensures read.Parsed? ==> df == Some(DropDuplicates(read.rows))
      ensures !read.Parsed? ==> df == old(df)
      ensures read.Parsed? ==> NoDuplicateRows(df.value)
    {
      match read
      case Parsed(rows) =>
        DropDuplicatesUnique(rows);
        df := Some(DropDuplicates(rows));
      case FileNotFound =>
      case ParserError(_) =>
    }

    /** `filter_negative_fares`: keeps the rows with a non-negative fare and reports how
      * many went; with nothing loaded it changes nothing. */
    method FilterNegativeFares() returns (report: FilterReport)
      modifies this`df
      ensures old(df).None? ==> df == old(df) && report == NotLoaded
      ensures old(df).Some? ==>
        && df == Some(NonNegativeFares(old(df).value))
        && report == Filtered(|old(df).value| - |df.value|)
      ensures old(df).Some? && NoDuplicateRows(old(df).value) ==> NoDuplicateRows(df.value)
    {
      if df.None? {
        return NotLoaded;
      }
      var initialCount := |df.value|;
      if NoDuplicateRows(df.value) {
        NonNegativeFaresKeepsNoDuplicates(df.value);
      }
      df := Some(NonNegativeFares(df.value));
      var filteredCount := |df.value|;
      report := Filtered(initialCount - filteredCount);
    }

    /** The subset dispatch the reporting methods share. */
    function SelectSubset(subset: string): (s: Selection)
      reads this
      ensures s.Selected? <==> subset in {"train", "test", "all"}
      ensures subset == "train" ==> s == Selected(trainDf)
      ensures subset == "test" ==> s == Selected(testDf)
      ensures subset == "all" ==> s == Selected(df)
    {
      if subset == "train" then Selected(trainDf)
      else if subset == "test" then Selected(testDf)
      else if subset == "all" then Selected(df)
      else InvalidSubset
    }

    /** `display_summary_statistics`: the frame whose statistics are shown, when the
      * subset is known and loaded; nothing otherwise. */
    function DisplaySummaryStatistics(subset: string): (shown: Option<seq<TripRow>>)
      reads this
      ensures shown.Some? <==> SelectSubset(subset).Selected? && SelectSubset(subset).frame.Some?
      ensures shown.Some? ==> shown == SelectSubset(subset).frame
    {
      match SelectSubset(subset)
      case InvalidSubset => None
      case Selected(frame) => frame
    }

    /** `validate_data_schema`: validates the selected frame against the post-EDA
      * contract and reports the first failure. */
    function ValidateDataSchema(subset: string): (report: SchemaReport)
      reads this
      ensures report == UnknownSubset <==> SelectSubset(subset).InvalidSubset?
      ensures report == DataUnavailable <==> SelectSubset(subset) == Selected(None)
      ensures report == Validated <==>
        exists rows :: SelectSubset(subset) == Selected(Some(rows)) && Conforms(schema, rows)
      ensures report.Rejected? ==>
        && SelectSubset(subset).Selected? && SelectSubset(subset).frame.Some?
        && Validate(schema, SelectSubset(subset).frame.value) == Err(report.failure)
    {
      match SelectSubset(subset)
      case InvalidSubset => UnknownSubset
      case Selected(None) => DataUnavailable
      case Selected(Some(rows)) =>
        match Validate(schema, rows)
        case Ok(_) => Validated
        case Err(failure) => Rejected(failure)
    }
  }

  /** Filtering twice removes nothing more. */
  lemma NonNegativeFaresIdempotent(rows: seq<TripRow>)
    ensures NonNegativeFares(NonNegativeFares(rows)) == NonNegativeFares(rows)
  {
    NonNegativeFaresAllValid(rows);
    NonNegativeFaresUnchanged(NonNegativeFares(rows));
  }
}
