/**
 * Three alternative trip contracts: strictly positive distance and fare
 * (`column_name_validation`), a bound on missing fares
 * (`threhold_validation`), and the categorical columns
 * (`category_level_validation`).  Each carries the same two table checks:
 * no repeated row and no all-missing row.
 *
 * The category contract as written names two columns with a capital letter,
 * "Store_and_fwd_flag" and "Payment_type"; the trip file's headers are
 * "store_and_fwd_flag" and "payment_type", so that contract is kept both as
 * written, where it rejects every trip batch, and with the header names it
 * evidently means.
 */
module Validation248 {
  import opened Wrappers
  import opened TripData
  import opened Frames
  import opened Contracts
  import opened TaxiSchema

  const BatchChecks: seq<TableCheck> := [NoDuplicates, NoEmptyRows]

  /** The two table checks every contract here carries. */
  predicate BatchChecksHold(rows: seq<TripRow>) {
    NoDuplicateRows(rows) && NoEmptyRowsIn(rows)
  }

  lemma BatchChecksContract(rows: seq<TripRow>)
    ensures (forall t | t in BatchChecks :: TableCheckHolds(t, rows)) <==> BatchChecksHold(rows)
  {
    assert NoDuplicates in BatchChecks && NoEmptyRows in BatchChecks;
  }

  // ---------------------------------------------------------------------------
  // column_name_validation

  function ColumnNameSchema(): Schema {
    Schema(
      [ ColumnSpec("trip_distance", FloatT, false, [Gt(0.0)]),
        ColumnSpec("fare_amount", FloatT, false, [Gt(0.0)])
      ],
      BatchChecks)
  }

  /** Present and strictly greater than zero. */
  predicate PresentPositive(v: Option<real>) {
    v.Some? && v.value > 0.0
  }

  predicate PositiveTripRow(r: TripRow) {
    PresentPositive(r.tripDistance) && PresentPositive(r.fareAmount)
  }

  /** A float column declared non-nullable with the single check `> 0`. */
  lemma PositiveColumn(spec: ColumnSpec, col: Column, field: TripRow -> Option<real>, rows: seq<TripRow>)
    requires ColumnNamed(spec.name) == Some(col)
    requires spec == ColumnSpec(spec.name, FloatT, false, [Gt(0.0)])
    requires forall r: TripRow :: Get(r, col) == RealCell(field(r))
    ensures ColumnConforms(spec, rows) <==> forall i | 0 <= i < |rows| :: PresentPositive(field(rows[i]))
  {
    ColumnConformsByCells(spec, rows);
    forall r: TripRow ensures CellConforms(spec, Get(r, col)) <==> PresentPositive(field(r)) {
      assert Gt(0.0) in spec.checks;
    }
  }

  lemma ColumnNameMeaning(rows: seq<TripRow>)
    ensures Conforms(ColumnNameSchema(), rows) <==>
      (forall i | 0 <= i < |rows| :: PositiveTripRow(rows[i])) && BatchChecksHold(rows)
  {
    var cols := ColumnNameSchema().columns;
    PositiveColumn(cols[0], TripDistance, (r: TripRow) => r.tripDistance, rows);
    PositiveColumn(cols[1], FareAmount, (r: TripRow) => r.fareAmount, rows);
    BatchChecksContract(rows);
    assert cols[0] in cols && cols[1] in cols;
    assert forall spec | spec in cols :: spec == cols[0] || spec == cols[1];
  }

  /** The bound is strict: a zero distance or a zero fare anywhere rejects the batch. */
  lemma {:induction false} ColumnNameRejectsZero(rows: seq<TripRow>, i: nat)
    requires i < |rows|
    requires rows[i].tripDistance == Some(0.0) || rows[i].fareAmount == Some(0.0)
    ensures !Conforms(ColumnNameSchema(), rows)
  {
    ColumnNameMeaning(rows);
    assert !PositiveTripRow(rows[i]);
  }

  // ---------------------------------------------------------------------------
  // threhold_validation

  function ThresholdSchema(): Schema {
    Schema([ColumnSpec("fare_amount", FloatT, true, [NullFractionAtMost(0.01)])], BatchChecks)
  }

  /** The number of rows without a fare. */
  function MissingFares(rows: seq<TripRow>): (n: nat)
    ensures n <= |rows|
  {
    if rows == [] then 0
    else MissingFares(rows[..|rows| - 1]) + (if rows[|rows| - 1].fareAmount.None? then 1 else 0)
  }

  lemma NullCountAppend(vs: seq<Option<Value>>, v: Option<Value>)
    ensures NullCount(vs + [v]) == NullCount(vs) + (if v.None? then 1 else 0)
  {
    if vs != [] {
      assert (vs + [v])[1..] == vs[1..] + [v];
      NullCountAppend(vs[1..], v);
    }
  }

  /** The fare column's null count is the number of rows without a fare. */
  lemma {:induction false} FareNullCount(rows: seq<TripRow>)
    ensures NullCount(Cells(rows, FareAmount)) == MissingFares(rows)
  {
    if rows != [] {
      var n := |rows| - 1;
      FareNullCount(rows[..n]);
      assert Cells(rows, FareAmount) == Cells(rows[..n], FareAmount) + [Get(rows[n], FareAmount)];
      NullCountAppend(Cells(rows[..n], FareAmount), Get(rows[n], FareAmount));
    }
  }

  /** The fare column alone: fares may be missing in at most one row in a hundred, and
    * the batch may not be empty (the fraction over no rows is not a number). */
  lemma ThresholdColumnContract(rows: seq<TripRow>)
    ensures ColumnConforms(ThresholdSchema().columns[0], rows) <==>
      |rows| > 0 && 100 * MissingFares(rows) <= |rows|
  {
    var vs := Cells(rows, FareAmount);
    ThresholdColumnIsFraction(rows);
    NullFractionOnePercent(vs);
    FareNullCount(rows);
  }

  /** Every cell passes the declaration's element-wise part, so only the fraction decides. */
  lemma ThresholdColumnIsFraction(rows: seq<TripRow>)
    ensures ColumnConforms(ThresholdSchema().columns[0], rows) <==>
      CheckHolds(NullFractionAtMost(0.01), Cells(rows, FareAmount))
  {
    var spec := ThresholdSchema().columns[0];
    ColumnConformsByCells(spec, rows);
    assert NullFractionAtMost(0.01) in spec.checks;
    forall r: TripRow ensures CellConforms(spec, Get(r, FareAmount)) {
    }
  }

  lemma ThresholdMeaning(rows: seq<TripRow>)
    ensures Conforms(ThresholdSchema(), rows) <==>
      |rows| > 0 && 100 * MissingFares(rows) <= |rows| && BatchChecksHold(rows)
  {
    ConformsSingleColumn(ThresholdSchema(), rows);
    ThresholdColumnContract(rows);
    BatchChecksContract(rows);
  }

  /** Missing fares alone never reject a batch of a hundred rows with at most one gap. */
  lemma ThresholdAllowsOneGapInHundred(rows: seq<TripRow>)
    requires |rows| == 100 && MissingFares(rows) <= 1 && BatchChecksHold(rows)
    ensures Conforms(ThresholdSchema(), rows)
  {
    ThresholdMeaning(rows);
  }

  // ---------------------------------------------------------------------------
  // category_level_validation

  /** The contract as written, with the capitalised header names. */
  function CategoryLevelSchemaAsWritten(): Schema {
    Schema(
      [ ColumnSpec("VendorID", IntT, false, [IsIn([IntV(1), IntV(2)])]),
        ColumnSpec("RatecodeID", FloatT, false,
                   [IsIn([RealV(1.0), RealV(2.0), RealV(3.0), RealV(4.0), RealV(5.0)])]),
        ColumnSpec("Store_and_fwd_flag", ObjectT, true, [IsIn([StrV("N"), StrV("Y")])]),
        ColumnSpec("Payment_type", IntT, false,
                   [IsIn([IntV(2), IntV(0), IntV(1), IntV(4), IntV(3)])])
      ],
      BatchChecks)
  }

  /** As written, the contract names a column no trip file has, so every batch is
    * rejected, and the first failure is that missing column. */
  lemma CategoryAsWrittenRejectsEveryBatch(rows: seq<TripRow>)
    ensures !Conforms(CategoryLevelSchemaAsWritten(), rows)
    ensures Validate(CategoryLevelSchemaAsWritten(), rows) == Err(ColumnMissing("Store_and_fwd_flag"))
  {
    var schema := CategoryLevelSchemaAsWritten();
    assert ColumnNamed(schema.columns[0].name).Some? && ColumnNamed(schema.columns[1].name).Some?;
    ValidateReportsFirstMissingColumn(schema, rows, 2);
  }

  /** The contract with the header names the trip file uses. */
  function CategoryLevelSchema(): Schema {
    Schema(
      [ ColumnSpec("VendorID", IntT, false, [IsIn([IntV(1), IntV(2)])]),
        ColumnSpec("RatecodeID", FloatT, false,
                   [IsIn([RealV(1.0), RealV(2.0), RealV(3.0), RealV(4.0), RealV(5.0)])]),
        ColumnSpec("store_and_fwd_flag", ObjectT, true, [IsIn([StrV("N"), StrV("Y")])]),
        ColumnSpec("payment_type", IntT, false,
                   [IsIn([IntV(2), IntV(0), IntV(1), IntV(4), IntV(3)])])
      ],
      BatchChecks)
  }

  /** Unlike the raw contract, RatecodeID is required here. */
  predicate RequiredRatecodeValid(r: TripRow) {
    r.ratecodeId.Some? && r.ratecodeId.value in {1.0, 2.0, 3.0, 4.0, 5.0}
  }

  /** Payment codes 0 to 4 only, where the raw contract allows 1 to 7. */
  predicate CategoryPaymentValid(r: TripRow) {
    r.paymentType.Some? && 0 <= r.paymentType.value <= 4
  }

  predicate CategoryRowValid(r: TripRow) {
    VendorIdValid(r) && RequiredRatecodeValid(r) && StoreAndFwdValid(r) && CategoryPaymentValid(r)
  }

  lemma CategoryVendorContract(rows: seq<TripRow>)
    ensures ColumnConforms(CategoryLevelSchema().columns[0], rows) <==>
      forall i | 0 <= i < |rows| :: VendorIdValid(rows[i])
  {
    var spec := CategoryLevelSchema().columns[0];
    ColumnConformsByCells(spec, rows);
    forall r: TripRow ensures CellConforms(spec, Get(r, VendorID)) <==> VendorIdValid(r) {
      assert spec.checks[0] in spec.checks;
    }
  }

  lemma CategoryRatecodeContract(rows: seq<TripRow>)
    ensures ColumnConforms(CategoryLevelSchema().columns[1], rows) <==>
      forall i | 0 <= i < |rows| :: RequiredRatecodeValid(rows[i])
  {
    var spec := CategoryLevelSchema().columns[1];
    ColumnConformsByCells(spec, rows);
    forall r: TripRow ensures CellConforms(spec, Get(r, RatecodeID)) <==> RequiredRatecodeValid(r) {
      assert spec.checks[0] in spec.checks;
    }
  }

  lemma CategoryFlagContract(rows: seq<TripRow>)
    ensures ColumnConforms(CategoryLevelSchema().columns[2], rows) <==>
      forall i | 0 <= i < |rows| :: StoreAndFwdValid(rows[i])
  {
    var spec := CategoryLevelSchema().columns[2];
    ColumnConformsByCells(spec, rows);
    forall r: TripRow ensures CellConforms(spec, Get(r, StoreAndFwdFlag)) <==> StoreAndFwdValid(r) {
      assert spec.checks[0] in spec.checks;
    }
  }

  lemma CategoryPaymentContract(rows: seq<TripRow>)
    ensures ColumnConforms(CategoryLevelSchema().columns[3], rows) <==>
      forall i | 0 <= i < |rows| :: CategoryPaymentValid(rows[i])
  {
    var spec := CategoryLevelSchema().columns[3];
    ColumnConformsByCells(spec, rows);
    forall r: TripRow ensures CellConforms(spec, Get(r, PaymentType)) <==> CategoryPaymentValid(r) {
      assert spec.checks[0] in spec.checks;
    }
  }

  lemma CategoryMeaning(rows: seq<TripRow>)
    ensures Conforms(CategoryLevelSchema(), rows) <==>
      (forall i | 0 <= i < |rows| :: CategoryRowValid(rows[i])) && BatchChecksHold(rows)
  {
    var cols := CategoryLevelSchema().columns;
    CategoryVendorContract(rows);
    CategoryRatecodeContract(rows);
    CategoryFlagContract(rows);
    CategoryPaymentContract(rows);
    BatchChecksContract(rows);
    assert cols[0] in cols && cols[1] in cols && cols[2] in cols && cols[3] in cols;
    assert forall spec | spec in cols ::
      spec == cols[0] || spec == cols[1] || spec == cols[2] || spec == cols[3];
  }

  /** A row the raw contract accepts with a missing RatecodeID fails here. */
  lemma {:induction false} CategoryRequiresRatecode(rows: seq<TripRow>, i: nat)
    requires i < |rows| && rows[i].ratecodeId.None?
    ensures !Conforms(CategoryLevelSchema(), rows)
  {
    CategoryMeaning(rows);
    assert !CategoryRowValid(rows[i]);
  }

  // ---------------------------------------------------------------------------

  /** Every contract here rejects a batch with a repeated row or an all-missing row. */
  lemma {:induction false} RejectDuplicatesAndEmptyRows(rows: seq<TripRow>)
    requires !NoDuplicateRows(rows) || exists i | 0 <= i < |rows| :: IsEmptyRow(rows[i])
    ensures !Conforms(ColumnNameSchema(), rows)
    ensures !Conforms(ThresholdSchema(), rows)
    ensures !Conforms(CategoryLevelSchema(), rows)
    ensures !Conforms(CategoryLevelSchemaAsWritten(), rows)
  {
    ColumnNameMeaning(rows);
    ThresholdMeaning(rows);
    CategoryMeaning(rows);
    CategoryAsWrittenRejectsEveryBatch(rows);
  }
}
