/**
 * The raw trip-file contract (`get_taxi_data_schema`): nineteen column
 * declarations and three table checks, with coercion on and unknown columns
 * allowed.  Beside the declarative schema stands a hand-written reading of
 * each declaration as a predicate on rows; the lemmas prove the two agree.
 */
module TaxiSchema {
  import opened Wrappers
  import opened TripData
  import opened Frames
  import opened Contracts

  function TaxiDataSchema(): Schema {
    Schema(
      [ ColumnSpec("VendorID", IntT, false, [IsIn([IntV(1), IntV(2)])]),
        ColumnSpec("tpep_pickup_datetime", DateTimeT, false, []),
        ColumnSpec("tpep_dropoff_datetime", DateTimeT, false, []),
        ColumnSpec("passenger_count", FloatT, true, [Ge(0.0), Le(6.0)]),
        ColumnSpec("trip_distance", FloatT, false, [Ge(0.0)]),
        ColumnSpec("RatecodeID", FloatT, true,
                   [IsIn([RealV(1.0), RealV(2.0), RealV(3.0), RealV(4.0), RealV(5.0)])]),
        ColumnSpec("store_and_fwd_flag", StrT, true, [IsIn([StrV("Y"), StrV("N")])]),
        ColumnSpec("PULocationID", IntT, false, [Ge(1.0)]),
        ColumnSpec("DOLocationID", IntT, false, [Ge(1.0)]),
        ColumnSpec("payment_type", IntT, false,
                   [IsIn([IntV(1), IntV(2), IntV(3), IntV(4), IntV(5), IntV(6), IntV(7)])]),
        ColumnSpec("extra", FloatT, false, [Ge(0.0)]),
        ColumnSpec("mta_tax", FloatT, false, [Ge(0.0)]),
        ColumnSpec("tip_amount", FloatT, false, [Ge(0.0)]),
        ColumnSpec("fare_amount", FloatT, false, [Ge(0.0), NullFractionAtMost(0.01)]),
        ColumnSpec("tolls_amount", FloatT, false, [Ge(0.0)]),
        ColumnSpec("improvement_surcharge", FloatT, false, [Ge(0.0)]),
        ColumnSpec("total_amount", FloatT, false, [Ge(0.0)]),
        ColumnSpec("congestion_surcharge", FloatT, true, [Ge(0.0)]),
        ColumnSpec("Airport_fee", FloatT, true, [Ge(0.0)])
      ],
      [NoDuplicates, NoEmptyRows, PickupNotAfterDropoff])
  }

  // One predicate per column declaration, read off the declaration directly.

  predicate VendorIdValid(r: TripRow) {
    r.vendorId.Some? && r.vendorId.value in {1, 2}
  }

  predicate PickupValid(r: TripRow) {
    r.pickup.Some?
  }

  predicate DropoffValid(r: TripRow) {
    r.dropoff.Some?
  }

  predicate PassengerCountValid(r: TripRow) {
    r.passengerCount.Some? ==> 0.0 <= r.passengerCount.value <= 6.0
  }

  /** A required amount or distance that must not be negative. */
  predicate PresentNonNegative(v: Option<real>) {
    v.Some? && v.value >= 0.0
  }

  /** An optional amount that must not be negative when it is there. */
  predicate AbsentOrNonNegative(v: Option<real>) {
    v.Some? ==> v.value >= 0.0
  }

  predicate TripDistanceValid(r: TripRow) {
    PresentNonNegative(r.tripDistance)
  }

  predicate RatecodeValid(r: TripRow) {
    r.ratecodeId.Some? ==> r.ratecodeId.value in {1.0, 2.0, 3.0, 4.0, 5.0}
  }

  predicate StoreAndFwdValid(r: TripRow) {
    r.storeAndFwdFlag.Some? ==> r.storeAndFwdFlag.value in {"Y", "N"}
  }

  predicate PickupLocationValid(r: TripRow) {
    r.puLocationId.Some? && r.puLocationId.value >= 1
  }

  predicate DropoffLocationValid(r: TripRow) {
    r.doLocationId.Some? && r.doLocationId.value >= 1
  }

  predicate PaymentTypeValid(r: TripRow) {
    r.paymentType.Some? && 1 <= r.paymentType.value <= 7
  }

  /** extra, mta_tax, tip_amount, tolls_amount, improvement_surcharge, total_amount. */
  predicate ChargesValid(r: TripRow) {
    && PresentNonNegative(r.extra)
    && PresentNonNegative(r.mtaTax)
    && PresentNonNegative(r.tipAmount)
    && PresentNonNegative(r.tollsAmount)
    && PresentNonNegative(r.improvementSurcharge)
    && PresentNonNegative(r.totalAmount)
  }

  predicate FareValid(r: TripRow) {
    PresentNonNegative(r.fareAmount)
  }

  predicate SurchargesValid(r: TripRow) {
    AbsentOrNonNegative(r.congestionSurcharge) && AbsentOrNonNegative(r.airportFee)
  }

  /** Everything the column declarations ask of a single row. */
  predicate TaxiRowValid(r: TripRow) {
    && VendorIdValid(r) && PickupValid(r) && DropoffValid(r)
    && PassengerCountValid(r) && TripDistanceValid(r) && RatecodeValid(r)
    && StoreAndFwdValid(r) && PickupLocationValid(r) && DropoffLocationValid(r)
    && PaymentTypeValid(r) && ChargesValid(r) && FareValid(r) && SurchargesValid(r)
  }

  predicate NoEmptyRowsIn(rows: seq<TripRow>) {
    forall i | 0 <= i < |rows| :: !IsEmptyRow(rows[i])
  }

  predicate PickupsNotAfterDropoffs(rows: seq<TripRow>) {
    forall i | 0 <= i < |rows| :: PickupNotAfterDropoffAt(rows[i])
  }

  /** The whole contract, stated directly on the rows.  The null-fraction check on
    * fare_amount adds only that the batch is not empty: no fare may be missing at all. */
  predicate TaxiBatchValid(rows: seq<TripRow>) {
    && (forall i | 0 <= i < |rows| :: TaxiRowValid(rows[i]))
    && |rows| > 0
    && NoDuplicateRows(rows)
    && NoEmptyRowsIn(rows)
    && PickupsNotAfterDropoffs(rows)
  }

  lemma VendorIdContract(rows: seq<TripRow>)
    ensures TaxiDataSchema().columns[0].name == "VendorID"
    ensures ColumnConforms(TaxiDataSchema().columns[0], rows) <==>
      forall i | 0 <= i < |rows| :: VendorIdValid(rows[i])
  {
    var spec := TaxiDataSchema().columns[0];
    ColumnConformsByCells(spec, rows);
    forall r: TripRow ensures CellConforms(spec, Get(r, VendorID)) <==> VendorIdValid(r) {
      assert IsIn([IntV(1), IntV(2)]) in spec.checks;
    }
  }

  lemma TimestampsContract(rows: seq<TripRow>)
    ensures TaxiDataSchema().columns[1].name == "tpep_pickup_datetime"
    ensures TaxiDataSchema().columns[2].name == "tpep_dropoff_datetime"
    ensures ColumnConforms(TaxiDataSchema().columns[1], rows) <==>
      forall i | 0 <= i < |rows| :: PickupValid(rows[i])
    ensures ColumnConforms(TaxiDataSchema().columns[2], rows) <==>
      forall i | 0 <= i < |rows| :: DropoffValid(rows[i])
  {
    var pickup, dropoff := TaxiDataSchema().columns[1], TaxiDataSchema().columns[2];
    ColumnConformsByCells(pickup, rows);
    ColumnConformsByCells(dropoff, rows);
    forall r: TripRow
      ensures CellConforms(pickup, Get(r, TpepPickupDatetime)) <==> PickupValid(r)
      ensures CellConforms(dropoff, Get(r, TpepDropoffDatetime)) <==> DropoffValid(r)
    {
    }
  }

  lemma PassengerCountContract(rows: seq<TripRow>)
    ensures TaxiDataSchema().columns[3].name == "passenger_count"
    ensures ColumnConforms(TaxiDataSchema().columns[3], rows) <==>
      forall i | 0 <= i < |rows| :: PassengerCountValid(rows[i])
  {
    var spec := TaxiDataSchema().columns[3];
    ColumnConformsByCells(spec, rows);
    forall r: TripRow ensures CellConforms(spec, Get(r, PassengerCount)) <==> PassengerCountValid(r) {
      assert Ge(0.0) in spec.checks && Le(6.0) in spec.checks;
    }
  }

  lemma TripDistanceContract(rows: seq<TripRow>)
    ensures TaxiDataSchema().columns[4].name == "trip_distance"
    ensures ColumnConforms(TaxiDataSchema().columns[4], rows) <==>
      forall i | 0 <= i < |rows| :: TripDistanceValid(rows[i])
  {
    var spec := TaxiDataSchema().columns[4];
    ColumnConformsByCells(spec, rows);
    forall r: TripRow ensures CellConforms(spec, Get(r, TripDistance)) <==> TripDistanceValid(r) {
      assert Ge(0.0) in spec.checks;
    }
  }

  lemma RatecodeContract(rows: seq<TripRow>)
    ensures TaxiDataSchema().columns[5].name == "RatecodeID"
    ensures ColumnConforms(TaxiDataSchema().columns[5], rows) <==>
      forall i | 0 <= i < |rows| :: RatecodeValid(rows[i])
  {
    var spec := TaxiDataSchema().columns[5];
    ColumnConformsByCells(spec, rows);
    forall r: TripRow ensures CellConforms(spec, Get(r, RatecodeID)) <==> RatecodeValid(r) {
      assert spec.checks[0] in spec.checks;
    }
  }

  lemma StoreAndFwdContract(rows: seq<TripRow>)
    ensures TaxiDataSchema().columns[6].name == "store_and_fwd_flag"
    ensures ColumnConforms(TaxiDataSchema().columns[6], rows) <==>
      forall i | 0 <= i < |rows| :: StoreAndFwdValid(rows[i])
  {
    var spec := TaxiDataSchema().columns[6];
    ColumnConformsByCells(spec, rows);
    forall r: TripRow ensures CellConforms(spec, Get(r, StoreAndFwdFlag)) <==> StoreAndFwdValid(r) {
      assert spec.checks[0] in spec.checks;
    }
  }

  lemma LocationsContract(rows: seq<TripRow>)
    ensures TaxiDataSchema().columns[7].name == "PULocationID"
    ensures TaxiDataSchema().columns[8].name == "DOLocationID"
    ensures ColumnConforms(TaxiDataSchema().columns[7], rows) <==>
      forall i | 0 <= i < |rows| :: PickupLocationValid(rows[i])
    ensures ColumnConforms(TaxiDataSchema().columns[8], rows) <==>
      forall i | 0 <= i < |rows| :: DropoffLocationValid(rows[i])
  {
    var pu, do := TaxiDataSchema().columns[7], TaxiDataSchema().columns[8];
    ColumnConformsByCells(pu, rows);
    ColumnConformsByCells(do, rows);
    forall r: TripRow
      ensures CellConforms(pu, Get(r, PULocationID)) <==> PickupLocationValid(r)
      ensures CellConforms(do, Get(r, DOLocationID)) <==> DropoffLocationValid(r)
    {
      assert Ge(1.0) in pu.checks && Ge(1.0) in do.checks;
    }
  }

  lemma PaymentTypeContract(rows: seq<TripRow>)
    ensures TaxiDataSchema().columns[9].name == "payment_type"
    ensures ColumnConforms(TaxiDataSchema().columns[9], rows) <==>
      forall i | 0 <= i < |rows| :: PaymentTypeValid(rows[i])
  {
    var spec := TaxiDataSchema().columns[9];
    ColumnConformsByCells(spec, rows);
    forall r: TripRow ensures CellConforms(spec, Get(r, PaymentType)) <==> PaymentTypeValid(r) {
      assert spec.checks[0] in spec.checks;
    }
  }

  /** A float column declared with the single check `ge(0)`. */
  lemma AmountColumn(spec: ColumnSpec, col: Column, field: TripRow -> Option<real>, rows: seq<TripRow>)
    requires ColumnNamed(spec.name) == Some(col)
    requires spec.dtype == FloatT && spec.checks == [Ge(0.0)]
    requires forall r: TripRow :: Get(r, col) == RealCell(field(r))
    ensures !spec.nullable ==>
      (ColumnConforms(spec, rows) <==> forall i | 0 <= i < |rows| :: PresentNonNegative(field(rows[i])))
    ensures spec.nullable ==>
      (ColumnConforms(spec, rows) <==> forall i | 0 <= i < |rows| :: AbsentOrNonNegative(field(rows[i])))
  {
    ColumnConformsByCells(spec, rows);
    forall r: TripRow
      ensures CellConforms(spec, Get(r, col)) <==>
        if spec.nullable then AbsentOrNonNegative(field(r)) else PresentNonNegative(field(r))
    {
      assert Ge(0.0) in spec.checks;
    }
  }

  lemma ExtraContract(rows: seq<TripRow>)
    ensures TaxiDataSchema().columns[10].name == "extra"
    ensures ColumnConforms(TaxiDataSchema().columns[10], rows) <==>
      forall i | 0 <= i < |rows| :: PresentNonNegative(rows[i].extra)
  {
    AmountColumn(TaxiDataSchema().columns[10], Extra, (r: TripRow) => r.extra, rows);
  }

  lemma MtaTaxContract(rows: seq<TripRow>)
    ensures TaxiDataSchema().columns[11].name == "mta_tax"
    ensures ColumnConforms(TaxiDataSchema().columns[11], rows) <==>
      forall i | 0 <= i < |rows| :: PresentNonNegative(rows[i].mtaTax)
  {
    AmountColumn(TaxiDataSchema().columns[11], MtaTax, (r: TripRow) => r.mtaTax, rows);
  }

  lemma TipAmountContract(rows: seq<TripRow>)
    ensures TaxiDataSchema().columns[12].name == "tip_amount"
    ensures ColumnConforms(TaxiDataSchema().columns[12], rows) <==>
      forall i | 0 <= i < |rows| :: PresentNonNegative(rows[i].tipAmount)
  {
    AmountColumn(TaxiDataSchema().columns[12], TipAmount, (r: TripRow) => r.tipAmount, rows);
  }

  lemma TollsAmountContract(rows: seq<TripRow>)
    ensures TaxiDataSchema().columns[14].name == "tolls_amount"
    ensures ColumnConforms(TaxiDataSchema().columns[14], rows) <==>
      forall i | 0 <= i < |rows| :: PresentNonNegative(rows[i].tollsAmount)
  {
    AmountColumn(TaxiDataSchema().columns[14], TollsAmount, (r: TripRow) => r.tollsAmount, rows);
  }

  lemma ImprovementSurchargeContract(rows: seq<TripRow>)
    ensures TaxiDataSchema().columns[15].name == "improvement_surcharge"
    ensures ColumnConforms(TaxiDataSchema().columns[15], rows) <==>
      forall i | 0 <= i < |rows| :: PresentNonNegative(rows[i].improvementSurcharge)
  {
    AmountColumn(TaxiDataSchema().columns[15], ImprovementSurcharge, (r: TripRow) => r.improvementSurcharge, rows);
  }

  lemma TotalAmountContract(rows: seq<TripRow>)
    ensures TaxiDataSchema().columns[16].name == "total_amount"
    ensures ColumnConforms(TaxiDataSchema().columns[16], rows) <==>
      forall i | 0 <= i < |rows| :: PresentNonNegative(rows[i].totalAmount)
  {
    AmountColumn(TaxiDataSchema().columns[16], TotalAmount, (r: TripRow) => r.totalAmount, rows);
  }

  /** The six required charges: present and non-negative in every row. */
  lemma ChargesContract(rows: seq<TripRow>)
    ensures (&& ColumnConforms(TaxiDataSchema().columns[10], rows)
             && ColumnConforms(TaxiDataSchema().columns[11], rows)
             && ColumnConforms(TaxiDataSchema().columns[12], rows)
             && ColumnConforms(TaxiDataSchema().columns[14], rows)
             && ColumnConforms(TaxiDataSchema().columns[15], rows)
             && ColumnConforms(TaxiDataSchema().columns[16], rows)) <==>
      forall i | 0 <= i < |rows| :: ChargesValid(rows[i])
  {
    ExtraContract(rows);
    MtaTaxContract(rows);
    TipAmountContract(rows);
    TollsAmountContract(rows);
    ImprovementSurchargeContract(rows);
    TotalAmountContract(rows);
  }

  /** fare_amount: present and non-negative in every row; its null-fraction check then
    * only asks that there be at least one row. */
  lemma FareAmountContract(rows: seq<TripRow>)
    ensures TaxiDataSchema().columns[13].name == "fare_amount"
    ensures ColumnConforms(TaxiDataSchema().columns[13], rows) <==>
      (forall i | 0 <= i < |rows| :: FareValid(rows[i])) && |rows| > 0
  {
    var spec := TaxiDataSchema().columns[13];
    var vs := Cells(rows, FareAmount);
    ColumnConformsByCells(spec, rows);
    NullFractionOnePercent(vs);
    assert Ge(0.0) in spec.checks && NullFractionAtMost(0.01) in spec.checks;
    forall r: TripRow ensures CellConforms(spec, Get(r, FareAmount)) <==> FareValid(r) {
    }
    if forall i | 0 <= i < |rows| :: FareValid(rows[i]) {
      assert forall k | 0 <= k < |vs| :: vs[k].Some? by {
        forall k | 0 <= k < |vs| ensures vs[k].Some? { assert FareValid(rows[k]); }
      }
    }
  }

  lemma CongestionSurchargeContract(rows: seq<TripRow>)
    ensures TaxiDataSchema().columns[17].name == "congestion_surcharge"
    ensures ColumnConforms(TaxiDataSchema().columns[17], rows) <==>
      forall i | 0 <= i < |rows| :: AbsentOrNonNegative(rows[i].congestionSurcharge)
  {
    AmountColumn(TaxiDataSchema().columns[17], CongestionSurcharge, (r: TripRow) => r.congestionSurcharge, rows);
  }

  lemma AirportFeeContract(rows: seq<TripRow>)
    ensures TaxiDataSchema().columns[18].name == "Airport_fee"
    ensures ColumnConforms(TaxiDataSchema().columns[18], rows) <==>
      forall i | 0 <= i < |rows| :: AbsentOrNonNegative(rows[i].airportFee)
  {
    AmountColumn(TaxiDataSchema().columns[18], AirportFee, (r: TripRow) => r.airportFee, rows);
  }

  /** The two optional surcharges: non-negative where present. */
  lemma SurchargesContract(rows: seq<TripRow>)
    ensures (ColumnConforms(TaxiDataSchema().columns[17], rows)
             && ColumnConforms(TaxiDataSchema().columns[18], rows)) <==>
      forall i | 0 <= i < |rows| :: SurchargesValid(rows[i])
  {
    CongestionSurchargeContract(rows);
    AirportFeeContract(rows);
  }

  /** The three table checks: no repeated row, no all-missing row, and no pickup after
    * its dropoff (equal timestamps pass). */
  lemma TableChecksContract(rows: seq<TripRow>)
    ensures (forall t | t in TaxiDataSchema().checks :: TableCheckHolds(t, rows)) <==>
      NoDuplicateRows(rows) && NoEmptyRowsIn(rows) && PickupsNotAfterDropoffs(rows)
  {
    var ts := TaxiDataSchema().checks;
    assert NoDuplicates in ts && NoEmptyRows in ts && PickupNotAfterDropoff in ts;
  }

  /** Each of the nineteen column declarations, one by one. */
  predicate EveryTaxiColumnConforms(rows: seq<TripRow>) {
    && ColumnConforms(TaxiDataSchema().columns[0], rows)
    && ColumnConforms(TaxiDataSchema().columns[1], rows)
    && ColumnConforms(TaxiDataSchema().columns[2], rows)
    && ColumnConforms(TaxiDataSchema().columns[3], rows)
    && ColumnConforms(TaxiDataSchema().columns[4], rows)
    && ColumnConforms(TaxiDataSchema().columns[5], rows)
    && ColumnConforms(TaxiDataSchema().columns[6], rows)
    && ColumnConforms(TaxiDataSchema().columns[7], rows)
    && ColumnConforms(TaxiDataSchema().columns[8], rows)
    && ColumnConforms(TaxiDataSchema().columns[9], rows)
    && ColumnConforms(TaxiDataSchema().columns[10], rows)
    && ColumnConforms(TaxiDataSchema().columns[11], rows)
    && ColumnConforms(TaxiDataSchema().columns[12], rows)
    && ColumnConforms(TaxiDataSchema().columns[13], rows)
    && ColumnConforms(TaxiDataSchema().columns[14], rows)
    && ColumnConforms(TaxiDataSchema().columns[15], rows)
    && ColumnConforms(TaxiDataSchema().columns[16], rows)
    && ColumnConforms(TaxiDataSchema().columns[17], rows)
    && ColumnConforms(TaxiDataSchema().columns[18], rows)
  }

  /** A property holds on every one of nineteen elements exactly when it holds on each;
    * stated for an arbitrary property so that no declaration is unfolded. */
  lemma NineteenHold<T>(xs: seq<T>, p: T -> bool)
    requires |xs| == 19
    ensures (forall x | x in xs :: p(x)) <==>
      && p(xs[0])
      && p(xs[1])
      && p(xs[2])
      && p(xs[3])
      && p(xs[4])
      && p(xs[5])
      && p(xs[6])
      && p(xs[7])
      && p(xs[8])
      && p(xs[9])
      && p(xs[10])
      && p(xs[11])
      && p(xs[12])
      && p(xs[13])
      && p(xs[14])
      && p(xs[15])
      && p(xs[16])
      && p(xs[17])
      && p(xs[18])
  {
    assert xs == [xs[0], xs[1], xs[2], xs[3], xs[4], xs[5], xs[6], xs[7], xs[8], xs[9], xs[10], xs[11], xs[12], xs[13], xs[14], xs[15], xs[16], xs[17], xs[18]];
  }

  lemma ConformsByDeclaration(rows: seq<TripRow>)
    ensures Conforms(TaxiDataSchema(), rows) <==>
      EveryTaxiColumnConforms(rows) && forall t | t in TaxiDataSchema().checks :: TableCheckHolds(t, rows)
  {
    NineteenHold(TaxiDataSchema().columns, spec => ColumnConforms(spec, rows));
  }

  lemma EveryTaxiColumnMeaning(rows: seq<TripRow>)
    ensures EveryTaxiColumnConforms(rows) <==>
      (forall i | 0 <= i < |rows| :: TaxiRowValid(rows[i])) && |rows| > 0
  {
    VendorIdContract(rows);
    TimestampsContract(rows);
    PassengerCountContract(rows);
    TripDistanceContract(rows);
    RatecodeContract(rows);
    StoreAndFwdContract(rows);
    LocationsContract(rows);
    PaymentTypeContract(rows);
    ChargesContract(rows);
    FareAmountContract(rows);
    SurchargesContract(rows);
  }

  /** Conforming to the declared schema is exactly the directly stated contract. */
  lemma TaxiSchemaMeaning(rows: seq<TripRow>)
    ensures Conforms(TaxiDataSchema(), rows) <==> TaxiBatchValid(rows)
  {
    ConformsByDeclaration(rows);
    EveryTaxiColumnMeaning(rows);
    TableChecksContract(rows);
  }

  /** The empty batch is rejected: the mean of an empty null mask is NaN, and `NaN <= 0.01`
    * is false, so fare_amount's null-fraction check fails. */
  lemma TaxiSchemaRejectsEmptyBatch()
    ensures !Conforms(TaxiDataSchema(), [])
    ensures Validate(TaxiDataSchema(), []).Err?
  {
    TaxiSchemaMeaning([]);
  }

  /** Rows two, six and nineteen of the analyzer's test batch (timestamps as seconds
    * since the epoch, UTC): empty congestion and airport surcharges, a missing passenger
    * count and store-and-forward flag, and a RatecodeID of 2.0 all pass. */
  function FixtureRowTwo(): TripRow {
    TripRow(Some(1), Some(1706531103), Some(1706532812), Some(1.0), Some(7.21), Some(1.0), Some("N"),
            Some(236), Some(211), Some(1), Some(34.73), Some(0.0), Some(0.5), Some(0.0), Some(0.0),
            Some(1.0), Some(38.73), None, None)
  }

  function FixtureRowSix(): TripRow {
    TripRow(Some(2), Some(1706178226), Some(1706178812), None, Some(1.02), Some(1.0), None,
            Some(142), Some(163), Some(1), Some(10.0), Some(0.0), Some(0.5), Some(2.8), Some(0.0),
            Some(1.0), Some(16.8), Some(2.5), Some(0.0))
  }

  function FixtureRowNineteen(): TripRow {
    TripRow(Some(2), Some(1705152081), Some(1705154673), Some(1.0), Some(18.93), Some(2.0), Some("N"),
            Some(132), Some(114), Some(2), Some(70.0), Some(0.0), Some(0.5), Some(15.15), Some(0.0),
            Some(1.0), Some(90.9), Some(2.5), Some(1.75))
  }

  lemma FixtureConforms(rows: seq<TripRow>)
    requires rows == [FixtureRowTwo(), FixtureRowSix(), FixtureRowNineteen()]
    ensures Conforms(TaxiDataSchema(), rows)
  {
    var a, b, c := FixtureRowTwo(), FixtureRowSix(), FixtureRowNineteen();
    assert TaxiRowValid(a) && TaxiRowValid(b) && TaxiRowValid(c);
    assert !IsEmptyRow(a) by { assert Get(a, VendorID).Some?; }
    assert !IsEmptyRow(b) by { assert Get(b, VendorID).Some?; }
    assert !IsEmptyRow(c) by { assert Get(c, VendorID).Some?; }
    assert a != b && a != c by { assert a.fareAmount != b.fareAmount && a.fareAmount != c.fareAmount; }
    assert b != c by { assert b.fareAmount != c.fareAmount; }
    assert TaxiBatchValid(rows) by {
      NoDuplicateRowsPairwise(rows);
    }
    TaxiSchemaMeaning(rows);
  }
}
