/**
 * The contract the analyzer checks after cleaning (`get_taxi_postEDA_data_schema`):
 * trip_distance and fare_amount present and not negative, plus the two table
 * checks.  No other column is declared, and unknown columns are allowed, so
 * nothing else about a row matters besides the table checks.
 */
module PostEda {
  import opened Wrappers
  import opened TripData
  import opened Frames
  import opened Contracts
  import opened TaxiSchema
  import opened Validation248

  function PostEdaSchema(): Schema {
    Schema(
      [ ColumnSpec("trip_distance", FloatT, false, [Ge(0.0)]),
        ColumnSpec("fare_amount", FloatT, false, [Ge(0.0)])
      ],
      BatchChecks)
  }

  predicate PostEdaRowValid(r: TripRow) {
    PresentNonNegative(r.tripDistance) && PresentNonNegative(r.fareAmount)
  }

  lemma PostEdaMeaning(rows: seq<TripRow>)
    ensures Conforms(PostEdaSchema(), rows) <==>
      (forall i | 0 <= i < |rows| :: PostEdaRowValid(rows[i])) && BatchChecksHold(rows)
  {
    var cols := PostEdaSchema().columns;
    AmountColumn(cols[0], TripDistance, (r: TripRow) => r.tripDistance, rows);
    AmountColumn(cols[1], FareAmount, (r: TripRow) => r.fareAmount, rows);
    BatchChecksContract(rows);
    assert cols[0] in cols && cols[1] in cols;
    assert forall spec | spec in cols :: spec == cols[0] || spec == cols[1];
  }

  /** The bound is inclusive: zero distances and fares pass here, where the strictly
    * positive contract rejects them. */
  lemma {:induction false} PostEdaAcceptsZero(rows: seq<TripRow>)
    requires |rows| > 0 && BatchChecksHold(rows)
    requires forall i | 0 <= i < |rows| ::
      rows[i].tripDistance == Some(0.0) && rows[i].fareAmount == Some(0.0)
    ensures Conforms(PostEdaSchema(), rows)
    ensures !Conforms(ColumnNameSchema(), rows)
  {
    PostEdaMeaning(rows);
    ColumnNameRejectsZero(rows, 0);
  }

  /** Only distance, fare and the table checks decide: two batches that agree on those
    * columns row by row, and both pass the table checks, get the same verdict. */
  lemma {:induction false} PostEdaIgnoresOtherColumns(rows: seq<TripRow>, other: seq<TripRow>)
    requires |rows| == |other| && BatchChecksHold(rows) && BatchChecksHold(other)
    requires forall i | 0 <= i < |rows| ::
      rows[i].tripDistance == other[i].tripDistance && rows[i].fareAmount == other[i].fareAmount
    ensures Conforms(PostEdaSchema(), rows) <==> Conforms(PostEdaSchema(), other)
  {
    PostEdaMeaning(rows);
    PostEdaMeaning(other);
    assert forall i | 0 <= i < |rows| :: PostEdaRowValid(rows[i]) <==> PostEdaRowValid(other[i]);
  }

  /** Anything the raw contract accepts passes after EDA too, nulls in the optional
    * columns included. */
  lemma TaxiBatchPassesPostEda(rows: seq<TripRow>)
    requires Conforms(TaxiDataSchema(), rows)
    ensures Conforms(PostEdaSchema(), rows)
  {
    TaxiSchemaMeaning(rows);
    PostEdaMeaning(rows);
  }
}
