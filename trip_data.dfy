/**
 * The yellow-taxi trip record: its nineteen columns, their names, and a row
 * whose every cell may be missing (a null / NaN / NaT in the data frame).
 * Timestamps are whole seconds; money, distances and the float-typed codes
 * are reals, since the contracts only ever compare them.
 */
module TripData {
  import opened Wrappers

  datatype Column =
    | VendorID | TpepPickupDatetime | TpepDropoffDatetime | PassengerCount
    | TripDistance | RatecodeID | StoreAndFwdFlag | PULocationID | DOLocationID
    | PaymentType | FareAmount | Extra | MtaTax | TipAmount | TollsAmount
    | ImprovementSurcharge | TotalAmount | CongestionSurcharge | AirportFee

  /** The column's header name in the trip file. */
  function ColumnName(c: Column): string {
    match c
    case VendorID => "VendorID"
    case TpepPickupDatetime => "tpep_pickup_datetime"
    case TpepDropoffDatetime => "tpep_dropoff_datetime"
    case PassengerCount => "passenger_count"
    case TripDistance => "trip_distance"
    case RatecodeID => "RatecodeID"
    case StoreAndFwdFlag => "store_and_fwd_flag"
    case PULocationID => "PULocationID"
    case DOLocationID => "DOLocationID"
    case PaymentType => "payment_type"
    case FareAmount => "fare_amount"
    case Extra => "extra"
    case MtaTax => "mta_tax"
    case TipAmount => "tip_amount"
    case TollsAmount => "tolls_amount"
    case ImprovementSurcharge => "improvement_surcharge"
    case TotalAmount => "total_amount"
    case CongestionSurcharge => "congestion_surcharge"
    case AirportFee => "Airport_fee"
  }

  /** The header of a trip file, in file order. */
  const TaxiColumns: seq<string> := [
    "VendorID", "tpep_pickup_datetime", "tpep_dropoff_datetime",
    "passenger_count", "trip_distance", "RatecodeID",
    "store_and_fwd_flag", "PULocationID", "DOLocationID",
    "payment_type", "fare_amount", "extra", "mta_tax",
    "tip_amount", "tolls_amount", "improvement_surcharge",
    "total_amount", "congestion_surcharge", "Airport_fee"
  ]

  /** Looks a header name up among the frame's columns; names are case-sensitive. */
  function ColumnNamed(name: string): (r: Option<Column>)
    ensures r.Some? ==> ColumnName(r.value) == name
    ensures r.None? ==> name !in TaxiColumns
  {
    if name == "VendorID" then Some(VendorID)
    else if name == "tpep_pickup_datetime" then Some(TpepPickupDatetime)
    else if name == "tpep_dropoff_datetime" then Some(TpepDropoffDatetime)
    else if name == "passenger_count" then Some(PassengerCount)
    else if name == "trip_distance" then Some(TripDistance)
    else if name == "RatecodeID" then Some(RatecodeID)
    else if name == "store_and_fwd_flag" then Some(StoreAndFwdFlag)
    else if name == "PULocationID" then Some(PULocationID)
    else if name == "DOLocationID" then Some(DOLocationID)
    else if name == "payment_type" then Some(PaymentType)
    else if name == "fare_amount" then Some(FareAmount)
    else if name == "extra" then Some(Extra)
    else if name == "mta_tax" then Some(MtaTax)
    else if name == "tip_amount" then Some(TipAmount)
    else if name == "tolls_amount" then Some(TollsAmount)
    else if name == "improvement_surcharge" then Some(ImprovementSurcharge)
    else if name == "total_amount" then Some(TotalAmount)
    else if name == "congestion_surcharge" then Some(CongestionSurcharge)
    else if name == "Airport_fee" then Some(AirportFee)
    else None
  }

  /** Every column is found under its own name, and the header lists exactly these names. */
  lemma ColumnNamedRoundTrip(c: Column)
    ensures ColumnNamed(ColumnName(c)) == Some(c)
    ensures ColumnName(c) in TaxiColumns
  {
  }

  /** A typed cell value, after the schema's coercion. */
  datatype Value = IntV(i: int) | RealV(r: real) | StrV(s: string) | TimeV(t: int)

  datatype TripRow = TripRow(
    vendorId: Option<int>,
    pickup: Option<int>,
    dropoff: Option<int>,
    passengerCount: Option<real>,
    tripDistance: Option<real>,
    ratecodeId: Option<real>,
    storeAndFwdFlag: Option<string>,
    puLocationId: Option<int>,
    doLocationId: Option<int>,
    paymentType: Option<int>,
    fareAmount: Option<real>,
    extra: Option<real>,
    mtaTax: Option<real>,
    tipAmount: Option<real>,
    tollsAmount: Option<real>,
    improvementSurcharge: Option<real>,
    totalAmount: Option<real>,
    congestionSurcharge: Option<real>,
    airportFee: Option<real>)

  function IntCell(v: Option<int>): Option<Value> {
    match v
    case None => None
    case Some(x) => Some(IntV(x))
  }

  function RealCell(v: Option<real>): Option<Value> {
    match v
    case None => None
    case Some(x) => Some(RealV(x))
  }

  function TimeCell(v: Option<int>): Option<Value> {
    match v
    case None => None
    case Some(x) => Some(TimeV(x))
  }

  function StrCell(v: Option<string>): Option<Value> {
    match v
    case None => None
    case Some(x) => Some(StrV(x))
  }

  /** The cell of row `r` in column `c`. */
  function Get(r: TripRow, c: Column): Option<Value> {
    match c
    case VendorID => IntCell(r.vendorId)
    case TpepPickupDatetime => TimeCell(r.pickup)
    case TpepDropoffDatetime => TimeCell(r.dropoff)
    case PassengerCount => RealCell(r.passengerCount)
    case TripDistance => RealCell(r.tripDistance)
    case RatecodeID => RealCell(r.ratecodeId)
    case StoreAndFwdFlag => StrCell(r.storeAndFwdFlag)
    case PULocationID => IntCell(r.puLocationId)
    case DOLocationID => IntCell(r.doLocationId)
    case PaymentType => IntCell(r.paymentType)
    case FareAmount => RealCell(r.fareAmount)
    case Extra => RealCell(r.extra)
    case MtaTax => RealCell(r.mtaTax)
    case TipAmount => RealCell(r.tipAmount)
    case TollsAmount => RealCell(r.tollsAmount)
    case ImprovementSurcharge => RealCell(r.improvementSurcharge)
    case TotalAmount => RealCell(r.totalAmount)
    case CongestionSurcharge => RealCell(r.congestionSurcharge)
    case AirportFee => RealCell(r.airportFee)
  }

  /** A row whose every cell is missing (`isna().all(axis=1)`). */
  predicate IsEmptyRow(r: TripRow) {
    forall c: Column :: Get(r, c).None?
  }
}
