/**
 * A declarative data contract over trip rows, in the shape the schema library
 * gives it: per-column declarations (name, type, nullability, checks) and
 * whole-table checks, together with what it means for a batch to conform and
 * the failures a validation reports.
 *
 * Checks skip missing cells: nullability alone decides about them.  A column
 * is looked up by its exact (case-sensitive) header name; a declared column
 * the frame does not have fails the whole validation.
 */
module Contracts {
  import opened Wrappers
  import opened TripData
  import opened Frames

  /** A column's declared type; the cells are already coerced to it. */
  datatype DType = IntT | FloatT | StrT | DateTimeT | ObjectT

  datatype Check =
    | IsIn(allowed: seq<Value>)        // membership in a fixed list of values
    | Ge(bound: real)                  // value >= bound
    | Le(bound: real)                  // value <= bound
    | Gt(bound: real)                  // value > bound
    | NullFractionAtMost(limit: real)  // mean of isna() over the column <= limit

  datatype ColumnSpec = ColumnSpec(name: string, dtype: DType, nullable: bool, checks: seq<Check>)

  datatype TableCheck = NoDuplicates | NoEmptyRows | PickupNotAfterDropoff

  datatype Schema = Schema(columns: seq<ColumnSpec>, checks: seq<TableCheck>)

  datatype Failure =
    | ColumnMissing(column: string)
    | NullValues(column: string)
    | WrongType(column: string)
    | CheckFailed(column: string, check: Check)
    | TableCheckFailed(tableCheck: TableCheck)

  /** The number a cell stands for; strings and timestamps do not compare with numbers. */
  function Numeric(v: Value): Option<real> {
    match v
    case IntV(i) => Some(i as real)
    case RealV(x) => Some(x)
    case StrV(_) => None
    case TimeV(_) => None
  }

  predicate HasType(t: DType, v: Value) {
    match t
    case IntT => v.IntV?
    case FloatT => v.RealV?
    case StrT => v.StrV?
    case DateTimeT => v.TimeV?
    case ObjectT => true
  }

  /** What an element-wise check says about one present cell. */
  predicate Accepts(c: Check, v: Value) {
    match c
    case IsIn(allowed) => v in allowed
    case Ge(b) => Numeric(v).Some? && Numeric(v).value >= b
    case Le(b) => Numeric(v).Some? && Numeric(v).value <= b
    case Gt(b) => Numeric(v).Some? && Numeric(v).value > b
    case NullFractionAtMost(_) => true
  }

  /** The cells of one column, top to bottom. */
  function Cells(rows: seq<TripRow>, c: Column): seq<Option<Value>> {
    seq(|rows|, i requires 0 <= i < |rows| => Get(rows[i], c))
  }

  /** The number of missing cells. */
  function NullCount(vs: seq<Option<Value>>): (n: nat)
    ensures n <= |vs|
    ensures n == 0 <==> forall k | 0 <= k < |vs| :: vs[k].Some?
  {
    if vs == [] then 0
    else (if vs[0].None? then 1 else 0) + NullCount(vs[1..])
  }

  /** A check over a whole column.  The mean of an empty column is not a number,
    * and comparing it with the limit is false, so a null-fraction check fails
    * on a column with no cells. */
  predicate CheckHolds(c: Check, vs: seq<Option<Value>>) {
    match c
    case NullFractionAtMost(limit) =>
      |vs| > 0 && (NullCount(vs) as real) <= limit * (|vs| as real)
    case _ =>
      forall k | 0 <= k < |vs| :: vs[k].Some? ==> Accepts(c, vs[k].value)
  }

  predicate ColumnConforms(spec: ColumnSpec, rows: seq<TripRow>) {
    match ColumnNamed(spec.name)
    case None => false
    case Some(col) =>
      var vs := Cells(rows, col);
      && (spec.nullable || NullCount(vs) == 0)
      && (forall k | 0 <= k < |vs| :: vs[k].Some? ==> HasType(spec.dtype, vs[k].value))
      && (forall c | c in spec.checks :: CheckHolds(c, vs))
  }

  /** What a column declaration demands of one cell: presence unless nullable, the
    * declared type, and every element-wise check. */
  predicate CellConforms(spec: ColumnSpec, cell: Option<Value>) {
    match cell
    case None => spec.nullable
    case Some(v) => HasType(spec.dtype, v) && forall c | c in spec.checks :: Accepts(c, v)
  }

  /** A column conforms exactly when each of its cells does and its whole-column
    * checks hold. */
  lemma ColumnConformsByCells(spec: ColumnSpec, rows: seq<TripRow>)
    requires ColumnNamed(spec.name).Some?
    ensures var col := ColumnNamed(spec.name).value;
      ColumnConforms(spec, rows) <==>
        && (forall i | 0 <= i < |rows| :: CellConforms(spec, Get(rows[i], col)))
        && (forall c | c in spec.checks && c.NullFractionAtMost? :: CheckHolds(c, Cells(rows, col)))
  {
    var col := ColumnNamed(spec.name).value;
    var vs := Cells(rows, col);
    if ColumnConforms(spec, rows) {
      forall i | 0 <= i < |rows| ensures CellConforms(spec, Get(rows[i], col)) {
        assert vs[i] == Get(rows[i], col);
        if vs[i].Some? {
          forall c | c in spec.checks ensures Accepts(c, vs[i].value) {
            assert CheckHolds(c, vs);
          }
        }
      }
    }
    if (forall i | 0 <= i < |rows| :: CellConforms(spec, Get(rows[i], col))) {
      forall c | c in spec.checks && !c.NullFractionAtMost? ensures CheckHolds(c, vs) {
        forall k | 0 <= k < |vs| && vs[k].Some? ensures Accepts(c, vs[k].value) {
          assert CellConforms(spec, Get(rows[k], col));
        }
      }
      forall k | 0 <= k < |vs| && vs[k].Some? ensures HasType(spec.dtype, vs[k].value) {
        assert CellConforms(spec, Get(rows[k], col));
      }
      if !spec.nullable {
        forall k | 0 <= k < |vs| ensures vs[k].Some? {
          assert CellConforms(spec, Get(rows[k], col));
        }
      }
    }
  }

  /** `isna().mean() <= 0.01` in whole numbers: at most one missing cell in a hundred,
    * and at least one cell. */
  lemma NullFractionOnePercent(vs: seq<Option<Value>>)
    ensures CheckHolds(NullFractionAtMost(0.01), vs) <==> |vs| > 0 && 100 * NullCount(vs) <= |vs|
  {
  }

  /** `df["tpep_pickup_datetime"] <= df["tpep_dropoff_datetime"]` for one row; a row
    * missing either timestamp is left to the columns' own not-null rules. */
  predicate PickupNotAfterDropoffAt(r: TripRow) {
    r.pickup.Some? && r.dropoff.Some? ==> r.pickup.value <= r.dropoff.value
  }

  predicate TableCheckHolds(t: TableCheck, rows: seq<TripRow>) {
    match t
    case NoDuplicates => NoDuplicateRows(rows)
    case NoEmptyRows => forall i | 0 <= i < |rows| :: !IsEmptyRow(rows[i])
    case PickupNotAfterDropoff => forall i | 0 <= i < |rows| :: PickupNotAfterDropoffAt(rows[i])
  }

  /** The batch satisfies every column declaration and every table check. */
  predicate Conforms(schema: Schema, rows: seq<TripRow>) {
    && (forall spec | spec in schema.columns :: ColumnConforms(spec, rows))
    && (forall t | t in schema.checks :: TableCheckHolds(t, rows))
  }

  /** With a single declaration, conformance is that declaration and the table checks. */
  lemma ConformsSingleColumn(schema: Schema, rows: seq<TripRow>)
    requires |schema.columns| == 1
    ensures Conforms(schema, rows) <==>
      ColumnConforms(schema.columns[0], rows) && forall t | t in schema.checks :: TableCheckHolds(t, rows)
  {
    assert schema.columns == [schema.columns[0]];
  }

  /** The declared columns the frame does not have, in declaration order. */
  function MissingColumns(specs: seq<ColumnSpec>): (r: seq<Failure>)
    ensures forall f | f in r :: f.ColumnMissing?
    ensures forall n :: ColumnMissing(n) in r <==>
      exists spec | spec in specs :: spec.name == n && ColumnNamed(n).None?
  {
    if specs == [] then []
    else
      (if ColumnNamed(specs[0].name).None? then [ColumnMissing(specs[0].name)] else [])
      + MissingColumns(specs[1..])
  }

  /** The declared checks that fail on a column, in declaration order. */
  function CheckFailures(name: string, checks: seq<Check>, vs: seq<Option<Value>>): (r: seq<Failure>)
    ensures forall f | f in r :: f.CheckFailed? && f.column == name
    ensures forall c :: CheckFailed(name, c) in r <==> c in checks && !CheckHolds(c, vs)
  {
    if checks == [] then []
    else
      (if CheckHolds(checks[0], vs) then [] else [CheckFailed(name, checks[0])])
      + CheckFailures(name, checks[1..], vs)
  }

  /** The failures of one present column: nulls, then the type, then its checks. */
  function ColumnFailures(spec: ColumnSpec, col: Column, rows: seq<TripRow>): seq<Failure> {
    var vs := Cells(rows, col);
    (if spec.nullable || NullCount(vs) == 0 then [] else [NullValues(spec.name)])
    + (if forall k | 0 <= k < |vs| :: vs[k].Some? ==> HasType(spec.dtype, vs[k].value)
       then [] else [WrongType(spec.name)])
    + CheckFailures(spec.name, spec.checks, vs)
  }

  function AllColumnFailures(specs: seq<ColumnSpec>, rows: seq<TripRow>): seq<Failure> {
    if specs == [] then []
    else
      (match ColumnNamed(specs[0].name)
       case None => []
       case Some(col) => ColumnFailures(specs[0], col, rows))
      + AllColumnFailures(specs[1..], rows)
  }

  function TableFailures(checks: seq<TableCheck>, rows: seq<TripRow>): (r: seq<Failure>)
    ensures forall t :: TableCheckFailed(t) in r <==> t in checks && !TableCheckHolds(t, rows)
    ensures forall f | f in r :: f.TableCheckFailed?
  {
    if checks == [] then []
    else
      (if TableCheckHolds(checks[0], rows) then [] else [TableCheckFailed(checks[0])])
      + TableFailures(checks[1..], rows)
  }

  /** Every failure, in the order validation meets them: missing columns first,
    * then each column's own failures, then the table checks. */
  function Failures(schema: Schema, rows: seq<TripRow>): seq<Failure> {
    MissingColumns(schema.columns)
    + AllColumnFailures(schema.columns, rows)
    + TableFailures(schema.checks, rows)
  }

  lemma ColumnFailuresEmptyIff(spec: ColumnSpec, rows: seq<TripRow>)
    requires ColumnNamed(spec.name).Some?
    ensures ColumnFailures(spec, ColumnNamed(spec.name).value, rows) == [] <==> ColumnConforms(spec, rows)
  {
    var vs := Cells(rows, ColumnNamed(spec.name).value);
    var cf := CheckFailures(spec.name, spec.checks, vs);
    assert cf == [] <==> forall c | c in spec.checks :: CheckHolds(c, vs) by {
      if cf != [] {
        assert cf[0] in cf;
      }
    }
  }

  lemma {:induction false} AllColumnFailuresEmptyIff(specs: seq<ColumnSpec>, rows: seq<TripRow>)
    ensures MissingColumns(specs) + AllColumnFailures(specs, rows) == [] <==>
      forall spec | spec in specs :: ColumnConforms(spec, rows)
  {
    if specs != [] {
      AllColumnFailuresEmptyIff(specs[1..], rows);
      var s := specs[0];
      if ColumnNamed(s.name).Some? {
        ColumnFailuresEmptyIff(s, rows);
      }
      assert forall spec | spec in specs :: spec == s || spec in specs[1..];
    }
  }

  lemma FailuresEmptyIffConforms(schema: Schema, rows: seq<TripRow>)
    ensures Failures(schema, rows) == [] <==> Conforms(schema, rows)
  {
    AllColumnFailuresEmptyIff(schema.columns, rows);
    var tf := TableFailures(schema.checks, rows);
    if tf != [] { assert tf[0] in tf; }
  }

  /** A declared column the frame lacks is the first failure reported. */
  lemma MissingColumnComesFirst(schema: Schema, rows: seq<TripRow>, spec: ColumnSpec)
    requires spec in schema.columns && ColumnNamed(spec.name).None?
    ensures Failures(schema, rows) != [] && Failures(schema, rows)[0].ColumnMissing?
  {
    var missing := MissingColumns(schema.columns);
    assert ColumnMissing(spec.name) in missing;
    assert Failures(schema, rows)[0] == missing[0];
  }

  /** The first declared column the frame lacks heads the list of missing columns. */
  lemma {:induction false} FirstMissingColumn(specs: seq<ColumnSpec>, k: nat)
    requires k < |specs| && ColumnNamed(specs[k].name).None?
    requires forall j | 0 <= j < k :: ColumnNamed(specs[j].name).Some?
    ensures MissingColumns(specs) != [] && MissingColumns(specs)[0] == ColumnMissing(specs[k].name)
  {
    if k > 0 {
      FirstMissingColumn(specs[1..], k - 1);
      assert MissingColumns(specs) == MissingColumns(specs[1..]);
    }
  }

  /** Validation names the first declared column the frame lacks. */
  lemma ValidateReportsFirstMissingColumn(schema: Schema, rows: seq<TripRow>, k: nat)
    requires k < |schema.columns| && ColumnNamed(schema.columns[k].name).None?
    requires forall j | 0 <= j < k :: ColumnNamed(schema.columns[j].name).Some?
    ensures Validate(schema, rows) == Err(ColumnMissing(schema.columns[k].name))
  {
    FirstMissingColumn(schema.columns, k);
    var fs := Failures(schema, rows);
    assert fs[0] == MissingColumns(schema.columns)[0];
    assert schema.columns[k] in schema.columns;
  }

  /** `schema.validate(df)`: the frame itself when it conforms, otherwise the first
    * failure, which the library raises as its schema error. */
  function Validate(schema: Schema, rows: seq<TripRow>): (r: Result<seq<TripRow>, Failure>)
    ensures r.Ok? <==> Conforms(schema, rows)
    ensures r.Ok? ==> r.value == rows
    ensures r.Err? ==> Failures(schema, rows) != [] && r.error == Failures(schema, rows)[0]
    ensures forall spec | spec in schema.columns && ColumnNamed(spec.name).None? ::
      r.Err? && r.error.ColumnMissing?
  {
    FailuresEmptyIffConforms(schema, rows);
    forall spec | spec in schema.columns && ColumnNamed(spec.name).None?
      ensures Failures(schema, rows) != [] && Failures(schema, rows)[0].ColumnMissing?
    {
      MissingColumnComesFirst(schema, rows, spec);
    }
    var fs := Failures(schema, rows);
    if fs == [] then Ok(rows) else Err(fs[0])
  }
}
