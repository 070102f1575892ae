/** The outlier filter of `util/handle_outlier.py`: ten row filters applied
    one after another, each keeping the rows whose cell passes a bound. */
module Outlier {

  import opened Common
  import opened Tables

  /** One row filter: `df[col] >= bound`, `df[col] <= bound` or
      `df[col] != value`. */
  datatype Check =
    | AtLeast(column: string, bound: real)
    | AtMost(column: string, bound: real)
    | Differs(column: string, bound: real)

  /** The filters, in the order they are applied. */
  const Checks: seq<Check> := [
    AtLeast("adr", 0.0),
    AtMost("stays_in_weekend_nights", 8.0),
    AtMost("stays_in_week_nights", 20.0),
    AtMost("adults", 6.0),
    AtMost("babies", 5.0),
    AtMost("previous_bookings_not_canceled", 20.0),
    AtMost("booking_changes", 10.0),
    Differs("adr", 5400.0),
    AtMost("required_car_parking_spaces", 4.0),
    AtMost("total_people", 6.0)]

  /** A missing cell (NaN or NA) fails every ordering comparison and passes
      `!=`. */
  predicate Passes(k: Check, c: Cell)
    requires IsNumeric(c) || c.Missing?
  {
    match k
    case AtLeast(_, bound) => !c.Missing? && RealOf(c) >= bound
    case AtMost(_, bound) => !c.Missing? && RealOf(c) <= bound
    case Differs(_, value) => c.Missing? || RealOf(c) != value
  }

  /** The filter of one check as a row mask. */
  function Mask(k: Check): Row -> bool
  {
    (r: Row) => k.column in r && (IsNumeric(r[k.column]) || r[k.column].Missing?) && Passes(k, r[k.column])
  }

  /** The columns the checks read are present and hold numbers or missing
      cells (a text cell would make pandas raise on the comparison). */
  predicate CheckedInput(t: Table, checks: seq<Check>)
  {
    && WellFormed(t)
    && (forall k :: k in checks ==> k.column in t.columns)
    && (forall i, k :: 0 <= i < |t.rows| && k in checks ==>
          k.column in t.rows[i] && (IsNumeric(t.rows[i][k.column]) || t.rows[i][k.column].Missing?))
  }

  /** The checks applied one after another, as the code does. */
  function Sequential(t: Table, checks: seq<Check>): Table
    decreases |checks|
  {
    if checks == [] then t else Sequential(Kept(t, Mask(checks[0])), checks[1..])
  }

  /** A row passes every check. */
  predicate PassesAll(checks: seq<Check>, r: Row)
  {
    forall k :: k in checks ==> Mask(k)(r)
  }

  /** Applying the checks one after another keeps, in order, exactly the
      rows that pass all of them, i.e. it is one filter by their
      conjunction. */
  lemma {:induction false} SequentialIsOneFilter(t: Table, checks: seq<Check>)
    ensures Sequential(t, checks) == Kept(t, r => PassesAll(checks, r))
    decreases |checks|
  {
    if checks == [] {
      FilterAll(t.rows, r => PassesAll(checks, r));
    } else {
      var k := checks[0];
      var t1 := Kept(t, Mask(k));
      SequentialIsOneFilter(t1, checks[1..]);
      assert forall r :: PassesAll(checks, r) == (Mask(k)(r) && PassesAll(checks[1..], r)) by {
        forall r
          ensures PassesAll(checks, r) == (Mask(k)(r) && PassesAll(checks[1..], r))
        {
          assert forall c :: c in checks <==> c == k || c in checks[1..];
        }
      }
      FilterFilter(t.rows, Mask(k), r => PassesAll(checks[1..], r), r => PassesAll(checks, r));
    }
  }

  /** `handle_outlier(df)`: a new frame holding the rows within all ten
      bounds. */
  function HandleOutlier(t: Table): (r: Table)
    requires CheckedInput(t, Checks)
    ensures WellFormed(r) && r.columns == t.columns
    ensures forall x :: x in r.rows <==> x in t.rows && PassesAll(Checks, x)
    ensures |r.rows| <= |t.rows|
  {
    SequentialIsOneFilter(t, Checks);
    Sequential(t, Checks)
  }

  /** The filter keeps the order of the rows it keeps and never duplicates
      one: every passing row is kept as often as it occurs. */
  lemma HandleOutlierKeepsOrder(t: Table, a: seq<Row>, b: seq<Row>)
    requires CheckedInput(t, Checks) && t.rows == a + b
    ensures HandleOutlier(t).rows ==
      Filter(a, r => PassesAll(Checks, r)) + Filter(b, r => PassesAll(Checks, r))
    ensures forall x :: PassesAll(Checks, x) ==>
      multiset(HandleOutlier(t).rows)[x] == multiset(t.rows)[x]
  {
    SequentialIsOneFilter(t, Checks);
    FilterAppend(a, b, r => PassesAll(Checks, r));
    FilterMultiset(t.rows, r => PassesAll(Checks, r));
  }

  /** The filtered frame still has the checked columns, numeric or missing. */
  lemma HandleOutlierChecked(t: Table)
    requires CheckedInput(t, Checks)
    ensures CheckedInput(HandleOutlier(t), Checks)
  {
    var r := HandleOutlier(t);
    forall i, k | 0 <= i < |r.rows| && k in Checks
      ensures k.column in r.rows[i] && (IsNumeric(r.rows[i][k.column]) || r.rows[i][k.column].Missing?)
    {
      assert r.rows[i] in t.rows;
    }
  }

  /** Filtering an already filtered frame removes nothing more. */
  lemma HandleOutlierIdempotent(t: Table)
    requires CheckedInput(t, Checks)
    ensures CheckedInput(HandleOutlier(t), Checks)
    ensures HandleOutlier(HandleOutlier(t)) == HandleOutlier(t)
  {
    var r := HandleOutlier(t);
    HandleOutlierChecked(t);
    SequentialIsOneFilter(t, Checks);
    SequentialIsOneFilter(r, Checks);
    FilterIdempotent(t.rows, x => PassesAll(Checks, x));
  }
}
