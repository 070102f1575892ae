/** The two `scale` functions: `data_scaling.py` scales the numeric
    non-binary columns of a frame in place, `util/data_scaling.py` scales
    the listed (by default all numeric) columns of a copy. Each of the three
    scikit-learn scalers maps a cell `x` of a column to
    `(x - center) / scale`, fitted on that column with missing cells
    ignored and a zero scale replaced by one. */
module Scaling {

  import opened Common
  import opened Tables

  // ---------------------------------------------------------------------
  // Column selection

  /** `select_dtypes(include='number')`: every cell is a number or missing. */
  predicate NumericColumn(t: Table, c: string)
    requires WellFormed(t) && c in t.columns
  {
    forall i :: 0 <= i < |t.rows| ==> IsNumeric(t.rows[i][c]) || t.rows[i][c].Missing?
  }

  /** The non-missing values of the column are a subset of {0, 1}. */
  predicate BinaryColumn(t: Table, c: string)
    requires WellFormed(t) && c in t.columns
  {
    forall i :: 0 <= i < |t.rows| && IsNumeric(t.rows[i][c]) ==>
      RealOf(t.rows[i][c]) == 0.0 || RealOf(t.rows[i][c]) == 1.0
  }

  /** `x` occurs in `cols` before an occurrence of `y`. */
  ghost predicate Precedes(cols: seq<string>, x: string, y: string)
  {
    exists p, q :: 0 <= p < q < |cols| && cols[p] == x && cols[q] == y
  }

  /** Any two entries of `r` occur in `cols` in the same order. */
  ghost predicate InOrderOf(r: seq<string>, cols: seq<string>)
  {
    forall i, j :: 0 <= i < j < |r| ==> Precedes(cols, r[i], r[j])
  }

  /** Putting the head of `cols` in front of an ordered selection of its
      tail keeps the order. */
  lemma InOrderCons(rest: seq<string>, cols: seq<string>)
    requires cols != [] && InOrderOf(rest, cols[1..])
    requires forall c :: c in rest ==> c in cols[1..]
    ensures InOrderOf([cols[0]] + rest, cols)
  {
    var r := [cols[0]] + rest;
    forall i, j | 0 <= i < j < |r|
      ensures Precedes(cols, r[i], r[j])
    {
      assert r[j] == rest[j - 1] && r[j] in cols[1..];
      var k :| 0 <= k < |cols[1..]| && cols[1..][k] == r[j];
      if i == 0 {
        assert cols[0] == r[i] && cols[k + 1] == r[j];
      } else {
        assert r[i] == rest[i - 1] && Precedes(cols[1..], rest[i - 1], rest[j - 1]);
        var p, q :| 0 <= p < q < |cols[1..]| && cols[1..][p] == rest[i - 1] && cols[1..][q] == rest[j - 1];
        assert cols[p + 1] == r[i] && cols[q + 1] == r[j];
      }
    }
  }

  /** An ordered selection of the tail of `cols` is one of `cols`. */
  lemma InOrderTail(rest: seq<string>, cols: seq<string>)
    requires cols != [] && InOrderOf(rest, cols[1..])
    ensures InOrderOf(rest, cols)
  {
    forall i, j | 0 <= i < j < |rest|
      ensures Precedes(cols, rest[i], rest[j])
    {
      assert Precedes(cols[1..], rest[i], rest[j]);
      var p, q :| 0 <= p < q < |cols[1..]| && cols[1..][p] == rest[i] && cols[1..][q] == rest[j];
      assert cols[p + 1] == rest[i] && cols[q + 1] == rest[j];
    }
  }

  /** The numeric columns among `cols`, in their order. */
  function NumericAmong(t: Table, cols: seq<string>): (r: seq<string>)
    requires WellFormed(t) && forall c :: c in cols ==> c in t.columns
    ensures forall c :: c in r <==> c in cols && NumericColumn(t, c)
    ensures Distinct(cols) ==> Distinct(r)
    decreases |cols|
  {
    if cols == [] then []
    else
      var rest := NumericAmong(t, cols[1..]);
      assert forall c :: c in cols <==> c == cols[0] || c in cols[1..];
      if NumericColumn(t, cols[0]) && cols[0] !in rest then [cols[0]] + rest
      else rest
  }

  /** The numeric columns whose values are not all 0 or 1, in their order. */
  function NonBinaryAmong(t: Table, cols: seq<string>): (r: seq<string>)
    requires WellFormed(t) && forall c :: c in cols ==> c in t.columns
    ensures forall c :: c in r <==> c in cols && NumericColumn(t, c) && !BinaryColumn(t, c)
    ensures Distinct(cols) ==> Distinct(r)
    decreases |cols|
  {
    if cols == [] then []
    else
      var rest := NonBinaryAmong(t, cols[1..]);
      assert forall c :: c in cols <==> c == cols[0] || c in cols[1..];
      if NumericColumn(t, cols[0]) && !BinaryColumn(t, cols[0]) && cols[0] !in rest then [cols[0]] + rest
      else rest
  }

  function NumericColumns(t: Table): (r: seq<string>)
    requires WellFormed(t)
    ensures forall c :: c in r <==> c in t.columns && NumericColumn(t, c)
    ensures Distinct(r)
  {
    NumericAmong(t, t.columns)
  }

  function NonBinaryColumns(t: Table): (r: seq<string>)
    requires WellFormed(t)
    ensures forall c :: c in r <==> c in t.columns && NumericColumn(t, c) && !BinaryColumn(t, c)
    ensures Distinct(r)
  {
    NonBinaryAmong(t, t.columns)
  }

  /** The selections keep the order of the list they select from. */
  lemma {:induction false} NumericAmongInOrder(t: Table, cols: seq<string>)
    requires WellFormed(t) && forall c :: c in cols ==> c in t.columns
    ensures InOrderOf(NumericAmong(t, cols), cols)
    decreases |cols|
  {
    if cols != [] {
      var rest := NumericAmong(t, cols[1..]);
      NumericAmongInOrder(t, cols[1..]);
      if NumericColumn(t, cols[0]) && cols[0] !in rest {
        InOrderCons(rest, cols);
      } else {
        InOrderTail(rest, cols);
      }
    }
  }

  lemma {:induction false} NonBinaryAmongInOrder(t: Table, cols: seq<string>)
    requires WellFormed(t) && forall c :: c in cols ==> c in t.columns
    ensures InOrderOf(NonBinaryAmong(t, cols), cols)
    decreases |cols|
  {
    if cols != [] {
      var rest := NonBinaryAmong(t, cols[1..]);
      NonBinaryAmongInOrder(t, cols[1..]);
      if NumericColumn(t, cols[0]) && !BinaryColumn(t, cols[0]) && cols[0] !in rest {
        InOrderCons(rest, cols);
      } else {
        InOrderTail(rest, cols);
      }
    }
  }

  /** A column with no values at all counts as binary (the empty set is a
      subset of {0, 1}), so it is not selected. */
  lemma AllMissingNotSelected(t: Table, c: string)
    requires WellFormed(t) && c in t.columns
    requires forall i :: 0 <= i < |t.rows| ==> t.rows[i][c].Missing?
    ensures c in NumericColumns(t) && c !in NonBinaryColumns(t)
  {
  }

  // ---------------------------------------------------------------------
  // Fitting and transforming

  datatype ScalerKind = StandardScaler | MinMaxScaler | RobustScaler

  /** The floating-point statistics the standard and robust scalers fit,
      left abstract: mean, standard deviation, median and interquartile
      range of a column's values. */
  datatype Statistics = Statistics(
    mean: seq<real> -> real, std: seq<real> -> real,
    median: seq<real> -> real, iqr: seq<real> -> real)

  /** A fitted column: `x` becomes `(x - center) / scale`. */
  datatype Affine = Affine(center: real, scale: real)

  /** The values of a column with missing cells dropped, in order. */
  function NumbersOf(col: seq<Cell>): (xs: seq<real>)
    ensures forall i :: 0 <= i < |col| && IsNumeric(col[i]) ==> RealOf(col[i]) in xs
    ensures forall x :: x in xs ==> exists i :: 0 <= i < |col| && IsNumeric(col[i]) && RealOf(col[i]) == x
    decreases |col|
  {
    if col == [] then []
    else
      var rest := NumbersOf(col[1..]);
      assert forall i :: 1 <= i < |col| ==> col[i] == col[1..][i - 1];
      if IsNumeric(col[0]) then [RealOf(col[0])] + rest else rest
  }

  function Min(xs: seq<real>): (m: real)
    requires xs != []
    ensures m in xs && forall x :: x in xs ==> m <= x
  {
    if |xs| == 1 then xs[0]
    else
      var rest := Min(xs[1..]);
      assert forall x :: x in xs ==> x == xs[0] || x in xs[1..];
      if xs[0] <= rest then xs[0] else rest
  }

  function Max(xs: seq<real>): (m: real)
    requires xs != []
    ensures m in xs && forall x :: x in xs ==> x <= m
  {
    if |xs| == 1 then xs[0]
    else
      var rest := Max(xs[1..]);
      assert forall x :: x in xs ==> x == xs[0] || x in xs[1..];
      if xs[0] >= rest then xs[0] else rest
  }

  /** scikit-learn replaces a zero scale by one. */
  function NonZero(s: real): (r: real)
    ensures r != 0.0 && (s != 0.0 ==> r == s)
  {
    if s == 0.0 then 1.0 else s
  }

  /** The parameters one scaler fits on a column's values. A column without
      values gets the identity (its cells stay missing anyway). */
  function FitColumn(kind: ScalerKind, xs: seq<real>, stats: Statistics): (a: Affine)
    ensures a.scale != 0.0
    ensures kind == MinMaxScaler && xs != [] ==> a.center == Min(xs) && a.scale > 0.0
    ensures kind == MinMaxScaler && xs != [] ==> a == Affine(Min(xs), NonZero(Max(xs) - Min(xs)))
  {
    if xs == [] then Affine(0.0, 1.0)
    else
      match kind
      case MinMaxScaler => Affine(Min(xs), NonZero(Max(xs) - Min(xs)))
      case StandardScaler => Affine(stats.mean(xs), NonZero(stats.std(xs)))
      case RobustScaler => Affine(stats.median(xs), NonZero(stats.iqr(xs)))
  }

  /** Bounds that occur in a list are its minimum and maximum. */
  lemma MinMaxAttained(xs: seq<real>, lo: real, hi: real)
    requires lo in xs && hi in xs && forall x :: x in xs ==> lo <= x <= hi
    ensures xs != [] && Min(xs) == lo && Max(xs) == hi
  {
  }

  /** `scaler.fit(df[cols])`: one fitted column per listed column. */
  function Fit(t: Table, cols: seq<string>, kind: ScalerKind, stats: Statistics): (m: map<string, Affine>)
    requires WellFormed(t) && forall c :: c in cols ==> c in t.columns
    ensures m.Keys == Elems(cols)
    ensures forall c :: c in m ==> m[c].scale != 0.0
  {
    map c | c in cols :: FitColumn(kind, NumbersOf(Column(t, c)), stats)
  }

  predicate Fitted(m: map<string, Affine>)
  {
    forall c :: c in m ==> m[c].scale != 0.0
  }

  /** One cell through a fitted column; missing cells stay missing. */
  function ScaleCell(a: Affine, c: Cell): Cell
    requires a.scale != 0.0
  {
    if IsNumeric(c) then Num((RealOf(c) - a.center) / a.scale) else c
  }

  /** `df[cols] = scaler.transform(df[cols])`: the fitted columns are
      replaced by their scaled cells, every other cell is unchanged and the
      labels keep their order. */
  function Transform(t: Table, m: map<string, Affine>): (u: Table)
    requires WellFormed(t) && Fitted(m)
    ensures WellFormed(u) && u.columns == t.columns && |u.rows| == |t.rows|
    ensures forall i, c :: 0 <= i < |t.rows| && c in t.columns && c !in m ==> u.rows[i][c] == t.rows[i][c]
    ensures forall i, c :: 0 <= i < |t.rows| && c in t.columns && c in m ==>
      u.rows[i][c] == ScaleCell(m[c], t.rows[i][c])
  {
    Table(t.columns, seq(|t.rows|, i requires 0 <= i < |t.rows| =>
      map c | c in t.rows[i].Keys :: if c in m then ScaleCell(m[c], t.rows[i][c]) else t.rows[i][c]))
  }

  /** `inverse_transform` of one value. */
  function Unscale(a: Affine, y: real): real
  {
    y * a.scale + a.center
  }

  /** Scaling can be undone: the inverse transform gives back every value. */
  lemma ScaleRoundTrip(a: Affine, c: Cell)
    requires a.scale != 0.0 && IsNumeric(c)
    ensures ScaleCell(a, c).Num? && Unscale(a, ScaleCell(a, c).x) == RealOf(c)
  {
    var d := RealOf(c) - a.center;
    DivMul(d, a.scale);
  }

  lemma DivMul(d: real, s: real)
    requires s != 0.0
    ensures d / s * s == d
  {
  }

  /** Min-max scaling keeps the order of the values when the scale is
      positive. */
  lemma ScaleMonotone(a: Affine, c: Cell, e: Cell)
    requires a.scale > 0.0 && IsNumeric(c) && IsNumeric(e) && RealOf(c) <= RealOf(e)
    ensures ScaleCell(a, c).x <= ScaleCell(a, e).x
  {
    DivMonotone(RealOf(c) - a.center, RealOf(e) - a.center, a.scale);
  }

  lemma DivMonotone(x: real, y: real, s: real)
    requires s > 0.0 && x <= y
    ensures x / s <= y / s
  {
    assert y / s - x / s == (y - x) / s;
  }

  /** A scaled cell that is a number between 0 and 1. */
  predicate InUnitInterval(x: Option<Cell>)
  {
    x.Some? && x.value.Num? && 0.0 <= x.value.x <= 1.0
  }

  /** Min-max scaling of one value between `lo` and `hi`: it lands in
      [0, 1], `lo` at 0 and, when the bounds differ, `hi` at 1. */
  lemma MinMaxValue(a: Affine, c: Cell, lo: real, hi: real)
    requires a == Affine(lo, NonZero(hi - lo)) && IsNumeric(c) && lo <= RealOf(c) <= hi
    ensures ScaleCell(a, c).Num?
    ensures 0.0 <= ScaleCell(a, c).x <= 1.0
    ensures RealOf(c) == lo ==> ScaleCell(a, c).x == 0.0
    ensures RealOf(c) == hi && hi != lo ==> ScaleCell(a, c).x == 1.0
  {
    var x := RealOf(c);
    if hi == lo {
      assert x - lo == 0.0;
    } else {
      DivMonotone(0.0, x - lo, hi - lo);
      DivMonotone(x - lo, hi - lo, hi - lo);
      DivSelf(hi - lo);
    }
  }

  /** Min-max scaling sends every value of a fitted column into [0, 1], the
      smallest to 0 and, when the values differ, the largest to 1. */
  lemma MinMaxRange(t: Table, cols: seq<string>, stats: Statistics, i: nat, c: string)
    requires WellFormed(t) && forall x :: x in cols ==> x in t.columns
    requires c in cols && i < |t.rows| && IsNumeric(t.rows[i][c])
    ensures var xs := NumbersOf(Column(t, c));
      var y := ScaleCell(Fit(t, cols, MinMaxScaler, stats)[c], t.rows[i][c]).x;
      && 0.0 <= y <= 1.0
      && (RealOf(t.rows[i][c]) == Min(xs) ==> y == 0.0)
      && (RealOf(t.rows[i][c]) == Max(xs) && Max(xs) != Min(xs) ==> y == 1.0)
  {
    var xs := NumbersOf(Column(t, c));
    assert Column(t, c)[i] == t.rows[i][c];
    assert RealOf(t.rows[i][c]) in xs;
    assert Fit(t, cols, MinMaxScaler, stats)[c] == FitColumn(MinMaxScaler, xs, stats);
    MinMaxValue(Fit(t, cols, MinMaxScaler, stats)[c], t.rows[i][c], Min(xs), Max(xs));
  }

  lemma DivSelf(s: real)
    requires s != 0.0
    ensures s / s == 1.0
  {
  }

  // ---------------------------------------------------------------------
  // `util/data_scaling.py`

  /** The errors raised: an unknown method name (ValueError), a listed
      column the frame lacks (KeyError), and scikit-learn's ValueError for
      a fit on no column or on no row. */
  datatype ScaleError = UnknownScaler(name: string) | MissingColumn(column: string) | NothingToFit

  /** `{...}.get(method.lower())`: the older module's exact lookup applied
      to the lower-cased name. */
  function ScalerByLowerName(name: string): (r: Option<ScalerKind>)
    ensures r.Some? <==> Lower(name) in {"standard", "minmax", "robust"}
    ensures r == ScalerByExactName(Lower(name))
  {
    var m := Lower(name);
    if m == "standard" then Some(StandardScaler)
    else if m == "minmax" then Some(MinMaxScaler)
    else if m == "robust" then Some(RobustScaler)
    else None
  }

  /** The lookup ignores case, and accepts every exact name the older
      `scale` accepts, choosing the same scaler. */
  lemma ScalerNameIgnoresCase(name: string)
    ensures ScalerByLowerName(Lower(name)) == ScalerByLowerName(name)
    ensures ScalerByExactName(name).Some? ==> ScalerByLowerName(name) == ScalerByExactName(name)
  {
    LowerIdempotent(name);
    if ScalerByExactName(name).Some? {
      ExactNamesLower(name);
    }
  }

  /** The exact names are already lower case. */
  lemma ExactNamesLower(name: string)
    requires ScalerByExactName(name).Some?
    ensures Lower(name) == name
  {
    LowerUnchanged(name);
  }

  /** The scaled copy, and the fitted scaler when it was asked for (the
      function then returns a pair). */
  datatype ScaledCopy = ScaledCopy(frame: Table, scaler: Option<map<string, Affine>>)

  /** The columns the utility `scale` works on: the listed ones, or by
      default every numeric column. */
  function SelectedColumns(t: Table, columns: Option<seq<string>>): (cols: seq<string>)
    requires WellFormed(t)
    ensures columns.Some? ==> cols == columns.value
    ensures columns.None? ==> forall c :: c in cols <==> c in t.columns && NumericColumn(t, c)
  {
    if columns.None? then NumericColumns(t) else columns.value
  }

  /** `scale(df, method, columns, return_scaler=...)` of the utility module:
      the frame itself is never changed. */
  function ScaleCopy(t: Table, name: string, columns: Option<seq<string>>, returnScaler: bool,
                     stats: Statistics): (r: Result<ScaledCopy, ScaleError>)
    requires WellFormed(t)
    requires columns.Some? ==> forall c :: c in columns.value && c in t.columns ==> NumericColumn(t, c)
    ensures r == Err(UnknownScaler(name)) <==> ScalerByLowerName(name).None?
    ensures r.Err? && r.error.MissingColumn? ==>
      columns.Some? && r.error.column in columns.value && r.error.column !in t.columns
    ensures ScalerByLowerName(name).Some? && FirstAbsent(SelectedColumns(t, columns), t.columns).Some? ==>
      r == Err(MissingColumn(FirstAbsent(SelectedColumns(t, columns), t.columns).value))
    ensures ScalerByLowerName(name).Some? && (forall c :: c in SelectedColumns(t, columns) ==> c in t.columns) ==>
      (r == Err(NothingToFit) <==> SelectedColumns(t, columns) == [] || |t.rows| == 0)
    ensures r.Ok? ==> ScalerByLowerName(name).Some? && SelectedColumns(t, columns) != [] && |t.rows| > 0
    ensures r.Ok? ==> (r.value.scaler.Some? <==> returnScaler)
    ensures r.Ok? ==> WellFormed(r.value.frame)
    ensures r.Ok? ==> r.value.frame.columns == t.columns && |r.value.frame.rows| == |t.rows|
  {
    match ScalerByLowerName(name)
    case None => Err(UnknownScaler(name))
    case Some(kind) =>
      var cols := SelectedColumns(t, columns);
      match FirstAbsent(cols, t.columns)
      case Some(c) => Err(MissingColumn(c))
      case None =>
        if cols == [] || |t.rows| == 0 then Err(NothingToFit)
        else
          var m := Fit(t, cols, kind, stats);
          Ok(ScaledCopy(Transform(t, m), if returnScaler then Some(m) else None))
  }

  /** Every listed column, and by default every numeric column (binary ones
      included), is scaled with a scaler fitted on this frame; every other
      column is unchanged. */
  lemma ScaleCopyMeaning(t: Table, name: string, columns: Option<seq<string>>, returnScaler: bool,
                         stats: Statistics, i: nat, c: string)
    requires WellFormed(t)
    requires columns.Some? ==> forall x :: x in columns.value && x in t.columns ==> NumericColumn(t, x)
    requires ScaleCopy(t, name, columns, returnScaler, stats).Ok?
    requires i < |t.rows| && c in t.columns
    ensures var kind := ScalerByLowerName(name).value;
      var cols := SelectedColumns(t, columns);
      var r := ScaleCopy(t, name, columns, returnScaler, stats).value;
      && (forall x :: x in cols ==> x in t.columns)
      && (c in cols ==>
            r.frame.rows[i][c] == ScaleCell(FitColumn(kind, NumbersOf(Column(t, c)), stats), t.rows[i][c]))
      && (c !in cols ==> r.frame.rows[i][c] == t.rows[i][c])
      && (returnScaler ==> r.scaler == Some(Fit(t, cols, kind, stats)))
  {
  }

  /** Without a column list, a known method fits its scaler on every
      numeric column and transforms the copy with it; a frame without rows
      or without numeric columns has nothing to fit. */
  lemma ScaleCopyDefault(t: Table, name: string, returnScaler: bool, stats: Statistics)
    requires WellFormed(t) && ScalerByLowerName(name).Some?
    ensures var m := Fit(t, NumericColumns(t), ScalerByLowerName(name).value, stats);
      ScaleCopy(t, name, None, returnScaler, stats) ==
        if NumericColumns(t) == [] || |t.rows| == 0 then Err(NothingToFit)
        else Ok(ScaledCopy(Transform(t, m), if returnScaler then Some(m) else None))
  {
    assert FirstAbsent(NumericColumns(t), t.columns).None?;
  }

  // ---------------------------------------------------------------------
  // `data_scaling.py`

  /** The exact, case-sensitive method names of the older `scale`. */
  function ScalerByExactName(name: string): Option<ScalerKind>
  {
    if name == "standard" then Some(StandardScaler)
    else if name == "minmax" then Some(MinMaxScaler)
    else if name == "robust" then Some(RobustScaler)
    else None
  }

  /** The older `scale`: fits on the numeric non-binary columns and
      overwrites them in the caller's frame. An unknown method raises before
      the frame is touched, and so does a frame without a non-binary
      numeric column (a frame without rows has none), on which scikit-learn
      refuses to fit. */
  method ScaleInPlace(f: Frame, name: string, stats: Statistics) returns (r: Outcome<ScaleError>)
    requires WellFormed(f.Value())
    modifies f
    ensures ScalerByExactName(name).None? ==> r == Fail(UnknownScaler(name)) && f.Value() == old(f.Value())
    ensures ScalerByExactName(name).Some? && NonBinaryColumns(old(f.Value())) == [] ==>
      r == Fail(NothingToFit) && f.Value() == old(f.Value())
    ensures ScalerByExactName(name).Some? && NonBinaryColumns(old(f.Value())) != [] ==>
      && r == Pass
      && f.Value() == Transform(old(f.Value()),
           Fit(old(f.Value()), NonBinaryColumns(old(f.Value())), ScalerByExactName(name).value, stats))
  {
    var cols := NonBinaryColumns(f.Value());
    match ScalerByExactName(name)
    case None =>
      r := Fail(UnknownScaler(name));
    case Some(kind) =>
      if cols == [] {
        r := Fail(NothingToFit);
      } else {
        var u := Transform(f.Value(), Fit(f.Value(), cols, kind, stats));
        f.rows := u.rows;
        r := Pass;
      }
  }

  /** Without rows every column counts as binary, so nothing is selected. */
  lemma NoRowsNothingToFit(t: Table)
    requires WellFormed(t) && |t.rows| == 0
    ensures NonBinaryColumns(t) == []
  {
    AllBinaryNoneSelected(t, t.columns);
  }

  lemma {:induction false} AllBinaryNoneSelected(t: Table, cols: seq<string>)
    requires WellFormed(t) && forall c :: c in cols ==> c in t.columns && BinaryColumn(t, c)
    ensures NonBinaryAmong(t, cols) == []
    decreases |cols|
  {
    if cols != [] {
      AllBinaryNoneSelected(t, cols[1..]);
    }
  }

  /** What the older `scale` leaves alone: binary and non-numeric columns
      keep every cell, and the others are scaled. */
  lemma ScaleInPlaceColumns(t: Table, kind: ScalerKind, stats: Statistics, i: nat, c: string)
    requires WellFormed(t) && i < |t.rows| && c in t.columns
    ensures var u := Transform(t, Fit(t, NonBinaryColumns(t), kind, stats));
      && (!NumericColumn(t, c) || BinaryColumn(t, c) ==> u.rows[i][c] == t.rows[i][c])
      && (NumericColumn(t, c) && !BinaryColumn(t, c) ==>
            u.rows[i][c] == ScaleCell(FitColumn(kind, NumbersOf(Column(t, c)), stats), t.rows[i][c]))
  {
  }

  /** The older `scale` matches names exactly; the utility module's ignores
      case. */
  lemma NameMatching()
    ensures ScalerByExactName("MinMax").None?
    ensures ScalerByLowerName("MinMax") == Some(MinMaxScaler)
  {
    assert Lower("MinMax") == "minmax";
  }
}
