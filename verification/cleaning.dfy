/** The cleaner of `util/data_cleaning.py`: the modes of three columns are
    learned from a training frame, missing cells of those columns are filled
    with them in a frame, and rows with babies but no adults are dropped,
    both in place. */
module Cleaning {

  import opened Common
  import opened Tables

  const Children: string := "children"
  const TotalPeople: string := "total_people"
  const SoloTraveler: string := "is_solo_traveler"
  const Adults: string := "adults"
  const Babies: string := "babies"

  // ---------------------------------------------------------------------
  // Modes

  /** `a` is more frequent in `xs` than `b`, or as frequent and smaller
      (pandas sorts the modes, and the code takes the first). */
  predicate Beats(xs: seq<int>, a: int, b: int)
  {
    Count(xs, a) > Count(xs, b) || (Count(xs, a) == Count(xs, b) && a < b)
  }

  /** The candidate no other candidate beats. */
  function Best(xs: seq<int>, candidates: seq<int>): (m: int)
    requires candidates != []
    ensures m in candidates
    ensures forall c :: c in candidates ==> !Beats(xs, c, m)
  {
    if |candidates| == 1 then candidates[0]
    else
      var rest := Best(xs, candidates[1..]);
      assert forall c :: c in candidates ==> c == candidates[0] || c in candidates[1..];
      if Beats(xs, candidates[0], rest) then candidates[0] else rest
  }

  /** The smallest of the most frequent values of a non-empty list. */
  function Mode(xs: seq<int>): (m: int)
    requires xs != []
    ensures m in xs
    ensures forall x :: x in xs ==> Count(xs, x) <= Count(xs, m)
    ensures forall x :: x in xs && Count(xs, x) == Count(xs, m) ==> m <= x
  {
    Best(xs, xs)
  }

  /** The modes never depend on the order of the values. */
  lemma {:induction false} ModeIsUnique(xs: seq<int>, m: int)
    requires xs != [] && m in xs
    requires forall x :: x in xs ==> Count(xs, x) <= Count(xs, m)
    requires forall x :: x in xs && Count(xs, x) == Count(xs, m) ==> m <= x
    ensures m == Mode(xs)
  {
    var n := Mode(xs);
    assert Count(xs, n) <= Count(xs, m) && Count(xs, m) <= Count(xs, n);
    assert m <= n && n <= m;
  }

  /** The cells of a nullable integer column (pandas Int64). */
  predicate IntColumn(col: seq<Cell>)
  {
    forall i :: 0 <= i < |col| ==> col[i].Int? || col[i].Missing?
  }

  /** The values of the non-missing cells, in order (`mode` skips NaN). */
  function Present(col: seq<Cell>): (xs: seq<int>)
    requires IntColumn(col)
    ensures forall v :: v in xs <==> Int(v) in col
    ensures forall v :: Count(xs, v) == Count(col, Int(v))
  {
    if col == [] then []
    else
      var rest := Present(col[1..]);
      assert forall c :: c in col <==> c == col[0] || c in col[1..];
      assert col == [col[0]] + col[1..];
      var head := if col[0].Int? then [col[0].i] else [];
      forall v
        ensures Count(head + rest, v) == Count(col, Int(v))
      {
        CountAppend(head, rest, v);
        CountAppend([col[0]], col[1..], Int(v));
      }
      head + rest
  }

  datatype CleanError = NoMode(column: string)

  /** `train[name].mode()[0]`: an all-missing or empty column has no mode
      and indexing the empty result fails. */
  function ColumnMode(t: Table, name: string): (r: Result<int, CleanError>)
    requires WellFormed(t) && name in t.columns && IntColumn(Column(t, name))
    ensures r.Err? <==> forall i :: 0 <= i < |t.rows| ==> t.rows[i][name].Missing?
    ensures r.Err? ==> r.error == NoMode(name)
    ensures r.Ok? ==> Int(r.value) in Column(t, name)
    ensures r.Ok? ==> forall v :: Count(Column(t, name), Int(v)) <= Count(Column(t, name), Int(r.value))
    ensures r.Ok? ==> forall v ::
      (Int(v) in Column(t, name) && Count(Column(t, name), Int(v)) == Count(Column(t, name), Int(r.value)))
      ==> r.value <= v
  {
    var col := Column(t, name);
    var xs := Present(col);
    if xs == [] then
      assert forall i :: 0 <= i < |t.rows| ==> t.rows[i][name].Missing? by {
        forall i | 0 <= i < |t.rows|
          ensures t.rows[i][name].Missing?
        {
          assert col[i] in col;
          assert forall v :: Int(v) !in col;
        }
      }
      Err(NoMode(name))
    else
      var m := Mode(xs);
      assert !forall i :: 0 <= i < |t.rows| ==> t.rows[i][name].Missing? by {
        var i :| 0 <= i < |col| && col[i] == Int(xs[0]);
      }
      forall v
        ensures Count(col, Int(v)) <= Count(col, Int(m))
      {
        if v !in xs {
          assert Count(xs, v) == 0;
        }
      }
      Ok(m)
  }

  /** The three fill values learned from the training frame. */
  datatype Modes = Modes(children: int, totalPeople: int, soloTraveler: int)

  /** The columns the cleaner reads, present in a well-formed frame. */
  predicate CleanerInput(t: Table)
  {
    && WellFormed(t)
    && Children in t.columns && TotalPeople in t.columns && SoloTraveler in t.columns
    && Adults in t.columns && Babies in t.columns
  }

  /** A training frame whose mode columns hold nullable integers. */
  predicate TrainingInput(t: Table)
  {
    && CleanerInput(t)
    && IntColumn(Column(t, Children))
    && IntColumn(Column(t, TotalPeople))
    && IntColumn(Column(t, SoloTraveler))
  }

  /** The three modes, or the first column that has none. */
  function ModesOf(train: Table): (r: Result<Modes, CleanError>)
    requires TrainingInput(train)
    ensures r.Ok? <==> ColumnMode(train, Children).Ok? && ColumnMode(train, TotalPeople).Ok?
                       && ColumnMode(train, SoloTraveler).Ok?
    ensures r.Ok? ==> r.value == Modes(ColumnMode(train, Children).value,
                                       ColumnMode(train, TotalPeople).value,
                                       ColumnMode(train, SoloTraveler).value)
  {
    match ColumnMode(train, Children)
    case Err(e) => Err(e)
    case Ok(c) =>
      match ColumnMode(train, TotalPeople)
      case Err(e) => Err(e)
      case Ok(p) =>
        match ColumnMode(train, SoloTraveler)
        case Err(e) => Err(e)
        case Ok(s) => Ok(Modes(c, p, s))
  }

  // ---------------------------------------------------------------------
  // The cleaning rules

  /** A row with no adult but at least one baby; NaN compares false. */
  predicate BabiesWithoutAdults(r: Row)
  {
    && Adults in r && Babies in r
    && IsNumeric(r[Adults]) && RealOf(r[Adults]) == 0.0
    && IsNumeric(r[Babies]) && RealOf(r[Babies]) > 0.0
  }

  function Consistent(r: Row): bool
  {
    !BabiesWithoutAdults(r)
  }

  /** The three fills applied to one row. */
  function FillRow(r: Row, m: Modes): Row
    requires Children in r && TotalPeople in r && SoloTraveler in r
  {
    r[Children := FillCell(r[Children], Int(m.children))]
     [TotalPeople := FillCell(r[TotalPeople], Int(m.totalPeople))]
     [SoloTraveler := FillCell(r[SoloTraveler], Int(m.soloTraveler))]
  }

  /** Rows that hold the three filled columns. */
  predicate HasFillColumns(rows: seq<Row>)
  {
    forall i :: 0 <= i < |rows| ==> Children in rows[i] && TotalPeople in rows[i] && SoloTraveler in rows[i]
  }

  /** The three fills applied to every row, in order. */
  function FillRows(rows: seq<Row>, m: Modes): (r: seq<Row>)
    requires HasFillColumns(rows)
    ensures |r| == |rows| && forall i :: 0 <= i < |rows| ==> r[i] == FillRow(rows[i], m)
  {
    seq(|rows|, i requires 0 <= i < |rows| => FillRow(rows[i], m))
  }

  /** What `_apply` leaves in a frame: the same labels, the filled rows
      that are consistent. */
  function Cleaned(t: Table, m: Modes): (r: Table)
    requires CleanerInput(t)
    ensures CleanerInput(r) && r.columns == t.columns && |r.rows| <= |t.rows|
  {
    var filled := FillRows(t.rows, m);
    var r := Table(t.columns, Filter(filled, Consistent));
    assert WellFormed(r) by {
      forall i | 0 <= i < |r.rows|
        ensures r.rows[i].Keys == Elems(r.columns)
      {
        assert r.rows[i] in filled;
      }
    }
    r
  }

  /** A frame the cleaner has been through: no missing cell in the three
      filled columns, and no row with babies but no adults. */
  predicate IsClean(t: Table)
  {
    forall x: Row :: x in t.rows ==>
      && Children in x && TotalPeople in x && SoloTraveler in x
      && !x[Children].Missing? && !x[TotalPeople].Missing? && !x[SoloTraveler].Missing?
      && !BabiesWithoutAdults(x)
  }

  lemma CleanedIsClean(t: Table, m: Modes)
    requires CleanerInput(t)
    ensures IsClean(Cleaned(t, m))
  {
    var filled := FillRows(t.rows, m);
    forall x: Row | x in Cleaned(t, m).rows
      ensures !x[Children].Missing? && !x[TotalPeople].Missing? && !x[SoloTraveler].Missing?
    {
      var i :| 0 <= i < |filled| && filled[i] == x;
    }
  }

  /** Every consistent input row survives, with only its missing cells of
      the three columns filled. */
  lemma CleanedKeepsConsistentRows(t: Table, m: Modes)
    requires CleanerInput(t)
    ensures forall i :: 0 <= i < |t.rows| && !BabiesWithoutAdults(t.rows[i]) ==>
      FillRow(t.rows[i], m) in Cleaned(t, m).rows
  {
    var filled := FillRows(t.rows, m);
    forall i | 0 <= i < |t.rows| && !BabiesWithoutAdults(t.rows[i])
      ensures FillRow(t.rows[i], m) in Cleaned(t, m).rows
    {
      assert filled[i] in filled;
    }
  }

  /** Every cleaned row is a consistent input row with only its missing
      cells of the three columns filled. */
  lemma CleanedRowsComeFromInput(t: Table, m: Modes)
    requires CleanerInput(t)
    ensures forall x :: x in Cleaned(t, m).rows ==>
      exists i :: 0 <= i < |t.rows| && !BabiesWithoutAdults(t.rows[i]) && x == FillRow(t.rows[i], m)
  {
    var filled := FillRows(t.rows, m);
    forall x: Row | x in Cleaned(t, m).rows
      ensures exists i :: 0 <= i < |t.rows| && !BabiesWithoutAdults(t.rows[i]) && x == FillRow(t.rows[i], m)
    {
      var i :| 0 <= i < |filled| && filled[i] == x;
      assert !BabiesWithoutAdults(t.rows[i]);
    }
  }

  /** Cleaning keeps the order of the rows it keeps: it distributes over
      any split of the frame into a first and a last part, and every filled
      consistent row occurs as often as in the filled input. */
  lemma CleanedKeepsOrder(t: Table, m: Modes, a: seq<Row>, b: seq<Row>)
    requires CleanerInput(t) && t.rows == a + b
    ensures HasFillColumns(a) && HasFillColumns(b)
    ensures Cleaned(t, m).rows == Filter(FillRows(a, m), Consistent) + Filter(FillRows(b, m), Consistent)
    ensures forall x :: !BabiesWithoutAdults(x) ==>
      multiset(Cleaned(t, m).rows)[x] == multiset(FillRows(t.rows, m))[x]
  {
    forall i | 0 <= i < |a|
      ensures a[i] == t.rows[i]
    {
    }
    forall i | 0 <= i < |b|
      ensures b[i] == t.rows[|a| + i]
    {
    }
    assert FillRows(t.rows, m) == FillRows(a, m) + FillRows(b, m);
    FilterAppend(FillRows(a, m), FillRows(b, m), Consistent);
    FilterMultiset(FillRows(t.rows, m), Consistent);
  }

  /** Cleaning a clean frame changes nothing. */
  lemma {:induction false} CleanedOfClean(t: Table, m: Modes)
    requires CleanerInput(t) && IsClean(t)
    ensures Cleaned(t, m) == t
  {
    var filled := FillRows(t.rows, m);
    forall i | 0 <= i < |t.rows|
      ensures filled[i] == t.rows[i]
    {
      assert t.rows[i] in t.rows;
    }
    assert filled == t.rows;
    FilterAll(t.rows, Consistent);
  }

  /** Cleaning twice with the same modes is cleaning once. */
  lemma CleanedIdempotent(t: Table, m: Modes)
    requires CleanerInput(t)
    ensures Cleaned(Cleaned(t, m), m) == Cleaned(t, m)
  {
    CleanedIsClean(t, m);
    CleanedOfClean(Cleaned(t, m), m);
  }

  // ---------------------------------------------------------------------
  // In place

  /** `_apply`: fill the three columns, then drop the inconsistent rows. */
  method Apply(f: Frame, m: Modes)
    requires CleanerInput(f.Value())
    modifies f
    ensures f.Value() == Cleaned(old(f.Value()), m)
  {
    ghost var t := f.Value();
    f.FillMissing(Children, Int(m.children));
    f.FillMissing(TotalPeople, Int(m.totalPeople));
    f.FillMissing(SoloTraveler, Int(m.soloTraveler));
    assert f.rows == FillRows(t.rows, m);
    f.KeepRows(Consistent);
  }

  /** `data_cleaning(train_df, df)`: the modes of the training frame as it
      was on entry clean the training frame and then `df`, in place, and
      `df` itself is returned. When `train_df` and `df` are the same frame,
      the second pass changes nothing. */
  method DataCleaning(train: Frame, df: Frame) returns (r: Result<Frame, CleanError>)
    requires TrainingInput(train.Value()) && CleanerInput(df.Value())
    modifies train, df
    ensures ModesOf(old(train.Value())).Err? ==>
      && r == Err(ModesOf(old(train.Value())).error)
      && train.Value() == old(train.Value()) && df.Value() == old(df.Value())
    ensures ModesOf(old(train.Value())).Ok? ==>
      && r == Ok(df)
      && train.Value() == Cleaned(old(train.Value()), ModesOf(old(train.Value())).value)
      && df.Value() == Cleaned(old(df.Value()), ModesOf(old(train.Value())).value)
  {
    var modes := ModesOf(train.Value());
    if modes.Err? {
      return Err(modes.error);
    }
    var m := modes.value;
    ghost var t0, d0 := train.Value(), df.Value();
    Apply(train, m);
    if train == df {
      Apply(df, m);
      CleanedIdempotent(t0, m);
    } else {
      Apply(df, m);
    }
    r := Ok(df);
  }
}
