/** One-hot encoding as `pd.get_dummies(df, columns=..., drop_first=True,
    dtype=int)` does it: each listed column is replaced by one 0/1 column per
    distinct value but the smallest, appended after the other columns. */
module OneHot {

  import opened Common
  import opened Tables

  // ---------------------------------------------------------------------
  // Levels

  /** `x` inserted into a strictly increasing list, unless already there. */
  function Insert(s: seq<string>, x: string): (r: seq<string>)
    requires StrictlySorted(s)
    ensures StrictlySorted(r)
    ensures forall y :: y in r <==> y in s || y == x
    decreases |s|
  {
    if s == [] then [x]
    else if s[0] == x then s
    else if StrLess(x, s[0]) then
      assert forall j :: 0 <= j < |s| ==> StrLess(x, s[j]) by {
        forall j | 0 <= j < |s|
          ensures StrLess(x, s[j])
        {
          if j > 0 { StrLessTransitive(x, s[0], s[j]); }
        }
      }
      [x] + s
    else
      StrLessTotal(x, s[0]);
      var rest := Insert(s[1..], x);
      assert forall y :: y in s <==> y == s[0] || y in s[1..];
      assert forall j :: 0 <= j < |rest| ==> StrLess(s[0], rest[j]) by {
        forall j | 0 <= j < |rest|
          ensures StrLess(s[0], rest[j])
        {
          assert rest[j] in rest;
        }
      }
      [s[0]] + rest
  }

  /** The distinct text values of a column in increasing order: the
      categories `get_dummies` makes columns for (missing cells have none). */
  function Levels(col: seq<Cell>): (levels: seq<string>)
    ensures StrictlySorted(levels)
    ensures forall x :: x in levels <==> Text(x) in col
    decreases |col|
  {
    if col == [] then []
    else
      var rest := Levels(col[..|col| - 1]);
      assert forall c :: c in col <==> c in col[..|col| - 1] || c == col[|col| - 1];
      match col[|col| - 1]
      case Text(x) => Insert(rest, x)
      case _ => rest
  }

  /** Strictly increasing lists hold each value once. */
  lemma SortedDistinct(s: seq<string>)
    requires StrictlySorted(s)
    ensures Distinct(s)
  {
    forall i, j | 0 <= i < j < |s|
      ensures s[i] != s[j]
    {
      if s[i] == s[j] { StrLessIrreflexive(s[i]); }
    }
  }

  // ---------------------------------------------------------------------
  // Dummy columns

  /** The dummy column of value `level` of column `source`. */
  datatype Dummy = Dummy(source: string, level: string)

  /** Its label: `<source>_<level>`. */
  function Label(d: Dummy): string
  {
    d.source + "_" + d.level
  }

  /** The dummies of one column: every level but the first. */
  function ColumnDummies(source: string, levels: seq<string>): (ds: seq<Dummy>)
    ensures |levels| > 0 ==> |ds| == |levels| - 1
    ensures |levels| == 0 ==> ds == []
    ensures forall j :: 0 <= j < |ds| ==> ds[j] == Dummy(source, levels[j + 1])
  {
    if |levels| == 0 then []
    else seq(|levels| - 1, j requires 0 <= j < |levels| - 1 => Dummy(source, levels[j + 1]))
  }

  /** The dummies of the listed columns, column after column. */
  function AllDummies(t: Table, cols: seq<string>): (ds: seq<Dummy>)
    requires WellFormed(t) && forall c :: c in cols ==> c in t.columns
    ensures forall d :: d in ds ==> d.source in cols
    decreases |cols|
  {
    if cols == [] then []
    else
      ColumnDummies(cols[0], Levels(Column(t, cols[0]))) + AllDummies(t, cols[1..])
  }

  /** The dummies of column `c` among all of them are exactly its levels
      but the first. */
  lemma {:induction false} DummiesOfColumn(t: Table, cols: seq<string>, c: string, level: string)
    requires WellFormed(t) && forall x :: x in cols ==> x in t.columns
    requires c in cols
    ensures Dummy(c, level) in AllDummies(t, cols) <==>
      level in Levels(Column(t, c)) && level != Levels(Column(t, c))[0]
    decreases |cols|
  {
    var levels := Levels(Column(t, c));
    SortedDistinct(levels);
    var here := ColumnDummies(cols[0], Levels(Column(t, cols[0])));
    assert Dummy(c, level) in here <==> cols[0] == c && level in levels && level != levels[0] by {
      if cols[0] == c && level in levels && level != levels[0] {
        var j :| 0 <= j < |levels| && levels[j] == level;
        assert here[j - 1] == Dummy(c, level);
      }
    }
    if cols[0] != c || Dummy(c, level) !in here {
      if c in cols[1..] {
        DummiesOfColumn(t, cols[1..], c, level);
      }
    }
  }

  function Labels(ds: seq<Dummy>): (labels: seq<string>)
    ensures |labels| == |ds|
    ensures forall j :: 0 <= j < |ds| ==> labels[j] == Label(ds[j])
  {
    seq(|ds|, j requires 0 <= j < |ds| => Label(ds[j]))
  }

  /** The 0/1 cell of a dummy: 1 exactly when the source cell is its level. */
  function Indicator(r: Row, d: Dummy): Cell
  {
    Int(if d.source in r && r[d.source] == Text(d.level) then 1 else 0)
  }

  /** The one-hot columns accept text or missing cells only. */
  predicate TextColumns(t: Table, cols: seq<string>)
    requires WellFormed(t)
  {
    forall i, c :: 0 <= i < |t.rows| && c in cols && c in t.columns ==>
      t.rows[i][c].Text? || t.rows[i][c].Missing?
  }

  /** The labels of the result are all different: no dummy label repeats
      or equals a kept column. */
  predicate FreshLabels(t: Table, cols: seq<string>)
    requires WellFormed(t) && forall c :: c in cols ==> c in t.columns
  {
    Distinct(Remove(t.columns, cols) + Labels(AllDummies(t, cols)))
  }

  /** The parts of a list without repetitions are without repetitions and
      share no element. */
  lemma DistinctConcat(a: seq<string>, b: seq<string>)
    requires Distinct(a + b)
    ensures forall j, k :: 0 <= j < |b| && 0 <= k < |b| && b[j] == b[k] ==> j == k
    ensures forall x :: x in a ==> x !in b
  {
    forall j, k | 0 <= j < |b| && 0 <= k < |b| && b[j] == b[k]
      ensures j == k
    {
      assert (a + b)[|a| + j] == (a + b)[|a| + k];
    }
    forall x | x in a
      ensures x !in b
    {
      var i :| 0 <= i < |a| && a[i] == x;
      forall j | 0 <= j < |b|
        ensures b[j] != x
      {
        assert (a + b)[i] == x && (a + b)[|a| + j] == b[j];
      }
    }
  }

  /** The dummy cells of one row, keyed by their labels. */
  function DummyCells(r: Row, ds: seq<Dummy>): (m: map<string, Cell>)
    requires forall d :: d in ds ==> d.source in r
    requires forall j, k :: 0 <= j < |ds| && 0 <= k < |ds| && Labels(ds)[j] == Labels(ds)[k] ==> j == k
    ensures m.Keys == Elems(Labels(ds))
    ensures forall j :: 0 <= j < |ds| ==> Label(ds[j]) in m && m[Label(ds[j])] == Indicator(r, ds[j])
  {
    var labels := Labels(ds);
    var m := map j | 0 <= j < |ds| :: labels[j] := Indicator(r, ds[j]);
    assert forall j :: 0 <= j < |ds| ==> labels[j] in m;
    m
  }

  /** One row of the result: the kept cells, then the dummy cells. */
  function EncodeRow(r: Row, kept: seq<string>, ds: seq<Dummy>): (out: Row)
    requires forall c :: c in kept ==> c in r
    requires forall d :: d in ds ==> d.source in r
    requires Distinct(kept + Labels(ds))
    ensures out.Keys == Elems(kept + Labels(ds))
    ensures forall c :: c in kept ==> c in out && out[c] == r[c]
    ensures forall j :: 0 <= j < |ds| ==> Label(ds[j]) in out && out[Label(ds[j])] == Indicator(r, ds[j])
  {
    DistinctConcat(kept, Labels(ds));
    var keptCells := map c | c in kept :: r[c];
    var dummies := DummyCells(r, ds);
    assert forall c :: c in kept ==> c !in dummies;
    keptCells + dummies
  }

  /** `pd.get_dummies(df, columns=cols, drop_first=True, dtype=int)`, or the
      first listed label that is not a column (KeyError). */
  function GetDummies(t: Table, cols: seq<string>): (r: Result<Table, string>)
    requires WellFormed(t) && TextColumns(t, cols)
    requires (forall c :: c in cols ==> c in t.columns) ==> FreshLabels(t, cols)
    ensures r.Err? <==> exists c :: c in cols && c !in t.columns
    ensures r.Err? ==> r.error in cols && r.error !in t.columns
  {
    match FirstAbsent(cols, t.columns)
    case Some(c) => Err(c)
    case None =>
      var kept := Remove(t.columns, cols);
      var ds := AllDummies(t, cols);
      Ok(Table(kept + Labels(ds),
        seq(|t.rows|, i requires 0 <= i < |t.rows| => EncodeRow(t.rows[i], kept, ds))))
  }

  /** The encoded frame: the other columns first, in their order and
      unchanged, then the dummy columns; each dummy cell is 1 exactly when
      the row's source cell holds that level. */
  lemma GetDummiesMeaning(t: Table, cols: seq<string>)
    requires WellFormed(t) && TextColumns(t, cols)
    requires forall c :: c in cols ==> c in t.columns
    requires FreshLabels(t, cols)
    ensures GetDummies(t, cols).Ok?
    ensures WellFormed(GetDummies(t, cols).value)
    ensures GetDummies(t, cols).value.columns ==
      Remove(t.columns, cols) + Labels(AllDummies(t, cols))
    ensures |GetDummies(t, cols).value.rows| == |t.rows|
    ensures forall i, c :: 0 <= i < |t.rows| && c in t.columns && c !in cols ==>
      CellAt(GetDummies(t, cols).value, i, c) == CellAt(t, i, c)
    ensures forall i, d :: 0 <= i < |t.rows| && d in AllDummies(t, cols) ==>
      CellAt(GetDummies(t, cols).value, i, Label(d)) == Some(Indicator(t.rows[i], d))
  {
    var kept := Remove(t.columns, cols);
    var ds := AllDummies(t, cols);
    var r := GetDummies(t, cols).value;
    assert r.rows == seq(|t.rows|, i requires 0 <= i < |t.rows| => EncodeRow(t.rows[i], kept, ds));
    forall i, c | 0 <= i < |t.rows| && c in t.columns && c !in cols
      ensures CellAt(r, i, c) == CellAt(t, i, c)
    {
      assert c in kept;
      assert t.rows[i].Keys == Elems(t.columns);
    }
    GetDummiesIndicators(t, cols);
  }

  /** Each dummy cell of the result is the indicator of its row. */
  lemma GetDummiesIndicators(t: Table, cols: seq<string>)
    requires WellFormed(t) && TextColumns(t, cols)
    requires forall c :: c in cols ==> c in t.columns
    requires FreshLabels(t, cols)
    ensures GetDummies(t, cols).Ok?
    ensures forall i, d :: 0 <= i < |t.rows| && d in AllDummies(t, cols) ==>
      CellAt(GetDummies(t, cols).value, i, Label(d)) == Some(Indicator(t.rows[i], d))
  {
    var kept := Remove(t.columns, cols);
    var ds := AllDummies(t, cols);
    var r := GetDummies(t, cols).value;
    assert r.rows == seq(|t.rows|, i requires 0 <= i < |t.rows| => EncodeRow(t.rows[i], kept, ds));
    forall i, d | 0 <= i < |t.rows| && d in ds
      ensures CellAt(r, i, Label(d)) == Some(Indicator(t.rows[i], d))
    {
      var j :| 0 <= j < |ds| && ds[j] == d;
    }
  }

  /** No two dummies of one column are 1 in the same row. */
  lemma AtMostOneDummy(r: Row, c: string, l1: string, l2: string)
    requires c in r
    requires Indicator(r, Dummy(c, l1)) == Int(1) && Indicator(r, Dummy(c, l2)) == Int(1)
    ensures l1 == l2
  {
  }

  /** What `drop_first` means for one column and one row: all its dummies
      are 0 exactly when the cell is missing or holds the smallest level,
      so (with the previous lemma) every value stays recoverable. */
  lemma DropFirstMeaning(t: Table, cols: seq<string>, c: string, i: int)
    requires WellFormed(t) && TextColumns(t, cols)
    requires forall x :: x in cols ==> x in t.columns
    requires c in cols && 0 <= i < |t.rows|
    ensures (forall l :: Dummy(c, l) in AllDummies(t, cols) ==> Indicator(t.rows[i], Dummy(c, l)) == Int(0))
      <==> t.rows[i][c].Missing? || t.rows[i][c] == Text(Levels(Column(t, c))[0])
  {
    var cell := t.rows[i][c];
    var levels := Levels(Column(t, c));
    assert Column(t, c)[i] == cell;
    if cell.Text? {
      assert cell.s in levels;
      DummiesOfColumn(t, cols, c, cell.s);
      assert cell.s != levels[0] ==> Indicator(t.rows[i], Dummy(c, cell.s)) == Int(1);
    }
    if cell.Missing? || cell == Text(levels[0]) {
      forall l | Dummy(c, l) in AllDummies(t, cols)
        ensures Indicator(t.rows[i], Dummy(c, l)) == Int(0)
      {
        DummiesOfColumn(t, cols, c, l);
      }
    }
  }
}
