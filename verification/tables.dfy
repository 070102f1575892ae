/** A data frame: named columns in order and rows mapping each column name to
    a cell. `Table` is a frame as a value; `Frame` is a frame object whose
    columns and rows the pandas operations replace in place. */
module Tables {

  import opened Common

  /** One cell: an integer, a float (as an exact real), text, or missing
      (NaN, None or pandas NA alike). */
  datatype Cell = Int(i: int) | Num(x: real) | Text(s: string) | Missing

  predicate IsNumeric(c: Cell)
  {
    c.Int? || c.Num?
  }

  function RealOf(c: Cell): real
    requires IsNumeric(c)
  {
    if c.Int? then c.i as real else c.x
  }

  type Row = map<string, Cell>

  datatype Table = Table(columns: seq<string>, rows: seq<Row>)

  /** Column labels are unique and every row has exactly those labels. */
  predicate WellFormed(t: Table)
  {
    Distinct(t.columns) && forall i :: 0 <= i < |t.rows| ==> t.rows[i].Keys == Elems(t.columns)
  }

  /** The cell in row `i` under label `c`, if the frame has one there. */
  function CellAt(t: Table, i: int, c: string): Option<Cell>
  {
    if 0 <= i < |t.rows| && c in t.rows[i] then Some(t.rows[i][c]) else None
  }

  /** The cells of one column, top to bottom. */
  function Column(t: Table, name: string): (col: seq<Cell>)
    requires WellFormed(t) && name in t.columns
    ensures |col| == |t.rows|
    ensures forall i :: 0 <= i < |t.rows| ==> col[i] == t.rows[i][name]
  {
    seq(|t.rows|, i requires 0 <= i < |t.rows| => t.rows[i][name])
  }

  // ---------------------------------------------------------------------
  // Column labels

  /** The labels after `df[name] = ...`: an existing column keeps its
      place, a new one is appended. */
  function Assign(columns: seq<string>, name: string): (r: seq<string>)
    ensures forall c :: c in r <==> c in columns || c == name
    ensures Distinct(columns) ==> Distinct(r)
    ensures columns <= r
  {
    if name in columns then columns else columns + [name]
  }

  /** The labels after assigning `names` one after another. */
  function AssignAll(columns: seq<string>, names: seq<string>): (r: seq<string>)
    ensures forall c :: c in r <==> c in columns || c in names
    ensures Distinct(columns) ==> Distinct(r)
    ensures columns <= r
    decreases |names|
  {
    if names == [] then columns
    else
      assert forall c :: c in names <==> c == names[0] || c in names[1..];
      AssignAll(Assign(columns, names[0]), names[1..])
  }

  /** The labels of `columns` not listed in `names`, in their order. */
  function Remove(columns: seq<string>, names: seq<string>): (r: seq<string>)
    ensures forall c :: c in r <==> c in columns && c !in names
    ensures Distinct(columns) ==> Distinct(r)
    ensures |r| <= |columns|
  {
    if columns == [] then []
    else
      var rest := Remove(columns[1..], names);
      assert forall c :: c in columns <==> c == columns[0] || c in columns[1..];
      if columns[0] in names then rest else [columns[0]] + rest
  }

  /** Removing labels keeps the order of the rest. */
  lemma {:induction false} RemoveAppend(a: seq<string>, b: seq<string>, names: seq<string>)
    ensures Remove(a + b, names) == Remove(a, names) + Remove(b, names)
  {
    if a == [] {
      assert a + b == b;
    } else {
      assert (a + b)[0] == a[0];
      assert (a + b)[1..] == a[1..] + b;
      RemoveAppend(a[1..], b, names);
    }
  }

  /** The first listed label that is not a column. */
  function FirstAbsent(cols: seq<string>, columns: seq<string>): (r: Option<string>)
    ensures r.None? <==> forall c :: c in cols ==> c in columns
    ensures r.Some? ==> r.value in cols && r.value !in columns
  {
    if cols == [] then None
    else if cols[0] !in columns then Some(cols[0])
    else
      assert forall c :: c in cols <==> c == cols[0] || c in cols[1..];
      FirstAbsent(cols[1..], columns)
  }

  /** The labels after `df.drop(columns=names)`, or the first listed label
      that is not a column (pandas raises KeyError). */
  function DropLabels(columns: seq<string>, names: seq<string>): (r: Result<seq<string>, string>)
    ensures r.Ok? <==> forall n :: n in names ==> n in columns
    ensures r.Ok? ==> r.value == Remove(columns, names)
    ensures r.Err? ==> r.error in names && r.error !in columns
  {
    if names == [] then Ok(Remove(columns, names))
    else if names[0] !in columns then Err(names[0])
    else
      match DropLabels(columns, names[1..])
      case Err(e) => Err(e)
      case Ok(_) =>
        assert forall n :: n in names <==> n == names[0] || n in names[1..];
        Ok(Remove(columns, names))
  }

  /** Every dropped label is either an input column or one of the added ones. */
  predicate DropsPresent(input: seq<string>, added: seq<string>, dropped: seq<string>)
  {
    forall n :: n in dropped && n !in added ==> n in input
  }

  /** `out` holds exactly the input and added labels minus the dropped ones,
      each once, with the surviving input labels first, in their order. */
  ghost predicate AssignedThenDropped(input: seq<string>, added: seq<string>, dropped: seq<string>,
                                out: seq<string>)
  {
    && Distinct(out)
    && (forall c :: c in out <==> (c in input || c in added) && c !in dropped)
    && Remove(input, dropped) <= out
  }

  /** Assigning `added` and then dropping `dropped` fails only on a dropped
      label that was neither an input column nor added, and otherwise gives
      exactly the expected labels. */
  lemma AssignThenDrop(input: seq<string>, added: seq<string>, dropped: seq<string>)
    requires Distinct(input)
    ensures DropLabels(AssignAll(input, added), dropped).Ok? <==> DropsPresent(input, added, dropped)
    ensures DropLabels(AssignAll(input, added), dropped).Ok? ==>
      AssignedThenDropped(input, added, dropped, DropLabels(AssignAll(input, added), dropped).value)
  {
    var all := AssignAll(input, added);
    assert all == input + all[|input|..];
    RemoveAppend(input, all[|input|..], dropped);
  }

  // ---------------------------------------------------------------------
  // Frames as values

  /** `df[name] = values`. */
  function WithColumn(t: Table, name: string, values: seq<Cell>): (r: Table)
    requires WellFormed(t) && |values| == |t.rows|
    ensures WellFormed(r)
    ensures r.columns == Assign(t.columns, name) && |r.rows| == |t.rows|
    ensures forall i :: 0 <= i < |t.rows| ==> r.rows[i] == t.rows[i][name := values[i]]
  {
    Table(Assign(t.columns, name),
          seq(|t.rows|, i requires 0 <= i < |t.rows| => t.rows[i][name := values[i]]))
  }

  /** The labels of a list of new columns. */
  function Names(news: seq<(string, seq<Cell>)>): (names: seq<string>)
    ensures |names| == |news|
    ensures forall k :: 0 <= k < |news| ==> names[k] == news[k].0
  {
    seq(|news|, k requires 0 <= k < |news| => news[k].0)
  }

  /** Several `df[name] = values` one after another. */
  function WithColumns(t: Table, news: seq<(string, seq<Cell>)>): (r: Table)
    requires WellFormed(t) && forall k :: 0 <= k < |news| ==> |news[k].1| == |t.rows|
    ensures WellFormed(r)
    ensures r.columns == AssignAll(t.columns, Names(news)) && |r.rows| == |t.rows|
    ensures forall i, c :: 0 <= i < |t.rows| && c in t.columns && c !in Names(news) ==>
      r.rows[i][c] == t.rows[i][c]
    decreases |news|
  {
    if news == [] then t
    else
      assert Names(news) == [news[0].0] + Names(news[1..]);
      WithColumns(WithColumn(t, news[0].0, news[0].1), news[1..])
  }

  lemma DistinctTail<T>(s: seq<T>)
    requires Distinct(s) && s != []
    ensures Distinct(s[1..]) && s[0] !in s[1..]
  {
  }

  /** With distinct labels, each new column holds its values. */
  lemma {:induction false} WithColumnsValues(t: Table, news: seq<(string, seq<Cell>)>)
    requires WellFormed(t) && forall k :: 0 <= k < |news| ==> |news[k].1| == |t.rows|
    requires Distinct(Names(news))
    ensures forall i, k :: 0 <= i < |t.rows| && 0 <= k < |news| ==>
      WithColumns(t, news).rows[i][news[k].0] == news[k].1[i]
    decreases |news|
  {
    if news != [] {
      var rest := news[1..];
      assert Names(news) == [news[0].0] + Names(rest);
      assert Names(news)[1..] == Names(rest);
      DistinctTail(Names(news));
      var t1 := WithColumn(t, news[0].0, news[0].1);
      WithColumnsValues(t1, rest);
      forall i, k | 0 <= i < |t.rows| && 0 <= k < |news|
        ensures WithColumns(t, news).rows[i][news[k].0] == news[k].1[i]
      {
        if k > 0 {
          assert news[k] == rest[k - 1];
        } else {
          assert news[0].0 in t1.columns;
        }
      }
    }
  }

  function FillCell(c: Cell, v: Cell): Cell
  {
    if c.Missing? then v else c
  }

  /** Assigning two lists of columns one after the other is assigning their
      concatenation. */
  lemma {:induction false} WithColumnsAppend(t: Table, a: seq<(string, seq<Cell>)>, b: seq<(string, seq<Cell>)>)
    requires WellFormed(t)
    requires forall k :: 0 <= k < |a| ==> |a[k].1| == |t.rows|
    requires forall k :: 0 <= k < |b| ==> |b[k].1| == |t.rows|
    ensures WithColumns(WithColumns(t, a), b) == WithColumns(t, a + b)
    decreases |a|
  {
    if a == [] {
      assert a + b == b;
    } else {
      assert (a + b)[0] == a[0] && (a + b)[1..] == a[1..] + b;
      WithColumnsAppend(WithColumn(t, a[0].0, a[0].1), a[1..], b);
    }
  }

  /** `df[name].fillna(v)`: missing cells of one column become `v`. */
  function Filled(t: Table, name: string, v: Cell): (r: Table)
    requires WellFormed(t) && name in t.columns
    ensures WellFormed(r) && r.columns == t.columns && |r.rows| == |t.rows|
    ensures forall i :: 0 <= i < |t.rows| ==> r.rows[i] == t.rows[i][name := FillCell(t.rows[i][name], v)]
  {
    Table(t.columns,
          seq(|t.rows|, i requires 0 <= i < |t.rows| => t.rows[i][name := FillCell(t.rows[i][name], v)]))
  }

  /** The rows `keep` accepts, in their order (a boolean-mask selection). */
  function Filter(rows: seq<Row>, keep: Row -> bool): (r: seq<Row>)
    ensures |r| <= |rows|
    ensures forall x :: x in r <==> x in rows && keep(x)
  {
    if rows == [] then []
    else
      assert forall x :: x in rows <==> x == rows[0] || x in rows[1..];
      (if keep(rows[0]) then [rows[0]] else []) + Filter(rows[1..], keep)
  }

  /** Filtering keeps the order: it distributes over concatenation. */
  lemma {:induction false} FilterAppend(a: seq<Row>, b: seq<Row>, keep: Row -> bool)
    ensures Filter(a + b, keep) == Filter(a, keep) + Filter(b, keep)
  {
    if a == [] {
      assert a + b == b;
    } else {
      assert (a + b)[0] == a[0];
      assert (a + b)[1..] == a[1..] + b;
      FilterAppend(a[1..], b, keep);
    }
  }

  /** Rows that all pass are kept unchanged. */
  lemma {:induction false} FilterAll(rows: seq<Row>, keep: Row -> bool)
    requires forall x :: x in rows ==> keep(x)
    ensures Filter(rows, keep) == rows
  {
    if rows != [] {
      assert forall x :: x in rows[1..] ==> x in rows;
      FilterAll(rows[1..], keep);
    }
  }

  /** Filtering by `p` and then by `q` is filtering once by their
      conjunction `both`. */
  lemma {:induction false} FilterFilter(rows: seq<Row>, p: Row -> bool, q: Row -> bool, both: Row -> bool)
    requires forall x :: both(x) == (p(x) && q(x))
    ensures Filter(Filter(rows, p), q) == Filter(rows, both)
  {
    if rows != [] {
      FilterFilter(rows[1..], p, q, both);
      var head := if p(rows[0]) then [rows[0]] else [];
      FilterAppend(head, Filter(rows[1..], p), q);
    }
  }

  lemma FilterIdempotent(rows: seq<Row>, keep: Row -> bool)
    ensures Filter(Filter(rows, keep), keep) == Filter(rows, keep)
  {
    FilterAll(Filter(rows, keep), keep);
  }

  /** Each row is kept as often as it occurs when it passes, and never
      otherwise. */
  lemma {:induction false} FilterMultiset(rows: seq<Row>, keep: Row -> bool)
    ensures multiset(Filter(rows, keep)) <= multiset(rows)
    ensures forall x :: keep(x) ==> multiset(Filter(rows, keep))[x] == multiset(rows)[x]
  {
    if rows != [] {
      FilterMultiset(rows[1..], keep);
      assert rows == [rows[0]] + rows[1..];
    }
  }

  /** `df[mask]`: the rows `keep` accepts. */
  function Kept(t: Table, keep: Row -> bool): (r: Table)
    ensures WellFormed(t) ==> WellFormed(r)
    ensures r.columns == t.columns
    ensures forall x :: x in r.rows <==> x in t.rows && keep(x)
  {
    var r := Table(t.columns, Filter(t.rows, keep));
    assert WellFormed(t) ==> WellFormed(r) by {
      if WellFormed(t) {
        forall i | 0 <= i < |r.rows|
          ensures r.rows[i].Keys == Elems(r.columns)
        {
          assert r.rows[i] in t.rows;
        }
      }
    }
    r
  }

  /** `df.drop(columns=names)` when every name is a column. */
  function WithoutColumns(t: Table, names: seq<string>): (r: Table)
    requires WellFormed(t)
    ensures WellFormed(r)
    ensures r.columns == Remove(t.columns, names) && |r.rows| == |t.rows|
    ensures forall i, c :: 0 <= i < |t.rows| && c in r.columns ==> r.rows[i][c] == t.rows[i][c]
  {
    var cols := Remove(t.columns, names);
    Table(cols, seq(|t.rows|, i requires 0 <= i < |t.rows| => map c | c in Elems(cols) :: t.rows[i][c]))
  }

  // ---------------------------------------------------------------------
  // Frames as objects

  class Frame {
    var columns: seq<string>
    var rows: seq<Row>

    function Value(): Table
      reads this
    {
      Table(columns, rows)
    }

    constructor (t: Table)
      ensures Value() == t
    {
      columns := t.columns;
      rows := t.rows;
    }

    /** `df.copy()`: a new frame with the same contents. */
    method Copy() returns (f: Frame)
      ensures fresh(f) && f.Value() == Value()
    {
      f := new Frame(Value());
    }

    /** `df[name] = values`. */
    method SetColumn(name: string, values: seq<Cell>)
      requires WellFormed(Value()) && |values| == |rows|
      modifies this
      ensures Value() == WithColumn(old(Value()), name, values)
    {
      var t := WithColumn(Value(), name, values);
      columns, rows := t.columns, t.rows;
    }

    /** Several `df[name] = values` one after another. */
    method SetColumns(news: seq<(string, seq<Cell>)>)
      requires WellFormed(Value()) && forall k :: 0 <= k < |news| ==> |news[k].1| == |rows|
      modifies this
      ensures Value() == WithColumns(old(Value()), news)
    {
      var t := WithColumns(Value(), news);
      columns, rows := t.columns, t.rows;
    }

    /** `df[name].fillna(v, inplace=True)`. */
    method FillMissing(name: string, v: Cell)
      requires WellFormed(Value()) && name in columns
      modifies this
      ensures Value() == Filled(old(Value()), name, v)
    {
      rows := Filled(Value(), name, v).rows;
    }

    /** `df.drop(index=..., inplace=True)` for the rows `keep` rejects. */
    method KeepRows(keep: Row -> bool)
      modifies this
      ensures Value() == Kept(old(Value()), keep)
    {
      rows := Filter(rows, keep);
    }

    /** `df.drop(columns=names, inplace=True)`; on KeyError nothing changes. */
    method DropColumns(names: seq<string>) returns (r: Outcome<string>)
      requires WellFormed(Value())
      modifies this
      ensures DropLabels(old(columns), names).Err? ==>
        r == Fail(DropLabels(old(columns), names).error) && Value() == old(Value())
      ensures DropLabels(old(columns), names).Ok? ==>
        r == Pass && Value() == WithoutColumns(old(Value()), names)
    {
      match DropLabels(columns, names)
      case Err(e) =>
        r := Fail(e);
      case Ok(_) =>
        var t := WithoutColumns(Value(), names);
        columns, rows := t.columns, t.rows;
        r := Pass;
    }
  }
}
