/** The encoder of `util/encode.py`: a method name chosen case-insensitively
    among aliases selects one-hot encoding (a new frame), frequency encoding
    or circular (sine/cosine) encoding; the last two add derived columns to
    the given frame in a loop and then drop the encoded columns in place. */
module Encode {

  import opened Common
  import opened Tables
  import OneHot

  // ---------------------------------------------------------------------
  // Method names

  datatype Encoding = OneHotEncoding | FrequencyEncoding | CircularEncoding

  const OneHotAliases: set<string> := {"onehot", "one-hot", "one_hot", "ohe"}
  const FrequencyAliases: set<string> := {"frequency", "freq"}
  const CircularAliases: set<string> := {"circular", "cyclic", "sincos"}

  /** The encoding a method name selects after lower-casing, or none
      (ValueError). */
  function ParseEncoding(name: string): Option<Encoding>
  {
    var m := Lower(name);
    if m in OneHotAliases then Some(OneHotEncoding)
    else if m in FrequencyAliases then Some(FrequencyEncoding)
    else if m in CircularAliases then Some(CircularEncoding)
    else None
  }

  /** The choice ignores case: a name and its lower-case form select the
      same encoding. */
  lemma ParseIgnoresCase(name: string)
    ensures ParseEncoding(Lower(name)) == ParseEncoding(name)
  {
    LowerIdempotent(name);
  }

  /** The alias sets do not overlap, so the order of the tests does not
      matter, and every alias selects its encoding. */
  lemma AliasesSelect(name: string)
    ensures OneHotAliases !! FrequencyAliases && OneHotAliases !! CircularAliases
    ensures FrequencyAliases !! CircularAliases
    ensures Lower(name) in OneHotAliases ==> ParseEncoding(name) == Some(OneHotEncoding)
    ensures Lower(name) in FrequencyAliases ==> ParseEncoding(name) == Some(FrequencyEncoding)
    ensures Lower(name) in CircularAliases ==> ParseEncoding(name) == Some(CircularEncoding)
    ensures ParseEncoding(name).None? <==>
      Lower(name) !in OneHotAliases + FrequencyAliases + CircularAliases
  {
  }

  // ---------------------------------------------------------------------
  // Column encoders

  /** How one column is encoded: the number of new columns, the label of
      new column `k` of column `name`, and its cell for a cell of the
      encoded column `col`. */
  datatype Encoder = Encoder(width: nat, labelOf: (string, nat) -> string, cell: (nat, seq<Cell>, Cell) -> Cell)

  /** New column `k` for a column holding `col`. */
  function EncodedColumn(k: nat, col: seq<Cell>, enc: Encoder): (values: seq<Cell>)
    ensures |values| == |col|
    ensures forall i :: 0 <= i < |col| ==> values[i] == enc.cell(k, col, col[i])
  {
    seq(|col|, i requires 0 <= i < |col| => enc.cell(k, col, col[i]))
  }

  /** The new columns for column `name`, computed from that column as it is
      when the loop reaches it. */
  function NewColumns(t: Table, name: string, enc: Encoder): (news: seq<(string, seq<Cell>)>)
    requires WellFormed(t) && name in t.columns
    ensures |news| == enc.width
    ensures forall k :: 0 <= k < |news| ==>
      news[k] == (enc.labelOf(name, k), EncodedColumn(k, Column(t, name), enc))
    ensures forall k :: 0 <= k < |news| ==> |news[k].1| == |t.rows|
  {
    var col := Column(t, name);
    seq(enc.width, k requires 0 <= k < enc.width => (enc.labelOf(name, k), EncodedColumn(k, col, enc)))
  }

  /** The loop over the columns: the frame after the last step that ran,
      and the first column that was missing (KeyError), if any. */
  function EncodeSteps(t: Table, cols: seq<string>, enc: Encoder): (r: (Table, Option<string>))
    requires WellFormed(t)
    ensures WellFormed(r.0) && |r.0.rows| == |t.rows|
    ensures forall c :: c in t.columns ==> c in r.0.columns
    decreases |cols|
  {
    if cols == [] then (t, None)
    else if cols[0] !in t.columns then (t, Some(cols[0]))
    else EncodeSteps(WithColumns(t, NewColumns(t, cols[0], enc)), cols[1..], enc)
  }

  /** The loop, then `df.drop(columns=cols, inplace=True)`. */
  function EncodeEachResult(t: Table, cols: seq<string>, enc: Encoder): (r: (Table, Outcome<string>))
    requires WellFormed(t)
    ensures WellFormed(r.0) && |r.0.rows| == |t.rows|
  {
    var (u, missing) := EncodeSteps(t, cols, enc);
    if missing.Some? then (u, Fail(missing.value))
    else
      match DropLabels(u.columns, cols)
      case Err(e) => (u, Fail(e))
      case Ok(_) => (WithoutColumns(u, cols), Pass)
  }

  /** The encoding loop of `encode`, in place on the frame it is given. */
  method EncodeEach(f: Frame, cols: seq<string>, enc: Encoder) returns (r: Outcome<string>)
    requires WellFormed(f.Value())
    modifies f
    ensures (f.Value(), r) == EncodeEachResult(old(f.Value()), cols, enc)
  {
    ghost var t0 := f.Value();
    var i := 0;
    while i < |cols|
      invariant 0 <= i <= |cols| && WellFormed(f.Value())
      invariant EncodeSteps(t0, cols, enc) == EncodeSteps(f.Value(), cols[i..], enc)
    {
      assert cols[i..][1..] == cols[i + 1..];
      if cols[i] !in f.columns {
        return Fail(cols[i]);
      }
      f.SetColumns(NewColumns(f.Value(), cols[i], enc));
      i := i + 1;
    }
    r := f.DropColumns(cols);
  }

  // ---------------------------------------------------------------------
  // What the loop computes

  /** The labels of the new columns of one column, in order. */
  function LabelsOf(name: string, enc: Encoder): (labels: seq<string>)
    ensures |labels| == enc.width
    ensures forall k :: 0 <= k < enc.width ==> labels[k] == enc.labelOf(name, k)
  {
    seq(enc.width, k requires 0 <= k < enc.width => enc.labelOf(name, k))
  }

  /** The labels of the new columns for every encoded column, in order. */
  function NewLabels(cols: seq<string>, enc: Encoder): (labels: seq<string>)
    ensures forall j, k :: 0 <= j < |cols| && 0 <= k < enc.width ==> enc.labelOf(cols[j], k) in labels
    decreases |cols|
  {
    if cols == [] then []
    else
      var here := LabelsOf(cols[0], enc);
      var rest := NewLabels(cols[1..], enc);
      assert forall j, k :: 0 <= j < |cols| && 0 <= k < enc.width ==> enc.labelOf(cols[j], k) in here + rest by {
        forall j, k | 0 <= j < |cols| && 0 <= k < enc.width
          ensures enc.labelOf(cols[j], k) in here + rest
        {
          if j == 0 {
            assert here[k] == enc.labelOf(cols[0], k);
          } else {
            assert cols[1..][j - 1] == cols[j];
          }
        }
      }
      here + rest
  }

  /** Every new label is the label of a new column of an encoded
      column. */
  lemma {:induction false} NewLabelsForm(cols: seq<string>, enc: Encoder, x: string)
    requires x in NewLabels(cols, enc)
    ensures exists j, k :: 0 <= j < |cols| && 0 <= k < enc.width && x == enc.labelOf(cols[j], k)
    decreases |cols|
  {
    var here := LabelsOf(cols[0], enc);
    if x in here {
      var k :| 0 <= k < |here| && here[k] == x;
      assert x == enc.labelOf(cols[0], k);
    } else {
      NewLabelsForm(cols[1..], enc, x);
      var j, k :| 0 <= j < |cols[1..]| && 0 <= k < enc.width && x == enc.labelOf(cols[1..][j], k);
      assert x == enc.labelOf(cols[j + 1], k);
    }
  }

  /** Each encoded column contributes `width` new labels. */
  lemma {:induction false} NewLabelsLength(cols: seq<string>, enc: Encoder)
    ensures |NewLabels(cols, enc)| == |cols| * enc.width
    decreases |cols|
  {
    if cols != [] {
      NewLabelsLength(cols[1..], enc);
      assert |cols| * enc.width == enc.width + (|cols| - 1) * enc.width;
    }
  }

  /** The new columns of all the encoded columns, each computed from the
      input frame, in the order the loop assigns them. */
  function AllNewColumns(t: Table, cols: seq<string>, enc: Encoder): (news: seq<(string, seq<Cell>)>)
    requires WellFormed(t) && forall c :: c in cols ==> c in t.columns
    ensures Names(news) == NewLabels(cols, enc)
    ensures forall p :: 0 <= p < |news| ==> |news[p].1| == |t.rows|
    decreases |cols|
  {
    if cols == [] then []
    else
      var here := NewColumns(t, cols[0], enc);
      var rest := AllNewColumns(t, cols[1..], enc);
      assert Names(here) == LabelsOf(cols[0], enc);
      assert Names(here + rest) == Names(here) + Names(rest);
      here + rest
  }

  /** Every new column of every encoded column is among them. */
  lemma {:induction false} AllNewColumnsHas(t: Table, cols: seq<string>, enc: Encoder, j: nat, k: nat)
    requires WellFormed(t) && forall c :: c in cols ==> c in t.columns
    requires j < |cols| && k < enc.width
    ensures (enc.labelOf(cols[j], k), EncodedColumn(k, Column(t, cols[j]), enc)) in AllNewColumns(t, cols, enc)
    decreases j
  {
    var here := NewColumns(t, cols[0], enc);
    assert AllNewColumns(t, cols, enc) == here + AllNewColumns(t, cols[1..], enc);
    if j == 0 {
      assert here[k] in here;
    } else {
      AllNewColumnsHas(t, cols[1..], enc, j - 1, k);
      assert cols[1..][j - 1] == cols[j];
    }
  }

  /** The new columns depend only on the encoded columns. */
  lemma {:induction false} AllNewColumnsSame(t: Table, u: Table, cols: seq<string>, enc: Encoder)
    requires WellFormed(t) && forall c :: c in cols ==> c in t.columns
    requires WellFormed(u) && forall c :: c in cols ==> c in u.columns && Column(u, c) == Column(t, c)
    ensures AllNewColumns(u, cols, enc) == AllNewColumns(t, cols, enc)
    decreases |cols|
  {
    if cols != [] {
      AllNewColumnsSame(t, u, cols[1..], enc);
    }
  }

  /** The input frame with all new columns of `cols` assigned at once. */
  function Encoded(t: Table, cols: seq<string>, enc: Encoder): (u: Table)
    requires WellFormed(t) && forall c :: c in cols ==> c in t.columns
    ensures WellFormed(u)
    ensures u.columns == AssignAll(t.columns, NewLabels(cols, enc)) && |u.rows| == |t.rows|
    ensures forall i, c :: 0 <= i < |t.rows| && c in t.columns && c !in NewLabels(cols, enc) ==>
      u.rows[i][c] == t.rows[i][c]
  {
    WithColumns(t, AllNewColumns(t, cols, enc))
  }

  /** One step of the loop keeps every later encoded column as it was, and
      adds none of them. */
  lemma StepKeepsLater(t: Table, cols: seq<string>, enc: Encoder)
    requires WellFormed(t) && cols != [] && cols[0] in t.columns
    requires forall c :: c in cols ==> c !in NewLabels(cols, enc)
    ensures forall c :: c in cols[1..] ==> c !in NewLabels(cols[1..], enc)
    ensures forall c :: c in cols[1..] ==>
      (c in WithColumns(t, NewColumns(t, cols[0], enc)).columns <==> c in t.columns)
    ensures forall c :: c in cols[1..] && c in t.columns ==>
      Column(WithColumns(t, NewColumns(t, cols[0], enc)), c) == Column(t, c)
  {
    var here := NewColumns(t, cols[0], enc);
    assert Names(here) == LabelsOf(cols[0], enc);
    assert NewLabels(cols, enc) == LabelsOf(cols[0], enc) + NewLabels(cols[1..], enc);
    assert forall c :: c in cols[1..] ==> c in cols;
  }

  /** The new columns of a non-empty prefix are those of its first column
      followed by those of the rest. */
  lemma AllNewColumnsPrefix(t: Table, cols: seq<string>, enc: Encoder, m: nat)
    requires WellFormed(t) && 0 < m <= |cols| && forall c :: c in cols[..m] ==> c in t.columns
    ensures cols[0] in t.columns && forall c :: c in cols[1..][..m - 1] ==> c in t.columns
    ensures AllNewColumns(t, cols[..m], enc) ==
      NewColumns(t, cols[0], enc) + AllNewColumns(t, cols[1..][..m - 1], enc)
  {
    assert cols[..m][0] == cols[0] && cols[..m][1..] == cols[1..][..m - 1];
  }

  /** With no encoded column among the new labels, a loop that stops at
      column `m` has assigned the new columns of the columns before it,
      each computed from the input; one that does not stop has assigned all
      of them. */
  lemma {:induction false} EncodeStepsPrefix(t: Table, cols: seq<string>, enc: Encoder, m: nat)
    requires WellFormed(t) && m <= |cols| && forall c :: c in cols[..m] ==> c in t.columns
    requires m < |cols| ==> cols[m] !in t.columns
    requires forall c :: c in cols ==> c !in NewLabels(cols, enc)
    ensures EncodeSteps(t, cols, enc) ==
      (Encoded(t, cols[..m], enc), if m < |cols| then Some(cols[m]) else None)
    decreases m
  {
    if m == 0 {
      assert cols[..0] == [];
      if cols != [] {
        assert EncodeSteps(t, cols, enc) == (t, Some(cols[0]));
      }
    } else {
      var t1 := WithColumns(t, NewColumns(t, cols[0], enc));
      var rest := cols[1..];
      EncodedFirstStep(t, cols, enc, m);
      StepKeepsLater(t, cols, enc);
      if m < |cols| {
        assert rest[m - 1] == cols[m];
      }
      EncodeStepsPrefix(t1, rest, enc, m - 1);
    }
  }

  /** Assigning the new columns of the first column, then those of the
      rest of a prefix, is assigning those of the whole prefix. */
  lemma EncodedFirstStep(t: Table, cols: seq<string>, enc: Encoder, m: nat)
    requires WellFormed(t) && 0 < m <= |cols| && forall c :: c in cols[..m] ==> c in t.columns
    requires forall c :: c in cols ==> c !in NewLabels(cols, enc)
    ensures cols[0] in t.columns
    ensures var t1 := WithColumns(t, NewColumns(t, cols[0], enc));
      && (forall c :: c in cols[1..][..m - 1] ==> c in t1.columns)
      && Encoded(t1, cols[1..][..m - 1], enc) == Encoded(t, cols[..m], enc)
  {
    var here := NewColumns(t, cols[0], enc);
    var t1 := WithColumns(t, here);
    var rest := cols[1..];
    AllNewColumnsPrefix(t, cols, enc, m);
    StepKeepsLater(t, cols, enc);
    assert forall c :: c in rest[..m - 1] ==> c in rest;
    AllNewColumnsSame(t, t1, rest[..m - 1], enc);
    WithColumnsAppend(t, here, AllNewColumns(t, rest[..m - 1], enc));
  }

  /** With all new labels different, each new column holds the encoding of
      its source column of the input. */
  lemma EncodedValue(t: Table, cols: seq<string>, enc: Encoder, i: nat, j: nat, k: nat)
    requires WellFormed(t) && forall c :: c in cols ==> c in t.columns
    requires Distinct(NewLabels(cols, enc))
    requires i < |t.rows| && j < |cols| && k < enc.width
    ensures Encoded(t, cols, enc).rows[i][enc.labelOf(cols[j], k)] ==
      enc.cell(k, Column(t, cols[j]), t.rows[i][cols[j]])
  {
    var news := AllNewColumns(t, cols, enc);
    WithColumnsValues(t, news);
    AllNewColumnsHas(t, cols, enc, j, k);
    var p :| 0 <= p < |news| && news[p] == (enc.labelOf(cols[j], k), EncodedColumn(k, Column(t, cols[j]), enc));
    assert news[p].1[i] == enc.cell(k, Column(t, cols[j]), t.rows[i][cols[j]]);
  }

  /** The result of the whole loop, drop included, when every listed column
      is present. */
  function EncodedAndDropped(t: Table, cols: seq<string>, enc: Encoder): (u: Table)
    requires WellFormed(t) && forall c :: c in cols ==> c in t.columns
    ensures WellFormed(u)
    ensures u.columns == Remove(AssignAll(t.columns, NewLabels(cols, enc)), cols)
    ensures |u.rows| == |t.rows|
    ensures forall c :: c in cols ==> c !in u.columns
    ensures forall i, c :: 0 <= i < |t.rows| && c in t.columns && c !in cols && c !in NewLabels(cols, enc) ==>
      u.rows[i][c] == t.rows[i][c]
  {
    WithoutColumns(Encoded(t, cols, enc), cols)
  }

  /** The loop fails exactly when a listed column is missing, with the first
      missing one, and leaves the new columns of the columns before it in
      the frame; otherwise it replaces the listed columns by their new
      columns. */
  lemma EncodeEachOutcome(t: Table, cols: seq<string>, enc: Encoder, m: nat)
    requires WellFormed(t) && m <= |cols| && forall c :: c in cols[..m] ==> c in t.columns
    requires m < |cols| ==> cols[m] !in t.columns
    requires forall c :: c in cols ==> c !in NewLabels(cols, enc)
    ensures m < |cols| ==> EncodeEachResult(t, cols, enc) == (Encoded(t, cols[..m], enc), Fail(cols[m]))
    ensures m == |cols| ==> EncodeEachResult(t, cols, enc) == (EncodedAndDropped(t, cols, enc), Pass)
  {
    EncodeStepsPrefix(t, cols, enc, m);
    if m == |cols| {
      assert cols[..m] == cols;
      var u := Encoded(t, cols, enc);
      assert DropLabels(u.columns, cols).Ok?;
    }
  }

  /** A new column keeps its values through the drop. */
  lemma DroppedValue(t: Table, cols: seq<string>, enc: Encoder, i: nat, j: nat, k: nat)
    requires WellFormed(t) && forall c :: c in cols ==> c in t.columns
    requires Distinct(NewLabels(cols, enc)) && forall c :: c in cols ==> c !in NewLabels(cols, enc)
    requires i < |t.rows| && j < |cols| && k < enc.width
    ensures enc.labelOf(cols[j], k) in EncodedAndDropped(t, cols, enc).columns
    ensures enc.labelOf(cols[j], k) in EncodedAndDropped(t, cols, enc).rows[i]
    ensures EncodedAndDropped(t, cols, enc).rows[i][enc.labelOf(cols[j], k)] ==
      enc.cell(k, Column(t, cols[j]), t.rows[i][cols[j]])
  {
    EncodedValue(t, cols, enc, i, j, k);
    var u := EncodedAndDropped(t, cols, enc);
    assert u.rows[i].Keys == Elems(u.columns);
  }

  /** After a successful loop each new column holds the encoding of its
      source column of the input. */
  lemma EncodedAndDroppedValues(t: Table, cols: seq<string>, enc: Encoder)
    requires WellFormed(t) && forall c :: c in cols ==> c in t.columns
    requires Distinct(NewLabels(cols, enc)) && forall c :: c in cols ==> c !in NewLabels(cols, enc)
    ensures forall i, j, k :: 0 <= i < |t.rows| && 0 <= j < |cols| && 0 <= k < enc.width ==>
      && enc.labelOf(cols[j], k) in EncodedAndDropped(t, cols, enc).rows[i]
      && EncodedAndDropped(t, cols, enc).rows[i][enc.labelOf(cols[j], k)] ==
           enc.cell(k, Column(t, cols[j]), t.rows[i][cols[j]])
  {
    forall i, j, k | 0 <= i < |t.rows| && 0 <= j < |cols| && 0 <= k < enc.width
      ensures enc.labelOf(cols[j], k) in EncodedAndDropped(t, cols, enc).rows[i]
      ensures EncodedAndDropped(t, cols, enc).rows[i][enc.labelOf(cols[j], k)] ==
        enc.cell(k, Column(t, cols[j]), t.rows[i][cols[j]])
    {
      DroppedValue(t, cols, enc, i, j, k);
    }
  }

  /** The loop only ever fails on a listed column that the input lacks. */
  lemma {:induction false} EncodeStepsFailure(t: Table, cols: seq<string>, enc: Encoder)
    requires WellFormed(t)
    ensures EncodeSteps(t, cols, enc).1.Some? ==>
      EncodeSteps(t, cols, enc).1.value in cols && EncodeSteps(t, cols, enc).1.value !in t.columns
    ensures EncodeSteps(t, cols, enc).1.None? ==> forall c :: c in cols ==> c in EncodeSteps(t, cols, enc).0.columns
    decreases |cols|
  {
    if cols != [] && cols[0] in t.columns {
      var t1 := WithColumns(t, NewColumns(t, cols[0], enc));
      EncodeStepsFailure(t1, cols[1..], enc);
      assert forall c :: c in cols ==> c == cols[0] || c in cols[1..];
    }
  }

  lemma EncodeEachFailure(t: Table, cols: seq<string>, enc: Encoder)
    requires WellFormed(t)
    ensures EncodeEachResult(t, cols, enc).1.Fail? ==>
      EncodeEachResult(t, cols, enc).1.error in cols && EncodeEachResult(t, cols, enc).1.error !in t.columns
  {
    EncodeStepsFailure(t, cols, enc);
  }

  // ---------------------------------------------------------------------
  // Frequency encoding

  /** The cell of `<col>_frequency_encoded`: how often the category occurs
      in the column (`value_counts` skips missing cells, and `map` leaves
      them missing). */
  function FrequencyCell(col: seq<Cell>, c: Cell): Cell
  {
    if c.Missing? then Missing else Int(Count(col, c))
  }

  const FrequencySuffix := "_frequency_encoded"

  const FrequencyEncoder := Encoder(1, (name: string, k: nat) => name + FrequencySuffix,
                                    (k: nat, col: seq<Cell>, c: Cell) => FrequencyCell(col, c))

  /** A category of the column is encoded as the number of rows holding it,
      which is at least one and at most the number of rows; a missing cell
      stays missing. */
  lemma FrequencyCellMeaning(col: seq<Cell>, i: nat)
    requires i < |col|
    ensures col[i].Missing? ==> FrequencyCell(col, col[i]).Missing?
    ensures !col[i].Missing? ==> FrequencyCell(col, col[i]) == Int(multiset(col)[col[i]])
    ensures !col[i].Missing? ==> 1 <= FrequencyCell(col, col[i]).i <= |col|
  {
    CountMultiset(col, col[i]);
  }

  /** Frequency encoding of columns whose new labels are fresh succeeds,
      adds one new column per listed column and removes the listed ones. */
  lemma FrequencyEncodingColumns(t: Table, cols: seq<string>)
    requires WellFormed(t) && forall c :: c in cols ==> c in t.columns
    requires forall c :: c in cols ==> c !in NewLabels(cols, FrequencyEncoder)
    ensures EncodeEachResult(t, cols, FrequencyEncoder).1 == Pass
    ensures |NewLabels(cols, FrequencyEncoder)| == |cols|
    ensures EncodeEachResult(t, cols, FrequencyEncoder).0.columns ==
      Remove(AssignAll(t.columns, NewLabels(cols, FrequencyEncoder)), cols)
  {
    assert cols[..|cols|] == cols;
    EncodeEachOutcome(t, cols, FrequencyEncoder, |cols|);
    NewLabelsLength(cols, FrequencyEncoder);
  }

  /** Each `<col>_frequency_encoded` cell is the number of rows of the input
      holding that row's category, and missing where the category is. */
  lemma FrequencyEncodingValue(t: Table, cols: seq<string>, i: nat, j: nat)
    requires WellFormed(t) && forall c :: c in cols ==> c in t.columns
    requires Distinct(NewLabels(cols, FrequencyEncoder))
    requires forall c :: c in cols ==> c !in NewLabels(cols, FrequencyEncoder)
    requires i < |t.rows| && j < |cols|
    ensures cols[j] + FrequencySuffix in EncodeEachResult(t, cols, FrequencyEncoder).0.columns
    ensures EncodeEachResult(t, cols, FrequencyEncoder).0.rows[i][cols[j] + FrequencySuffix] ==
      if t.rows[i][cols[j]].Missing? then Missing
      else Int(multiset(Column(t, cols[j]))[t.rows[i][cols[j]]])
  {
    var enc := FrequencyEncoder;
    assert cols[..|cols|] == cols;
    EncodeEachOutcome(t, cols, enc, |cols|);
    DroppedValue(t, cols, enc, i, j, 0);
    FrequencyCellMeaning(Column(t, cols[j]), i);
  }

  // ---------------------------------------------------------------------
  // Circular encoding

  /** `Series.max()`: the largest numeric cell, or none when every cell is
      missing (the result is then NaN). */
  function MaxOf(col: seq<Cell>): (m: Option<real>)
    ensures m.None? <==> forall i :: 0 <= i < |col| ==> !IsNumeric(col[i])
    ensures m.Some? ==> exists i :: 0 <= i < |col| && IsNumeric(col[i]) && RealOf(col[i]) == m.value
    ensures m.Some? ==> forall i :: 0 <= i < |col| && IsNumeric(col[i]) ==> RealOf(col[i]) <= m.value
    decreases |col|
  {
    if col == [] then None
    else
      var rest := MaxOf(col[1..]);
      assert forall i :: 1 <= i < |col| ==> col[i] == col[1..][i - 1];
      if !IsNumeric(col[0]) then rest
      else if rest.None? || RealOf(col[0]) >= rest.value then Some(RealOf(col[0]))
      else rest
  }

  /** The sine, cosine and pi of the floating-point library, left abstract. */
  datatype Trig = Trig(sin: real -> real, cos: real -> real, pi: real)

  /** The cells of `<col>_sin` (k = 0) and `<col>_cos` (k = 1): the angle
      `2 * pi * x / max`; a missing cell, a column without numbers, or a
      maximum of zero (a division by zero) gives NaN. */
  function CircularCell(trig: Trig, k: nat, col: seq<Cell>, c: Cell): (r: Cell)
  {
    match MaxOf(col)
    case None => Missing
    case Some(m) =>
      if m == 0.0 || !IsNumeric(c) then Missing
      else
        var angle := Angle(trig, RealOf(c), m);
        Num(if k == 0 then trig.sin(angle) else trig.cos(angle))
  }

  /** The angle `2 * pi * x / max`. */
  function Angle(trig: Trig, x: real, max: real): real
    requires max != 0.0
  {
    2.0 * trig.pi * x / max
  }

  function CircularEncoder(trig: Trig): Encoder
  {
    Encoder(2, (name: string, k: nat) => name + (if k == 0 then "_sin" else "_cos"),
            (k: nat, col: seq<Cell>, c: Cell) => CircularCell(trig, k, col, c))
  }

  /** sin^2 + cos^2 = 1, as for the true functions. */
  ghost predicate Pythagorean(trig: Trig)
  {
    forall a: real {:trigger trig.sin(a)} :: trig.sin(a) * trig.sin(a) + trig.cos(a) * trig.cos(a) == 1.0
  }

  /** A numeric cell of a column whose maximum is not zero is encoded as a
      point on the unit circle; every other cell as NaN in both columns. */
  lemma CircularOnUnitCircle(trig: Trig, col: seq<Cell>, c: Cell)
    requires Pythagorean(trig)
    ensures CircularCell(trig, 0, col, c).Num? <==>
      IsNumeric(c) && MaxOf(col).Some? && MaxOf(col).value != 0.0
    ensures CircularCell(trig, 1, col, c).Num? <==> CircularCell(trig, 0, col, c).Num?
    ensures CircularCell(trig, 0, col, c).Missing? <==> !CircularCell(trig, 0, col, c).Num?
    ensures CircularCell(trig, 0, col, c).Num? ==>
      var (s, co) := (CircularCell(trig, 0, col, c).x, CircularCell(trig, 1, col, c).x);
      s * s + co * co == 1.0
  {
    if IsNumeric(c) && MaxOf(col).Some? && MaxOf(col).value != 0.0 {
      var angle := Angle(trig, RealOf(c), MaxOf(col).value);
      assert CircularCell(trig, 0, col, c) == Num(trig.sin(angle));
      assert CircularCell(trig, 1, col, c) == Num(trig.cos(angle));
      UnitPoint(trig, angle);
    }
  }

  lemma UnitPoint(trig: Trig, a: real)
    requires Pythagorean(trig)
    ensures trig.sin(a) * trig.sin(a) + trig.cos(a) * trig.cos(a) == 1.0
  {
  }

  /** A full turn is the identity. */
  predicate FullTurn(trig: Trig)
  {
    trig.sin(2.0 * trig.pi) == trig.sin(0.0) && trig.cos(2.0 * trig.pi) == trig.cos(0.0)
  }

  /** The point of the encoding: the largest value lands where zero does,
      so the last week of a year sits next to the first. */
  lemma CircularWraps(trig: Trig, col: seq<Cell>, c: Cell, z: Cell, k: nat)
    requires FullTurn(trig) && MaxOf(col).Some? && MaxOf(col).value != 0.0
    requires IsNumeric(c) && RealOf(c) == MaxOf(col).value
    requires IsNumeric(z) && RealOf(z) == 0.0
    ensures CircularCell(trig, k, col, c) == CircularCell(trig, k, col, z)
  {
    var m := MaxOf(col).value;
    FullAngle(trig, RealOf(c), m);
    assert Angle(trig, RealOf(z), m) == 0.0;
  }

  /** The maximum itself is a full turn. */
  lemma FullAngle(trig: Trig, x: real, m: real)
    requires m != 0.0 && x == m
    ensures Angle(trig, x, m) == 2.0 * trig.pi
  {
    var p := 2.0 * trig.pi;
    var q := p * x / m;
    assert q * m == p * x;
    assert (q - p) * m == 0.0;
  }

  // ---------------------------------------------------------------------
  // `encode`

  datatype EncodeError = UnknownMethod(name: string) | MissingColumn(column: string)

  /** What `get_dummies` needs of the frame in this model. */
  predicate OneHotReady(t: Table, cols: seq<string>)
    requires WellFormed(t)
  {
    OneHot.TextColumns(t, cols) && ((forall c :: c in cols ==> c in t.columns) ==> OneHot.FreshLabels(t, cols))
  }

  /** What circular encoding needs of the frame: the listed columns hold
      numbers or missing cells (`2 * np.pi * df[col]` raises TypeError on
      text). */
  predicate CircularReady(t: Table, cols: seq<string>)
    requires WellFormed(t)
  {
    forall c, i :: c in cols && c in t.columns && 0 <= i < |t.rows| ==>
      IsNumeric(t.rows[i][c]) || t.rows[i][c].Missing?
  }

  /** `encode(df, method, columns)` on values: the caller's frame afterwards,
      and the returned frame or the error raised. */
  function EncodeResult(t: Table, name: string, cols: seq<string>, trig: Trig): (r: (Table, Result<Table, EncodeError>))
    requires WellFormed(t)
    requires ParseEncoding(name) == Some(OneHotEncoding) ==> OneHotReady(t, cols)
    requires ParseEncoding(name) == Some(CircularEncoding) ==> CircularReady(t, cols)
    ensures ParseEncoding(name).None? <==> r.1 == Err(UnknownMethod(name))
    ensures ParseEncoding(name) == Some(OneHotEncoding) || ParseEncoding(name).None? ==> r.0 == t
    ensures ParseEncoding(name).Some? && ParseEncoding(name) != Some(OneHotEncoding) && r.1.Ok? ==> r.1.value == r.0
    ensures r.1.Err? && ParseEncoding(name).Some? ==>
      r.1.error.MissingColumn? && r.1.error.column in cols && r.1.error.column !in t.columns
  {
    match ParseEncoding(name)
    case None => (t, Err(UnknownMethod(name)))
    case Some(OneHotEncoding) =>
      (match OneHot.GetDummies(t, cols)
       case Err(c) => (t, Err(MissingColumn(c)))
       case Ok(u) => (t, Ok(u)))
    case Some(e) =>
      var enc := if e == FrequencyEncoding then FrequencyEncoder else CircularEncoder(trig);
      var (u, outcome) := EncodeEachResult(t, cols, enc);
      EncodeEachFailure(t, cols, enc);
      match outcome
      case Fail(c) => (u, Err(MissingColumn(c)))
      case Pass => (u, Ok(u))
  }

  /** `encode` as written: one-hot returns a new frame and leaves the
      caller's alone; frequency and circular encoding change the caller's
      frame and return that same frame. */
  method Encode(df: Frame, name: string, cols: seq<string>, trig: Trig) returns (r: Result<Frame, EncodeError>)
    requires WellFormed(df.Value())
    requires ParseEncoding(name) == Some(OneHotEncoding) ==> OneHotReady(df.Value(), cols)
    requires ParseEncoding(name) == Some(CircularEncoding) ==> CircularReady(df.Value(), cols)
    modifies df
    ensures df.Value() == EncodeResult(old(df.Value()), name, cols, trig).0
    ensures r.Err? <==> EncodeResult(old(df.Value()), name, cols, trig).1.Err?
    ensures r.Err? ==> r.error == EncodeResult(old(df.Value()), name, cols, trig).1.error
    ensures r.Ok? ==> r.value.Value() == EncodeResult(old(df.Value()), name, cols, trig).1.value
    ensures r.Ok? && ParseEncoding(name) == Some(OneHotEncoding) ==> fresh(r.value)
    ensures r.Ok? && ParseEncoding(name) != Some(OneHotEncoding) ==> r.value == df
  {
    match ParseEncoding(name)
    case None =>
      r := Err(UnknownMethod(name));
    case Some(OneHotEncoding) =>
      match OneHot.GetDummies(df.Value(), cols) {
        case Err(c) =>
          r := Err(MissingColumn(c));
        case Ok(u) =>
          var g := new Frame(u);
          r := Ok(g);
      }
    case Some(e) =>
      var enc := if e == FrequencyEncoding then FrequencyEncoder else CircularEncoder(trig);
      var outcome := EncodeEach(df, cols, enc);
      match outcome
      case Fail(c) =>
        r := Err(MissingColumn(c));
      case Pass =>
        r := Ok(df);
  }

  /** `encode` as its documentation describes it: the caller's frame is
      left unchanged and the result is a new frame. */
  method EncodeCopy(df: Frame, name: string, cols: seq<string>, trig: Trig) returns (r: Result<Frame, EncodeError>)
    requires WellFormed(df.Value())
    requires ParseEncoding(name) == Some(OneHotEncoding) ==> OneHotReady(df.Value(), cols)
    requires ParseEncoding(name) == Some(CircularEncoding) ==> CircularReady(df.Value(), cols)
    ensures r.Err? <==> EncodeResult(df.Value(), name, cols, trig).1.Err?
    ensures r.Err? ==> r.error == EncodeResult(df.Value(), name, cols, trig).1.error
    ensures r.Ok? ==> r.value != df && r.value.Value() == EncodeResult(df.Value(), name, cols, trig).1.value
  {
    var g := df.Copy();
    r := Encode(g, name, cols, trig);
  }

  /** Frequency encoding, under any of its names, removes the listed
      columns from the caller's frame itself. */
  lemma FrequencyChangesCaller(t: Table, name: string, cols: seq<string>, trig: Trig)
    requires WellFormed(t) && forall c :: c in cols ==> c in t.columns
    requires forall c :: c in cols ==> c !in NewLabels(cols, FrequencyEncoder)
    requires ParseEncoding(name) == Some(FrequencyEncoding)
    ensures EncodeResult(t, name, cols, trig).1.Ok?
    ensures forall c :: c in cols ==> c !in EncodeResult(t, name, cols, trig).0.columns
  {
    assert cols[..|cols|] == cols;
    EncodeEachOutcome(t, cols, FrequencyEncoder, |cols|);
    assert EncodeResult(t, name, cols, trig).0 == EncodedAndDropped(t, cols, FrequencyEncoder);
  }

  /** Frequency encoding (`"freq"`) of a frame with a single `country`
      column: the caller's frame loses that column, although the
      documentation says it is left unchanged. */
  lemma EncodeChangesCaller(t: Table, name: string, cols: seq<string>, trig: Trig)
    requires t == Table(["country"], [map["country" := Text("PRT")]])
    requires name == "freq" && cols == ["country"]
    ensures WellFormed(t) && ParseEncoding(name) == Some(FrequencyEncoding)
    ensures EncodeResult(t, name, cols, trig).1.Ok?
    ensures EncodeResult(t, name, cols, trig).0 != t
  {
    assert t.rows[0].Keys == {"country"};
    LowerUnchanged(name);
    NewLabelsLength(cols, FrequencyEncoder);
    assert |NewLabels(cols, FrequencyEncoder)[0]| == 25;
    FrequencyChangesCaller(t, name, cols, trig);
  }

  // ---------------------------------------------------------------------
  // The column lists

  const OneHotColumns: seq<string> := [
    "hotel", "arrival_date_month", "meal", "market_segment", "distribution_channel",
    "reserved_room_type", "assigned_room_type", "deposit_type", "customer_type",
    "arrival_weekday", "booking_date_month", "booking_weekday", "booking_season", "arrival_season"]

  const FrequencyColumns: seq<string> := ["country", "agent"]

  const CircularColumns: seq<string> := ["arrival_date_week_number", "booking_date_week_number"]

  /** No column is listed for two encodings. */
  lemma ColumnListsDisjoint()
    ensures forall c :: c in OneHotColumns ==> c !in FrequencyColumns && c !in CircularColumns
    ensures forall c :: c in FrequencyColumns ==> c !in CircularColumns
  {
  }

  /** Frequency labels of two columns whose lengths differ by other than
      the suffix length are fresh and different. */
  lemma FrequencyPairSeparate(a: string, b: string)
    requires |a| != |b| && |a| + 18 != |b| && |b| + 18 != |a|
    ensures Distinct(NewLabels([a, b], FrequencyEncoder))
    ensures forall c :: c in [a, b] ==> c !in NewLabels([a, b], FrequencyEncoder)
  {
    var labels := NewLabels([a, b], FrequencyEncoder);
    NewLabelsLength([a, b], FrequencyEncoder);
    assert [a, b][1..] == [b];
    assert labels[0] == a + FrequencySuffix && labels[1] == b + FrequencySuffix;
  }

  lemma CircularLabels(a: string, b: string, trig: Trig)
    ensures NewLabels([a, b], CircularEncoder(trig)) == [a + "_sin", a + "_cos", b + "_sin", b + "_cos"]
  {
    var labels := NewLabels([a, b], CircularEncoder(trig));
    NewLabelsLength([a, b], CircularEncoder(trig));
    assert [a, b][1..] == [b];
    assert labels[0] == a + "_sin" && labels[1] == a + "_cos";
    assert labels[2] == b + "_sin" && labels[3] == b + "_cos";
  }

  /** Circular labels of two columns of equal length with different first
      letters are fresh and different. */
  lemma CircularPairSeparate(a: string, b: string, trig: Trig)
    requires |a| == |b| && a != [] && a[0] != b[0]
    ensures Distinct(NewLabels([a, b], CircularEncoder(trig)))
    ensures forall c :: c in [a, b] ==> c !in NewLabels([a, b], CircularEncoder(trig))
  {
    var labels := NewLabels([a, b], CircularEncoder(trig));
    CircularLabels(a, b, trig);
    forall i, j | 0 <= i < j < |labels|
      ensures labels[i] != labels[j]
    {
      var n := |a| + 1;
      if i < 2 <= j {
        assert labels[i][0] == a[0] && labels[j][0] == b[0];
      } else {
        assert labels[i][n] == 's' && labels[j][n] == 'c';
      }
    }
    assert forall x :: x in labels ==> |x| == |a| + 4;
  }

  /** The lists `encode` is called with meet the conditions of the meaning
      lemmas. */
  lemma ColumnListsSeparate(trig: Trig)
    ensures Distinct(NewLabels(FrequencyColumns, FrequencyEncoder))
    ensures forall c :: c in FrequencyColumns ==> c !in NewLabels(FrequencyColumns, FrequencyEncoder)
    ensures Distinct(NewLabels(CircularColumns, CircularEncoder(trig)))
    ensures forall c :: c in CircularColumns ==> c !in NewLabels(CircularColumns, CircularEncoder(trig))
  {
    FrequencyPairSeparate("country", "agent");
    CircularPairSeparate("arrival_date_week_number", "booking_date_week_number", trig);
  }
}
