/** The preparation order of `main.py` once the frame is encoded and split:
    the three partitions are cleaned with modes learned from the training
    partition, the training partition alone goes through the outlier
    filter, and each partition is then min-max scaled by the utility
    `scale`, which fits a fresh scaler on whatever frame it is given. */
module Pipeline {

  import opened Common
  import opened Tables
  import opened Cleaning
  import opened Outlier
  import opened Scaling

  /** Training, validation and hold-out partitions. */
  datatype Partitions = Partitions(train: Table, validation: Table, holdout: Table)

  /** What stops the pipeline: a mode the cleaner cannot find, or a
      partition the scaler cannot fit. */
  datatype PipelineError = CleaningFailed(cleaning: CleanError) | ScalingFailed(scaling: ScaleError)

  /** What the three steps demand of the partitions: the cleaner's columns
      everywhere, nullable integer mode columns and numeric checked columns
      in the training partition. */
  predicate PipelineInput(train: Table, validation: Table, holdout: Table)
  {
    && TrainingInput(train) && CheckedInput(train, Checks)
    && CleanerInput(validation) && CleanerInput(holdout)
  }

  // ---------------------------------------------------------------------
  // What the cleaner preserves

  /** A filled cell of a nullable integer column is still one. */
  lemma FilledIntColumn(t: Table, m: Modes, name: string)
    requires CleanerInput(t) && name in [Children, TotalPeople, SoloTraveler] && IntColumn(Column(t, name))
    ensures IntColumn(Column(Cleaned(t, m), name))
  {
    var r := Cleaned(t, m);
    CleanedRowsComeFromInput(t, m);
    forall i | 0 <= i < |r.rows|
      ensures r.rows[i][name].Int? || r.rows[i][name].Missing?
    {
      assert r.rows[i] in r.rows;
      var j :| 0 <= j < |t.rows| && !BabiesWithoutAdults(t.rows[j]) && r.rows[i] == FillRow(t.rows[j], m);
      assert Column(t, name)[j] == t.rows[j][name];
    }
  }

  /** The cleaned training frame can train the cleaner again. */
  lemma CleanedTraining(t: Table, m: Modes)
    requires TrainingInput(t)
    ensures TrainingInput(Cleaned(t, m))
  {
    FilledIntColumn(t, m, Children);
    FilledIntColumn(t, m, TotalPeople);
    FilledIntColumn(t, m, SoloTraveler);
  }

  /** The cleaned training frame has modes exactly when a row survives
      the cleaning: its three filled columns have no missing cell left. */
  lemma CleanedModes(t: Table, m: Modes)
    requires TrainingInput(t)
    ensures TrainingInput(Cleaned(t, m))
    ensures ModesOf(Cleaned(t, m)).Ok? <==> |Cleaned(t, m).rows| > 0
  {
    CleanedTraining(t, m);
    CleanedIsClean(t, m);
    var c := Cleaned(t, m);
    if |c.rows| > 0 {
      assert c.rows[0] in c.rows;
    }
  }

  /** Filling with integers keeps the checked columns numeric. */
  lemma CleanedChecked(t: Table, m: Modes)
    requires CleanerInput(t) && CheckedInput(t, Checks)
    ensures CheckedInput(Cleaned(t, m), Checks)
  {
    var r := Cleaned(t, m);
    CleanedRowsComeFromInput(t, m);
    forall i, k | 0 <= i < |r.rows| && k in Checks
      ensures k.column in r.rows[i] && (IsNumeric(r.rows[i][k.column]) || r.rows[i][k.column].Missing?)
    {
      assert r.rows[i] in r.rows;
      var j :| 0 <= j < |t.rows| && !BabiesWithoutAdults(t.rows[j]) && r.rows[i] == FillRow(t.rows[j], m);
      FillRowChecked(t.rows[j], m, k);
    }
  }

  /** Filling one row keeps a checked cell numeric or missing. */
  lemma FillRowChecked(x: Row, m: Modes, k: Check)
    requires Children in x && TotalPeople in x && SoloTraveler in x
    requires k.column in x && (IsNumeric(x[k.column]) || x[k.column].Missing?)
    ensures k.column in FillRow(x, m)
    ensures IsNumeric(FillRow(x, m)[k.column]) || FillRow(x, m)[k.column].Missing?
  {
  }

  // ---------------------------------------------------------------------
  // Scaling each partition

  lemma MinMaxName()
    ensures ScalerByLowerName("minmax") == Some(MinMaxScaler)
  {
    LowerUnchanged("minmax");
  }

  /** A frame the utility `scale` can fit by default: it has a row and a
      numeric column. */
  predicate Scalable(t: Table)
    requires WellFormed(t)
  {
    NumericColumns(t) != [] && |t.rows| > 0
  }

  /** `scale(x, method="minmax")`: every numeric column of `x` scaled by a
      min-max scaler fitted on `x` itself, or scikit-learn's ValueError
      when there is nothing to fit. */
  function MinMaxCopy(t: Table, stats: Statistics): (r: Result<Table, ScaleError>)
    requires WellFormed(t)
    ensures r.Ok? <==> Scalable(t)
    ensures r.Err? ==> r.error == NothingToFit
    ensures r.Ok? ==> WellFormed(r.value) && r.value.columns == t.columns && |r.value.rows| == |t.rows|
    ensures r.Ok? ==> r.value == Transform(t, Fit(t, NumericColumns(t), MinMaxScaler, stats))
  {
    MinMaxName();
    ScaleCopyDefault(t, "minmax", false, stats);
    match ScaleCopy(t, "minmax", None, false, stats)
    case Err(e) => Err(e)
    case Ok(s) => Ok(s.frame)
  }

  /** Every numeric cell of a partition scaled on its own lands in [0, 1]. */
  lemma MinMaxCopyRange(t: Table, stats: Statistics, i: nat, c: string)
    requires WellFormed(t) && c in NumericColumns(t)
    requires CellAt(t, i, c).Some? && IsNumeric(CellAt(t, i, c).value)
    ensures MinMaxCopy(t, stats).Ok?
    ensures InUnitInterval(CellAt(MinMaxCopy(t, stats).value, i, c))
  {
    var r := MinMaxCopy(t, stats).value;
    assert r.rows[i].Keys == Elems(t.columns);
    MinMaxRange(t, NumericColumns(t), stats, i, c);
  }

  // ---------------------------------------------------------------------
  // The pipeline

  /** The partitions as they reach the scaler (`main.py` lines 26-31): the
      training partition cleaned with its own modes and filtered for
      outliers, the other two cleaned with the modes of the cleaned
      training partition. */
  function Unscaled(train: Table, validation: Table, holdout: Table): (r: Result<Partitions, CleanError>)
    requires PipelineInput(train, validation, holdout)
    ensures ModesOf(train).Ok? ==> TrainingInput(Cleaned(train, ModesOf(train).value))
    ensures ModesOf(train).Ok? ==> CheckedInput(Cleaned(train, ModesOf(train).value), Checks)
    ensures r.Ok? ==> WellFormed(r.value.train) && WellFormed(r.value.validation) && WellFormed(r.value.holdout)
    ensures r.Err? <==> ModesOf(train).Err? || ModesOf(Cleaned(train, ModesOf(train).value)).Err?
    ensures r.Err? <==> ModesOf(train).Err? || |Cleaned(train, ModesOf(train).value).rows| == 0
  {
    match ModesOf(train)
    case Err(e) => Err(e)
    case Ok(m) =>
      CleanedModes(train, m);
      CleanedTraining(train, m);
      var cleaned := Cleaned(train, m);
      CleanedChecked(train, m);
      match ModesOf(cleaned)
      case Err(e) => Err(e)
      case Ok(again) =>
        Ok(Partitions(HandleOutlier(cleaned), Cleaned(validation, again), Cleaned(holdout, again)))
  }

  /** A scaler error as an error of the pipeline. */
  function Lifted(x: Result<Partitions, ScaleError>): (r: Result<Partitions, PipelineError>)
    ensures r.Ok? <==> x.Ok?
    ensures r.Ok? ==> r.value == x.value
    ensures r.Err? ==> r.error == ScalingFailed(x.error)
  {
    match x
    case Err(e) => Err(ScalingFailed(e))
    case Ok(p) => Ok(p)
  }

  /** `main.py` lines 26-36: the partitions cleaned, then each scaled with
      a scaler fitted on that partition. */
  function Prepared(train: Table, validation: Table, holdout: Table, stats: Statistics): (r: Result<Partitions, PipelineError>)
    requires PipelineInput(train, validation, holdout)
    ensures Unscaled(train, validation, holdout).Err? ==>
      r == Err(CleaningFailed(Unscaled(train, validation, holdout).error))
    ensures Unscaled(train, validation, holdout).Ok? ==>
      var u := Unscaled(train, validation, holdout).value;
      && WellFormed(u.train) && WellFormed(u.validation) && WellFormed(u.holdout)
      && r == Lifted(ScaleEach(u, stats))
  {
    match Unscaled(train, validation, holdout)
    case Err(e) => Err(CleaningFailed(e))
    case Ok(u) => Lifted(ScaleEach(u, stats))
  }

  /** The pipeline as written stops with the scaler's error exactly when a
      cleaned partition has no row or no numeric column; otherwise every
      partition keeps its labels and its row count. */
  lemma PreparedOutcome(train: Table, validation: Table, holdout: Table, stats: Statistics, u: Partitions)
    requires PipelineInput(train, validation, holdout)
    requires Unscaled(train, validation, holdout) == Ok(u)
    ensures var r := Prepared(train, validation, holdout, stats);
      && (r.Ok? <==> Scalable(u.train) && Scalable(u.validation) && Scalable(u.holdout))
      && (r.Err? ==> r.error == ScalingFailed(NothingToFit))
      && (r.Ok? ==>
            && WellFormed(r.value.train) && WellFormed(r.value.validation) && WellFormed(r.value.holdout)
            && r.value.train.columns == train.columns && |r.value.train.rows| == |u.train.rows|
            && r.value.validation.columns == validation.columns && |r.value.validation.rows| == |u.validation.rows|
            && r.value.holdout.columns == holdout.columns && |r.value.holdout.rows| == |u.holdout.rows|)
  {
    UnscaledColumns(train, validation, holdout);
    ScaledOutcome(u, stats, Prepared(train, validation, holdout, stats));
  }

  lemma ScaledOutcome(u: Partitions, stats: Statistics, r: Result<Partitions, PipelineError>)
    requires WellFormed(u.train) && WellFormed(u.validation) && WellFormed(u.holdout)
    requires r == Lifted(ScaleEach(u, stats))
    ensures r.Ok? <==> Scalable(u.train) && Scalable(u.validation) && Scalable(u.holdout)
    ensures r.Err? ==> r.error == ScalingFailed(NothingToFit)
    ensures r.Ok? ==>
      && WellFormed(r.value.train) && WellFormed(r.value.validation) && WellFormed(r.value.holdout)
      && r.value.train.columns == u.train.columns && |r.value.train.rows| == |u.train.rows|
      && r.value.validation.columns == u.validation.columns && |r.value.validation.rows| == |u.validation.rows|
      && r.value.holdout.columns == u.holdout.columns && |r.value.holdout.rows| == |u.holdout.rows|
  {
  }

  lemma UnscaledColumns(train: Table, validation: Table, holdout: Table)
    requires PipelineInput(train, validation, holdout)
    requires Unscaled(train, validation, holdout).Ok?
    ensures var u := Unscaled(train, validation, holdout).value;
      && u.train.columns == train.columns && u.validation.columns == validation.columns
      && u.holdout.columns == holdout.columns
  {
  }

  /** Lines 34-36: the three partitions scaled one after the other, each
      on its own; the first with nothing to fit raises. */
  function ScaleEach(u: Partitions, stats: Statistics): (r: Result<Partitions, ScaleError>)
    requires WellFormed(u.train) && WellFormed(u.validation) && WellFormed(u.holdout)
    ensures r.Ok? <==> Scalable(u.train) && Scalable(u.validation) && Scalable(u.holdout)
    ensures r.Err? ==> r.error == NothingToFit
    ensures r.Ok? ==>
      r.value == Partitions(MinMaxCopy(u.train, stats).value, MinMaxCopy(u.validation, stats).value,
                            MinMaxCopy(u.holdout, stats).value)
    ensures r.Ok? ==>
      && WellFormed(r.value.train) && WellFormed(r.value.validation) && WellFormed(r.value.holdout)
      && r.value.train.columns == u.train.columns && |r.value.train.rows| == |u.train.rows|
      && r.value.validation.columns == u.validation.columns && |r.value.validation.rows| == |u.validation.rows|
      && r.value.holdout.columns == u.holdout.columns && |r.value.holdout.rows| == |u.holdout.rows|
  {
    match MinMaxCopy(u.train, stats)
    case Err(e) => Err(e)
    case Ok(t) =>
      match MinMaxCopy(u.validation, stats)
      case Err(e) => Err(e)
      case Ok(v) =>
        match MinMaxCopy(u.holdout, stats)
        case Err(e) => Err(e)
        case Ok(h) => Ok(Partitions(t, v, h))
  }

  /** The same steps on the frames: the cleaner mutates them in place (the
      training frame is cleaned three times, the later two passes changing
      nothing), the outlier filter and the scaler return new frames. A
      cleaning that raises leaves the frames it has not reached as they
      were. */
  method Prepare(train: Frame, validation: Frame, holdout: Frame, stats: Statistics)
    returns (r: Result<Partitions, PipelineError>)
    requires train != validation && train != holdout && validation != holdout
    requires PipelineInput(train.Value(), validation.Value(), holdout.Value())
    modifies train, validation, holdout
    ensures r == Prepared(old(train.Value()), old(validation.Value()), old(holdout.Value()), stats)
    ensures ModesOf(old(train.Value())).Err? ==>
      && train.Value() == old(train.Value())
      && validation.Value() == old(validation.Value()) && holdout.Value() == old(holdout.Value())
    ensures ModesOf(old(train.Value())).Ok? ==>
      train.Value() == Cleaned(old(train.Value()), ModesOf(old(train.Value())).value)
    ensures ModesOf(old(train.Value())).Ok? ==>
      var again := ModesOf(Cleaned(old(train.Value()), ModesOf(old(train.Value())).value));
      && (again.Err? ==> validation.Value() == old(validation.Value()) && holdout.Value() == old(holdout.Value()))
      && (again.Ok? ==>
            && validation.Value() == Cleaned(old(validation.Value()), again.value)
            && holdout.Value() == Cleaned(old(holdout.Value()), again.value))
  {
    var cleaned := CleanSplits(train, validation, holdout);
    if cleaned.Fail? {
      return Err(CleaningFailed(cleaned.error));
    }
    var filtered := HandleOutlier(train.Value());
    var scaledTrain := MinMaxCopy(filtered, stats);
    if scaledTrain.Err? {
      return Err(ScalingFailed(scaledTrain.error));
    }
    var scaledValidation := MinMaxCopy(validation.Value(), stats);
    if scaledValidation.Err? {
      return Err(ScalingFailed(scaledValidation.error));
    }
    var scaledHoldout := MinMaxCopy(holdout.Value(), stats);
    if scaledHoldout.Err? {
      return Err(ScalingFailed(scaledHoldout.error));
    }
    r := Ok(Partitions(scaledTrain.value, scaledValidation.value, scaledHoldout.value));
  }

  /** `main.py` lines 26-28: the training partition cleaned with its own
      modes, then the other two with the modes of the cleaned training
      partition. It passes exactly when `Unscaled` succeeds, and the
      frames it leaves (the training one with its outliers removed) are
      the partitions `Unscaled` describes. */
  method CleanSplits(train: Frame, validation: Frame, holdout: Frame) returns (r: Outcome<CleanError>)
    requires train != validation && train != holdout && validation != holdout
    requires PipelineInput(train.Value(), validation.Value(), holdout.Value())
    modifies train, validation, holdout
    ensures r.Fail? <==> Unscaled(old(train.Value()), old(validation.Value()), old(holdout.Value())).Err?
    ensures r.Fail? ==> r.error == Unscaled(old(train.Value()), old(validation.Value()), old(holdout.Value())).error
    ensures ModesOf(old(train.Value())).Err? ==>
      && train.Value() == old(train.Value())
      && validation.Value() == old(validation.Value()) && holdout.Value() == old(holdout.Value())
    ensures ModesOf(old(train.Value())).Ok? ==>
      train.Value() == Cleaned(old(train.Value()), ModesOf(old(train.Value())).value)
    ensures ModesOf(old(train.Value())).Ok? ==>
      var again := ModesOf(Cleaned(old(train.Value()), ModesOf(old(train.Value())).value));
      && (again.Err? ==> validation.Value() == old(validation.Value()) && holdout.Value() == old(holdout.Value()))
      && (again.Ok? ==>
            && validation.Value() == Cleaned(old(validation.Value()), again.value)
            && holdout.Value() == Cleaned(old(holdout.Value()), again.value))
    ensures r.Pass? ==>
      && CheckedInput(train.Value(), Checks)
      && Unscaled(old(train.Value()), old(validation.Value()), old(holdout.Value())).value ==
         Partitions(HandleOutlier(train.Value()), validation.Value(), holdout.Value())
  {
    ghost var t0 := train.Value();
    var first := DataCleaning(train, train);
    if first.Err? {
      return Fail(first.error);
    }
    ghost var m := ModesOf(t0).value;
    CleanedTraining(t0, m);
    CleanedIsClean(t0, m);
    ghost var t1 := train.Value();
    var second := DataCleaning(train, validation);
    if second.Err? {
      return Fail(second.error);
    }
    CleanedOfClean(t1, ModesOf(t1).value);
    var third := DataCleaning(train, holdout);
    assert third.Ok?;
    CleanedOfClean(t1, ModesOf(t1).value);
    CleanedChecked(t0, m);
    r := Pass;
  }

  // ---------------------------------------------------------------------
  // What the partitions look like

  /** Before scaling, every partition is clean, the training rows are all
      within the ten outlier bounds, and the other two partitions keep
      every consistent row. */
  lemma UnscaledMeaning(train: Table, validation: Table, holdout: Table)
    requires PipelineInput(train, validation, holdout)
    requires Unscaled(train, validation, holdout).Ok?
    ensures var u := Unscaled(train, validation, holdout).value;
      && IsClean(u.train) && IsClean(u.validation) && IsClean(u.holdout)
      && (forall x :: x in u.train.rows ==> PassesAll(Checks, x))
      && |u.validation.rows| <= |validation.rows| && |u.holdout.rows| <= |holdout.rows|
  {
    var m := ModesOf(train).value;
    var again := ModesOf(Cleaned(train, m)).value;
    CleanedIsClean(train, m);
    CleanedIsClean(validation, again);
    CleanedIsClean(holdout, again);
  }

  /** The validation and hold-out partitions are filled with the modes of
      the cleaned training partition (taken before its outliers are
      removed): every consistent input row of theirs survives with its
      missing cells of the three columns set to those modes. */
  lemma UnscaledModes(train: Table, validation: Table, holdout: Table, i: nat, j: nat)
    requires PipelineInput(train, validation, holdout)
    requires Unscaled(train, validation, holdout).Ok?
    requires i < |validation.rows| && !BabiesWithoutAdults(validation.rows[i])
    requires j < |holdout.rows| && !BabiesWithoutAdults(holdout.rows[j])
    ensures var c := Cleaned(train, ModesOf(train).value);
      && TrainingInput(c) && ModesOf(c).Ok?
      && var modes := Modes(ColumnMode(c, Children).value, ColumnMode(c, TotalPeople).value,
                            ColumnMode(c, SoloTraveler).value);
      var u := Unscaled(train, validation, holdout).value;
      && FillRow(validation.rows[i], modes) in u.validation.rows
      && FillRow(holdout.rows[j], modes) in u.holdout.rows
  {
    var c := Cleaned(train, ModesOf(train).value);
    CleanedKeepsConsistentRows(validation, ModesOf(c).value);
    CleanedKeepsConsistentRows(holdout, ModesOf(c).value);
  }

  /** After the pipeline, every numeric cell of every partition lies in
      [0, 1]. */
  lemma PreparedRange(train: Table, validation: Table, holdout: Table, stats: Statistics, i: nat, c: string)
    requires PipelineInput(train, validation, holdout)
    requires Prepared(train, validation, holdout, stats).Ok?
    ensures var u := Unscaled(train, validation, holdout).value;
      var p := Prepared(train, validation, holdout, stats).value;
      && (c in NumericColumns(u.train) && CellAt(u.train, i, c).Some? && IsNumeric(CellAt(u.train, i, c).value) ==>
            InUnitInterval(CellAt(p.train, i, c)))
      && (c in NumericColumns(u.validation) && CellAt(u.validation, i, c).Some? && IsNumeric(CellAt(u.validation, i, c).value) ==>
            InUnitInterval(CellAt(p.validation, i, c)))
      && (c in NumericColumns(u.holdout) && CellAt(u.holdout, i, c).Some? && IsNumeric(CellAt(u.holdout, i, c).value) ==>
            InUnitInterval(CellAt(p.holdout, i, c)))
  {
    var u := Unscaled(train, validation, holdout).value;
    var p := Prepared(train, validation, holdout, stats).value;
    assert p == Partitions(MinMaxCopy(u.train, stats).value, MinMaxCopy(u.validation, stats).value,
                           MinMaxCopy(u.holdout, stats).value);
    if c in NumericColumns(u.train) && CellAt(u.train, i, c).Some? && IsNumeric(CellAt(u.train, i, c).value) {
      MinMaxCopyRange(u.train, stats, i, c);
    }
    if c in NumericColumns(u.validation) && CellAt(u.validation, i, c).Some? && IsNumeric(CellAt(u.validation, i, c).value) {
      MinMaxCopyRange(u.validation, stats, i, c);
    }
    if c in NumericColumns(u.holdout) && CellAt(u.holdout, i, c).Some? && IsNumeric(CellAt(u.holdout, i, c).value) {
      MinMaxCopyRange(u.holdout, stats, i, c);
    }
  }

  // ---------------------------------------------------------------------
  // One scaler for all partitions

  /** A one-column frame of `adr` values. */
  function AdrFrame(xs: seq<int>): (t: Table)
    ensures WellFormed(t) && t.columns == ["adr"] && |t.rows| == |xs|
    ensures forall i :: 0 <= i < |xs| ==> t.rows[i]["adr"] == Int(xs[i])
  {
    Table(["adr"], seq(|xs|, i requires 0 <= i < |xs| => map["adr" := Int(xs[i])]))
  }

  /** Scaling each partition with its own scaler gives one raw value two
      scaled values: `adr` 50 becomes 0.5 in a training partition holding
      0, 50 and 100, and 0 in a validation partition holding 50 and 100. */
  lemma RefitDisagrees(train: seq<int>, validation: seq<int>, stats: Statistics)
    requires train == [0, 50, 100] && validation == [50, 100]
    ensures train[1] == validation[0] == 50
    ensures MinMaxCopy(AdrFrame(train), stats).Ok? && MinMaxCopy(AdrFrame(validation), stats).Ok?
    ensures MinMaxCopy(AdrFrame(train), stats).value.rows[1]["adr"] == Num(0.5)
    ensures MinMaxCopy(AdrFrame(validation), stats).value.rows[0]["adr"] == Num(0.0)
  {
    assert train[1] == validation[0] == 50;
    TrainAdr(train, stats);
    ValidationAdr(validation, stats);
  }

  lemma TrainAdr(xs: seq<int>, stats: Statistics)
    requires xs == [0, 50, 100]
    ensures MinMaxCopy(AdrFrame(xs), stats).Ok?
    ensures MinMaxCopy(AdrFrame(xs), stats).value.rows[1]["adr"] == Num(0.5)
  {
    var ys := NumbersOf(Column(AdrFrame(xs), "adr"));
    AdrNumbers(xs);
    assert ys[0] == 0.0 && ys[1] == 50.0 && ys[2] == 100.0;
    assert ys == [0.0, 50.0, 100.0];
    AdrScaled(xs, ys, stats, 1, 0.0, 100.0, Affine(0.0, 100.0), 50);
    HalfAndZero();
  }

  lemma ValidationAdr(xs: seq<int>, stats: Statistics)
    requires xs == [50, 100]
    ensures MinMaxCopy(AdrFrame(xs), stats).Ok?
    ensures MinMaxCopy(AdrFrame(xs), stats).value.rows[0]["adr"] == Num(0.0)
  {
    var ys := NumbersOf(Column(AdrFrame(xs), "adr"));
    AdrNumbers(xs);
    assert ys[0] == 50.0 && ys[1] == 100.0;
    assert ys == [50.0, 100.0];
    AdrScaled(xs, ys, stats, 0, 50.0, 100.0, Affine(50.0, 50.0), 50);
    HalfAndZero();
  }

  /** The values of an `adr` frame are its integers. */
  lemma AdrNumbers(xs: seq<int>)
    ensures |NumbersOf(Column(AdrFrame(xs), "adr"))| == |xs|
    ensures forall k :: 0 <= k < |xs| ==> NumbersOf(Column(AdrFrame(xs), "adr"))[k] == xs[k] as real
  {
    var col := Column(AdrFrame(xs), "adr");
    assert forall k :: 0 <= k < |col| ==> col[k] == Int(xs[k]);
    IntNumbers(col);
  }

  lemma {:induction false} IntNumbers(col: seq<Cell>)
    requires forall k :: 0 <= k < |col| ==> col[k].Int?
    ensures |NumbersOf(col)| == |col|
    ensures forall k :: 0 <= k < |col| ==> NumbersOf(col)[k] == col[k].i as real
    decreases |col|
  {
    if col != [] {
      IntNumbers(col[1..]);
      assert NumbersOf(col) == [col[0].i as real] + NumbersOf(col[1..]);
    }
  }

  /** A cell of a one-column `adr` frame scaled on that frame, whose
      values `ys` run from `lo` to `hi`. */
  lemma AdrScaled(xs: seq<int>, ys: seq<real>, stats: Statistics, i: nat, lo: real, hi: real, a: Affine, x: int)
    requires i < |xs| && lo < hi && xs[i] == x && a == Affine(lo, hi - lo)
    requires NumbersOf(Column(AdrFrame(xs), "adr")) == ys
    requires lo in ys && hi in ys && forall y :: y in ys ==> lo <= y <= hi
    ensures MinMaxCopy(AdrFrame(xs), stats).Ok?
    ensures MinMaxCopy(AdrFrame(xs), stats).value.rows[i]["adr"] == ScaleCell(a, Int(x))
  {
    var t := AdrFrame(xs);
    AdrFit(xs, ys, stats, lo, hi);
    assert MinMaxCopy(t, stats).value == Transform(t, Fit(t, ["adr"], MinMaxScaler, stats));
  }

  /** The min-max fit of a one-column `adr` frame. */
  lemma AdrFit(xs: seq<int>, ys: seq<real>, stats: Statistics, lo: real, hi: real)
    requires lo < hi
    requires NumbersOf(Column(AdrFrame(xs), "adr")) == ys
    requires lo in ys && hi in ys && forall y :: y in ys ==> lo <= y <= hi
    ensures NumericColumns(AdrFrame(xs)) == ["adr"]
    ensures Fit(AdrFrame(xs), ["adr"], MinMaxScaler, stats)["adr"] == Affine(lo, hi - lo)
  {
    var t := AdrFrame(xs);
    NumericAdr(t);
    MinMaxAttained(ys, lo, hi);
    assert FitColumn(MinMaxScaler, ys, stats) == Affine(lo, hi - lo);
    assert Fit(t, ["adr"], MinMaxScaler, stats)["adr"] == FitColumn(MinMaxScaler, ys, stats);
  }

  lemma HalfAndZero()
    ensures ScaleCell(Affine(0.0, 100.0), Int(50)) == Num(0.5)
    ensures ScaleCell(Affine(50.0, 50.0), Int(50)) == Num(0.0)
  {
  }

  lemma NumericAdr(t: Table)
    requires WellFormed(t) && t.columns == ["adr"]
    requires forall i :: 0 <= i < |t.rows| ==> t.rows[i]["adr"].Int?
    ensures NumericColumns(t) == ["adr"]
  {
    assert NumericColumn(t, "adr");
    assert t.columns[1..] == [];
    assert NumericAmong(t, t.columns[1..]) == [];
  }

  /** The scaler fitted on the training partition, applied to every
      partition: the transform-only use of a fitted scaler. Fitting needs a
      training row and a numeric training column; transforming needs a row
      in each of the other partitions. */
  function ScaleWithTrain(u: Partitions, stats: Statistics): (r: Result<Partitions, ScaleError>)
    requires WellFormed(u.train) && WellFormed(u.validation) && WellFormed(u.holdout)
    ensures r.Ok? <==> Scalable(u.train) && |u.validation.rows| > 0 && |u.holdout.rows| > 0
    ensures r.Err? ==> r.error == NothingToFit
    ensures r.Ok? ==>
      && r.value.validation.columns == u.validation.columns && |r.value.validation.rows| == |u.validation.rows|
      && r.value.holdout.columns == u.holdout.columns && |r.value.holdout.rows| == |u.holdout.rows|
  {
    if !Scalable(u.train) || |u.validation.rows| == 0 || |u.holdout.rows| == 0 then Err(NothingToFit)
    else
      var fitted := Fit(u.train, NumericColumns(u.train), MinMaxScaler, stats);
      Ok(Partitions(Transform(u.train, fitted), Transform(u.validation, fitted), Transform(u.holdout, fitted)))
  }

  /** The corrected pipeline: cleaning as before, then one scaler fitted
      on the training partition for all three. */
  function PreparedWithTrainScaler(train: Table, validation: Table, holdout: Table, stats: Statistics)
    : (r: Result<Partitions, PipelineError>)
    requires PipelineInput(train, validation, holdout)
    ensures Unscaled(train, validation, holdout).Err? ==>
      r == Err(CleaningFailed(Unscaled(train, validation, holdout).error))
    ensures Unscaled(train, validation, holdout).Ok? ==>
      var u := Unscaled(train, validation, holdout).value;
      && WellFormed(u.train) && WellFormed(u.validation) && WellFormed(u.holdout)
      && r == Lifted(ScaleWithTrain(u, stats))
  {
    match Unscaled(train, validation, holdout)
    case Err(e) => Err(CleaningFailed(e))
    case Ok(u) => Lifted(ScaleWithTrain(u, stats))
  }

  /** Wherever the pipeline as written succeeds, so does the corrected one,
      and the training partition comes out as before: only the other two
      change. */
  lemma SharedScalerKeepsTrain(train: Table, validation: Table, holdout: Table, stats: Statistics)
    requires PipelineInput(train, validation, holdout)
    requires Prepared(train, validation, holdout, stats).Ok?
    ensures PreparedWithTrainScaler(train, validation, holdout, stats).Ok?
    ensures PreparedWithTrainScaler(train, validation, holdout, stats).value.train ==
      Prepared(train, validation, holdout, stats).value.train
  {
    var u := Unscaled(train, validation, holdout).value;
    SameTrainScaling(u, stats);
  }

  /** On cleaned partitions: scaling each on its own and scaling all with
      the training scaler agree on the training partition. */
  lemma SameTrainScaling(u: Partitions, stats: Statistics)
    requires WellFormed(u.train) && WellFormed(u.validation) && WellFormed(u.holdout)
    requires ScaleEach(u, stats).Ok?
    ensures ScaleWithTrain(u, stats).Ok? && ScaleWithTrain(u, stats).value.train == ScaleEach(u, stats).value.train
  {
  }

  /** With one scaler, a raw value of a training column scales to the same
      value in every partition. */
  lemma SharedScalerAgrees(train: Table, validation: Table, holdout: Table, stats: Statistics,
                           c: string, i: nat, j: nat)
    requires PipelineInput(train, validation, holdout)
    requires PreparedWithTrainScaler(train, validation, holdout, stats).Ok?
    requires var u := Unscaled(train, validation, holdout).value;
      && c in NumericColumns(u.train)
      && CellAt(u.train, i, c).Some? && CellAt(u.train, i, c) == CellAt(u.validation, j, c)
    ensures var p := PreparedWithTrainScaler(train, validation, holdout, stats).value;
      CellAt(p.train, i, c).Some? && CellAt(p.train, i, c) == CellAt(p.validation, j, c)
  {
    var u := Unscaled(train, validation, holdout).value;
    var fitted := Fit(u.train, NumericColumns(u.train), MinMaxScaler, stats);
    var p := PreparedWithTrainScaler(train, validation, holdout, stats).value;
    assert p == ScaleWithTrain(u, stats).value;
    assert p == Partitions(Transform(u.train, fitted), Transform(u.validation, fitted), Transform(u.holdout, fitted));
    SameCellScales(u.train, fitted, i, c);
    SameCellScales(u.validation, fitted, j, c);
  }

  /** A fitted column's cell comes out of the transform as its scaled
      value. */
  lemma SameCellScales(t: Table, m: map<string, Affine>, i: nat, c: string)
    requires WellFormed(t) && Fitted(m) && c in m && CellAt(t, i, c).Some?
    ensures CellAt(Transform(t, m), i, c) == Some(ScaleCell(m[c], CellAt(t, i, c).value))
  {
    var u := Transform(t, m);
    assert c in t.columns by {
      assert t.rows[i].Keys == Elems(t.columns);
    }
    assert u.rows[i].Keys == Elems(u.columns);
  }
}
