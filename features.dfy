/**
 * `feature_engineering`: check and coerce the GDP and population columns of the caller's table,
 * add `TotalGDP` and the two log columns to it in place, and build the matrix of the three
 * z-scored features. `log10` and the z-score `z` of a column are abstract parameters; the
 * matrix, which the source saves to a file, is returned.
 */
module Features {
  import opened Wrappers
  import opened Seqs
  import opened Frames
  import opened Parse
  import opened Cleaning

  const TotalGdpCol := "TotalGDP"
  const LogGdpCol := "LogGDPperCapita"
  const LogPopulationCol := "LogPopulation"

  /** `required_cols`. */
  const Required: seq<string> := [GdpCol, PopCol]

  /** `features_to_normalize`. */
  const ToNormalize: seq<string> := ["LifeExpectancy Both", LogGdpCol, LogPopulationCol]

  /** The column names the function reads and writes are pairwise different. */
  lemma ColumnsDiffer()
    ensures |GdpCol| == 18 && |PopCol| == 10 && |TotalGdpCol| == 8 && |LogGdpCol| == 15 && |LogPopulationCol| == 13
    ensures |ToNormalize[0]| == 19
  {
  }

  /** `x <= 0` on one cell: a gap compares false. */
  predicate NonPositiveCell(v: Cell) {
    v.Num? && v.x <= 0.0
  }

  /** `(v <= 0).any()`. */
  predicate NonPositive(v: seq<Cell>) {
    exists i :: 0 <= i < |v| && NonPositiveCell(v[i])
  }

  /** Neither coerced column holds a number that is not positive. */
  predicate Positive(c: Table) {
    !NonPositive(Column(c, GdpCol)) && !NonPositive(Column(c, PopCol))
  }

  /** `df[GDP] = pd.to_numeric(df[GDP])`, then the same for the population. */
  function Coerced(t: Table): (c: Table)
    ensures |c.records| == |t.records|
  {
    MapCells(MapCells(t, GdpCol, ToNumeric), PopCol, ToNumeric)
  }

  /** One row of `a * b`: a gap on either side gives a gap. */
  function Product(a: Cell, b: Cell): Cell {
    if a.Num? && b.Num? then Num(a.x * b.x) else Missing
  }

  function Products(t: Table): (v: seq<Cell>)
    ensures |v| == |t.records|
  {
    seq(|t.records|, i requires 0 <= i < |t.records| => Product(Get(t.records[i], GdpCol), Get(t.records[i], PopCol)))
  }

  /** `np.log10(df[c])`, with `log10` abstract. */
  function LogColumn(t: Table, c: string, log10: real -> real): (v: seq<Cell>)
    ensures |v| == |t.records|
  {
    seq(|t.records|, i requires 0 <= i < |t.records| => LogCell(log10, Get(t.records[i], c)))
  }

  /** The coerced table with `TotalGDP`, `LogGDPperCapita` and `LogPopulation` assigned. */
  function Enriched(c: Table, log10: real -> real): (e: Table)
    ensures |e.records| == |c.records|
  {
    var c1 := AssignColumn(c, TotalGdpCol, Products(c));
    var c2 := AssignColumn(c1, LogGdpCol, LogColumn(c1, GdpCol, log10));
    AssignColumn(c2, LogPopulationCol, LogColumn(c2, PopCol, log10))
  }

  /** `(df[c] - mu) / sigma` for one feature. */
  function ZColumn(t: Table, c: string, z: seq<Cell> -> Cell -> Cell): (v: seq<Cell>)
    ensures |v| == |t.records|
  {
    MapSeq(Column(t, c), z(Column(t, c)))
  }

  /** `normalized_features` once its loop is done. */
  function NormalizedOf(t: Table, cols: seq<string>, z: seq<Cell> -> Cell -> Cell): map<string, seq<Cell>> {
    map c | c in cols :: ZColumn(t, c, z)
  }

  /** `pd.DataFrame(normalized).values`: `n` rows, one entry per column in `cols`. */
  function FeatureMatrix(m: map<string, seq<Cell>>, cols: seq<string>, n: nat): (x: seq<seq<Cell>>)
    ensures |x| == n && forall i :: 0 <= i < n ==> |x[i]| == |cols|
  {
    seq(n, i requires 0 <= i < n =>
      seq(|cols|, j requires 0 <= j < |cols| => if cols[j] in m && i < |m[cols[j]]| then m[cols[j]][i] else Missing))
  }

  /** What the function leaves in the caller's table. */
  function FeatureState(t: Table, log10: real -> real): Table {
    if FirstAbsent(Required, t.columns).Some? then t
    else
      var c := Coerced(t);
      if Positive(c) then Enriched(c, log10) else c
  }

  /** What the function raises, or the feature matrix it saves. */
  function FeatureResult(t: Table, log10: real -> real, z: seq<Cell> -> Cell -> Cell): Result<seq<seq<Cell>>> {
    match FirstAbsent(Required, t.columns)
    case Some(col) => Err(KeyError(col))
    case None =>
      var c := Coerced(t);
      if NonPositive(Column(c, GdpCol)) then Err(ValueError(GdpCol))
      else if NonPositive(Column(c, PopCol)) then Err(ValueError(PopCol))
      else
        var e := Enriched(c, log10);
        match FirstAbsent(ToNormalize, e.columns)
        case Some(col) => Err(KeyError(col))
        case None => Ok(FeatureMatrix(NormalizedOf(e, ToNormalize, z), ToNormalize, |e.records|))
  }

  method FeatureEngineering(df: Frame, log10: real -> real, z: seq<Cell> -> Cell -> Cell) returns (r: Result<seq<seq<Cell>>>)
    modifies df
    ensures df.Snapshot() == FeatureState(old(df.Snapshot()), log10)
    ensures r == FeatureResult(old(df.Snapshot()), log10, z)
  {
    var absent := CheckColumns(df.columns, Required);
    if absent.Some? {
      return Err(KeyError(absent.value));
    }
    df.Apply(GdpCol, ToNumeric);
    df.Apply(PopCol, ToNumeric);
    if NonPositive(Column(df.Snapshot(), GdpCol)) {
      return Err(ValueError(GdpCol));
    }
    if NonPositive(Column(df.Snapshot(), PopCol)) {
      return Err(ValueError(PopCol));
    }
    df.Assign(TotalGdpCol, Products(df.Snapshot()));
    df.Assign(LogGdpCol, LogColumn(df.Snapshot(), GdpCol, log10));
    df.Assign(LogPopulationCol, LogColumn(df.Snapshot(), PopCol, log10));
    absent := CheckColumns(df.columns, ToNormalize);
    if absent.Some? {
      return Err(KeyError(absent.value));
    }
    var normalized := NormalizeFeatures(df.Snapshot(), ToNormalize, z);
    r := Ok(FeatureMatrix(normalized, ToNormalize, |df.records|));
  }

  /** `for col in cols: normalized_features[col] = (df[col] - mu) / sigma`. */
  method NormalizeFeatures(t: Table, cols: seq<string>, z: seq<Cell> -> Cell -> Cell) returns (m: map<string, seq<Cell>>)
    ensures m == NormalizedOf(t, cols, z)
  {
    m := map[];
    var k := 0;
    while k < |cols|
      invariant 0 <= k <= |cols|
      invariant m == NormalizedOf(t, cols[..k], z)
    {
      assert forall c :: c in cols[..k + 1] <==> c in cols[..k] || c == cols[k];
      m := m[cols[k] := ZColumn(t, cols[k], z)];
      k := k + 1;
    }
    assert cols[..k] == cols;
  }

  // ---------------------------------------------------------------- properties

  /** Coercion rewrites the two columns cell by cell and leaves labels and other cells alone. */
  lemma CoercedCells(t: Table)
    ensures GdpCol in t.columns && PopCol in t.columns ==> Coerced(t).columns == t.columns
    ensures forall i :: 0 <= i < |t.records| ==>
      Coerced(t).records[i].index == t.records[i].index &&
      Get(Coerced(t).records[i], GdpCol) == ToNumeric(Get(t.records[i], GdpCol)) &&
      Get(Coerced(t).records[i], PopCol) == ToNumeric(Get(t.records[i], PopCol))
    ensures forall i, d :: 0 <= i < |t.records| && d != GdpCol && d != PopCol ==>
      Get(Coerced(t).records[i], d) == Get(t.records[i], d)
  {
    ColumnsDiffer();
  }

  /** A missing required column raises `KeyError` for the first one missing, before anything is assigned. */
  lemma FeatureKeyErrors(t: Table, log10: real -> real, z: seq<Cell> -> Cell -> Cell)
    ensures GdpCol !in t.columns ==>
      FeatureResult(t, log10, z) == Err(KeyError(GdpCol)) && FeatureState(t, log10) == t
    ensures GdpCol in t.columns && PopCol !in t.columns ==>
      FeatureResult(t, log10, z) == Err(KeyError(PopCol)) && FeatureState(t, log10) == t
    ensures GdpCol in t.columns && PopCol in t.columns <==> FirstAbsent(Required, t.columns).None?
  {
    assert Required[0] == GdpCol && Required[1..] == [PopCol] && Required[1..][1..] == [];
    if GdpCol !in t.columns {
      assert FirstAbsent(Required, t.columns) == Some(GdpCol);
    } else if PopCol !in t.columns {
      assert FirstAbsent(Required[1..], t.columns) == Some(PopCol);
      assert FirstAbsent(Required, t.columns) == Some(PopCol);
    } else {
      assert FirstAbsent(Required[1..][1..], t.columns) == None;
      assert FirstAbsent(Required[1..], t.columns) == None;
    }
  }

  /**
   * With both columns present, `ValueError` names the GDP column exactly when some coerced GDP
   * value is a number that is not positive, and the population column exactly when only the
   * population has one; the table then holds the coerced columns and nothing new.
   */
  lemma FeatureValueErrors(t: Table, log10: real -> real, z: seq<Cell> -> Cell -> Cell)
    requires GdpCol in t.columns && PopCol in t.columns
    ensures FeatureResult(t, log10, z) == Err(ValueError(GdpCol)) <==>
      exists i :: 0 <= i < |t.records| && NonPositiveCell(ToNumeric(Get(t.records[i], GdpCol)))
    ensures FeatureResult(t, log10, z) == Err(ValueError(PopCol)) <==>
      (forall i :: 0 <= i < |t.records| ==> !NonPositiveCell(ToNumeric(Get(t.records[i], GdpCol)))) &&
      (exists i :: 0 <= i < |t.records| && NonPositiveCell(ToNumeric(Get(t.records[i], PopCol))))
    ensures FeatureResult(t, log10, z).Err? && FeatureResult(t, log10, z).error.ValueError? ==>
      FeatureState(t, log10) == Coerced(t)
  {
    FeatureKeyErrors(t, log10, z);
    CoercedCells(t);
    ColumnsDiffer();
    var c := Coerced(t);
    assert forall i :: 0 <= i < |t.records| ==> Column(c, GdpCol)[i] == ToNumeric(Get(t.records[i], GdpCol));
    assert forall i :: 0 <= i < |t.records| ==> Column(c, PopCol)[i] == ToNumeric(Get(t.records[i], PopCol));
    if Positive(c) {
      var e := Enriched(c, log10);
      var r := FeatureResult(t, log10, z);
      assert r.Ok? || r.error.KeyError?;
    }
  }

  /**
   * Past both checks the table keeps its rows and labels, holds the coerced columns,
   * `TotalGDP` and the two logs computed row by row, and every other cell as it was.
   */
  lemma FeatureEnriched(t: Table, log10: real -> real)
    requires FirstAbsent(Required, t.columns).None? && Positive(Coerced(t))
    ensures var e := FeatureState(t, log10);
      |e.records| == |t.records| &&
      (forall i :: 0 <= i < |t.records| ==> e.records[i].index == t.records[i].index) &&
      (forall i :: 0 <= i < |t.records| ==>
        var g := ToNumeric(Get(t.records[i], GdpCol));
        var p := ToNumeric(Get(t.records[i], PopCol));
        Get(e.records[i], GdpCol) == g && Get(e.records[i], PopCol) == p &&
        Get(e.records[i], TotalGdpCol) == Product(g, p) &&
        Get(e.records[i], LogGdpCol) == LogCell(log10, g) &&
        Get(e.records[i], LogPopulationCol) == LogCell(log10, p))
    ensures var e := FeatureState(t, log10);
      forall i, d :: 0 <= i < |t.records| && d !in [GdpCol, PopCol, TotalGdpCol, LogGdpCol, LogPopulationCol] ==>
        Get(e.records[i], d) == Get(t.records[i], d)
  {
    ColumnsDiffer();
    CoercedCells(t);
    var c := Coerced(t);
    var c1 := AssignColumn(c, TotalGdpCol, Products(c));
    var c2 := AssignColumn(c1, LogGdpCol, LogColumn(c1, GdpCol, log10));
    assert FeatureState(t, log10) == AssignColumn(c2, LogPopulationCol, LogColumn(c2, PopCol, log10));
  }

  /** The three new columns are appended after the existing ones, in the order they are assigned. */
  lemma FeatureColumns(t: Table, log10: real -> real)
    requires FirstAbsent(Required, t.columns).None? && Positive(Coerced(t))
    requires TotalGdpCol !in t.columns && LogGdpCol !in t.columns && LogPopulationCol !in t.columns
    ensures FeatureState(t, log10).columns == t.columns + [TotalGdpCol, LogGdpCol, LogPopulationCol]
  {
    ColumnsDiffer();
    FeatureKeyErrors(t, log10, (v: seq<Cell>) => (x: Cell) => x);
    CoercedCells(t);
  }

  /**
   * The positivity check is what makes the new columns meaningful: wherever a value is present,
   * `TotalGDP` is a positive number and both logs are defined.
   */
  lemma FeatureDefined(t: Table, log10: real -> real)
    requires FirstAbsent(Required, t.columns).None? && Positive(Coerced(t))
    ensures var e := FeatureState(t, log10);
      forall i :: 0 <= i < |t.records| ==>
        var g := ToNumeric(Get(t.records[i], GdpCol));
        var p := ToNumeric(Get(t.records[i], PopCol));
        (g.Num? && p.Num? ==> Get(e.records[i], TotalGdpCol).Num? && Get(e.records[i], TotalGdpCol).x > 0.0) &&
        (Get(e.records[i], LogGdpCol).Num? <==> g.Num?) &&
        (Get(e.records[i], LogPopulationCol).Num? <==> p.Num?)
  {
    FeatureEnriched(t, log10);
    CoercedCells(t);
    var c := Coerced(t);
    forall i | 0 <= i < |t.records|
      ensures RowDefined(ToNumeric(Get(t.records[i], GdpCol)), ToNumeric(Get(t.records[i], PopCol)), log10)
    {
      assert !NonPositiveCell(Column(c, GdpCol)[i]);
      assert !NonPositiveCell(Column(c, PopCol)[i]);
      PositiveRowDefined(ToNumeric(Get(t.records[i], GdpCol)), ToNumeric(Get(t.records[i], PopCol)), log10);
    }
  }

  /** Where both values are present their product is positive; each log is present with its value. */
  predicate RowDefined(g: Cell, p: Cell, log10: real -> real) {
    (g.Num? && p.Num? ==> Product(g, p).Num? && Product(g, p).x > 0.0) &&
    (LogCell(log10, g).Num? <==> g.Num?) &&
    (LogCell(log10, p).Num? <==> p.Num?)
  }

  lemma PositiveRowDefined(g: Cell, p: Cell, log10: real -> real)
    requires !NonPositiveCell(g) && !NonPositiveCell(p) && !g.Text? && !p.Text?
    ensures RowDefined(g, p, log10)
  {
    if g.Num? && p.Num? {
      PositiveProduct(g.x, p.x);
    }
  }

  lemma PositiveProduct(a: real, b: real)
    requires a > 0.0 && b > 0.0
    ensures a * b > 0.0
  {
  }

  /** `TotalGDP` is the product of the two columns: 1500 per head for 17 million people. */
  lemma ProductExample()
    ensures Product(Num(1500.0), Num(17000000.0)) == Num(25500000000.0)
    ensures Product(Missing, Num(17000000.0)) == Missing
  {
  }

  /** Past the positivity checks, only a missing life-expectancy column can still raise. */
  lemma FeatureNeedsLifeExpectancy(t: Table, log10: real -> real, z: seq<Cell> -> Cell -> Cell)
    requires FirstAbsent(Required, t.columns).None? && Positive(Coerced(t))
    ensures FeatureResult(t, log10, z).Ok? <==> ToNormalize[0] in t.columns
    ensures ToNormalize[0] !in t.columns ==> FeatureResult(t, log10, z) == Err(KeyError(ToNormalize[0]))
  {
    ColumnsDiffer();
    CoercedCells(t);
    var c := Coerced(t);
    var c1 := AssignColumn(c, TotalGdpCol, Products(c));
    var c2 := AssignColumn(c1, LogGdpCol, LogColumn(c1, GdpCol, log10));
    var e := AssignColumn(c2, LogPopulationCol, LogColumn(c2, PopCol, log10));
    assert Coerced(t).columns == t.columns by { FeatureKeyErrors(t, log10, z); }
    assert ToNormalize[0] in e.columns <==> ToNormalize[0] in t.columns;
    assert LogGdpCol in e.columns && LogPopulationCol in e.columns;
    if ToNormalize[0] !in t.columns {
      FirstAbsentIsFirst(ToNormalize, e.columns);
    }
  }

  /**
   * The feature matrix has one row per row of the table and one entry per feature, in the order
   * of `features_to_normalize`: entry `j` of row `i` is the z-score of that row's value of
   * feature `j` within its column.
   */
  lemma FeatureMatrixEntries(t: Table, log10: real -> real, z: seq<Cell> -> Cell -> Cell)
    requires FeatureResult(t, log10, z).Ok?
    ensures var x := FeatureResult(t, log10, z).value;
      var e := FeatureState(t, log10);
      |x| == |t.records| && |e.records| == |t.records| &&
      (forall i :: 0 <= i < |x| ==> |x[i]| == |ToNormalize|) &&
      forall i, j :: 0 <= i < |x| && 0 <= j < |ToNormalize| ==>
        x[i][j] == z(Column(e, ToNormalize[j]))(Get(e.records[i], ToNormalize[j]))
  {
    var e := FeatureState(t, log10);
    var m := NormalizedOf(e, ToNormalize, z);
    forall i, j | 0 <= i < |e.records| && 0 <= j < |ToNormalize|
      ensures FeatureResult(t, log10, z).value[i][j] == z(Column(e, ToNormalize[j]))(Get(e.records[i], ToNormalize[j]))
    {
      assert ToNormalize[j] in m;
      assert m[ToNormalize[j]] == ZColumn(e, ToNormalize[j], z);
    }
  }
}
