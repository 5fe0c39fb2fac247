/**
 * The reconciliation logic of the integration script: canonical names, one row per country,
 * the inner join, the lost countries, gap repair, z-score scaling of the three features, and
 * the matrix over the rows in key order. The script reads its three tables from files; here
 * they are parameters, and the z-score of a column is an abstract parameter `z`.
 */
module Integration {
  import opened Wrappers
  import opened Seqs
  import opened Strings
  import opened Frames
  import opened Impute
  import opened Canonical
  import opened Reconcile
  import opened Cleaning

  /** `scaled_features`. */
  const Scaled: seq<string> := ["LifeExpectancy Both", "LogGDPperCapita", "LogPopulation"]

  datatype Integrated = Integrated(data: Table, lost: seq<string>, features: seq<seq<Cell>>)

  /** `clean_country` of the integration script. */
  function IntegrationClean(name: string): string {
    CleanCountry(IntegrationAliases, name)
  }

  function Canon(t: Table): Result<Table> {
    MapText(t, CountryCol, IntegrationClean)
  }

  /** `df.set_index("Country")` then `df.groupby(level=0).first()`. */
  function Grouped(t: Table): (r: Table)
    requires Canon(t).Ok?
    ensures Keyed(r)
  {
    MapTextIsText(t, CountryCol, IntegrationClean);
    GroupFirst(SetIndex(Canon(t).value, CountryCol))
  }

  // ---------------------------------------------------------------- scaling

  /** The z-score of column `c` at the time it is scaled: `(df[c] - mu) / sigma`. */
  function ScaleOne(t: Table, c: string, z: seq<Cell> -> Cell -> Cell): Table {
    MapCells(t, c, z(Column(t, c)))
  }

  /**
   * `for col in cols: if col not in df.columns: raise KeyError(col); df[col] = z(df[col])`,
   * where `z(v)` is the rescaling the column's own mean and deviation give.
   */
  function Scale(t: Table, cols: seq<string>, z: seq<Cell> -> Cell -> Cell): (r: Result<Table>)
    ensures r.Err? <==> FirstAbsent(cols, t.columns).Some?
    ensures r.Err? ==> r.error == KeyError(FirstAbsent(cols, t.columns).value)
    ensures r.Ok? ==> r.value.columns == t.columns && |r.value.records| == |t.records|
    ensures r.Ok? ==> forall i :: 0 <= i < |t.records| ==> r.value.records[i].index == t.records[i].index
    decreases |cols|
  {
    if cols == [] then Ok(t)
    else if cols[0] !in t.columns then Err(KeyError(cols[0]))
    else Scale(ScaleOne(t, cols[0], z), cols[1..], z)
  }

  method ScaleColumns(t: Table, cols: seq<string>, z: seq<Cell> -> Cell -> Cell) returns (r: Result<Table>)
    ensures r == Scale(t, cols, z)
  {
    var cur := t;
    var k := 0;
    while k < |cols|
      invariant 0 <= k <= |cols|
      invariant Scale(t, cols, z) == Scale(cur, cols[k..], z)
    {
      assert cols[k..][1..] == cols[k + 1..];
      if cols[k] !in cur.columns {
        return Err(KeyError(cols[k]));
      }
      cur := MapCells(cur, cols[k], z(Column(cur, cols[k])));
      k := k + 1;
    }
    return Ok(cur);
  }

  predicate NoRepeats(cols: seq<string>) {
    forall i, j :: 0 <= i < j < |cols| ==> cols[i] != cols[j]
  }

  /**
   * Each listed column is replaced by its rescaling, computed from the column as it was before
   * the loop; every other column is unchanged.
   */
  lemma {:induction false} ScaleEffect(t: Table, cols: seq<string>, z: seq<Cell> -> Cell -> Cell, c: string, i: nat)
    requires Scale(t, cols, z).Ok? && NoRepeats(cols) && i < |t.records|
    ensures Get(Scale(t, cols, z).value.records[i], c) ==
      if c in cols then z(Column(t, c))(Get(t.records[i], c)) else Get(t.records[i], c)
    decreases |cols|
  {
    if cols != [] {
      var u := ScaleOne(t, cols[0], z);
      assert NoRepeats(cols[1..]) by {
        forall a, b | 0 <= a < b < |cols[1..]| ensures cols[1..][a] != cols[1..][b] {
          assert cols[1..][a] == cols[a + 1] && cols[1..][b] == cols[b + 1];
        }
      }
      ScaleEffect(u, cols[1..], z, c, i);
      assert c in cols <==> c == cols[0] || c in cols[1..];
      if c != cols[0] {
        assert Column(u, c) == Column(t, c);
      } else {
        assert forall j :: 0 <= j < |cols[1..]| ==> cols[1..][j] == cols[j + 1] != cols[0];
      }
    }
  }

  lemma ScaledDistinct()
    ensures NoRepeats(Scaled)
  {
    assert |Scaled[0]| > |Scaled[1]| > |Scaled[2]|;
  }

  // ---------------------------------------------------------------- the script

  /** Numeric gaps take the column mean; then, if there are text columns, rows with a gap in one are dropped. */
  function Repair(m: Table): (kept: Table)
    ensures kept.columns == m.columns
  {
    var filled := ImputeColumns(m, NumericColumns(m));
    var cats := TextColumns(m);
    if cats != [] then DropGaps(filled, cats) else filled
  }

  function Settled(m: Table, lost: seq<string>, z: seq<Cell> -> Cell -> Cell): Result<Integrated> {
    match Scale(Repair(m), Scaled, z)
    case Err(e) => Err(e)
    case Ok(s) =>
      var sorted := SortByKey(s);
      Ok(Integrated(sorted, lost, Matrix(sorted, Scaled)))
  }

  function Integrate3(a: Table, b: Table, c: Table, z: seq<Cell> -> Cell -> Cell): Result<Integrated> {
    match Join3(a, b, c)
    case Err(e) => Err(e)
    case Ok(m) => Settled(m, LostKeys(a, b, c, m), z)
  }

  /** The script body on the three tables it reads. */
  function IntegrateOf(d: Table, g: Table, p: Table, z: seq<Cell> -> Cell -> Cell): Result<Integrated> {
    if CountryCol !in d.columns || CountryCol !in g.columns || CountryCol !in p.columns then Err(KeyError(CountryCol))
    else if Canon(d).Err? then Err(Canon(d).error)
    else if Canon(g).Err? then Err(Canon(g).error)
    else if Canon(p).Err? then Err(Canon(p).error)
    else Integrate3(Grouped(d), Grouped(g), Grouped(p), z)
  }

  lemma CanonIndexable(t: Table)
    requires Canon(t).Ok?
    ensures AllText(Column(Canon(t).value, CountryCol))
    ensures GroupFirst(SetIndex(Canon(t).value, CountryCol)) == Grouped(t)
  {
    MapTextIsText(t, CountryCol, IntegrationClean);
  }

  method Integrate(d: Table, g: Table, p: Table, z: seq<Cell> -> Cell -> Cell) returns (r: Result<Integrated>)
    ensures r == IntegrateOf(d, g, p, z)
  {
    if CountryCol !in d.columns || CountryCol !in g.columns || CountryCol !in p.columns {
      return Err(KeyError(CountryCol));
    }
    var d1, g1, p1 := Canon(d), Canon(g), Canon(p);
    if d1.Err? {
      return Err(d1.error);
    }
    if g1.Err? {
      return Err(g1.error);
    }
    if p1.Err? {
      return Err(p1.error);
    }
    CanonIndexable(d);
    CanonIndexable(g);
    CanonIndexable(p);
    var a := GroupFirst(SetIndex(d1.value, CountryCol));
    var b := GroupFirst(SetIndex(g1.value, CountryCol));
    var c := GroupFirst(SetIndex(p1.value, CountryCol));
    r := Combine(a, b, c, z);
  }

  /** From the join on. */
  method Combine(a: Table, b: Table, c: Table, z: seq<Cell> -> Cell -> Cell) returns (r: Result<Integrated>)
    ensures r == Integrate3(a, b, c, z)
  {
    var joined := Join3(a, b, c);
    if joined.Err? {
      return Err(joined.error);
    }
    var lost := LostKeys(a, b, c, joined.value);
    var cats := TextColumns(joined.value);
    var final := ImputeNumeric(joined.value);
    if cats != [] {
      final := DropGaps(final, cats);
    }
    var scaled := ScaleColumns(final, Scaled, z);
    if scaled.Err? {
      return Err(scaled.error);
    }
    var sorted := SortByKey(scaled.value);
    r := Ok(Integrated(sorted, lost, Matrix(sorted, Scaled)));
  }

  // ---------------------------------------------------------------- properties

  /** `KeyError` when any of the three tables has no Country column. */
  lemma IntegrateCountryCheck(d: Table, g: Table, p: Table, z: seq<Cell> -> Cell -> Cell)
    ensures IntegrateOf(d, g, p, z).Ok? ==> CountryCol in d.columns && CountryCol in g.columns && CountryCol in p.columns
    ensures CountryCol !in d.columns || CountryCol !in g.columns || CountryCol !in p.columns ==>
      IntegrateOf(d, g, p, z) == Err(KeyError(CountryCol))
  {
  }

  /** A successful run grouped all three tables and joined them. */
  lemma IntegrateStages(d: Table, g: Table, p: Table, z: seq<Cell> -> Cell -> Cell)
    requires IntegrateOf(d, g, p, z).Ok?
    ensures Canon(d).Ok? && Canon(g).Ok? && Canon(p).Ok?
    ensures Join3(Grouped(d), Grouped(g), Grouped(p)).Ok?
    ensures var (a, b, c) := (Grouped(d), Grouped(g), Grouped(p));
      var m := Join3(a, b, c).value;
      IntegrateOf(d, g, p, z) == Settled(m, LostKeys(a, b, c, m), z)
  {
  }

  /**
   * After grouping each table has one row per key, in ascending key order, with the keys it had;
   * the joined keys are the keys all three share, and the lost keys are ascending and together
   * with the joined ones make up every key.
   */
  lemma IntegrateKeys(d: Table, g: Table, p: Table, z: seq<Cell> -> Cell -> Cell)
    requires IntegrateOf(d, g, p, z).Ok?
    ensures Canon(d).Ok? && Canon(g).Ok? && Canon(p).Ok?
    ensures var (a, b, c) := (Grouped(d), Grouped(g), Grouped(p));
      DistinctKeys(a.records, KeyOf) && DistinctKeys(b.records, KeyOf) && DistinctKeys(c.records, KeyOf) &&
      Join3(a, b, c).Ok? &&
      var m := Join3(a, b, c).value;
      var lost := set k | k in IntegrateOf(d, g, p, z).value.lost;
      KeySet(m) == KeySet(a) * KeySet(b) * KeySet(c) &&
      StrictlyAscending(IntegrateOf(d, g, p, z).value.lost) && lost !! KeySet(m) && lost + KeySet(m) == AllKeys(a, b, c)
  {
    IntegrateStages(d, g, p, z);
    var (a, b, c) := (Grouped(d), Grouped(g), Grouped(p));
    GroupFirstKeys(SetIndex(Canon(d).value, CountryCol));
    GroupFirstKeys(SetIndex(Canon(g).value, CountryCol));
    GroupFirstKeys(SetIndex(Canon(p).value, CountryCol));
    Join3Keys(a, b, c);
    LostPartition(a, b, c);
  }

  /** After repair no text column of the joined table has a gap. */
  lemma RepairNoTextGap(m: Table)
    ensures forall i, c :: 0 <= i < |Repair(m).records| && c in TextColumns(m) ==> Get(Repair(m).records[i], c) != Missing
  {
  }

  /** Rows leave the repair only for a gap in a text column. */
  lemma RepairPartition(m: Table)
    ensures var filled := ImputeColumns(m, NumericColumns(m));
      var removed := Where(filled.records, (x: Record) => !NoGapIn(x, TextColumns(m)));
      multiset(Repair(m).records) + multiset(removed) == multiset(filled.records)
  {
    var filled := ImputeColumns(m, NumericColumns(m));
    var cats := TextColumns(m);
    if cats == [] {
      WhereNone(filled.records, (x: Record) => !NoGapIn(x, cats));
    } else {
      DropGapsPartition(filled, cats);
    }
  }

  /**
   * The final rows are the scaled rows in ascending key order, and the matrix has one row per
   * final row, in that order, holding the three scaled columns in declared order.
   */
  lemma SettledResult(m: Table, lost: seq<string>, z: seq<Cell> -> Cell -> Cell)
    requires Settled(m, lost, z).Ok?
    ensures Scale(Repair(m), Scaled, z).Ok?
    ensures var r := Settled(m, lost, z).value;
      r.lost == lost &&
      multiset(r.data.records) == multiset(Scale(Repair(m), Scaled, z).value.records) &&
      SortedBy(r.data.records, KeyOf) &&
      |r.features| == |r.data.records| &&
      (forall i :: 0 <= i < |r.features| ==> |r.features[i]| == |Scaled|) &&
      (forall i, j :: 0 <= i < |r.features| && 0 <= j < |Scaled| ==> r.features[i][j] == Get(r.data.records[i], Scaled[j]))
  {
  }

  /** Key order depends only on the labels. */
  lemma SameLabelsSorted(t: Table, u: Table)
    requires |t.records| == |u.records| && forall i :: 0 <= i < |t.records| ==> t.records[i].index == u.records[i].index
    requires SortedBy(t.records, KeyOf)
    ensures SortedBy(u.records, KeyOf)
  {
    forall i, j | 0 <= i < j < |u.records| ensures StrLe(KeyOf(u.records[i]), KeyOf(u.records[j])) {
      assert KeyOf(u.records[i]) == KeyOf(t.records[i]) && KeyOf(u.records[j]) == KeyOf(t.records[j]);
    }
  }

  /** Repair keeps the key order of the joined rows: it rewrites cells and drops rows. */
  lemma RepairKeepsOrder(m: Table)
    requires SortedBy(m.records, KeyOf)
    ensures SortedBy(Repair(m).records, KeyOf)
  {
    var filled := ImputeColumns(m, NumericColumns(m));
    SameLabelsSorted(m, filled);
    var cats := TextColumns(m);
    if cats != [] {
      SubseqOfSorted(DropGaps(filled, cats).records, filled.records, KeyOf);
    }
  }

  /**
   * Grouping sorts each table by key and the join keeps the left order, so the rows reach
   * `sort_index` already sorted, and it leaves them where they are.
   */
  lemma SortIndexKeepsOrder(d: Table, g: Table, p: Table, z: seq<Cell> -> Cell -> Cell)
    requires IntegrateOf(d, g, p, z).Ok?
    ensures Canon(d).Ok? && Canon(g).Ok? && Canon(p).Ok?
    ensures var (a, b, c) := (Grouped(d), Grouped(g), Grouped(p));
      Join3(a, b, c).Ok? && Scale(Repair(Join3(a, b, c).value), Scaled, z).Ok? &&
      IntegrateOf(d, g, p, z).value.data == Scale(Repair(Join3(a, b, c).value), Scaled, z).value
  {
    IntegrateStages(d, g, p, z);
    var (a, b, c) := (Grouped(d), Grouped(g), Grouped(p));
    GroupFirstKeys(SetIndex(Canon(d).value, CountryCol));
    var ab := Join(a, b).value;
    JoinKeepsOrder(a, b);
    JoinKeepsOrder(ab, c);
    var m := Join3(a, b, c).value;
    RepairKeepsOrder(m);
    var s := Scale(Repair(m), Scaled, z).value;
    SameLabelsSorted(Repair(m), s);
    SortSorted(s.records, KeyOf);
  }

  /** The scaled columns hold the rescaled repaired values; the other columns are the repaired ones. */
  lemma SettledScaled(m: Table, z: seq<Cell> -> Cell -> Cell, c: string, i: nat)
    requires Scale(Repair(m), Scaled, z).Ok? && i < |Repair(m).records|
    ensures var kept := Repair(m);
      Get(Scale(kept, Scaled, z).value.records[i], c) ==
        if c in Scaled then z(Column(kept, c))(Get(kept.records[i], c)) else Get(kept.records[i], c)
  {
    ScaledDistinct();
    ScaleEffect(Repair(m), Scaled, z, c, i);
  }
}
