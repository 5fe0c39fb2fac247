/**
 * `merge_datasets`: canonicalise the Country column of the three cleaned tables in place, index
 * them by it, join them, record the lost countries, repair gaps, and build the feature matrix
 * from the rows sorted by country.
 */
module Merge {
  import opened Wrappers
  import opened Seqs
  import opened Strings
  import opened Frames
  import opened Impute
  import opened Canonical
  import opened Reconcile
  import opened Cleaning

  /** `selected_features`. */
  const Selected: seq<string> := ["LifeExpectancy Both", LogPopCol]

  /** The names the missing-column error gives the three tables. */
  const DatasetNames: seq<string> := ["demographics", "GDP", "population"]

  /** What the function gives back: the final table and the side results it saves to files. */
  datatype Merged = Merged(data: Table, lost: seq<string>, features: seq<seq<Cell>>)

  /** The first table, in order, without a Country column, by its dataset name. */
  function LackingCountry(cols: seq<seq<string>>, names: seq<string>): (o: Option<string>)
    requires |cols| == |names|
    ensures o.None? <==> forall i :: 0 <= i < |cols| ==> CountryCol in cols[i]
    ensures o.Some? ==> exists i :: 0 <= i < |cols| && CountryCol !in cols[i] && o.value == names[i] &&
                                    forall j :: 0 <= j < i ==> CountryCol in cols[j]
  {
    if cols == [] then None
    else if CountryCol !in cols[0] then Some(names[0])
    else
      var o := LackingCountry(cols[1..], names[1..]);
      assert forall i :: 1 <= i < |cols| ==> cols[i] == cols[1..][i - 1] && names[i] == names[1..][i - 1];
      if o.Some? then
        var i :| 0 <= i < |cols| - 1 && CountryCol !in cols[1..][i] && o.value == names[1..][i] &&
                 forall j :: 0 <= j < i ==> CountryCol in cols[1..][j];
        assert forall j :: 0 <= j < i + 1 ==> CountryCol in cols[j];
        o
      else o
  }

  /** `clean_country` of `merge_datasets`. */
  function MergeClean(name: string): string {
    CleanCountry(MergeAliases, name)
  }

  /** `df["Country"] = df["Country"].apply(clean_country)`. */
  function Canon(t: Table): Result<Table> {
    MapText(t, CountryCol, MergeClean)
  }

  /** A canonicalised table indexed by its Country column. */
  function Indexed(t: Table): (r: Table)
    requires Canon(t).Ok?
    ensures Keyed(r) && |r.records| == |t.records|
    ensures forall i :: 0 <= i < |t.records| ==> r.records[i].index == Key(MergeClean(TextOf(Get(t.records[i], CountryCol))))
  {
    MapTextIsText(t, CountryCol, MergeClean);
    SetIndex(Canon(t).value, CountryCol)
  }

  /** The tail of the function, from the join on: everything it does to tables it owns. */
  function Combined(a: Table, b: Table, c: Table): Result<Merged> {
    match Join3(a, b, c)
    case Err(e) => Err(e)
    case Ok(m) =>
      match ResetIndex(m, CountryCol)
      case Err(e) => Err(e)
      case Ok(flat) => Finished(flat, LostKeys(a, b, c, m))
  }

  /** The joined rows after gap repair, before the selected-column check. */
  function Repaired(flat: Table): (kept: Table)
    ensures kept.columns == flat.columns
  {
    DropMissingText(ImputeColumns(flat, NumericColumns(flat)))
  }

  function Finished(flat: Table, lost: seq<string>): Result<Merged> {
    var kept := Repaired(flat);
    match FirstAbsent(Selected, kept.columns)
    case Some(c) => Err(KeyError(c))
    case None =>
      var sorted := SortByColumn(kept, CountryCol);
      Ok(Merged(sorted, lost, Matrix(sorted, Selected)))
  }

  /** `merge_datasets(df_demo, df_gdp, df_pop)` on the three tables as they were passed in. */
  function MergeOf(d: Table, g: Table, p: Table): Result<Merged> {
    match LackingCountry([d.columns, g.columns, p.columns], DatasetNames)
    case Some(n) => Err(KeyError(n))
    case None =>
      if Canon(d).Err? then Err(Canon(d).error)
      else if Canon(g).Err? then Err(Canon(g).error)
      else if Canon(p).Err? then Err(Canon(p).error)
      else Combined(Indexed(d), Indexed(g), Indexed(p))
  }

  /** Whether every table got past the Country check and had its names canonicalised. */
  predicate AllCanon(d: Table, g: Table, p: Table) {
    LackingCountry([d.columns, g.columns, p.columns], DatasetNames).None? && Canon(d).Ok? && Canon(g).Ok? && Canon(p).Ok?
  }

  /**
   * How the function leaves a caller's table: canonicalised and indexed when all three were,
   * canonicalised only when a later table raised, untouched when it or an earlier one raised.
   */
  function LeftBehind(t: Table, d: Table, g: Table, p: Table, reached: bool): Table {
    if AllCanon(d, g, p) && Canon(t).Ok? then Indexed(t)
    else if reached && Canon(t).Ok? then Canon(t).value
    else t
  }

  method MergeDatasets(demo: Frame, gdp: Frame, pop: Frame) returns (r: Result<Merged>)
    requires demo != gdp && demo != pop && gdp != pop
    modifies demo, gdp, pop
    ensures var (d, g, p) := (old(demo.Snapshot()), old(gdp.Snapshot()), old(pop.Snapshot()));
      var checked := LackingCountry([d.columns, g.columns, p.columns], DatasetNames).None?;
      r == MergeOf(d, g, p) &&
      demo.Snapshot() == LeftBehind(d, d, g, p, checked) &&
      gdp.Snapshot() == LeftBehind(g, d, g, p, checked && Canon(d).Ok?) &&
      pop.Snapshot() == LeftBehind(p, d, g, p, checked && Canon(d).Ok? && Canon(g).Ok?)
  {
    var lacking := FindLacking([demo.columns, gdp.columns, pop.columns], DatasetNames);
    if lacking.Some? {
      return Err(KeyError(lacking.value));
    }
    var e := CanonicaliseAll(demo, gdp, pop);
    if e.Some? {
      return Err(e.value);
    }
    CanonIndexable(old(demo.Snapshot()));
    CanonIndexable(old(gdp.Snapshot()));
    CanonIndexable(old(pop.Snapshot()));
    demo.SetIndexInPlace(CountryCol);
    gdp.SetIndexInPlace(CountryCol);
    pop.SetIndexInPlace(CountryCol);
    var a, b, c := demo.Snapshot(), gdp.Snapshot(), pop.Snapshot();
    r := MergeJoined(a, b, c);
  }

  /** `for df, name in zip(...): if 'Country' not in df.columns: raise KeyError(...)`. */
  method FindLacking(cols: seq<seq<string>>, names: seq<string>) returns (o: Option<string>)
    requires |cols| == |names|
    ensures o == LackingCountry(cols, names)
  {
    var k := 0;
    while k < |cols|
      invariant 0 <= k <= |cols|
      invariant LackingCountry(cols, names) == LackingCountry(cols[k..], names[k..])
    {
      assert cols[k..][1..] == cols[k + 1..];
      assert names[k..][1..] == names[k + 1..];
      if CountryCol !in cols[k] {
        return Some(names[k]);
      }
      k := k + 1;
    }
    return None;
  }

  /** Canonical names in each table in turn; a table that raises stops the rest. */
  method CanonicaliseAll(demo: Frame, gdp: Frame, pop: Frame) returns (e: Option<Error>)
    requires demo != gdp && demo != pop && gdp != pop
    modifies demo, gdp, pop
    ensures var (d, g, p) := (old(demo.Snapshot()), old(gdp.Snapshot()), old(pop.Snapshot()));
      (e.None? <==> Canon(d).Ok? && Canon(g).Ok? && Canon(p).Ok?) &&
      demo.Snapshot() == (if Canon(d).Ok? then Canon(d).value else d) &&
      gdp.Snapshot() == (if Canon(d).Ok? && Canon(g).Ok? then Canon(g).value else g) &&
      pop.Snapshot() == (if e.None? then Canon(p).value else p) &&
      (e.Some? ==> e.value == if Canon(d).Err? then Canon(d).error else if Canon(g).Err? then Canon(g).error else Canon(p).error)
  {
    e := demo.ApplyText(CountryCol, MergeClean);
    if e.Some? {
      return;
    }
    e := gdp.ApplyText(CountryCol, MergeClean);
    if e.Some? {
      return;
    }
    e := pop.ApplyText(CountryCol, MergeClean);
  }

  /** A canonicalised Country column holds only strings, so it can become the index. */
  lemma CanonIndexable(t: Table)
    requires Canon(t).Ok?
    ensures AllText(Column(Canon(t).value, CountryCol))
    ensures SetIndex(Canon(t).value, CountryCol) == Indexed(t)
  {
    MapTextIsText(t, CountryCol, MergeClean);
  }

  /** The join, the lost countries, gap repair, the column check, the sort and the matrix. */
  method MergeJoined(a: Table, b: Table, c: Table) returns (r: Result<Merged>)
    ensures r == Combined(a, b, c)
  {
    var joined := Join3(a, b, c);
    if joined.Err? {
      return Err(joined.error);
    }
    var lost := LostKeys(a, b, c, joined.value);
    var flat := ResetIndex(joined.value, CountryCol);
    if flat.Err? {
      return Err(flat.error);
    }
    var merged := ImputeNumeric(flat.value);
    merged := DropMissingText(merged);
    var absent := CheckColumns(merged.columns, Selected);
    if absent.Some? {
      return Err(KeyError(absent.value));
    }
    merged := SortByColumn(merged, CountryCol);
    r := Ok(Merged(merged, lost, Matrix(merged, Selected)));
  }

  // ---------------------------------------------------------------- properties

  /** `KeyError` names the first table, in argument order, that has no Country column. */
  lemma MergeCountryCheck(d: Table, g: Table, p: Table)
    ensures CountryCol !in d.columns ==> MergeOf(d, g, p) == Err(KeyError("demographics"))
    ensures CountryCol in d.columns && CountryCol !in g.columns ==> MergeOf(d, g, p) == Err(KeyError("GDP"))
    ensures CountryCol in d.columns && CountryCol in g.columns && CountryCol !in p.columns ==>
      MergeOf(d, g, p) == Err(KeyError("population"))
    ensures MergeOf(d, g, p).Ok? ==> CountryCol in d.columns && CountryCol in g.columns && CountryCol in p.columns
  {
    var cols := [d.columns, g.columns, p.columns];
    assert cols[1..] == [g.columns, p.columns] && cols[1..][1..] == [p.columns];
    assert DatasetNames[1..] == ["GDP", "population"] && DatasetNames[1..][1..] == ["population"];
    if CountryCol in d.columns {
      assert LackingCountry(cols, DatasetNames) == LackingCountry(cols[1..], DatasetNames[1..]);
      if CountryCol in g.columns {
        assert LackingCountry(cols[1..], DatasetNames[1..]) == LackingCountry([p.columns], ["population"]);
      }
    }
  }

  /** A successful merge canonicalised all three tables and combined them. */
  lemma MergeStages(d: Table, g: Table, p: Table)
    requires MergeOf(d, g, p).Ok?
    ensures AllCanon(d, g, p)
    ensures MergeOf(d, g, p) == Combined(Indexed(d), Indexed(g), Indexed(p))
  {
  }

  /** A successful combination joined the tables and numbered the joined rows again. */
  lemma CombinedStages(a: Table, b: Table, c: Table)
    requires Combined(a, b, c).Ok?
    ensures Join3(a, b, c).Ok?
    ensures var m := Join3(a, b, c).value;
      ResetIndex(m, CountryCol).Ok? && Combined(a, b, c) == Finished(ResetIndex(m, CountryCol).value, LostKeys(a, b, c, m))
  {
  }

  /**
   * The merged keys are exactly the canonical names all three tables share; the lost countries
   * are ascending, disjoint from them, and with them make up every canonical name there was.
   */
  lemma MergeKeys(d: Table, g: Table, p: Table)
    requires MergeOf(d, g, p).Ok?
    ensures AllCanon(d, g, p)
    ensures var (a, b, c) := (Indexed(d), Indexed(g), Indexed(p));
      Join3(a, b, c).Ok? &&
      var m := Join3(a, b, c).value;
      var lost := set k | k in MergeOf(d, g, p).value.lost;
      KeySet(m) == KeySet(a) * KeySet(b) * KeySet(c) &&
      StrictlyAscending(MergeOf(d, g, p).value.lost) && lost !! KeySet(m) && lost + KeySet(m) == AllKeys(a, b, c)
  {
    MergeStages(d, g, p);
    var (a, b, c) := (Indexed(d), Indexed(g), Indexed(p));
    CombinedStages(a, b, c);
    Join3Keys(a, b, c);
    LostPartition(a, b, c);
  }

  /** A key of an indexed table is the canonical form of one of its Country names. */
  lemma IndexedKeys(t: Table)
    requires Canon(t).Ok?
    ensures forall k :: k in KeySet(Indexed(t)) <==>
      exists i :: 0 <= i < |t.records| && k == MergeClean(TextOf(Get(t.records[i], CountryCol)))
  {
    var r := Indexed(t);
    forall k ensures k in KeySet(r) <==> exists i :: 0 <= i < |t.records| && k == MergeClean(TextOf(Get(t.records[i], CountryCol))) {
      if k in KeySet(r) {
        var x :| x in r.records && x.index.Key? && x.index.name == k;
        var i :| 0 <= i < |r.records| && r.records[i] == x;
        assert k == MergeClean(TextOf(Get(t.records[i], CountryCol)));
      }
      if exists i :: 0 <= i < |t.records| && k == MergeClean(TextOf(Get(t.records[i], CountryCol))) {
        var i :| 0 <= i < |t.records| && k == MergeClean(TextOf(Get(t.records[i], CountryCol)));
        assert r.records[i] in r.records;
      }
    }
  }

  /** An indexed table keeps every column but Country. */
  lemma IndexedColumns(t: Table)
    requires Canon(t).Ok?
    ensures forall x :: x in Indexed(t).columns <==> x in t.columns && x != CountryCol
  {
    WhereMembers(Canon(t).value.columns, (x: string) => x != CountryCol);
  }

  /**
   * After the selected-column check: the rows are the repaired joined rows sorted ascending by
   * Country, and the matrix has one row per returned row, in that order, holding the selected
   * columns in declared order.
   */
  lemma FinishedResult(flat: Table, lost: seq<string>)
    requires Finished(flat, lost).Ok?
    ensures var r := Finished(flat, lost).value;
      r.lost == lost && r.data.columns == flat.columns &&
      multiset(r.data.records) == multiset(Repaired(flat).records) &&
      (forall c :: c in Selected ==> c in r.data.columns) &&
      (forall i, j :: 0 <= i < j < |r.data.records| ==>
        StrLe(TextOf(Get(r.data.records[i], CountryCol)), TextOf(Get(r.data.records[j], CountryCol)))) &&
      |r.features| == |r.data.records| &&
      (forall i :: 0 <= i < |r.features| ==> |r.features[i]| == |Selected|) &&
      (forall i, j :: 0 <= i < |r.features| && 0 <= j < |Selected| ==> r.features[i][j] == Get(r.data.records[i], Selected[j]))
  {
  }

  /**
   * The selected-column check raises `KeyError` naming the first selected column the joined
   * rows lack, and raises nothing when they have both.
   */
  lemma FinishedErrors(flat: Table, lost: seq<string>)
    ensures Finished(flat, lost).Err? <==> FirstAbsent(Selected, flat.columns).Some?
    ensures FirstAbsent(Selected, flat.columns).Some? ==>
      Finished(flat, lost) == Err(KeyError(FirstAbsent(Selected, flat.columns).value))
  {
  }

  /** Column `x` is Country or a column of one of the three tables. */
  predicate InSome(x: string, d: Table, g: Table, p: Table) {
    x == CountryCol || x in d.columns || x in g.columns || x in p.columns
  }

  /**
   * Once the three tables are canonicalised and can be joined, the merge fails exactly when a
   * selected column is in none of them, and then with a `KeyError` naming the first such column.
   */
  lemma MergeSelectedErrors(d: Table, g: Table, p: Table)
    requires AllCanon(d, g, p) && Join3(Indexed(d), Indexed(g), Indexed(p)).Ok?
    ensures MergeOf(d, g, p).Ok? <==> forall j :: 0 <= j < |Selected| ==> InSome(Selected[j], d, g, p)
    ensures MergeOf(d, g, p).Err? ==>
      exists j :: 0 <= j < |Selected| && !InSome(Selected[j], d, g, p) &&
        (forall h :: 0 <= h < j ==> InSome(Selected[h], d, g, p)) &&
        MergeOf(d, g, p) == Err(KeyError(Selected[j]))
  {
    var flat, lost := MergeFlat(d, g, p);
    FinishedErrors(flat, lost);
    SelectedAbsent(flat.columns, d, g, p);
  }

  /** The first selected column missing from `cols`, when `cols` are the columns of the inputs. */
  lemma SelectedAbsent(cols: seq<string>, d: Table, g: Table, p: Table)
    requires forall x :: x in cols <==> InSome(x, d, g, p)
    ensures FirstAbsent(Selected, cols).None? <==> forall j :: 0 <= j < |Selected| ==> InSome(Selected[j], d, g, p)
    ensures FirstAbsent(Selected, cols).Some? ==>
      exists j :: 0 <= j < |Selected| && !InSome(Selected[j], d, g, p) &&
        (forall h :: 0 <= h < j ==> InSome(Selected[h], d, g, p)) &&
        FirstAbsent(Selected, cols).value == Selected[j]
  {
    if FirstAbsent(Selected, cols).Some? {
      FirstAbsentIsFirst(Selected, cols);
    }
  }

  /** The joined, renumbered rows whose check decides the merge, and the columns they have. */
  lemma MergeFlat(d: Table, g: Table, p: Table) returns (flat: Table, lost: seq<string>)
    requires AllCanon(d, g, p) && Join3(Indexed(d), Indexed(g), Indexed(p)).Ok?
    ensures MergeOf(d, g, p) == Finished(flat, lost)
    ensures forall x :: x in flat.columns <==> InSome(x, d, g, p)
  {
    var (a, b, c) := (Indexed(d), Indexed(g), Indexed(p));
    JoinedColumns(d, g, p);
    flat, lost := CombinedFlat(a, b, c);
    assert MergeOf(d, g, p) == Combined(a, b, c);
  }

  /** The joined table has every column of the inputs except Country. */
  lemma JoinedColumns(d: Table, g: Table, p: Table)
    requires AllCanon(d, g, p) && Join3(Indexed(d), Indexed(g), Indexed(p)).Ok?
    ensures forall x :: x in Join3(Indexed(d), Indexed(g), Indexed(p)).value.columns <==> x != CountryCol && InSome(x, d, g, p)
  {
    IndexedColumns(d);
    IndexedColumns(g);
    IndexedColumns(p);
  }

  /** Once the join succeeds, renumbering it succeeds too and the check decides the result. */
  lemma CombinedFlat(a: Table, b: Table, c: Table) returns (flat: Table, lost: seq<string>)
    requires Join3(a, b, c).Ok? && CountryCol !in Join3(a, b, c).value.columns
    ensures Combined(a, b, c) == Finished(flat, lost)
    ensures flat.columns == [CountryCol] + Join3(a, b, c).value.columns
  {
    var m := Join3(a, b, c).value;
    flat := ResetIndex(m, CountryCol).value;
    lost := LostKeys(a, b, c, m);
  }

  /** The merged table's columns: Country, then every other column of the three tables. */
  lemma MergeColumns(d: Table, g: Table, p: Table)
    requires MergeOf(d, g, p).Ok?
    ensures forall x :: x in MergeOf(d, g, p).value.data.columns <==>
      x == CountryCol || x in d.columns || x in g.columns || x in p.columns
  {
    MergeStages(d, g, p);
    var (a, b, c) := (Indexed(d), Indexed(g), Indexed(p));
    CombinedStages(a, b, c);
    var m := Join3(a, b, c).value;
    FinishedResult(ResetIndex(m, CountryCol).value, LostKeys(a, b, c, m));
    IndexedColumns(d);
    IndexedColumns(g);
    IndexedColumns(p);
  }

  /**
   * A merge succeeds only if some input table has a "LifeExpectancy Both" column; the
   * demographics cleaner produces "Life Expectancy Both" instead.
   */
  lemma MergeNeedsLifeExpectancy(d: Table, g: Table, p: Table)
    ensures MergeOf(d, g, p).Ok? ==>
      "LifeExpectancy Both" in d.columns || "LifeExpectancy Both" in g.columns || "LifeExpectancy Both" in p.columns
  {
    if MergeOf(d, g, p).Ok? {
      MergeColumns(d, g, p);
      MergeStages(d, g, p);
      var (a, b, c) := (Indexed(d), Indexed(g), Indexed(p));
      CombinedStages(a, b, c);
      var m := Join3(a, b, c).value;
      FinishedResult(ResetIndex(m, CountryCol).value, LostKeys(a, b, c, m));
      assert "LifeExpectancy Both" in Selected;
    }
  }
}
