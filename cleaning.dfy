/**
 * The per-source cleaners: `clean_demographics`, `process_gdp_data` and
 * `process_population_data`. Each changes one column of the caller's frame in place and then
 * works on filtered copies; the side tables the source writes to CSV files are returned.
 */
module Cleaning {
  import opened Wrappers
  import opened Seqs
  import opened Strings
  import opened Stats
  import opened Frames
  import opened Impute
  import opened Names
  import opened Parse

  const CountryCol := "Country"
  const OriginalCol := "Original_Country"
  const LifeBoth := "Life Expectancy Both"
  const LifeFemale := "Life Expectancy Female"
  const LifeMale := "Life Expectancy Male"

  /** `cols_to_clean`. */
  const DemoColumns: seq<string> := [LifeBoth, LifeFemale, LifeMale,
    "UrbanPopulation Percentage", "UrbanPopulation Absolute", "Population Density"]

  lemma NameColumnsDiffer()
    ensures CountryCol != OriginalCol
  {
    assert |CountryCol| != |OriginalCol|;
  }

  /** The measured columns are neither of the two name columns. */
  lemma DemoColumnsAreMeasures()
    ensures CountryCol !in DemoColumns && OriginalCol !in DemoColumns
  {
    assert forall c :: c in DemoColumns ==> |c| > |OriginalCol| > |CountryCol|;
  }

  // ---------------------------------------------------------------- numeric coercion

  /** The longest prefix of `wanted` whose columns all exist: what the loop gets through. */
  function PresentPrefix(wanted: seq<string>, cols: seq<string>): (p: seq<string>)
    ensures |p| <= |wanted| && p == wanted[..|p|]
    ensures forall c :: c in p ==> c in cols
    ensures |p| < |wanted| ==> wanted[|p|] !in cols && FirstAbsent(wanted, cols) == Some(wanted[|p|])
    ensures |p| == |wanted| <==> FirstAbsent(wanted, cols).None?
  {
    if wanted == [] || wanted[0] !in cols then []
    else
      var rest := PresentPrefix(wanted[1..], cols);
      assert forall c :: c in [wanted[0]] + rest ==> c == wanted[0] || c in rest;
      [wanted[0]] + rest
  }

  /** `for col in cols: df[col] = pd.to_numeric(df[col], errors='coerce')`, as a fold. */
  function Coerce(t: Table, cols: seq<string>): (r: Table)
    ensures |r.records| == |t.records|
    ensures forall i :: 0 <= i < |t.records| ==> r.records[i].index == t.records[i].index
    ensures (forall c :: c in cols ==> c in t.columns) ==> r.columns == t.columns
  {
    if cols == [] then t
    else
      assert forall c :: c in cols[..|cols| - 1] ==> c in cols;
      MapCells(Coerce(t, cols[..|cols| - 1]), cols[|cols| - 1], ToNumeric)
  }

  lemma CoerceStep(t: Table, cols: seq<string>, k: nat)
    requires k < |cols|
    ensures Coerce(t, cols[..k + 1]) == MapCells(Coerce(t, cols[..k]), cols[k], ToNumeric)
  {
    assert cols[..k + 1][..k] == cols[..k];
  }

  lemma ToNumericIdempotent(v: Cell)
    ensures ToNumeric(ToNumeric(v)) == ToNumeric(v)
  {
  }

  /** Coercion reads every listed column once, however often it is listed, and nothing else. */
  lemma {:induction false} CoerceEffect(t: Table, cols: seq<string>, c: string, i: nat)
    requires i < |t.records|
    ensures Get(Coerce(t, cols).records[i], c) ==
      if c in cols then ToNumeric(Get(t.records[i], c)) else Get(t.records[i], c)
  {
    if cols != [] {
      var init := cols[..|cols| - 1];
      assert c in cols <==> c in init || c == cols[|cols| - 1];
      CoerceEffect(t, init, c, i);
      ToNumericIdempotent(Get(t.records[i], c));
    }
  }

  // ---------------------------------------------------------------- clean_demographics

  /** `(df[c] >= 40) & (df[c] <= 100)`. */
  predicate LifeInRange(x: Record, c: string) {
    Get(x, c).Num? && 40.0 <= Get(x, c).x <= 100.0
  }

  /** The four row selections of the cleaner. */
  predicate Complete(x: Record) {
    NoGapIn(x, DemoColumns)
  }

  predicate BothPlausible(x: Record) {
    LifeInRange(x, LifeBoth)
  }

  predicate FemalePlausible(x: Record) {
    LifeInRange(x, LifeFemale)
  }

  predicate MalePlausible(x: Record) {
    LifeInRange(x, LifeMale)
  }

  /** `dropna(subset=cols_to_clean)` followed by the three life-expectancy selections. */
  function Survivors(t: Table): (s: Table)
    ensures s.columns == t.columns
    ensures SubseqOf(s.records, t.records)
  {
    var complete := Filter(t, Complete);
    var both := Filter(complete, BothPlausible);
    var female := Filter(both, FemalePlausible);
    var male := Filter(female, MalePlausible);
    SubseqOfTransitive(female.records, both.records, complete.records);
    SubseqOfTransitive(female.records, complete.records, t.records);
    SubseqOfTransitive(male.records, female.records, t.records);
    male
  }

  /** The two tables the cleaner produces: the cleaned frame and the renamed names. */
  datatype Cleaned = Cleaned(data: Table, mismatches: Table)

  /** `df['Country'] != df['Original_Country']`. */
  predicate NameChanged(x: Record) {
    Get(x, CountryCol) != Get(x, OriginalCol)
  }

  /** `df[df['Country'] != df['Original_Country']][['Original_Country', 'Country']]`. */
  function Mismatches(named: Table): Table {
    Project(Filter(named, NameChanged), [OriginalCol, CountryCol])
  }

  /** `df['Original_Country'] = df['Country']`. */
  function Tag(s: Table): Table {
    AssignColumn(s, OriginalCol, Column(s, CountryCol))
  }

  /** `df['Country'] = df['Country'].apply(normalize_country)` after tagging. */
  function Named(s: Table): Result<Table> {
    MapText(Tag(s), CountryCol, NormalizeCountry)
  }

  /** Everything after the coercion loop, on copies. */
  function Tidy(t: Table): Result<Cleaned> {
    var s := Survivors(t);
    if CountryCol !in s.columns then Err(KeyError(CountryCol))
    else
      match Named(s)
      case Err(e) => Err(e)
      case Ok(named) => Ok(Cleaned(DropColumn(named, OriginalCol), Mismatches(named)))
  }

  /** `clean_demographics(df)`. */
  function CleanDemographicsOf(t: Table): Result<Cleaned> {
    match FirstAbsent(DemoColumns, t.columns)
    case Some(c) => Err(KeyError(c))
    case None => Tidy(Coerce(t, DemoColumns))
  }

  lemma CleanDemographicsCases(t: Table)
    ensures FirstAbsent(DemoColumns, t.columns).Some? ==>
      CleanDemographicsOf(t) == Err(KeyError(FirstAbsent(DemoColumns, t.columns).value))
    ensures FirstAbsent(DemoColumns, t.columns).None? ==> CleanDemographicsOf(t) == Tidy(Coerce(t, DemoColumns))
  {
  }

  /**
   * `for col in cols: df[col] = pd.to_numeric(df[col], errors='coerce')` on the caller's frame:
   * the columns are coerced in turn until one is absent, whose name is returned.
   */
  method CoerceColumns(df: Frame, cols: seq<string>) returns (absent: Option<string>)
    modifies df
    ensures absent == FirstAbsent(cols, old(df.columns))
    ensures df.Snapshot() == Coerce(old(df.Snapshot()), PresentPrefix(cols, old(df.columns)))
  {
    ghost var t0 := df.Snapshot();
    var k := 0;
    while k < |cols|
      invariant 0 <= k <= |cols|
      invariant forall j :: 0 <= j < k ==> cols[j] in t0.columns
      invariant df.columns == t0.columns
      invariant df.Snapshot() == Coerce(t0, cols[..k])
    {
      var c := cols[k];
      if c !in df.columns {
        PrefixUpTo(cols, t0.columns, k);
        return Some(c);
      }
      CoerceStep(t0, cols, k);
      df.Apply(c, ToNumeric);
      k := k + 1;
    }
    PrefixUpTo(cols, t0.columns, k);
    assert cols[..k] == cols;
    return None;
  }

  /**
   * `clean_demographics(df)`: coerces the six measured columns of the caller's frame in place
   * (stopping at the first absent one with a `KeyError`) and returns the cleaned copy.
   */
  method CleanDemographics(df: Frame) returns (r: Result<Cleaned>)
    modifies df
    ensures df.Snapshot() == Coerce(old(df.Snapshot()), PresentPrefix(DemoColumns, old(df.columns)))
    ensures r == CleanDemographicsOf(old(df.Snapshot()))
  {
    ghost var t0 := df.Snapshot();
    var absent := CoerceColumns(df, DemoColumns);
    if absent.Some? {
      CleanDemographicsCases(t0);
      return Err(KeyError(absent.value));
    }
    CoercedAll(t0);
    r := Tidy(df.Snapshot());
  }

  /** With all six columns present the loop coerces every one of them. */
  lemma CoercedAll(t: Table)
    requires FirstAbsent(DemoColumns, t.columns).None?
    ensures CleanDemographicsOf(t) == Tidy(Coerce(t, PresentPrefix(DemoColumns, t.columns)))
  {
    CleanDemographicsCases(t);
    PresentPrefixAll(DemoColumns, t.columns);
  }

  lemma PresentPrefixAll(wanted: seq<string>, cols: seq<string>)
    requires FirstAbsent(wanted, cols).None?
    ensures PresentPrefix(wanted, cols) == wanted
  {
    assert wanted[..|wanted|] == wanted;
  }

  /** The loop stopped at `k`: the columns before it exist and the one at `k`, if any, does not. */
  lemma PrefixUpTo(wanted: seq<string>, cols: seq<string>, k: nat)
    requires k <= |wanted| && forall j :: 0 <= j < k ==> wanted[j] in cols
    requires k < |wanted| ==> wanted[k] !in cols
    ensures PresentPrefix(wanted, cols) == wanted[..k]
  {
  }

  /** The survivors of the coerced table hold numbers in all six columns and plausible life expectancies. */
  lemma SurvivorsValid(t: Table, j: nat)
    requires j < |Survivors(Coerce(t, DemoColumns)).records|
    ensures var x := Survivors(Coerce(t, DemoColumns)).records[j];
      (forall c :: c in DemoColumns ==> Get(x, c).Num?) &&
      LifeInRange(x, LifeBoth) && LifeInRange(x, LifeFemale) && LifeInRange(x, LifeMale)
  {
    var u := Coerce(t, DemoColumns);
    var x := Survivors(u).records[j];
    SurvivorPassed(u, j);
    var i :| 0 <= i < |u.records| && u.records[i] == x;
    forall c | c in DemoColumns ensures Get(x, c).Num? {
      CoerceEffect(t, DemoColumns, c, i);
    }
  }

  /** A survivor is a row of the table that passed every selection. */
  lemma SurvivorPassed(u: Table, j: nat)
    requires j < |Survivors(u).records|
    ensures var x := Survivors(u).records[j];
      x in u.records && NoGapIn(x, DemoColumns) &&
      LifeInRange(x, LifeBoth) && LifeInRange(x, LifeFemale) && LifeInRange(x, LifeMale)
  {
    var complete := Filter(u, Complete);
    var both := Filter(complete, BothPlausible);
    var female := Filter(both, FemalePlausible);
    var male := Filter(female, MalePlausible);
    FilterMembers(u, Complete);
    FilterMembers(complete, BothPlausible);
    FilterMembers(both, FemalePlausible);
    FilterMembers(female, MalePlausible);
    assert male.records[j] in male.records;
  }

  /** `apply(normalize_country)` succeeded: every name was a string, and each is normalised in place. */
  lemma NormalizedRows(d: Table, j: nat)
    requires MapText(d, CountryCol, NormalizeCountry).Ok? && j < |d.records|
    ensures |MapText(d, CountryCol, NormalizeCountry).value.records| == |d.records|
    ensures Get(d.records[j], CountryCol).Text?
    ensures Get(MapText(d, CountryCol, NormalizeCountry).value.records[j], CountryCol) ==
      Text(NormalizeCountry(TextOf(Get(d.records[j], CountryCol))))
  {
    assert Column(d, CountryCol)[j] == Get(d.records[j], CountryCol);
  }

  /** The tagged and renamed row `j`: the original name is kept beside the normalised one. */
  lemma NamedRows(s: Table, j: nat)
    requires Named(s).Ok? && j < |s.records|
    ensures |Named(s).value.records| == |s.records|
    ensures var n := Named(s).value.records[j];
      Get(s.records[j], CountryCol).Text? &&
      n.index == s.records[j].index &&
      Get(n, CountryCol) == Text(NormalizeCountry(TextOf(Get(s.records[j], CountryCol)))) &&
      Get(n, OriginalCol) == Get(s.records[j], CountryCol) &&
      forall d :: d != CountryCol && d != OriginalCol ==> Get(n, d) == Get(s.records[j], d)
  {
    NameColumnsDiffer();
    NormalizedRows(Tag(s), j);
  }

  /** The rows `Tidy` returns are the survivors, renamed, without the `Original_Country` column. */
  lemma TidyRows(u: Table, j: nat)
    requires Tidy(u).Ok? && j < |Survivors(u).records|
    ensures var s := Survivors(u);
      var out := Tidy(u).value.data;
      |out.records| == |s.records| && OriginalCol !in out.columns &&
      out.records[j].index == s.records[j].index &&
      Get(out.records[j], CountryCol) == Text(NormalizeCountry(TextOf(Get(s.records[j], CountryCol))))
  {
    NamedRows(Survivors(u), j);
  }

  lemma TidySize(u: Table)
    requires Tidy(u).Ok?
    ensures |Tidy(u).value.data.records| == |Survivors(u).records|
  {
    assert |Tag(Survivors(u)).records| == |Survivors(u).records|;
  }

  /** Every other cell of a survivor is returned as it was. */
  lemma TidyCell(u: Table, j: nat, d: string)
    requires Tidy(u).Ok? && j < |Survivors(u).records| && d != CountryCol && d != OriginalCol
    ensures Get(Tidy(u).value.data.records[j], d) == Get(Survivors(u).records[j], d)
  {
    NamedRows(Survivors(u), j);
  }

  /** `Tidy` keeps the survivors' labels, in order. */
  lemma TidyLabels(u: Table)
    requires Tidy(u).Ok?
    ensures Labels(Tidy(u).value.data) == Labels(Survivors(u))
  {
    var s := Survivors(u);
    var named := Named(s).value;
    SameLabels(Tag(s), s);
    SameLabels(named, Tag(s));
    SameLabels(DropColumn(named, OriginalCol), named);
  }

  /**
   * Every row `clean_demographics` returns is the survivor at the same position, with its label
   * kept (no re-indexing), its name normalised and no `Original_Country` column.
   */
  lemma DemographicsRows(t: Table, j: nat)
    requires CleanDemographicsOf(t).Ok?
    requires j < |Survivors(Coerce(t, DemoColumns)).records|
    ensures var s := Survivors(Coerce(t, DemoColumns));
      var out := CleanDemographicsOf(t).value.data;
      |out.records| == |s.records| && OriginalCol !in out.columns &&
      out.records[j].index == s.records[j].index &&
      Get(out.records[j], CountryCol) == Text(NormalizeCountry(TextOf(Get(s.records[j], CountryCol))))
  {
    CleanDemographicsCases(t);
    TidyRows(Coerce(t, DemoColumns), j);
  }

  /** Every row `clean_demographics` returns holds numbers in the six cleaned columns. */
  lemma DemographicsNumeric(t: Table, j: nat, c: string)
    requires CleanDemographicsOf(t).Ok?
    requires j < |Survivors(Coerce(t, DemoColumns)).records| && c in DemoColumns
    ensures j < |CleanDemographicsOf(t).value.data.records|
    ensures Get(CleanDemographicsOf(t).value.data.records[j], c).Num?
  {
    var u := Coerce(t, DemoColumns);
    CleanDemographicsCases(t);
    TidySize(u);
    DemoColumnsAreMeasures();
    TidyCell(u, j, c);
    SurvivorsValid(t, j);
  }

  /** Every row `clean_demographics` returns holds life expectancies in [40, 100]. */
  lemma DemographicsInRange(t: Table, j: nat)
    requires CleanDemographicsOf(t).Ok?
    requires j < |Survivors(Coerce(t, DemoColumns)).records|
    ensures j < |CleanDemographicsOf(t).value.data.records|
    ensures var x := CleanDemographicsOf(t).value.data.records[j];
      LifeInRange(x, LifeBoth) && LifeInRange(x, LifeFemale) && LifeInRange(x, LifeMale)
  {
    var u := Coerce(t, DemoColumns);
    CleanDemographicsCases(t);
    TidySize(u);
    DemoColumnsAreMeasures();
    TidyCell(u, j, LifeBoth);
    TidyCell(u, j, LifeFemale);
    TidyCell(u, j, LifeMale);
    SurvivorsValid(t, j);
  }

  /** Survivors keep their input order: their labels are a subsequence of the input's. */
  lemma DemographicsKeepsOrder(t: Table)
    requires CleanDemographicsOf(t).Ok?
    ensures SubseqOf(Labels(CleanDemographicsOf(t).value.data), Labels(t))
  {
    var u := Coerce(t, DemoColumns);
    CleanDemographicsCases(t);
    SubseqOfMap(Survivors(u).records, u.records, (x: Record) => x.index);
    assert Labels(u) == Labels(t);
    TidyLabels(u);
  }

  /** One row of the mismatches table, as an (original, normalised) pair. */
  function NamePair(x: Record): (string, string) {
    (TextOf(Get(x, OriginalCol)), TextOf(Get(x, CountryCol)))
  }

  /** Every survivor's name with its normalisation, in order. */
  function Renamings(s: Table): seq<(string, string)> {
    MapSeq(s.records, (x: Record) => (TextOf(Get(x, CountryCol)), NormalizeCountry(TextOf(Get(x, CountryCol)))))
  }

  /** An (original, normalised) pair whose two names differ. */
  predicate Renamed(p: (string, string)) {
    p.0 != p.1
  }

  /** The renamed table's name pairs are the survivors' renamings; a row changed iff its pair differs. */
  lemma NamedPairs(s: Table)
    requires Named(s).Ok?
    ensures var named := Named(s).value;
      MapSeq(named.records, NamePair) == Renamings(s) &&
      forall j :: 0 <= j < |named.records| ==> NameChanged(named.records[j]) == Renamed(NamePair(named.records[j]))
  {
    var named := Named(s).value;
    forall j | 0 <= j < |s.records|
      ensures j < |named.records|
      ensures NamePair(named.records[j]) == Renamings(s)[j]
      ensures NameChanged(named.records[j]) == Renamed(NamePair(named.records[j]))
    {
      NamedRows(s, j);
    }
    assert |named.records| == |s.records| by {
      if s.records != [] {
        NamedRows(s, 0);
      }
    }
  }

  /** The mismatches of a renamed table are its (original, normalised) pairs that differ. */
  lemma NamedMismatches(s: Table)
    requires Named(s).Ok?
    ensures var m := Mismatches(Named(s).value);
      m.columns == [OriginalCol, CountryCol] && MapSeq(m.records, NamePair) == Where(Renamings(s), Renamed)
  {
    var named := Named(s).value;
    NamedPairs(s);
    WhereMap(named.records, NamePair, Renamed, NameChanged);
    MismatchPairs(named);
  }

  /** The projection keeps both name columns, so it keeps every selected row's pair. */
  lemma MismatchPairs(named: Table)
    ensures Mismatches(named).columns == [OriginalCol, CountryCol]
    ensures MapSeq(Mismatches(named).records, NamePair) == MapSeq(Where(named.records, NameChanged), NamePair)
  {
    var f := Filter(named, NameChanged);
    assert forall j :: 0 <= j < |f.records| ==> NamePair(Mismatches(named).records[j]) == NamePair(f.records[j]);
  }

  /**
   * The mismatches table lists, in order, exactly the survivors whose normalised name differs
   * from the original, as (original, normalised) pairs under those two column names.
   */
  lemma MismatchesExact(t: Table)
    requires CleanDemographicsOf(t).Ok?
    ensures var m := CleanDemographicsOf(t).value.mismatches;
      m.columns == [OriginalCol, CountryCol] &&
      MapSeq(m.records, NamePair) == Where(Renamings(Survivors(Coerce(t, DemoColumns))), Renamed)
  {
    CleanDemographicsCases(t);
    NamedMismatches(Survivors(Coerce(t, DemoColumns)));
  }

  // ---------------------------------------------------------------- process_gdp_data / process_population_data

  const GdpCol := "GDP_per_capita_PPP"
  const PopCol := "Population"
  const LogPopCol := "Log_Population"

  /** The four tables a source cleaner returns. */
  datatype Split = Split(data: Table, outliers: Table, missing: Table, duplicates: Table)

  /** `df[df[c].isna()]`. */
  function MissingIn(t: Table, c: string): Table {
    Filter(t, (x: Record) => Get(x, c) == Missing)
  }

  /** `df.dropna(subset=[c])`. */
  function PresentIn(t: Table, c: string): Table {
    Filter(t, (x: Record) => Get(x, c) != Missing)
  }

  /** The missing and the kept rows partition the table. */
  lemma SplitByGap(t: Table, c: string)
    ensures multiset(MissingIn(t, c).records) + multiset(PresentIn(t, c).records) == multiset(t.records)
    ensures forall x :: x in MissingIn(t, c).records <==> x in t.records && Get(x, c) == Missing
    ensures forall x :: x in PresentIn(t, c).records <==> x in t.records && Get(x, c) != Missing
  {
    var gap := (x: Record) => Get(x, c) == Missing;
    var kept := (x: Record) => Get(x, c) != Missing;
    WherePartition(t.records, kept, gap);
    WhereMembers(t.records, gap);
    WhereMembers(t.records, kept);
  }

  /** `df[(df[c] < lower_bound) | (df[c] > upper_bound)]`: a gap compares false. */
  function Outliers(t: Table, c: string, f: Option<(real, real)>): Table {
    Filter(t, (x: Record) => Get(x, c).Num? && OutsideFences(f, Get(x, c).x))
  }

  /** The Tukey fences of the observed values of column `c` (`quantile` skips gaps). */
  function ColumnFences(t: Table, c: string): Option<(real, real)> {
    Fences(Observed(Column(t, c)))
  }

  /** Outliers are exactly the rows whose value lies strictly outside the fences; none is removed. */
  lemma OutliersExact(t: Table, c: string)
    ensures var o := Outliers(t, c, ColumnFences(t, c));
      SubseqOf(o.records, t.records) &&
      forall x :: x in o.records <==> x in t.records && Get(x, c).Num? && OutsideFences(ColumnFences(t, c), Get(x, c).x)
  {
    WhereMembers(t.records, (x: Record) => Get(x, c).Num? && OutsideFences(ColumnFences(t, c), Get(x, c).x));
  }

  /** A column with an observed value has real fences, the lower one below the upper one. */
  lemma ColumnFencesOrdered(t: Table, c: string, i: nat)
    requires i < |t.records| && Get(t.records[i], c).Num?
    ensures ColumnFences(t, c).Some? && ColumnFences(t, c).value.0 <= ColumnFences(t, c).value.1
  {
    ObservedEmpty(Column(t, c), i);
    FencesOrdered(Observed(Column(t, c)));
  }

  /** `df[c] = df[c].apply(clean_df)` on the caller's frame. */
  function CleanColumn(t: Table, c: string): Table {
    MapCells(t, c, CleanCell)
  }

  /** After `apply(clean_df)` the column holds gaps and non-negative numbers only. */
  lemma CleanColumnValues(t: Table, c: string, i: nat)
    requires i < |t.records|
    ensures var v := Get(CleanColumn(t, c).records[i], c);
      v == CleanCell(Get(t.records[i], c)) && (v == Missing || (v.Num? && v.x >= 0.0))
  {
  }

  /** `drop_duplicates(subset='Country', keep='first')`, run only when duplicates were found. */
  function Dedup(t: Table, dups: Table): Table {
    if dups.records != [] then KeepFirstBy(t, CountryCol) else t
  }

  /** Deduplication leaves the name column unique and keeps the first row of every name. */
  lemma DedupUnique(t: Table)
    ensures var d := Dedup(t, Duplicates(t, CountryCol));
      d.columns == t.columns && SubseqOf(d.records, t.records) &&
      DistinctKeys(d.records, (x: Record) => Get(x, CountryCol)) &&
      forall i :: 0 <= i < |t.records| && FirstOfKey(t.records, (x: Record) => Get(x, CountryCol), i) ==>
        t.records[i] in d.records
  {
    if Duplicates(t, CountryCol).records == [] {
      DuplicatesEmptyIffDistinct(t, CountryCol);
      KeepFirstNoop(t.records, (x: Record) => Get(x, CountryCol));
    }
  }

  /** The stages of `process_gdp_data` on a frame with a GDP column. */
  function GdpKept(t: Table): Table {
    PresentIn(CleanColumn(t, GdpCol), GdpCol)
  }

  /** `process_gdp_data(df_gdp)`: clean, split off gaps, flag outliers, normalise names, dedup. */
  function ProcessGdpOf(t: Table): Result<Split> {
    if GdpCol !in t.columns then Err(KeyError(GdpCol))
    else
      var cleaned := CleanColumn(t, GdpCol);
      var missing := MissingIn(cleaned, GdpCol);
      var kept := PresentIn(cleaned, GdpCol);
      var outliers := Outliers(kept, GdpCol, ColumnFences(kept, GdpCol));
      match MapText(kept, CountryCol, NormalizeCountry)
      case Err(e) => Err(e)
      case Ok(named) =>
        var dups := Duplicates(named, CountryCol);
        Ok(Split(Dedup(named, dups), outliers, missing, dups))
  }

  /** `process_gdp_data`: the caller's GDP column is cleaned in place, the rest works on copies. */
  method ProcessGdp(df: Frame) returns (r: Result<Split>)
    modifies df
    ensures GdpCol in old(df.columns) ==> df.Snapshot() == CleanColumn(old(df.Snapshot()), GdpCol)
    ensures GdpCol !in old(df.columns) ==> df.Snapshot() == old(df.Snapshot())
    ensures r == ProcessGdpOf(old(df.Snapshot()))
  {
    if GdpCol !in df.columns {
      return Err(KeyError(GdpCol));
    }
    var t0 := df.Snapshot();
    df.Apply(GdpCol, CleanCell);
    assert df.Snapshot() == CleanColumn(t0, GdpCol);
    r := ProcessGdpOf(t0);
  }

  /**
   * `process_gdp_data` splits the cleaned rows into `missing_gdp` and the kept rows by whether
   * the cleaned value is a gap; the kept values are non-negative numbers.
   */
  lemma GdpSplit(t: Table)
    requires ProcessGdpOf(t).Ok?
    ensures var r := ProcessGdpOf(t).value;
      multiset(r.missing.records) + multiset(GdpKept(t).records) == multiset(CleanColumn(t, GdpCol).records) &&
      (forall x :: x in r.missing.records ==> Get(x, GdpCol) == Missing) &&
      (forall x :: x in GdpKept(t).records ==> Get(x, GdpCol).Num? && Get(x, GdpCol).x >= 0.0)
  {
    var cleaned := CleanColumn(t, GdpCol);
    assert ProcessGdpOf(t).value.missing == MissingIn(cleaned, GdpCol);
    SplitByGap(cleaned, GdpCol);
    CleanedValues(t, GdpCol);
  }

  /** After `apply(clean_df)` every cell of the column is a gap or a non-negative number. */
  lemma CleanedValues(t: Table, c: string)
    ensures forall x :: x in CleanColumn(t, c).records ==> Get(x, c) == Missing || (Get(x, c).Num? && Get(x, c).x >= 0.0)
  {
    var cleaned := CleanColumn(t, c);
    forall x | x in cleaned.records ensures Get(x, c) == Missing || (Get(x, c).Num? && Get(x, c).x >= 0.0) {
      var i :| 0 <= i < |cleaned.records| && cleaned.records[i] == x;
      CleanColumnValues(t, c, i);
    }
  }

  /**
   * The GDP outliers are exactly the kept rows strictly outside the Tukey fences of the kept
   * values, the fences are ordered when a value was kept, and no outlier is removed.
   */
  lemma GdpOutliers(t: Table)
    requires ProcessGdpOf(t).Ok?
    ensures var k := GdpKept(t);
      var o := ProcessGdpOf(t).value.outliers;
      SubseqOf(o.records, k.records) &&
      (forall x :: x in o.records <==>
        (x in k.records && Get(x, GdpCol).Num? && OutsideFences(ColumnFences(k, GdpCol), Get(x, GdpCol).x))) &&
      (k.records != [] ==> ColumnFences(k, GdpCol).Some? && ColumnFences(k, GdpCol).value.0 <= ColumnFences(k, GdpCol).value.1)
  {
    var k := GdpKept(t);
    GdpSplit(t);
    OutliersExact(k, GdpCol);
    if k.records != [] {
      assert k.records[0] in k.records;
      ColumnFencesOrdered(k, GdpCol, 0);
    }
  }

  /**
   * The GDP names are normalised before deduplication: `duplicates` holds exactly the rows
   * sharing their normalised name with another row, and the returned names are unique.
   */
  lemma GdpDuplicates(t: Table)
    requires ProcessGdpOf(t).Ok?
    ensures var named := MapText(GdpKept(t), CountryCol, NormalizeCountry).value;
      var r := ProcessGdpOf(t).value;
      DistinctKeys(r.data.records, (x: Record) => Get(x, CountryCol)) &&
      SubseqOf(r.data.records, named.records) &&
      (forall i :: 0 <= i < |named.records| ==>
        (named.records[i] in r.duplicates.records <==>
          exists j :: 0 <= j < |named.records| && j != i && Get(named.records[j], CountryCol) == Get(named.records[i], CountryCol)))
  {
    var named := MapText(GdpKept(t), CountryCol, NormalizeCountry).value;
    DedupUnique(named);
    forall i | 0 <= i < |named.records| {
      DuplicatesCharacterized(named, CountryCol, i);
    }
  }

  /** `math.log10(x) if x > 0 else None`, the logarithm a parameter. */
  function LogCell(log10: real -> real, v: Cell): Cell {
    if v.Num? && v.x > 0.0 then Num(log10(v.x)) else Missing
  }

  /** The kept population rows with their `Log_Population` column. */
  function PopLogged(t: Table, log10: real -> real): Table {
    var kept := PresentIn(CleanColumn(t, PopCol), PopCol);
    AssignColumn(kept, LogPopCol, seq(|kept.records|, i requires 0 <= i < |kept.records| =>
      LogCell(log10, Get(kept.records[i], PopCol))))
  }

  /** The population rows after deduplication on the raw names, before they are normalised. */
  function PopDeduped(t: Table, log10: real -> real): Table {
    var logged := PopLogged(t, log10);
    Dedup(logged, Duplicates(logged, CountryCol))
  }

  /**
   * `process_population_data(df_pop)`: clean, split off gaps, flag outliers on the logarithm,
   * dedup on the raw names, then normalise them.
   */
  function ProcessPopulationOf(t: Table, log10: real -> real): Result<Split> {
    if PopCol !in t.columns then Err(KeyError(PopCol))
    else
      var cleaned := CleanColumn(t, PopCol);
      var logged := PopLogged(t, log10);
      var outliers := Outliers(logged, LogPopCol, ColumnFences(logged, LogPopCol));
      if CountryCol !in logged.columns then Err(KeyError(CountryCol))
      else
        var dups := Duplicates(logged, CountryCol);
        match MapText(Dedup(logged, dups), CountryCol, NormalizeCountry)
        case Err(e) => Err(e)
        case Ok(named) => Ok(Split(named, outliers, MissingIn(cleaned, PopCol), dups))
  }

  /** `process_population_data`: the caller's population column is cleaned in place. */
  method ProcessPopulation(df: Frame, log10: real -> real) returns (r: Result<Split>)
    modifies df
    ensures PopCol in old(df.columns) ==> df.Snapshot() == CleanColumn(old(df.Snapshot()), PopCol)
    ensures PopCol !in old(df.columns) ==> df.Snapshot() == old(df.Snapshot())
    ensures r == ProcessPopulationOf(old(df.Snapshot()), log10)
  {
    if PopCol !in df.columns {
      return Err(KeyError(PopCol));
    }
    var t0 := df.Snapshot();
    df.Apply(PopCol, CleanCell);
    assert df.Snapshot() == CleanColumn(t0, PopCol);
    r := ProcessPopulationOf(t0, log10);
  }

  /**
   * The population outliers are exactly the kept rows whose logarithm lies strictly outside
   * the fences of the observed logarithms; a population of zero has no logarithm and is never one.
   */
  lemma PopulationOutliers(t: Table, log10: real -> real)
    requires ProcessPopulationOf(t, log10).Ok?
    ensures var l := PopLogged(t, log10);
      var o := ProcessPopulationOf(t, log10).value.outliers;
      SubseqOf(o.records, l.records) &&
      (forall x :: x in o.records <==>
        (x in l.records && Get(x, LogPopCol).Num? && OutsideFences(ColumnFences(l, LogPopCol), Get(x, LogPopCol).x))) &&
      (forall x :: x in o.records ==> Get(x, PopCol).Num? && Get(x, PopCol).x > 0.0)
  {
    var l := PopLogged(t, log10);
    OutliersExact(l, LogPopCol);
    LoggedPositive(t, log10);
  }

  /** A population row has a logarithm only when its population is a positive number. */
  lemma LoggedPositive(t: Table, log10: real -> real)
    ensures forall x :: x in PopLogged(t, log10).records && Get(x, LogPopCol).Num? ==>
      Get(x, PopCol).Num? && Get(x, PopCol).x > 0.0
  {
    var kept := PresentIn(CleanColumn(t, PopCol), PopCol);
    var l := PopLogged(t, log10);
    assert |LogPopCol| != |PopCol|;
    forall x | x in l.records && Get(x, LogPopCol).Num? ensures Get(x, PopCol).Num? && Get(x, PopCol).x > 0.0 {
      var i :| 0 <= i < |l.records| && l.records[i] == x;
      assert Get(x, LogPopCol) == LogCell(log10, Get(kept.records[i], PopCol));
      assert Get(x, PopCol) == Get(kept.records[i], PopCol);
    }
  }

  /**
   * The population rows are deduplicated on their raw names and normalised afterwards: the
   * raw names are unique, and each returned name is the normalisation of the raw name at the
   * same position.
   */
  lemma PopulationNames(t: Table, log10: real -> real)
    requires ProcessPopulationOf(t, log10).Ok?
    ensures var d := PopDeduped(t, log10);
      var out := ProcessPopulationOf(t, log10).value.data;
      DistinctKeys(d.records, (x: Record) => Get(x, CountryCol)) &&
      |out.records| == |d.records| &&
      forall j :: 0 <= j < |d.records| ==>
        Get(d.records[j], CountryCol).Text? &&
        Get(out.records[j], CountryCol) == Text(NormalizeCountry(TextOf(Get(d.records[j], CountryCol))))
  {
    var d := PopDeduped(t, log10);
    assert ProcessPopulationOf(t, log10).value.data == MapText(d, CountryCol, NormalizeCountry).value;
    DedupUnique(PopLogged(t, log10));
    if d.records != [] {
      NormalizedRows(d, 0);
    }
    forall j | 0 <= j < |d.records| ensures Get(d.records[j], CountryCol).Text? &&
      Get(MapText(d, CountryCol, NormalizeCountry).value.records[j], CountryCol) == Text(NormalizeCountry(TextOf(Get(d.records[j], CountryCol))))
    {
      NormalizedRows(d, j);
    }
  }

  /**
   * So two raw names that normalise alike both survive and collide afterwards: the returned
   * population names need not be unique.
   */
  lemma PopulationNamesCollide(t: Table, log10: real -> real, i: nat, j: nat)
    requires ProcessPopulationOf(t, log10).Ok?
    requires i < j < |PopDeduped(t, log10).records|
    requires NormalizeCountry(TextOf(Get(PopDeduped(t, log10).records[i], CountryCol))) ==
             NormalizeCountry(TextOf(Get(PopDeduped(t, log10).records[j], CountryCol)))
    ensures !DistinctKeys(ProcessPopulationOf(t, log10).value.data.records, (x: Record) => Get(x, CountryCol))
  {
    PopulationNames(t, log10);
  }

  /** Two distinct raw names that normalise alike, as in a source listing both "chad" and "Chad". */
  lemma ChadCollides()
    ensures "chad" != "Chad" && NormalizeCountry("chad") == NormalizeCountry("Chad") == "Chad"
  {
    NormalizeNoArticle("chad");
    NormalizeNoArticle("Chad");
    TitleChad();
    TitleIdempotent("chad");
  }
}
