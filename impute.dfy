/**
 * Missing-value handling after a join: every numeric column with gaps has them filled with
 * the mean of its observed values, then rows with a gap in a non-numeric column are dropped.
 */
module Impute {
  import opened Wrappers
  import opened Seqs
  import opened Stats
  import opened Frames

  /** The observed numbers of a column, in order — what `Series.mean()` averages. */
  function Observed(v: seq<Cell>): (xs: seq<real>)
    ensures |xs| <= |v|
  {
    if v == [] then []
    else if v[0].Num? then [v[0].x] + Observed(v[1..])
    else Observed(v[1..])
  }

  lemma {:induction false} ObservedEmpty(v: seq<Cell>, i: nat)
    requires i < |v| && v[i].Num?
    ensures Observed(v) != []
  {
    if i > 0 && !v[0].Num? {
      ObservedEmpty(v[1..], i - 1);
    }
  }

  /** The observed values are exactly the numbers the column holds. */
  lemma {:induction false} ObservedMembers(v: seq<Cell>)
    ensures forall x :: x in Observed(v) <==> exists i :: 0 <= i < |v| && v[i] == Num(x)
  {
    if v != [] {
      ObservedMembers(v[1..]);
      forall x | x in Observed(v) ensures exists i :: 0 <= i < |v| && v[i] == Num(x) {
        if !(v[0].Num? && x == v[0].x) {
          var i :| 0 <= i < |v[1..]| && v[1..][i] == Num(x);
          assert v[i + 1] == Num(x);
        }
      }
      forall x | exists i :: 0 <= i < |v| && v[i] == Num(x) ensures x in Observed(v) {
        var i :| 0 <= i < |v| && v[i] == Num(x);
        if i > 0 {
          assert v[1..][i - 1] == Num(x);
        }
      }
    }
  }

  /**
   * The dtype test `select_dtypes(include=[np.number])`, read off the cells: a column is
   * numeric when it holds no string.
   */
  predicate IsNumeric(v: seq<Cell>) {
    forall i :: 0 <= i < |v| ==> !v[i].Text?
  }

  predicate HasMissing(v: seq<Cell>) {
    exists i :: 0 <= i < |v| && v[i] == Missing
  }

  function NumericColumns(t: Table): (cs: seq<string>)
    ensures forall c :: c in cs <==> c in t.columns && IsNumeric(Column(t, c))
  {
    WhereMembers(t.columns, (c: string) => IsNumeric(Column(t, c)));
    Where(t.columns, (c: string) => IsNumeric(Column(t, c)))
  }

  function TextColumns(t: Table): (cs: seq<string>)
    ensures forall c :: c in cs <==> c in t.columns && !IsNumeric(Column(t, c))
  {
    WhereMembers(t.columns, (c: string) => !IsNumeric(Column(t, c)));
    Where(t.columns, (c: string) => !IsNumeric(Column(t, c)))
  }

  /** The value a gap in column `c` receives. */
  function FillValue(t: Table, c: string, i: nat): Cell
    requires i < |t.records|
  {
    var obs := Observed(Column(t, c));
    if Get(t.records[i], c) == Missing && obs != [] then Num(Mean(obs)) else Get(t.records[i], c)
  }

  /** `df[c].fillna(df[c].mean(), inplace=True)`; the mean of no values is NaN, which fills nothing. */
  function FillMean(t: Table, c: string): (r: Table)
    requires c in t.columns
    ensures r.columns == t.columns && |r.records| == |t.records|
    ensures forall i :: 0 <= i < |t.records| ==> r.records[i].index == t.records[i].index
    ensures forall i :: 0 <= i < |t.records| ==> Get(r.records[i], c) == FillValue(t, c, i)
    ensures forall i, d :: 0 <= i < |t.records| && d != c ==> Get(r.records[i], d) == Get(t.records[i], d)
  {
    AssignColumn(t, c, seq(|t.records|, i requires 0 <= i < |t.records| => FillValue(t, c, i)))
  }

  /** One pass of the loop: only columns that have a gap are filled. */
  function FillStep(t: Table, c: string): Table
    requires c in t.columns
  {
    if HasMissing(Column(t, c)) then FillMean(t, c) else t
  }

  /** The fill loop over `cols`, as a fold from the left. */
  function ImputeColumns(t: Table, cols: seq<string>): (r: Table)
    requires forall c :: c in cols ==> c in t.columns
    ensures r.columns == t.columns && |r.records| == |t.records|
    ensures forall i :: 0 <= i < |t.records| ==> r.records[i].index == t.records[i].index
  {
    if cols == [] then t
    else
      var init := cols[..|cols| - 1];
      assert forall c :: c in init ==> c in cols;
      FillStep(ImputeColumns(t, init), cols[|cols| - 1])
  }

  /**
   * Imputation touches only gaps: in every listed column each gap becomes the mean of the
   * column's observed values (when it has any) and every observed value stays; other columns
   * are unchanged.
   */
  lemma {:induction false} ImputeEffect(t: Table, cols: seq<string>, c: string)
    requires forall d :: d in cols ==> d in t.columns
    ensures forall i :: 0 <= i < |t.records| ==>
      Get(ImputeColumns(t, cols).records[i], c) == (if c in cols then FillValue(t, c, i) else Get(t.records[i], c))
  {
    if cols != [] {
      var init := cols[..|cols| - 1];
      var last := cols[|cols| - 1];
      assert forall d :: d in init ==> d in cols;
      assert c in cols <==> c in init || c == last;
      var mid := ImputeColumns(t, init);
      ImputeEffect(t, init, c);
      if c == last {
        var obs := Observed(Column(t, c));
        if c in init || obs == [] {
          // The column is already filled, or has nothing to fill it with: this pass changes nothing.
          forall i | 0 <= i < |t.records| ensures Get(FillStep(mid, c).records[i], c) == FillValue(t, c, i) {
            if HasMissing(Column(mid, c)) {
              var h :| 0 <= h < |mid.records| && Column(mid, c)[h] == Missing;
              if obs != [] {
                assert false;
              }
              assert Column(mid, c) == Column(t, c);
            }
          }
        } else {
          assert Column(mid, c) == Column(t, c);
        }
      }
    }
  }

  /** `for col in numeric_cols: if df[col].isnull().any(): df[col].fillna(df[col].mean(), inplace=True)`. */
  method ImputeNumeric(t: Table) returns (r: Table)
    ensures r == ImputeColumns(t, NumericColumns(t))
  {
    var cols := NumericColumns(t);
    r := t;
    var k := 0;
    while k < |cols|
      invariant 0 <= k <= |cols|
      invariant r == ImputeColumns(t, cols[..k])
    {
      ImputeColumnsStep(t, cols, k);
      if HasMissing(Column(r, cols[k])) {
        r := FillMean(r, cols[k]);
      }
      k := k + 1;
    }
    assert cols[..k] == cols;
  }

  /** One more pass of the loop extends the fold by one column. */
  lemma ImputeColumnsStep(t: Table, cols: seq<string>, k: nat)
    requires k < |cols| && forall c :: c in cols ==> c in t.columns
    ensures cols[k] in ImputeColumns(t, cols[..k]).columns
    ensures ImputeColumns(t, cols[..k + 1]) == FillStep(ImputeColumns(t, cols[..k]), cols[k])
  {
    assert cols[..k + 1][..k] == cols[..k];
    assert forall c :: c in cols[..k] ==> c in cols;
  }

  /** After imputation a numeric column with an observed value has no gap. */
  lemma ImputeFillsNumeric(t: Table, c: string, i: nat)
    requires c in NumericColumns(t) && i < |t.records|
    requires Observed(Column(t, c)) != []
    ensures Get(ImputeColumns(t, NumericColumns(t)).records[i], c) != Missing
  {
    ImputeEffect(t, NumericColumns(t), c);
  }

  // ---------------------------------------------------------------- categorical gaps

  predicate NoGapIn(r: Record, cols: seq<string>) {
    forall c :: c in cols ==> Get(r, c) != Missing
  }

  /** `df.dropna(subset=cats)`: the rows with no gap in any of `cats`. */
  function DropGaps(t: Table, cats: seq<string>): (r: Table)
    ensures r.columns == t.columns
    ensures SubseqOf(r.records, t.records)
    ensures forall i, c :: 0 <= i < |r.records| && c in cats ==> Get(r.records[i], c) != Missing
  {
    var r := Filter(t, (x: Record) => NoGapIn(x, cats));
    assert forall i :: 0 <= i < |r.records| ==> NoGapIn(r.records[i], cats);
    r
  }

  /** Rows leave only for a gap in one of `cats`: kept and removed rows partition the table. */
  lemma DropGapsPartition(t: Table, cats: seq<string>)
    ensures var removed := Where(t.records, (x: Record) => !NoGapIn(x, cats));
      multiset(DropGaps(t, cats).records) + multiset(removed) == multiset(t.records) &&
      (forall i :: 0 <= i < |removed| ==> exists c :: c in cats && Get(removed[i], c) == Missing)
  {
    WherePartition(t.records, (x: Record) => NoGapIn(x, cats), (x: Record) => !NoGapIn(x, cats));
  }

  /** `df.dropna(subset=categorical_cols)`, the non-numeric columns taken from `t` itself. */
  function DropMissingText(t: Table): (r: Table)
    ensures r.columns == t.columns
    ensures SubseqOf(r.records, t.records)
    ensures forall i, c :: 0 <= i < |r.records| && c in TextColumns(t) ==> Get(r.records[i], c) != Missing
  {
    DropGaps(t, TextColumns(t))
  }

  /** Rows leave only for a gap in a non-numeric column: kept and removed rows partition the table. */
  lemma DropMissingTextPartition(t: Table)
    ensures var removed := Where(t.records, (x: Record) => !NoGapIn(x, TextColumns(t)));
      multiset(DropMissingText(t).records) + multiset(removed) == multiset(t.records) &&
      (forall i :: 0 <= i < |removed| ==> exists c :: c in TextColumns(t) && Get(removed[i], c) == Missing)
  {
    DropGapsPartition(t, TextColumns(t));
  }
}
