/**
 * The DataFrame model: a table is a list of column names and a sequence of records, each
 * record an index label and a map from column names to cells. The operations are the pandas
 * calls the pipeline makes: column assignment, boolean selection, `set_index`/`reset_index`,
 * index joins, `groupby(level=0).first()`, sorting and `.values`.
 */
module Frames {
  import opened Wrappers
  import opened Strings
  import opened Seqs

  /** A cell: NaN/None, a number, or a string. */
  datatype Cell = Missing | Num(x: real) | Text(s: string)

  type Row = map<string, Cell>

  /** A row label: a position of the default RangeIndex, or a key after `set_index`. */
  datatype Label = At(pos: nat) | Key(name: string)

  datatype Record = Record(index: Label, cells: Row)

  datatype Table = Table(columns: seq<string>, records: seq<Record>)

  /** The cell of column `c`; a column the record does not hold reads as missing. */
  function Get(r: Record, c: string): Cell {
    if c in r.cells then r.cells[c] else Missing
  }

  function Column(t: Table, c: string): (v: seq<Cell>)
    ensures |v| == |t.records|
    ensures forall i :: 0 <= i < |v| ==> v[i] == Get(t.records[i], c)
  {
    seq(|t.records|, i requires 0 <= i < |t.records| => Get(t.records[i], c))
  }

  predicate AllText(v: seq<Cell>) {
    forall i :: 0 <= i < |v| ==> v[i].Text?
  }

  function TextOf(c: Cell): string {
    if c.Text? then c.s else ""
  }

  // ---------------------------------------------------------------- columns

  /**
   * `df[c] = vals`: column `c` takes the new values (it is appended when new); every other
   * cell, every label and the row order stay as they were.
   */
  function AssignColumn(t: Table, c: string, vals: seq<Cell>): (r: Table)
    requires |vals| == |t.records|
    ensures r.columns == if c in t.columns then t.columns else t.columns + [c]
    ensures |r.records| == |t.records|
    ensures forall i :: 0 <= i < |t.records| ==> r.records[i].index == t.records[i].index
    ensures forall i :: 0 <= i < |t.records| ==> Get(r.records[i], c) == vals[i]
    ensures forall i, d :: 0 <= i < |t.records| && d != c ==> Get(r.records[i], d) == Get(t.records[i], d)
  {
    Table(if c in t.columns then t.columns else t.columns + [c],
      seq(|t.records|, i requires 0 <= i < |t.records| =>
        Record(t.records[i].index, t.records[i].cells[c := vals[i]])))
  }

  /** `df[c] = df[c].apply(f)` for a function that cannot fail. */
  function MapCells(t: Table, c: string, f: Cell -> Cell): (r: Table)
    ensures r.columns == if c in t.columns then t.columns else t.columns + [c]
    ensures |r.records| == |t.records|
    ensures forall i :: 0 <= i < |t.records| ==> r.records[i].index == t.records[i].index
    ensures forall i :: 0 <= i < |t.records| ==> Get(r.records[i], c) == f(Get(t.records[i], c))
    ensures forall i, d :: 0 <= i < |t.records| && d != c ==> Get(r.records[i], d) == Get(t.records[i], d)
  {
    AssignColumn(t, c, MapSeq(Column(t, c), f))
  }

  /**
   * `df[c] = df[c].apply(f)` for a string method: `KeyError` when the column is absent,
   * `AttributeError` when some cell is not a string, else every cell is rewritten.
   */
  function MapText(t: Table, c: string, f: string -> string): (r: Result<Table>)
    ensures r.Err? <==> c !in t.columns || !AllText(Column(t, c))
    ensures c !in t.columns ==> r == Err(KeyError(c))
    ensures c in t.columns && !AllText(Column(t, c)) ==> r == Err(AttributeError(c))
    ensures r.Ok? ==> r.value.columns == t.columns && |r.value.records| == |t.records|
    ensures r.Ok? ==> forall i :: 0 <= i < |t.records| ==> r.value.records[i].index == t.records[i].index
    ensures r.Ok? ==> forall i :: 0 <= i < |t.records| ==> Get(r.value.records[i], c) == Text(f(TextOf(Get(t.records[i], c))))
    ensures r.Ok? ==> forall i, d :: 0 <= i < |t.records| && d != c ==> Get(r.value.records[i], d) == Get(t.records[i], d)
  {
    if c !in t.columns then Err(KeyError(c))
    else if !AllText(Column(t, c)) then Err(AttributeError(c))
    else
      assert forall i :: 0 <= i < |t.records| ==> Column(t, c)[i].Text? && Get(t.records[i], c).Text?;
      var g := (v: Cell) => Text(f(TextOf(v)));
      var m := MapCells(t, c, g);
      assert forall i :: 0 <= i < |t.records| ==> Get(m.records[i], c) == g(Get(t.records[i], c));
      Ok(m)
  }

  /** A rewritten text column holds only strings, each the rewrite of the original one. */
  lemma MapTextIsText(t: Table, c: string, f: string -> string)
    requires MapText(t, c, f).Ok?
    ensures AllText(Column(MapText(t, c, f).value, c))
    ensures forall i :: 0 <= i < |t.records| ==> TextOf(Get(MapText(t, c, f).value.records[i], c)) == f(TextOf(Get(t.records[i], c)))
  {
    var u := MapText(t, c, f).value;
    forall i | 0 <= i < |t.records| ensures Column(u, c)[i].Text? {
      assert Column(u, c)[i] == Get(u.records[i], c) == Text(f(TextOf(Get(t.records[i], c))));
    }
  }

  /** `df.drop(columns=[c])`. */
  function DropColumn(t: Table, c: string): (r: Table)
    ensures r.columns == Where(t.columns, (d: string) => d != c)
    ensures c !in r.columns
    ensures |r.records| == |t.records|
    ensures forall i :: 0 <= i < |t.records| ==> r.records[i].index == t.records[i].index
    ensures forall i :: 0 <= i < |t.records| ==> Get(r.records[i], c) == Missing
    ensures forall i, d :: 0 <= i < |t.records| && d != c ==> Get(r.records[i], d) == Get(t.records[i], d)
  {
    var cols := Where(t.columns, (d: string) => d != c);
    Table(cols, seq(|t.records|, i requires 0 <= i < |t.records| =>
      Record(t.records[i].index, t.records[i].cells - {c})))
  }

  /** `df[cols]`: the listed columns only, every label and the row order kept. */
  function Project(t: Table, cols: seq<string>): (r: Table)
    ensures r.columns == cols && |r.records| == |t.records|
    ensures forall i :: 0 <= i < |t.records| ==> r.records[i].index == t.records[i].index
    ensures forall i, c :: 0 <= i < |t.records| && c in cols ==> Get(r.records[i], c) == Get(t.records[i], c)
    ensures forall i, c :: 0 <= i < |t.records| && c !in cols ==> Get(r.records[i], c) == Missing
  {
    Table(cols, seq(|t.records|, i requires 0 <= i < |t.records| =>
      Record(t.records[i].index, map c | c in t.records[i].cells && c in cols :: t.records[i].cells[c])))
  }

  /** `list(df.index)`. */
  function Labels(t: Table): (ls: seq<Label>)
    ensures |ls| == |t.records| && forall i :: 0 <= i < |ls| ==> ls[i] == t.records[i].index
  {
    MapSeq(t.records, (x: Record) => x.index)
  }

  // ---------------------------------------------------------------- rows

  /** `df[mask]`: the records satisfying `p`, in order, with their labels (no re-indexing). */
  function Filter(t: Table, p: Record -> bool): (r: Table)
    ensures r.columns == t.columns
    ensures SubseqOf(r.records, t.records)
    ensures forall i :: 0 <= i < |r.records| ==> p(r.records[i])
    ensures forall i :: 0 <= i < |t.records| && p(t.records[i]) ==> t.records[i] in r.records
  {
    Table(t.columns, Where(t.records, p))
  }

  /** `df.drop_duplicates(subset=c, keep='first')`. */
  function KeepFirstBy(t: Table, c: string): (r: Table)
    ensures r.columns == t.columns
    ensures SubseqOf(r.records, t.records)
    ensures DistinctKeys(r.records, (x: Record) => Get(x, c))
    ensures forall i :: 0 <= i < |t.records| && FirstOfKey(t.records, (x: Record) => Get(x, c), i) ==>
      t.records[i] in r.records
  {
    Table(t.columns, KeepFirst(t.records, (x: Record) => Get(x, c)))
  }

  /** How many records hold cell `v` in column `c`. */
  function Occurrences(rs: seq<Record>, c: string, v: Cell): nat {
    if rs == [] then 0 else (if Get(rs[0], c) == v then 1 else 0) + Occurrences(rs[1..], c, v)
  }

  lemma {:induction false} OccurrencesPositive(rs: seq<Record>, c: string, i: nat)
    requires i < |rs|
    ensures Occurrences(rs, c, Get(rs[i], c)) >= 1
  {
    if i > 0 {
      OccurrencesPositive(rs[1..], c, i - 1);
    }
  }

  lemma {:induction false} OccurrencesTwo(rs: seq<Record>, c: string, i: nat, j: nat)
    requires i < j < |rs| && Get(rs[i], c) == Get(rs[j], c)
    ensures Occurrences(rs, c, Get(rs[i], c)) >= 2
  {
    if i > 0 {
      OccurrencesTwo(rs[1..], c, i - 1, j - 1);
    } else {
      OccurrencesPositive(rs[1..], c, j - 1);
    }
  }

  lemma {:induction false} OccurrencesOne(rs: seq<Record>, c: string, i: nat)
    requires i < |rs| && Occurrences(rs, c, Get(rs[i], c)) >= 2
    ensures exists j :: 0 <= j < |rs| && j != i && Get(rs[j], c) == Get(rs[i], c)
  {
    if i > 0 {
      if Get(rs[0], c) != Get(rs[i], c) {
        OccurrencesOne(rs[1..], c, i - 1);
        var j :| 0 <= j < |rs[1..]| && j != i - 1 && Get(rs[1..][j], c) == Get(rs[1..][i - 1], c);
        assert Get(rs[j + 1], c) == Get(rs[i], c);
      }
    } else {
      assert Occurrences(rs[1..], c, Get(rs[0], c)) >= 1;
      OccurrencesWitness(rs[1..], c, Get(rs[0], c));
      var j :| 0 <= j < |rs[1..]| && Get(rs[1..][j], c) == Get(rs[0], c);
      assert Get(rs[j + 1], c) == Get(rs[0], c);
    }
  }

  lemma {:induction false} OccurrencesWitness(rs: seq<Record>, c: string, v: Cell)
    requires Occurrences(rs, c, v) >= 1
    ensures exists j :: 0 <= j < |rs| && Get(rs[j], c) == v
  {
    if Get(rs[0], c) != v {
      OccurrencesWitness(rs[1..], c, v);
      var j :| 0 <= j < |rs[1..]| && Get(rs[1..][j], c) == v;
      assert Get(rs[j + 1], c) == v;
    }
  }

  /** `df.duplicated(subset=c, keep=False)`: the record shares its `c` cell with another record. */
  predicate IsDuplicated(rs: seq<Record>, c: string, r: Record) {
    Occurrences(rs, c, Get(r, c)) > 1
  }

  /** `df[df.duplicated(subset=c, keep=False)]`. */
  function Duplicates(t: Table, c: string): (r: Table)
    ensures r.columns == t.columns && SubseqOf(r.records, t.records)
  {
    Filter(t, (x: Record) => IsDuplicated(t.records, c, x))
  }

  /**
   * A record is listed as a duplicate exactly when another record holds the same cell in
   * column `c`; so nothing is listed exactly when that column is unique.
   */
  lemma DuplicatesCharacterized(t: Table, c: string, i: nat)
    requires i < |t.records|
    ensures t.records[i] in Duplicates(t, c).records <==>
      exists j :: 0 <= j < |t.records| && j != i && Get(t.records[j], c) == Get(t.records[i], c)
  {
    var rs := t.records;
    var d := Duplicates(t, c).records;
    if t.records[i] in d {
      var k :| 0 <= k < |d| && d[k] == rs[i];
      assert IsDuplicated(rs, c, d[k]);
      OccurrencesOne(rs, c, i);
    }
    if exists j :: 0 <= j < |rs| && j != i && Get(rs[j], c) == Get(rs[i], c) {
      var j :| 0 <= j < |rs| && j != i && Get(rs[j], c) == Get(rs[i], c);
      if i < j {
        OccurrencesTwo(rs, c, i, j);
      } else {
        OccurrencesTwo(rs, c, j, i);
      }
    }
  }

  lemma DuplicatesEmptyIffDistinct(t: Table, c: string)
    ensures Duplicates(t, c).records == [] <==> DistinctKeys(t.records, (x: Record) => Get(x, c))
  {
    var rs := t.records;
    var key := (x: Record) => Get(x, c);
    if Duplicates(t, c).records == [] {
      forall i, j | 0 <= i < j < |rs| ensures key(rs[i]) != key(rs[j]) {
        DuplicatesCharacterized(t, c, i);
      }
    } else {
      var x := Duplicates(t, c).records[0];
      assert IsDuplicated(rs, c, x);
      SubseqOfMembers(Duplicates(t, c).records, rs);
      assert x in rs;
      var i :| 0 <= i < |rs| && rs[i] == x;
      DuplicatesCharacterized(t, c, i);
      var j :| 0 <= j < |rs| && j != i && Get(rs[j], c) == Get(rs[i], c);
      assert key(rs[i]) == key(rs[j]);
    }
  }

  /** A kept row is a row of the table that satisfies the predicate. */
  lemma FilterMembers(t: Table, p: Record -> bool)
    ensures forall x :: x in Filter(t, p).records ==> x in t.records && p(x)
  {
    var r := Filter(t, p);
    SubseqOfMembers(r.records, t.records);
    forall x | x in r.records ensures p(x) {
      var i :| 0 <= i < |r.records| && r.records[i] == x;
    }
  }

  /** Two tables whose rows carry the same labels position by position have the same index. */
  lemma SameLabels(a: Table, b: Table)
    requires |a.records| == |b.records| && forall i :: 0 <= i < |a.records| ==> a.records[i].index == b.records[i].index
    ensures Labels(a) == Labels(b)
  {
  }

  // ---------------------------------------------------------------- index

  predicate Keyed(t: Table) {
    forall i :: 0 <= i < |t.records| ==> t.records[i].index.Key?
  }

  function KeyOf(r: Record): string {
    if r.index.Key? then r.index.name else ""
  }

  /** The index as a list (`list(df.index)`), for a table indexed by key. */
  function KeySeq(t: Table): (ks: seq<string>)
    ensures |ks| == |t.records| && forall i :: 0 <= i < |ks| ==> ks[i] == KeyOf(t.records[i])
  {
    seq(|t.records|, i requires 0 <= i < |t.records| => KeyOf(t.records[i]))
  }

  /** `set(df.index)`. */
  function KeySet(t: Table): set<string> {
    set r | r in t.records && r.index.Key? :: r.index.name
  }

  lemma KeySeqMembers(t: Table)
    requires Keyed(t)
    ensures forall k :: k in KeySeq(t) <==> k in KeySet(t)
  {
    forall k ensures k in KeySeq(t) <==> k in KeySet(t) {
      if k in KeySeq(t) {
        var i :| 0 <= i < |t.records| && KeySeq(t)[i] == k;
        assert t.records[i] in t.records;
      }
      if k in KeySet(t) {
        var r :| r in t.records && r.index.Key? && r.index.name == k;
        var i :| 0 <= i < |t.records| && t.records[i] == r;
        assert KeySeq(t)[i] == k;
      }
    }
  }

  /**
   * `df.set_index(c)` on a column of strings: each record is labelled by its `c` cell and the
   * column leaves the table.
   */
  function SetIndex(t: Table, c: string): (r: Table)
    requires AllText(Column(t, c))
    ensures r.columns == Where(t.columns, (d: string) => d != c)
    ensures |r.records| == |t.records|
    ensures forall i :: 0 <= i < |t.records| ==> r.records[i].index == Key(Get(t.records[i], c).s)
    ensures forall i, d :: 0 <= i < |t.records| && d != c ==> Get(r.records[i], d) == Get(t.records[i], d)
    ensures Keyed(r)
  {
    Table(Where(t.columns, (d: string) => d != c),
      seq(|t.records|, i requires 0 <= i < |t.records| =>
        Record(Key(TextOf(Get(t.records[i], c))), t.records[i].cells - {c})))
  }

  /**
   * `df.reset_index()` on a table indexed by the key named `c`: the key becomes the first column
   * and the rows are numbered again; pandas refuses when a column `c` already exists.
   */
  function ResetIndex(t: Table, c: string): (r: Result<Table>)
    ensures r.Err? <==> c in t.columns
    ensures r.Ok? ==> r.value.columns == [c] + t.columns && |r.value.records| == |t.records|
    ensures r.Ok? ==> forall i :: 0 <= i < |t.records| ==>
      r.value.records[i].index == At(i) && Get(r.value.records[i], c) == Text(KeyOf(t.records[i]))
    ensures r.Ok? ==> forall i, d :: 0 <= i < |t.records| && d != c ==> Get(r.value.records[i], d) == Get(t.records[i], d)
  {
    if c in t.columns then Err(ValueError(c))
    else Ok(Table([c] + t.columns, seq(|t.records|, i requires 0 <= i < |t.records| =>
      Record(At(i), t.records[i].cells[c := Text(KeyOf(t.records[i]))]))))
  }

  // ---------------------------------------------------------------- join

  /** The first record of `rs` with label `lab`. */
  function Lookup(rs: seq<Record>, lab: Label): (o: Option<Record>)
    ensures o.Some? <==> exists k :: 0 <= k < |rs| && rs[k].index == lab
    ensures o.Some? ==> o.value.index == lab && o.value in rs
    ensures o.Some? ==> exists k :: 0 <= k < |rs| && rs[k] == o.value &&
                          forall h :: 0 <= h < k ==> rs[h].index != lab
  {
    if rs == [] then None
    else if rs[0].index == lab then Some(rs[0])
    else
      var o := Lookup(rs[1..], lab);
      assert forall k :: 1 <= k < |rs| ==> rs[k] == rs[1..][k - 1];
      if o.Some? then
        var k :| 0 <= k < |rs[1..]| && rs[1..][k] == o.value &&
                 forall h :: 0 <= h < k ==> rs[1..][h].index != lab;
        assert rs[k + 1] == o.value;
        assert forall h :: 0 <= h < k + 1 ==> rs[h].index != lab by {
          forall h | 0 <= h < k + 1 ensures rs[h].index != lab {
            if h > 0 { assert rs[h] == rs[1..][h - 1]; }
          }
        }
        o
      else o
  }

  /** The cells of a joined row: the right row's cells for its columns, the left row's for the rest. */
  function JoinCells(l: Record, m: Record, lcols: seq<string>, rcols: seq<string>): Row {
    map d | d in lcols + rcols :: if d in rcols then Get(m, d) else Get(l, d)
  }

  function HasLabel(rs: seq<Record>, lab: Label): bool {
    Lookup(rs, lab).Some?
  }

  /**
   * The records of an inner index join: the left records with a matching right label, in left
   * order, each combined with the first right record of that label (`JoinLabels`, `JoinValues`).
   */
  function JoinRecords(ls: seq<Record>, rs: seq<Record>, lcols: seq<string>, rcols: seq<string>): seq<Record> {
    var m := Where(ls, (l: Record) => HasLabel(rs, l.index));
    seq(|m|, j requires 0 <= j < |m| =>
      Record(m[j].index, JoinCells(m[j], Lookup(rs, m[j].index).value, lcols, rcols)))
  }

  predicate Overlap(a: seq<string>, b: seq<string>) {
    exists c :: c in a && c in b
  }

  /**
   * `l.join(r, how="inner")` on the index: pandas refuses overlapping column names when no
   * suffix is given; otherwise the columns are concatenated and the rows are `JoinRecords`.
   */
  function Join(l: Table, r: Table): (j: Result<Table>)
    ensures j.Err? <==> Overlap(l.columns, r.columns)
    ensures j.Ok? ==> j.value.columns == l.columns + r.columns
  {
    if Overlap(l.columns, r.columns) then Err(ValueError("columns overlap"))
    else Ok(Table(l.columns + r.columns, JoinRecords(l.records, r.records, l.columns, r.columns)))
  }

  /** The keys of an inner join are the keys both sides have. */
  lemma JoinKeys(l: Table, r: Table)
    requires Join(l, r).Ok?
    ensures KeySet(Join(l, r).value) == KeySet(l) * KeySet(r)
  {
    forall k ensures k in KeySet(Join(l, r).value) <==> k in KeySet(l) && k in KeySet(r) {
      if k in KeySet(Join(l, r).value) {
        JoinKeySound(l, r, k);
      }
      if k in KeySet(l) && k in KeySet(r) {
        JoinKeyComplete(l, r, k);
      }
    }
  }

  lemma JoinKeySound(l: Table, r: Table, k: string)
    requires Join(l, r).Ok? && k in KeySet(Join(l, r).value)
    ensures k in KeySet(l) && k in KeySet(r)
  {
    var out := Join(l, r).value.records;
    var m := Where(l.records, (x: Record) => HasLabel(r.records, x.index));
    SubseqOfMembers(m, l.records);
    var y :| y in out && y.index == Key(k);
    var j :| 0 <= j < |out| && out[j] == y;
    assert m[j] in l.records && HasLabel(r.records, m[j].index);
    var o := Lookup(r.records, m[j].index).value;
    assert o in r.records && o.index == Key(k);
  }

  lemma JoinKeyComplete(l: Table, r: Table, k: string)
    requires Join(l, r).Ok? && k in KeySet(l) && k in KeySet(r)
    ensures k in KeySet(Join(l, r).value)
  {
    var out := Join(l, r).value.records;
    var m := Where(l.records, (x: Record) => HasLabel(r.records, x.index));
    SubseqOfMembers(m, l.records);
    var x :| x in l.records && x.index == Key(k);
    var y :| y in r.records && y.index == Key(k);
    var iy :| 0 <= iy < |r.records| && r.records[iy] == y;
    assert HasLabel(r.records, x.index);
    var j :| 0 <= j < |m| && m[j] == x;
    assert out[j].index == Key(k);
  }

  /**
   * The labels of an inner join are the left labels that the right side has, in left order
   * (repeated left labels are all kept).
   */
  lemma JoinLabels(l: Table, r: Table)
    requires Join(l, r).Ok?
    ensures Labels(Join(l, r).value) == Where(Labels(l), (lab: Label) => HasLabel(r.records, lab))
  {
    var out := Join(l, r).value.records;
    var q := (x: Record) => HasLabel(r.records, x.index);
    var m := Where(l.records, q);
    var f := (x: Record) => x.index;
    var p := (lab: Label) => HasLabel(r.records, lab);
    WhereMap(l.records, f, p, q);
    assert Labels(l) == MapSeq(l.records, f);
    assert Labels(Join(l, r).value) == MapSeq(m, f);
  }

  /**
   * Joined rows take each column's value from the side that owns the column: the right columns
   * from the first right row with the same label, the left columns from a left row with it.
   */
  lemma JoinValues(l: Table, r: Table, j: nat)
    requires Join(l, r).Ok? && j < |Join(l, r).value.records|
    ensures exists i, k ::
              0 <= i < |l.records| && 0 <= k < |r.records| &&
              (var y := Join(l, r).value.records[j];
               y.index == l.records[i].index == r.records[k].index &&
               (forall h :: 0 <= h < k ==> r.records[h].index != y.index) &&
               (forall c :: c in r.columns ==> Get(y, c) == Get(r.records[k], c)) &&
               (forall c :: c in l.columns ==> Get(y, c) == Get(l.records[i], c)))
  {
    var m := Where(l.records, (x: Record) => HasLabel(r.records, x.index));
    SubseqOfMembers(m, l.records);
    assert m[j] in l.records;
    var i :| 0 <= i < |l.records| && l.records[i] == m[j];
    var o := Lookup(r.records, m[j].index).value;
    var k :| 0 <= k < |r.records| && r.records[k] == o &&
             forall h :: 0 <= h < k ==> r.records[h].index != m[j].index;
    var y := Join(l, r).value.records[j];
    forall c | c in l.columns ensures Get(y, c) == Get(l.records[i], c) {
      assert c !in r.columns;
    }
  }

  /** An inner join keeps the left table's key order. */
  lemma JoinKeepsOrder(l: Table, r: Table)
    requires Join(l, r).Ok? && SortedBy(l.records, KeyOf)
    ensures SortedBy(Join(l, r).value.records, KeyOf)
  {
    var out := Join(l, r).value.records;
    var m := Where(l.records, (x: Record) => HasLabel(r.records, x.index));
    SubseqOfSorted(m, l.records, KeyOf);
    forall a, b | 0 <= a < b < |out| ensures StrLe(KeyOf(out[a]), KeyOf(out[b])) {
      assert KeyOf(out[a]) == KeyOf(m[a]) && KeyOf(out[b]) == KeyOf(m[b]);
    }
  }

  // ---------------------------------------------------------------- groupby first

  /** The first non-missing `c` cell among the records labelled `k`, or missing when none has one. */
  function FirstObserved(rs: seq<Record>, k: string, c: string): (v: Cell)
    ensures v == Missing <==> forall i :: 0 <= i < |rs| && rs[i].index == Key(k) ==> Get(rs[i], c) == Missing
  {
    if rs == [] then Missing
    else if rs[0].index == Key(k) && Get(rs[0], c) != Missing then Get(rs[0], c)
    else
      assert forall i :: 1 <= i < |rs| ==> rs[i] == rs[1..][i - 1];
      FirstObserved(rs[1..], k, c)
  }

  /** A non-missing group value comes from a record of the group, all earlier ones missing there. */
  lemma {:induction false} FirstObservedWitness(rs: seq<Record>, k: string, c: string)
    requires FirstObserved(rs, k, c) != Missing
    ensures exists i ::
              0 <= i < |rs| && rs[i].index == Key(k) && Get(rs[i], c) == FirstObserved(rs, k, c) &&
              (forall h :: 0 <= h < i && rs[h].index == Key(k) ==> Get(rs[h], c) == Missing)
  {
    if !(rs[0].index == Key(k) && Get(rs[0], c) != Missing) {
      var v := FirstObserved(rs, k, c);
      FirstObservedWitness(rs[1..], k, c);
      var i :| 0 <= i < |rs[1..]| && rs[1..][i].index == Key(k) && Get(rs[1..][i], c) == v &&
        forall h :: 0 <= h < i && rs[1..][h].index == Key(k) ==> Get(rs[1..][h], c) == Missing;
      assert rs[i + 1] == rs[1..][i];
      forall h | 0 <= h < i + 1 && rs[h].index == Key(k) ensures Get(rs[h], c) == Missing {
        if h > 0 {
          assert rs[h] == rs[1..][h - 1];
        }
      }
    }
  }

  /**
   * `df.groupby(level=0).first()`: one record per distinct key, in ascending key order, holding
   * for every column the first non-missing value of that key's records.
   */
  function GroupFirst(t: Table): (r: Table)
    ensures r.columns == t.columns && Keyed(r)
    ensures StrictlyAscending(KeySeq(r))
    ensures forall k :: k in KeySeq(r) <==> k in KeySeq(t)
    ensures forall j, c :: 0 <= j < |r.records| && c in t.columns ==>
      Get(r.records[j], c) == FirstObserved(t.records, KeyOf(r.records[j]), c)
  {
    var keys := SortedUnique(KeySeq(t));
    var r := Table(t.columns, seq(|keys|, j requires 0 <= j < |keys| =>
      Record(Key(keys[j]), map c | c in t.columns :: FirstObserved(t.records, keys[j], c))));
    assert KeySeq(r) == keys;
    r
  }

  /** After grouping the keys are unique, and they are exactly the keys there were. */
  lemma GroupFirstKeys(t: Table)
    requires Keyed(t)
    ensures DistinctKeys(GroupFirst(t).records, KeyOf)
    ensures KeySet(GroupFirst(t)) == KeySet(t)
    ensures SortedBy(GroupFirst(t).records, KeyOf)
  {
    var g := GroupFirst(t);
    assert forall i :: 0 <= i < |g.records| ==> KeySeq(g)[i] == KeyOf(g.records[i]);
    forall i, j | 0 <= i < j < |g.records| ensures KeyOf(g.records[i]) != KeyOf(g.records[j]) {
      StrLessAsymmetric(KeySeq(g)[i], KeySeq(g)[j]);
    }
    KeySeqMembers(t);
    KeySeqMembers(g);
  }

  // ---------------------------------------------------------------- sorting and matrices

  /** `df.sort_index()` on a key-indexed table. */
  function SortByKey(t: Table): (r: Table)
    ensures r.columns == t.columns
    ensures multiset(r.records) == multiset(t.records)
    ensures SortedBy(r.records, KeyOf)
  {
    Table(t.columns, SortBy(t.records, KeyOf))
  }

  /** `df.sort_values(c)` on a column of strings. */
  function SortByColumn(t: Table, c: string): (r: Table)
    ensures r.columns == t.columns
    ensures multiset(r.records) == multiset(t.records)
    ensures SortedBy(r.records, (x: Record) => TextOf(Get(x, c)))
  {
    Table(t.columns, SortBy(t.records, (x: Record) => TextOf(Get(x, c))))
  }

  /** `df[cols].values`: one row per record, in order, one entry per requested column. */
  function Matrix(t: Table, cols: seq<string>): (x: seq<seq<Cell>>)
    ensures |x| == |t.records|
    ensures forall i :: 0 <= i < |x| ==> |x[i]| == |cols|
    ensures forall i, j :: 0 <= i < |x| && 0 <= j < |cols| ==> x[i][j] == Get(t.records[i], cols[j])
  {
    seq(|t.records|, i requires 0 <= i < |t.records| =>
      seq(|cols|, j requires 0 <= j < |cols| => Get(t.records[i], cols[j])))
  }

  // ---------------------------------------------------------------- required columns

  /** The first of `wanted` that is not among `cols`: the column a `KeyError` check names. */
  function FirstAbsent(wanted: seq<string>, cols: seq<string>): (o: Option<string>)
    ensures o.None? <==> forall j :: 0 <= j < |wanted| ==> wanted[j] in cols
    ensures o.Some? ==> o.value in wanted && o.value !in cols
  {
    if wanted == [] then None
    else if wanted[0] !in cols then Some(wanted[0])
    else
      assert forall j :: 1 <= j < |wanted| ==> wanted[j] == wanted[1..][j - 1];
      FirstAbsent(wanted[1..], cols)
  }

  /** The named column is absent and every column listed before it is present. */
  lemma {:induction false} FirstAbsentIsFirst(wanted: seq<string>, cols: seq<string>)
    requires FirstAbsent(wanted, cols).Some?
    ensures exists i ::
              0 <= i < |wanted| && wanted[i] == FirstAbsent(wanted, cols).value &&
              (forall j :: 0 <= j < i ==> wanted[j] in cols)
  {
    if wanted[0] in cols {
      FirstAbsentIsFirst(wanted[1..], cols);
      var i :| 0 <= i < |wanted[1..]| && wanted[1..][i] == FirstAbsent(wanted, cols).value &&
        forall j :: 0 <= j < i ==> wanted[1..][j] in cols;
      assert wanted[i + 1] == wanted[1..][i];
      forall j | 0 <= j < i + 1 ensures wanted[j] in cols {
        if j > 0 {
          assert wanted[j] == wanted[1..][j - 1];
        }
      }
    }
  }

  /** `for col in wanted: if col not in df.columns: raise KeyError(col)`. */
  method CheckColumns(cols: seq<string>, wanted: seq<string>) returns (o: Option<string>)
    ensures o == FirstAbsent(wanted, cols)
  {
    var i := 0;
    while i < |wanted|
      invariant 0 <= i <= |wanted|
      invariant FirstAbsent(wanted, cols) == FirstAbsent(wanted[i..], cols)
    {
      assert wanted[i..][1..] == wanted[i + 1..];
      if wanted[i] !in cols {
        return Some(wanted[i]);
      }
      i := i + 1;
    }
    return None;
  }

  lemma {:induction false} FirstAbsentSuffix(wanted: seq<string>, cols: seq<string>, i: nat)
    requires i <= |wanted| && forall j :: 0 <= j < i ==> wanted[j] in cols
    ensures FirstAbsent(wanted, cols) == FirstAbsent(wanted[i..], cols)
  {
    if i > 0 {
      assert wanted[1..][i - 1..] == wanted[i..];
      FirstAbsentSuffix(wanted[1..], cols, i - 1);
    }
  }

  // ---------------------------------------------------------------- frames held by the caller

  /** A DataFrame the caller passed in and the pipeline changes in place. */
  class Frame {
    var columns: seq<string>
    var records: seq<Record>

    constructor (t: Table)
      ensures Snapshot() == t
    {
      columns := t.columns;
      records := t.records;
    }

    function Snapshot(): Table
      reads this
    {
      Table(columns, records)
    }

    /** `df[c] = vals`. */
    method Assign(c: string, vals: seq<Cell>)
      requires |vals| == |records|
      modifies this
      ensures Snapshot() == AssignColumn(old(Snapshot()), c, vals)
    {
      var t := AssignColumn(Snapshot(), c, vals);
      columns, records := t.columns, t.records;
    }

    /** `df[c] = df[c].apply(f)` for a function that cannot fail, such as `pd.to_numeric`. */
    method Apply(c: string, f: Cell -> Cell)
      modifies this
      ensures Snapshot() == MapCells(old(Snapshot()), c, f)
    {
      var t := MapCells(Snapshot(), c, f);
      columns, records := t.columns, t.records;
    }

    /** `df[c] = df[c].apply(f)` for a string method; the frame is left as it was when that raises. */
    method ApplyText(c: string, f: string -> string) returns (e: Option<Error>)
      modifies this
      ensures MapText(old(Snapshot()), c, f).Ok? ==> e.None? && Snapshot() == MapText(old(Snapshot()), c, f).value
      ensures MapText(old(Snapshot()), c, f).Err? ==>
        e == Some(MapText(old(Snapshot()), c, f).error) && Snapshot() == old(Snapshot())
    {
      var m := MapText(Snapshot(), c, f);
      if m.Err? {
        return Some(m.error);
      }
      columns, records := m.value.columns, m.value.records;
      return None;
    }

    /** `df.set_index(c, inplace=True)`. */
    method SetIndexInPlace(c: string)
      requires AllText(Column(Snapshot(), c))
      modifies this
      ensures Snapshot() == SetIndex(old(Snapshot()), c)
    {
      var t := SetIndex(Snapshot(), c);
      columns, records := t.columns, t.records;
    }
  }
}
