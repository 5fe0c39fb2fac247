/**
 * The join step both join scripts share: the inner join of three key-indexed tables and the
 * sorted list of the keys it loses.
 */
module Reconcile {
  import opened Wrappers
  import opened Seqs
  import opened Strings
  import opened Frames

  /** `set(a.index).union(set(b.index)).union(set(c.index))`. */
  function AllKeys(a: Table, b: Table, c: Table): set<string> {
    KeySet(a) + KeySet(b) + KeySet(c)
  }

  /** `a.join(b, how="inner").join(c, how="inner")`. */
  function Join3(a: Table, b: Table, c: Table): (r: Result<Table>)
    ensures r.Ok? ==> r.value.columns == a.columns + b.columns + c.columns
  {
    match Join(a, b)
    case Err(e) => Err(e)
    case Ok(ab) => Join(ab, c)
  }

  /** The joined keys are exactly the keys all three tables have. */
  lemma Join3Keys(a: Table, b: Table, c: Table)
    requires Join3(a, b, c).Ok?
    ensures KeySet(Join3(a, b, c).value) == KeySet(a) * KeySet(b) * KeySet(c)
  {
    JoinKeys(a, b);
    JoinKeys(Join(a, b).value, c);
  }

  /** The keys of the three tables, one listing after the other. */
  function KeyListing(a: Table, b: Table, c: Table): seq<string> {
    KeySeq(a) + KeySeq(b) + KeySeq(c)
  }

  predicate NotJoined(m: Table, k: string) {
    k !in KeySet(m)
  }

  /** `sorted(list(all_countries - set(joined.index)))`. */
  function LostKeys(a: Table, b: Table, c: Table, m: Table): (lost: seq<string>)
    ensures StrictlyAscending(lost)
  {
    SortedUnique(Where(KeyListing(a, b, c), k => NotJoined(m, k)))
  }

  lemma KeyListingMembers(a: Table, b: Table, c: Table)
    requires Keyed(a) && Keyed(b) && Keyed(c)
    ensures forall k :: k in KeyListing(a, b, c) <==> k in AllKeys(a, b, c)
  {
    KeySeqMembers(a);
    KeySeqMembers(b);
    KeySeqMembers(c);
  }

  /** A key is lost exactly when some table has it and the join does not. */
  lemma LostKeysMembers(a: Table, b: Table, c: Table, m: Table)
    requires Keyed(a) && Keyed(b) && Keyed(c)
    ensures forall k :: k in LostKeys(a, b, c, m) <==> k in AllKeys(a, b, c) && k !in KeySet(m)
  {
    KeyListingMembers(a, b, c);
    WhereMembers(KeyListing(a, b, c), k => NotJoined(m, k));
  }

  /**
   * The lost keys are ascending without repeats, none of them is joined, and together with the
   * joined keys they make up every key of the three tables.
   */
  lemma LostPartition(a: Table, b: Table, c: Table)
    requires Keyed(a) && Keyed(b) && Keyed(c) && Join3(a, b, c).Ok?
    ensures var m := Join3(a, b, c).value;
      var lost := set k | k in LostKeys(a, b, c, m);
      StrictlyAscending(LostKeys(a, b, c, m)) && lost !! KeySet(m) && lost + KeySet(m) == AllKeys(a, b, c)
  {
    var m := Join3(a, b, c).value;
    Join3Keys(a, b, c);
    LostKeysMembers(a, b, c, m);
  }
}
