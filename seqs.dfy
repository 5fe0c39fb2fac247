/**
 * Sequence operations behind pandas' row selection, `drop_duplicates(keep='first')` and sorting:
 * an order-preserving filter, a first-occurrence filter and insertion sorts by a string key.
 */
module Seqs {
  import opened Strings

  /** `r` is obtained from `s` by deleting elements (the order of what is left is kept). */
  ghost predicate SubseqOf<T>(r: seq<T>, s: seq<T>)
    decreases |s|
  {
    r == [] || (s != [] && ((r[0] == s[0] && SubseqOf(r[1..], s[1..])) || SubseqOf(r, s[1..])))
  }

  lemma {:induction false} SubseqOfTransitive<T>(a: seq<T>, b: seq<T>, c: seq<T>)
    requires SubseqOf(a, b) && SubseqOf(b, c)
    ensures SubseqOf(a, c)
    decreases |c|
  {
    if a != [] {
      if SubseqOf(b, c[1..]) {
        SubseqOfTransitive(a, b, c[1..]);
      } else if a[0] == b[0] && SubseqOf(a[1..], b[1..]) {
        SubseqOfTransitive(a[1..], b[1..], c[1..]);
      } else {
        SubseqOfTransitive(a, b[1..], c[1..]);
      }
    }
  }

  lemma {:induction false} SubseqOfMembers<T>(r: seq<T>, s: seq<T>)
    requires SubseqOf(r, s)
    ensures |r| <= |s|
    ensures forall x :: x in r ==> x in s
    decreases |s|
  {
    if r != [] {
      if r[0] == s[0] && SubseqOf(r[1..], s[1..]) {
        SubseqOfMembers(r[1..], s[1..]);
        assert forall x :: x in r ==> x == r[0] || x in r[1..];
      } else {
        SubseqOfMembers(r, s[1..]);
      }
    }
  }

  // ---------------------------------------------------------------- filtering

  /**
   * Boolean-mask selection `df[mask]`: the elements satisfying `p`, in their original order.
   * Nothing satisfying `p` is lost and nothing else is kept.
   */
  function Where<T>(s: seq<T>, p: T -> bool): (r: seq<T>)
    ensures SubseqOf(r, s)
    ensures forall i :: 0 <= i < |r| ==> p(r[i])
    ensures forall i :: 0 <= i < |s| && p(s[i]) ==> s[i] in r
  {
    if s == [] then []
    else
      var rest := Where(s[1..], p);
      assert forall i :: 1 <= i < |s| ==> s[i] == s[1..][i - 1];
      if p(s[0]) then [s[0]] + rest else rest
  }

  lemma WhereMembers<T>(s: seq<T>, p: T -> bool)
    ensures forall x :: x in Where(s, p) <==> x in s && p(x)
  {
    SubseqOfMembers(Where(s, p), s);
  }

  /** Splitting by a predicate and its negation partitions the elements (counted with multiplicity). */
  lemma {:induction false} WherePartition<T>(s: seq<T>, p: T -> bool, q: T -> bool)
    requires forall x :: q(x) == !p(x)
    ensures multiset(Where(s, p)) + multiset(Where(s, q)) == multiset(s)
    ensures |Where(s, p)| + |Where(s, q)| == |s|
  {
    if s != [] {
      WherePartition(s[1..], p, q);
      assert s == [s[0]] + s[1..];
    }
  }

  /** Two successive selections are one selection by the conjunction. */
  lemma {:induction false} WhereWhere<T>(s: seq<T>, p: T -> bool, q: T -> bool, pq: T -> bool)
    requires forall x :: pq(x) == (p(x) && q(x))
    ensures Where(Where(s, p), q) == Where(s, pq)
  {
    if s != [] {
      WhereWhere(s[1..], p, q, pq);
    }
  }

  /** Selecting changes nothing when every element passes. */
  lemma {:induction false} WhereAll<T>(s: seq<T>, p: T -> bool)
    requires forall i :: 0 <= i < |s| ==> p(s[i])
    ensures Where(s, p) == s
  {
    if s != [] {
      WhereAll(s[1..], p);
    }
  }

  /** Selecting keeps nothing when no element passes. */
  lemma WhereNone<T>(s: seq<T>, p: T -> bool)
    requires forall i :: 0 <= i < |s| ==> !p(s[i])
    ensures Where(s, p) == []
  {
    SubseqOfMembers(Where(s, p), s);
  }

  /** `[f(x) for x in s]`. */
  function MapSeq<T, U>(s: seq<T>, f: T -> U): (r: seq<U>)
    ensures |r| == |s| && forall i :: 0 <= i < |s| ==> r[i] == f(s[i])
  {
    seq(|s|, i requires 0 <= i < |s| => f(s[i]))
  }

  /** Deleting elements and then mapping is mapping and then deleting the images. */
  lemma {:induction false} SubseqOfMap<T, U>(r: seq<T>, s: seq<T>, f: T -> U)
    requires SubseqOf(r, s)
    ensures SubseqOf(MapSeq(r, f), MapSeq(s, f))
    decreases |s|
  {
    var mr, ms := MapSeq(r, f), MapSeq(s, f);
    if r != [] {
      assert MapSeq(s[1..], f) == ms[1..];
      if r[0] == s[0] && SubseqOf(r[1..], s[1..]) {
        SubseqOfMap(r[1..], s[1..], f);
        assert MapSeq(r[1..], f) == mr[1..];
      } else {
        SubseqOfMap(r, s[1..], f);
      }
    }
  }

  /** Selecting images by `p` is selecting the elements whose image satisfies `p`, then mapping. */
  lemma {:induction false} WhereMap<T, U>(s: seq<T>, f: T -> U, p: U -> bool, q: T -> bool)
    requires forall i :: 0 <= i < |s| ==> q(s[i]) == p(f(s[i]))
    ensures Where(MapSeq(s, f), p) == MapSeq(Where(s, q), f)
  {
    if s != [] {
      assert forall i :: 0 <= i < |s[1..]| ==> s[1..][i] == s[i + 1];
      WhereMap(s[1..], f, p, q);
      assert MapSeq(s, f)[1..] == MapSeq(s[1..], f);
    }
  }

  // ---------------------------------------------------------------- first occurrences

  ghost predicate DistinctKeys<T, K>(s: seq<T>, key: T -> K) {
    forall i, j :: 0 <= i < j < |s| ==> key(s[i]) != key(s[j])
  }

  /** `s[i]` is the first element of `s` with its key. */
  ghost predicate FirstOfKey<T, K>(s: seq<T>, key: T -> K, i: nat)
    requires i < |s|
  {
    forall k :: 0 <= k < i ==> key(s[k]) != key(s[i])
  }

  function KeepFirstFrom<T, K(==)>(s: seq<T>, key: T -> K, seen: set<K>): seq<T> {
    if s == [] then []
    else if key(s[0]) in seen then KeepFirstFrom(s[1..], key, seen)
    else [s[0]] + KeepFirstFrom(s[1..], key, seen + {key(s[0])})
  }

  lemma {:induction false} KeepFirstFromOrder<T, K>(s: seq<T>, key: T -> K, seen: set<K>)
    ensures SubseqOf(KeepFirstFrom(s, key, seen), s)
    ensures forall x :: x in KeepFirstFrom(s, key, seen) ==> key(x) !in seen
  {
    if s != [] {
      if key(s[0]) in seen {
        KeepFirstFromOrder(s[1..], key, seen);
      } else {
        KeepFirstFromOrder(s[1..], key, seen + {key(s[0])});
      }
    }
  }

  lemma {:induction false} KeepFirstFromDistinct<T, K>(s: seq<T>, key: T -> K, seen: set<K>)
    ensures DistinctKeys(KeepFirstFrom(s, key, seen), key)
  {
    if s != [] {
      if key(s[0]) in seen {
        KeepFirstFromDistinct(s[1..], key, seen);
      } else {
        var rest := KeepFirstFrom(s[1..], key, seen + {key(s[0])});
        KeepFirstFromDistinct(s[1..], key, seen + {key(s[0])});
        KeepFirstFromOrder(s[1..], key, seen + {key(s[0])});
        var r := [s[0]] + rest;
        forall i, j | 0 <= i < j < |r| ensures key(r[i]) != key(r[j]) {
          if i == 0 {
            assert r[j] in rest;
          } else {
            assert r[i] == rest[i - 1] && r[j] == rest[j - 1];
          }
        }
      }
    }
  }

  lemma {:induction false} KeepFirstFromComplete<T, K>(s: seq<T>, key: T -> K, seen: set<K>, i: nat)
    requires i < |s| && key(s[i]) !in seen && FirstOfKey(s, key, i)
    ensures s[i] in KeepFirstFrom(s, key, seen)
  {
    if i > 0 {
      assert s[1..][i - 1] == s[i];
      assert FirstOfKey(s[1..], key, i - 1) by {
        forall k | 0 <= k < i - 1 ensures key(s[1..][k]) != key(s[i]) {
          assert s[1..][k] == s[k + 1];
        }
      }
      assert key(s[0]) != key(s[i]);
      if key(s[0]) in seen {
        KeepFirstFromComplete(s[1..], key, seen, i - 1);
      } else {
        KeepFirstFromComplete(s[1..], key, seen + {key(s[0])}, i - 1);
      }
    }
  }

  lemma {:induction false} KeepFirstFromKeys<T, K>(s: seq<T>, key: T -> K, seen: set<K>, x: T)
    requires x in s && key(x) !in seen
    ensures exists y :: y in KeepFirstFrom(s, key, seen) && key(y) == key(x)
  {
    if key(s[0]) == key(x) {
      assert s[0] in KeepFirstFrom(s, key, seen);
    } else {
      assert x in s[1..];
      if key(s[0]) in seen {
        KeepFirstFromKeys(s[1..], key, seen, x);
      } else {
        KeepFirstFromKeys(s[1..], key, seen + {key(s[0])}, x);
        var y :| y in KeepFirstFrom(s[1..], key, seen + {key(s[0])}) && key(y) == key(x);
        assert y in KeepFirstFrom(s, key, seen);
      }
    }
  }

  /**
   * `drop_duplicates(keep='first')`: the first element of every key, in the original order;
   * keys are then unique and every key of `s` still occurs.
   */
  function KeepFirst<T, K(==)>(s: seq<T>, key: T -> K): (r: seq<T>)
    ensures SubseqOf(r, s)
    ensures DistinctKeys(r, key)
    ensures forall i :: 0 <= i < |s| && FirstOfKey(s, key, i) ==> s[i] in r
    ensures forall x :: x in s ==> exists y :: y in r && key(y) == key(x)
  {
    var r := KeepFirstFrom(s, key, {});
    KeepFirstFromOrder(s, key, {});
    KeepFirstFromDistinct(s, key, {});
    forall i | 0 <= i < |s| && FirstOfKey(s, key, i) ensures s[i] in r {
      KeepFirstFromComplete(s, key, {}, i);
    }
    forall x | x in s ensures exists y :: y in r && key(y) == key(x) {
      KeepFirstFromKeys(s, key, {}, x);
    }
    r
  }

  lemma {:induction false} KeepFirstFromNoop<T, K>(s: seq<T>, key: T -> K, seen: set<K>)
    requires DistinctKeys(s, key)
    requires forall i :: 0 <= i < |s| ==> key(s[i]) !in seen
    ensures KeepFirstFrom(s, key, seen) == s
  {
    if s != [] {
      assert DistinctKeys(s[1..], key) by {
        forall i, j | 0 <= i < j < |s[1..]| ensures key(s[1..][i]) != key(s[1..][j]) {
          assert s[1..][i] == s[i + 1] && s[1..][j] == s[j + 1];
        }
      }
      forall i | 0 <= i < |s[1..]| ensures key(s[1..][i]) !in seen + {key(s[0])} {
        assert s[1..][i] == s[i + 1];
      }
      KeepFirstFromNoop(s[1..], key, seen + {key(s[0])});
    }
  }

  /** Dropping duplicates changes nothing when the keys are already unique. */
  lemma KeepFirstNoop<T, K>(s: seq<T>, key: T -> K)
    requires DistinctKeys(s, key)
    ensures KeepFirst(s, key) == s
  {
    KeepFirstFromNoop(s, key, {});
  }

  // ---------------------------------------------------------------- sorting by a string key

  ghost predicate SortedBy<T>(s: seq<T>, key: T -> string) {
    forall i, j :: 0 <= i < j < |s| ==> StrLe(key(s[i]), key(s[j]))
  }

  ghost predicate StrictlyAscending(s: seq<string>) {
    forall i, j :: 0 <= i < j < |s| ==> StrLess(s[i], s[j])
  }

  function Insert<T>(x: T, s: seq<T>, key: T -> string): (r: seq<T>)
    ensures multiset(r) == multiset(s) + multiset{x}
  {
    if s == [] then [x]
    else if StrLe(key(x), key(s[0])) then [x] + s
    else
      assert s == [s[0]] + s[1..];
      [s[0]] + Insert(x, s[1..], key)
  }

  /** Inserting into a sorted sequence keeps it sorted. */
  lemma {:induction false} InsertSorted<T>(x: T, s: seq<T>, key: T -> string)
    requires SortedBy(s, key)
    ensures SortedBy(Insert(x, s, key), key)
  {
    if s != [] {
      if StrLe(key(x), key(s[0])) {
        InsertFront(x, s, key);
      } else {
        assert SortedBy(s[1..], key);
        InsertSorted(x, s[1..], key);
        InsertMembers(x, s[1..], key);
        InsertBehind(x, s, key);
      }
    }
  }

  lemma InsertMembers<T>(x: T, s: seq<T>, key: T -> string)
    ensures forall y :: y in Insert(x, s, key) ==> y == x || y in s
  {
    var r := Insert(x, s, key);
    forall y | y in r ensures y == x || y in s {
      assert y in multiset(r);
    }
  }

  lemma InsertFront<T>(x: T, s: seq<T>, key: T -> string)
    requires s != [] && SortedBy(s, key) && StrLe(key(x), key(s[0]))
    ensures SortedBy([x] + s, key)
  {
    var r := [x] + s;
    forall j | 0 < j < |r| ensures StrLe(key(x), key(r[j])) {
      if j > 1 {
        StrLeTransitive(key(x), key(s[0]), key(s[j - 1]));
      }
    }
  }

  lemma InsertBehind<T>(x: T, s: seq<T>, key: T -> string)
    requires s != [] && SortedBy(s, key) && !StrLe(key(x), key(s[0]))
    requires SortedBy(Insert(x, s[1..], key), key)
    requires forall y :: y in Insert(x, s[1..], key) ==> y == x || y in s[1..]
    ensures SortedBy([s[0]] + Insert(x, s[1..], key), key)
  {
    var rest := Insert(x, s[1..], key);
    StrLeTotal(key(x), key(s[0]));
    forall y | y in rest ensures StrLe(key(s[0]), key(y)) {
      if y != x {
        var k :| 0 <= k < |s[1..]| && s[1..][k] == y;
        assert y == s[k + 1];
      }
    }
    ConsSorted(s[0], rest, key);
  }

  /** A sorted sequence stays sorted behind a head that no element is below. */
  lemma ConsSorted<T>(h: T, rest: seq<T>, key: T -> string)
    requires SortedBy(rest, key) && forall y :: y in rest ==> StrLe(key(h), key(y))
    ensures SortedBy([h] + rest, key)
  {
    var r := [h] + rest;
    forall i, j | 0 <= i < j < |r| ensures StrLe(key(r[i]), key(r[j])) {
      if i == 0 {
        assert r[j] == rest[j - 1];
      } else {
        assert r[i] == rest[i - 1] && r[j] == rest[j - 1];
      }
    }
  }

  /** Ascending sort by `key` (what `sort_values` / `sort_index` do): a sorted permutation. */
  function SortBy<T>(s: seq<T>, key: T -> string): (r: seq<T>)
    ensures multiset(r) == multiset(s)
    ensures SortedBy(r, key)
  {
    if s == [] then []
    else
      assert s == [s[0]] + s[1..];
      InsertSorted(s[0], SortBy(s[1..], key), key);
      Insert(s[0], SortBy(s[1..], key), key)
  }

  /** Deleting elements from a sorted sequence leaves it sorted. */
  lemma {:induction false} SubseqOfSorted<T>(r: seq<T>, s: seq<T>, key: T -> string)
    requires SubseqOf(r, s) && SortedBy(s, key)
    ensures SortedBy(r, key)
    decreases |s|
  {
    if r != [] {
      if r[0] == s[0] && SubseqOf(r[1..], s[1..]) {
        SubseqOfSorted(r[1..], s[1..], key);
        SubseqOfMembers(r[1..], s[1..]);
        forall i, j | 0 <= i < j < |r| ensures StrLe(key(r[i]), key(r[j])) {
          if i == 0 {
            assert r[j] == r[1..][j - 1];
            assert r[j] in s[1..];
            var k :| 0 <= k < |s[1..]| && s[1..][k] == r[j];
            assert s[k + 1] == r[j];
          } else {
            assert r[i] == r[1..][i - 1] && r[j] == r[1..][j - 1];
          }
        }
      } else {
        SubseqOfSorted(r, s[1..], key);
      }
    }
  }

  /** Sorting what is already sorted changes nothing. */
  lemma {:induction false} SortSorted<T>(s: seq<T>, key: T -> string)
    requires SortedBy(s, key)
    ensures SortBy(s, key) == s
  {
    if s != [] {
      assert SortedBy(s[1..], key);
      SortSorted(s[1..], key);
    }
  }

  /** Inserts `x` into a strictly ascending list unless it is already there. */
  function InsertUnique(x: string, s: seq<string>): (r: seq<string>)
    requires StrictlyAscending(s)
    ensures StrictlyAscending(r)
    ensures forall y :: y in r <==> y == x || y in s
  {
    if s == [] then [x]
    else if x == s[0] then s
    else if StrLess(x, s[0]) then
      var r := [x] + s;
      forall j | 1 < j < |r| ensures StrLess(x, r[j]) {
        StrLessTransitive(x, s[0], s[j - 1]);
      }
      r
    else
      var rest := InsertUnique(x, s[1..]);
      var r := [s[0]] + rest;
      StrLessTotal(x, s[0]);
      assert forall y :: y in s <==> y == s[0] || y in s[1..];
      forall i, j | 0 <= i < j < |r| ensures StrLess(r[i], r[j]) {
        if i == 0 {
          assert r[j] in rest;
        } else {
          assert r[i] == rest[i - 1] && r[j] == rest[j - 1];
        }
      }
      r
  }

  /** The distinct elements of `s` in ascending order (pandas' sorted group keys). */
  function SortedUnique(s: seq<string>): (r: seq<string>)
    ensures StrictlyAscending(r)
    ensures forall y :: y in r <==> y in s
  {
    if s == [] then []
    else
      assert forall y :: y in s <==> y == s[0] || y in s[1..];
      InsertUnique(s[0], SortedUnique(s[1..]))
  }
}
