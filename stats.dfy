/**
 * The statistics the cleaners and the join engine use, in exact rational arithmetic:
 * the mean `Series.mean()` takes over observed values, and the linear-interpolation
 * quartiles of `Series.quantile` behind Tukey's outlier fences.
 */
module Stats {
  import opened Wrappers

  function Sum(xs: seq<real>): real {
    if xs == [] then 0.0 else xs[0] + Sum(xs[1..])
  }

  lemma {:induction false} SumBounds(xs: seq<real>, lo: real, hi: real)
    requires forall i :: 0 <= i < |xs| ==> lo <= xs[i] <= hi
    ensures |xs| as real * lo <= Sum(xs) <= |xs| as real * hi
  {
    if xs != [] {
      SumBounds(xs[1..], lo, hi);
    }
  }

  function Mean(xs: seq<real>): real
    requires |xs| > 0
  {
    Sum(xs) / |xs| as real
  }

  /** The mean lies between any lower and upper bound of the values. */
  lemma MeanBetween(xs: seq<real>, lo: real, hi: real)
    requires |xs| > 0
    requires forall i :: 0 <= i < |xs| ==> lo <= xs[i] <= hi
    ensures lo <= Mean(xs) <= hi
  {
    SumBounds(xs, lo, hi);
    var n := |xs| as real;
    assert Sum(xs) / n >= lo by {
      assert Sum(xs) >= n * lo;
    }
    assert Sum(xs) / n <= hi by {
      assert Sum(xs) <= n * hi;
    }
  }

  // ---------------------------------------------------------------- sorting

  ghost predicate Ascending(v: seq<real>) {
    forall i, j :: 0 <= i < j < |v| ==> v[i] <= v[j]
  }

  function InsertReal(x: real, v: seq<real>): (r: seq<real>)
    ensures multiset(r) == multiset(v) + multiset{x}
  {
    if v == [] then [x]
    else if x <= v[0] then [x] + v
    else
      assert v == [v[0]] + v[1..];
      [v[0]] + InsertReal(x, v[1..])
  }

  /** Inserting into an ascending sequence keeps it ascending. */
  lemma {:induction false} InsertRealAscending(x: real, v: seq<real>)
    requires Ascending(v)
    ensures Ascending(InsertReal(x, v))
  {
    if v != [] && x > v[0] {
      InsertRealAscending(x, v[1..]);
      var rest := InsertReal(x, v[1..]);
      var r := InsertReal(x, v);
      assert r == [v[0]] + rest;
      assert v == [v[0]] + v[1..];
      forall i, j | 0 <= i < j < |r| ensures r[i] <= r[j] {
        if i == 0 {
          assert r[j] in multiset(rest);
          assert r[j] == x || r[j] in v[1..];
        } else {
          assert r[i] == rest[i - 1] && r[j] == rest[j - 1];
        }
      }
    }
  }

  function SortReals(xs: seq<real>): (r: seq<real>)
    ensures Ascending(r)
    ensures multiset(r) == multiset(xs)
  {
    if xs == [] then []
    else
      assert xs == [xs[0]] + xs[1..];
      InsertRealAscending(xs[0], SortReals(xs[1..]));
      InsertReal(xs[0], SortReals(xs[1..]))
  }

  // ---------------------------------------------------------------- quantiles

  /**
   * The value at position h/4 of ascending values, by linear interpolation between the two
   * neighbours: v[h / 4] + (h % 4)/4 * (v[h / 4 + 1] - v[h / 4]).
   */
  function ValueAt(v: seq<real>, h: nat): real
    requires h <= 4 * (|v| - 1)
  {
    if h % 4 == 0 then v[h / 4] else v[h / 4] + ((h % 4) as real / 4.0) * (v[h / 4 + 1] - v[h / 4])
  }

  /**
   * The `quarters`/4 quantile of ascending values by linear interpolation (numpy's default
   * method, which `Series.quantile` uses): position quarters * (n - 1) / 4.
   */
  function QuantileOfSorted(v: seq<real>, quarters: nat): real
    requires |v| > 0 && quarters <= 4
  {
    assert quarters * (|v| - 1) <= 4 * (|v| - 1);
    ValueAt(v, quarters * (|v| - 1))
  }

  /** `Series.quantile(q)` for q = quarters / 4, over the given observed values. */
  function Quantile(xs: seq<real>, quarters: nat): real
    requires |xs| > 0 && quarters <= 4
  {
    var v := SortReals(xs);
    assert |v| == |multiset(v)| == |xs|;
    QuantileOfSorted(v, quarters)
  }

  lemma InterpolationBetween(a: real, b: real, f: real)
    requires a <= b && 0.0 <= f <= 1.0
    ensures a <= a + f * (b - a) <= b
  {
    assert f * (b - a) <= 1.0 * (b - a);
  }

  /** An interpolated value lies between the sample values around its position. */
  lemma ValueAtBracket(v: seq<real>, h: nat)
    requires h <= 4 * (|v| - 1) && Ascending(v)
    ensures v[h / 4] <= ValueAt(v, h)
    ensures h % 4 != 0 ==> h / 4 + 1 < |v| && ValueAt(v, h) <= v[h / 4 + 1]
  {
    if h % 4 != 0 {
      InterpolationBetween(v[h / 4], v[h / 4 + 1], (h % 4) as real / 4.0);
    }
  }

  lemma InterpolationMonotone(a: real, b: real, f1: real, f2: real)
    requires a <= b && f1 <= f2
    ensures a + f1 * (b - a) <= a + f2 * (b - a)
  {
    MulNonNegative(f2 - f1, b - a);
    assert f2 * (b - a) - f1 * (b - a) == (f2 - f1) * (b - a);
  }

  lemma MulNonNegative(x: real, y: real)
    requires x >= 0.0 && y >= 0.0
    ensures x * y >= 0.0
  {
  }

  /** Interpolated values grow with their position. */
  lemma ValueAtMonotone(v: seq<real>, g: nat, h: nat)
    requires g <= h <= 4 * (|v| - 1) && Ascending(v)
    ensures ValueAt(v, g) <= ValueAt(v, h)
  {
    ValueAtBracket(v, g);
    ValueAtBracket(v, h);
    if g / 4 < h / 4 {
      if g % 4 != 0 {
        assert v[g / 4 + 1] <= v[h / 4];
      } else {
        assert v[g / 4] <= v[h / 4];
      }
    } else {
      assert h / 4 == g / 4 && g % 4 <= h % 4;
      if g % 4 != 0 {
        var q := g / 4;
        var f1, f2 := (g % 4) as real / 4.0, (h % 4) as real / 4.0;
        assert ValueAt(v, g) == v[q] + f1 * (v[q + 1] - v[q]);
        assert ValueAt(v, h) == v[q] + f2 * (v[q + 1] - v[q]);
        InterpolationMonotone(v[q], v[q + 1], f1, f2);
      }
    }
  }

  /** A larger quantile is never smaller, which makes Q1 <= Q3. */
  lemma QuantileMonotone(v: seq<real>, a: nat, b: nat)
    requires |v| > 0 && a <= b <= 4 && Ascending(v)
    ensures QuantileOfSorted(v, a) <= QuantileOfSorted(v, b)
  {
    var n := |v| - 1;
    assert a * n <= b * n <= 4 * n;
    ValueAtMonotone(v, a * n, b * n);
  }

  /** Every quantile lies between the smallest and the largest value. */
  lemma QuantileWithinRange(v: seq<real>, quarters: nat)
    requires |v| > 0 && quarters <= 4 && Ascending(v)
    ensures v[0] <= QuantileOfSorted(v, quarters) <= v[|v| - 1]
  {
    QuantileMonotone(v, 0, quarters);
    QuantileMonotone(v, quarters, 4);
  }

  // ---------------------------------------------------------------- Tukey fences

  /**
   * Tukey's fences [Q1 - 1.5 IQR, Q3 + 1.5 IQR] over the observed values; `None` on an empty
   * column, where pandas' quantiles are NaN and no value compares outside them.
   */
  function Fences(xs: seq<real>): (f: Option<(real, real)>) {
    if xs == [] then None
    else
      var q1 := Quantile(xs, 1);
      var q3 := Quantile(xs, 3);
      var iqr := q3 - q1;
      Some((q1 - 1.5 * iqr, q3 + 1.5 * iqr))
  }

  /** `x < lower or x > upper`; with NaN fences nothing is an outlier. */
  predicate OutsideFences(f: Option<(real, real)>, x: real) {
    match f
    case None => false
    case Some((lower, upper)) => x < lower || x > upper
  }

  /** The fences are ordered and enclose the whole interquartile range. */
  lemma FencesOrdered(xs: seq<real>)
    requires xs != []
    ensures Fences(xs).Some?
    ensures Fences(xs).value.0 <= Quantile(xs, 1) <= Quantile(xs, 3) <= Fences(xs).value.1
  {
    var v := SortReals(xs);
    assert |v| == |multiset(v)| == |xs|;
    QuantileMonotone(v, 1, 3);
  }

  /** A value between the quartiles is never flagged. */
  lemma InterquartileNotOutside(xs: seq<real>, x: real)
    requires xs != [] && Quantile(xs, 1) <= x <= Quantile(xs, 3)
    ensures !OutsideFences(Fences(xs), x)
  {
    FencesOrdered(xs);
  }
}
