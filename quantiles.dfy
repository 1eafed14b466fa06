/**
 * Quantiles with linear interpolation over the sorted non-missing values,
 * the rule pandas' `Series.quantile` and rolling `median` follow. Exact over
 * `real`: no floating-point rounding is modelled.
 */
module Quantiles {
  import opened Base

  predicate Sorted(s: seq<real>) {
    forall i, j :: 0 <= i < j < |s| ==> s[i] <= s[j]
  }

  function Insert(x: real, s: seq<real>): (r: seq<real>)
    requires Sorted(s)
    ensures |r| == |s| + 1
    ensures r[0] == x || (s != [] && r[0] == s[0])
    ensures Sorted(r)
  {
    if s == [] || x <= s[0] then [x] + s
    else [s[0]] + Insert(x, s[1..])
  }

  /** Insertion adds exactly the inserted value. */
  lemma {:induction false} InsertMultiset(x: real, s: seq<real>)
    requires Sorted(s)
    ensures multiset(Insert(x, s)) == multiset(s) + multiset{x}
  {
    if s != [] && x > s[0] {
      InsertMultiset(x, s[1..]);
      assert s == [s[0]] + s[1..];
    }
  }

  /** The values in ascending order. */
  function Sort(s: seq<real>): (r: seq<real>)
    ensures Sorted(r)
    ensures multiset(r) == multiset(s)
    ensures |r| == |s|
  {
    if s == [] then []
    else
      assert s == [s[0]] + s[1..];
      InsertMultiset(s[0], Sort(s[1..]));
      Insert(s[0], Sort(s[1..]))
  }

  /** The least element of a sorted sequence is its first. */
  lemma SortedHeadIsMin(s: seq<real>, y: real)
    requires Sorted(s) && y in s
    ensures s[0] <= y
  {
  }

  /** A sorted arrangement of a multiset is unique: sorting depends only on
      which values occur, and how often. */
  lemma {:induction false} SortedUnique(a: seq<real>, b: seq<real>)
    requires Sorted(a) && Sorted(b) && multiset(a) == multiset(b)
    ensures a == b
  {
    assert |a| == |multiset(a)| == |multiset(b)| == |b|;
    if a != [] {
      SortedHeadsMatch(a, b);
      MultisetTail(a);
      MultisetTail(b);
      SortedUnique(a[1..], b[1..]);
      assert a == [a[0]] + a[1..] && b == [b[0]] + b[1..];
    }
  }

  /** Two sorted arrangements of one multiset start with the same value. */
  lemma SortedHeadsMatch(a: seq<real>, b: seq<real>)
    requires Sorted(a) && Sorted(b) && multiset(a) == multiset(b) && a != [] && b != []
    ensures a[0] == b[0]
  {
    assert a[0] in multiset(b);
    assert b[0] in multiset(a);
    SortedHeadIsMin(a, b[0]);
    SortedHeadIsMin(b, a[0]);
  }

  /** Dropping the head of a sorted sequence leaves a sorted sequence of the
      remaining values. */
  lemma MultisetTail(s: seq<real>)
    requires Sorted(s) && s != []
    ensures Sorted(s[1..]) && multiset(s[1..]) == multiset(s) - multiset{s[0]}
  {
    assert s == [s[0]] + s[1..];
  }

  /** `Sort` is the sorted arrangement of its input. */
  lemma SortIsSortedArrangement(s: seq<real>, t: seq<real>)
    requires Sorted(t) && multiset(t) == multiset(s)
    ensures Sort(s) == t
  {
    SortedUnique(Sort(s), t);
  }

  /** The integer part of the fractional rank (n-1)q. */
  function Rank(n: nat, q: real): (k: int)
    requires n > 0 && 0.0 <= q <= 1.0
    ensures 0 <= k <= n - 1
  {
    MulNonneg((n - 1) as real, q);
    MulNonneg((n - 1) as real, 1.0 - q);
    ((n - 1) as real * q).Floor
  }

  /**
   * The `q`-quantile of a sorted, non-empty sample with linear interpolation:
   * at fractional rank h = (n-1)q, interpolate between ranks floor(h) and
   * floor(h)+1.
   */
  function QuantileSorted(xs: seq<real>, q: real): (r: real)
    requires |xs| > 0 && Sorted(xs) && 0.0 <= q <= 1.0
  {
    var lo := Rank(|xs|, q);
    var frac := (|xs| - 1) as real * q - lo as real;
    if lo + 1 < |xs| then xs[lo] + frac * (xs[lo + 1] - xs[lo]) else xs[lo]
  }

  /** The quantile lies between the two order statistics around its rank. */
  lemma QuantileSortedBracket(xs: seq<real>, q: real)
    requires |xs| > 0 && Sorted(xs) && 0.0 <= q <= 1.0
    ensures var lo := Rank(|xs|, q);
            xs[lo] <= QuantileSorted(xs, q) <= xs[if lo + 1 < |xs| then lo + 1 else lo]
  {
    var lo := Rank(|xs|, q);
    var frac := (|xs| - 1) as real * q - lo as real;
    if lo + 1 < |xs| {
      InterpolationBetween(xs[lo], xs[lo + 1], frac);
    }
  }

  /** Linear interpolation with a weight in [0, 1] stays between its ends. */
  lemma InterpolationBetween(a: real, b: real, f: real)
    requires a <= b && 0.0 <= f <= 1.0
    ensures a <= a + f * (b - a) <= b
  {
    MulNonneg(f, b - a);
    MulNonneg(1.0 - f, b - a);
    assert (1.0 - f) * (b - a) == (b - a) - f * (b - a);
  }

  lemma MulNonneg(a: real, b: real)
    requires 0.0 <= a && 0.0 <= b
    ensures 0.0 <= a * b
  {
  }

  /** Quantile of the non-missing values of a sample (pandas skips NaN): it
      lies between the smallest and the largest of them. */
  function Quantile(vs: seq<real>, q: real): (r: real)
    requires |vs| > 0 && 0.0 <= q <= 1.0
    ensures exists j :: 0 <= j < |vs| && vs[j] <= r
    ensures exists j :: 0 <= j < |vs| && r <= vs[j]
  {
    var xs := Sort(vs);
    QuantileSortedBracket(xs, q);
    assert xs[0] in multiset(vs) && xs[|xs| - 1] in multiset(vs);
    QuantileSorted(xs, q)
  }

  /** The quantile of a sample is that of any sorted arrangement of it. */
  lemma QuantileOfArrangement(vs: seq<real>, xs: seq<real>, q: real)
    requires Sorted(xs) && multiset(xs) == multiset(vs) && |xs| == |vs| > 0 && 0.0 <= q <= 1.0
    ensures Quantile(vs, q) == QuantileSorted(xs, q)
  {
    SortIsSortedArrangement(vs, xs);
  }

  /** The quantile lies between the smallest and the largest value. */
  lemma QuantileWithinRange(vs: seq<real>, q: real, lo: real, hi: real)
    requires |vs| > 0 && 0.0 <= q <= 1.0
    requires forall j :: 0 <= j < |vs| ==> lo <= vs[j] <= hi
    ensures lo <= Quantile(vs, q) <= hi
  {
    var xs := Sort(vs);
    QuantileSortedBracket(xs, q);
    assert xs[0] in multiset(vs) && xs[|xs| - 1] in multiset(vs);
  }

  /** Monotone in the level: a higher level never gives a smaller quantile. */
  lemma QuantileSortedMonotone(xs: seq<real>, p: real, q: real)
    requires |xs| > 0 && Sorted(xs) && 0.0 <= p <= q <= 1.0
    ensures QuantileSorted(xs, p) <= QuantileSorted(xs, q)
  {
    var n1 := (|xs| - 1) as real;
    var hp, hq := n1 * p, n1 * q;
    MulNonneg(n1, q - p);
    assert n1 * (q - p) == hq - hp;
    var lp, lq := Rank(|xs|, p), Rank(|xs|, q);
    assert lp <= lq;
    QuantileSortedBracket(xs, p);
    QuantileSortedBracket(xs, q);
    if lp < lq {
      // the lower quantile is at most xs[lp + 1] <= xs[lq], at most the upper one
      assert QuantileSorted(xs, p) <= xs[lp + 1] <= xs[lq];
    } else if lp + 1 < |xs| {
      var fp, fq := hp - lp as real, hq - lq as real;
      var d := xs[lp + 1] - xs[lp];
      MulNonneg(fq - fp, d);
      assert (fq - fp) * d == fq * d - fp * d;
      assert QuantileSorted(xs, p) == xs[lp] + fp * d;
      assert QuantileSorted(xs, q) == xs[lp] + fq * d;
    }
  }

  lemma QuantileMonotone(vs: seq<real>, p: real, q: real)
    requires |vs| > 0 && 0.0 <= p <= q <= 1.0
    ensures Quantile(vs, p) <= Quantile(vs, q)
  {
    QuantileSortedMonotone(Sort(vs), p, q);
  }

  /** Level 1 gives the largest value. */
  lemma QuantileOneIsMax(vs: seq<real>)
    requires |vs| > 0
    ensures forall j :: 0 <= j < |vs| ==> vs[j] <= Quantile(vs, 1.0)
  {
    var xs := Sort(vs);
    assert Rank(|xs|, 1.0) == |xs| - 1;
    forall j | 0 <= j < |vs| ensures vs[j] <= xs[|xs| - 1] {
      assert vs[j] in multiset(xs);
    }
  }

  /** The rolling median, the 0.5-quantile: the middle sorted value for an
      odd count and the mean of the two middle ones for an even count. */
  function Median(vs: seq<real>): (m: real)
    requires |vs| > 0
    ensures var xs := Sort(vs); var n := |xs|;
            m == if n % 2 == 1 then xs[n / 2] else (xs[n / 2 - 1] + xs[n / 2]) / 2.0
  {
    MiddleOfSorted(Sort(vs));
    Quantile(vs, 0.5)
  }

  /** The 0.5-quantile of a sorted sample is its middle value for an odd
      count and the mean of its two middle values for an even count. */
  lemma MiddleOfSorted(xs: seq<real>)
    requires |xs| > 0 && Sorted(xs)
    ensures var n := |xs|;
            QuantileSorted(xs, 0.5) == if n % 2 == 1 then xs[n / 2] else (xs[n / 2 - 1] + xs[n / 2]) / 2.0
  {
    var n := |xs|;
    var h := (n - 1) as real * 0.5;
    if n % 2 == 1 {
      assert (n - 1) as real == 2.0 * (n / 2) as real;
      assert h == (n / 2) as real;
      assert Rank(n, 0.5) == n / 2;
    } else {
      assert (n - 1) as real == 2.0 * (n / 2 - 1) as real + 1.0;
      assert h == (n / 2 - 1) as real + 0.5;
      assert Rank(n, 0.5) == n / 2 - 1;
    }
  }
}
