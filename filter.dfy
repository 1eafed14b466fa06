/**
 * The rolling-window outlier kernel of `src/piogrowth/filter.py`: is the
 * middle element of a window outside [q1 - f*iqr, q3 + f*iqr], the quartiles
 * taken over the window's non-missing values?
 */
module OutlierFilter {
  import opened Base
  import opened Quantiles

  /** The tested element: position `len(window) // 2`. */
  function Center(w: seq<Cell>): Cell
    requires |w| > 0
  {
    w[|w| / 2]
  }

  /** Lower quartile of the non-missing window values. */
  function Q1(w: seq<Cell>): real
    requires |NonMissing(w)| > 0
  {
    Quantile(NonMissing(w), 0.25)
  }

  /** Upper quartile of the non-missing window values. */
  function Q3(w: seq<Cell>): real
    requires |NonMissing(w)| > 0
  {
    Quantile(NonMissing(w), 0.75)
  }

  /** The lower quartile never exceeds the upper one, so the iqr is non-negative. */
  lemma QuartilesOrdered(w: seq<Cell>)
    requires |NonMissing(w)| > 0
    ensures Q1(w) <= Q3(w)
  {
    QuantileMonotone(NonMissing(w), 0.25, 0.75);
  }

  /** Lower bound `q1 - factor * iqr`. */
  function LowerFence(q1: real, q3: real, factor: real): real {
    q1 - factor * (q3 - q1)
  }

  /** Upper bound `q3 + factor * iqr`. */
  function UpperFence(q1: real, q3: real, factor: real): real {
    q3 + factor * (q3 - q1)
  }

  /** The strict comparison against both bounds. */
  predicate Outside(c: real, q1: real, q3: real, factor: real) {
    c < LowerFence(q1, q3, factor) || c > UpperFence(q1, q3, factor)
  }

  /** `out_of_iqr(s, factor)`: a missing center is never an outlier; otherwise
      the center is one exactly when it lies strictly outside the bounds built
      from the quartiles of the window's non-missing values. */
  function OutOfIqr(w: seq<Cell>, factor: real): (r: bool)
    requires |w| > 0
    ensures Center(w).None? ==> !r
    ensures Center(w).Some? ==> |NonMissing(w)| > 0
    ensures Center(w).Some? ==> (r <==> Outside(Center(w).value, Q1(w), Q3(w), factor))
  {
    var center := Center(w);
    if center.None? then false
    else
      assert center.value in NonMissing(w);
      Outside(center.value, Q1(w), Q3(w), factor)
  }

  /** For a non-negative factor the bounds enclose the quartiles. */
  lemma FencesEncloseQuartiles(q1: real, q3: real, factor: real)
    requires q1 <= q3 && factor >= 0.0
    ensures LowerFence(q1, q3, factor) <= q1 && q3 <= UpperFence(q1, q3, factor)
  {
    MulNonneg(factor, q3 - q1);
  }

  /** A larger factor gives wider bounds. */
  lemma FencesWiden(q1: real, q3: real, f1: real, f2: real)
    requires q1 <= q3 && f1 <= f2
    ensures LowerFence(q1, q3, f2) <= LowerFence(q1, q3, f1)
    ensures UpperFence(q1, q3, f1) <= UpperFence(q1, q3, f2)
  {
    MulNonneg(f2 - f1, q3 - q1);
    assert (f2 - f1) * (q3 - q1) == f2 * (q3 - q1) - f1 * (q3 - q1);
  }

  /** A center on or between the quartiles is never an outlier, whatever the
      non-negative factor. */
  lemma InsideQuartilesNotOutlier(w: seq<Cell>, factor: real)
    requires |w| > 0 && Center(w).Some? && factor >= 0.0
    requires |NonMissing(w)| > 0 && Q1(w) <= Center(w).value <= Q3(w)
    ensures !OutOfIqr(w, factor)
  {
    FencesEncloseQuartiles(Q1(w), Q3(w), factor);
  }

  /** The comparisons are strict: a center equal to a bound is kept. */
  lemma CenterOnBoundNotOutlier(w: seq<Cell>, factor: real)
    requires |w| > 0 && Center(w).Some? && factor >= 0.0 && |NonMissing(w)| > 0
    requires Center(w).value == LowerFence(Q1(w), Q3(w), factor) ||
             Center(w).value == UpperFence(Q1(w), Q3(w), factor)
    ensures !OutOfIqr(w, factor)
  {
    QuartilesOrdered(w);
    FencesEncloseQuartiles(Q1(w), Q3(w), factor);
  }

  /** A window whose non-missing values are all equal flags nothing. */
  lemma ConstantWindowNotOutlier(w: seq<Cell>, v: real, factor: real)
    requires |w| > 0 && forall i :: 0 <= i < |w| ==> w[i].None? || w[i] == Some(v)
    ensures !OutOfIqr(w, factor)
  {
    if Center(w).Some? {
      var vs := NonMissing(w);
      assert Center(w).value in vs;
      forall j | 0 <= j < |vs| ensures v <= vs[j] <= v {
        assert vs[j] in vs;
        assert Some(vs[j]) in w;
      }
      QuantileWithinRange(vs, 0.25, v, v);
      QuantileWithinRange(vs, 0.75, v, v);
      assert Center(w).value == v;
    }
  }

  /** Raising the factor widens the bounds, so it can only turn `true` into
      `false`. */
  lemma MonotoneInFactor(w: seq<Cell>, f1: real, f2: real)
    requires |w| > 0 && f1 <= f2
    ensures OutOfIqr(w, f2) ==> OutOfIqr(w, f1)
  {
    if Center(w).Some? {
      QuartilesOrdered(w);
      FencesWiden(Q1(w), Q3(w), f1, f2);
    }
  }

  /** With a zero iqr (both quartiles equal) any center that differs from
      them is an outlier, whatever the factor. */
  lemma ZeroIqrFlagsAnyDeparture(w: seq<Cell>, factor: real)
    requires |w| > 0 && Center(w).Some? && |NonMissing(w)| > 0 && Q1(w) == Q3(w)
    ensures OutOfIqr(w, factor) <==> Center(w).value != Q1(w)
  {
  }

  /** A nine-value window whose center differs from the eight equal values
      around it: both quartiles are those values, the iqr is 0, and the center
      is an outlier for any factor. */
  lemma SpikeIsOutlier(w: seq<Cell>, a: real, b: real, factor: real)
    requires a != b
    requires w == [Some(a), Some(a), Some(a), Some(a), Some(b), Some(a), Some(a), Some(a), Some(a)]
    ensures OutOfIqr(w, factor)
  {
    SpikeValues(w, a, b);
    NonMissingOfPresent([a, a, a, a, b, a, a, a, a]);
    SpikeWindow(w, a, b, factor);
  }

  lemma SpikeValues(w: seq<Cell>, a: real, b: real)
    requires w == [Some(a), Some(a), Some(a), Some(a), Some(b), Some(a), Some(a), Some(a), Some(a)]
    ensures w == Present([a, a, a, a, b, a, a, a, a]) && Center(w) == Some(b)
  {
  }

  /** The window [1, 1, 1, 1, 100, 1, 1, 1, 1] is flagged. */
  lemma ExampleSpike(factor: real)
    ensures OutOfIqr([Some(1.0), Some(1.0), Some(1.0), Some(1.0), Some(100.0),
                      Some(1.0), Some(1.0), Some(1.0), Some(1.0)], factor)
  {
    SpikeIsOutlier([Some(1.0), Some(1.0), Some(1.0), Some(1.0), Some(100.0),
                    Some(1.0), Some(1.0), Some(1.0), Some(1.0)], 1.0, 100.0, factor);
  }

  lemma SpikeWindow(w: seq<Cell>, a: real, b: real, factor: real)
    requires a != b && |w| > 0 && Center(w) == Some(b)
    requires NonMissing(w) == [a, a, a, a, b, a, a, a, a]
    ensures OutOfIqr(w, factor)
  {
    SpikeQuartiles(a, b, NonMissing(w));
    ZeroIqrFlagsAnyDeparture(w, factor);
  }

  /** Cells holding the given values, none missing. */
  function Present(vs: seq<real>): (w: seq<Cell>)
    ensures |w| == |vs| && forall i :: 0 <= i < |vs| ==> w[i] == Some(vs[i])
  {
    seq(|vs|, i requires 0 <= i < |vs| => Some(vs[i]))
  }

  /** Dropping missing values from cells that have none gives the values. */
  lemma {:induction false} NonMissingOfPresent(vs: seq<real>)
    ensures NonMissing(Present(vs)) == vs
  {
    if vs != [] {
      NonMissingOfPresent(vs[1..]);
      assert Present(vs)[1..] == Present(vs[1..]);
    }
  }

  /** Both quartiles of the spiked values are the repeated value: sorted,
      it sits at ranks 2, 3, 6 and 7. */
  lemma SpikeQuartiles(a: real, b: real, vs: seq<real>)
    requires a != b && vs == [a, a, a, a, b, a, a, a, a]
    ensures Quantile(vs, 0.25) == a && Quantile(vs, 0.75) == a
  {
    if a < b {
      var xs := [a, a, a, a, a, a, a, a, b];
      SpikeArrangedUp(a, b, vs, xs);
      SpikeSortedUp(xs, a, b);
      SpikeRanks(vs, xs, a);
    } else {
      var xs := [b, a, a, a, a, a, a, a, a];
      SpikeArrangedDown(a, b, vs, xs);
      SpikeSortedDown(xs, a, b);
      SpikeRanks(vs, xs, a);
    }
  }

  lemma MultisetSwap(p: seq<real>, q: seq<real>, r: seq<real>)
    ensures multiset(p + q + r) == multiset(p + r + q)
  {
  }

  lemma MultisetRotate(p: seq<real>, q: seq<real>)
    ensures multiset(p + q) == multiset(q + p)
  {
  }

  lemma SpikeArrangedUp(a: real, b: real, vs: seq<real>, xs: seq<real>)
    requires vs == [a, a, a, a, b, a, a, a, a] && xs == [a, a, a, a, a, a, a, a, b]
    ensures multiset(xs) == multiset(vs)
  {
    var four := [a, a, a, a];
    assert vs == four + [b] + four;
    assert xs == four + four + [b];
    MultisetSwap(four, [b], four);
  }

  lemma SpikeArrangedDown(a: real, b: real, vs: seq<real>, xs: seq<real>)
    requires vs == [a, a, a, a, b, a, a, a, a] && xs == [b, a, a, a, a, a, a, a, a]
    ensures multiset(xs) == multiset(vs)
  {
    var four := [a, a, a, a];
    assert vs == four + [b] + four;
    assert xs == [b] + (four + four);
    MultisetSwap(four, [b], four);
    MultisetRotate(four + four, [b]);
  }

  lemma SpikeSortedUp(xs: seq<real>, a: real, b: real)
    requires a < b && xs == [a, a, a, a, a, a, a, a, b]
    ensures Sorted(xs) && |xs| == 9 && xs[2] == a && xs[3] == a && xs[6] == a && xs[7] == a
  {
  }

  lemma SpikeSortedDown(xs: seq<real>, a: real, b: real)
    requires b < a && xs == [b, a, a, a, a, a, a, a, a]
    ensures Sorted(xs) && |xs| == 9 && xs[2] == a && xs[3] == a && xs[6] == a && xs[7] == a
  {
  }

  /** Nine values whose sorted arrangement holds `a` at ranks 2, 3, 6 and 7
      have `a` as both quartiles. */
  lemma SpikeRanks(vs: seq<real>, xs: seq<real>, a: real)
    requires multiset(xs) == multiset(vs) && Sorted(xs) && |xs| == 9
    requires xs[2] == a && xs[3] == a && xs[6] == a && xs[7] == a
    ensures Quantile(vs, 0.25) == a && Quantile(vs, 0.75) == a
  {
    assert |vs| == 9 by { assert |multiset(vs)| == |multiset(xs)|; }
    QuantileOfArrangement(vs, xs, 0.25);
    QuantileOfArrangement(vs, xs, 0.75);
    NineQuartiles(xs, a);
  }

  lemma NineQuartiles(xs: seq<real>, a: real)
    requires Sorted(xs) && |xs| == 9
    requires xs[2] == a && xs[3] == a && xs[6] == a && xs[7] == a
    ensures QuantileSorted(xs, 0.25) == a && QuantileSorted(xs, 0.75) == a
  {
    NineRanks();
  }

  lemma NineRanks()
    ensures Rank(9, 0.25) == 2 && Rank(9, 0.75) == 6
  {
    assert 8.0 * 0.25 == 2.0 && 8.0 * 0.75 == 6.0;
  }
}
