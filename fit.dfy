/**
 * Spline-fit orchestration of `src/piogrowth/fit.py`. The spline library
 * (`make_splrep`, `splev`, `.derivative`) is a parameter: given the elapsed
 * seconds, the values and the smoothing factor, it yields the fitted value
 * and the first derivative at one elapsed time. Everything around it is
 * modelled: missing-value handling and the error order of the single fit,
 * the per-column batch, the segmentation between peaks, and the per-reactor
 * loop of the peak-based fit.
 */
module Fit {
  import opened Base

  /** Fitted value and first derivative of the spline at one point. */
  datatype SplinePoint = SplinePoint(value: real, slope: real)

  /** The spline library: (elapsed seconds, values, smoothing, x) to the
      fitted value and slope at x. */
  type Spline = (seq<int>, seq<real>, real, int) -> SplinePoint

  /** The exceptions the fitting code raises. */
  datatype FitError =
    | NotEnoughData            // ValueError: fewer than 4 non-missing values
    | IndexNotDatetime         // TypeError: the index is not of datetime type
    | ContainsMissing          // AssertionError in the batch variant
    | NoSegments               // ValueError of `pd.concat([])`
    | MissingColumn(name: string) // KeyError: no peaks column for a reactor

  /** A fitted series and its derivative, both indexed by time. */
  datatype SeriesFit = SeriesFit(fitted: seq<Point>, deriv: seq<Point>)

  // ---------------------------------------------------------------------------
  // fit_spline_and_derivatives

  /** Seconds elapsed since the first timestamp. */
  function Elapsed(ts: seq<Timestamp>): (xs: seq<int>)
    ensures |xs| == |ts|
    ensures |ts| > 0 ==> xs[0] == 0
    ensures forall i :: 0 <= i < |ts| ==> xs[i] == ts[i] - ts[0]
  {
    seq(|ts|, i requires 0 <= i < |ts| => ts[i] - ts[0])
  }

  /** Elapsed time ignores where the clock starts. */
  lemma ElapsedShiftInvariant(ts: seq<Timestamp>, d: int)
    ensures Elapsed(ShiftTimes(ts, d)) == Elapsed(ts)
  {
  }

  /** On an increasing index elapsed time is non-negative and increasing. */
  lemma ElapsedIncreasing(ts: seq<Timestamp>)
    requires StrictlyIncreasing(ts)
    ensures StrictlyIncreasing(Elapsed(ts))
    ensures forall i :: 0 <= i < |ts| ==> Elapsed(ts)[i] >= 0
  {
    forall i | 0 <= i < |ts| ensures Elapsed(ts)[i] >= 0 {
      if i > 0 { assert ts[0] < ts[i]; }
    }
  }

  function ShiftTimes(ts: seq<Timestamp>, d: int): (r: seq<Timestamp>)
    ensures |r| == |ts|
  {
    seq(|ts|, i requires 0 <= i < |ts| => ts[i] + d)
  }

  /** The spline through `ps` evaluated at each of its own timestamps. */
  function Evaluate(ps: seq<Point>, smoothing: real, spline: Spline): (r: seq<SplinePoint>)
    ensures |r| == |ps|
  {
    var xs, ys := Elapsed(Times(ps)), Values(ps);
    seq(|ps|, i requires 0 <= i < |ps| => spline(xs, ys, smoothing, xs[i]))
  }

  /** Pairs each timestamp of `ps` with the fitted value, or the slope. */
  function Attach(ps: seq<Point>, e: seq<SplinePoint>, slope: bool): (r: seq<Point>)
    requires |e| == |ps|
    ensures |r| == |ps| && Times(r) == Times(ps)
    ensures forall i :: 0 <= i < |ps| ==> r[i].y == if slope then e[i].slope else e[i].value
  {
    seq(|ps|, i requires 0 <= i < |ps| => Point(ps[i].t, if slope then e[i].slope else e[i].value))
  }

  /** The fit of missing-free points. */
  function FitPoints(ps: seq<Point>, smoothing: real, datetimeIndex: bool, spline: Spline)
    : (r: Result<SeriesFit, FitError>)
    ensures r == Err(NotEnoughData) <==> |ps| < 4
    ensures r == Err(IndexNotDatetime) <==> |ps| >= 4 && !datetimeIndex
    ensures r.Err? ==> r.error == NotEnoughData || r.error == IndexNotDatetime
    ensures r.Ok? ==> Times(r.value.fitted) == Times(ps) && Times(r.value.deriv) == Times(ps)
  {
    if |ps| < 4 then Err(NotEnoughData)
    else if !datetimeIndex then Err(IndexNotDatetime)
    else
      var e := Evaluate(ps, smoothing, spline);
      Ok(SeriesFit(Attach(ps, e, false), Attach(ps, e, true)))
  }

  /** The i-th fitted value and slope are the spline's through the points,
      keyed by seconds since the first of them, at the i-th elapsed time. */
  lemma FitPointsValues(ps: seq<Point>, smoothing: real, datetimeIndex: bool, spline: Spline)
    ensures var r := FitPoints(ps, smoothing, datetimeIndex, spline);
            r.Ok? ==> var xs := Elapsed(Times(ps));
              forall i :: 0 <= i < |ps| ==>
                r.value.fitted[i].y == spline(xs, Values(ps), smoothing, xs[i]).value &&
                r.value.deriv[i].y == spline(xs, Values(ps), smoothing, xs[i]).slope
  {
  }

  /**
   * `fit_spline_and_derivatives`: drop missing values; fewer than 4 left is
   * an error, checked before the index type; otherwise fit on elapsed
   * seconds and return fitted values and slopes on the surviving timestamps:
   * the i-th output is the spline through the non-missing samples, keyed by
   * seconds since the first of them, at the i-th of those elapsed times.
   */
  function FitSeries(s: seq<Sample>, smoothing: real, datetimeIndex: bool, spline: Spline)
    : (r: Result<SeriesFit, FitError>)
    ensures r == Err(NotEnoughData) <==> |DropNa(s)| < 4
    ensures r == Err(IndexNotDatetime) <==> |DropNa(s)| >= 4 && !datetimeIndex
    ensures r.Err? ==> r.error == NotEnoughData || r.error == IndexNotDatetime
    ensures r.Ok? ==>
              Times(r.value.fitted) == Times(DropNa(s)) &&
              Times(r.value.deriv) == Times(DropNa(s))
    ensures r.Ok? ==> var ps := DropNa(s); var xs := Elapsed(Times(ps));
              forall i :: 0 <= i < |ps| ==>
                r.value.fitted[i].y == spline(xs, Values(ps), smoothing, xs[i]).value &&
                r.value.deriv[i].y == spline(xs, Values(ps), smoothing, xs[i]).slope
  {
    FitPointsValues(DropNa(s), smoothing, datetimeIndex, spline);
    FitPoints(DropNa(s), smoothing, datetimeIndex, spline)
  }

  /** The fit only sees the non-missing samples. */
  lemma FitSeriesIgnoresMissing(s: seq<Sample>, smoothing: real, datetimeIndex: bool, spline: Spline)
    ensures FitSeries(AsSamples(DropNa(s)), smoothing, datetimeIndex, spline) ==
            FitSeries(s, smoothing, datetimeIndex, spline)
  {
    DropNaOfPoints(DropNa(s));
  }

  function ShiftSamples(s: seq<Sample>, d: int): (r: seq<Sample>)
    ensures |r| == |s| && forall i :: 0 <= i < |s| ==> r[i] == Sample(s[i].t + d, s[i].v)
  {
    if s == [] then [] else [Sample(s[0].t + d, s[0].v)] + ShiftSamples(s[1..], d)
  }

  function ShiftPoints(ps: seq<Point>, d: int): (r: seq<Point>)
    ensures |r| == |ps| && forall i :: 0 <= i < |ps| ==> r[i] == Point(ps[i].t + d, ps[i].y)
  {
    if ps == [] then [] else [Point(ps[0].t + d, ps[0].y)] + ShiftPoints(ps[1..], d)
  }

  /** Shifting the timestamps commutes with dropping missing values. */
  lemma {:induction false} DropNaShift(s: seq<Sample>, d: int)
    ensures DropNa(ShiftSamples(s, d)) == ShiftPoints(DropNa(s), d)
  {
    if s != [] {
      var t := ShiftSamples(s, d);
      assert t[1..] == ShiftSamples(s[1..], d);
      DropNaShift(s[1..], d);
      if s[0].v.Some? {
        var p := Point(s[0].t, s[0].v.value);
        var rest := DropNa(s[1..]);
        assert DropNa(s) == [p] + rest;
        assert ([p] + rest)[1..] == rest;
      }
    }
  }

  /** The spline sees elapsed times only, so shifted points evaluate alike. */
  lemma EvaluateShiftInvariant(ps: seq<Point>, d: int, smoothing: real, spline: Spline)
    ensures Evaluate(ShiftPoints(ps, d), smoothing, spline) == Evaluate(ps, smoothing, spline)
  {
    var qs := ShiftPoints(ps, d);
    assert Times(qs) == ShiftTimes(Times(ps), d);
    ElapsedShiftInvariant(Times(ps), d);
    assert Values(qs) == Values(ps);
  }

  /** Moving every timestamp by the same amount moves the output index and
      leaves the fitted values and slopes unchanged: the fit depends on
      elapsed time only. */
  lemma FitSeriesShiftInvariant(s: seq<Sample>, d: int, smoothing: real, datetimeIndex: bool, spline: Spline)
    ensures var a, b := FitSeries(s, smoothing, datetimeIndex, spline),
                        FitSeries(ShiftSamples(s, d), smoothing, datetimeIndex, spline);
            a.Ok? == b.Ok? &&
            (a.Ok? ==> Values(b.value.fitted) == Values(a.value.fitted) &&
                       Values(b.value.deriv) == Values(a.value.deriv) &&
                       Times(b.value.fitted) == ShiftTimes(Times(a.value.fitted), d))
  {
    DropNaShift(s, d);
    FitPointsShiftInvariant(DropNa(s), d, smoothing, datetimeIndex, spline);
  }

  lemma FitPointsShiftInvariant(ps: seq<Point>, d: int, smoothing: real, datetimeIndex: bool, spline: Spline)
    ensures var a, b := FitPoints(ps, smoothing, datetimeIndex, spline),
                        FitPoints(ShiftPoints(ps, d), smoothing, datetimeIndex, spline);
            a.Ok? == b.Ok? &&
            (a.Ok? ==> Values(b.value.fitted) == Values(a.value.fitted) &&
                       Values(b.value.deriv) == Values(a.value.deriv) &&
                       Times(b.value.fitted) == ShiftTimes(Times(a.value.fitted), d))
  {
    var qs := ShiftPoints(ps, d);
    var a, b := FitPoints(ps, smoothing, datetimeIndex, spline), FitPoints(qs, smoothing, datetimeIndex, spline);
    if a.Ok? {
      var e := Evaluate(ps, smoothing, spline);
      EvaluateShiftInvariant(ps, d, smoothing, spline);
      assert Times(qs) == ShiftTimes(Times(ps), d);
      AttachSameValues(ps, qs, e, false);
      AttachSameValues(ps, qs, e, true);
    }
  }

  /** The attached values do not depend on the timestamps they go with. */
  lemma AttachSameValues(ps: seq<Point>, qs: seq<Point>, e: seq<SplinePoint>, slope: bool)
    requires |ps| == |qs| == |e|
    ensures Values(Attach(qs, e, slope)) == Values(Attach(ps, e, slope))
  {
  }

  // ---------------------------------------------------------------------------
  // fit_spline_and_derivatives_one_batch

  /** Fitted values or slopes as table cells. */
  function AsCells(ps: seq<Point>): (cells: seq<Cell>)
    ensures |cells| == |ps| && forall i :: 0 <= i < |ps| ==> cells[i] == Some(ps[i].y)
  {
    seq(|ps|, i requires 0 <= i < |ps| => Some(ps[i].y))
  }

  predicate NoMissing(data: seq<seq<Cell>>) {
    forall c, i :: 0 <= c < |data| && 0 <= i < |data[c]| ==> data[c][i].Some?
  }

  /** A column without missing cells keeps every row when missing values
      are dropped. */
  lemma {:induction false} DropNaOfFullColumn(index: seq<Timestamp>, cells: seq<Cell>)
    requires |index| == |cells| && forall i :: 0 <= i < |cells| ==> cells[i].Some?
    ensures Times(DropNa(Column(index, cells))) == index
  {
    if cells != [] {
      DropNaOfFullColumn(index[1..], cells[1..]);
      assert Column(index, cells)[1..] == Column(index[1..], cells[1..]);
    }
  }

  /** Fit of column `c` of a table. */
  function ColumnFit(df: Frame<real>, c: nat, smoothing: real, datetimeIndex: bool, spline: Spline)
    : Result<SeriesFit, FitError>
    requires df.WellFormed() && c < |df.columns|
  {
    FitSeries(Column(df.index, df.data[c]), smoothing, datetimeIndex, spline)
  }

  /** A column without missing cells fails exactly when the table is too
      short or the index is not of datetime type, and otherwise yields one
      fitted value and one slope per row. */
  lemma FullColumnFit(df: Frame<real>, c: nat, smoothing: real, datetimeIndex: bool, spline: Spline)
    requires df.WellFormed() && c < |df.columns| && NoMissing(df.data)
    ensures var r := ColumnFit(df, c, smoothing, datetimeIndex, spline);
            (|df.index| < 4 ==> r == Err(NotEnoughData)) &&
            (|df.index| >= 4 && !datetimeIndex ==> r == Err(IndexNotDatetime)) &&
            (r.Ok? <==> |df.index| >= 4 && datetimeIndex) &&
            (r.Ok? ==> |r.value.fitted| == |df.index| && |r.value.deriv| == |df.index|)
  {
    DropNaOfFullColumn(df.index, df.data[c]);
  }

  /** A table of fitted values and one of derivatives. */
  datatype TableFit = TableFit(fitted: Frame<real>, deriv: Frame<real>)

  /** Column `c` of the fitted and derivative tables holds the independent
      fit of column `c` of the input. */
  predicate ColumnRecorded(df: Frame<real>, c: nat, fittedCol: seq<Cell>, derivCol: seq<Cell>,
                           smoothing: real, datetimeIndex: bool, spline: Spline)
    requires df.WellFormed() && c < |df.columns|
  {
    var r := ColumnFit(df, c, smoothing, datetimeIndex, spline);
    r.Ok? && fittedCol == AsCells(r.value.fitted) && derivCol == AsCells(r.value.deriv)
  }

  /**
   * `fit_spline_and_derivatives_one_batch`: refuses any missing cell, then
   * fits every column independently into two tables with the input's index
   * and columns. Without missing cells every column has the index's length,
   * so the outcome is decided by the length and the index type.
   */
  method FitOneBatch(df: Frame<real>, smoothing: real, datetimeIndex: bool, spline: Spline)
    returns (r: Result<TableFit, FitError>)
    requires df.WellFormed() && Distinct(df.columns)
    ensures !NoMissing(df.data) ==> r == Err(ContainsMissing)
    ensures NoMissing(df.data) && |df.columns| > 0 && |df.index| < 4 ==> r == Err(NotEnoughData)
    ensures NoMissing(df.data) && |df.columns| > 0 && |df.index| >= 4 && !datetimeIndex ==>
              r == Err(IndexNotDatetime)
    ensures r.Ok? <==> NoMissing(df.data) && (|df.columns| == 0 || (|df.index| >= 4 && datetimeIndex))
    ensures r.Ok? ==>
              var f, d := r.value.fitted, r.value.deriv;
              f.WellFormed() && d.WellFormed() &&
              f.index == df.index && f.columns == df.columns &&
              d.index == df.index && d.columns == df.columns &&
              forall c :: 0 <= c < |df.columns| ==>
                ColumnRecorded(df, c, f.data[c], d.data[c], smoothing, datetimeIndex, spline)
  {
    if !NoMissing(df.data) {
      return Err(ContainsMissing);
    }
    var fitted: seq<seq<Cell>> := [];
    var deriv: seq<seq<Cell>> := [];
    var c := 0;
    while c < |df.columns|
      invariant 0 <= c <= |df.columns|
      invariant c > 0 ==> |df.index| >= 4 && datetimeIndex
      invariant |fitted| == c && |deriv| == c
      invariant forall k :: 0 <= k < c ==>
                  |fitted[k]| == |df.index| && |deriv[k]| == |df.index| &&
                  ColumnRecorded(df, k, fitted[k], deriv[k], smoothing, datetimeIndex, spline)
    {
      FullColumnFit(df, c, smoothing, datetimeIndex, spline);
      var s := ColumnFit(df, c, smoothing, datetimeIndex, spline);
      if s.Err? {
        return Err(s.error);
      }
      fitted := fitted + [AsCells(s.value.fitted)];
      deriv := deriv + [AsCells(s.value.deriv)];
      c := c + 1;
    }
    r := Ok(TableFit(Frame(df.index, df.columns, fitted), Frame(df.index, df.columns, deriv)));
  }

  // ---------------------------------------------------------------------------
  // fit_splines_to_segments

  /** One fitted segment and its recorded maximum: the OD value at the first
      timestamp where the derivative is largest. */
  datatype SegmentFit = SegmentFit(fit: SeriesFit, peak: Point)

  /** Concatenated, sorted, de-duplicated fits plus the sorted maxima. */
  datatype SegmentedFit = SegmentedFit(fitted: seq<Point>, deriv: seq<Point>, maxima: seq<Point>)

  function MinTime(ts: seq<Timestamp>): (m: Timestamp)
    requires |ts| > 0
    ensures m in ts && forall i :: 0 <= i < |ts| ==> m <= ts[i]
  {
    if |ts| == 1 then ts[0]
    else
      var rest := MinTime(ts[1..]);
      assert forall i :: 1 <= i < |ts| ==> ts[i] == ts[1..][i - 1];
      if ts[0] <= rest then ts[0] else rest
  }

  function MaxTime(ts: seq<Timestamp>): (m: Timestamp)
    requires |ts| > 0
    ensures m in ts && forall i :: 0 <= i < |ts| ==> ts[i] <= m
  {
    if |ts| == 1 then ts[0]
    else
      var rest := MaxTime(ts[1..]);
      assert forall i :: 1 <= i < |ts| ==> ts[i] == ts[1..][i - 1];
      if ts[0] >= rest then ts[0] else rest
  }

  /** Segment boundaries: the first timestamp, the peak timestamps in the
      given order, the last timestamp. */
  function Boundaries(s: seq<Point>, peakTimes: seq<Timestamp>): (b: seq<Timestamp>)
    requires |s| > 0
    ensures |b| == |peakTimes| + 2
    ensures b[0] == MinTime(Times(s)) && b[|b| - 1] == MaxTime(Times(s))
    ensures b[1..|b| - 1] == peakTimes
  {
    [MinTime(Times(s))] + peakTimes + [MaxTime(Times(s))]
  }

  /** The label slice `s[a:b]` of a series on an ascending index: every point
      with a <= t <= b, both ends included, in order. */
  function Between(s: seq<Point>, a: Timestamp, b: Timestamp): (r: seq<Point>)
    ensures |r| <= |s|
  {
    if s == [] then []
    else if a <= s[0].t <= b then [s[0]] + Between(s[1..], a, b)
    else Between(s[1..], a, b)
  }

  /** The slice holds exactly the points of `s` with a <= t <= b. */
  lemma {:induction false} BetweenMembers(s: seq<Point>, a: Timestamp, b: Timestamp)
    ensures forall p :: p in Between(s, a, b) <==> p in s && a <= p.t <= b
  {
    if s != [] {
      BetweenMembers(s[1..], a, b);
      assert s == [s[0]] + s[1..];
    }
  }

  /** Position of the first largest value (`idxmax`). */
  function ArgMaxFirst(ps: seq<Point>): (k: nat)
    requires |ps| > 0
    ensures k < |ps|
    ensures forall j :: 0 <= j < |ps| ==> ps[j].y <= ps[k].y
    ensures forall j :: 0 <= j < k ==> ps[j].y < ps[k].y
  {
    if |ps| == 1 then 0
    else
      var k := ArgMaxFirst(ps[1..]) + 1;
      assert forall j :: 1 <= j < |ps| ==> ps[j] == ps[1..][j - 1];
      if ps[0].y >= ps[k].y then 0 else k
  }

  /** A series without missing values is fitted as it is. */
  lemma FitSeriesOfPoints(ps: seq<Point>, smoothing: real, datetimeIndex: bool, spline: Spline)
    ensures FitSeries(AsSamples(ps), smoothing, datetimeIndex, spline) ==
            FitPoints(ps, smoothing, datetimeIndex, spline)
  {
    DropNaOfPoints(ps);
  }

  /** Fits one segment of at least 4 points and records its maximum. A
      segment has no missing values, so the fit sees it unchanged
      (`FitSeriesOfPoints`); its elapsed seconds restart at the segment's
      first timestamp. */
  function FitSegment(seg: seq<Point>, smoothing: real, datetimeIndex: bool, spline: Spline)
    : (r: Result<SegmentFit, FitError>)
    requires |seg| >= 4
    ensures r.Err? <==> !datetimeIndex
    ensures r.Err? ==> r.error == IndexNotDatetime
    ensures r.Ok? ==> Times(r.value.fit.fitted) == Times(seg) && Times(r.value.fit.deriv) == Times(seg)
    ensures r.Ok? ==> r.value.peak in seg
    ensures r.Ok? ==> var xs := Elapsed(Times(seg));
              forall i :: 0 <= i < |seg| ==>
                r.value.fit.fitted[i].y == spline(xs, Values(seg), smoothing, xs[i]).value &&
                r.value.fit.deriv[i].y == spline(xs, Values(seg), smoothing, xs[i]).slope
  {
    FitPointsValues(seg, smoothing, datetimeIndex, spline);
    match FitPoints(seg, smoothing, datetimeIndex, spline)
    case Err(e) => Err(e)
    case Ok(f) =>
      var k := ArgMaxFirst(f.deriv);
      Ok(SegmentFit(f, Point(f.deriv[k].t, seg[k].y)))
  }

  /** The recorded maximum is the OD value, not the slope, at the first
      timestamp where the slope is largest. */
  lemma SegmentPeakAtFirstSteepest(seg: seq<Point>, smoothing: real, datetimeIndex: bool, spline: Spline)
    requires |seg| >= 4 && datetimeIndex
    ensures var r := FitSegment(seg, smoothing, datetimeIndex, spline);
            var d := r.value.fit.deriv;
            r.Ok? &&
            exists k :: 0 <= k < |seg| && r.value.peak == seg[k] &&
              (forall j :: 0 <= j < |seg| ==> d[j].y <= d[k].y) &&
              (forall j :: 0 <= j < k ==> d[j].y < d[k].y)
  {
    var f := FitPoints(seg, smoothing, datetimeIndex, spline).value;
    var k := ArgMaxFirst(f.deriv);
    assert f.deriv[k].t == seg[k].t;
  }

  /** A segment takes part in the fit when it has at least 4 points. */
  predicate Qualifies(s: seq<Point>, bounds: seq<Timestamp>, i: nat)
    requires i + 1 < |bounds|
  {
    |Between(s, bounds[i], bounds[i + 1])| >= 4
  }

  /** Number of qualifying segments among the first n boundary pairs. */
  function QualifyingCount(s: seq<Point>, bounds: seq<Timestamp>, n: nat): nat
    requires n < |bounds|
  {
    if n == 0 then 0
    else QualifyingCount(s, bounds, n - 1) + (if Qualifies(s, bounds, n - 1) then 1 else 0)
  }

  /** Taking in more boundary pairs never lowers the count. */
  lemma {:induction false} QualifyingCountGrows(s: seq<Point>, bounds: seq<Timestamp>, n: nat, m: nat)
    requires n <= m < |bounds|
    ensures QualifyingCount(s, bounds, n) <= QualifyingCount(s, bounds, m)
    decreases m - n
  {
    if n < m {
      QualifyingCountGrows(s, bounds, n, m - 1);
    }
  }

  /** Results of the first n boundary pairs, in order, skipping short ones. */
  function FitsUpTo(s: seq<Point>, bounds: seq<Timestamp>, n: nat,
                    smoothing: real, datetimeIndex: bool, spline: Spline)
    : (r: Result<seq<SegmentFit>, FitError>)
    requires n < |bounds|
    ensures r.Ok? ==> |r.value| == QualifyingCount(s, bounds, n)
    ensures r.Err? <==> QualifyingCount(s, bounds, n) > 0 && !datetimeIndex
    ensures r.Err? ==> r.error == IndexNotDatetime
  {
    if n == 0 then Ok([])
    else
      match FitsUpTo(s, bounds, n - 1, smoothing, datetimeIndex, spline)
      case Err(e) => Err(e)
      case Ok(prev) =>
        var seg := Between(s, bounds[n - 1], bounds[n]);
        if |seg| < 4 then Ok(prev)
        else
          match FitSegment(seg, smoothing, datetimeIndex, spline)
          case Err(e) => Err(e)
          case Ok(f) => Ok(prev + [f])
  }

  /** The results of the first n pairs extend those of the first n - 1 by
      the fit of pair n - 1 when it qualifies. */
  lemma FitsUpToStep(s: seq<Point>, bounds: seq<Timestamp>, n: nat,
                     smoothing: real, datetimeIndex: bool, spline: Spline)
    requires 0 < n < |bounds|
    requires FitsUpTo(s, bounds, n, smoothing, datetimeIndex, spline).Ok?
    ensures FitsUpTo(s, bounds, n - 1, smoothing, datetimeIndex, spline).Ok?
    ensures var prev := FitsUpTo(s, bounds, n - 1, smoothing, datetimeIndex, spline).value;
            var fits := FitsUpTo(s, bounds, n, smoothing, datetimeIndex, spline).value;
            |prev| <= |fits| <= |prev| + 1 && fits[..|prev|] == prev
  {
  }

  /** `f` is the fit of a qualifying segment among the first n pairs: its
      timestamps are that segment's and its maximum is a point of it. */
  predicate FromSegment(s: seq<Point>, bounds: seq<Timestamp>, n: nat, f: SegmentFit)
    requires n < |bounds|
  {
    exists i :: 0 <= i < n && FromPair(s, bounds, i, f)
  }

  predicate FromPair(s: seq<Point>, bounds: seq<Timestamp>, i: nat, f: SegmentFit)
    requires i + 1 < |bounds|
  {
    var seg := Between(s, bounds[i], bounds[i + 1]);
    |seg| >= 4 && Times(f.fit.fitted) == Times(seg) && f.peak in seg
  }

  /** Every recorded segment is the fit of a qualifying segment. */
  lemma {:induction false} FitsComeFromSegments(s: seq<Point>, bounds: seq<Timestamp>, n: nat,
                                                smoothing: real, datetimeIndex: bool, spline: Spline)
    requires n < |bounds|
    requires FitsUpTo(s, bounds, n, smoothing, datetimeIndex, spline).Ok?
    ensures var fits := FitsUpTo(s, bounds, n, smoothing, datetimeIndex, spline).value;
            forall k :: 0 <= k < |fits| ==> FromSegment(s, bounds, n, fits[k])
  {
    if n > 0 {
      FitsUpToStep(s, bounds, n, smoothing, datetimeIndex, spline);
      FitsComeFromSegments(s, bounds, n - 1, smoothing, datetimeIndex, spline);
      var prev := FitsUpTo(s, bounds, n - 1, smoothing, datetimeIndex, spline).value;
      var fits := FitsUpTo(s, bounds, n, smoothing, datetimeIndex, spline).value;
      forall k | 0 <= k < |prev| ensures FromSegment(s, bounds, n, fits[k]) {
        assert fits[k] == fits[..|prev|][k] == prev[k];
        FromSegmentWiden(s, bounds, n, prev[k]);
      }
      if |fits| > |prev| {
        LastFitFromPair(s, bounds, n, smoothing, datetimeIndex, spline);
        assert FromSegment(s, bounds, n, fits[|fits| - 1]);
      }
    }
  }

  lemma FromSegmentWiden(s: seq<Point>, bounds: seq<Timestamp>, n: nat, f: SegmentFit)
    requires 0 < n < |bounds| && FromSegment(s, bounds, n - 1, f)
    ensures FromSegment(s, bounds, n, f)
  {
    var i :| 0 <= i < n - 1 && FromPair(s, bounds, i, f);
    assert 0 <= i < n;
  }

  lemma LastFitFromPair(s: seq<Point>, bounds: seq<Timestamp>, n: nat,
                        smoothing: real, datetimeIndex: bool, spline: Spline)
    requires 0 < n < |bounds|
    requires FitsUpTo(s, bounds, n, smoothing, datetimeIndex, spline).Ok?
    requires |FitsUpTo(s, bounds, n, smoothing, datetimeIndex, spline).value| >
             |FitsUpTo(s, bounds, n - 1, smoothing, datetimeIndex, spline).value|
    ensures var fits := FitsUpTo(s, bounds, n, smoothing, datetimeIndex, spline).value;
            FromPair(s, bounds, n - 1, fits[|fits| - 1])
  {
    var seg := Between(s, bounds[n - 1], bounds[n]);
    assert |seg| >= 4;
    var f := FitSegment(seg, smoothing, datetimeIndex, spline).value;
    assert FitsUpTo(s, bounds, n, smoothing, datetimeIndex, spline).value ==
           FitsUpTo(s, bounds, n - 1, smoothing, datetimeIndex, spline).value + [f];
    var j :| 0 <= j < |seg| && f.peak == seg[j];
    assert f.peak in seg;
  }

  /** Keeps the first point of every timestamp (`duplicated(keep="first")`). */
  function DedupFirst(ps: seq<Point>): seq<Point>
    decreases |ps|
  {
    if ps == [] then []
    else
      var prev := DedupFirst(ps[..|ps| - 1]);
      if ps[|ps| - 1].t in Times(prev) then prev else prev + [ps[|ps| - 1]]
  }

  /** De-duplication leaves one point per timestamp, drops no timestamp,
      invents no point, and on a time-sorted input yields strictly
      increasing timestamps. */
  lemma {:induction false} DedupFirstProperties(ps: seq<Point>)
    ensures Distinct(Times(DedupFirst(ps)))
    ensures forall p :: p in DedupFirst(ps) ==> p in ps
    ensures forall t :: t in Times(DedupFirst(ps)) <==> t in Times(ps)
    ensures SortedByTime(ps) ==> StrictlyIncreasing(Times(DedupFirst(ps)))
    decreases |ps|
  {
    if ps != [] {
      var init := ps[..|ps| - 1];
      var p := ps[|ps| - 1];
      var prev := DedupFirst(init);
      DedupFirstProperties(init);
      assert forall q :: q in init ==> q in ps;
      assert forall t :: t in Times(ps) <==> t in Times(init) || t == p.t by {
        assert Times(ps) == Times(init) + [p.t];
      }
      if p.t !in Times(prev) {
        var r := prev + [p];
        assert Times(r) == Times(prev) + [p.t];
        if SortedByTime(ps) {
          assert SortedByTime(init);
          forall j | 0 <= j < |prev| ensures prev[j].t < p.t {
            assert prev[j] in init;
            var i :| 0 <= i < |init| && init[i] == prev[j];
            assert ps[i].t <= ps[|ps| - 1].t;
            assert prev[j].t in Times(prev);
          }
        }
      }
    }
  }

  function FittedParts(fits: seq<SegmentFit>): (r: seq<seq<Point>>)
    ensures |r| == |fits| && forall k :: 0 <= k < |fits| ==> r[k] == fits[k].fit.fitted
  {
    seq(|fits|, k requires 0 <= k < |fits| => fits[k].fit.fitted)
  }

  function DerivParts(fits: seq<SegmentFit>): (r: seq<seq<Point>>)
    ensures |r| == |fits| && forall k :: 0 <= k < |fits| ==> r[k] == fits[k].fit.deriv
  {
    seq(|fits|, k requires 0 <= k < |fits| => fits[k].fit.deriv)
  }

  function Peaks(fits: seq<SegmentFit>): (r: seq<Point>)
    ensures |r| == |fits| && forall k :: 0 <= k < |fits| ==> r[k] == fits[k].peak
  {
    seq(|fits|, k requires 0 <= k < |fits| => fits[k].peak)
  }

  /** A timestamp occurs in a series exactly when one of its points has it. */
  lemma TimesMember(ps: seq<Point>, t: Timestamp)
    ensures t in Times(ps) <==> exists p :: p in ps && p.t == t
  {
    if t in Times(ps) {
      var i :| 0 <= i < |ps| && Times(ps)[i] == t;
      assert ps[i] in ps;
    }
  }

  /** Sorting neither adds nor loses points. */
  lemma SortByMembers(ps: seq<Point>)
    ensures forall p :: p in SortByTime(ps) <==> p in ps
  {
    var sorted := SortByTime(ps);
    forall p ensures p in sorted <==> p in ps {
      assert p in sorted <==> p in multiset(sorted);
    }
  }

  /** Concatenate, sort by time (stable), keep the first of each timestamp:
      the merged series has strictly increasing, so unique, timestamps. */
  function Merge(parts: seq<seq<Point>>): (r: seq<Point>)
    ensures StrictlyIncreasing(Times(r))
  {
    DedupFirstProperties(SortByTime(Flatten(parts)));
    DedupFirst(SortByTime(Flatten(parts)))
  }

  /** Every merged point comes from one of the parts. */
  lemma MergeFromParts(parts: seq<seq<Point>>)
    ensures forall p :: p in Merge(parts) ==> exists k :: 0 <= k < |parts| && p in parts[k]
  {
    FlattenMembers(parts);
    SortByMembers(Flatten(parts));
    DedupFirstProperties(SortByTime(Flatten(parts)));
  }

  /** The merged timestamps are exactly the timestamps of the parts. */
  lemma MergeTimes(parts: seq<seq<Point>>)
    ensures forall t :: t in Times(Merge(parts)) <==>
                        exists k :: 0 <= k < |parts| && t in Times(parts[k])
  {
    var all := Flatten(parts);
    var sorted := SortByTime(all);
    FlattenMembers(parts);
    SortByMembers(all);
    DedupFirstProperties(sorted);
    forall t ensures t in Times(Merge(parts)) <==> exists k :: 0 <= k < |parts| && t in Times(parts[k]) {
      TimesMember(sorted, t);
      if t in Times(sorted) {
        var p :| p in sorted && p.t == t;
        var k :| 0 <= k < |parts| && p in parts[k];
        TimesMember(parts[k], t);
      }
      if exists k :: 0 <= k < |parts| && t in Times(parts[k]) {
        var k :| 0 <= k < |parts| && t in Times(parts[k]);
        TimesMember(parts[k], t);
        var p :| p in parts[k] && p.t == t;
        assert p in all;
      }
    }
  }

  /** Combine the segment fits; no fitted segment is an error. The combined
      fit has strictly increasing timestamps, and its maxima are the
      segments' maxima, each once, sorted by time. */
  function Combine(fits: seq<SegmentFit>): (r: Result<SegmentedFit, FitError>)
    ensures r.Err? <==> fits == []
    ensures r.Err? ==> r.error == NoSegments
    ensures r.Ok? ==> StrictlyIncreasing(Times(r.value.fitted)) && StrictlyIncreasing(Times(r.value.deriv)) &&
                      multiset(r.value.maxima) == multiset(Peaks(fits)) && SortedByTime(r.value.maxima)
  {
    if fits == [] then Err(NoSegments)
    else Ok(SegmentedFit(Merge(FittedParts(fits)), Merge(DerivParts(fits)),
                         SortByTime(Peaks(fits))))
  }

  /**
   * The whole of `fit_splines_to_segments` as a function of its inputs. It
   * fails with `NoSegments` exactly when no segment has 4 points (an empty
   * series has none), and otherwise with `IndexNotDatetime` exactly when the
   * index is not of datetime type.
   */
  function SegmentedFitOf(s: seq<Point>, peakTimes: seq<Timestamp>,
                          smoothing: real, datetimeIndex: bool, spline: Spline)
    : (r: Result<SegmentedFit, FitError>)
    ensures s == [] ==> r == Err(NoSegments)
    ensures s != [] ==>
              var bounds := Boundaries(s, peakTimes);
              var n := QualifyingCount(s, bounds, |bounds| - 1);
              (r == Err(NoSegments) <==> n == 0) &&
              (r == Err(IndexNotDatetime) <==> n > 0 && !datetimeIndex)
  {
    if s == [] then Err(NoSegments)
    else
      var bounds := Boundaries(s, peakTimes);
      match FitsUpTo(s, bounds, |bounds| - 1, smoothing, datetimeIndex, spline)
      case Err(e) => Err(e)
      case Ok(fits) => Combine(fits)
  }

  /**
   * `fit_splines_to_segments`: walks the boundary pairs in order, fitting
   * each inclusive slice of at least 4 points, then merges the results.
   */
  method FitSplinesToSegments(s: seq<Point>, peakTimes: seq<Timestamp>,
                              smoothing: real, datetimeIndex: bool, spline: Spline)
    returns (r: Result<SegmentedFit, FitError>)
    requires StrictlyIncreasing(Times(s))
    ensures r == SegmentedFitOf(s, peakTimes, smoothing, datetimeIndex, spline)
  {
    if s == [] {
      return Err(NoSegments);
    }
    var bounds := Boundaries(s, peakTimes);
    var fits: seq<SegmentFit> := [];
    var i := 0;
    while i < |bounds| - 1
      invariant 0 <= i <= |bounds| - 1
      invariant FitsUpTo(s, bounds, i, smoothing, datetimeIndex, spline) == Ok(fits)
    {
      var segment := Between(s, bounds[i], bounds[i + 1]);
      if |segment| >= 4 {
        var f := FitSegment(segment, smoothing, datetimeIndex, spline);
        if f.Err? {
          QualifyingCountGrows(s, bounds, i + 1, |bounds| - 1);
          return Err(f.error);
        }
        fits := fits + [f.value];
      }
      i := i + 1;
    }
    r := Combine(fits);
  }

  /** A successful result has strictly increasing (so unique) timestamps and
      one maximum per qualifying segment, sorted by time. */
  lemma SegmentedFitShape(s: seq<Point>, peakTimes: seq<Timestamp>,
                          smoothing: real, datetimeIndex: bool, spline: Spline)
    requires s != []
    ensures var bounds := Boundaries(s, peakTimes);
            var r := SegmentedFitOf(s, peakTimes, smoothing, datetimeIndex, spline);
            r.Ok? ==>
              StrictlyIncreasing(Times(r.value.fitted)) &&
              StrictlyIncreasing(Times(r.value.deriv)) &&
              SortedByTime(r.value.maxima) &&
              |r.value.maxima| == QualifyingCount(s, bounds, |bounds| - 1)
  {
    var bounds := Boundaries(s, peakTimes);
    var fs := FitsUpTo(s, bounds, |bounds| - 1, smoothing, datetimeIndex, spline);
    if fs.Ok? && fs.value != [] {
      var fits := fs.value;
      var m := Combine(fits).value.maxima;
      assert |m| == |multiset(m)| == |multiset(Peaks(fits))| == |fits|;
    }
  }

  /** Every maximum is an observed point of the series. */
  lemma SegmentedFitMaximaObserved(s: seq<Point>, peakTimes: seq<Timestamp>,
                                   smoothing: real, datetimeIndex: bool, spline: Spline)
    requires s != []
    ensures var r := SegmentedFitOf(s, peakTimes, smoothing, datetimeIndex, spline);
            r.Ok? ==> forall m :: m in r.value.maxima ==> m in s
  {
    var bounds := Boundaries(s, peakTimes);
    var fs := FitsUpTo(s, bounds, |bounds| - 1, smoothing, datetimeIndex, spline);
    if fs.Ok? && fs.value != [] {
      FitsComeFromSegments(s, bounds, |bounds| - 1, smoothing, datetimeIndex, spline);
      CombinedMaximaObserved(s, bounds, |bounds| - 1, fs.value);
    }
  }

  /** The maxima of fits that come from segments of `s` are points of `s`. */
  lemma CombinedMaximaObserved(s: seq<Point>, bounds: seq<Timestamp>, n: nat, fits: seq<SegmentFit>)
    requires n < |bounds| && fits != []
    requires forall k :: 0 <= k < |fits| ==> FromSegment(s, bounds, n, fits[k])
    ensures forall m :: m in Combine(fits).value.maxima ==> m in s
  {
    var maxima := Combine(fits).value.maxima;
    forall m | m in maxima ensures m in s {
      assert m in multiset(Peaks(fits));
      var k :| 0 <= k < |fits| && Peaks(fits)[k] == m;
      var i :| 0 <= i < n && FromPair(s, bounds, i, fits[k]);
      BetweenMembers(s, bounds[i], bounds[i + 1]);
    }
  }

  /** Every fitted timestamp lies in a qualifying segment. */
  lemma SegmentedFitTimes(s: seq<Point>, peakTimes: seq<Timestamp>,
                          smoothing: real, datetimeIndex: bool, spline: Spline)
    requires s != []
    ensures var bounds := Boundaries(s, peakTimes);
            var r := SegmentedFitOf(s, peakTimes, smoothing, datetimeIndex, spline);
            r.Ok? ==>
              forall t :: t in Times(r.value.fitted) ==>
                exists i :: 0 <= i < |bounds| - 1 && Qualifies(s, bounds, i) &&
                  t in Times(Between(s, bounds[i], bounds[i + 1]))
  {
    var bounds := Boundaries(s, peakTimes);
    var fs := FitsUpTo(s, bounds, |bounds| - 1, smoothing, datetimeIndex, spline);
    if fs.Ok? && fs.value != [] {
      FitsComeFromSegments(s, bounds, |bounds| - 1, smoothing, datetimeIndex, spline);
      CombinedTimesFromSegments(s, bounds, |bounds| - 1, fs.value);
    }
  }

  /** The merged fit of fits that come from segments only has timestamps of
      qualifying segments. */
  lemma CombinedTimesFromSegments(s: seq<Point>, bounds: seq<Timestamp>, n: nat, fits: seq<SegmentFit>)
    requires n < |bounds| && fits != []
    requires forall k :: 0 <= k < |fits| ==> FromSegment(s, bounds, n, fits[k])
    ensures forall t :: t in Times(Combine(fits).value.fitted) ==>
              exists i :: 0 <= i < n && Qualifies(s, bounds, i) &&
                t in Times(Between(s, bounds[i], bounds[i + 1]))
  {
    var parts := FittedParts(fits);
    MergeTimes(parts);
    forall t | t in Times(Merge(parts))
      ensures exists i :: 0 <= i < n && Qualifies(s, bounds, i) &&
                t in Times(Between(s, bounds[i], bounds[i + 1]))
    {
      var k :| 0 <= k < |parts| && t in Times(parts[k]);
      var i :| 0 <= i < n && FromPair(s, bounds, i, fits[k]);
      assert Qualifies(s, bounds, i);
    }
  }

  // ---------------------------------------------------------------------------
  // fit_growth_data_w_peaks

  /** Label positions of the non-missing cells of a peaks column. */
  function PeakTimes<P>(index: seq<Timestamp>, cells: seq<Option<P>>): (ts: seq<Timestamp>)
    requires |index| == |cells|
    ensures |ts| <= |cells|
  {
    if cells == [] then []
    else
      var rest := PeakTimes(index[1..], cells[1..]);
      if cells[0].Some? then [index[0]] + rest else rest
  }

  /** The peak times are the labels of the non-missing cells. */
  lemma {:induction false} PeakTimesMembers<P>(index: seq<Timestamp>, cells: seq<Option<P>>)
    requires |index| == |cells|
    ensures forall t :: t in PeakTimes(index, cells) <==>
                        exists i :: 0 <= i < |cells| && cells[i].Some? && index[i] == t
  {
    if cells != [] {
      PeakTimesMembers(index[1..], cells[1..]);
      assert forall i :: 1 <= i < |cells| ==> cells[i] == cells[1..][i - 1] && index[i] == index[1..][i - 1];
      forall t | exists i :: 0 <= i < |cells| && cells[i].Some? && index[i] == t
        ensures t in PeakTimes(index, cells)
      {
        var i :| 0 <= i < |cells| && cells[i].Some? && index[i] == t;
        if i > 0 {
          assert cells[1..][i - 1].Some? && index[1..][i - 1] == t;
        }
      }
    }
  }

  /** Position of the first column called `name`. */
  function ColumnPos(columns: seq<string>, name: string): (r: Option<nat>)
    ensures r.None? <==> name !in columns
    ensures r.Some? ==> r.value < |columns| && columns[r.value] == name
  {
    if columns == [] then None
    else if columns[0] == name then Some(0)
    else match ColumnPos(columns[1..], name)
      case None => None
      case Some(k) => Some(k + 1)
  }

  /** Places a series on a table index (column assignment aligns on labels):
      cells at timestamps the series lacks are missing. */
  function Align(index: seq<Timestamp>, ps: seq<Point>): (cells: seq<Cell>)
    ensures |cells| == |index|
  {
    seq(|index|, i requires 0 <= i < |index| => Lookup(ps, index[i]))
  }

  /** An aligned cell is present exactly when the series has that
      timestamp, and then holds a value the series has there. */
  lemma AlignCells(index: seq<Timestamp>, ps: seq<Point>)
    ensures var cells := Align(index, ps);
            (forall i :: 0 <= i < |index| ==> (cells[i].Some? <==> index[i] in Times(ps))) &&
            (forall i :: 0 <= i < |index| && cells[i].Some? ==> Point(index[i], cells[i].value) in ps)
  {
    forall i | 0 <= i < |index| {
      LookupFinds(ps, index[i]);
    }
  }

  /** The per-reactor step: drop missing OD values, read the reactor's
      peaks column, fit the segments between the peaks. */
  function ReactorFit<P>(df: Frame<real>, peaks: Frame<P>, c: nat,
                         smoothing: real, datetimeIndex: bool, spline: Spline)
    : (r: Result<SegmentedFit, FitError>)
    requires df.WellFormed() && peaks.WellFormed() && c < |df.columns|
    ensures df.columns[c] !in peaks.columns ==> r == Err(MissingColumn(df.columns[c]))
  {
    match ColumnPos(peaks.columns, df.columns[c])
    case None => Err(MissingColumn(df.columns[c]))
    case Some(k) =>
      SegmentedFitOf(DropNa(Column(df.index, df.data[c])), PeakTimes(peaks.index, peaks.data[k]),
                     smoothing, datetimeIndex, spline)
  }

  /** Fitted and derivative tables on the input's index, and the maxima of
      each reactor, in column order. */
  datatype GrowthFit = GrowthFit(fitted: Frame<real>, deriv: Frame<real>, maxima: seq<seq<Point>>)

  /** One reactor: drop its missing OD values, find its peaks column and fit
      the segments between the peaks. */
  method FitReactor<P>(df: Frame<real>, peaks: Frame<P>, c: nat,
                       smoothing: real, datetimeIndex: bool, spline: Spline)
    returns (r: Result<SegmentedFit, FitError>)
    requires df.WellFormed() && peaks.WellFormed() && c < |df.columns|
    requires StrictlyIncreasing(df.index)
    ensures r == ReactorFits(df, peaks, smoothing, datetimeIndex, spline)[c]
  {
    var s := DropNa(Column(df.index, df.data[c]));
    DropNaKeepsIncreasing(Column(df.index, df.data[c]));
    var pos := ColumnPos(peaks.columns, df.columns[c]);
    if pos.None? {
      return Err(MissingColumn(df.columns[c]));
    }
    r := FitSplinesToSegments(s, PeakTimes(peaks.index, peaks.data[pos.value]),
                              smoothing, datetimeIndex, spline);
  }

  /** The outcome of fitting each reactor column, in column order. */
  function ReactorFits<P>(df: Frame<real>, peaks: Frame<P>,
                          smoothing: real, datetimeIndex: bool, spline: Spline)
    : (outs: seq<Result<SegmentedFit, FitError>>)
    requires df.WellFormed() && peaks.WellFormed()
    ensures |outs| == |df.columns|
  {
    seq(|df.columns|, c requires 0 <= c < |df.columns| => ReactorFit(df, peaks, c, smoothing, datetimeIndex, spline))
  }

  /** The columns built so far: fitted values, slopes and maxima per reactor. */
  datatype GrowthColumns = GrowthColumns(fitted: seq<seq<Cell>>, deriv: seq<seq<Cell>>, maxima: seq<seq<Point>>)

  /** The loop over the first n reactor outcomes: the first failing reactor
      aborts with its error; otherwise each reactor's fit is aligned on the
      table index. */
  function AssembleUpTo(index: seq<Timestamp>, outs: seq<Result<SegmentedFit, FitError>>, n: nat)
    : Result<GrowthColumns, FitError>
    requires n <= |outs|
  {
    if n == 0 then Ok(GrowthColumns([], [], []))
    else
      match AssembleUpTo(index, outs, n - 1)
      case Err(e) => Err(e)
      case Ok(g) =>
        match outs[n - 1]
        case Err(e) => Err(e)
        case Ok(f) =>
          Ok(GrowthColumns(g.fitted + [Align(index, f.fitted)], g.deriv + [Align(index, f.deriv)],
                           g.maxima + [f.maxima]))
  }

  /** The result tables on the input's index and columns. */
  function Assemble(index: seq<Timestamp>, columns: seq<string>, outs: seq<Result<SegmentedFit, FitError>>)
    : Result<GrowthFit, FitError>
    requires |outs| == |columns|
  {
    match AssembleUpTo(index, outs, |outs|)
    case Err(e) => Err(e)
    case Ok(g) => Ok(GrowthFit(Frame(index, columns, g.fitted), Frame(index, columns, g.deriv), g.maxima))
  }

  /** The whole of `fit_growth_data_w_peaks` as a function of its inputs: it
      succeeds iff every reactor does, and then has one fitted column, one
      derivative column and one maxima series per input column, on the
      input's index. */
  function GrowthFitOf<P>(df: Frame<real>, peaks: Frame<P>,
                          smoothing: real, datetimeIndex: bool, spline: Spline)
    : (r: Result<GrowthFit, FitError>)
    requires df.WellFormed() && peaks.WellFormed()
    ensures r.Ok? <==> forall c :: 0 <= c < |df.columns| ==> ReactorFits(df, peaks, smoothing, datetimeIndex, spline)[c].Ok?
    ensures r.Ok? ==>
              r.value.fitted.WellFormed() && r.value.fitted.index == df.index && r.value.fitted.columns == df.columns &&
              r.value.deriv.WellFormed() && r.value.deriv.index == df.index && r.value.deriv.columns == df.columns &&
              |r.value.maxima| == |df.columns|
  {
    AssembleProperties(df.index, df.columns, ReactorFits(df, peaks, smoothing, datetimeIndex, spline));
    Assemble(df.index, df.columns, ReactorFits(df, peaks, smoothing, datetimeIndex, spline))
  }

  /** One more successful reactor adds its aligned fit as the next column. */
  lemma AssembleStepOk(index: seq<Timestamp>, outs: seq<Result<SegmentedFit, FitError>>, n: nat,
                       g: GrowthColumns, f: SegmentedFit)
    requires n < |outs| && AssembleUpTo(index, outs, n) == Ok(g) && outs[n] == Ok(f)
    ensures AssembleUpTo(index, outs, n + 1) ==
            Ok(GrowthColumns(g.fitted + [Align(index, f.fitted)], g.deriv + [Align(index, f.deriv)],
                             g.maxima + [f.maxima]))
  {
  }

  /** A failing reactor after successful ones aborts with its own error. */
  lemma AssembleStepErr(index: seq<Timestamp>, outs: seq<Result<SegmentedFit, FitError>>, n: nat,
                        g: GrowthColumns, e: FitError)
    requires n < |outs| && AssembleUpTo(index, outs, n) == Ok(g) && outs[n] == Err(e)
    ensures AssembleUpTo(index, outs, |outs|) == Err(e)
  {
    AssembleErrorPersists(index, outs, n + 1, |outs|);
  }

  /** Once a reactor has failed, later columns do not change the outcome. */
  lemma {:induction false} AssembleErrorPersists(index: seq<Timestamp>, outs: seq<Result<SegmentedFit, FitError>>,
                                                 n: nat, m: nat)
    requires n <= m <= |outs| && AssembleUpTo(index, outs, n).Err?
    ensures AssembleUpTo(index, outs, m) == AssembleUpTo(index, outs, n)
    decreases m - n
  {
    if n < m {
      AssembleErrorPersists(index, outs, n, m - 1);
    }
  }

  /** Column `c` holds reactor `c`'s fit, aligned on the index. */
  predicate Recorded(index: seq<Timestamp>, outs: seq<Result<SegmentedFit, FitError>>, c: nat, g: GrowthColumns) {
    c < |outs| && outs[c].Ok? && c < |g.fitted| && c < |g.deriv| && c < |g.maxima| &&
    g.fitted[c] == Align(index, outs[c].value.fitted) &&
    g.deriv[c] == Align(index, outs[c].value.deriv) &&
    g.maxima[c] == outs[c].value.maxima
  }

  /** The loop over n reactors succeeds exactly when each of them does. */
  lemma {:induction false} AssembleUpToOkIff(index: seq<Timestamp>, outs: seq<Result<SegmentedFit, FitError>>, n: nat)
    requires n <= |outs|
    ensures AssembleUpTo(index, outs, n).Ok? <==> forall c :: 0 <= c < n ==> outs[c].Ok?
  {
    if n > 0 {
      AssembleUpToOkIff(index, outs, n - 1);
    }
  }

  /** A successful loop over n reactors records every one in its own column. */
  lemma {:induction false} AssembleUpToOk(index: seq<Timestamp>, outs: seq<Result<SegmentedFit, FitError>>, n: nat)
    requires n <= |outs| && AssembleUpTo(index, outs, n).Ok?
    ensures var g := AssembleUpTo(index, outs, n).value;
            |g.fitted| == n && |g.deriv| == n && |g.maxima| == n &&
            forall c :: 0 <= c < n ==> Recorded(index, outs, c, g)
  {
    if n > 0 {
      var g := AssembleUpTo(index, outs, n - 1).value;
      AssembleUpToOk(index, outs, n - 1);
      var r := AssembleUpTo(index, outs, n).value;
      forall c | 0 <= c < n ensures Recorded(index, outs, c, r) {
        if c < n - 1 {
          assert Recorded(index, outs, c, g);
        }
      }
    }
  }

  /** A failing loop reports the error of the first failing reactor. */
  lemma {:induction false} AssembleUpToErr(index: seq<Timestamp>, outs: seq<Result<SegmentedFit, FitError>>, n: nat)
    requires n <= |outs| && AssembleUpTo(index, outs, n).Err?
    ensures exists c :: 0 <= c < n && outs[c] == Err(AssembleUpTo(index, outs, n).error) &&
                        forall c' :: 0 <= c' < c ==> outs[c'].Ok?
  {
    var e := AssembleUpTo(index, outs, n).error;
    AssembleErrOrigin(index, outs, n);
    if AssembleUpTo(index, outs, n - 1).Err? {
      AssembleUpToErr(index, outs, n - 1);
      var c :| 0 <= c < n - 1 && outs[c] == Err(e) && forall c' :: 0 <= c' < c ==> outs[c'].Ok?;
      assert 0 <= c < n;
    } else {
      AssembleUpToOkIff(index, outs, n - 1);
      var c := n - 1;
      assert outs[c] == Err(e);
      assert forall c' :: 0 <= c' < c ==> outs[c'].Ok?;
    }
  }

  /** A failure after n reactors is either the failure after n - 1 or that
      of reactor n - 1 itself. */
  lemma AssembleErrOrigin(index: seq<Timestamp>, outs: seq<Result<SegmentedFit, FitError>>, n: nat)
    requires 0 < n <= |outs| && AssembleUpTo(index, outs, n).Err?
    ensures AssembleUpTo(index, outs, n - 1).Err? ==> AssembleUpTo(index, outs, n - 1) == AssembleUpTo(index, outs, n)
    ensures AssembleUpTo(index, outs, n - 1).Ok? ==> outs[n - 1] == Err(AssembleUpTo(index, outs, n).error)
  {
  }

  /**
   * What the peak-based fit promises, over the reactor outcomes `outs`
   * (`ReactorFits` of the input): it succeeds exactly when every reactor
   * does; a failure carries the error of the first failing reactor; a
   * success holds, for each reactor column in order, that reactor's fitted
   * values and slopes placed on the input's index, and its maxima.
   */
  lemma AssembleProperties(index: seq<Timestamp>, columns: seq<string>, outs: seq<Result<SegmentedFit, FitError>>)
    requires |outs| == |columns|
    ensures var r := Assemble(index, columns, outs);
            (r.Ok? <==> forall c :: 0 <= c < |outs| ==> outs[c].Ok?) &&
            (r.Err? ==> exists c :: 0 <= c < |outs| && outs[c] == Err(r.error) &&
                                    forall c' :: 0 <= c' < c ==> outs[c'].Ok?) &&
            (r.Ok? ==>
               var g := r.value;
               g.fitted.WellFormed() && g.deriv.WellFormed() && |g.maxima| == |columns| &&
               g.fitted.index == index && g.fitted.columns == columns &&
               g.deriv.index == index && g.deriv.columns == columns &&
               forall c :: 0 <= c < |outs| ==>
                 Recorded(index, outs, c, GrowthColumns(g.fitted.data, g.deriv.data, g.maxima)))
  {
    var u := AssembleUpTo(index, outs, |outs|);
    AssembleUpToOkIff(index, outs, |outs|);
    if u.Err? {
      AssembleUpToErr(index, outs, |outs|);
    } else {
      AssembleUpToOk(index, outs, |outs|);
      assert GrowthColumns(u.value.fitted, u.value.deriv, u.value.maxima) == u.value;
      forall c | 0 <= c < |columns| ensures |u.value.fitted[c]| == |index| && |u.value.deriv[c]| == |index| {
        assert Recorded(index, outs, c, u.value);
      }
    }
  }

  /**
   * `fit_growth_data_w_peaks`: fits every reactor column between its peaks.
   * An error in any column (no peaks column, no qualifying segment, wrong
   * index type) propagates and aborts the whole table.
   */
  method FitGrowthDataWithPeaks<P>(df: Frame<real>, peaks: Frame<P>,
                                   smoothing: real, datetimeIndex: bool, spline: Spline)
    returns (r: Result<GrowthFit, FitError>)
    requires df.WellFormed() && peaks.WellFormed() && StrictlyIncreasing(df.index)
    ensures r == GrowthFitOf(df, peaks, smoothing, datetimeIndex, spline)
  {
    ghost var outs := ReactorFits(df, peaks, smoothing, datetimeIndex, spline);
    var fitted: seq<seq<Cell>> := [];
    var deriv: seq<seq<Cell>> := [];
    var maxima: seq<seq<Point>> := [];
    var c := 0;
    while c < |df.columns|
      invariant 0 <= c <= |df.columns|
      invariant AssembleUpTo(df.index, outs, c) == Ok(GrowthColumns(fitted, deriv, maxima))
    {
      var res := FitReactor(df, peaks, c, smoothing, datetimeIndex, spline);
      if res.Err? {
        AssembleStepErr(df.index, outs, c, GrowthColumns(fitted, deriv, maxima), res.error);
        return Err(res.error);
      }
      AssembleStepOk(df.index, outs, c, GrowthColumns(fitted, deriv, maxima), res.value);
      fitted := fitted + [Align(df.index, res.value.fitted)];
      deriv := deriv + [Align(df.index, res.value.deriv)];
      maxima := maxima + [res.value.maxima];
      c := c + 1;
    }
    r := Ok(GrowthFit(Frame(df.index, df.columns, fitted), Frame(df.index, df.columns, deriv), maxima));
  }
}
