/**
 * The filtering pipeline of the upload page (`app/0_upload_data.py`): the
 * Keep/Remove reactor filter on the long table, the time window on the wide
 * table, then a boolean mask that starts all-`false` and gains the negative
 * readings, the per-column extreme values and the rolling-IQR outliers, each
 * stage masking the table it leaves to the next; finally the rolling median of
 * the filtered table.
 *
 * Rolling windows are explicit index bounds. For a fixed integer window `w`
 * centred on row `i` pandas ends the window at `i + 1 + (w - 1) / 2`
 * (exclusive) and starts it `w` rows earlier, one more row earlier when the
 * window is closed on both sides; both bounds are clipped to the table.
 */
module Upload {
  import opened Base
  import opened Quantiles
  import opened OutlierFilter

  // ---------------------------------------------------------------------------
  // Reactor filter (long table)

  /** One row of the uploaded long table. */
  datatype Reading = Reading(t: Timestamp, unit: string, od: Cell)

  /** The radio button: drop the selected reactors, or keep only them. */
  datatype FilterOption = Remove | Keep

  /** The rows whose reactor is (`keep`) or is not (`!keep`) in `selected`,
      in their original order (`df.loc[mask]` / `df.loc[~mask]`). */
  function Where(rows: seq<Reading>, selected: seq<string>, keep: bool): (r: seq<Reading>)
    ensures |r| <= |rows|
  {
    if rows == [] then []
    else if (rows[0].unit in selected) == keep then [rows[0]] + Where(rows[1..], selected, keep)
    else Where(rows[1..], selected, keep)
  }

  /** The reactor filter; an empty selection filters nothing. */
  function FilterReactors(rows: seq<Reading>, selected: seq<string>, option: FilterOption): (r: seq<Reading>)
    ensures |r| <= |rows|
    ensures selected == [] ==> r == rows
  {
    if selected == [] then rows else Where(rows, selected, option == Keep)
  }

  /** `Where` keeps exactly the rows on the requested side of the selection. */
  lemma {:induction false} WhereMembers(rows: seq<Reading>, selected: seq<string>, keep: bool)
    ensures forall x :: x in Where(rows, selected, keep) <==> x in rows && ((x.unit in selected) == keep)
  {
    if rows != [] {
      WhereMembers(rows[1..], selected, keep);
      assert rows == [rows[0]] + rows[1..];
    }
  }

  /** The two sides of a selection split the rows: every row lands on exactly
      one side, as often as it occurs. */
  lemma {:induction false} WherePartition(rows: seq<Reading>, selected: seq<string>)
    ensures multiset(Where(rows, selected, true)) + multiset(Where(rows, selected, false)) == multiset(rows)
  {
    if rows != [] {
      WherePartition(rows[1..], selected);
      assert rows == [rows[0]] + rows[1..];
    }
  }

  /** "Keep" retains exactly the selected reactors' rows, "Remove" exactly
      the others, and together they give back every row. */
  lemma KeepRemoveComplement(rows: seq<Reading>, selected: seq<string>)
    requires selected != []
    ensures forall x :: x in FilterReactors(rows, selected, Keep) <==> x in rows && x.unit in selected
    ensures forall x :: x in FilterReactors(rows, selected, Remove) <==> x in rows && x.unit !in selected
    ensures multiset(FilterReactors(rows, selected, Keep)) + multiset(FilterReactors(rows, selected, Remove))
            == multiset(rows)
  {
    WhereMembers(rows, selected, true);
    WhereMembers(rows, selected, false);
    WherePartition(rows, selected);
  }

  // ---------------------------------------------------------------------------
  // Time window on the wide table

  /** Position of the first label not below `t` (`searchsorted(t, "left")`). */
  function FirstAtLeast(index: seq<Timestamp>, t: Timestamp): (k: nat)
    ensures k <= |index|
  {
    if index == [] || t <= index[0] then 0 else 1 + FirstAtLeast(index[1..], t)
  }

  /** Position of the first label above `t` (`searchsorted(t, "right")`). */
  function FirstAbove(index: seq<Timestamp>, t: Timestamp): (k: nat)
    ensures k <= |index|
  {
    if index == [] || t < index[0] then 0 else 1 + FirstAbove(index[1..], t)
  }

  lemma {:induction false} FirstAtLeastSplits(index: seq<Timestamp>, t: Timestamp)
    requires StrictlyIncreasing(index)
    ensures forall j :: 0 <= j < |index| ==> (j < FirstAtLeast(index, t) <==> index[j] < t)
  {
    if index != [] && index[0] < t {
      FirstAtLeastSplits(index[1..], t);
      forall j | 0 <= j < |index| ensures j < FirstAtLeast(index, t) <==> index[j] < t {
        if j > 0 { assert index[1..][j - 1] == index[j]; }
      }
    }
  }

  lemma {:induction false} FirstAboveSplits(index: seq<Timestamp>, t: Timestamp)
    requires StrictlyIncreasing(index)
    ensures forall j :: 0 <= j < |index| ==> (j < FirstAbove(index, t) <==> index[j] <= t)
  {
    if index != [] && index[0] <= t {
      FirstAboveSplits(index[1..], t);
      forall j | 0 <= j < |index| ensures j < FirstAbove(index, t) <==> index[j] <= t {
        if j > 0 { assert index[1..][j - 1] == index[j]; }
      }
    }
  }

  /** Rows `a` (included) to `b` (excluded) of every column. */
  function Rows<T>(f: Frame<T>, a: nat, b: nat): (r: Frame<T>)
    requires f.WellFormed() && a <= b <= |f.index|
    ensures r.WellFormed() && r.columns == f.columns && r.index == f.index[a..b]
  {
    Frame(f.index[a..b], f.columns, seq(|f.data|, c requires 0 <= c < |f.data| => f.data[c][a..b]))
  }

  /** `df.loc[lo:hi]` on a sorted index: the labels from `lo` to `hi`, both
      included; no range keeps the whole table. */
  function TimeWindow(f: Frame<real>, range: Option<(Timestamp, Timestamp)>): (r: Frame<real>)
    requires f.WellFormed()
    ensures r.WellFormed() && r.columns == f.columns
    ensures range.None? ==> r == f
  {
    match range
    case None => f
    case Some((lo, hi)) =>
      var a, b := FirstAtLeast(f.index, lo), FirstAbove(f.index, hi);
      if a <= b then Rows(f, a, b) else Rows(f, 0, 0)
  }

  /** The window keeps exactly the labels between `lo` and `hi`, each row with
      all its cells, in order. */
  lemma TimeWindowRows(f: Frame<real>, lo: Timestamp, hi: Timestamp)
    requires f.WellFormed() && StrictlyIncreasing(f.index)
    ensures var r := TimeWindow(f, Some((lo, hi)));
            (forall t :: t in r.index <==> t in f.index && lo <= t <= hi) &&
            exists a, b :: 0 <= a <= b <= |f.index| && r == Rows(f, a, b)
  {
    var a, b := FirstAtLeast(f.index, lo), FirstAbove(f.index, hi);
    FirstAtLeastSplits(f.index, lo);
    FirstAboveSplits(f.index, hi);
    var r := TimeWindow(f, Some((lo, hi)));
    if a <= b {
      forall t ensures t in r.index <==> t in f.index && lo <= t <= hi {
        if t in f.index && lo <= t <= hi {
          var j :| 0 <= j < |f.index| && f.index[j] == t;
          assert f.index[a..b][j - a] == t;
        }
      }
      assert r == Rows(f, a, b);
    } else {
      assert r == Rows(f, 0, 0);
    }
  }

  // ---------------------------------------------------------------------------
  // Masks

  /** A boolean table, column-major like `Frame.data`. */
  type Mask = seq<seq<bool>>

  predicate MaskShaped(m: Mask, f: Frame<real>) {
    |m| == |f.data| && forall c :: 0 <= c < |m| ==> |m[c]| == |f.index|
  }

  /** `pd.DataFrame(False, index=..., columns=...)`. */
  function NoMask(f: Frame<real>): (m: Mask)
    requires f.WellFormed()
    ensures MaskShaped(m, f)
    ensures forall c, i :: 0 <= c < |m| && 0 <= i < |m[c]| ==> !m[c][i]
  {
    seq(|f.data|, c requires 0 <= c < |f.data| => seq(|f.index|, i => false))
  }

  /** Cell-wise `a | b`. */
  function Or(a: Mask, b: Mask): (m: Mask)
    requires |a| == |b| && forall c :: 0 <= c < |a| ==> |a[c]| == |b[c]|
    ensures |m| == |a| && forall c :: 0 <= c < |a| ==> |m[c]| == |a[c]|
  {
    seq(|a|, c requires 0 <= c < |a| => seq(|a[c]|, i requires 0 <= i < |a[c]| => a[c][i] || b[c][i]))
  }

  /** `DataFrame.mask(m)`: masked cells become missing, the others stay. */
  function MaskFrame(f: Frame<real>, m: Mask): (r: Frame<real>)
    requires f.WellFormed() && MaskShaped(m, f)
    ensures r.WellFormed() && r.index == f.index && r.columns == f.columns
  {
    Frame(f.index, f.columns,
          seq(|f.data|, c requires 0 <= c < |f.data| =>
            seq(|f.index|, i requires 0 <= i < |f.index| => if m[c][i] then None else f.data[c][i])))
  }

  /** `df < 0`: strictly negative readings; zeros and missing cells are not. */
  function NegativeMask(f: Frame<real>): (m: Mask)
    requires f.WellFormed()
    ensures MaskShaped(m, f)
  {
    seq(|f.data|, c requires 0 <= c < |f.data| =>
      seq(|f.index|, i requires 0 <= i < |f.index| => f.data[c][i].Some? && f.data[c][i].value < 0.0))
  }

  /** `df.quantile(q)` for one column: missing when the column has no value. */
  function ColumnQuantile(col: seq<Cell>, q: real): (r: Option<real>)
    requires 0.0 <= q <= 1.0
    ensures r.None? <==> NonMissing(col) == []
  {
    var vs := NonMissing(col);
    if vs == [] then None else Some(Quantile(vs, q))
  }

  /** `df > df.quantile(q)`: values strictly above their column's quantile;
      a comparison with a missing quantile or cell is `false`. */
  function ExtremeMask(f: Frame<real>, q: real): (m: Mask)
    requires f.WellFormed() && 0.0 <= q <= 1.0
    ensures MaskShaped(m, f)
  {
    seq(|f.data|, c requires 0 <= c < |f.data| =>
      var limit := ColumnQuantile(f.data[c], q);
      seq(|f.index|, i requires 0 <= i < |f.index| =>
        limit.Some? && f.data[c][i].Some? && f.data[c][i].value > limit.value))
  }

  /** Rows `[lo, hi)` of the window centred on row `i`, closed on both sides:
      `w + 1` rows in the interior of the table, fewer at its edges. */
  function IqrWindow(n: nat, w: nat, i: nat): (b: (nat, nat))
    requires w >= 1 && i < n
    ensures b.0 <= i < b.1 <= n
  {
    var end := i + 1 + (w - 1) / 2;
    var start := end - w - 1;
    (if start < 0 then 0 else start, if end > n then n else end)
  }

  /** Rows `[lo, hi)` of the right-closed window centred on row `i`: `w` rows
      in the interior, fewer at the edges. */
  function MedianWindow(n: nat, w: nat, i: nat): (b: (nat, nat))
    requires w >= 1 && i < n
    ensures b.0 <= i < b.1 <= n
  {
    var end := i + 1 + (w - 1) / 2;
    var start := end - w;
    (if start < 0 then 0 else start, if end > n then n else end)
  }

  /** `rolling(w, min_periods, center=True, closed="both").apply(out_of_iqr)
      .astype(bool)` at row `i`: too few non-missing values give NaN, which
      becomes `true`; otherwise the kernel runs on the clipped window. */
  function OutlierCell(col: seq<Cell>, w: nat, minPeriods: nat, factor: real, i: nat): (r: bool)
    requires w >= 1 && i < |col|
    ensures var (lo, hi) := IqrWindow(|col|, w, i);
            |NonMissing(col[lo..hi])| < minPeriods ==> r
    ensures var (lo, hi) := IqrWindow(|col|, w, i);
            |NonMissing(col[lo..hi])| >= minPeriods ==> (r <==> OutOfIqr(col[lo..hi], factor))
  {
    var (lo, hi) := IqrWindow(|col|, w, i);
    var window := col[lo..hi];
    if |NonMissing(window)| < minPeriods then true else OutOfIqr(window, factor)
  }

  /** The rolling-IQR mask of every column. */
  function OutlierMask(f: Frame<real>, w: nat, minPeriods: nat, factor: real): (m: Mask)
    requires f.WellFormed() && w >= 1
    ensures MaskShaped(m, f)
  {
    seq(|f.data|, c requires 0 <= c < |f.data| =>
      seq(|f.index|, i requires 0 <= i < |f.index| => OutlierCell(f.data[c], w, minPeriods, factor, i)))
  }

  /** With `quantile_max = 1.0` the limit is the column maximum, which no
      value exceeds: the extreme stage masks nothing. */
  lemma ExtremeAtOneMasksNothing(f: Frame<real>)
    requires f.WellFormed()
    ensures forall c, i :: 0 <= c < |f.data| && 0 <= i < |f.index| ==> !ExtremeMask(f, 1.0)[c][i]
  {
    forall c, i | 0 <= c < |f.data| && 0 <= i < |f.index| ensures !ExtremeMask(f, 1.0)[c][i] {
      var col := f.data[c];
      var vs := NonMissing(col);
      if vs != [] && col[i].Some? {
        QuantileOneIsMax(vs);
        var j :| 0 <= j < |vs| && vs[j] == col[i].value;
      }
    }
  }

  /** In the interior of the table the window has `w + 1` rows and the
      kernel's middle element (`len // 2`) is row `i` itself, for odd `w`. */
  lemma InteriorWindowTestsOwnRow(col: seq<Cell>, w: nat, i: nat)
    requires w >= 1 && w % 2 == 1 && i < |col|
    requires i >= (w + 1) / 2 && i + (w + 1) / 2 <= |col|
    ensures var (lo, hi) := IqrWindow(|col|, w, i);
            hi - lo == w + 1 && Center(col[lo..hi]) == col[i]
  {
  }

  /** At the first row the window is clipped and the kernel tests another
      row: with `w = 5` the window is rows 0 to 2 and the middle one is row 1. */
  lemma EdgeWindowTestsAnotherRow(col: seq<Cell>)
    requires |col| >= 3
    ensures IqrWindow(|col|, 5, 0) == (0, 3) && Center(col[0..3]) == col[1]
  {
  }

  // ---------------------------------------------------------------------------
  // The masking pipeline

  /** The user's choices on the upload form. */
  datatype Options = Options(
    removeNegative: bool,     // "Remove zero OD readings"
    removeMax: bool,          // "Remove maximum OD readings by quantile"
    quantileMax: real,
    iqrFactor: real,
    window: nat,
    minPeriods: nat,
    timeRange: Option<(Timestamp, Timestamp)>)

  predicate ValidOptions(opts: Options) {
    0.0 <= opts.quantileMax <= 1.0 && opts.window >= 1
  }

  /** The table the extreme stage sees: after the optional negative stage. */
  function AfterNegative(wide: Frame<real>, opts: Options): (r: Frame<real>)
    requires wide.WellFormed()
    ensures r.WellFormed() && r.index == wide.index && r.columns == wide.columns
  {
    if opts.removeNegative then MaskFrame(wide, NegativeMask(wide)) else wide
  }

  /** The table the outlier stage sees: after the optional extreme stage. */
  function AfterExtreme(wide: Frame<real>, opts: Options): (r: Frame<real>)
    requires wide.WellFormed() && ValidOptions(opts)
    ensures r.WellFormed() && r.index == wide.index && r.columns == wide.columns
  {
    var t := AfterNegative(wide, opts);
    if opts.removeMax then MaskFrame(t, ExtremeMask(t, opts.quantileMax)) else t
  }

  /** Cell `[c][i]` is masked by some stage: a negative reading, a value above
      its column's quantile on the negative-filtered table, or an outlier of
      the table left by both. */
  predicate MaskedByStages(wide: Frame<real>, opts: Options, c: nat, i: nat)
    requires wide.WellFormed() && ValidOptions(opts) && c < |wide.data| && i < |wide.index|
  {
    (opts.removeNegative && NegativeMask(wide)[c][i]) ||
    (opts.removeMax && ExtremeMask(AfterNegative(wide, opts), opts.quantileMax)[c][i]) ||
    OutlierMask(AfterExtreme(wide, opts), opts.window, opts.minPeriods, opts.iqrFactor)[c][i]
  }

  /** The pipeline's invariant: a filtered cell is missing exactly when the
      wide cell is missing or masked, and otherwise equals the wide cell. */
  predicate Consistent(wide: Frame<real>, masked: Mask, filtered: Frame<real>) {
    wide.WellFormed() && filtered.WellFormed() && MaskShaped(masked, wide) &&
    filtered.index == wide.index && filtered.columns == wide.columns &&
    forall c, i :: 0 <= c < |wide.data| && 0 <= i < |wide.index| ==>
      (filtered.data[c][i].None? <==> wide.data[c][i].None? || masked[c][i]) &&
      (filtered.data[c][i].Some? ==> filtered.data[c][i] == wide.data[c][i])
  }

  /** A stage that masks `m` on the filtered table and ORs it into the mask
      keeps the invariant, and the mask only gains cells. */
  lemma StageKeepsConsistent(wide: Frame<real>, masked: Mask, filtered: Frame<real>, m: Mask)
    requires Consistent(wide, masked, filtered) && MaskShaped(m, filtered)
    ensures Consistent(wide, Or(masked, m), MaskFrame(filtered, m))
    ensures forall c, i :: 0 <= c < |wide.data| && 0 <= i < |wide.index| ==>
              (Or(masked, m)[c][i] <==> masked[c][i] || m[c][i])
  {
  }

  /**
   * The upload page from the wide table on: cut the time window, start an
   * all-`false` mask, then run the negative stage (if chosen), the extreme
   * stage (if chosen) and the rolling-IQR stage (always), each masking the
   * table it hands on and ORing its mask into `masked`.
   */
  method FilterWideTable(raw: Frame<real>, opts: Options)
    returns (wide: Frame<real>, masked: Mask, filtered: Frame<real>)
    requires raw.WellFormed() && StrictlyIncreasing(raw.index) && ValidOptions(opts)
    ensures wide == TimeWindow(raw, opts.timeRange)
    ensures Consistent(wide, masked, filtered)
    ensures forall c, i :: 0 <= c < |wide.data| && 0 <= i < |wide.index| ==>
              (masked[c][i] <==> MaskedByStages(wide, opts, c, i))
    ensures filtered == MaskFrame(AfterExtreme(wide, opts),
                                  OutlierMask(AfterExtreme(wide, opts), opts.window, opts.minPeriods, opts.iqrFactor))
  {
    wide := TimeWindow(raw, opts.timeRange);
    masked := NoMask(wide);
    filtered := wide;
    assert Consistent(wide, masked, filtered);
    if opts.removeNegative {
      var neg := NegativeMask(filtered);
      StageKeepsConsistent(wide, masked, filtered, neg);
      filtered := MaskFrame(filtered, neg);
      masked := Or(masked, neg);
    }
    ghost var afterNeg := filtered;
    ghost var m1 := masked;
    assert afterNeg == AfterNegative(wide, opts);
    if opts.removeMax {
      var ext := ExtremeMask(filtered, opts.quantileMax);
      StageKeepsConsistent(wide, masked, filtered, ext);
      filtered := MaskFrame(filtered, ext);
      masked := Or(masked, ext);
    }
    ghost var m2 := masked;
    assert filtered == AfterExtreme(wide, opts);
    var outliers := OutlierMask(filtered, opts.window, opts.minPeriods, opts.iqrFactor);
    StageKeepsConsistent(wide, masked, filtered, outliers);
    masked := Or(masked, outliers);
    filtered := MaskFrame(filtered, outliers);
    forall c, i | 0 <= c < |wide.data| && 0 <= i < |wide.index|
      ensures masked[c][i] <==> MaskedByStages(wide, opts, c, i)
    {
      assert m1[c][i] <==> opts.removeNegative && NegativeMask(wide)[c][i];
      assert m2[c][i] <==> m1[c][i] || (opts.removeMax && ExtremeMask(afterNeg, opts.quantileMax)[c][i]);
    }
  }

  /** What each stage decides about one cell: a strictly negative reading
      (when chosen) and a window with too few values always end up masked,
      while a zero reading is never masked by the negative stage. */
  lemma StageCellVerdicts(wide: Frame<real>, opts: Options, c: nat, i: nat)
    requires wide.WellFormed() && ValidOptions(opts) && c < |wide.data| && i < |wide.index|
    ensures opts.removeNegative && wide.data[c][i].Some? && wide.data[c][i].value < 0.0 ==>
              MaskedByStages(wide, opts, c, i)
    ensures wide.data[c][i] == Some(0.0) ==> !NegativeMask(wide)[c][i]
    ensures var col := AfterExtreme(wide, opts).data[c];
            var (lo, hi) := IqrWindow(|col|, opts.window, i);
            |NonMissing(col[lo..hi])| < opts.minPeriods ==> MaskedByStages(wide, opts, c, i)
  {
  }

  /**
   * Choosing one more option can unmask a cell: the later stages work on the
   * table the earlier ones leave. In the column [-10, -5, 1, 2] with
   * `quantile_max = 0.5`, the quantile of all four readings is -2, so the
   * reading 1 is masked; once the negative stage has removed -10 and -5 the
   * quantile of [1, 2] is 1.5, and the reading 1 survives every stage.
   */
  lemma NegativeStageCanUnmask(wide: Frame<real>, without: Options, with: Options)
    requires wide == Frame([0, 60, 120, 180], ["P1"], [[Some(-10.0), Some(-5.0), Some(1.0), Some(2.0)]])
    requires without == Options(false, true, 0.5, 1.5, 1, 1, None)
    requires with == without.(removeNegative := true)
    ensures wide.WellFormed() && ValidOptions(without) && ValidOptions(with)
    ensures MaskedByStages(wide, without, 0, 2) && !MaskedByStages(wide, with, 0, 2)
  {
    ExampleMaskedWithout(wide);
    assert AfterNegative(wide, without) == wide;
    ExampleKeptWith(wide, with);
  }

  /** Without the negative stage the median of [-10, -5, 1, 2] is -2, and
      the reading 1 lies above it. */
  lemma ExampleMaskedWithout(wide: Frame<real>)
    requires wide.WellFormed() && |wide.data| == 1
    requires wide.data[0] == [Some(-10.0), Some(-5.0), Some(1.0), Some(2.0)]
    ensures ExtremeMask(wide, 0.5)[0][2]
  {
    ExampleFullQuantile(wide.data[0], [-10.0, -5.0, 1.0, 2.0]);
  }

  /** The median of [-10, -5, 1, 2] is -2. */
  lemma ExampleFullQuantile(col: seq<Cell>, all: seq<real>)
    requires all == [-10.0, -5.0, 1.0, 2.0]
    requires col == [Some(all[0]), Some(all[1]), Some(all[2]), Some(all[3])]
    ensures ColumnQuantile(col, 0.5) == Some(-2.0)
  {
    NonMissingOfPresent(col, all);
    assert Sorted(all) by {
      assert all[0] <= all[1] <= all[2] <= all[3];
    }
    MedianOfFour(all);
  }

  /** With the negative stage the median of [1, 2] is 1.5, so 2 is masked
      and 1 kept, and the window left around the reading 1 holds that
      reading alone. */
  lemma ExampleKeptWith(wide: Frame<real>, with: Options)
    requires wide == Frame([0, 60, 120, 180], ["P1"], [[Some(-10.0), Some(-5.0), Some(1.0), Some(2.0)]])
    requires with == Options(true, true, 0.5, 1.5, 1, 1, None)
    ensures wide.WellFormed() && ValidOptions(with) && !MaskedByStages(wide, with, 0, 2)
  {
    var neg := AfterNegative(wide, with);
    ExampleNegativeStage(wide, neg);
    var last := AfterExtreme(wide, with);
    ExampleExtremeStage(neg, last);
    ExampleOutlierStage(last);
  }

  /** The negative stage on [-10, -5, 1, 2] leaves [-, -, 1, 2]. */
  lemma ExampleNegativeStage(wide: Frame<real>, neg: Frame<real>)
    requires wide == Frame([0, 60, 120, 180], ["P1"], [[Some(-10.0), Some(-5.0), Some(1.0), Some(2.0)]])
    requires neg == MaskFrame(wide, NegativeMask(wide))
    ensures neg.data[0] == [None, None, Some(1.0), Some(2.0)] && !NegativeMask(wide)[0][2]
  {
    var col := neg.data[0];
    assert col[0] == None && col[1] == None && col[2] == Some(1.0) && col[3] == Some(2.0);
  }

  /** The extreme stage on [-, -, 1, 2]: 2 lies above 1.5, 1 does not. */
  lemma ExampleExtremeStage(neg: Frame<real>, last: Frame<real>)
    requires neg.WellFormed() && |neg.data| == 1 && neg.data[0] == [None, None, Some(1.0), Some(2.0)]
    requires last == MaskFrame(neg, ExtremeMask(neg, 0.5))
    ensures last.data[0] == [None, None, Some(1.0), None] && !ExtremeMask(neg, 0.5)[0][2]
  {
    ExampleQuantile(neg.data[0]);
    var m := ExtremeMask(neg, 0.5)[0];
    assert !m[0] && !m[1] && !m[2] && m[3];
    var col := last.data[0];
    assert col[0] == None && col[1] == None && col[2] == Some(1.0) && col[3] == None;
  }

  /** The median of [-, -, 1, 2] is 1.5. */
  lemma ExampleQuantile(col: seq<Cell>)
    requires col == [None, None, Some(1.0), Some(2.0)]
    ensures ColumnQuantile(col, 0.5) == Some(1.5)
  {
    ExamplePairQuantile(col, [1.0, 2.0]);
  }

  lemma ExamplePairQuantile(col: seq<Cell>, rest: seq<real>)
    requires rest == [1.0, 2.0]
    requires col == [None, None, Some(rest[0]), Some(rest[1])]
    ensures ColumnQuantile(col, 0.5) == Some(1.5)
  {
    NonMissingOfPresent([Some(rest[0]), Some(rest[1])], rest);
    NonMissingAfterMissing([None, None], [Some(rest[0]), Some(rest[1])]);
    assert col == [None, None] + [Some(rest[0]), Some(rest[1])];
    MedianOfPair(rest);
  }

  /** The rolling-IQR stage keeps the lone reading of [-, -, 1, -]. */
  lemma ExampleOutlierStage(last: Frame<real>)
    requires last.WellFormed() && |last.data| == 1 && last.data[0] == [None, None, Some(1.0), None]
    ensures !OutlierMask(last, 1, 1, 1.5)[0][2]
  {
    assert IqrWindow(4, 1, 2) == (1, 3);
    var window := last.data[0][1..3];
    assert window == [None, Some(1.0)];
    assert NonMissing(window) == [1.0];
    ConstantWindowNotOutlier(window, 1.0, 1.5);
  }

  /** A column without missing cells keeps all its values. */
  lemma {:induction false} NonMissingOfPresent(cells: seq<Cell>, vs: seq<real>)
    requires |cells| == |vs| && forall i :: 0 <= i < |vs| ==> cells[i] == Some(vs[i])
    ensures NonMissing(cells) == vs
  {
    if cells != [] {
      NonMissingOfPresent(cells[1..], vs[1..]);
    }
  }

  /** Leading missing cells contribute nothing. */
  lemma {:induction false} NonMissingAfterMissing(gap: seq<Cell>, cells: seq<Cell>)
    requires forall i :: 0 <= i < |gap| ==> gap[i].None?
    ensures NonMissing(gap + cells) == NonMissing(cells)
  {
    if gap != [] {
      assert (gap + cells)[0] == gap[0];
      assert (gap + cells)[1..] == gap[1..] + cells;
      NonMissingAfterMissing(gap[1..], cells);
    } else {
      assert gap + cells == cells;
    }
  }

  /** The 0.5-quantile of a sorted pair is its mean. */
  lemma MedianOfPair(xs: seq<real>)
    requires Sorted(xs) && |xs| == 2
    ensures Quantile(xs, 0.5) == (xs[0] + xs[1]) / 2.0
  {
    QuantileOfArrangement(xs, xs, 0.5);
    assert (1 as real * 0.5).Floor == 0;
  }

  /** The 0.5-quantile of four sorted values is the mean of the middle two. */
  lemma MedianOfFour(xs: seq<real>)
    requires Sorted(xs) && |xs| == 4
    ensures Quantile(xs, 0.5) == (xs[1] + xs[2]) / 2.0
  {
    QuantileOfArrangement(xs, xs, 0.5);
    assert (3 as real * 0.5).Floor == 1;
  }

  // ---------------------------------------------------------------------------
  // Rolling median

  /** `rolling(w, min_periods, center=True).median()` at row `i` of a column:
      missing when the window has fewer than `min_periods` values (or none). */
  function MedianCell(col: seq<Cell>, w: nat, minPeriods: nat, i: nat): (r: Cell)
    requires w >= 1 && i < |col|
    ensures var (lo, hi) := MedianWindow(|col|, w, i);
            var vs := NonMissing(col[lo..hi]);
            (r.None? <==> |vs| < minPeriods || vs == []) &&
            (r.Some? ==> r.value == Median(vs))
  {
    var (lo, hi) := MedianWindow(|col|, w, i);
    var vs := NonMissing(col[lo..hi]);
    if |vs| < minPeriods || vs == [] then None else Some(Median(vs))
  }

  /** The rolling median of every column of the filtered table. */
  function RollingMedian(f: Frame<real>, w: nat, minPeriods: nat): (r: Frame<real>)
    requires f.WellFormed() && w >= 1
    ensures r.WellFormed() && r.index == f.index && r.columns == f.columns
  {
    Frame(f.index, f.columns,
          seq(|f.data|, c requires 0 <= c < |f.data| =>
            seq(|f.index|, i requires 0 <= i < |f.index| => MedianCell(f.data[c], w, minPeriods, i))))
  }

  /** A rolling median lies between the smallest and the largest value of its
      window. */
  lemma MedianWithinWindow(col: seq<Cell>, w: nat, minPeriods: nat, i: nat, lo: real, hi: real)
    requires w >= 1 && i < |col|
    requires var (a, b) := MedianWindow(|col|, w, i);
             forall k :: a <= k < b && col[k].Some? ==> lo <= col[k].value <= hi
    ensures MedianCell(col, w, minPeriods, i).Some? ==> lo <= MedianCell(col, w, minPeriods, i).value <= hi
  {
    var (a, b) := MedianWindow(|col|, w, i);
    var vs := NonMissing(col[a..b]);
    if vs != [] {
      forall j | 0 <= j < |vs| ensures lo <= vs[j] <= hi {
        assert Some(vs[j]) in col[a..b];
      }
      QuantileWithinRange(vs, 0.5, lo, hi);
    }
  }

  /** In the interior of the table the median window has exactly `w` rows,
      centred on row `i` for odd `w`. */
  lemma InteriorMedianWindow(n: nat, w: nat, i: nat)
    requires w >= 1 && w % 2 == 1 && i < n
    requires i >= (w - 1) / 2 && i + (w + 1) / 2 <= n
    ensures var (lo, hi) := MedianWindow(n, w, i);
            hi - lo == w && i - lo == hi - 1 - i
  {
  }
}
