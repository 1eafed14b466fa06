/**
 * The post-processing of the turbidostat page (`app/2_turbiostat.py`): the
 * dilution-event filter on the metadata, the distinct-column check, the
 * removal of downward-trending points, the per-column high-growth threshold
 * fed into the interval finder, and the summary of the per-segment maxima.
 */
module Turbidostat {
  import opened Base
  import opened Durations
  import opened Fit
  import Quantiles

  // ---------------------------------------------------------------------------
  // Metadata of dilution events

  /** One row of the uploaded metadata: column name to text. */
  datatype MetaRow = MetaRow(fields: map<string, string>)

  /** A missing column, as pandas' `KeyError`. */
  datatype KeyError = KeyError(name: string)

  const EventColumn := "event_name"
  const DilutionEvent := "DilutionEvent"

  predicate IsDilution(row: MetaRow) {
    EventColumn in row.fields && row.fields[EventColumn] == DilutionEvent
  }

  /** The rows whose event is a dilution, in order. */
  function Dilutions(rows: seq<MetaRow>): (r: seq<MetaRow>)
    ensures |r| <= |rows|
  {
    if rows == [] then []
    else if IsDilution(rows[0]) then [rows[0]] + Dilutions(rows[1..])
    else Dilutions(rows[1..])
  }

  /** A row whose event is present and is not a dilution. A missing event
      compares as `<NA>`, which is neither. */
  predicate HasOtherEvent(row: MetaRow) {
    EventColumn in row.fields && row.fields[EventColumn] != DilutionEvent
  }

  /** `mask.all()` on `df_meta["event_name"] == "DilutionEvent"`: `all`
      skips the `<NA>` of missing events, so only a present, different event
      makes it `false`. */
  predicate AllDilutions(rows: seq<MetaRow>) {
    forall i :: 0 <= i < |rows| ==> !HasOtherEvent(rows[i])
  }

  /** The dilution filter on the metadata: a table without the `event_name`
      column raises; when `mask.all()` holds the table is kept as it is;
      otherwise `.loc[mask]` keeps the dilution rows, a `<NA>` in the mask
      counting as `false`. */
  function FilterDilutionEvents(columns: set<string>, rows: seq<MetaRow>): (r: Result<seq<MetaRow>, KeyError>)
    ensures r.Err? <==> EventColumn !in columns
    ensures r.Err? ==> r.error == KeyError(EventColumn)
    ensures r.Ok? ==> |r.value| <= |rows| && forall x :: x in r.value ==> x in rows && !HasOtherEvent(x)
  {
    if EventColumn !in columns then Err(KeyError(EventColumn))
    else if AllDilutions(rows) then Ok(rows)
    else
      DilutionsMembers(rows);
      Ok(Dilutions(rows))
  }

  /** What the filter keeps: every dilution row, as often as it occurs; no
      row with another event; and a row with a missing event exactly when no
      row has another event. */
  lemma DilutionFilterRows(columns: set<string>, rows: seq<MetaRow>)
    requires EventColumn in columns
    ensures var r := FilterDilutionEvents(columns, rows).value;
            (forall x :: IsDilution(x) ==> multiset(r)[x] == multiset(rows)[x]) &&
            (forall x :: x in r ==> !HasOtherEvent(x)) &&
            (forall x :: x in rows && EventColumn !in x.fields ==> (x in r <==> AllDilutions(rows)))
  {
    if !AllDilutions(rows) {
      DilutionsCount(rows);
      DilutionsMembers(rows);
    }
  }

  /** A row with a missing event survives when the other rows are all
      dilutions: one dilution and one empty row give both rows back. */
  lemma MissingEventSurvives(columns: set<string>, dilution: MetaRow, empty: MetaRow)
    requires EventColumn in columns
    requires dilution == MetaRow(map[EventColumn := DilutionEvent]) && empty == MetaRow(map[])
    ensures FilterDilutionEvents(columns, [dilution, empty]) == Ok([dilution, empty])
    ensures Dilutions([dilution, empty]) == [dilution]
  {
    assert [dilution, empty][1..] == [empty];
  }

  /** The filter keeps exactly the rows that are dilutions. */
  lemma {:induction false} DilutionsMembers(rows: seq<MetaRow>)
    ensures forall x :: x in Dilutions(rows) <==> x in rows && IsDilution(x)
  {
    if rows != [] {
      DilutionsMembers(rows[1..]);
      assert rows == [rows[0]] + rows[1..];
    }
  }

  /** Each dilution row is kept as often as it occurs. */
  lemma {:induction false} DilutionsCount(rows: seq<MetaRow>)
    ensures forall x :: IsDilution(x) ==> multiset(Dilutions(rows))[x] == multiset(rows)[x]
  {
    if rows != [] {
      DilutionsCount(rows[1..]);
      assert rows == [rows[0]] + rows[1..];
    }
  }

  /** Selecting the dilutions of a table of dilutions only changes nothing. */
  lemma {:induction false} AllDilutionsKept(rows: seq<MetaRow>)
    requires forall i :: 0 <= i < |rows| ==> IsDilution(rows[i])
    ensures Dilutions(rows) == rows
  {
    if rows != [] {
      AllDilutionsKept(rows[1..]);
    }
  }

  /** `len({col_timestamp, col_reactors, col_message}) == 3`: the run goes on
      only when the three chosen column names are pairwise different. */
  predicate ColumnsDistinct(timestampCol: string, reactorCol: string, messageCol: string) {
    |{timestampCol, reactorCol, messageCol}| == 3
  }

  lemma ColumnsDistinctIffPairwise(a: string, b: string, c: string)
    ensures ColumnsDistinct(a, b, c) <==> a != b && b != c && a != c
  {
    if a == b {
      assert {a, b, c} == {a, c};
    } else if b == c {
      assert {a, b, c} == {a, b};
    } else if a == c {
      assert {a, b, c} == {a, b};
    } else {
      assert {a, b, c} == {a} + {b} + {c};
      assert |{a} + {b}| == 2;
    }
  }

  // ---------------------------------------------------------------------------
  // Downward-trend removal

  /** `df.diff().le(0)` for one column: the change from the previous row is
      not positive; with no previous row or a missing value the difference is
      NaN and the comparison `false`. */
  function DownwardMask(col: seq<Cell>): (m: seq<bool>)
    ensures |m| == |col|
  {
    seq(|col|, i requires 0 <= i < |col| =>
      i > 0 && col[i].Some? && col[i - 1].Some? && col[i].value - col[i - 1].value <= 0.0)
  }

  /** `df.mask(df.diff().le(0))`, every column at once on the original
      values. */
  function RemoveDownwardTrend(f: Frame<real>): (r: Frame<real>)
    requires f.WellFormed()
    ensures r.WellFormed() && r.index == f.index && r.columns == f.columns
  {
    Frame(f.index, f.columns,
          seq(|f.data|, c requires 0 <= c < |f.data| =>
            var m := DownwardMask(f.data[c]);
            seq(|f.index|, i requires 0 <= i < |f.index| => if m[i] then None else f.data[c][i])))
  }

  /** A cell is removed exactly when it and its predecessor are present and
      it does not rise above it; the first row and rows right after a missing
      value stay; kept values are unchanged. */
  lemma DownwardTrendCells(f: Frame<real>, c: nat, i: nat)
    requires f.WellFormed() && c < |f.data| && i < |f.index|
    ensures var col, out := f.data[c], RemoveDownwardTrend(f).data[c];
            (out[i].None? <==> col[i].None? ||
                               (i > 0 && col[i - 1].Some? && col[i].value <= col[i - 1].value)) &&
            (out[i].Some? ==> out[i] == col[i]) &&
            (i == 0 || col[i - 1].None? ==> out[i] == col[i])
  {
  }

  /** After the removal every kept value that had a present predecessor lies
      strictly above that predecessor. */
  lemma KeptValuesRise(f: Frame<real>, c: nat, i: nat)
    requires f.WellFormed() && c < |f.data| && 0 < i < |f.index|
    requires RemoveDownwardTrend(f).data[c][i].Some? && f.data[c][i - 1].Some?
    ensures RemoveDownwardTrend(f).data[c][i].value > f.data[c][i - 1].value
  {
    DownwardTrendCells(f, c, i);
  }

  // ---------------------------------------------------------------------------
  // High-growth periods

  /** Largest of a non-empty sample. */
  function MaxOf(vs: seq<real>): (m: real)
    requires vs != []
    ensures m in vs && forall j :: 0 <= j < |vs| ==> vs[j] <= m
  {
    if |vs| == 1 then vs[0]
    else
      var rest := MaxOf(vs[1..]);
      if vs[0] >= rest then vs[0] else rest
  }

  /** `Series.max()`: the largest present value; missing for an all-missing
      column. */
  function ColumnMax(col: seq<Cell>): (r: Option<real>)
    ensures r.None? <==> forall i :: 0 <= i < |col| ==> col[i].None?
    ensures r.Some? ==> Some(r.value) in col && forall i :: 0 <= i < |col| && col[i].Some? ==> col[i].value <= r.value
  {
    var vs := NonMissing(col);
    if vs == [] then None
    else
      var m := MaxOf(vs);
      forall i | 0 <= i < |col| && col[i].Some? ensures col[i].value <= m {
        var j :| 0 <= j < |vs| && vs[j] == col[i].value;
      }
      Some(m)
  }

  /** `df.max() * (threshold / 100)` for one column. */
  function Cutoff(col: seq<Cell>, threshold: real): Option<real> {
    match ColumnMax(col)
    case None => None
    case Some(m) => Some(m * (threshold / 100.0))
  }

  /** `df.ge(cutoffs, axis=1)` for one column: at or above the cutoff; a
      missing cell or cutoff never qualifies. */
  function InHighGrowth(col: seq<Cell>, cutoff: Option<real>): (h: seq<bool>)
    ensures |h| == |col|
  {
    seq(|col|, i requires 0 <= i < |col| => col[i].Some? && cutoff.Some? && col[i].value >= cutoff.value)
  }

  /** The cutoff of every derivative column; a column without values has
      none. */
  function Cutoffs(deriv: Frame<real>, threshold: real): (cs: seq<Option<real>>)
    ensures |cs| == |deriv.data| && forall c :: 0 <= c < |deriv.data| ==> cs[c] == Cutoff(deriv.data[c], threshold)
    ensures forall c :: 0 <= c < |deriv.data| ==>
              (cs[c].None? <==> forall i :: 0 <= i < |deriv.data[c]| ==> deriv.data[c][i].None?)
  {
    seq(|deriv.data|, c requires 0 <= c < |deriv.data| => Cutoff(deriv.data[c], threshold))
  }

  /** The high-growth cells of every derivative column; only a present
      cell can qualify. */
  function HighGrowthCells(deriv: Frame<real>, threshold: real): (h: seq<seq<bool>>)
    ensures |h| == |deriv.data|
    ensures forall c :: 0 <= c < |deriv.data| ==> h[c] == InHighGrowth(deriv.data[c], Cutoff(deriv.data[c], threshold))
    ensures forall c :: 0 <= c < |deriv.data| ==> |h[c]| == |deriv.data[c]|
    ensures forall c, i :: 0 <= c < |deriv.data| && 0 <= i < |deriv.data[c]| && h[c][i] ==> deriv.data[c][i].Some?
  {
    seq(|deriv.data|, c requires 0 <= c < |deriv.data| => InHighGrowth(deriv.data[c], Cutoff(deriv.data[c], threshold)))
  }

  /** `in_high_growth.apply(find_max_range, axis=0)`: one interval record per
      derivative column. */
  function HighGrowthRanges(deriv: Frame<real>, threshold: real): (r: seq<IntervalRecord>)
    requires deriv.WellFormed() && Distinct(deriv.index)
    ensures |r| == |deriv.columns|
  {
    var h := HighGrowthCells(deriv, threshold);
    seq(|deriv.data|, c requires 0 <= c < |deriv.data| => FindMaxRange(deriv.index, h[c]))
  }

  /** With a positive maximum and a threshold between 0 and 100 the cell
      holding the maximum qualifies, so the column's record is an interval,
      not the missing record. */
  lemma ArgmaxQualifies(deriv: Frame<real>, threshold: real, c: nat)
    requires deriv.WellFormed() && Distinct(deriv.index) && c < |deriv.data|
    requires 0.0 <= threshold <= 100.0
    requires ColumnMax(deriv.data[c]).Some? && ColumnMax(deriv.data[c]).value > 0.0
    ensures exists i :: 0 <= i < |deriv.index| && InHighGrowth(deriv.data[c], Cutoff(deriv.data[c], threshold))[i]
    ensures HighGrowthRanges(deriv, threshold)[c].start.Some?
  {
    var col := deriv.data[c];
    var m := ColumnMax(col).value;
    var k :| 0 <= k < |col| && col[k] == Some(m);
    var p := threshold / 100.0;
    assert m * p <= m by {
      assert m - m * p == m * (1.0 - p);
      Quantiles.MulNonneg(m, 1.0 - p);
    }
    var h := InHighGrowth(col, Cutoff(col, threshold));
    assert h[k];
  }

  /** A threshold of 100 keeps exactly the cells equal to the maximum. */
  lemma FullThresholdKeepsMaxima(col: seq<Cell>, i: nat)
    requires i < |col| && ColumnMax(col).Some?
    ensures InHighGrowth(col, Cutoff(col, 100.0))[i] <==> col[i] == ColumnMax(col)
  {
  }

  /** With a negative maximum a threshold below 100 puts the cutoff above
      every value: no cell qualifies and the record is missing. */
  lemma NegativeMaximumNoHighGrowth(deriv: Frame<real>, threshold: real, c: nat)
    requires deriv.WellFormed() && Distinct(deriv.index) && c < |deriv.data|
    requires 0.0 <= threshold < 100.0
    requires ColumnMax(deriv.data[c]).Some? && ColumnMax(deriv.data[c]).value < 0.0
    ensures NoneTrue(InHighGrowth(deriv.data[c], Cutoff(deriv.data[c], threshold)))
    ensures HighGrowthRanges(deriv, threshold)[c] == NoInterval
  {
    var col := deriv.data[c];
    var m := ColumnMax(col).value;
    var p := threshold / 100.0;
    assert m * p > m by {
      assert m * p - m == (-m) * (1.0 - p);
      assert (-m) * (1.0 - p) > 0.0;
    }
  }

  /** For a positive maximum, a lower threshold can only add high-growth
      cells. */
  lemma LowerThresholdAddsCells(col: seq<Cell>, t1: real, t2: real, i: nat)
    requires i < |col| && t1 <= t2
    requires ColumnMax(col).Some? && ColumnMax(col).value > 0.0
    ensures InHighGrowth(col, Cutoff(col, t2))[i] ==> InHighGrowth(col, Cutoff(col, t1))[i]
  {
    var m := ColumnMax(col).value;
    assert m * (t1 / 100.0) <= m * (t2 / 100.0) by {
      Quantiles.MulNonneg(m, t2 / 100.0 - t1 / 100.0);
      assert m * (t2 / 100.0 - t1 / 100.0) == m * (t2 / 100.0) - m * (t1 / 100.0);
    }
  }

  // ---------------------------------------------------------------------------
  // Summary

  /** One row of the summary: a maximum of one reactor. */
  datatype SummaryRow = SummaryRow(t: Timestamp, unit: string, od: real)

  function ColumnRows(unit: string, ps: seq<Point>): (rows: seq<SummaryRow>)
    ensures |rows| == |ps| && forall i :: 0 <= i < |ps| ==> rows[i] == SummaryRow(ps[i].t, unit, ps[i].y)
  {
    seq(|ps|, i requires 0 <= i < |ps| => SummaryRow(ps[i].t, unit, ps[i].y))
  }

  /** `create_summary`: the maxima of every reactor, stacked into rows keyed
      by timestamp and reactor. The summary holds a row exactly for each
      maximum of each reactor, with its OD value. */
  function CreateSummary(units: seq<string>, maxima: seq<seq<Point>>): (rows: seq<SummaryRow>)
    requires |units| == |maxima|
    ensures forall x :: x in rows <==>
              exists c :: 0 <= c < |units| && x.unit == units[c] && Point(x.t, x.od) in maxima[c]
  {
    var parts := seq(|units|, c requires 0 <= c < |units| => ColumnRows(units[c], maxima[c]));
    SummaryParts(units, maxima, parts);
    Flatten(parts)
  }

  /** The rows of the per-reactor parts are exactly the maxima, labelled by
      their reactor. */
  lemma SummaryParts(units: seq<string>, maxima: seq<seq<Point>>, parts: seq<seq<SummaryRow>>)
    requires |units| == |maxima| == |parts|
    requires forall c :: 0 <= c < |parts| ==> parts[c] == ColumnRows(units[c], maxima[c])
    ensures forall x :: x in Flatten(parts) <==>
              exists c :: 0 <= c < |units| && x.unit == units[c] && Point(x.t, x.od) in maxima[c]
  {
    FlattenMembers(parts);
    forall x ensures x in Flatten(parts) <==>
                     exists c :: 0 <= c < |units| && x.unit == units[c] && Point(x.t, x.od) in maxima[c] {
      if x in Flatten(parts) {
        var c :| 0 <= c < |parts| && x in parts[c];
        var i :| 0 <= i < |parts[c]| && parts[c][i] == x;
        assert maxima[c][i] == Point(x.t, x.od);
      }
      if exists c :: 0 <= c < |units| && x.unit == units[c] && Point(x.t, x.od) in maxima[c] {
        var c :| 0 <= c < |units| && x.unit == units[c] && Point(x.t, x.od) in maxima[c];
        var i :| 0 <= i < |maxima[c]| && maxima[c][i] == Point(x.t, x.od);
        assert parts[c][i] == x;
      }
    }
  }

  /** The (timestamp, reactor) key of a summary row. */
  function Keys(rows: seq<SummaryRow>): (ks: seq<(Timestamp, string)>)
    ensures |ks| == |rows| && forall i :: 0 <= i < |rows| ==> ks[i] == (rows[i].t, rows[i].unit)
  {
    seq(|rows|, i requires 0 <= i < |rows| => (rows[i].t, rows[i].unit))
  }

  /** With distinct reactors, each with strictly increasing maxima times, no
      key occurs twice: one row per (timestamp, reactor) pair. */
  lemma {:induction false} SummaryKeysDistinct(units: seq<string>, maxima: seq<seq<Point>>)
    requires |units| == |maxima| && Distinct(units)
    requires forall c :: 0 <= c < |maxima| ==> StrictlyIncreasing(Times(maxima[c]))
    ensures Distinct(Keys(CreateSummary(units, maxima)))
  {
    if units != [] {
      var head := ColumnRows(units[0], maxima[0]);
      var tail := CreateSummary(units[1..], maxima[1..]);
      assert Distinct(units[1..]) by {
        forall i, j | 0 <= i < j < |units| - 1 ensures units[1..][i] != units[1..][j] {
          assert units[1..][i] == units[i + 1] && units[1..][j] == units[j + 1];
        }
      }
      assert forall c :: 0 <= c < |maxima| - 1 ==> maxima[1..][c] == maxima[c + 1];
      SummaryKeysDistinct(units[1..], maxima[1..]);
      var parts := seq(|units|, c requires 0 <= c < |units| => ColumnRows(units[c], maxima[c]));
      assert parts[1..] == seq(|units| - 1, c requires 0 <= c < |units| - 1 => ColumnRows(units[1..][c], maxima[1..][c]));
      assert CreateSummary(units, maxima) == head + tail;
      forall y | y in tail ensures y.unit != units[0] {
        var c :| 0 <= c < |units| - 1 && y.unit == units[1..][c] && Point(y.t, y.od) in maxima[1..][c];
        assert units[1..][c] == units[c + 1];
      }
      HeadKeysDistinct(units[0], maxima[0]);
      DistinctConcat(head, tail, units[0]);
    }
  }

  lemma HeadKeysDistinct(unit: string, ps: seq<Point>)
    requires StrictlyIncreasing(Times(ps))
    ensures Distinct(Keys(ColumnRows(unit, ps)))
  {
    var ks := Keys(ColumnRows(unit, ps));
    forall i, j | 0 <= i < j < |ks| ensures ks[i] != ks[j] {
      assert Times(ps)[i] < Times(ps)[j];
    }
  }

  lemma DistinctConcat(a: seq<SummaryRow>, b: seq<SummaryRow>, unit: string)
    requires Distinct(Keys(a)) && Distinct(Keys(b))
    requires forall i :: 0 <= i < |a| ==> a[i].unit == unit
    requires forall y :: y in b ==> y.unit != unit
    ensures Distinct(Keys(a + b))
  {
    var ks := Keys(a + b);
    forall i, j | 0 <= i < j < |ks| ensures ks[i] != ks[j] {
      if j >= |a| && i < |a| {
        assert (a + b)[j] == b[j - |a|];
        assert b[j - |a|] in b;
      } else if i >= |a| {
        assert Keys(b)[i - |a|] != Keys(b)[j - |a|];
      } else {
        assert Keys(a)[i] != Keys(a)[j];
      }
    }
  }

  /** The cell of reactor `unit` at timestamp `t`; missing when either label
      is absent or the cell holds no value. */
  function CellAt(df: Frame<real>, t: Timestamp, unit: string): (r: Cell)
    requires df.WellFormed()
    ensures r.Some? ==> t in df.index && unit in df.columns
  {
    if t !in df.index then None
    else match ColumnPos(df.columns, unit)
      case None => None
      case Some(c) => df.data[c][PosOf(df.index, t)]
  }

  /** A (timestamp, reactor) label of the stacked table. */
  type Key = (Timestamp, string)

  /** One value of a stacked series with its label. */
  datatype Entry = Entry(key: Key, v: real)

  /** The exceptions of the summary lookups: a label that is not there
      (`KeyError`, raised by `.loc`), and a looked-up series whose labels
      repeat, which the column assignment cannot align (`ValueError`). */
  datatype LookupError = MissingTimestamp(t: Timestamp) | MissingKey(key: Key) | DuplicateLabels

  function KeyTimes(keys: seq<Key>): (ts: seq<Timestamp>)
    ensures |ts| == |keys| && forall i :: 0 <= i < |keys| ==> ts[i] == keys[i].0
  {
    seq(|keys|, i requires 0 <= i < |keys| => keys[i].0)
  }

  function Labels(es: seq<Entry>): (ks: seq<Key>)
    ensures |ks| == |es| && forall i :: 0 <= i < |es| ==> ks[i] == es[i].key
  {
    seq(|es|, i requires 0 <= i < |es| => es[i].key)
  }

  function EntryValues(es: seq<Entry>): (vs: seq<real>)
    ensures |vs| == |es| && forall i :: 0 <= i < |es| ==> vs[i] == es[i].v
  {
    seq(|es|, i requires 0 <= i < |es| => es[i].v)
  }

  /** `stack()` of the row at `t`, from column `c` on: an entry for every
      present cell, in column order; missing cells are dropped. */
  function RowEntries(df: Frame<real>, t: Timestamp, c: nat): (r: seq<Entry>)
    requires df.WellFormed() && t in df.index && c <= |df.columns|
    decreases |df.columns| - c
  {
    if c == |df.columns| then []
    else
      var rest := RowEntries(df, t, c + 1);
      match df.data[c][PosOf(df.index, t)]
      case None => rest
      case Some(v) => [Entry((t, df.columns[c]), v)] + rest
  }

  /** `df.loc[ts].stack()`: the row of every timestamp of `ts` in turn, so a
      timestamp listed twice gives its row twice; a timestamp outside the
      index raises. */
  function StackRows(df: Frame<real>, ts: seq<Timestamp>): (r: Result<seq<Entry>, LookupError>)
    requires df.WellFormed()
    ensures r.Ok? <==> forall i :: 0 <= i < |ts| ==> ts[i] in df.index
    ensures r.Err? ==> exists i :: 0 <= i < |ts| && r.error == MissingTimestamp(ts[i]) && ts[i] !in df.index
  {
    if ts == [] then Ok([])
    else if ts[0] !in df.index then Err(MissingTimestamp(ts[0]))
    else
      var rest := StackRows(df, ts[1..]);
      assert forall i :: 1 <= i < |ts| ==> ts[i] == ts[1..][i - 1];
      match rest
      case Err(e) => Err(e)
      case Ok(es) => Ok(RowEntries(df, ts[0], 0) + es)
  }

  /** The entries labelled `k`, in order. */
  function Matches(es: seq<Entry>, k: Key): (r: seq<Entry>)
    ensures forall e :: e in r ==> e in es && e.key == k
  {
    if es == [] then []
    else if es[0].key == k then [es[0]] + Matches(es[1..], k)
    else Matches(es[1..], k)
  }

  /** `.loc[keys]` on a stacked series: for each key in turn every entry with
      that label; a key without an entry raises. */
  function SelectKeys(es: seq<Entry>, keys: seq<Key>): (r: Result<seq<Entry>, LookupError>)
    ensures r.Ok? <==> forall i :: 0 <= i < |keys| ==> Matches(es, keys[i]) != []
    ensures r.Err? ==> exists i :: 0 <= i < |keys| && r.error == MissingKey(keys[i]) && Matches(es, keys[i]) == []
  {
    if keys == [] then Ok([])
    else
      var m := Matches(es, keys[0]);
      var rest := SelectKeys(es, keys[1..]);
      assert forall i :: 1 <= i < |keys| ==> keys[i] == keys[1..][i - 1];
      if m == [] then Err(MissingKey(keys[0]))
      else match rest
        case Err(e) => Err(e)
        case Ok(tail) => Ok(m + tail)
  }

  /** `get_values_from_df`: `df.loc[timestamps].stack().loc[keys]`. */
  function GetValuesFromDf(df: Frame<real>, keys: seq<Key>): (r: Result<seq<Entry>, LookupError>)
    requires df.WellFormed()
    ensures r.Err? ==> r.error != DuplicateLabels
  {
    match StackRows(df, KeyTimes(keys))
    case Err(e) => Err(e)
    case Ok(es) => SelectKeys(es, keys)
  }

  /** `df_summary[name] = series`: a series labelled exactly like the summary
      is taken as it is; any other result of `GetValuesFromDf` repeats a label
      (`SelectionExactOrRepeated`), and aligning it raises `ValueError`. */
  function AssignColumn(keys: seq<Key>, series: seq<Entry>): (r: Result<seq<real>, LookupError>)
    ensures r.Ok? <==> Labels(series) == keys
    ensures r.Ok? ==> |r.value| == |keys| && forall i :: 0 <= i < |keys| ==> r.value[i] == series[i].v
    ensures r.Err? ==> r.error == DuplicateLabels
  {
    if Labels(series) == keys then Ok(EntryValues(series)) else Err(DuplicateLabels)
  }

  /** One summary column: the lookup, then the assignment. */
  function SummaryColumn(df: Frame<real>, keys: seq<Key>): (r: Result<seq<real>, LookupError>)
    requires df.WellFormed()
    ensures r.Ok? ==> |r.value| == |keys|
  {
    match GetValuesFromDf(df, keys)
    case Err(e) => Err(e)
    case Ok(series) => AssignColumn(keys, series)
  }

  /** The three looked-up summary columns. */
  datatype SummaryColumns = SummaryColumns(median: seq<real>, spline: seq<real>, derivative: seq<real>)

  /** The `try` block that adds `OD_median`, `OD_spline` and `OD_derivative`
      in that order: the first failing lookup ends it. */
  function AddSummaryColumns(rolling: Frame<real>, fitted: Frame<real>, deriv: Frame<real>, keys: seq<Key>)
    : (r: Result<SummaryColumns, LookupError>)
    requires rolling.WellFormed() && fitted.WellFormed() && deriv.WellFormed()
    ensures var a, b, c := SummaryColumn(rolling, keys), SummaryColumn(fitted, keys), SummaryColumn(deriv, keys);
            (r.Ok? <==> a.Ok? && b.Ok? && c.Ok?) &&
            (r.Ok? ==> r.value == SummaryColumns(a.value, b.value, c.value)) &&
            (r.Err? ==> r.error == (if a.Err? then a.error else if b.Err? then b.error else c.error))
  {
    match SummaryColumn(rolling, keys)
    case Err(e) => Err(e)
    case Ok(median) =>
      match SummaryColumn(fitted, keys)
      case Err(e) => Err(e)
      case Ok(spline) =>
        match SummaryColumn(deriv, keys)
        case Err(e) => Err(e)
        case Ok(derivative) => Ok(SummaryColumns(median, spline, derivative))
  }

  lemma {:induction false} MatchesConcat(a: seq<Entry>, b: seq<Entry>, k: Key)
    ensures Matches(a + b, k) == Matches(a, k) + Matches(b, k)
  {
    if a != [] {
      assert (a + b)[0] == a[0];
      assert (a + b)[1..] == a[1..] + b;
      MatchesConcat(a[1..], b, k);
    } else {
      assert a + b == b;
    }
  }

  /** With unique column names a row holds at most one entry per label: from
      column `c` on, the cell of that reactor at `t`, when present. */
  lemma {:induction false} RowMatches(df: Frame<real>, t: Timestamp, c: nat, k: Key)
    requires df.WellFormed() && Distinct(df.columns) && t in df.index && c <= |df.columns|
    ensures Matches(RowEntries(df, t, c), k) ==
            if k.0 == t && ColumnPos(df.columns, k.1).Some? && ColumnPos(df.columns, k.1).value >= c &&
               CellAt(df, t, k.1).Some?
            then [Entry(k, CellAt(df, t, k.1).value)] else []
    decreases |df.columns| - c
  {
    if c < |df.columns| {
      RowMatches(df, t, c + 1, k);
      ColumnPosDistinct(df.columns, c);
      var rest := RowEntries(df, t, c + 1);
      var cell := df.data[c][PosOf(df.index, t)];
      assert cell == CellAt(df, t, df.columns[c]);
      if cell.Some? {
        var e := Entry((t, df.columns[c]), cell.value);
        assert RowEntries(df, t, c) == [e] + rest;
        MatchesConcat([e], rest, k);
        assert [e][1..] == [];
      }
    }
  }

  /** Stacking the rows at `ts` gives a key's cell once for every time its
      timestamp is listed, and nothing when the cell is missing. */
  lemma StackMatches(df: Frame<real>, ts: seq<Timestamp>, k: Key)
    requires df.WellFormed() && Distinct(df.columns) && StackRows(df, ts).Ok?
    ensures var m := Matches(StackRows(df, ts).value, k);
            |m| == (if CellAt(df, k.0, k.1).Some? then Occurrences(ts, k.0) else 0) &&
            forall e :: e in m ==> e.key == k && Some(e.v) == CellAt(df, k.0, k.1)
  {
    StackMatchCount(df, ts, k);
    StackMatchEntries(df, ts, k);
  }

  lemma {:induction false} StackMatchCount(df: Frame<real>, ts: seq<Timestamp>, k: Key)
    requires df.WellFormed() && Distinct(df.columns) && StackRows(df, ts).Ok?
    ensures |Matches(StackRows(df, ts).value, k)| == (if CellAt(df, k.0, k.1).Some? then Occurrences(ts, k.0) else 0)
  {
    if ts != [] {
      assert forall i :: 1 <= i < |ts| ==> ts[i] == ts[1..][i - 1];
      StackMatchCount(df, ts[1..], k);
      var row := RowEntries(df, ts[0], 0);
      var rest := StackRows(df, ts[1..]).value;
      assert StackRows(df, ts).value == row + rest;
      MatchesConcat(row, rest, k);
      RowMatches(df, ts[0], 0, k);
    }
  }

  lemma {:induction false} StackMatchEntries(df: Frame<real>, ts: seq<Timestamp>, k: Key)
    requires df.WellFormed() && Distinct(df.columns) && StackRows(df, ts).Ok?
    ensures forall e :: e in Matches(StackRows(df, ts).value, k) ==> e.key == k && Some(e.v) == CellAt(df, k.0, k.1)
  {
    if ts != [] {
      assert forall i :: 1 <= i < |ts| ==> ts[i] == ts[1..][i - 1];
      StackMatchEntries(df, ts[1..], k);
      var row := RowEntries(df, ts[0], 0);
      var rest := StackRows(df, ts[1..]).value;
      MatchesConcat(row, rest, k);
      RowMatches(df, ts[0], 0, k);
    }
  }

  /** How often `t` occurs in `ts`. */
  function Occurrences(ts: seq<Timestamp>, t: Timestamp): nat {
    if ts == [] then 0 else (if ts[0] == t then 1 else 0) + Occurrences(ts[1..], t)
  }

  /** In a sequence without repeats every element occurs once. */
  lemma {:induction false} CountOfDistinct(ts: seq<Timestamp>, i: nat)
    requires Distinct(ts) && i < |ts|
    ensures Occurrences(ts, ts[i]) == 1
  {
    if i == 0 {
      NotOccurring(ts[1..], ts[0]);
    } else {
      assert ts[1..][i - 1] == ts[i];
      CountOfDistinct(ts[1..], i - 1);
    }
  }

  lemma {:induction false} NotOccurring(ts: seq<Timestamp>, t: Timestamp)
    requires t !in ts
    ensures Occurrences(ts, t) == 0
  {
    if ts != [] {
      NotOccurring(ts[1..], t);
    }
  }

  /** An element found at two positions occurs at least twice. */
  lemma {:induction false} CountOfRepeat(ts: seq<Timestamp>, i: nat, j: nat)
    requires i < j < |ts| && ts[i] == ts[j]
    ensures Occurrences(ts, ts[i]) >= 2
  {
    if i == 0 {
      assert ts[1..][j - 1] == ts[j];
      Occurring(ts[1..], j - 1);
    } else {
      assert ts[1..][i - 1] == ts[i] && ts[1..][j - 1] == ts[j];
      CountOfRepeat(ts[1..], i - 1, j - 1);
    }
  }

  lemma {:induction false} Occurring(ts: seq<Timestamp>, i: nat)
    requires i < |ts|
    ensures Occurrences(ts, ts[i]) >= 1
  {
    if i > 0 {
      assert ts[1..][i - 1] == ts[i];
      Occurring(ts[1..], i - 1);
    }
  }

  /** `.loc[keys]` returns at least one entry per key; exactly one entry per
      key when each label occurs once, and more entries than keys when some
      label occurs twice. */
  lemma {:induction false} SelectKeysShape(es: seq<Entry>, keys: seq<Key>)
    requires SelectKeys(es, keys).Ok?
    ensures var r := SelectKeys(es, keys).value;
            |r| >= |keys| &&
            ((forall i :: 0 <= i < |keys| ==> |Matches(es, keys[i])| == 1) ==>
               |r| == |keys| && forall i :: 0 <= i < |keys| ==> r[i] == Matches(es, keys[i])[0]) &&
            ((exists i :: 0 <= i < |keys| && |Matches(es, keys[i])| >= 2) ==> |r| > |keys|)
  {
    if keys != [] {
      var rest := keys[1..];
      assert forall i :: 1 <= i < |keys| ==> keys[i] == rest[i - 1];
      SelectKeysShape(es, rest);
      var m := Matches(es, keys[0]);
      var tail := SelectKeys(es, rest).value;
      var r := SelectKeys(es, keys).value;
      assert r == m + tail;
      if forall i :: 0 <= i < |keys| ==> |Matches(es, keys[i])| == 1 {
        assert forall i :: 0 <= i < |rest| ==> |Matches(es, rest[i])| == 1 by {
          forall i | 0 <= i < |rest| ensures |Matches(es, rest[i])| == 1 {
            assert rest[i] == keys[i + 1];
          }
        }
        forall i | 0 <= i < |keys| ensures r[i] == Matches(es, keys[i])[0] {
          if i > 0 { assert r[i] == tail[i - 1]; }
        }
      }
      if exists i :: 0 <= i < |keys| && |Matches(es, keys[i])| >= 2 {
        var i :| 0 <= i < |keys| && |Matches(es, keys[i])| >= 2;
        if i > 0 {
          assert |Matches(es, rest[i - 1])| >= 2;
        }
      }
    }
  }

  /** A successful `.loc[keys]` is labelled exactly by the keys, or repeats a
      label: so the assignment either takes it as it is or cannot align it. */
  lemma {:induction false} SelectionExactOrRepeated(es: seq<Entry>, keys: seq<Key>)
    requires SelectKeys(es, keys).Ok?
    ensures var r := SelectKeys(es, keys).value;
            Labels(r) == keys || !Distinct(Labels(r))
  {
    if keys != [] {
      var rest := keys[1..];
      assert forall i :: 1 <= i < |keys| ==> keys[i] == rest[i - 1];
      SelectionExactOrRepeated(es, rest);
      var m := Matches(es, keys[0]);
      LabelsOfGroup(m, SelectKeys(es, rest).value, keys[0], rest);
      assert keys == [keys[0]] + rest;
    }
  }

  /** A non-empty group labelled `k` in front of a series labelled exactly
      `rest`, or repeating a label, is labelled exactly `[k] + rest`, or
      repeats a label. */
  lemma LabelsOfGroup(m: seq<Entry>, tail: seq<Entry>, k: Key, rest: seq<Key>)
    requires m != [] && forall e :: e in m ==> e.key == k
    requires Labels(tail) == rest || !Distinct(Labels(tail))
    ensures Labels(m + tail) == [k] + rest || !Distinct(Labels(m + tail))
  {
    var r := m + tail;
    assert m[0] in m && r[0] == m[0];
    if |m| >= 2 {
      assert m[1] in m && r[1] == m[1];
      assert Labels(r)[0] == Labels(r)[1];
    } else if Labels(tail) == rest {
      forall i | 0 <= i < |r| ensures Labels(r)[i] == ([k] + rest)[i] {
        if i > 0 { assert r[i] == tail[i - 1]; }
      }
    } else {
      var i, j :| 0 <= i < j < |tail| && Labels(tail)[i] == Labels(tail)[j];
      assert r[i + 1] == tail[i] && r[j + 1] == tail[j];
    }
  }

  /**
   * A summary column is filled exactly when every key has a cell and no two
   * keys share a timestamp, and then holds each key's cell. Keys that share a
   * timestamp make `.loc` repeat their row, the looked-up series repeats its
   * labels and the assignment raises `ValueError`; a key without a cell
   * raises `KeyError`.
   */
  lemma SummaryColumnExact(df: Frame<real>, keys: seq<Key>)
    requires df.WellFormed() && Distinct(df.columns)
    ensures var r := SummaryColumn(df, keys);
            var present := forall i :: 0 <= i < |keys| ==> CellAt(df, keys[i].0, keys[i].1).Some?;
            (present && Distinct(KeyTimes(keys)) ==>
               r.Ok? && forall i :: 0 <= i < |keys| ==> Some(r.value[i]) == CellAt(df, keys[i].0, keys[i].1)) &&
            (present && !Distinct(KeyTimes(keys)) ==> r == Err(DuplicateLabels)) &&
            (!present ==> r.Err? && r.error != DuplicateLabels)
  {
    var ts := KeyTimes(keys);
    if forall i :: 0 <= i < |keys| ==> CellAt(df, keys[i].0, keys[i].1).Some? {
      if Distinct(ts) {
        SummaryColumnDistinct(df, keys);
      } else {
        SummaryColumnShared(df, keys);
      }
    } else {
      var i :| 0 <= i < |keys| && CellAt(df, keys[i].0, keys[i].1).None?;
      if StackRows(df, ts).Ok? {
        StackMatchCount(df, ts, keys[i]);
      }
    }
  }

  /** Every key has a cell and its own timestamp: one entry per key. */
  lemma SummaryColumnDistinct(df: Frame<real>, keys: seq<Key>)
    requires df.WellFormed() && Distinct(df.columns) && Distinct(KeyTimes(keys))
    requires forall i :: 0 <= i < |keys| ==> CellAt(df, keys[i].0, keys[i].1).Some?
    ensures var r := SummaryColumn(df, keys);
            r.Ok? && forall i :: 0 <= i < |keys| ==> Some(r.value[i]) == CellAt(df, keys[i].0, keys[i].1)
  {
    var ts := KeyTimes(keys);
    var es := StackRows(df, ts).value;
    forall i | 0 <= i < |keys|
      ensures |Matches(es, keys[i])| == 1
      ensures forall e :: e in Matches(es, keys[i]) ==> e.key == keys[i] && Some(e.v) == CellAt(df, keys[i].0, keys[i].1)
    {
      StackMatches(df, ts, keys[i]);
      CountOfDistinct(ts, i);
    }
    SelectKeysShape(es, keys);
    var sel := SelectKeys(es, keys).value;
    forall i | 0 <= i < |keys| ensures sel[i].key == keys[i] && Some(sel[i].v) == CellAt(df, keys[i].0, keys[i].1) {
      assert sel[i] == Matches(es, keys[i])[0];
      assert Matches(es, keys[i])[0] in Matches(es, keys[i]);
    }
    assert Labels(sel) == keys;
  }

  /** Every key has a cell but two share a timestamp: the lookup returns more
      entries than keys. */
  lemma SummaryColumnShared(df: Frame<real>, keys: seq<Key>)
    requires df.WellFormed() && Distinct(df.columns) && !Distinct(KeyTimes(keys))
    requires forall i :: 0 <= i < |keys| ==> CellAt(df, keys[i].0, keys[i].1).Some?
    ensures SummaryColumn(df, keys) == Err(DuplicateLabels)
  {
    var ts := KeyTimes(keys);
    var es := StackRows(df, ts).value;
    forall i | 0 <= i < |keys| ensures |Matches(es, keys[i])| >= 1 {
      StackMatchCount(df, ts, keys[i]);
      Occurring(ts, i);
    }
    var i, j :| 0 <= i < j < |ts| && ts[i] == ts[j];
    StackMatchCount(df, ts, keys[i]);
    CountOfRepeat(ts, i, j);
    SelectKeysShape(es, keys);
  }

  /** Two reactors with a maximum at the same timestamp: `.loc` returns four
      entries for the two keys, each label twice, and the column cannot be
      added. */
  lemma SharedTimestampFails(df: Frame<real>, t: Timestamp, a: real, b: real)
    requires df == Frame([t], ["P1", "P2"], [[Some(a)], [Some(b)]])
    ensures var eA, eB := Entry((t, "P1"), a), Entry((t, "P2"), b);
            GetValuesFromDf(df, [(t, "P1"), (t, "P2")]) == Ok([eA, eA, eB, eB]) &&
            SummaryColumn(df, [(t, "P1"), (t, "P2")]) == Err(DuplicateLabels)
  {
    var eA, eB := Entry((t, "P1"), a), Entry((t, "P2"), b);
    var keys := [(t, "P1"), (t, "P2")];
    assert KeyTimes(keys) == [t, t];
    SharedRowTwice(df, t, eA, eB);
    SharedKeysSelectTwice([eA, eB, eA, eB], eA, eB);
  }

  /** `df.loc[[t, t]].stack()` on a one-row table of two reactors. */
  lemma SharedRowTwice(df: Frame<real>, t: Timestamp, eA: Entry, eB: Entry)
    requires df.WellFormed() && df.index == [t] && df.columns == ["P1", "P2"]
    requires df.data[0] == [Some(eA.v)] && df.data[1] == [Some(eB.v)]
    requires eA.key == (t, "P1") && eB.key == (t, "P2")
    ensures StackRows(df, [t, t]) == Ok([eA, eB, eA, eB])
  {
    assert RowEntries(df, t, 2) == [];
    assert RowEntries(df, t, 1) == [eB];
    assert RowEntries(df, t, 0) == [eA, eB];
    assert [t][1..] == [] && [t, t][1..] == [t];
    assert StackRows(df, []) == Ok([]);
    assert [eA, eB] + [] == [eA, eB] && [eA, eB] + [eA, eB] == [eA, eB, eA, eB];
    assert StackRows(df, [t]) == Ok([eA, eB]);
  }

  /** `.loc` of the two keys on that stacked series: each label twice. */
  lemma SharedKeysSelectTwice(es: seq<Entry>, eA: Entry, eB: Entry)
    requires es == [eA, eB, eA, eB] && eA.key != eB.key
    ensures SelectKeys(es, [eA.key, eB.key]) == Ok([eA, eA, eB, eB])
  {
    var keys := [eA.key, eB.key];
    assert es[1..] == [eB, eA, eB] && es[2..] == [eA, eB] && es[3..] == [eB] && es[4..] == [];
    assert Matches(es[3..], eA.key) == [];
    assert Matches(es[2..], eA.key) == [eA];
    assert Matches(es, eA.key) == [eA, eA];
    assert Matches(es[3..], eB.key) == [eB];
    assert Matches(es[1..], eB.key) == [eB, eB];
    assert keys[1..][1..] == [] && keys[1..][0] == eB.key;
    assert SelectKeys(es, []) == Ok([]);
    assert [eB, eB] + [] == [eB, eB] && [eA, eA] + [eB, eB] == [eA, eA, eB, eB];
    assert SelectKeys(es, keys[1..]) == Ok([eB, eB]);
  }

  /** The OD column of the summary, in row order. */
  function SummaryValues(rows: seq<SummaryRow>): (vs: seq<real>)
    ensures |vs| == |rows| && forall i :: 0 <= i < |rows| ==> vs[i] == rows[i].od
  {
    seq(|rows|, i requires 0 <= i < |rows| => rows[i].od)
  }

  /** With unique column names, a column name is found at its own position. */
  lemma ColumnPosDistinct(columns: seq<string>, c: nat)
    requires Distinct(columns) && c < |columns|
    ensures ColumnPos(columns, columns[c]) == Some(c)
  {
  }

  /** A point left by `dropna` on column c is the cell of that column at its
      timestamp. */
  lemma ObservedCell(df: Frame<real>, c: nat, p: Point)
    requires df.WellFormed() && Distinct(df.index) && Distinct(df.columns) && c < |df.columns|
    requires p in DropNa(Column(df.index, df.data[c]))
    ensures CellAt(df, p.t, df.columns[c]) == Some(p.y)
  {
    var s := Column(df.index, df.data[c]);
    DropNaMembers(s);
    var i :| 0 <= i < |s| && s[i] == Sample(p.t, Some(p.y));
    PosOfDistinct(df.index, i);
    ColumnPosDistinct(df.columns, c);
  }

  /**
   * Reading the fitted table back at the summary's keys: every maximum is an
   * observed cell of its reactor's column, so the `OD_median` column repeats
   * `OD_value` when no two maxima share a timestamp; when two do (two
   * reactors, or two segments of one reactor), the assignment raises
   * `ValueError`.
   */
  lemma SummaryLookupReadsMaxima<P>(df: Frame<real>, peaks: Frame<P>, smoothing: real, datetimeIndex: bool,
                                    spline: Spline)
    requires df.WellFormed() && peaks.WellFormed() && StrictlyIncreasing(df.index) && Distinct(df.columns)
    requires GrowthFitOf(df, peaks, smoothing, datetimeIndex, spline).Ok?
    ensures var g := GrowthFitOf(df, peaks, smoothing, datetimeIndex, spline).value;
            |g.maxima| == |df.columns| &&
            var keys := Keys(CreateSummary(df.columns, g.maxima));
            (Distinct(KeyTimes(keys)) ==>
               SummaryColumn(df, keys) == Ok(SummaryValues(CreateSummary(df.columns, g.maxima)))) &&
            (!Distinct(KeyTimes(keys)) ==> SummaryColumn(df, keys) == Err(DuplicateLabels))
  {
    var outs := ReactorFits(df, peaks, smoothing, datetimeIndex, spline);
    AssembleProperties(df.index, df.columns, outs);
    var g := GrowthFitOf(df, peaks, smoothing, datetimeIndex, spline).value;
    forall c, p | 0 <= c < |df.columns| && p in g.maxima[c] ensures CellAt(df, p.t, df.columns[c]) == Some(p.y) {
      assert Recorded(df.index, outs, c, GrowthColumns(g.fitted.data, g.deriv.data, g.maxima));
      MaximumObserved(df, peaks, smoothing, datetimeIndex, spline, c, p);
    }
    StrictlyIncreasingIsDistinct(df.index);
    SummaryCells(df, g.maxima);
  }

  /** When every maximum is the cell of its reactor at its timestamp, the
      lookup at the summary's keys gives the summary's OD values, unless two
      keys share a timestamp. */
  lemma SummaryCells(df: Frame<real>, maxima: seq<seq<Point>>)
    requires df.WellFormed() && Distinct(df.index) && Distinct(df.columns) && |maxima| == |df.columns|
    requires forall c, p :: 0 <= c < |df.columns| && p in maxima[c] ==> CellAt(df, p.t, df.columns[c]) == Some(p.y)
    ensures var rows := CreateSummary(df.columns, maxima);
            var keys := Keys(rows);
            (Distinct(KeyTimes(keys)) ==> SummaryColumn(df, keys) == Ok(SummaryValues(rows))) &&
            (!Distinct(KeyTimes(keys)) ==> SummaryColumn(df, keys) == Err(DuplicateLabels))
  {
    var rows := CreateSummary(df.columns, maxima);
    var keys := Keys(rows);
    forall k | 0 <= k < |keys| ensures CellAt(df, keys[k].0, keys[k].1) == Some(rows[k].od) {
      var x := rows[k];
      assert x in rows;
      var c :| 0 <= c < |df.columns| && x.unit == df.columns[c] && Point(x.t, x.od) in maxima[c];
    }
    SummaryColumnExact(df, keys);
    var r := SummaryColumn(df, keys);
    if r.Ok? {
      assert r.value == SummaryValues(rows);
    }
  }

  /** A maximum recorded for reactor c is a present cell of column c. */
  lemma MaximumObserved<P>(df: Frame<real>, peaks: Frame<P>, smoothing: real, datetimeIndex: bool,
                           spline: Spline, c: nat, p: Point)
    requires df.WellFormed() && peaks.WellFormed() && StrictlyIncreasing(df.index) && Distinct(df.columns)
    requires c < |df.columns|
    requires ReactorFits(df, peaks, smoothing, datetimeIndex, spline)[c].Ok?
    requires p in ReactorFits(df, peaks, smoothing, datetimeIndex, spline)[c].value.maxima
    ensures CellAt(df, p.t, df.columns[c]) == Some(p.y)
  {
    var k := ColumnPos(peaks.columns, df.columns[c]).value;
    var s := DropNa(Column(df.index, df.data[c]));
    SegmentedFitMaximaObserved(s, PeakTimes(peaks.index, peaks.data[k]), smoothing, datetimeIndex, spline);
    StrictlyIncreasingIsDistinct(df.index);
    ObservedCell(df, c, p);
  }

  // ---------------------------------------------------------------------------
  // The page

  /** What the page computes after peak detection. */
  datatype Analysis = Analysis(
    rolling: Frame<real>,
    fit: GrowthFit,
    cutoffs: seq<Option<real>>,
    inHighGrowth: seq<seq<bool>>,
    ranges: seq<IntervalRecord>,
    summary: seq<SummaryRow>,
    columns: Result<SummaryColumns, LookupError>)

  /**
   * The page body from the smoothed table on: optionally drop downward
   * trending points, fit every reactor between its peaks, then derive the
   * cutoffs, the high-growth cells, one interval per reactor, the summary
   * of maxima and its looked-up columns (an error there is shown and the
   * summary kept without them). A failing fit aborts the page with its error.
   */
  method AnalyseTurbidostat<P>(rolling: Frame<real>, peaks: Frame<P>, removeDownward: bool, threshold: real,
                               smoothing: real, datetimeIndex: bool, spline: Spline)
    returns (r: Result<Analysis, FitError>)
    requires rolling.WellFormed() && peaks.WellFormed() && StrictlyIncreasing(rolling.index)
    ensures var input := if removeDownward then RemoveDownwardTrend(rolling) else rolling;
            var fit := GrowthFitOf(input, peaks, smoothing, datetimeIndex, spline);
            (r.Err? <==> fit.Err?) && (r.Err? ==> r.error == fit.error) &&
            (r.Ok? ==>
               var a := r.value;
               a.rolling == input && a.fit == fit.value &&
               a.fit.deriv.WellFormed() && a.fit.deriv.index == rolling.index &&
               a.fit.deriv.columns == rolling.columns && Distinct(rolling.index) &&
               a.cutoffs == Cutoffs(a.fit.deriv, threshold) &&
               a.inHighGrowth == HighGrowthCells(a.fit.deriv, threshold) &&
               a.ranges == HighGrowthRanges(a.fit.deriv, threshold) &&
               |a.fit.maxima| == |rolling.columns| &&
               a.summary == CreateSummary(rolling.columns, a.fit.maxima) &&
               a.fit.fitted.WellFormed() &&
               a.columns == AddSummaryColumns(input, a.fit.fitted, a.fit.deriv, Keys(a.summary)))
  {
    var input := rolling;
    if removeDownward {
      input := RemoveDownwardTrend(input);
    }
    var fit := FitGrowthDataWithPeaks(input, peaks, smoothing, datetimeIndex, spline);
    if fit.Err? {
      return Err(fit.error);
    }
    var g := fit.value;
    StrictlyIncreasingIsDistinct(input.index);
    var cutoffs := Cutoffs(g.deriv, threshold);
    var inHigh := HighGrowthCells(g.deriv, threshold);
    var ranges := HighGrowthRanges(g.deriv, threshold);
    var summary := CreateSummary(input.columns, g.maxima);
    var columns := AddSummaryColumns(input, g.fitted, g.deriv, Keys(summary));
    r := Ok(Analysis(input, g, cutoffs, inHigh, ranges, summary, columns));
  }
}
