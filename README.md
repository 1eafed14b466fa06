# PioGrowth growth-curve analysis in Dafny

PioGrowth turns optical-density (OD) readings of Pioreactor units into growth
statistics. This project models the analysis core of that program and proves
properties about it:

- **The upload page filtering pipeline** (`upload.dfy`, module `Upload`).
  - The Keep/Remove reactor filter.
  - The time window.
  - An all-`false` mask that gains, stage by stage, strictly negative readings, values above a per-column quantile, and rolling-IQR outliers.
  - The rolling median of the filtered table.
- **The rolling-IQR kernel** (`filter.dfy`, module `OutlierFilter`). It decides whether the middle cell of a window lies strictly outside `[q1 - f*iqr, q3 + f*iqr]`.
- **Quantiles** (`quantiles.dfy`, module `Quantiles`). Linear interpolation over the sorted non-missing values, as `Series.quantile` and the rolling median compute them.
- **The spline-fit orchestration** (`fit.dfy` and `smoothing.dfy`, modules `Fit` and `Smoothing`).
  - The smoothing-range heuristic.
  - The single-series fit on elapsed seconds, with its error order.
  - The per-column batch.
  - The segmentation between peaks: boundaries, inclusive slices, skipped short segments, merge, sort, de-duplication and per-segment maxima.
  - The per-reactor loop of the peak-based fit.
- **The interval finder** (`durations.dfy`, module `Durations`). First and last `true` of a boolean series, the time between them, and whether the whole span is `true`.
- **The turbidostat page post-processing** (`turbidostat.dfy`, module `Turbidostat`).
  - The dilution-event filter.
  - The distinct-column check.
  - Removal of downward-trending points.
  - High-growth cutoffs fed into the interval finder.
  - The summary of maxima and the lookups at its keys.

Shared types live in `base.dfy` (module `Base`):

- Timestamps are integer seconds.
- OD values are `real`.
- A missing cell is `None`.
- A wide table is a `Frame`: a time index, column names and column-major cells, where `data[c][i]` is column `c` at row `i`.

**Pure code.** Code that is pure in the program is written here as functions, with lemmas about them.

**Step-by-step code.** The loops and scripts that change state step by step are methods, each proved against a function that specifies it:

- `Fit.FitOneBatch`
- `Fit.FitSplinesToSegments`
- `Fit.FitGrowthDataWithPeaks`
- `Upload.FilterWideTable`
- `Turbidostat.AnalyseTurbidostat`

**Spline fit.** The spline fit itself is a parameter `Spline`. It maps the elapsed seconds, the values, the smoothing factor and an evaluation point to the fitted value and the slope there.

**Rolling windows.** For a fixed integer window `w` centred on row `i`, the model uses these rows, clipped to the table:

- The IQR stage is closed on both sides. Its window is rows `[i + 1 + (w-1)/2 - w - 1, i + 1 + (w-1)/2)`.
- The median is right-closed. Its window is rows `[i + 1 + (w-1)/2 - w, i + 1 + (w-1)/2)`.

These bounds are an assumption about pandas' fixed-window indexer.

Where the documentation and the code differ, the model follows the code:

- `get_smoothing_range(100)` truncates `100 - sqrt(200)` to 85, not 86.
- `find_max_range` reports the span from the first to the last `true` and whether all of it is `true`. It does not find the longest run, whatever its doc-string says.
- In `fit_growth_data_w_peaks`, one reactor without a qualifying segment makes `pd.concat([])` raise. That aborts the whole table.
- A rolling window with fewer than `min_periods` values yields NaN in the IQR stage. `.astype(bool)` turns that NaN into `true`, so the cell is masked.
- The rolling-IQR stage always runs. It has no switch.
- Enabling another stage does not only add masked cells. Each stage computes its quantile or window on the table that the earlier stages left, so masking negative readings can lift a reading out of the extreme stage (`Upload.NegativeStageCanUnmask`).
- The dilution filter keeps rows with no event when every present event is a dilution: `mask.all()` skips `<NA>`, so the table is kept as it is.
- The summary lookups fail with `ValueError` when two maxima share a timestamp. `.loc` then repeats that row, and the looked-up series cannot be aligned with the summary. The page shows the error and keeps the summary without the three columns.

## Model

| member | source | states |
|---|---|---|
| Durations.GetFirstIdxMax | src/piogrowth/durations.py:6-8 | missing exactly when no sample is `true`; otherwise the label of a `true` sample with none before it |
| Durations.GetLastTrueIndex | src/piogrowth/durations.py:11-24 | missing exactly when no sample is `true`; otherwise the label of a `true` sample with none after it |
| Durations.FindMaxRange | src/piogrowth/durations.py:27-52 | all four fields missing exactly when there is no `true`; otherwise start and end are the labels of the first and last `true`, duration is end minus start, and is_continues holds iff every sample between them is `true` |
| Durations.LabelSliceAtPositions | src/piogrowth/durations.py:45 | on a unique index the label slice `s[start:end]` includes both ends and equals the positional slice |
| Durations.AscendingIndexGivesNonNegativeDuration | src/piogrowth/durations.py:41-44 | on an ascending index start <= end and the duration is non-negative |
| Durations.SingleTrueIsPointInterval | src/piogrowth/durations.py:41-45 | a single `true` gives start = end at its label, duration 0 and is_continues `true` |
| Durations.ContinuousIffOneBlock | src/piogrowth/durations.py:45 | is_continues is `true` iff no `false` lies between two `true`s |
| Quantiles.Sort | src/piogrowth/filter.py:11-12 | the result is sorted and a permutation of the values |
| Quantiles.SortIsSortedArrangement | src/piogrowth/filter.py:11-12 | any sorted permutation of the values is the one the quantile uses, so the quantile depends only on the multiset of values |
| Quantiles.Quantile | src/piogrowth/filter.py:11-12 | the quantile of the non-missing values lies between the smallest and the largest of them |
| Quantiles.QuantileSortedBracket | src/piogrowth/filter.py:11-12 | the interpolated quantile lies between the two order statistics around rank (n-1)q |
| Quantiles.QuantileWithinRange | src/piogrowth/filter.py:11-12 | a quantile lies within any bounds of the values |
| Quantiles.QuantileMonotone | src/piogrowth/filter.py:11-13 | a higher level never gives a smaller quantile |
| Quantiles.QuantileOneIsMax | app/0_upload_data.py:175-179 | the 1.0-quantile is at least every value |
| Quantiles.Median | app/0_upload_data.py:245-249 | the median is the middle sorted value for an odd count and the mean of the two middle ones for an even count |
| OutlierFilter.OutOfIqr | src/piogrowth/filter.py:5-18 | a missing center (position `len // 2`) is never an outlier; otherwise the result holds iff the center is strictly below `q1 - f*iqr` or strictly above `q3 + f*iqr`, quartiles over the non-missing values |
| OutlierFilter.QuartilesOrdered | src/piogrowth/filter.py:11-13 | q1 <= q3, so the iqr is non-negative |
| OutlierFilter.FencesEncloseQuartiles | src/piogrowth/filter.py:13-15 | for a non-negative factor the bounds enclose [q1, q3] |
| OutlierFilter.InsideQuartilesNotOutlier | src/piogrowth/filter.py:11-18 | a center within [q1, q3] is not an outlier for any non-negative factor |
| OutlierFilter.CenterOnBoundNotOutlier | src/piogrowth/filter.py:18 | a center equal to a bound is not an outlier (strict comparisons) |
| OutlierFilter.ConstantWindowNotOutlier | src/piogrowth/filter.py:11-18 | a window whose values are all equal flags nothing |
| OutlierFilter.MonotoneInFactor | src/piogrowth/filter.py:14-18 | raising the factor can only turn `true` into `false` |
| OutlierFilter.ZeroIqrFlagsAnyDeparture | src/piogrowth/filter.py:13-18 | with q1 = q3 the center is an outlier iff it differs from them |
| OutlierFilter.SpikeIsOutlier | src/piogrowth/filter.py:8-18 | nine values, eight equal around a different center: both quartiles are the repeated value and the center is an outlier for every factor |
| OutlierFilter.ExampleSpike | src/piogrowth/filter.py:8-18 | the window [1,1,1,1,100,1,1,1,1] is flagged |
| Smoothing.GetSmoothingRange | src/piogrowth/fit.py:11-17 | middle component is m and s_min <= m <= s_max; for m >= 2, s_min = m - ceil(sqrt(2m)) and s_max = m + floor(sqrt(2m)) |
| Smoothing.SmoothingRangeIsTruncation | src/piogrowth/fit.py:15 | with the exact real root of 2m, both bounds equal Python's truncating `int` of m -/+ sqrt(2m) |
| Smoothing.SmoothingRangeExamples | src/piogrowth/fit.py:15 | m = 100 gives (85, 100, 114) and m = 1 gives (0, 1, 2) |
| Fit.Elapsed | src/piogrowth/fit.py:46 | x[0] = 0 and x[i] is the seconds from the first timestamp to the i-th |
| Fit.ElapsedIncreasing | src/piogrowth/fit.py:46 | on an increasing index the elapsed times are non-negative and strictly increasing |
| Fit.FitPoints | src/piogrowth/fit.py:40-64 | fewer than 4 points raise the value error, checked before the index-type error; success keeps the points' timestamps in both outputs (the values are stated by `Fit.FitPointsValues`) |
| Fit.FitSeries | src/piogrowth/fit.py:37-66 | fewer than 4 non-missing values raise the value error, checked before the index-type error; success carries fitted values and slopes indexed by exactly the non-missing timestamps, each the spline's value and slope at that sample's elapsed seconds |
| Fit.FitPointsValues | src/piogrowth/fit.py:46-64 | the i-th fitted value and slope are the spline, built on the elapsed seconds and values, evaluated at the i-th elapsed second |
| Fit.FitSeriesIgnoresMissing | src/piogrowth/fit.py:38 | the fit depends only on the non-missing samples |
| Fit.FitSeriesShiftInvariant | src/piogrowth/fit.py:46-64 | shifting all timestamps shifts the output index and leaves fitted values and slopes unchanged |
| Fit.FullColumnFit | src/piogrowth/fit.py:87-95 | a column without missing cells fails exactly on a short table or a non-datetime index, and otherwise yields one value per row |
| Fit.FitOneBatch | src/piogrowth/fit.py:69-97 | any missing cell is an assertion error; otherwise success iff the table has no columns or at least 4 rows and a datetime index, with both outputs on the input's index and columns and each column the independent fit of the input column |
| Fit.Boundaries | src/piogrowth/fit.py:119 | boundaries are the smallest timestamp, the peak timestamps in order, and the largest timestamp |
| Fit.BetweenMembers | src/piogrowth/fit.py:122 | the label slice holds exactly the points with start <= t <= end, both ends included |
| Fit.FitSegment | src/piogrowth/fit.py:125-131 | a segment fit fails only on a non-datetime index; it keeps the segment's timestamps, its values and slopes are the spline's at seconds counted from the segment's first timestamp, and it records a point of the segment |
| Fit.SegmentPeakAtFirstSteepest | src/piogrowth/fit.py:130-131 | the recorded maximum is the OD value at the first timestamp where the slope is largest |
| Fit.FitsUpTo | src/piogrowth/fit.py:121-132 | one fit per segment of at least 4 points, shorter ones skipped; the loop fails iff some segment qualifies and the index is not datetime |
| Fit.FitsComeFromSegments | src/piogrowth/fit.py:121-132 | each recorded fit has the timestamps of one qualifying segment and a maximum from that segment |
| Fit.DedupFirstProperties | src/piogrowth/fit.py:134-137 | de-duplication leaves one point per timestamp, keeps every timestamp, invents no point, and on sorted input gives strictly increasing times |
| Fit.Combine | src/piogrowth/fit.py:134-138 | no fitted segment is the concat error; otherwise the merged fits have strictly increasing timestamps and the maxima are the segments' maxima, each once, sorted by time |
| Fit.Merge | src/piogrowth/fit.py:134-137 | concat, `sort_index` and `duplicated(keep="first")` give strictly increasing, so unique, timestamps |
| Fit.MergeTimes | src/piogrowth/fit.py:134-137 | the merged timestamps are exactly the union of the segments' timestamps |
| Fit.FitSplinesToSegments | src/piogrowth/fit.py:100-139 | the loop over boundary pairs returns what the segmented-fit specification gives |
| Fit.SegmentedFitOf | src/piogrowth/fit.py:100-139 | an empty series has no segment; otherwise the concat error occurs iff no segment has 4 points, and the index-type error iff one does and the index is not datetime |
| Fit.SegmentedFitShape | src/piogrowth/fit.py:130-138 | on success, fitted and slope series have strictly increasing times and there is one maximum per qualifying segment, sorted by time |
| Fit.SegmentedFitMaximaObserved | src/piogrowth/fit.py:131 | every recorded maximum is an observed point of the series |
| Fit.SegmentedFitTimes | src/piogrowth/fit.py:121-137 | every fitted timestamp lies in a qualifying segment |
| Fit.PeakTimesMembers | src/piogrowth/fit.py:154 | the peak times are exactly the labels of the non-missing peak cells |
| Fit.AlignCells | src/piogrowth/fit.py:158-159 | an aligned cell is present iff the fitted series has that timestamp, and then holds its value |
| Fit.FitReactor | src/piogrowth/fit.py:153-157 | one reactor: drop missing values, read its peaks column (missing column is a key error), fit the segments |
| Fit.AssembleProperties | src/piogrowth/fit.py:148-162 | the table fit succeeds iff every reactor does; a failure is the first failing reactor's error; on success each column holds its reactor's aligned fit and maxima |
| Fit.GrowthFitOf | src/piogrowth/fit.py:142-162 | the table fit succeeds iff every reactor's fit does, and then has one fitted column, one derivative column and one maxima series per input column, on the input's index |
| Fit.FitGrowthDataWithPeaks | src/piogrowth/fit.py:142-162 | the loop over reactor columns returns what the specification function gives |
| Base.DropNaKeepsIncreasing | src/piogrowth/fit.py:153 | dropping missing values keeps a strictly increasing index strictly increasing |
| Base.DropNaMembers | src/piogrowth/fit.py:38 | `dropna` keeps exactly the present samples |
| Base.FlattenMembers | src/piogrowth/fit.py:134 | concatenation holds exactly the points of its parts |
| Base.InsertByTimeMultiset | src/piogrowth/fit.py:134 | inserting into a time-sorted series adds exactly that point |
| Base.LookupFinds | src/piogrowth/fit.py:158 | a label lookup finds a value iff the timestamp occurs, and that point is in the series |
| Upload.FilterReactors | app/0_upload_data.py:128-138 | an empty selection keeps every row |
| Upload.KeepRemoveComplement | app/0_upload_data.py:134-138 | Keep retains exactly the selected reactors' rows, Remove exactly the others, and together they give back every row |
| Upload.TimeWindow | app/0_upload_data.py:152-153 | the window keeps the columns; no range keeps the table |
| Upload.TimeWindowRows | app/0_upload_data.py:152-153 | `loc[lo:hi]` keeps exactly the labels between lo and hi, both included, as a block of whole rows |
| Upload.NoMask | app/0_upload_data.py:157-161 | the initial mask has the table's shape (every cell `false`) |
| Upload.NegativeMask | app/0_upload_data.py:165-166 | `df < 0` is a mask of the table's shape (its cell verdicts are stated by `Upload.StageCellVerdicts`) |
| Upload.ColumnQuantile | app/0_upload_data.py:178 | a column quantile is missing iff the column has no value |
| Upload.ExtremeMask | app/0_upload_data.py:175-178 | `df > df.quantile(q)` is a mask of the table's shape (at q = 1.0 it is empty, `Upload.ExtremeAtOneMasksNothing`) |
| Upload.ExtremeAtOneMasksNothing | app/0_upload_data.py:175-179 | with quantile_max = 1.0 the extreme stage masks nothing |
| Upload.IqrWindow | app/0_upload_data.py:194-200 | the closed-both window of row i contains row i and lies in the table |
| Upload.OutlierCell | app/0_upload_data.py:194-203 | fewer than min_periods values in the window give `true`; otherwise the kernel's verdict on the clipped window |
| Upload.OutlierMask | app/0_upload_data.py:194-203 | the rolling-IQR mask has the table's shape (each cell is `Upload.OutlierCell`) |
| Upload.InteriorWindowTestsOwnRow | app/0_upload_data.py:194-201 | for odd w, in the interior the window has w + 1 rows and the kernel tests row i |
| Upload.EdgeWindowTestsAnotherRow | app/0_upload_data.py:194-201 | at the first row with w = 5 the window is rows 0..2 and the kernel tests row 1 |
| Upload.StageKeepsConsistent | app/0_upload_data.py:171-172 | one stage (mask the filtered table, OR into the mask) keeps the invariant and only adds mask cells |
| Upload.FilterWideTable | app/0_upload_data.py:152-211 | result tables are the time window; a filtered cell is missing iff the wide cell is missing or masked, and otherwise equals it; a cell is masked iff some enabled stage masks it on the table left by the stages before; the filtered table is the outlier mask applied to the table after the optional stages |
| Upload.StageCellVerdicts | app/0_upload_data.py:165-207 | a strictly negative reading is masked when chosen, a zero reading never by that stage, and a window with too few values always masks |
| Upload.NegativeStageCanUnmask | app/0_upload_data.py:165-203 | one column of four readings: without the negative-value stage the extreme stage masks the reading 1.0; with it, the quantile moves and the reading is kept, so an extra option can unmask a cell |
| Upload.MedianWindow | app/0_upload_data.py:245-249 | the right-closed window of row i contains row i and lies in the table |
| Upload.MedianCell | app/0_upload_data.py:245-249 | missing iff the window has fewer than min_periods values or none; otherwise the median of its non-missing values |
| Upload.RollingMedian | app/0_upload_data.py:245-249 | the rolling median keeps the table's index and columns |
| Upload.MedianWithinWindow | app/0_upload_data.py:245-249 | a rolling median lies between the smallest and the largest value of its window |
| Upload.InteriorMedianWindow | app/0_upload_data.py:245-249 | for odd w, in the interior the median window has w rows centred on row i |
| Turbidostat.FilterDilutionEvents | app/2_turbiostat.py:205-208 | a table without the `event_name` column is a key error; otherwise the result is no longer than the input, comes from it and holds no row with another event |
| Turbidostat.DilutionFilterRows | app/2_turbiostat.py:205-208 | every dilution row is kept as often as it occurs, no row with another event is kept, and a row with a missing event is kept iff no row has another event (`all()` skips `<NA>`, `.loc` treats it as `false`) |
| Turbidostat.MissingEventSurvives | app/2_turbiostat.py:205-208 | a dilution row and a row without an event both survive the filter, although only the first is a dilution |
| Turbidostat.DilutionsMembers | app/2_turbiostat.py:208 | `.loc[mask]` keeps exactly the rows whose event is `DilutionEvent` |
| Turbidostat.DilutionsCount | app/2_turbiostat.py:208 | `.loc[mask]` keeps each dilution row as often as it occurs |
| Turbidostat.AllDilutionsKept | app/2_turbiostat.py:206-208 | a table of dilutions only is unchanged |
| Turbidostat.ColumnsDistinctIffPairwise | app/2_turbiostat.py:219-224 | the three-element set check passes iff the chosen column names are pairwise different |
| Turbidostat.RemoveDownwardTrend | app/2_turbiostat.py:258-260 | `df.mask(df.diff().le(0))` keeps the table's index and columns (cells: `Turbidostat.DownwardTrendCells`) |
| Turbidostat.DownwardTrendCells | app/2_turbiostat.py:258-260 | a cell is removed iff it and its predecessor are present and it does not rise; the first row and rows after a missing value stay; kept values are unchanged |
| Turbidostat.KeptValuesRise | app/2_turbiostat.py:260 | a kept value with a present predecessor lies strictly above it |
| Turbidostat.ColumnMax | app/2_turbiostat.py:316 | the column maximum is missing iff every cell is missing; otherwise it is a present value at least every present value |
| Turbidostat.Cutoffs | app/2_turbiostat.py:315-316 | one cutoff per derivative column, missing iff that column has no value |
| Turbidostat.HighGrowthCells | app/2_turbiostat.py:315-317 | one boolean column per derivative column; a missing cell is never a high-growth cell (which cells qualify: `Turbidostat.FullThresholdKeepsMaxima`, `Turbidostat.LowerThresholdAddsCells`) |
| Turbidostat.HighGrowthRanges | app/2_turbiostat.py:317-319 | one interval record per derivative column |
| Turbidostat.ArgmaxQualifies | app/2_turbiostat.py:315-319 | with a positive maximum and 0 <= threshold <= 100 the argmax cell qualifies, so the record is not missing |
| Turbidostat.FullThresholdKeepsMaxima | app/2_turbiostat.py:315-317 | threshold 100 marks exactly the cells equal to the maximum |
| Turbidostat.NegativeMaximumNoHighGrowth | app/2_turbiostat.py:315-319 | with a negative maximum and threshold below 100 no cell qualifies and the record is missing |
| Turbidostat.LowerThresholdAddsCells | app/2_turbiostat.py:315-317 | for a positive maximum a lower threshold only adds high-growth cells |
| Turbidostat.CreateSummary | app/2_turbiostat.py:22-28 | the summary has a row exactly for each maximum of each reactor, with its OD value |
| Turbidostat.SummaryKeysDistinct | app/2_turbiostat.py:22-28 | with distinct reactor names and strictly increasing maxima times, no (timestamp, reactor) key occurs twice |
| Turbidostat.StackRows | app/2_turbiostat.py:31-33 | `df.loc[timestamps].stack()` succeeds iff every timestamp is in the index; otherwise the error names a missing one |
| Turbidostat.StackMatches | app/2_turbiostat.py:31-33 | after stacking, a key's cell appears once for every time its timestamp is listed, and not at all when the cell is missing |
| Turbidostat.SelectKeys | app/2_turbiostat.py:33 | `.loc[keys]` succeeds iff every key has an entry; otherwise the error names a key without one |
| Turbidostat.SelectKeysShape | app/2_turbiostat.py:33 | `.loc[keys]` returns at least one entry per key; exactly each key's entry when every label occurs once, more entries than keys when one occurs twice |
| Turbidostat.SelectionExactOrRepeated | app/2_turbiostat.py:31-33 | a successful lookup is labelled exactly by the keys or repeats a label |
| Turbidostat.GetValuesFromDf | app/2_turbiostat.py:31-33 | the lookup itself only raises key errors, never the alignment error |
| Turbidostat.AssignColumn | app/2_turbiostat.py:386-390 | assignment succeeds iff the looked-up labels equal the summary's keys, and then takes the values in order; otherwise it is the `ValueError` |
| Turbidostat.SummaryColumn | app/2_turbiostat.py:386-390 | a filled summary column has one value per key (which values, and when it fails: `Turbidostat.SummaryColumnExact`) |
| Turbidostat.SummaryColumnExact | app/2_turbiostat.py:31-33 | a summary column is filled iff every key has a cell and no two keys share a timestamp, and then holds each key's cell; a shared timestamp is the `ValueError`, a missing cell a key error |
| Turbidostat.SharedTimestampFails | app/2_turbiostat.py:31-33 | two reactors with a maximum at one timestamp: the lookup returns each entry twice and the column cannot be added |
| Turbidostat.AddSummaryColumns | app/2_turbiostat.py:384-392 | the three columns are added iff all three lookups succeed; otherwise the error is the first failing lookup's |
| Turbidostat.SummaryLookupReadsMaxima | app/2_turbiostat.py:383-386 | when no two maxima share a timestamp, `OD_median` is filled and repeats the summary's OD values; when two do, adding it is the `ValueError` |
| Turbidostat.AnalyseTurbidostat | app/2_turbiostat.py:258-392 | a fit failure is passed on; otherwise the analysis holds the (optionally trend-filtered) input, its peak-based fit, per-column cutoffs, high-growth cells, one interval per reactor, the summary of maxima and the result of adding its three looked-up columns |

## Left out

- The spline library (`make_splrep`, `splev`, `.derivative`) is the parameter `Spline`. Nothing about its numerics is modelled.
- Floating point: values are exact reals; `np.sqrt` is replaced by integer square roots tied to the real root by `Smoothing.SmoothingRangeIsTruncation`.
- CSV reading, `convert_dtypes`, timestamp rounding (`dt.round`) and `pivot` are not modelled. The wide tables are inputs with a strictly increasing index and distinct column names, which is what `pivot` produces.
- Peak detection (`src/piogrowth/turbistat.py`, a wrapper over `scipy.signal.find_peaks`) and the metadata pivot are not modelled. The peaks table is an input whose cells may hold any value; only which cells are present matters.
- The Streamlit pages: forms, session state, `st.stop`, reruns, download buttons, plots, the elapsed-time views and the `msg` text with its counts.
- The splitting of a typed reactor list at commas (app/0_upload_data.py:130-132) is not modelled; the selection is given as a list.
- Base.SortByTime: `sort_index` is modelled by a stable insertion sort. The proved properties do not depend on the order chosen for equal timestamps: uniqueness, and each kept point comes from a segment with that timestamp.
- Turbidostat.CreateSummary: rows are listed reactor by reactor. The row order of `stack` and of the final `swaplevel(0, 1).sort_index()` is not modelled; membership is.
- Turbidostat.CreateSummary and Turbidostat.SummaryKeysDistinct: one reactor's maxima are taken to have distinct timestamps. Two adjacent segments share their boundary point, so both can record the same maximum. `pd.DataFrame(maxima)` on such a series may raise or repeat a key, and that case is not modelled. SummaryKeysDistinct requires strictly increasing maxima times and proves key uniqueness only under it.
- Turbidostat.GetValuesFromDf: a `KeyError` from `.loc` is not caught by the page's `except ValueError` and would stop the page. The model records it as the error value of `Analysis.columns` instead. Which missing label pandas names first is not modelled beyond "a missing one".
- Upload.FilterWideTable: pandas rejects `min_periods` larger than the window with a ValueError. The model has no such error and computes the masks anyway.
- Upload.RollingMedian: same `min_periods` check as above, not modelled.
- The summary column renaming (`app/names.py`) is not modelled.
- The datetime type of the index is a boolean parameter of the fit; timestamps are integer seconds.
