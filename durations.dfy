/**
 * The interval finder of `src/piogrowth/durations.py`: first and last `true`
 * of a boolean series with a timestamp index, the time between them, and
 * whether every sample between them is `true`.
 */
module Durations {
  import opened Base

  /** The four-field record `find_max_range` returns, fields in the source's
      order `start, end, duration, is_continues`; `None` is NaT / NA. */
  datatype IntervalRecord = IntervalRecord(
    start: Option<Timestamp>,
    end: Option<Timestamp>,
    duration: Option<int>,
    isContinues: Option<bool>)

  const NoInterval := IntervalRecord(None, None, None, None)

  predicate NoneTrue(s: seq<bool>) {
    forall i :: 0 <= i < |s| ==> !s[i]
  }

  /** Position of the first `true`. */
  function FirstTrue(s: seq<bool>): (r: Option<nat>)
    ensures r.None? <==> NoneTrue(s)
    ensures r.Some? ==> r.value < |s| && s[r.value] && forall i :: 0 <= i < r.value ==> !s[i]
  {
    if s == [] then None
    else if s[0] then Some(0)
    else match FirstTrue(s[1..])
      case None => None
      case Some(k) => Some(k + 1)
  }

  /** Position of the last `true`. */
  function LastTrue(s: seq<bool>): (r: Option<nat>)
    ensures r.None? <==> NoneTrue(s)
    ensures r.Some? ==> r.value < |s| && s[r.value] && forall i :: r.value < i < |s| ==> !s[i]
  {
    if s == [] then None
    else if s[|s| - 1] then Some(|s| - 1)
    else LastTrue(s[..|s| - 1])
  }

  /** `get_first_idxmax`: `idxmax` of a boolean series is the label of its
      first `true`; NaT when there is none. */
  function GetFirstIdxMax(index: seq<Timestamp>, s: seq<bool>): (r: Option<Timestamp>)
    requires |index| == |s|
    ensures r.None? <==> NoneTrue(s)
    ensures r.Some? ==> exists k :: 0 <= k < |s| && s[k] && r.value == index[k] && NoneTrue(s[..k])
  {
    match FirstTrue(s)
    case None => None
    case Some(k) =>
      assert NoneTrue(s[..k]);
      Some(index[k])
  }

  /** `get_last_true_index`: the label of the last `true`; NaT when there is none. */
  function GetLastTrueIndex(index: seq<Timestamp>, s: seq<bool>): (r: Option<Timestamp>)
    requires |index| == |s|
    ensures r.None? <==> NoneTrue(s)
    ensures r.Some? ==> exists k :: 0 <= k < |s| && s[k] && r.value == index[k] && NoneTrue(s[k + 1..])
  {
    match LastTrue(s)
    case None => None
    case Some(k) =>
      assert NoneTrue(s[k + 1..]);
      Some(index[k])
  }

  /** Position of label `t` in a unique index (`Index.get_loc`). */
  function PosOf(index: seq<Timestamp>, t: Timestamp): (k: nat)
    requires t in index
    ensures k < |index| && index[k] == t
    ensures forall i :: 0 <= i < k ==> index[i] != t
  {
    if index[0] == t then 0 else PosOf(index[1..], t) + 1
  }

  lemma PosOfDistinct(index: seq<Timestamp>, k: nat)
    requires Distinct(index) && k < |index|
    ensures PosOf(index, index[k]) == k
  {
  }

  /** Label slice `s[a:b]` on a unique index: from the position of `a` to the
      position of `b`, both included; empty when `b` comes before `a`. */
  function LabelSlice(index: seq<Timestamp>, s: seq<bool>, a: Timestamp, b: Timestamp): seq<bool>
    requires |index| == |s| && a in index && b in index
  {
    var i, j := PosOf(index, a), PosOf(index, b);
    if i <= j then s[i..j + 1] else []
  }

  predicate All(s: seq<bool>) {
    forall i :: 0 <= i < |s| ==> s[i]
  }

  /**
   * `find_max_range`. Despite the source's doc-string ("maximum range of
   * consecutive True values") the code reports the span from the first to the
   * last `true`, and whether that whole span is `true`.
   */
  function FindMaxRange(index: seq<Timestamp>, s: seq<bool>): (r: IntervalRecord)
    requires |index| == |s| && Distinct(index)
    ensures NoneTrue(s) <==> r == NoInterval
    ensures NoneTrue(s) <==> r.start.None?
    ensures !NoneTrue(s) ==>
      var f, l := FirstTrue(s).value, LastTrue(s).value;
      f <= l &&
      r == IntervalRecord(Some(index[f]), Some(index[l]), Some(index[l] - index[f]),
                          Some(forall k :: f <= k <= l ==> s[k]))
  {
    var sMin := GetFirstIdxMax(index, s);
    var sMax := GetLastTrueIndex(index, s);
    if sMin.Some? && sMax.Some? then
      var f, l := FirstTrue(s).value, LastTrue(s).value;
      FirstBeforeLast(s);
      LabelSliceAtPositions(index, s, f, l);
      IntervalRecord(sMin, sMax, Some(sMax.value - sMin.value),
                     Some(All(LabelSlice(index, s, sMin.value, sMax.value))))
    else
      IntervalRecord(sMin, sMax, None, None)
  }

  lemma FirstBeforeLast(s: seq<bool>)
    requires !NoneTrue(s)
    ensures FirstTrue(s).value <= LastTrue(s).value
  {
  }

  /** On a unique index, the label slice between the labels of positions
      `f <= l` is the positional slice, and it is all `true` exactly when
      every sample from `f` to `l` is. */
  lemma LabelSliceAtPositions(index: seq<Timestamp>, s: seq<bool>, f: nat, l: nat)
    requires |index| == |s| && Distinct(index) && f <= l < |s|
    ensures LabelSlice(index, s, index[f], index[l]) == s[f..l + 1]
    ensures All(s[f..l + 1]) == (forall k :: f <= k <= l ==> s[k])
  {
    PosOfDistinct(index, f);
    PosOfDistinct(index, l);
    if All(s[f..l + 1]) {
      forall k | f <= k <= l ensures s[k] { assert s[f..l + 1][k - f] == s[k]; }
    }
  }

  /** On an ascending index the interval is never reversed. */
  lemma AscendingIndexGivesNonNegativeDuration(index: seq<Timestamp>, s: seq<bool>)
    requires |index| == |s| && StrictlyIncreasing(index)
    ensures var r := FindMaxRange(index, s);
            r.start.Some? ==> r.start.value <= r.end.value && r.duration.value >= 0
  {
  }

  /** A single `true` gives a zero-length, continuous interval at its label. */
  lemma SingleTrueIsPointInterval(index: seq<Timestamp>, s: seq<bool>, k: nat)
    requires |index| == |s| && Distinct(index) && k < |s| && s[k]
    requires forall i :: 0 <= i < |s| && i != k ==> !s[i]
    ensures FindMaxRange(index, s) == IntervalRecord(Some(index[k]), Some(index[k]), Some(0), Some(true))
  {
    assert !NoneTrue(s);
    assert FirstTrue(s).value == k && LastTrue(s).value == k;
  }

  /** `is_continues` is `true` exactly when the `true` samples form one block:
      no `false` lies between two `true`s. */
  lemma ContinuousIffOneBlock(index: seq<Timestamp>, s: seq<bool>)
    requires |index| == |s| && Distinct(index) && !NoneTrue(s)
    ensures FindMaxRange(index, s).isContinues == Some(true) <==>
            forall i, j, k :: 0 <= i < j < k < |s| && s[i] && s[k] ==> s[j]
  {
    var f, l := FirstTrue(s).value, LastTrue(s).value;
    if FindMaxRange(index, s).isContinues == Some(true) {
      forall i, j, k | 0 <= i < j < k < |s| && s[i] && s[k] ensures s[j] {
        assert f <= i && k <= l;
      }
    } else {
      var g :| f <= g <= l && !s[g];
      assert f < g < l;
      assert !(forall i, j, k :: 0 <= i < j < k < |s| && s[i] && s[k] ==> s[j]) by {
        assert s[f] && s[l] && !s[g];
      }
    }
  }
}
