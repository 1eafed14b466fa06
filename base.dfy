/**
 * Shared vocabulary of the growth-curve model: optional cells, time-stamped
 * points, wide tables (one column per reactor) and a stable sort by an
 * integer key, used wherever pandas sorts by timestamp.
 */
module Base {

  /** A cell of a pandas table: `None` stands for NaN / NaT / NA. */
  datatype Option<+T> = None | Some(value: T)

  /** Error or value, for operations of the source that raise. */
  datatype Result<+R, +E> = Ok(value: R) | Err(error: E)

  /** Timestamps are whole seconds since an arbitrary epoch. */
  type Timestamp = int

  /** An OD reading, possibly missing. */
  type Cell = Option<real>

  /** One entry of a series whose missing values were dropped. */
  datatype Point = Point(t: Timestamp, y: real)

  /** One entry of a series that may hold missing values. */
  datatype Sample = Sample(t: Timestamp, v: Cell)

  /**
   * A wide table: a timestamp index, named columns, and column-major data,
   * `data[c][i]` being the cell of column `columns[c]` at `index[i]`.
   */
  datatype Frame<+T> = Frame(index: seq<Timestamp>, columns: seq<string>, data: seq<seq<Option<T>>>) {
    predicate WellFormed() {
      |data| == |columns| && forall c :: 0 <= c < |data| ==> |data[c]| == |index|
    }
  }

  predicate StrictlyIncreasing(ts: seq<int>) {
    forall i, j :: 0 <= i < j < |ts| ==> ts[i] < ts[j]
  }

  predicate NonDecreasing(ts: seq<int>) {
    forall i, j :: 0 <= i < j < |ts| ==> ts[i] <= ts[j]
  }

  predicate Distinct<T(==)>(s: seq<T>) {
    forall i, j :: 0 <= i < j < |s| ==> s[i] != s[j]
  }

  lemma StrictlyIncreasingIsDistinct(ts: seq<int>)
    requires StrictlyIncreasing(ts)
    ensures Distinct(ts)
  {
  }

  function Times(ps: seq<Point>): (ts: seq<Timestamp>)
    ensures |ts| == |ps| && forall i :: 0 <= i < |ps| ==> ts[i] == ps[i].t
  {
    seq(|ps|, i requires 0 <= i < |ps| => ps[i].t)
  }

  function Values(ps: seq<Point>): (ys: seq<real>)
    ensures |ys| == |ps| && forall i :: 0 <= i < |ps| ==> ys[i] == ps[i].y
  {
    seq(|ps|, i requires 0 <= i < |ps| => ps[i].y)
  }

  /** The non-missing values of a column, in order (pandas `dropna`). */
  function NonMissing(cells: seq<Cell>): (vs: seq<real>)
    ensures |vs| <= |cells|
    ensures forall v :: v in vs <==> Some(v) in cells
    ensures forall i :: 0 <= i < |cells| && cells[i].Some? ==> cells[i].value in vs
  {
    if cells == [] then []
    else if cells[0].Some? then [cells[0].value] + NonMissing(cells[1..])
    else NonMissing(cells[1..])
  }

  /** `Series.dropna()` on a series with a timestamp index. */
  function DropNa(s: seq<Sample>): (ps: seq<Point>)
    ensures |ps| <= |s|
  {
    if s == [] then []
    else if s[0].v.Some? then [Point(s[0].t, s[0].v.value)] + DropNa(s[1..])
    else DropNa(s[1..])
  }

  /** Pairs a column with the table index, as `df[col]` does. */
  function Column(index: seq<Timestamp>, cells: seq<Cell>): (s: seq<Sample>)
    requires |index| == |cells|
    ensures |s| == |cells| && forall i :: 0 <= i < |s| ==> s[i] == Sample(index[i], cells[i])
  {
    seq(|cells|, i requires 0 <= i < |cells| => Sample(index[i], cells[i]))
  }

  /** Re-attaches missing-free points as samples. */
  function AsSamples(ps: seq<Point>): (s: seq<Sample>)
    ensures |s| == |ps| && forall i :: 0 <= i < |s| ==> s[i] == Sample(ps[i].t, Some(ps[i].y))
  {
    seq(|ps|, i requires 0 <= i < |ps| => Sample(ps[i].t, Some(ps[i].y)))
  }

  /** Dropping missing values from a series that has none gives it back. */
  lemma {:induction false} DropNaOfPoints(ps: seq<Point>)
    ensures DropNa(AsSamples(ps)) == ps
  {
    if ps != [] {
      DropNaOfPoints(ps[1..]);
      assert AsSamples(ps)[1..] == AsSamples(ps[1..]);
    }
  }

  /** The points left by `dropna` are exactly the present samples. */
  lemma {:induction false} DropNaMembers(s: seq<Sample>)
    ensures forall p :: p in DropNa(s) <==> Sample(p.t, Some(p.y)) in s
  {
    if s != [] {
      DropNaMembers(s[1..]);
      assert s == [s[0]] + s[1..];
    }
  }

  /** Dropping missing values keeps only timestamps of the series. */
  lemma {:induction false} DropNaAbove(s: seq<Sample>, lo: Timestamp)
    requires forall i :: 0 <= i < |s| ==> lo < s[i].t
    ensures forall j :: 0 <= j < |DropNa(s)| ==> lo < DropNa(s)[j].t
  {
    if s != [] {
      DropNaAbove(s[1..], lo);
    }
  }

  /** A strictly increasing sequence stays so when a smaller value is put
      in front. */
  lemma ConsIncreasing(x: int, xs: seq<int>)
    requires StrictlyIncreasing(xs) && forall j :: 0 <= j < |xs| ==> x < xs[j]
    ensures StrictlyIncreasing([x] + xs)
  {
    var ys := [x] + xs;
    forall i, j | 0 <= i < j < |ys| ensures ys[i] < ys[j] {
      assert ys[j] == xs[j - 1];
      if i > 0 { assert ys[i] == xs[i - 1]; }
    }
  }

  /** Dropping missing values keeps order, so a strictly increasing index
      stays strictly increasing. */
  lemma {:induction false} DropNaKeepsIncreasing(s: seq<Sample>)
    requires forall i, j :: 0 <= i < j < |s| ==> s[i].t < s[j].t
    ensures StrictlyIncreasing(Times(DropNa(s)))
  {
    if s != [] {
      var rest := s[1..];
      forall i, j | 0 <= i < j < |rest| ensures rest[i].t < rest[j].t {
        assert rest[i] == s[i + 1] && rest[j] == s[j + 1];
      }
      DropNaKeepsIncreasing(rest);
      DropNaHeadIncreasing(s);
    }
  }

  /** A first sample earlier than all the others keeps the dropped series
      strictly increasing. */
  lemma DropNaHeadIncreasing(s: seq<Sample>)
    requires s != [] && StrictlyIncreasing(Times(DropNa(s[1..])))
    requires forall i :: 0 < i < |s| ==> s[0].t < s[i].t
    ensures StrictlyIncreasing(Times(DropNa(s)))
  {
    if s[0].v.Some? {
      var rest := s[1..];
      forall i | 0 <= i < |rest| ensures s[0].t < rest[i].t {
        assert rest[i] == s[i + 1];
      }
      DropNaAbove(rest, s[0].t);
      var tail := Times(DropNa(rest));
      ConsIncreasing(s[0].t, tail);
      assert Times(DropNa(s)) == [s[0].t] + tail;
    }
  }

  // ---------------------------------------------------------------------------
  // A stable insertion sort by timestamp (pandas `sort_index`, with the
  // assumption that equal timestamps keep their order).

  predicate SortedByTime(ps: seq<Point>) {
    forall i, j :: 0 <= i < j < |ps| ==> ps[i].t <= ps[j].t
  }

  function InsertByTime(p: Point, ps: seq<Point>): (r: seq<Point>)
    requires SortedByTime(ps)
    ensures |r| == |ps| + 1
    ensures r[0] == p || (ps != [] && r[0] == ps[0])
    ensures SortedByTime(r)
  {
    if ps == [] || p.t <= ps[0].t then [p] + ps
    else [ps[0]] + InsertByTime(p, ps[1..])
  }

  /** Insertion adds exactly the inserted point. */
  lemma {:induction false} InsertByTimeMultiset(p: Point, ps: seq<Point>)
    requires SortedByTime(ps)
    ensures multiset(InsertByTime(p, ps)) == multiset(ps) + multiset{p}
  {
    if ps != [] && p.t > ps[0].t {
      InsertByTimeMultiset(p, ps[1..]);
      assert ps == [ps[0]] + ps[1..];
    }
  }

  /** Sorts by timestamp; points with equal timestamps keep their order. */
  function SortByTime(ps: seq<Point>): (r: seq<Point>)
    ensures SortedByTime(r)
    ensures multiset(r) == multiset(ps)
    ensures |r| == |ps|
  {
    if ps == [] then []
    else
      assert ps == [ps[0]] + ps[1..];
      InsertByTimeMultiset(ps[0], SortByTime(ps[1..]));
      InsertByTime(ps[0], SortByTime(ps[1..]))
  }

  /** Concatenation of a sequence of series, in order (`pd.concat`). */
  function Flatten<T(!new)>(ss: seq<seq<T>>): seq<T> {
    if ss == [] then [] else ss[0] + Flatten(ss[1..])
  }

  /** The concatenation holds exactly the elements of the parts. */
  lemma {:induction false} FlattenMembers<T(!new)>(ss: seq<seq<T>>)
    ensures forall x :: x in Flatten(ss) <==> exists k :: 0 <= k < |ss| && x in ss[k]
  {
    if ss != [] {
      var rest := ss[1..];
      FlattenMembers(rest);
      assert Flatten(ss) == ss[0] + Flatten(rest);
      forall x | x in Flatten(rest) ensures exists k :: 1 <= k < |ss| && x in ss[k] {
        var k :| 0 <= k < |rest| && x in rest[k];
        assert x in ss[k + 1];
      }
      forall x, k | 1 <= k < |ss| && x in ss[k] ensures x in Flatten(rest) {
        assert x in rest[k - 1];
      }
    }
  }

  /** The first value stored at timestamp `t`, if any (label lookup). */
  function Lookup(ps: seq<Point>, t: Timestamp): Option<real> {
    if ps == [] then None
    else if ps[0].t == t then Some(ps[0].y)
    else Lookup(ps[1..], t)
  }

  /** A lookup finds a value exactly when the timestamp occurs, and the
      value found is stored there. */
  lemma {:induction false} LookupFinds(ps: seq<Point>, t: Timestamp)
    ensures Lookup(ps, t).Some? <==> t in Times(ps)
    ensures Lookup(ps, t).Some? ==> Point(t, Lookup(ps, t).value) in ps
  {
    if ps != [] {
      LookupFinds(ps[1..], t);
      assert Times(ps) == [ps[0].t] + Times(ps[1..]);
    }
  }
}
