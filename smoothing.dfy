/**
 * The integer smoothing-range heuristic of `src/piogrowth/fit.py`:
 * `(int(m - sqrt(2m)), m, int(m + sqrt(2m)))`, where Python's `int` truncates
 * toward zero. The real square root is replaced by exact integer roots; a
 * lemma ties them back to the real root.
 */
module Smoothing {

  datatype SmoothingRange = SmoothingRange(sMin: int, s: int, sMax: int)

  /** Integer square root: the largest r with r*r <= n. */
  function ISqrt(n: nat): (r: nat)
    ensures r * r <= n < (r + 1) * (r + 1)
  {
    ISqrtFrom(n, 0)
  }

  /** Counts up from a candidate r whose square does not exceed n. */
  function ISqrtFrom(n: nat, r: nat): (k: nat)
    requires r * r <= n
    ensures r <= k && k * k <= n < (k + 1) * (k + 1)
    decreases n - r
  {
    if (r + 1) * (r + 1) > n then r
    else
      SquareLe(1, r + 1);
      ISqrtFrom(n, r + 1)
  }

  /** Ceiling square root: the least r with n <= r*r. */
  function CeilSqrt(n: nat): (r: nat)
    ensures n <= r * r
    ensures r == 0 || (r - 1) * (r - 1) < n
  {
    var k := ISqrt(n);
    if k * k == n then k else k + 1
  }

  lemma IntMulNonneg(a: int, b: int)
    requires 0 <= a && 0 <= b
    ensures 0 <= a * b
  {
  }

  /** Squaring is monotone on naturals. */
  lemma SquareLe(a: nat, b: nat)
    requires a <= b
    ensures a * a <= b * b
  {
    IntMulNonneg(a, b - a);
    IntMulNonneg(b, b - a);
    assert a * (b - a) == a * b - a * a;
    assert b * (b - a) == b * b - a * b;
  }

  /** Any k with k*k <= n < (k+1)*(k+1) is the integer root. */
  lemma ISqrtUnique(n: nat, k: nat)
    requires k * k <= n < (k + 1) * (k + 1)
    ensures ISqrt(n) == k
  {
    var r := ISqrt(n);
    if r < k {
      SquareLe(r + 1, k);
    } else if k < r {
      SquareLe(k + 1, r);
    }
  }

  /** Python's `int(x)` on a float: truncation toward zero. */
  function TruncToInt(x: real): int {
    if x >= 0.0 then x.Floor else -((-x).Floor)
  }

  /** `get_smoothing_range(m)` for a row count `m`. */
  function GetSmoothingRange(m: nat): (r: SmoothingRange)
    ensures r.s == m
    ensures 0 <= r.sMin <= m <= r.sMax
    ensures m >= 2 ==> r.sMin == m - CeilSqrt(2 * m) && r.sMax == m + ISqrt(2 * m)
  {
    var down := CeilSqrt(2 * m);
    assert m >= 2 ==> down <= m by {
      if m >= 2 { CeilSqrtOfDoubleAtMost(m); }
    }
    SmoothingRange(if m < down then 0 else m - down, m, m + ISqrt(2 * m))
  }

  /** For m >= 2, m*m >= 2m, so the ceiling root of 2m is at most m. */
  lemma CeilSqrtOfDoubleAtMost(m: nat)
    requires m >= 2
    ensures CeilSqrt(2 * m) <= m
  {
    var c := CeilSqrt(2 * m);
    if c > m {
      SquareLe(m, c - 1);
      IntMulNonneg(m, m - 2);
    }
  }

  lemma RealMulNonneg(a: real, b: real)
    requires 0.0 <= a && 0.0 <= b
    ensures 0.0 <= a * b
  {
  }

  lemma RealMulPos(a: real, b: real)
    requires 0.0 < a && 0.0 < b
    ensures 0.0 < a * b
  {
    assert a * b >= 0.0;
  }

  lemma SquareMonotone(a: real, b: real)
    requires 0.0 <= a < b
    ensures a * a < b * b
  {
    var d := b - a;
    RealMulNonneg(a + b, d);
    RealMulPos(d, d);
    assert b * b == (a + d) * (a + d);
    assert (a + d) * (a + d) == a * a + 2.0 * a * d + d * d;
  }

  lemma SquareLeReal(a: real, b: real)
    requires 0.0 <= a <= b
    ensures a * a <= b * b
  {
    if a < b { SquareMonotone(a, b); }
  }

  lemma CastSquare(k: nat)
    ensures (k * k) as real == k as real * k as real
  {
  }

  /** The integer root of n brackets the real one. */
  lemma RootBracket(n: nat, root: real)
    requires root >= 0.0 && root * root == n as real
    ensures ISqrt(n) as real <= root < (ISqrt(n) + 1) as real
  {
    var k := ISqrt(n);
    if root < k as real {
      SquareMonotone(root, k as real);
    }
    if (k + 1) as real <= root {
      SquareLeReal((k + 1) as real, root);
      CastSquare(k + 1);
    }
  }

  /** The ceiling root of n brackets the real one from above. */
  lemma CeilRootBracket(n: nat, root: real)
    requires root >= 0.0 && root * root == n as real
    ensures root <= CeilSqrt(n) as real
    ensures CeilSqrt(n) == 0 || (CeilSqrt(n) - 1) as real < root
  {
    var c := CeilSqrt(n);
    if c as real < root {
      SquareMonotone(c as real, root);
    }
    if c > 0 && root <= (c - 1) as real {
      SquareLeReal(root, (c - 1) as real);
      CastSquare(c - 1);
    }
  }

  /** With the exact real root of 2m, the integer roots give what truncating
      `m - sqrt(2m)` and `m + sqrt(2m)` gives. */
  lemma SmoothingRangeIsTruncation(m: nat, root: real)
    requires root >= 0.0 && root * root == (2 * m) as real
    ensures GetSmoothingRange(m).sMin == TruncToInt(m as real - root)
    ensures GetSmoothingRange(m).sMax == TruncToInt(m as real + root)
  {
    LowerIsTruncation(m, root);
    RootBracket(2 * m, root);
    assert (m as real + root).Floor == m + ISqrt(2 * m);
  }

  lemma LowerIsTruncation(m: nat, root: real)
    requires root >= 0.0 && root * root == (2 * m) as real
    ensures GetSmoothingRange(m).sMin == TruncToInt(m as real - root)
  {
    var c := CeilSqrt(2 * m);
    CeilRootBracket(2 * m, root);
    if m < c {
      // m - root lies in (-1, 0]: (m + 1)^2 > 2m
      if m as real - root <= -1.0 {
        SquareMonotone(root, (m + 1) as real);
      }
      assert -(m as real - root) < 1.0;
    } else {
      assert (m as real - root).Floor == m - c;
    }
  }

  /** The two examples: a 100-row table and a single row. */
  lemma SmoothingRangeExamples()
    ensures GetSmoothingRange(100) == SmoothingRange(85, 100, 114)
    ensures GetSmoothingRange(1) == SmoothingRange(0, 1, 2)
  {
    ISqrtUnique(200, 14);
    ISqrtUnique(2, 1);
  }
}
