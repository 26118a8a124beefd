/** Exact real-number statistics used by the flare image, the MCMC engine
    and the confidence ellipses: sums, means, extrema, the first arg-minimum,
    truncation toward zero, population variance and the Cauchy-Schwarz
    inequality behind the non-negativity of a sample covariance. */
module Numeric {

  function Abs(x: real): (r: real)
    ensures 0.0 <= r
    ensures r == x || r == -x
  {
    if x < 0.0 then -x else x
  }

  /** Python's `int()` of a float: truncation toward zero, not rounding. */
  function Truncate(x: real): (n: int)
    ensures 0.0 <= x ==> 0 <= n && n as real <= x < n as real + 1.0
    ensures x < 0.0 ==> n <= 0 && n as real - 1.0 < x <= n as real
  {
    if 0.0 <= x then x.Floor else -((-x).Floor)
  }

  function Sum(s: seq<real>): real
  {
    if |s| == 0 then 0.0 else s[0] + Sum(s[1..])
  }

  /** Every term in [lo, hi] bounds the sum by |s|·lo and |s|·hi. */
  lemma {:induction false} SumBounds(s: seq<real>, lo: real, hi: real)
    requires forall i :: 0 <= i < |s| ==> lo <= s[i] <= hi
    ensures |s| as real * lo <= Sum(s) <= |s| as real * hi
  {
    if |s| > 0 {
      SumBounds(s[1..], lo, hi);
      assert |s| as real * lo == lo + (|s| - 1) as real * lo;
      assert |s| as real * hi == hi + (|s| - 1) as real * hi;
    }
  }

  function Min(s: seq<real>): (m: real)
    requires |s| > 0
    ensures m in s
    ensures forall i :: 0 <= i < |s| ==> m <= s[i]
  {
    if |s| == 1 then s[0]
    else
      var r := Min(s[1..]);
      assert forall i :: 1 <= i < |s| ==> s[i] == s[1..][i - 1];
      if s[0] <= r then s[0] else r
  }

  function Max(s: seq<real>): (m: real)
    requires |s| > 0
    ensures m in s
    ensures forall i :: 0 <= i < |s| ==> s[i] <= m
  {
    if |s| == 1 then s[0]
    else
      var r := Max(s[1..]);
      assert forall i :: 1 <= i < |s| ==> s[i] == s[1..][i - 1];
      if r <= s[0] then s[0] else r
  }

  lemma DivideBounds(total: real, n: real, lo: real, hi: real)
    requires 0.0 < n
    requires n * lo <= total <= n * hi
    ensures lo <= total / n <= hi
  {
    var q := total / n;
    assert total == n * q;
    assert q < lo ==> n * q < n * lo;
    assert hi < q ==> n * hi < n * q;
  }

  /** The arithmetic mean lies between the least and the greatest term. */
  function Mean(s: seq<real>): (m: real)
    requires |s| > 0
    ensures Min(s) <= m <= Max(s)
  {
    SumBounds(s, Min(s), Max(s));
    DivideBounds(Sum(s), |s| as real, Min(s), Max(s));
    Sum(s) / |s| as real
  }

  lemma PositiveProduct(a: real, b: real)
    requires 0.0 < a && 0.0 < b
    ensures 0.0 < a * b
  {
  }

  lemma SquarePositive(x: real)
    requires x != 0.0
    ensures 0.0 < x * x
  {
    if x < 0.0 {
      assert x * x == (-x) * (-x);
    }
  }

  lemma SquareMonotone(u: real, v: real)
    requires 0.0 <= v < u
    ensures v * v < u * u
  {
    var d, s := u - v, u + v;
    assert 0.0 < d * s;
    assert d * s == u * u - v * v;
  }

  lemma SquareMonotoneWeak(u: real, v: real)
    requires 0.0 <= v <= u
    ensures v * v <= u * u
  {
    if v < u {
      SquareMonotone(u, v);
    } else {
      MulCongruence(u, u, v, v);
    }
  }

  lemma DivIsMulRecip(x: real, m: real)
    requires m != 0.0
    ensures x / m == x * (1.0 / m)
  {
  }

  lemma MulCongruence(u: real, v: real, u2: real, v2: real)
    requires u == u2 && v == v2
    ensures u * v == u2 * v2
  {
  }

  /** A positive total gives a positive mean. */
  lemma MeanPositive(s: seq<real>)
    requires 0 < |s| && 0.0 < Sum(s)
    ensures 0.0 < Mean(s)
  {
    QuotientPositive(Sum(s), |s| as real);
  }

  lemma QuotientPositive(total: real, n: real)
    requires 0.0 < total && 0.0 < n
    ensures 0.0 < total / n
  {
    var q := total / n;
    assert total == n * q;
    assert q <= 0.0 ==> n * q <= 0.0;
  }

  lemma SquareNonNegative(x: real)
    ensures 0.0 <= x * x
  {
    if x < 0.0 {
      assert x * x == (-x) * (-x);
    }
  }

  /** `k` is where `s` first takes its least value. */
  predicate IsFirstMinimum(s: seq<real>, k: int)
  {
    && 0 <= k < |s|
    && (forall j :: 0 <= j < |s| ==> s[k] <= s[j])
    && (forall j :: 0 <= j < k ==> s[k] < s[j])
  }

  /** numpy's argmin: the lowest index of a least element. */
  function ArgMin(s: seq<real>): (k: nat)
    requires |s| > 0
    ensures IsFirstMinimum(s, k)
  {
    if |s| == 1 then 0
    else
      var k := ArgMin(s[..|s| - 1]);
      if s[|s| - 1] < s[k] then |s| - 1 else k
  }

  /** At most one index is the first minimum, so `ArgMin` is the only answer. */
  lemma FirstMinimumUnique(s: seq<real>, k: int, k': int)
    requires IsFirstMinimum(s, k) && IsFirstMinimum(s, k')
    ensures k == k'
  {
    assert s[k] <= s[k'] && s[k'] <= s[k];
  }

  function SquaredDeviations(s: seq<real>, m: real): (d: seq<real>)
    ensures |d| == |s|
    ensures forall i :: 0 <= i < |s| ==> 0.0 <= d[i]
  {
    forall i | 0 <= i < |s| {
      SquareNonNegative(s[i] - m);
    }
    seq(|s|, i requires 0 <= i < |s| => (s[i] - m) * (s[i] - m))
  }

  lemma QuotientNonNegative(x: real, n: real)
    requires 0.0 <= x && 0.0 < n
    ensures 0.0 <= x / n
    ensures x == 0.0 ==> x / n == 0.0
  {
  }

  lemma ConstantHasNoDeviation(s: seq<real>, d: seq<real>)
    requires |s| > 0
    requires d == SquaredDeviations(s, Mean(s))
    ensures (forall i :: 0 <= i < |s| ==> s[i] == s[0]) ==> Sum(d) == 0.0
  {
    if forall i :: 0 <= i < |s| ==> s[i] == s[0] {
      assert Min(s) == s[0] && Max(s) == s[0];
      assert Mean(s) == s[0];
      forall i | 0 <= i < |d|
        ensures 0.0 <= d[i] <= 0.0
      {
        assert s[i] - Mean(s) == 0.0;
        assert d[i] == (s[i] - Mean(s)) * (s[i] - Mean(s));
      }
      SumBounds(d, 0.0, 0.0);
    }
  }

  /** Population variance (numpy's default ddof 0): never negative, and zero
      when every term is the same. */
  function PopVariance(s: seq<real>): (v: real)
    requires |s| > 0
    ensures 0.0 <= v
    ensures (forall i :: 0 <= i < |s| ==> s[i] == s[0]) ==> v == 0.0
  {
    var d := SquaredDeviations(s, Mean(s));
    SumBounds(d, 0.0, Max(d));
    ConstantHasNoDeviation(s, d);
    QuotientNonNegative(Sum(d), |s| as real);
    Sum(d) / |s| as real
  }

  /** Σ a[i]·b[i] over two equally long sequences. */
  function SumProd(a: seq<real>, b: seq<real>): real
    requires |a| == |b|
  {
    if |a| == 0 then 0.0 else a[0] * b[0] + SumProd(a[1..], b[1..])
  }

  /** Σ (a[i]·y − b[i]·x)², which is never negative. */
  function SumSquaredCombination(a: seq<real>, b: seq<real>, x: real, y: real): (r: real)
    requires |a| == |b|
    ensures 0.0 <= r
  {
    if |a| == 0 then 0.0
    else
      (a[0] * y - b[0] * x) * (a[0] * y - b[0] * x) + SumSquaredCombination(a[1..], b[1..], x, y)
  }

  lemma {:induction false} SumSquaredCombinationExpands(a: seq<real>, b: seq<real>, x: real, y: real)
    requires |a| == |b|
    ensures SumSquaredCombination(a, b, x, y)
         == SumProd(a, a) * (y * y) - 2.0 * SumProd(a, b) * (x * y) + SumProd(b, b) * (x * x)
  {
    if |a| > 0 {
      SumSquaredCombinationExpands(a[1..], b[1..], x, y);
      var a0, b0 := a[0], b[0];
      assert (a0 * y - b0 * x) * (a0 * y - b0 * x)
          == (a0 * a0) * (y * y) - 2.0 * (a0 * b0) * (x * y) + (b0 * b0) * (x * x);
      var A, B, C := SumProd(a[1..], a[1..]), SumProd(b[1..], b[1..]), SumProd(a[1..], b[1..]);
      assert (a0 * a0 + A) * (y * y) == (a0 * a0) * (y * y) + A * (y * y);
      assert (b0 * b0 + B) * (x * x) == (b0 * b0) * (x * x) + B * (x * x);
      assert 2.0 * (a0 * b0 + C) * (x * y) == 2.0 * (a0 * b0) * (x * y) + 2.0 * C * (x * y);
    }
  }

  /** With A > 0, the expansion at (x, y) = (A, C) is A·(A·B − C²). */
  lemma PositiveFactor(A: real, X: real)
    requires 0.0 < A
    requires 0.0 <= A * X
    ensures 0.0 <= X
  {
    assert X < 0.0 ==> A * X < 0.0;
  }

  /** Cauchy-Schwarz: (Σ a·b)² ≤ (Σ a²)(Σ b²). */
  lemma CauchySchwarz(a: seq<real>, b: seq<real>)
    requires |a| == |b|
    ensures SumProd(a, b) * SumProd(a, b) <= SumProd(a, a) * SumProd(b, b)
  {
    var A, B, C := SumProd(a, a), SumProd(b, b), SumProd(a, b);
    SumSquaredCombinationExpands(a, b, 0.0, 1.0);
    assert 0.0 <= A;
    if A == 0.0 {
      DegenerateCauchySchwarz(a, b);
    } else {
      SumSquaredCombinationExpands(a, b, A, C);
      PositiveFactor(A, A * B - C * C);
    }
  }

  /** With Σ a² = 0 the expansion at (1, y) is Σ b² − 2·(Σ a·b)·y ≥ 0 for
      every y, so Σ a·b = 0. */
  lemma DegenerateCauchySchwarz(a: seq<real>, b: seq<real>)
    requires |a| == |b| && SumProd(a, a) == 0.0
    ensures SumProd(a, b) == 0.0
  {
    var B, C := SumProd(b, b), SumProd(a, b);
    var y := if C != 0.0 then (B + 1.0) / (2.0 * C) else 0.0;
    SumSquaredCombinationExpands(a, b, 1.0, y);
    assert SumSquaredCombination(a, b, 1.0, y) == B - 2.0 * C * y;
    assert C != 0.0 ==> 2.0 * C * y == B + 1.0;
  }

  /** The laws a square-root primitive obeys on the non-negative reals:
      its result is a non-negative root, and it undoes squaring. */
  ghost predicate IsSqrt(sqrt: real -> real)
  {
    && (forall x :: 0.0 <= x ==> 0.0 <= sqrt(x) && sqrt(x) * sqrt(x) == x)
    && (forall y :: 0.0 <= y ==> sqrt(Square(y)) == y)
  }

  function Square(y: real): real
  {
    y * y
  }

  /** The square root of zero is zero. */
  lemma SqrtOfZero(sqrt: real -> real)
    requires IsSqrt(sqrt)
    ensures sqrt(0.0) == 0.0
  {
    assert Square(0.0) == 0.0;
    assert sqrt(Square(0.0)) == 0.0;
  }
}
