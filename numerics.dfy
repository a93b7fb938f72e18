/** Numbers shared by the whole model: optional values, numpy-style floats, the
    abstract transcendental functions the engine calls, and the sample statistics
    (sum, mean, variance, covariance) that pandas and numpy compute.

    Every quantity is an exact real.  A float that is not a number or is infinite
    is represented explicitly by `Float`, so that the places where the source
    produces NaN or an infinity are visible in the model. */
module Numerics {

  datatype Option<+T> = None | Some(value: T)

  /** Trading days per year, the annualisation convention of the engine. */
  const TradingDays: real := 252.0

  /** A double as numpy produces it: finite, not-a-number, or signed infinity. */
  datatype Float = Finite(v: real) | NaN | Inf(negative: bool)

  /** numpy float64 division of two finite values: dividing by zero raises
      nothing and gives an infinity (or NaN for 0/0). */
  function Div(a: real, b: real): (r: Float)
    ensures r.Finite? <==> b != 0.0
    ensures b != 0.0 ==> r.v * b == a
    ensures b == 0.0 && a > 0.0 ==> r == Inf(false)
    ensures b == 0.0 && a < 0.0 ==> r == Inf(true)
    ensures b == 0.0 && a == 0.0 ==> r == NaN
  {
    if b != 0.0 then Finite(a / b)
    else if a > 0.0 then Inf(false)
    else if a < 0.0 then Inf(true)
    else NaN
  }

  /** A float multiplied by a finite factor. */
  function Times(x: Float, c: real): Float
  {
    match x
    case Finite(v) => Finite(v * c)
    case NaN => NaN
    case Inf(neg) => if c > 0.0 then Inf(neg) else if c < 0.0 then Inf(!neg) else NaN
  }

  /** numpy's log of a float, given the natural logarithm `ln` on positive reals:
      log(0) is -inf, the log of a negative number is NaN. */
  function Log(ln: real -> real, x: Float): (r: Float)
    ensures r.Finite? <==> x.Finite? && x.v > 0.0
    ensures r.Finite? ==> r.v == ln(x.v)
    ensures x == Finite(0.0) ==> r == Inf(true)
    ensures x.Finite? && x.v < 0.0 ==> r == NaN
    ensures x == NaN || x == Inf(true) ==> r == NaN
    ensures x == Inf(false) ==> r == Inf(false)
  {
    match x
    case Finite(v) => if v > 0.0 then Finite(ln(v)) else if v == 0.0 then Inf(true) else NaN
    case NaN => NaN
    case Inf(neg) => if neg then NaN else Inf(false)
  }

  /** The comparison `x >= c` on a float: NaN compares false, +inf true, -inf false. */
  predicate AtLeast(x: Float, c: real)
  {
    match x
    case Finite(v) => v >= c
    case NaN => false
    case Inf(neg) => !neg
  }

  /** The library functions the engine calls, kept abstract: the natural
      logarithm, the exponential, the square root, the standard-normal inverse
      CDF, percentile interpolation, skewness and excess kurtosis. */
  datatype Math = Math(
    ln: real -> real,
    exp: real -> real,
    sqrt: real -> real,
    ppf: real -> real,
    percentile: (seq<real>, real) -> real,
    skew: seq<real> -> real,
    kurtosis: seq<real> -> real)

  /** The only facts about the library the model relies on. */
  ghost predicate Lawful(m: Math)
  {
    && (forall x :: m.exp(x) > 0.0)
    && (forall x :: x >= 0.0 ==> m.sqrt(x) >= 0.0 && Sq(m.sqrt(x)) == x)
    && (forall a, q :: |a| > 0 && 0.0 <= q <= 100.0 ==> MinOf(a) <= m.percentile(a, q) <= MaxOf(a))
  }

  lemma SqrtZeroIff(m: Math, x: real)
    requires Lawful(m) && x >= 0.0
    ensures m.sqrt(x) >= 0.0
    ensures m.sqrt(x) == 0.0 <==> x == 0.0
    ensures x > 0.0 ==> m.sqrt(x) > 0.0
  {
    var y := m.sqrt(x);
    assert Sq(y) == x;
    if y != 0.0 {
      SquarePositive(y);
    }
  }

  /** The square of a real, kept as a function so that the solver treats it as one term. */
  function Sq(d: real): real
  {
    d * d
  }

  lemma SquarePositive(d: real)
    requires d != 0.0
    ensures Sq(d) > 0.0
  {
    if d > 0.0 {
      calc { Sq(d); == d * d; > 0.0; }
    } else {
      var e := -d;
      calc { Sq(d); == e * e; > 0.0; }
    }
  }

  lemma QuotientPositive(a: real, b: real)
    requires a > 0.0 && b > 0.0
    ensures a / b > 0.0
  {
    assert (a / b) * b == a;
  }

  /** Scaling by a positive factor keeps the sign, and zero exactly at zero. */
  lemma ScaledSign(a: real, k: real)
    requires k > 0.0
    ensures a >= 0.0 ==> a * k >= 0.0
    ensures a * k == 0.0 <==> a == 0.0
    ensures a > 0.0 ==> a * k > 0.0
  {
  }

  lemma SquareNonNegative(d: real)
    ensures Sq(d) >= 0.0
  {
    if d != 0.0 {
      SquarePositive(d);
    }
  }

  // ---------------------------------------------------------------------------
  // Sums and sample statistics

  function Sum(s: seq<real>): real
  {
    if |s| == 0 then 0.0 else s[0] + Sum(s[1..])
  }

  /** The arithmetic mean (numpy `mean`, pandas `Series.mean`). */
  function Mean(s: seq<real>): real
    requires |s| > 0
  {
    Sum(s) / |s| as real
  }

  /** The sum of squared deviations from `mu`. */
  function SquaredDeviations(s: seq<real>, mu: real): (r: real)
    ensures r >= 0.0
  {
    if |s| == 0 then 0.0
    else
      var d := s[0] - mu;
      SquareNonNegative(d);
      Sq(d) + SquaredDeviations(s[1..], mu)
  }

  /** The sum of cross products of deviations from `mx` and `my`. */
  function CrossDeviations(x: seq<real>, y: seq<real>, mx: real, my: real): real
    requires |x| == |y|
  {
    if |x| == 0 then 0.0 else (x[0] - mx) * (y[0] - my) + CrossDeviations(x[1..], y[1..], mx, my)
  }

  /** The smallest element of a non-empty sequence (`Series.min`, `np.min`). */
  function MinOf(s: seq<real>): (lo: real)
    requires |s| > 0
    ensures lo in s
    ensures forall k :: 0 <= k < |s| ==> lo <= s[k]
  {
    if |s| == 1 then s[0]
    else
      var rest := MinOf(s[1..]);
      if s[0] <= rest then s[0] else rest
  }

  /** The largest element of a non-empty sequence (`np.max`). */
  function MaxOf(s: seq<real>): (hi: real)
    requires |s| > 0
    ensures hi in s
    ensures forall k :: 0 <= k < |s| ==> s[k] <= hi
  {
    if |s| == 1 then s[0]
    else
      var rest := MaxOf(s[1..]);
      if s[0] >= rest then s[0] else rest
  }

  /** The sample variance with the N-1 denominator (pandas `var`, numpy `var(ddof=1)`). */
  function SampleVariance(s: seq<real>): (v: real)
    requires |s| >= 2
    ensures v >= 0.0
  {
    SquaredDeviations(s, Mean(s)) / (|s| - 1) as real
  }

  /** The sample covariance with the N-1 denominator (pandas `DataFrame.cov`). */
  function SampleCovariance(x: seq<real>, y: seq<real>): real
    requires |x| == |y| >= 2
  {
    CrossDeviations(x, y, Mean(x), Mean(y)) / (|x| - 1) as real
  }

  /** The sample standard deviation: the square root of the sample variance. */
  function SampleStd(s: seq<real>, m: Math): real
    requires |s| >= 2
  {
    m.sqrt(SampleVariance(s))
  }

  /** All elements equal the first one. */
  predicate Constant(s: seq<real>)
  {
    forall i :: 0 <= i < |s| ==> s[i] == s[0]
  }

  /** Elementwise `s - c` (numpy broadcasting). */
  function Shifted(s: seq<real>, c: real): (r: seq<real>)
    ensures |r| == |s|
    ensures forall i :: 0 <= i < |s| ==> r[i] == s[i] - c
  {
    if |s| == 0 then [] else [s[0] - c] + Shifted(s[1..], c)
  }

  /** Elementwise `s / c` (numpy broadcasting). */
  function Divided(s: seq<real>, c: real): (r: seq<real>)
    requires c != 0.0
    ensures |r| == |s|
    ensures forall i :: 0 <= i < |s| ==> r[i] * c == s[i]
  {
    seq(|s|, i requires 0 <= i < |s| => s[i] / c)
  }

  /** The dot product of two vectors of equal length. */
  function Dot(a: seq<real>, b: seq<real>): real
    requires |a| == |b|
  {
    if |a| == 0 then 0.0 else a[0] * b[0] + Dot(a[1..], b[1..])
  }

  /** A matrix with `rows` rows of `cols` entries each. */
  ghost predicate IsMatrix(g: seq<seq<real>>, rows: nat, cols: nat)
  {
    |g| == rows && forall i :: 0 <= i < rows ==> |g[i]| == cols
  }

  /** The matrix-vector product `M w`. */
  function MatVec(mat: seq<seq<real>>, w: seq<real>): (r: seq<real>)
    requires forall i :: 0 <= i < |mat| ==> |mat[i]| == |w|
    ensures |r| == |mat|
  {
    seq(|mat|, i requires 0 <= i < |mat| => Dot(mat[i], w))
  }

  /** The weight vector that puts everything on position `j` (all zeros when
      `j` is out of range). */
  function Unit(n: nat, j: int): (u: seq<real>)
    ensures |u| == n
  {
    seq(n, i => if i == j then 1.0 else 0.0)
  }

  /** A dot product with a unit vector picks one element. */
  lemma {:induction false} DotUnit(a: seq<real>, j: int)
    ensures Dot(Unit(|a|, j), a) == (if 0 <= j < |a| then a[j] else 0.0)
    ensures Dot(a, Unit(|a|, j)) == (if 0 <= j < |a| then a[j] else 0.0)
  {
    if |a| > 0 {
      assert Unit(|a|, j)[1..] == Unit(|a| - 1, j - 1);
      DotUnit(a[1..], j - 1);
    }
  }

  /** A non-negative weighting of values of at least `lo` is at least the total
      weight times `lo`. */
  lemma {:induction false} DotLower(w: seq<real>, a: seq<real>, lo: real)
    requires |w| == |a|
    requires forall i :: 0 <= i < |w| ==> w[i] >= 0.0 && lo <= a[i]
    ensures Sum(w) * lo <= Dot(w, a)
  {
    if |w| > 0 {
      var w', a' := w[1..], a[1..];
      assert forall i :: 0 <= i < |w'| ==> w'[i] == w[i + 1] && a'[i] == a[i + 1];
      DotLower(w', a', lo);
      LowerStep(w[0], a[0], Sum(w'), Dot(w', a'), lo, Sum(w), Dot(w, a));
    }
  }

  lemma LowerStep(x: real, v: real, s: real, d: real, lo: real, total: real, dot: real)
    requires x >= 0.0 && lo <= v && s * lo <= d
    requires total == x + s && dot == x * v + d
    ensures total * lo <= dot
  {
    assert x * lo <= x * v;
    assert total * lo == x * lo + s * lo;
  }

  /** A non-negative weighting of values of at most `hi` is at most the total
      weight times `hi`. */
  lemma {:induction false} DotUpper(w: seq<real>, a: seq<real>, hi: real)
    requires |w| == |a|
    requires forall i :: 0 <= i < |w| ==> w[i] >= 0.0 && a[i] <= hi
    ensures Dot(w, a) <= Sum(w) * hi
  {
    if |w| > 0 {
      var w', a' := w[1..], a[1..];
      assert forall i :: 0 <= i < |w'| ==> w'[i] == w[i + 1] && a'[i] == a[i + 1];
      DotUpper(w', a', hi);
      UpperStep(w[0], a[0], Sum(w'), Dot(w', a'), hi, Sum(w), Dot(w, a));
    }
  }

  lemma UpperStep(x: real, v: real, s: real, d: real, hi: real, total: real, dot: real)
    requires x >= 0.0 && v <= hi && d <= s * hi
    requires total == x + s && dot == x * v + d
    ensures dot <= total * hi
  {
    assert x * v <= x * hi;
    assert total * hi == x * hi + s * hi;
  }

  /** Weights that sum to one average values between their minimum and maximum. */
  lemma SimplexBounds(w: seq<real>, a: seq<real>)
    requires |w| == |a| > 0 && Sum(w) == 1.0
    requires forall i :: 0 <= i < |w| ==> w[i] >= 0.0
    ensures MinOf(a) <= Dot(w, a) <= MaxOf(a)
  {
    var lo, hi := MinOf(a), MaxOf(a);
    DotLower(w, a, lo);
    DotUpper(w, a, hi);
    assert Sum(w) * lo == lo && Sum(w) * hi == hi;
  }

  // ---------------------------------------------------------------------------
  // Lemmas about the statistics

  lemma {:induction false} SumOfConstant(s: seq<real>, c: real)
    requires forall i :: 0 <= i < |s| ==> s[i] == c
    ensures Sum(s) == |s| as real * c
  {
    if |s| > 0 {
      SumOfConstant(s[1..], c);
    }
  }

  lemma {:induction false} SumShifted(s: seq<real>, c: real)
    ensures Sum(Shifted(s, c)) == Sum(s) - |s| as real * c
  {
    if |s| > 0 {
      SumShifted(s[1..], c);
      assert Shifted(s, c)[1..] == Shifted(s[1..], c);
    }
  }

  /** The mean of the excess values is the mean minus the shift. */
  lemma MeanShifted(s: seq<real>, c: real)
    requires |s| > 0
    ensures Mean(Shifted(s, c)) == Mean(s) - c
  {
    SumShifted(s, c);
    var n := |s| as real;
    var a := Sum(s);
    assert Sum(Shifted(s, c)) == a - n * c;
    DivideDifference(a, n, c);
  }

  lemma DivideDifference(a: real, n: real, c: real)
    requires n > 0.0
    ensures (a - n * c) / n == a / n - c
  {
    assert (a / n - c) * n == a - n * c;
  }

  lemma {:induction false} SumDivided(s: seq<real>, c: real)
    requires c != 0.0
    ensures Sum(Divided(s, c)) * c == Sum(s)
  {
    if |s| > 0 {
      SumDivided(s[1..], c);
      assert Divided(s, c)[1..] == Divided(s[1..], c);
      assert Divided(s, c)[0] * c == s[0];
      assert Sum(Divided(s, c)) * c == Divided(s, c)[0] * c + Sum(Divided(s[1..], c)) * c;
    }
  }

  lemma {:induction false} SumNonNegative(s: seq<real>)
    requires forall i :: 0 <= i < |s| ==> s[i] >= 0.0
    ensures Sum(s) >= 0.0
  {
    if |s| > 0 {
      SumNonNegative(s[1..]);
    }
  }

  lemma {:induction false} SquaredDeviationsZeroIff(s: seq<real>, mu: real)
    ensures SquaredDeviations(s, mu) == 0.0 <==> forall i :: 0 <= i < |s| ==> s[i] == mu
  {
    if |s| > 0 {
      SquaredDeviationsZeroIff(s[1..], mu);
      var d := s[0] - mu;
      SquareNonNegative(d);
      if d != 0.0 {
        SquarePositive(d);
      }
      if forall i :: 0 <= i < |s| ==> s[i] == mu {
        assert forall i :: 0 <= i < |s[1..]| ==> s[1..][i] == mu;
      }
      if SquaredDeviations(s, mu) == 0.0 {
        forall i | 0 <= i < |s| ensures s[i] == mu {
          if i > 0 { assert s[i] == s[1..][i - 1]; }
        }
      }
    }
  }

  /** The sample variance is zero exactly when every observation is the same. */
  lemma VarianceZeroIff(s: seq<real>)
    requires |s| >= 2
    ensures SampleVariance(s) == 0.0 <==> Constant(s)
  {
    var mu := Mean(s);
    var n1 := (|s| - 1) as real;
    assert SampleVariance(s) * n1 == SquaredDeviations(s, mu);
    SquaredDeviationsZeroIff(s, mu);
    if Constant(s) {
      SumOfConstant(s, s[0]);
      assert mu == s[0];
    }
  }

  lemma {:induction false} CrossDeviationsDiagonal(x: seq<real>, mu: real)
    ensures CrossDeviations(x, x, mu, mu) == SquaredDeviations(x, mu)
  {
    if |x| > 0 {
      CrossDeviationsDiagonal(x[1..], mu);
    }
  }

  /** The diagonal of the sample covariance matrix is the sample variance. */
  lemma CovarianceDiagonal(x: seq<real>)
    requires |x| >= 2
    ensures SampleCovariance(x, x) == SampleVariance(x)
  {
    CrossDeviationsDiagonal(x, Mean(x));
  }

  /** With a lawful square root, the sample standard deviation is non-negative
      and is zero exactly when every observation is the same. */
  lemma StdZeroIff(s: seq<real>, m: Math)
    requires |s| >= 2 && Lawful(m)
    ensures SampleStd(s, m) >= 0.0
    ensures SampleStd(s, m) == 0.0 <==> Constant(s)
  {
    SqrtZeroIff(m, SampleVariance(s));
    VarianceZeroIff(s);
  }
}
