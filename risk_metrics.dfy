/** The risk metrics of one asset (the live `calculate_advanced_metrics`):
    simple returns, Sharpe and Sortino ratios, and the drawdown series with its
    minimum; and the series alignment of the benchmark variant it shadows. */
module RiskMetrics {
  import opened Numerics
  import opened Tables

  // ---------------------------------------------------------------------------
  // Simple returns and the wealth curve

  /** `prices.pct_change().dropna()` on positive prices: the relative change
      from each price to the next. */
  function SimpleReturns(p: seq<real>): (r: seq<real>)
    requires forall k :: 0 <= k < |p| ==> p[k] > 0.0
    ensures |r| == if |p| == 0 then 0 else |p| - 1
    ensures forall t {:trigger r[t]} :: 0 <= t < |r| ==> (1.0 + r[t]) * p[t] == p[t + 1]
    ensures forall t :: 0 <= t < |r| ==> r[t] > -1.0
  {
    if |p| == 0 then []
    else
      seq(|p| - 1, t requires 0 <= t < |p| - 1 => Ratio(p[t + 1], p[t]) - 1.0)
  }

  function Ratio(a: real, b: real): (q: real)
    requires a > 0.0 && b > 0.0
    ensures q * b == a && q > 0.0
  {
    QuotientPositive(a, b);
    a / b
  }

  /** Element `t` of `(1 + r).cumprod()`: the wealth after the first `t + 1` returns. */
  function Growth(r: seq<real>, t: nat): (g: real)
    requires t < |r|
    ensures (forall k :: 0 <= k <= t ==> r[k] > -1.0) ==> g > 0.0
  {
    if t == 0 then 1.0 + r[0]
    else
      var g, f := Growth(r, t - 1), 1.0 + r[t];
      if f > 0.0 then ScaledSign(g, f); g * f else g * f
  }

  /** `(1 + r).cumprod()`. */
  function CumProd(r: seq<real>): (c: seq<real>)
    ensures |c| == |r|
    ensures forall t :: 0 <= t < |r| ==> c[t] == Growth(r, t)
  {
    seq(|r|, t requires 0 <= t < |r| => Growth(r, t))
  }

  /** Returns that take each price to the next one compound to the later price
      relative to the first: the product telescopes. */
  lemma {:induction false} Telescope(r: seq<real>, p: seq<real>, t: nat)
    requires |r| + 1 == |p| && t < |r|
    requires forall k {:trigger r[k]} :: 0 <= k < |r| ==> (1.0 + r[k]) * p[k] == p[k + 1]
    ensures Growth(r, t) * p[0] == p[t + 1]
  {
    if t > 0 {
      Telescope(r, p, t - 1);
      var g, a := Growth(r, t - 1), 1.0 + r[t];
      assert Growth(r, t) == g * a;
      Regroup(g, a, p[0]);
    }
  }

  lemma Regroup(g: real, a: real, b: real)
    ensures (g * a) * b == a * (g * b)
  {
  }

  /** Element `t` of `cummax()`: the running peak of the curve. */
  function Peak(c: seq<real>, t: nat): (pk: real)
    requires t < |c|
    ensures pk >= c[t]
  {
    if t == 0 then c[0]
    else
      var prev := Peak(c, t - 1);
      if c[t] > prev then c[t] else prev
  }

  /** The running peak is the largest value seen so far. */
  lemma {:induction false} PeakIsMax(c: seq<real>, t: nat)
    requires t < |c|
    ensures forall k :: 0 <= k <= t ==> Peak(c, t) >= c[k]
    ensures exists k :: 0 <= k <= t && Peak(c, t) == c[k]
  {
    if t > 0 {
      PeakIsMax(c, t - 1);
      var j :| 0 <= j <= t - 1 && Peak(c, t - 1) == c[j];
      if c[t] <= Peak(c, t - 1) {
        assert 0 <= j <= t && Peak(c, t) == c[j];
      } else {
        assert Peak(c, t) == c[t];
      }
    } else {
      assert Peak(c, 0) == c[0];
    }
  }

  /** The running peak never falls. */
  lemma {:induction false} PeakMonotone(c: seq<real>, s: nat, t: nat)
    requires s <= t < |c|
    ensures Peak(c, s) <= Peak(c, t)
    decreases t
  {
    if s < t {
      PeakMonotone(c, s, t - 1);
    }
  }

  /** `cummax()`. */
  function RunningMax(c: seq<real>): (pk: seq<real>)
    ensures |pk| == |c|
    ensures forall t :: 0 <= t < |c| ==> pk[t] == Peak(c, t)
  {
    seq(|c|, t requires 0 <= t < |c| => Peak(c, t))
  }

  /** `(cumulative - running_max) / running_max` for a positive curve. */
  function DrawdownSeries(c: seq<real>): (dd: seq<real>)
    requires forall t :: 0 <= t < |c| ==> c[t] > 0.0
    ensures |dd| == |c|
    ensures |c| > 0 ==> dd[0] == 0.0
    ensures forall t :: 0 <= t < |c| ==> -1.0 < dd[t] <= 0.0
    ensures forall t :: 0 <= t < |c| ==> dd[t] * Peak(c, t) == c[t] - Peak(c, t)
  {
    seq(|c|, t requires 0 <= t < |c| => DrawdownAt(c, t))
  }

  /** Element `t` of the drawdown series. */
  function DrawdownAt(c: seq<real>, t: nat): (d: real)
    requires t < |c| && c[t] > 0.0
    ensures -1.0 < d <= 0.0
    ensures d * Peak(c, t) == c[t] - Peak(c, t)
    ensures t == 0 ==> d == 0.0
  {
    Relative(c[t], Peak(c, t))
  }

  /** `(x - peak) / peak` for a positive value below its positive peak. */
  function Relative(x: real, peak: real): (d: real)
    requires 0.0 < x <= peak
    ensures -1.0 < d <= 0.0
    ensures d * peak == x - peak
    ensures x == peak ==> d == 0.0
  {
    RelativeBounds(x, peak);
    (x - peak) / peak
  }

  lemma RelativeBounds(x: real, peak: real)
    requires 0.0 < x <= peak
    ensures -1.0 < (x - peak) / peak <= 0.0
  {
    var d := (x - peak) / peak;
    assert d * peak == x - peak;
  }

  // ---------------------------------------------------------------------------
  // Ratios

  /** `Series.std()`: the sample deviation, NaN for fewer than two values. */
  function StdOf(s: seq<real>, m: Math): (sd: Float)
    ensures sd.Finite? <==> |s| >= 2
  {
    if |s| >= 2 then Finite(SampleStd(s, m)) else NaN
  }

  /** The returns below zero, in order (`returns[returns < 0]`). */
  function Negatives(r: seq<real>): (n: seq<real>)
    ensures |n| <= |r|
    ensures forall k :: 0 <= k < |n| ==> n[k] < 0.0
    ensures forall x :: x in n <==> x in r && x < 0.0
    ensures forall x :: multiset(n)[x] == if x < 0.0 then multiset(r)[x] else 0
  {
    if |r| == 0 then []
    else
      assert r == [r[0]] + r[1..];
      assert forall y :: y in r <==> y == r[0] || y in r[1..];
      (if r[0] < 0.0 then [r[0]] else []) + Negatives(r[1..])
  }

  /** `(excess.mean() / returns.std()) * sqrt(252)`: no guard, so a constant
      return series gives an infinity or NaN as numpy does. */
  function SharpeRatio(r: seq<real>, rf: real, m: Math): (s: Float)
    requires |r| >= 2
    ensures s.Finite? <==> SampleStd(r, m) != 0.0
  {
    Times(Div(Mean(Shifted(r, rf / TradingDays)), SampleStd(r, m)), m.sqrt(TradingDays))
  }

  /** The Sharpe numerator is the mean return less the daily risk-free rate. */
  lemma SharpeNumerator(r: seq<real>, rf: real, m: Math)
    requires |r| >= 2 && SampleStd(r, m) != 0.0
    ensures SharpeRatio(r, rf, m).Finite?
    ensures SharpeRatio(r, rf, m).v ==
              ((Mean(r) - rf / TradingDays) / SampleStd(r, m)) * m.sqrt(TradingDays)
  {
    MeanShifted(r, rf / TradingDays);
  }

  /** The Sortino ratio exactly as the source computes it: `std()` of fewer than
      two negative returns is NaN, and `NaN != 0` holds, so the ratio is NaN. */
  function SortinoAsWritten(r: seq<real>, rf: real, m: Math): (s: Float)
    requires |r| >= 1
    ensures |Negatives(r)| < 2 ==> s == NaN
    ensures |Negatives(r)| >= 2 ==> s == Finite(SortinoRatio(r, rf, m))
  {
    var downside := Times(StdOf(Negatives(r), m), m.sqrt(TradingDays));
    if downside != Finite(0.0) then
      match downside
      case Finite(d) => Div(Mean(r) * TradingDays - rf, d)
      case _ => NaN
    else Finite(0.0)
  }

  /** One negative return or none makes the ratio as written NaN instead of the
      zero sentinel: e.g. daily returns 1% and 2%. */
  lemma SortinoAsWrittenNaN(m: Math)
    ensures SortinoAsWritten([0.01, 0.02], 0.03, m) == NaN
  {
    assert Negatives([0.02]) == [];
    assert Negatives([0.01, 0.02]) == [];
  }

  /** The downside deviation, annualised; absent when it is undefined. */
  function DownsideDeviation(r: seq<real>, m: Math): (d: Option<real>)
    ensures d.Some? <==> |Negatives(r)| >= 2
  {
    var n := Negatives(r);
    if |n| >= 2 then Some(SampleStd(n, m) * m.sqrt(TradingDays)) else None
  }

  /** `returns.std() * np.sqrt(252)`: the annualised sample deviation. */
  function AnnualStd(r: seq<real>, m: Math): real
    requires |r| >= 2
  {
    SampleStd(r, m) * m.sqrt(TradingDays)
  }

  /** With a lawful square root the annualised deviation is non-negative, and
      zero exactly for a constant sample. */
  lemma AnnualStdZeroIff(r: seq<real>, m: Math)
    requires |r| >= 2 && Lawful(m)
    ensures AnnualStd(r, m) >= 0.0
    ensures AnnualStd(r, m) == 0.0 <==> Constant(r)
  {
    StdZeroIff(r, m);
    SqrtZeroIff(m, TradingDays);
    ScaledSign(SampleStd(r, m), m.sqrt(TradingDays));
  }

  /** The Sortino ratio with the intended sentinel: 0 when the downside
      deviation is zero or undefined, else the annualised excess return over
      the annualised downside deviation. */
  function SortinoRatio(r: seq<real>, rf: real, m: Math): (s: real)
    requires |r| >= 1
    ensures DownsideDeviation(r, m).Some? && DownsideDeviation(r, m).value != 0.0 ==>
              s * DownsideDeviation(r, m).value == Mean(r) * TradingDays - rf
    ensures DownsideDeviation(r, m).None? || DownsideDeviation(r, m).value == 0.0 ==> s == 0.0
  {
    match DownsideDeviation(r, m)
    case Some(d) => if d != 0.0 then (Mean(r) * TradingDays - rf) / d else 0.0
    case None => 0.0
  }

  /** With a lawful square root the sentinel is returned exactly when fewer
      than two returns are negative or all negative returns are equal. */
  lemma SortinoSentinelIff(r: seq<real>, m: Math)
    requires Lawful(m)
    ensures DownsideDeviation(r, m).None? || DownsideDeviation(r, m).value == 0.0
            <==> |Negatives(r)| < 2 || Constant(Negatives(r))
  {
    var n := Negatives(r);
    if |n| >= 2 {
      StdZeroIff(n, m);
      SqrtZeroIff(m, TradingDays);
      ScaledSign(SampleStd(n, m), m.sqrt(TradingDays));
    }
  }

  // ---------------------------------------------------------------------------
  // The metrics of one asset

  datatype Metrics = Metrics(
    sharpe: Float,
    sortino: Float,
    maxDrawdown: real,
    volatility: real,
    drawdown: seq<real>)

  /** The metrics of a price series of three or more positive prices. */
  function MetricsOf(p: seq<real>, rf: real, m: Math): (mt: Metrics)
    requires |p| >= 3 && forall k :: 0 <= k < |p| ==> p[k] > 0.0
    ensures mt.volatility == AnnualStd(SimpleReturns(p), m)
    ensures |mt.drawdown| == |p| - 1
    ensures mt.drawdown[0] == 0.0
    ensures forall t :: 0 <= t < |mt.drawdown| ==> -1.0 < mt.drawdown[t] <= 0.0
    ensures mt.maxDrawdown in mt.drawdown
    ensures forall t :: 0 <= t < |mt.drawdown| ==> mt.maxDrawdown <= mt.drawdown[t]
    ensures -1.0 < mt.maxDrawdown <= 0.0
    ensures mt.drawdown == DrawdownSeries(Curve(p))
    ensures mt.sharpe == SharpeRatio(SimpleReturns(p), rf, m)
    ensures |Negatives(SimpleReturns(p))| < 2 ==> mt.sortino == NaN
    ensures |Negatives(SimpleReturns(p))| >= 2 ==>
              mt.sortino == Finite(SortinoRatio(SimpleReturns(p), rf, m))
  {
    var r := SimpleReturns(p);
    var dd := DrawdownSeries(Curve(p));
    Metrics(
      sharpe := SharpeRatio(r, rf, m),
      sortino := SortinoAsWritten(r, rf, m),
      maxDrawdown := MinOf(dd),
      volatility := AnnualStd(r, m),
      drawdown := dd)
  }

  /** With a lawful square root the annualised volatility of the live metrics
      is non-negative, and zero exactly when every daily return is the same. */
  lemma MetricsVolatility(p: seq<real>, rf: real, m: Math)
    requires |p| >= 3 && forall k :: 0 <= k < |p| ==> p[k] > 0.0
    requires Lawful(m)
    ensures MetricsOf(p, rf, m).volatility >= 0.0
    ensures MetricsOf(p, rf, m).volatility == 0.0 <==> Constant(SimpleReturns(p))
  {
    AnnualStdZeroIff(SimpleReturns(p), m);
  }

  /** The wealth curve of a positive price series: positive, and each value is
      the later price relative to the first. */
  function Curve(p: seq<real>): (c: seq<real>)
    requires |p| >= 1 && forall k :: 0 <= k < |p| ==> p[k] > 0.0
    ensures |c| == |p| - 1
    ensures forall t :: 0 <= t < |c| ==> c[t] > 0.0
    ensures forall t {:trigger c[t]} :: 0 <= t < |c| ==> c[t] * p[0] == p[t + 1]
  {
    CurveTelescopes(p);
    CumProd(SimpleReturns(p))
  }

  lemma CurveTelescopes(p: seq<real>)
    requires |p| >= 1 && forall k :: 0 <= k < |p| ==> p[k] > 0.0
    ensures forall t :: 0 <= t < |p| - 1 ==> CumProd(SimpleReturns(p))[t] * p[0] == p[t + 1]
  {
    var r := SimpleReturns(p);
    assert |r| + 1 == |p|;
    assert forall k {:trigger r[k]} :: 0 <= k < |r| ==> (1.0 + r[k]) * p[k] == p[k + 1];
    CumProdTelescopes(r, p);
  }

  lemma CumProdTelescopes(r: seq<real>, p: seq<real>)
    requires |r| + 1 == |p|
    requires forall k {:trigger r[k]} :: 0 <= k < |r| ==> (1.0 + r[k]) * p[k] == p[k + 1]
    ensures forall t :: 0 <= t < |r| ==> CumProd(r)[t] * p[0] == p[t + 1]
  {
    forall t | 0 <= t < |r| ensures CumProd(r)[t] * p[0] == p[t + 1] {
      Telescope(r, p, t);
    }
  }

  /** `calculate_advanced_metrics(df, rf)`: the price column ('Adj Close' when
      present, else 'Close') of a complete table of positive prices; None where
      the lookup raises KeyError. */
  function AdvancedMetrics(fr: Frame, rf: real, m: Math): (r: Option<Metrics>)
    requires Rectangular(fr) && NoMissing(fr) && PositivePrices(fr) && |fr.index| >= 3
    ensures r.Some? <==> HasLabel(fr.columns, AdjClose) || HasLabel(fr.columns, Close)
    ensures r.Some? ==>
              (PriceColumnPositive(fr);
               r.value == MetricsOf(Values(PriceColumn(fr.columns).value), rf, m))
  {
    match PriceColumn(fr.columns)
    case None => None
    case Some(c) =>
      PriceColumnPositive(fr);
      Some(MetricsOf(Values(c), rf, m))
  }

  lemma PriceColumnPositive(fr: Frame)
    requires Rectangular(fr) && NoMissing(fr) && PositivePrices(fr)
    requires PriceColumn(fr.columns).Some?
    ensures var c := PriceColumn(fr.columns).value;
            |c| == |fr.index| && forall k :: 0 <= k < |c| ==> c[k].Value? && c[k].v > 0.0
  {
    var c := PriceColumn(fr.columns).value;
    var name := PriceLabel(HasLabel(fr.columns, AdjClose));
    var i := FirstIndex(fr.columns, name);
    assert fr.columns[i] == (name, c);
  }

  // ---------------------------------------------------------------------------
  // Series alignment in the benchmark variant

  /** Python's `x[-k:]` for `0 <= k <= |x|`: the last `k` elements, except that
      `-0` is `0`, so `x[-0:]` is the whole of `x`. */
  function PySuffix<T>(x: seq<T>, k: nat): seq<T>
    requires k <= |x|
  {
    if k == 0 then x else x[|x| - k..]
  }

  /** The alignment as written: both series cut with `[-min_len:]`. */
  function AlignAsWritten<T>(a: seq<T>, b: seq<T>): (r: (seq<T>, seq<T>))
    ensures |a| == 0 || |b| == 0 ==> r == (a, b)
    ensures |a| > 0 && |b| > 0 ==> |r.0| == |r.1|
  {
    var n := if |a| <= |b| then |a| else |b|;
    (PySuffix(a, n), PySuffix(b, n))
  }

  /** An empty benchmark leaves the returns untruncated. */
  lemma AlignAsWrittenMismatch()
    ensures var (a, b) := AlignAsWritten([0.01], []);
            |a| == 1 && |b| == 0
  {
  }

  /** The intended alignment: both series right-aligned and cut to the
      shorter length. */
  function AlignRight<T>(a: seq<T>, b: seq<T>): (r: (seq<T>, seq<T>))
    ensures |r.0| == |r.1| == (if |a| <= |b| then |a| else |b|)
    ensures r.0 == a[|a| - |r.0|..] && r.1 == b[|b| - |r.1|..]
  {
    var n := if |a| <= |b| then |a| else |b|;
    (a[|a| - n..], b[|b| - n..])
  }

  /** The two alignments differ only when one series is empty. */
  lemma AlignAgrees<T>(a: seq<T>, b: seq<T>)
    requires |a| > 0 && |b| > 0
    ensures AlignAsWritten(a, b) == AlignRight(a, b)
  {
  }
}
