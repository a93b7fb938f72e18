/** The Monte Carlo forecast of one asset: geometric Brownian motion calibrated
    on the log growth of the observed prices, a grid of simulated price paths
    (rows are days, columns are scenarios), the probability of ending above the
    current price, and the risk label derived from the scenario value at risk.
    The uniform random draws are an input. */
module Forecast {
  import opened Numerics
  import opened Tables
  import opened RiskMetrics

  // ---------------------------------------------------------------------------
  // The price series of one ticker

  /** `get_single_ticker_data(df, ticker)`: the single-asset table of the ticker,
      then its 'Adj Close' column when present, else its 'Close' column; any
      failed lookup gives None. */
  function SingleTickerData(t: Table, ticker: Label): (r: Option<Series>)
    ensures r.Some? <==> (TickerFrame(t, ticker).Some? &&
              (HasLabel(TickerFrame(t, ticker).value.columns, AdjClose) ||
               HasLabel(TickerFrame(t, ticker).value.columns, Close)))
    ensures r.Some? ==> r.value.index == TickerFrame(t, ticker).value.index
    ensures r.Some? && HasLabel(TickerFrame(t, ticker).value.columns, AdjClose) ==>
              (AdjClose, r.value.values) in TickerFrame(t, ticker).value.columns
    ensures r.Some? && !HasLabel(TickerFrame(t, ticker).value.columns, AdjClose) ==>
              (Close, r.value.values) in TickerFrame(t, ticker).value.columns
  {
    match TickerFrame(t, ticker)
    case None => None
    case Some(fr) =>
      match PriceColumn(fr.columns)
      case None => None
      case Some(c) => Some(Series(fr.index, c))
  }

  /** Fewest prices the forecast view accepts for a ticker. */
  const MinimumHistory: nat := 30

  /** The view's guard: a ticker without data, or with fewer than 30 prices
      (missing values included), is skipped. */
  function ForecastPrices(t: Table, ticker: Label): (r: Option<Series>)
    ensures r.Some? <==> SingleTickerData(t, ticker).Some? &&
                         |SingleTickerData(t, ticker).value.values| >= MinimumHistory
    ensures r.Some? ==> r == SingleTickerData(t, ticker)
  {
    match SingleTickerData(t, ticker)
    case None => None
    case Some(s) => if |s.values| < MinimumHistory then None else Some(s)
  }

  lemma ForecastPricesAreAColumn(t: Table, ticker: Label)
    requires RectangularTable(t)
    requires ForecastPrices(t, ticker).Some?
    ensures WellFormedSeries(ForecastPrices(t, ticker).value)
    ensures |ForecastPrices(t, ticker).value.index| >= MinimumHistory
  {
    TickerFrameRectangular(t, ticker);
    var fr := TickerFrame(t, ticker).value;
    var s := ForecastPrices(t, ticker).value;
    if HasLabel(fr.columns, AdjClose) {
      assert (AdjClose, s.values) in fr.columns;
    } else {
      assert (Close, s.values) in fr.columns;
    }
  }

  // ---------------------------------------------------------------------------
  // Calibration

  /** `np.log(1 + returns)` of the simple returns, each of which exceeds -1. */
  function LogGrowth(p: seq<real>, m: Math): (g: seq<real>)
    requires forall k :: 0 <= k < |p| ==> p[k] > 0.0
    ensures |g| == |SimpleReturns(p)|
    ensures forall t :: 0 <= t < |g| ==> g[t] == m.ln(1.0 + SimpleReturns(p)[t])
  {
    var r := SimpleReturns(p);
    seq(|r|, t requires 0 <= t < |r| => m.ln(1.0 + r[t]))
  }

  /** `u - 0.5 * var` of the log growth. */
  function Drift(p: seq<real>, m: Math): (d: real)
    requires |p| >= 3 && forall k :: 0 <= k < |p| ==> p[k] > 0.0
    ensures d + SampleVariance(LogGrowth(p, m)) / 2.0 == Mean(LogGrowth(p, m))
  {
    var g := LogGrowth(p, m);
    Mean(g) - 0.5 * SampleVariance(g)
  }

  /** `log_returns.std()` (N-1 denominator). */
  function Volatility(p: seq<real>, m: Math): (v: real)
    requires |p| >= 3 && forall k :: 0 <= k < |p| ==> p[k] > 0.0
    ensures Lawful(m) ==> v >= 0.0 && Sq(v) == SampleVariance(LogGrowth(p, m))
  {
    SampleStd(LogGrowth(p, m), m)
  }

  /** The drift never exceeds the mean log growth, and equals it exactly when
      the log growth is constant. */
  lemma DriftBelowMean(p: seq<real>, m: Math)
    requires |p| >= 3 && forall k :: 0 <= k < |p| ==> p[k] > 0.0
    ensures Drift(p, m) <= Mean(LogGrowth(p, m))
    ensures Drift(p, m) == Mean(LogGrowth(p, m)) <==> Constant(LogGrowth(p, m))
  {
    VarianceZeroIff(LogGrowth(p, m));
  }

  /** With a lawful library, the volatility is zero exactly when the log growth
      is constant. */
  lemma VolatilityZeroIff(p: seq<real>, m: Math)
    requires Lawful(m)
    requires |p| >= 3 && forall k :: 0 <= k < |p| ==> p[k] > 0.0
    ensures Volatility(p, m) >= 0.0
    ensures Volatility(p, m) == 0.0 <==> Constant(LogGrowth(p, m))
  {
    StdZeroIff(LogGrowth(p, m), m);
  }

  /** One daily factor `exp(drift + std * ppf(u))` of a uniform draw `u`. */
  function DailyFactor(m: Math, drift: real, vol: real, u: real): (f: real)
    ensures Lawful(m) ==> f > 0.0
  {
    m.exp(drift + vol * m.ppf(u))
  }

  /** The daily-factor grid of a grid of uniform draws. */
  function DailyFactors(m: Math, drift: real, vol: real, draws: seq<seq<real>>): (f: seq<seq<real>>)
    ensures |f| == |draws|
    ensures forall t :: 0 <= t < |draws| ==> |f[t]| == |draws[t]|
    ensures forall t, s :: 0 <= t < |draws| && 0 <= s < |draws[t]| ==>
              f[t][s] == DailyFactor(m, drift, vol, draws[t][s])
  {
    seq(|draws|, t requires 0 <= t < |draws| =>
      seq(|draws[t]|, s requires 0 <= s < |draws[t]| => DailyFactor(m, drift, vol, draws[t][s])))
  }

  /** With a lawful exponential every daily factor is positive. */
  lemma DailyFactorsPositive(m: Math, drift: real, vol: real, draws: seq<seq<real>>)
    requires Lawful(m)
    ensures forall t, s :: 0 <= t < |draws| && 0 <= s < |draws[t]| ==>
              DailyFactors(m, drift, vol, draws)[t][s] > 0.0
  {
    var f := DailyFactors(m, drift, vol, draws);
    forall t, s | 0 <= t < |draws| && 0 <= s < |draws[t]| ensures f[t][s] > 0.0 {
      var x := drift + vol * m.ppf(draws[t][s]);
      assert m.exp(x) > 0.0;
      assert f[t][s] == DailyFactor(m, drift, vol, draws[t][s]);
    }
  }

  // ---------------------------------------------------------------------------
  // Price paths

  /** Every row of the grid has a column `s`. */
  ghost predicate HasColumn(daily: seq<seq<real>>, s: nat)
  {
    forall k :: 0 <= k < |daily| ==> s < |daily[k]|
  }

  /** The simulated price of scenario `s` on day `t`: the last observed price
      on day 0, and each later day the previous day's price times that day's
      factor.  With a positive start and positive factors it stays positive. */
  function PathPrice(last: real, daily: seq<seq<real>>, t: nat, s: nat): (p: real)
    requires t < |daily| && HasColumn(daily, s)
    ensures last > 0.0 && (forall k :: 1 <= k <= t ==> daily[k][s] > 0.0) ==> p > 0.0
  {
    if t == 0 then last else PathPrice(last, daily, t - 1, s) * daily[t][s]
  }

  /** The product of the factors of scenario `s` on days `lo` to `hi - 1`. */
  function Product(daily: seq<seq<real>>, s: nat, lo: nat, hi: nat): real
    requires hi <= |daily| && HasColumn(daily, s)
    decreases hi - lo
  {
    if lo >= hi then 1.0 else daily[lo][s] * Product(daily, s, lo + 1, hi)
  }

  /** A path is the last price times the product of the factors of days 1 to
      `t`: the factors of day 0 never enter any path. */
  lemma {:induction false} PathIsProduct(last: real, daily: seq<seq<real>>, t: nat, s: nat)
    requires t < |daily| && HasColumn(daily, s)
    ensures PathPrice(last, daily, t, s) == last * Product(daily, s, 1, t + 1)
  {
    if t > 0 {
      PathIsProduct(last, daily, t - 1, s);
      ProductSnoc(daily, s, 1, t);
      Associate(last, Product(daily, s, 1, t), daily[t][s]);
    }
  }

  lemma {:induction false} ProductSnoc(daily: seq<seq<real>>, s: nat, lo: nat, hi: nat)
    requires lo <= hi < |daily| && HasColumn(daily, s)
    ensures Product(daily, s, lo, hi + 1) == Product(daily, s, lo, hi) * daily[hi][s]
    decreases hi - lo
  {
    if lo < hi {
      ProductSnoc(daily, s, lo + 1, hi);
      Associate(daily[lo][s], Product(daily, s, lo + 1, hi), daily[hi][s]);
    }
  }

  lemma Associate(a: real, b: real, c: real)
    ensures a * (b * c) == (a * b) * c
  {
  }

  /** Two factor grids that agree on days 1 to `t` of scenario `s` give the
      same path up to day `t`, whatever their day-0 rows hold. */
  lemma {:induction false} RowZeroUnused(last: real, d1: seq<seq<real>>, d2: seq<seq<real>>, t: nat, s: nat)
    requires t < |d1| && t < |d2| && HasColumn(d1, s) && HasColumn(d2, s)
    requires forall k :: 1 <= k <= t ==> d1[k][s] == d2[k][s]
    ensures PathPrice(last, d1, t, s) == PathPrice(last, d2, t, s)
  {
    if t > 0 {
      RowZeroUnused(last, d1, d2, t - 1, s);
    }
  }

  lemma MatrixColumns(daily: seq<seq<real>>, rows: nat, cols: nat)
    requires IsMatrix(daily, rows, cols)
    ensures forall s :: 0 <= s < cols ==> HasColumn(daily, s)
  {
  }

  /** The path grid of `run_monte_carlo`: a zero-filled `rows` x `cols` array,
      row 0 set to the last price, then each later row the previous row times
      that row of factors. */
  method SimulatePaths(last: real, daily: seq<seq<real>>, rows: nat, cols: nat) returns (paths: array2<real>)
    requires rows >= 1 && IsMatrix(daily, rows, cols)
    ensures fresh(paths)
    ensures paths.Length0 == rows && paths.Length1 == cols
    ensures forall s :: 0 <= s < cols ==> HasColumn(daily, s)
    ensures forall t, s :: 0 <= t < rows && 0 <= s < cols ==> paths[t, s] == PathPrice(last, daily, t, s)
    ensures forall s :: 0 <= s < cols ==> paths[0, s] == last
  {
    MatrixColumns(daily, rows, cols);
    paths := new real[rows, cols]((_, _) => 0.0);
    for s := 0 to cols
      invariant forall j :: 0 <= j < s ==> paths[0, j] == last
    {
      paths[0, s] := last;
    }
    for t := 1 to rows
      invariant forall i, j :: 0 <= i < t && 0 <= j < cols ==> paths[i, j] == PathPrice(last, daily, i, j)
    {
      AdvanceDay(paths, t, last, daily);
    }
  }

  /** Row `t` of the grid holds day `t` of every path. */
  ghost predicate DayComputed(paths: array2<real>, t: nat, last: real, daily: seq<seq<real>>)
    requires t < paths.Length0 && t < |daily|
    requires forall j :: 0 <= j < paths.Length1 ==> HasColumn(daily, j)
    reads paths
  {
    forall j :: 0 <= j < paths.Length1 ==> paths[t, j] == PathPrice(last, daily, t, j)
  }

  /** `price_paths[t] = price_paths[t-1] * daily_returns[t]`: row `t` becomes
      the next day of every path; no other row changes. */
  method AdvanceDay(paths: array2<real>, t: nat, last: real, daily: seq<seq<real>>)
    requires 1 <= t < paths.Length0 && IsMatrix(daily, paths.Length0, paths.Length1)
    requires forall j :: 0 <= j < paths.Length1 ==> HasColumn(daily, j)
    requires DayComputed(paths, t - 1, last, daily)
    modifies paths
    ensures forall i, j :: 0 <= i < paths.Length0 && i != t && 0 <= j < paths.Length1 ==>
              paths[i, j] == old(paths[i, j])
    ensures DayComputed(paths, t, last, daily)
  {
    for s := 0 to paths.Length1
      invariant forall i, j :: 0 <= i < paths.Length0 && i != t && 0 <= j < paths.Length1 ==>
                  paths[i, j] == old(paths[i, j])
      invariant forall j :: 0 <= j < s ==> paths[t, j] == PathPrice(last, daily, t, j)
    {
      paths[t, s] := paths[t - 1, s] * daily[t][s];
    }
  }

  /** `run_monte_carlo(prices, days_forecast, num_simulations)` on a series of
      positive prices, with the uniform draws supplied: None when fewer than
      two simple returns exist; otherwise the `days` x `sims` grid of paths
      driven by the factors calibrated on the prices. */
  method RunMonteCarlo(prices: seq<real>, days: nat, sims: nat, uniforms: seq<seq<real>>, m: Math)
    returns (r: Option<array2<real>>)
    requires forall k :: 0 <= k < |prices| ==> prices[k] > 0.0
    requires days >= 1 && IsMatrix(uniforms, days, sims)
    ensures r.None? <==> |prices| < 3
    ensures r.Some? ==>
              var daily := DailyFactors(m, Drift(prices, m), Volatility(prices, m), uniforms);
              && fresh(r.value)
              && r.value.Length0 == days && r.value.Length1 == sims
              && (forall s :: 0 <= s < sims ==> HasColumn(daily, s))
              && (forall s :: 0 <= s < sims ==> r.value[0, s] == prices[|prices| - 1])
              && forall t, s :: 0 <= t < days && 0 <= s < sims ==>
                   r.value[t, s] == PathPrice(prices[|prices| - 1], daily, t, s)
  {
    if |SimpleReturns(prices)| < 2 {
      return None;
    }
    var last := prices[|prices| - 1];
    var daily := DailyFactors(m, Drift(prices, m), Volatility(prices, m), uniforms);
    var paths := SimulatePaths(last, daily, days, sims);
    return Some(paths);
  }

  /** With a lawful library and a positive last price every simulated price is
      positive. */
  lemma PathsPositive(prices: seq<real>, uniforms: seq<seq<real>>, m: Math, t: nat, s: nat)
    requires Lawful(m)
    requires |prices| >= 3 && forall k :: 0 <= k < |prices| ==> prices[k] > 0.0
    requires t < |uniforms| && forall k :: 0 <= k < |uniforms| ==> s < |uniforms[k]|
    ensures var daily := DailyFactors(m, Drift(prices, m), Volatility(prices, m), uniforms);
            HasColumn(daily, s) && PathPrice(prices[|prices| - 1], daily, t, s) > 0.0
  {
    DailyFactorsPositive(m, Drift(prices, m), Volatility(prices, m), uniforms);
  }

  // ---------------------------------------------------------------------------
  // Terminal summary

  /** The number of terminal prices strictly above `c`. */
  function CountAbove(final: seq<real>, c: real): (n: nat)
    ensures n <= |final|
    ensures n == |final| <==> forall i :: 0 <= i < |final| ==> final[i] > c
    ensures n == 0 <==> forall i :: 0 <= i < |final| ==> final[i] <= c
  {
    if |final| == 0 then 0
    else
      var rest := CountAbove(final[1..], c);
      assert forall i :: 1 <= i < |final| ==> final[i] == final[1..][i - 1];
      (if final[0] > c then 1 else 0) + rest
  }

  /** Raising the threshold never counts more prices. */
  lemma {:induction false} CountAboveAntitone(final: seq<real>, c1: real, c2: real)
    requires c1 <= c2
    ensures CountAbove(final, c2) <= CountAbove(final, c1)
  {
    if |final| > 0 {
      CountAboveAntitone(final[1..], c1, c2);
    }
  }

  /** `np.sum(final_prices > curr_price) / num_sim * 100`: the percentage of
      scenarios that end above the current price. */
  function ProbUp(final: seq<real>, curr: real): (pct: real)
    requires |final| > 0
    ensures 0.0 <= pct <= 100.0
    ensures pct == 100.0 <==> forall i :: 0 <= i < |final| ==> final[i] > curr
    ensures pct == 0.0 <==> forall i :: 0 <= i < |final| ==> final[i] <= curr
  {
    var n := CountAbove(final, curr);
    Percentage(n, |final|);
    n as real / |final| as real * 100.0
  }

  lemma Percentage(n: nat, total: nat)
    requires 0 < total && n <= total
    ensures 0.0 <= n as real / total as real * 100.0 <= 100.0
    ensures n as real / total as real * 100.0 == 100.0 <==> n == total
    ensures n as real / total as real * 100.0 == 0.0 <==> n == 0
  {
    var q := n as real / total as real;
    assert q * total as real == n as real;
    ScaledSign(q - 1.0, total as real);
    ScaledSign(q, total as real);
  }

  /** The probability of profit falls as the current price rises. */
  lemma ProbUpAntitone(final: seq<real>, c1: real, c2: real)
    requires |final| > 0 && c1 <= c2
    ensures ProbUp(final, c2) <= ProbUp(final, c1)
  {
    CountAboveAntitone(final, c1, c2);
    DivideMonotone(CountAbove(final, c2) as real, CountAbove(final, c1) as real, |final| as real);
  }

  lemma DivideMonotone(a: real, b: real, d: real)
    requires a <= b && d > 0.0
    ensures a / d * 100.0 <= b / d * 100.0
  {
    assert (b - a) / d >= 0.0;
  }

  /** `(final_prices - curr_price) / curr_price`. */
  function ScenarioReturns(final: seq<real>, curr: real): (r: seq<real>)
    requires curr > 0.0
    ensures |r| == |final|
    ensures forall i :: 0 <= i < |final| ==> r[i] * curr == final[i] - curr
    ensures forall i :: 0 <= i < |final| ==> (r[i] > 0.0 <==> final[i] > curr)
  {
    var r := seq(|final|, i requires 0 <= i < |final| => (final[i] - curr) / curr);
    assert forall i :: 0 <= i < |final| ==> r[i] * curr == final[i] - curr;
    r
  }

  /** The scenarios that end in profit are exactly those with a positive
      scenario return. */
  lemma ProfitableScenarios(final: seq<real>, curr: real)
    requires curr > 0.0
    ensures CountAbove(ScenarioReturns(final, curr), 0.0) == CountAbove(final, curr)
  {
    SameCount(ScenarioReturns(final, curr), 0.0, final, curr);
  }

  /** Two sequences whose elements pass their thresholds at the same positions
      have the same count. */
  lemma {:induction false} SameCount(a: seq<real>, ca: real, b: seq<real>, cb: real)
    requires |a| == |b|
    requires forall i :: 0 <= i < |a| ==> (a[i] > ca <==> b[i] > cb)
    ensures CountAbove(a, ca) == CountAbove(b, cb)
  {
    if |a| > 0 {
      assert forall i :: 0 <= i < |a| - 1 ==> a[1..][i] == a[i + 1] && b[1..][i] == b[i + 1];
      SameCount(a[1..], ca, b[1..], cb);
    }
  }

  /** `np.percentile(scenario_returns, 5)`. */
  function ValueAtRisk(final: seq<real>, curr: real, m: Math): (v: real)
    requires curr > 0.0
    ensures Lawful(m) && |final| > 0 ==>
              MinOf(ScenarioReturns(final, curr)) <= v <= MaxOf(ScenarioReturns(final, curr))
    ensures Lawful(m) && |final| > 0 && (forall i :: 0 <= i < |final| ==> final[i] > 0.0) ==> v > -1.0
  {
    var r := ScenarioReturns(final, curr);
    LossBelowWhole(final, curr);
    m.percentile(r, 5.0)
  }

  /** No scenario that ends at a positive price loses 100% or more. */
  lemma LossBelowWhole(final: seq<real>, curr: real)
    requires curr > 0.0
    ensures |final| > 0 && (forall i :: 0 <= i < |final| ==> final[i] > 0.0) ==>
              MinOf(ScenarioReturns(final, curr)) > -1.0
  {
    var r := ScenarioReturns(final, curr);
    if |final| > 0 && forall i :: 0 <= i < |final| ==> final[i] > 0.0 {
      forall i | 0 <= i < |r| ensures r[i] > -1.0 {
        AboveMinusOne(r[i], curr, final[i]);
      }
      assert MinOf(r) in r;
    }
  }

  lemma AboveMinusOne(x: real, c: real, f: real)
    requires c > 0.0 && f > 0.0 && x * c == f - c
    ensures x > -1.0
  {
    assert (x + 1.0) * c == f;
    ScaledSign(-(x + 1.0), c);
  }

  // ---------------------------------------------------------------------------
  // Risk label

  datatype RiskLevel = ExtremeRisk | HighRisk | Moderate

  function Abs(x: real): (a: real)
    ensures a >= 0.0 && (a == x || a == -x)
  {
    if x < 0.0 then -x else x
  }

  /** The risk label of a 95% value at risk: extreme beyond a 20% loss or
      gain in magnitude, high beyond 10%, moderate otherwise. */
  function RiskLabel(var95: real): (level: RiskLevel)
    ensures level == ExtremeRisk <==> Abs(var95) > 0.20
    ensures level == HighRisk <==> 0.10 < Abs(var95) <= 0.20
    ensures level == Moderate <==> Abs(var95) <= 0.10
  {
    if Abs(var95) > 0.20 then ExtremeRisk
    else if Abs(var95) > 0.10 then HighRisk
    else Moderate
  }

  function LevelName(level: RiskLevel): (name: string)
    ensures name == "EXTREME RISK" <==> level == ExtremeRisk
    ensures name == "HIGH RISK" <==> level == HighRisk
    ensures name == "MODERATE" <==> level == Moderate
  {
    match level
    case ExtremeRisk => "EXTREME RISK"
    case HighRisk => "HIGH RISK"
    case Moderate => "MODERATE"
  }

  function LevelColour(level: RiskLevel): (colour: string)
    ensures colour == "red" <==> level == ExtremeRisk
    ensures colour == "orange" <==> level == HighRisk
    ensures colour == "green" <==> level == Moderate
  {
    match level
    case ExtremeRisk => "red"
    case HighRisk => "orange"
    case Moderate => "green"
  }

  function Severity(level: RiskLevel): nat
  {
    match level
    case Moderate => 0
    case HighRisk => 1
    case ExtremeRisk => 2
  }

  /** A larger value at risk in magnitude never gets a milder label, and the
      label depends on the magnitude only. */
  lemma RiskLabelMonotone(a: real, b: real)
    requires Abs(a) <= Abs(b)
    ensures Severity(RiskLabel(a)) <= Severity(RiskLabel(b))
    ensures RiskLabel(a) == RiskLabel(-a)
  {
  }
}
