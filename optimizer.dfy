/** The Monte Carlo portfolio optimiser: annualised mean returns and covariance
    of the assets' log returns, a batch of random portfolios recorded in a 3 x P
    results array, and the portfolios of maximum Sharpe ratio and minimum
    volatility among them.  The random weight draws are an input. */
module Optimizer {
  import opened Numerics
  import opened Tables

  // ---------------------------------------------------------------------------
  // Preparing the returns

  /** The close-price table of all assets: the cross-section at the second
      column level of 'Adj Close' when that field exists, else of 'Close'.
      A flat table, or a missing field, gives None. */
  function PriceData(t: Table): (r: Option<Frame>)
    ensures t.Flat? ==> r.None?
    ensures t.Nested? ==>
              (r.Some? <==> InLevel1(t.columns, AdjClose) || InLevel1(t.columns, Close))
    ensures r.Some? ==> |r.value.columns| > 0
  {
    match t
    case Flat(_) => None
    case Nested(index, cols) =>
      var target := PriceLabel(InLevel1(cols, AdjClose));
      var r := CrossSection1(index, cols, target);
      if r.Some? then Level1NonEmpty(cols, target); r else r
  }

  lemma Level1NonEmpty(cols: seq<((Label, Label), Column)>, key: Label)
    requires InLevel1(cols, key)
    ensures |Level1Columns(cols, key)| > 0
  {
    var i :| 0 <= i < |cols| && cols[i].0.1 == key;
    assert ((cols[i].0.0, key), cols[i].1) == cols[i];
    assert (cols[i].0.0, cols[i].1) in Level1Columns(cols, key);
  }

  /** The price table is rectangular and every price in it is positive. */
  lemma PriceDataWellFormed(t: Table)
    requires RectangularTable(t) && PositivePricesTable(t) && PriceData(t).Some?
    ensures Rectangular(PriceData(t).value)
    ensures forall j :: 0 <= j < |PriceData(t).value.columns| ==> PositiveColumn(PriceData(t).value.columns[j].1)
  {
    var fr := PriceData(t).value;
    var target := PriceLabel(InLevel1(t.columns, AdjClose));
    forall j | 0 <= j < |fr.columns|
      ensures |fr.columns[j].1| == |fr.index| && PositiveColumn(fr.columns[j].1)
    {
      var p := fr.columns[j];
      assert p in fr.columns;
      assert ((p.0, target), p.1) in t.columns;
    }
  }

  /** `log(p[t] / p[t-1])` on two cells of positive prices; a missing cell gives NaN. */
  function LogCell(ln: real -> real, next: Cell, prev: Cell): (r: Cell)
    requires next.Value? ==> next.v > 0.0
    requires prev.Value? ==> prev.v > 0.0
    ensures r.Value? <==> next.Value? && prev.Value?
  {
    match (next, prev)
    case (Value(a), Value(b)) => Value(ln(a / b))
    case _ => Missing
  }

  /** `np.log(col / col.shift(1))`: the first row has no predecessor. */
  function LogReturnColumn(ln: real -> real, c: Column): (r: Column)
    requires PositiveColumn(c)
    ensures |r| == |c|
    ensures |c| > 0 ==> r[0] == Missing
    ensures forall k :: 1 <= k < |c| ==> r[k] == LogCell(ln, c[k], c[k - 1])
  {
    seq(|c|, k requires 0 <= k < |c| => LogAt(ln, c, k))
  }

  /** Row `k` of the shifted log ratio of a column. */
  function LogAt(ln: real -> real, c: Column, k: nat): (r: Cell)
    requires PositiveColumn(c) && k < |c|
    ensures k == 0 ==> r == Missing
    ensures k > 0 ==> r == LogCell(ln, c[k], c[k - 1])
  {
    if k == 0 then Missing
    else
      assert c[k].Value? ==> c[k].v > 0.0;
      assert c[k - 1].Value? ==> c[k - 1].v > 0.0;
      LogCell(ln, c[k], c[k - 1])
  }

  /** `np.log(data / data.shift(1)).dropna()`. */
  function LogReturnFrame(ln: real -> real, data: Frame): (r: Frame)
    requires Rectangular(data)
    requires forall j :: 0 <= j < |data.columns| ==> PositiveColumn(data.columns[j].1)
    ensures Rectangular(r) && NoMissing(r)
    ensures |r.columns| == |data.columns|
    ensures forall j :: 0 <= j < |data.columns| ==> r.columns[j].0 == data.columns[j].0
    ensures |data.columns| > 0 && |data.index| > 0 ==> |r.index| < |data.index|
  {
    var raw := Frame(data.index, seq(|data.columns|, j requires 0 <= j < |data.columns| =>
                 (data.columns[j].0, LogReturnColumn(ln, data.columns[j].1))));
    assert |data.columns| > 0 && |data.index| > 0 ==> raw.columns[0].1[0].Missing?;
    FirstRowDropped(raw);
    DropNa(raw)
  }

  /** With at least one column, the first row of a shifted ratio is never kept. */
  lemma FirstRowDropped(raw: Frame)
    requires Rectangular(raw)
    ensures |raw.columns| > 0 && |raw.index| > 0 && raw.columns[0].1[0].Missing? ==>
              |DropNa(raw).index| < |raw.index|
  {
    if |raw.columns| > 0 && |raw.index| > 0 && raw.columns[0].1[0].Missing? {
      var rows := CompleteRows(raw.columns, |raw.index|);
      assert !RowComplete(raw.columns, 0);
      CompleteRowsMissOne(raw.columns, |raw.index|, 0);
    }
  }

  lemma {:induction false} CompleteRowsMissOne(cols: seq<(Label, Column)>, n: nat, k: nat)
    requires k < n && !RowComplete(cols, k)
    ensures |CompleteRows(cols, n)| < n
  {
    if n - 1 > k {
      CompleteRowsMissOne(cols, n - 1, k);
    } else {
      assert |CompleteRows(cols, n - 1)| <= n - 1;
    }
  }

  /** The cleaned log returns of the assets, or None where the source returns
      None: a flat table, no close field, or fewer than two assets. */
  function PrepareReturns(t: Table, ln: real -> real): (r: Option<Frame>)
    requires RectangularTable(t) && PositivePricesTable(t)
    ensures r.Some? <==> PriceData(t).Some? && |PriceData(t).value.columns| >= 2
    ensures r.Some? ==> Rectangular(r.value) && NoMissing(r.value)
    ensures r.Some? ==> |r.value.columns| == |PriceData(t).value.columns| >= 2
    ensures r.Some? ==> forall j :: 0 <= j < |r.value.columns| ==>
              r.value.columns[j].0 == PriceData(t).value.columns[j].0
  {
    match PriceData(t)
    case None => None
    case Some(data) =>
      if |data.columns| < 2 then None
      else
        PriceDataWellFormed(t);
        Some(LogReturnFrame(ln, data))
  }

  // ---------------------------------------------------------------------------
  // Annualised statistics

  /** Annualised mean returns and covariance matrix of the assets. */
  datatype Statistics = Statistics(assets: seq<Label>, avg: seq<real>, cov: seq<seq<real>>)

  ghost predicate WellSized(st: Statistics)
  {
    |st.avg| == |st.assets| && IsMatrix(st.cov, |st.assets|, |st.assets|)
  }

  /** The return series of each column of a complete frame. */
  function ColumnValues(fr: Frame): (r: seq<seq<real>>)
    requires Rectangular(fr) && NoMissing(fr)
    ensures IsMatrix(r, |fr.columns|, |fr.index|)
    ensures forall j :: 0 <= j < |fr.columns| ==> r[j] == Values(fr.columns[j].1)
  {
    seq(|fr.columns|, j requires 0 <= j < |fr.columns| => Values(fr.columns[j].1))
  }

  /** `returns.mean() * 252` and `returns.cov() * 252`. */
  function Annualise(fr: Frame): (st: Statistics)
    requires Rectangular(fr) && NoMissing(fr) && |fr.index| >= 2
    ensures WellSized(st)
    ensures |st.assets| == |fr.columns|
    ensures forall j :: 0 <= j < |fr.columns| ==> st.assets[j] == fr.columns[j].0
    ensures forall j :: 0 <= j < |fr.columns| ==> st.avg[j] == Mean(Values(fr.columns[j].1)) * TradingDays
    ensures forall j, k :: 0 <= j < |fr.columns| && 0 <= k < |fr.columns| ==>
              st.cov[j][k] == SampleCovariance(Values(fr.columns[j].1), Values(fr.columns[k].1)) * TradingDays
    ensures forall j :: 0 <= j < |st.assets| ==> st.cov[j][j] >= 0.0
    ensures forall j, k :: 0 <= j < |st.assets| && 0 <= k < |st.assets| ==> st.cov[j][k] == st.cov[k][j]
  {
    var r := ColumnValues(fr);
    var n := |fr.columns|;
    CovarianceFacts(r, |fr.index|);
    Statistics(
      seq(n, j requires 0 <= j < n => fr.columns[j].0),
      seq(n, j requires 0 <= j < n => Mean(r[j]) * TradingDays),
      seq(n, j requires 0 <= j < n =>
        seq(n, k requires 0 <= k < n => SampleCovariance(r[j], r[k]) * TradingDays)))
  }

  lemma CovarianceFacts(r: seq<seq<real>>, len: nat)
    requires len >= 2 && forall j :: 0 <= j < |r| ==> |r[j]| == len
    ensures forall j :: 0 <= j < |r| ==> SampleCovariance(r[j], r[j]) >= 0.0
    ensures forall j, k :: 0 <= j < |r| && 0 <= k < |r| ==>
              SampleCovariance(r[j], r[k]) == SampleCovariance(r[k], r[j])
  {
    forall j | 0 <= j < |r| ensures SampleCovariance(r[j], r[j]) >= 0.0 {
      CovarianceDiagonal(r[j]);
    }
    forall j, k | 0 <= j < |r| && 0 <= k < |r|
      ensures SampleCovariance(r[j], r[k]) == SampleCovariance(r[k], r[j])
    {
      CrossDeviationsSymmetric(r[j], r[k], Mean(r[j]), Mean(r[k]));
    }
  }

  lemma {:induction false} CrossDeviationsSymmetric(x: seq<real>, y: seq<real>, mx: real, my: real)
    requires |x| == |y|
    ensures CrossDeviations(x, y, mx, my) == CrossDeviations(y, x, my, mx)
  {
    if |x| > 0 {
      CrossDeviationsSymmetric(x[1..], y[1..], mx, my);
    }
  }

  // ---------------------------------------------------------------------------
  // One random portfolio

  /** `weights /= np.sum(weights)`: non-negative weights that sum to one. */
  function Normalize(w: seq<real>): (r: seq<real>)
    requires forall i :: 0 <= i < |w| ==> w[i] >= 0.0
    requires Sum(w) > 0.0
    ensures |r| == |w|
    ensures forall i :: 0 <= i < |w| ==> r[i] >= 0.0 && r[i] * Sum(w) == w[i]
    ensures Sum(r) == 1.0
  {
    NormalizedFacts(w, Sum(w));
    Divided(w, Sum(w))
  }

  lemma NormalizedFacts(w: seq<real>, total: real)
    requires forall i :: 0 <= i < |w| ==> w[i] >= 0.0
    requires total == Sum(w) && total > 0.0
    ensures forall i :: 0 <= i < |w| ==> Divided(w, total)[i] >= 0.0 && Divided(w, total)[i] * total == w[i]
    ensures Sum(Divided(w, total)) == 1.0
  {
    var r := Divided(w, total);
    SumDivided(w, total);
    UnitSum(Sum(r), total, Sum(w));
    NonNegativeQuotients(w, total);
  }

  lemma UnitSum(x: real, t: real, s: real)
    requires t > 0.0 && s == t && x * t == s
    ensures x == 1.0
  {
  }

  lemma NonNegativeQuotients(w: seq<real>, total: real)
    requires total > 0.0
    requires forall i :: 0 <= i < |w| ==> w[i] >= 0.0
    ensures forall i :: 0 <= i < |w| ==> Divided(w, total)[i] >= 0.0
  {
    var r := Divided(w, total);
    forall i | 0 <= i < |w| ensures r[i] >= 0.0 {
      QuotientSign(w[i], total, r[i]);
    }
  }

  lemma QuotientSign(a: real, b: real, q: real)
    requires a >= 0.0 && b > 0.0 && q * b == a
    ensures q >= 0.0
  {
  }

  /** A raw draw of `np.random.random(n)`: values in [0, 1), not all zero. */
  ghost predicate ValidDraw(w: seq<real>, n: nat)
  {
    |w| == n && (forall i :: 0 <= i < |w| ==> 0.0 <= w[i] < 1.0) && Sum(w) > 0.0
  }

  /** `np.sum(weights * avg_returns)`: between the worst and the best
      annualised asset return for weights that sum to one, and the asset's own
      return for a portfolio held in one asset. */
  function PortfolioReturn(st: Statistics, w: seq<real>): (r: real)
    requires WellSized(st) && |w| == |st.assets|
    ensures |w| > 0 && (forall i :: 0 <= i < |w| ==> w[i] >= 0.0) && Sum(w) == 1.0 ==>
              MinOf(st.avg) <= r <= MaxOf(st.avg)
    ensures forall j {:trigger Unit(|w|, j)} :: 0 <= j < |w| && w == Unit(|w|, j) ==> r == st.avg[j]
  {
    ReturnFacts(st, w);
    Dot(w, st.avg)
  }

  lemma ReturnFacts(st: Statistics, w: seq<real>)
    requires WellSized(st) && |w| == |st.assets|
    ensures |w| > 0 && (forall i :: 0 <= i < |w| ==> w[i] >= 0.0) && Sum(w) == 1.0 ==>
              MinOf(st.avg) <= Dot(w, st.avg) <= MaxOf(st.avg)
    ensures forall j {:trigger Unit(|w|, j)} :: 0 <= j < |w| && w == Unit(|w|, j) ==> Dot(w, st.avg) == st.avg[j]
  {
    if |w| > 0 && (forall i :: 0 <= i < |w| ==> w[i] >= 0.0) && Sum(w) == 1.0 {
      SimplexBounds(w, st.avg);
    }
    forall j | 0 <= j < |w| && w == Unit(|w|, j) ensures Dot(w, st.avg) == st.avg[j] {
      DotUnit(st.avg, j);
    }
  }

  /** `np.dot(weights.T, np.dot(cov_matrix, weights))`: a portfolio held in one
      asset has that asset's variance. */
  function PortfolioVariance(st: Statistics, w: seq<real>): (v: real)
    requires WellSized(st) && |w| == |st.assets|
    ensures forall j {:trigger Unit(|w|, j)} :: 0 <= j < |w| && w == Unit(|w|, j) ==> v == st.cov[j][j]
  {
    UnitVariance(st, w);
    Dot(w, MatVec(st.cov, w))
  }

  lemma UnitVariance(st: Statistics, w: seq<real>)
    requires WellSized(st) && |w| == |st.assets|
    ensures forall j {:trigger Unit(|w|, j)} :: 0 <= j < |w| && w == Unit(|w|, j) ==>
              Dot(w, MatVec(st.cov, w)) == st.cov[j][j]
  {
    forall j | 0 <= j < |w| && w == Unit(|w|, j) ensures Dot(w, MatVec(st.cov, w)) == st.cov[j][j] {
      var col := MatVec(st.cov, w);
      forall k | 0 <= k < |col| ensures col[k] == st.cov[k][j] {
        DotUnit(st.cov[k], j);
      }
      DotUnit(col, j);
    }
  }

  /** The volatility of the normalised draw. */
  function DrawStd(st: Statistics, draw: seq<real>, m: Math): real
    requires WellSized(st) && ValidDraw(draw, |st.assets|)
  {
    m.sqrt(PortfolioVariance(st, Normalize(draw)))
  }

  /** With a lawful square root the volatility of a draw is a non-negative
      root of its portfolio variance, wherever that is non-negative. */
  lemma DrawStdRoot(st: Statistics, draw: seq<real>, m: Math)
    requires WellSized(st) && ValidDraw(draw, |st.assets|) && Lawful(m)
    requires PortfolioVariance(st, Normalize(draw)) >= 0.0
    ensures DrawStd(st, draw, m) >= 0.0
    ensures Sq(DrawStd(st, draw, m)) == PortfolioVariance(st, Normalize(draw))
  {
  }

  /** A candidate portfolio: its return, volatility, Sharpe ratio and weights. */
  datatype Candidate = Candidate(ret: real, std: real, sharpe: real, weights: seq<real>)

  /** The candidate a draw produces; the Sharpe ratio divides without a guard,
      so the volatility must not be zero. */
  function CandidateOf(st: Statistics, draw: seq<real>, rf: real, m: Math): (c: Candidate)
    requires WellSized(st) && ValidDraw(draw, |st.assets|) && DrawStd(st, draw, m) != 0.0
    ensures c.weights == Normalize(draw)
    ensures c.ret == PortfolioReturn(st, c.weights) && c.std == DrawStd(st, draw, m)
    ensures (c.sharpe * c.std) == c.ret - rf
    ensures Sum(c.weights) == 1.0 && forall i :: 0 <= i < |c.weights| ==> c.weights[i] >= 0.0
    ensures |st.assets| > 0 ==> MinOf(st.avg) <= c.ret <= MaxOf(st.avg)
  {
    var w := Normalize(draw);
    Assemble(PortfolioReturn(st, w), DrawStd(st, draw, m), rf, w)
  }

  /** The candidate of a return and a non-zero volatility. */
  function Assemble(ret: real, sd: real, rf: real, w: seq<real>): (c: Candidate)
    requires sd != 0.0
    ensures c.ret == ret && c.std == sd && c.weights == w
    ensures c.sharpe * c.std == c.ret - rf
  {
    Candidate(ret, sd, (ret - rf) / sd, w)
  }

  /** The weight cap of 70% is declared but not enforced: a draw of 0.9 and
      0.1 keeps a weight of 90%. */
  lemma NoWeightCap()
    ensures Normalize([0.9, 0.1])[0] > 0.70
  {
    assert Sum([0.1]) == 0.1;
    assert Sum([0.9, 0.1]) == 1.0;
  }

  // ---------------------------------------------------------------------------
  // The simulation

  /** The reported portfolio: return, volatility, Sharpe ratio, and the weights
      paired with the asset labels (`dict(zip(data.columns, weights))`). */
  datatype Portfolio = Portfolio(ret: real, std: real, sharpe: real, weights: seq<(Label, real)>)

  datatype Optimum = Optimum(results: array2<real>, maxSharpe: Portfolio, minVol: Portfolio)

  function Zip(labels: seq<Label>, w: seq<real>): (z: seq<(Label, real)>)
    requires |labels| == |w|
    ensures |z| == |w| && forall i :: 0 <= i < |w| ==> z[i] == (labels[i], w[i])
  {
    seq(|w|, i requires 0 <= i < |w| => (labels[i], w[i]))
  }

  /** What the optimiser needs of its inputs: a well-formed table of positive
      prices; when the returns can be prepared, at least two complete return
      rows, one valid draw per portfolio, and no draw of zero volatility. */
  ghost predicate Admissible(t: Table, draws: seq<seq<real>>, m: Math)
  {
    && RectangularTable(t) && PositivePricesTable(t)
    && (PrepareReturns(t, m.ln).Some? ==>
          var fr := PrepareReturns(t, m.ln).value;
          && |fr.index| >= 2
          && forall i :: 0 <= i < |draws| ==>
               ValidDraw(draws[i], |fr.columns|) && DrawStd(Annualise(fr), draws[i], m) != 0.0)
  }

  /** The statistics the optimiser works with. */
  ghost function StatisticsOf(t: Table, draws: seq<seq<real>>, m: Math): (st: Statistics)
    requires Admissible(t, draws, m) && PrepareReturns(t, m.ln).Some?
    ensures WellSized(st) && |st.assets| >= 2
    ensures forall i :: 0 <= i < |draws| ==> ValidDraw(draws[i], |st.assets|) && DrawStd(st, draws[i], m) != 0.0
  {
    Annualise(PrepareReturns(t, m.ln).value)
  }

  /** The simulation loop: one candidate per draw, its return, volatility and
      Sharpe ratio stored in column `i` of a fresh 3 x P array (initially
      zeros) and its weights appended to the record. */
  method Simulate(st: Statistics, draws: seq<seq<real>>, rf: real, m: Math)
    returns (results: array2<real>, weightsRecord: seq<seq<real>>)
    requires WellSized(st)
    requires forall i :: 0 <= i < |draws| ==> ValidDraw(draws[i], |st.assets|) && DrawStd(st, draws[i], m) != 0.0
    ensures fresh(results)
    ensures results.Length0 == 3 && results.Length1 == |draws| && |weightsRecord| == |draws|
    ensures forall i :: 0 <= i < |draws| ==>
              var c := CandidateOf(st, draws[i], rf, m);
              results[0, i] == c.ret && results[1, i] == c.std && results[2, i] == c.sharpe
              && weightsRecord[i] == c.weights
  {
    results := new real[3, |draws|]((_, _) => 0.0);
    weightsRecord := [];
    for i := 0 to |draws|
      invariant |weightsRecord| == i
      invariant forall j :: 0 <= j < i ==>
                  var c := CandidateOf(st, draws[j], rf, m);
                  results[0, j] == c.ret && results[1, j] == c.std && results[2, j] == c.sharpe
                  && weightsRecord[j] == c.weights
    {
      var c := CandidateOf(st, draws[i], rf, m);
      results[0, i] := c.ret;
      results[1, i] := c.std;
      results[2, i] := c.sharpe;
      weightsRecord := weightsRecord + [c.weights];
    }
  }

  /** The first position of the largest Sharpe ratio in the results array is
      the first candidate of maximum Sharpe ratio. */
  lemma ArgMaxSharpe(st: Statistics, draws: seq<seq<real>>, rf: real, m: Math, results: array2<real>, k: nat)
    requires WellSized(st)
    requires forall i :: 0 <= i < |draws| ==> ValidDraw(draws[i], |st.assets|) && DrawStd(st, draws[i], m) != 0.0
    requires results.Length0 == 3 && results.Length1 == |draws| && k < |draws|
    requires forall i :: 0 <= i < |draws| ==> results[2, i] == CandidateOf(st, draws[i], rf, m).sharpe
    requires forall j :: 0 <= j < results.Length1 ==> results[2, j] <= results[2, k]
    requires forall j :: 0 <= j < k ==> results[2, j] < results[2, k]
    ensures FirstMaxSharpe(st, draws, rf, m, k)
  {
  }

  /** The first position of the smallest volatility in the results array is
      the first candidate of minimum volatility. */
  lemma ArgMinVol(st: Statistics, draws: seq<seq<real>>, rf: real, m: Math, results: array2<real>, k: nat)
    requires WellSized(st)
    requires forall i :: 0 <= i < |draws| ==> ValidDraw(draws[i], |st.assets|) && DrawStd(st, draws[i], m) != 0.0
    requires results.Length0 == 3 && results.Length1 == |draws| && k < |draws|
    requires forall i :: 0 <= i < |draws| ==> results[1, i] == CandidateOf(st, draws[i], rf, m).std
    requires forall j :: 0 <= j < results.Length1 ==> results[1, j] >= results[1, k]
    requires forall j :: 0 <= j < k ==> results[1, j] > results[1, k]
    ensures FirstMinVol(st, draws, rf, m, k)
  {
  }

  /** `optimize_portfolio(df, num_portfolios, risk_free_rate)` with the weight
      draws supplied: None exactly where the source returns None; otherwise the
      3 x P results array (return, volatility, Sharpe ratio of each candidate)
      and the first candidates of maximum Sharpe ratio and minimum volatility,
      with their weights. */
  method OptimizePortfolio(t: Table, numPortfolios: nat, rf: real, draws: seq<seq<real>>, m: Math)
    returns (r: Option<Optimum>)
    requires numPortfolios >= 1 && |draws| == numPortfolios
    requires Admissible(t, draws, m)
    ensures r.None? <==> PrepareReturns(t, m.ln).None?
    ensures r.Some? ==>
              var st := StatisticsOf(t, draws, m);
              var res := r.value.results;
              && fresh(res)
              && res.Length0 == 3 && res.Length1 == numPortfolios
              && (forall i :: 0 <= i < numPortfolios ==>
                    var c := CandidateOf(st, draws[i], rf, m);
                    res[0, i] == c.ret && res[1, i] == c.std && res[2, i] == c.sharpe)
              && (exists k :: 0 <= k < numPortfolios && FirstMaxSharpe(st, draws, rf, m, k) &&
                    r.value.maxSharpe == Report(st, CandidateOf(st, draws[k], rf, m)))
              && (exists k :: 0 <= k < numPortfolios && FirstMinVol(st, draws, rf, m, k) &&
                    r.value.minVol == Report(st, CandidateOf(st, draws[k], rf, m)))
  {
    var prepared := PrepareReturns(t, m.ln);
    if prepared.None? {
      return None;
    }
    var st := Annualise(prepared.value);
    assert st == StatisticsOf(t, draws, m);
    var results, weightsRecord := Simulate(st, draws, rf, m);
    var maxSharpeIdx := ArgMax(results, 2);
    var minVolIdx := ArgMin(results, 1);
    var maxSharpe := Portfolio(results[0, maxSharpeIdx], results[1, maxSharpeIdx], results[2, maxSharpeIdx],
                               Zip(st.assets, weightsRecord[maxSharpeIdx]));
    var minVol := Portfolio(results[0, minVolIdx], results[1, minVolIdx], results[2, minVolIdx],
                            Zip(st.assets, weightsRecord[minVolIdx]));
    ArgMaxSharpe(st, draws, rf, m, results, maxSharpeIdx);
    ArgMinVol(st, draws, rf, m, results, minVolIdx);
    assert maxSharpe == Report(st, CandidateOf(st, draws[maxSharpeIdx], rf, m));
    assert minVol == Report(st, CandidateOf(st, draws[minVolIdx], rf, m));
    return Some(Optimum(results, maxSharpe, minVol));
  }

  /** The reported form of a candidate: its weights paired with the labels. */
  function Report(st: Statistics, c: Candidate): (p: Portfolio)
    requires |c.weights| == |st.assets|
    ensures p.ret == c.ret && p.std == c.std && p.sharpe == c.sharpe
    ensures |p.weights| == |st.assets|
    ensures forall i :: 0 <= i < |st.assets| ==> p.weights[i] == (st.assets[i], c.weights[i])
  {
    Portfolio(c.ret, c.std, c.sharpe, Zip(st.assets, c.weights))
  }

  /** Candidate `k` has the largest Sharpe ratio, and no earlier one ties it. */
  ghost predicate FirstMaxSharpe(st: Statistics, draws: seq<seq<real>>, rf: real, m: Math, k: nat)
    requires WellSized(st) && k < |draws|
    requires forall i :: 0 <= i < |draws| ==> ValidDraw(draws[i], |st.assets|) && DrawStd(st, draws[i], m) != 0.0
  {
    && (forall i :: 0 <= i < |draws| ==>
          CandidateOf(st, draws[i], rf, m).sharpe <= CandidateOf(st, draws[k], rf, m).sharpe)
    && (forall i :: 0 <= i < k ==>
          CandidateOf(st, draws[i], rf, m).sharpe < CandidateOf(st, draws[k], rf, m).sharpe)
  }

  /** Candidate `k` has the smallest volatility, and no earlier one ties it. */
  ghost predicate FirstMinVol(st: Statistics, draws: seq<seq<real>>, rf: real, m: Math, k: nat)
    requires WellSized(st) && k < |draws|
    requires forall i :: 0 <= i < |draws| ==> ValidDraw(draws[i], |st.assets|) && DrawStd(st, draws[i], m) != 0.0
  {
    && (forall i :: 0 <= i < |draws| ==>
          CandidateOf(st, draws[i], rf, m).std >= CandidateOf(st, draws[k], rf, m).std)
    && (forall i :: 0 <= i < k ==>
          CandidateOf(st, draws[i], rf, m).std > CandidateOf(st, draws[k], rf, m).std)
  }

  /** `np.argmax` of a row: the first position of its largest value. */
  method ArgMax(a: array2<real>, row: nat) returns (k: nat)
    requires row < a.Length0 && a.Length1 > 0
    ensures k < a.Length1
    ensures forall j :: 0 <= j < a.Length1 ==> a[row, j] <= a[row, k]
    ensures forall j :: 0 <= j < k ==> a[row, j] < a[row, k]
  {
    k := 0;
    var j := 1;
    while j < a.Length1
      invariant 1 <= j <= a.Length1 && k < j
      invariant forall i :: 0 <= i < j ==> a[row, i] <= a[row, k]
      invariant forall i :: 0 <= i < k ==> a[row, i] < a[row, k]
    {
      if a[row, j] > a[row, k] {
        k := j;
      }
      j := j + 1;
    }
  }

  /** `np.argmin` of a row: the first position of its smallest value. */
  method ArgMin(a: array2<real>, row: nat) returns (k: nat)
    requires row < a.Length0 && a.Length1 > 0
    ensures k < a.Length1
    ensures forall j :: 0 <= j < a.Length1 ==> a[row, j] >= a[row, k]
    ensures forall j :: 0 <= j < k ==> a[row, j] > a[row, k]
  {
    k := 0;
    var j := 1;
    while j < a.Length1
      invariant 1 <= j <= a.Length1 && k < j
      invariant forall i :: 0 <= i < j ==> a[row, i] >= a[row, k]
      invariant forall i :: 0 <= i < k ==> a[row, i] > a[row, k]
    {
      if a[row, j] < a[row, k] {
        k := j;
      }
      j := j + 1;
    }
  }
}
