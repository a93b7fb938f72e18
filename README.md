# AlphaQuant core in Dafny

This project models the computational core of AlphaQuant, a Streamlit dashboard
for the quantitative analysis of stocks and crypto-assets, and proves properties
of that model. The core covers:

- the return transforms of the engine: choosing the price column, log returns,
  and descriptive statistics after dropping non-finite values;
- the live risk metrics of one asset: simple returns, Sharpe and Sortino
  ratios, and the drawdown series built from cumulative product, running
  maximum and relative distance from the peak;
- the Monte Carlo portfolio optimiser. It prepares annualised statistics, fills
  a 3 x P results array and a weight record in a loop, then scans for the
  maximum-Sharpe and minimum-volatility candidates;
- the Monte Carlo price forecast: geometric Brownian motion calibrated on the
  log growth of the prices, a days x scenarios path grid filled row by row, the
  probability of profit and the value-at-risk label;
- single-asset extraction from a two-level column table (ticker at level 0,
  then level 1) and the row-dropping used by the risk view, with its 30-row
  guard and card ratings;
- the sparkline coordinates of a metric card: min-max normalisation and evenly
  spaced points with an inverted y axis;
- the watchlist session state: the callback that normalises a typed ticker and
  appends it without duplicates, and the default start of the date range.

All quantities are exact reals. Where numpy or pandas produce NaN or an
infinity, the model makes that explicit with `Numerics.Float`. Missing table
cells are `Tables.Cell.Missing`. The library functions (natural logarithm,
exponential, square root, normal inverse CDF, percentile, skewness, kurtosis)
are fields of `Numerics.Math`. Only the lemmas that need it assume
`Numerics.Lawful`: the exponential is positive, the square root is a
non-negative root, and a percentile (0 to 100) of a non-empty sample lies
between its minimum and maximum. Random draws are parameters: the optimiser's `draws` and the
forecast's `uniforms`.

Modules follow the source files:

- `Numerics` holds shared arithmetic and statistics;
- `Tables` holds pandas tables and their lookups;
- `Returns` and `RiskMetrics` model `src/quant_engine.py`, except the optimiser;
- `Optimizer` models `optimize_portfolio`;
- `Forecast` models `src/views/ai_forecast.py`;
- `RiskView` models `src/views/risk.py`;
- `Sparkline` models `src/utils.py`;
- `App` models `app.py`.

Imperative parts of the source are methods. Their `ensures` tie the new state
to specification functions, and lemmas prove what those functions promise:

- `Optimizer.Simulate` fills a `array2<real>`, and `Optimizer.ArgMax` and
  `Optimizer.ArgMin` scan it;
- `Forecast.SimulatePaths` and `Forecast.AdvanceDay` fill the path grid;
- `Sparkline.SparklinePoints` builds the point list;
- `App.Session` has fields updated by `AddTickerCallback`.

The rest is functions and lemmas.

Where the documented behaviour and the code differ, the model follows the code:

- `calculate_descriptive_stats` returns the "Not enough data" marker only when
  no finite value is left (`len(data) == 0`), not when fewer than two are left.
  With one value, its sample deviation is NaN.
- On a two-level table, `col_name in df.columns` tests the first level. So the
  `xs(col_name, level=0)` branch of `calculate_log_returns` is reached only when
  it must fail, and the first column is taken (`Returns.SelectPriceSeries`).
- The live Sortino ratio is NaN when fewer than two returns are negative, as
  `calculate_advanced_metrics` computes it; `RiskMetrics.MetricsOf` keeps that
  value (see "## Findings").

## Model

| member | source | states |
|---|---|---|
| Numerics.Div | src/quant_engine.py:180 | float division is finite exactly when the divisor is non-zero, and then it inverts multiplication; a non-zero value over zero is a signed infinity, and 0/0 is NaN |
| Numerics.Log | src/quant_engine.py:42 | numpy's log is finite exactly on finite positive arguments, and there it is the natural logarithm; log(0) is -inf, a negative argument or NaN gives NaN, log(+inf) is +inf |
| Numerics.MinOf | src/quant_engine.py:195 | the minimum is an element and lies below every element |
| Numerics.MaxOf | src/utils.py:12 | the maximum is an element and lies above every element |
| Numerics.SampleVariance | src/quant_engine.py:72 | the N-1 sample variance is non-negative |
| Numerics.Divided | src/quant_engine.py:262 | elementwise division: each result times the divisor gives back the input |
| Numerics.SumDivided | src/quant_engine.py:262 | dividing every element divides the sum |
| Numerics.MeanShifted | src/quant_engine.py:172-180 | the mean of the excess returns is the mean less the risk-free shift |
| Numerics.VarianceZeroIff | src/views/ai_forecast.py:21 | the sample variance is zero exactly when the sample is constant |
| Numerics.CovarianceDiagonal | src/quant_engine.py:232 | the diagonal of the sample covariance is the sample variance |
| Numerics.StdZeroIff | src/quant_engine.py:72 | with a lawful square root the sample deviation is non-negative and zero exactly for a constant sample |
| Numerics.DotUnit | src/quant_engine.py:270-271 | a dot product with a unit weight vector picks out one element, from either side |
| Numerics.DotLower | src/quant_engine.py:270 | a non-negative weighting of values of at least lo is at least the total weight times lo |
| Numerics.DotUpper | src/quant_engine.py:270 | a non-negative weighting of values of at most hi is at most the total weight times hi |
| Numerics.SimplexBounds | src/quant_engine.py:270 | weights that sum to one average values between their minimum and maximum |
| Tables.FirstIndex | src/views/ai_forecast.py:53 | the position found carries the label and no earlier column does |
| Tables.Find | src/views/ai_forecast.py:53 | a column lookup succeeds exactly when the label exists, and returns a column stored under it |
| Tables.PriceColumn | src/views/ai_forecast.py:52-53 | 'Adj Close' is taken when present, else 'Close'; None exactly when neither exists |
| Tables.Level0Columns | src/views/risk.py:16 | the level-0 cross-section holds exactly the columns with that first label, relabelled by the second |
| Tables.Level1Columns | src/views/risk.py:18 | the level-1 cross-section holds exactly the columns with that second label, relabelled by the first |
| Tables.Level0Append | src/views/risk.py:16 | the level-0 cross-section of a concatenation is the concatenation of the cross-sections, so column order is kept |
| Tables.Level1Append | src/quant_engine.py:217 | the level-1 cross-section keeps column order in the same way, which fixes the asset each weight belongs to |
| Tables.CrossSection0 | src/views/risk.py:16 | `xs(key, level=0)` succeeds exactly when the key is at level 0 |
| Tables.CrossSection1 | src/views/risk.py:18 | `xs(key, level=1)` succeeds exactly when the key is at level 1 |
| Tables.TickerFrame | src/views/risk.py:14-20 | a flat table is kept; on a two-level table the ticker is tried at level 0, then level 1; None exactly when it is at neither |
| Tables.TickerFrameRectangular | src/views/risk.py:14-20 | the extracted table keeps every column as long as the index |
| Tables.CompleteRows | src/views/risk.py:24 | the kept row numbers are increasing, and are exactly the rows without a missing cell |
| Tables.Pick | src/views/risk.py:24 | picked elements are the input at the given positions, in order |
| Tables.DropNa | src/views/risk.py:24 | the cleaned table has no missing cell, the same labels in order, and no more rows |
| Tables.DropNaKeepsCompleteRows | src/views/risk.py:24 | the cleaned index and every cleaned column are the original ones restricted to the complete rows |
| Tables.DropNaOfComplete | src/views/risk.py:24 | a table without missing cells is left unchanged |
| Tables.CompleteRowsAll | src/views/risk.py:24 | when every row is complete, every row number is kept, in order |
| Tables.DropNaIdempotent | src/views/risk.py:24 | dropping twice equals dropping once |
| Tables.TickerFramePositive | src/views/risk.py:14-20 | extraction keeps the prices positive |
| Tables.DropNaPositive | src/views/risk.py:24 | dropping rows keeps the prices positive |
| Returns.Squeeze | src/quant_engine.py:33-34 | a sub-table becomes a series exactly when it has one column and not exactly one row, and keeps its index |
| Returns.SelectPriceSeries | src/quant_engine.py:15-34 | selection fails with "no columns" exactly for a table without columns; any other failure comes from squeezing a level-0 sub-table of a two-level table |
| Returns.SelectPriceSeriesCases | src/quant_engine.py:15-30 | case by case: a series passes through; a flat table gives the named column, else the first column, and fails only without columns; a two-level table squeezes the level-0 sub-table, else takes the first column |
| Returns.SelectedIsAColumn | src/quant_engine.py:15-30 | a selected series is one of the table's columns over the table's index |
| Returns.SelectedWellFormed | src/quant_engine.py:15-30 | a series selected from well-formed input has one value per timestamp |
| Returns.LogReturnsOf | src/quant_engine.py:42-45 | one value fewer than the prices, indexed by the timestamps after the first; value t is log(P[t+1] / (P[t] + 1e-9)), NaN at a missing price |
| Returns.LogRatio | src/quant_engine.py:42 | a missing price gives NaN; the ratio is finite exactly when both prices are present and the regularised ratio is positive, and then it is the log of that ratio |
| Returns.CalculateLogReturns | src/quant_engine.py:7-45 | the transform fails exactly when the selection fails, and otherwise has one value fewer than the selected series |
| Returns.PositivePricesFiniteReturns | src/quant_engine.py:42 | positive prices give only finite log returns, each the log of the regularised ratio |
| Returns.MissingPriceSpoilsTwoReturns | src/quant_engine.py:42 | a missing price makes the return into it and the return out of it NaN |
| Returns.CleanMembers | src/quant_engine.py:60-62 | cleaning keeps exactly the finite values |
| Returns.Clean | src/quant_engine.py:60-62 | cleaning never lengthens the data, and keeps its length exactly when every value is finite |
| Returns.CleanAppend | src/quant_engine.py:60-62 | cleaning a concatenation concatenates the cleaned parts, so order is kept |
| Returns.CleanOfFinite | src/quant_engine.py:60-62 | finite data is kept whole, element by element |
| Returns.CleanEmptyIff | src/quant_engine.py:64-65 | nothing is left exactly when no value is finite |
| Returns.Summary | src/quant_engine.py:70-83 | annualised return is 252 times the mean; annualised volatility is the N-1 deviation times sqrt(252), finite exactly with two or more values |
| Returns.DescriptiveStats | src/quant_engine.py:47-94 | the "Not enough data" marker exactly when no finite value exists, else the statistics of the finite values |
| Returns.StatsIgnoreNonFinite | src/quant_engine.py:60-62 | inserting a NaN or an infinity anywhere changes no statistic |
| Returns.VolatilityZeroIff | src/quant_engine.py:72-75 | the annualised volatility is non-negative and zero exactly for a constant sample |
| RiskMetrics.SimpleReturns | src/quant_engine.py:165 | one value fewer than the prices; each return takes a price to the next, and exceeds -1 |
| RiskMetrics.Ratio | src/quant_engine.py:165 | the price ratio is positive and inverts multiplication |
| RiskMetrics.Growth | src/quant_engine.py:190 | the compounded wealth is positive when every return exceeds -1 |
| RiskMetrics.CumProd | src/quant_engine.py:190 | `cumprod` has one element per return, element t being the wealth after t+1 returns |
| RiskMetrics.Telescope | src/quant_engine.py:190 | the compounded returns times the first price give the later price |
| RiskMetrics.Curve | src/quant_engine.py:190 | the wealth curve is positive, and each value is a later price relative to the first |
| RiskMetrics.CurveTelescopes | src/quant_engine.py:165-190 | the cumulative product of the simple returns is the price relative to the first |
| RiskMetrics.CumProdTelescopes | src/quant_engine.py:190 | every element of the cumulative product telescopes |
| RiskMetrics.Peak | src/quant_engine.py:192 | the running peak is at least the current value |
| RiskMetrics.PeakIsMax | src/quant_engine.py:192 | the running peak is the largest value seen so far and is attained |
| RiskMetrics.PeakMonotone | src/quant_engine.py:192 | the running peak never decreases |
| RiskMetrics.RunningMax | src/quant_engine.py:192 | `cummax` has one running peak per value |
| RiskMetrics.DrawdownSeries | src/quant_engine.py:194 | the drawdown series has one value per curve point, starts at 0, lies in (-1, 0], and each value times its peak is the distance below the peak |
| RiskMetrics.DrawdownAt | src/quant_engine.py:194 | one drawdown lies in (-1, 0] and measures the distance below the peak |
| RiskMetrics.Relative | src/quant_engine.py:194 | the relative distance below a positive peak lies in (-1, 0] and is 0 at the peak |
| RiskMetrics.RelativeBounds | src/quant_engine.py:194 | a positive value at most its peak is less than 100% below it |
| RiskMetrics.StdOf | src/quant_engine.py:176 | `Series.std()` is finite exactly with two or more values |
| RiskMetrics.SharpeRatio | src/quant_engine.py:180 | the Sharpe ratio is finite exactly when the sample deviation of the returns is non-zero |
| RiskMetrics.Negatives | src/quant_engine.py:184 | the negative returns are exactly the returns below zero, each with its multiplicity among the returns |
| RiskMetrics.SharpeNumerator | src/quant_engine.py:172-180 | with a non-zero deviation the Sharpe ratio is finite and equals (mean - rf/252) / std * sqrt(252) |
| RiskMetrics.SortinoAsWritten | src/quant_engine.py:184-186 | as written, the ratio is NaN with fewer than two negative returns, and otherwise equals the intended ratio |
| RiskMetrics.SortinoAsWrittenNaN | src/quant_engine.py:184-186 | daily returns 1% and 2% give a NaN Sortino ratio as written |
| RiskMetrics.DownsideDeviation | src/quant_engine.py:184-185 | the downside deviation is defined exactly with two or more negative returns |
| RiskMetrics.AnnualStdZeroIff | src/quant_engine.py:176 | with a lawful square root the annualised deviation is non-negative, and zero exactly for a constant sample |
| RiskMetrics.SortinoRatio | src/quant_engine.py:184-186 | the ratio is 0 when the downside deviation is zero or undefined, else it times the deviation equals 252 times the mean less rf |
| RiskMetrics.SortinoSentinelIff | src/quant_engine.py:184-186 | the sentinel applies exactly when fewer than two returns are negative or the negative returns are all equal |
| RiskMetrics.MetricsOf | src/quant_engine.py:162-203 | the Sharpe ratio of the simple returns; the Sortino ratio as the source computes it (NaN with fewer than two negative returns, else the intended ratio); the whole drawdown series, one value per return, first value 0; max drawdown its minimum element, in (-1, 0]; the volatility is the annualised sample deviation of the simple returns |
| RiskMetrics.MetricsVolatility | src/quant_engine.py:176 | with a lawful square root the live volatility is non-negative, and zero exactly when every daily return is the same |
| RiskMetrics.AdvancedMetrics | src/quant_engine.py:157-203 | the metrics exist exactly when the table has 'Adj Close' or 'Close', and are the metrics of that column, 'Adj Close' first |
| RiskMetrics.PriceColumnPositive | src/quant_engine.py:163-164 | the chosen price column is complete and positive |
| RiskMetrics.AlignAsWritten | src/quant_engine.py:109-111 | as written, an empty series leaves the other one untruncated |
| RiskMetrics.AlignAsWrittenMismatch | src/quant_engine.py:109-111 | one return against an empty benchmark gives series of lengths 1 and 0 |
| RiskMetrics.AlignRight | src/quant_engine.py:109-111 | both series are cut to the shorter length, and each result is a suffix of its input |
| RiskMetrics.AlignAgrees | src/quant_engine.py:109-111 | the two alignments agree whenever neither series is empty |
| Optimizer.PriceData | src/quant_engine.py:212-222 | a flat table gives None; a two-level table gives the level-1 cross-section of 'Adj Close', else 'Close', and None when neither exists |
| Optimizer.PriceDataWellFormed | src/quant_engine.py:217 | the price table is rectangular, and its prices are positive |
| Optimizer.LogCell | src/quant_engine.py:228 | a log ratio is present exactly when both prices are |
| Optimizer.LogReturnColumn | src/quant_engine.py:228 | the shifted log ratio keeps the length, is missing in the first row, and row k is the log of P[k] / P[k-1] |
| Optimizer.LogReturnFrame | src/quant_engine.py:228 | log returns after `dropna` are complete, keep the asset labels in order, and lose at least the first row |
| Optimizer.FirstRowDropped | src/quant_engine.py:228 | a missing first row is always dropped |
| Optimizer.CompleteRowsMissOne | src/quant_engine.py:228 | one incomplete row makes `dropna` keep fewer rows |
| Optimizer.PrepareReturns | src/quant_engine.py:212-228 | None exactly for a flat table, a missing close field, or fewer than two assets; otherwise the complete log returns with the asset labels |
| Optimizer.ColumnValues | src/quant_engine.py:231-232 | the return matrix has one series per asset, each as long as the index |
| Optimizer.Annualise | src/quant_engine.py:231-232 | asset j's entry is 252 times the mean of its returns, entry (j, k) 252 times the sample covariance of assets j and k; the matrix is symmetric with a non-negative diagonal |
| Optimizer.CovarianceFacts | src/quant_engine.py:232 | sample covariances are symmetric with a non-negative diagonal |
| Optimizer.CrossDeviationsSymmetric | src/quant_engine.py:232 | the sum of cross deviations is symmetric |
| Optimizer.Normalize | src/quant_engine.py:262 | normalised weights are non-negative, proportional to the draw, and sum to 1 |
| Optimizer.PortfolioReturn | src/quant_engine.py:270 | for weights that sum to one the portfolio return lies between the worst and best asset return; held in one asset, it is that asset's return |
| Optimizer.ReturnFacts | src/quant_engine.py:270 | the facts behind the portfolio return's contract: the simplex bound and the one-asset case |
| Optimizer.PortfolioVariance | src/quant_engine.py:271 | a portfolio held in one asset has that asset's variance |
| Optimizer.UnitVariance | src/quant_engine.py:271 | the quadratic form of a unit weight vector is the diagonal entry |
| Optimizer.DrawStdRoot | src/quant_engine.py:261-271 | with a lawful square root the volatility of a draw is a non-negative root of the variance of its normalised weights |
| Optimizer.Assemble | src/quant_engine.py:273-275 | a candidate records its return, volatility and weights, and its Sharpe ratio times its volatility is the return less rf |
| Optimizer.CandidateOf | src/quant_engine.py:261-275 | the weights are the normalised draw (non-negative, summing to 1); the return is the portfolio return of those weights, so it lies between the worst and best asset return; the volatility is that of the draw; Sharpe ratio times volatility is the return less rf |
| Optimizer.NoWeightCap | src/quant_engine.py:257 | the declared 70% cap is not enforced: a draw of 0.9 and 0.1 keeps a weight above 70% |
| Optimizer.Zip | src/quant_engine.py:295 | weights are paired with the asset labels by position |
| Optimizer.StatisticsOf | src/quant_engine.py:228-232 | the statistics used cover at least two assets, and every draw is valid for them |
| Optimizer.Simulate | src/quant_engine.py:251-277 | a fresh 3 x P array: column i holds the return, volatility and Sharpe ratio of candidate i, and entry i of the record holds its weights |
| Optimizer.ArgMax | src/quant_engine.py:284 | `np.argmax` returns the first position of the largest value |
| Optimizer.ArgMin | src/quant_engine.py:287 | `np.argmin` returns the first position of the smallest value |
| Optimizer.ArgMaxSharpe | src/quant_engine.py:284 | the argmax of the Sharpe row is the first candidate of maximum Sharpe ratio |
| Optimizer.ArgMinVol | src/quant_engine.py:287 | the argmin of the volatility row is the first candidate of minimum volatility |
| Optimizer.Report | src/quant_engine.py:291-302 | the reported portfolio carries the candidate's figures and pairs its weights with the labels |
| Optimizer.OptimizePortfolio | src/quant_engine.py:207-303 | None exactly when the returns cannot be prepared; otherwise the results array holds every candidate, and the two reports are the first max-Sharpe and first min-volatility candidates |
| Forecast.SingleTickerData | src/views/ai_forecast.py:37-55 | the ticker's table, then 'Adj Close' when present, else 'Close', over the table's index; None exactly when a lookup fails |
| Forecast.ForecastPrices | src/views/ai_forecast.py:94-98 | a ticker without data or with fewer than 30 prices is skipped |
| Forecast.ForecastPricesAreAColumn | src/views/ai_forecast.py:94-98 | the accepted price series is well formed with at least 30 entries |
| Forecast.LogGrowth | src/views/ai_forecast.py:19 | one log growth per simple return, each the log of 1 + r |
| Forecast.Drift | src/views/ai_forecast.py:20-23 | the drift plus half the variance of the log growth is its mean |
| Forecast.Volatility | src/views/ai_forecast.py:24 | with a lawful square root the volatility is non-negative, and its square is the variance of the log growth |
| Forecast.DailyFactor | src/views/ai_forecast.py:27 | with a lawful exponential a daily factor is positive |
| Forecast.DriftBelowMean | src/views/ai_forecast.py:20-23 | the drift mean - var/2 never exceeds the mean, and equals it exactly for constant log growth |
| Forecast.VolatilityZeroIff | src/views/ai_forecast.py:24 | with a lawful square root the volatility is non-negative and zero exactly for constant log growth |
| Forecast.DailyFactors | src/views/ai_forecast.py:27 | one factor exp(drift + std * ppf(u)) per uniform draw, same shape as the draws |
| Forecast.DailyFactorsPositive | src/views/ai_forecast.py:27 | with a lawful exponential every daily factor is positive |
| Forecast.PathPrice | src/views/ai_forecast.py:30-33 | a path from a positive start through positive factors stays positive |
| Forecast.PathIsProduct | src/views/ai_forecast.py:30-33 | day t of a path is the last price times the factors of days 1 to t |
| Forecast.ProductSnoc | src/views/ai_forecast.py:33 | extending the day range multiplies in one more factor |
| Forecast.RowZeroUnused | src/views/ai_forecast.py:30-33 | the day-0 factors never affect any path |
| Forecast.MatrixColumns | src/views/ai_forecast.py:27 | every scenario column exists on every day of the factor grid |
| Forecast.SimulatePaths | src/views/ai_forecast.py:29-33 | a fresh days x scenarios array whose row 0 is the last price and whose entry (t, s) is day t of path s |
| Forecast.AdvanceDay | src/views/ai_forecast.py:33 | row t becomes the previous row times the day's factors; no other row changes |
| Forecast.RunMonteCarlo | src/views/ai_forecast.py:12-35 | None exactly when fewer than two simple returns exist; otherwise the path grid of the calibrated factors, starting at the last price |
| Forecast.PathsPositive | src/views/ai_forecast.py:27-33 | with a lawful library and positive prices every simulated price is positive |
| Forecast.CountAbove | src/views/ai_forecast.py:115 | the count lies between 0 and the number of scenarios, with each extreme exactly when all or none end above |
| Forecast.CountAboveAntitone | src/views/ai_forecast.py:115 | a higher threshold never counts more scenarios |
| Forecast.ProbUp | src/views/ai_forecast.py:115 | the probability of profit lies in [0, 100]: 100 exactly when every scenario ends above the current price, 0 exactly when none does |
| Forecast.Percentage | src/views/ai_forecast.py:115 | a count over a positive total as a percentage lies in [0, 100], with 100 exactly for the full count and 0 exactly for none |
| Forecast.ProbUpAntitone | src/views/ai_forecast.py:115 | the probability of profit falls as the current price rises |
| Forecast.ScenarioReturns | src/views/ai_forecast.py:118 | each scenario return times the current price is the gain, positive exactly for a profitable scenario |
| Forecast.ProfitableScenarios | src/views/ai_forecast.py:115-118 | the scenarios with a positive return are exactly those ending above the current price |
| Forecast.SameCount | src/views/ai_forecast.py:115-118 | sequences crossing their thresholds at the same positions have equal counts |
| Forecast.ValueAtRisk | src/views/ai_forecast.py:119 | with a lawful percentile the VaR lies between the worst and best scenario return, and exceeds -1 when every scenario ends at a positive price |
| Forecast.LossBelowWhole | src/views/ai_forecast.py:118-119 | a scenario ending at a positive price loses less than 100% |
| Forecast.RiskLabel | src/views/ai_forecast.py:122-130 | extreme risk exactly when abs(VaR) > 0.20, high exactly when 0.10 < abs(VaR) <= 0.20, moderate otherwise |
| Forecast.LevelName | src/views/ai_forecast.py:122-130 | the three labels are distinct, each naming exactly one risk level |
| Forecast.LevelColour | src/views/ai_forecast.py:122-130 | red, orange and green each mark exactly one risk level |
| Forecast.RiskLabelMonotone | src/views/ai_forecast.py:122-130 | a larger VaR in magnitude never gets a milder label, and the sign of VaR does not matter |
| RiskView.SingleTickerDf | src/views/risk.py:11-27 | the cleaned single-asset table exists exactly when the ticker's table does, and is that table with its incomplete rows dropped |
| RiskView.SingleTickerDfRows | src/views/risk.py:24 | the cleaned table keeps exactly the complete rows, in their original order, under the same labels |
| RiskView.SingleTickerDfClean | src/views/risk.py:24 | cleaning the cleaned table changes nothing |
| RiskView.RateSharpe | src/views/risk.py:74-77 | excellent exactly at >= 2.0, good exactly in [1.0, 2.0), suboptimal otherwise (NaN included) |
| RiskView.RateSharpeMonotone | src/views/risk.py:75-79 | a higher Sharpe ratio never rates lower; the positive colour is exactly a ratio of at least 1; NaN is suboptimal |
| RiskView.CardsOf | src/views/risk.py:74-93 | Sortino is positive exactly at >= 1.0 (never for NaN); drawdown is safe exactly above -0.20; volatility is stable exactly below 0.30 |
| RiskView.SortinoCardUnaffected | src/views/risk.py:81-82 | the Sortino card has the same colour for the ratio as computed and for the intended ratio |
| RiskView.RiskProfile | src/views/risk.py:54-61 | metrics exist exactly when the cleaned table exists, has at least 30 rows and has a price field; they are the advanced metrics of the cleaned table, and the cards are those of the metrics |
| Sparkline.Present | src/utils.py:9 | removing NaN never adds values |
| Sparkline.PresentMembers | src/utils.py:9 | the kept values are exactly the present ones, and all are kept when none is missing |
| Sparkline.PresentAppend | src/utils.py:9 | removing NaN commutes with concatenation, so order is kept |
| Sparkline.Normalised | src/utils.py:12-14 | values land in [0, 1]; all zeros for a constant series, else (v - min) / (max - min) |
| Sparkline.Zeros | src/utils.py:13 | `zeros_like` gives zeros of the same length |
| Sparkline.Rescaled | src/utils.py:14 | a rescaled value lies in [0, 1], and times the spread it gives the distance from the minimum |
| Sparkline.SpreadZeroIff | src/utils.py:12-13 | the minimum equals the maximum exactly for a constant series |
| Sparkline.NormalisedExtremes | src/utils.py:12-14 | outside the constant case the minimum maps to 0, the maximum to 1, and order is kept |
| Sparkline.RescaledExtremes | src/utils.py:14 | rescaling sends the bounds to 0 and 1 and keeps order |
| Sparkline.NormalisedZeroIff | src/utils.py:12-14 | normalisation gives all zeros exactly for a constant series |
| Sparkline.Points | src/utils.py:16-21 | there is one point per normalised value |
| Sparkline.PointX | src/utils.py:19 | for two or more points, x times (n - 1) is i times the width; a single point sits at 0 |
| Sparkline.PointY | src/utils.py:20 | a normalised value in [0, 1] lands in [0, height], 1 at the top and 0 at the bottom |
| Sparkline.PointYAntitone | src/utils.py:20 | a larger normalised value is drawn no lower, and strictly higher on a canvas of positive height |
| Sparkline.SparklinePoints | src/utils.py:16-21 | the loop builds exactly the point list: point i is (i * width / (n-1), height - v_i * height), in order |
| Sparkline.PointsSpanWidth | src/utils.py:19 | x runs from 0 to the width, strictly increasing |
| Sparkline.PointsInsideCanvas | src/utils.py:20 | y lies in [0, height]: 0 for a normalised 1, the height for a normalised 0 |
| Sparkline.PointsShape | src/utils.py:16-21 | points span the canvas, stay inside it, and lie along the bottom exactly when every value is zero |
| Sparkline.Sparkline | src/utils.py:5-24 | a sparkline is drawn exactly from two or more values with two or more present, with one point per present value |
| Sparkline.SparklineShape | src/utils.py:5-24 | the sparkline spans the canvas, stays inside it, and is flat along the bottom exactly for a constant series |
| Sparkline.GenerateSparkline | src/utils.py:5-24 | the routine with its point loop computes the specified sparkline |
| Sparkline.MetricCard | src/utils.py:26-34 | the colour class is "positive" exactly for a positive card; a sparkline is drawn exactly from more than two data points with two present |
| App.FirstNonSpace | app.py:55 | leading whitespace ends at the first non-space character |
| App.EndNonSpace | app.py:55 | trailing whitespace starts after the last non-space character |
| App.Strip | app.py:55 | the stripped text has no surrounding whitespace and is a slice of the input with only whitespace cut off |
| App.SeparatorStripped | app.py:55 | a leading information separator U+001C counts as whitespace: the typed text "\x1caapl" becomes "AAPL" |
| App.Upper | app.py:55 | upper-casing keeps the length and maps every character |
| App.UpperChar | app.py:55 | an upper-cased character is no lower-case letter and no new whitespace |
| App.NormalizeTicker | app.py:55 | the candidate has no lower-case letter and no surrounding whitespace, and is empty exactly when the input is all whitespace |
| App.BlankIff | app.py:55-56 | stripping gives the empty string exactly for an all-whitespace input |
| App.NormalizeIdempotent | app.py:55 | normalising twice equals normalising once |
| App.StripClean | app.py:55 | a string without surrounding whitespace is its own strip |
| App.UpperIdempotent | app.py:55 | upper-case text is its own upper-casing |
| App.AddTicker | app.py:54-59 | a blank input changes nothing; a new ticker is appended; a listed one leaves the list; the input is cleared whenever the ticker is not blank |
| App.AddTickerInvariant | app.py:56-58 | adding keeps the list free of duplicates, keeps every entry at its position, grows it by at most one, and then holds the ticker |
| App.AddTickerTwice | app.py:57-58 | adding the same input twice changes the list only once |
| App.Session.constructor | app.py:49-50 | a new session starts with BTC-USD, ETH-USD and AAPL and an empty input box |
| App.Session.AddTickerCallback | app.py:54-59 | the callback updates watchlist and input box as specified and keeps the list free of duplicates |
| App.DefaultStart | app.py:112-114 | the start is 59 days back exactly for an intraday interval, and 365 days back otherwise |
| App.DefaultRangeOfOptions | app.py:107-114 | of the offered intervals exactly the first four are intraday, and the default interval gets a year |

## Left out

- Downloading (yfinance), the interactive command-line loop, Streamlit
  rendering, plotting, HTML/SVG text, CSS, navigation and the watchlist
  multiselect sync are I/O or framework state. They are not part of this model.
- The behaviour of log, exp, sqrt, the normal inverse CDF, skewness, kurtosis
  and percentile interpolation is kept abstract. Beyond `Numerics.Lawful`
  nothing about them is modelled, so the forecast's mean, bull and bear prices
  and the descriptive statistics' skewness, kurtosis and VaR are named but not
  characterised. The forecast's VaR is bounded only through the percentile law.
- Float rounding, `round(...)` and `%` formatting are left out; quantities are exact reals.
- Randomness is injected: the optimiser takes its weight draws and the
  forecast its uniform draws as parameters.
- The shadowed first `calculate_advanced_metrics` (src/quant_engine.py:98-153)
  is dead code. Only its series alignment is modelled; its Sharpe, Sortino,
  drawdown, beta and alpha are left out.
- The source repeats the optimiser's preparation block. It has no effect, so
  the model prepares the returns once.
- `Returns.SelectPriceSeries`: when a two-level table's first level holds the
  name but the sub-table has one row, pandas squeezes it to a series over the
  column labels. The model reports this as the failure `RowSqueeze` rather
  than building that series.
- Duplicate column labels are not modelled; a lookup takes the first match.
- `RiskMetrics.MetricsOf` requires three or more complete positive prices. Its
  only caller guarantees 30 complete rows, and prices are assumed positive.
  `pct_change` over missing or zero prices is not modelled.
- `Forecast.RunMonteCarlo` requires complete positive prices and at least one
  forecast day. The view's prices may contain gaps (`pct_change().dropna()`);
  that case is not modelled.
- The forecast's terminal summary takes the last row of the grid as a sequence.
  Its denominator is the number of scenarios, which equals `num_sim`.
- `Optimizer.OptimizePortfolio` requires the following, because the source
  divides without a guard or indexes an empty array:
  - positive prices;
  - at least two complete return rows;
  - at least one portfolio;
  - draws in [0, 1) whose sum is positive;
  - a non-zero volatility for every draw.
- `RiskMetrics.SharpeRatio` divides without a guard. A constant return series
  gives an infinity or NaN through `Numerics.Div`; no sentinel is invented.
- `App.Strip` and `App.Upper` handle ASCII whitespace and ASCII letters only.
  `App.IsSpace` holds the ten ASCII characters `str.strip()` removes (space,
  tab, line feed, carriage return, vertical tab, form feed, U+001C to U+001F);
  non-ASCII whitespace and Unicode case mapping are not modelled.
- The risk view's KeyError on a missing price field is modelled as None.
- The live drawdown starts its wealth curve after the first return, so the
  first price is never a peak. The model keeps this behaviour as written.
- Infinite values in sparkline data are not modelled: cells are present or missing.
- `Optimizer.PortfolioVariance`: its non-negativity for arbitrary weights
  (the covariance matrix is positive semidefinite) is not proved; the
  optimiser requires a non-zero volatility for every draw instead.

## Findings

| source | as written | input that shows it | evidently intended | confidence | as-written member | corrected member |
|---|---|---|---|---|---|---|
| src/quant_engine.py:184-186 | `negative_returns.std()` is NaN with fewer than two negative returns; `NaN != 0` holds, so the Sortino ratio is NaN | daily returns 1% and 2% (no negative return) | the 0 sentinel whenever the downside deviation is zero or undefined | not executed | RiskMetrics.SortinoAsWritten | RiskMetrics.SortinoRatio |
| src/quant_engine.py:109-111 | `returns[-min_len:]` with `min_len == 0` is `returns[0:]`, the whole series | one return against an empty benchmark | both series cut to the shorter length (here both empty) | not executed | RiskMetrics.AlignAsWritten | RiskMetrics.AlignRight |

The risk view shows the Sortino ratio as the code computes it, so
`RiskMetrics.MetricsOf` carries `RiskMetrics.SortinoAsWritten`, and its
contract states that this equals the intended `RiskMetrics.SortinoRatio`
whenever two or more returns are negative. `RiskView.SortinoCardUnaffected`
proves that the card rating (`>= 1.0`) is the same under both definitions.
