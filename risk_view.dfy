/** The risk-analysis view of one ticker: the cleaned single-asset table, the
    minimum-history guard, and the ratings shown on the four metric cards. */
module RiskView {
  import opened Numerics
  import opened Tables
  import opened RiskMetrics

  /** `get_single_ticker_df(df, ticker)`: the single-asset table of the ticker
      (level 0, then level 1, or the flat table as it is) with every row that
      has a missing cell removed; None when the ticker is at neither level. */
  function SingleTickerDf(t: Table, ticker: Label): (r: Option<Frame>)
    requires RectangularTable(t)
    ensures r.Some? <==> TickerFrame(t, ticker).Some?
    ensures r.Some? ==> Rectangular(r.value) && NoMissing(r.value)
    ensures r.Some? ==> r.value == DropNa(TickerFrame(t, ticker).value)
  {
    TickerFrameRectangular(t, ticker);
    match TickerFrame(t, ticker)
    case None => None
    case Some(fr) => Some(DropNa(fr))
  }

  /** The cleaned table holds exactly the complete rows of the extracted one,
      in their original order, under the same labels. */
  lemma SingleTickerDfRows(t: Table, ticker: Label)
    requires RectangularTable(t) && SingleTickerDf(t, ticker).Some?
    ensures var fr := TickerFrame(t, ticker).value;
            var rows := CompleteRows(fr.columns, |fr.index|);
            var r := SingleTickerDf(t, ticker).value;
            && r.index == Pick(fr.index, rows)
            && |r.columns| == |fr.columns|
            && (forall i :: 0 <= i < |fr.columns| ==>
                  r.columns[i] == (fr.columns[i].0, Pick(fr.columns[i].1, rows)))
            && (forall k :: 0 <= k < |fr.index| ==> (k in rows <==> RowComplete(fr.columns, k)))
            && (forall j, k :: 0 <= j < k < |rows| ==> rows[j] < rows[k])
  {
    TickerFrameRectangular(t, ticker);
    DropNaKeepsCompleteRows(TickerFrame(t, ticker).value);
  }

  /** Cleaning again changes nothing. */
  lemma SingleTickerDfClean(t: Table, ticker: Label)
    requires RectangularTable(t) && SingleTickerDf(t, ticker).Some?
    ensures DropNa(SingleTickerDf(t, ticker).value) == SingleTickerDf(t, ticker).value
  {
    TickerFrameRectangular(t, ticker);
    DropNaIdempotent(TickerFrame(t, ticker).value);
  }

  /** Fewest complete rows the risk view accepts for a ticker. */
  const MinimumRows: nat := 30

  /** The Sharpe-ratio rating. */
  datatype SharpeRating = Excellent | Good | Suboptimal

  /** `>= 2.0` is excellent, `>= 1.0` good, anything else (NaN included)
      suboptimal. */
  function RateSharpe(sharpe: Float): (rating: SharpeRating)
    ensures rating == Excellent <==> AtLeast(sharpe, 2.0)
    ensures rating == Good <==> AtLeast(sharpe, 1.0) && !AtLeast(sharpe, 2.0)
    ensures rating == Suboptimal <==> !AtLeast(sharpe, 1.0)
  {
    if AtLeast(sharpe, 2.0) then Excellent
    else if AtLeast(sharpe, 1.0) then Good
    else Suboptimal
  }

  /** Only an excellent or a good rating is shown in the positive colour. */
  function SharpePositive(rating: SharpeRating): bool
  {
    rating != Suboptimal
  }

  function Rank(rating: SharpeRating): nat
  {
    match rating
    case Suboptimal => 0
    case Good => 1
    case Excellent => 2
  }

  /** A higher Sharpe ratio never gets a lower rating; the positive card is the
      Sharpe ratio reaching 1; a NaN ratio is suboptimal. */
  lemma RateSharpeMonotone(a: real, b: real)
    requires a <= b
    ensures Rank(RateSharpe(Finite(a))) <= Rank(RateSharpe(Finite(b)))
    ensures SharpePositive(RateSharpe(Finite(a))) <==> a >= 1.0
    ensures RateSharpe(NaN) == Suboptimal
  {
  }

  /** The four cards of the risk view: the Sharpe rating and whether the
      Sortino card, the drawdown card and the volatility card are positive. */
  datatype Cards = Cards(sharpe: SharpeRating, sortinoPositive: bool, drawdownSafe: bool, volatilityStable: bool)

  function CardsOf(mt: Metrics): (c: Cards)
    ensures c.sharpe == RateSharpe(mt.sharpe)
    ensures c.sortinoPositive <==> AtLeast(mt.sortino, 1.0)
    ensures c.drawdownSafe <==> mt.maxDrawdown > -0.20
    ensures c.volatilityStable <==> mt.volatility < 0.30
  {
    Cards(RateSharpe(mt.sharpe), AtLeast(mt.sortino, 1.0), mt.maxDrawdown > -0.20, mt.volatility < 0.30)
  }

  /** The Sortino card is positive for the ratio as computed exactly when it is
      for the intended ratio: the NaN of the source and the intended 0 both
      fall short of 1. */
  lemma SortinoCardUnaffected(r: seq<real>, rf: real, m: Math)
    requires |r| >= 1
    ensures AtLeast(SortinoAsWritten(r, rf, m), 1.0) <==> SortinoRatio(r, rf, m) >= 1.0
  {
  }

  /** The risk profile of one ticker: skipped (None) when the cleaned table is
      missing or has fewer than 30 rows, or (where the source raises KeyError)
      when it has no price field; otherwise the metrics of the cleaned table
      and its cards. */
  function RiskProfile(t: Table, ticker: Label, rf: real, m: Math): (r: Option<(Metrics, Cards)>)
    requires RectangularTable(t) && PositivePricesTable(t)
    ensures r.Some? <==>
              SingleTickerDf(t, ticker).Some? && |SingleTickerDf(t, ticker).value.index| >= MinimumRows &&
              (HasLabel(SingleTickerDf(t, ticker).value.columns, AdjClose) ||
               HasLabel(SingleTickerDf(t, ticker).value.columns, Close))
    ensures r.Some? ==> r.value.1 == CardsOf(r.value.0)
    ensures r.Some? ==> |r.value.0.drawdown| == |SingleTickerDf(t, ticker).value.index| - 1
    ensures r.Some? ==>
              (TickerFramePositive(t, ticker);
               TickerFrameRectangular(t, ticker);
               DropNaPositive(TickerFrame(t, ticker).value);
               r.value.0 == AdvancedMetrics(SingleTickerDf(t, ticker).value, rf, m).value)
  {
    match SingleTickerDf(t, ticker)
    case None => None
    case Some(fr) =>
      if |fr.index| < MinimumRows then None
      else
        TickerFramePositive(t, ticker);
        TickerFrameRectangular(t, ticker);
        DropNaPositive(TickerFrame(t, ticker).value);
        match AdvancedMetrics(fr, rf, m)
        case None => None
        case Some(mt) => Some((mt, CardsOf(mt)))
  }
}
