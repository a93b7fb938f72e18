/** The return transforms of the quantitative engine: choosing the price series
    of a table, turning prices into log returns, and the descriptive statistics
    of a return series (cleaning, mean, sample deviation, annualisation). */
module Returns {
  import opened Numerics
  import opened Tables

  /** Added to the previous price so that a zero price does not divide by zero. */
  const Epsilon: real := 0.000000001

  /** What the log-return transform accepts: a table, or a single series. */
  datatype PriceInput = FrameInput(table: Table) | SeriesInput(series: Series)

  /** The ways choosing the price series ends in an exception. */
  datatype Failure =
    | NoColumns          // `iloc[:, 0]` on a table without columns (IndexError)
    | NotOneDimensional  // a sub-table of several columns reaches `pd.Series` (ValueError)
    | ScalarSqueeze      // a 1x1 sub-table squeezes to a scalar without `.values`
    | RowSqueeze         // a one-row sub-table squeezes to a series over its columns

  datatype Outcome<T> = Ok(value: T) | Fail(failure: Failure)

  /** `DataFrame.squeeze()` followed by the use of the result as a time series. */
  function Squeeze(fr: Frame): (r: Outcome<Series>)
    ensures r.Ok? <==> |fr.columns| == 1 && |fr.index| != 1
    ensures r.Ok? ==> r.value == Series(fr.index, fr.columns[0].1)
    ensures |fr.columns| == 1 && |fr.index| == 1 ==> r == Fail(ScalarSqueeze)
  {
    if |fr.columns| == 1 then
      if |fr.index| == 1 then Fail(ScalarSqueeze) else Ok(Series(fr.index, fr.columns[0].1))
    else if |fr.index| == 1 then Fail(RowSqueeze)
    else Fail(NotOneDimensional)
  }

  /** The price series the transform works on: the named column when the table
      has it, otherwise the first column; a series passes through.  On a
      two-level table `name in df.columns` tests the first level, so a name
      found there selects the whole sub-table, which must squeeze to one
      column. */
  function SelectPriceSeries(input: PriceInput, name: Label): (r: Outcome<Series>)
    ensures r == Fail(NoColumns) <==> input.FrameInput? && ColumnCount(input.table) == 0
    ensures r.Fail? && r.failure != NoColumns ==>
              input.FrameInput? && input.table.Nested? && InLevel0(input.table.columns, name)
  {
    match input
    case SeriesInput(s) => Ok(s)
    case FrameInput(Flat(fr)) =>
      (match Find(fr.columns, name)
       case Some(c) => Ok(Series(fr.index, c))
       case None =>
         if |fr.columns| == 0 then Fail(NoColumns) else Ok(Series(fr.index, fr.columns[0].1)))
    case FrameInput(Nested(index, cols)) =>
      if InLevel0(cols, name) then
        Squeeze(Frame(index, Level0Columns(cols, name)))
      else
        // the `xs` attempt of the source: it cannot succeed here, so the
        // first column is taken
        match CrossSection0(index, cols, name)
        case Some(sub) => Squeeze(sub)
        case None =>
          if |cols| == 0 then Fail(NoColumns) else Ok(Series(index, cols[0].1))
  }

  /** Which column the selection takes, case by case. */
  /** The number of columns of a table, at either nesting. */
  function ColumnCount(t: Table): nat
  {
    match t
    case Flat(fr) => |fr.columns|
    case Nested(_, cols) => |cols|
  }

  lemma SelectPriceSeriesCases(input: PriceInput, name: Label)
    ensures input.SeriesInput? ==> SelectPriceSeries(input, name) == Ok(input.series)
    ensures input.FrameInput? && input.table.Flat? ==>
              var fr := input.table.frame;
              && (HasLabel(fr.columns, name) ==>
                    SelectPriceSeries(input, name) == Ok(Series(fr.index, Find(fr.columns, name).value)))
              && (!HasLabel(fr.columns, name) && |fr.columns| > 0 ==>
                    SelectPriceSeries(input, name) == Ok(Series(fr.index, fr.columns[0].1)))
              && (|fr.columns| == 0 <==> SelectPriceSeries(input, name) == Fail(NoColumns))
    ensures input.FrameInput? && input.table.Nested? ==>
              var t := input.table;
              && (!InLevel0(t.columns, name) && |t.columns| > 0 ==>
                    SelectPriceSeries(input, name) == Ok(Series(t.index, t.columns[0].1)))
              && (InLevel0(t.columns, name) ==>
                    SelectPriceSeries(input, name) == Squeeze(Frame(t.index, Level0Columns(t.columns, name))))
              && (|t.columns| == 0 ==> SelectPriceSeries(input, name) == Fail(NoColumns))
  {
  }

  /** A selected series is one of the table's columns over the table's index:
      the selection never invents or reorders prices. */
  lemma SelectedIsAColumn(input: PriceInput, name: Label)
    requires input.FrameInput? && SelectPriceSeries(input, name).Ok?
    ensures var s := SelectPriceSeries(input, name).value;
            match input.table
            case Flat(fr) => s.index == fr.index && exists i :: 0 <= i < |fr.columns| && fr.columns[i].1 == s.values
            case Nested(index, cols) => s.index == index && exists i :: 0 <= i < |cols| && cols[i].1 == s.values
  {
    var s := SelectPriceSeries(input, name).value;
    match input.table
    case Flat(fr) =>
      if HasLabel(fr.columns, name) {
        var k := FirstIndex(fr.columns, name);
        assert fr.columns[k].1 == s.values;
      } else {
        assert fr.columns[0].1 == s.values;
      }
    case Nested(index, cols) =>
      if InLevel0(cols, name) {
        var sub := Level0Columns(cols, name);
        assert sub[0] in sub;
        var i :| 0 <= i < |cols| && cols[i] == ((name, sub[0].0), sub[0].1);
        assert cols[i].1 == s.values;
      } else {
        assert cols[0].1 == s.values;
      }
  }

  // ---------------------------------------------------------------------------
  // Log returns

  /** A return series: one float per timestamp. */
  datatype ReturnSeries = ReturnSeries(index: seq<int>, values: seq<Float>)

  /** `log(next / (prev + 1e-9))` on two cells; a missing cell gives NaN. */
  function LogRatio(ln: real -> real, next: Cell, prev: Cell): (r: Float)
    ensures next.Missing? || prev.Missing? ==> r == NaN
    ensures r.Finite? <==>
              next.Value? && prev.Value? && prev.v + Epsilon != 0.0 && next.v / (prev.v + Epsilon) > 0.0
    ensures r.Finite? ==> r.v == ln(next.v / (prev.v + Epsilon))
  {
    match (next, prev)
    case (Value(a), Value(b)) => Log(ln, Div(a, b + Epsilon))
    case _ => NaN
  }

  /** The log returns of a price series, labelled by the later timestamp of each pair. */
  function LogReturnsOf(ln: real -> real, s: Series): (r: ReturnSeries)
    requires WellFormedSeries(s)
    ensures |r.values| == |r.index| == (if |s.values| == 0 then 0 else |s.values| - 1)
    ensures |s.index| > 0 ==> r.index == s.index[1..]
    ensures forall t :: 0 <= t < |r.values| ==> r.values[t] == LogRatio(ln, s.values[t + 1], s.values[t])
  {
    if |s.values| == 0 then ReturnSeries([], [])
    else
      ReturnSeries(s.index[1..],
        seq(|s.values| - 1, t requires 0 <= t < |s.values| - 1 => LogRatio(ln, s.values[t + 1], s.values[t])))
  }

  ghost predicate WellFormedInput(input: PriceInput)
  {
    match input
    case SeriesInput(s) => WellFormedSeries(s)
    case FrameInput(t) => RectangularTable(t)
  }

  /** `calculate_log_returns(df, col_name)`. */
  function CalculateLogReturns(ln: real -> real, input: PriceInput, name: Label): (r: Outcome<ReturnSeries>)
    requires WellFormedInput(input)
    ensures r.Ok? <==> SelectPriceSeries(input, name).Ok?
    ensures r.Ok? ==> var s := SelectPriceSeries(input, name).value;
                      |r.value.values| == |r.value.index| == (if |s.values| == 0 then 0 else |s.values| - 1)
  {
    match SelectPriceSeries(input, name)
    case Fail(e) => Fail(e)
    case Ok(s) =>
      SelectedWellFormed(input, name);
      Ok(LogReturnsOf(ln, s))
  }

  lemma SelectedWellFormed(input: PriceInput, name: Label)
    requires WellFormedInput(input) && SelectPriceSeries(input, name).Ok?
    ensures WellFormedSeries(SelectPriceSeries(input, name).value)
  {
    if input.FrameInput? {
      SelectedIsAColumn(input, name);
    }
  }

  /** Every cell is a positive price. */
  ghost predicate PositiveSeries(s: Series)
  {
    forall k :: 0 <= k < |s.values| ==> s.values[k].Value? && s.values[k].v > 0.0
  }

  /** With positive prices every log return is finite and is the logarithm of
      the (regularised) price ratio, so cleaning drops nothing. */
  lemma PositivePricesFiniteReturns(ln: real -> real, s: Series)
    requires WellFormedSeries(s) && PositiveSeries(s)
    ensures var r := LogReturnsOf(ln, s);
            forall t :: 0 <= t < |r.values| ==>
              && r.values[t].Finite?
              && r.values[t] == Finite(ln(s.values[t + 1].v / (s.values[t].v + Epsilon)))
  {
    forall t | 0 <= t < |s.values| - 1
      ensures LogRatio(ln, s.values[t + 1], s.values[t]) == Finite(ln(s.values[t + 1].v / (s.values[t].v + Epsilon)))
    {
      var a, b := s.values[t + 1].v, s.values[t].v + Epsilon;
      QuotientPositive(a, b);
      assert Div(a, b) == Finite(a / b);
    }
  }

  /** A missing price spoils the return into it and the return out of it. */
  lemma MissingPriceSpoilsTwoReturns(ln: real -> real, s: Series, k: nat)
    requires WellFormedSeries(s) && k < |s.values| && s.values[k].Missing?
    ensures var r := LogReturnsOf(ln, s);
            && (k >= 1 ==> r.values[k - 1] == NaN)
            && (k + 1 < |s.values| ==> r.values[k] == NaN)
  {
  }

  // ---------------------------------------------------------------------------
  // Descriptive statistics

  /** The finite values of the data in their order: `data[~isnan(data)]`, then
      `data[~isinf(data)]`. */
  function Clean(data: seq<Float>): (r: seq<real>)
    ensures |r| <= |data|
    ensures |r| == |data| <==> forall k :: 0 <= k < |data| ==> data[k].Finite?
  {
    if |data| == 0 then []
    else (if data[0].Finite? then [data[0].v] else []) + Clean(data[1..])
  }

  /** The values kept are exactly the finite ones. */
  lemma {:induction false} CleanMembers(data: seq<Float>)
    ensures forall x :: x in Clean(data) <==> Finite(x) in data
  {
    if |data| > 0 {
      CleanMembers(data[1..]);
      assert forall y :: y in data <==> y == data[0] || y in data[1..];
    }
  }

  lemma {:induction false} CleanAppend(a: seq<Float>, b: seq<Float>)
    ensures Clean(a + b) == Clean(a) + Clean(b)
  {
    if |a| > 0 {
      CleanAppend(a[1..], b);
      assert (a + b)[1..] == a[1..] + b;
      assert (a + b)[0] == a[0];
      var h := if a[0].Finite? then [a[0].v] else [];
      assert Clean(a + b) == h + Clean(a[1..] + b);
      assert Clean(a) == h + Clean(a[1..]);
      assert h + (Clean(a[1..]) + Clean(b)) == (h + Clean(a[1..])) + Clean(b);
    } else {
      assert a + b == b;
    }
  }

  /** Data that is already finite is kept whole. */
  lemma {:induction false} CleanOfFinite(data: seq<Float>)
    requires forall i :: 0 <= i < |data| ==> data[i].Finite?
    ensures |Clean(data)| == |data|
    ensures forall i :: 0 <= i < |data| ==> Clean(data)[i] == data[i].v
  {
    if |data| > 0 {
      CleanOfFinite(data[1..]);
      assert Clean(data) == [data[0].v] + Clean(data[1..]);
      forall i | 1 <= i < |data| ensures Clean(data)[i] == data[i].v {
        assert data[i] == data[1..][i - 1];
      }
    }
  }

  /** Nothing is left exactly when no value is finite. */
  lemma CleanEmptyIff(data: seq<Float>)
    ensures |Clean(data)| == 0 <==> forall i :: 0 <= i < |data| ==> !data[i].Finite?
  {
    CleanMembers(data);
    if |Clean(data)| == 0 {
      forall i | 0 <= i < |data| ensures !data[i].Finite? {
        assert data[i] in data;
      }
    } else {
      assert Clean(data)[0] in Clean(data);
    }
  }

  /** The descriptive statistics table; `NotEnoughData` is the error marker. */
  datatype Report =
    | NotEnoughData
    | Report(
        annualizedReturn: real,
        annualizedVolatility: Float,
        skewness: real,
        excessKurtosis: real,
        dailyVaR95: real)

  /** The statistics of a non-empty clean sample; the sample deviation of a
      single value is NaN. */
  function Summary(m: Math, clean: seq<real>): (r: Report)
    requires |clean| > 0
    ensures r.Report?
    ensures r.annualizedReturn == TradingDays * Mean(clean)
    ensures r.annualizedVolatility.Finite? <==> |clean| >= 2
    ensures |clean| >= 2 ==> r.annualizedVolatility.v == SampleStd(clean, m) * m.sqrt(TradingDays)
  {
    var std := if |clean| >= 2 then Finite(SampleStd(clean, m)) else NaN;
    Report(
      annualizedReturn := Mean(clean) * TradingDays,
      annualizedVolatility := Times(std, m.sqrt(TradingDays)),
      skewness := m.skew(clean),
      excessKurtosis := m.kurtosis(clean),
      dailyVaR95 := m.percentile(clean, 5.0))
  }

  /** `calculate_descriptive_stats(returns)`: statistics of the finite values
      only; when none is left, the "Not enough data" marker. */
  function DescriptiveStats(m: Math, data: seq<Float>): (r: Report)
    ensures r.NotEnoughData? <==> |Clean(data)| == 0
    ensures r.NotEnoughData? <==> forall i :: 0 <= i < |data| ==> !data[i].Finite?
    ensures r.Report? ==> r.annualizedReturn == TradingDays * Mean(Clean(data))
    ensures r.Report? ==> (r.annualizedVolatility.Finite? <==> |Clean(data)| >= 2)
    ensures r.Report? ==> r == Summary(m, Clean(data))
  {
    CleanEmptyIff(data);
    if |Clean(data)| == 0 then NotEnoughData else Summary(m, Clean(data))
  }

  /** A NaN or an infinity anywhere in the data changes no statistic. */
  lemma StatsIgnoreNonFinite(m: Math, a: seq<Float>, x: Float, b: seq<Float>)
    requires !x.Finite?
    ensures DescriptiveStats(m, a + [x] + b) == DescriptiveStats(m, a + b)
  {
    CleanAppend(a + [x], b);
    CleanAppend(a, [x]);
    CleanAppend(a, b);
    assert Clean([x]) == [];
    assert Clean(a + [x] + b) == Clean(a + b);
  }

  /** With a lawful square root the annualised volatility of a sample of two
      or more values is non-negative, and zero exactly when the sample is
      constant. */
  lemma VolatilityZeroIff(m: Math, clean: seq<real>)
    requires Lawful(m) && |clean| >= 2
    ensures Summary(m, clean).annualizedVolatility.v >= 0.0
    ensures Summary(m, clean).annualizedVolatility.v == 0.0 <==> Constant(clean)
  {
    StdZeroIff(clean, m);
    SqrtZeroIff(m, TradingDays);
    ScaledSign(SampleStd(clean, m), m.sqrt(TradingDays));
  }
}
