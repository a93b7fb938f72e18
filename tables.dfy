/** Price tables as the data collaborator delivers them: columns over a shared
    time index, labelled either by one label (a single asset: 'Open', 'Close',
    ...) or by a pair of labels (ticker and field, in either nesting order).
    Column order is kept, because the engine falls back to "the first column"
    and pairs tickers with weights by position. */
module Tables {
  import opened Numerics

  type Label = string

  /** One cell of a price table: a number, or missing (NaN). */
  datatype Cell = Value(v: real) | Missing

  type Column = seq<Cell>

  /** A table with one level of column labels. */
  datatype Frame = Frame(index: seq<int>, columns: seq<(Label, Column)>)

  /** A downloaded table: flat, or with two-level column labels. */
  datatype Table =
    | Flat(frame: Frame)
    | Nested(index: seq<int>, columns: seq<((Label, Label), Column)>)

  /** One column together with the time index. */
  datatype Series = Series(index: seq<int>, values: seq<Cell>)

  const AdjClose: Label := "Adj Close"
  const Close: Label := "Close"

  /** Every column of the frame is as long as the index. */
  ghost predicate Rectangular(fr: Frame)
  {
    forall i :: 0 <= i < |fr.columns| ==> |fr.columns[i].1| == |fr.index|
  }

  ghost predicate RectangularTable(t: Table)
  {
    match t
    case Flat(fr) => Rectangular(fr)
    case Nested(index, cols) => forall i :: 0 <= i < |cols| ==> |cols[i].1| == |index|
  }

  ghost predicate WellFormedSeries(s: Series)
  {
    |s.index| == |s.values|
  }

  // ---------------------------------------------------------------------------
  // Looking up columns

  /** `name in df.columns` for a flat table. */
  predicate HasLabel(cols: seq<(Label, Column)>, name: Label)
  {
    exists i :: 0 <= i < |cols| && cols[i].0 == name
  }

  /** The position of the first column carrying `name`, or |cols| when none does. */
  function FirstIndex(cols: seq<(Label, Column)>, name: Label): (k: nat)
    ensures k <= |cols|
    ensures k < |cols| ==> cols[k].0 == name
    ensures forall j :: 0 <= j < k ==> cols[j].0 != name
  {
    if |cols| == 0 then 0
    else if cols[0].0 == name then 0
    else 1 + FirstIndex(cols[1..], name)
  }

  /** `df[name]` on a flat table: the column, or None where pandas raises KeyError. */
  function Find(cols: seq<(Label, Column)>, name: Label): (r: Option<Column>)
    ensures r.Some? <==> HasLabel(cols, name)
    ensures r.Some? ==> (name, r.value) in cols
  {
    var k := FirstIndex(cols, name);
    if k < |cols| then Some(cols[k].1) else None
  }

  /** The canonical price field: adjusted close when present, else close. */
  function PriceLabel(hasAdjClose: bool): Label
  {
    if hasAdjClose then AdjClose else Close
  }

  /** `data['Adj Close' if 'Adj Close' in data.columns else 'Close']`; None where
      the lookup raises KeyError. */
  function PriceColumn(cols: seq<(Label, Column)>): (r: Option<Column>)
    ensures r.Some? <==> HasLabel(cols, AdjClose) || HasLabel(cols, Close)
    ensures HasLabel(cols, AdjClose) ==> r == Find(cols, AdjClose)
    ensures !HasLabel(cols, AdjClose) ==> r == Find(cols, Close)
  {
    Find(cols, PriceLabel(HasLabel(cols, AdjClose)))
  }

  /** Some column's first-level label is `key`. */
  predicate InLevel0(cols: seq<((Label, Label), Column)>, key: Label)
  {
    exists i :: 0 <= i < |cols| && cols[i].0.0 == key
  }

  /** Some column's second-level label is `key`. */
  predicate InLevel1(cols: seq<((Label, Label), Column)>, key: Label)
  {
    exists i :: 0 <= i < |cols| && cols[i].0.1 == key
  }

  /** The columns whose first-level label is `key`, relabelled by their second
      level, in their original order. */
  function Level0Columns(cols: seq<((Label, Label), Column)>, key: Label): (r: seq<(Label, Column)>)
    ensures forall p :: p in r <==> ((key, p.0), p.1) in cols
  {
    if |cols| == 0 then []
    else
      var rest := Level0Columns(cols[1..], key);
      assert forall q :: q in cols <==> q == cols[0] || q in cols[1..];
      if cols[0].0.0 == key then [(cols[0].0.1, cols[0].1)] + rest else rest
  }

  /** The columns whose second-level label is `key`, relabelled by their first
      level, in their original order. */
  function Level1Columns(cols: seq<((Label, Label), Column)>, key: Label): (r: seq<(Label, Column)>)
    ensures forall p :: p in r <==> ((p.0, key), p.1) in cols
  {
    if |cols| == 0 then []
    else
      var rest := Level1Columns(cols[1..], key);
      assert forall q :: q in cols <==> q == cols[0] || q in cols[1..];
      if cols[0].0.1 == key then [(cols[0].0.0, cols[0].1)] + rest else rest
  }

  /** `df.xs(key, level=0, axis=1)`: None where pandas raises KeyError. */
  function CrossSection0(index: seq<int>, cols: seq<((Label, Label), Column)>, key: Label): (r: Option<Frame>)
    ensures r.Some? <==> InLevel0(cols, key)
    ensures r.Some? ==> r.value == Frame(index, Level0Columns(cols, key))
  {
    var sub := Level0Columns(cols, key);
    if InLevel0(cols, key) then
      Some(Frame(index, sub))
    else
      None
  }

  /** `df.xs(key, level=1, axis=1)`: None where pandas raises KeyError. */
  function CrossSection1(index: seq<int>, cols: seq<((Label, Label), Column)>, key: Label): (r: Option<Frame>)
    ensures r.Some? <==> InLevel1(cols, key)
    ensures r.Some? ==> r.value == Frame(index, Level1Columns(cols, key))
  {
    var sub := Level1Columns(cols, key);
    if InLevel1(cols, key) then
      Some(Frame(index, sub))
    else
      None
  }

  /** The level-0 cross-section of a concatenation is the concatenation of
      the cross-sections, so the original column order is kept. */
  lemma {:induction false} Level0Append(a: seq<((Label, Label), Column)>, b: seq<((Label, Label), Column)>, key: Label)
    ensures Level0Columns(a + b, key) == Level0Columns(a, key) + Level0Columns(b, key)
  {
    if |a| == 0 {
      assert a + b == b;
    } else {
      assert (a + b)[0] == a[0];
      assert (a + b)[1..] == a[1..] + b;
      Level0Append(a[1..], b, key);
    }
  }

  /** The level-1 cross-section keeps the original column order in the same way. */
  lemma {:induction false} Level1Append(a: seq<((Label, Label), Column)>, b: seq<((Label, Label), Column)>, key: Label)
    ensures Level1Columns(a + b, key) == Level1Columns(a, key) + Level1Columns(b, key)
  {
    if |a| == 0 {
      assert a + b == b;
    } else {
      assert (a + b)[0] == a[0];
      assert (a + b)[1..] == a[1..] + b;
      Level1Append(a[1..], b, key);
    }
  }

  /** The single-asset table of `ticker` (the extraction shared by the forecast
      and the risk views): on a two-level table the ticker is looked up at
      level 0 and then at level 1; a flat table is used as it is; a ticker at
      neither level gives None. */
  function TickerFrame(t: Table, ticker: Label): (r: Option<Frame>)
    ensures t.Flat? ==> r == Some(t.frame)
    ensures t.Nested? ==> (r.Some? <==> InLevel0(t.columns, ticker) || InLevel1(t.columns, ticker))
    ensures t.Nested? && InLevel0(t.columns, ticker) ==>
              r == Some(Frame(t.index, Level0Columns(t.columns, ticker)))
    ensures t.Nested? && !InLevel0(t.columns, ticker) && InLevel1(t.columns, ticker) ==>
              r == Some(Frame(t.index, Level1Columns(t.columns, ticker)))
  {
    match t
    case Flat(fr) => Some(fr)
    case Nested(index, cols) =>
      match CrossSection0(index, cols, ticker)
      case Some(fr) => Some(fr)
      case None => CrossSection1(index, cols, ticker)
  }

  /** The extracted table keeps the shape of the download. */
  lemma TickerFrameRectangular(t: Table, ticker: Label)
    requires RectangularTable(t)
    ensures TickerFrame(t, ticker).Some? ==> Rectangular(TickerFrame(t, ticker).value)
  {
    if t.Nested? && TickerFrame(t, ticker).Some? {
      var fr := TickerFrame(t, ticker).value;
      forall i | 0 <= i < |fr.columns| ensures |fr.columns[i].1| == |fr.index| {
        var p := fr.columns[i];
        assert p in fr.columns;
        if InLevel0(t.columns, ticker) {
          assert ((ticker, p.0), p.1) in t.columns;
        } else {
          assert ((p.0, ticker), p.1) in t.columns;
        }
      }
    }
  }

  // ---------------------------------------------------------------------------
  // Dropping incomplete rows

  /** Row `k` has a value in every column. */
  predicate RowComplete(cols: seq<(Label, Column)>, k: nat)
  {
    forall i :: 0 <= i < |cols| ==> k < |cols[i].1| && cols[i].1[k].Value?
  }

  /** The complete rows among the first `n`, in increasing order. */
  function CompleteRows(cols: seq<(Label, Column)>, n: nat): (rows: seq<nat>)
    ensures forall j :: 0 <= j < |rows| ==> rows[j] < n && RowComplete(cols, rows[j])
    ensures forall j, k :: 0 <= j < k < |rows| ==> rows[j] < rows[k]
    ensures forall k :: 0 <= k < n && RowComplete(cols, k) ==> k in rows
    ensures |rows| <= n
  {
    if n == 0 then []
    else CompleteRows(cols, n - 1) + (if RowComplete(cols, n - 1) then [n - 1] else [])
  }

  /** The elements of `s` at the given positions. */
  function Pick<T>(s: seq<T>, rows: seq<nat>): (r: seq<T>)
    requires forall j :: 0 <= j < |rows| ==> rows[j] < |s|
    ensures |r| == |rows|
    ensures forall j :: 0 <= j < |rows| ==> r[j] == s[rows[j]]
  {
    seq(|rows|, j requires 0 <= j < |rows| => s[rows[j]])
  }

  /** The cell values of a complete column. */
  function Values(c: Column): (v: seq<real>)
    requires forall k :: 0 <= k < |c| ==> c[k].Value?
    ensures |v| == |c|
    ensures forall k :: 0 <= k < |c| ==> v[k] == c[k].v
  {
    seq(|c|, k requires 0 <= k < |c| => c[k].v)
  }

  /** No cell of the frame is missing. */
  ghost predicate NoMissing(fr: Frame)
  {
    forall i, k :: 0 <= i < |fr.columns| && 0 <= k < |fr.columns[i].1| ==> fr.columns[i].1[k].Value?
  }

  /** `DataFrame.dropna()`: every row with a missing cell is removed; the other
      rows keep their order, and the labels are unchanged. */
  function DropNa(fr: Frame): (r: Frame)
    requires Rectangular(fr)
    ensures Rectangular(r) && NoMissing(r)
    ensures |r.columns| == |fr.columns|
    ensures forall i :: 0 <= i < |fr.columns| ==> r.columns[i].0 == fr.columns[i].0
    ensures |r.index| <= |fr.index|
  {
    var rows := CompleteRows(fr.columns, |fr.index|);
    var cols := seq(|fr.columns|, i requires 0 <= i < |fr.columns| =>
                   (fr.columns[i].0, Pick(fr.columns[i].1, rows)));
    Frame(Pick(fr.index, rows), cols)
  }

  /** The rows `DropNa` keeps are exactly the complete rows, in their order. */
  lemma DropNaKeepsCompleteRows(fr: Frame)
    requires Rectangular(fr)
    ensures var rows := CompleteRows(fr.columns, |fr.index|);
            && DropNa(fr).index == Pick(fr.index, rows)
            && (forall i :: 0 <= i < |fr.columns| ==> DropNa(fr).columns[i].1 == Pick(fr.columns[i].1, rows))
            && (forall k :: 0 <= k < |fr.index| ==> (k in rows <==> RowComplete(fr.columns, k)))
  {
  }

  lemma {:induction false} CompleteRowsAll(cols: seq<(Label, Column)>, n: nat)
    requires forall k :: 0 <= k < n ==> RowComplete(cols, k)
    ensures CompleteRows(cols, n) == seq(n, k => k)
  {
    if n > 0 {
      CompleteRowsAll(cols, n - 1);
      assert seq(n, k => k) == seq(n - 1, k => k) + [n - 1];
    }
  }

  /** A frame without missing cells is left unchanged, so dropping is idempotent. */
  lemma DropNaOfComplete(fr: Frame)
    requires Rectangular(fr) && NoMissing(fr)
    ensures DropNa(fr) == fr
  {
    var n := |fr.index|;
    forall k | 0 <= k < n ensures RowComplete(fr.columns, k) {
    }
    CompleteRowsAll(fr.columns, n);
    var rows := CompleteRows(fr.columns, n);
    assert Pick(fr.index, rows) == fr.index;
    forall i | 0 <= i < |fr.columns| ensures DropNa(fr).columns[i] == fr.columns[i] {
      assert Pick(fr.columns[i].1, rows) == fr.columns[i].1;
    }
  }

  lemma DropNaIdempotent(fr: Frame)
    requires Rectangular(fr)
    ensures DropNa(DropNa(fr)) == DropNa(fr)
  {
    DropNaOfComplete(DropNa(fr));
  }

  // ---------------------------------------------------------------------------
  // Positive prices

  predicate IsPriceLabel(l: Label)
  {
    l == AdjClose || l == Close
  }

  /** Every present value of the column is positive. */
  ghost predicate PositiveColumn(c: Column)
  {
    forall k :: 0 <= k < |c| && c[k].Value? ==> c[k].v > 0.0
  }

  /** Market prices are positive: every price field of the frame. */
  ghost predicate PositivePrices(fr: Frame)
  {
    forall i :: 0 <= i < |fr.columns| && IsPriceLabel(fr.columns[i].0) ==> PositiveColumn(fr.columns[i].1)
  }

  /** Market prices are positive: every column one of whose labels is a price field. */
  ghost predicate PositivePricesTable(t: Table)
  {
    match t
    case Flat(fr) => PositivePrices(fr)
    case Nested(_, cols) =>
      forall i :: 0 <= i < |cols| && (IsPriceLabel(cols[i].0.0) || IsPriceLabel(cols[i].0.1)) ==>
        PositiveColumn(cols[i].1)
  }

  lemma TickerFramePositive(t: Table, ticker: Label)
    requires PositivePricesTable(t)
    ensures TickerFrame(t, ticker).Some? ==> PositivePrices(TickerFrame(t, ticker).value)
  {
    if t.Nested? && TickerFrame(t, ticker).Some? {
      var fr := TickerFrame(t, ticker).value;
      forall i | 0 <= i < |fr.columns| && IsPriceLabel(fr.columns[i].0)
        ensures PositiveColumn(fr.columns[i].1)
      {
        var p := fr.columns[i];
        assert p in fr.columns;
        if InLevel0(t.columns, ticker) {
          assert ((ticker, p.0), p.1) in t.columns;
        } else {
          assert ((p.0, ticker), p.1) in t.columns;
        }
      }
    }
  }

  lemma DropNaPositive(fr: Frame)
    requires Rectangular(fr) && PositivePrices(fr)
    ensures PositivePrices(DropNa(fr))
  {
    DropNaKeepsCompleteRows(fr);
  }
}
