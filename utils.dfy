/** The sparkline of a metric card: the values of a series without its missing
    entries, min-max normalised onto [0, 1], and laid out as evenly spaced
    points whose y coordinate is inverted (SVG y grows downwards).  Only the
    coordinates are modelled, not the SVG text. */
module Sparkline {
  import opened Numerics
  import opened Tables

  /** The default canvas of a sparkline. */
  const DefaultWidth: real := 200.0
  const DefaultHeight: real := 50.0

  /** `data[~np.isnan(data)]`: the present values, in order. */
  function Present(data: seq<Cell>): (r: seq<real>)
    ensures |r| <= |data|
  {
    if |data| == 0 then [] else (if data[0].Value? then [data[0].v] else []) + Present(data[1..])
  }

  /** Exactly the present values are kept, and all are kept when none is missing. */
  lemma {:induction false} PresentMembers(data: seq<Cell>)
    ensures forall x :: x in Present(data) <==> Value(x) in data
    ensures (forall k :: 0 <= k < |data| ==> data[k].Value?) ==> |Present(data)| == |data|
  {
    if |data| > 0 {
      PresentMembers(data[1..]);
      assert forall c :: c in data <==> c == data[0] || c in data[1..];
      assert forall k :: 1 <= k < |data| ==> data[k] == data[1..][k - 1];
    }
  }

  /** Present values of the concatenation are the present values of each part. */
  lemma {:induction false} PresentAppend(a: seq<Cell>, b: seq<Cell>)
    ensures Present(a + b) == Present(a) + Present(b)
  {
    if |a| == 0 {
      assert a + b == b;
    } else {
      var head := if a[0].Value? then [a[0].v] else [];
      assert (a + b)[0] == a[0];
      assert (a + b)[1..] == a[1..] + b;
      calc {
        Present(a + b);
        head + Present(a[1..] + b);
        { PresentAppend(a[1..], b); }
        head + (Present(a[1..]) + Present(b));
        (head + Present(a[1..])) + Present(b);
        Present(a) + Present(b);
      }
    }
  }

  /** `(data - min) / (max - min)`, or all zeros when the values are all equal. */
  function Normalised(data: seq<real>): (r: seq<real>)
    requires |data| > 0
    ensures |r| == |data|
    ensures forall i :: 0 <= i < |data| ==> 0.0 <= r[i] <= 1.0
    ensures Constant(data) ==> forall i :: 0 <= i < |data| ==> r[i] == 0.0
    ensures !Constant(data) ==> MinOf(data) < MaxOf(data) && r == Rescaled(data, MinOf(data), MaxOf(data))
  {
    var lo := MinOf(data);
    var hi := MaxOf(data);
    SpreadZeroIff(data);
    if hi == lo then Zeros(|data|)
    else
      assert lo <= data[0] <= hi;
      Rescaled(data, lo, hi)
  }

  /** `np.zeros_like(data)`. */
  function Zeros(n: nat): (r: seq<real>)
    ensures |r| == n && forall i :: 0 <= i < n ==> r[i] == 0.0
  {
    seq(n, i => 0.0)
  }

  /** `(data - lo) / (hi - lo)` for bounds that enclose every value. */
  function Rescaled(data: seq<real>, lo: real, hi: real): (r: seq<real>)
    requires lo < hi && forall i :: 0 <= i < |data| ==> lo <= data[i] <= hi
    ensures |r| == |data|
    ensures forall i :: 0 <= i < |data| ==> 0.0 <= r[i] <= 1.0 && r[i] * (hi - lo) == data[i] - lo
  {
    seq(|data|, i requires 0 <= i < |data| => Rescale(data[i], lo, hi))
  }

  /** One value mapped onto [0, 1]. */
  function Rescale(x: real, lo: real, hi: real): (q: real)
    requires lo <= x <= hi && lo < hi
    ensures 0.0 <= q <= 1.0 && q * (hi - lo) == x - lo
  {
    UnitQuotient(x - lo, hi - lo);
    (x - lo) / (hi - lo)
  }

  lemma SpreadZeroIff(data: seq<real>)
    requires |data| > 0
    ensures Constant(data) <==> MaxOf(data) == MinOf(data)
  {
    var lo := MinOf(data);
    var hi := MaxOf(data);
    if hi == lo {
      assert forall i :: 0 <= i < |data| ==> data[i] == data[0];
    } else {
      var i :| 0 <= i < |data| && data[i] == hi;
      var j :| 0 <= j < |data| && data[j] == lo;
      assert data[i] != data[j];
    }
  }

  lemma UnitQuotient(a: real, d: real)
    requires d > 0.0 && 0.0 <= a <= d
    ensures 0.0 <= a / d <= 1.0
    ensures (a / d) * d == a
  {
    var q := a / d;
    assert q * d == a;
    ScaledSign(q, d);
    ScaledSign(1.0 - q, d);
  }

  /** Outside the constant case the minimum maps to 0, the maximum to 1, and
      the normalisation keeps the order of the values. */
  lemma NormalisedExtremes(data: seq<real>)
    requires |data| > 0 && !Constant(data)
    ensures exists i :: 0 <= i < |data| && data[i] == MinOf(data) && Normalised(data)[i] == 0.0
    ensures exists i :: 0 <= i < |data| && data[i] == MaxOf(data) && Normalised(data)[i] == 1.0
    ensures forall i, j :: 0 <= i < |data| && 0 <= j < |data| && data[i] <= data[j] ==>
              Normalised(data)[i] <= Normalised(data)[j]
  {
    var lo := MinOf(data);
    var hi := MaxOf(data);
    var i :| 0 <= i < |data| && data[i] == lo;
    var j :| 0 <= j < |data| && data[j] == hi;
    RescaledExtremes(data, lo, hi, i, j);
  }

  lemma RescaledExtremes(data: seq<real>, lo: real, hi: real, i: nat, j: nat)
    requires lo < hi && forall k :: 0 <= k < |data| ==> lo <= data[k] <= hi
    requires i < |data| && data[i] == lo && j < |data| && data[j] == hi
    ensures Rescaled(data, lo, hi)[i] == 0.0 && Rescaled(data, lo, hi)[j] == 1.0
    ensures forall a, b :: 0 <= a < |data| && 0 <= b < |data| && data[a] <= data[b] ==>
              Rescaled(data, lo, hi)[a] <= Rescaled(data, lo, hi)[b]
  {
    var r := Rescaled(data, lo, hi);
    var d := hi - lo;
    assert r[i] * d == 0.0;
    ScaledSign(r[i], d);
    assert r[j] * (hi - lo) == data[j] - lo;
    UnitFactor(r[j], d);
    forall a, b | 0 <= a < |data| && 0 <= b < |data| && data[a] <= data[b] ensures r[a] <= r[b] {
      Ordered(r[a], r[b], data[a] - lo, data[b] - lo, d);
    }
  }

  lemma Ordered(x: real, y: real, u: real, v: real, d: real)
    requires d > 0.0 && x * d == u && y * d == v && u <= v
    ensures x <= y
  {
    ScaledSign(x - y, d);
  }

  lemma UnitFactor(q: real, d: real)
    requires d > 0.0 && q * d == d
    ensures q == 1.0
  {
    ScaledSign(q - 1.0, d);
  }

  // ---------------------------------------------------------------------------
  // Points

  /** `x = i * (width / (n_points - 1)) if n_points > 1 else 0`. */
  function PointX(i: nat, n: nat, width: real): (x: real)
    ensures n > 1 ==> x * (n - 1) as real == i as real * width
    ensures n <= 1 ==> x == 0.0
  {
    if n > 1 then i as real * (width / (n - 1) as real) else 0.0
  }

  /** `y = height - val * height`. */
  function PointY(val: real, height: real): (y: real)
    ensures 0.0 <= val <= 1.0 && height >= 0.0 ==> 0.0 <= y <= height
    ensures val == 1.0 ==> y == 0.0
    ensures val == 0.0 ==> y == height
  {
    Fraction(val, height);
    height - val * height
  }

  /** A larger normalised value is drawn no lower: the inverted y axis keeps
      the order of the values. */
  lemma PointYAntitone(v1: real, v2: real, height: real)
    requires v1 <= v2 && height >= 0.0
    ensures PointY(v2, height) <= PointY(v1, height)
    ensures v1 < v2 && height > 0.0 ==> PointY(v2, height) < PointY(v1, height)
  {
    if height > 0.0 {
      ScaledSign(v2 - v1, height);
    }
  }

  /** One point per normalised value, in input order. */
  function Points(norm: seq<real>, width: real, height: real): (pts: seq<(real, real)>)
    ensures |pts| == |norm|
  {
    seq(|norm|, i requires 0 <= i < |norm| => (PointX(i, |norm|, width), PointY(norm[i], height)))
  }

  /** The loop of `generate_sparkline_svg` that builds the point list. */
  method SparklinePoints(norm: seq<real>, width: real, height: real) returns (points: seq<(real, real)>)
    ensures points == Points(norm, width, height)
  {
    points := [];
    var n := |norm|;
    for i := 0 to n
      invariant |points| == i
      invariant forall k :: 0 <= k < i ==> points[k] == (PointX(k, n, width), PointY(norm[k], height))
    {
      var x := if n > 1 then i as real * (width / (n - 1) as real) else 0.0;
      var y := height - norm[i] * height;
      assert x == PointX(i, n, width) && y == PointY(norm[i], height);
      points := points + [(x, y)];
    }
  }

  /** The x coordinates run from 0 to the width, strictly increasing, evenly
      spaced. */
  lemma PointsSpanWidth(norm: seq<real>, width: real, height: real)
    requires |norm| >= 2 && width > 0.0
    ensures Points(norm, width, height)[0].0 == 0.0
    ensures Points(norm, width, height)[|norm| - 1].0 == width
    ensures forall i, j :: 0 <= i < j < |norm| ==>
              Points(norm, width, height)[i].0 < Points(norm, width, height)[j].0
  {
    var pts := Points(norm, width, height);
    var n := |norm|;
    var step := width / (n - 1) as real;
    QuotientPositive(width, (n - 1) as real);
    assert (n - 1) as real * step == width;
    forall i, j | 0 <= i < j < n ensures pts[i].0 < pts[j].0 {
      assert pts[j].0 - pts[i].0 == (j - i) as real * step;
      ScaledSign((j - i) as real, step);
    }
  }

  /** A normalised value lands inside the canvas, the maximum at the top and the
      minimum at the bottom. */
  lemma PointsInsideCanvas(norm: seq<real>, width: real, height: real)
    requires height >= 0.0
    requires forall i :: 0 <= i < |norm| ==> 0.0 <= norm[i] <= 1.0
    ensures forall i :: 0 <= i < |norm| ==> 0.0 <= Points(norm, width, height)[i].1 <= height
    ensures forall i :: 0 <= i < |norm| && norm[i] == 1.0 ==> Points(norm, width, height)[i].1 == 0.0
    ensures forall i :: 0 <= i < |norm| && norm[i] == 0.0 ==> Points(norm, width, height)[i].1 == height
  {
    var pts := Points(norm, width, height);
    forall i | 0 <= i < |norm| ensures 0.0 <= pts[i].1 <= height {
      var v := norm[i];
      Fraction(v, height);
      assert pts[i].1 == height - v * height;
      assert 0.0 <= v * height;
      assert v * height <= height;
    }
  }

  lemma Fraction(v: real, h: real)
    ensures 0.0 <= v <= 1.0 && h >= 0.0 ==> 0.0 <= v * h <= h
  {
    if 0.0 <= v <= 1.0 && h >= 0.0 {
      assert (1.0 - v) * h >= 0.0;
    }
  }

  // ---------------------------------------------------------------------------
  // The sparkline and the card

  /** `generate_sparkline_svg(data_series, color, width, height)` as the point
      list it draws; None where the source returns the empty string (fewer than
      two values, or fewer than two present values). */
  function Sparkline(data: seq<Cell>, width: real, height: real): (r: Option<seq<(real, real)>>)
    ensures r.Some? <==> |data| >= 2 && |Present(data)| >= 2
    ensures r.Some? ==> |r.value| == |Present(data)|
  {
    if |data| < 2 then None
    else
      var clean := Present(data);
      if |clean| < 2 then None
      else Some(Points(Normalised(clean), width, height))
  }

  /** The sparkline of a series without missing values spans the canvas from
      left to right, stays inside it, and is flat along the bottom exactly when
      the series is constant. */
  lemma SparklineShape(data: seq<Cell>, width: real, height: real)
    requires width > 0.0 && height > 0.0
    requires Sparkline(data, width, height).Some?
    ensures var pts := Sparkline(data, width, height).value;
            && pts[0].0 == 0.0 && pts[|pts| - 1].0 == width
            && (forall i :: 0 <= i < |pts| ==> 0.0 <= pts[i].1 <= height)
            && (Constant(Present(data)) <==> forall i :: 0 <= i < |pts| ==> pts[i].1 == height)
  {
    var clean := Present(data);
    var norm := Normalised(clean);
    assert Sparkline(data, width, height).value == Points(norm, width, height);
    NormalisedZeroIff(clean);
    PointsShape(norm, width, height);
  }

  /** Points of values in [0, 1] span the canvas, stay inside it, and lie along
      the bottom exactly when every value is zero. */
  lemma PointsShape(norm: seq<real>, width: real, height: real)
    requires width > 0.0 && height > 0.0 && |norm| >= 2
    requires forall i :: 0 <= i < |norm| ==> 0.0 <= norm[i] <= 1.0
    ensures var pts := Points(norm, width, height);
            && pts[0].0 == 0.0 && pts[|pts| - 1].0 == width
            && (forall i :: 0 <= i < |pts| ==> 0.0 <= pts[i].1 <= height)
            && ((forall i :: 0 <= i < |norm| ==> norm[i] == 0.0) <==>
                (forall i :: 0 <= i < |pts| ==> pts[i].1 == height))
  {
    var pts := Points(norm, width, height);
    PointsSpanWidth(norm, width, height);
    PointsInsideCanvas(norm, width, height);
    if forall i :: 0 <= i < |pts| ==> pts[i].1 == height {
      forall i | 0 <= i < |norm| ensures norm[i] == 0.0 {
        assert pts[i].1 == height - norm[i] * height;
        ScaledSign(norm[i], height);
      }
    }
  }

  /** The normalised values are all zero exactly when the input is constant. */
  lemma NormalisedZeroIff(data: seq<real>)
    requires |data| > 0
    ensures Constant(data) <==> forall i :: 0 <= i < |data| ==> Normalised(data)[i] == 0.0
  {
    if !Constant(data) {
      NormalisedExtremes(data);
      var j :| 0 <= j < |data| && data[j] == MaxOf(data) && Normalised(data)[j] == 1.0;
    }
  }

  /** The `generate_sparkline_svg` routine with its point loop. */
  method GenerateSparkline(data: seq<Cell>, width: real, height: real) returns (r: Option<seq<(real, real)>>)
    ensures r == Sparkline(data, width, height)
  {
    if |data| < 2 {
      return None;
    }
    var clean := Present(data);
    if |clean| < 2 {
      return None;
    }
    var points := SparklinePoints(Normalised(clean), width, height);
    return Some(points);
  }

  /** The styling of a metric card: colour class, colour, arrow, and the
      sparkline drawn in that colour when one is drawn. */
  datatype CardStyle = CardStyle(colourClass: string, colourHex: string, arrow: string,
                                 sparkline: Option<seq<(real, real)>>)

  /** `render_metric_card(..., is_positive, sparkline_data)` without the HTML:
      the sparkline is drawn only from more than two data points (and then only
      when two of them are present). */
  function MetricCard(isPositive: bool, sparklineData: Option<seq<Cell>>): (c: CardStyle)
    ensures c.colourClass == "positive" <==> isPositive
    ensures c.colourClass == "negative" <==> !isPositive
    ensures c.sparkline.Some? <==>
              sparklineData.Some? && |sparklineData.value| > 2 && |Present(sparklineData.value)| >= 2
    ensures c.sparkline.Some? ==>
              c.sparkline == Sparkline(sparklineData.value, DefaultWidth, DefaultHeight)
  {
    var colourClass := if isPositive then "positive" else "negative";
    var colourHex := if isPositive then "#0ECB81" else "#F6465D";
    var arrow := if isPositive then "▲" else "▼";
    var svg := if sparklineData.Some? && |sparklineData.value| > 2
               then Sparkline(sparklineData.value, DefaultWidth, DefaultHeight)
               else None;
    CardStyle(colourClass, colourHex, arrow, svg)
  }
}
