// The time-series chart over the reals: axis ceilings, the scales between data and pixels,
// and the nearest data point to the pointer.
module Chart {
  import opened Text
  import Metrics
  import Aggregate

  // ----- Nice axis ceilings --------------------------------------------------

  function Pow10(k: int): (r: real)
    ensures r > 0.0
    decreases if k < 0 then -k else k
  {
    if k == 0 then 1.0 else if k > 0 then 10.0 * Pow10(k - 1) else Pow10(k + 1) / 10.0
  }

  lemma Pow10Step(k: int)
    ensures Pow10(k + 1) == 10.0 * Pow10(k)
  {
  }

  lemma {:induction false} Pow10Ascends(j: int, k: int)
    requires j <= k
    ensures Pow10(j) <= Pow10(k)
    decreases k - j
  {
    if j < k {
      Pow10Step(j);
      Pow10Ascends(j + 1, k);
    }
  }

  /** Math.floor(Math.log10(v)). */
  function FloorLog10(v: real): (k: int)
    requires v > 0.0
    ensures Pow10(k) <= v < Pow10(k + 1)
    decreases v < 1.0, if v < 1.0 then (1.0 / v).Floor else v.Floor
  {
    if v >= 10.0 then
      assert (v / 10.0).Floor < v.Floor;
      var k := FloorLog10(v / 10.0);
      Pow10Step(k);
      Pow10Step(k + 1);
      k + 1
    else if v < 1.0 then
      Reciprocal(v);
      var k := FloorLog10(v * 10.0);
      Pow10Step(k - 1);
      Pow10Step(k);
      k - 1
    else 0
  }

  lemma TimesOrdered(a: real, b: real, c: real)
    requires c > 0.0
    ensures a < b ==> a * c < b * c
    ensures a <= b ==> a * c <= b * c
  {
    assert (b - a) * c == b * c - a * c;
  }

  lemma Reciprocal(v: real)
    requires 0.0 < v < 1.0
    ensures v * 10.0 < 1.0 ==> (1.0 / (v * 10.0)).Floor < (1.0 / v).Floor
  {
    var r := 1.0 / v;
    assert r * v == 1.0;
    assert 1.0 / (v * 10.0) == r / 10.0;
    TimesOrdered(r, 10.0, v);
  }

  function NiceCeil(v: real): real {
    if v <= 0.0 then 1.0
    else
      var pow := Pow10(FloorLog10(v));
      var n := v / pow;
      (if n <= 1.0 then 1.0 else if n <= 2.0 then 2.0 else if n <= 5.0 then 5.0 else 10.0) * pow
  }

  /** 1, 2 or 5 times a power of ten. */
  ghost predicate IsNice(x: real) {
    exists k :: x == Pow10(k) || x == 2.0 * Pow10(k) || x == 5.0 * Pow10(k)
  }

  lemma QuotientAtMost(v: real, pow: real, m: real)
    requires pow > 0.0
    ensures v / pow <= m <==> v <= m * pow
  {
    var n := v / pow;
    assert n * pow == v;
    TimesOrdered(n, m, pow);
    TimesOrdered(m, n, pow);
  }

  /** The step chosen, without the division. */
  function Ceiling(v: real, p: real): real {
    if v <= p then p else if v <= 2.0 * p then 2.0 * p else if v <= 5.0 * p then 5.0 * p else 10.0 * p
  }

  lemma StepChosen(v: real, p: real)
    requires p > 0.0
    ensures var n := v / p;
      (if n <= 1.0 then 1.0 else if n <= 2.0 then 2.0 else if n <= 5.0 then 5.0 else 10.0) * p == Ceiling(v, p)
  {
    QuotientAtMost(v, p, 1.0);
    QuotientAtMost(v, p, 2.0);
    QuotientAtMost(v, p, 5.0);
  }

  lemma NiceCeilCases(v: real)
    requires v > 0.0
    ensures NiceCeil(v) == Ceiling(v, Pow10(FloorLog10(v)))
  {
    StepChosen(v, Pow10(FloorLog10(v)));
  }

  /** niceCeil gives the least nice number that is not below its argument. */
  lemma NiceCeilIsLeast(v: real)
    requires v > 0.0
    ensures v <= NiceCeil(v) && IsNice(NiceCeil(v))
    ensures forall x :: IsNice(x) && v <= x ==> NiceCeil(v) <= x
  {
    var k := FloorLog10(v);
    NiceCeilCases(v);
    Pow10Step(k);
    assert IsNice(NiceCeil(v)) by {
      if NiceCeil(v) == 10.0 * Pow10(k) {
        assert NiceCeil(v) == Pow10(k + 1);
      }
    }
    forall x | IsNice(x) && v <= x ensures NiceCeil(v) <= x {
      var j :| x == Pow10(j) || x == 2.0 * Pow10(j) || x == 5.0 * Pow10(j);
      CeilingIsLeast(v, k, x, j);
    }
  }

  lemma CeilingIsLeast(v: real, k: int, x: real, j: int)
    requires Pow10(k) <= v <= x && v < Pow10(k + 1)
    requires x == Pow10(j) || x == 2.0 * Pow10(j) || x == 5.0 * Pow10(j)
    ensures Ceiling(v, Pow10(k)) <= x
  {
    Pow10Step(k);
    if j < k {
      Pow10Step(k - 1);
      Pow10Ascends(j, k - 1);
    } else if j > k {
      Pow10Ascends(k + 1, j);
    }
  }

  // ----- The chart -----------------------------------------------------------

  datatype Sample = Sample(x: real, y: real)

  datatype Model = Model(
    data: seq<Sample>, plotW: real, plotH: real,
    xMin: real, xSpan: real, yMin: real, ySpan: real)

  const PAD_LEFT: real := 46.0
  const PAD_RIGHT: real := 14.0
  const PAD_TOP: real := 12.0
  const PAD_BOTTOM: real := 24.0

  function Max(a: real, b: real): (r: real)
    ensures r >= a && r >= b && (r == a || r == b)
  {
    if a >= b then a else b
  }

  /** JavaScript's `a || b` on numbers. */
  function OrElse(a: real, b: real): real {
    if a == 0.0 then b else a
  }

  function Abs(a: real): (r: real)
    ensures r >= 0.0 && (r == a || r == -a)
  {
    if a < 0.0 then -a else a
  }

  predicate AscendingX(data: seq<Sample>) {
    forall i, j :: 0 <= i < j < |data| ==> data[i].x < data[j].x
  }

  /** The largest y, or 0 if none is positive. */
  ghost predicate IsTop(data: seq<Sample>, top: real) {
    && top >= 0.0 && (forall i :: 0 <= i < |data| ==> data[i].y <= top)
    && (top == 0.0 || exists i :: 0 <= i < |data| && data[i].y == top)
  }

  /** The geometry and scales of a chart with at least one sample. */
  method ComputeChart(data: seq<Sample>, cssW: real, cssH: real, yMin: Option<real>,
                      yMax: Option<real>) returns (c: Model)
    requires data != []
    ensures c.data == data
    ensures c.plotW == Max(1.0, cssW - PAD_LEFT - PAD_RIGHT) && c.plotH == Max(1.0, cssH - PAD_TOP - PAD_BOTTOM)
    ensures c.plotW == (if cssW - 60.0 > 1.0 then cssW - 60.0 else 1.0)
    ensures c.plotH == (if cssH - 36.0 > 1.0 then cssH - 36.0 else 1.0)
    ensures c.xMin == data[0].x && c.xSpan == OrElse(data[|data| - 1].x - data[0].x, 1.0)
    ensures c.yMin == (if yMin.Some? then yMin.value else 0.0)
    ensures yMax.Some? ==> c.ySpan == OrElse(yMax.value - c.yMin, 1.0)
    ensures yMax.None? ==> exists top ::
      IsTop(data, top) && c.ySpan == OrElse(OrElse(NiceCeil(top * 1.1), 1.0) - c.yMin, 1.0)
    ensures yMin.None? && yMax.None? ==> DefaultChart(c)
  {
    var low := if yMin.Some? then yMin.value else 0.0;
    var high: real;
    if yMax.Some? {
      high := yMax.value;
    } else {
      var top := 0.0;
      for i := 0 to |data|
        invariant IsTop(data[..i], top)
      {
        if data[i].y > top {
          top := data[i].y;
        }
      }
      assert data[..|data|] == data;
      high := OrElse(NiceCeil(top * 1.1), 1.0);
    }
    c := Model(data, Max(1.0, cssW - PAD_LEFT - PAD_RIGHT), Max(1.0, cssH - PAD_TOP - PAD_BOTTOM),
               data[0].x, OrElse(data[|data| - 1].x - data[0].x, 1.0),
               low, OrElse(high - low, 1.0));
  }

  function Sx(c: Model, x: real): real
    requires c.xSpan != 0.0
  {
    PAD_LEFT + (x - c.xMin) / c.xSpan * c.plotW
  }

  function Sy(c: Model, y: real): real
    requires c.ySpan != 0.0
  {
    PAD_TOP + (1.0 - (y - c.yMin) / c.ySpan) * c.plotH
  }

  function XAt(c: Model, px: real): real
    requires c.plotW != 0.0
  {
    c.xMin + (px - PAD_LEFT) / c.plotW * c.xSpan
  }

  /** What ComputeChart gives under default axis bounds. */
  ghost predicate DefaultChart(c: Model) {
    && c.data != [] && c.plotW >= 1.0 && c.plotH >= 1.0
    && c.xMin == c.data[0].x && c.xSpan == OrElse(c.data[|c.data| - 1].x - c.data[0].x, 1.0)
    && c.yMin == 0.0
    && exists top :: IsTop(c.data, top) && c.ySpan == OrElse(OrElse(NiceCeil(top * 1.1), 1.0), 1.0)
  }

  lemma Fraction(a: real, b: real)
    requires 0.0 <= a <= b && b > 0.0
    ensures 0.0 <= a / b <= 1.0
  {
    QuotientAtMost(a, b, 1.0);
    assert a / b * b == a;
    TimesOrdered(a / b, 0.0, b);
  }

  /** A value between bounds lands between the ends of a scale of width `w`. */
  lemma OnScale(v: real, low: real, span: real, w: real)
    requires span > 0.0 && low <= v <= low + span && w > 0.0
    ensures 0.0 <= (v - low) / span * w <= w && 0.0 <= (1.0 - (v - low) / span) * w <= w
  {
    var f := (v - low) / span;
    Fraction(v - low, span);
    TimesOrdered(0.0, f, w);
    TimesOrdered(f, 1.0, w);
    assert (1.0 - f) * w == w - f * w;
  }

  lemma YSpanCovers(c: Model, i: nat)
    requires DefaultChart(c) && i < |c.data| && c.data[i].y >= 0.0
    ensures c.ySpan > 0.0 && c.data[i].y <= c.ySpan
  {
    var top :| IsTop(c.data, top) && c.ySpan == OrElse(OrElse(NiceCeil(top * 1.1), 1.0), 1.0);
    if top > 0.0 {
      NiceCeilIsLeast(top * 1.1);
    }
  }

  lemma WithinWidth(c: Model, x: real)
    requires c.xSpan > 0.0 && c.xMin <= x <= c.xMin + c.xSpan && c.plotW > 0.0
    ensures PAD_LEFT <= Sx(c, x) <= PAD_LEFT + c.plotW
  {
    OnScale(x, c.xMin, c.xSpan, c.plotW);
  }

  lemma DrawnAcross(c: Model, i: nat)
    requires DefaultChart(c) && AscendingX(c.data) && i < |c.data|
    ensures c.xSpan > 0.0 && PAD_LEFT <= Sx(c, c.data[i].x) <= PAD_LEFT + c.plotW
  {
    assert c.data[0].x <= c.data[i].x <= c.data[|c.data| - 1].x;
    WithinWidth(c, c.data[i].x);
  }

  lemma WithinHeight(c: Model, y: real)
    requires c.ySpan > 0.0 && c.yMin <= y <= c.yMin + c.ySpan && c.plotH > 0.0
    ensures PAD_TOP <= Sy(c, y) <= PAD_TOP + c.plotH
  {
    OnScale(y, c.yMin, c.ySpan, c.plotH);
  }

  lemma DrawnDown(c: Model, i: nat)
    requires DefaultChart(c) && i < |c.data| && c.data[i].y >= 0.0
    ensures c.ySpan > 0.0 && PAD_TOP <= Sy(c, c.data[i].y) <= PAD_TOP + c.plotH
  {
    YSpanCovers(c, i);
    WithinHeight(c, c.data[i].y);
  }

  /** Every non-negative ascending series is drawn inside the plot rectangle. */
  lemma DrawnInsidePlot(c: Model, i: nat)
    requires DefaultChart(c) && AscendingX(c.data) && i < |c.data| && c.data[i].y >= 0.0
    ensures c.xSpan > 0.0 && PAD_LEFT <= Sx(c, c.data[i].x) <= PAD_LEFT + c.plotW
    ensures c.ySpan > 0.0 && PAD_TOP <= Sy(c, c.data[i].y) <= PAD_TOP + c.plotH
  {
    DrawnAcross(c, i);
    DrawnDown(c, i);
  }

  lemma DivideOrdered(a: real, b: real, c: real)
    requires c > 0.0 && a < b
    ensures a / c < b / c
  {
    QuotientAtMost(b, c, a / c);
    assert a / c * c == a;
  }

  /** Time runs to the right and values grow upwards, from the left and bottom edges of the
      plot to the right and top ones. */
  lemma ScalesRunRight(c: Model, x: real, y: real)
    requires c.xSpan > 0.0 && c.plotW > 0.0 && x < y
    ensures Sx(c, x) < Sx(c, y)
    ensures Sx(c, c.xMin) == PAD_LEFT && Sx(c, c.xMin + c.xSpan) == PAD_LEFT + c.plotW
  {
    DivideOrdered(x - c.xMin, y - c.xMin, c.xSpan);
    TimesOrdered((x - c.xMin) / c.xSpan, (y - c.xMin) / c.xSpan, c.plotW);
    assert c.xSpan / c.xSpan == 1.0;
  }

  lemma ScalesRunUp(c: Model, x: real, y: real)
    requires c.ySpan > 0.0 && c.plotH > 0.0 && x < y
    ensures Sy(c, y) < Sy(c, x)
    ensures Sy(c, c.yMin) == PAD_TOP + c.plotH && Sy(c, c.yMin + c.ySpan) == PAD_TOP
  {
    DivideOrdered(x - c.yMin, y - c.yMin, c.ySpan);
    TimesOrdered(1.0 - (y - c.yMin) / c.ySpan, 1.0 - (x - c.yMin) / c.ySpan, c.plotH);
    assert c.ySpan / c.ySpan == 1.0;
  }

  lemma Undo(a: real, b: real, d: real)
    requires b != 0.0 && d != 0.0
    ensures (a / b * d) / d * b == a
  {
    assert a / b * d / d == a / b;
  }

  /** xAt and sx invert each other, at every pixel and every time. */
  lemma ScalesInvert(c: Model, x: real, px: real)
    requires c.xSpan != 0.0 && c.plotW != 0.0
    ensures XAt(c, Sx(c, x)) == x && Sx(c, XAt(c, px)) == px
  {
    Undo(x - c.xMin, c.xSpan, c.plotW);
    Undo(px - PAD_LEFT, c.plotW, c.xSpan);
  }

  // ----- The nearest point ---------------------------------------------------

  function Distance(data: seq<Sample>, i: nat, xv: real): real
    requires i < |data|
  {
    Abs(data[i].x - xv)
  }

  /** Binary search for the data point nearest to a pixel; the earlier one on a tie. */
  method NearestIndex(c: Model, px: real) returns (r: nat)
    requires c.data != [] && AscendingX(c.data) && c.plotW != 0.0
    ensures r < |c.data|
    ensures forall j :: 0 <= j < |c.data| ==> Distance(c.data, r, XAt(c, px)) <= Distance(c.data, j, XAt(c, px))
    ensures forall j :: 0 <= j < r ==> Distance(c.data, r, XAt(c, px)) < Distance(c.data, j, XAt(c, px))
  {
    var xv := XAt(c, px);
    var lo, hi := 0, |c.data| - 1;
    if xv <= c.data[0].x {
      return 0;
    }
    if xv >= c.data[hi].x {
      return hi;
    }
    while lo < hi
      invariant 0 <= lo <= hi < |c.data|
      invariant xv <= c.data[hi].x
      invariant lo > 0 ==> c.data[lo - 1].x < xv
    {
      var mid := (lo + hi) / 2;
      if c.data[mid].x < xv {
        lo := mid + 1;
      } else {
        hi := mid;
      }
    }
    if lo > 0 && Abs(c.data[lo - 1].x - xv) <= Abs(c.data[lo].x - xv) {
      return lo - 1;
    }
    return lo;
  }

  // ----- Charts of the server's series ---------------------------------------

  /** The points the client plots of a process's series. */
  function Plotted(ps: seq<Metrics.Point>, y: Metrics.Point -> real): seq<Sample> {
    seq(|ps|, i requires 0 <= i < |ps| => Sample(ps[i].timestamp as real, y(ps[i])))
  }

  function PlottedOverall(ps: seq<Aggregate.Total>, y: Aggregate.Total -> real): seq<Sample> {
    seq(|ps|, i requires 0 <= i < |ps| => Sample(ps[i].timestamp as real, y(ps[i])))
  }

  /** A chart's samples are the points of the series in order: their times, and what is plotted. */
  lemma SamplesArePoints(ps: seq<Metrics.Point>, ts: seq<Aggregate.Total>)
    ensures |Plotted(ps, (p: Metrics.Point) => p.cpu)| == |ps| && |Plotted(ps, (p: Metrics.Point) => p.memory)| == |ps|
    ensures forall i :: 0 <= i < |ps| ==>
      && Plotted(ps, (p: Metrics.Point) => p.cpu)[i] == Sample(ps[i].timestamp as real, ps[i].cpu)
      && Plotted(ps, (p: Metrics.Point) => p.memory)[i] == Sample(ps[i].timestamp as real, ps[i].memory)
    ensures |PlottedOverall(ts, (t: Aggregate.Total) => t.cpu)| == |ts|
    ensures forall i :: 0 <= i < |ts| ==>
      PlottedOverall(ts, (t: Aggregate.Total) => t.cpu)[i] == Sample(ts[i].timestamp as real, ts[i].cpu)
  {
  }

  /** The search's precondition is met by what the server sends, whatever is plotted: the
      cpu and the memory of a process and of all processes. */
  lemma ServerSeriesAscend(rows: seq<Metrics.Row>, name: string, since: int, until: int,
                           y: Metrics.Point -> real, z: Aggregate.Total -> real)
    ensures AscendingX(Plotted(Metrics.SeriesForProcess(rows, name, since, until), y))
    ensures AscendingX(PlottedOverall(Aggregate.AggregateSeries(rows, since, until), z))
  {
    Metrics.SeriesPartitions(rows, name, since, until);
    Aggregate.AggregateAscends(rows, since, until);
  }
}
