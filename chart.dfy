/**
 * The SVG line chart (src/components/chart.tsx): a linear map from data
 * space onto a 300 by 180 drawing area, and the y-range padding for
 * constant data. Numbers are real numbers here; the rounding of the
 * source's floating point is not modelled.
 */
module Chart {
  import opened Text

  /** `Math.max(...s)` on a non-empty list. */
  function SeqMax(s: seq<real>): (m: real)
    requires |s| > 0
    ensures m in s
    ensures forall i :: 0 <= i < |s| ==> s[i] <= m
    decreases |s|
  {
    if |s| == 1 then s[0]
    else
      var m := SeqMax(s[..|s| - 1]);
      if s[|s| - 1] > m then s[|s| - 1] else m
  }

  /** `Math.min(...s)` on a non-empty list. */
  function SeqMin(s: seq<real>): (m: real)
    requires |s| > 0
    ensures m in s
    ensures forall i :: 0 <= i < |s| ==> m <= s[i]
    decreases |s|
  {
    if |s| == 1 then s[0]
    else
      var m := SeqMin(s[..|s| - 1]);
      if s[|s| - 1] < m then s[|s| - 1] else m
  }

  /** A drawing area of `svgWidth` by `svgHeight` showing `[minX, maxX]` by `[minY, maxY]`. */
  class SvgGraph {
    const svgWidth: real
    const svgHeight: real
    const minX: real
    const maxX: real
    const minY: real
    const maxY: real

    constructor(svgWidth: real, svgHeight: real, minX: real, maxX: real, minY: real, maxY: real)
      ensures this.svgWidth == svgWidth && this.svgHeight == svgHeight
      ensures this.minX == minX && this.maxX == maxX
      ensures this.minY == minY && this.maxY == maxY
    {
      this.svgWidth := svgWidth;
      this.svgHeight := svgHeight;
      this.minX := minX;
      this.maxX := maxX;
      this.minY := minY;
      this.maxY := maxY;
    }

    /** `mapX`: the horizontal position of `x`, left edge at `minX`. */
    function MapX(x: real): real
      requires maxX != minX
    {
      (x - minX) / (maxX - minX) * svgWidth
    }

    /** `mapY`: the vertical position of `y`; SVG's y axis points down, so `minY` is at the bottom. */
    function MapY(y: real): real
      requires maxY != minY
    {
      svgHeight - (y - minY) / (maxY - minY) * svgHeight
    }

    /** `minX` lands on the left edge and `maxX` on the right edge. */
    lemma MapXEndpoints()
      requires maxX != minX
      ensures MapX(minX) == 0.0 && MapX(maxX) == svgWidth
    {
      assert (maxX - minX) / (maxX - minX) == 1.0;
    }

    /** `mapX` is linear: equal steps in data make equal steps on screen. */
    lemma MapXLinear(x: real, x': real)
      requires maxX != minX
      ensures MapX(x') - MapX(x) == (x' - x) / (maxX - minX) * svgWidth
    {
      var r := maxX - minX;
      assert (x' - minX) / r - (x - minX) / r == (x' - x) / r;
    }

    /** With a positive width and a rising x range, `mapX` is strictly increasing. */
    lemma MapXIncreasing(x: real, x': real)
      requires maxX > minX && svgWidth > 0.0 && x < x'
      ensures MapX(x) < MapX(x')
    {
      MapXLinear(x, x');
      var q := (x' - x) / (maxX - minX);
      assert q > 0.0;
      assert q * svgWidth > 0.0;
    }

    /** `minY` lands on the bottom edge and `maxY` on the top edge. */
    lemma MapYEndpoints()
      requires maxY != minY
      ensures MapY(minY) == svgHeight && MapY(maxY) == 0.0
    {
      assert (maxY - minY) / (maxY - minY) == 1.0;
    }

    /** With a positive height and a rising y range, `mapY` is strictly decreasing. */
    lemma MapYDecreasing(y: real, y': real)
      requires maxY > minY && svgHeight > 0.0 && y < y'
      ensures MapY(y') < MapY(y)
    {
      var r := maxY - minY;
      assert (y' - minY) / r - (y - minY) / r == (y' - y) / r;
      var q := (y' - y) / r;
      assert q > 0.0;
      assert q * svgHeight > 0.0;
    }

    /** Values inside the ranges are drawn inside the area. */
    lemma MapInsideArea(x: real, y: real)
      requires maxX > minX && maxY > minY && svgWidth >= 0.0 && svgHeight >= 0.0
      requires minX <= x <= maxX && minY <= y <= maxY
      ensures 0.0 <= MapX(x) <= svgWidth
      ensures 0.0 <= MapY(y) <= svgHeight
    {
      var rx, ry := maxX - minX, maxY - minY;
      var fx, fy := (x - minX) / rx, (y - minY) / ry;
      assert fx * rx == x - minX && fy * ry == y - minY;
      assert (1.0 - fx) * rx == maxX - x;
      assert (1.0 - fy) * ry == maxY - y;
      assert 0.0 <= fx <= 1.0;
      assert 0.0 <= fy <= 1.0;
      MulNonNegative(fx, svgWidth);
      MulNonNegative(1.0 - fx, svgWidth);
      MulNonNegative(fy, svgHeight);
      MulNonNegative(1.0 - fy, svgHeight);
    }
  }

  lemma MulNonNegative(a: real, b: real)
    requires a >= 0.0 && b >= 0.0
    ensures a * b >= 0.0
  {
  }

  const SvgHeight: real := 180.0
  const SvgWidth: real := 300.0
  /** The left margin the polyline is shifted by. */
  const OffsetX: real := 30.0

  /**
   * The y range of the chart: the data's own minimum and maximum, except
   * that constant data `v` gets `[v - 5, v + 5]`, its lower end raised to 0
   * when it is not positive.
   */
  function YRange(data: seq<real>): (r: (real, real))
    requires |data| > 0
    ensures SeqMin(data) != SeqMax(data) ==> r == (SeqMin(data), SeqMax(data))
    ensures SeqMin(data) == SeqMax(data) ==>
      var v := SeqMax(data);
      r == (if v - 5.0 <= 0.0 then 0.0 else v - 5.0, v + 5.0)
  {
    var lo, hi := SeqMin(data), SeqMax(data);
    if lo == hi then (if lo - 5.0 <= 0.0 then 0.0 else lo - 5.0, hi + 5.0) else (lo, hi)
  }

  /** For non-negative data the range is proper and holds every value. */
  lemma YRangeCoversData(data: seq<real>)
    requires |data| > 0
    requires forall i :: 0 <= i < |data| ==> data[i] >= 0.0
    ensures YRange(data).0 < YRange(data).1
    ensures forall i :: 0 <= i < |data| ==> YRange(data).0 <= data[i] <= YRange(data).1
  {
    var lo, hi := SeqMin(data), SeqMax(data);
    if lo == hi {
      assert forall i :: 0 <= i < |data| ==> data[i] == hi;
    } else {
      assert lo <= hi;
    }
  }

  /**
   * `LineChart`'s layout: the graph over the label and padded data ranges,
   * and one point per data value, the `i`-th at label `i` and value `i`,
   * moved right by `OffsetX`.
   */
  method LineChart(labels: seq<real>, data: seq<real>) returns (graph: SvgGraph, points: seq<(real, real)>)
    requires |data| > 0 && |labels| >= |data|
    requires SeqMax(labels) != SeqMin(labels)
    requires SeqMin(data) == SeqMax(data) ==> SeqMax(data) != -5.0
    ensures graph.svgWidth == SvgWidth && graph.svgHeight == SvgHeight
    ensures graph.minX == SeqMin(labels) && graph.maxX == SeqMax(labels)
    ensures (graph.minY, graph.maxY) == YRange(data)
    ensures graph.maxY != graph.minY
    ensures |points| == |data|
    ensures forall i :: 0 <= i < |data| ==>
      points[i] == (OffsetX + graph.MapX(labels[i]), graph.MapY(data[i]))
    ensures (forall k :: 0 <= k < |data| ==> data[k] >= 0.0) ==>
      forall i :: 0 <= i < |data| ==>
        OffsetX <= points[i].0 <= OffsetX + SvgWidth && 0.0 <= points[i].1 <= SvgHeight
  {
    var maxY := SeqMax(data);
    var minY := SeqMin(data);
    if minY == maxY {
      maxY := maxY + 5.0;
      minY := minY - 5.0;
      if minY <= 0.0 {
        minY := 0.0;
      }
    }
    var maxX := SeqMax(labels);
    var minX := SeqMin(labels);
    graph := new SvgGraph(SvgWidth, SvgHeight, minX, maxX, minY, maxY);
    var g := graph;
    points := seq(|data|, i requires 0 <= i < |data| => (OffsetX + g.MapX(labels[i]), g.MapY(data[i])));
    if forall k :: 0 <= k < |data| ==> data[k] >= 0.0 {
      YRangeCoversData(data);
      forall i | 0 <= i < |data|
        ensures OffsetX <= points[i].0 <= OffsetX + SvgWidth && 0.0 <= points[i].1 <= SvgHeight
      {
        g.MapInsideArea(labels[i], data[i]);
      }
    }
  }

  /** `${x},${y}` for one point, with `show` writing a number. */
  function PairText(p: (real, real), show: real -> string): string {
    show(p.0) + "," + show(p.1)
  }

  /** The `points` attribute: the pairs in order, separated by single spaces. */
  function PointsText(points: seq<(real, real)>, show: real -> string): string {
    Join(seq(|points|, i requires 0 <= i < |points| => PairText(points[i], show)), " ")
  }

  /**
   * When numbers are written without spaces, splitting the attribute at
   * spaces gives back exactly one `x,y` pair per point, in order.
   */
  lemma PointsTextSplits(points: seq<(real, real)>, show: real -> string)
    requires |points| > 0
    requires forall r: real :: ' ' !in show(r)
    ensures |Split(PointsText(points, show), ' ')| == |points|
    ensures forall i :: 0 <= i < |points| ==> Split(PointsText(points, show), ' ')[i] == PairText(points[i], show)
  {
    var pairs := seq(|points|, i requires 0 <= i < |points| => PairText(points[i], show));
    forall i | 0 <= i < |pairs| ensures ' ' !in pairs[i] {
      PairTextNoSpace(points[i], show);
    }
    assert " " == [' '];
    SplitJoin(pairs, ' ');
  }

  lemma PairTextNoSpace(p: (real, real), show: real -> string)
    requires forall r: real :: ' ' !in show(r)
    ensures ' ' !in PairText(p, show)
  {
    var x, y := p.0, p.1;
    assert ' ' !in show(x) && ' ' !in show(y);
    assert PairText(p, show) == show(x) + "," + show(y);
  }
}
