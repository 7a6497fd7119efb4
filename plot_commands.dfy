/** The commands a plot is drawn from (src/element/dynamic_plot.rs) and the
    part of `plot` that decides which data points and line segments are drawn:
    a point is skipped when `data_to_axis` puts it outside the limits. Data
    arrays hold single-precision values, so they are `F32` sequences. */
module PlotCommands {
  import opened Wrappers
  import opened Util
  import opened Styling
  import opened Projection

  datatype LineStyle = Solid | Dashed | Dotted

  datatype PlotCommand =
    | Scatter(xs: seq<F32>, ys: seq<F32>)
    | ErrorBar(xs: seq<F32>, ys: seq<F32>, yErrs: seq<F32>)
    | FillBetween(xs: seq<F32>, y1s: seq<F32>, y2s: seq<F32>)
    | Line(xs: seq<F32>, ys: seq<F32>, ls: LineStyle)
    | Bar(edges: seq<F32>, ys: seq<F32>)
    | SetXLim(low: real, high: real)
    | SetYLim(low: real, high: real)
    | SetXLabel(xLabel: TextLayout)
    | SetYLabel(yLabel: TextLayout)
    | Legend(labels: seq<Option<string>>)
    | Text(x: real, y: real, text: TextLayout, va: TextAlign, ha: TextAlign)

  /** The range test of `data_to_axis` on one coordinate. A NaN compares false
      with everything, so it is never outside; an infinity always is. */
  predicate OutsideF(v: F32, lim: (real, real))
  {
    match v
    case Finite(x) => OutsideLimit(x, lim)
    case NaN => false
    case Infinity(_) => true
  }

  /** Whether `plot` skips the point `(x, y)`. */
  predicate Skipped(x: F32, y: F32, xLim: (real, real), yLim: (real, real))
  {
    OutsideF(x, xLim) || OutsideF(y, yLim)
  }

  /** For finite coordinates the skip test is exactly `data_to_axis` failing. */
  lemma SkippedIffDataToAxisErr(x: real, y: real, xLim: (real, real), yLim: (real, real))
    requires xLim.1 != xLim.0 && yLim.1 != yLim.0
    ensures Skipped(Finite(x), Finite(y), xLim, yLim) <==> DataToAxis((x, y), xLim, yLim).Err?
  {
  }

  /** A NaN coordinate slips through the range test: the point is not skipped
      when its other coordinate is in range. */
  lemma NaNNotSkipped(y: real, xLim: (real, real), yLim: (real, real))
    requires !OutsideLimit(y, yLim)
    ensures !Skipped(NaN, Finite(y), xLim, yLim)
  {
  }

  /** The indices below `n`, in increasing order, of the points a `Scatter`
      draws. The source indexes `ys` by every index of `xs`. */
  function ScatterDrawn(xs: seq<F32>, ys: seq<F32>, n: nat, xLim: (real, real), yLim: (real, real)): (r: seq<nat>)
    requires n <= |xs| <= |ys|
    ensures forall i: nat :: i in r <==> i < n && !Skipped(xs[i], ys[i], xLim, yLim)
    ensures forall k, l :: 0 <= k < l < |r| ==> r[k] < r[l]
  {
    if n == 0 then []
    else
      var init := ScatterDrawn(xs, ys, n - 1, xLim, yLim);
      assert forall k :: 0 <= k < |init| ==> init[k] in init;
      if Skipped(xs[n - 1], ys[n - 1], xLim, yLim) then init else init + [n - 1]
  }

  /** Whether both ends of the segment `i -> i + 1` are in range. */
  predicate SegmentInRange(xs: seq<F32>, ys: seq<F32>, i: nat, xLim: (real, real), yLim: (real, real))
    requires i + 1 < |xs| <= |ys|
  {
    !Skipped(xs[i], ys[i], xLim, yLim) && !Skipped(xs[i + 1], ys[i + 1], xLim, yLim)
  }

  /** The segments `i -> i + 1`, for `i` below `n` and in increasing order,
      that a `Line` draws: both ends must be in range. */
  function LineSegments(xs: seq<F32>, ys: seq<F32>, n: nat, xLim: (real, real), yLim: (real, real)): (r: seq<nat>)
    requires n < |xs| <= |ys|
    ensures forall k :: 0 <= k < |r| ==> r[k] < n && SegmentInRange(xs, ys, r[k], xLim, yLim)
    ensures forall i: nat :: i < n && SegmentInRange(xs, ys, i, xLim, yLim) ==> i in r
    ensures forall k, l :: 0 <= k < l < |r| ==> r[k] < r[l]
  {
    if n == 0 then []
    else
      var init := LineSegments(xs, ys, n - 1, xLim, yLim);
      if SegmentInRange(xs, ys, n - 1, xLim, yLim) then init + [n - 1] else init
  }

  /** A segment is drawn only between two points a scatter of the same data
      would draw. */
  lemma SegmentsJoinDrawnPoints(xs: seq<F32>, ys: seq<F32>, xLim: (real, real), yLim: (real, real), i: nat)
    requires 1 <= |xs| <= |ys|
    requires i in LineSegments(xs, ys, |xs| - 1, xLim, yLim)
    ensures i in ScatterDrawn(xs, ys, |xs|, xLim, yLim) && i + 1 in ScatterDrawn(xs, ys, |xs|, xLim, yLim)
  {
    var segs := LineSegments(xs, ys, |xs| - 1, xLim, yLim);
    var k :| 0 <= k < |segs| && segs[k] == i;
    assert SegmentInRange(xs, ys, i, xLim, yLim);
  }

  /** When every point below `n + 1` is out of range, no segment is drawn. */
  lemma {:induction false} NoSegmentsOutOfRange(xs: seq<F32>, ys: seq<F32>, n: nat, xLim: (real, real), yLim: (real, real))
    requires n < |xs| <= |ys|
    requires forall i :: 0 <= i <= n ==> Skipped(xs[i], ys[i], xLim, yLim)
    ensures LineSegments(xs, ys, n, xLim, yLim) == []
  {
    if n > 0 {
      NoSegmentsOutOfRange(xs, ys, n - 1, xLim, yLim);
    }
  }

  /** Whether drawing the command reaches an `unimplemented!()`: a `Legend`
      always does, a dotted `Line` does at its first drawable segment. */
  predicate CommandPanics(c: PlotCommand, xLim: (real, real), yLim: (real, real))
    requires c.Line? ==> 1 <= |c.xs| <= |c.ys|
  {
    c.Legend? || (c.Line? && c.ls == Dotted && |LineSegments(c.xs, c.ys, |c.xs| - 1, xLim, yLim)| > 0)
  }

  /** A dotted line whose points all lie out of range draws nothing and so
      does not fail. */
  lemma DottedOutOfRangeDoesNotPanic(xs: seq<F32>, ys: seq<F32>, xLim: (real, real), yLim: (real, real))
    requires 1 <= |xs| <= |ys|
    requires forall i :: 0 <= i < |xs| ==> Skipped(xs[i], ys[i], xLim, yLim)
    ensures !CommandPanics(Line(xs, ys, Dotted), xLim, yLim)
  {
    NoSegmentsOutOfRange(xs, ys, |xs| - 1, xLim, yLim);
  }
}
