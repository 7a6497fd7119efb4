/** The coordinate maps of a plot (src/element/dynamic_plot.rs): data
    coordinates to axis coordinates, where the visible range of each axis is
    [0, 1], and axis coordinates to pixel coordinates inside the plot's
    buffer, leaving `borderX` columns on the left and `borderY` rows at the
    bottom for tick labels. A limit is a `(low, high)` pair. */
module Projection {
  import opened Wrappers
  import opened Arith

  /** The value either arm of a `data_to_axis` result carries. */
  function Carried(r: Result<(real, real), (real, real)>): (real, real)
  {
    match r
    case Ok(p) => p
    case Err(p) => p
  }

  /** Whether `v` lies outside the limit, compared as the source compares. */
  predicate OutsideLimit(v: real, lim: (real, real))
  {
    v < lim.0 || v > lim.1
  }

  /** `(v - low) / (high - low)`. */
  function Normalize(v: real, lim: (real, real)): (n: real)
    requires lim.1 != lim.0
    ensures n * (lim.1 - lim.0) == v - lim.0
  {
    (v - lim.0) / (lim.1 - lim.0)
  }

  /** With increasing limits, the normalised value is in [0, 1] exactly when
      the value is inside the limit. */
  lemma NormalizeUnit(v: real, lim: (real, real))
    requires lim.0 < lim.1
    ensures 0.0 <= Normalize(v, lim) <= 1.0 <==> !OutsideLimit(v, lim)
  {
    var n, s := Normalize(v, lim), lim.1 - lim.0;
    assert n * s == v - lim.0;
    if 0.0 <= n {
      MulNonneg(n, s);
    } else {
      MulNonpos(s, n);
    }
    if n <= 1.0 {
      MulNonneg(1.0 - n, s);
    } else {
      MulNonneg(n - 1.0, s);
      assert (n - 1.0) * s > 0.0 by {
        assert (n - 1.0) * s != 0.0;
      }
    }
  }

  /** `data_to_axis`: both coordinates normalised against the plot's limits,
      as `Err` when the point lies outside either limit. A zero-width limit
      gives a non-finite value in the source and is excluded. */
  function DataToAxis(pos: (real, real), xLim: (real, real), yLim: (real, real)): (r: Result<(real, real), (real, real)>)
    requires xLim.1 != xLim.0 && yLim.1 != yLim.0
    ensures Carried(r).0 * (xLim.1 - xLim.0) == pos.0 - xLim.0
    ensures Carried(r).1 * (yLim.1 - yLim.0) == pos.1 - yLim.0
    ensures r.Err? <==> OutsideLimit(pos.0, xLim) || OutsideLimit(pos.1, yLim)
  {
    var answer := (Normalize(pos.0, xLim), Normalize(pos.1, yLim));
    if OutsideLimit(pos.0, xLim) || OutsideLimit(pos.1, yLim) then Err(answer) else Ok(answer)
  }

  /** With increasing limits, a point is accepted exactly when it lands in the
      unit square. */
  lemma DataToAxisUnitSquare(pos: (real, real), xLim: (real, real), yLim: (real, real))
    requires xLim.0 < xLim.1 && yLim.0 < yLim.1
    ensures var r := DataToAxis(pos, xLim, yLim);
      r.Ok? <==> 0.0 <= Carried(r).0 <= 1.0 && 0.0 <= Carried(r).1 <= 1.0
  {
    NormalizeUnit(pos.0, xLim);
    NormalizeUnit(pos.1, yLim);
  }

  /** Limits given high-to-low accept no point at all. */
  lemma InvertedLimitRejects(pos: (real, real), xLim: (real, real), yLim: (real, real))
    requires xLim.1 != xLim.0 && yLim.1 != yLim.0
    requires xLim.0 > xLim.1 || yLim.0 > yLim.1
    ensures DataToAxis(pos, xLim, yLim).Err?
  {
  }

  /** `unprotected_data_to_axis`: the normalised point, inside the limits or
      not. */
  function UnprotectedDataToAxis(pos: (real, real), xLim: (real, real), yLim: (real, real)): (p: (real, real))
    requires xLim.1 != xLim.0 && yLim.1 != yLim.0
    ensures p == Carried(DataToAxis(pos, xLim, yLim))
    ensures p.0 * (xLim.1 - xLim.0) == pos.0 - xLim.0
    ensures p.1 * (yLim.1 - yLim.0) == pos.1 - yLim.0
  {
    match DataToAxis(pos, xLim, yLim)
    case Ok(p) => p
    case Err(p) => p
  }

  /** `axis_to_pixel` for a `width` x `height` buffer: x grows from `borderX`
      to `width`, y from `height - borderY` up to 0. The source subtracts the
      borders from the unsigned size, so they must fit. */
  function AxisToPixel(pos: (real, real), width: nat, height: nat, borderX: nat, borderY: nat): (real, real)
    requires borderX <= width && borderY <= height
  {
    (borderX as real + pos.0 * (width - borderX) as real,
     height as real - (borderY as real + pos.1 * (height - borderY) as real))
  }

  /** The axis origin lands on the inner corner of the borders and (1, 1) on
      the top-right corner of the buffer. */
  lemma AxisToPixelCorners(width: nat, height: nat, borderX: nat, borderY: nat)
    requires borderX <= width && borderY <= height
    ensures AxisToPixel((0.0, 0.0), width, height, borderX, borderY) == (borderX as real, (height - borderY) as real)
    ensures AxisToPixel((1.0, 1.0), width, height, borderX, borderY) == (width as real, 0.0)
  {
  }

  /** The unit square lands inside the plot area, right of the y axis and
      above the x axis. */
  lemma AxisToPixelInPlotArea(pos: (real, real), width: nat, height: nat, borderX: nat, borderY: nat)
    requires borderX <= width && borderY <= height
    requires 0.0 <= pos.0 <= 1.0 && 0.0 <= pos.1 <= 1.0
    ensures var p := AxisToPixel(pos, width, height, borderX, borderY);
      borderX as real <= p.0 <= width as real && 0.0 <= p.1 <= (height - borderY) as real
  {
    var sx, sy := (width - borderX) as real, (height - borderY) as real;
    MulNonneg(pos.0, sx);
    MulNonneg(1.0 - pos.0, sx);
    MulNonneg(pos.1, sy);
    MulNonneg(1.0 - pos.1, sy);
  }

  /** The map is invertible on a non-empty plot area: each axis coordinate
      can be read back from its pixel coordinate. */
  lemma AxisToPixelInverse(pos: (real, real), width: nat, height: nat, borderX: nat, borderY: nat)
    requires borderX < width && borderY < height
    ensures var p := AxisToPixel(pos, width, height, borderX, borderY);
      (p.0 - borderX as real) / (width - borderX) as real == pos.0 &&
      ((height - borderY) as real - p.1) / (height - borderY) as real == pos.1
  {
  }
}
