/** The plot element of src/element/dynamic_plot.rs: a buffer of its own, the
    axis limits chosen from the last batch of commands, the borders left for
    tick labels, and the pixel writes it is drawn with. The plot is placed in
    the frame with its `top` as the column offset and its `left` as the row
    offset, as the source resolves and uses them. */
module PlotEngine {
  import opened Wrappers
  import opened Pixels
  import opened Arith
  import opened Util
  import opened Styling
  import opened Element
  import opened PlotCommands
  import opened Projection
  import opened AxisLimits

  /** Whether the offset `(i, j)` lies in the square window `-reach..=reach`
      the disk and ring loops scan. */
  predicate InWindow(i: int, j: int, reach: int)
  {
    -reach <= i <= reach && -reach <= j <= reach
  }

  /** The scan window of `draw_disk` and `draw_circle`:
      `radius.ceil() as i32 + 1`. */
  function Reach(radius: real): (r: int)
    ensures radius + 1.0 <= r as real < radius + 2.0
  {
    Ceil(radius) + 1
  }

  /** What `draw_disk` leaves at offset `(i, j)` from the centre over a pixel
      that was `below`: the colour strictly inside the radius, the blend with
      alpha `radius - dist + 1` on the fringe, nothing beyond `radius + 1`.
      `root` stands for the square root of the squared distance. */
  function DiskPixel(below: Rgba, i: int, j: int, radius: real, color: Rgba, root: nat -> real): Rgba
  {
    var d2 := i * i + j * j;
    if d2 as real < radius * radius then color
    else if d2 as real > (radius + 1.0) * (radius + 1.0) then below
    else Blend(color, below, radius - root(d2) + 1.0)
  }

  /** What `draw_circle` leaves at offset `(i, j)`: nothing inside
      `radius - 1` or beyond `radius + 1`, the blend with alpha
      `1 - |radius - dist|` in between. */
  function RingPixel(below: Rgba, i: int, j: int, radius: real, color: Rgba, root: nat -> real): Rgba
  {
    var d2 := i * i + j * j;
    if d2 as real < (radius - 1.0) * (radius - 1.0) then below
    else if d2 as real > (radius + 1.0) * (radius + 1.0) then below
    else Blend(color, below, 1.0 - Abs(radius - root(d2)))
  }

  /** For non-negative reals, `a * a <= b * b` gives `a <= b`. */
  lemma SquareMono(a: real, b: real)
    requires 0.0 <= a && 0.0 <= b && a * a <= b * b
    ensures a <= b
  {
    if a > b {
      assert (a - b) * (a + b) == a * a - b * b;
      MulPos(a - b, a + b);
    }
  }

  /** The larger square of `|i|` and `|j|` is at most `i * i + j * j`. */
  lemma CoordinateBelowDistance(i: int, j: int)
    ensures (if i < 0 then -i else i) as real * (if i < 0 then -i else i) as real <= (i * i + j * j) as real
    ensures (if j < 0 then -j else j) as real * (if j < 0 then -j else j) as real <= (i * i + j * j) as real
  {
    assert i * i >= 0 && j * j >= 0;
  }

  /** Any offset within distance `radius + 1` of the centre is inside the scan
      window, so the window cuts nothing off a disk or a ring. */
  lemma WindowCoversFringe(i: int, j: int, radius: real)
    requires radius >= 0.0
    requires (i * i + j * j) as real <= (radius + 1.0) * (radius + 1.0)
    ensures InWindow(i, j, Reach(radius))
  {
    var ai := if i < 0 then -i else i;
    var aj := if j < 0 then -j else j;
    CoordinateBelowDistance(i, j);
    SquareMono(ai as real, radius + 1.0);
    SquareMono(aj as real, radius + 1.0);
  }

  /** Footprint of the disk: with a non-negative radius, every offset strictly
      inside the radius gets exactly the colour, and every offset beyond
      `radius + 1` is left alone, in or out of the window. */
  lemma DiskFootprint(below: Rgba, i: int, j: int, radius: real, color: Rgba, root: nat -> real)
    requires radius >= 0.0
    ensures (i * i + j * j) as real < radius * radius ==>
      InWindow(i, j, Reach(radius)) && DiskPixel(below, i, j, radius, color, root) == color
    ensures (i * i + j * j) as real > (radius + 1.0) * (radius + 1.0) ==>
      DiskPixel(below, i, j, radius, color, root) == below
  {
    if (i * i + j * j) as real < radius * radius {
      MulNonneg(radius, radius);
      MulNonneg(radius, 1.0);
      assert radius * radius <= (radius + 1.0) * (radius + 1.0);
      WindowCoversFringe(i, j, radius);
    }
  }

  /** Footprint of the ring: offsets inside `radius - 1` and beyond
      `radius + 1` are left alone. */
  lemma RingFootprint(below: Rgba, i: int, j: int, radius: real, color: Rgba, root: nat -> real)
    ensures (i * i + j * j) as real < (radius - 1.0) * (radius - 1.0) ==> RingPixel(below, i, j, radius, color, root) == below
    ensures (i * i + j * j) as real > (radius + 1.0) * (radius + 1.0) ==> RingPixel(below, i, j, radius, color, root) == below
  {
  }

  /** One turn of the loop of `set_axis_limits`: a `Scatter` or `Line` needs
      a finite value in each array, and then widens each axis that has no
      explicit limit to take in its finite range; `SetXLim` and `SetYLim`
      replace their axis's accumulator and mark it set. */
  method AbsorbCommand(c: PlotCommand, xAcc: Acc, yAcc: Acc) returns (ok: bool, xNext: Acc, yNext: Acc)
    ensures ok <==> Usable(c)
    ensures ok ==> xNext == Step(xAcc, c, X) && yNext == Step(yAcc, c, Y)
  {
    xNext, yNext := xAcc, yAcc;
    if c.Scatter? || c.Line? {
      var xMin := FNanMin(c.xs);
      if xMin.None? {
        return false, xNext, yNext;
      }
      var xMax := FNanMax(c.xs);
      var yMin := FNanMin(c.ys);
      if yMin.None? {
        return false, xNext, yNext;
      }
      var yMax := FNanMax(c.ys);
      assert Usable(c);
      assert LocalLimit(c, X) == (xMin.value, xMax.value);
      assert LocalLimit(c, Y) == (yMin.value, yMax.value);
      if !xAcc.explicit {
        xNext := match xAcc.lim
          case None => Acc(Some((xMin.value, xMax.value)), false)
          case Some(l) => Acc(Some((Min(l.0, xMin.value), Max(l.1, xMax.value))), false);
      }
      if !yAcc.explicit {
        yNext := match yAcc.lim
          case None => Acc(Some((yMin.value, yMax.value)), false)
          case Some(l) => Acc(Some((Min(l.0, yMin.value), Max(l.1, yMax.value))), false);
      }
    } else if c.SetXLim? {
      xNext := Acc(Some((c.low, c.high)), true);
    } else if c.SetYLim? {
      yNext := Acc(Some((c.low, c.high)), true);
    }
    ok := true;
  }

  class DynamicPlot {
    const pixels: array2<Rgba>
    const top: nat
    const left: nat
    const width: nat
    const height: nat
    /** The limits; `None` until the first batch of commands is plotted (the
        source starts from NaN). */
    var xLim: Option<(real, real)>
    var yLim: Option<(real, real)>
    var borderX: nat
    var borderY: nat

    /** The plot's own buffer is `width` x `height`. */
    predicate Valid()
    {
      pixels.Length0 == width && pixels.Length1 == height
    }

    /** `DynamicPlot::new`: the rectangle is resolved as (top, left, width,
        height), with the first and third against the window width, and the
        buffer starts out transparent. */
    constructor (rect: (Dim, Dim, Dim, Dim), windowWidth: nat, windowHeight: nat)
      ensures Valid() && fresh(pixels)
      ensures top == rect.0.ToPixel(windowWidth, windowHeight, true)
      ensures left == rect.1.ToPixel(windowWidth, windowHeight, false)
      ensures width == rect.2.ToPixel(windowWidth, windowHeight, true)
      ensures height == rect.3.ToPixel(windowWidth, windowHeight, false)
      ensures forall x, y :: 0 <= x < width && 0 <= y < height ==> pixels[x, y] == TRANSPARENT
      ensures xLim.None? && yLim.None? && borderX == 0 && borderY == 0
    {
      top := rect.0.ToPixel(windowWidth, windowHeight, true);
      left := rect.1.ToPixel(windowWidth, windowHeight, false);
      var w := rect.2.ToPixel(windowWidth, windowHeight, true);
      var h := rect.3.ToPixel(windowWidth, windowHeight, false);
      width, height := w, h;
      pixels := new Rgba[w, h]((x, y) => TRANSPARENT);
      xLim, yLim := None, None;
      borderX, borderY := 0, 0;
    }

    /** `clear`: every pixel white. */
    method Clear()
      requires Valid()
      modifies pixels
      ensures forall x, y :: 0 <= x < width && 0 <= y < height ==> pixels[x, y] == WHITE
    {
      FillAll(pixels, WHITE);
    }

    /** `set_axis_limits`. Every `Scatter` and `Line` array must have a finite
        value, checked before anything else, so even an axis with an explicit
        limit fails on one that has none: the source panics, and here the
        result is false and the limits stay as they were. Otherwise each axis
        gets `AxisLimit`. */
    method SetAxisLimits(cmds: seq<PlotCommand>) returns (ok: bool)
      modifies this`xLim, this`yLim
      ensures ok <==> AllUsable(cmds)
      ensures ok ==> xLim == Some(AxisLimit(cmds, X)) && yLim == Some(AxisLimit(cmds, Y))
      ensures !ok ==> xLim == old(xLim) && yLim == old(yLim)
    {
      var xAcc, yAcc := Acc(None, false), Acc(None, false);
      for i := 0 to |cmds|
        invariant xLim == old(xLim) && yLim == old(yLim)
        invariant AllUsable(cmds[..i])
        invariant xAcc == Accumulate(cmds[..i], X) && yAcc == Accumulate(cmds[..i], Y)
      {
        var usable;
        usable, xAcc, yAcc := AbsorbCommand(cmds[i], xAcc, yAcc);
        if !usable {
          return false;
        }
        assert cmds[..i + 1][..i] == cmds[..i];
        assert AllUsable(cmds[..i + 1]) by {
          assert forall j :: 0 <= j < i ==> cmds[..i + 1][j] == cmds[..i][j];
        }
      }
      assert cmds[..|cmds|] == cmds;
      if !xAcc.explicit && xAcc.lim.Some? {
        xAcc := Acc(Some(Widen(xAcc.lim.value)), false);
      }
      if !yAcc.explicit && yAcc.lim.Some? {
        yAcc := Acc(Some(Widen(yAcc.lim.value)), false);
      }
      xLim := Some(if xAcc.lim.Some? then xAcc.lim.value else (-1.0, 1.0));
      yLim := Some(if yAcc.lim.Some? then yAcc.lim.value else (-1.0, 1.0));
      ok := true;
    }

    /** `compute_layout`: both borders are twice the font size. */
    method ComputeLayout(style: Style)
      modifies this`borderX, this`borderY
      ensures borderX == 2 * style.fontSize && borderY == 2 * style.fontSize
    {
      borderX := 2 * style.fontSize;
      borderY := 2 * style.fontSize;
    }

    /** Whether `draw_h_line` writes `(c, r)`: columns `xs.0..xs.1`, rows
        `y - half .. y - half + lineWidth`. */
    predicate OnHLine(c: int, r: int, y: nat, xs: (nat, nat), lineWidth: nat)
    {
      xs.0 <= c < xs.1 && y - lineWidth / 2 <= r < y - lineWidth / 2 + lineWidth
    }

    /** `draw_h_line`. The source indexes without a bounds check and subtracts
        half the width from an unsigned row, so whenever it writes at all the
        whole band must lie in the buffer. */
    method DrawHLine(y: nat, xs: (nat, nat), lineWidth: nat, color: Rgba)
      requires Valid()
      requires xs.0 < xs.1 && lineWidth > 0 ==>
        lineWidth / 2 <= y && xs.1 <= width && y - lineWidth / 2 + lineWidth <= height
      modifies pixels
      ensures forall c, r :: 0 <= c < width && 0 <= r < height ==>
        pixels[c, r] == (if OnHLine(c, r, y, xs, lineWidth) then color else old(pixels[c, r]))
    {
      var half := lineWidth / 2;
      var x := xs.0;
      while x < xs.1
        invariant xs.0 <= x && (xs.0 < xs.1 ==> x <= xs.1) && (xs.1 <= xs.0 ==> x == xs.0)
        invariant forall c, r :: 0 <= c < width && 0 <= r < height ==>
          pixels[c, r] == (if OnHLine(c, r, y, (xs.0, x), lineWidth) then color else old(pixels[c, r]))
      {
        for k := 0 to lineWidth
          invariant forall c, r :: 0 <= c < width && 0 <= r < height ==>
            pixels[c, r] == (if OnHLine(c, r, y, (xs.0, x), lineWidth) || (c == x && y - half <= r < y - half + k)
                             then color else old(pixels[c, r]))
        {
          pixels[x, y - half + k] := color;
        }
        x := x + 1;
      }
    }

    /** Whether `draw_v_line` writes `(c, r)`: rows from the smaller to the
        larger endpoint inclusive, columns `x - half .. x - half + lineWidth`. */
    predicate OnVLine(c: int, r: int, x: nat, ys: (nat, nat), lineWidth: nat)
    {
      (ys.0 <= r <= ys.1 || ys.1 <= r <= ys.0) && x - lineWidth / 2 <= c < x - lineWidth / 2 + lineWidth
    }

    /** `draw_v_line`: rows and columns outside the buffer are skipped, in
        either order of the endpoints. The unsigned `x - half` must not wrap
        once a row inside the buffer is reached. */
    method DrawVLine(x: nat, ys: (nat, nat), lineWidth: nat, color: Rgba)
      requires Valid()
      requires lineWidth > 0 && (ys.0 < height || ys.1 < height) ==> lineWidth / 2 <= x
      modifies pixels
      ensures forall c, r :: 0 <= c < width && 0 <= r < height ==>
        pixels[c, r] == (if OnVLine(c, r, x, ys, lineWidth) then color else old(pixels[c, r]))
    {
      var half := lineWidth / 2;
      var lo, hi := if ys.0 <= ys.1 then ys.0 else ys.1, if ys.0 <= ys.1 then ys.1 else ys.0;
      for row := lo to hi + 1
        invariant forall c, r :: 0 <= c < width && 0 <= r < height ==>
          pixels[c, r] == (if lo <= r < row && x - half <= c < x - half + lineWidth then color else old(pixels[c, r]))
      {
        if row >= height {
          continue;
        }
        for k := 0 to lineWidth
          invariant forall c, r :: 0 <= c < width && 0 <= r < height ==>
            pixels[c, r] == (if (lo <= r < row && x - half <= c < x - half + lineWidth) || (r == row && x - half <= c < x - half + k)
                             then color else old(pixels[c, r]))
        {
          if x - half + k >= width {
            continue;
          }
          pixels[x - half + k, row] := color;
        }
      }
    }

    /** `draw_axis`: the y axis in column `borderX` from row 0 down to the
        x axis, and the x axis in row `height - borderY` from `borderX` to the
        right edge, one pixel wide in black. */
    method DrawAxis()
      requires Valid()
      requires borderY <= height && (borderX < width ==> 1 <= borderY)
      modifies pixels
      ensures forall c, r :: 0 <= c < width && 0 <= r < height ==>
        pixels[c, r] == (if (c == borderX && r <= height - borderY) || (r == height - borderY && borderX <= c)
                         then BLACK else old(pixels[c, r]))
    {
      DrawVLine(borderX, (0, height - borderY), 1, BLACK);
      DrawHLine(height - borderY, (borderX, width), 1, BLACK);
    }

    /** The pixel a point in axis coordinates is drawn around: the axis-to-
        pixel map, each coordinate truncated as `as i32` does. */
    function Centre(pos: (real, real)): (int, int)
      reads this
      requires borderX <= width && borderY <= height
    {
      var p := AxisToPixel(pos, width, height, borderX, borderY);
      (Trunc(p.0), Trunc(p.1))
    }

    /** The scan shared by `draw_disk` and `draw_circle`: every offset of the
        window around the centre whose pixel is inside the buffer is repainted
        once by `paint`, from the pixel's value before the scan. */
    method PaintWindow(centre: (int, int), reach: int, paint: (Rgba, int, int) -> Rgba)
      requires Valid()
      modifies pixels
      ensures forall x, y :: 0 <= x < width && 0 <= y < height ==>
        pixels[x, y] == (if InWindow(x - centre.0, y - centre.1, reach)
                         then paint(old(pixels[x, y]), x - centre.0, y - centre.1) else old(pixels[x, y]))
    {
      var i := -reach;
      while i <= reach
        invariant -reach <= i && (-reach <= reach ==> i <= reach + 1)
        invariant forall x, y :: 0 <= x < width && 0 <= y < height ==>
          pixels[x, y] == (if InWindow(x - centre.0, y - centre.1, reach) && x - centre.0 < i
                           then paint(old(pixels[x, y]), x - centre.0, y - centre.1) else old(pixels[x, y]))
      {
        var j := -reach;
        while j <= reach
          invariant -reach <= j <= reach + 1
          invariant forall x, y :: 0 <= x < width && 0 <= y < height ==>
            pixels[x, y] == (if InWindow(x - centre.0, y - centre.1, reach) &&
                                (x - centre.0 < i || (x - centre.0 == i && y - centre.1 < j))
                             then paint(old(pixels[x, y]), x - centre.0, y - centre.1) else old(pixels[x, y]))
        {
          var x, y := i + centre.0, j + centre.1;
          if 0 <= x < width && 0 <= y < height {
            pixels[x, y] := paint(pixels[x, y], i, j);
          }
          j := j + 1;
        }
        i := i + 1;
      }
    }

    /** `draw_disk` around the point `pos` in axis coordinates. */
    method DrawDisk(pos: (real, real), radius: real, color: Rgba, root: nat -> real)
      requires Valid() && borderX <= width && borderY <= height
      modifies pixels
      ensures var centre := Centre(pos);
        forall x, y :: 0 <= x < width && 0 <= y < height ==>
          pixels[x, y] == (if InWindow(x - centre.0, y - centre.1, Reach(radius))
                           then DiskPixel(old(pixels[x, y]), x - centre.0, y - centre.1, radius, color, root)
                           else old(pixels[x, y]))
    {
      PaintWindow(Centre(pos), Reach(radius), (below, i, j) => DiskPixel(below, i, j, radius, color, root));
    }

    /** `draw_circle` around the point `pos` in axis coordinates. */
    method DrawCircle(pos: (real, real), radius: real, color: Rgba, root: nat -> real)
      requires Valid() && borderX <= width && borderY <= height
      modifies pixels
      ensures var centre := Centre(pos);
        forall x, y :: 0 <= x < width && 0 <= y < height ==>
          pixels[x, y] == (if InWindow(x - centre.0, y - centre.1, Reach(radius))
                           then RingPixel(old(pixels[x, y]), x - centre.0, y - centre.1, radius, color, root)
                           else old(pixels[x, y]))
    {
      PaintWindow(Centre(pos), Reach(radius), (below, i, j) => RingPixel(below, i, j, radius, color, root));
    }

    /** `Element::draw`: the plot's buffer is copied into the frame with its
        column 0 at frame column `top` and its row 0 at frame row `left`. */
    method Draw(frame: array2<Rgba>)
      requires Valid() && frame != pixels
      requires width > 0 && height > 0 ==> top + width <= frame.Length0 && left + height <= frame.Length1
      modifies frame
      ensures forall x, y :: 0 <= x < frame.Length0 && 0 <= y < frame.Length1 ==>
        frame[x, y] == (if top <= x < top + width && left <= y < left + height then pixels[x - top, y - left]
                        else old(frame[x, y]))
    {
      for i := 0 to width
        invariant forall x, y :: 0 <= x < frame.Length0 && 0 <= y < frame.Length1 ==>
          frame[x, y] == (if top <= x < top + i && left <= y < left + height then pixels[x - top, y - left]
                          else old(frame[x, y]))
      {
        for j := 0 to height
          invariant forall x, y :: 0 <= x < frame.Length0 && 0 <= y < frame.Length1 ==>
            frame[x, y] == (if (top <= x < top + i && left <= y < left + height) || (x == top + i && left <= y < left + j)
                            then pixels[x - top, y - left] else old(frame[x, y]))
        {
          frame[top + i, left + j] := pixels[i, j];
        }
      }
    }

    /** `Element::bbox`: the plot never claims the mouse. */
    predicate Bbox(mouse: Mouse)
    {
      false
    }

    /** So every mouse handler of the plot, being the trait's default, lets
        the event pass on. */
    lemma NeverResponds(mouse: Mouse)
      ensures DefaultResponse(Bbox(mouse)) == NoEvent
    {
    }
  }
}
