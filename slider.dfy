/** A horizontal slider (src/element/slider.rs): a 128-pixel track centred on
    its position, a knob at relative position `pos` in [0, 1], selection by
    pressing on it, dragging while selected, and the value readout. */
module SliderWidget {
  import opened Wrappers
  import opened Pixels
  import opened Arith
  import opened Util
  import opened Styling
  import opened Element

  const SLIDER_WIDTH: nat := 128
  /** Knob radius; the hit area reaches this far beyond the track. */
  const SLIDER_RADIUS: int := 6

  /** Gap between the track's ends and the two labels. */
  const TEXT_BUFFER: int := 8
  /** `SLIDER_RADIUS + THICKNESS / 2` with a thickness of 1: the knob is
      painted over the square of offsets at most this far from its centre. */
  const KNOB_REACH: int := 6

  /** What drawing a slider takes from outside the model: `root` stands for
      the float square root the knob's shading uses, and `spell` for the
      laid-out text of `format!("{}", v)`. */
  datatype Raster = Raster(root: nat -> real, spell: real -> TextLayout)

  /** The knob's colour at offset `(i, j)` from its centre:
      `blend_color(WHITE, highlight, v)` with `v = |6 - dist|.min(1)`. The
      shading `v` is never negative, so the source's `v >= 0` test always
      passes and the whole square is painted, whatever was below. */
  function KnobPixel(i: int, j: int, highlight: Rgba, root: nat -> real): Rgba
  {
    Blend(WHITE, highlight, Min(Abs(SLIDER_RADIUS as real - root(i * i + j * j)), 1.0))
  }

  /** The knob is white at least one pixel away from the circle of radius 6,
      its centre included, and exactly the opaque highlight on that circle. */
  lemma KnobShading(i: int, j: int, highlight: Rgba, root: nat -> real)
    ensures Abs(SLIDER_RADIUS as real - root(i * i + j * j)) >= 1.0 ==> KnobPixel(i, j, highlight, root) == WHITE
    ensures root(i * i + j * j) == SLIDER_RADIUS as real ==>
      KnobPixel(i, j, highlight, root) == Rgba(highlight.r, highlight.g, highlight.b, 255)
  {
  }

  /** How the value is read out: rounded to `d` decimals, or to an integer. */
  datatype SliderType = Float(decimals: nat) | Int

  /** `f32::round`: to the nearest integer, halves away from zero. */
  function Round(v: real): (r: int)
    ensures v >= 0.0 ==> v - 0.5 < r as real <= v + 0.5
    ensures v < 0.0 ==> v - 0.5 <= r as real < v + 0.5
  {
    if v >= 0.0 then (v + 0.5).Floor else -((-v + 0.5).Floor)
  }

  /** `10f32.powi(d)`. */
  function Pow10(d: nat): (p: real)
    ensures p >= 1.0
  {
    if d == 0 then 1.0 else 10.0 * Pow10(d - 1)
  }

  /** `f32::clamp` with `lo <= hi` (the source panics otherwise). */
  function Clamp(v: real, lo: real, hi: real): (r: real)
    requires lo <= hi
    ensures lo <= r <= hi
    ensures lo <= v <= hi ==> r == v
    ensures v < lo ==> r == lo
    ensures v > hi ==> r == hi
  {
    if v < lo then lo else if v > hi then hi else v
  }

  /** Rounding `v * base` to an integer and dividing by `base` moves `v` by at
      most half of `1 / base`. */
  lemma RoundedScaleError(v: real, base: real)
    requires base >= 1.0
    ensures -0.5 / base <= (Round(v * base) as real) / base - v <= 0.5 / base
  {
    var w := v * base;
    var e := Round(w) as real - w;
    assert -0.5 <= e <= 0.5;
    assert (Round(w) as real) / base - v == e / base;
    assert -0.5 / base <= e / base <= 0.5 / base;
  }

  /** `(v * base).round() / base`. */
  function RoundTo(v: real, base: real): (r: real)
    requires base >= 1.0
    ensures -0.5 / base <= r - v <= 0.5 / base
  {
    RoundedScaleError(v, base);
    (Round(v * base) as real) / base
  }

  /** Clamping into an interval that holds `raw` keeps a value at least as
      close to `raw`. */
  lemma ClampCloser(v: real, raw: real, lo: real, hi: real, eps: real)
    requires lo <= raw <= hi
    requires -eps <= v - raw <= eps
    ensures -eps <= Clamp(v, lo, hi) - raw <= eps
  {
  }

  /** How far rounding may move a value: half a unit in the last kept digit. */
  function Tolerance(t: SliderType): real
  {
    match t
    case Float(d) => 0.5 / Pow10(d)
    case Int => 0.5
  }

  /** The rounding step of `get_value`: to `d` decimals for `Float(d)`, to an
      integer for `Int`. */
  function Rounded(t: SliderType, raw: real): real
  {
    match t
    case Float(d) => RoundTo(raw, Pow10(d))
    case Int => Round(raw) as real
  }

  /** The rounded readout is within the type's tolerance of the raw value. */
  lemma RoundedWithin(t: SliderType, raw: real)
    ensures -Tolerance(t) <= Rounded(t, raw) - raw <= Tolerance(t)
  {
    match t
    case Float(d) =>
      var base := Pow10(d);
      var r := RoundTo(raw, base);
      assert Rounded(t, raw) == r && Tolerance(t) == 0.5 / base;
    case Int =>
  }

  class Slider {
    const x: nat
    const y: nat
    const width: int
    const text: TextLayout
    const sliderType: SliderType
    const start: real
    const end: real
    var pos: real
    var selected: bool

    /** Every slider's track is 128 pixels wide. */
    predicate Valid()
    {
      width == SLIDER_WIDTH
    }

    /** `Slider::new` with `data = [start, end, initial]`. The initial position
        is the initial value's fraction of the range, which needs a non-empty
        range. */
    constructor (x: Dim, y: Dim, text: TextLayout, sliderType: SliderType, data: (real, real, real), windowWidth: nat, windowHeight: nat)
      requires data.1 != data.0
      ensures this.x == x.ToPixel(windowWidth, windowHeight, true)
      ensures this.y == y.ToPixel(windowWidth, windowHeight, false)
      ensures Valid() && this.text == text && this.sliderType == sliderType
      ensures start == data.0 && end == data.1 && !selected
      ensures pos * (data.1 - data.0) == data.2 - data.0
    {
      this.x := x.ToPixel(windowWidth, windowHeight, true);
      this.y := y.ToPixel(windowWidth, windowHeight, false);
      width := Pixel(SLIDER_WIDTH).ToPixel(windowWidth, windowHeight, true);
      this.text := text;
      this.sliderType := sliderType;
      pos := (data.2 - data.0) / (data.1 - data.0);
      start := data.0;
      end := data.1;
      selected := false;
    }

    /** The unrounded value at the current position. */
    function RawValue(): real
      reads this
    {
      pos * (end - start) + start
    }

    /** `get_value`: the raw value rounded as the slider type says, clamped to
        `[start, end]`. The clamp panics on `start > end`, which is `None`
        here. */
    function GetValue(): (v: Option<real>)
      reads this
      ensures v.Some? <==> start <= end
      ensures v.Some? ==> start <= v.value <= end
    {
      if start > end then None else Some(Clamp(Rounded(sliderType, RawValue()), start, end))
    }

    /** While the raw value is in range, the readout is within rounding
        distance of it. */
    lemma GetValueNearRaw()
      requires start <= RawValue() <= end
      ensures GetValue().Some?
      ensures -Tolerance(sliderType) <= GetValue().value - RawValue() <= Tolerance(sliderType)
    {
      RoundedWithin(sliderType, RawValue());
      ClampCloser(Rounded(sliderType, RawValue()), RawValue(), start, end, Tolerance(sliderType));
    }

    /** A position in [0, 1] puts the raw value inside the range. */
    lemma RawValueInRange()
      requires 0.0 <= pos <= 1.0 && start <= end
      ensures start <= RawValue() <= end
    {
      MulNonneg(pos, end - start);
      MulNonneg(1.0 - pos, end - start);
    }

    /** The hit test: strictly within the knob radius of the track. */
    predicate Bbox(mouse: Mouse)
    {
      x - width / 2 - SLIDER_RADIUS < mouse.x < x + width / 2 + SLIDER_RADIUS &&
      y - SLIDER_RADIUS < mouse.y < y + SLIDER_RADIUS
    }

    /** The position a press or drag at column `mx` selects: the fraction of
        the track to the left of `mx`, clamped to [0, 1]. */
    function DragPosition(mx: int): (p: real)
      requires Valid()
      ensures 0.0 <= p <= 1.0
      ensures mx <= x - width / 2 ==> p == 0.0
      ensures mx >= x - width / 2 + width ==> p == 1.0
      ensures x - width / 2 <= mx <= x - width / 2 + width ==> p * width as real == (mx - (x - width / 2)) as real
    {
      Clamp((mx - (x - width / 2)) as real / width as real, 0.0, 1.0)
    }

    /** Every pixel of the track is inside the hit area. */
    lemma TrackInsideBbox(c: nat, down: bool)
      requires OnTrack(c, y)
      ensures Bbox(Mouse(c, y, down))
    {
    }

    /** `mouse_button_down`: a press inside selects the slider and moves the
        knob under the mouse; a press outside changes nothing. */
    method MouseButtonDown(mouse: Mouse) returns (r: EventResponse)
      requires Valid()
      modifies this`pos, this`selected
      ensures r == DefaultResponse(Bbox(mouse))
      ensures Bbox(mouse) ==> selected && pos == DragPosition(mouse.x)
      ensures !Bbox(mouse) ==> selected == old(selected) && pos == old(pos)
    {
      if !Bbox(mouse) {
        return NoEvent;
      }
      selected := true;
      pos := DragPosition(mouse.x);
      r := Responded;
    }

    /** `mouse_button_up`: always deselects, inside or not. */
    method MouseButtonUp(mouse: Mouse) returns (r: EventResponse)
      modifies this`selected
      ensures !selected
      ensures r == DefaultResponse(Bbox(mouse))
    {
      selected := false;
      r := DefaultResponse(Bbox(mouse));
    }

    /** `mouse_move`: while the button is held on a selected slider the knob
        follows the mouse, wherever the mouse is. */
    method MouseMove(mouse: Mouse) returns (r: EventResponse)
      requires Valid()
      modifies this`pos
      ensures mouse.down && selected ==> pos == DragPosition(mouse.x)
      ensures !(mouse.down && selected) ==> pos == old(pos)
      ensures r == DefaultResponse(Bbox(mouse))
    {
      if mouse.down && selected {
        pos := DragPosition(mouse.x);
      }
      r := DefaultResponse(Bbox(mouse));
    }

    /** Whether `(c, r)` is a pixel of the track: row `y`, columns
        `x - width/2 ..= x + width/2`. */
    predicate OnTrack(c: int, r: int)
    {
      r == y && x - width / 2 <= c <= x + width / 2
    }

    /** The track line of `draw`, in black. The source indexes without a bounds
        check, so the whole track must lie in the buffer. */
    method DrawTrack(pixels: array2<Rgba>)
      requires Valid()
      requires 0 <= x - width / 2 && x + width / 2 < pixels.Length0 && y < pixels.Length1
      modifies pixels
      ensures forall c, r :: 0 <= c < pixels.Length0 && 0 <= r < pixels.Length1 ==>
        pixels[c, r] == (if OnTrack(c, r) then BLACK else old(pixels[c, r]))
    {
      var half := width / 2;
      for i := -half to half + 1
        invariant forall c, r :: 0 <= c < pixels.Length0 && 0 <= r < pixels.Length1 ==>
          pixels[c, r] == (if r == y && x - half <= c < x + i then BLACK else old(pixels[c, r]))
      {
        pixels[x + i, y] := BLACK;
      }
    }

    /** The knob's centre column: `x + (pos * width as f32) as i32 - width / 2`. */
    function KnobX(): int
      reads this
    {
      x + Trunc(pos * width as real) - width / 2
    }

    /** Whether `(c, r)` is in the knob's square. */
    predicate OnKnob(c: int, r: int)
      reads this
    {
      -KNOB_REACH <= c - KnobX() <= KNOB_REACH && -KNOB_REACH <= r - y <= KNOB_REACH
    }

    /** The knob loops of `draw`: every in-buffer pixel of the square around
        the knob's centre is painted with its shading, the rest stay. */
    method DrawKnob(pixels: array2<Rgba>, highlight: Rgba, root: nat -> real)
      modifies pixels
      ensures forall c, r :: 0 <= c < pixels.Length0 && 0 <= r < pixels.Length1 ==>
        pixels[c, r] == (if OnKnob(c, r) then KnobPixel(c - KnobX(), r - y, highlight, root) else old(pixels[c, r]))
    {
      var kx := KnobX();
      for i := -KNOB_REACH to KNOB_REACH + 1
        invariant forall c, r :: 0 <= c < pixels.Length0 && 0 <= r < pixels.Length1 ==>
          pixels[c, r] == (if OnKnob(c, r) && c - kx < i then KnobPixel(c - kx, r - y, highlight, root) else old(pixels[c, r]))
      {
        for j := -KNOB_REACH to KNOB_REACH + 1
          invariant forall c, r :: 0 <= c < pixels.Length0 && 0 <= r < pixels.Length1 ==>
            pixels[c, r] == (if OnKnob(c, r) && (c - kx < i || (c - kx == i && r - y < j))
                             then KnobPixel(c - kx, r - y, highlight, root) else old(pixels[c, r]))
        {
          var c, r := kx + i, y + j;
          if 0 <= c < pixels.Length0 && 0 <= r < pixels.Length1 {
            pixels[c, r] := KnobPixel(i, j, highlight, root);
          }
        }
      }
    }

    /** Where the name goes: right-aligned and vertically centred,
        `TEXT_BUFFER` left of the track, the start column cast `as u32`. */
    function LabelPlacement(style: Style): Placement
      reads style
    {
      style.TextPlacement(WrapU32(x - width / 2 - TEXT_BUFFER), y, text.width, Center, LowerRight)
    }

    /** Where the readout goes: left-aligned and vertically centred,
        `TEXT_BUFFER` right of the track. */
    function ReadoutPlacement(style: Style, readout: TextLayout): Placement
      reads style
    {
      style.TextPlacement(WrapU32(x + width / 2 + TEXT_BUFFER), y, readout.width, Center, UpperLeft)
    }

    /** The laid-out readout `draw` places right of the track. `get_value`
        panics when `start > end`, and `Draw` excludes that case; the empty
        text stands in for it here. */
    function Readout(raster: Raster): TextLayout
      reads this
    {
      match GetValue()
      case Some(v) => raster.spell(v)
      case None => TextLayout([], 0)
    }

    /** Pixel `(c, r)`, which was `below`, after `draw`: the track in black,
        the knob over it, then the name and the spelled-out value in black. */
    function PaintedPixel(below: Rgba, c: int, r: int, style: Style, raster: Raster): Rgba
      reads this, style
    {
      var marked :=
        if OnKnob(c, r) then KnobPixel(c - KnobX(), r - y, style.highlightColor, raster.root)
        else if OnTrack(c, r) then BLACK
        else below;
      var readout := Readout(raster);
      TextPixel(TextPixel(marked, c, r, text.samples, LabelPlacement(style), BLACK),
                c, r, readout.samples, ReadoutPlacement(style, readout), BLACK)
    }

    /** Whether neither label has a sample that lands on `(c, r)`. */
    predicate Unlabelled(c: int, r: int, style: Style, raster: Raster)
      reads this, style
    {
      var readout := Readout(raster);
      (forall k :: 0 <= k < |text.samples| ==> !Hits(text.samples[k], LabelPlacement(style), c, r)) &&
      (forall k :: 0 <= k < |readout.samples| ==> !Hits(readout.samples[k], ReadoutPlacement(style, readout), c, r))
    }

    /** Away from the labels, `draw` leaves the knob's shading on the knob's
        square, black on the rest of the track, and the old colour
        everywhere else. */
    lemma MarksShowThrough(below: Rgba, c: int, r: int, style: Style, raster: Raster)
      requires Unlabelled(c, r, style, raster)
      ensures OnKnob(c, r) ==> PaintedPixel(below, c, r, style, raster) == KnobPixel(c - KnobX(), r - y, style.highlightColor, raster.root)
      ensures !OnKnob(c, r) && OnTrack(c, r) ==> PaintedPixel(below, c, r, style, raster) == BLACK
      ensures !OnKnob(c, r) && !OnTrack(c, r) ==> PaintedPixel(below, c, r, style, raster) == below
    {
      var marked :=
        if OnKnob(c, r) then KnobPixel(c - KnobX(), r - y, style.highlightColor, raster.root)
        else if OnTrack(c, r) then BLACK
        else below;
      var readout := Readout(raster);
      TextPixelUntouched(marked, c, r, text.samples, LabelPlacement(style), BLACK);
      TextPixelUntouched(marked, c, r, readout.samples, ReadoutPlacement(style, readout), BLACK);
    }

    /** `draw`: the track, the knob, the name and the value. `get_value`
        panics when `start > end`, so drawing needs `start <= end`. */
    method Draw(pixels: array2<Rgba>, style: Style, raster: Raster)
      requires Valid() && start <= end
      requires 0 <= x - width / 2 && x + width / 2 < pixels.Length0 && y < pixels.Length1
      modifies pixels
      ensures forall c, r :: 0 <= c < pixels.Length0 && 0 <= r < pixels.Length1 ==>
        pixels[c, r] == PaintedPixel(old(pixels[c, r]), c, r, style, raster)
    {
      DrawTrack(pixels);
      DrawKnob(pixels, style.highlightColor, raster.root);
      var readout := raster.spell(GetValue().value);
      style.RenderText(pixels, WrapU32(x - width / 2 - TEXT_BUFFER), y, text, BLACK, Center, LowerRight);
      style.RenderText(pixels, WrapU32(x + width / 2 + TEXT_BUFFER), y, readout, BLACK, Center, UpperLeft);
    }
  }
}
