/** The look of an applet (src/style.rs): font size, highlight colour, point
    radius and line width, and the two text renderers. Glyph shaping belongs to
    the font library, so a laid-out text enters the model as a `TextLayout`:
    the coverage samples the glyph rasteriser reports, already shifted by each
    glyph's pixel bounding box, and the width the renderer measures for the
    text. */
module Styling {
  import opened Wrappers
  import opened Pixels
  import opened Util

  const BLACK: Rgba := Rgba(0, 0, 0, 255)
  const WHITE: Rgba := Rgba(255, 255, 255, 255)

  /** The highlight colour a default style starts with, `#888888`. */
  const DEFAULT_HIGHLIGHT: Rgba := Rgba(136, 136, 136, 255)

  datatype TextAlign = UpperLeft | LowerRight | Center

  /** One pixel of glyph coverage at text-local coordinates `(x, y)`. */
  datatype GlyphSample = GlyphSample(x: int, y: int, coverage: real)

  /** A laid-out text: its coverage samples in drawing order and its width in
      pixels (the end of the last glyph's advance, rounded up). */
  datatype TextLayout = TextLayout(samples: seq<GlyphSample>, width: nat)

  /** The four rotations the rotated renderer supports, in degrees. */
  datatype Turn = Deg0 | Deg90 | Deg180 | Deg270

  /** Where text lands: the local box `[0, width) x [0, height)` outside which
      samples are dropped, the rotation applied to local coordinates and the
      buffer position of the local origin. */
  datatype Placement = Placement(width: nat, height: nat, turn: Turn, startX: int, startY: int)

  /** `(font_size as f32 * FONT_SCALE) as u32` with a font scale of 1.5. */
  function ScaledFontSize(fontSize: nat): (s: nat)
    ensures s as real <= fontSize as real * 1.5 < s as real + 1.0
  {
    (3 * fontSize) / 2
  }

  /** The first pixel of a run of `extent` pixels aligned to `start`. */
  function AlignedStart(start: int, extent: nat, align: TextAlign): (r: int)
    ensures r <= start <= r + extent
    ensures align == UpperLeft ==> r == start
    ensures align == LowerRight ==> r + extent == start
    ensures align == Center ==> extent - 1 <= 2 * (start - r) <= extent
  {
    match align
    case UpperLeft => start
    case LowerRight => start - extent
    case Center => start - extent / 2
  }

  /** The angle test of the rotated renderer: any other angle is unsupported. */
  function QuarterTurn(rotation: real): (t: Option<Turn>)
    ensures t.Some? <==> rotation in {0.0, 90.0, 180.0, 270.0}
    ensures t == Some(Deg0) <==> rotation == 0.0
  {
    if rotation == 0.0 then Some(Deg0)
    else if rotation == 90.0 then Some(Deg90)
    else if rotation == 180.0 then Some(Deg180)
    else if rotation == 270.0 then Some(Deg270)
    else None
  }

  /** Local coordinates turned as the rotated renderer turns them. */
  function Rotate(t: Turn, x: int, y: int): (int, int)
  {
    match t
    case Deg0 => (x, y)
    case Deg90 => (y, -x)
    case Deg180 => (-x, -y)
    case Deg270 => (-y, x)
  }

  /** A quarter turn twice is the half turn, and four times is no turn. */
  lemma RotateComposes(x: int, y: int)
    ensures var (x1, y1) := Rotate(Deg90, x, y); Rotate(Deg90, x1, y1) == Rotate(Deg180, x, y)
    ensures var (x1, y1) := Rotate(Deg180, x, y); Rotate(Deg90, x1, y1) == Rotate(Deg270, x, y)
    ensures var (x1, y1) := Rotate(Deg270, x, y); Rotate(Deg90, x1, y1) == (x, y)
  {
  }

  /** Every supported rotation keeps the distance from the local origin. */
  lemma RotateIsometry(t: Turn, x: int, y: int)
    ensures var (x1, y1) := Rotate(t, x, y); x1 * x1 + y1 * y1 == x * x + y * y
  {
  }

  /** Whether a sample lies inside the local box. */
  predicate LocallyInside(s: GlyphSample, place: Placement)
  {
    0 <= s.x < place.width && 0 <= s.y < place.height
  }

  /** The buffer position a sample is drawn at. */
  function Target(s: GlyphSample, place: Placement): (int, int)
  {
    var (rx, ry) := Rotate(place.turn, s.x, s.y);
    (rx + place.startX, ry + place.startY)
  }

  /** Whether sample `s` paints pixel `(px, py)`. */
  predicate Hits(s: GlyphSample, place: Placement, px: int, py: int)
  {
    LocallyInside(s, place) && Target(s, place) == (px, py)
  }

  /** The colour of pixel `(px, py)`, which was `below`, after the samples are
      drawn in order: each sample that hits the pixel blends `color` over it
      with the sample's coverage. */
  function TextPixel(below: Rgba, px: int, py: int, samples: seq<GlyphSample>, place: Placement, color: Rgba): Rgba
  {
    if |samples| == 0 then below
    else
      var rest := TextPixel(below, px, py, samples[..|samples| - 1], place, color);
      var s := samples[|samples| - 1];
      if Hits(s, place, px, py) then Blend(color, rest, s.coverage) else rest
  }

  /** A pixel that no sample hits keeps its colour. */
  lemma {:induction false} TextPixelUntouched(below: Rgba, px: int, py: int, samples: seq<GlyphSample>, place: Placement, color: Rgba)
    requires forall i :: 0 <= i < |samples| ==> !Hits(samples[i], place, px, py)
    ensures TextPixel(below, px, py, samples, place, color) == below
  {
    if |samples| > 0 {
      TextPixelUntouched(below, px, py, samples[..|samples| - 1], place, color);
    }
  }

  /** Unrotated text is clipped to its box: only pixels in
      `[startX, startX + width) x [startY, startY + height)` can change. */
  lemma {:induction false} TextClipped(below: Rgba, px: int, py: int, samples: seq<GlyphSample>, place: Placement, color: Rgba)
    requires place.turn == Deg0
    requires TextPixel(below, px, py, samples, place, color) != below
    ensures place.startX <= px < place.startX + place.width
    ensures place.startY <= py < place.startY + place.height
  {
    if forall i :: 0 <= i < |samples| ==> !Hits(samples[i], place, px, py) {
      TextPixelUntouched(below, px, py, samples, place, color);
    } else {
      var i :| 0 <= i < |samples| && Hits(samples[i], place, px, py);
    }
  }

  /** A pixel whose last hitting sample has full coverage shows the text colour. */
  lemma TextPixelOpaque(below: Rgba, px: int, py: int, samples: seq<GlyphSample>, place: Placement, color: Rgba)
    requires |samples| > 0
    requires Hits(samples[|samples| - 1], place, px, py)
    requires samples[|samples| - 1].coverage == 1.0
    ensures TextPixel(below, px, py, samples, place, color) == Rgba(color.r, color.g, color.b, 255)
  {
  }

  /** Draws the samples into `pixels`, dropping those outside the local box
      and those whose target lies outside the buffer. */
  method DrawSamples(pixels: array2<Rgba>, samples: seq<GlyphSample>, place: Placement, color: Rgba)
    modifies pixels
    ensures forall x, y :: 0 <= x < pixels.Length0 && 0 <= y < pixels.Length1 ==>
      pixels[x, y] == TextPixel(old(pixels[x, y]), x, y, samples, place, color)
  {
    var i := 0;
    while i < |samples|
      invariant 0 <= i <= |samples|
      invariant forall x, y :: 0 <= x < pixels.Length0 && 0 <= y < pixels.Length1 ==>
        pixels[x, y] == TextPixel(old(pixels[x, y]), x, y, samples[..i], place, color)
    {
      var s := samples[i];
      assert samples[..i + 1][..i] == samples[..i];
      if LocallyInside(s, place) {
        var (tx, ty) := Target(s, place);
        if 0 <= tx < pixels.Length0 && 0 <= ty < pixels.Length1 {
          pixels[tx, ty] := Blend(color, pixels[tx, ty], s.coverage);
        }
      }
      i := i + 1;
    }
    assert samples[..|samples|] == samples;
  }

  class Style {
    var fontSize: nat
    var highlightColor: Rgba
    var pointRadius: real
    var lineWidth: real

    /** `Style::default`: size 16, highlight `#888888`, point radius 4 and
        line width 3. */
    constructor Default()
      ensures fontSize == 16 && highlightColor == DEFAULT_HIGHLIGHT
      ensures pointRadius == 4.0 && lineWidth == 3.0
    {
      fontSize := 16;
      highlightColor := DEFAULT_HIGHLIGHT;
      pointRadius := 4.0;
      lineWidth := 3.0;
    }

    /** `set_color`: the highlight colour becomes the parsed colour. A string
        that does not parse makes the source panic; here it returns false and
        leaves the style as it was. */
    method SetColor(color: string) returns (ok: bool)
      modifies this`highlightColor
      ensures ok <==> HexToRgba(color).Ok?
      ensures ok ==> highlightColor == HexToRgba(color).value
      ensures !ok ==> highlightColor == old(highlightColor)
    {
      match HexToRgba(color)
      case Ok(c) =>
        highlightColor := c;
        ok := true;
      case Err(_) =>
        ok := false;
    }

    /** Where `render_text` puts the local origin of a text of the given width. */
    function TextPlacement(startX: int, startY: int, width: nat, va: TextAlign, ha: TextAlign): (p: Placement)
      reads this
      ensures p.width == width && p.height == ScaledFontSize(fontSize) && p.turn == Deg0
      ensures p.startX <= startX <= p.startX + width
      ensures p.startY <= startY <= p.startY + ScaledFontSize(fontSize)
    {
      var sfs := ScaledFontSize(fontSize);
      Placement(width, sfs, Deg0, AlignedStart(startX, width, ha), AlignedStart(startY, sfs, va))
    }

    /** `render_text`: blends the text's samples in `color` into the buffer,
        aligned horizontally by `ha` and vertically by `va` around the start. */
    method RenderText(pixels: array2<Rgba>, startX: nat, startY: nat, text: TextLayout, color: Rgba, va: TextAlign, ha: TextAlign)
      modifies pixels
      ensures forall x, y :: 0 <= x < pixels.Length0 && 0 <= y < pixels.Length1 ==>
        pixels[x, y] == TextPixel(old(pixels[x, y]), x, y, text.samples, TextPlacement(startX, startY, text.width, va, ha), color)
    {
      var place := TextPlacement(startX, startY, text.width, va, ha);
      DrawSamples(pixels, text.samples, place, color);
    }

    /** `render_rotated_text` for a start point `(startX, startY)` already moved
        by the alignment offsets. Samples are turned by `rotation` degrees; an
        angle other than 0, 90, 180 or 270 makes the source panic at the first
        sample inside the local box, before anything is drawn, which is the
        `false` result here. */
    method RenderRotatedText(pixels: array2<Rgba>, startX: int, startY: int, text: TextLayout, color: Rgba, rotation: real)
      returns (ok: bool)
      modifies pixels
      ensures ok <==> (QuarterTurn(rotation).Some? ||
        forall i :: 0 <= i < |text.samples| ==> !LocallyInside(text.samples[i], Placement(text.width, ScaledFontSize(fontSize), Deg0, startX, startY)))
      ensures ok && QuarterTurn(rotation).Some? ==> forall x, y :: 0 <= x < pixels.Length0 && 0 <= y < pixels.Length1 ==>
        pixels[x, y] == TextPixel(old(pixels[x, y]), x, y, text.samples,
                                  Placement(text.width, ScaledFontSize(fontSize), QuarterTurn(rotation).value, startX, startY), color)
      ensures !(ok && QuarterTurn(rotation).Some?) ==> forall x, y :: 0 <= x < pixels.Length0 && 0 <= y < pixels.Length1 ==>
        pixels[x, y] == old(pixels[x, y])
    {
      var sfs := ScaledFontSize(fontSize);
      match QuarterTurn(rotation)
      case Some(turn) =>
        DrawSamples(pixels, text.samples, Placement(text.width, sfs, turn, startX, startY), color);
        ok := true;
      case None =>
        var box := Placement(text.width, sfs, Deg0, startX, startY);
        var i := 0;
        while i < |text.samples|
          invariant 0 <= i <= |text.samples|
          invariant forall j :: 0 <= j < i ==> !LocallyInside(text.samples[j], box)
        {
          if LocallyInside(text.samples[i], box) {
            return false;
          }
          i := i + 1;
        }
        ok := true;
    }
  }

  lemma DefaultHighlightParses()
    ensures HexToRgba("#888888") == Ok(DEFAULT_HIGHLIGHT)
  {
    HexRoundTrip(DEFAULT_HIGHLIGHT);
    assert FormatHex(DEFAULT_HIGHLIGHT) == "#888888";
  }
}
