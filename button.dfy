/** A push button (src/element/button.rs): a fixed 128 x 42 rectangle centred
    on its position, a hover flag, a click callback, and the fill/border/text
    drawing. */
module ButtonWidget {
  import opened Pixels
  import opened Util
  import opened Styling
  import opened Element

  const BUTTON_WIDTH: nat := 128
  const BUTTON_HEIGHT: nat := 42

  /** The hover fill: each channel of `c` moved three quarters of the way to
      white, rounding toward `c`. */
  function LightColor(c: Rgba): (l: Rgba)
    ensures c.r <= l.r && c.g <= l.g && c.b <= l.b && l.a == 255
    ensures 4 * (255 - l.r) <= 255 - c.r < 4 * (255 - l.r) + 4
    ensures 4 * (255 - l.g) <= 255 - c.g < 4 * (255 - l.g) + 4
    ensures 4 * (255 - l.b) <= 255 - c.b < 4 * (255 - l.b) + 4
  {
    Rgba(255 - (255 - c.r) / 4, 255 - (255 - c.g) / 4, 255 - (255 - c.b) / 4, 255)
  }

  class Button {
    const top: nat
    const left: nat
    const bottom: nat
    const right: nat
    const text: TextLayout
    var hover: bool

    /** The fixed size of every button. */
    predicate Valid()
    {
      right == left + BUTTON_WIDTH && bottom == top + BUTTON_HEIGHT
    }

    /** `Button::new`: a button centred on `pos`. The source subtracts half
        the size from an unsigned centre, so the centre must be at least
        (64, 21). */
    constructor (pos: (Dim, Dim), text: TextLayout, windowWidth: nat, windowHeight: nat)
      requires pos.0.ToPixel(windowWidth, windowHeight, true) >= BUTTON_WIDTH / 2
      requires pos.1.ToPixel(windowWidth, windowHeight, false) >= BUTTON_HEIGHT / 2
      ensures Valid()
      ensures left == pos.0.ToPixel(windowWidth, windowHeight, true) - 64
      ensures top == pos.1.ToPixel(windowWidth, windowHeight, false) - 21
      ensures this.text == text && !hover
    {
      var width := Pixel(BUTTON_WIDTH).ToPixel(windowWidth, windowHeight, true);
      var height := Pixel(BUTTON_HEIGHT).ToPixel(windowWidth, windowHeight, false);
      var l := pos.0.ToPixel(windowWidth, windowHeight, true) - width / 2;
      var t := pos.1.ToPixel(windowWidth, windowHeight, false) - height / 2;
      top := t;
      left := l;
      bottom := t + height;
      right := l + width;
      this.text := text;
      hover := false;
    }

    /** The hit test: strictly inside the rectangle. */
    predicate Bbox(mouse: Mouse)
    {
      left < mouse.x < right && top < mouse.y < bottom
    }

    /** The rectangle's edges are outside the hit area, and the hit area lies
        within the region the hover fill paints. */
    lemma BboxStrict(mouse: Mouse)
      ensures mouse.x == left || mouse.x == right || mouse.y == top || mouse.y == bottom ==> !Bbox(mouse)
      ensures Bbox(mouse) ==> InFill(mouse.x, mouse.y)
    {
    }

    /** `mouse_move`: hovering exactly while the mouse is inside. */
    method MouseMove(mouse: Mouse) returns (r: EventResponse)
      modifies this`hover
      ensures hover == Bbox(mouse)
      ensures r == DefaultResponse(Bbox(mouse))
    {
      hover := false;
      if !Bbox(mouse) {
        return NoEvent;
      }
      hover := true;
      r := Responded;
    }

    /** `mouse_button_up`: a release inside the button queues a click. */
    method MouseButtonUp(mouse: Mouse) returns (r: EventResponse)
      ensures r.PlaceCallback? <==> Bbox(mouse)
      ensures r.PlaceCallback? ==> r.callback == ButtonClicked(this)
      ensures !r.Responded?
    {
      if !Bbox(mouse) {
        return NoEvent;
      }
      r := PlaceCallback(ButtonClicked(this));
    }

    /** The trait's default `mouse_button_down`. */
    method MouseButtonDown(mouse: Mouse) returns (r: EventResponse)
      ensures r == DefaultResponse(Bbox(mouse))
    {
      r := DefaultResponse(Bbox(mouse));
    }

    /** The pixels the hover fill paints: `[left, right) x [top, bottom)`. */
    predicate InFill(x: int, y: int)
    {
      left <= x < right && top <= y < bottom
    }

    /** Border rows top, top + 1, bottom - 1 and bottom, over columns
        `[left, upTo)`. */
    predicate BorderRows(x: int, y: int, upTo: int)
    {
      left <= x < upTo && (y == top || y == top + 1 || y == bottom - 1 || y == bottom)
    }

    /** Border columns left, left + 1, right - 1 and right, over rows
        `[top, upTo)`. */
    predicate BorderCols(x: int, y: int, upTo: int)
    {
      top <= y < upTo && (x == left || x == left + 1 || x == right - 1 || x == right)
    }

    predicate OnBorder(x: int, y: int)
    {
      BorderRows(x, y, right) || BorderCols(x, y, bottom)
    }

    /** Pixel `(x, y)`, which was `below`, after the fill and the border. */
    function FramePixel(below: Rgba, x: int, y: int, hovering: bool, highlight: Rgba): Rgba
    {
      if OnBorder(x, y) then highlight
      else if hovering && InFill(x, y) then LightColor(highlight)
      else below
    }

    /** The frame leaves every pixel outside `[left, right] x [top, bottom]`
        alone, and without hover the interior keeps its colour too. */
    lemma FrameFootprint(below: Rgba, x: int, y: int, hovering: bool, highlight: Rgba)
      requires Valid()
      ensures !(left <= x <= right && top <= y <= bottom) ==> FramePixel(below, x, y, hovering, highlight) == below
      ensures !hovering && left + 2 <= x < right - 1 && top + 2 <= y < bottom - 1 ==>
        FramePixel(below, x, y, hovering, highlight) == below
    {
    }

    /** The hover fill: every pixel of `[left, right) x [top, bottom)` gets
        `light`. */
    method FillInterior(pixels: array2<Rgba>, light: Rgba)
      requires right <= pixels.Length0 && bottom <= pixels.Length1
      requires left <= right && top <= bottom
      modifies pixels
      ensures forall x, y :: 0 <= x < pixels.Length0 && 0 <= y < pixels.Length1 ==>
        pixels[x, y] == (if InFill(x, y) then light else old(pixels[x, y]))
    {
      for i := 0 to right - left
        invariant forall x, y :: 0 <= x < pixels.Length0 && 0 <= y < pixels.Length1 ==>
          pixels[x, y] == (if left <= x < left + i && top <= y < bottom then light else old(pixels[x, y]))
      {
        for j := 0 to bottom - top
          invariant forall x, y :: 0 <= x < pixels.Length0 && 0 <= y < pixels.Length1 ==>
            pixels[x, y] == (if (left <= x < left + i && top <= y < bottom) || (x == left + i && top <= y < top + j)
                             then light else old(pixels[x, y]))
        {
          pixels[left + i, top + j] := light;
        }
      }
    }

    /** The two-pixel border in `color`. */
    method DrawBorder(pixels: array2<Rgba>, color: Rgba)
      requires Valid()
      requires right < pixels.Length0 && bottom < pixels.Length1
      modifies pixels
      ensures forall x, y :: 0 <= x < pixels.Length0 && 0 <= y < pixels.Length1 ==>
        pixels[x, y] == (if OnBorder(x, y) then color else old(pixels[x, y]))
    {
      for i := 0 to right - left
        invariant forall x, y :: 0 <= x < pixels.Length0 && 0 <= y < pixels.Length1 ==>
          pixels[x, y] == (if BorderRows(x, y, left + i) then color else old(pixels[x, y]))
      {
        pixels[left + i, top] := color;
        pixels[left + i, top + 1] := color;
        pixels[left + i, bottom] := color;
        pixels[left + i, bottom - 1] := color;
      }
      for j := 0 to bottom - top
        invariant forall x, y :: 0 <= x < pixels.Length0 && 0 <= y < pixels.Length1 ==>
          pixels[x, y] == (if BorderRows(x, y, right) || BorderCols(x, y, top + j) then color else old(pixels[x, y]))
      {
        pixels[left, top + j] := color;
        pixels[left + 1, top + j] := color;
        pixels[right, top + j] := color;
        pixels[right - 1, top + j] := color;
      }
    }

    /** `draw`: the hover fill when hovering, then the border in the style's
        highlight colour, then the text in black centred on the button. The
        border reaches column `right` and row `bottom`, which must be inside
        the buffer. */
    method Draw(pixels: array2<Rgba>, style: Style)
      requires Valid()
      requires right < pixels.Length0 && bottom < pixels.Length1
      modifies pixels
      ensures forall x, y :: 0 <= x < pixels.Length0 && 0 <= y < pixels.Length1 ==>
        pixels[x, y] == TextPixel(FramePixel(old(pixels[x, y]), x, y, hover, style.highlightColor), x, y, text.samples,
                                  style.TextPlacement((left + right) / 2, (top + bottom) / 2, text.width, Center, Center), BLACK)
    {
      var light := LightColor(style.highlightColor);
      if hover {
        FillInterior(pixels, light);
      }
      DrawBorder(pixels, style.highlightColor);
      style.RenderText(pixels, (left + right) / 2, (top + bottom) / 2, text, BLACK, Center, Center);
    }
  }
}
