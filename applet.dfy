/** The applet of src/applet.rs: the window-sized frame buffer, the queue of
    callbacks waiting for the next `tick`, the `mouse_down` flag, and the
    dispatch of mouse events to the elements in order. The source hands the
    applet a list of raw pointers to elements on every call; here that list
    is a sequence of references to the three kinds of element, each of them a
    distinct object. */
module AppletCore {
  import opened Wrappers
  import opened Pixels
  import opened Styling
  import opened Element
  import opened ButtonWidget
  import opened SliderWidget
  import opened PlotEngine

  datatype ElementRef =
    | ButtonRef(button: Button)
    | SliderRef(slider: Slider)
    | PlotRef(plot: DynamicPlot)

  /** The three mouse events an applet forwards. */
  datatype MouseEvent = Down | Up | Move

  /** The object behind a reference. */
  function Obj(e: ElementRef): object
  {
    match e
    case ButtonRef(b) => b
    case SliderRef(s) => s
    case PlotRef(p) => p
  }

  function Objects(elements: seq<ElementRef>): set<object>
  {
    set i | 0 <= i < |elements| :: Obj(elements[i])
  }

  /** The buffers of the plots among the elements. */
  function PlotBuffers(elements: seq<ElementRef>): set<object>
  {
    set i | 0 <= i < |elements| && elements[i].PlotRef? :: elements[i].plot.pixels
  }

  /** No element appears twice. */
  predicate Distinct(elements: seq<ElementRef>)
  {
    forall a, b :: 0 <= a < b < |elements| ==> Obj(elements[a]) != Obj(elements[b])
  }

  /** What the element's handlers need: a slider of the standard width. */
  predicate Ready(e: ElementRef)
  {
    e.SliderRef? ==> e.slider.Valid()
  }

  /** The element's answer to the event. Every answer depends only on the
      element's geometry, not on its state. */
  function Response(e: ElementRef, ev: MouseEvent, mouse: Mouse): EventResponse
  {
    match e
    case ButtonRef(b) =>
      if ev == Up then (if b.Bbox(mouse) then PlaceCallback(ButtonClicked(b)) else NoEvent)
      else DefaultResponse(b.Bbox(mouse))
    case SliderRef(s) => DefaultResponse(s.Bbox(mouse))
    case PlotRef(p) => DefaultResponse(p.Bbox(mouse))
  }

  /** The element's state after its handler for the event ran. */
  twostate predicate Handled(e: ElementRef, ev: MouseEvent, mouse: Mouse)
    reads Obj(e)
  {
    match e
    case ButtonRef(b) => b.hover == (if ev == Move then b.Bbox(mouse) else old(b.hover))
    case SliderRef(s) =>
      s.Valid() &&
      (match ev
       case Down =>
         if s.Bbox(mouse) then s.selected && s.pos == s.DragPosition(mouse.x)
         else s.selected == old(s.selected) && s.pos == old(s.pos)
       case Up => !s.selected && s.pos == old(s.pos)
       case Move =>
         s.selected == old(s.selected) &&
         s.pos == (if mouse.down && old(s.selected) then s.DragPosition(mouse.x) else old(s.pos)))
    case PlotRef(p) => unchanged(p)
  }

  /** Runs the element's handler for the event. */
  method Handle(e: ElementRef, ev: MouseEvent, mouse: Mouse) returns (r: EventResponse)
    requires Ready(e)
    modifies Obj(e)
    ensures r == Response(e, ev, mouse)
    ensures Handled(e, ev, mouse)
  {
    match e
    case ButtonRef(b) =>
      match ev {
        case Down => r := b.MouseButtonDown(mouse);
        case Up => r := b.MouseButtonUp(mouse);
        case Move => r := b.MouseMove(mouse);
      }
    case SliderRef(s) =>
      match ev {
        case Down => r := s.MouseButtonDown(mouse);
        case Up => r := s.MouseButtonUp(mouse);
        case Move => r := s.MouseMove(mouse);
      }
    case PlotRef(p) =>
      p.NeverResponds(mouse);
      r := DefaultResponse(p.Bbox(mouse));
  }

  /** The index of the first element whose answer is not `NoEvent`, or the
      number of elements when every one lets the event pass. */
  function FirstResponder(elements: seq<ElementRef>, ev: MouseEvent, mouse: Mouse): (k: nat)
    ensures k <= |elements|
    ensures forall j :: 0 <= j < k ==> Response(elements[j], ev, mouse).NoEvent?
    ensures k < |elements| ==> !Response(elements[k], ev, mouse).NoEvent?
  {
    if |elements| == 0 then 0
    else if !Response(elements[0], ev, mouse).NoEvent? then 0
    else 1 + FirstResponder(elements[1..], ev, mouse)
  }

  /** The callback the event queues: the first responder's, when it placed
      one. */
  function Queued(elements: seq<ElementRef>, ev: MouseEvent, mouse: Mouse): (q: seq<Callback>)
    ensures |q| <= 1
    ensures var k := FirstResponder(elements, ev, mouse);
      |q| == 1 <==> k < |elements| && Response(elements[k], ev, mouse).PlaceCallback?
  {
    var k := FirstResponder(elements, ev, mouse);
    if k < |elements| && Response(elements[k], ev, mouse).PlaceCallback? then [Response(elements[k], ev, mouse).callback]
    else []
  }

  /** The default `tick` every element keeps: no callback. */
  function TickOf(e: ElementRef): Option<Callback>
  {
    DefaultTick()
  }

  /** What a tick's answer adds to the queue. */
  function Queue(t: Option<Callback>): (q: seq<Callback>)
    ensures t.Some? ==> q == [t.value]
    ensures t.None? <==> q == []
  {
    if t.Some? then [t.value] else []
  }

  /** The callbacks the elements' ticks produce, in element order. */
  function TickCallbacks(elements: seq<ElementRef>): seq<Callback>
  {
    if |elements| == 0 then []
    else
      TickCallbacks(elements[..|elements| - 1]) + Queue(TickOf(elements[|elements| - 1]))
  }

  /** No element produces a callback on its own, so a tick only delivers the
      callbacks events queued. Every element keeps the trait's default
      `tick`, so this is an induction over constant `None`s: it records that
      fact rather than any arithmetic of the source. */
  lemma {:induction false} TicksAreSilent(elements: seq<ElementRef>)
    ensures TickCallbacks(elements) == []
  {
    if |elements| > 0 {
      TicksAreSilent(elements[..|elements| - 1]);
    }
  }

  /** Whether the element's drawing stays inside `frame` and does not panic:
      the button's border and the slider's track are written without a
      bounds check, a slider's `get_value` panics when `start > end`, and a
      plot copies its whole buffer into a different buffer. */
  predicate Drawable(e: ElementRef, frame: array2<Rgba>)
  {
    match e
    case ButtonRef(b) => b.Valid() && b.right < frame.Length0 && b.bottom < frame.Length1
    case SliderRef(s) =>
      s.Valid() && s.start <= s.end && 0 <= s.x - s.width / 2 && s.x + s.width / 2 < frame.Length0 && s.y < frame.Length1
    case PlotRef(p) =>
      p.Valid() && p.pixels != frame &&
      (p.width > 0 && p.height > 0 ==> p.top + p.width <= frame.Length0 && p.left + p.height <= frame.Length1)
  }

  /** Pixel `(x, y)` after the element draws over `below`. */
  function DrawnPixel(e: ElementRef, below: Rgba, x: int, y: int, style: Style, raster: Raster): Rgba
    reads Obj(e), style
    reads if e.PlotRef? then {e.plot.pixels} else {}
  {
    match e
    case ButtonRef(b) =>
      TextPixel(b.FramePixel(below, x, y, b.hover, style.highlightColor), x, y, b.text.samples,
                style.TextPlacement((b.left + b.right) / 2, (b.top + b.bottom) / 2, b.text.width, Center, Center), BLACK)
    case SliderRef(s) => s.PaintedPixel(below, x, y, style, raster)
    case PlotRef(p) =>
      if p.Valid() && p.top <= x < p.top + p.width && p.left <= y < p.left + p.height then p.pixels[x - p.top, y - p.left]
      else below
  }

  /** Pixel `(x, y)` after the elements draw, in order, over white. */
  function Composite(elements: seq<ElementRef>, x: int, y: int, style: Style, raster: Raster): Rgba
    reads Objects(elements), PlotBuffers(elements), style
  {
    if |elements| == 0 then WHITE
    else
      var init := elements[..|elements| - 1];
      assert Objects(init) <= Objects(elements) && PlotBuffers(init) <= PlotBuffers(elements) by {
        forall i | 0 <= i < |init| ensures init[i] == elements[i] { }
      }
      assert Obj(elements[|elements| - 1]) in Objects(elements);
      DrawnPixel(elements[|elements| - 1], Composite(init, x, y, style, raster), x, y, style, raster)
  }

  /** A slider drawn last shows its track in black wherever its knob and
      labels leave the track uncovered. */
  lemma LastSliderOnTop(elements: seq<ElementRef>, x: int, y: int, style: Style, raster: Raster)
    requires |elements| > 0 && elements[|elements| - 1].SliderRef?
    requires var s := elements[|elements| - 1].slider;
      s.OnTrack(x, y) && !s.OnKnob(x, y) && s.Unlabelled(x, y, style, raster)
    ensures Composite(elements, x, y, style, raster) == BLACK
  {
    var s := elements[|elements| - 1].slider;
    s.MarksShowThrough(Composite(elements[..|elements| - 1], x, y, style, raster), x, y, style, raster);
  }

  /** A slider drawn last shows its knob's shading over the knob's whole
      square, away from its labels, hiding what the earlier elements drew
      there. */
  lemma LastSliderKnobOnTop(elements: seq<ElementRef>, x: int, y: int, style: Style, raster: Raster)
    requires |elements| > 0 && elements[|elements| - 1].SliderRef?
    requires var s := elements[|elements| - 1].slider;
      s.OnKnob(x, y) && s.Unlabelled(x, y, style, raster)
    ensures var s := elements[|elements| - 1].slider;
      Composite(elements, x, y, style, raster) == KnobPixel(x - s.KnobX(), y - s.y, style.highlightColor, raster.root)
  {
    var s := elements[|elements| - 1].slider;
    s.MarksShowThrough(Composite(elements[..|elements| - 1], x, y, style, raster), x, y, style, raster);
  }

  /** A plot drawn last shows its own buffer over its whole rectangle, hiding
      what the earlier elements drew there. */
  lemma LastPlotOnTop(elements: seq<ElementRef>, x: int, y: int, style: Style, raster: Raster)
    requires |elements| > 0 && elements[|elements| - 1].PlotRef?
    requires var p := elements[|elements| - 1].plot;
      p.Valid() && p.top <= x < p.top + p.width && p.left <= y < p.left + p.height
    ensures var p := elements[|elements| - 1].plot;
      Composite(elements, x, y, style, raster) == p.pixels[x - p.top, y - p.left]
  {
  }

  /** One more element draws over the composite of those before it. */
  lemma CompositeStep(elements: seq<ElementRef>, i: nat, x: int, y: int, style: Style, raster: Raster)
    requires i < |elements|
    ensures Composite(elements[..i + 1], x, y, style, raster) ==
      DrawnPixel(elements[i], Composite(elements[..i], x, y, style, raster), x, y, style, raster)
  {
    assert elements[..i + 1][..i] == elements[..i];
  }

  /** Runs the element's `draw` into `frame`. */
  method DrawElement(e: ElementRef, frame: array2<Rgba>, style: Style, raster: Raster)
    requires Drawable(e, frame)
    modifies frame
    ensures forall x, y :: 0 <= x < frame.Length0 && 0 <= y < frame.Length1 ==>
      frame[x, y] == DrawnPixel(e, old(frame[x, y]), x, y, style, raster)
  {
    match e
    case ButtonRef(b) => b.Draw(frame, style);
    case SliderRef(s) => s.Draw(frame, style, raster);
    case PlotRef(p) => p.Draw(frame);
  }

  /** Runs the `draw` of element `i` into a frame holding the composite of
      the elements before it. */
  method DrawOver(elements: seq<ElementRef>, i: nat, frame: array2<Rgba>, style: Style, raster: Raster)
    requires i < |elements| && Drawable(elements[i], frame)
    requires frame !in PlotBuffers(elements[..i]) && frame !in Objects(elements[..i])
    requires forall x, y :: 0 <= x < frame.Length0 && 0 <= y < frame.Length1 ==>
      frame[x, y] == Composite(elements[..i], x, y, style, raster)
    modifies frame
    ensures forall x, y :: 0 <= x < frame.Length0 && 0 <= y < frame.Length1 ==>
      frame[x, y] == Composite(elements[..i + 1], x, y, style, raster)
  {
    label pre:
    DrawElement(elements[i], frame, style, raster);
    forall x, y | 0 <= x < frame.Length0 && 0 <= y < frame.Length1
      ensures frame[x, y] == Composite(elements[..i + 1], x, y, style, raster)
    {
      assert old@pre(Composite(elements[..i], x, y, style, raster)) == Composite(elements[..i], x, y, style, raster);
      CompositeStep(elements, i, x, y, style, raster);
    }
  }

  /** Clears `frame` to white and runs every element's `draw` into it, in
      order. */
  method DrawAll(elements: seq<ElementRef>, frame: array2<Rgba>, style: Style, raster: Raster)
    requires forall i :: 0 <= i < |elements| ==> Drawable(elements[i], frame)
    modifies frame
    ensures forall x, y :: 0 <= x < frame.Length0 && 0 <= y < frame.Length1 ==>
      frame[x, y] == Composite(elements, x, y, style, raster)
  {
    FillAll(frame, WHITE);
    for i := 0 to |elements|
      invariant forall x, y :: 0 <= x < frame.Length0 && 0 <= y < frame.Length1 ==>
        frame[x, y] == Composite(elements[..i], x, y, style, raster)
    {
      assert frame !in PlotBuffers(elements[..i]) && frame !in Objects(elements[..i]);
      DrawOver(elements, i, frame, style, raster);
    }
    assert elements[..|elements|] == elements;
  }

  class Applet {
    const width: nat
    const height: nat
    const style: Style
    const buffer: array2<Rgba>
    var callbacks: seq<Callback>
    var mouseDown: bool

    /** The frame buffer is the window's size. */
    predicate Valid()
    {
      buffer.Length0 == width && buffer.Length1 == height
    }

    /** `Applet::new` without its canvas lookups: an empty queue, the button
        up, and a transparent frame. */
    constructor (width: nat, height: nat, style: Style)
      ensures Valid() && fresh(buffer)
      ensures this.width == width && this.height == height && this.style == style
      ensures callbacks == [] && !mouseDown
      ensures forall x, y :: 0 <= x < width && 0 <= y < height ==> buffer[x, y] == TRANSPARENT
    {
      this.width := width;
      this.height := height;
      this.style := style;
      buffer := new Rgba[width, height]((x, y) => TRANSPARENT);
      callbacks := [];
      mouseDown := false;
    }

    /** Offers the event to the elements in order until one answers: every
        element up to and including the first responder runs its handler,
        the rest are not touched, and a placed callback joins the back of the
        queue. */
    method Dispatch(elements: seq<ElementRef>, ev: MouseEvent, mouse: Mouse)
      requires Distinct(elements) && forall i :: 0 <= i < |elements| ==> Ready(elements[i])
      modifies this`callbacks, Objects(elements)
      ensures forall i :: 0 <= i < |elements| && i <= FirstResponder(elements, ev, mouse) ==> Handled(elements[i], ev, mouse)
      ensures forall i :: FirstResponder(elements, ev, mouse) < i < |elements| ==> unchanged(Obj(elements[i]))
      ensures callbacks == old(callbacks) + Queued(elements, ev, mouse)
    {
      var i := 0;
      while i < |elements|
        invariant 0 <= i <= |elements| && i <= FirstResponder(elements, ev, mouse)
        invariant forall j :: 0 <= j < i ==> Handled(elements[j], ev, mouse)
        invariant forall j :: i <= j < |elements| ==> unchanged(Obj(elements[j]))
        invariant callbacks == old(callbacks)
      {
        label before:
        var r := Handle(elements[i], ev, mouse);
        assert forall j :: 0 <= j < |elements| && j != i ==> unchanged@before(Obj(elements[j]));
        assert forall j :: 0 <= j <= i ==> Handled(elements[j], ev, mouse);
        if !r.NoEvent? {
          assert FirstResponder(elements, ev, mouse) == i;
          if r.PlaceCallback? {
            callbacks := callbacks + [r.callback];
          }
          return;
        }
        i := i + 1;
      }
    }

    /** `mouse_button_down`: the button is down from now on, and the event
        says so. */
    method MouseButtonDown(x: nat, y: nat, elements: seq<ElementRef>)
      requires Distinct(elements) && forall i :: 0 <= i < |elements| ==> Ready(elements[i])
      modifies this`mouseDown, this`callbacks, Objects(elements)
      ensures mouseDown
      ensures var mouse := Mouse(x, y, true);
        (forall i :: 0 <= i < |elements| && i <= FirstResponder(elements, Down, mouse) ==> Handled(elements[i], Down, mouse)) &&
        (forall i :: FirstResponder(elements, Down, mouse) < i < |elements| ==> unchanged(Obj(elements[i]))) &&
        callbacks == old(callbacks) + Queued(elements, Down, mouse)
    {
      mouseDown := true;
      Dispatch(elements, Down, Mouse(x, y, mouseDown));
    }

    /** `mouse_button_up`: the button is up from now on, and the event says
        so. */
    method MouseButtonUp(x: nat, y: nat, elements: seq<ElementRef>)
      requires Distinct(elements) && forall i :: 0 <= i < |elements| ==> Ready(elements[i])
      modifies this`mouseDown, this`callbacks, Objects(elements)
      ensures !mouseDown
      ensures var mouse := Mouse(x, y, false);
        (forall i :: 0 <= i < |elements| && i <= FirstResponder(elements, Up, mouse) ==> Handled(elements[i], Up, mouse)) &&
        (forall i :: FirstResponder(elements, Up, mouse) < i < |elements| ==> unchanged(Obj(elements[i]))) &&
        callbacks == old(callbacks) + Queued(elements, Up, mouse)
    {
      mouseDown := false;
      Dispatch(elements, Up, Mouse(x, y, mouseDown));
    }

    /** `mouse_move`: the flag is left alone and passed on with the
        position. */
    method MouseMove(x: nat, y: nat, elements: seq<ElementRef>)
      requires Distinct(elements) && forall i :: 0 <= i < |elements| ==> Ready(elements[i])
      modifies this`callbacks, Objects(elements)
      ensures var mouse := Mouse(x, y, mouseDown);
        (forall i :: 0 <= i < |elements| && i <= FirstResponder(elements, Move, mouse) ==> Handled(elements[i], Move, mouse)) &&
        (forall i :: FirstResponder(elements, Move, mouse) < i < |elements| ==> unchanged(Obj(elements[i]))) &&
        callbacks == old(callbacks) + Queued(elements, Move, mouse)
    {
      Dispatch(elements, Move, Mouse(x, y, mouseDown));
    }

    /** `tick`: every element's tick in order, each callback appended, then
        the whole queue handed out oldest first and emptied. Since no element
        overrides `tick`, the loop appends only empty sequences; it is kept
        because it is the source's loop. */
    method Tick(elements: seq<ElementRef>) returns (drained: seq<Callback>)
      modifies this`callbacks
      ensures drained == old(callbacks) + TickCallbacks(elements)
      ensures drained == old(callbacks)
      ensures callbacks == []
    {
      for i := 0 to |elements|
        invariant callbacks == old(callbacks) + TickCallbacks(elements[..i])
      {
        assert elements[..i + 1][..i] == elements[..i];
        callbacks := callbacks + Queue(TickOf(elements[i]));
      }
      assert elements[..|elements|] == elements;
      TicksAreSilent(elements);
      drained := callbacks;
      callbacks := [];
    }

    /** Whether `(x, y)` is on the one-pixel rim of the frame. */
    predicate OnRim(x: int, y: int)
    {
      x == 0 || x == width - 1 || y == 0 || y == height - 1
    }

    /** The rim loops of `render`: the top and bottom rows, then the left and
        right columns, are painted black. They index row `height - 1` and
        column `width - 1`, so the frame must be empty or have both sides. */
    method PaintRim()
      requires Valid() && (width == 0 <==> height == 0)
      modifies buffer
      ensures forall x, y :: 0 <= x < width && 0 <= y < height ==>
        buffer[x, y] == (if OnRim(x, y) then BLACK else old(buffer[x, y]))
    {
      for i := 0 to width
        invariant forall x, y :: 0 <= x < width && 0 <= y < height ==>
          buffer[x, y] == (if (y == 0 || y == height - 1) && x < i then BLACK else old(buffer[x, y]))
      {
        buffer[i, 0] := BLACK;
        buffer[i, height - 1] := BLACK;
      }
      for j := 0 to height
        invariant forall x, y :: 0 <= x < width && 0 <= y < height ==>
          buffer[x, y] == (if y == 0 || y == height - 1 || ((x == 0 || x == width - 1) && y < j) then BLACK
                           else old(buffer[x, y]))
      {
        buffer[0, j] := BLACK;
        buffer[width - 1, j] := BLACK;
      }
    }

    /** `render` without the commit to the canvas: the frame is cleared to
        white, the elements draw in order, and the rim is painted black. */
    method Render(elements: seq<ElementRef>, raster: Raster)
      requires Valid() && (width == 0 <==> height == 0)
      requires forall i :: 0 <= i < |elements| ==> Drawable(elements[i], buffer)
      modifies buffer
      ensures forall x, y :: 0 <= x < width && 0 <= y < height ==>
        buffer[x, y] == (if OnRim(x, y) then BLACK else Composite(elements, x, y, style, raster))
    {
      DrawAll(elements, buffer, style, raster);
      assert buffer !in PlotBuffers(elements) && buffer !in Objects(elements);
      PaintRim();
    }
  }
}
