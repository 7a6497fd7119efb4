# wikid_wasm core, modelled in Dafny

wikid_wasm is a small immediate-mode GUI and plotting toolkit for the browser.
An `Applet` owns an RGBA frame buffer, a queue of callbacks and a mouse-button
flag. It hands mouse events to its elements in order, stopping at the first
element that responds. It renders by clearing the frame to white, letting every
element draw, and painting a black rim. The elements are a push `Button`, a
horizontal `Slider`, and a `DynamicPlot`. The plot draws a batch of plot
commands into a buffer of its own. That means choosing axis limits from the
data, mapping data to axis to pixel coordinates, choosing ticks, and drawing
disks, rings and axis lines. A `Style` holds the font size, the highlight
colour, the point radius and the line width, and places text.

This project models that core. Every file is a module:

| file | module | models |
|---|---|---|
| wrappers.dfy | Wrappers | `Option` and `Result` |
| pixels.dfy | Pixels | bytes, RGBA colours, filling a buffer |
| arith.dfy | Arith | real-arithmetic facts; `ceil` and `as i32` truncation |
| util.dfy | Util | src/util.rs |
| styling.dfy | Styling | src/style.rs |
| element.dfy | Element | src/element/mod.rs, plus the `Callback` of src/applet.rs |
| button.dfy | ButtonWidget | src/element/button.rs |
| slider.dfy | SliderWidget | src/element/slider.rs |
| projection.dfy | Projection | the coordinate maps of src/element/dynamic_plot.rs |
| plot_commands.dfy | PlotCommands | the plot commands and which points and segments `plot` draws |
| axis_limits.dfy | AxisLimits | the limit chosen by `set_axis_limits`, as a function of the commands |
| ticks.dfy | Ticks | `get_automatic_ticks` |
| dynamic_plot.dfy | PlotEngine | the `DynamicPlot` object and its buffer writes |
| applet.dfy | AppletCore | src/applet.rs |

How the model is built:

- Pixel buffers are `array2<Rgba>` indexed `[x, y]`, column first.
- Objects whose fields the source updates are classes: `Style`, `Button`, `Slider`, `DynamicPlot` and `Applet`. Their methods state the whole new state.
- Loops are methods with loop invariants. Each is proved against a function of its inputs, and the properties the source promises are proved about those functions as lemmas.
- Floats are exact reals.
- A command's data array is a sequence of `F32`, which is finite, NaN or an infinity. This is where finiteness matters, in `fnanmin` and `fnanmax`, and NaN matters in the range test of `data_to_axis`.
- Where the source panics (`expect`, `unwrap`, `unimplemented!`, a failed `clamp`), the model has an error result, `None`, `false` or a precondition, with two exceptions. The `unimplemented!` arms for the `Dotted` line style and for `Legend` exist only as the predicate `PlotCommands.CommandPanics`, because `plot` is not modelled as one method. The `unwrap` calls of `draw_ticks` are not modelled at all (see Left out).
- Unsigned subtractions that would underflow become preconditions, and so do indexing without a bounds check.

What the code does that a reader might not expect:

- A plot's rectangle is resolved as (top, left, width, height). `top` is resolved against the window width and then used as the column offset of the copy into the frame. `left` is resolved against the height and used as the row offset. The model keeps this as written.
- `set_axis_limits` takes the finite minimum and maximum of every `Scatter` and `Line` array before it looks at whether the limit was set. An array without a finite value therefore fails even on an axis with an explicit limit.
- The range test of `data_to_axis` compares with `<` and `>`. A NaN coordinate passes it, so the point is not skipped.
- The plot starts with NaN limits. The model writes them as `None` until the first batch.
- Button and slider hit tests are strict: a mouse on the edge is outside.

## Model

| member | source | states |
|---|---|---|
| Pixels.FillAll | src/applet.rs:59-62 | every pixel of the buffer becomes the given colour |
| Util.WrapU32 | src/element/slider.rs:76 | the wrapping `as u32` of an `i32`: stays within `u32`, keeps a value already in range, and adds 2^32 to a negative one |
| Util.CastU32 | src/util.rs:15-17 | the saturating `as u32` cast stays within `u32` and is the floor for a value in range |
| Util.Dim.ToPixel | src/util.rs:10-20 | `Pixel(x)` resolves to `x`; `Percent(p)` resolves to the floor of `p` times the window width when horizontal, otherwise the height |
| Util.PercentUsesOneAxis | src/util.rs:13-18 | a percentage ignores the window dimension of the other axis |
| Util.HalfWindowExample | src/util.rs:13-18 | 50% of a 200 x 100 window is 100 across and 50 down |
| Util.HexDigitValue | src/util.rs:27-29 | a hexadecimal digit has a value below 16 |
| Util.HexToRgba | src/util.rs:23-31 | fails with `MissingHash` unless the string starts with `#`; succeeds exactly when it has 7 characters and three parsable pairs; then r, g, b are the pairs at 1-2, 3-4 and 5-6, and alpha is 255 |
| Util.HexIgnoresSuffix | src/util.rs:27-30 | characters after the seventh never change the result |
| Util.ParseHexByte | src/util.rs:27-29 | `from_str_radix(.., 16)` on two characters: an optional `+` then hexadecimal digits, high digit first; `HexDigitValue`, `HexPairParses` and `HexRoundTrip` are its lemmas |
| Util.HexPairParses | src/util.rs:27-29 | the two-digit spelling of a byte parses back to that byte |
| Util.HexRoundTrip | src/util.rs:23-31 | parsing the `#rrggbb` spelling of a colour gives back its channels with alpha 255 |
| Util.MinFinite | src/util.rs:34-44 | absent exactly when no element is finite; otherwise a finite element of the input at most every finite element |
| Util.MaxFinite | src/util.rs:47-57 | absent exactly when no element is finite; otherwise a finite element of the input at least every finite element |
| Util.FNanMin | src/util.rs:34-44 | the scan skipping non-finite values returns `MinFinite`, and fails exactly on input with no finite value, the empty one included |
| Util.FNanMax | src/util.rs:47-57 | the scan skipping non-finite values returns `MaxFinite`, and fails exactly on input with no finite value |
| Util.SatU8 | src/util.rs:61-63 | the saturating `as u8` cast is 0 for non-positive values, never above its input, and the floor below 256 |
| Util.BlendChannel | src/util.rs:61-63 | one channel of `blend_color`: the truncated `a * alpha` plus the truncated `b * (1 - alpha)`; bounded by `BlendNoOverflow` and `BlendChannelWithin` |
| Util.BlendNoOverflow | src/util.rs:61-63 | the two truncated terms of a channel sum to at most 255 for every alpha, so the `u8` addition never overflows |
| Util.Blend | src/util.rs:59-66 | the blend is opaque; alpha 0 gives `b`'s channels and alpha 1 gives `a`'s |
| Util.BlendChannelWithin | src/util.rs:61-63 | for alpha in [0, 1] a blended channel lies between the two inputs' channels, less at most one unit lost to truncation |
| Util.BlendWithin | src/util.rs:59-66 | `BlendChannelWithin` for the red, green and blue channels of a blend |
| Styling.ScaledFontSize | src/style.rs:46 | the scaled size is the floor of 1.5 times the font size |
| Styling.AlignedStart | src/style.rs:60-70 | `UpperLeft` keeps the start, `LowerRight` ends the run at the start, `Center` puts the start in the middle (integer halving) |
| Styling.QuarterTurn | src/style.rs:131-141 | a rotation is supported exactly when it is 0, 90, 180 or 270 degrees |
| Styling.Rotate | src/style.rs:131-141 | the quarter turns applied to local text coordinates; `RotateComposes` and `RotateIsometry` are its lemmas |
| Styling.RotateComposes | src/style.rs:131-141 | two 90-degree turns make the 180-degree turn, three make 270, four make none |
| Styling.RotateIsometry | src/style.rs:131-141 | every supported turn keeps the distance from the local origin |
| Styling.TextPixel | src/style.rs:72-86 | a pixel after the glyph samples that hit it blend the text colour over it in order; `TextPixelUntouched`, `TextClipped`, `TextPixelOpaque` and `DrawSamples` are its lemmas and loop |
| Styling.TextPixelUntouched | src/style.rs:72-86 | a pixel no glyph sample hits keeps its colour |
| Styling.TextClipped | src/style.rs:77-80 | unrotated text changes only pixels inside its aligned box of width by scaled font size |
| Styling.TextPixelOpaque | src/style.rs:81-82 | a pixel whose last hitting sample has full coverage shows the text colour, opaque |
| Styling.DrawSamples | src/style.rs:72-86 | every pixel of the buffer ends as the in-order blend of the samples that hit it; samples outside the local box or the buffer change nothing |
| Styling.Style.Default | src/style.rs:26-35 | font size 16, highlight `#888888`, point radius 4, line width 3 |
| Styling.DefaultHighlightParses | src/style.rs:31 | `#888888` parses to (136, 136, 136, 255) |
| Styling.Style.SetColor | src/style.rs:37-39 | succeeds exactly when the string parses; the highlight becomes the parsed colour, and stays unchanged on failure |
| Styling.Style.TextPlacement | src/style.rs:60-70 | the local box is the text width by the scaled font size, unrotated, and contains the start point in each direction |
| Styling.Style.RenderText | src/style.rs:41-87 | every pixel ends as `TextPixel` of its old colour under the aligned placement |
| Styling.Style.RenderRotatedText | src/style.rs:124-152 | fails exactly when the angle is unsupported and a sample falls in the local box; on success pixels are the rotated `TextPixel`; otherwise nothing changes |
| Element.DefaultTick | src/element/mod.rs:13 | the default tick produces no callback |
| Element.DefaultResponse | src/element/mod.rs:16-27 | `NoEvent` exactly when the mouse is outside, `Responded` exactly when inside, never a callback |
| ButtonWidget.LightColor | src/element/button.rs:37-42 | each channel is `255 - (255 - c) / 4` (stated as bounds), at least the input channel; alpha 255 |
| ButtonWidget.Button.constructor | src/element/button.rs:18-32 | a 128 x 42 button whose left and top are the centre minus 64 and 21, not hovering; the centre must be at least (64, 21) |
| ButtonWidget.Button.Bbox | src/element/button.rs:69-74 | the strict hit test of the button's rectangle; `BboxStrict` relates it to the drawing |
| ButtonWidget.Button.BboxStrict | src/element/button.rs:69-74 | the rectangle's edges are outside the hit test, and the hit area lies in the hover fill |
| ButtonWidget.Button.MouseMove | src/element/button.rs:81-86 | `hover` becomes the hit test, and the response is `Responded` exactly when inside |
| ButtonWidget.Button.MouseButtonUp | src/element/button.rs:76-79 | a callback naming this button exactly when inside, otherwise `NoEvent`; never `Responded`; no field changes |
| ButtonWidget.Button.MouseButtonDown | src/element/mod.rs:16-19 | the trait default on the button's hit test |
| ButtonWidget.Button.FrameFootprint | src/element/button.rs:43-61 | fill and border leave pixels outside `[left, right] x [top, bottom]` alone, and without hover the inner area too |
| ButtonWidget.Button.FramePixel | src/element/button.rs:43-61 | border pixels get the highlight, the inner area the light colour when hovering, other pixels keep theirs; `FrameFootprint`, `FillInterior` and `DrawBorder` are its lemma and loops |
| ButtonWidget.Button.FillInterior | src/element/button.rs:43-49 | exactly the pixels of `[left, right) x [top, bottom)` get the light colour |
| ButtonWidget.Button.DrawBorder | src/element/button.rs:50-61 | exactly rows top, top+1, bottom-1, bottom and columns left, left+1, right-1, right of the frame get the colour |
| ButtonWidget.Button.Draw | src/element/button.rs:36-67 | every pixel is the hover fill and border over its old colour, with the black text centred on the button on top |
| SliderWidget.Round | src/element/slider.rs:51 | rounds to within one half, halves away from zero |
| SliderWidget.Pow10 | src/element/slider.rs:48 | the power of ten is at least 1 |
| SliderWidget.Clamp | src/element/slider.rs:52 | the result is in the interval, equals the value inside it, and the nearer end outside it |
| SliderWidget.RoundedScaleError | src/element/slider.rs:49 | rounding to `1 / base` moves a value by at most half of `1 / base` |
| SliderWidget.RoundTo | src/element/slider.rs:49 | the rounded value is within half of `1 / base` of the input |
| SliderWidget.ClampCloser | src/element/slider.rs:52 | clamping into an interval holding the raw value never moves a value further from it |
| SliderWidget.RoundedWithin | src/element/slider.rs:46-51 | the rounded readout is within the slider type's rounding tolerance of the raw value |
| SliderWidget.Slider.constructor | src/element/slider.rs:28-42 | width 128, the given label, range `[data[0], data[1]]`, not selected, and `pos` is the initial value's fraction of the range |
| SliderWidget.Slider.GetValue | src/element/slider.rs:44-53 | defined exactly when start <= end, and then within `[start, end]` |
| SliderWidget.Slider.GetValueNearRaw | src/element/slider.rs:44-53 | with the raw value in range, the readout is within rounding tolerance of it |
| SliderWidget.Slider.RawValueInRange | src/element/slider.rs:45 | a position in [0, 1] gives a raw value in `[start, end]` |
| SliderWidget.Slider.DragPosition | src/element/slider.rs:99-100 | in [0, 1]; 0 left of the track, 1 right of it, the fraction of the track in between |
| SliderWidget.Slider.Bbox | src/element/slider.rs:89-94 | the strict hit test of the track widened by the knob radius; `TrackInsideBbox` and the mouse handlers use it |
| SliderWidget.Slider.TrackInsideBbox | src/element/slider.rs:89-94 | every track pixel passes the hit test |
| SliderWidget.Slider.MouseButtonDown | src/element/slider.rs:96-102 | inside: selected, and `pos` is the drag position; outside: no change; the response is the trait default |
| SliderWidget.Slider.MouseButtonUp | src/element/slider.rs:104-108 | always deselects; responds exactly when inside |
| SliderWidget.Slider.MouseMove | src/element/slider.rs:110-117 | moves `pos` to the drag position exactly when the button is down on a selected slider; `selected` unchanged; responds exactly when inside |
| SliderWidget.Slider.DrawTrack | src/element/slider.rs:58-60 | exactly row `y`, columns `x - w/2 ..= x + w/2`, turn black |
| SliderWidget.KnobPixel | src/element/slider.rs:64-71 | the knob colour at an offset: white blended with the highlight by the distance from radius 6, capped at 1; `KnobShading` is its lemma |
| SliderWidget.KnobShading | src/element/slider.rs:64-71 | one unit or more off radius 6 the knob is white; on the radius it is the highlight, opaque |
| SliderWidget.Slider.DrawKnob | src/element/slider.rs:61-74 | exactly the in-frame pixels of the 13 x 13 square around (`x + trunc(pos * w) - w/2`, `y`) get `KnobPixel` of their offset; every other pixel stays |
| SliderWidget.Slider.Readout | src/element/slider.rs:81-86 | the layout of the formatted `get_value`; the formatting is the `spell` input |
| SliderWidget.Slider.PaintedPixel | src/element/slider.rs:56-87 | a pixel after the slider draws: knob over track over the old colour, then the label right-aligned 8 left of the track and the readout left-aligned 8 right of it, both black |
| SliderWidget.Slider.MarksShowThrough | src/element/slider.rs:56-87 | away from both texts a pixel shows the knob shading on the knob square, black on the rest of the track, and its old colour elsewhere |
| SliderWidget.Slider.Draw | src/element/slider.rs:56-87 | every frame pixel becomes `PaintedPixel` of its old colour |
| Projection.Normalize | src/element/dynamic_plot.rs:369-370 | the normalised value times the span is the offset from the low limit |
| Projection.NormalizeUnit | src/element/dynamic_plot.rs:369-372 | with increasing limits, the value is in [0, 1] exactly when the point is inside the limit |
| Projection.DataToAxis | src/element/dynamic_plot.rs:367-376 | both arms carry the normalised point; `Err` exactly when a coordinate is outside its limit |
| Projection.DataToAxisUnitSquare | src/element/dynamic_plot.rs:367-376 | with increasing limits, `Ok` exactly when the point lands in the unit square |
| Projection.InvertedLimitRejects | src/element/dynamic_plot.rs:372 | a high-to-low limit rejects every point |
| Projection.UnprotectedDataToAxis | src/element/dynamic_plot.rs:378-383 | always the value `data_to_axis` carries, in range or not |
| Projection.AxisToPixel | src/element/dynamic_plot.rs:385-390 | the affine map from the unit square to the plot area, y flipped; `AxisToPixelCorners`, `AxisToPixelInPlotArea` and `AxisToPixelInverse` are its lemmas |
| Projection.AxisToPixelCorners | src/element/dynamic_plot.rs:385-390 | (0, 0) maps to (borderX, height - borderY) and (1, 1) to (width, 0) |
| Projection.AxisToPixelInPlotArea | src/element/dynamic_plot.rs:385-390 | the unit square maps into the plot area right of and above the borders |
| Projection.AxisToPixelInverse | src/element/dynamic_plot.rs:385-390 | on a non-empty plot area both axis coordinates are recovered from the pixel |
| PlotCommands.OutsideF | src/element/dynamic_plot.rs:372 | the range test on one coordinate: a finite value is outside when below the low end or above the high end, a NaN never is, an infinity always is |
| PlotCommands.Skipped | src/element/dynamic_plot.rs:70-73 | a point is skipped when either coordinate is outside its limit; `SkippedIffDataToAxisErr` and `NaNNotSkipped` are its lemmas |
| PlotCommands.SkippedIffDataToAxisErr | src/element/dynamic_plot.rs:70-73 | a finite point is skipped exactly when `data_to_axis` fails |
| PlotCommands.NaNNotSkipped | src/element/dynamic_plot.rs:372 | a NaN coordinate passes the range test |
| PlotCommands.ScatterDrawn | src/element/dynamic_plot.rs:69-77 | the drawn indices are exactly the points not skipped, in increasing order |
| PlotCommands.LineSegments | src/element/dynamic_plot.rs:79-89 | the drawn segments are exactly those with both ends in range, in increasing order |
| PlotCommands.SegmentsJoinDrawnPoints | src/element/dynamic_plot.rs:69-89 | both ends of every drawn segment are points a scatter draws |
| PlotCommands.NoSegmentsOutOfRange | src/element/dynamic_plot.rs:79-89 | with every point out of range no segment is drawn |
| PlotCommands.DottedOutOfRangeDoesNotPanic | src/element/dynamic_plot.rs:115-117 | a dotted line reaches `unimplemented!` only at a drawable segment, so all-out-of-range data is safe |
| PlotCommands.CommandPanics | src/element/dynamic_plot.rs:79-117 | `plot` reaches `unimplemented!` on a `Dotted` line with a drawable segment, and on every `Legend` (line 212); `DottedOutOfRangeDoesNotPanic` is its lemma |
| AxisLimits.Samples | src/element/dynamic_plot.rs:234-258 | only `Scatter` and `Line` offer data |
| AxisLimits.LocalLimit | src/element/dynamic_plot.rs:234-246 | the command's finite minimum and maximum, both attained, ordered |
| AxisLimits.Widen | src/element/dynamic_plot.rs:271-284 | an ordered limit grows to contain itself, its span times 1.06, with the same midpoint; a zero-span limit stays as it is |
| AxisLimits.WidenOrdered | src/element/dynamic_plot.rs:272-275 | on an ordered limit each side moves out by 3% of the span |
| AxisLimits.Step | src/element/dynamic_plot.rs:247-270 | one command's effect on an axis accumulator: an explicit limit replaces it and marks it set; data widens it only while unset |
| AxisLimits.Accumulate | src/element/dynamic_plot.rs:233-270 | `Step` folded over the commands from an empty, unset accumulator; `SetLimHolds`, `InferredUnset` and `InferredRange` are its lemmas |
| AxisLimits.AxisLimit | src/element/dynamic_plot.rs:228-294 | the final limit: an explicit one as is, inferred data widened, (-1, 1) without data; `ExplicitOverrides`, `InferredAxisLimit`, `InferredLimitCovers` and `NoDataDefault` are its lemmas |
| AxisLimits.SetLimHolds | src/element/dynamic_plot.rs:247-270 | after an explicit limit the accumulator holds it, marked set, until the next one |
| AxisLimits.ExplicitOverrides | src/element/dynamic_plot.rs:228-294 | the last explicit limit is the axis's final limit, without widening, whatever data surrounds it |
| AxisLimits.InferredUnset | src/element/dynamic_plot.rs:259-270 | without an explicit limit the accumulator is unset, and empty exactly when no `Scatter` or `Line` is present |
| AxisLimits.InferredRange | src/element/dynamic_plot.rs:259-270 | without an explicit limit, the accumulated limit bounds every finite sample and both ends are samples |
| AxisLimits.InferredWidened | src/element/dynamic_plot.rs:271-284 | an unset accumulated range `(lo, hi)` becomes `AxisLimit`: each side moved out by 3% of the span |
| AxisLimits.InferredAxisLimit | src/element/dynamic_plot.rs:259-285 | with data and no explicit limit, the limit is the samples' range widened by 3% of the span on each side |
| AxisLimits.InferredLimitCovers | src/element/dynamic_plot.rs:259-293 | an inferred limit contains every finite sample of its axis |
| AxisLimits.NoDataDefault | src/element/dynamic_plot.rs:286-293 | with no explicit limit and no data the limit is (-1, 1) |
| Ticks.TickCount | src/element/dynamic_plot.rs:319 | the whole number of divisions in the width, 0 for a negative width |
| Ticks.Division | src/element/dynamic_plot.rs:318 | the main division over the chosen divisor, positive |
| Ticks.FirstDense | src/element/dynamic_plot.rs:317-328 | the first divisor giving more than three divisions, or the last divisor; none before it is dense |
| Ticks.MajorDivision | src/element/dynamic_plot.rs:315-328 | the search loop returns the division of the first dense divisor, or the main division over 50 |
| Ticks.Multiples | src/element/dynamic_plot.rs:330-331 | the multiples of the division from the first to the last inside the limit; `MultiplesInRange`, `MultiplesComplete` and `MultiplesIncreasing` are its lemmas |
| Ticks.MultiplesInRange | src/element/dynamic_plot.rs:330-331 | every enumerated multiple lies in the limit |
| Ticks.MultiplesComplete | src/element/dynamic_plot.rs:330-331 | every integer multiple of the division inside the limit is enumerated |
| Ticks.MultipleInRange | src/element/dynamic_plot.rs:330-331 | each single enumerated multiple lies in the limit |
| Ticks.MultiplesIncreasing | src/element/dynamic_plot.rs:330-331 | the multiples are strictly increasing |
| Ticks.GetAutomaticTicks | src/element/dynamic_plot.rs:312-333 | majors and minors are the multiples of the major division and of a tenth of it, all inside the limit |
| PlotEngine.Reach | src/element/dynamic_plot.rs:394 | the scan reach is between radius + 1 and radius + 2 |
| PlotEngine.WindowCoversFringe | src/element/dynamic_plot.rs:396-397 | every offset within radius + 1 lies inside the scan window |
| PlotEngine.DiskPixel | src/element/dynamic_plot.rs:417-439 | the disk colour at an offset: the colour inside the radius, the old colour beyond radius + 1, a fringe blend between; `DiskFootprint` is its lemma |
| PlotEngine.RingPixel | src/element/dynamic_plot.rs:393-414 | the ring colour at an offset: the old colour inside radius - 1 and beyond radius + 1, a blend between; `RingFootprint` is its lemma |
| PlotEngine.DiskFootprint | src/element/dynamic_plot.rs:417-439 | offsets strictly inside the radius are scanned and get exactly the colour; offsets beyond radius + 1 are untouched |
| PlotEngine.RingFootprint | src/element/dynamic_plot.rs:393-414 | offsets inside radius - 1 or beyond radius + 1 are untouched |
| PlotEngine.DynamicPlot.constructor | src/element/dynamic_plot.rs:44-60 | rectangle resolved as (top, left, width, height); a transparent buffer of that size; no limits; zero borders |
| PlotEngine.DynamicPlot.Clear | src/element/dynamic_plot.rs:222-226 | every pixel of the plot becomes white |
| PlotEngine.AbsorbCommand | src/element/dynamic_plot.rs:233-270 | fails exactly when a `Scatter` or `Line` array has no finite value; otherwise both axes' accumulators advance by one `Step` |
| PlotEngine.DynamicPlot.SetAxisLimits | src/element/dynamic_plot.rs:228-294 | succeeds exactly when every `Scatter`/`Line` array has a finite value; then each axis gets `AxisLimit`; on failure the limits are unchanged |
| PlotEngine.DynamicPlot.ComputeLayout | src/element/dynamic_plot.rs:296-299 | both borders become twice the font size |
| PlotEngine.DynamicPlot.DrawHLine | src/element/dynamic_plot.rs:461-468 | exactly the band of columns `x.0..x.1`, rows `y - half` for `lineWidth` rows, gets the colour |
| PlotEngine.DynamicPlot.DrawVLine | src/element/dynamic_plot.rs:471-480 | exactly the in-buffer pixels of rows min..=max of the endpoints, columns `x - half` for `lineWidth` columns, get the colour, in either endpoint order |
| PlotEngine.DynamicPlot.DrawAxis | src/element/dynamic_plot.rs:301-304 | exactly column `borderX` down to row `height - borderY`, and that row from `borderX` on, turn black |
| PlotEngine.DynamicPlot.Centre | src/element/dynamic_plot.rs:395-399 | the pixel a point is drawn around: `axis_to_pixel`, each coordinate truncated as `as i32` does |
| PlotEngine.DynamicPlot.PaintWindow | src/element/dynamic_plot.rs:396-400 | each in-buffer pixel of the square window is repainted once from its old colour; all others stay |
| PlotEngine.DynamicPlot.DrawDisk | src/element/dynamic_plot.rs:417-439 | in-buffer pixels of the window around the centre become `DiskPixel` of their old colour; the rest stay |
| PlotEngine.DynamicPlot.DrawCircle | src/element/dynamic_plot.rs:393-414 | in-buffer pixels of the window around the centre become `RingPixel` of their old colour; the rest stay |
| PlotEngine.DynamicPlot.Draw | src/element/dynamic_plot.rs:484-491 | the plot's buffer is copied into the frame at column `top`, row `left`; other frame pixels stay |
| PlotEngine.DynamicPlot.Bbox | src/element/dynamic_plot.rs:493-495 | the plot never claims the mouse; `NeverResponds` is its lemma |
| PlotEngine.DynamicPlot.NeverResponds | src/element/dynamic_plot.rs:493-495 | the plot's default handlers always answer `NoEvent` |
| AppletCore.Response | src/applet.rs:104-106 | each element's answer: the button's release places its callback when inside; every other handler is the trait default on the element's hit test |
| AppletCore.Handle | src/applet.rs:104-106 | the element answers with `Response`, and its state changes as its handler says |
| AppletCore.FirstResponder | src/applet.rs:104-114 | the index of the first element not answering `NoEvent`, or the number of elements |
| AppletCore.Queued | src/applet.rs:107-112 | one callback exactly when the first responder placed one |
| AppletCore.Queue | src/applet.rs:51-53 | `Some` appends its callback, `None` nothing |
| AppletCore.TicksAreSilent | src/element/mod.rs:13 | the elements' ticks produce no callbacks |
| AppletCore.DrawnPixel | src/applet.rs:65-68 | a pixel after one element draws: the button's frame and text, the slider's `PaintedPixel`, or the plot's buffer inside its rectangle |
| AppletCore.Composite | src/applet.rs:59-68 | the elements' `DrawnPixel` applied in order over white |
| AppletCore.CompositeStep | src/applet.rs:64-68 | one more element draws over the composite of those before it |
| AppletCore.LastSliderOnTop | src/applet.rs:64-68 | a slider drawn last shows its track black over everything drawn before, away from its knob and texts |
| AppletCore.LastSliderKnobOnTop | src/applet.rs:64-68 | a slider drawn last shows its knob shading over its knob square, away from its texts, whatever was drawn before |
| AppletCore.LastPlotOnTop | src/applet.rs:64-68 | a plot drawn last shows its own buffer over its whole rectangle |
| AppletCore.DrawElement | src/applet.rs:65-68 | every frame pixel becomes `DrawnPixel` of the element over its old colour |
| AppletCore.DrawOver | src/applet.rs:64-68 | drawing element `i` into a frame holding the composite of the elements before it leaves the composite of the first `i + 1` |
| AppletCore.DrawAll | src/applet.rs:59-68 | after clearing to white and drawing every element in order, each frame pixel is the in-order composite |
| AppletCore.Applet.constructor | src/applet.rs:26-46 | empty queue, button up, and a frame of the window's size whose every pixel is transparent |
| AppletCore.Applet.Dispatch | src/applet.rs:104-114 | elements up to the first responder run their handlers, later ones are untouched, and a placed callback joins the back of the queue |
| AppletCore.Applet.MouseButtonDown | src/applet.rs:97-115 | `mouseDown` becomes true and the dispatched mouse says down |
| AppletCore.Applet.MouseButtonUp | src/applet.rs:117-135 | `mouseDown` becomes false and the dispatched mouse says up |
| AppletCore.Applet.MouseMove | src/applet.rs:137-154 | `mouseDown` is passed on unchanged |
| AppletCore.Applet.Tick | src/applet.rs:48-56 | returns the queued callbacks oldest first, followed by the ticks' callbacks (none), and empties the queue |
| AppletCore.Applet.PaintRim | src/applet.rs:70-78 | rim pixels become black and every other pixel keeps its colour |
| AppletCore.Applet.Render | src/applet.rs:58-78 | rim pixels are black; every other pixel is the in-order composite of the elements over white |

## Left out

- Canvas and DOM: the canvas lookups of `Applet::new`, the canvas commit at the end of `render`, and the applet's `name`. These are browser I/O.
- Raw element pointers: the elements are a sequence of references to pairwise distinct buttons, sliders and plots, not `*mut dyn Element`.
- Fonts: glyph layout, text width measurement and font loading are an input `TextLayout` (the coverage samples and the width).
- Styling.Style.RenderRotatedText: the start point is an input already moved by the alignment offsets, because the source computes it with float sine and cosine.
- PlotEngine.DynamicPlot.DrawDisk: the fringe alpha uses a `root` parameter for the square root of the squared distance, so the fringe colour is stated only up to that function.
- PlotEngine.DynamicPlot.DrawCircle: as for `DrawDisk`, the alpha uses the `root` parameter.
- Ticks.GetAutomaticTicks: the main division `10^round(log10(width))` is a parameter. The f64-to-f32 rounding of each tick and the i32 saturation of the multiple range are not modelled.
- `plot` as a whole is not one method. Its steps are modelled separately: clear, limits, layout, axis, ticks and which points and segments are drawn.
- `draw_ticks` line and label drawing are not modelled; only the tick values are. Nor are its `unwrap`s of `data_to_axis` (src/element/dynamic_plot.rs:342-362), which a caller can reach: a single data point gives a zero-span limit, and then the ticks fall outside it.
- `draw_line` and the dashed-line walk, because they are float rasterisation.
- The `FillBetween`, `ErrorBar`, `Text`, `SetXLabel` and `SetYLabel` drawing, because they only rasterise or position text.
- The `Bar` arm, because its `Err(_) => p` arms refer to an unbound `p` and it does not compile as written.
- The `Dotted` and `Legend` failures are recorded only as `PlotCommands.CommandPanics`.
- SliderWidget.KnobPixel: the square root of the squared distance is the `root` input, as for the plot's disks, so the shading is stated only up to that function.
- SliderWidget.Slider.Readout: the `format!("{}", ..)` spelling of the value is the `spell` input, because float formatting and glyph layout are not modelled.
- SliderWidget.Slider.KnobX: `(pos * width as f32) as i32` is a truncation of an exact real; the cast's saturation is not modelled.
- SliderWidget.Slider.constructor: requires a non-empty range. The source divides by `end - start` and would store a non-finite position.
- Projection.DataToAxis: requires non-zero spans. The source then divides by zero into a non-finite value, which the model does not represent.
- Util.Dim.ToPixel: states the cast only for products in `u32` range. Outside it the cast saturates, and `CastU32` models that.
- Floats are exact reals. f32 rounding is not modelled, and NaN and infinities appear only in plot-command data.
- `u32` and `i32` wrap-around is not modelled. Where the source would underflow or index out of bounds, the operation carries a precondition instead. Examples are a button centre below (64, 21), `x - half` in `draw_v_line`, borders larger than the plot, a frame with one zero side in `render`, and widget drawings outside the frame.
- AppletCore.Applet.Tick: returns the drained callbacks as a sequence rather than a draining iterator.
