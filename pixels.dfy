/** Pixel types shared by every drawing routine. A colour is an RGBA quadruple
    of 8-bit channels, as the image crate's `Rgba<u8>` stores it, and a pixel
    buffer is an `array2<Rgba>` indexed `[x, y]`: column first, `Length0` is the
    width and `Length1` the height. */
module Pixels {

  /** An unsigned 8-bit channel value (`u8`). */
  type Byte = x: int | 0 <= x < 256

  datatype Rgba = Rgba(r: Byte, g: Byte, b: Byte, a: Byte)

  /** The value `ImageBuffer::new` fills a fresh buffer with. */
  const TRANSPARENT: Rgba := Rgba(0, 0, 0, 0)

  /** Whether `(x, y)` addresses a pixel of `buf`. */
  predicate InBounds(buf: array2<Rgba>, x: int, y: int)
  {
    0 <= x < buf.Length0 && 0 <= y < buf.Length1
  }

  /** Sets every pixel of `buf` to `color`, column by column, as a loop over
      `enumerate_pixels_mut` does. */
  method FillAll(buf: array2<Rgba>, color: Rgba)
    modifies buf
    ensures forall x, y :: 0 <= x < buf.Length0 && 0 <= y < buf.Length1 ==> buf[x, y] == color
  {
    for i := 0 to buf.Length0
      invariant forall x, y :: 0 <= x < i && 0 <= y < buf.Length1 ==> buf[x, y] == color
    {
      for j := 0 to buf.Length1
        invariant forall x, y :: 0 <= x < i && 0 <= y < buf.Length1 ==> buf[x, y] == color
        invariant forall y :: 0 <= y < j ==> buf[i, y] == color
      {
        buf[i, j] := color;
      }
    }
  }
}
