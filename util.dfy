/** The shared helpers of src/util.rs: dimension resolution, `#rrggbb` colour
    parsing, finite-only minimum and maximum, and per-channel colour blending.
    Single-precision floats are modelled as exact reals; where finiteness
    matters they are the `F32` datatype below. */
module Util {
  import opened Wrappers
  import opened Pixels
  import opened Arith

  const U32_MAX: int := 0xFFFF_FFFF

  /** Rust's `v as u32` on a float: truncation toward zero, saturating at 0 and
      at `u32::MAX`. */
  function CastU32(v: real): (n: nat)
    ensures n <= U32_MAX
    ensures 0.0 <= v < (U32_MAX + 1) as real ==> n == v.Floor
  {
    if v <= 0.0 then 0 else if v >= U32_MAX as real then U32_MAX else v.Floor
  }

  /** An integer computed in `i32` and cast `as u32`: the two's-complement
      bits read unsigned, so a negative value wraps to the top of the range. */
  function WrapU32(v: int): (n: nat)
    ensures n <= U32_MAX
    ensures 0 <= v <= U32_MAX ==> n == v
    ensures -(U32_MAX + 1) <= v < 0 ==> n == v + U32_MAX + 1
  {
    v % (U32_MAX + 1)
  }

  /** `f32::abs`. */
  function Abs(v: real): (a: real)
    ensures a >= 0.0 && (a == v || a == -v)
  {
    if v < 0.0 then -v else v
  }

  // ---------------------------------------------------------------------------
  // Dimensions

  /** A widget dimension: an absolute pixel count or a fraction of the window. */
  datatype Dim = Pixel(px: nat) | Percent(p: real)
  {
    /** Resolves the dimension against the window; `horiz` picks the width,
        otherwise the height is used. */
    function ToPixel(windowWidth: nat, windowHeight: nat, horiz: bool): (r: nat)
      ensures Pixel? ==> r == px
      ensures (Percent? && horiz && 0.0 <= windowWidth as real * p < (U32_MAX + 1) as real)
                ==> r == (windowWidth as real * p).Floor
      ensures (Percent? && !horiz && 0.0 <= windowHeight as real * p < (U32_MAX + 1) as real)
                ==> r == (windowHeight as real * p).Floor
    {
      match this
      case Pixel(x) => x
      case Percent(p) =>
        if horiz then CastU32(windowWidth as real * p) else CastU32(windowHeight as real * p)
    }
  }

  /** A percentage resolves against exactly one window axis: the other axis
      never matters. */
  lemma PercentUsesOneAxis(p: real, w1: nat, h1: nat, w2: nat, h2: nat)
    ensures Percent(p).ToPixel(w1, h1, true) == Percent(p).ToPixel(w1, h2, true)
    ensures Percent(p).ToPixel(w1, h1, false) == Percent(p).ToPixel(w2, h1, false)
  {
  }

  /** Half of a 200 x 100 window is 100 pixels across and 50 pixels down. */
  lemma HalfWindowExample()
    ensures Percent(0.5).ToPixel(200, 100, true) == 100
    ensures Percent(0.5).ToPixel(200, 100, false) == 50
  {
  }

  // ---------------------------------------------------------------------------
  // Hexadecimal colours

  /** The value of one digit in radix 16, either case. */
  function HexDigitValue(c: char): (r: Option<nat>)
    ensures r.Some? ==> r.value < 16
  {
    if '0' <= c <= '9' then Some(c as int - '0' as int)
    else if 'a' <= c <= 'f' then Some(c as int - 'a' as int + 10)
    else if 'A' <= c <= 'F' then Some(c as int - 'A' as int + 10)
    else None
  }

  /** `u8::from_str_radix(pair, 16)` on a two-character slice: an optional
      leading `+` followed by the hexadecimal digits. */
  function ParseHexByte(pair: seq<char>): Option<Byte>
    requires |pair| == 2
  {
    if pair[0] == '+' then
      match HexDigitValue(pair[1])
      case None => None
      case Some(d) => Some(d)
    else
      match (HexDigitValue(pair[0]), HexDigitValue(pair[1]))
      case (Some(h), Some(l)) => Some(16 * h + l)
      case _ => None
  }

  /** Why `hex_to_rgba` panics. */
  datatype HexError = MissingHash | TooShort | NotHex

  /** The channel stored in the two characters at `i` and `i + 1`. */
  function HexChannel(color: string, i: nat): Result<Byte, HexError>
  {
    if |color| < i + 2 then Err(TooShort)
    else match ParseHexByte(color[i..i + 2])
      case None => Err(NotHex)
      case Some(v) => Ok(v)
  }

  /** Parses `#rrggbb` into an opaque colour; the source panics on every
      `Err` returned here. */
  function HexToRgba(color: string): (r: Result<Rgba, HexError>)
    ensures (|color| == 0 || color[0] != '#') ==> r == Err(MissingHash)
    ensures r.Ok? <==>
              && |color| >= 7 && color[0] == '#'
              && ParseHexByte(color[1..3]).Some?
              && ParseHexByte(color[3..5]).Some?
              && ParseHexByte(color[5..7]).Some?
    ensures r.Ok? ==>
              && r.value.r == ParseHexByte(color[1..3]).value
              && r.value.g == ParseHexByte(color[3..5]).value
              && r.value.b == ParseHexByte(color[5..7]).value
              && r.value.a == 255
  {
    if |color| == 0 || color[0] != '#' then Err(MissingHash)
    else
      match HexChannel(color, 1)
      case Err(e) => Err(e)
      case Ok(red) =>
        match HexChannel(color, 3)
        case Err(e) => Err(e)
        case Ok(green) =>
          match HexChannel(color, 5)
          case Err(e) => Err(e)
          case Ok(blue) => Ok(Rgba(red, green, blue, 255))
  }

  /** Everything after the seventh character is ignored. */
  lemma HexIgnoresSuffix(color: string, rest: string)
    requires |color| >= 7
    ensures HexToRgba(color + rest) == HexToRgba(color)
  {
    var s := color + rest;
    assert s[0] == color[0];
    assert s[1..3] == color[1..3] && s[3..5] == color[3..5] && s[5..7] == color[5..7];
  }

  /** The lower-case digit for a value below 16. */
  function HexDigitChar(d: nat): char
    requires d < 16
  {
    if d < 10 then ('0' as int + d) as char else ('a' as int + d - 10) as char
  }

  /** Two lower-case hexadecimal digits for a byte. */
  function HexPair(b: Byte): seq<char>
  {
    [HexDigitChar(b / 16), HexDigitChar(b % 16)]
  }

  /** The `#rrggbb` spelling of a colour's red, green and blue channels. */
  function FormatHex(c: Rgba): string
  {
    ['#'] + HexPair(c.r) + HexPair(c.g) + HexPair(c.b)
  }

  lemma HexPairParses(b: Byte)
    ensures ParseHexByte(HexPair(b)) == Some(b)
  {
    var hi, lo := b / 16, b % 16;
    assert HexDigitValue(HexDigitChar(hi)) == Some(hi);
    assert HexDigitValue(HexDigitChar(lo)) == Some(lo);
  }

  /** Parsing the spelling of a colour gives back its channels, made opaque. */
  lemma {:induction false} HexRoundTrip(c: Rgba)
    ensures HexToRgba(FormatHex(c)) == Ok(Rgba(c.r, c.g, c.b, 255))
  {
    var s := FormatHex(c);
    assert s[1..3] == HexPair(c.r) && s[3..5] == HexPair(c.g) && s[5..7] == HexPair(c.b);
    HexPairParses(c.r);
    HexPairParses(c.g);
    HexPairParses(c.b);
  }

  // ---------------------------------------------------------------------------
  // Finite-only minimum and maximum

  /** A single-precision value, of which only finite ones carry a number. */
  datatype F32 = Finite(value: real) | NaN | Infinity(negative: bool)

  predicate HasFinite(xs: seq<F32>)
  {
    exists i :: 0 <= i < |xs| && xs[i].Finite?
  }

  function Min(a: real, b: real): real { if a <= b then a else b }

  function Max(a: real, b: real): real { if a >= b then a else b }

  /** The least finite element, `None` when there is none. */
  function MinFinite(xs: seq<F32>): (r: Option<real>)
    ensures r.None? <==> !HasFinite(xs)
    ensures r.Some? ==> Finite(r.value) in xs
    ensures r.Some? ==> forall i :: 0 <= i < |xs| && xs[i].Finite? ==> r.value <= xs[i].value
  {
    if |xs| == 0 then None
    else
      var init, x := xs[..|xs| - 1], xs[|xs| - 1];
      assert xs == init + [x];
      var m := MinFinite(init);
      if !x.Finite? then m
      else match m
        case None => Some(x.value)
        case Some(o) => Some(Min(o, x.value))
  }

  /** The greatest finite element, `None` when there is none. */
  function MaxFinite(xs: seq<F32>): (r: Option<real>)
    ensures r.None? <==> !HasFinite(xs)
    ensures r.Some? ==> Finite(r.value) in xs
    ensures r.Some? ==> forall i :: 0 <= i < |xs| && xs[i].Finite? ==> xs[i].value <= r.value
  {
    if |xs| == 0 then None
    else
      var init, x := xs[..|xs| - 1], xs[|xs| - 1];
      assert xs == init + [x];
      var m := MaxFinite(init);
      if !x.Finite? then m
      else match m
        case None => Some(x.value)
        case Some(o) => Some(Max(o, x.value))
  }

  /** `fnanmin`: scans the slice, skipping non-finite entries; `None` stands
      for the panic on a slice without a finite value. */
  method FNanMin(xs: seq<F32>) returns (r: Option<real>)
    ensures r == MinFinite(xs)
    ensures r.None? <==> !HasFinite(xs)
  {
    var out: Option<real> := None;
    for i := 0 to |xs|
      invariant out == MinFinite(xs[..i])
    {
      var x := xs[i];
      assert xs[..i + 1] == xs[..i] + [x];
      if x.Finite? {
        out := match out
          case None => Some(x.value)
          case Some(o) => Some(Min(o, x.value));
      }
    }
    assert xs[..|xs|] == xs;
    r := out;
  }

  /** `fnanmax`: as `FNanMin`, keeping the greatest finite value. */
  method FNanMax(xs: seq<F32>) returns (r: Option<real>)
    ensures r == MaxFinite(xs)
    ensures r.None? <==> !HasFinite(xs)
  {
    var out: Option<real> := None;
    for i := 0 to |xs|
      invariant out == MaxFinite(xs[..i])
    {
      var x := xs[i];
      assert xs[..i + 1] == xs[..i] + [x];
      if x.Finite? {
        out := match out
          case None => Some(x.value)
          case Some(o) => Some(Max(o, x.value));
      }
    }
    assert xs[..|xs|] == xs;
    r := out;
  }

  // ---------------------------------------------------------------------------
  // Colour blending

  /** Rust's `v as u8` on a float: truncation, saturating at 0 and 255. */
  function SatU8(v: real): (n: Byte)
    ensures v <= 0.0 ==> n == 0
    ensures 0.0 <= v ==> n as real <= v
    ensures 0.0 <= v < 256.0 ==> n == v.Floor
  {
    if v <= 0.0 then 0 else if v >= 255.0 then 255 else v.Floor
  }

  /** One blended channel: `(a * alpha) as u8 + (b * (1 - alpha)) as u8`. The
      sum never overflows a byte, whatever `alpha` is. */
  function BlendChannel(a: Byte, b: Byte, alpha: real): Byte
  {
    BlendNoOverflow(a, b, alpha);
    SatU8(a as real * alpha) + SatU8(b as real * (1.0 - alpha))
  }

  /** The two weighted terms of a blend, over reals: each vanishes when its
      weight is not positive, and for a weight in [0, 1] they sum to a byte. */
  lemma WeightedTerms(x: real, y: real, t: real)
    requires 0.0 <= x <= 255.0 && 0.0 <= y <= 255.0
    ensures t <= 0.0 ==> x * t <= 0.0
    ensures 1.0 <= t ==> y * (1.0 - t) <= 0.0
    ensures 0.0 <= t <= 1.0 ==> 0.0 <= x * t && 0.0 <= y * (1.0 - t) && x * t + y * (1.0 - t) <= 255.0
  {
    if t <= 0.0 {
      MulNonneg(x, -t);
    } else if 1.0 <= t {
      MulNonneg(y, t - 1.0);
    } else {
      MulNonneg(x, t);
      MulNonneg(y, 1.0 - t);
      MulNonneg(255.0 - x, t);
      MulNonneg(255.0 - y, 1.0 - t);
    }
  }

  lemma BlendNoOverflow(a: Byte, b: Byte, alpha: real)
    ensures SatU8(a as real * alpha) + SatU8(b as real * (1.0 - alpha)) <= 255
  {
    WeightedTerms(a as real, b as real, alpha);
  }

  lemma BlendChannelUnfold(a: Byte, b: Byte, alpha: real)
    ensures BlendChannel(a, b, alpha) == SatU8(a as real * alpha) + SatU8(b as real * (1.0 - alpha))
  {
  }

  /** `blend_color`: `alpha` of `a` over `1 - alpha` of `b`, always opaque. */
  function Blend(a: Rgba, b: Rgba, alpha: real): (c: Rgba)
    ensures c.a == 255
    ensures alpha == 0.0 ==> c == Rgba(b.r, b.g, b.b, 255)
    ensures alpha == 1.0 ==> c == Rgba(a.r, a.g, a.b, 255)
  {
    Rgba(BlendChannel(a.r, b.r, alpha), BlendChannel(a.g, b.g, alpha), BlendChannel(a.b, b.b, alpha), 255)
  }

  function MinByte(a: Byte, b: Byte): Byte { if a <= b then a else b }

  function MaxByte(a: Byte, b: Byte): Byte { if a >= b then a else b }

  /** A weighted average of `x` and `y` with weight `t` in [0, 1] lies between
      the smaller `lo` and the larger `hi` of the two. */
  lemma WeightedBetween(x: real, y: real, t: real, lo: real, hi: real)
    requires 0.0 <= t <= 1.0
    requires lo == x || lo == y
    requires hi == x || hi == y
    requires 0.0 <= lo <= x <= hi && lo <= y <= hi
    ensures 0.0 <= x * t && 0.0 <= y * (1.0 - t)
    ensures lo <= x * t + y * (1.0 - t) <= hi
  {
    MulNonneg(hi - x, t);
    MulNonneg(hi - y, 1.0 - t);
    MulNonneg(x - lo, t);
    MulNonneg(y - lo, 1.0 - t);
    MulNonneg(x, t);
    MulNonneg(y, 1.0 - t);
  }

  /** Truncating two non-negative terms loses less than one unit each. */
  lemma TruncatedSum(u: real, v: real, lo: int, hi: int)
    requires 0.0 <= u && 0.0 <= v && lo as real <= u + v <= hi as real <= 255.0
    ensures lo - 1 <= SatU8(u) + SatU8(v) <= hi
  {
  }

  lemma TermsWithin(x: real, y: real, t: real, lo: Byte, hi: Byte)
    requires 0.0 <= t <= 1.0
    requires lo as real == x || lo as real == y
    requires hi as real == x || hi as real == y
    requires lo as real <= x <= hi as real && lo as real <= y <= hi as real
    ensures lo - 1 <= SatU8(x * t) + SatU8(y * (1.0 - t)) <= hi
  {
    WeightedBetween(x, y, t, lo as real, hi as real);
    TruncatedSum(x * t, y * (1.0 - t), lo, hi);
  }

  /** For `alpha` in [0, 1] a blended channel lies between the two inputs, less
      at most one unit lost to truncation. */
  lemma BlendChannelWithin(a: Byte, b: Byte, alpha: real)
    requires 0.0 <= alpha <= 1.0
    ensures MinByte(a, b) - 1 <= BlendChannel(a, b, alpha) <= MaxByte(a, b)
  {
    TermsWithin(a as real, b as real, alpha, MinByte(a, b), MaxByte(a, b));
    BlendChannelUnfold(a, b, alpha);
  }

  /** `Blend` keeps every channel of the result within the inputs' range. */
  lemma BlendWithin(a: Rgba, b: Rgba, alpha: real)
    requires 0.0 <= alpha <= 1.0
    ensures var c := Blend(a, b, alpha);
      && MinByte(a.r, b.r) - 1 <= c.r <= MaxByte(a.r, b.r)
      && MinByte(a.g, b.g) - 1 <= c.g <= MaxByte(a.g, b.g)
      && MinByte(a.b, b.b) - 1 <= c.b <= MaxByte(a.b, b.b)
  {
    BlendChannelWithin(a.r, b.r, alpha);
    BlendChannelWithin(a.g, b.g, alpha);
    BlendChannelWithin(a.b, b.b, alpha);
  }
}
