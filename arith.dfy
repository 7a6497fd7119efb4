/** Small facts about multiplication of reals that the solver does not find
    on its own, and the rounding helpers of Rust's float operations. */
module Arith {

  lemma MulNonneg(x: real, y: real)
    requires x >= 0.0 && y >= 0.0
    ensures x * y >= 0.0
  {
  }

  lemma MulPos(x: real, y: real)
    requires x > 0.0 && y > 0.0
    ensures x * y > 0.0
  {
  }

  lemma MulNonpos(x: real, y: real)
    requires x >= 0.0 && y <= 0.0
    ensures x * y <= 0.0
  {
    MulNonneg(x, -y);
  }

  /** `f32::ceil`. */
  function Ceil(x: real): (c: int)
    ensures x <= c as real < x + 1.0
  {
    -((-x).Floor)
  }

  /** `f32 as i32` within range: truncation toward zero. */
  function Trunc(v: real): (t: int)
    ensures 0.0 <= v ==> t == v.Floor
    ensures v < 0.0 ==> v <= t as real < v + 1.0
  {
    if v >= 0.0 then v.Floor else Ceil(v)
  }
}
