/** Tick selection of `draw_ticks` (the nested `get_automatic_ticks` of
    src/element/dynamic_plot.rs). The main division, a power of ten near the
    axis width, comes in as a parameter; the search divides it by 1, 2, 5,
    10, 20 and 50 until the width holds more than three divisions, and the
    ticks are the integer multiples of the chosen division, and of a tenth of
    it, that lie inside the limit. */
module Ticks {
  import opened Arith

  const DIVISORS: seq<real> := [1.0, 2.0, 5.0, 10.0, 20.0, 50.0]

  /** `(width / division) as usize`: the whole number of divisions in the
      width, where the cast turns a negative quotient into 0. */
  function TickCount(width: real, division: real): (n: nat)
    requires division > 0.0
    ensures width >= 0.0 ==> n as real <= width / division < (n + 1) as real
    ensures width < 0.0 ==> n == 0
  {
    if width / division < 0.0 then 0 else (width / division).Floor
  }

  /** The division the `k`-th divisor makes of the main division. */
  function Division(main: real, k: nat): (d: real)
    requires main > 0.0 && k < |DIVISORS|
    ensures d > 0.0 && d * DIVISORS[k] == main
  {
    main / DIVISORS[k]
  }

  /** Whether the `k`-th divisor gives more than three divisions. */
  predicate Dense(width: real, main: real, k: nat)
    requires main > 0.0 && k < |DIVISORS|
  {
    TickCount(width, Division(main, k)) > 3
  }

  /** The index at which the divisor search, started at `k`, stops: the first
      dense divisor, or the last divisor when none is dense. */
  function FirstDense(width: real, main: real, k: nat): (r: nat)
    requires main > 0.0 && k < |DIVISORS|
    ensures k <= r < |DIVISORS|
    ensures Dense(width, main, r) || r == |DIVISORS| - 1
    ensures forall j :: k <= j < r ==> !Dense(width, main, j)
    decreases |DIVISORS| - k
  {
    if Dense(width, main, k) || k == |DIVISORS| - 1 then k else FirstDense(width, main, k + 1)
  }

  /** The search loop of `get_automatic_ticks`: the major division is the main
      division over the first divisor that leaves more than three divisions in
      the width, or over 50 when none does. */
  method MajorDivision(width: real, main: real) returns (major: real)
    requires main > 0.0
    ensures major == Division(main, FirstDense(width, main, 0))
    ensures Dense(width, main, FirstDense(width, main, 0)) || major == main / 50.0
  {
    var index := 0;
    while true
      invariant 0 <= index < |DIVISORS|
      invariant FirstDense(width, main, index) == FirstDense(width, main, 0)
      decreases |DIVISORS| - index
    {
      major := main / DIVISORS[index];
      var count := TickCount(width, major);
      if count > 3 {
        return;
      }
      if index < |DIVISORS| - 1 {
        index := index + 1;
      } else {
        return;
      }
    }
  }

  /** The first integer `m` with `m * division >= lo`. */
  function FirstMultiple(lo: real, division: real): int
    requires division > 0.0
  {
    Ceil(lo / division)
  }

  /** The last integer `m` with `m * division <= hi`. */
  function LastMultiple(hi: real, division: real): int
    requires division > 0.0
  {
    (hi / division).Floor
  }

  /** `(ceil(lo / division)..=floor(hi / division)).map(|m| m * division)`. */
  function Multiples(lo: real, hi: real, division: real): seq<real>
    requires division > 0.0
  {
    var first, last := FirstMultiple(lo, division), LastMultiple(hi, division);
    if last < first then []
    else seq(last - first + 1, k requires 0 <= k < last - first + 1 => (first + k) as real * division)
  }

  /** `q >= x / d` scales to `q * d >= x` for a positive `d`, and the same
      for `<=`. */
  lemma ScaleBound(q: real, x: real, d: real)
    requires d > 0.0
    ensures q >= x / d ==> q * d >= x
    ensures q <= x / d ==> q * d <= x
  {
    assert (x / d) * d == x;
    if q >= x / d {
      MulNonneg(q - x / d, d);
    } else {
      MulNonneg(x / d - q, d);
    }
  }

  /** The converse of `ScaleBound`. */
  lemma ScaleBack(q: real, x: real, d: real)
    requires d > 0.0
    ensures q * d >= x ==> q >= x / d
    ensures q * d <= x ==> q <= x / d
  {
    assert (x / d) * d == x;
    assert (q - x / d) * d == q * d - x;
    if q < x / d {
      MulPos(x / d - q, d);
    } else if q > x / d {
      MulPos(q - x / d, d);
    }
  }

  /** The `k`-th enumerated multiple lies in `[lo, hi]`. */
  lemma MultipleInRange(lo: real, hi: real, division: real, k: int)
    requires division > 0.0
    requires 0 <= k < |Multiples(lo, hi, division)|
    ensures lo <= Multiples(lo, hi, division)[k] <= hi
  {
    var m := FirstMultiple(lo, division) + k;
    assert Multiples(lo, hi, division)[k] == m as real * division;
    assert lo / division <= m as real <= hi / division;
    ScaleBound(m as real, lo, division);
    ScaleBound(m as real, hi, division);
  }

  /** Every enumerated multiple lies in `[lo, hi]`. */
  lemma MultiplesInRange(lo: real, hi: real, division: real)
    requires division > 0.0
    ensures forall t :: t in Multiples(lo, hi, division) ==> lo <= t <= hi
  {
    var ms := Multiples(lo, hi, division);
    forall k | 0 <= k < |ms|
      ensures lo <= ms[k] <= hi
    {
      MultipleInRange(lo, hi, division, k);
    }
  }

  /** Every integer multiple of the division that lies in `[lo, hi]` is
      enumerated. */
  lemma MultiplesComplete(lo: real, hi: real, division: real, m: int)
    requires division > 0.0
    requires lo <= m as real * division <= hi
    ensures m as real * division in Multiples(lo, hi, division)
  {
    var first, last := FirstMultiple(lo, division), LastMultiple(hi, division);
    assert lo / division <= m as real by { ScaleBack(m as real, lo, division); }
    assert m as real <= hi / division by { ScaleBack(m as real, hi, division); }
    assert first <= m <= last;
    var ms := Multiples(lo, hi, division);
    assert |ms| == last - first + 1;
    assert ms[m - first] == m as real * division;
  }

  /** The multiples come out strictly increasing. */
  lemma MultiplesIncreasing(lo: real, hi: real, division: real)
    requires division > 0.0
    ensures var ms := Multiples(lo, hi, division);
      forall k, l :: 0 <= k < l < |ms| ==> ms[k] < ms[l]
  {
    var ms := Multiples(lo, hi, division);
    var first := FirstMultiple(lo, division);
    forall k, l | 0 <= k < l < |ms|
      ensures ms[k] < ms[l]
    {
      MulNonneg((l - k) as real - 1.0, division);
      assert ms[l] - ms[k] == ((l - k) as real) * division;
    }
  }

  /** `get_automatic_ticks` for the limit `lim`: the multiples of the major
      division and of a tenth of it. All of them lie inside the limit. */
  method GetAutomaticTicks(lim: (real, real), main: real) returns (majors: seq<real>, minors: seq<real>)
    requires main > 0.0
    ensures var major := Division(main, FirstDense(lim.1 - lim.0, main, 0));
      majors == Multiples(lim.0, lim.1, major) && minors == Multiples(lim.0, lim.1, major / 10.0)
    ensures forall t :: t in majors ==> lim.0 <= t <= lim.1
    ensures forall t :: t in minors ==> lim.0 <= t <= lim.1
  {
    var major := MajorDivision(lim.1 - lim.0, main);
    var minor := major / 10.0;
    majors := Multiples(lim.0, lim.1, major);
    minors := Multiples(lim.0, lim.1, minor);
    MultiplesInRange(lim.0, lim.1, major);
    MultiplesInRange(lim.0, lim.1, minor);
  }
}
