/** `f32_to_i16` over the reals: clamp, scale to 65536 steps, round half away from zero, saturate. */
module Quantise {

  const I16_MIN: int := -0x8000
  const I16_MAX: int := 0x7fff

  function Clamp(v: real, lo: real, hi: real): real
    requires lo <= hi
  {
    if v < lo then lo else if v > hi then hi else v
  }

  /** `f32::round`. */
  function Round(x: real): int {
    if x >= 0.0 then (x + 0.5).Floor else -((-x + 0.5).Floor)
  }

  /** `as i16` saturates. */
  function Saturate(n: int): int {
    if n < I16_MIN then I16_MIN else if n > I16_MAX then I16_MAX else n
  }

  function Scaled(v: real, lo: real, hi: real): real
    requires lo < hi
  {
    (Clamp(v, lo, hi) - lo) / (hi - lo) * 65536.0 - 32768.0
  }

  /** `clamp` demands `lo <= hi`; an empty range divides zero by zero, and the cast turns NaN into 0. */
  function ToI16(v: real, lo: real, hi: real): int
    requires lo <= hi
  {
    if lo == hi then 0 else Saturate(Round(Scaled(v, lo, hi)))
  }

  lemma RoundNearest(x: real)
    ensures -0.5 <= Round(x) as real - x <= 0.5
    ensures Round(-x) == -Round(x)
  {
  }

  lemma RoundMonotone(x: real, y: real)
    requires x <= y
    ensures Round(x) <= Round(y)
  {
  }

  lemma ScaledRange(v: real, lo: real, hi: real)
    requires lo < hi
    ensures -32768.0 <= Scaled(v, lo, hi) <= 32768.0
  {
  }

  lemma DivisionMonotone(a: real, b: real, d: real)
    requires a <= b && 0.0 < d
    ensures a / d <= b / d
  {
  }

  lemma Monotone(v: real, w: real, lo: real, hi: real)
    requires lo <= hi && v <= w
    ensures ToI16(v, lo, hi) <= ToI16(w, lo, hi)
  {
    if lo < hi {
      DivisionMonotone(Clamp(v, lo, hi) - lo, Clamp(w, lo, hi) - lo, hi - lo);
      RoundMonotone(Scaled(v, lo, hi), Scaled(w, lo, hi));
    }
  }

  /** The result is an `i16` and lies within half a step of the exact scaled value, except above
      32767.5, where saturation costs up to a whole step. */
  lemma Accuracy(v: real, lo: real, hi: real)
    requires lo < hi
    ensures I16_MIN <= ToI16(v, lo, hi) <= I16_MAX
    ensures var error := ToI16(v, lo, hi) as real - Scaled(v, lo, hi);
      && -1.0 <= error <= 0.5
      && (-0.5 <= error <==> Scaled(v, lo, hi) <= 32767.5)
  {
    ScaledRange(v, lo, hi);
    RoundNearest(Scaled(v, lo, hi));
  }

  /** The ends of the range map to the ends of the 16-bit integers, and an empty range to 0. */
  lemma EndsOfRange(lo: real, hi: real)
    requires lo <= hi
    ensures if lo == hi then ToI16(lo, lo, hi) == 0 else ToI16(lo, lo, hi) == -32768 && ToI16(hi, lo, hi) == 32767
  {
    if lo < hi {
      var d := hi - lo;
      assert 0.0 / d == 0.0 && d / d == 1.0;
      assert Clamp(lo, lo, hi) - lo == 0.0 && Clamp(hi, lo, hi) - lo == d;
      hide Clamp, Round;
      assert Scaled(lo, lo, hi) == -32768.0 && Scaled(hi, lo, hi) == 32768.0;
      RoundNearest(32768.0);
      RoundNearest(-32768.0);
    }
  }

  lemma SymmetricScale(v: real, m: real)
    requires 0.0 < m
    ensures Scaled(v, -m, m) == Clamp(v, -m, m) / m * 32768.0
    ensures Scaled(-v, -m, m) == -Scaled(v, -m, m)
  {
  }

  /** On a symmetric range the conversion is odd exactly for the inputs whose scaled magnitude stays
      below 32767.5: beyond it -32768 has no positive counterpart. */
  lemma Odd(v: real, m: real)
    requires 0.0 < m
    ensures ToI16(-v, -m, m) == -ToI16(v, -m, m) <==> -32767.5 * m < 32768.0 * v < 32767.5 * m
  {
    SymmetricScale(v, m);
    RoundNearest(Scaled(v, -m, m));
    ScaledRange(v, -m, m);
    OddScale(v, m);
  }

  lemma OddScale(v: real, m: real)
    requires 0.0 < m
    ensures -32767.5 < Scaled(v, -m, m) < 32767.5 <==> -32767.5 * m < 32768.0 * v < 32767.5 * m
  {
    SymmetricScale(v, m);
    var c := Clamp(v, -m, m);
    var q := c / m;
    assert q * m == c;
    assert Scaled(v, -m, m) == q * 32768.0;
    if -32767.5 < q * 32768.0 < 32767.5 {
      assert -32767.5 * m < q * 32768.0 * m < 32767.5 * m;
    }
    if -32767.5 * m < 32768.0 * c < 32767.5 * m {
      assert -32767.5 * m < 32768.0 * q * m < 32767.5 * m;
      DivisionStrict(-32767.5, 32768.0 * q, m);
      DivisionStrict(32768.0 * q, 32767.5, m);
    }
  }

  lemma DivisionStrict(a: real, b: real, m: real)
    requires 0.0 < m && a * m < b * m
    ensures a < b
  {
  }
}
