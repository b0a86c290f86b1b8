/**
 * The derived-value step used by both drawer variants: a two-point
 * `interpolate` with `extrapolate: 'clamp'`. The input is first clamped to the
 * input range, then mapped linearly onto the output range.
 */
module Interpolation {

  function Min(a: real, b: real): real { if a <= b then a else b }
  function Max(a: real, b: real): real { if a <= b then b else a }

  function Clamp(x: real, lo: real, hi: real): (r: real)
    requires lo <= hi
    ensures lo <= r <= hi
    ensures lo <= x <= hi ==> r == x
    ensures x < lo ==> r == lo
    ensures hi < x ==> r == hi
  {
    if x < lo then lo else if hi < x then hi else x
  }

  lemma UnitFraction(a: real, w: real)
    requires 0.0 <= a <= w && 0.0 < w
    ensures 0.0 <= a / w <= 1.0
  {
  }

  lemma FractionTimesWidth(a: real, w: real)
    requires 0.0 < w
    ensures (a / w) * w == a
  {
  }

  lemma ZeroFraction(w: real)
    requires 0.0 < w
    ensures 0.0 / w == 0.0
  {
  }

  lemma WholeFraction(w: real)
    requires 0.0 < w
    ensures w / w == 1.0
  {
  }

  /** No way along the range is fraction 0; all the way is fraction 1. */
  lemma FractionEnds(a: real, w: real)
    requires 0.0 < w
    ensures a == 0.0 ==> a / w == 0.0
    ensures a == w ==> a / w == 1.0
  {
    if a == 0.0 {
      ZeroFraction(w);
    } else if a == w {
      WholeFraction(w);
    }
  }

  lemma MulNonNegative(a: real, b: real)
    requires 0.0 <= a && 0.0 <= b
    ensures 0.0 <= a * b
  {
  }

  /** A fraction of `d` lies between 0 and `d`. */
  lemma ScaledUnitFraction(t: real, d: real)
    requires 0.0 <= t <= 1.0
    ensures 0.0 <= d ==> 0.0 <= t * d <= d
    ensures d <= 0.0 ==> d <= t * d <= 0.0
  {
    if 0.0 <= d {
      MulNonNegative(t, d);
      MulNonNegative(1.0 - t, d);
      assert (1.0 - t) * d == d - t * d;
    } else {
      MulNonNegative(t, -d);
      MulNonNegative(1.0 - t, -d);
      assert (1.0 - t) * -d == t * d - d;
      assert t * -d == -(t * d);
    }
  }

  /** Scaling `d` by a fraction `t` and then by `w` is scaling `d` by `t * w`. */
  lemma Rescale(t: real, w: real, a: real, d: real)
    requires t * w == a
    ensures (t * d) * w == a * d
  {
    assert (t * d) * w == (t * w) * d;
  }

  /**
   * The linear map of `c`, taken from the input range, onto the output range:
   * the input's fraction of the way along the input range, applied to the
   * output range.
   */
  function Ramp(c: real, inLo: real, inHi: real, outLo: real, outHi: real): (r: real)
    requires inLo <= c <= inHi && inLo < inHi
    ensures Min(outLo, outHi) <= r <= Max(outLo, outHi)
    ensures c == inLo ==> r == outLo
    ensures c == inHi ==> r == outHi
    ensures (r - outLo) * (inHi - inLo) == (c - inLo) * (outHi - outLo)
  {
    var w, a, d := inHi - inLo, c - inLo, outHi - outLo;
    var t := a / w;
    UnitFraction(a, w);
    ScaledUnitFraction(t, d);
    FractionTimesWidth(a, w);
    Rescale(t, w, a, d);
    FractionEnds(a, w);
    outLo + t * d
  }

  /**
   * `interpolate({inputRange: [inLo, inHi], outputRange: [outLo, outHi],
   * extrapolate: 'clamp'})` applied to `x`.
   */
  function Interpolate(x: real, inLo: real, inHi: real, outLo: real, outHi: real): (r: real)
    requires inLo < inHi
    ensures Min(outLo, outHi) <= r <= Max(outLo, outHi)
    ensures x <= inLo ==> r == outLo
    ensures inHi <= x ==> r == outHi
    ensures inLo <= x <= inHi ==> (r - outLo) * (inHi - inLo) == (x - inLo) * (outHi - outLo)
  {
    Ramp(Clamp(x, inLo, inHi), inLo, inHi, outLo, outHi)
  }

  /** With equal input and output ranges the interpolation is a plain clamp. */
  lemma InterpolateIdentity(x: real, lo: real, hi: real)
    requires lo < hi
    ensures Interpolate(x, lo, hi, lo, hi) == Clamp(x, lo, hi)
  {
    var c := Clamp(x, lo, hi);
    assert (Ramp(c, lo, hi, lo, hi) - lo) * (hi - lo) == (c - lo) * (hi - lo);
  }
}
