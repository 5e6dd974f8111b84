/** The `Math.min`, `Math.max` and clamping idioms the source uses, over exact reals. */
module Numeric {

  /** `Math.min(a, b)` */
  function Min(a: real, b: real): (r: real)
    ensures r <= a && r <= b
    ensures r == a || r == b
  {
    if a <= b then a else b
  }

  /** `Math.max(a, b)` */
  function Max(a: real, b: real): (r: real)
    ensures a <= r && b <= r
    ensures r == a || r == b
  {
    if a <= b then b else a
  }

  /** `Math.max(0, Math.min(1, x))`, the clamp into the unit interval the source applies to
      positions and fractions. */
  function Clamp01(x: real): (r: real)
    ensures 0.0 <= r <= 1.0
    ensures 0.0 <= x <= 1.0 ==> r == x
    ensures x < 0.0 ==> r == 0.0
    ensures 1.0 < x ==> r == 1.0
  {
    Max(0.0, Min(1.0, x))
  }

  /** A ratio of a part to a positive whole lies in the unit interval. */
  lemma UnitRatio(a: real, d: real)
    requires 0.0 < d && 0.0 <= a <= d
    ensures 0.0 <= a / d <= 1.0
  {
    assert (a / d) * d == a;
  }

  /** A fraction in the unit interval of a non-negative quantity lies between 0 and it. */
  lemma ScaleWithin(f: real, w: real)
    requires 0.0 <= f <= 1.0 && 0.0 <= w
    ensures 0.0 <= f * w <= w
  {
    assert w - f * w == (1.0 - f) * w;
  }
}
