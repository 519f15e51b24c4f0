/** Bilinear interpolation inside one geolocation-grid cell. The Sentinel and
    the TerraSAR-X readers each carry an identical `_bilinear`; it is defined
    once here. */
module Interp {

  /** Straight-line interpolation from `a` (at t = 0) to `b` (at t = 1). */
  function Lerp(a: real, b: real, t: real): real
  {
    (1.0 - t) * a + t * b
  }

  function Min(a: real, b: real): real { if a <= b then a else b }
  function Max(a: real, b: real): real { if a <= b then b else a }

  /** `_bilinear(x, y, f)`: the corner values `f0..f3` sit at (0,0), (1,0),
      (1,1), (0,1); x runs along the first axis, y along the second. */
  function Bilinear(x: real, y: real, f0: real, f1: real, f2: real, f3: real): (p: real)
    ensures x == 0.0 && y == 0.0 ==> p == f0
    ensures x == 1.0 && y == 0.0 ==> p == f1
    ensures x == 1.0 && y == 1.0 ==> p == f2
    ensures x == 0.0 && y == 1.0 ==> p == f3
  {
    var r1 := (1.0 - x) * f0 + x * f1;
    var r2 := (1.0 - x) * f3 + x * f2;
    (1.0 - y) * r1 + y * r2
  }

  lemma LerpBetween(a: real, b: real, t: real)
    requires 0.0 <= t <= 1.0
    ensures Min(a, b) <= Lerp(a, b, t) <= Max(a, b)
  {
    assert Lerp(a, b, t) == a + t * (b - a);
    if a <= b {
      MulNonneg(t, b - a);
      MulNonneg(1.0 - t, b - a);
    } else {
      MulNonneg(t, a - b);
      MulNonneg(1.0 - t, a - b);
    }
  }

  lemma MulNonneg(u: real, v: real)
    requires 0.0 <= u && 0.0 <= v
    ensures 0.0 <= u * v
  {
  }

  /** The interpolation is two nested straight-line interpolations: along x
      on the y = 0 edge (f0 to f1) and on the y = 1 edge (f3 to f2), then
      along y between them. */
  lemma BilinearIsNestedLerp(x: real, y: real, f0: real, f1: real, f2: real, f3: real)
    ensures Bilinear(x, y, f0, f1, f2, f3) == Lerp(Lerp(f0, f1, x), Lerp(f3, f2, x), y)
  {
  }

  /** Inside the cell the interpolated value never leaves the range of the
      four corner values. */
  lemma BilinearBounded(x: real, y: real, f0: real, f1: real, f2: real, f3: real)
    requires 0.0 <= x <= 1.0 && 0.0 <= y <= 1.0
    ensures Min(Min(f0, f1), Min(f2, f3)) <= Bilinear(x, y, f0, f1, f2, f3)
    ensures Bilinear(x, y, f0, f1, f2, f3) <= Max(Max(f0, f1), Max(f2, f3))
  {
    LerpBetween(f0, f1, x);
    LerpBetween(f3, f2, x);
    LerpBetween(Lerp(f0, f1, x), Lerp(f3, f2, x), y);
    BilinearIsNestedLerp(x, y, f0, f1, f2, f3);
  }
}
