/** Linear and bilinear interpolation, as the table lookups of
    CrProtonPrimary::flux and CrCoordinateTransfer::interpolate write them. */
module Interpolation {

  /** `a + t * (b - a)`. */
  function Lerp(a: real, b: real, t: real): real
  {
    a + t * (b - a)
  }

  function Min(a: real, b: real): real { if a <= b then a else b }
  function Max(a: real, b: real): real { if a <= b then b else a }

  function Min4(a: real, b: real, c: real, d: real): real { Min(Min(a, b), Min(c, d)) }
  function Max4(a: real, b: real, c: real, d: real): real { Max(Max(a, b), Max(c, d)) }

  lemma ScaledNonNegative(t: real, d: real)
    requires t >= 0.0 && d >= 0.0
    ensures t * d >= 0.0
  {
  }

  lemma ScaledAtMost(t: real, d: real)
    requires t <= 1.0 && d >= 0.0
    ensures t * d <= d
  {
    var x := t * d;
    assert d - x == (1.0 - t) * d;
    ScaledNonNegative(1.0 - t, d);
  }

  /** Interpolating upward from a to b stays in [a, b]. */
  lemma LerpRising(a: real, b: real, t: real)
    requires 0.0 <= t <= 1.0 && a <= b
    ensures a <= Lerp(a, b, t)
    ensures Lerp(a, b, t) <= b
  {
    ScaledNonNegative(t, b - a);
    ScaledAtMost(t, b - a);
  }

  /** For a weight in [0, 1] the interpolation stays between its ends, and
      the end weights give the ends. */
  lemma LerpBetween(a: real, b: real, t: real)
    requires 0.0 <= t <= 1.0
    ensures Min(a, b) <= Lerp(a, b, t) <= Max(a, b)
    ensures t == 0.0 ==> Lerp(a, b, t) == a
    ensures t == 1.0 ==> Lerp(a, b, t) == b
  {
    if a <= b {
      LerpRising(a, b, t);
    } else {
      LerpRising(b, a, 1.0 - t);
      assert Lerp(b, a, 1.0 - t) == Lerp(a, b, t);
    }
  }

  /** The four-weight form: corner values times (1-a)(1-b), (1-a)b, a(1-b)
      and ab. */
  function Bilinear(v00: real, v01: real, v10: real, v11: real, a: real, b: real): real
  {
    v00 * (1.0 - a) * (1.0 - b) + v01 * (1.0 - a) * b + v10 * a * (1.0 - b) + v11 * a * b
  }

  /** The four weights add up to one. */
  lemma BilinearWeightsSumToOne(a: real, b: real)
    ensures (1.0 - a) * (1.0 - b) + (1.0 - a) * b + a * (1.0 - b) + a * b == 1.0
  {
    assert (1.0 - a) * (1.0 - b) + (1.0 - a) * b == (1.0 - a) * ((1.0 - b) + b);
    assert a * (1.0 - b) + a * b == a * ((1.0 - b) + b);
  }

  /** The four-weight form is a lerp in a of two lerps in b. */
  lemma BilinearIsNestedLerp(v00: real, v01: real, v10: real, v11: real, a: real, b: real)
    ensures Bilinear(v00, v01, v10, v11, a, b) == Lerp(Lerp(v00, v01, b), Lerp(v10, v11, b), a)
  {
    var lo := Lerp(v00, v01, b);
    var hi := Lerp(v10, v11, b);
    assert lo == v00 * (1.0 - b) + v01 * b;
    assert hi == v10 * (1.0 - b) + v11 * b;
    assert Lerp(lo, hi, a) == lo * (1.0 - a) + hi * a;
    assert lo * (1.0 - a) == v00 * (1.0 - a) * (1.0 - b) + v01 * (1.0 - a) * b;
    assert hi * a == v10 * a * (1.0 - b) + v11 * a * b;
  }

  /** With weights in [0, 1] the result is a convex combination of the four
      corners: it lies between the smallest and the largest. */
  lemma BilinearWithin(v00: real, v01: real, v10: real, v11: real, a: real, b: real)
    requires 0.0 <= a <= 1.0 && 0.0 <= b <= 1.0
    ensures Min4(v00, v01, v10, v11) <= Bilinear(v00, v01, v10, v11, a, b)
    ensures Bilinear(v00, v01, v10, v11, a, b) <= Max4(v00, v01, v10, v11)
  {
    BilinearIsNestedLerp(v00, v01, v10, v11, a, b);
    var lo := Lerp(v00, v01, b);
    var hi := Lerp(v10, v11, b);
    LerpBetween(v00, v01, b);
    LerpBetween(v10, v11, b);
    LerpBetween(lo, hi, a);
  }
}
