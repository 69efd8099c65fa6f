/** Exact real arithmetic shared by the vibration statistics. */
module Reals {

  /** A square root: the non-negative r with r * r == v, for every v >= 0. */
  ghost predicate IsSqrt(sqrt: real -> real) {
    forall v: real :: v >= 0.0 ==> sqrt(v) >= 0.0 && sqrt(v) * sqrt(v) == v
  }

  function Abs(v: real): (r: real)
    ensures r >= 0.0 && r * r == v * v
  {
    if v < 0.0 then -v else v
  }

  function Max(a: real, b: real): real {
    if a < b then b else a
  }

  function Min(a: real, b: real): real {
    if b < a then b else a
  }

  /** The sum of a finite sequence. */
  function Sum(s: seq<real>): real {
    if s == [] then 0.0 else Sum(s[..|s| - 1]) + s[|s| - 1]
  }

  lemma SumSnoc(s: seq<real>, v: real)
    ensures Sum(s + [v]) == Sum(s) + v
  {
    assert (s + [v])[..|s|] == s;
  }

  lemma MulLt(a: real, b: real, w: real)
    requires a < b && w > 0.0
    ensures a * w < b * w
  {
  }

  lemma MulLe(a: real, b: real, w: real)
    requires a <= b && w >= 0.0
    ensures a * w <= b * w
  {
  }

  lemma ProductPositive(x: real, y: real, product: real)
    requires x > 0.0 && y > 0.0 && product == x * y
    ensures product > 0.0
  {
  }

  lemma SquareLt(a: real, b: real)
    requires 0.0 <= a < b
    ensures a * a < b * b
  {
    var d := b - a;
    assert d * d > 0.0;
    assert d * a >= 0.0;
    assert b * b == a * a + 2.0 * (d * a) + d * d;
  }

  /** Squaring keeps the order of non-negative numbers. */
  lemma SquareOrder(a: real, b: real)
    requires a >= 0.0 && b >= 0.0
    ensures a <= b <==> a * a <= b * b
  {
    if a < b {
      SquareLt(a, b);
    } else if b < a {
      SquareLt(b, a);
    }
  }
}
