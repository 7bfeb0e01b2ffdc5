/** Real arithmetic shared by the geometry, clock and warp models. */
module RealMath {

  // The tolerance declared once for every intersection routine.
  const EPSILON: real := 0.000000001

  function Abs(x: real): real {
    if x < 0.0 then -x else x
  }

  function Min(x: real, y: real): real {
    if x <= y then x else y
  }

  function Max(x: real, y: real): real {
    if x >= y then x else y
  }

  function Clamp(lo: real, hi: real, x: real): real {
    Max(lo, Min(hi, x))
  }

  /** `f` is the square root: the non-negative number whose square is given back. */
  ghost predicate IsSqrt(f: real -> real) {
    forall x | x >= 0.0 :: f(x) >= 0.0 && f(x) * f(x) == x
  }

  lemma SqrtAt(f: real -> real, x: real)
    requires IsSqrt(f)
    requires x >= 0.0
    ensures f(x) >= 0.0 && f(x) * f(x) == x
  {
  }

  lemma MulNonNegative(a: real, b: real)
    requires a >= 0.0 && b >= 0.0
    ensures a * b >= 0.0
  {
  }

  lemma MulPositive(a: real, b: real)
    requires a > 0.0 && b > 0.0
    ensures a * b > 0.0
  {
  }

  // The next two name the product, which lets the solver use its sign in linear steps.

  lemma NonNegativeProduct(a: real, b: real) returns (p: real)
    requires a >= 0.0 && b >= 0.0
    ensures p == a * b && p >= 0.0
  {
    p := a * b;
  }

  lemma PositiveProduct(a: real, b: real) returns (p: real)
    requires a > 0.0 && b > 0.0
    ensures p == a * b && p > 0.0
  {
    p := a * b;
  }

  lemma MulMonotone(a: real, b: real, c: real)
    requires a <= b
    requires c >= 0.0
    ensures a * c <= b * c
  {
    MulNonNegative(b - a, c);
  }

  lemma MulStrictlyMonotone(a: real, b: real, c: real)
    requires a < b
    requires c > 0.0
    ensures a * c < b * c
  {
    MulPositive(b - a, c);
  }

  lemma SquareNonNegative(x: real)
    ensures x * x >= 0.0
  {
  }

  lemma SquareMonotone(x: real, y: real)
    requires 0.0 <= x <= y
    ensures x * x <= y * y
  {
    MulMonotone(x, y, x);
    MulMonotone(x, y, y);
  }

  lemma SquareStrictlyMonotone(x: real, y: real)
    requires 0.0 <= x < y
    ensures x * x < y * y
  {
    MulPositive(y - x, y + x);
    assert (y - x) * (y + x) == y * y - x * x;
  }

  /** Non-negative numbers are ordered as their squares are. */
  lemma SquareOrder(x: real, y: real)
    requires x >= 0.0 && y >= 0.0
    ensures x <= y <==> x * x <= y * y
  {
    if x <= y {
      SquareMonotone(x, y);
    } else {
      SquareStrictlyMonotone(y, x);
    }
  }

  lemma DivBounds(x: real, y: real)
    requires y > 0.0
    ensures x / y * y == x
    ensures 0.0 <= x ==> 0.0 <= x / y
    ensures x <= y ==> x / y <= 1.0
    ensures x < y ==> x / y < 1.0
    ensures 0.0 < x ==> 0.0 < x / y
  {
  }

  lemma AbsMul(x: real, y: real)
    ensures Abs(x * y) == Abs(x) * Abs(y)
  {
  }

  lemma AbsProduct(p: real, x: real, y: real)
    requires p == x * y
    ensures Abs(p) == Abs(x) * Abs(y)
  {
    AbsMul(x, y);
  }

  lemma Distribute3(a: real, b: real, c: real, m: real)
    ensures (a + b + c) * m == a * m + b * m + c * m
  {
  }

  lemma AbsTriangle(x: real, y: real)
    ensures Abs(x + y) <= Abs(x) + Abs(y)
    ensures Abs(x - y) <= Abs(x) + Abs(y)
  {
  }

  /** The weighted mean of a and b with weight k on a. */
  function Mix(k: real, a: real, b: real): real {
    k * a + (1.0 - k) * b
  }

  lemma MixSame(k: real, c: real)
    ensures Mix(k, c, c) == c
  {
  }

  lemma MixMonotone(k: real, a: real, b: real, c: real, d: real)
    requires 0.0 <= k <= 1.0
    requires a <= c && b <= d
    ensures Mix(k, a, b) <= Mix(k, c, d)
  {
    var p := NonNegativeProduct(k, c - a);
    var q := NonNegativeProduct(1.0 - k, d - b);
    assert Mix(k, c, d) - Mix(k, a, b) == p + q;
  }

  lemma MixBelow(k: real, a: real, b: real, c: real)
    requires 0.0 < k < 1.0
    requires a <= c && b <= c && (a < c || b < c)
    ensures Mix(k, a, b) < c
  {
    var p := NonNegativeProduct(k, c - a);
    var q := NonNegativeProduct(1.0 - k, c - b);
    if a < c {
      p := PositiveProduct(k, c - a);
    } else {
      q := PositiveProduct(1.0 - k, c - b);
    }
    assert c - Mix(k, a, b) == p + q;
  }

  lemma MixAdd(k: real, a: real, b: real, c: real, d: real)
    ensures Mix(k, a + c, b + d) == Mix(k, a, b) + Mix(k, c, d)
  {
  }
}
