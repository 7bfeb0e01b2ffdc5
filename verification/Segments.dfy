/** Line segments: the closest parameter to a point, and bracketing searches for the distance to a box. */
module Segments {
  import opened RealMath
  import opened Vectors
  import opened Boxes

  datatype Segment = Segment(a: Vector3, b: Vector3) {

    function At(t: real): Vector3 {
      a.Lerp(b, t)
    }

    function Direction(): Vector3 {
      b.Sub(a)
    }

    predicate IsDegenerate() {
      Direction().LengthSquared() < EPSILON * EPSILON
    }

    function ClosestParameter(p: Vector3): real {
      var d := Direction();
      var dd := d.LengthSquared();
      if dd < EPSILON * EPSILON then 0.0 else Max(0.0, Min(1.0, p.Sub(a).Dot(d) / dd))
    }

    function ClosestPoint(p: Vector3): Vector3 {
      At(ClosestParameter(p))
    }

    function SquaredDistanceTo(p: Vector3): real {
      ClosestPoint(p).DistanceSquaredTo(p)
    }

    function Transform(anchor: Vector3, scale: real): Segment {
      Segment(anchor.Add(a.Scale(scale)), anchor.Add(b.Scale(scale)))
    }
  }

  lemma SegmentEnds(seg: Segment)
    ensures seg.At(0.0) == seg.a && seg.At(1.0) == seg.b
  {
  }

  // --- closest point on the segment -------------------------------------------------------------

  lemma NegatedLength(w: Vector3)
    ensures w.Scale(-1.0).LengthSquared() == w.LengthSquared()
  {
  }

  lemma OffsetComponent(a: real, b: real, p: real, s: real)
    ensures LerpComponent(a, b, s) - p == ((p - a) + (b - a) * -s) * -1.0
  {
    var d := b - a;
    assert d * -s == -(d * s);
  }

  lemma OffsetAlong(seg: Segment, p: Vector3, s: real)
    ensures seg.At(s).Sub(p) == p.Sub(seg.a).Add(seg.Direction().Scale(-s)).Scale(-1.0)
  {
    hide LerpComponent;
    OffsetComponent(seg.a.x, seg.b.x, p.x, s);
    OffsetComponent(seg.a.y, seg.b.y, p.y, s);
    OffsetComponent(seg.a.z, seg.b.z, p.z, s);
  }

  /** The squared distance from p to the point at parameter s is quadratic in s. */
  lemma DistanceAlong(seg: Segment, p: Vector3, s: real)
    ensures seg.At(s).DistanceSquaredTo(p)
            == p.Sub(seg.a).LengthSquared() - 2.0 * s * p.Sub(seg.a).Dot(seg.Direction())
               + s * s * seg.Direction().LengthSquared()
  {
    var u, d := p.Sub(seg.a), seg.Direction();
    var w := u.Add(d.Scale(-s));
    hide Vector3.LengthSquared, Vector3.Dot, Vector3.Sub, Vector3.Add, Vector3.Scale, Segment.At;
    OffsetAlong(seg, p, s);
    LengthAlong(u, d, -s);
    NegatedLength(w);
  }

  /** The clamped vertex of a parabola is its minimum over [0, 1]. */
  lemma ClampedVertex(pp: real, y: real, dd: real, s: real)
    requires dd > 0.0 && 0.0 <= s <= 1.0
    ensures var v := Max(0.0, Min(1.0, y / dd));
            pp - 2.0 * v * y + v * v * dd <= pp - 2.0 * s * y + s * s * dd
  {
    var q := y / dd;
    assert q * dd == y;
    var v := Max(0.0, Min(1.0, q));
    var g := (s - q) * (s - q) - (v - q) * (v - q);
    assert g >= 0.0 by {
      if v > q {
        SquareMonotone(v - q, s - q);
      } else if v < q {
        SquareMonotone(q - v, q - s);
        assert (q - v) * (q - v) == (v - q) * (v - q);
        assert (q - s) * (q - s) == (s - q) * (s - q);
      } else {
        SquareNonNegative(s - q);
      }
    }
    MulNonNegative(g, dd);
    assert g == s * s - v * v - 2.0 * (s - v) * q;
    assert g * dd == s * s * dd - v * v * dd - 2.0 * (s - v) * (q * dd);
  }

  /** No point of a non-degenerate segment is nearer to p than its closest point. */
  lemma ClosestPointOnSegment(seg: Segment, p: Vector3, s: real)
    requires !seg.IsDegenerate() && 0.0 <= s <= 1.0
    ensures 0.0 <= seg.ClosestParameter(p) <= 1.0
    ensures seg.SquaredDistanceTo(p) <= seg.At(s).DistanceSquaredTo(p)
  {
    hide Vector3.LengthSquared, Vector3.Dot, Vector3.DistanceSquaredTo;
    DistanceAlong(seg, p, s);
    DistanceAlong(seg, p, seg.ClosestParameter(p));
    ClampedVertex(p.Sub(seg.a).LengthSquared(), p.Sub(seg.a).Dot(seg.Direction()), seg.Direction().LengthSquared(), s);
  }

  // --- distance to a box along the segment --------------------------------------------------------

  /** How far x lies outside [lo, hi], with its sign. */
  function Excess(lo: real, hi: real, x: real): real {
    Clamp(lo, hi, x) - x
  }

  function SquaredExcess(lo: real, hi: real, x: real): real {
    Excess(lo, hi, x) * Excess(lo, hi, x)
  }

  /** The point of the segment at parameter t is this far, squared, from the box. */
  function BoxDistance(seg: Segment, box: Aabb, t: real): real {
    box.SquaredDistanceTo(seg.At(t))
  }

  lemma BoxDistanceByAxis(seg: Segment, box: Aabb, t: real)
    ensures BoxDistance(seg, box, t)
            == SquaredExcess(box.min.x, box.max.x, seg.At(t).x)
               + SquaredExcess(box.min.y, box.max.y, seg.At(t).y)
               + SquaredExcess(box.min.z, box.max.z, seg.At(t).z)
  {
  }

  lemma SquareConvex(a: real, b: real, k: real)
    requires 0.0 <= k <= 1.0
    ensures Mix(k, a, b) * Mix(k, a, b) <= Mix(k, a * a, b * b)
  {
    var g := k * (1.0 - k);
    MulNonNegative(k, 1.0 - k);
    SquareNonNegative(a - b);
    MulNonNegative(g, (a - b) * (a - b));
    assert Mix(k, a * a, b * b) - Mix(k, a, b) * Mix(k, a, b) == g * ((a - b) * (a - b));
  }

  /** The squared excess is a convex function of position: mixing nearest points gives a point of the interval. */
  lemma SquaredExcessConvex(lo: real, hi: real, x: real, y: real, k: real)
    requires lo <= hi && 0.0 <= k <= 1.0
    ensures SquaredExcess(lo, hi, Mix(k, x, y)) <= Mix(k, SquaredExcess(lo, hi, x), SquaredExcess(lo, hi, y))
  {
    var cx, cy, z := Clamp(lo, hi, x), Clamp(lo, hi, y), Mix(k, x, y);
    var ex, ey := cx - x, cy - y;
    var q := Mix(k, cx, cy);
    hide Mix, Clamp;
    ClampIsNearest(lo, hi, x, lo);
    ClampIsNearest(lo, hi, y, lo);
    MixMonotone(k, lo, lo, cx, cy);
    MixMonotone(k, cx, cy, hi, hi);
    MixSame(k, lo);
    MixSame(k, hi);
    ClampIsNearest(lo, hi, z, q);
    MixAdd(k, x, y, ex, ey);
    assert x + ex == cx && y + ey == cy;
    var m := Mix(k, ex, ey);
    assert q == z + m;
    assert (q - z) * (q - z) == m * m;
    assert SquaredExcess(lo, hi, x) == ex * ex && SquaredExcess(lo, hi, y) == ey * ey;
    SquareConvex(ex, ey, k);
  }

  lemma LerpMix(a: real, b: real, u: real, w: real, k: real)
    ensures LerpComponent(a, b, Mix(k, u, w)) == Mix(k, LerpComponent(a, b, u), LerpComponent(a, b, w))
  {
    var d, m := b - a, Mix(k, u, w);
    assert d * m == k * (d * u) + (1.0 - k) * (d * w);
    assert k * a + (1.0 - k) * a == a;
  }

  lemma AtMix(seg: Segment, u: real, w: real, k: real)
    ensures var p, q := seg.At(u), seg.At(w);
            seg.At(Mix(k, u, w)) == Vector3(Mix(k, p.x, q.x), Mix(k, p.y, q.y), Mix(k, p.z, q.z))
  {
    hide Mix, LerpComponent;
    LerpMix(seg.a.x, seg.b.x, u, w, k);
    LerpMix(seg.a.y, seg.b.y, u, w, k);
    LerpMix(seg.a.z, seg.b.z, u, w, k);
  }

  /** The squared distance to a box is convex along a segment. */
  lemma BoxDistanceConvex(seg: Segment, box: Aabb, u: real, w: real, k: real)
    requires box.Valid() && 0.0 <= k <= 1.0
    ensures BoxDistance(seg, box, Mix(k, u, w)) <= Mix(k, BoxDistance(seg, box, u), BoxDistance(seg, box, w))
  {
    var p, q := seg.At(u), seg.At(w);
    hide SquaredExcess, BoxDistance, Mix;
    AtMix(seg, u, w, k);
    BoxDistanceByAxis(seg, box, u);
    BoxDistanceByAxis(seg, box, w);
    BoxDistanceByAxis(seg, box, Mix(k, u, w));
    SquaredExcessConvex(box.min.x, box.max.x, p.x, q.x, k);
    SquaredExcessConvex(box.min.y, box.max.y, p.y, q.y, k);
    SquaredExcessConvex(box.min.z, box.max.z, p.z, q.z, k);
    var ex, fx := SquaredExcess(box.min.x, box.max.x, p.x), SquaredExcess(box.min.x, box.max.x, q.x);
    var ey, fy := SquaredExcess(box.min.y, box.max.y, p.y), SquaredExcess(box.min.y, box.max.y, q.y);
    var ez, fz := SquaredExcess(box.min.z, box.max.z, p.z), SquaredExcess(box.min.z, box.max.z, q.z);
    MixAdd(k, ex, fx, ey, fy);
    MixAdd(k, ex + ey, fx + fy, ez, fz);
  }

  /** Along a convex function, what has risen keeps rising, in either direction. */
  lemma Valley(seg: Segment, box: Aabb, u: real, v: real, w: real)
    requires box.Valid() && u < v < w
    ensures BoxDistance(seg, box, u) <= BoxDistance(seg, box, v) ==> BoxDistance(seg, box, v) <= BoxDistance(seg, box, w)
    ensures BoxDistance(seg, box, w) <= BoxDistance(seg, box, v) ==> BoxDistance(seg, box, v) <= BoxDistance(seg, box, u)
  {
    var k := (w - v) / (w - u);
    DivBounds(w - v, w - u);
    Weight(u, v, w, k);
    BoxDistanceConvex(seg, box, u, w, k);
    hide BoxDistance, Mix;
    var fu, fv, fw := BoxDistance(seg, box, u), BoxDistance(seg, box, v), BoxDistance(seg, box, w);
    if fu <= fv && fw <= fv && (fu < fv || fw < fv) {
      MixBelow(k, fu, fw, fv);
    }
  }

  lemma Weight(u: real, v: real, w: real, k: real)
    requires k * (w - u) == w - v
    ensures Mix(k, u, w) == v
  {
    assert Mix(k, u, w) == w - k * (w - u);
  }

  // --- how fast the distance can change along the segment -----------------------------------------

  /** A Lipschitz constant of the squared distance to the box over the whole segment. */
  function Steepness(seg: Segment, box: Aabb): real {
    AxisSteepness(box.min.x, box.max.x, seg.a.x, seg.b.x)
    + AxisSteepness(box.min.y, box.max.y, seg.a.y, seg.b.y)
    + AxisSteepness(box.min.z, box.max.z, seg.a.z, seg.b.z)
  }

  function AxisSteepness(lo: real, hi: real, a: real, b: real): real {
    2.0 * Abs(b - a) * Max(Abs(Excess(lo, hi, a)), Abs(Excess(lo, hi, b)))
  }

  lemma ExcessContraction(lo: real, hi: real, x: real, y: real)
    requires lo <= hi
    ensures Abs(Excess(lo, hi, x) - Excess(lo, hi, y)) <= Abs(x - y)
  {
  }

  lemma ExcessBetween(lo: real, hi: real, a: real, b: real, x: real)
    requires lo <= hi
    requires Min(a, b) <= x <= Max(a, b)
    ensures Abs(Excess(lo, hi, x)) <= Max(Abs(Excess(lo, hi, a)), Abs(Excess(lo, hi, b)))
  {
  }

  lemma LerpBetween(a: real, b: real, t: real)
    requires 0.0 <= t <= 1.0
    ensures Min(a, b) <= LerpComponent(a, b, t) <= Max(a, b)
  {
    if a <= b {
      var p := NonNegativeProduct(b - a, t);
      var q := NonNegativeProduct(b - a, 1.0 - t);
    } else {
      var p := NonNegativeProduct(a - b, t);
      var q := NonNegativeProduct(a - b, 1.0 - t);
    }
  }

  lemma DifferenceOfSquares(e: real, f: real, d: real, m: real)
    requires Abs(e - f) <= d && Abs(e) <= m && Abs(f) <= m
    ensures e * e - f * f <= d * (2.0 * m)
  {
    var x, y := Abs(e - f), Abs(e + f);
    ProductBelow(e - f, e + f, e * e - f * f, x, y);
    var p := NonNegativeProduct(d - x, 2.0 * m);
    var q := NonNegativeProduct(x, 2.0 * m - y);
    hide Abs;
    assert d * (2.0 * m) == x * y + p + q;
  }

  lemma ProductBelow(a: real, b: real, ab: real, x: real, y: real)
    requires x == Abs(a) && y == Abs(b) && ab == a * b
    ensures ab <= x * y
  {
    AbsProduct(ab, a, b);
  }

  lemma SquaredExcessMoves(lo: real, hi: real, a: real, b: real, x: real, y: real)
    requires lo <= hi
    requires Min(a, b) <= x <= Max(a, b) && Min(a, b) <= y <= Max(a, b)
    ensures SquaredExcess(lo, hi, x) - SquaredExcess(lo, hi, y)
            <= Abs(x - y) * (2.0 * Max(Abs(Excess(lo, hi, a)), Abs(Excess(lo, hi, b))))
  {
    hide Excess, Abs, Max, Min;
    ExcessBetween(lo, hi, a, b, x);
    ExcessBetween(lo, hi, a, b, y);
    ExcessContraction(lo, hi, x, y);
    DifferenceOfSquares(Excess(lo, hi, x), Excess(lo, hi, y), Abs(x - y),
                        Max(Abs(Excess(lo, hi, a)), Abs(Excess(lo, hi, b))));
  }

  lemma Rearrange(d: real, m: real, s: real, p: real)
    requires p == d * s
    ensures p * (2.0 * m) == 2.0 * d * m * s
  {
  }

  lemma StepLength(a: real, b: real, s: real, t: real, x: real, y: real)
    requires x == LerpComponent(a, b, s) && y == LerpComponent(a, b, t)
    ensures Abs(x - y) == Abs(b - a) * Abs(s - t)
  {
    AbsProduct(x - y, b - a, s - t);
  }

  lemma AxisLipschitz(lo: real, hi: real, a: real, b: real, s: real, t: real, x: real, y: real)
    requires lo <= hi && 0.0 <= s <= 1.0 && 0.0 <= t <= 1.0
    requires x == LerpComponent(a, b, s) && y == LerpComponent(a, b, t)
    ensures SquaredExcess(lo, hi, x) - SquaredExcess(lo, hi, y) <= AxisSteepness(lo, hi, a, b) * Abs(s - t)
  {
    hide Excess, Abs, Max, Min, SquaredExcess, LerpComponent;
    LerpBetween(a, b, s);
    LerpBetween(a, b, t);
    SquaredExcessMoves(lo, hi, a, b, x, y);
    StepLength(a, b, s, t, x, y);
    Rearrange(Abs(b - a), Max(Abs(Excess(lo, hi, a)), Abs(Excess(lo, hi, b))), Abs(s - t), Abs(x - y));
  }

  lemma BoxDistanceLipschitz(seg: Segment, box: Aabb, s: real, t: real)
    requires box.Valid() && 0.0 <= s <= 1.0 && 0.0 <= t <= 1.0
    ensures BoxDistance(seg, box, s) - BoxDistance(seg, box, t) <= Steepness(seg, box) * Abs(s - t)
  {
    hide SquaredExcess, BoxDistance, AxisSteepness, Abs, LerpComponent;
    var p, q := seg.At(s), seg.At(t);
    AxisLipschitz(box.min.x, box.max.x, seg.a.x, seg.b.x, s, t, p.x, q.x);
    AxisLipschitz(box.min.y, box.max.y, seg.a.y, seg.b.y, s, t, p.y, q.y);
    AxisLipschitz(box.min.z, box.max.z, seg.a.z, seg.b.z, s, t, p.z, q.z);
    BoxDistanceByAxis(seg, box, s);
    BoxDistanceByAxis(seg, box, t);
    Distribute3(AxisSteepness(box.min.x, box.max.x, seg.a.x, seg.b.x),
                AxisSteepness(box.min.y, box.max.y, seg.a.y, seg.b.y),
                AxisSteepness(box.min.z, box.max.z, seg.a.z, seg.b.z), Abs(s - t));
  }
}
