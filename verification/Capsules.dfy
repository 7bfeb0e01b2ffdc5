/** Solid capsules: exact ray intersection by cylinder wall and end caps, and overlap with a box. */
module Capsules {
  import opened Wrappers
  import opened RealMath
  import opened Vectors
  import opened Bases
  import opened Rays
  import opened Boxes
  import opened Segments
  import opened Searches
  import Spheres

  datatype Capsule = Capsule(a: Vector3, b: Vector3, radius: real) {

    predicate Valid() {
      radius > 0.0
    }

    function GetSegment(): Segment {
      Segment(a, b)
    }

    /** Within the radius of some point of the segment. */
    ghost predicate Contains(p: Vector3) {
      exists s | 0.0 <= s <= 1.0 :: GetSegment().At(s).DistanceSquaredTo(p) <= radius * radius
    }

    ghost function Points(): iset<Vector3> {
      iset p | Contains(p)
    }

    function Transform(anchor: Vector3, scale: real): Capsule {
      Capsule(anchor.Add(a.Scale(scale)), anchor.Add(b.Scale(scale)), radius * scale)
    }
  }

  /**
   * What decides membership along a ray, as numbers: baba = |b-a|^2, bard and baoa the axial components of
   * direction and origin, rdoa and oaoa the origin against the direction and itself, and rr the squared radius.
   */
  datatype Scalars = Scalars(baba: real, bard: real, baoa: real, rdoa: real, oaoa: real, rr: real) {

    /** Squared distance of the ray point from a. */
    function P(t: real): real {
      oaoa + 2.0 * t * rdoa + t * t
    }

    /** Axial coordinate of the ray point, from 0 at a to baba at b. */
    function Y(t: real): real {
      baoa + t * bard
    }

    /** Squared distance of the ray point from the segment point at s. */
    function D(t: real, s: real): real {
      P(t) - 2.0 * s * Y(t) + s * s * baba
    }

    /** Non-positive within the infinite cylinder; scaled by baba. */
    function Q(t: real): real {
      baba * P(t) - Y(t) * Y(t) - rr * baba
    }

    function Qa(): real {
      baba - bard * bard
    }

    function Qb(): real {
      baba * rdoa - baoa * bard
    }

    function Qc(): real {
      baba * oaoa - baoa * baoa - rr * baba
    }

    /** In the capsule at parameter t. */
    ghost predicate Inside(t: real) {
      exists s | 0.0 <= s <= 1.0 :: D(t, s) <= rr
    }
  }

  function ScalarsOf(c: Capsule, ray: Ray): Scalars {
    var ba, oa, rd := c.b.Sub(c.a), ray.origin.Sub(c.a), ray.direction;
    Scalars(ba.Dot(ba), ba.Dot(rd), ba.Dot(oa), rd.Dot(oa), oa.Dot(oa), c.radius * c.radius)
  }

  lemma QuadraticIdentity(baba: real, bard: real, baoa: real, rdoa: real, oaoa: real, rr: real, t: real,
                          p: real, y: real, qa: real, qb: real, qc: real)
    requires p == oaoa + 2.0 * t * rdoa + t * t
    requires y == baoa + t * bard
    requires qa == baba - bard * bard && qb == baba * rdoa - baoa * bard
    requires qc == baba * oaoa - baoa * baoa - rr * baba
    ensures baba * p - y * y - rr * baba == qa * (t * t) + 2.0 * qb * t + qc
  {
    assert baba * p == baba * oaoa + 2.0 * t * (baba * rdoa) + baba * (t * t);
    assert y * y == baoa * baoa + 2.0 * t * (baoa * bard) + (bard * bard) * (t * t);
    assert qa * (t * t) == baba * (t * t) - (bard * bard) * (t * t);
    assert 2.0 * qb * t == 2.0 * t * (baba * rdoa) - 2.0 * t * (baoa * bard);
  }

  lemma ScalarForms(k: Scalars, t: real)
    ensures k.P(t) == k.oaoa + 2.0 * t * k.rdoa + t * t && k.Y(t) == k.baoa + t * k.bard
    ensures k.Qa() == k.baba - k.bard * k.bard && k.Qb() == k.baba * k.rdoa - k.baoa * k.bard
    ensures k.Qc() == k.baba * k.oaoa - k.baoa * k.baoa - k.rr * k.baba
  {
  }

  /** Along the ray the infinite cylinder is the quadratic the code computes. */
  lemma QuadraticForm(k: Scalars, t: real)
    ensures k.Q(t) == k.Qa() * (t * t) + 2.0 * k.Qb() * t + k.Qc()
  {
    hide Scalars.P, Scalars.Y, Scalars.Qa, Scalars.Qb, Scalars.Qc;
    ScalarForms(k, t);
    QuadraticIdentity(k.baba, k.bard, k.baoa, k.rdoa, k.oaoa, k.rr, t, k.P(t), k.Y(t), k.Qa(), k.Qb(), k.Qc());
  }

  lemma RayScalars(c: Capsule, ray: Ray, t: real)
    requires ray.Valid()
    ensures var k, w, ba := ScalarsOf(c, ray), ray.At(t).Sub(c.a), c.b.Sub(c.a);
            k.P(t) == w.Dot(w) && k.Y(t) == w.Dot(ba) && k.baba == ba.Dot(ba)
  {
    var ba, oa, rd := c.b.Sub(c.a), ray.origin.Sub(c.a), ray.direction;
    var w := oa.Add(rd.Scale(t));
    assert ray.At(t).Sub(c.a) == w;
    hide Vector3.Dot, Vector3.Add, Vector3.Scale, Vector3.Sub, Ray.At;
    LengthAlong(oa, rd, t);
    DotAdd(oa, rd.Scale(t), ba);
    DotScale(rd, t, ba);
    DotCommutes(oa, rd);
    DotCommutes(ba, rd);
    DotCommutes(ba, oa);
  }

  /** The numbers are faithful: they give the squared distance from a ray point to a segment point. */
  lemma ScalarDistance(c: Capsule, ray: Ray, t: real, s: real)
    requires ray.Valid()
    ensures c.GetSegment().At(s).DistanceSquaredTo(ray.At(t)) == ScalarsOf(c, ray).D(t, s)
  {
    hide Vector3.Dot, Vector3.Sub, Vector3.DistanceSquaredTo, Ray.At, Ray.Valid, Segment.At, ScalarsOf, Scalars.P, Scalars.Y;
    DistanceAlong(c.GetSegment(), ray.At(t), s);
    RayScalars(c, ray, t);
  }

  /** So membership along the ray is the scalar predicate. */
  lemma InsideAlong(c: Capsule, ray: Ray, t: real)
    requires ray.Valid()
    ensures c.Contains(ray.At(t)) <==> ScalarsOf(c, ray).Inside(t)
  {
    hide Vector3.DistanceSquaredTo, Scalars.D, ScalarsOf;
    var k, p := ScalarsOf(c, ray), ray.At(t);
    assert k.rr == c.radius * c.radius by { RadiusSquared(c, ray); }
    if c.Contains(p) {
      var s :| 0.0 <= s <= 1.0 && c.GetSegment().At(s).DistanceSquaredTo(p) <= c.radius * c.radius;
      ScalarDistance(c, ray, t, s);
      assert k.D(t, s) <= k.rr;
    }
    if k.Inside(t) {
      var s :| 0.0 <= s <= 1.0 && k.D(t, s) <= k.rr;
      ScalarDistance(c, ray, t, s);
      assert c.GetSegment().At(s).DistanceSquaredTo(p) <= c.radius * c.radius;
    }
  }

  lemma RadiusSquared(c: Capsule, ray: Ray)
    ensures ScalarsOf(c, ray).rr == c.radius * c.radius
  {
  }

  // --- the geometry of one ray, in scalars -------------------------------------------------------

  /** A ray point in the cylinder whose axial coordinate is within the span is in the capsule. */
  lemma WallIsInside(k: Scalars, t: real)
    requires k.baba > 0.0 && k.Q(t) <= 0.0 && 0.0 <= k.Y(t) <= k.baba
    ensures k.Inside(t)
  {
    hide Scalars.P, Scalars.Y;
    var s := k.Y(t) / k.baba;
    DivBounds(k.Y(t), k.baba);
    var y, b, p := k.Y(t), k.baba, k.P(t);
    assert y == s * b;
    assert k.D(t, s) == p - s * y;
    assert b * (p - s * y) == b * p - y * y;
    if k.D(t, s) > k.rr {
      var x := PositiveProduct(b, p - s * y - k.rr);
      assert false;
    }
  }

  /** A point within the radius of a segment point has no more than the radius to the axis. */
  lemma InsideIsInCylinder(k: Scalars, t: real, s: real)
    requires k.baba > 0.0 && k.D(t, s) <= k.rr
    ensures k.Q(t) <= 0.0
  {
    hide Scalars.P, Scalars.Y;
    var y, b, p := k.Y(t), k.baba, k.P(t);
    SquareNonNegative(s * b - y);
    assert (s * b - y) * (s * b - y) == b * (s * s * b - 2.0 * s * y) + y * y;
    var x := NonNegativeProduct(b, k.rr - k.D(t, s));
    assert x == b * k.rr - b * p - b * (s * s * b - 2.0 * s * y);
  }

  lemma OutsideCylinderIsOutside(k: Scalars, t: real)
    requires k.baba > 0.0 && k.Q(t) > 0.0
    ensures !k.Inside(t)
  {
    if k.Inside(t) {
      var s :| 0.0 <= s <= 1.0 && k.D(t, s) <= k.rr;
      InsideIsInCylinder(k, t, s);
    }
  }

  /** Beyond the a end the nearest segment point is a itself. */
  lemma BeforeSpan(k: Scalars, t: real, s: real)
    requires k.baba >= 0.0 && 0.0 <= s && k.Y(t) <= 0.0
    ensures k.P(t) <= k.D(t, s)
  {
    hide Scalars.P, Scalars.Y;
    var x := NonNegativeProduct(2.0 * s, -k.Y(t));
    SquareNonNegative(s);
    var y := NonNegativeProduct(s * s, k.baba);
  }

  /** Beyond the b end the nearest segment point is b itself. */
  lemma AfterSpan(k: Scalars, t: real, s: real)
    requires k.baba >= 0.0 && s <= 1.0 && k.Y(t) >= k.baba
    ensures k.D(t, 1.0) <= k.D(t, s)
  {
    hide Scalars.P, Scalars.Y;
    var x := NonNegativeProduct(2.0 * (1.0 - s), k.Y(t) - k.baba);
    SquareNonNegative(1.0 - s);
    var y := NonNegativeProduct((1.0 - s) * (1.0 - s), k.baba);
    assert k.D(t, s) - k.D(t, 1.0) == x + y;
  }

  /** The cylinder quadratic is convex: between two parameters inside it, it stays inside. */
  lemma CylinderConvex(k: Scalars, t1: real, t: real, t2: real)
    requires k.Qa() >= 0.0 && t1 <= t <= t2
    requires k.Q(t1) <= 0.0 && k.Q(t2) <= 0.0
    ensures k.Q(t) <= 0.0
  {
    QuadraticForm(k, t1);
    QuadraticForm(k, t);
    QuadraticForm(k, t2);
    hide Scalars.Q, Scalars.Qa, Scalars.Qb, Scalars.Qc;
    if t1 < t2 {
      ConvexQuadratic(k.Qa(), k.Qb(), k.Qc(), t1, t, t2);
    }
  }

  lemma ConvexQuadratic(a: real, b: real, c: real, t1: real, t: real, t2: real)
    requires a >= 0.0 && t1 <= t <= t2 && t1 < t2
    requires a * (t1 * t1) + 2.0 * b * t1 + c <= 0.0
    requires a * (t2 * t2) + 2.0 * b * t2 + c <= 0.0
    ensures a * (t * t) + 2.0 * b * t + c <= 0.0
  {
    var q1, q, q2 := a * (t1 * t1) + 2.0 * b * t1 + c, a * (t * t) + 2.0 * b * t + c, a * (t2 * t2) + 2.0 * b * t2 + c;
    var x := NonNegativeProduct(t2 - t, -q1);
    var y := NonNegativeProduct(t - t1, -q2);
    var z := NonNegativeProduct(t2 - t, t - t1);
    var w := NonNegativeProduct(z * a, t2 - t1);
    assert (t2 - t1) * q == -x - y - w;
    if q > 0.0 {
      var v := PositiveProduct(t2 - t1, q);
      assert false;
    }
  }

  /** From outside the span to inside it, the ray passes an end plane, where the cylinder is the cap sphere's disc. */
  lemma CrossesEndPlane(k: Scalars, u: real, t: real) returns (v: real)
    requires k.baba > 0.0 && k.Qa() >= 0.0
    requires u <= t && k.Q(u) <= 0.0 && k.Q(t) <= 0.0
    requires 0.0 < k.Y(t) < k.baba && !(0.0 <= k.Y(u) <= k.baba)
    ensures u <= v <= t && (k.P(v) <= k.rr || k.D(v, 1.0) <= k.rr)
  {
    var edge := if k.Y(u) < 0.0 then 0.0 else k.baba;
    v := PlaneParameter(k, u, t, edge);
    CylinderConvex(k, u, v, t);
    hide Scalars.P, Scalars.Y;
    var b, p := k.baba, k.P(v);
    assert k.Q(v) == b * (p - edge - k.rr) by {
      assert k.Y(v) * k.Y(v) == b * edge;
    }
    if p - edge > k.rr {
      var x := PositiveProduct(b, p - edge - k.rr);
      assert false;
    }
  }

  /** The axial coordinate is affine, so it takes every value between two of its values. */
  lemma PlaneParameter(k: Scalars, u: real, t: real, edge: real) returns (v: real)
    requires u <= t && (k.Y(u) < edge < k.Y(t) || k.Y(t) < edge < k.Y(u))
    ensures u <= v <= t && k.Y(v) == edge
  {
    var w := (edge - k.Y(u)) / (k.Y(t) - k.Y(u));
    var gap := k.Y(t) - k.Y(u);
    assert w * gap == edge - k.Y(u);
    assert gap == (t - u) * k.bard;
    if gap > 0.0 {
      DivBounds(edge - k.Y(u), gap);
    } else {
      DivBounds(k.Y(u) - edge, -gap);
      assert w == (k.Y(u) - edge) / (-gap);
    }
    v := u + w * (t - u);
    var x := NonNegativeProduct(w, t - u);
    var y := NonNegativeProduct(1.0 - w, t - u);
    assert k.Y(v) == k.Y(u) + w * ((t - u) * k.bard);
  }

  // --- the wall entry --------------------------------------------------------------------------------

  /** The discriminant of the cylinder quadratic. */
  function Discriminant(k: Scalars): real {
    k.Qb() * k.Qb() - k.Qa() * k.Qc()
  }

  function SmallerRoot(k: Scalars, sqrt: real -> real): real
    requires k.Qa() > 0.0
  {
    (-k.Qb() - sqrt(Discriminant(k))) / k.Qa()
  }

  /** The smaller root of the cylinder quadratic when it lies ahead and within the span. */
  function WallEntry(k: Scalars, sqrt: real -> real): Option<real> {
    if k.Qa() > 0.0 && Discriminant(k) >= 0.0 then
      var t := SmallerRoot(k, sqrt);
      if t >= 0.0 && 0.0 <= k.Y(t) <= k.baba then Some(t) else None
    else None
  }

  lemma RootIdentity(qa: real, qb: real, qc: real, t: real)
    ensures qa * (qa * (t * t) + 2.0 * qb * t + qc) == (qa * t + qb) * (qa * t + qb) - (qb * qb - qa * qc)
  {
    var x := qa * t;
    assert (x + qb) * (x + qb) == x * x + 2.0 * qb * x + qb * qb;
    assert x * x == qa * (qa * (t * t));
  }

  lemma OnRoot(qa: real, qb: real, h: real, root: real, t: real, q: real)
    requires qa > 0.0 && root * root == h && t == (-qb - root) / qa
    requires qa * q == (qa * t + qb) * (qa * t + qb) - h
    ensures q == 0.0
  {
    assert qa * t == -qb - root;
    assert qa * q == 0.0;
    if q > 0.0 {
      var x := PositiveProduct(qa, q);
    } else if q < 0.0 {
      var x := PositiveProduct(qa, -q);
    }
  }

  /** At the root the code computes, the ray point is on the cylinder. */
  lemma RootOnCylinder(k: Scalars, root: real, t: real)
    requires k.Qa() > 0.0 && root * root == k.Qb() * k.Qb() - k.Qa() * k.Qc()
    requires t == (-k.Qb() - root) / k.Qa()
    ensures k.Q(t) == 0.0
  {
    QuadraticForm(k, t);
    hide Scalars.Q, Scalars.Qa, Scalars.Qb, Scalars.Qc;
    RootIdentity(k.Qa(), k.Qb(), k.Qc(), t);
    OnRoot(k.Qa(), k.Qb(), root * root, root, t, k.Q(t));
  }

  /** A wall entry lies on the cylinder, within the span: it is in the capsule. */
  lemma WallEntryInside(k: Scalars, sqrt: real -> real)
    requires IsSqrt(sqrt) && k.baba > 0.0
    requires WallEntry(k, sqrt).Some?
    ensures k.Inside(WallEntry(k, sqrt).value)
  {
    hide Scalars.Q, Scalars.Qa, Scalars.Qb, Scalars.Qc, Scalars.Y;
    var h := k.Qb() * k.Qb() - k.Qa() * k.Qc();
    var t := WallEntry(k, sqrt).value;
    SqrtAt(sqrt, h);
    RootOnCylinder(k, sqrt(h), t);
    WallIsInside(k, t);
  }

  /** A parabola that opens upward from above zero must fall to reach zero ahead. */
  lemma MustFall(qa: real, qb: real, qc: real, t: real)
    requires qa > 0.0 && qc > 0.0 && t >= 0.0
    requires qa * (t * t) + 2.0 * qb * t + qc <= 0.0
    ensures qb < 0.0
  {
    if qb >= 0.0 {
      var x := NonNegativeProduct(qb, t);
      SquareNonNegative(t);
      var y := NonNegativeProduct(qa, t * t);
      assert false;
    }
  }

  lemma RealRoot(qa: real, qb: real, qc: real, t: real)
    requires qa > 0.0
    requires qa * (t * t) + 2.0 * qb * t + qc <= 0.0
    ensures (qa * t + qb) * (qa * t + qb) <= qb * qb - qa * qc
    ensures qb * qb - qa * qc >= 0.0
  {
    RootIdentity(qa, qb, qc, t);
    var q := qa * (t * t) + 2.0 * qb * t + qc;
    var m := NonNegativeProduct(qa, -q);
    SquareNonNegative(qa * t + qb);
  }

  lemma LargerSquare(e: real, root: real)
    requires root >= 0.0 && e * e <= root * root
    ensures -root <= e
  {
    if e < -root {
      SquareStrictlyMonotone(root, -e);
      assert false;
    }
  }

  /** Outside the cylinder now and inside it at t: the smaller root lies in between. */
  lemma RootReached(qa: real, qb: real, qc: real, root: real, t: real)
    requires qa > 0.0 && qc > 0.0 && t >= 0.0
    requires qa * (t * t) + 2.0 * qb * t + qc <= 0.0
    requires root >= 0.0 && root * root == qb * qb - qa * qc
    ensures 0.0 <= (-qb - root) / qa <= t
  {
    MustFall(qa, qb, qc, t);
    RealRoot(qa, qb, qc, t);
    var n := PositiveProduct(qa, qc);
    RootBetween(qa, qb, root, t, qa * t + qb, n);
  }

  lemma RootBetween(qa: real, qb: real, root: real, t: real, e: real, n: real)
    requires qa > 0.0 && qb < 0.0 && root >= 0.0 && n > 0.0
    requires root * root == qb * qb - n && e == qa * t + qb && e * e <= root * root
    ensures 0.0 <= (-qb - root) / qa <= t
  {
    LargerSquare(e, root);
    BelowVertex(root, qb, n);
    RootOrder(qa, -qb - root, t);
  }

  lemma BelowVertex(root: real, qb: real, n: real)
    requires root >= 0.0 && qb < 0.0 && n > 0.0 && root * root == qb * qb - n
    ensures root <= -qb
  {
    var b := -qb;
    assert b * b == qb * qb;
    SquareOrder(root, b);
  }

  lemma RootOrder(qa: real, n: real, t: real)
    requires qa > 0.0 && n >= 0.0 && qa * t >= n
    ensures 0.0 <= n / qa <= t
  {
    DivBounds(n, qa);
    if n / qa > t {
      var x := PositiveProduct(qa, n / qa - t);
      assert false;
    }
  }

  // --- rays and their scalars --------------------------------------------------------------------------

  /** Facts about the scalars that come from their being dot products of real vectors. */
  ghost predicate Realizable(k: Scalars) {
    && k.baba >= 0.0
    && k.Qa() >= 0.0
    && (k.Qa() == 0.0 ==> k.Qb() == 0.0)
  }

  lemma ScalarsRealizable(c: Capsule, ray: Ray)
    requires ray.Valid()
    ensures Realizable(ScalarsOf(c, ray))
  {
    var ba, oa, rd := c.b.Sub(c.a), ray.origin.Sub(c.a), ray.direction;
    var k := ScalarsOf(c, ray);
    LengthSquaredNonNegative(ba);
    var m, n := ba.Cross(rd), ba.Cross(oa);
    LengthSquaredNonNegative(m);
    LagrangeIdentity(ba, rd);
    BinetCauchy(ba, rd, oa);
    DotCommutes(ba, rd);
    CauchySchwarz(m, n);
    hide Vector3.Dot, Vector3.Cross, Vector3.Sub;
    assert k.Qa() == m.LengthSquared();
    assert k.Qb() == m.Dot(n);
    if k.Qa() == 0.0 {
      ZeroFromSquare(k.Qb(), m.LengthSquared() * n.LengthSquared());
    }
  }

  lemma ZeroFromSquare(x: real, bound: real)
    requires x * x <= bound && bound == 0.0
    ensures x == 0.0
  {
    if x > 0.0 {
      var p := PositiveProduct(x, x);
    } else if x < 0.0 {
      var p := PositiveProduct(-x, -x);
      assert false;
    }
  }

  /** In one of the two cap spheres at parameter t. */
  predicate InCap(k: Scalars, t: real) {
    k.P(t) <= k.rr || k.D(t, 1.0) <= k.rr
  }

  lemma CapIsInside(k: Scalars, t: real)
    requires InCap(k, t)
    ensures k.Inside(t)
  {
    assert k.D(t, 0.0) == k.P(t);
    assert 0.0 <= 0.0 <= 1.0 && 0.0 <= 1.0 <= 1.0;
  }

  /** In the capsule but in neither cap: within the cylinder, strictly between the end planes. */
  lemma InsideBetweenCaps(k: Scalars, t: real)
    requires k.baba > 0.0 && k.Inside(t) && !InCap(k, t)
    ensures k.Q(t) <= 0.0 && 0.0 < k.Y(t) < k.baba
  {
    hide Scalars.P, Scalars.Y, Scalars.D, Scalars.Q;
    var s :| 0.0 <= s <= 1.0 && k.D(t, s) <= k.rr;
    InsideIsInCylinder(k, t, s);
    if k.Y(t) <= 0.0 {
      BeforeSpan(k, t, s);
    }
    if k.Y(t) >= k.baba {
      AfterSpan(k, t, s);
    }
  }

  /**
   * The claim the code's comment makes: from outside, the capsule is entered no later than at the wall entry
   * or inside a cap sphere. For any t in the capsule there is such an entry at or before t.
   */
  lemma EntryBefore(k: Scalars, sqrt: real -> real, t: real) returns (v: real)
    requires IsSqrt(sqrt) && Realizable(k) && k.baba > 0.0
    requires t >= 0.0 && !k.Inside(0.0) && k.Inside(t)
    ensures 0.0 <= v <= t && (WallEntry(k, sqrt) == Some(v) || InCap(k, v))
  {
    hide Scalars.P, Scalars.Y, Scalars.D, Scalars.Q, Scalars.Qa, Scalars.Qb, Scalars.Qc, InCap;
    v := t;
    if !InCap(k, t) {
      InsideBetweenCaps(k, t);
      var u := 0.0;
      if k.Q(0.0) > 0.0 {
        u := CylinderEntry(k, sqrt, t);
      } else if 0.0 <= k.Y(0.0) <= k.baba {
        WallIsInside(k, 0.0);
      }
      v := u;
      if !(0.0 <= k.Y(u) <= k.baba) {
        v := CrossesEndPlane(k, u, t);
        InCapByDisc(k, v);
      }
    }
  }

  lemma InCapByDisc(k: Scalars, v: real)
    requires k.P(v) <= k.rr || k.D(v, 1.0) <= k.rr
    ensures InCap(k, v)
  {
  }

  /** From outside the infinite cylinder to inside it: the computed root is where the ray enters. */
  lemma CylinderEntry(k: Scalars, sqrt: real -> real, t: real) returns (u: real)
    requires IsSqrt(sqrt) && Realizable(k)
    requires t >= 0.0 && k.Q(0.0) > 0.0 && k.Q(t) <= 0.0
    ensures 0.0 <= u <= t && k.Q(u) == 0.0
    ensures 0.0 <= k.Y(u) <= k.baba ==> WallEntry(k, sqrt) == Some(u)
  {
    hide Scalars.P, Scalars.Y, Scalars.D, Scalars.Q, Scalars.Qa, Scalars.Qb, Scalars.Qc;
    QuadraticForm(k, 0.0);
    QuadraticForm(k, t);
    var qa, qb, qc := k.Qa(), k.Qb(), k.Qc();
    assert qc > 0.0;
    if qa == 0.0 {
      assert false;
    }
    RealRoot(qa, qb, qc, t);
    hide Discriminant, SmallerRoot;
    var root := RootFacts(k, sqrt);
    RootReached(qa, qb, qc, root, t);
    u := SmallerRoot(k, sqrt);
    RootOnCylinder(k, root, u);
  }

  lemma RootFacts(k: Scalars, sqrt: real -> real) returns (root: real)
    requires IsSqrt(sqrt) && k.Qa() > 0.0 && k.Qb() * k.Qb() - k.Qa() * k.Qc() >= 0.0
    ensures root >= 0.0 && root * root == k.Qb() * k.Qb() - k.Qa() * k.Qc()
    ensures Discriminant(k) >= 0.0 && SmallerRoot(k, sqrt) == (-k.Qb() - root) / k.Qa()
  {
    hide Scalars.Qa, Scalars.Qb, Scalars.Qc;
    root := sqrt(Discriminant(k));
    SqrtAt(sqrt, Discriminant(k));
  }

  // --- the ray test ------------------------------------------------------------------------------------

  function CapA(c: Capsule): Spheres.Sphere {
    Spheres.Sphere(c.a, c.radius)
  }

  function CapB(c: Capsule): Spheres.Sphere {
    Spheres.Sphere(c.b, c.radius)
  }

  lemma CapsAlong(c: Capsule, ray: Ray, t: real)
    requires ray.Valid()
    ensures InCap(ScalarsOf(c, ray), t) <==> CapA(c).Contains(ray.At(t)) || CapB(c).Contains(ray.At(t))
  {
    var k, p, seg := ScalarsOf(c, ray), ray.At(t), c.GetSegment();
    SegmentEnds(seg);
    hide Segment.At;
    DistanceSymmetric(c.a, p);
    DistanceSymmetric(c.b, p);
    RadiusSquared(c, ray);
    assert k.D(t, 0.0) == k.P(t);
    hide Vector3.DistanceSquaredTo, Scalars.D, Scalars.P, ScalarsOf;
    ScalarDistance(c, ray, t, 0.0);
    ScalarDistance(c, ray, t, 1.0);
  }

  /**
   * The near-parallel family the code gets wrong: the wall test is skipped (0 < qa <= EPSILON) although the
   * ray would enter through the wall, within maxDistance and before entering either cap.
   */
  ghost predicate WallSkipped(c: Capsule, ray: Ray, maxDistance: real, sqrt: real -> real) {
    var k := ScalarsOf(c, ray);
    && 0.0 < k.Qa() <= EPSILON
    && !c.Contains(ray.origin)
    && WallEntry(k, sqrt).Some? && WallEntry(k, sqrt).value <= maxDistance
    && forall u | 0.0 <= u <= WallEntry(k, sqrt).value :: !InCap(k, u)
  }

  /** `d` is one of the entries the code compares: the wall's, if tested, or a cap's. */
  ghost predicate IsEntry(wall: Option<real>, capA: Option<RayHit>, capB: Option<RayHit>, d: real) {
    wall == Some(d) || (capA.Some? && capA.value.distance == d) || (capB.Some? && capB.value.distance == d)
  }

  /** `best` is the nearest of those entries, or nothing (positive infinity) when there is none. */
  ghost predicate IsNearest(wall: Option<real>, capA: Option<RayHit>, capB: Option<RayHit>, best: Option<real>) {
    match best
    case None => wall.None? && capA.None? && capB.None?
    case Some(b) => IsEntry(wall, capA, capB, b) && forall d | IsEntry(wall, capA, capB, d) :: b <= d
  }

  function Report(ray: Ray, best: Option<real>, maxDistance: real): Option<RayHit> {
    if best.None? || best.value > maxDistance then None else Some(RayHit(best.value, ray.At(best.value)))
  }

  /** A cap entry within reach is never beyond the point of the cap it comes before. */
  lemma CapEntryBound(c: Capsule, ray: Ray, maxDistance: real, capA: Option<RayHit>, capB: Option<RayHit>, v: real)
    requires ray.Valid()
    requires IsExactHit(CapA(c).Points(), ray, maxDistance, capA)
    requires IsExactHit(CapB(c).Points(), ray, maxDistance, capB)
    requires 0.0 <= v <= maxDistance && InCap(ScalarsOf(c, ray), v)
    ensures exists d :: d <= v && IsEntry(None, capA, capB, d)
  {
    CapsAlong(c, ray, v);
    hide InCap, ScalarsOf, Spheres.Sphere.Contains;
    var hit := if CapA(c).Contains(ray.At(v)) then capA else capB;
    assert hit.Some? && hit.value.distance <= v;
    assert IsEntry(None, capA, capB, hit.value.distance);
  }

  /** Every entry the code compares is a point of the capsule ahead. */
  lemma EntryInside(c: Capsule, ray: Ray, maxDistance: real, sqrt: real -> real,
                    wall: Option<real>, capA: Option<RayHit>, capB: Option<RayHit>, d: real)
    requires ray.Valid() && IsSqrt(sqrt) && ScalarsOf(c, ray).baba > 0.0
    requires IsExactHit(CapA(c).Points(), ray, maxDistance, capA)
    requires IsExactHit(CapB(c).Points(), ray, maxDistance, capB)
    requires wall == None || wall == WallEntry(ScalarsOf(c, ray), sqrt)
    requires IsEntry(wall, capA, capB, d)
    ensures d >= 0.0 && ray.At(d) in c.Points()
  {
    var k := ScalarsOf(c, ray);
    InsideAlong(c, ray, d);
    if wall == Some(d) {
      WallEntryAhead(k, sqrt);
      WallEntryInside(k, sqrt);
    } else {
      CapsAlong(c, ray, d);
      CapIsInside(k, d);
    }
  }

  lemma WallEntryAhead(k: Scalars, sqrt: real -> real)
    requires WallEntry(k, sqrt).Some?
    ensures k.Qa() > 0.0 && WallEntry(k, sqrt).value >= 0.0
  {
  }

  /** Unless the wall was wrongly skipped, any capsule point ahead within reach has a compared entry no later than it. */
  lemma EntryReached(c: Capsule, ray: Ray, maxDistance: real, sqrt: real -> real,
                     wall: Option<real>, capA: Option<RayHit>, capB: Option<RayHit>, t: real)
    requires ray.Valid() && IsSqrt(sqrt) && ScalarsOf(c, ray).baba > 0.0
    requires IsExactHit(CapA(c).Points(), ray, maxDistance, capA)
    requires IsExactHit(CapB(c).Points(), ray, maxDistance, capB)
    requires wall == if ScalarsOf(c, ray).Qa() > EPSILON then WallEntry(ScalarsOf(c, ray), sqrt) else None
    requires !c.Contains(ray.origin) && !WallSkipped(c, ray, maxDistance, sqrt)
    requires 0.0 <= t <= maxDistance && ray.At(t) in c.Points()
    ensures exists d :: d <= t && IsEntry(wall, capA, capB, d)
  {
    var k := ScalarsOf(c, ray);
    hide ScalarsOf, InCap, WallEntry;
    ScalarsRealizable(c, ray);
    InsideAlong(c, ray, t);
    InsideAlong(c, ray, 0.0);
    assert ray.At(0.0) == ray.origin;
    var v := EntryBefore(k, sqrt, t);
    if InCap(k, v) {
      CapEntryBound(c, ray, maxDistance, capA, capB, v);
      var d :| d <= v && IsEntry(None, capA, capB, d);
      assert IsEntry(wall, capA, capB, d);
    } else if k.Qa() > EPSILON {
      assert IsEntry(wall, capA, capB, v);
    } else {
      WallEntryAhead(k, sqrt);
      var u :| 0.0 <= u <= v && InCap(k, u);
      CapEntryBound(c, ray, maxDistance, capA, capB, u);
      var d :| d <= u && IsEntry(None, capA, capB, d);
      assert IsEntry(wall, capA, capB, d);
    }
  }

  /** Outside the bad family, the nearest compared entry is the exact answer. */
  lemma NearestIsExact(c: Capsule, ray: Ray, maxDistance: real, sqrt: real -> real,
                       wall: Option<real>, capA: Option<RayHit>, capB: Option<RayHit>, best: Option<real>)
    requires ray.Valid() && IsSqrt(sqrt) && ScalarsOf(c, ray).baba > 0.0
    requires IsExactHit(CapA(c).Points(), ray, maxDistance, capA)
    requires IsExactHit(CapB(c).Points(), ray, maxDistance, capB)
    requires wall == if ScalarsOf(c, ray).Qa() > EPSILON then WallEntry(ScalarsOf(c, ray), sqrt) else None
    requires !c.Contains(ray.origin) && !WallSkipped(c, ray, maxDistance, sqrt)
    requires IsNearest(wall, capA, capB, best)
    ensures IsExactHit(c.Points(), ray, maxDistance, Report(ray, best, maxDistance))
  {
    hide ScalarsOf, WallEntry, WallSkipped, IsEntry;
    forall t | 0.0 <= t <= maxDistance && ray.At(t) in c.Points()
      ensures best.Some? && best.value <= t
    {
      EntryReached(c, ray, maxDistance, sqrt, wall, capA, capB, t);
      var d :| d <= t && IsEntry(wall, capA, capB, d);
      NearestBound(wall, capA, capB, best, d);
    }
    if best.Some? {
      EntryInside(c, ray, maxDistance, sqrt, wall, capA, capB, best.value);
    }
  }

  lemma NearestBound(wall: Option<real>, capA: Option<RayHit>, capB: Option<RayHit>, best: Option<real>, d: real)
    requires IsNearest(wall, capA, capB, best) && IsEntry(wall, capA, capB, d)
    ensures best.Some? && best.value <= d
  {
  }

  /** Inside the bad family it is not: the wall point is missed. */
  lemma SkippedIsWrong(c: Capsule, ray: Ray, maxDistance: real, sqrt: real -> real,
                       capA: Option<RayHit>, capB: Option<RayHit>, best: Option<real>)
    requires ray.Valid() && IsSqrt(sqrt) && ScalarsOf(c, ray).baba > 0.0
    requires IsExactHit(CapA(c).Points(), ray, maxDistance, capA)
    requires IsExactHit(CapB(c).Points(), ray, maxDistance, capB)
    requires WallSkipped(c, ray, maxDistance, sqrt)
    requires IsNearest(None, capA, capB, best)
    ensures !IsExactHit(c.Points(), ray, maxDistance, Report(ray, best, maxDistance))
  {
    var k := ScalarsOf(c, ray);
    var w := WallEntry(k, sqrt).value;
    WallEntryAhead(k, sqrt);
    WallEntryInside(k, sqrt);
    InsideAlong(c, ray, w);
    hide ScalarsOf, InCap, WallEntry;
    if best.Some? {
      CapsAlong(c, ray, best.value);
      assert best.value > w;
    }
  }

  /** The line of the ray first touches the infinite cylinder at t, ahead of the origin and between the two end planes. */
  ghost predicate CrossesWall(k: Scalars, t: real) {
    FirstInCylinder(k, t) && t >= 0.0 && 0.0 <= k.Y(t) <= k.baba
  }

  ghost predicate FirstInCylinder(k: Scalars, t: real) {
    k.Q(t) <= 0.0 && forall u | u < t :: k.Q(u) > 0.0
  }

  lemma BelowRoot(qa: real, qb: real, root: real, u: real, q: real)
    requires qa > 0.0 && root >= 0.0 && u < (-qb - root) / qa
    requires qa * q == (qa * u + qb) * (qa * u + qb) - root * root
    ensures q > 0.0
  {
    var t := (-qb - root) / qa;
    var x := PositiveProduct(qa, t - u);
    assert qa * t == -qb - root;
    var e := qa * u + qb;
    SquareStrictlyMonotone(root, -e);
    assert -e * -e == e * e;
    if q <= 0.0 {
      var y := NonNegativeProduct(qa, -q);
      assert false;
    }
  }

  lemma BeforeSmallerRoot(k: Scalars, root: real, u: real)
    requires k.Qa() > 0.0 && root >= 0.0 && root * root == k.Qb() * k.Qb() - k.Qa() * k.Qc()
    requires u < (-k.Qb() - root) / k.Qa()
    ensures k.Q(u) > 0.0
  {
    hide Scalars.Q, Scalars.Qa, Scalars.Qb, Scalars.Qc;
    QuadraticForm(k, u);
    RootIdentity(k.Qa(), k.Qb(), k.Qc(), u);
    BelowRoot(k.Qa(), k.Qb(), root, u, k.Q(u));
  }

  lemma SmallerRootFirst(k: Scalars, sqrt: real -> real)
    requires IsSqrt(sqrt) && k.Qa() > 0.0 && Discriminant(k) >= 0.0
    ensures FirstInCylinder(k, SmallerRoot(k, sqrt))
  {
    hide Scalars.Q, Scalars.Qa, Scalars.Qb, Scalars.Qc;
    var root := sqrt(Discriminant(k));
    SqrtAt(sqrt, Discriminant(k));
    RootOnCylinder(k, root, SmallerRoot(k, sqrt));
    forall u | u < SmallerRoot(k, sqrt)
      ensures k.Q(u) > 0.0
    {
      BeforeSmallerRoot(k, root, u);
    }
  }

  lemma InCylinderHasRoot(k: Scalars, t: real)
    requires k.Qa() > 0.0 && k.Q(t) <= 0.0
    ensures Discriminant(k) >= 0.0
  {
    hide Scalars.Q, Scalars.Qa, Scalars.Qb, Scalars.Qc;
    QuadraticForm(k, t);
    RealRoot(k.Qa(), k.Qb(), k.Qc(), t);
  }

  /** The smaller root is the first parameter in the cylinder, and without a real root there is none. */
  lemma SmallerRootIsFirst(k: Scalars, sqrt: real -> real, t: real)
    requires IsSqrt(sqrt) && k.Qa() > 0.0
    ensures FirstInCylinder(k, t) <==> Discriminant(k) >= 0.0 && t == SmallerRoot(k, sqrt)
  {
    hide Scalars.Q, Scalars.Qa, Discriminant, SmallerRoot;
    if FirstInCylinder(k, t) {
      InCylinderHasRoot(k, t);
    }
    if Discriminant(k) >= 0.0 {
      SmallerRootFirst(k, sqrt);
    }
  }

  /** So the wall entry is where the ray crosses the wall. */
  lemma WallEntryCrosses(k: Scalars, sqrt: real -> real, t: real)
    requires IsSqrt(sqrt) && k.Qa() > 0.0
    ensures WallEntry(k, sqrt) == Some(t) <==> CrossesWall(k, t)
  {
    hide Scalars.Q, Scalars.Qa, Scalars.Qb, Scalars.Qc, Scalars.Y, FirstInCylinder, Discriminant, SmallerRoot;
    SmallerRootIsFirst(k, sqrt, t);
  }

  /** The cylinder-body part of the test, skipped for rays nearly parallel to the axis. */
  method WallDistance(k: Scalars, sqrt: real -> real) returns (best: Option<real>)
    requires IsSqrt(sqrt)
    ensures k.Qa() > EPSILON ==> best == WallEntry(k, sqrt) && forall t :: best == Some(t) <==> CrossesWall(k, t)
    ensures k.Qa() <= EPSILON ==> best.None?
  {
    hide Scalars.Qa, Scalars.Qb, Scalars.Qc, Scalars.Y;
    best := None;
    var qa, qb, qc := k.Qa(), k.Qb(), k.Qc();
    if qa > EPSILON {
      var h := qb * qb - qa * qc;
      if h >= 0.0 {
        var t := (-qb - sqrt(h)) / qa;
        assert h == Discriminant(k) && t == SmallerRoot(k, sqrt);
        hide Discriminant, SmallerRoot;
        var y := k.Y(t);
        if t >= 0.0 && y >= 0.0 && y <= k.baba {
          best := Some(t);
        }
      }
      hide WallEntry, CrossesWall;
      forall t
        ensures WallEntry(k, sqrt) == Some(t) <==> CrossesWall(k, t)
      {
        WallEntryCrosses(k, sqrt, t);
      }
    }
  }

  /**
   * For every ray: exact on a non-degenerate capsule unless the wall was wrongly skipped, and on a
   * degenerate one exact for the sphere around its first end point.
   */
  method Intersect(c: Capsule, ray: Ray, maxDistance: real, sqrt: real -> real) returns (hit: Option<RayHit>)
    requires c.Valid() && ray.Valid() && IsSqrt(sqrt)
    ensures !c.GetSegment().IsDegenerate() ==>
              (IsExactHit(c.Points(), ray, Reach(maxDistance, c.Contains(ray.origin)), hit)
               <==> !WallSkipped(c, ray, maxDistance, sqrt))
    ensures c.GetSegment().IsDegenerate() ==>
              IsExactHit(CapA(c).Points(), ray, Reach(maxDistance, CapA(c).Contains(ray.origin)), hit)
  {
    hide Scalars.Q, Scalars.Qa, Scalars.Qb, Scalars.Qc, Scalars.D, Scalars.P, InCap, WallSkipped, WallEntry;
    var seg := c.GetSegment();
    OriginInside(c, ray);
    if seg.SquaredDistanceTo(ray.origin) <= c.radius * c.radius {
      assert ray.At(0.0) == ray.origin;
      InsideNotSkipped(c, ray, maxDistance, sqrt);
      return Some(RayHit(0.0, ray.origin));
    }
    if seg.IsDegenerate() {
      hit := Spheres.Intersect(Spheres.Sphere(c.a, c.radius), ray, maxDistance, sqrt);
      return;
    }
    var best: Option<real> := None;
    var ba, oa, rd := c.b.Sub(c.a), ray.origin.Sub(c.a), ray.direction;
    var k := Scalars(ba.Dot(ba), ba.Dot(rd), ba.Dot(oa), rd.Dot(oa), oa.Dot(oa), c.radius * c.radius);
    assert k == ScalarsOf(c, ray);
    best := WallDistance(k, sqrt);
    ghost var wall := best;
    ghost var capA: Option<RayHit>, capB: Option<RayHit> := None, None;
    var ends := [c.a, c.b];
    for i := 0 to 2
      invariant i == 0 ==> capA.None?
      invariant i >= 1 ==> IsExactHit(CapA(c).Points(), ray, maxDistance, capA)
      invariant i <= 1 ==> capB.None?
      invariant i >= 2 ==> IsExactHit(CapB(c).Points(), ray, maxDistance, capB)
      invariant IsNearest(wall, capA, capB, best)
    {
      var cap := Spheres.Intersect(Spheres.Sphere(ends[i], c.radius), ray, maxDistance, sqrt);
      if i == 0 {
        NearestWithA(wall, cap, best);
        capA := cap;
      } else {
        NearestWithB(wall, capA, cap, best);
        capB := cap;
      }
      if cap.Some? && (best.None? || cap.value.distance < best.value) {
        best := Some(cap.value.distance);
      }
    }
    NonDegenerateScalars(c, ray);
    if WallSkipped(c, ray, maxDistance, sqrt) {
      SkippedNotTested(c, ray, maxDistance, sqrt);
      SkippedIsWrong(c, ray, maxDistance, sqrt, capA, capB, best);
    } else {
      NearestIsExact(c, ray, maxDistance, sqrt, wall, capA, capB, best);
    }
    if best.None? || best.value > maxDistance {
      return None;
    }
    return Some(RayHit(best.value, ray.At(best.value)));
  }

  lemma SkippedNotTested(c: Capsule, ray: Ray, maxDistance: real, sqrt: real -> real)
    requires WallSkipped(c, ray, maxDistance, sqrt)
    ensures ScalarsOf(c, ray).Qa() <= EPSILON
  {
  }

  lemma InsideNotSkipped(c: Capsule, ray: Ray, maxDistance: real, sqrt: real -> real)
    requires !c.GetSegment().IsDegenerate() ==> c.Contains(ray.origin)
    ensures !c.GetSegment().IsDegenerate() ==> !WallSkipped(c, ray, maxDistance, sqrt)
  {
  }

  lemma NonDegenerateScalars(c: Capsule, ray: Ray)
    requires !c.GetSegment().IsDegenerate()
    ensures ScalarsOf(c, ray).baba > 0.0
  {
  }

  /** The first test of the code decides whether the origin is inside. */
  lemma OriginInside(c: Capsule, ray: Ray)
    ensures !c.GetSegment().IsDegenerate() ==>
              (c.GetSegment().SquaredDistanceTo(ray.origin) <= c.radius * c.radius <==> c.Contains(ray.origin))
    ensures c.GetSegment().IsDegenerate() ==>
              (c.GetSegment().SquaredDistanceTo(ray.origin) <= c.radius * c.radius <==> CapA(c).Contains(ray.origin))
    ensures !c.Contains(ray.origin) ==> !CapA(c).Contains(ray.origin) && !CapB(c).Contains(ray.origin)
  {
    hide Vector3.DistanceSquaredTo, Vector3.LengthSquared, Segment.ClosestParameter, Segment.At, Segment.IsDegenerate;
    var seg, o := c.GetSegment(), ray.origin;
    SegmentEnds(seg);
    DistanceSymmetric(c.a, o);
    DistanceSymmetric(c.b, o);
    var s := seg.ClosestParameter(o);
    ClosestParameterInRange(seg, o);
    if seg.SquaredDistanceTo(o) <= c.radius * c.radius {
      assert 0.0 <= s <= 1.0 && seg.At(s).DistanceSquaredTo(o) <= c.radius * c.radius;
    }
    if !seg.IsDegenerate() && c.Contains(o) {
      var s' :| 0.0 <= s' <= 1.0 && seg.At(s').DistanceSquaredTo(o) <= c.radius * c.radius;
      ClosestPointOnSegment(seg, o, s');
    }
  }

  lemma ClosestParameterInRange(seg: Segment, p: Vector3)
    ensures 0.0 <= seg.ClosestParameter(p) <= 1.0
    ensures seg.IsDegenerate() ==> seg.ClosestParameter(p) == 0.0
  {
  }

  /** Comparing one more cap keeps the nearest entry. */
  lemma NearestWithA(wall: Option<real>, cap: Option<RayHit>, best: Option<real>)
    requires IsNearest(wall, None, None, best)
    ensures IsNearest(wall, cap, None, Nearer(best, cap))
  {
    if best.Some? {
      assert IsEntry(wall, None, None, best.value);
    }
    var b := Nearer(best, cap);
    forall d | IsEntry(wall, cap, None, d)
      ensures b.Some? && b.value <= d
    {
      assert IsEntry(wall, None, None, d) || (cap.Some? && cap.value.distance == d);
    }
  }

  lemma NearestWithB(wall: Option<real>, capA: Option<RayHit>, cap: Option<RayHit>, best: Option<real>)
    requires IsNearest(wall, capA, None, best)
    ensures IsNearest(wall, capA, cap, Nearer(best, cap))
  {
    var b := Nearer(best, cap);
    forall d | IsEntry(wall, capA, cap, d)
      ensures b.Some? && b.value <= d
    {
      assert IsEntry(wall, capA, None, d) || (cap.Some? && cap.value.distance == d);
    }
  }

  function Nearer(best: Option<real>, cap: Option<RayHit>): Option<real> {
    if cap.Some? && (best.None? || cap.value.distance < best.value) then Some(cap.value.distance) else best
  }

  // --- overlap with a box ------------------------------------------------------------------------------

  /**
   * True only for a real overlap; false only when every point of the box stays outside the capsule whose
   * squared radius is smaller by the search tolerance, steepness * phi^100.
   */
  method Overlaps(c: Capsule, box: Aabb, sqrt: real -> real) returns (r: bool)
    requires c.Valid() && box.Valid() && IsSqrt(sqrt)
    ensures r ==> exists p :: p in c.Points() && p in box.Points()
    ensures !r ==> forall p, s | p in box.Points() && 0.0 <= s <= 1.0 ::
                     c.GetSegment().At(s).DistanceSquaredTo(p)
                     > c.radius * c.radius - Steepness(c.GetSegment(), box) * Pow((sqrt(5.0) - 1.0) / 2.0, 100)
  {
    hide Steepness, Pow, Vector3.DistanceSquaredTo, Segment.At, Aabb.ClosestPoint, Aabb.Contains;
    var seg := c.GetSegment();
    var d := SquaredDistanceToBox(seg, box, sqrt);
    r := d <= c.radius * c.radius;
    if r {
      var t :| 0.0 <= t <= 1.0 && BoxDistance(seg, box, t) == d;
      var p := box.ClosestPoint(seg.At(t));
      ClosestPointIsNearest(box, seg.At(t), p);
      DistanceSymmetric(p, seg.At(t));
      assert p in c.Points() && p in box.Points();
    }
    forall p, s | p in box.Points() && 0.0 <= s <= 1.0
      ensures d <= seg.At(s).DistanceSquaredTo(p) + Steepness(seg, box) * Pow((sqrt(5.0) - 1.0) / 2.0, 100)
    {
      ClosestPointIsNearest(box, seg.At(s), p);
      DistanceSymmetric(p, seg.At(s));
      assert BoxDistance(seg, box, s) <= seg.At(s).DistanceSquaredTo(p);
    }
  }
}
