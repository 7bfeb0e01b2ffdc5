/** Where the declared tolerance makes an answer inexact: concrete inputs, and how far off it can be. */
module Tolerances {
  import opened Wrappers
  import opened RealMath
  import opened Vectors
  import opened Rays
  import opened Bases
  import opened Boxes
  import opened OrientedBoxes
  import opened Segments
  import opened Capsules
  import Spheres

  // --- slabs -----------------------------------------------------------------------------------------

  /** No component of the direction lies strictly between 0 and the tolerance. */
  predicate NoTinyComponent(d: Vector3) {
    forall axis | 0 <= axis < 3 :: d.Component(axis) == 0.0 || Abs(d.Component(axis)) >= EPSILON
  }

  /** Flushing changes nothing exactly when there is nothing to flush. */
  lemma FlushIsIdentity(ray: Ray)
    ensures Flush(ray) == ray <==> NoTinyComponent(ray.direction)
  {
    FlushAt(ray, 0);
    FlushAt(ray, 1);
    FlushAt(ray, 2);
  }

  predicate WithinDrift(p: Vector3, f: Vector3, e: real) {
    Abs(p.x - f.x) <= e && Abs(p.y - f.y) <= e && Abs(p.z - f.z) <= e
  }

  lemma RayDrift(ray: Ray, u: real, e: real)
    requires u >= 0.0 && e == EPSILON * u
    ensures WithinDrift(ray.At(u), Flush(ray).At(u), e)
  {
    hide FlushComponent, Abs;
    var p, f := ray.At(u), Flush(ray).At(u);
    FlushDrift(ray.origin.x, ray.direction.x, u, p.x, f.x);
    FlushDrift(ray.origin.y, ray.direction.y, u, p.y, f.y);
    FlushDrift(ray.origin.z, ray.direction.z, u, p.z, f.z);
  }

  /** The flushed answer is never off by more than the drift: a hit is in the grown box, a miss misses the shrunken one. */
  lemma SlabWithinTolerance(box: Aabb, ray: Ray, maxDistance: real, hit: Option<RayHit>, t: real)
    requires IsExactHit(box.Points(), Flush(ray), maxDistance, hit)
    ensures hit.Some? ==> box.Inflate(EPSILON * hit.value.distance).Contains(ray.At(hit.value.distance))
    ensures hit.None? && 0.0 <= t <= maxDistance ==> !box.Inflate(-(EPSILON * t)).Contains(ray.At(t))
  {
    hide Ray.At, Flush, WithinDrift;
    var u := if hit.Some? then hit.value.distance else t;
    if u >= 0.0 && (hit.None? ==> u <= maxDistance) {
      var e := EPSILON * u;
      RayDrift(ray, u, e);
      assert hit.Some? <==> Flush(ray).At(u) in box.Points();
      DriftedMembership(box, ray.At(u), Flush(ray).At(u), e);
    }
  }

  lemma DriftedMembership(box: Aabb, p: Vector3, f: Vector3, e: real)
    requires WithinDrift(p, f, e)
    ensures box.Contains(f) ==> box.Inflate(e).Contains(p)
    ensures box.Inflate(-e).Contains(p) ==> box.Contains(f)
  {
  }

  // A unit direction climbing in y whose x component, 2/(10^10), is below the tolerance.
  const SLOW: real := 20000000000.0 / 100000000000000000001.0
  const FAST: real := 99999999999999999999.0 / 100000000000000000001.0

  /** A slab test reports a miss although the ray meets the box. */
  lemma TinyComponentMisses()
    ensures var box := Aabb(Vector3(1.0, 0.0, -1.0), Vector3(2.0, 100000000000.0, 1.0));
            var ray := Ray(ZERO, Vector3(SLOW, FAST, 0.0));
            && box.Valid() && ray.Valid()
            && IsExactHit(box.Points(), Flush(ray), 10000000000.0, None)
            && !IsExactHit(box.Points(), ray, 10000000000.0, None)
  {
    var box := Aabb(Vector3(1.0, 0.0, -1.0), Vector3(2.0, 100000000000.0, 1.0));
    var ray := Ray(ZERO, Vector3(SLOW, FAST, 0.0));
    assert Abs(SLOW) < EPSILON;
    forall t
      ensures Flush(ray).At(t) !in box.Points()
    {
      assert Flush(ray).At(t).x == 0.0;
    }
    assert ray.At(6000000000.0) in box.Points();
  }

  /** The slab test's answer, exact for the flushed ray, is the exact answer for the ray itself. */
  ghost predicate SlabExact(box: Aabb, ray: Ray, reach: real, hit: Option<real>) {
    IsExactHit(box.Points(), Flush(ray), reach, AsRayHit(Flush(ray), hit))
    ==> IsExactHit(box.Points(), ray, reach, AsRayHit(ray, hit))
  }

  lemma TinyAxis(ray: Ray) returns (axis: nat)
    requires !NoTinyComponent(ray.direction)
    ensures axis < 3 && ray.direction.Component(axis) != 0.0 && Flush(ray).direction.Component(axis) == 0.0
  {
    axis :| 0 <= axis < 3 && !(ray.direction.Component(axis) == 0.0 || Abs(ray.direction.Component(axis)) >= EPSILON);
    FlushAt(ray, axis);
  }

  lemma AtAxis(ray: Ray, t: real, axis: nat)
    requires axis < 3
    ensures ray.At(t).Component(axis) == ray.origin.Component(axis) + ray.direction.Component(axis) * t
  {
  }

  /** For a given ray the slab test is exact on every box and reach if and only if nothing of its direction is flushed. */
  lemma SlabExactWithoutTiny(ray: Ray)
    ensures (forall box: Aabb, reach, hit | box.Valid() :: SlabExact(box, ray, reach, hit)) <==> NoTinyComponent(ray.direction)
  {
    FlushIsIdentity(ray);
    if !NoTinyComponent(ray.direction) {
      var axis := TinyAxis(ray);
      var p := ray.At(1.0);
      var box := Aabb(p, p);
      AtAxis(ray, 1.0, axis);
      forall t
        ensures Flush(ray).At(t) !in box.Points()
      {
        AtAxis(Flush(ray), t, axis);
      }
      assert p in box.Points();
      assert !SlabExact(box, ray, 1.0, None);
    }
  }

  /** The oriented box's answer, exact for the flushed local ray, is the exact answer in the world. */
  ghost predicate LocalSlabExact(obb: Obb, ray: Ray, reach: real, local: Option<RayHit>)
    requires obb.Valid()
  {
    IsExactHit(obb.LocalBox().Points(), Flush(LocalRay(obb, ray)), reach, local)
    ==> IsExactHit(obb.Points(), ray, reach, AsWorldHit(ray, local))
  }

  /** A box around the point at parameter 1, too thin for the flushed ray to reach. */
  lemma ThinBoxMissed(obb: Obb, ray: Ray, h: real, axis: nat)
    requires obb.Valid() && obb.center == ray.At(1.0) && obb.halfExtents == Vector3(h, h, h) && axis < 3
    requires var d := obb.RotateToLocal(ray.direction).Component(axis); d != 0.0 && h == 0.5 * Abs(d)
    requires Flush(LocalRay(obb, ray)).direction.Component(axis) == 0.0
    ensures !LocalSlabExact(obb, ray, 1.0, None)
  {
    hide Orthonormal, Obb.Points;
    var local := LocalRay(obb, ray);
    LocalRayFollows(obb, ray, 1.0);
    assert obb.center.Sub(obb.center) == ZERO;
    assert local.At(1.0) == ZERO;
    AtAxis(local, 1.0, axis);
    forall t
      ensures Flush(local).At(t) !in obb.LocalBox().Points()
    {
      AtAxis(Flush(local), t, axis);
      FlushAt(local, axis);
    }
    PointsInLocalFrame(obb, ray.At(1.0));
    assert ray.At(1.0) in obb.Points();
  }

  /** Likewise for boxes with given axes, if and only if nothing is flushed in their frame. */
  lemma OrientedExactWithoutTiny(axes: seq<Vector3>, ray: Ray)
    requires |axes| == 3 && Orthonormal(axes[0], axes[1], axes[2])
    ensures (forall obb: Obb, reach, local | obb.Valid() && obb.axes == axes :: LocalSlabExact(obb, ray, reach, local))
            <==> NoTinyComponent(Coordinates(axes[0], axes[1], axes[2], ray.direction))
  {
    hide Orthonormal, Ray.At, Obb.Points, Aabb.Contains;
    var d := Coordinates(axes[0], axes[1], axes[2], ray.direction);
    if NoTinyComponent(d) {
      forall obb: Obb, reach, local | obb.Valid() && obb.axes == axes
        ensures LocalSlabExact(obb, ray, reach, local)
      {
        FlushIsIdentity(LocalRay(obb, ray));
        if IsExactHit(obb.LocalBox().Points(), LocalRay(obb, ray), reach, local) {
          LocalExactIsWorldExact(obb, ray, reach, local);
        }
      }
    } else {
      var axis := TinyAxis(Ray(ray.origin, d));
      var h := 0.5 * Abs(d.Component(axis));
      var obb := Obb(ray.At(1.0), axes, Vector3(h, h, h));
      FlushAt(LocalRay(obb, ray), axis);
      FlushAt(Ray(ray.origin, d), axis);
      ThinBoxMissed(obb, ray, h, axis);
    }
  }

  // --- degenerate capsules -----------------------------------------------------------------------------

  const TIP: real := 0.0000000005
  const SHORT: Capsule := Capsule(ZERO, Vector3(TIP, 0.0, 0.0), 1.0)
  const HEAD_ON: Ray := Ray(Vector3(3.0, 0.0, 0.0), Vector3(-1.0, 0.0, 0.0))

  lemma HeadOnDistance(t: real, x: real)
    ensures HEAD_ON.At(t).DistanceSquaredTo(Vector3(x, 0.0, 0.0)) == (3.0 - t - x) * (3.0 - t - x)
  {
    assert HEAD_ON.At(t) == Vector3(3.0 - t, 0.0, 0.0);
  }

  lemma SphereHitFirst()
    ensures IsFirstHit(CapA(SHORT).Points(), HEAD_ON, 2.0)
  {
    hide Ray.At, Vector3.DistanceSquaredTo;
    HeadOnDistance(2.0, 0.0);
    forall u | 0.0 <= u < 2.0
      ensures HEAD_ON.At(u) !in CapA(SHORT).Points()
    {
      HeadOnDistance(u, 0.0);
      SquareStrictlyMonotone(1.0, 3.0 - u);
    }
  }

  lemma TipHitEarlier()
    ensures HEAD_ON.At(2.0 - TIP) in SHORT.Points()
  {
    assert SHORT.GetSegment().At(1.0) == SHORT.b;
    hide Ray.At, Vector3.DistanceSquaredTo, Segment.At;
    HeadOnDistance(2.0 - TIP, TIP);
    DistanceSymmetric(SHORT.b, HEAD_ON.At(2.0 - TIP));
    assert SHORT.GetSegment().At(1.0).DistanceSquaredTo(HEAD_ON.At(2.0 - TIP)) <= 1.0;
  }

  lemma ShortIsDegenerate()
    ensures SHORT.Valid() && HEAD_ON.Valid() && SHORT.GetSegment().IsDegenerate()
  {
    assert SHORT.GetSegment().Direction() == SHORT.b;
  }

  /** A capsule shorter than the tolerance is answered as the sphere around its first end. */
  lemma DegenerateMissesTip()
    ensures SHORT.Valid() && HEAD_ON.Valid() && SHORT.GetSegment().IsDegenerate()
    ensures var hit := Some(RayHit(2.0, HEAD_ON.At(2.0)));
            && IsExactHit(CapA(SHORT).Points(), HEAD_ON, 100.0, hit)
            && !IsExactHit(SHORT.Points(), HEAD_ON, 100.0, hit)
  {
    hide Capsule.Points, Spheres.Sphere.Points, Ray.At, Segment.IsDegenerate;
    ShortIsDegenerate();
    SphereHitFirst();
    TipHitEarlier();
  }

  /** Unless its two ends coincide; then that sphere is the capsule. */
  lemma PointCapsuleIsSphere(c: Capsule)
    requires c.a == c.b
    ensures c.Points() == CapA(c).Points()
  {
    forall p
      ensures p in c.Points() <==> p in CapA(c).Points()
    {
      forall s
        ensures c.GetSegment().At(s) == c.a
      {
      }
      DistanceSymmetric(c.a, p);
      assert c.GetSegment().At(0.0) == c.a;
    }
  }

  lemma ScaledLength(u: Vector3, k: real)
    requires u.LengthSquared() == 1.0
    ensures u.Scale(k).LengthSquared() == k * k && u.Scale(k).Dot(u) == k
  {
    DotScale(u, k, u);
    DotScale(u, k, u.Scale(k));
    DotCommutes(u, u.Scale(k));
  }

  /** The direction from the first end to the second, of length one, and the distance between them. */
  lemma AxisOf(c: Capsule, sqrt: real -> real) returns (u: Vector3, l: real)
    requires c.a != c.b && IsSqrt(sqrt)
    ensures l > 0.0 && u.LengthSquared() == 1.0 && c.b == c.a.Add(u.Scale(l))
  {
    var w := c.b.Sub(c.a);
    LengthPositive(w);
    l := sqrt(w.LengthSquared());
    SqrtAt(sqrt, w.LengthSquared());
    var k := 1.0 / l;
    u := w.Scale(k);
    DotScale(w, k, w);
    DotScale(w, k, w.Scale(k));
    UnitBy(l, k, w.LengthSquared(), u.LengthSquared());
    BackBy(w.x, l, k);
    BackBy(w.y, l, k);
    BackBy(w.z, l, k);
  }

  lemma SquareSign(x: real) returns (p: real)
    ensures p == x * x && p >= 0.0 && (x != 0.0 ==> p > 0.0)
  {
    if x > 0.0 {
      p := PositiveProduct(x, x);
    } else if x < 0.0 {
      p := PositiveProduct(-x, -x);
      assert -x * -x == x * x;
    } else {
      p := 0.0;
    }
  }

  lemma LengthPositive(w: Vector3)
    requires w != ZERO
    ensures w.LengthSquared() > 0.0
  {
    var p := SquareSign(w.x);
    var q := SquareSign(w.y);
    var r := SquareSign(w.z);
    assert w.LengthSquared() == p + q + r;
  }

  lemma UnitBy(l: real, k: real, ww: real, uu: real)
    requires l > 0.0 && k == 1.0 / l && l * l == ww && uu == k * (k * ww)
    ensures uu == 1.0
  {
    assert k * l == 1.0;
    assert k * (k * (l * l)) == (k * l) * (k * l);
  }

  lemma BackBy(x: real, l: real, k: real)
    requires l > 0.0 && k == 1.0 / l
    ensures x * k * l == x
  {
    assert k * l == 1.0;
    assert x * k * l == x * (k * l);
  }

  /** A point just on the far tip, looking away: in the capsule, and beyond the sphere around the first end. */
  lemma TipOutsideSphere(c: Capsule, u: Vector3, l: real, ray: Ray, reach: real)
    requires c.Valid() && l > 0.0 && u.LengthSquared() == 1.0 && c.b == c.a.Add(u.Scale(l)) && reach >= 0.0
    requires ray == Ray(c.a.Add(u.Scale(l + c.radius)), u)
    ensures IsExactHit(CapA(c).Points(), ray, reach, None) && !IsExactHit(c.Points(), ray, reach, None)
  {
    var r, tip := c.radius, ray.origin;
    assert tip.Sub(c.a) == u.Scale(l + r);
    ScaledLength(u, l + r);
    SquareStrictlyMonotone(r, l + r);
    Spheres.MissIsExact(CapA(c), ray, reach);
    assert tip.Sub(c.b) == u.Scale(r);
    ScaledLength(u, r);
    DistanceSymmetric(tip, c.b);
    SegmentEnds(c.GetSegment());
    assert c.GetSegment().At(1.0).DistanceSquaredTo(tip) <= r * r;
    AtZero(ray);
    assert ray.At(0.0) in c.Points();
  }

  /** Exact answers for the sphere around the first end are exact for the capsule, for every ray, only at a point. */
  lemma DegenerateExactOnlyAtPoint(c: Capsule, sqrt: real -> real)
    requires c.Valid() && IsSqrt(sqrt)
    ensures (forall ray: Ray, reach, hit | ray.Valid() && reach >= 0.0 && IsExactHit(CapA(c).Points(), ray, reach, hit) ::
               IsExactHit(c.Points(), ray, reach, hit))
            <==> c.a == c.b
  {
    hide Capsule.Points, Spheres.Sphere.Points;
    if c.a == c.b {
      PointCapsuleIsSphere(c);
    } else {
      var u, l := AxisOf(c, sqrt);
      var ray := Ray(c.a.Add(u.Scale(l + c.radius)), u);
      TipOutsideSphere(c, u, l, ray, 0.0);
      assert ray.Valid();
    }
  }

  // --- rays nearly parallel to a capsule -----------------------------------------------------------------

  // A unit direction leaning 2 * 10^-5 off the axis: its square is below the tolerance.
  const LEAN: real := 200000.0 / 10000000001.0
  const ALONG: real := 9999999999.0 / 10000000001.0

  const START: real := -1.0 - 0.05 * LEAN
  const PILLAR: Capsule := Capsule(ZERO, UNIT_Z, 1.0)
  const GRAZE: Ray := Ray(Vector3(START, 0.0, 0.5), Vector3(LEAN, 0.0, ALONG))
  const K: Scalars := Scalars(1.0, ALONG, 0.5, LEAN * START + ALONG * 0.5, START * START + 0.25, 1.0)

  lemma GrazeScalars()
    ensures ScalarsOf(PILLAR, GRAZE) == K
  {
    assert PILLAR.b.Sub(PILLAR.a) == UNIT_Z;
    assert GRAZE.origin.Sub(PILLAR.a) == GRAZE.origin;
  }

  lemma GrazeQuadratic()
    ensures K.Qa() == LEAN * LEAN && K.Qb() == LEAN * START && K.Qc() == START * START - 1.0
    ensures 0.0 < K.Qa() <= EPSILON && Discriminant(K) == LEAN * LEAN && K.Q(0.0) > 0.0
  {
  }

  lemma GrazeRoot(sqrt: real -> real)
    requires IsSqrt(sqrt)
    ensures WallEntry(K, sqrt) == Some(0.05)
  {
    GrazeQuadratic();
    var root := sqrt(Discriminant(K));
    SqrtAt(sqrt, Discriminant(K));
    SquareOrder(root, LEAN);
    SquareOrder(LEAN, root);
    assert root == LEAN;
    hide Discriminant, Scalars.Qa, Scalars.Qb, Scalars.Qc;
    assert K.Y(0.05) == 0.5 + 0.05 * ALONG;
    assert SmallerRoot(K, sqrt) == (-(LEAN * START) - LEAN) / (LEAN * LEAN);
  }

  lemma GrazeOutsideCaps(u: real)
    requires 0.0 <= u <= 0.05
    ensures !InCap(K, u)
  {
    SquareNonNegative(u);
    assert START * START > 1.0;
    assert K.rdoa > 0.0;
    assert K.P(u) > 1.25;
    assert K.D(u, 1.0) > 1.0;
  }

  lemma GrazeStartsOutside()
    ensures !PILLAR.Contains(GRAZE.origin)
  {
    hide ScalarsOf, Capsule.Contains, Scalars.Inside, Scalars.Q, Scalars.Qa, Scalars.Qb, Scalars.Qc, Ray.At, Ray.Valid,
         Discriminant, Segment.IsDegenerate;
    GrazeScalars();
    GrazeQuadratic();
    GrazeValid();
    OutsideCylinderIsOutside(K, 0.0);
    AtZero(GRAZE);
    InsideAlong(PILLAR, GRAZE, 0.0);
  }

  lemma GrazeValid()
    ensures PILLAR.Valid() && GRAZE.Valid() && !PILLAR.GetSegment().IsDegenerate()
  {
    assert PILLAR.GetSegment().Direction() == UNIT_Z;
  }

  /** The wall test is skipped although the ray enters through the wall, ahead of both caps. */
  lemma NearParallelSkipsWall(sqrt: real -> real)
    requires IsSqrt(sqrt)
    ensures PILLAR.Valid() && GRAZE.Valid() && !PILLAR.GetSegment().IsDegenerate()
    ensures WallSkipped(PILLAR, GRAZE, 1.0, sqrt)
  {
    hide ScalarsOf, InCap, WallEntry, Scalars.Qa, Scalars.Q, Capsule.Contains, Ray.Valid, Segment.IsDegenerate;
    GrazeValid();
    GrazeScalars();
    GrazeQuadratic();
    GrazeRoot(sqrt);
    GrazeStartsOutside();
    forall u | 0.0 <= u <= 0.05
      ensures !InCap(K, u)
    {
      GrazeOutsideCaps(u);
    }
  }
}
