/** Oriented boxes: frame changes, the slab ray test in the local frame, and the separating-axis overlap test. */
module OrientedBoxes {
  import opened Wrappers
  import opened RealMath
  import opened Vectors
  import opened Bases
  import opened Rays
  import opened Boxes

  datatype Obb = Obb(center: Vector3, axes: seq<Vector3>, halfExtents: Vector3) {

    predicate Valid() {
      && |axes| == 3
      && Orthonormal(axes[0], axes[1], axes[2])
      && halfExtents.x > 0.0 && halfExtents.y > 0.0 && halfExtents.z > 0.0
    }

    function ToLocal(world: Vector3): Vector3
      requires |axes| == 3
    {
      Coordinates(axes[0], axes[1], axes[2], world.Sub(center))
    }

    function ToWorld(local: Vector3): Vector3
      requires |axes| == 3
    {
      center.Add(axes[0].Scale(local.x)).Add(axes[1].Scale(local.y)).Add(axes[2].Scale(local.z))
    }

    function RotateToLocal(worldDir: Vector3): Vector3
      requires |axes| == 3
    {
      Coordinates(axes[0], axes[1], axes[2], worldDir)
    }

    /** The box as seen in its own frame. */
    function LocalBox(): Aabb {
      Aabb(halfExtents.Scale(-1.0), halfExtents)
    }

    /** The solid box: the world images of the local points within the half extents. */
    ghost function Points(): iset<Vector3>
      requires |axes| == 3
    {
      iset l | LocalBox().Contains(l) :: ToWorld(l)
    }

    function Transform(anchor: Vector3, scale: real): Obb {
      Obb(anchor.Add(center.Scale(scale)), axes, halfExtents.Scale(scale))
    }
  }

  // --- frame changes ---------------------------------------------------------------------------

  lemma ToWorldCombines(obb: Obb, l: Vector3)
    requires obb.Valid()
    ensures obb.ToWorld(l).Sub(obb.center) == Combine(obb.axes[0], obb.axes[1], obb.axes[2], l)
  {
  }

  /** Leaving the local frame undoes entering it. */
  lemma WorldRoundTrip(obb: Obb, p: Vector3)
    requires obb.Valid()
    ensures obb.ToWorld(obb.ToLocal(p)) == p
  {
    CombineCoordinates(obb.axes[0], obb.axes[1], obb.axes[2], p.Sub(obb.center));
    ToWorldCombines(obb, obb.ToLocal(p));
  }

  /** Entering the local frame undoes leaving it. */
  lemma LocalRoundTrip(obb: Obb, l: Vector3)
    requires obb.Valid()
    ensures obb.ToLocal(obb.ToWorld(l)) == l
  {
    ToWorldCombines(obb, l);
    CoordinatesCombine(obb.axes[0], obb.axes[1], obb.axes[2], l);
  }

  /** So membership can be decided in the local frame. */
  lemma PointsInLocalFrame(obb: Obb, p: Vector3)
    requires obb.Valid()
    ensures p in obb.Points() <==> obb.LocalBox().Contains(obb.ToLocal(p))
  {
    if p in obb.Points() {
      var l :| obb.LocalBox().Contains(l) && p == obb.ToWorld(l);
      LocalRoundTrip(obb, l);
    }
    if obb.LocalBox().Contains(obb.ToLocal(p)) {
      WorldRoundTrip(obb, p);
    }
  }

  // --- ray test --------------------------------------------------------------------------------

  /** The ray in the box's frame. */
  function LocalRay(obb: Obb, ray: Ray): Ray
    requires |obb.axes| == 3
  {
    Ray(obb.ToLocal(ray.origin), obb.RotateToLocal(ray.direction))
  }

  lemma LocalRayFollows(obb: Obb, ray: Ray, t: real)
    requires obb.Valid()
    ensures LocalRay(obb, ray).At(t) == obb.ToLocal(ray.At(t))
  {
    var o, d := ray.origin.Sub(obb.center), ray.direction;
    assert ray.At(t).Sub(obb.center) == o.Add(d.Scale(t));
    FollowAxis(o, d, t, obb.axes[0]);
    FollowAxis(o, d, t, obb.axes[1]);
    FollowAxis(o, d, t, obb.axes[2]);
  }

  lemma FollowAxis(o: Vector3, d: Vector3, t: real, a: Vector3)
    ensures o.Add(d.Scale(t)).Dot(a) == o.Dot(a) + d.Dot(a) * t
  {
    DotAdd(o, d.Scale(t), a);
    DotScale(d, t, a);
  }

  /** A rotation keeps length, so the local direction is a unit vector too. */
  lemma LocalRayValid(obb: Obb, ray: Ray)
    requires obb.Valid() && ray.Valid()
    ensures LocalRay(obb, ray).Valid()
  {
    var d, l := ray.direction, obb.RotateToLocal(ray.direction);
    CombineCoordinates(obb.axes[0], obb.axes[1], obb.axes[2], d);
    CombineDot(obb.axes[0], obb.axes[1], obb.axes[2], l, d);
    DotCommutes(obb.axes[0], d);
    DotCommutes(obb.axes[1], d);
    DotCommutes(obb.axes[2], d);
  }

  /** Back from the local frame: a local answer is the world answer at the same distance. */
  function AsWorldHit(ray: Ray, local: Option<RayHit>): Option<RayHit> {
    match local
    case None => None
    case Some(h) => Some(RayHit(h.distance, ray.At(h.distance)))
  }

  /** With no direction component in (0, EPSILON) in the local frame, the flushed answer is the exact world answer. */
  lemma LocalExactIsWorldExact(obb: Obb, ray: Ray, reach: real, local: Option<RayHit>)
    requires obb.Valid()
    requires IsExactHit(obb.LocalBox().Points(), LocalRay(obb, ray), reach, local)
    ensures IsExactHit(obb.Points(), ray, reach, AsWorldHit(ray, local))
  {
    forall t
      ensures ray.At(t) in obb.Points() <==> LocalRay(obb, ray).At(t) in obb.LocalBox().Points()
    {
      LocalRayFollows(obb, ray, t);
      PointsInLocalFrame(obb, ray.At(t));
    }
  }

  method Intersect(obb: Obb, ray: Ray, maxDistance: real) returns (hit: Option<RayHit>)
    requires obb.Valid() && ray.Valid()
    ensures exists local ::
              && IsExactHit(obb.LocalBox().Points(), Flush(LocalRay(obb, ray)), maxDistance, local)
              && hit == AsWorldHit(ray, local)
    ensures Flush(LocalRay(obb, ray)) == LocalRay(obb, ray) ==> IsExactHit(obb.Points(), ray, maxDistance, hit)
  {
    var lo := obb.ToLocal(ray.origin);
    var ld := obb.RotateToLocal(ray.direction);
    ghost var box, local := obb.LocalBox(), LocalRay(obb, ray);
    ghost var f := Flush(local);
    var tMin := 0.0;
    var tMax := maxDistance;
    for axis := 0 to 3
      invariant 0.0 <= tMin
      invariant Narrowed(box, f, maxDistance, axis, tMin, tMax)
      invariant !Tiny(ld, axis) ==> tMin <= tMax
    {
      var o, d, h := lo.Component(axis), ld.Component(axis), obb.halfExtents.Component(axis);
      FlushAt(local, axis);
      if Abs(d) < EPSILON {
        ParallelRound(box, f, maxDistance, axis, tMin, tMax);
        if o < -h || o > h {
          EmptiedIsMiss(box, f, maxDistance, axis + 1, 1.0, 0.0);
          ReportLocal(obb, ray, maxDistance, None);
          return None;
        }
        continue;
      }
      var inv := 1.0 / d;
      var t1 := (-h - o) * inv;
      var t2 := (h - o) * inv;
      SlabRound(box, f, maxDistance, axis, tMin, tMax, o, d, -h, h, t1, t2);
      if t1 > t2 {
        t1, t2 := t2, t1;
      }
      tMin := Max(tMin, t1);
      tMax := Min(tMax, t2);
      if tMin > tMax {
        EmptiedIsMiss(box, f, maxDistance, axis + 1, tMin, tMax);
        ReportLocal(obb, ray, maxDistance, None);
        return None;
      }
    }
    LocalRayValid(obb, ray);
    UnitDirectionNotTiny(ld);
    LowEndIsHit(box, f, maxDistance, tMin, tMax);
    ReportLocal(obb, ray, maxDistance, Some(RayHit(tMin, f.At(tMin))));
    return Some(RayHit(tMin, ray.At(tMin)));
  }

  lemma ReportLocal(obb: Obb, ray: Ray, reach: real, local: Option<RayHit>)
    requires obb.Valid()
    requires IsExactHit(obb.LocalBox().Points(), Flush(LocalRay(obb, ray)), reach, local)
    ensures Flush(LocalRay(obb, ray)) == LocalRay(obb, ray)
            ==> IsExactHit(obb.Points(), ray, reach, AsWorldHit(ray, local))
  {
    if Flush(LocalRay(obb, ray)) == LocalRay(obb, ray) {
      LocalExactIsWorldExact(obb, ray, reach, local);
    }
  }
}
