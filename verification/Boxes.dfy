/** Axis-aligned boxes: closest point, squared distance and the slab ray test. */
module Boxes {
  import opened Wrappers
  import opened RealMath
  import opened Vectors
  import opened Rays

  datatype Aabb = Aabb(min: Vector3, max: Vector3) {

    predicate Valid() {
      min.x <= max.x && min.y <= max.y && min.z <= max.z
    }

    predicate Contains(p: Vector3) {
      && min.x <= p.x <= max.x
      && min.y <= p.y <= max.y
      && min.z <= p.z <= max.z
    }

    ghost function Points(): iset<Vector3> {
      iset p | Contains(p)
    }

    function Center(): Vector3 {
      min.Add(max).Scale(0.5)
    }

    function HalfExtents(): Vector3 {
      max.Sub(min).Scale(0.5)
    }

    function Inflate(r: real): Aabb {
      Aabb(min.Sub(Vector3(r, r, r)), max.Add(Vector3(r, r, r)))
    }

    function ClosestPoint(p: Vector3): Vector3 {
      Vector3(Clamp(min.x, max.x, p.x), Clamp(min.y, max.y, p.y), Clamp(min.z, max.z, p.z))
    }

    function SquaredDistanceTo(p: Vector3): real {
      ClosestPoint(p).DistanceSquaredTo(p)
    }
  }

  lemma ClampIsNearest(lo: real, hi: real, x: real, q: real)
    requires lo <= q <= hi
    ensures lo <= Clamp(lo, hi, x) <= hi
    ensures (Clamp(lo, hi, x) - x) * (Clamp(lo, hi, x) - x) <= (q - x) * (q - x)
  {
    var c := Clamp(lo, hi, x);
    if c > x {
      SquareMonotone(c - x, q - x);
    } else if c < x {
      SquareMonotone(x - c, x - q);
      assert (x - c) * (x - c) == (c - x) * (c - x);
      assert (x - q) * (x - q) == (q - x) * (q - x);
    } else {
      SquareNonNegative(q - x);
    }
  }

  /** The clamped point is a point of the box, and no point of the box is nearer. */
  lemma ClosestPointIsNearest(box: Aabb, p: Vector3, q: Vector3)
    requires box.Valid()
    ensures box.Contains(box.ClosestPoint(p))
    ensures box.Contains(q) ==> box.SquaredDistanceTo(p) <= q.DistanceSquaredTo(p)
  {
    if box.Contains(q) {
      ClampIsNearest(box.min.x, box.max.x, p.x, q.x);
      ClampIsNearest(box.min.y, box.max.y, p.y, q.y);
      ClampIsNearest(box.min.z, box.max.z, p.z, q.z);
    }
  }

  predicate Between(lo: real, t: real, hi: real) {
    lo <= t <= hi
  }

  /** A point moving from o at rate d stays within [lo, hi] at parameter t. */
  predicate InSlab(o: real, d: real, lo: real, hi: real, t: real) {
    lo <= o + d * t <= hi
  }

  /** The ray is inside the first n slabs of the box at parameter t, within [0, reach]. */
  predicate InSlabs(box: Aabb, ray: Ray, reach: real, n: nat, t: real)
    requires n <= 3
  {
    if n == 0 then
      0.0 <= t <= reach
    else
      && InSlabs(box, ray, reach, n - 1, t)
      && InSlab(ray.origin.Component(n - 1), ray.direction.Component(n - 1),
                box.min.Component(n - 1), box.max.Component(n - 1), t)
  }

  lemma SameSide(d: real, s: real, t: real)
    requires d != 0.0
    ensures d > 0.0 ==> (s <= t <==> d * s <= d * t)
    ensures d < 0.0 ==> (t <= s <==> d * s <= d * t)
  {
    if d > 0.0 {
      if s <= t {
        MulMonotone(s, t, d);
      } else {
        MulStrictlyMonotone(t, s, d);
      }
    } else {
      if t <= s {
        MulMonotone(t, s, -d);
      } else {
        MulStrictlyMonotone(s, t, -d);
      }
    }
  }

  lemma CrossingParameter(o: real, d: real, edge: real)
    requires d != 0.0
    ensures d * ((edge - o) * (1.0 / d)) == edge - o
  {
    var inv := 1.0 / d;
    assert inv * d == 1.0;
    assert d * ((edge - o) * inv) == (edge - o) * (inv * d);
  }

  lemma InSlabByProduct(o: real, d: real, lo: real, hi: real, t: real, p: real)
    requires p == d * t
    ensures InSlab(o, d, lo, hi, t) <==> lo - o <= p <= hi - o
  {
  }

  /** The same comparison with the two products named. */
  lemma SameSideBy(d: real, s: real, t: real, p: real, q: real)
    requires d != 0.0 && p == d * s && q == d * t
    ensures d > 0.0 ==> (s <= t <==> p <= q)
    ensures d < 0.0 ==> (t <= s <==> p <= q)
  {
    SameSide(d, s, t);
  }

  /** The ordered crossing parameters of one slab are exactly the ends of the stay inside it. */
  lemma SlabInterval(o: real, d: real, lo: real, hi: real, t1: real, t2: real, t: real)
    requires d != 0.0 && lo <= hi
    requires d * t1 == lo - o && d * t2 == hi - o
    ensures Between(Min(t1, t2), t, Max(t1, t2)) <==> InSlab(o, d, lo, hi, t)
  {
    hide InSlab;
    var p := d * t;
    InSlabByProduct(o, d, lo, hi, t, p);
    SameSideBy(d, t1, t, lo - o, p);
    SameSideBy(d, t, t2, p, hi - o);
    SameSideBy(d, t1, t2, lo - o, hi - o);
  }

  /** [tMin, tMax] is the set of parameters inside the first n slabs. */
  ghost predicate Narrowed(box: Aabb, ray: Ray, reach: real, n: nat, tMin: real, tMax: real)
    requires n <= 3
  {
    forall t :: Between(tMin, t, tMax) <==> InSlabs(box, ray, reach, n, t)
  }

  /** Intersecting with the stay in the next slab narrows the interval by exactly that slab. */
  lemma SlabRound(box: Aabb, ray: Ray, reach: real, n: nat, tMin: real, tMax: real,
                  o: real, d: real, lo: real, hi: real, t1: real, t2: real)
    requires n < 3 && Narrowed(box, ray, reach, n, tMin, tMax)
    requires o == ray.origin.Component(n) && d == ray.direction.Component(n) && d != 0.0
    requires lo == box.min.Component(n) && hi == box.max.Component(n) && lo <= hi
    requires t1 == (lo - o) * (1.0 / d) && t2 == (hi - o) * (1.0 / d)
    ensures Narrowed(box, ray, reach, n + 1, Max(tMin, Min(t1, t2)), Min(tMax, Max(t1, t2)))
  {
    CrossingParameter(o, d, lo);
    CrossingParameter(o, d, hi);
    forall t
      ensures Between(Max(tMin, Min(t1, t2)), t, Min(tMax, Max(t1, t2))) <==> InSlabs(box, ray, reach, n + 1, t)
    {
      SlabInterval(o, d, lo, hi, t1, t2, t);
      assert Between(tMin, t, tMax) <==> InSlabs(box, ray, reach, n, t);
    }
  }

  /** A ray parallel to a slab is inside it for all parameters or for none. */
  lemma ParallelRound(box: Aabb, ray: Ray, reach: real, n: nat, tMin: real, tMax: real)
    requires n < 3 && ray.direction.Component(n) == 0.0
    requires Narrowed(box, ray, reach, n, tMin, tMax)
    ensures box.min.Component(n) <= ray.origin.Component(n) <= box.max.Component(n)
            ==> Narrowed(box, ray, reach, n + 1, tMin, tMax)
    ensures !(box.min.Component(n) <= ray.origin.Component(n) <= box.max.Component(n))
            ==> Narrowed(box, ray, reach, n + 1, 1.0, 0.0)
  {
    forall t
      ensures InSlabs(box, ray, reach, n + 1, t)
              <==> Between(tMin, t, tMax) && box.min.Component(n) <= ray.origin.Component(n) <= box.max.Component(n)
    {
      assert Between(tMin, t, tMax) <==> InSlabs(box, ray, reach, n, t);
    }
  }

  /** A parameter that fails one of the first n slabs fails the box. */
  lemma SlabsPrefix(box: Aabb, ray: Ray, reach: real, n: nat, t: real)
    requires n <= 3
    requires InSlabs(box, ray, reach, 3, t)
    ensures InSlabs(box, ray, reach, n, t)
    decreases 3 - n
  {
    if n < 3 {
      SlabsPrefix(box, ray, reach, n + 1, t);
    }
  }

  lemma BoxIsSlabs(box: Aabb, ray: Ray, reach: real, t: real)
    requires box.Valid()
    ensures InSlabs(box, ray, reach, 3, t) <==> 0.0 <= t <= reach && ray.At(t) in box.Points()
  {
    var o, d := ray.origin, ray.direction;
    BoxByAxis(box, ray, t);
    hide InSlab, Ray.At, Aabb.Contains;
    assert InSlabs(box, ray, reach, 1, t) <==> 0.0 <= t <= reach && InSlab(o.x, d.x, box.min.x, box.max.x, t);
    assert InSlabs(box, ray, reach, 2, t)
      <==> InSlabs(box, ray, reach, 1, t) && InSlab(o.y, d.y, box.min.y, box.max.y, t);
    assert InSlabs(box, ray, reach, 3, t)
      <==> InSlabs(box, ray, reach, 2, t) && InSlab(o.z, d.z, box.min.z, box.max.z, t);
  }

  lemma BoxByAxis(box: Aabb, ray: Ray, t: real)
    ensures var o, d := ray.origin, ray.direction;
            box.Contains(ray.At(t))
            <==> InSlab(o.x, d.x, box.min.x, box.max.x, t) && InSlab(o.y, d.y, box.min.y, box.max.y, t)
                 && InSlab(o.z, d.z, box.min.z, box.max.z, t)
  {
  }

  /** An interval emptied by the first n slabs means the ray misses. */
  lemma EmptiedIsMiss(box: Aabb, ray: Ray, reach: real, n: nat, tMin: real, tMax: real)
    requires box.Valid() && n <= 3
    requires Narrowed(box, ray, reach, n, tMin, tMax)
    requires tMin > tMax
    ensures IsExactHit(box.Points(), ray, reach, None)
  {
    forall t | 0.0 <= t <= reach
      ensures ray.At(t) !in box.Points()
    {
      BoxIsSlabs(box, ray, reach, t);
      if ray.At(t) in box.Points() {
        SlabsPrefix(box, ray, reach, n, t);
        assert false;
      }
    }
  }

  /** The low end of an interval narrowed by all three slabs is the first hit. */
  lemma LowEndIsHit(box: Aabb, ray: Ray, reach: real, tMin: real, tMax: real)
    requires box.Valid()
    requires Narrowed(box, ray, reach, 3, tMin, tMax)
    requires 0.0 <= tMin <= tMax
    ensures IsExactHit(box.Points(), ray, reach, Some(RayHit(tMin, ray.At(tMin))))
  {
    assert Between(tMin, tMin, tMax);
    BoxIsSlabs(box, ray, reach, tMin);
    forall u | 0.0 <= u < tMin
      ensures ray.At(u) !in box.Points()
    {
      BoxIsSlabs(box, ray, reach, u);
      assert !Between(tMin, u, tMax);
    }
  }

  function AsRayHit(ray: Ray, distance: Option<real>): Option<RayHit> {
    match distance
    case None => None
    case Some(t) => Some(RayHit(t, ray.At(t)))
  }

  /** For every ray the slab test is exact for the ray with its tiny components flushed to zero. */
  method IntersectRay(box: Aabb, ray: Ray, maxDistance: real) returns (hit: Option<real>)
    requires box.Valid() && ray.Valid()
    ensures IsExactHit(box.Points(), Flush(ray), maxDistance, AsRayHit(Flush(ray), hit))
  {
    var tMin := 0.0;
    var tMax := maxDistance;
    ghost var f := Flush(ray);
    for axis := 0 to 3
      invariant 0.0 <= tMin
      invariant Narrowed(box, f, maxDistance, axis, tMin, tMax)
      invariant !Tiny(ray.direction, axis) ==> tMin <= tMax
    {
      var o, d := ray.origin.Component(axis), ray.direction.Component(axis);
      var lo, hi := box.min.Component(axis), box.max.Component(axis);
      FlushAt(ray, axis);
      if Abs(d) < EPSILON {
        ParallelRound(box, f, maxDistance, axis, tMin, tMax);
        if o < lo || o > hi {
          EmptiedIsMiss(box, f, maxDistance, axis + 1, 1.0, 0.0);
          return None;
        }
        continue;
      }
      var inv := 1.0 / d;
      var t1 := (lo - o) * inv;
      var t2 := (hi - o) * inv;
      SlabRound(box, f, maxDistance, axis, tMin, tMax, o, d, lo, hi, t1, t2);
      if t1 > t2 {
        t1, t2 := t2, t1;
      }
      tMin := Max(tMin, t1);
      tMax := Min(tMax, t2);
      if tMin > tMax {
        EmptiedIsMiss(box, f, maxDistance, axis + 1, tMin, tMax);
        return None;
      }
    }
    UnitDirectionNotTiny(ray.direction);
    LowEndIsHit(box, f, maxDistance, tMin, tMax);
    return Some(tMin);
  }
}
