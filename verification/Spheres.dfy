/** Solid spheres: exact ray intersection and exact overlap with a box. */
module Spheres {
  import opened Wrappers
  import opened RealMath
  import opened Vectors
  import opened Rays
  import opened Boxes

  datatype Sphere = Sphere(center: Vector3, radius: real) {

    predicate Valid() {
      radius > 0.0
    }

    predicate Contains(p: Vector3) {
      p.DistanceSquaredTo(center) <= radius * radius
    }

    ghost function Points(): iset<Vector3> {
      iset p | Contains(p)
    }

    function Transform(anchor: Vector3, scale: real): Sphere {
      Sphere(anchor.Add(center.Scale(scale)), radius * scale)
    }
  }

  /** t^2 + 2 b t + c. */
  function Quadratic(b: real, c: real, t: real): real {
    t * t + 2.0 * t * b + c
  }

  /** Along a unit ray, being in the sphere is a quadratic condition on the parameter. */
  lemma ContainsAlong(s: Sphere, ray: Ray, t: real)
    requires ray.Valid()
    ensures s.Contains(ray.At(t)) <==>
            var oc := ray.origin.Sub(s.center);
            Quadratic(oc.Dot(ray.direction), oc.LengthSquared() - s.radius * s.radius, t) <= 0.0
  {
    var oc := ray.origin.Sub(s.center);
    LengthAlong(oc, ray.direction, t);
    assert ray.At(t).Sub(s.center) == oc.Add(ray.direction.Scale(t));
  }

  /** The smaller root of a quadratic that is positive at 0 and not rising there. */
  lemma SmallerRoot(b: real, c: real, root: real)
    requires c > 0.0 && b <= 0.0
    requires root >= 0.0 && root * root == b * b - c
    ensures 0.0 <= -b - root
    ensures Quadratic(b, c, -b - root) == 0.0
  {
    SquareOrder(root, -b);
    var t1 := -b - root;
    assert t1 * t1 == b * b + 2.0 * b * root + root * root;
  }

  /** Nothing before the smaller root is a solution. */
  lemma PositiveBeforeRoot(b: real, c: real, root: real, t: real)
    requires root >= 0.0 && root * root == b * b - c
    requires t < -b - root
    ensures Quadratic(b, c, t) > 0.0
  {
    assert Quadratic(b, c, t) == (t + b) * (t + b) - root * root;
    SquareStrictlyMonotone(root, -(t + b));
  }

  /** With the centre behind the origin, or no real root, the quadratic stays positive. */
  lemma NoRoot(b: real, c: real, t: real)
    requires c > 0.0 && t >= 0.0
    requires b > 0.0 || b * b - c < 0.0
    ensures Quadratic(b, c, t) > 0.0
  {
    if b > 0.0 {
      MulNonNegative(t, b);
      SquareNonNegative(t);
    } else {
      assert Quadratic(b, c, t) == (t + b) * (t + b) + (c - b * b);
      SquareNonNegative(t + b);
    }
  }

  /** The two early exits that report a miss are right about it. */
  lemma MissIsExact(s: Sphere, ray: Ray, reach: real)
    requires ray.Valid()
    requires var oc := ray.origin.Sub(s.center);
             var c := oc.LengthSquared() - s.radius * s.radius;
             var b := oc.Dot(ray.direction);
             c > 0.0 && (b > 0.0 || b * b - c < 0.0)
    ensures IsExactHit(s.Points(), ray, reach, None)
  {
    hide Quadratic, Ray.At, Sphere.Contains, Vector3.Dot, Vector3.LengthSquared, Vector3.Sub;
    var oc := ray.origin.Sub(s.center);
    var b, c := oc.Dot(ray.direction), oc.LengthSquared() - s.radius * s.radius;
    forall t | 0.0 <= t <= reach
      ensures ray.At(t) !in s.Points()
    {
      ContainsAlong(s, ray, t);
      NoRoot(b, c, t);
    }
  }

  /** Seen from outside, a sphere with a real root in front is entered at the smaller root. */
  lemma EntryIsFirst(s: Sphere, ray: Ray, root: real)
    requires ray.Valid()
    requires var oc := ray.origin.Sub(s.center);
             var c := oc.LengthSquared() - s.radius * s.radius;
             var b := oc.Dot(ray.direction);
             c > 0.0 && b <= 0.0 && root >= 0.0 && root * root == b * b - c
    ensures IsFirstHit(s.Points(), ray, -ray.origin.Sub(s.center).Dot(ray.direction) - root)
  {
    var oc := ray.origin.Sub(s.center);
    var b, c := oc.Dot(ray.direction), oc.LengthSquared() - s.radius * s.radius;
    SmallerRoot(b, c, root);
    ContainsAlong(s, ray, -b - root);
    forall u | 0.0 <= u < -b - root
      ensures ray.At(u) !in s.Points()
    {
      ContainsAlong(s, ray, u);
      PositiveBeforeRoot(b, c, root, u);
    }
  }

  method Intersect(s: Sphere, ray: Ray, maxDistance: real, sqrt: real -> real) returns (hit: Option<RayHit>)
    requires s.Valid() && ray.Valid() && IsSqrt(sqrt)
    ensures IsExactHit(s.Points(), ray, Reach(maxDistance, s.Contains(ray.origin)), hit)
  {
    var oc := ray.origin.Sub(s.center);
    var c := oc.LengthSquared() - s.radius * s.radius;
    assert ray.At(0.0) == ray.origin;
    if c <= 0.0 {
      return Some(RayHit(0.0, ray.origin));
    }
    var b := oc.Dot(ray.direction);
    if b > 0.0 {
      MissIsExact(s, ray, maxDistance);
      return None;
    }
    var disc := b * b - c;
    if disc < 0.0 {
      MissIsExact(s, ray, maxDistance);
      return None;
    }
    var t := -b - sqrt(disc);
    EntryIsFirst(s, ray, sqrt(disc));
    if t < 0.0 {
      t := 0.0;
    }
    if t > maxDistance {
      return None;
    }
    return Some(RayHit(t, ray.At(t)));
  }

  /** Overlap with a box is exact, touching included. */
  method Overlaps(s: Sphere, box: Aabb) returns (r: bool)
    requires s.Valid() && box.Valid()
    ensures r <==> exists p :: p in s.Points() && p in box.Points()
  {
    r := box.SquaredDistanceTo(s.center) <= s.radius * s.radius;
    ClosestPointIsNearest(box, s.center, s.center);
    if r {
      assert box.ClosestPoint(s.center) in s.Points();
    }
    forall p | p in s.Points() && p in box.Points()
      ensures r
    {
      ClosestPointIsNearest(box, s.center, p);
    }
  }
}
