/** Rays, ray hits, and what it means for a hit to be the first one. */
module Rays {
  import opened Wrappers
  import opened RealMath
  import opened Vectors

  datatype Ray = Ray(origin: Vector3, direction: Vector3) {

    function At(t: real): Vector3 {
      origin.Add(direction.Scale(t))
    }

    /** What the constructor establishes: a unit direction. */
    predicate Valid() {
      direction.LengthSquared() == 1.0
    }
  }

  lemma AtZero(ray: Ray)
    ensures ray.At(0.0) == ray.origin
  {
  }

  /** A direction component the slab tests treat as parallel to the slab counts as zero. */
  function FlushComponent(d: real): real {
    if Abs(d) < EPSILON then 0.0 else d
  }

  function Flush(ray: Ray): Ray {
    var d := ray.direction;
    Ray(ray.origin, Vector3(FlushComponent(d.x), FlushComponent(d.y), FlushComponent(d.z)))
  }

  /** Flushing moves each coordinate of the point at parameter t by at most EPSILON * t. */
  lemma FlushDrift(o: real, d: real, t: real, p: real, f: real)
    requires t >= 0.0
    requires p == o + d * t && f == o + FlushComponent(d) * t
    ensures Abs(p - f) <= EPSILON * t
  {
    var e := d - FlushComponent(d);
    AbsProduct(p - f, e, t);
    MulMonotone(Abs(e), EPSILON, t);
  }

  /** The first n components of a direction are all tiny. */
  predicate Tiny(d: Vector3, n: nat)
    requires n <= 3
  {
    n == 0 || (Tiny(d, n - 1) && Abs(d.Component(n - 1)) < EPSILON)
  }

  /** A unit direction keeps at least one component. */
  lemma UnitDirectionNotTiny(d: Vector3)
    requires d.LengthSquared() == 1.0
    ensures !Tiny(d, 3)
  {
    if Tiny(d, 3) {
      assert Tiny(d, 2) && Tiny(d, 1);
      SquareMonotone(Abs(d.x), EPSILON);
      SquareMonotone(Abs(d.y), EPSILON);
      SquareMonotone(Abs(d.z), EPSILON);
      AbsMul(d.x, d.x);
      AbsMul(d.y, d.y);
      AbsMul(d.z, d.z);
      assert false;
    }
  }

  lemma FlushAt(ray: Ray, axis: nat)
    requires axis < 3
    ensures Flush(ray).direction.Component(axis) == FlushComponent(ray.direction.Component(axis))
    ensures Flush(ray).origin == ray.origin
  {
  }

  datatype RayHit = RayHit(distance: real, point: Vector3)

  /** `t` is the least non-negative parameter at which the ray is in `solid`. */
  ghost predicate IsFirstHit(solid: iset<Vector3>, ray: Ray, t: real) {
    && 0.0 <= t
    && ray.At(t) in solid
    && forall u | 0.0 <= u < t :: ray.At(u) !in solid
  }

  /**
   * The exact answer to a ray query against a set of points: the first hit when the ray meets
   * `solid` within [0, reach], and nothing when it does not.
   */
  ghost predicate IsExactHit(solid: iset<Vector3>, ray: Ray, reach: real, hit: Option<RayHit>) {
    match hit
    case Some(h) => h.distance <= reach && IsFirstHit(solid, ray, h.distance) && h.point == ray.At(h.distance)
    case None => forall t | 0.0 <= t <= reach :: ray.At(t) !in solid
  }

  /** There is only one exact answer. */
  lemma ExactHitUnique(solid: iset<Vector3>, ray: Ray, reach: real, h1: Option<RayHit>, h2: Option<RayHit>)
    requires IsExactHit(solid, ray, reach, h1)
    requires IsExactHit(solid, ray, reach, h2)
    ensures h1 == h2
  {
    if h1.Some? && h2.Some? {
      var t1, t2 := h1.value.distance, h2.value.distance;
      assert t1 == t2;
    }
  }

  /**
   * A sphere or capsule reports distance 0 for an origin inside it before looking at maxDistance,
   * so an inside origin is found even when maxDistance is negative.
   */
  function Reach(maxDistance: real, originInside: bool): real {
    if originInside then Max(0.0, maxDistance) else maxDistance
  }
}
