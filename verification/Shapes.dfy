/** The three collider shapes together, and the single stage-to-world mapping that moves them. */
module Shapes {
  import opened Wrappers
  import opened RealMath
  import opened Vectors
  import opened Bases
  import opened Rays
  import opened Boxes
  import opened Segments
  import Spheres
  import Capsules
  import OrientedBoxes

  datatype Shape =
    | Sphere(sphere: Spheres.Sphere)
    | Capsule(capsule: Capsules.Capsule)
    | Obb(obb: OrientedBoxes.Obb)
  {
    predicate Valid() {
      match this
      case Sphere(s) => s.Valid()
      case Capsule(c) => c.Valid()
      case Obb(o) => o.Valid()
    }

    ghost function Points(): iset<Vector3>
      requires Valid()
    {
      match this
      case Sphere(s) => s.Points()
      case Capsule(c) => c.Points()
      case Obb(o) => o.Points()
    }

    function Transform(anchor: Vector3, scale: real): Shape {
      match this
      case Sphere(s) => Sphere(s.Transform(anchor, scale))
      case Capsule(c) => Capsule(c.Transform(anchor, scale))
      case Obb(o) => Obb(o.Transform(anchor, scale))
    }
  }

  /** p_world = anchor + blocksPerMeter * p_stage */
  datatype StageToWorld = StageToWorld(anchor: Vector3, blocksPerMeter: real) {

    predicate Valid() {
      blocksPerMeter > 0.0
    }

    function Point(stageMeters: Vector3): Vector3 {
      anchor.Add(stageMeters.Scale(blocksPerMeter))
    }

    function ToStage(worldBlocks: Vector3): Vector3
      requires Valid()
    {
      worldBlocks.Sub(anchor).Scale(1.0 / blocksPerMeter)
    }

    function MapShape(stage: Shape): Shape {
      stage.Transform(anchor, blocksPerMeter)
    }

    /** Directions do not scale. */
    function MapRay(stage: Ray): Ray {
      Ray(Point(stage.origin), stage.direction)
    }

    function MapHit(hit: Option<RayHit>): Option<RayHit> {
      match hit
      case None => None
      case Some(h) => Some(RayHit(h.distance * blocksPerMeter, Point(h.point)))
    }
  }

  // --- the mapping is a bijection of points ---------------------------------------------------------

  lemma ScaleBack(v: Vector3, s: real, r: real)
    requires s * r == 1.0
    ensures v.Scale(s).Scale(r) == v
  {
    assert v.x * s * r == v.x * (s * r);
    assert v.y * s * r == v.y * (s * r);
    assert v.z * s * r == v.z * (s * r);
  }

  /** Mapping to the world and back is the identity, both ways round. */
  lemma PointRoundTrip(m: StageToWorld, p: Vector3, w: Vector3)
    requires m.Valid()
    ensures m.ToStage(m.Point(p)) == p
    ensures m.Point(m.ToStage(w)) == w
  {
    var s, r := m.blocksPerMeter, 1.0 / m.blocksPerMeter;
    assert s * r == 1.0;
    ScaleBack(p, s, r);
    assert m.Point(p).Sub(m.anchor) == p.Scale(s);
    ScaleBack(w.Sub(m.anchor), r, s);
    assert m.anchor.Add(w.Sub(m.anchor)) == w;
  }

  // --- every shape moves as a set of points -----------------------------------------------------------

  lemma DistanceScales(m: StageToWorld, p: Vector3, q: Vector3)
    ensures m.Point(p).DistanceSquaredTo(m.Point(q)) == m.blocksPerMeter * m.blocksPerMeter * p.DistanceSquaredTo(q)
  {
    var s, d := m.blocksPerMeter, p.Sub(q);
    assert m.Point(p).Sub(m.Point(q)) == d.Scale(s);
    DotScale(d, s, d.Scale(s));
    DotScale(d, s, d);
  }

  lemma SquareScales(s: real, d: real, r: real, d': real, r': real)
    requires s > 0.0 && d' == s * s * d && r' == r * s
    ensures d <= r * r <==> d' <= r' * r'
  {
    var k := PositiveProduct(s, s);
    assert r' * r' == k * (r * r);
    assert d' == k * d;
    if d <= r * r {
      var x := NonNegativeProduct(k, r * r - d);
    } else {
      var x := PositiveProduct(k, d - r * r);
    }
  }

  lemma SphereMoves(m: StageToWorld, s: Spheres.Sphere, p: Vector3)
    requires m.Valid()
    ensures p in s.Points() <==> m.Point(p) in s.Transform(m.anchor, m.blocksPerMeter).Points()
  {
    hide Vector3.DistanceSquaredTo;
    DistanceScales(m, p, s.center);
    var s' := s.Transform(m.anchor, m.blocksPerMeter);
    assert s'.center == m.Point(s.center);
    SquareScales(m.blocksPerMeter, p.DistanceSquaredTo(s.center), s.radius,
                 m.Point(p).DistanceSquaredTo(s'.center), s'.radius);
  }

  lemma LerpMoves(c: real, s: real, a: real, b: real, a': real, b': real, t: real)
    requires a' == c + a * s && b' == c + b * s
    ensures LerpComponent(a', b', t) == c + LerpComponent(a, b, t) * s
  {
    var d := b - a;
    assert b' - a' == d * s;
    assert (d * s) * t == (d * t) * s;
  }

  lemma SegmentMoves(m: StageToWorld, seg: Segment, t: real)
    ensures seg.Transform(m.anchor, m.blocksPerMeter).At(t) == m.Point(seg.At(t))
  {
    var seg' := seg.Transform(m.anchor, m.blocksPerMeter);
    var c, s := m.anchor, m.blocksPerMeter;
    hide LerpComponent;
    LerpMoves(c.x, s, seg.a.x, seg.b.x, seg'.a.x, seg'.b.x, t);
    LerpMoves(c.y, s, seg.a.y, seg.b.y, seg'.a.y, seg'.b.y, t);
    LerpMoves(c.z, s, seg.a.z, seg.b.z, seg'.a.z, seg'.b.z, t);
  }

  lemma CapsuleMoves(m: StageToWorld, c: Capsules.Capsule, p: Vector3)
    requires m.Valid()
    ensures p in c.Points() <==> m.Point(p) in c.Transform(m.anchor, m.blocksPerMeter).Points()
  {
    hide Vector3.DistanceSquaredTo, Segment.At;
    var seg, c' := c.GetSegment(), c.Transform(m.anchor, m.blocksPerMeter);
    var seg' := c'.GetSegment();
    assert seg' == seg.Transform(m.anchor, m.blocksPerMeter);
    forall t
      ensures seg.At(t).DistanceSquaredTo(p) <= c.radius * c.radius
              <==> seg'.At(t).DistanceSquaredTo(m.Point(p)) <= c'.radius * c'.radius
    {
      SegmentMoves(m, seg, t);
      DistanceScales(m, seg.At(t), p);
      SquareScales(m.blocksPerMeter, seg.At(t).DistanceSquaredTo(p), c.radius,
                   seg'.At(t).DistanceSquaredTo(m.Point(p)), c'.radius);
    }
  }

  lemma LocalMoves(m: StageToWorld, o: OrientedBoxes.Obb, p: Vector3)
    requires o.Valid()
    ensures o.Transform(m.anchor, m.blocksPerMeter).ToLocal(m.Point(p)) == o.ToLocal(p).Scale(m.blocksPerMeter)
  {
    var s, o' := m.blocksPerMeter, o.Transform(m.anchor, m.blocksPerMeter);
    var d := p.Sub(o.center);
    assert m.Point(p).Sub(o'.center) == d.Scale(s);
    hide Vector3.Dot, Vector3.Sub;
    DotScale(d, s, o.axes[0]);
    DotScale(d, s, o.axes[1]);
    DotScale(d, s, o.axes[2]);
  }

  lemma TransformedObbValid(m: StageToWorld, o: OrientedBoxes.Obb)
    requires m.Valid() && o.Valid()
    ensures o.Transform(m.anchor, m.blocksPerMeter).Valid()
  {
    hide Orthonormal;
    MulPositive(o.halfExtents.x, m.blocksPerMeter);
    MulPositive(o.halfExtents.y, m.blocksPerMeter);
    MulPositive(o.halfExtents.z, m.blocksPerMeter);
  }

  lemma ObbMoves(m: StageToWorld, o: OrientedBoxes.Obb, p: Vector3)
    requires m.Valid() && o.Valid()
    ensures p in o.Points() <==> m.Point(p) in o.Transform(m.anchor, m.blocksPerMeter).Points()
  {
    var s, o' := m.blocksPerMeter, o.Transform(m.anchor, m.blocksPerMeter);
    TransformedObbValid(m, o);
    OrientedBoxes.PointsInLocalFrame(o, p);
    OrientedBoxes.PointsInLocalFrame(o', m.Point(p));
    LocalMoves(m, o, p);
    var l, h := o.ToLocal(p), o.halfExtents;
    hide OrientedBoxes.Obb.ToLocal, OrientedBoxes.Obb.Valid, OrientedBoxes.Obb.Points;
    BoxScales(l, h, s);
    assert o'.LocalBox() == Aabb(h.Scale(s).Scale(-1.0), h.Scale(s));
  }

  lemma WithinScales(l: real, h: real, s: real, l': real, h': real)
    requires s > 0.0 && l' == l * s && h' == h * s
    ensures -h <= l <= h <==> -h' <= l' <= h'
  {
    if -h <= l <= h {
      var x := NonNegativeProduct(h - l, s);
      var y := NonNegativeProduct(l + h, s);
    } else if l > h {
      var x := PositiveProduct(l - h, s);
    } else {
      var x := PositiveProduct(-h - l, s);
    }
  }

  lemma BoxScales(l: Vector3, h: Vector3, s: real)
    requires s > 0.0
    ensures Aabb(h.Scale(-1.0), h).Contains(l)
            <==> Aabb(h.Scale(s).Scale(-1.0), h.Scale(s)).Contains(l.Scale(s))
  {
    var l', h' := l.Scale(s), h.Scale(s);
    WithinScales(l.x, h.x, s, l'.x, h'.x);
    WithinScales(l.y, h.y, s, l'.y, h'.y);
    WithinScales(l.z, h.z, s, l'.z, h'.z);
  }

  /** A stage point is in a shape exactly when its world image is in the mapped shape. */
  lemma ShapeMoves(m: StageToWorld, shape: Shape, p: Vector3)
    requires m.Valid() && shape.Valid()
    ensures m.MapShape(shape).Valid()
    ensures p in shape.Points() <==> m.Point(p) in m.MapShape(shape).Points()
  {
    match shape
    case Sphere(s) =>
      SphereMoves(m, s, p);
      MulPositive(s.radius, m.blocksPerMeter);
    case Capsule(c) =>
      CapsuleMoves(m, c, p);
      MulPositive(c.radius, m.blocksPerMeter);
    case Obb(o) =>
      ObbMoves(m, o, p);
      MulPositive(o.halfExtents.x, m.blocksPerMeter);
      MulPositive(o.halfExtents.y, m.blocksPerMeter);
      MulPositive(o.halfExtents.z, m.blocksPerMeter);
  }

  // --- so hits move with them ---------------------------------------------------------------------------

  lemma MoveAlong(c: real, a: real, d: real, s: real, t: real)
    ensures (c + a * s) + d * (t * s) == c + (a + d * t) * s
  {
  }

  lemma RayMoves(m: StageToWorld, ray: Ray, t: real, u: real)
    requires u == t * m.blocksPerMeter
    ensures m.MapRay(ray).At(u) == m.Point(ray.At(t))
  {
    var l, r := m.MapRay(ray).At(u), m.Point(ray.At(t));
    MoveAlong(m.anchor.x, ray.origin.x, ray.direction.x, m.blocksPerMeter, t);
    assert l.x == r.x;
    MoveAlong(m.anchor.y, ray.origin.y, ray.direction.y, m.blocksPerMeter, t);
    assert l.y == r.y;
    MoveAlong(m.anchor.z, ray.origin.z, ray.direction.z, m.blocksPerMeter, t);
    assert l.z == r.z;
  }

  /** `image` is `solid` moved into the world. */
  ghost predicate Moves(m: StageToWorld, solid: iset<Vector3>, image: iset<Vector3>) {
    forall p :: p in solid <==> m.Point(p) in image
  }

  lemma MembershipAlong(m: StageToWorld, solid: iset<Vector3>, image: iset<Vector3>, ray: Ray, t: real, u: real)
    requires Moves(m, solid, image) && u == t * m.blocksPerMeter
    ensures ray.At(t) in solid <==> m.MapRay(ray).At(u) in image
  {
    hide Ray.At, StageToWorld.Point;
    RayMoves(m, ray, t, u);
  }

  /** Every world parameter comes from a stage parameter, with the same membership and the same order against d. */
  lemma Unscale(m: StageToWorld, solid: iset<Vector3>, image: iset<Vector3>, ray: Ray, u: real, d: real) returns (t: real)
    requires m.Valid() && Moves(m, solid, image) && u >= 0.0
    ensures t >= 0.0
    ensures ray.At(t) in solid <==> m.MapRay(ray).At(u) in image
    ensures u < d * m.blocksPerMeter ==> t < d
    ensures u <= d * m.blocksPerMeter ==> t <= d
  {
    hide Ray.At, Moves;
    var s := m.blocksPerMeter;
    t := u / s;
    DivBounds(u, s);
    assert t * s == u;
    MembershipAlong(m, solid, image, ray, t, u);
    if t > d {
      var x := PositiveProduct(t - d, s);
    }
    if t >= d {
      var y := NonNegativeProduct(t - d, s);
    }
  }

  /** The exact answer for the image is the exact answer for the solid with its distance multiplied by the scale. */
  lemma SolidHitMoves(m: StageToWorld, solid: iset<Vector3>, image: iset<Vector3>, ray: Ray, reach: real, hit: Option<RayHit>)
    requires m.Valid() && Moves(m, solid, image)
    requires IsExactHit(solid, ray, reach, hit)
    ensures IsExactHit(image, m.MapRay(ray), reach * m.blocksPerMeter, m.MapHit(hit))
  {
    hide Ray.At, Moves, StageToWorld.Point;
    match hit
    case None =>
      forall u | 0.0 <= u <= reach * m.blocksPerMeter
        ensures m.MapRay(ray).At(u) !in image
      {
        var t := Unscale(m, solid, image, ray, u, reach);
      }
    case Some(h) =>
      var e := NonNegativeProduct(h.distance, m.blocksPerMeter);
      var slack := NonNegativeProduct(reach - h.distance, m.blocksPerMeter);
      MembershipAlong(m, solid, image, ray, h.distance, e);
      RayMoves(m, ray, h.distance, e);
      var mapped := m.MapHit(hit).value;
      assert mapped.distance == e && mapped.point == m.MapRay(ray).At(e);
      forall u | 0.0 <= u < e
        ensures m.MapRay(ray).At(u) !in image
      {
        var t := Unscale(m, solid, image, ray, u, h.distance);
      }
  }

  /** So for every collider shape. */
  lemma ExactHitMoves(m: StageToWorld, shape: Shape, ray: Ray, reach: real, hit: Option<RayHit>)
    requires m.Valid() && shape.Valid()
    requires IsExactHit(shape.Points(), ray, reach, hit)
    ensures m.MapShape(shape).Valid()
    ensures IsExactHit(m.MapShape(shape).Points(), m.MapRay(ray), reach * m.blocksPerMeter, m.MapHit(hit))
  {
    hide Shape.Points, StageToWorld.MapShape, StageToWorld.Point, IsExactHit;
    ShapeMoves(m, shape, ray.origin);
    forall p
      ensures p in shape.Points() <==> m.Point(p) in m.MapShape(shape).Points()
    {
      ShapeMoves(m, shape, p);
    }
    SolidHitMoves(m, shape.Points(), m.MapShape(shape).Points(), ray, reach, hit);
  }

  lemma CornerOrder(c: real, s: real, lo: real, x: real, hi: real, lo': real, x': real, hi': real)
    requires s > 0.0 && lo' == c + lo * s && x' == c + x * s && hi' == c + hi * s
    ensures lo <= x <= hi <==> lo' <= x' <= hi'
  {
    SameSide(s, lo, x);
    SameSide(s, x, hi);
  }

  lemma PointAt(m: StageToWorld, p: Vector3)
    ensures m.Point(p).x == m.anchor.x + p.x * m.blocksPerMeter
    ensures m.Point(p).y == m.anchor.y + p.y * m.blocksPerMeter
    ensures m.Point(p).z == m.anchor.z + p.z * m.blocksPerMeter
  {
  }

  lemma BoxMoves(m: StageToWorld, box: Aabb, p: Vector3)
    requires m.Valid()
    ensures box.Contains(p) <==> Aabb(m.Point(box.min), m.Point(box.max)).Contains(m.Point(p))
  {
    hide StageToWorld.Point;
    PointAt(m, box.min);
    PointAt(m, p);
    PointAt(m, box.max);
    var lo, q, hi := m.Point(box.min), m.Point(p), m.Point(box.max);
    CornerOrder(m.anchor.x, m.blocksPerMeter, box.min.x, p.x, box.max.x, lo.x, q.x, hi.x);
    CornerOrder(m.anchor.y, m.blocksPerMeter, box.min.y, p.y, box.max.y, lo.y, q.y, hi.y);
    CornerOrder(m.anchor.z, m.blocksPerMeter, box.min.z, p.z, box.max.z, lo.z, q.z, hi.z);
  }

  /** And for an axis-aligned box with its corners mapped. */
  lemma BoxHitMoves(m: StageToWorld, box: Aabb, ray: Ray, reach: real, hit: Option<RayHit>)
    requires m.Valid() && IsExactHit(box.Points(), ray, reach, hit)
    ensures IsExactHit(Aabb(m.Point(box.min), m.Point(box.max)).Points(), m.MapRay(ray), reach * m.blocksPerMeter, m.MapHit(hit))
  {
    hide IsExactHit, StageToWorld.Point, Aabb.Contains;
    var image := Aabb(m.Point(box.min), m.Point(box.max));
    forall p
      ensures p in box.Points() <==> m.Point(p) in image.Points()
    {
      BoxMoves(m, box, p);
    }
    SolidHitMoves(m, box.Points(), image.Points(), ray, reach, hit);
  }

  // --- the slab tests' own answers, flushed components included -------------------------------------------------

  function ScaledDistance(m: StageToWorld, hit: Option<real>): Option<real> {
    match hit
    case None => None
    case Some(t) => Some(t * m.blocksPerMeter)
  }

  lemma ScaledHit(m: StageToWorld, h: RayHit, e: real)
    requires e == h.distance * m.blocksPerMeter
    ensures m.MapHit(Some(h)) == Some(RayHit(e, m.Point(h.point)))
  {
    hide StageToWorld.Point;
    assert m.MapHit(Some(h)).value.distance == e;
  }

  lemma FlushMoves(m: StageToWorld, ray: Ray)
    ensures Flush(m.MapRay(ray)) == m.MapRay(Flush(ray))
  {
  }

  lemma FlushedHitMoves(m: StageToWorld, box: Aabb, ray: Ray, reach: real, hit: Option<RayHit>,
                        image: Aabb, moved: Ray, far: real, mapped: Option<RayHit>)
    requires m.Valid() && image == Aabb(m.Point(box.min), m.Point(box.max)) && moved == m.MapRay(ray)
    requires far == reach * m.blocksPerMeter
    requires IsExactHit(box.Points(), Flush(ray), reach, hit) && IsExactHit(image.Points(), Flush(moved), far, mapped)
    ensures mapped == m.MapHit(hit)
  {
    hide IsExactHit, StageToWorld.Point, Flush, Aabb.Points;
    FlushMoves(m, ray);
    BoxHitMoves(m, box, Flush(ray), reach, hit);
    ExactHitUnique(image.Points(), Flush(moved), far, m.MapHit(hit), mapped);
  }

  /** Whatever the slab test answers for a ray, tiny components or not, it answers scaled for the mapped ray and box. */
  lemma SlabAnswerMoves(m: StageToWorld, box: Aabb, ray: Ray, reach: real, hit: Option<real>, mapped: Option<real>)
    requires m.Valid()
    requires IsExactHit(box.Points(), Flush(ray), reach, AsRayHit(Flush(ray), hit))
    requires var image, moved := Aabb(m.Point(box.min), m.Point(box.max)), Flush(m.MapRay(ray));
             IsExactHit(image.Points(), moved, reach * m.blocksPerMeter, AsRayHit(moved, mapped))
    ensures mapped == ScaledDistance(m, hit)
  {
    var image, moved := Aabb(m.Point(box.min), m.Point(box.max)), m.MapRay(ray);
    FlushedHitMoves(m, box, ray, reach, AsRayHit(Flush(ray), hit), image, moved, reach * m.blocksPerMeter,
                    AsRayHit(Flush(moved), mapped));
    hide IsExactHit, StageToWorld.Point, Flush, Aabb.Points, Ray.At;
    if hit.Some? {
      ScaledHit(m, RayHit(hit.value, Flush(ray).At(hit.value)), hit.value * m.blocksPerMeter);
      assert ScaledDistance(m, hit).value == hit.value * m.blocksPerMeter;
    }
  }

  lemma OffsetScales(m: StageToWorld, p: Vector3, c: Vector3)
    ensures m.Point(p).Sub(m.Point(c)) == p.Sub(c).Scale(m.blocksPerMeter)
  {
  }

  lemma LocalFrameMoves(m: StageToWorld, obb: OrientedBoxes.Obb, ray: Ray)
    requires obb.Valid() && m.Valid()
    ensures var image, local := obb.Transform(m.anchor, m.blocksPerMeter), StageToWorld(ZERO, m.blocksPerMeter);
            && image.LocalBox() == Aabb(local.Point(obb.LocalBox().min), local.Point(obb.LocalBox().max))
            && OrientedBoxes.LocalRay(image, m.MapRay(ray)) == local.MapRay(OrientedBoxes.LocalRay(obb, ray))
  {
    hide Orthonormal, Vector3.Dot;
    var s, image := m.blocksPerMeter, obb.Transform(m.anchor, m.blocksPerMeter);
    var w := ray.origin.Sub(obb.center);
    OffsetScales(m, ray.origin, obb.center);
    assert image.center == m.Point(obb.center);
    hide Vector3.Sub;
    DotScale(w, s, obb.axes[0]);
    DotScale(w, s, obb.axes[1]);
    DotScale(w, s, obb.axes[2]);
  }

  /** The same for an oriented box, whose slab test runs in its own frame. */
  lemma OrientedAnswerMoves(m: StageToWorld, obb: OrientedBoxes.Obb, ray: Ray, reach: real,
                            hit: Option<RayHit>, mapped: Option<RayHit>)
    requires m.Valid() && obb.Valid()
    requires IsExactHit(obb.LocalBox().Points(), Flush(OrientedBoxes.LocalRay(obb, ray)), reach, hit)
    requires var image := obb.Transform(m.anchor, m.blocksPerMeter);
             IsExactHit(image.LocalBox().Points(), Flush(OrientedBoxes.LocalRay(image, m.MapRay(ray))),
                        reach * m.blocksPerMeter, mapped)
    ensures OrientedBoxes.AsWorldHit(m.MapRay(ray), mapped) == m.MapHit(OrientedBoxes.AsWorldHit(ray, hit))
  {
    hide IsExactHit, StageToWorld.Point, Flush, Aabb.Points, Orthonormal, Ray.At, OrientedBoxes.LocalRay;
    var image, local := obb.Transform(m.anchor, m.blocksPerMeter), StageToWorld(ZERO, m.blocksPerMeter);
    LocalFrameMoves(m, obb, ray);
    FlushedHitMoves(local, obb.LocalBox(), OrientedBoxes.LocalRay(obb, ray), reach, hit, image.LocalBox(),
                    OrientedBoxes.LocalRay(image, m.MapRay(ray)), reach * m.blocksPerMeter, mapped);
    if hit.Some? {
      var t := hit.value.distance;
      var e := t * m.blocksPerMeter;
      ScaledHit(local, hit.value, e);
      ScaledHit(m, RayHit(t, ray.At(t)), e);
      RayMoves(m, ray, t, e);
    }
  }
}
