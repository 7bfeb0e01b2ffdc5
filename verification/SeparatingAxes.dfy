/** The fifteen-axis overlap test between an oriented box and an axis-aligned box. */
module SeparatingAxes {
  import opened RealMath
  import opened Vectors
  import opened Bases
  import opened Boxes
  import opened OrientedBoxes
  import opened CommonPoints
  import opened SlabTriples

  const BOX_AXES: seq<Vector3> := [UNIT_X, UNIT_Y, UNIT_Z]

  /** Half the length of the projection of a box with these axes and half extents onto `axis`, over the first n axes. */
  function Radius(axes: seq<Vector3>, half: Vector3, axis: Vector3, n: nat): real
    requires |axes| == 3 && n <= 3
  {
    if n == 0 then 0.0 else Radius(axes, half, axis, n - 1) + Abs(axes[n - 1].Dot(axis)) * half.Component(n - 1)
  }

  /** Projected centres `delta` apart leave a gap wider than the tolerance (measured in units of |axis|). */
  predicate Gap(obb: Obb, axis: Vector3, delta: Vector3, boxHalf: Vector3)
    requires |obb.axes| == 3
  {
    Abs(delta.Dot(axis)) > Radius(BOX_AXES, boxHalf, axis, 3) + Radius(obb.axes, obb.halfExtents, axis, 3) + EPSILON
  }

  /** `axis` separates the two boxes. */
  predicate SeparatedBy(obb: Obb, box: Aabb, axis: Vector3)
    requires |obb.axes| == 3
  {
    Gap(obb, axis, obb.center.Sub(box.Center()), box.HalfExtents())
  }

  /** One of the nine edge-against-edge axes, kept unless the edges are nearly parallel. */
  predicate IsEdgeAxis(obb: Obb, axis: Vector3)
    requires |obb.axes| == 3
  {
    exists i, j | 0 <= i < 3 && 0 <= j < 3 :: axis == BOX_AXES[i].Cross(obb.axes[j]) && axis.LengthSquared() >= EPSILON
  }

  predicate IsTestedAxis(obb: Obb, axis: Vector3)
    requires |obb.axes| == 3
  {
    axis in BOX_AXES || axis in obb.axes || IsEdgeAxis(obb, axis)
  }

  // --- soundness: a gap on any axis at all means no shared point ---------------------------------

  lemma ScaledWithin(l: real, h: real, m: real)
    requires -h <= l <= h
    ensures Abs(l * m) <= Abs(m) * h
  {
    AbsMul(l, m);
    MulMonotone(Abs(l), h, Abs(m));
  }

  lemma TermsWithin(l: Vector3, half: Vector3, p: real, q: real, r: real, sum: real)
    requires -half.x <= l.x <= half.x && -half.y <= l.y <= half.y && -half.z <= l.z <= half.z
    requires sum == l.x * p + l.y * q + l.z * r
    ensures Abs(sum) <= Abs(p) * half.x + Abs(q) * half.y + Abs(r) * half.z
  {
    ScaledWithin(l.x, half.x, p);
    ScaledWithin(l.y, half.y, q);
    ScaledWithin(l.z, half.z, r);
    SumWithin(l.x * p, l.y * q, l.z * r, Abs(p) * half.x, Abs(q) * half.y, Abs(r) * half.z);
  }

  lemma SumWithin(a: real, b: real, c: real, ra: real, rb: real, rc: real)
    requires Abs(a) <= ra && Abs(b) <= rb && Abs(c) <= rc
    ensures Abs(a + b + c) <= ra + rb + rc
  {
  }

  lemma RadiusUnrolled(axes: seq<Vector3>, half: Vector3, axis: Vector3)
    requires |axes| == 3
    ensures Radius(axes, half, axis, 3)
            == Abs(axes[0].Dot(axis)) * half.x + Abs(axes[1].Dot(axis)) * half.y + Abs(axes[2].Dot(axis)) * half.z
  {
    hide Vector3.Dot, Abs;
    assert Radius(axes, half, axis, 1) == Abs(axes[0].Dot(axis)) * half.x;
    assert Radius(axes, half, axis, 2) == Abs(axes[0].Dot(axis)) * half.x + Abs(axes[1].Dot(axis)) * half.y;
  }

  /** Three axes' worth of coordinates within the half extents project within the radius. */
  lemma CombineWithin(axes: seq<Vector3>, half: Vector3, l: Vector3, axis: Vector3)
    requires |axes| == 3
    requires -half.x <= l.x <= half.x && -half.y <= l.y <= half.y && -half.z <= l.z <= half.z
    ensures Abs(Combine(axes[0], axes[1], axes[2], l).Dot(axis)) <= Radius(axes, half, axis, 3)
  {
    hide Vector3.Dot, Combine, Radius, Abs;
    CombineDot(axes[0], axes[1], axes[2], l, axis);
    TermsWithin(l, half, axes[0].Dot(axis), axes[1].Dot(axis), axes[2].Dot(axis),
                Combine(axes[0], axes[1], axes[2], l).Dot(axis));
    RadiusUnrolled(axes, half, axis);
  }

  lemma ObbProjection(obb: Obb, p: Vector3, axis: Vector3)
    requires obb.Valid() && p in obb.Points()
    ensures Abs(p.Sub(obb.center).Dot(axis)) <= Radius(obb.axes, obb.halfExtents, axis, 3)
  {
    var l :| obb.LocalBox().Contains(l) && p == obb.ToWorld(l);
    ToWorldCombines(obb, l);
    CombineWithin(obb.axes, obb.halfExtents, l, axis);
  }

  lemma BoxProjection(box: Aabb, p: Vector3, axis: Vector3)
    requires box.Valid() && p in box.Points()
    ensures Abs(p.Sub(box.Center()).Dot(axis)) <= Radius(BOX_AXES, box.HalfExtents(), axis, 3)
  {
    var l := p.Sub(box.Center());
    CombineWithin(BOX_AXES, box.HalfExtents(), l, axis);
    UnitCombine(l);
  }

  lemma UnitCombine(l: Vector3)
    ensures Combine(UNIT_X, UNIT_Y, UNIT_Z, l) == l
  {
  }

  /** The projections onto the axis do not touch. */
  predicate Apart(obb: Obb, box: Aabb, axis: Vector3)
    requires |obb.axes| == 3
  {
    Abs(obb.center.Sub(box.Center()).Dot(axis))
    > Radius(BOX_AXES, box.HalfExtents(), axis, 3) + Radius(obb.axes, obb.halfExtents, axis, 3)
  }

  lemma ApartMeansDisjoint(obb: Obb, box: Aabb, axis: Vector3)
    requires obb.Valid() && box.Valid()
    requires Apart(obb, box, axis)
    ensures obb.Points() !! box.Points()
  {
    forall p | p in obb.Points() && p in box.Points()
      ensures false
    {
      ObbProjection(obb, p, axis);
      BoxProjection(box, p, axis);
      var u, v, w := obb.center.Sub(box.Center()), p.Sub(obb.center), p.Sub(box.Center());
      assert u == w.Sub(v);
      DotSub(w, v, axis);
      AbsTriangle(w.Dot(axis), v.Dot(axis));
    }
  }

  /** A gap between the projections onto one axis keeps the solids apart. */
  lemma SeparatedMeansDisjoint(obb: Obb, box: Aabb, axis: Vector3)
    requires obb.Valid() && box.Valid()
    requires SeparatedBy(obb, box, axis)
    ensures obb.Points() !! box.Points()
  {
    assert Apart(obb, box, axis) by { hide Radius, Vector3.Dot; }
    ApartMeansDisjoint(obb, box, axis);
  }

  // --- completeness: fifteen axes without a gap mean a shared point -----------------------------------

  function BoxSlabs(box: Aabb): (s: seq<Slab>)
    ensures |s| == 3
  {
    var c, h := box.Center(), box.HalfExtents();
    [Slab(UNIT_X, c.x, h.x), Slab(UNIT_Y, c.y, h.y), Slab(UNIT_Z, c.z, h.z)]
  }

  function ObbSlabs(obb: Obb): (s: seq<Slab>)
    requires |obb.axes| == 3
    ensures |s| == 3
  {
    var a, c, h := obb.axes, obb.center, obb.halfExtents;
    [Slab(a[0], a[0].Dot(c), h.x), Slab(a[1], a[1].Dot(c), h.y), Slab(a[2], a[2].Dot(c), h.z)]
  }

  lemma UnitsOrthonormal()
    ensures Orthonormal(UNIT_X, UNIT_Y, UNIT_Z)
  {
  }

  lemma BoxTriple(box: Aabb)
    requires box.Valid()
    ensures Triple(BoxSlabs(box))
  {
    hide Orthonormal;
    UnitsOrthonormal();
  }

  lemma ObbTriple(obb: Obb)
    requires obb.Valid()
    ensures Triple(ObbSlabs(obb))
  {
    hide Vector3.Dot, Vector3.LengthSquared;
  }

  lemma InBoxSlabs(box: Aabb, p: Vector3)
    requires box.Valid()
    ensures var s := BoxSlabs(box);
            s[0].Contains(p) && s[1].Contains(p) && s[2].Contains(p) ==> p in box.Points()
  {
  }

  lemma InObbSlabs(obb: Obb, p: Vector3)
    requires obb.Valid()
    ensures var s := ObbSlabs(obb);
            s[0].Contains(p) && s[1].Contains(p) && s[2].Contains(p) ==> p in obb.Points()
  {
    PointsInLocalFrame(obb, p);
    var a := obb.axes;
    DotSub(p, obb.center, a[0]);
    DotSub(p, obb.center, a[1]);
    DotSub(p, obb.center, a[2]);
    DotCommutes(p, a[0]);
    DotCommutes(p, a[1]);
    DotCommutes(p, a[2]);
    DotCommutes(obb.center, a[0]);
    DotCommutes(obb.center, a[1]);
    DotCommutes(obb.center, a[2]);
    hide Vector3.Dot, Orthonormal, Obb.Points;
  }

  lemma BoxCentre(box: Aabb, n: Vector3)
    ensures Centre(BoxSlabs(box), n) == n.Dot(box.Center())
    ensures Reach(BoxSlabs(box), n) == Radius(BOX_AXES, box.HalfExtents(), n, 3)
  {
    DotCommutes(n, UNIT_X);
    DotCommutes(n, UNIT_Y);
    DotCommutes(n, UNIT_Z);
    RadiusUnrolled(BOX_AXES, box.HalfExtents(), n);
    assert n.Dot(UNIT_X) == n.x && n.Dot(UNIT_Y) == n.y && n.Dot(UNIT_Z) == n.z;
  }

  lemma ObbCentre(obb: Obb, n: Vector3)
    requires obb.Valid()
    ensures Centre(ObbSlabs(obb), n) == n.Dot(obb.center)
  {
    hide Vector3.Dot, Orthonormal;
    ObbTriple(obb);
    ExpandDot(ObbSlabs(obb), n, obb.center);
  }

  lemma ObbReach(obb: Obb, n: Vector3)
    requires |obb.axes| == 3
    ensures Reach(ObbSlabs(obb), n) == Radius(obb.axes, obb.halfExtents, n, 3)
  {
    hide Vector3.Dot, Radius, Abs;
    var a := obb.axes;
    DotCommutes(n, a[0]);
    DotCommutes(n, a[1]);
    DotCommutes(n, a[2]);
    RadiusUnrolled(a, obb.halfExtents, n);
  }

  lemma TouchIsNotApart(obb: Obb, box: Aabb, n: Vector3)
    requires obb.Valid() && box.Valid()
    ensures Touch(BoxSlabs(box), ObbSlabs(obb), n) <==> !Apart(obb, box, n)
  {
    hide Vector3.Dot, Vector3.Sub, Aabb.Center, Orthonormal, Radius, Centre, Reach, BoxSlabs, ObbSlabs;
    BoxCentre(box, n);
    ObbCentre(obb, n);
    ObbReach(obb, n);
    DotSub(obb.center, box.Center(), n);
    DotCommutes(obb.center, n);
    DotCommutes(box.Center(), n);
  }

  /** The axes a complete test has to look at: both boxes' own and all products of two edges. */
  predicate IsCandidateAxis(obb: Obb, axis: Vector3)
    requires |obb.axes| == 3
  {
    axis in BOX_AXES || axis in obb.axes || exists a, b | a in BOX_AXES && b in obb.axes :: axis == a.Cross(b)
  }

  lemma SlabNormals(obb: Obb, box: Aabb)
    requires |obb.axes| == 3
    ensures forall s | s in BoxSlabs(box) :: s.normal in BOX_AXES
    ensures forall s | s in ObbSlabs(obb) :: s.normal in obb.axes
  {
  }

  lemma NoneApartTouch(obb: Obb, box: Aabb)
    requires obb.Valid() && box.Valid()
    requires forall axis | IsCandidateAxis(obb, axis) :: !Apart(obb, box, axis)
    ensures AllTouch(BoxSlabs(box), ObbSlabs(obb))
  {
    hide Apart, Touch, Vector3.Cross, BoxSlabs, ObbSlabs, Orthonormal;
    forall n
      ensures Touch(BoxSlabs(box), ObbSlabs(obb), n) <==> !Apart(obb, box, n)
    {
      TouchIsNotApart(obb, box, n);
    }
    SlabNormals(obb, box);
  }

  /** The solids share a point exactly when no candidate axis keeps their projections apart. */
  lemma FifteenAxesSuffice(obb: Obb, box: Aabb)
    requires obb.Valid() && box.Valid()
    ensures (forall axis | IsCandidateAxis(obb, axis) :: !Apart(obb, box, axis))
            <==> exists p :: p in obb.Points() && p in box.Points()
  {
    hide Apart, IsCandidateAxis, Obb.Points, Aabb.Points, Orthonormal, Slab.Contains, BoxSlabs, ObbSlabs, AllTouch;
    if forall axis | IsCandidateAxis(obb, axis) :: !Apart(obb, box, axis) {
      NoneApartTouch(obb, box);
      BoxTriple(box);
      ObbTriple(obb);
      var p := SixMeet(BoxSlabs(box), ObbSlabs(obb));
      InBoxSlabs(box, p);
      InObbSlabs(obb, p);
    } else {
      var axis :| IsCandidateAxis(obb, axis) && Apart(obb, box, axis);
      ApartMeansDisjoint(obb, box, axis);
    }
  }

  // --- the test ------------------------------------------------------------------------------------

  method Separated(obb: Obb, axis: Vector3, delta: Vector3, boxHalf: Vector3) returns (r: bool)
    requires |obb.axes| == 3
    ensures r <==> Gap(obb, axis, delta, boxHalf)
  {
    var distance := Abs(delta.Dot(axis));
    var boxRadius := 0.0;
    for i := 0 to 3
      invariant boxRadius == Radius(BOX_AXES, boxHalf, axis, i)
    {
      boxRadius := boxRadius + Abs(BOX_AXES[i].Dot(axis)) * boxHalf.Component(i);
    }
    var obbRadius := 0.0;
    for i := 0 to 3
      invariant obbRadius == Radius(obb.axes, obb.halfExtents, axis, i)
    {
      obbRadius := obbRadius + Abs(obb.axes[i].Dot(axis)) * obb.halfExtents.Component(i);
    }
    r := distance > boxRadius + obbRadius + EPSILON;
  }

  // By how much a box has to grow for the tolerance and the scale of the axes not to matter: its square is at least EPSILON.
  const GROWTH: real := 0.00003163

  /** The axis of two nearly parallel edges, left out of the test, keeps the projections apart. */
  predicate SkippedApart(obb: Obb, box: Aabb)
    requires |obb.axes| == 3
  {
    exists a, b | a in BOX_AXES && b in obb.axes :: a.Cross(b).LengthSquared() < EPSILON && Apart(obb, box, a.Cross(b))
  }

  lemma GrownBox(box: Aabb)
    requires box.Valid()
    ensures box.Inflate(GROWTH).Valid() && box.Inflate(GROWTH).Center() == box.Center()
    ensures box.Inflate(GROWTH).HalfExtents() == box.HalfExtents().Add(Vector3(GROWTH, GROWTH, GROWTH))
  {
  }

  lemma AbsSum(n: Vector3) returns (s: real)
    ensures s == Abs(n.x) + Abs(n.y) + Abs(n.z) && s >= 0.0 && n.LengthSquared() <= s * s
  {
    var x, y, z := Abs(n.x), Abs(n.y), Abs(n.z);
    s := x + y + z;
    AbsMul(n.x, n.x);
    AbsMul(n.y, n.y);
    AbsMul(n.z, n.z);
    assert n.LengthSquared() == x * x + y * y + z * z;
    var p := NonNegativeProduct(x, y);
    var q := NonNegativeProduct(x, z);
    var r := NonNegativeProduct(y, z);
    assert s * s == x * x + y * y + z * z + 2.0 * p + 2.0 * q + 2.0 * r;
  }

  lemma GrowthCovers(s: real)
    requires s >= 0.0 && s * s >= EPSILON
    ensures GROWTH * s >= EPSILON
  {
    if s < 0.00003162 {
      SquareStrictlyMonotone(s, 0.00003162);
    }
  }

  lemma UnitDots(n: Vector3)
    ensures UNIT_X.Dot(n) == n.x && UNIT_Y.Dot(n) == n.y && UNIT_Z.Dot(n) == n.z
  {
  }

  lemma GrownTerm(a: real, h: real) returns (t: real, g: real)
    ensures t == a * h && g == GROWTH * a && a * (h + GROWTH) == t + g
  {
    t, g := a * h, GROWTH * a;
  }

  lemma BoxRadius(half: Vector3, n: Vector3)
    ensures Radius(BOX_AXES, half, n, 3) == Abs(n.x) * half.x + Abs(n.y) * half.y + Abs(n.z) * half.z
  {
    hide Vector3.Dot, Radius, Abs;
    RadiusUnrolled(BOX_AXES, half, n);
    UnitDots(n);
  }

  lemma GrownRadius(half: Vector3, n: Vector3, s: real)
    requires s == Abs(n.x) + Abs(n.y) + Abs(n.z)
    ensures Radius(BOX_AXES, half.Add(Vector3(GROWTH, GROWTH, GROWTH)), n, 3) == Radius(BOX_AXES, half, n, 3) + GROWTH * s
  {
    hide Radius, Abs;
    BoxRadius(half, n);
    BoxRadius(half.Add(Vector3(GROWTH, GROWTH, GROWTH)), n);
    var t, g := GrownTerm(Abs(n.x), half.x);
    var u, h := GrownTerm(Abs(n.y), half.y);
    var v, i := GrownTerm(Abs(n.z), half.z);
    assert GROWTH * s == g + h + i;
  }

  /** An axis of some length that does not separate within the tolerance does not keep the grown box apart. */
  lemma NotSeparatedTouches(obb: Obb, box: Aabb, axis: Vector3)
    requires obb.Valid() && box.Valid() && axis.LengthSquared() >= EPSILON && !SeparatedBy(obb, box, axis)
    ensures !Apart(obb, box.Inflate(GROWTH), axis)
  {
    hide Radius, Vector3.Dot, Aabb.Inflate, Aabb.Center, Aabb.HalfExtents, Vector3.LengthSquared;
    GrownBox(box);
    var s := AbsSum(axis);
    GrownRadius(box.HalfExtents(), axis, s);
    GrowthCovers(s);
  }

  lemma AxisLength(obb: Obb, axis: Vector3)
    requires obb.Valid() && (axis in BOX_AXES || axis in obb.axes)
    ensures axis.LengthSquared() == 1.0
  {
  }

  lemma CandidateTestedOrShort(obb: Obb, axis: Vector3)
    requires obb.Valid() && IsCandidateAxis(obb, axis)
    ensures (IsTestedAxis(obb, axis) && axis.LengthSquared() >= EPSILON)
            || exists a, b | a in BOX_AXES && b in obb.axes :: axis == a.Cross(b) && a.Cross(b).LengthSquared() < EPSILON
  {
    hide Orthonormal, Vector3.Cross, Vector3.LengthSquared;
    if axis in BOX_AXES || axis in obb.axes {
      AxisLength(obb, axis);
    } else {
      var a, b :| a in BOX_AXES && b in obb.axes && axis == a.Cross(b);
      var i :| 0 <= i < 3 && BOX_AXES[i] == a;
      var j :| 0 <= j < 3 && obb.axes[j] == b;
      assert axis == BOX_AXES[i].Cross(obb.axes[j]);
    }
  }

  /** Without a gap on a tested axis, the grown box meets the other exactly unless an axis left out keeps it apart. */
  lemma ClearMeansNear(obb: Obb, box: Aabb)
    requires obb.Valid() && box.Valid()
    requires forall axis | IsTestedAxis(obb, axis) :: !SeparatedBy(obb, box, axis)
    ensures (exists p :: p in obb.Points() && p in box.Inflate(GROWTH).Points()) <==> !SkippedApart(obb, box.Inflate(GROWTH))
  {
    var grown := box.Inflate(GROWTH);
    GrownBox(box);
    hide Apart, SeparatedBy, Obb.Points, Aabb.Points, Orthonormal, Vector3.Cross, Vector3.LengthSquared, Aabb.Inflate, Aabb.Valid,
         IsTestedAxis;
    if !SkippedApart(obb, grown) {
      forall axis | IsCandidateAxis(obb, axis)
        ensures !Apart(obb, grown, axis)
      {
        CandidateTestedOrShort(obb, axis);
        if IsTestedAxis(obb, axis) && axis.LengthSquared() >= EPSILON {
          NotSeparatedTouches(obb, box, axis);
        }
      }
    } else {
      var a, b :| a in BOX_AXES && b in obb.axes && a.Cross(b).LengthSquared() < EPSILON && Apart(obb, grown, a.Cross(b));
      assert IsCandidateAxis(obb, a.Cross(b));
    }
    FifteenAxesSuffice(obb, grown);
  }

  /**
   * False exactly when some tested axis separates; and then the two solids share no point. When it is true they share one,
   * once the axis-aligned box is grown by what the tolerance allows, exactly unless an axis left out keeps them apart.
   */
  method Overlaps(obb: Obb, box: Aabb) returns (r: bool)
    requires obb.Valid() && box.Valid()
    ensures !r <==> exists axis :: IsTestedAxis(obb, axis) && SeparatedBy(obb, box, axis)
    ensures !r ==> obb.Points() !! box.Points()
    ensures r ==> ((exists p :: p in obb.Points() && p in box.Inflate(GROWTH).Points())
                   <==> !SkippedApart(obb, box.Inflate(GROWTH)))
  {
    hide Gap, SkippedApart, Aabb.Inflate;
    var boxHalf := box.HalfExtents();
    var delta := obb.center.Sub(box.Center());
    for i := 0 to 3
      invariant forall k | 0 <= k < i :: !SeparatedBy(obb, box, BOX_AXES[k])
    {
      var s := Separated(obb, BOX_AXES[i], delta, boxHalf);
      if s {
        SeparatedMeansDisjoint(obb, box, BOX_AXES[i]);
        assert IsTestedAxis(obb, BOX_AXES[i]);
        return false;
      }
    }
    for i := 0 to 3
      invariant forall k | 0 <= k < i :: !SeparatedBy(obb, box, obb.axes[k])
    {
      var s := Separated(obb, obb.axes[i], delta, boxHalf);
      if s {
        SeparatedMeansDisjoint(obb, box, obb.axes[i]);
        assert IsTestedAxis(obb, obb.axes[i]);
        return false;
      }
    }
    for i := 0 to 3
      invariant forall k, j | 0 <= k < i && 0 <= j < 3 :: EdgeClear(obb, box, k, j)
    {
      for j := 0 to 3
        invariant forall k, m | 0 <= k < i && 0 <= m < 3 :: EdgeClear(obb, box, k, m)
        invariant forall m | 0 <= m < j :: EdgeClear(obb, box, i, m)
      {
        var axis := BOX_AXES[i].Cross(obb.axes[j]);
        if axis.LengthSquared() < EPSILON {
          continue;
        }
        var s := Separated(obb, axis, delta, boxHalf);
        if s {
          SeparatedMeansDisjoint(obb, box, axis);
          assert IsTestedAxis(obb, axis);
          return false;
        }
      }
    }
    NoTestedAxisSeparates(obb, box);
    ClearMeansNear(obb, box);
    return true;
  }

  /** The edge pair (i, j) gives no separating axis. */
  predicate EdgeClear(obb: Obb, box: Aabb, i: int, j: int)
    requires |obb.axes| == 3 && 0 <= i < 3 && 0 <= j < 3
  {
    var axis := BOX_AXES[i].Cross(obb.axes[j]);
    axis.LengthSquared() < EPSILON || !SeparatedBy(obb, box, axis)
  }

  lemma NoTestedAxisSeparates(obb: Obb, box: Aabb)
    requires |obb.axes| == 3
    requires forall k | 0 <= k < 3 :: !SeparatedBy(obb, box, BOX_AXES[k])
    requires forall k | 0 <= k < 3 :: !SeparatedBy(obb, box, obb.axes[k])
    requires forall k, j | 0 <= k < 3 && 0 <= j < 3 :: EdgeClear(obb, box, k, j)
    ensures !exists axis :: IsTestedAxis(obb, axis) && SeparatedBy(obb, box, axis)
  {
    forall axis | IsTestedAxis(obb, axis)
      ensures !SeparatedBy(obb, box, axis)
    {
      if IsEdgeAxis(obb, axis) {
        var i, j :| 0 <= i < 3 && 0 <= j < 3 && axis == BOX_AXES[i].Cross(obb.axes[j]) && axis.LengthSquared() >= EPSILON;
        assert EdgeClear(obb, box, i, j);
      }
    }
  }
}
