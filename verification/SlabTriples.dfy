/** Two triples of slabs, each with perpendicular unit normals: they share a point when fifteen projections touch. */
module SlabTriples {
  import opened RealMath
  import opened Vectors
  import opened Bases
  import opened CommonPoints

  predicate Triple(s: seq<Slab>) {
    && |s| == 3 && Orthonormal(s[0].normal, s[1].normal, s[2].normal)
    && s[0].radius >= 0.0 && s[1].radius >= 0.0 && s[2].radius >= 0.0
  }

  /** The middle of the triple's box along n, and how far the box reaches to either side of it. */
  function Centre(s: seq<Slab>, n: Vector3): real
    requires |s| == 3
  {
    n.Dot(s[0].normal) * s[0].offset + n.Dot(s[1].normal) * s[1].offset + n.Dot(s[2].normal) * s[2].offset
  }

  function Reach(s: seq<Slab>, n: Vector3): real
    requires |s| == 3
  {
    Abs(n.Dot(s[0].normal)) * s[0].radius + Abs(n.Dot(s[1].normal)) * s[1].radius + Abs(n.Dot(s[2].normal)) * s[2].radius
  }

  /** The projections of the two boxes on n share a point. */
  predicate Touch(x: seq<Slab>, y: seq<Slab>, n: Vector3)
    requires |x| == 3 && |y| == 3
  {
    Abs(Centre(x, n) - Centre(y, n)) <= Reach(x, n) + Reach(y, n)
  }

  predicate FacesTouch(x: seq<Slab>, y: seq<Slab>)
    requires |x| == 3 && |y| == 3
  {
    (forall a | a in x :: Touch(x, y, a.normal)) && (forall b | b in y :: Touch(x, y, b.normal))
  }

  predicate EdgesTouch(x: seq<Slab>, y: seq<Slab>)
    requires |x| == 3 && |y| == 3
  {
    forall a, b | a in x && b in y :: Touch(x, y, a.normal.Cross(b.normal))
  }

  predicate AllTouch(x: seq<Slab>, y: seq<Slab>)
    requires |x| == 3 && |y| == 3
  {
    FacesTouch(x, y) && EdgesTouch(x, y)
  }

  // --- order does not matter --------------------------------------------------------------------------

  predicate Reordered(s: seq<Slab>, t: seq<Slab>)
    requires |s| == 3 && |t| == 3
  {
    || t == [s[1], s[2], s[0]] || t == [s[0], s[2], s[1]] || t == [s[1], s[0], s[2]]
  }

  lemma ReorderedSame(s: seq<Slab>, t: seq<Slab>, n: Vector3)
    requires |s| == 3 && |t| == 3 && Reordered(s, t)
    ensures Centre(s, n) == Centre(t, n) && Reach(s, n) == Reach(t, n)
  {
    hide Vector3.Dot, Abs;
  }

  lemma ReorderedTriple(s: seq<Slab>, t: seq<Slab>)
    requires |t| == 3 && Triple(s) && Reordered(s, t)
    ensures Triple(t) && forall a :: a in t <==> a in s
  {
    hide Vector3.Dot, Vector3.LengthSquared;
    DotCommutes(s[0].normal, s[1].normal);
    DotCommutes(s[0].normal, s[2].normal);
    DotCommutes(s[1].normal, s[2].normal);
    forall a
      ensures a in t <==> a in s
    {
      assert a in s <==> a == s[0] || a == s[1] || a == s[2];
    }
  }

  lemma ReorderedTouch(x: seq<Slab>, y: seq<Slab>, t: seq<Slab>)
    requires Triple(x) && Triple(y) && |t| == 3 && Reordered(x, t) && AllTouch(x, y)
    ensures Triple(t) && AllTouch(t, y)
  {
    ReorderedTriple(x, t);
    hide Centre, Reach, Orthonormal, Reordered, Abs, Vector3.Cross;
    forall n
      ensures Touch(x, y, n) <==> Touch(t, y, n)
    {
      ReorderedSame(x, t, n);
    }
    hide Touch;
  }

  lemma Opposite(s: seq<Slab>, n: Vector3, m: Vector3)
    requires |s| == 3 && m == n.Scale(-1.0)
    ensures Centre(s, m) == -Centre(s, n) && Reach(s, m) == Reach(s, n)
  {
    DotScale(n, -1.0, s[0].normal);
    DotScale(n, -1.0, s[1].normal);
    DotScale(n, -1.0, s[2].normal);
    hide Vector3.Dot;
  }

  lemma OppositeTouch(x: seq<Slab>, y: seq<Slab>, n: Vector3, m: Vector3)
    requires |x| == 3 && |y| == 3 && m == n.Scale(-1.0) && Touch(x, y, n)
    ensures Touch(y, x, m)
  {
    Opposite(x, n, m);
    Opposite(y, n, m);
    hide Centre, Reach;
  }

  lemma SwappedTouch(x: seq<Slab>, y: seq<Slab>)
    requires |x| == 3 && |y| == 3 && AllTouch(x, y)
    ensures AllTouch(y, x)
  {
    forall n
      ensures Touch(x, y, n) <==> Touch(y, x, n)
    {
      hide Centre, Reach;
    }
    forall b, a | b in y && a in x
      ensures Touch(y, x, b.normal.Cross(a.normal))
    {
      CrossAnticommutes(b.normal, a.normal);
      OppositeTouch(x, y, a.normal.Cross(b.normal), b.normal.Cross(a.normal));
    }
    hide Touch;
  }

  // --- four slabs at a time -----------------------------------------------------------------------------

  function Sign(x: real): real {
    if x < 0.0 then -1.0 else 1.0
  }

  /** Where between the faces of the slab a point stands that is moved towards n by the fraction f. */
  function Value(s: Slab, n: Vector3, f: real): real {
    s.offset + f * (Sign(n.Dot(s.normal)) * s.radius)
  }

  lemma FractionWithin(f: real, m: real, r: real, e: real)
    requires -1.0 <= f <= 1.0 && Abs(m) == r && (e == f * m || e == -(f * m))
    ensures Abs(e) <= r
  {
    var below := NonNegativeProduct(1.0 + f, r);
    var above := NonNegativeProduct(1.0 - f, r);
    var g := f * r;
    assert below == r + g && above == r - g;
    assert f * m == g || f * m == -g;
  }

  lemma ValueWithin(s: Slab, n: Vector3, f: real)
    requires s.radius >= 0.0 && -1.0 <= f <= 1.0
    ensures Abs(Value(s, n, f) - s.offset) <= s.radius
  {
    hide Vector3.Dot;
    var m := Sign(n.Dot(s.normal)) * s.radius;
    FractionWithin(f, m, s.radius, f * m);
  }

  lemma ValueTerm(d: real, offset: real, radius: real, f: real, value: real)
    requires value == offset + f * (Sign(d) * radius)
    ensures d * value == d * offset + f * (Abs(d) * radius)
  {
    assert d * Sign(d) == Abs(d);
    assert d * (f * (Sign(d) * radius)) == f * (d * Sign(d) * radius);
  }

  lemma ValuesSum(s: seq<Slab>, n: Vector3, f: real)
    requires |s| == 3
    ensures n.Dot(s[0].normal) * Value(s[0], n, f) + n.Dot(s[1].normal) * Value(s[1], n, f)
            + n.Dot(s[2].normal) * Value(s[2], n, f) == Centre(s, n) + f * Reach(s, n)
  {
    var d0, d1, d2 := n.Dot(s[0].normal), n.Dot(s[1].normal), n.Dot(s[2].normal);
    hide Vector3.Dot, Sign, Abs;
    ValueTerm(d0, s[0].offset, s[0].radius, f, Value(s[0], n, f));
    ValueTerm(d1, s[1].offset, s[1].radius, f, Value(s[1], n, f));
    ValueTerm(d2, s[2].offset, s[2].radius, f, Value(s[2], n, f));
    Distribute3(Abs(d0) * s[0].radius, Abs(d1) * s[1].radius, Abs(d2) * s[2].radius, f);
  }

  /** Touching projections: the same fraction of both reaches closes the distance between the centres. */
  lemma Fraction(x: seq<Slab>, y: seq<Slab>, n: Vector3) returns (f: real, there: real, back: real)
    requires |x| == 3 && |y| == 3 && Touch(x, y, n)
    ensures -1.0 <= f <= 1.0 && there == f * Reach(x, n) && back == f * Reach(y, n)
    ensures Centre(x, n) + there == Centre(y, n) - back
  {
    hide Centre, Reach;
    var d, r := Centre(y, n) - Centre(x, n), Reach(x, n) + Reach(y, n);
    if r > 0.0 {
      f := d / r;
      DivBounds(Abs(d), r);
      assert f * r == d;
      assert f == if d < 0.0 then -(Abs(d) / r) else Abs(d) / r;
    } else {
      f := 0.0;
    }
    there, back := f * Reach(x, n), f * Reach(y, n);
    assert there + back == f * r;
  }

  function PointOf(s: seq<Slab>, v: Vector3): Vector3
    requires |s| == 3
  {
    Combine(s[0].normal, s[1].normal, s[2].normal, v)
  }

  /** The point with given components along the normals. */
  lemma PointOfAt(s: seq<Slab>, v: Vector3, n: Vector3)
    requires Triple(s)
    ensures var p := PointOf(s, v);
            && s[0].normal.Dot(p) == v.x && s[1].normal.Dot(p) == v.y && s[2].normal.Dot(p) == v.z
            && n.Dot(p) == n.Dot(s[0].normal) * v.x + n.Dot(s[1].normal) * v.y + n.Dot(s[2].normal) * v.z
  {
    var a, b, c, p := s[0].normal, s[1].normal, s[2].normal, PointOf(s, v);
    CoordinatesCombine(a, b, c, v);
    CombineDot(a, b, c, v, n);
    DotCommutes(n, p);
    DotCommutes(a, p);
    DotCommutes(b, p);
    DotCommutes(c, p);
    DotCommutes(a, n);
    DotCommutes(b, n);
    DotCommutes(c, n);
    hide Vector3.Dot, Combine, Orthonormal;
  }

  function ValuesAt(s: seq<Slab>, n: Vector3, f: real): Vector3
    requires |s| == 3
  {
    Vector3(Value(s[0], n, f), Value(s[1], n, f), Value(s[2], n, f))
  }

  /** A triple's own normal projects it to the one slab. */
  lemma OwnNormal(y: seq<Slab>, j: nat)
    requires Triple(y) && j < 3
    ensures Centre(y, y[j].normal) == y[j].offset && Reach(y, y[j].normal) == y[j].radius
  {
    DotCommutes(y[0].normal, y[1].normal);
    DotCommutes(y[0].normal, y[2].normal);
    DotCommutes(y[1].normal, y[2].normal);
    assert forall i | 0 <= i < 3 :: y[i].normal.Dot(y[i].normal) == 1.0;
    hide Vector3.Dot;
  }

  /** A point of a whole triple, moved towards n by the fraction. */
  lemma MovedPoint(x: seq<Slab>, n: Vector3, f: real, there: real) returns (p: Vector3)
    requires Triple(x) && -1.0 <= f <= 1.0 && there == f * Reach(x, n)
    ensures x[0].Contains(p) && x[1].Contains(p) && x[2].Contains(p)
    ensures n.Dot(p) == Centre(x, n) + there
  {
    hide Vector3.Dot, Centre, Reach, Value, Orthonormal, PointOf, Abs;
    var v := ValuesAt(x, n, f);
    p := PointOf(x, v);
    PointOfAt(x, v, n);
    ValuesSum(x, n, f);
    ValueWithin(x[0], n, f);
    ValueWithin(x[1], n, f);
    ValueWithin(x[2], n, f);
  }

  lemma OnFace(s: Slab, p: Vector3, f: real, reach: real, back: real)
    requires s.radius >= 0.0 && reach == s.radius && -1.0 <= f <= 1.0
    requires back == f * reach && s.normal.Dot(p) == s.offset - back
    ensures s.Contains(p)
  {
    hide Vector3.Dot;
    FractionWithin(f, reach, reach, s.normal.Dot(p) - s.offset);
  }

  lemma FaceTouch(x: seq<Slab>, y: seq<Slab>, j: nat)
    requires |x| == 3 && |y| == 3 && j < 3 && FacesTouch(x, y)
    ensures Touch(x, y, y[j].normal)
  {
    hide Touch;
    assert y[j] in y;
  }

  /** All of one triple and a slab of the other. */
  lemma FaceMeet(x: seq<Slab>, y: seq<Slab>, j: nat) returns (p: Vector3)
    requires Triple(x) && Triple(y) && j < 3 && FacesTouch(x, y)
    ensures x[0].Contains(p) && x[1].Contains(p) && x[2].Contains(p) && y[j].Contains(p)
  {
    hide Vector3.Dot, Touch, FacesTouch, Centre, Reach, Slab.Contains, Orthonormal;
    var n := y[j].normal;
    FaceTouch(x, y, j);
    var f, there, back := Fraction(x, y, n);
    p := MovedPoint(x, n, f, there);
    OwnNormal(y, j);
    OnFace(y[j], p, f, Reach(y, n), back);
  }

  /** A product of two vectors by their components in a basis. */
  lemma ExpandDot(x: seq<Slab>, n: Vector3, p: Vector3)
    requires Triple(x)
    ensures n.Dot(p) == n.Dot(x[0].normal) * x[0].normal.Dot(p) + n.Dot(x[1].normal) * x[1].normal.Dot(p)
                        + n.Dot(x[2].normal) * x[2].normal.Dot(p)
  {
    hide Vector3.Dot, Orthonormal;
    var a, b, c := x[0].normal, x[1].normal, x[2].normal;
    CombineCoordinates(a, b, c, n);
    CombineDot(a, b, c, Coordinates(a, b, c, n), p);
  }

  lemma CyclicTriple(c: Vector3, u: Vector3, a: Vector3)
    ensures c.Cross(u).Dot(a) == a.Cross(c).Dot(u)
  {
  }

  /** An edge axis that is not perpendicular to one box axis leaves the other edge a component along the next one. */
  lemma EdgeDirection(a: Vector3, b: Vector3, c: Vector3, u: Vector3)
    requires Orthonormal(a, b, c) && c.Cross(u).Dot(a) != 0.0
    ensures b.Dot(u) != 0.0
  {
    DotCommutes(b, c);
    var k := ThirdAxis(a, c, b);
    CyclicTriple(c, u, a);
    DotScale(a.Cross(c), k, u);
    var m := a.Cross(c).Dot(u);
    hide Vector3.Dot, Vector3.Cross;
    if k * m == 0.0 {
      assert k * (k * m) == m;
    }
  }

  lemma NoSquareZero(alpha: real, d: real)
    requires alpha != 0.0 && alpha * d == 0.0
    ensures d == 0.0
  {
  }

  /** The last component that gives x the wanted value. */
  lemma SolveLast(e: real, value: real, rest: real) returns (z: real)
    requires e != 0.0
    ensures rest + e * z == value
  {
    z := (value - rest) / e;
  }

  /** The components along n determine the one along the first normal. */
  lemma FirstComponent(alpha: real, beta: real, zero: real, p0: real, p1: real, p2: real, v0: real, v1: real, v2: real)
    requires alpha != 0.0 && zero == 0.0 && p1 == v1
    requires alpha * p0 + beta * p1 + zero * p2 == alpha * v0 + beta * v1 + zero * v2
    ensures p0 == v0
  {
    NoSquareZero(alpha, p0 - v0);
  }

  lemma LastDropped(g: real, d: real, zero: real, y0: real, y1: real, z: real, v: real)
    requires zero == 0.0
    ensures g * y0 + d * y1 + zero * z == g * y0 + d * y1 + zero * v
  {
  }

  /** A point with the given values along two normals of y and one of x. */
  lemma EdgePoint(x: seq<Slab>, y: seq<Slab>, n: Vector3, v0: real, v1: real, v2: real, w: Vector3) returns (p: Vector3)
    requires Triple(x) && Triple(y) && n == x[2].normal.Cross(y[2].normal) && n.Dot(x[0].normal) != 0.0
    requires n.Dot(x[0].normal) * v0 + n.Dot(x[1].normal) * v1 + n.Dot(x[2].normal) * v2
             == n.Dot(y[0].normal) * w.x + n.Dot(y[1].normal) * w.y + n.Dot(y[2].normal) * w.z
    ensures x[0].normal.Dot(p) == v0 && x[1].normal.Dot(p) == v1
    ensures y[0].normal.Dot(p) == w.x && y[1].normal.Dot(p) == w.y
  {
    var a, b, c, u := x[0].normal, x[1].normal, x[2].normal, y[2].normal;
    EdgeDirection(a, b, c, u);
    CrossPerpendicular(c, u);
    hide Vector3.Dot, Vector3.Cross, Orthonormal, PointOf;
    var rest := b.Dot(y[0].normal) * w.x + b.Dot(y[1].normal) * w.y;
    var z := SolveLast(b.Dot(u), v1, rest);
    var q := Vector3(w.x, w.y, z);
    p := PointOf(y, q);
    PointOfAt(y, q, b);
    PointOfAt(y, q, n);
    ExpandDot(x, n, p);
    LastDropped(n.Dot(y[0].normal), n.Dot(y[1].normal), n.Dot(u), w.x, w.y, z, w.z);
    FirstComponent(n.Dot(a), n.Dot(b), n.Dot(c), a.Dot(p), b.Dot(p), c.Dot(p), v0, v1, v2);
  }

  /** Two slabs of each triple, along the axis of the two remaining edges. */
  lemma EdgeMeetBy(x: seq<Slab>, y: seq<Slab>, n: Vector3) returns (p: Vector3)
    requires Triple(x) && Triple(y) && n == x[2].normal.Cross(y[2].normal) && n.Dot(x[0].normal) != 0.0 && Touch(x, y, n)
    ensures x[0].Contains(p) && x[1].Contains(p) && y[0].Contains(p) && y[1].Contains(p)
  {
    hide Vector3.Dot, Vector3.Cross, Touch, Centre, Reach, Value, Orthonormal, Abs;
    var f, there, back := Fraction(x, y, n);
    ValuesSum(x, n, f);
    ValuesSum(y, n, -f);
    assert -f * Reach(y, n) == -back;
    ValueWithin(x[0], n, f);
    ValueWithin(x[1], n, f);
    ValueWithin(y[0], n, -f);
    ValueWithin(y[1], n, -f);
    p := EdgePoint(x, y, n, Value(x[0], n, f), Value(x[1], n, f), Value(x[2], n, f), ValuesAt(y, n, -f));
  }

  lemma CombineZero(a: Vector3, b: Vector3, c: Vector3)
    ensures Combine(a, b, c, ZERO) == ZERO
  {
  }

  lemma NoCoordinates(a: Vector3, b: Vector3, c: Vector3, n: Vector3)
    requires Orthonormal(a, b, c) && Coordinates(a, b, c, n) == ZERO
    ensures n == ZERO
  {
    hide Coordinates, Combine, Orthonormal;
    CombineCoordinates(a, b, c, n);
    CombineZero(a, b, c);
  }

  lemma EdgeNotFlat(x: seq<Slab>, n: Vector3)
    requires Triple(x) && n != ZERO && n.Dot(x[2].normal) == 0.0
    ensures n.Dot(x[0].normal) != 0.0 || n.Dot(x[1].normal) != 0.0
  {
    hide Vector3.Dot, Orthonormal;
    if n.Dot(x[0].normal) == 0.0 && n.Dot(x[1].normal) == 0.0 {
      NoCoordinates(x[0].normal, x[1].normal, x[2].normal, n);
    }
  }

  lemma EdgeMeet(x: seq<Slab>, y: seq<Slab>) returns (p: Vector3)
    requires Triple(x) && Triple(y) && x[2].normal.Cross(y[2].normal) != ZERO && Touch(x, y, x[2].normal.Cross(y[2].normal))
    ensures x[0].Contains(p) && x[1].Contains(p) && y[0].Contains(p) && y[1].Contains(p)
  {
    var n := x[2].normal.Cross(y[2].normal);
    CrossPerpendicular(x[2].normal, y[2].normal);
    EdgeNotFlat(x, n);
    hide Vector3.Dot, Vector3.Cross, Centre, Reach, Orthonormal, Slab.Contains;
    if n.Dot(x[0].normal) != 0.0 {
      p := EdgeMeetBy(x, y, n);
    } else {
      var t := [x[1], x[0], x[2]];
      ReorderedTriple(x, t);
      ReorderedSame(x, t, n);
      p := EdgeMeetBy(t, y, n);
    }
  }

  // --- parallel edges: the remaining four slabs stand on a plane ---------------------------------------------

  /** A unit vector parallel to the last of a basis has no component along the others. */
  lemma ParallelToLast(a: Vector3, b: Vector3, c: Vector3, u: Vector3)
    requires Orthonormal(a, b, c) && c.Cross(u) == ZERO
    ensures a.Dot(u) == 0.0 && b.Dot(u) == 0.0
  {
    assert c != ZERO;
    ParallelDot(c, u, a);
    DotCommutes(b, c);
    ParallelDot(c, u, b);
  }

  /** Vectors across the last normal of x are measured by the first two. */
  lemma AcrossDot(x: seq<Slab>, a: Vector3, v: Vector3)
    requires Triple(x) && a.Dot(x[2].normal) == 0.0
    ensures a.Dot(v) == a.Dot(x[0].normal) * x[0].normal.Dot(v) + a.Dot(x[1].normal) * x[1].normal.Dot(v)
  {
    hide Vector3.Dot, Orthonormal;
    ExpandDot(x, a, v);
    var c := x[2].normal.Dot(v);
    assert 0.0 * c == 0.0;
  }

  /** Coefficients of a planar affine dependency of four points, padded to five. */
  function Planar(k: Vector3): seq<real> {
    [k.x, k.y, k.z, -(k.x + k.y + k.z), 0.0]
  }

  lemma PlanarTotal(k: Vector3)
    requires k != ZERO
    ensures Total(Planar(k)) == 0.0 && exists i :: 0 <= i < 5 && Planar(k)[i] != 0.0
  {
    if Planar(k)[0] == 0.0 && Planar(k)[1] == 0.0 {
      assert Planar(k)[2] != 0.0;
    }
  }

  lemma PlanarSum(k: Vector3, pts: seq<Vector3>, a: Vector3)
    requires |pts| == 5
    requires k.Dot(Vector3(a.Dot(pts[0].Sub(pts[3])), a.Dot(pts[1].Sub(pts[3])), a.Dot(pts[2].Sub(pts[3])))) == 0.0
    ensures Sum5(Planar(k), Along(a, pts)) == 0.0
  {
    DotSubRight(a, pts[0], pts[3]);
    DotSubRight(a, pts[1], pts[3]);
    DotSubRight(a, pts[2], pts[3]);
    var f0, f1, f2, f3 := a.Dot(pts[0]), a.Dot(pts[1]), a.Dot(pts[2]), a.Dot(pts[3]);
    hide Vector3.Sub, Vector3.Dot;
    ThreeDifferences(k, f0, f1, f2, f3, a.Dot(pts[4]));
  }

  lemma DotSubRight(a: Vector3, u: Vector3, v: Vector3)
    ensures a.Dot(u.Sub(v)) == a.Dot(u) - a.Dot(v)
  {
  }

  lemma ThreeDifferences(k: Vector3, f0: real, f1: real, f2: real, f3: real, f4: real)
    requires k.Dot(Vector3(f0 - f3, f1 - f3, f2 - f3)) == 0.0
    ensures Sum5(Planar(k), [f0, f1, f2, f3, f4]) == 0.0
  {
  }

  /** The component differences along a, for any a across the last normal, from those along the first two normals. */
  lemma AcrossSum(x: seq<Slab>, k: Vector3, v0: Vector3, v1: Vector3, v2: Vector3, a: Vector3)
    requires Triple(x) && a.Dot(x[2].normal) == 0.0
    requires var b := x[0].normal; k.Dot(Vector3(b.Dot(v0), b.Dot(v1), b.Dot(v2))) == 0.0
    requires var c := x[1].normal; k.Dot(Vector3(c.Dot(v0), c.Dot(v1), c.Dot(v2))) == 0.0
    ensures k.Dot(Vector3(a.Dot(v0), a.Dot(v1), a.Dot(v2))) == 0.0
  {
    AcrossDot(x, a, v0);
    AcrossDot(x, a, v1);
    AcrossDot(x, a, v2);
    var b, c := x[0].normal, x[1].normal;
    var p, q := Vector3(b.Dot(v0), b.Dot(v1), b.Dot(v2)), Vector3(c.Dot(v0), c.Dot(v1), c.Dot(v2));
    var s, t := a.Dot(b), a.Dot(c);
    assert Vector3(a.Dot(v0), a.Dot(v1), a.Dot(v2)) == Vector3(s * p.x + t * q.x, s * p.y + t * q.y, s * p.z + t * q.z);
    LinearDot(k, p, q, s, t);
  }

  lemma LinearDot(k: Vector3, p: Vector3, q: Vector3, s: real, t: real)
    requires k.Dot(p) == 0.0 && k.Dot(q) == 0.0
    ensures k.Dot(Vector3(s * p.x + t * q.x, s * p.y + t * q.y, s * p.z + t * q.z)) == 0.0
  {
    assert k.x * (s * p.x + t * q.x) == s * (k.x * p.x) + t * (k.x * q.x);
    assert k.y * (s * p.y + t * q.y) == s * (k.y * p.y) + t * (k.y * q.y);
    assert k.z * (s * p.z + t * q.z) == s * (k.z * p.z) + t * (k.z * q.z);
    assert k.Dot(Vector3(s * p.x + t * q.x, s * p.y + t * q.y, s * p.z + t * q.z)) == s * k.Dot(p) + t * k.Dot(q);
  }

  lemma FlatAffine(x: seq<Slab>, y: seq<Slab>, pts: seq<Vector3>, k: Vector3)
    requires Triple(x) && Triple(y) && x[2].normal.Cross(y[2].normal) == ZERO && |pts| == 5 && k != ZERO
    requires var b := x[0].normal;
             k.Dot(Vector3(b.Dot(pts[0].Sub(pts[3])), b.Dot(pts[1].Sub(pts[3])), b.Dot(pts[2].Sub(pts[3])))) == 0.0
    requires var c := x[1].normal;
             k.Dot(Vector3(c.Dot(pts[0].Sub(pts[3])), c.Dot(pts[1].Sub(pts[3])), c.Dot(pts[2].Sub(pts[3])))) == 0.0
    ensures Affine(Planar(k), pts, [x[0], x[1], y[0], y[1]])
  {
    FlatNormals(x, y);
    hide Vector3.Dot, Vector3.Cross, Vector3.Sub, Orthonormal, Sum5, Total, Planar, Along;
    PlanarTotal(k);
    var v0, v1, v2 := pts[0].Sub(pts[3]), pts[1].Sub(pts[3]), pts[2].Sub(pts[3]);
    AcrossSum(x, k, v0, v1, v2, y[0].normal);
    AcrossSum(x, k, v0, v1, v2, y[1].normal);
    PlanarSum(k, pts, x[0].normal);
    PlanarSum(k, pts, x[1].normal);
    PlanarSum(k, pts, y[0].normal);
    PlanarSum(k, pts, y[1].normal);
  }

  lemma FlatNormals(x: seq<Slab>, y: seq<Slab>)
    requires Triple(x) && Triple(y) && x[2].normal.Cross(y[2].normal) == ZERO
    ensures y[0].normal.Dot(x[2].normal) == 0.0 && y[1].normal.Dot(x[2].normal) == 0.0
  {
    var c, u := x[2].normal, y[2].normal;
    CrossAnticommutes(u, c);
    assert u.Cross(c) == ZERO;
    ParallelToLast(y[0].normal, y[1].normal, u, c);
  }

  /** The same two slabs of each triple when the remaining edges are parallel, by Radon's point in the plane across them. */
  lemma FlatMeet(x: seq<Slab>, y: seq<Slab>) returns (p: Vector3)
    requires Triple(x) && Triple(y) && x[2].normal.Cross(y[2].normal) == ZERO && FacesTouch(x, y) && FacesTouch(y, x)
    ensures x[0].Contains(p) && x[1].Contains(p) && y[0].Contains(p) && y[1].Contains(p)
  {
    hide Vector3.Dot, Vector3.Cross, Vector3.Sub, Orthonormal, FacesTouch, Slab.Contains, Affine;
    var p0 := FaceMeet(y, x, 1);
    var p1 := FaceMeet(y, x, 0);
    var p2 := FaceMeet(x, y, 1);
    var p3 := FaceMeet(x, y, 0);
    var pts, slabs := [p0, p1, p2, p3, p3], [x[0], x[1], y[0], y[1]];
    var b, c := x[0].normal, x[1].normal;
    var k := CommonPerpendicular(Vector3(b.Dot(p0.Sub(p3)), b.Dot(p1.Sub(p3)), b.Dot(p2.Sub(p3))),
                                 Vector3(c.Dot(p0.Sub(p3)), c.Dot(p1.Sub(p3)), c.Dot(p2.Sub(p3))));
    FlatAffine(x, y, pts, k);
    assert Planar(k)[4] == 0.0;
    p := RadonPoint(slabs, pts, Planar(k));
    assert slabs[0].Contains(p) && slabs[1].Contains(p) && slabs[2].Contains(p) && slabs[3].Contains(p);
  }

  /** Two slabs of each triple, parallel edges or not. */
  lemma TwoAndTwo(x: seq<Slab>, y: seq<Slab>) returns (p: Vector3)
    requires Triple(x) && Triple(y) && AllTouch(x, y)
    ensures x[0].Contains(p) && x[1].Contains(p) && y[0].Contains(p) && y[1].Contains(p)
  {
    hide Vector3.Dot, Vector3.Cross, Orthonormal, FacesTouch, Slab.Contains, Touch;
    SwappedTouch(x, y);
    if x[2].normal.Cross(y[2].normal) == ZERO {
      p := FlatMeet(x, y);
    } else {
      assert x[2] in x && y[2] in y;
      p := EdgeMeet(x, y);
    }
  }

  // --- all six -----------------------------------------------------------------------------------------------

  /** One triple and two slabs of the other. */
  lemma FiveMeet(x: seq<Slab>, y: seq<Slab>) returns (p: Vector3)
    requires Triple(x) && Triple(y) && AllTouch(x, y)
    ensures x[0].Contains(p) && x[1].Contains(p) && x[2].Contains(p) && y[0].Contains(p) && y[1].Contains(p)
  {
    hide Orthonormal, FacesTouch, EdgesTouch, Slab.Contains, Reordered;
    var s, t := [x[1], x[2], x[0]], [x[0], x[2], x[1]];
    assert Reordered(x, s) && Reordered(x, t) by { Rotations(x); }
    ReorderedTouch(x, y, s);
    ReorderedTouch(x, y, t);
    var p0 := TwoAndTwo(s, y);
    var p1 := TwoAndTwo(t, y);
    var p2 := TwoAndTwo(x, y);
    var p3 := FaceMeet(x, y, 1);
    var p4 := FaceMeet(x, y, 0);
    var slabs := [x[0], x[1], x[2], y[0], y[1]];
    p := Helly(slabs, [p0, p1, p2, p3, p4]);
    assert slabs[0].Contains(p) && slabs[1].Contains(p) && slabs[2].Contains(p) && slabs[3].Contains(p) && slabs[4].Contains(p);
  }

  lemma Rotations(x: seq<Slab>)
    requires |x| == 3
    ensures Reordered(x, [x[1], x[2], x[0]]) && Reordered(x, [x[0], x[2], x[1]])
  {
  }

  /** Fifteen touching projections are enough for a point in all six slabs. */
  lemma SixMeet(x: seq<Slab>, y: seq<Slab>) returns (p: Vector3)
    requires Triple(x) && Triple(y) && AllTouch(x, y)
    ensures x[0].Contains(p) && x[1].Contains(p) && x[2].Contains(p) && y[0].Contains(p) && y[1].Contains(p) && y[2].Contains(p)
  {
    hide Orthonormal, FacesTouch, EdgesTouch, Slab.Contains, Reordered;
    Rotations(x);
    Rotations(y);
    SwappedTouch(x, y);
    var s, t := [x[1], x[2], x[0]], [x[0], x[2], x[1]];
    var u, v := [y[1], y[2], y[0]], [y[0], y[2], y[1]];
    ReorderedTouch(x, y, s);
    ReorderedTouch(x, y, t);
    ReorderedTouch(y, x, u);
    ReorderedTouch(y, x, v);
    SwappedTouch(s, y);
    SwappedTouch(t, y);
    SwappedTouch(u, x);
    SwappedTouch(v, x);
    var p0 := FiveMeet(y, s);
    var p1 := FiveMeet(y, t);
    var p2 := FiveMeet(y, x);
    var p3 := FiveMeet(x, u);
    var p4 := FiveMeet(x, v);
    var slabs := [x[0], x[1], x[2], y[0], y[1], y[2]];
    p := Helly(slabs, [p0, p1, p2, p3, p4]);
    assert slabs[0].Contains(p) && slabs[1].Contains(p) && slabs[2].Contains(p) && slabs[3].Contains(p)
           && slabs[4].Contains(p) && slabs[5].Contains(p);
  }
}
