/** When slabs in space have a common point: two orthogonal triples of them need checking four at a time only. */
module CommonPoints {
  import opened RealMath
  import opened Vectors
  import opened Bases

  /** The points whose component along the normal is within the radius of the offset. */
  datatype Slab = Slab(normal: Vector3, offset: real, radius: real) {

    predicate Contains(p: Vector3) {
      Abs(normal.Dot(p) - offset) <= radius
    }
  }

  // --- linear dependence ------------------------------------------------------------------------------

  /** Every vector has a non-zero one perpendicular to it. */
  lemma Perpendicular(v: Vector3) returns (k: Vector3)
    ensures k != ZERO && k.Dot(v) == 0.0
  {
    if v.x == 0.0 && v.y == 0.0 {
      k := UNIT_X;
    } else {
      k := Vector3(v.y, -v.x, 0.0);
    }
  }

  lemma ParallelDot(x: Vector3, y: Vector3, k: Vector3)
    requires x.Cross(y) == ZERO && x != ZERO && k.Dot(x) == 0.0
    ensures k.Dot(y) == 0.0
  {
    TripleProduct(x, y, k);
    assert ZERO.Cross(k) == ZERO;
    DotCommutes(x, k);
    DotCommutes(y, k);
    var m := k.Dot(y);
    assert y.Scale(0.0) == ZERO;
    assert x.Scale(m) == ZERO;
    assert x.x * m == 0.0 && x.y * m == 0.0 && x.z * m == 0.0;
  }

  /** Two vectors have a common non-zero perpendicular; read by components, three pairs of numbers are dependent. */
  lemma CommonPerpendicular(x: Vector3, y: Vector3) returns (k: Vector3)
    ensures k != ZERO && k.Dot(x) == 0.0 && k.Dot(y) == 0.0
  {
    if x.Cross(y) != ZERO {
      k := x.Cross(y);
      CrossPerpendicular(x, y);
    } else if x != ZERO {
      k := Perpendicular(x);
      ParallelDot(x, y, k);
    } else {
      k := Perpendicular(y);
    }
  }

  lemma CrossPerpendicular(x: Vector3, y: Vector3)
    ensures x.Cross(y).Dot(x) == 0.0 && x.Cross(y).Dot(y) == 0.0
  {
  }

  function Weighted(k: Vector3, k3: real, a: Vector3, b: Vector3, c: Vector3, d: Vector3): Vector3 {
    a.Scale(k.x).Add(b.Scale(k.y)).Add(c.Scale(k.z)).Add(d.Scale(k3))
  }

  /** Four vectors are dependent: eliminate one component with the last, and two are left for the other three. */
  lemma DependentByPivot(a: Vector3, b: Vector3, c: Vector3, d: Vector3) returns (k: Vector3, k3: real)
    requires d.x != 0.0
    ensures k != ZERO && Weighted(k, k3, a, b, c, d) == ZERO
  {
    hide Weighted, Vector3.Dot;
    var i := 1.0 / d.x;
    var p, q, r := a.x * i, b.x * i, c.x * i;
    var ys := Vector3(a.y - p * d.y, b.y - q * d.y, c.y - r * d.y);
    var zs := Vector3(a.z - p * d.z, b.z - q * d.z, c.z - r * d.z);
    k := CommonPerpendicular(ys, zs);
    k3 := -(k.x * p + k.y * q + k.z * r);
    Eliminated(k, k3, p, q, r, a.x, b.x, c.x, d.x);
    BackIn(k, k3, p, q, r, ys, a.y, b.y, c.y, d.y);
    BackIn(k, k3, p, q, r, zs, a.z, b.z, c.z, d.z);
    WeightedComponents(k, k3, a, b, c, d);
  }

  lemma WeightedComponents(k: Vector3, k3: real, a: Vector3, b: Vector3, c: Vector3, d: Vector3)
    ensures Weighted(k, k3, a, b, c, d) == Vector3(a.x * k.x + b.x * k.y + c.x * k.z + d.x * k3,
                                                   a.y * k.x + b.y * k.y + c.y * k.z + d.y * k3,
                                                   a.z * k.x + b.z * k.y + c.z * k.z + d.z * k3)
  {
  }

  lemma Eliminated(k: Vector3, k3: real, p: real, q: real, r: real, a: real, b: real, c: real, d: real)
    requires d != 0.0 && p == a * (1.0 / d) && q == b * (1.0 / d) && r == c * (1.0 / d)
    requires k3 == -(k.x * p + k.y * q + k.z * r)
    ensures a * k.x + b * k.y + c * k.z + d * k3 == 0.0
  {
    var i := 1.0 / d;
    assert i * d == 1.0;
    assert p * d == a * (i * d);
    assert q * d == b * (i * d);
    assert r * d == c * (i * d);
    assert d * k3 == -(k.x * (p * d) + k.y * (q * d) + k.z * (r * d));
  }

  lemma BackIn(k: Vector3, k3: real, p: real, q: real, r: real, w: Vector3, a: real, b: real, c: real, d: real)
    requires w == Vector3(a - p * d, b - q * d, c - r * d) && k.Dot(w) == 0.0
    requires k3 == -(k.x * p + k.y * q + k.z * r)
    ensures a * k.x + b * k.y + c * k.z + d * k3 == 0.0
  {
    assert k.x * (a - p * d) == a * k.x - d * (k.x * p);
    assert k.y * (b - q * d) == b * k.y - d * (k.y * q);
    assert k.z * (c - r * d) == c * k.z - d * (k.z * r);
    assert d * k3 == -(d * (k.x * p) + d * (k.y * q) + d * (k.z * r));
  }

  /** A dependency of four vectors: coefficients, not all zero, of sum zero as combined. */
  predicate Dependency(k: seq<real>, v: seq<Vector3>) {
    && |k| == 4 && |v| == 4 && (exists i :: 0 <= i < 4 && k[i] != 0.0)
    && Weighted(Vector3(k[0], k[1], k[2]), k[3], v[0], v[1], v[2], v[3]) == ZERO
  }

  lemma Reordered(k: Vector3, k3: real, a: Vector3, b: Vector3, c: Vector3, d: Vector3)
    ensures Weighted(k, k3, a, b, d, c) == Weighted(Vector3(k.x, k.y, k3), k.z, a, b, c, d)
    ensures Weighted(k, k3, a, c, d, b) == Weighted(Vector3(k.x, k3, k.y), k.z, a, b, c, d)
    ensures Weighted(k, k3, b, c, d, a) == Weighted(Vector3(k3, k.x, k.y), k.z, a, b, c, d)
  {
    hide Vector3.Scale;
  }

  lemma FlatDependent(v: seq<Vector3>) returns (w: Vector3)
    requires |v| == 4 && v[0].x == 0.0 && v[1].x == 0.0 && v[2].x == 0.0 && v[3].x == 0.0
    ensures w != ZERO && Weighted(w, 0.0, v[0], v[1], v[2], v[3]) == ZERO
  {
    w := CommonPerpendicular(Vector3(v[0].y, v[1].y, v[2].y), Vector3(v[0].z, v[1].z, v[2].z));
    assert v[3].Scale(0.0) == ZERO;
  }

  lemma Dependent(v: seq<Vector3>) returns (k: seq<real>)
    requires |v| == 4
    ensures Dependency(k, v)
  {
    hide Weighted;
    if v[3].x != 0.0 {
      var w, w3 := DependentByPivot(v[0], v[1], v[2], v[3]);
      k := [w.x, w.y, w.z, w3];
    } else if v[2].x != 0.0 {
      var w, w3 := DependentByPivot(v[0], v[1], v[3], v[2]);
      Reordered(w, w3, v[0], v[1], v[2], v[3]);
      k := [w.x, w.y, w3, w.z];
    } else if v[1].x != 0.0 {
      var w, w3 := DependentByPivot(v[0], v[2], v[3], v[1]);
      Reordered(w, w3, v[0], v[1], v[2], v[3]);
      k := [w.x, w3, w.y, w.z];
    } else if v[0].x != 0.0 {
      var w, w3 := DependentByPivot(v[1], v[2], v[3], v[0]);
      Reordered(w, w3, v[0], v[1], v[2], v[3]);
      k := [w3, w.x, w.y, w.z];
    } else {
      var w := FlatDependent(v);
      k := [w.x, w.y, w.z, 0.0];
    }
    SomeNonZero(k);
  }

  lemma SomeNonZero(k: seq<real>)
    requires |k| == 4 && (k[0] != 0.0 || k[1] != 0.0 || k[2] != 0.0 || k[3] != 0.0)
    ensures exists i :: 0 <= i < 4 && k[i] != 0.0
  {
  }

  // --- Radon's point and Helly's theorem -------------------------------------------------------------------

  function Total(w: seq<real>): real
    requires |w| == 5
  {
    w[0] + w[1] + w[2] + w[3] + w[4]
  }

  function Sum5(w: seq<real>, f: seq<real>): real
    requires |w| == 5 && |f| == 5
  {
    w[0] * f[0] + w[1] * f[1] + w[2] * f[2] + w[3] * f[3] + w[4] * f[4]
  }

  function Blend(w: seq<real>, pts: seq<Vector3>): Vector3
    requires |w| == 5 && |pts| == 5
  {
    pts[0].Scale(w[0]).Add(pts[1].Scale(w[1])).Add(pts[2].Scale(w[2])).Add(pts[3].Scale(w[3])).Add(pts[4].Scale(w[4]))
  }

  /** The components of the points along a direction. */
  function Along(a: Vector3, pts: seq<Vector3>): (f: seq<real>)
    requires |pts| == 5
    ensures |f| == 5
  {
    [a.Dot(pts[0]), a.Dot(pts[1]), a.Dot(pts[2]), a.Dot(pts[3]), a.Dot(pts[4])]
  }

  lemma BlendDot(w: seq<real>, pts: seq<Vector3>, a: Vector3)
    requires |w| == 5 && |pts| == 5
    ensures a.Dot(Blend(w, pts)) == Sum5(w, Along(a, pts))
  {
    hide Vector3.Dot, Vector3.Add, Vector3.Scale;
    var q0, q1, q2, q3, q4 := pts[0].Scale(w[0]), pts[1].Scale(w[1]), pts[2].Scale(w[2]), pts[3].Scale(w[3]), pts[4].Scale(w[4]);
    var s1, s2, s3 := q0.Add(q1), q0.Add(q1).Add(q2), q0.Add(q1).Add(q2).Add(q3);
    DotAddRight(a, s3, q4);
    DotAddRight(a, s2, q3);
    DotAddRight(a, s1, q2);
    DotAddRight(a, q0, q1);
    DotScale(pts[0], w[0], a);
    DotScale(pts[1], w[1], a);
    DotScale(pts[2], w[2], a);
    DotScale(pts[3], w[3], a);
    DotScale(pts[4], w[4], a);
  }

  lemma DotAddRight(a: Vector3, u: Vector3, v: Vector3)
    ensures a.Dot(u.Add(v)) == a.Dot(u) + a.Dot(v)
  {
  }

  lemma TermWithin(w: real, f: real, b: real, r: real, e: real, m: real)
    requires w >= 0.0 && (w > 0.0 ==> Abs(f - b) <= r) && e == w * f - w * b && m == w * r
    ensures Abs(e) <= m
  {
    if w > 0.0 {
      assert e == w * (f - b);
      AbsProduct(e, w, f - b);
      MulMonotone(Abs(f - b), r, w);
    }
  }

  lemma ErrorTerms(w: seq<real>, f: seq<real>, l: real, b: real) returns (e: seq<real>)
    requires |w| == 5 && |f| == 5 && l == Total(w)
    ensures |e| == 5 && forall i | 0 <= i < 5 :: e[i] == w[i] * f[i] - w[i] * b
    ensures Sum5(w, f) - l * b == e[0] + e[1] + e[2] + e[3] + e[4]
  {
    e := [w[0] * f[0] - w[0] * b, w[1] * f[1] - w[1] * b, w[2] * f[2] - w[2] * b, w[3] * f[3] - w[3] * b, w[4] * f[4] - w[4] * b];
    assert l * b == w[0] * b + w[1] * b + w[2] * b + w[3] * b + w[4] * b;
  }

  lemma RadiusTerms(w: seq<real>, l: real, r: real) returns (m: seq<real>)
    requires |w| == 5 && l == Total(w)
    ensures |m| == 5 && forall i | 0 <= i < 5 :: m[i] == w[i] * r
    ensures l * r == m[0] + m[1] + m[2] + m[3] + m[4]
  {
    m := [w[0] * r, w[1] * r, w[2] * r, w[3] * r, w[4] * r];
  }

  lemma TermsWithin(w: seq<real>, f: seq<real>, b: real, r: real, e: seq<real>, m: seq<real>)
    requires |w| == 5 && |f| == 5 && |e| == 5 && |m| == 5
    requires forall i | 0 <= i < 5 :: w[i] >= 0.0 && (w[i] > 0.0 ==> Abs(f[i] - b) <= r)
    requires forall i | 0 <= i < 5 :: e[i] == w[i] * f[i] - w[i] * b
    requires forall i | 0 <= i < 5 :: m[i] == w[i] * r
    ensures forall i | 0 <= i < 5 :: Abs(e[i]) <= m[i]
  {
    hide Abs;
    forall i | 0 <= i < 5
      ensures Abs(e[i]) <= m[i]
    {
      TermWithin(w[i], f[i], b, r, e[i], m[i]);
    }
  }

  /** A weighted sum of values near b is near b as many times as the weights add up to. */
  lemma WeightedWithin(w: seq<real>, f: seq<real>, l: real, b: real, r: real) returns (error: real, reach: real)
    requires |w| == 5 && |f| == 5 && l == Total(w)
    requires forall i | 0 <= i < 5 :: w[i] >= 0.0 && (w[i] > 0.0 ==> Abs(f[i] - b) <= r)
    ensures error == Sum5(w, f) - l * b && reach == l * r && Abs(error) <= reach
  {
    hide Sum5, Total, Abs;
    var e := ErrorTerms(w, f, l, b);
    var m := RadiusTerms(w, l, r);
    TermsWithin(w, f, b, r, e, m);
    SumOfFive(e[0], e[1], e[2], e[3], e[4], m[0], m[1], m[2], m[3], m[4]);
    error, reach := e[0] + e[1] + e[2] + e[3] + e[4], m[0] + m[1] + m[2] + m[3] + m[4];
  }

  lemma SumOfFive(a: real, b: real, c: real, d: real, e: real, ra: real, rb: real, rc: real, rd: real, re: real)
    requires Abs(a) <= ra && Abs(b) <= rb && Abs(c) <= rc && Abs(d) <= rd && Abs(e) <= re
    ensures Abs(a + b + c + d + e) <= ra + rb + rc + rd + re
  {
  }

  function Positive(k: seq<real>): (w: seq<real>)
    requires |k| == 5
    ensures |w| == 5 && forall i | 0 <= i < 5 :: w[i] >= 0.0
  {
    [Max(k[0], 0.0), Max(k[1], 0.0), Max(k[2], 0.0), Max(k[3], 0.0), Max(k[4], 0.0)]
  }

  function Negative(k: seq<real>): (w: seq<real>)
    requires |k| == 5
    ensures |w| == 5 && forall i | 0 <= i < 5 :: w[i] >= 0.0
  {
    [Max(-k[0], 0.0), Max(-k[1], 0.0), Max(-k[2], 0.0), Max(-k[3], 0.0), Max(-k[4], 0.0)]
  }

  lemma SumsEqual(k: seq<real>, f: seq<real>)
    requires |k| == 5 && |f| == 5 && Sum5(k, f) == 0.0
    ensures Sum5(Positive(k), f) == Sum5(Negative(k), f)
  {
    hide Max;
    PartsOf(k[0], f[0]);
    PartsOf(k[1], f[1]);
    PartsOf(k[2], f[2]);
    PartsOf(k[3], f[3]);
    PartsOf(k[4], f[4]);
  }

  lemma TotalsEqual(k: seq<real>)
    requires |k| == 5 && Total(k) == 0.0 && exists i :: 0 <= i < 5 && k[i] != 0.0
    ensures Total(Positive(k)) == Total(Negative(k)) > 0.0
    ensures forall i | 0 <= i < 5 :: (Positive(k)[i] > 0.0 <==> k[i] > 0.0) && (Negative(k)[i] > 0.0 <==> k[i] < 0.0)
  {
  }

  lemma PartsOf(k: real, f: real)
    ensures Max(k, 0.0) - Max(-k, 0.0) == k && Max(k, 0.0) * f - Max(-k, 0.0) * f == k * f
  {
  }

  predicate Affine(k: seq<real>, pts: seq<Vector3>, slabs: seq<Slab>)
    requires |k| == 5 && |pts| == 5
  {
    && Total(k) == 0.0 && (exists i :: 0 <= i < 5 && k[i] != 0.0)
    && forall j | 0 <= j < |slabs| :: Sum5(k, Along(slabs[j].normal, pts)) == 0.0
  }

  /** Point i lies in every slab but perhaps the i-th. */
  predicate Omitting(slabs: seq<Slab>, pts: seq<Vector3>, k: seq<real>)
    requires |k| == 5 && |pts| == 5
  {
    forall i, j | 0 <= i < 5 && 0 <= j < |slabs| && i != j && k[i] != 0.0 :: slabs[j].Contains(pts[i])
  }

  predicate InAll(slabs: seq<Slab>, p: Vector3) {
    forall j | 0 <= j < |slabs| :: slabs[j].Contains(p)
  }

  lemma Close(y: real, l: real, sum: real, b: real, r: real, e: real, m: real)
    requires l > 0.0 && y * l == sum && e == sum - l * b && m == l * r && Abs(e) <= m
    ensures Abs(y - b) <= r
  {
    var x := y - b;
    assert e == x * l;
    AbsProduct(e, x, l);
    if Abs(x) > r {
      MulStrictlyMonotone(r, Abs(x), l);
    }
  }

  lemma AlongAt(a: Vector3, pts: seq<Vector3>)
    requires |pts| == 5
    ensures forall i | 0 <= i < 5 :: Along(a, pts)[i] == a.Dot(pts[i])
  {
    hide Vector3.Dot;
  }

  lemma ValuesWithin(slab: Slab, w: seq<real>, pts: seq<Vector3>)
    requires |w| == 5 && |pts| == 5
    requires forall i | 0 <= i < 5 && w[i] > 0.0 :: slab.Contains(pts[i])
    ensures forall i | 0 <= i < 5 && w[i] > 0.0 :: Abs(Along(slab.normal, pts)[i] - slab.offset) <= slab.radius
  {
    AlongAt(slab.normal, pts);
    hide Along, Vector3.Dot, Abs;
  }

  lemma WeightedClose(w: seq<real>, f: seq<real>, l: real, b: real, r: real, y: real)
    requires |w| == 5 && |f| == 5 && l == Total(w) && l > 0.0 && y * l == Sum5(w, f)
    requires forall i | 0 <= i < 5 :: w[i] >= 0.0
    requires forall i | 0 <= i < 5 && w[i] > 0.0 :: Abs(f[i] - b) <= r
    ensures Abs(y - b) <= r
  {
    hide Sum5, Total, Abs;
    var e, m := WeightedWithin(w, f, l, b, r);
    Close(y, l, Sum5(w, f), b, r, e, m);
  }

  lemma InSlabBy(slab: Slab, w: seq<real>, pts: seq<Vector3>, l: real, p: Vector3, y: real)
    requires |w| == 5 && |pts| == 5 && l > 0.0 && l == Total(w)
    requires forall i | 0 <= i < 5 :: w[i] >= 0.0
    requires forall i | 0 <= i < 5 && w[i] > 0.0 :: slab.Contains(pts[i])
    requires y == slab.normal.Dot(p) && y * l == Sum5(w, Along(slab.normal, pts))
    ensures slab.Contains(p)
  {
    hide Sum5, Total, Along, Vector3.Dot, Abs;
    ValuesWithin(slab, w, pts);
    WeightedClose(w, Along(slab.normal, pts), l, slab.offset, slab.radius, y);
  }

  lemma BlendScaled(w: seq<real>, pts: seq<Vector3>, a: Vector3, l: real) returns (y: real)
    requires |w| == 5 && |pts| == 5 && l > 0.0
    ensures y == a.Dot(Blend(w, pts).Scale(1.0 / l)) && y * l == Sum5(w, Along(a, pts))
  {
    hide Sum5, Blend, Along, Vector3.Dot, Vector3.Scale;
    BlendDot(w, pts, a);
    DotScale(Blend(w, pts), 1.0 / l, a);
    var d, i := a.Dot(Blend(w, pts)), 1.0 / l;
    assert i * l == 1.0;
    y := i * d;
    assert y * l == d * (i * l);
  }

  /** The point common to the hulls of the two halves of an affine dependency is in every slab. */
  lemma RadonPoint(slabs: seq<Slab>, pts: seq<Vector3>, k: seq<real>) returns (p: Vector3)
    requires |pts| == 5 && |k| == 5 && Affine(k, pts, slabs) && Omitting(slabs, pts, k)
    ensures InAll(slabs, p)
  {
    hide Sum5, Total, Blend, Along, Slab.Contains, Vector3.Dot, Vector3.Scale, Positive, Negative;
    var pos, neg := Positive(k), Negative(k);
    TotalsEqual(k);
    var l := Total(pos);
    p := Blend(pos, pts).Scale(1.0 / l);
    forall j | 0 <= j < |slabs|
      ensures slabs[j].Contains(p)
    {
      var a := slabs[j].normal;
      SumsEqual(k, Along(a, pts));
      var y := BlendScaled(pos, pts, a, l);
      InSlabBy(slabs[j], if j < 5 && k[j] > 0.0 then neg else pos, pts, l, p, y);
    }
  }

  /** Helly's theorem in space: with a point for each of the first five slabs left out, all have a common point. */
  lemma Helly(slabs: seq<Slab>, pts: seq<Vector3>) returns (p: Vector3)
    requires |pts| == 5 && forall i, j | 0 <= i < 5 && 0 <= j < |slabs| && i != j :: slabs[j].Contains(pts[i])
    ensures InAll(slabs, p)
  {
    var v := [pts[0].Sub(pts[4]), pts[1].Sub(pts[4]), pts[2].Sub(pts[4]), pts[3].Sub(pts[4])];
    var d := Dependent(v);
    var k := d + [-(d[0] + d[1] + d[2] + d[3])];
    var i :| 0 <= i < 4 && d[i] != 0.0;
    assert k[i] != 0.0;
    forall j | 0 <= j < |slabs|
      ensures Sum5(k, Along(slabs[j].normal, pts)) == 0.0
    {
      DependencyAlong(d, k, pts, v, slabs[j].normal);
    }
    assert Total(k) == 0.0;
    hide Sum5, Total, Along, Slab.Contains, Dependency;
    p := RadonPoint(slabs, pts, k);
  }

  lemma DependencyAlong(d: seq<real>, k: seq<real>, pts: seq<Vector3>, v: seq<Vector3>, a: Vector3)
    requires |pts| == 5 && Dependency(d, v) && k == d + [-(d[0] + d[1] + d[2] + d[3])]
    requires v == [pts[0].Sub(pts[4]), pts[1].Sub(pts[4]), pts[2].Sub(pts[4]), pts[3].Sub(pts[4])]
    ensures Sum5(k, Along(a, pts)) == 0.0
  {
    var f := Along(a, pts);
    hide Vector3.Dot;
    DotSub(pts[0], pts[4], a);
    DotSub(pts[1], pts[4], a);
    DotSub(pts[2], pts[4], a);
    DotSub(pts[3], pts[4], a);
    WeightedDot(d, v, a);
  }

  lemma WeightedDot(d: seq<real>, v: seq<Vector3>, a: Vector3)
    requires Dependency(d, v)
    ensures d[0] * v[0].Dot(a) + d[1] * v[1].Dot(a) + d[2] * v[2].Dot(a) + d[3] * v[3].Dot(a) == 0.0
  {
    var q0, q1, q2, q3 := v[0].Scale(d[0]), v[1].Scale(d[1]), v[2].Scale(d[2]), v[3].Scale(d[3]);
    assert q0.Add(q1).Add(q2).Add(q3) == ZERO;
    assert ZERO.Dot(a) == 0.0;
    hide Vector3.Dot, Vector3.Add, Vector3.Scale;
    DotAdd(q0.Add(q1).Add(q2), q3, a);
    DotAdd(q0.Add(q1), q2, a);
    DotAdd(q0, q1, a);
    DotScale(v[0], d[0], a);
    DotScale(v[1], d[1], a);
    DotScale(v[2], d[2], a);
    DotScale(v[3], d[3], a);
  }
}
