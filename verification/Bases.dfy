/** Orthonormal bases: three perpendicular unit vectors span the space. */
module Bases {
  import opened RealMath
  import opened Vectors

  predicate Orthonormal(a: Vector3, b: Vector3, c: Vector3) {
    && a.LengthSquared() == 1.0 && b.LengthSquared() == 1.0 && c.LengthSquared() == 1.0
    && a.Dot(b) == 0.0 && a.Dot(c) == 0.0 && b.Dot(c) == 0.0
  }

  /** The vector with coordinates k in the basis a, b, c. */
  function Combine(a: Vector3, b: Vector3, c: Vector3, k: Vector3): Vector3 {
    a.Scale(k.x).Add(b.Scale(k.y)).Add(c.Scale(k.z))
  }

  /** The coordinates of v against a, b, c. */
  function Coordinates(a: Vector3, b: Vector3, c: Vector3, v: Vector3): Vector3 {
    Vector3(v.Dot(a), v.Dot(b), v.Dot(c))
  }

  lemma TripleX(u: Vector3, w: Vector3, v: Vector3)
    ensures u.Cross(w).Cross(v).x == w.x * u.Dot(v) - u.x * w.Dot(v)
  {
    assert u.x * w.x * v.x == w.x * u.x * v.x;
  }

  lemma TripleY(u: Vector3, w: Vector3, v: Vector3)
    ensures u.Cross(w).Cross(v).y == w.y * u.Dot(v) - u.y * w.Dot(v)
  {
    assert u.y * w.y * v.y == w.y * u.y * v.y;
  }

  lemma TripleZ(u: Vector3, w: Vector3, v: Vector3)
    ensures u.Cross(w).Cross(v).z == w.z * u.Dot(v) - u.z * w.Dot(v)
  {
    assert u.z * w.z * v.z == w.z * u.z * v.z;
  }

  /** (u x w) x v == (u . v) w - (w . v) u */
  lemma TripleProduct(u: Vector3, w: Vector3, v: Vector3)
    ensures u.Cross(w).Cross(v) == w.Scale(u.Dot(v)).Sub(u.Scale(w.Dot(v)))
  {
    TripleX(u, w, v);
    TripleY(u, w, v);
    TripleZ(u, w, v);
  }

  lemma ScalarTriple(u: Vector3, a: Vector3, c: Vector3)
    ensures u.Dot(a.Cross(c)) == u.Cross(a).Dot(c)
  {
  }

  /** The Binet-Cauchy identity for two cross products with a common factor. */
  lemma BinetCauchy(a: Vector3, b: Vector3, c: Vector3)
    ensures a.Cross(b).Dot(a.Cross(c)) == a.LengthSquared() * b.Dot(c) - b.Dot(a) * a.Dot(c)
  {
    hide Vector3.Cross, Vector3.Dot, Vector3.Scale, Vector3.Sub;
    ScalarTriple(a.Cross(b), a, c);
    TripleProduct(a, b, a);
    DotSub(b.Scale(a.Dot(a)), a.Scale(b.Dot(a)), c);
    DotScale(b, a.Dot(a), c);
    DotScale(a, b.Dot(a), c);
  }

  lemma CrossScaleComponent(p: real, q: real, r: real, s: real, k: real)
    ensures p * (r * k) - q * (s * k) == (p * r - q * s) * k
  {
    assert p * (r * k) == (p * r) * k;
    assert q * (s * k) == (q * s) * k;
  }

  lemma CrossScale(n: Vector3, a: Vector3, k: real)
    ensures n.Cross(a.Scale(k)) == n.Cross(a).Scale(k)
  {
    CrossScaleComponent(n.y, n.z, a.z, a.y, k);
    CrossScaleComponent(n.z, n.x, a.x, a.z, k);
    CrossScaleComponent(n.x, n.y, a.y, a.x, k);
  }

  lemma CrossSub(n: Vector3, a: Vector3, b: Vector3)
    ensures n.Cross(b.Sub(a)) == n.Cross(b).Sub(n.Cross(a))
  {
  }

  lemma CrossLinear(n: Vector3, a: Vector3, b: Vector3, k: real, l: real)
    ensures n.Cross(b.Scale(k).Sub(a.Scale(l))) == n.Cross(b).Scale(k).Sub(n.Cross(a).Scale(l))
  {
    CrossSub(n, a.Scale(l), b.Scale(k));
    CrossScale(n, a, l);
    CrossScale(n, b, k);
  }

  lemma CrossAnticommutes(a: Vector3, b: Vector3)
    ensures a.Cross(b) == b.Cross(a).Scale(-1.0)
  {
  }

  /** Two perpendicular unit vectors and their cross product expand every vector. */
  lemma ExpandByCross(a: Vector3, b: Vector3, v: Vector3)
    requires a.LengthSquared() == 1.0 && b.LengthSquared() == 1.0 && a.Dot(b) == 0.0
    ensures var n := a.Cross(b);
            n.LengthSquared() == 1.0 && v == Combine(a, b, n, Vector3(a.Dot(v), b.Dot(v), n.Dot(v)))
  {
    var n := a.Cross(b);
    LagrangeIdentity(a, b);
    DotCommutes(a, b);
    TripleProduct(a, b, v);
    TripleProduct(a, b, a);
    TripleProduct(a, b, b);
    assert n.Cross(a) == b;
    assert n.Cross(b) == a.Scale(-1.0);
    // n x (n x v) computed through the two expansions of the triple product
    CrossLinear(n, a, b, a.Dot(v), b.Dot(v));
    TripleProduct(n, v, n);
    CrossAnticommutes(n, n.Cross(v));
    assert n.Cross(n.Cross(v)) == v.Scale(n.Dot(n)).Sub(n.Scale(v.Dot(n))).Scale(-1.0);
    DotCommutes(v, n);
    assert n.Cross(n.Cross(v)) == n.Cross(b).Scale(a.Dot(v)).Sub(n.Cross(a).Scale(b.Dot(v)));
  }

  lemma CombineThirdOnly(a: Vector3, b: Vector3, n: Vector3, k: real)
    ensures Combine(a, b, n, Vector3(0.0, 0.0, k)) == n.Scale(k)
  {
    assert a.Scale(0.0) == ZERO;
    assert b.Scale(0.0) == ZERO;
    var m := n.Scale(k);
    assert ZERO.Add(ZERO).Add(m) == m;
  }

  lemma UnitMultiple(n: Vector3, k: real)
    requires n.Scale(k).LengthSquared() == 1.0 && n.LengthSquared() == 1.0
    ensures k * k == 1.0
  {
    DotScale(n, k, n.Scale(k));
    DotScale(n, k, n);
  }

  /** The third axis of a basis is the cross product of the other two, up to sign. */
  lemma ThirdAxis(a: Vector3, b: Vector3, c: Vector3) returns (k: real)
    requires Orthonormal(a, b, c)
    ensures c == a.Cross(b).Scale(k) && k * k == 1.0
  {
    var n := a.Cross(b);
    ExpandByCross(a, b, c);
    k := n.Dot(c);
    CombineThirdOnly(a, b, n, k);
    assert c == n.Scale(k);
    UnitMultiple(n, k);
  }

  lemma ThirdTerm(n: Vector3, k: real, v: Vector3)
    requires k * k == 1.0
    ensures n.Scale(k).Scale(v.Dot(n.Scale(k))) == n.Scale(n.Dot(v))
  {
    DotScale(n, k, v);
    DotCommutes(v, n);
    ScaleTwice(n, k, n.Dot(v));
  }

  /** Every vector is the combination of its own coordinates: entering the basis and leaving it is the identity. */
  lemma CombineCoordinates(a: Vector3, b: Vector3, c: Vector3, v: Vector3)
    requires Orthonormal(a, b, c)
    ensures Combine(a, b, c, Coordinates(a, b, c, v)) == v
  {
    var n := a.Cross(b);
    ExpandByCross(a, b, v);
    DotCommutes(v, a);
    DotCommutes(v, b);
    var k := ThirdAxis(a, b, c);
    ThirdTerm(n, k, v);
  }

  lemma ScaleTwice(n: Vector3, k: real, m: real)
    requires k * k == 1.0
    ensures n.Scale(k).Scale(k * m) == n.Scale(m)
  {
    calc {
      n.x * k * (k * m);
      n.x * (k * k) * m;
      n.x * m;
    }
    calc {
      n.y * k * (k * m);
      n.y * (k * k) * m;
      n.y * m;
    }
    calc {
      n.z * k * (k * m);
      n.z * (k * k) * m;
      n.z * m;
    }
  }

  /** And the coordinates of a combination are the ones it was combined from. */
  lemma CoordinatesCombine(a: Vector3, b: Vector3, c: Vector3, k: Vector3)
    requires Orthonormal(a, b, c)
    ensures Coordinates(a, b, c, Combine(a, b, c, k)) == k
  {
    CombineDot(a, b, c, k, a);
    CombineDot(a, b, c, k, b);
    CombineDot(a, b, c, k, c);
    DotCommutes(a, b);
    DotCommutes(a, c);
    DotCommutes(b, c);
  }

  lemma CombineDot(a: Vector3, b: Vector3, c: Vector3, k: Vector3, w: Vector3)
    ensures Combine(a, b, c, k).Dot(w) == k.x * a.Dot(w) + k.y * b.Dot(w) + k.z * c.Dot(w)
  {
    DotAdd(a.Scale(k.x).Add(b.Scale(k.y)), c.Scale(k.z), w);
    DotAdd(a.Scale(k.x), b.Scale(k.y), w);
    DotScale(a, k.x, w);
    DotScale(b, k.y, w);
    DotScale(c, k.z, w);
  }
}
