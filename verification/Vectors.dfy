/** Three-vectors of reals, as the collider shapes use them. */
module Vectors {
  import opened RealMath

  function LerpComponent(a: real, b: real, t: real): real {
    a + (b - a) * t
  }

  datatype Vector3 = Vector3(x: real, y: real, z: real) {

    function Add(o: Vector3): Vector3 {
      Vector3(x + o.x, y + o.y, z + o.z)
    }

    function Sub(o: Vector3): Vector3 {
      Vector3(x - o.x, y - o.y, z - o.z)
    }

    function Scale(s: real): Vector3 {
      Vector3(x * s, y * s, z * s)
    }

    function Dot(o: Vector3): real {
      x * o.x + y * o.y + z * o.z
    }

    function Cross(o: Vector3): Vector3 {
      Vector3(y * o.z - z * o.y, z * o.x - x * o.z, x * o.y - y * o.x)
    }

    function LengthSquared(): real {
      Dot(this)
    }

    function DistanceSquaredTo(o: Vector3): real {
      Sub(o).LengthSquared()
    }

    function Lerp(o: Vector3, t: real): Vector3 {
      Vector3(LerpComponent(x, o.x, t), LerpComponent(y, o.y, t), LerpComponent(z, o.z, t))
    }

    function Component(axis: int): real
      requires 0 <= axis < 3
    {
      if axis == 0 then x else if axis == 1 then y else z
    }
  }

  const ZERO := Vector3(0.0, 0.0, 0.0)
  const UNIT_X := Vector3(1.0, 0.0, 0.0)
  const UNIT_Y := Vector3(0.0, 1.0, 0.0)
  const UNIT_Z := Vector3(0.0, 0.0, 1.0)

  lemma DotCommutes(u: Vector3, v: Vector3)
    ensures u.Dot(v) == v.Dot(u)
  {
  }

  lemma DotAdd(u: Vector3, v: Vector3, w: Vector3)
    ensures u.Add(v).Dot(w) == u.Dot(w) + v.Dot(w)
  {
  }

  lemma DotSub(u: Vector3, v: Vector3, w: Vector3)
    ensures u.Sub(v).Dot(w) == u.Dot(w) - v.Dot(w)
  {
  }

  lemma DotScale(u: Vector3, s: real, w: Vector3)
    ensures u.Scale(s).Dot(w) == s * u.Dot(w)
    ensures w.Dot(u.Scale(s)) == s * w.Dot(u)
  {
  }

  lemma DistanceSymmetric(u: Vector3, v: Vector3)
    ensures u.DistanceSquaredTo(v) == v.DistanceSquaredTo(u)
  {
  }

  lemma LengthSquaredNonNegative(u: Vector3)
    ensures u.LengthSquared() >= 0.0
  {
    SquareNonNegative(u.x);
    SquareNonNegative(u.y);
    SquareNonNegative(u.z);
  }

  /** |u + t v|^2 is a quadratic in t whose coefficients are dot products. */
  lemma LengthAlong(u: Vector3, v: Vector3, t: real)
    ensures u.Add(v.Scale(t)).LengthSquared() == u.LengthSquared() + 2.0 * t * u.Dot(v) + t * t * v.LengthSquared()
  {
    var w := v.Scale(t);
    DotAdd(u, w, u.Add(w));
    DotCommutes(u, u.Add(w));
    DotCommutes(w, u.Add(w));
    DotAdd(u, w, u);
    DotAdd(u, w, w);
    DotCommutes(u, w);
    DotScale(v, t, u);
    DotScale(v, t, w);
    DotScale(v, t, v);
    calc {
      w.Dot(w);
      t * v.Dot(w);
      t * (t * v.Dot(v));
    }
  }

  /** Lagrange's identity. */
  lemma LagrangeIdentity(u: Vector3, v: Vector3)
    ensures u.Cross(v).LengthSquared() == u.LengthSquared() * v.LengthSquared() - u.Dot(v) * u.Dot(v)
  {
    var a, b, c := u.y * v.z, u.z * v.y, u.z * v.x;
    var d, e, f := u.x * v.z, u.x * v.y, u.y * v.x;
    assert (a - b) * (a - b) == a * a - 2.0 * a * b + b * b;
    assert (c - d) * (c - d) == c * c - 2.0 * c * d + d * d;
    assert (e - f) * (e - f) == e * e - 2.0 * e * f + f * f;
  }

  lemma CauchySchwarz(u: Vector3, v: Vector3)
    ensures u.Dot(v) * u.Dot(v) <= u.LengthSquared() * v.LengthSquared()
  {
    LagrangeIdentity(u, v);
    LengthSquaredNonNegative(u.Cross(v));
  }
}
