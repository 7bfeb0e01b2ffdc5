/** The body warp: a height-dependent lateral and depth correction, its gates, and its inverse. */
module BodyWarp {
  import opened Wrappers
  import opened RealMath
  import opened Vectors
  import opened Bases

  // --- piecewise-linear interpolation, clamped at both ends ------------------------------------------

  predicate Increasing(xs: seq<real>) {
    forall i, j | 0 <= i < j < |xs| :: xs[i] < xs[j]
  }

  function Fraction(x0: real, x1: real, y: real): real
    requires x0 < x1
  {
    (y - x0) / (x1 - x0)
  }

  function Interp(y: real, xs: seq<real>, vs: seq<real>): real
    requires 0 < |xs| == |vs| && Increasing(xs)
  {
    if |xs| == 1 || y <= xs[0] then vs[0]
    else if y < xs[1] then LerpComponent(vs[0], vs[1], Fraction(xs[0], xs[1], y))
    else Interp(y, xs[1..], vs[1..])
  }

  lemma FractionBounds(x0: real, x1: real, y: real)
    requires x0 < x1 && x0 <= y <= x1
    ensures 0.0 <= Fraction(x0, x1, y) <= 1.0
    ensures y == x0 ==> Fraction(x0, x1, y) == 0.0
    ensures y == x1 ==> Fraction(x0, x1, y) == 1.0
  {
    DivBounds(y - x0, x1 - x0);
  }

  lemma LerpEnds(a: real, b: real)
    ensures LerpComponent(a, b, 0.0) == a && LerpComponent(a, b, 1.0) == b
  {
  }

  /** The graph passes through every knot and is the chord between neighbours. */
  lemma {:induction false} InterpChord(y: real, xs: seq<real>, vs: seq<real>, i: nat)
    requires 0 < |xs| == |vs| && Increasing(xs)
    requires i + 1 < |xs| && xs[i] <= y <= xs[i + 1]
    ensures Interp(y, xs, vs) == LerpComponent(vs[i], vs[i + 1], Fraction(xs[i], xs[i + 1], y))
  {
    FractionBounds(xs[i], xs[i + 1], y);
    LerpEnds(vs[i], vs[i + 1]);
    hide LerpComponent, Fraction;
    if i > 0 {
      InterpChord(y, xs[1..], vs[1..], i - 1);
    } else if y == xs[1] {
      InterpKnot(xs[1..], vs[1..]);
    }
  }

  lemma InterpKnot(xs: seq<real>, vs: seq<real>)
    requires 0 < |xs| == |vs| && Increasing(xs)
    ensures Interp(xs[0], xs, vs) == vs[0]
  {
  }

  /** Outside the knots the end values continue. */
  lemma {:induction false} InterpOutside(y: real, xs: seq<real>, vs: seq<real>)
    requires 0 < |xs| == |vs| && Increasing(xs)
    ensures y <= xs[0] ==> Interp(y, xs, vs) == vs[0]
    ensures y >= xs[|xs| - 1] ==> Interp(y, xs, vs) == vs[|vs| - 1]
  {
    if |xs| > 1 && y >= xs[|xs| - 1] {
      InterpOutside(y, xs[1..], vs[1..]);
    }
  }

  /** The weights do not depend on the values: a linear inequality between two rows survives interpolation. */
  lemma {:induction false} InterpInequality(y: real, xs: seq<real>, us: seq<real>, vs: seq<real>, c: real, d: real)
    requires 0 < |xs| == |us| == |vs| && Increasing(xs)
    requires forall i | 0 <= i < |xs| :: c * us[i] + d <= vs[i]
    ensures c * Interp(y, xs, us) + d <= Interp(y, xs, vs)
    decreases |xs|
  {
    if |xs| == 1 || y <= xs[0] {
    } else if y < xs[1] {
      FractionBounds(xs[0], xs[1], y);
      LerpInequality(us[0], us[1], vs[0], vs[1], c, d, Fraction(xs[0], xs[1], y));
    } else {
      InterpInequality(y, xs[1..], us[1..], vs[1..], c, d);
    }
  }

  lemma LerpInequality(u0: real, u1: real, v0: real, v1: real, c: real, d: real, k: real)
    requires 0.0 <= k <= 1.0
    requires c * u0 + d <= v0 && c * u1 + d <= v1
    ensures c * LerpComponent(u0, u1, k) + d <= LerpComponent(v0, v1, k)
  {
    var p := NonNegativeProduct(1.0 - k, v0 - (c * u0 + d));
    var q := NonNegativeProduct(k, v1 - (c * u1 + d));
    assert LerpComponent(v0, v1, k) - (c * LerpComponent(u0, u1, k) + d) == p + q;
  }

  // --- the lateral map at one height ---------------------------------------------------------------------

  /** Scale inside the trunk, translate outside it. */
  function Lateral(x: real, sw: real, tw: real): real
    requires sw != 0.0
  {
    if Abs(x) <= sw then x * tw / sw
    else if x > 0.0 then x + (tw - sw) else if x < 0.0 then x - (tw - sw) else x
  }

  lemma QuotientIs(p: real, y: real, q: real)
    requires y > 0.0 && p == q * y
    ensures p / y == q
  {
  }

  lemma QuotientWithin(x: real, sw: real, tw: real, p: real, q: real)
    requires sw > 0.0 && tw > 0.0 && p == x * tw && p == q * sw && Abs(x) <= sw
    ensures Abs(q) <= tw
  {
    MulMonotone(x, sw, tw);
    MulMonotone(-sw, x, tw);
    if q > tw {
      MulStrictlyMonotone(tw, q, sw);
    } else if q < -tw {
      MulStrictlyMonotone(q, -tw, sw);
    }
  }

  lemma ScaledWithin(x: real, sw: real, tw: real)
    requires sw > 0.0 && tw > 0.0
    ensures Abs(x) <= sw ==> Abs(x * tw / sw) <= tw
    ensures (x * tw / sw) * sw / tw == x
  {
    var p := x * tw;
    var q := p / sw;
    DivBounds(p, sw);
    hide Abs;
    if Abs(x) <= sw {
      QuotientWithin(x, sw, tw, p, q);
    }
    QuotientIs(q * sw, tw, x);
  }

  /** Swapping the two half widths undoes the lateral map. */
  lemma LateralInverse(x: real, sw: real, tw: real)
    requires sw > 0.0 && tw > 0.0
    ensures Lateral(Lateral(x, sw, tw), tw, sw) == x
  {
    if Abs(x) <= sw {
      ScaledWithin(x, sw, tw);
    }
  }

  /** One formula for all branches, which also shows they meet at the trunk's edge. */
  lemma LateralClosedForm(x: real, sw: real, tw: real, k: real)
    requires sw > 0.0 && k * sw == tw
    ensures Lateral(x, sw, tw) == x + (k - 1.0) * Clamp(-sw, sw, x)
  {
    if Abs(x) <= sw {
      assert x * tw == (x * k) * sw;
      assert x * tw / sw == x * k;
      assert Clamp(-sw, sw, x) == x;
      assert x + (k - 1.0) * x == x * k;
    } else if x > 0.0 {
      assert Clamp(-sw, sw, x) == sw;
    } else {
      assert Clamp(-sw, sw, x) == -sw;
    }
  }

  lemma ClampStep(sw: real, x: real, y: real)
    requires sw > 0.0 && x <= y
    ensures 0.0 <= Clamp(-sw, sw, y) - Clamp(-sw, sw, x) <= y - x
  {
  }

  lemma RatioRange(t: real, s: real, k: real)
    requires s > 0.0 && k * s == t
    ensures 0.5 <= k <= 2.0 <==> 0.5 * s <= t <= 2.0 * s
  {
    if k < 0.5 {
      MulStrictlyMonotone(k, 0.5, s);
    } else {
      MulMonotone(0.5, k, s);
    }
    if k > 2.0 {
      MulStrictlyMonotone(2.0, k, s);
    } else {
      MulMonotone(k, 2.0, s);
    }
  }

  lemma StretchRange(k: real, a: real, b: real, p: real, q: real, apart: real)
    requires 0.5 <= k <= 2.0 && 0.0 <= b - a <= apart && p == (k - 1.0) * a && q == (k - 1.0) * b
    ensures 0.5 * apart <= apart + (q - p) <= 2.0 * apart
  {
    var u := NonNegativeProduct(k - 0.5, b - a);
    var v := NonNegativeProduct(2.0 - k, b - a);
    assert q - p == (k - 1.0) * (b - a);
    assert q - p == u - 0.5 * (b - a);
    assert q - p == (b - a) - v;
  }

  /** Distances grow at most twice and shrink at most to half: strictly increasing and continuous everywhere. */
  lemma LateralStretch(x: real, y: real, sw: real, tw: real)
    requires sw > 0.0 && 0.5 * sw <= tw <= 2.0 * sw && x <= y
    ensures 0.5 * (y - x) <= Lateral(y, sw, tw) - Lateral(x, sw, tw) <= 2.0 * (y - x)
  {
    hide Lateral, Clamp;
    DivBounds(tw, sw);
    LateralStretchBy(x, y, sw, tw, tw / sw);
  }

  lemma LateralStretchBy(x: real, y: real, sw: real, tw: real, k: real)
    requires sw > 0.0 && 0.5 * sw <= tw <= 2.0 * sw && x <= y && k * sw == tw
    ensures 0.5 * (y - x) <= Lateral(y, sw, tw) - Lateral(x, sw, tw) <= 2.0 * (y - x)
  {
    hide Lateral, Clamp;
    RatioRange(tw, sw, k);
    LateralClosedForm(x, sw, tw, k);
    LateralClosedForm(y, sw, tw, k);
    ClampStep(sw, x, y);
    var a, b := Clamp(-sw, sw, x), Clamp(-sw, sw, y);
    StretchRange(k, a, b, (k - 1.0) * a, (k - 1.0) * b, y - x);
  }

  /** Outside the trunk nothing is scaled: a limb keeps its shape. */
  lemma LimbsTranslate(x: real, y: real, sw: real, tw: real)
    requires sw > 0.0 && ((x > sw && y > sw) || (x < -sw && y < -sw))
    ensures Lateral(y, sw, tw) - Lateral(x, sw, tw) == y - x
  {
  }

  // --- the warp -------------------------------------------------------------------------------------------------

  datatype Profile = Profile(heights: seq<real>, sourceX: seq<real>, targetX: seq<real>,
                             sourceHalfWidth: seq<real>, targetHalfWidth: seq<real>, depthShift: seq<real>)
  {
    predicate Shaped() {
      && 0 < |heights| == |sourceX| == |targetX| == |sourceHalfWidth| == |targetHalfWidth| == |depthShift|
      && Increasing(heights)
    }

    /** What the gates establish: real trunks of compatible width at every knot. */
    predicate Valid() {
      && Shaped()
      && (forall i | 0 <= i < |heights| :: sourceHalfWidth[i] >= 0.03 && targetHalfWidth[i] >= 0.03)
      && (forall i | 0 <= i < |heights| ::
            0.5 * sourceHalfWidth[i] <= targetHalfWidth[i] <= 2.0 * sourceHalfWidth[i])
    }
  }

  datatype Warp = Warp(lateral: Vector3, up: Vector3, towardFront: Vector3, profile: Profile, yShift: real) {
    predicate Valid() {
      Orthonormal(lateral, up, towardFront) && profile.Valid()
    }
  }

  /** What the widths interpolate to at any height: positive, and in the same ratio range as at the knots. */
  lemma WidthsAt(p: Profile, y: real)
    requires p.Valid()
    ensures var sw := Interp(y, p.heights, p.sourceHalfWidth);
            var tw := Interp(y, p.heights, p.targetHalfWidth);
            sw >= 0.03 && tw >= 0.03 && 0.5 * sw <= tw <= 2.0 * sw
  {
    InterpInequality(y, p.heights, p.sourceHalfWidth, p.sourceHalfWidth, 0.0, 0.03);
    InterpInequality(y, p.heights, p.targetHalfWidth, p.targetHalfWidth, 0.0, 0.03);
    InterpInequality(y, p.heights, p.sourceHalfWidth, p.targetHalfWidth, 0.5, 0.0);
    InterpInequality(y, p.heights, p.targetHalfWidth, p.sourceHalfWidth, 0.5, 0.0);
  }

  /** Forward in body space: q are coordinates lateral, up, toward front. */
  function Forward(w: Warp, q: Vector3): Vector3
    requires w.profile.Valid()
  {
    WidthsAt(w.profile, q.y + w.yShift);
    var p, y := w.profile, q.y + w.yShift;
    var sx, tx := Interp(y, p.heights, p.sourceX), Interp(y, p.heights, p.targetX);
    var sw, tw := Interp(y, p.heights, p.sourceHalfWidth), Interp(y, p.heights, p.targetHalfWidth);
    Vector3(tx + Lateral(q.x - sx, sw, tw), q.y + w.yShift, q.z + Interp(y, p.heights, p.depthShift))
  }

  /** And back, with source and target exchanged and the height taken as it is. */
  function Backward(w: Warp, q: Vector3): Vector3
    requires w.profile.Valid()
  {
    WidthsAt(w.profile, q.y);
    var p, y := w.profile, q.y;
    var sx, tx := Interp(y, p.heights, p.targetX), Interp(y, p.heights, p.sourceX);
    var sw, tw := Interp(y, p.heights, p.targetHalfWidth), Interp(y, p.heights, p.sourceHalfWidth);
    Vector3(tx + Lateral(q.x - sx, sw, tw), q.y - w.yShift, q.z - Interp(y, p.heights, p.depthShift))
  }

  function Apply(w: Warp, point: Vector3, inverse: bool): Vector3
    requires w.Valid()
  {
    var q := Coordinates(w.lateral, w.up, w.towardFront, point);
    Combine(w.lateral, w.up, w.towardFront, if inverse then Backward(w, q) else Forward(w, q))
  }

  lemma BodySpaceInverse(w: Warp, q: Vector3)
    requires w.profile.Valid()
    ensures Backward(w, Forward(w, q)) == q
    ensures Forward(w, Backward(w, q)) == q
  {
    BodySpaceForwardBack(w, q);
    BodySpaceBackForward(w, q);
  }

  lemma BodySpaceForwardBack(w: Warp, q: Vector3)
    requires w.profile.Valid()
    ensures Backward(w, Forward(w, q)) == q
  {
    var p, y := w.profile, q.y + w.yShift;
    WidthsAt(p, y);
    hide Interp, Lateral;
    LateralInverse(q.x - Interp(y, p.heights, p.sourceX), Interp(y, p.heights, p.sourceHalfWidth),
                   Interp(y, p.heights, p.targetHalfWidth));
  }

  lemma BodySpaceBackForward(w: Warp, q: Vector3)
    requires w.profile.Valid()
    ensures Forward(w, Backward(w, q)) == q
  {
    var p, y := w.profile, q.y;
    WidthsAt(p, y);
    hide Interp, Lateral;
    var b := Backward(w, q);
    assert b.y + w.yShift == y;
    LateralInverse(q.x - Interp(y, p.heights, p.targetX), Interp(y, p.heights, p.targetHalfWidth),
                   Interp(y, p.heights, p.sourceHalfWidth));
  }

  /** The warp is a bijection of space: each direction undoes the other at every point. */
  lemma WarpInverse(w: Warp, point: Vector3)
    requires w.Valid()
    ensures Apply(w, Apply(w, point, false), true) == point
    ensures Apply(w, Apply(w, point, true), false) == point
  {
    hide Forward, Backward, Combine, Coordinates, Orthonormal, Profile.Valid;
    var q := Coordinates(w.lateral, w.up, w.towardFront, point);
    BodySpaceInverse(w, q);
    CoordinatesCombine(w.lateral, w.up, w.towardFront, Forward(w, q));
    CoordinatesCombine(w.lateral, w.up, w.towardFront, Backward(w, q));
    CombineCoordinates(w.lateral, w.up, w.towardFront, point);
  }

  /** Same height after as before, the same depth between, and the lateral distance times a factor from half to double. */
  predicate Spread(p: Vector3, q: Vector3, p': Vector3, q': Vector3) {
    p'.y == q'.y && q'.z - p'.z == q.z - p.z && 0.5 * (q.x - p.x) <= q'.x - p'.x <= 2.0 * (q.x - p.x)
  }

  lemma ForwardSpreads(w: Warp, p: Vector3, q: Vector3)
    requires w.profile.Valid() && p.y == q.y && p.x <= q.x
    ensures Spread(p, q, Forward(w, p), Forward(w, q))
  {
    var y := p.y + w.yShift;
    WidthsAt(w.profile, y);
    hide Interp, Lateral;
    var sx := Interp(y, w.profile.heights, w.profile.sourceX);
    LateralStretch(p.x - sx, q.x - sx, Interp(y, w.profile.heights, w.profile.sourceHalfWidth),
                   Interp(y, w.profile.heights, w.profile.targetHalfWidth));
  }

  lemma BackwardSpreads(w: Warp, p: Vector3, q: Vector3)
    requires w.profile.Valid() && p.y == q.y && p.x <= q.x
    ensures Spread(p, q, Backward(w, p), Backward(w, q))
  {
    var y := p.y;
    WidthsAt(w.profile, y);
    hide Interp, Lateral;
    var tx := Interp(y, w.profile.heights, w.profile.targetX);
    LateralStretch(p.x - tx, q.x - tx, Interp(y, w.profile.heights, w.profile.targetHalfWidth),
                   Interp(y, w.profile.heights, w.profile.sourceHalfWidth));
  }

  function BodyCoordinates(w: Warp, point: Vector3): Vector3 {
    Coordinates(w.lateral, w.up, w.towardFront, point)
  }

  /** In either direction, two points of one height keep left and right, their depth apart and a common height. */
  lemma WarpAtHeight(w: Warp, p: Vector3, q: Vector3, inverse: bool)
    requires w.Valid()
    requires BodyCoordinates(w, p).y == BodyCoordinates(w, q).y && BodyCoordinates(w, p).x <= BodyCoordinates(w, q).x
    ensures Spread(BodyCoordinates(w, p), BodyCoordinates(w, q),
                   BodyCoordinates(w, Apply(w, p, inverse)), BodyCoordinates(w, Apply(w, q, inverse)))
  {
    hide Forward, Backward, Combine, Coordinates, Orthonormal, Profile.Valid, Spread;
    var c, d := BodyCoordinates(w, p), BodyCoordinates(w, q);
    ForwardSpreads(w, c, d);
    BackwardSpreads(w, c, d);
    CoordinatesCombine(w.lateral, w.up, w.towardFront, if inverse then Backward(w, c) else Forward(w, c));
    CoordinatesCombine(w.lateral, w.up, w.towardFront, if inverse then Backward(w, d) else Forward(w, d));
  }

  // --- which way it goes ----------------------------------------------------------------------------------------------

  /** Inside the trunk positions scale with the half widths, outside it the distance to the trunk's edge stays. */
  lemma LateralIs(x: real, sw: real, tw: real, y: real)
    requires sw > 0.0 && tw > 0.0 && y == Lateral(x, sw, tw)
    ensures -sw <= x <= sw ==> y * sw == x * tw
    ensures x >= sw ==> y - tw == x - sw
    ensures x <= -sw ==> y + tw == x + sw
  {
    if -sw <= x <= sw {
      DivBounds(x * tw, sw);
      EdgeIs(x, sw, tw, x * tw / sw);
    }
  }

  lemma EdgeIs(x: real, sw: real, tw: real, q: real)
    requires sw > 0.0 && q * sw == x * tw
    ensures x == sw ==> q == tw
    ensures x == -sw ==> q == -tw
  {
    if x == sw {
      QuotientIs(tw * sw, sw, tw);
      QuotientIs(tw * sw, sw, q);
    } else if x == -sw {
      QuotientIs(-tw * sw, sw, -tw);
      QuotientIs(-tw * sw, sw, q);
    }
  }

  /** A trunk of the source lands on the trunk of the target: where a point c at raised height y goes. */
  predicate Carried(w: Warp, c: Vector3, d: Vector3, sx: real, tx: real, sw: real, tw: real, dz: real) {
    && d.y == c.y + w.yShift && d.z == c.z + dz
    && (sx - sw <= c.x <= sx + sw ==> (d.x - tx) * sw == (c.x - sx) * tw)
    && (c.x >= sx + sw ==> d.x - (tx + tw) == c.x - (sx + sw))
    && (c.x <= sx - sw ==> d.x - (tx - tw) == c.x - (sx - sw))
  }

  lemma CarriedBy(w: Warp, c: Vector3, d: Vector3, sx: real, tx: real, sw: real, tw: real, dz: real, x: real, y: real)
    requires sw > 0.0 && tw > 0.0 && x == c.x - sx && y == Lateral(x, sw, tw)
    requires d == Vector3(tx + y, c.y + w.yShift, c.z + dz)
    ensures Carried(w, c, d, sx, tx, sw, tw, dz)
  {
    hide Lateral;
    LateralIs(x, sw, tw, y);
    assert d.x - tx == y;
  }

  lemma ForwardCarries(w: Warp, c: Vector3)
    requires w.profile.Valid()
    ensures var p, y := w.profile, c.y + w.yShift;
            Carried(w, c, Forward(w, c), Interp(y, p.heights, p.sourceX), Interp(y, p.heights, p.targetX),
                    Interp(y, p.heights, p.sourceHalfWidth), Interp(y, p.heights, p.targetHalfWidth),
                    Interp(y, p.heights, p.depthShift))
  {
    var p, y := w.profile, c.y + w.yShift;
    WidthsAt(p, y);
    hide Interp, Lateral, Carried, Profile.Valid;
    var sx, tx := Interp(y, p.heights, p.sourceX), Interp(y, p.heights, p.targetX);
    var sw, tw := Interp(y, p.heights, p.sourceHalfWidth), Interp(y, p.heights, p.targetHalfWidth);
    CarriedBy(w, c, Forward(w, c), sx, tx, sw, tw, Interp(y, p.heights, p.depthShift), c.x - sx, Lateral(c.x - sx, sw, tw));
  }

  /** The forward warp raises a point and carries the source trunk at that height onto the target trunk, by the depth shift. */
  lemma ForwardDirection(w: Warp, point: Vector3)
    requires w.Valid()
    ensures var p, y := w.profile, BodyCoordinates(w, point).y + w.yShift;
            Carried(w, BodyCoordinates(w, point), BodyCoordinates(w, Apply(w, point, false)),
                    Interp(y, p.heights, p.sourceX), Interp(y, p.heights, p.targetX),
                    Interp(y, p.heights, p.sourceHalfWidth), Interp(y, p.heights, p.targetHalfWidth),
                    Interp(y, p.heights, p.depthShift))
  {
    hide Forward, Backward, Combine, Coordinates, Orthonormal, Profile.Valid, Carried, Interp;
    var c := BodyCoordinates(w, point);
    ForwardCarries(w, c);
    CoordinatesCombine(w.lateral, w.up, w.towardFront, Forward(w, c));
  }

  /** At a knot these are the knot's own numbers: height, depth, and both edges and the middle of the trunk. */
  lemma KnotImage(w: Warp, point: Vector3, k: nat)
    requires w.Valid() && k < |w.profile.heights|
    requires BodyCoordinates(w, point).y + w.yShift == w.profile.heights[k]
    ensures var p, c, d := w.profile, BodyCoordinates(w, point), BodyCoordinates(w, Apply(w, point, false));
            && d.y == p.heights[k] && d.z == c.z + p.depthShift[k]
            && (c.x == p.sourceX[k] ==> d.x == p.targetX[k])
            && (c.x == p.sourceX[k] + p.sourceHalfWidth[k] ==> d.x == p.targetX[k] + p.targetHalfWidth[k])
            && (c.x == p.sourceX[k] - p.sourceHalfWidth[k] ==> d.x == p.targetX[k] - p.targetHalfWidth[k])
  {
    var p, c, d := w.profile, BodyCoordinates(w, point), BodyCoordinates(w, Apply(w, point, false));
    ForwardDirection(w, point);
    hide Apply, Orthonormal, BodyCoordinates, Carried;
    InterpAtKnot(p.heights, p.sourceX, k);
    InterpAtKnot(p.heights, p.targetX, k);
    InterpAtKnot(p.heights, p.sourceHalfWidth, k);
    InterpAtKnot(p.heights, p.targetHalfWidth, k);
    InterpAtKnot(p.heights, p.depthShift, k);
    hide Interp;
    CarriedEdges(w, c, d, p.sourceX[k], p.targetX[k], p.sourceHalfWidth[k], p.targetHalfWidth[k], p.depthShift[k]);
  }

  lemma CarriedEdges(w: Warp, c: Vector3, d: Vector3, sx: real, tx: real, sw: real, tw: real, dz: real)
    requires sw > 0.0 && Carried(w, c, d, sx, tx, sw, tw, dz)
    ensures d.y == c.y + w.yShift && d.z == c.z + dz
    ensures (c.x == sx ==> d.x == tx) && (c.x == sx + sw ==> d.x == tx + tw) && (c.x == sx - sw ==> d.x == tx - tw)
  {
    MiddleIs(d.x - tx, c.x - sx, sw, tw);
  }

  lemma MiddleIs(y: real, x: real, sw: real, tw: real)
    requires sw > 0.0 && (-sw <= x <= sw ==> y * sw == x * tw)
    ensures x == 0.0 ==> y == 0.0
  {
  }

  // --- the basis ----------------------------------------------------------------------------------------------------

  /** Lateral, up and toward-front from any horizontal unit direction are perpendicular unit vectors, right-handed. */
  lemma BodyBasis(towardFront: Vector3)
    requires towardFront.y == 0.0 && towardFront.LengthSquared() == 1.0
    ensures Orthonormal(UNIT_Y.Cross(towardFront), UNIT_Y, towardFront)
    ensures UNIT_Y.Cross(towardFront) == Vector3(towardFront.z, 0.0, -towardFront.x)
  {
    var l := UNIT_Y.Cross(towardFront);
    assert l == Vector3(towardFront.z, 0.0, -towardFront.x);
  }

  // --- measuring the slices ------------------------------------------------------------------------------------------

  const SLICES: nat := 12

  /** What is measured in both clouds around one height; the quantiles and medians are taken as given. */
  datatype Slice = Slice(frontCount: nat, rearCount: nat, frontLeft: real, frontRight: real, rearLeft: real, rearRight: real,
                         frontInner: real, rearInner: real, frontMedian: real, rearMedian: real)

  datatype Rejection = TorsoAndLegsNotVisible | ProfilesIncompatible

  function Steps(step: real, i: int): real {
    step * i as real
  }

  /** Twelve evenly spaced heights, both ends included. */
  function SliceHeight(floor: real, shoulder: real, i: int): real {
    var lo, hi := floor + 0.08, shoulder - 0.04;
    lo + Steps((hi - lo) / 11.0, i)
  }

  /** Enough points on both sides, and a trunk wide enough on both. */
  predicate Usable(s: Slice) {
    s.frontCount >= 20 && s.rearCount >= 20 && s.frontRight - s.frontLeft >= 0.06 && s.rearRight - s.rearLeft >= 0.06
  }

  /** The usable ones of the first n slices, in order. */
  function Kept(slices: seq<Slice>, n: nat): seq<nat>
    requires n <= |slices|
  {
    if n == 0 then []
    else if Usable(slices[n - 1]) then Kept(slices, n - 1) + [n - 1]
    else Kept(slices, n - 1)
  }

  lemma {:induction false} KeptInOrder(slices: seq<Slice>, n: nat)
    requires n <= |slices|
    ensures forall k | 0 <= k < |Kept(slices, n)| :: Kept(slices, n)[k] < n && Usable(slices[Kept(slices, n)[k]])
    ensures forall j, k | 0 <= j < k < |Kept(slices, n)| :: Kept(slices, n)[j] < Kept(slices, n)[k]
    ensures forall i | 0 <= i < n && Usable(slices[i]) :: i in Kept(slices, n)
  {
    if n > 0 {
      KeptInOrder(slices, n - 1);
      assert Usable(slices[n - 1]) ==> Kept(slices, n)[|Kept(slices, n)| - 1] == n - 1;
      forall i | 0 <= i < n && Usable(slices[i])
        ensures i in Kept(slices, n)
      {
        if i < n - 1 {
          assert i in Kept(slices, n - 1);
        }
      }
    }
  }

  function Shift(s: Slice, minThickness: real, seamOverlap: real): real {
    Min(s.frontInner - s.rearInner + seamOverlap, s.frontMedian - s.rearMedian - minThickness)
  }

  /** The profile lists the usable slices, bottom to top, as measured. */
  predicate Measures(p: Profile, slices: seq<Slice>, kept: seq<nat>, floor: real, shoulder: real,
                     minThickness: real, seamOverlap: real)
    requires forall k | 0 <= k < |kept| :: kept[k] < |slices|
  {
    && |kept| == |p.heights| == |p.sourceX| == |p.targetX| == |p.sourceHalfWidth| == |p.targetHalfWidth| == |p.depthShift|
    && forall k | 0 <= k < |kept| ::
         var s := slices[kept[k]];
         && p.heights[k] == SliceHeight(floor, shoulder, kept[k])
         && p.sourceX[k] == (s.rearLeft + s.rearRight) / 2.0 && p.targetX[k] == (s.frontLeft + s.frontRight) / 2.0
         && p.sourceHalfWidth[k] == (s.rearRight - s.rearLeft) / 2.0
         && p.targetHalfWidth[k] == (s.frontRight - s.frontLeft) / 2.0
         && p.depthShift[k] == Shift(s, minThickness, seamOverlap)
  }

  /** Five slices or more, spanning 45 cm, reaching down near the floor and up near the shoulders. */
  predicate Covers(heights: seq<real>, floor: real, shoulder: real) {
    && |heights| >= 5 && heights[|heights| - 1] - heights[0] >= 0.45
    && heights[0] <= floor + 0.3 && heights[|heights| - 1] >= shoulder - 0.25
  }

  predicate Compatible(p: Profile) {
    forall i | 0 <= i < |p.sourceHalfWidth| && i < |p.targetHalfWidth| && p.sourceHalfWidth[i] != 0.0 ::
      0.5 <= p.targetHalfWidth[i] / p.sourceHalfWidth[i] <= 2.0
  }

  /** The profile after the first n slices. */
  function Measured(slices: seq<Slice>, n: nat, floor: real, shoulder: real, minThickness: real, seamOverlap: real): Profile
    requires n <= |slices|
  {
    if n == 0 then Profile([], [], [], [], [], [])
    else
      var p, s := Measured(slices, n - 1, floor, shoulder, minThickness, seamOverlap), slices[n - 1];
      if !Usable(s) then p
      else Profile(p.heights + [SliceHeight(floor, shoulder, n - 1)],
                   p.sourceX + [(s.rearLeft + s.rearRight) / 2.0], p.targetX + [(s.frontLeft + s.frontRight) / 2.0],
                   p.sourceHalfWidth + [(s.rearRight - s.rearLeft) / 2.0],
                   p.targetHalfWidth + [(s.frontRight - s.frontLeft) / 2.0],
                   p.depthShift + [Shift(s, minThickness, seamOverlap)])
  }

  /** Knot by knot it is the measurement of the usable slices, in order. */
  lemma {:induction false} MeasuredPointwise(slices: seq<Slice>, n: nat, floor: real, shoulder: real,
                                             minThickness: real, seamOverlap: real)
    requires n <= |slices|
    ensures forall k | 0 <= k < |Kept(slices, n)| :: Kept(slices, n)[k] < n
    ensures Measures(Measured(slices, n, floor, shoulder, minThickness, seamOverlap), slices, Kept(slices, n),
                     floor, shoulder, minThickness, seamOverlap)
  {
    KeptInOrder(slices, n);
    if n > 0 {
      MeasuredPointwise(slices, n - 1, floor, shoulder, minThickness, seamOverlap);
      hide SliceHeight, Shift, Usable;
    }
  }

  function Gate(p: Profile, floor: real, shoulder: real): Result<Profile, Rejection> {
    if !Covers(p.heights, floor, shoulder) then Err(TorsoAndLegsNotVisible)
    else if !Compatible(p) then Err(ProfilesIncompatible)
    else Ok(p)
  }

  /** Measure the slices bottom to top, then gate the profile. */
  method AssembleProfile(slices: seq<Slice>, floor: real, shoulder: real, minThickness: real, seamOverlap: real)
    returns (r: Result<Profile, Rejection>)
    requires |slices| == SLICES
    ensures r == Gate(Measured(slices, SLICES, floor, shoulder, minThickness, seamOverlap), floor, shoulder)
  {
    var p := Profile([], [], [], [], [], []);
    for i := 0 to SLICES
      invariant p == Measured(slices, i, floor, shoulder, minThickness, seamOverlap)
    {
      var s := slices[i];
      if s.frontCount < 20 || s.rearCount < 20 {
        continue;
      }
      if Min(s.frontRight - s.frontLeft, s.rearRight - s.rearLeft) < 0.06 {
        continue;
      }
      var seamShift := s.frontInner - s.rearInner + seamOverlap;
      var thicknessShift := s.frontMedian - s.rearMedian - minThickness;
      p := Profile(p.heights + [SliceHeight(floor, shoulder, i)],
                   p.sourceX + [(s.rearLeft + s.rearRight) / 2.0], p.targetX + [(s.frontLeft + s.frontRight) / 2.0],
                   p.sourceHalfWidth + [(s.rearRight - s.rearLeft) / 2.0],
                   p.targetHalfWidth + [(s.frontRight - s.frontLeft) / 2.0],
                   p.depthShift + [Min(seamShift, thicknessShift)]);
    }
    var n := |p.heights|;
    if n < 5 || p.heights[n - 1] - p.heights[0] < 0.45 {
      return Err(TorsoAndLegsNotVisible);
    }
    if p.heights[0] > floor + 0.3 || p.heights[n - 1] < shoulder - 0.25 {
      return Err(TorsoAndLegsNotVisible);
    }
    if !Compatible(p) {
      return Err(ProfilesIncompatible);
    }
    return Ok(p);
  }

  // --- what the gates buy -----------------------------------------------------------------------------------------------

  lemma StepsGap(step: real, i: int, j: int)
    requires i < j
    ensures Steps(step, j) > Steps(step, i) <==> step > 0.0
  {
    var a, b := i as real, j as real;
    if step > 0.0 {
      var p := PositiveProduct(step, b - a);
      assert step * b - step * a == p;
    } else {
      var p := NonNegativeProduct(-step, b - a);
      assert step * a - step * b == p;
    }
  }

  /** Slices ascend exactly when the shoulder line clears the floor line. */
  lemma SliceStep(floor: real, shoulder: real, i: int, j: int)
    requires i < j
    ensures SliceHeight(floor, shoulder, j) > SliceHeight(floor, shoulder, i) <==> shoulder - 0.04 > floor + 0.08
  {
    hide Steps;
    StepsGap((shoulder - 0.04 - (floor + 0.08)) / 11.0, i, j);
  }

  /**
   * Every accepted profile makes a valid warp: the 45 cm span forces the knots to increase strictly, and the width and
   * ratio gates hold at every knot.
   */
  lemma GatesSuffice(slices: seq<Slice>, floor: real, shoulder: real, minThickness: real, seamOverlap: real)
    requires |slices| == SLICES
    ensures var p := Measured(slices, SLICES, floor, shoulder, minThickness, seamOverlap);
            Gate(p, floor, shoulder).Ok? ==> p.Valid()
  {
    MeasuredPointwise(slices, SLICES, floor, shoulder, minThickness, seamOverlap);
    KeptInOrder(slices, SLICES);
    var p := Measured(slices, SLICES, floor, shoulder, minThickness, seamOverlap);
    var kept := Kept(slices, SLICES);
    hide SliceHeight, Kept, Shift, Measured;
    if Gate(p, floor, shoulder).Ok? {
      assert Covers(p.heights, floor, shoulder) && Compatible(p);
      hide Gate;
      KnotsIncrease(p, slices, kept, floor, shoulder, minThickness, seamOverlap);
      WidthsGated(p, slices, kept, floor, shoulder, minThickness, seamOverlap);
    }
  }

  lemma KnotsIncrease(p: Profile, slices: seq<Slice>, kept: seq<nat>, floor: real, shoulder: real,
                      minThickness: real, seamOverlap: real)
    requires forall k | 0 <= k < |kept| :: kept[k] < |slices|
    requires forall j, k | 0 <= j < k < |kept| :: kept[j] < kept[k]
    requires Measures(p, slices, kept, floor, shoulder, minThickness, seamOverlap) && Covers(p.heights, floor, shoulder)
    ensures Increasing(p.heights)
  {
    hide SliceHeight, Shift;
    var n := |kept|;
    SliceStep(floor, shoulder, kept[0], kept[n - 1]);
    forall i, j | 0 <= i < j < n
      ensures p.heights[i] < p.heights[j]
    {
      SliceStep(floor, shoulder, kept[i], kept[j]);
    }
  }

  lemma WidthsGated(p: Profile, slices: seq<Slice>, kept: seq<nat>, floor: real, shoulder: real,
                    minThickness: real, seamOverlap: real)
    requires forall k | 0 <= k < |kept| :: kept[k] < |slices| && Usable(slices[kept[k]])
    requires Measures(p, slices, kept, floor, shoulder, minThickness, seamOverlap) && Compatible(p)
    ensures forall i | 0 <= i < |kept| ::
              && p.sourceHalfWidth[i] >= 0.03 && p.targetHalfWidth[i] >= 0.03
              && 0.5 * p.sourceHalfWidth[i] <= p.targetHalfWidth[i] <= 2.0 * p.sourceHalfWidth[i]
  {
    hide SliceHeight, Shift;
    forall i | 0 <= i < |kept|
      ensures p.sourceHalfWidth[i] >= 0.03 && p.targetHalfWidth[i] >= 0.03
      ensures 0.5 * p.sourceHalfWidth[i] <= p.targetHalfWidth[i] <= 2.0 * p.sourceHalfWidth[i]
    {
      assert Usable(slices[kept[i]]);
      DivBounds(p.targetHalfWidth[i], p.sourceHalfWidth[i]);
      RatioRange(p.targetHalfWidth[i], p.sourceHalfWidth[i], p.targetHalfWidth[i] / p.sourceHalfWidth[i]);
    }
  }

  /** A height is used exactly when neither cloud has fewer than 20 points there and neither trunk is narrower than 6 cm. */
  lemma KeptExactly(slices: seq<Slice>, n: nat, i: nat)
    requires i < n <= |slices|
    ensures var s := slices[i];
            i in Kept(slices, n) <==> Min(s.frontCount as real, s.rearCount as real) >= 20.0
                                      && Min(s.frontRight - s.frontLeft, s.rearRight - s.rearLeft) >= 0.06
  {
    KeptInOrder(slices, n);
    hide Kept;
  }

  /** The first and the last slice are 8 cm above the floor and 4 cm below the shoulders, and all steps are equal. */
  lemma SliceHeights(floor: real, shoulder: real, i: int)
    ensures SliceHeight(floor, shoulder, 0) == floor + 0.08 && SliceHeight(floor, shoulder, SLICES - 1) == shoulder - 0.04
    ensures SliceHeight(floor, shoulder, i + 1) - SliceHeight(floor, shoulder, i)
            == SliceHeight(floor, shoulder, 1) - SliceHeight(floor, shoulder, 0)
  {
    var step := (shoulder - 0.04 - (floor + 0.08)) / 11.0;
    assert step * (i + 1) as real == step * i as real + step;
  }

  /** The trunk is nowhere more than twice as wide from one side as from the other. */
  predicate WidthsAgree(s: Slice) {
    && s.rearRight - s.rearLeft <= 2.0 * (s.frontRight - s.frontLeft)
    && s.frontRight - s.frontLeft <= 2.0 * (s.rearRight - s.rearLeft)
  }

  /** Which slices are accepted: the usable ones reach far enough, and their widths agree; and why others are rejected. */
  lemma AcceptedExactly(slices: seq<Slice>, floor: real, shoulder: real, minThickness: real, seamOverlap: real)
    requires |slices| == SLICES
    ensures var p, kept := Measured(slices, SLICES, floor, shoulder, minThickness, seamOverlap), Kept(slices, SLICES);
            var r := Gate(p, floor, shoulder);
            && (r == Err(TorsoAndLegsNotVisible) <==>
                  || |kept| < 5
                  || SliceHeight(floor, shoulder, kept[|kept| - 1]) - SliceHeight(floor, shoulder, kept[0]) < 0.45
                  || SliceHeight(floor, shoulder, kept[0]) > floor + 0.3
                  || SliceHeight(floor, shoulder, kept[|kept| - 1]) < shoulder - 0.25)
            && (r.Ok? <==>
                  r != Err(TorsoAndLegsNotVisible) && forall i | 0 <= i < SLICES && Usable(slices[i]) :: WidthsAgree(slices[i]))
  {
    MeasuredPointwise(slices, SLICES, floor, shoulder, minThickness, seamOverlap);
    KeptInOrder(slices, SLICES);
    var p, kept := Measured(slices, SLICES, floor, shoulder, minThickness, seamOverlap), Kept(slices, SLICES);
    hide SliceHeight, Kept, Measured, Shift, Compatible, WidthsAgree, Usable;
    CompatibleMeans(p, slices, kept, floor, shoulder, minThickness, seamOverlap);
    forall i | 0 <= i < SLICES && Usable(slices[i])
      ensures exists k :: 0 <= k < |kept| && kept[k] == i
    {
      assert i in kept;
    }
    assert Compatible(p) <==> forall i | 0 <= i < SLICES && Usable(slices[i]) :: WidthsAgree(slices[i]);
    hide Measures;
  }

  lemma CompatibleMeans(p: Profile, slices: seq<Slice>, kept: seq<nat>, floor: real, shoulder: real,
                        minThickness: real, seamOverlap: real)
    requires forall k | 0 <= k < |kept| :: kept[k] < |slices| && Usable(slices[kept[k]])
    requires Measures(p, slices, kept, floor, shoulder, minThickness, seamOverlap)
    ensures Compatible(p) <==> forall k | 0 <= k < |kept| :: WidthsAgree(slices[kept[k]])
  {
    hide SliceHeight, Shift;
    forall k | 0 <= k < |kept|
      ensures p.sourceHalfWidth[k] > 0.0
      ensures 0.5 <= p.targetHalfWidth[k] / p.sourceHalfWidth[k] <= 2.0 <==> WidthsAgree(slices[kept[k]])
    {
      assert Usable(slices[kept[k]]);
      DivBounds(p.targetHalfWidth[k], p.sourceHalfWidth[k]);
      RatioRange(p.targetHalfWidth[k], p.sourceHalfWidth[k], p.targetHalfWidth[k] / p.sourceHalfWidth[k]);
    }
    hide WidthsAgree, Usable;
  }

  /** Accepted slices and a horizontal front direction give a bijective warp. */
  lemma AcceptedWarpIsInvertible(slices: seq<Slice>, floor: real, shoulder: real, minThickness: real, seamOverlap: real,
                                 towardFront: Vector3, yShift: real, point: Vector3)
    requires |slices| == SLICES
    requires towardFront.y == 0.0 && towardFront.LengthSquared() == 1.0
    requires Gate(Measured(slices, SLICES, floor, shoulder, minThickness, seamOverlap), floor, shoulder).Ok?
    ensures var p := Measured(slices, SLICES, floor, shoulder, minThickness, seamOverlap);
            var w := Warp(UNIT_Y.Cross(towardFront), UNIT_Y, towardFront, p, yShift);
            && w.Valid()
            && Apply(w, Apply(w, point, false), true) == point
            && Apply(w, Apply(w, point, true), false) == point
  {
    GatesSuffice(slices, floor, shoulder, minThickness, seamOverlap);
    BodyBasis(towardFront);
    hide Orthonormal, Profile.Valid, Apply, Measured, Gate;
    var p := Measured(slices, SLICES, floor, shoulder, minThickness, seamOverlap);
    WarpInverse(Warp(UNIT_Y.Cross(towardFront), UNIT_Y, towardFront, p, yShift), point);
  }

  /**
   * At a knot the rear surface moves by the slice's own shift: warped, a point at its median depth ends at least the minimum
   * thickness behind the front's median, a point of its inner envelope no farther than the overlap past the front's, and one
   * of the two is met exactly.
   */
  lemma KnotThickness(slices: seq<Slice>, floor: real, shoulder: real, minThickness: real, seamOverlap: real, k: nat,
                      towardFront: Vector3, yShift: real, median: Vector3, inner: Vector3)
    requires |slices| == SLICES && k < |Kept(slices, SLICES)|
    requires towardFront.y == 0.0 && towardFront.LengthSquared() == 1.0
    requires Gate(Measured(slices, SLICES, floor, shoulder, minThickness, seamOverlap), floor, shoulder).Ok?
    ensures var p := Measured(slices, SLICES, floor, shoulder, minThickness, seamOverlap);
            var w := Warp(UNIT_Y.Cross(towardFront), UNIT_Y, towardFront, p, yShift);
            && w.Valid() && k < |p.heights| && Kept(slices, SLICES)[k] < SLICES
            && var s, m, n := slices[Kept(slices, SLICES)[k]], BodyCoordinates(w, median), BodyCoordinates(w, inner);
            m.y + yShift == p.heights[k] == n.y + yShift && m.z == s.rearMedian && n.z == s.rearInner ==>
              var behind := s.frontMedian - BodyCoordinates(w, Apply(w, median, false)).z;
              var past := BodyCoordinates(w, Apply(w, inner, false)).z - s.frontInner;
              behind >= minThickness && past <= seamOverlap && (behind == minThickness || past == seamOverlap)
  {
    GatesSuffice(slices, floor, shoulder, minThickness, seamOverlap);
    MeasuredPointwise(slices, SLICES, floor, shoulder, minThickness, seamOverlap);
    BodyBasis(towardFront);
    var p := Measured(slices, SLICES, floor, shoulder, minThickness, seamOverlap);
    var w := Warp(UNIT_Y.Cross(towardFront), UNIT_Y, towardFront, p, yShift);
    hide Kept, Measured, Gate, Apply, BodyCoordinates, Orthonormal, SliceHeight, Vector3.Cross;
    if BodyCoordinates(w, median).y + yShift == p.heights[k] == BodyCoordinates(w, inner).y + yShift {
      KnotImage(w, median, k);
      KnotImage(w, inner, k);
    }
  }

  /** At a knot the rear trunk is carried onto the front one: left edge to left edge, right to right. */
  lemma TrunkEdgesMeet(slices: seq<Slice>, floor: real, shoulder: real, minThickness: real, seamOverlap: real, k: nat,
                       towardFront: Vector3, yShift: real, point: Vector3)
    requires |slices| == SLICES && k < |Kept(slices, SLICES)|
    requires towardFront.y == 0.0 && towardFront.LengthSquared() == 1.0
    requires Gate(Measured(slices, SLICES, floor, shoulder, minThickness, seamOverlap), floor, shoulder).Ok?
    ensures var p := Measured(slices, SLICES, floor, shoulder, minThickness, seamOverlap);
            var w := Warp(UNIT_Y.Cross(towardFront), UNIT_Y, towardFront, p, yShift);
            && w.Valid() && k < |p.heights| && Kept(slices, SLICES)[k] < SLICES
            && var s, c, d := slices[Kept(slices, SLICES)[k]], BodyCoordinates(w, point), BodyCoordinates(w, Apply(w, point, false));
            c.y + yShift == SliceHeight(floor, shoulder, Kept(slices, SLICES)[k]) ==>
              && d.y == c.y + yShift
              && (c.x == s.rearLeft ==> d.x == s.frontLeft) && (c.x == s.rearRight ==> d.x == s.frontRight)
  {
    GatesSuffice(slices, floor, shoulder, minThickness, seamOverlap);
    MeasuredPointwise(slices, SLICES, floor, shoulder, minThickness, seamOverlap);
    BodyBasis(towardFront);
    var p := Measured(slices, SLICES, floor, shoulder, minThickness, seamOverlap);
    var w := Warp(UNIT_Y.Cross(towardFront), UNIT_Y, towardFront, p, yShift);
    hide Kept, Measured, Gate, Apply, BodyCoordinates, Orthonormal, SliceHeight, Vector3.Cross, Shift;
    if BodyCoordinates(w, point).y + yShift == p.heights[k] {
      KnotImage(w, point, k);
    }
  }

  lemma InterpAtKnot(xs: seq<real>, vs: seq<real>, k: nat)
    requires 0 < |xs| == |vs| && Increasing(xs) && k < |xs|
    ensures Interp(xs[k], xs, vs) == vs[k]
  {
    if k + 1 < |xs| {
      InterpChord(xs[k], xs, vs, k);
      FractionBounds(xs[k], xs[k + 1], xs[k]);
      LerpEnds(vs[k], vs[k + 1]);
    } else {
      InterpOutside(xs[k], xs, vs);
    }
  }
}
