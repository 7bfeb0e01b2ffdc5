/** The golden-section and ternary searches for the distance between a segment and a box. */
module Searches {
  import opened RealMath
  import opened Vectors
  import opened Boxes
  import opened Segments

  function Pow(base: real, n: nat): real {
    if n == 0 then 1.0 else base * Pow(base, n - 1)
  }

  lemma PowPositive(base: real, n: nat)
    requires base > 0.0
    ensures Pow(base, n) > 0.0
  {
    if n > 0 {
      PowPositive(base, n - 1);
      MulPositive(base, Pow(base, n - 1));
    }
  }

  /** What both searches promise of their answer `r` when their bracket ends `width` wide. */
  ghost predicate NearMinimum(seg: Segment, box: Aabb, r: real, width: real) {
    && (exists t | 0.0 <= t <= 1.0 :: BoxDistance(seg, box, t) == r)
    && forall m | 0.0 <= m <= 1.0 :: r <= BoxDistance(seg, box, m) + Steepness(seg, box) * width
  }

  lemma SteepnessNonNegative(seg: Segment, box: Aabb)
    ensures Steepness(seg, box) >= 0.0
  {
    AxisSteepnessNonNegative(box.min.x, box.max.x, seg.a.x, seg.b.x);
    AxisSteepnessNonNegative(box.min.y, box.max.y, seg.a.y, seg.b.y);
    AxisSteepnessNonNegative(box.min.z, box.max.z, seg.a.z, seg.b.z);
    hide AxisSteepness;
  }

  lemma AxisSteepnessNonNegative(lo: real, hi: real, a: real, b: real)
    ensures AxisSteepness(lo, hi, a, b) >= 0.0
  {
    hide Excess;
    var p := NonNegativeProduct(2.0 * Abs(b - a), Max(Abs(Excess(lo, hi, a)), Abs(Excess(lo, hi, b))));
  }

  /** A contained end point is at distance 0, which is the minimum. */
  lemma EndInBox(seg: Segment, box: Aabb, width: real)
    requires box.Valid() && width >= 0.0
    requires box.Contains(seg.a) || box.Contains(seg.b)
    ensures NearMinimum(seg, box, 0.0, width)
  {
    hide Steepness, Segment.At, Vector3.LengthSquared, Vector3.Sub, BoxDistance;
    SteepnessNonNegative(seg, box);
    var p := NonNegativeProduct(Steepness(seg, box), width);
    Ends(seg, box);
    ContainedDistance(box, if box.Contains(seg.a) then seg.a else seg.b);
    assert BoxDistance(seg, box, if box.Contains(seg.a) then 0.0 else 1.0) == 0.0;
    forall m | 0.0 <= m <= 1.0
      ensures BoxDistance(seg, box, m) >= 0.0
    {
      BoxDistanceNonNegative(seg, box, m);
    }
  }

  lemma ContainedDistance(box: Aabb, p: Vector3)
    requires box.Contains(p)
    ensures box.SquaredDistanceTo(p) == 0.0
  {
    assert box.ClosestPoint(p) == p;
  }

  lemma BoxDistanceNonNegative(seg: Segment, box: Aabb, m: real)
    ensures BoxDistance(seg, box, m) >= 0.0
  {
    LengthSquaredNonNegative(box.ClosestPoint(seg.At(m)).Sub(seg.At(m)));
  }

  /** From r <= fq, fq close to fn and fn <= fm: r is no more than the slack above fm. */
  lemma WithinSlack(r: real, fq: real, fn: real, fm: real, k: real, d: real, width: real)
    requires r <= fq && fq - fn <= k * d && fn <= fm
    requires k >= 0.0 && d <= width
    ensures r <= fm + k * width
  {
    var s := NonNegativeProduct(k, width - d);
    assert k * width == k * d + s;
  }

  /**
   * A value attained inside the bracket, and no larger than anything outside it, is near the minimum:
   * inside, the function cannot have fallen further than its steepness allows.
   */
  lemma BracketNearMinimum(seg: Segment, box: Aabb, lo: real, hi: real, q: real, r: real)
    requires box.Valid() && 0.0 <= lo <= q <= hi <= 1.0
    requires r <= BoxDistance(seg, box, q)
    requires forall m | 0.0 <= m <= 1.0 && !(lo <= m <= hi) :: BoxDistance(seg, box, q) <= BoxDistance(seg, box, m)
    requires exists t | 0.0 <= t <= 1.0 :: BoxDistance(seg, box, t) == r
    ensures NearMinimum(seg, box, r, hi - lo)
  {
    SteepnessNonNegative(seg, box);
    hide BoxDistance, Steepness;
    forall m | 0.0 <= m <= 1.0
      ensures r <= BoxDistance(seg, box, m) + Steepness(seg, box) * (hi - lo)
    {
      var n := if lo <= m <= hi then m else q;
      BoxDistanceLipschitz(seg, box, q, n);
      WithinSlack(r, BoxDistance(seg, box, q), BoxDistance(seg, box, n), BoxDistance(seg, box, m),
                  Steepness(seg, box), Abs(q - n), hi - lo);
    }
  }

  // --- ternary search, as the Python side does it ----------------------------------------------------

  /** Everything outside the bracket is at least as far as the witness q inside it. */
  ghost predicate Witnessed(seg: Segment, box: Aabb, lo: real, hi: real, q: real) {
    && lo <= q <= hi
    && forall m | 0.0 <= m <= 1.0 && !(lo <= m <= hi) :: BoxDistance(seg, box, q) <= BoxDistance(seg, box, m)
  }

  /** Dropping (m2, hi]: the witness stays, or m1 takes over. */
  lemma WitnessBelow(seg: Segment, box: Aabb, lo: real, hi: real, m1: real, m2: real, q: real) returns (w: real)
    requires box.Valid() && lo < m1 < m2 < hi && Witnessed(seg, box, lo, hi, q)
    requires BoxDistance(seg, box, m1) <= BoxDistance(seg, box, m2)
    ensures Witnessed(seg, box, lo, m2, w)
  {
    hide BoxDistance;
    w := if q <= m2 && BoxDistance(seg, box, q) <= BoxDistance(seg, box, m1) then q else m1;
    if q > m2 {
      Valley(seg, box, m1, m2, q);
    }
    forall m | 0.0 <= m <= 1.0 && !(lo <= m <= m2)
      ensures BoxDistance(seg, box, w) <= BoxDistance(seg, box, m)
    {
      if lo <= m <= hi {
        Valley(seg, box, m1, m2, m);
      }
    }
  }

  /** Dropping [lo, m1): the mirror image. */
  lemma WitnessAbove(seg: Segment, box: Aabb, lo: real, hi: real, m1: real, m2: real, q: real) returns (w: real)
    requires box.Valid() && lo < m1 < m2 < hi && Witnessed(seg, box, lo, hi, q)
    requires BoxDistance(seg, box, m1) > BoxDistance(seg, box, m2)
    ensures Witnessed(seg, box, m1, hi, w)
  {
    hide BoxDistance;
    w := if m1 <= q && BoxDistance(seg, box, q) <= BoxDistance(seg, box, m2) then q else m2;
    if q < m1 {
      Valley(seg, box, q, m1, m2);
    }
    forall m | 0.0 <= m <= 1.0 && !(m1 <= m <= hi)
      ensures BoxDistance(seg, box, w) <= BoxDistance(seg, box, m)
    {
      if lo <= m <= hi {
        Valley(seg, box, m, m1, m2);
      }
    }
  }

  /** Convexity puts the bracket's better end within reach of the witness. */
  lemma EndNearMinimum(seg: Segment, box: Aabb, lo: real, hi: real, q: real, r: real)
    requires box.Valid() && 0.0 <= lo < hi <= 1.0 && Witnessed(seg, box, lo, hi, q)
    requires r <= BoxDistance(seg, box, lo)
    requires exists t | 0.0 <= t <= 1.0 :: BoxDistance(seg, box, t) == r
    ensures NearMinimum(seg, box, r, hi - lo)
  {
    SteepnessNonNegative(seg, box);
    hide BoxDistance, Steepness;
    forall m | 0.0 <= m <= 1.0
      ensures r <= BoxDistance(seg, box, m) + Steepness(seg, box) * (hi - lo)
    {
      var n := if lo <= m <= hi then m else q;
      BoxDistanceLipschitz(seg, box, lo, n);
      WithinSlack(r, BoxDistance(seg, box, lo), BoxDistance(seg, box, n), BoxDistance(seg, box, m),
                  Steepness(seg, box), Abs(lo - n), hi - lo);
    }
  }

  /** After the given number of rounds the answer is within steepness * (2/3)^iterations of the minimum. */
  method TernaryDistanceToBox(seg: Segment, box: Aabb, iterations: nat) returns (best: real)
    requires box.Valid()
    ensures NearMinimum(seg, box, best, Pow(2.0 / 3.0, iterations))
  {
    hide BoxDistance, Steepness, Pow, NearMinimum, Witnessed;
    var lo, hi := 0.0, 1.0;
    ghost var q := 0.0;
    WholeSegmentWitnessed(seg, box);
    for i := 0 to iterations
      invariant 0.0 <= lo < hi <= 1.0 && hi - lo == Pow(2.0 / 3.0, i)
      invariant Witnessed(seg, box, lo, hi, q)
    {
      var m1 := lo + (hi - lo) / 3.0;
      var m2 := hi - (hi - lo) / 3.0;
      PowStep(2.0 / 3.0, i);
      var f1, f2 := BoxDistance(seg, box, m1), BoxDistance(seg, box, m2);
      if f1 <= f2 {
        q := WitnessBelow(seg, box, lo, hi, m1, m2, q);
        hi := m2;
      } else {
        q := WitnessAbove(seg, box, lo, hi, m1, m2, q);
        lo := m1;
      }
    }
    best := Min(Min(BoxDistance(seg, box, lo), BoxDistance(seg, box, hi)),
                Min(BoxDistance(seg, box, 0.0), BoxDistance(seg, box, 1.0)));
    assert exists t | 0.0 <= t <= 1.0 :: BoxDistance(seg, box, t) == best;
    EndNearMinimum(seg, box, lo, hi, q, best);
  }

  lemma WholeSegmentWitnessed(seg: Segment, box: Aabb)
    ensures Witnessed(seg, box, 0.0, 1.0, 0.0)
    ensures Pow(2.0 / 3.0, 0) == 1.0
  {
  }

  lemma PowStep(base: real, n: nat)
    ensures Pow(base, n + 1) == base * Pow(base, n)
  {
  }

  // --- golden section ------------------------------------------------------------------------------

  /** (sqrt(5) - 1) / 2 lies strictly between 0 and 1 and satisfies phi^2 = 1 - phi. */
  lemma GoldenRatio(sqrt: real -> real)
    requires IsSqrt(sqrt)
    ensures var phi := (sqrt(5.0) - 1.0) / 2.0;
            0.6 < phi < 0.62 && phi * phi == 1.0 - phi
  {
    var root := sqrt(5.0);
    SqrtAt(sqrt, 5.0);
    SquareOrder(root, 2.2);
    SquareOrder(2.24, root);
  }

  /** The two probes of a bracket. */
  ghost predicate Probes(lo: real, hi: real, phi: real, x1: real, x2: real) {
    && x1 == hi - phi * (hi - lo)
    && x2 == lo + phi * (hi - lo)
  }

  lemma ProbesInside(lo: real, hi: real, phi: real, x1: real, x2: real)
    requires lo < hi && 0.5 < phi < 1.0 && Probes(lo, hi, phi, x1, x2)
    ensures lo < x1 < x2 < hi
  {
    var p := PositiveProduct(phi, hi - lo);
    var q := PositiveProduct(1.0 - phi, hi - lo);
    var s := PositiveProduct(2.0 * phi - 1.0, hi - lo);
  }

  /** Shrinking from above: the old lower probe is the new upper probe. */
  lemma ShrinkHigh(lo: real, hi: real, phi: real, x1: real, x2: real)
    requires phi * phi == 1.0 - phi && Probes(lo, hi, phi, x1, x2)
    ensures x2 - lo == phi * (hi - lo)
    ensures Probes(lo, x2, phi, x2 - phi * (x2 - lo), x1)
  {
    var w := hi - lo;
    assert phi * (phi * w) == (phi * phi) * w;
  }

  /** Shrinking from below: the old upper probe is the new lower probe. */
  lemma ShrinkLow(lo: real, hi: real, phi: real, x1: real, x2: real)
    requires phi * phi == 1.0 - phi && Probes(lo, hi, phi, x1, x2)
    ensures hi - x1 == phi * (hi - lo)
    ensures Probes(x1, hi, phi, x2, x1 + phi * (hi - x1))
  {
    var w := hi - lo;
    assert phi * (phi * w) == (phi * phi) * w;
  }

  /** Everything outside the bracket is at least as far as the better probe. */
  ghost predicate Bracketed(seg: Segment, box: Aabb, lo: real, hi: real, f1: real, f2: real) {
    forall m | 0.0 <= m <= 1.0 && !(lo <= m <= hi) :: Min(f1, f2) <= BoxDistance(seg, box, m)
  }

  lemma DropHigh(seg: Segment, box: Aabb, lo: real, hi: real, x1: real, x2: real, fNew: real)
    requires box.Valid() && lo < x1 < x2 < hi
    requires BoxDistance(seg, box, x1) < BoxDistance(seg, box, x2)
    requires Bracketed(seg, box, lo, hi, BoxDistance(seg, box, x1), BoxDistance(seg, box, x2))
    ensures Bracketed(seg, box, lo, x2, fNew, BoxDistance(seg, box, x1))
  {
    hide BoxDistance;
    forall m | 0.0 <= m <= 1.0 && !(lo <= m <= x2)
      ensures BoxDistance(seg, box, x1) <= BoxDistance(seg, box, m)
    {
      if lo <= m <= hi {
        Valley(seg, box, x1, x2, m);
      }
    }
  }

  lemma DropLow(seg: Segment, box: Aabb, lo: real, hi: real, x1: real, x2: real, fNew: real)
    requires box.Valid() && lo < x1 < x2 < hi
    requires BoxDistance(seg, box, x1) >= BoxDistance(seg, box, x2)
    requires Bracketed(seg, box, lo, hi, BoxDistance(seg, box, x1), BoxDistance(seg, box, x2))
    ensures Bracketed(seg, box, x1, hi, BoxDistance(seg, box, x2), fNew)
  {
    hide BoxDistance;
    forall m | 0.0 <= m <= 1.0 && !(x1 <= m <= hi)
      ensures BoxDistance(seg, box, x2) <= BoxDistance(seg, box, m)
    {
      if lo <= m <= hi {
        Valley(seg, box, m, x1, x2);
      }
    }
  }

  /** After 100 rounds the answer is attained on the segment and within steepness * phi^100 of the minimum. */
  method SquaredDistanceToBox(seg: Segment, box: Aabb, sqrt: real -> real) returns (best: real)
    requires box.Valid() && IsSqrt(sqrt)
    ensures NearMinimum(seg, box, best, Pow((sqrt(5.0) - 1.0) / 2.0, 100))
  {
    hide BoxDistance, Steepness, Pow, NearMinimum, Probes, Bracketed;
    var phi := (sqrt(5.0) - 1.0) / 2.0;
    GoldenRatio(sqrt);
    PowPositive(phi, 100);
    if box.Contains(seg.a) || box.Contains(seg.b) {
      EndInBox(seg, box, Pow(phi, 100));
      return 0.0;
    }
    var lo, hi := 0.0, 1.0;
    var x1 := hi - phi * (hi - lo);
    var x2 := lo + phi * (hi - lo);
    var f1 := BoxDistance(seg, box, x1);
    var f2 := BoxDistance(seg, box, x2);
    Start(seg, box, phi, f1, f2);
    for i := 0 to 100
      invariant 0.0 <= lo < hi <= 1.0 && hi - lo == Pow(phi, i)
      invariant Probes(lo, hi, phi, x1, x2)
      invariant f1 == BoxDistance(seg, box, x1) && f2 == BoxDistance(seg, box, x2)
      invariant Bracketed(seg, box, lo, hi, f1, f2)
    {
      ProbesInside(lo, hi, phi, x1, x2);
      PowStep(phi, i);
      if f1 < f2 {
        ShrinkHigh(lo, hi, phi, x1, x2);
        DropHigh(seg, box, lo, hi, x1, x2, BoxDistance(seg, box, x2 - phi * (x2 - lo)));
        hi := x2;
        x2 := x1;
        f2 := f1;
        x1 := hi - phi * (hi - lo);
        f1 := BoxDistance(seg, box, x1);
      } else {
        ShrinkLow(lo, hi, phi, x1, x2);
        DropLow(seg, box, lo, hi, x1, x2, BoxDistance(seg, box, x1 + phi * (hi - x1)));
        lo := x1;
        x1 := x2;
        f1 := f2;
        x2 := lo + phi * (hi - lo);
        f2 := BoxDistance(seg, box, x2);
      }
    }
    ProbesInside(lo, hi, phi, x1, x2);
    best := Min(f1, f2);
    best := Min(best, box.SquaredDistanceTo(seg.a));
    best := Min(best, box.SquaredDistanceTo(seg.b));
    Finish(seg, box, lo, hi, x1, x2, best);
  }

  lemma Start(seg: Segment, box: Aabb, phi: real, f1: real, f2: real)
    ensures Pow(phi, 0) == 1.0
    ensures Probes(0.0, 1.0, phi, 1.0 - phi * (1.0 - 0.0), 0.0 + phi * (1.0 - 0.0))
    ensures Bracketed(seg, box, 0.0, 1.0, f1, f2)
  {
  }

  lemma Ends(seg: Segment, box: Aabb)
    ensures BoxDistance(seg, box, 0.0) == box.SquaredDistanceTo(seg.a)
    ensures BoxDistance(seg, box, 1.0) == box.SquaredDistanceTo(seg.b)
  {
    SegmentEnds(seg);
    hide Segment.At;
  }

  lemma Finish(seg: Segment, box: Aabb, lo: real, hi: real, x1: real, x2: real, best: real)
    requires box.Valid() && 0.0 <= lo < x1 < x2 < hi <= 1.0
    requires Bracketed(seg, box, lo, hi, BoxDistance(seg, box, x1), BoxDistance(seg, box, x2))
    requires best == Min(Min(Min(BoxDistance(seg, box, x1), BoxDistance(seg, box, x2)),
                             box.SquaredDistanceTo(seg.a)), box.SquaredDistanceTo(seg.b))
    ensures NearMinimum(seg, box, best, hi - lo)
  {
    Ends(seg, box);
    hide BoxDistance;
    var q := if BoxDistance(seg, box, x1) <= BoxDistance(seg, box, x2) then x1 else x2;
    assert best == BoxDistance(seg, box, q) || best == BoxDistance(seg, box, 0.0) || best == BoxDistance(seg, box, 1.0);
    BracketNearMinimum(seg, box, lo, hi, q, best);
  }

  // --- consequences ----------------------------------------------------------------------------------

  /** phi^100 is below 10^-20: squaring phi^4 < 0.148 five times over. */
  lemma GoldenWidth(sqrt: real -> real)
    requires IsSqrt(sqrt)
    ensures 0.0 < Pow((sqrt(5.0) - 1.0) / 2.0, 100) < 0.00000000000000000001
  {
    var phi := (sqrt(5.0) - 1.0) / 2.0;
    GoldenRatio(sqrt);
    PowPositive(phi, 100);
    PowBelow(phi, 0.62, 0, 1.0);
    PowBelow(phi, 0.62, 1, 0.62);
    PowBelow(phi, 0.62, 2, 0.385);
    PowBelow(phi, 0.62, 3, 0.2387);
    PowSplit(phi, 4, 4, 0.148, 0.148);
    PowSplit(phi, 8, 8, 0.022, 0.022);
    PowSplit(phi, 16, 16, 0.0005, 0.0005);
    PowSplit(phi, 32, 32, 0.0000003, 0.0000003);
    PowSplit(phi, 32, 4, 0.0000003, 0.148);
    PowSplit(phi, 64, 36, 0.0000000000001, 0.00000005);
  }

  lemma PowBelow(base: real, bound: real, n: nat, p: real)
    requires 0.0 < base < bound && Pow(base, n) <= p
    ensures Pow(base, n + 1) <= bound * p
  {
    PowPositive(base, n);
    hide Pow;
    PowStep(base, n);
    var x := NonNegativeProduct(bound - base, Pow(base, n));
    var y := NonNegativeProduct(bound, p - Pow(base, n));
    assert bound * p == base * Pow(base, n) + x + y;
  }

  lemma PowAdd(base: real, m: nat, n: nat)
    ensures Pow(base, m + n) == Pow(base, m) * Pow(base, n)
  {
    if m > 0 {
      PowAdd(base, m - 1, n);
      assert Pow(base, m + n) == base * Pow(base, m - 1 + n);
      assert base * (Pow(base, m - 1) * Pow(base, n)) == base * Pow(base, m - 1) * Pow(base, n);
    }
  }

  lemma PowSplit(base: real, m: nat, n: nat, p: real, q: real)
    requires base > 0.0 && Pow(base, m) <= p && Pow(base, n) <= q
    ensures Pow(base, m + n) <= p * q
  {
    PowPositive(base, m);
    PowPositive(base, n);
    PowAdd(base, m, n);
    hide Pow;
    var x := NonNegativeProduct(p - Pow(base, m), Pow(base, n));
    var y := NonNegativeProduct(p, q - Pow(base, n));
    assert p * q == Pow(base, m) * Pow(base, n) + x + y;
  }

  /** Any two near-minimal answers, such as the Java and the Python one, differ by no more than their tolerances. */
  lemma SearchesAgree(seg: Segment, box: Aabb, r1: real, w1: real, r2: real, w2: real)
    requires NearMinimum(seg, box, r1, w1) && NearMinimum(seg, box, r2, w2)
    ensures -(Steepness(seg, box) * w2) <= r1 - r2 <= Steepness(seg, box) * w1
  {
    hide BoxDistance, Steepness;
  }
}
