/** Picking the nearest collider along a ray, with a tolerance on ties that is broken by collider id. */
module NearestHit {
  import opened Wrappers
  import opened RealMath

  /** A collider and where the ray meets it, if at all. Ids are compared by their rank in the id order. */
  datatype Candidate = Candidate(id: nat, distance: Option<real>)

  datatype Hit = Hit(id: nat, distance: real)

  predicate InReach(c: Candidate, maxDistance: real) {
    c.distance.Some? && c.distance.value <= maxDistance
  }

  /** The candidate replaces the best so far. */
  predicate Replaces(best: Option<Hit>, id: nat, t: real) {
    || best.None?
    || t < best.value.distance - EPSILON
    || (Abs(t - best.value.distance) <= EPSILON && id < best.value.id)
  }

  /** The choice after the first n candidates. */
  function Choose(candidates: seq<Candidate>, maxDistance: real, n: nat): Option<Hit>
    requires n <= |candidates|
  {
    if n == 0 then None
    else
      var best, c := Choose(candidates, maxDistance, n - 1), candidates[n - 1];
      if InReach(c, maxDistance) && Replaces(best, c.id, c.distance.value) then Some(Hit(c.id, c.distance.value)) else best
  }

  /** As a function of how many steps it may have slipped by. */
  function Slack(n: nat): real {
    EPSILON * n as real
  }

  lemma SlackStep(n: nat)
    ensures Slack(n + 1) == Slack(n) + EPSILON
    ensures Slack(0) == 0.0
  {
    assert EPSILON * (n as real + 1.0) == EPSILON * n as real + EPSILON;
  }

  predicate IsCandidate(candidates: seq<Candidate>, maxDistance: real, n: nat, h: Hit)
    requires n <= |candidates|
  {
    exists i :: 0 <= i < n && candidates[i] == Candidate(h.id, Some(h.distance)) && InReach(candidates[i], maxDistance)
  }

  /**
   * The choice is one of the candidates in reach, and exceeds each of them by at most EPSILON for every candidate looked
   * at since: a chain of near ties can carry it away from the nearest, but no further than that.
   */
  lemma {:induction false} ChoiceDrift(candidates: seq<Candidate>, maxDistance: real, n: nat)
    requires n <= |candidates|
    ensures var best := Choose(candidates, maxDistance, n);
            && (best.None? <==> forall i | 0 <= i < n :: !InReach(candidates[i], maxDistance))
            && (best.Some? ==> IsCandidate(candidates, maxDistance, n, best.value))
            && (best.Some? ==> forall i | 0 <= i < n && InReach(candidates[i], maxDistance) ::
                  best.value.distance <= candidates[i].distance.value + Slack(n - i))
  {
    if n > 0 {
      ChoiceDrift(candidates, maxDistance, n - 1);
      var before, best, c := Choose(candidates, maxDistance, n - 1), Choose(candidates, maxDistance, n), candidates[n - 1];
      if before.Some? {
        var k :| 0 <= k < n - 1 && candidates[k] == Candidate(before.value.id, Some(before.value.distance))
                 && InReach(candidates[k], maxDistance);
        assert InReach(candidates[k], maxDistance);
      }
      hide Choose, Slack;
      SlackStep(0);
      forall i | 0 <= i < n && InReach(candidates[i], maxDistance) && best.Some?
        ensures best.value.distance <= candidates[i].distance.value + Slack(n - i)
      {
        if i < n - 1 {
          SlackStep(n - 1 - i);
        }
        if i < n - 1 && best != before {
          assert best.value.distance <= before.value.distance + EPSILON;
        }
      }
    }
  }

  /** Nearest, and the smallest id among equals. */
  predicate IsNearest(candidates: seq<Candidate>, maxDistance: real, n: nat, h: Hit)
    requires n <= |candidates|
  {
    && IsCandidate(candidates, maxDistance, n, h)
    && forall i | 0 <= i < n && InReach(candidates[i], maxDistance) ::
         h.distance < candidates[i].distance.value || (h.distance == candidates[i].distance.value && h.id <= candidates[i].id)
  }

  function AsCandidate(h: Hit): Candidate {
    Candidate(h.id, Some(h.distance))
  }

  function AsHit(c: Candidate): Hit
    requires c.distance.Some?
  {
    Hit(c.id, c.distance.value)
  }

  /** The candidate would replace every other one in reach. */
  predicate Dominates(candidates: seq<Candidate>, maxDistance: real, h: Hit) {
    && IsCandidate(candidates, maxDistance, |candidates|, h)
    && forall i | 0 <= i < |candidates| && InReach(candidates[i], maxDistance) ::
         candidates[i] == AsCandidate(h) || Replaces(Some(AsHit(candidates[i])), h.id, h.distance)
  }

  /** A dominating candidate is chosen when it is met, and stays. */
  lemma {:induction false} DominatingIsChosen(candidates: seq<Candidate>, maxDistance: real, n: nat, h: Hit)
    requires n <= |candidates| && Dominates(candidates, maxDistance, h)
    ensures IsCandidate(candidates, maxDistance, n, h) ==> Choose(candidates, maxDistance, n) == Some(h)
  {
    if n > 0 {
      DominatingIsChosen(candidates, maxDistance, n - 1, h);
      ChoiceDrift(candidates, maxDistance, n - 1);
      var before, c := Choose(candidates, maxDistance, n - 1), candidates[n - 1];
      assert Choose(candidates, maxDistance, n) ==
             if InReach(c, maxDistance) && Replaces(before, c.id, c.distance.value) then Some(AsHit(c)) else before;
      hide Choose, Slack;
      if c == AsCandidate(h) && before.Some? {
        var k :| 0 <= k < n - 1 && candidates[k] == AsCandidate(before.value) && InReach(candidates[k], maxDistance);
        assert InReach(candidates[k], maxDistance);
      }
    }
  }

  lemma DominatesAnyOrder(a: seq<Candidate>, b: seq<Candidate>, maxDistance: real, h: Hit)
    requires multiset(a) == multiset(b) && Dominates(a, maxDistance, h)
    ensures Dominates(b, maxDistance, h)
  {
    hide Replaces;
    forall i | 0 <= i < |b| && InReach(b[i], maxDistance)
      ensures b[i] == AsCandidate(h) || Replaces(Some(AsHit(b[i])), h.id, h.distance)
    {
      assert b[i] in multiset(b);
      assert b[i] in multiset(a);
      var j :| 0 <= j < |a| && a[j] == b[i];
    }
    var i :| 0 <= i < |a| && a[i] == AsCandidate(h) && InReach(a[i], maxDistance);
    assert a[i] in multiset(a);
    assert a[i] in multiset(b);
    var j :| 0 <= j < |b| && b[j] == a[i];
  }

  // The order that keeps h out: a candidate h does not replace, then every h, then the rest.

  function Copies(c: Candidate, n: nat): seq<Candidate> {
    seq(n, _ => c)
  }

  function Without(candidates: seq<Candidate>, c: Candidate): seq<Candidate> {
    if candidates == [] then []
    else
      var front, last := Without(candidates[..|candidates| - 1], c), candidates[|candidates| - 1];
      if last == c then front else front + [last]
  }

  lemma {:induction false} CopiesAndWithout(candidates: seq<Candidate>, c: Candidate) returns (n: nat)
    ensures multiset(candidates) == multiset(Copies(c, n)) + multiset(Without(candidates, c))
    ensures c !in Without(candidates, c)
  {
    if candidates == [] {
      n := 0;
      assert Copies(c, 0) == [];
    } else {
      var front, last := candidates[..|candidates| - 1], candidates[|candidates| - 1];
      n := CopiesAndWithout(front, c);
      assert candidates == front + [last];
      if last == c {
        assert Copies(c, n + 1) == Copies(c, n) + [c];
        n := n + 1;
      }
    }
  }

  lemma {:induction false} StaysOut(candidates: seq<Candidate>, maxDistance: real, x: Candidate, k: nat, n: nat, h: Hit)
    requires 0 < n <= |candidates| && candidates[0] == x && InReach(x, maxDistance) && x != AsCandidate(h)
    requires !Replaces(Some(AsHit(x)), h.id, h.distance)
    requires 1 <= k <= |candidates| && (forall i | 1 <= i < k :: candidates[i] == AsCandidate(h))
    requires forall i | k <= i < |candidates| :: candidates[i] != AsCandidate(h)
    ensures Choose(candidates, maxDistance, n) != Some(h)
    ensures n <= k ==> Choose(candidates, maxDistance, n) == Some(AsHit(x))
  {
    if n == 1 {
      assert Choose(candidates, maxDistance, 0) == None;
    } else {
      StaysOut(candidates, maxDistance, x, k, n - 1, h);
      hide Replaces;
    }
  }

  lemma OrderOf(x: Candidate, c: Candidate, n: nat, rest: seq<Candidate>, order: seq<Candidate>)
    requires order == [x] + Copies(c, n) + rest && c !in rest
    ensures |order| >= n + 1 && order[0] == x
    ensures forall i | 1 <= i < n + 1 :: order[i] == c
    ensures forall i | n + 1 <= i < |order| :: order[i] != c
    ensures multiset(order) == multiset{x} + (multiset(Copies(c, n)) + multiset(rest))
  {
    var copies := Copies(c, n);
    assert forall i | n + 1 <= i < |order| :: order[i] == rest[i - n - 1];
    hide Copies;
    assert order == [x] + (copies + rest);
    assert multiset(copies + rest) == multiset(copies) + multiset(rest);
  }

  lemma TakeOut(candidates: seq<Candidate>, x: Candidate) returns (others: seq<Candidate>)
    requires x in candidates
    ensures multiset(candidates) == multiset{x} + multiset(others)
  {
    var k :| 0 <= k < |candidates| && candidates[k] == x;
    others := candidates[..k] + candidates[k + 1..];
    assert candidates == candidates[..k] + [x] + candidates[k + 1..];
  }

  lemma KeptOut(candidates: seq<Candidate>, maxDistance: real, x: Candidate, h: Hit) returns (order: seq<Candidate>)
    requires x in candidates && InReach(x, maxDistance) && x != AsCandidate(h)
    requires !Replaces(Some(AsHit(x)), h.id, h.distance)
    ensures multiset(order) == multiset(candidates) && Choose(order, maxDistance, |order|) != Some(h)
  {
    hide Choose, Replaces, Without, Copies;
    var c := AsCandidate(h);
    var others := TakeOut(candidates, x);
    var n := CopiesAndWithout(others, c);
    order := [x] + Copies(c, n) + Without(others, c);
    OrderOf(x, c, n, Without(others, c), order);
    StaysOut(order, maxDistance, x, n + 1, |order|, h);
  }

  /** Every order of the colliders gives the same answer exactly when that collider would replace every other in reach. */
  lemma EveryOrderChooses(candidates: seq<Candidate>, maxDistance: real, h: Hit)
    ensures (forall order | multiset(order) == multiset(candidates) :: Choose(order, maxDistance, |order|) == Some(h))
            <==> Dominates(candidates, maxDistance, h)
  {
    hide Choose, Replaces, Slack;
    if Dominates(candidates, maxDistance, h) {
      forall order | multiset(order) == multiset(candidates)
        ensures Choose(order, maxDistance, |order|) == Some(h)
      {
        DominatesAnyOrder(candidates, order, maxDistance, h);
        DominatingIsChosen(order, maxDistance, |order|, h);
      }
    } else if Choose(candidates, maxDistance, |candidates|) == Some(h) {
      ChoiceDrift(candidates, maxDistance, |candidates|);
      var i :| 0 <= i < |candidates| && InReach(candidates[i], maxDistance) && candidates[i] != AsCandidate(h)
               && !Replaces(Some(AsHit(candidates[i])), h.id, h.distance);
      var order := KeptOut(candidates, maxDistance, candidates[i], h);
    }
  }

  /** Nothing else in reach within the tolerance of h has an id as small. */
  predicate Untied(candidates: seq<Candidate>, maxDistance: real, h: Hit) {
    forall i | 0 <= i < |candidates| && InReach(candidates[i], maxDistance) && candidates[i] != AsCandidate(h) ::
      Abs(candidates[i].distance.value - h.distance) <= EPSILON ==> h.id < candidates[i].id
  }

  lemma NearestDominates(candidates: seq<Candidate>, maxDistance: real, h: Hit)
    requires IsNearest(candidates, maxDistance, |candidates|, h)
    ensures Dominates(candidates, maxDistance, h) <==> Untied(candidates, maxDistance, h)
  {
    hide IsCandidate;
  }

  /** The nearest collider is the answer in every order exactly when no near tie has an id as small. */
  lemma NearestInEveryOrder(candidates: seq<Candidate>, maxDistance: real, h: Hit)
    requires IsNearest(candidates, maxDistance, |candidates|, h)
    ensures (forall order | multiset(order) == multiset(candidates) :: Choose(order, maxDistance, |order|) == Some(h))
            <==> Untied(candidates, maxDistance, h)
  {
    EveryOrderChooses(candidates, maxDistance, h);
    NearestDominates(candidates, maxDistance, h);
  }

  /** Two nearest hits with distinct ids cannot both be the answer, so the answer does not depend on the order. */
  lemma NearestUnique(a: seq<Candidate>, b: seq<Candidate>, maxDistance: real, h: Hit, k: Hit)
    requires multiset(a) == multiset(b)
    requires IsNearest(a, maxDistance, |a|, h) && IsNearest(b, maxDistance, |b|, k)
    ensures h == k
  {
    var i :| 0 <= i < |a| && a[i] == Candidate(h.id, Some(h.distance)) && InReach(a[i], maxDistance);
    var j :| 0 <= j < |b| && b[j] == Candidate(k.id, Some(k.distance)) && InReach(b[j], maxDistance);
    assert a[i] in multiset(a);
    assert a[i] in multiset(b);
    assert b[j] in multiset(b);
    assert b[j] in multiset(a);
    var i' :| 0 <= i' < |b| && b[i'] == a[i];
    var j' :| 0 <= j' < |a| && a[j'] == b[j];
  }

  /** The scan over the colliders. */
  method NearestHit(candidates: seq<Candidate>, maxDistance: real) returns (best: Option<Hit>)
    ensures best.None? <==> forall i | 0 <= i < |candidates| :: !InReach(candidates[i], maxDistance)
    ensures best.Some? ==> IsCandidate(candidates, maxDistance, |candidates|, best.value)
    ensures best.Some? ==> forall i | 0 <= i < |candidates| && InReach(candidates[i], maxDistance) ::
              best.value.distance <= candidates[i].distance.value + Slack(|candidates| - i)
    ensures forall h | Dominates(candidates, maxDistance, h) :: best == Some(h)
    ensures forall h | IsNearest(candidates, maxDistance, |candidates|, h) && Untied(candidates, maxDistance, h) :: best == Some(h)
  {
    best := None;
    for n := 0 to |candidates|
      invariant best == Choose(candidates, maxDistance, n)
    {
      var c := candidates[n];
      if c.distance.None? || c.distance.value > maxDistance {
        continue;
      }
      var t := c.distance.value;
      if best.None? || t < best.value.distance - EPSILON || (Abs(t - best.value.distance) <= EPSILON && c.id < best.value.id) {
        best := Some(Hit(c.id, t));
      }
    }
    ChoiceDrift(candidates, maxDistance, |candidates|);
    hide Choose, Slack, Replaces;
    forall h | Dominates(candidates, maxDistance, h)
      ensures best == Some(h)
    {
      DominatingIsChosen(candidates, maxDistance, |candidates|, h);
    }
    forall h | IsNearest(candidates, maxDistance, |candidates|, h) && Untied(candidates, maxDistance, h)
      ensures best == Some(h)
    {
      NearestDominates(candidates, maxDistance, h);
    }
  }

  /**
   * A chain of near ties, where nothing dominates: three colliders one tolerance apart, met in order of increasing
   * distance, give the farthest, two tolerances beyond the nearest; met the other way round they give the nearest.
   */
  lemma NearTiesDependOnOrder()
    ensures var a, b, c := Candidate(2, Some(0.0)), Candidate(1, Some(EPSILON)), Candidate(0, Some(2.0 * EPSILON));
            && Choose([a, b, c], 1.0, 3) == Some(Hit(0, 2.0 * EPSILON))
            && Choose([c, b, a], 1.0, 3) == Some(Hit(2, 0.0))
  {
    var a, b, c := Candidate(2, Some(0.0)), Candidate(1, Some(EPSILON)), Candidate(0, Some(2.0 * EPSILON));
    assert Choose([a, b, c], 1.0, 0) == None && Choose([c, b, a], 1.0, 0) == None;
    assert Choose([a, b, c], 1.0, 1) == Some(Hit(2, 0.0));
    assert Choose([a, b, c], 1.0, 2) == Some(Hit(1, EPSILON));
    assert Choose([c, b, a], 1.0, 1) == Some(Hit(0, 2.0 * EPSILON));
    assert Choose([c, b, a], 1.0, 2) == Some(Hit(0, 2.0 * EPSILON));
  }
}
