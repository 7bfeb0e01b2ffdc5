/** Voxel merging: sort, run-mask, running group numbers and an in-place OR, against grouping by voxel. */
module Voxels {
  import opened RealMath
  import opened Vectors

  datatype Point = Point(position: Vector3, color: int, source: bv8)

  datatype Key = Key(x: int, y: int, z: int)

  function KeyOf(p: Point, size: real): Key
    requires size > 0.0
  {
    Key((p.position.x / size).Floor, (p.position.y / size).Floor, (p.position.z / size).Floor)
  }

  /** Along each axis a voxel is the half-open interval of one voxel size above its index. */
  lemma KeyIsCube(p: Point, size: real)
    requires size > 0.0
    ensures var k := KeyOf(p, size);
            && k.x as real * size <= p.position.x < (k.x + 1) as real * size
            && k.y as real * size <= p.position.y < (k.y + 1) as real * size
            && k.z as real * size <= p.position.z < (k.z + 1) as real * size
  {
    FloorInterval(p.position.x, size);
    FloorInterval(p.position.y, size);
    FloorInterval(p.position.z, size);
  }

  lemma FloorInterval(x: real, size: real)
    requires size > 0.0
    ensures var i := (x / size).Floor; i as real * size <= x < (i + 1) as real * size
  {
    var q := x / size;
    var i := q.Floor;
    assert q * size == x;
    if i as real * size > x {
      var p := NonNegativeProduct(q - i as real, size);
    }
    var p := PositiveProduct((i + 1) as real - q, size);
  }

  predicate KeyLess(a: Key, b: Key) {
    a.x < b.x || (a.x == b.x && (a.y < b.y || (a.y == b.y && a.z < b.z)))
  }

  /** A set bit of the source mask: `b` is any mask, in particular a single camera's bit. */
  predicate HasBit(m: bv8, b: bv8) {
    m & b != 0
  }

  // --- the specification: one point per voxel ------------------------------------------------------------

  /** The voxels are listed in strictly increasing key order, so none twice. */
  predicate OnePerVoxel(out: seq<Point>, size: real)
    requires size > 0.0
  {
    forall g, h | 0 <= g < h < |out| :: KeyLess(KeyOf(out[g], size), KeyOf(out[h], size))
  }

  /** `i` is the earliest input in its voxel. */
  predicate Earliest(points: seq<Point>, size: real, i: nat)
    requires size > 0.0 && i < |points|
  {
    forall j | 0 <= j < i :: KeyOf(points[j], size) != KeyOf(points[i], size)
  }

  /** Place and colour come from the earliest input of some voxel. */
  predicate FromEarliest(points: seq<Point>, size: real, p: Point)
    requires size > 0.0
  {
    exists i | 0 <= i < |points| && Earliest(points, size, i) :: p.position == points[i].position && p.color == points[i].color
  }

  predicate FirstIn(points: seq<Point>, size: real, out: seq<Point>)
    requires size > 0.0
  {
    forall g | 0 <= g < |out| :: FromEarliest(points, size, out[g])
  }

  predicate Occupied(out: seq<Point>, size: real, k: Key)
    requires size > 0.0
  {
    exists g | 0 <= g < |out| :: KeyOf(out[g], size) == k
  }

  predicate EveryVoxel(points: seq<Point>, size: real, out: seq<Point>)
    requires size > 0.0
  {
    forall i | 0 <= i < |points| :: Occupied(out, size, KeyOf(points[i], size))
  }

  predicate SomeInputHas(points: seq<Point>, size: real, k: Key, b: bv8)
    requires size > 0.0
  {
    exists j | 0 <= j < |points| :: KeyOf(points[j], size) == k && HasBit(points[j].source, b)
  }

  /** A representative carries exactly the bits carried by some input of its voxel. */
  ghost predicate MasksCombined(points: seq<Point>, size: real, out: seq<Point>)
    requires size > 0.0
  {
    forall g, b | 0 <= g < |out| :: HasBit(out[g].source, b) <==> SomeInputHas(points, size, KeyOf(out[g], size), b)
  }

  ghost predicate Grouped(points: seq<Point>, size: real, out: seq<Point>)
    requires size > 0.0
  {
    OnePerVoxel(out, size) && FirstIn(points, size, out) && EveryVoxel(points, size, out) && MasksCombined(points, size, out)
  }

  // --- stable lexicographic order of the keys ---------------------------------------------------------------

  predicate Before(keys: seq<Key>, i: nat, j: nat)
    requires i < |keys| && j < |keys|
  {
    KeyLess(keys[i], keys[j]) || (keys[i] == keys[j] && i < j)
  }

  function InsertIndex(order: seq<nat>, keys: seq<Key>, i: nat): seq<nat>
    requires i < |keys| && forall a | 0 <= a < |order| :: order[a] < |keys|
  {
    if order == [] || !KeyLess(keys[i], keys[order[|order| - 1]]) then order + [i]
    else InsertIndex(order[..|order| - 1], keys, i) + [order[|order| - 1]]
  }

  /** The stable sorting permutation of the first n keys. */
  function LexSort(keys: seq<Key>, n: nat): (order: seq<nat>)
    requires n <= |keys|
    ensures forall a | 0 <= a < |order| :: order[a] < n
  {
    if n == 0 then []
    else
      InsertIndexRange(LexSort(keys, n - 1), keys, n - 1, n);
      InsertIndex(LexSort(keys, n - 1), keys, n - 1)
  }

  lemma {:induction false} InsertIndexRange(order: seq<nat>, keys: seq<Key>, i: nat, n: nat)
    requires i < n <= |keys| && forall a | 0 <= a < |order| :: order[a] < n
    ensures forall a | 0 <= a < |InsertIndex(order, keys, i)| :: InsertIndex(order, keys, i)[a] < n
    ensures forall x: nat :: x in InsertIndex(order, keys, i) <==> x == i || x in order
    ensures |InsertIndex(order, keys, i)| == |order| + 1
  {
    if order != [] && KeyLess(keys[i], keys[order[|order| - 1]]) {
      var front, last := order[..|order| - 1], order[|order| - 1];
      InsertIndexRange(front, keys, i, n);
      assert order == front + [last];
    }
  }

  /** A permutation of the indices in which every two are in key order, equal keys in index order. */
  predicate StableOrder(order: seq<nat>, keys: seq<Key>, n: nat)
    requires n <= |keys|
  {
    && |order| == n
    && (forall a | 0 <= a < |order| :: order[a] < n)
    && (forall i: nat | i < n :: i in order)
    && (forall a, b | 0 <= a < b < |order| :: Before(keys, order[a], order[b]))
  }

  lemma {:induction false} InsertIndexSorted(order: seq<nat>, keys: seq<Key>, i: nat)
    requires i < |keys| && forall a | 0 <= a < |order| :: order[a] < i
    requires forall a, b | 0 <= a < b < |order| :: Before(keys, order[a], order[b])
    ensures var r := InsertIndex(order, keys, i);
            && (forall a | 0 <= a < |r| :: r[a] <= i)
            && forall a, b | 0 <= a < b < |r| :: Before(keys, r[a], r[b])
  {
    InsertIndexRange(order, keys, i, i + 1);
    if order == [] {
    } else {
      var front, last := order[..|order| - 1], order[|order| - 1];
      if KeyLess(keys[i], keys[last]) {
        InsertIndexSorted(front, keys, i);
        InsertIndexRange(front, keys, i, i + 1);
        var r := InsertIndex(front, keys, i);
        forall a | 0 <= a < |r|
          ensures Before(keys, r[a], last)
        {
          assert r[a] in r;
          if r[a] != i {
            var k :| 0 <= k < |front| && front[k] == r[a];
            assert Before(keys, order[k], last);
          }
        }
      } else {
        forall a | 0 <= a < |order|
          ensures Before(keys, order[a], i)
        {
          assert a < |order| - 1 ==> Before(keys, order[a], last);
        }
      }
    }
  }

  lemma {:induction false} LexSortIsStable(keys: seq<Key>, n: nat)
    requires n <= |keys|
    ensures StableOrder(LexSort(keys, n), keys, n)
  {
    if n > 0 {
      LexSortIsStable(keys, n - 1);
      var order := LexSort(keys, n - 1);
      InsertIndexRange(order, keys, n - 1, n);
      assert LexSort(keys, n) == InsertIndex(order, keys, n - 1);
      InsertKeepsStable(order, keys, n - 1);
    }
  }

  lemma InsertKeepsStable(order: seq<nat>, keys: seq<Key>, i: nat)
    requires i < |keys| && StableOrder(order, keys, i)
    ensures StableOrder(InsertIndex(order, keys, i), keys, i + 1)
  {
    hide InsertIndex, Before;
    InsertIndexRange(order, keys, i, i + 1);
    InsertIndexSorted(order, keys, i);
  }

  // --- the implementation ------------------------------------------------------------------------------------

  function Keys(points: seq<Point>, size: real): (r: seq<Key>)
    requires size > 0.0
    ensures |r| == |points| && forall i | 0 <= i < |r| :: r[i] == KeyOf(points[i], size)
  {
    seq(|points|, i requires 0 <= i < |points| => KeyOf(points[i], size))
  }

  /** Position p starts a run of equal keys in the sorted order. */
  predicate StartsRun(keys: seq<Key>, order: seq<nat>, p: nat)
    requires p < |order| && forall a | 0 <= a < |order| :: order[a] < |keys|
  {
    p == 0 || keys[order[p]] != keys[order[p - 1]]
  }

  /** Runs numbered from zero: the first positions' groups, and where each run starts. */
  predicate RunsNumbered(keys: seq<Key>, order: seq<nat>, groups: seq<nat>, starts: seq<nat>)
    requires |groups| <= |order| && forall a | 0 <= a < |order| :: order[a] < |keys|
  {
    && (forall p | 0 <= p < |groups| ::
          groups[p] < |starts| && starts[groups[p]] <= p && keys[order[starts[groups[p]]]] == keys[order[p]])
    && (forall g | 0 <= g < |starts| :: starts[g] < |groups| && groups[starts[g]] == g && StartsRun(keys, order, starts[g]))
    && (forall g, h | 0 <= g < h < |starts| :: starts[g] < starts[h])
    && (|groups| > 0 ==> |starts| > 0 && groups[|groups| - 1] == |starts| - 1)
  }

  lemma RunOpens(keys: seq<Key>, order: seq<nat>, groups: seq<nat>, starts: seq<nat>)
    requires |groups| < |order| && forall a | 0 <= a < |order| :: order[a] < |keys|
    requires RunsNumbered(keys, order, groups, starts) && StartsRun(keys, order, |groups|)
    ensures RunsNumbered(keys, order, groups + [|starts|], starts + [|groups|])
  {
    var p, groups', starts' := |groups|, groups + [|starts|], starts + [|groups|];
    assert forall q | 0 <= q < p :: groups'[q] == groups[q] && starts'[groups[q]] == starts[groups[q]];
    assert forall g | 0 <= g < |starts| :: starts'[g] == starts[g] && groups'[starts[g]] == groups[starts[g]];
  }

  lemma RunContinues(keys: seq<Key>, order: seq<nat>, groups: seq<nat>, starts: seq<nat>)
    requires |groups| < |order| && forall a | 0 <= a < |order| :: order[a] < |keys|
    requires RunsNumbered(keys, order, groups, starts) && !StartsRun(keys, order, |groups|)
    ensures |starts| > 0 && RunsNumbered(keys, order, groups + [|starts| - 1], starts)
  {
    var p, groups' := |groups|, groups + [|starts| - 1];
    assert p > 0 && keys[order[p]] == keys[order[p - 1]] && groups[p - 1] == |starts| - 1;
    assert keys[order[starts[groups[p - 1]]]] == keys[order[p - 1]];
    assert forall q | 0 <= q < p :: groups'[q] == groups[q];
    assert forall g | 0 <= g < |starts| :: groups'[starts[g]] == groups[starts[g]];
  }

  /** Number the runs by a running sum over the run mask. */
  method NumberRuns(keys: seq<Key>, order: seq<nat>) returns (groups: seq<nat>, starts: seq<nat>)
    requires forall a | 0 <= a < |order| :: order[a] < |keys|
    ensures |groups| == |order| && RunsNumbered(keys, order, groups, starts)
  {
    groups, starts := [], [];
    assert RunsNumbered(keys, order, groups, starts);
    hide RunsNumbered;
    for p := 0 to |order|
      invariant |groups| == p && RunsNumbered(keys, order, groups, starts)
    {
      if p == 0 || keys[order[p]] != keys[order[p - 1]] {
        RunOpens(keys, order, groups, starts);
        starts := starts + [p];
      } else {
        RunContinues(keys, order, groups, starts);
      }
      groups := groups + [|starts| - 1];
    }
  }

  predicate EarlierHas(points: seq<Point>, order: seq<nat>, groups: seq<nat>, n: nat, g: nat, b: bv8)
    requires n <= |order| == |groups| && forall a | 0 <= a < |order| :: order[a] < |points|
  {
    exists p | 0 <= p < n :: groups[p] == g && HasBit(points[order[p]].source, b)
  }

  lemma OrBits(x: bv8, y: bv8, b: bv8)
    ensures HasBit(x | y, b) <==> HasBit(x, b) || HasBit(y, b)
  {
  }

  lemma EarlierHasStep(points: seq<Point>, order: seq<nat>, groups: seq<nat>, n: nat, g: nat, b: bv8)
    requires n < |order| == |groups| && forall a | 0 <= a < |order| :: order[a] < |points|
    ensures EarlierHas(points, order, groups, n + 1, g, b) <==>
              EarlierHas(points, order, groups, n, g, b) || (groups[n] == g && HasBit(points[order[n]].source, b))
  {
    hide HasBit;
    if EarlierHas(points, order, groups, n, g, b) {
      var p :| 0 <= p < n && groups[p] == g && HasBit(points[order[p]].source, b);
      assert 0 <= p < n + 1 && groups[p] == g;
    }
  }

  /** Each group's mask so far holds exactly the bits of its positions so far. */
  ghost predicate Scattered(combined: seq<bv8>, points: seq<Point>, order: seq<nat>, groups: seq<nat>, n: nat)
    requires n <= |order| == |groups| && forall a | 0 <= a < |order| :: order[a] < |points|
  {
    forall g, b | 0 <= g < |combined| :: HasBit(combined[g], b) <==> EarlierHas(points, order, groups, n, g, b)
  }

  lemma ScatterStep(combined: seq<bv8>, points: seq<Point>, order: seq<nat>, groups: seq<nat>, n: nat)
    requires n < |order| == |groups| && forall a | 0 <= a < |order| :: order[a] < |points|
    requires groups[n] < |combined| && Scattered(combined, points, order, groups, n)
    ensures Scattered(combined[groups[n] := combined[groups[n]] | points[order[n]].source], points, order, groups, n + 1)
  {
    hide HasBit, EarlierHas;
    var after := combined[groups[n] := combined[groups[n]] | points[order[n]].source];
    forall g: nat, b | g < |after|
      ensures HasBit(after[g], b) <==> EarlierHas(points, order, groups, n + 1, g, b)
    {
      assert HasBit(combined[g], b) <==> EarlierHas(points, order, groups, n, g, b);
      EarlierHasStep(points, order, groups, n, g, b);
      OrBits(combined[g], points[order[n]].source, b);
    }
  }

  /** Scatter the masks into their groups with OR. */
  method CombineMasks(points: seq<Point>, order: seq<nat>, groups: seq<nat>, count: nat) returns (combined: array<bv8>)
    requires |order| == |groups| && forall a | 0 <= a < |order| :: order[a] < |points|
    requires forall p | 0 <= p < |groups| :: groups[p] < count
    ensures fresh(combined) && combined.Length == count && Scattered(combined[..], points, order, groups, |order|)
  {
    combined := new bv8[count](_ => 0);
    assert Scattered(combined[..], points, order, groups, 0);
    hide Scattered;
    for p := 0 to |order|
      invariant Scattered(combined[..], points, order, groups, p)
    {
      ScatterStep(combined[..], points, order, groups, p);
      combined[groups[p]] := combined[groups[p]] | points[order[p]].source;
    }
  }

  /** Groups and keys tell positions apart equally well. */
  lemma SameGroupSameKey(keys: seq<Key>, order: seq<nat>, groups: seq<nat>, starts: seq<nat>, p: nat, q: nat)
    requires StableOrder(order, keys, |keys|) && |groups| == |order| && RunsNumbered(keys, order, groups, starts)
    requires p < |order| && q < |order|
    ensures groups[p] == groups[q] <==> keys[order[p]] == keys[order[q]]
  {
    if groups[p] != groups[q] {
      var lo, hi := if groups[p] < groups[q] then groups[p] else groups[q], if groups[p] < groups[q] then groups[q] else groups[p];
      StartsApart(keys, order, groups, starts, lo, hi);
    }
  }

  /** Two runs never share a key: the later one's start differs from everything before it. */
  lemma StartsApart(keys: seq<Key>, order: seq<nat>, groups: seq<nat>, starts: seq<nat>, g: nat, h: nat)
    requires StableOrder(order, keys, |keys|) && |groups| == |order| && RunsNumbered(keys, order, groups, starts)
    requires g < h < |starts|
    ensures KeyLess(keys[order[starts[g]]], keys[order[starts[h]]])
  {
    var s := starts[h];
    assert starts[g] < s && StartsRun(keys, order, s);
    assert Before(keys, order[s - 1], order[s]);
    assert KeyLess(keys[order[s - 1]], keys[order[s]]);
    if starts[g] < s - 1 {
      assert Before(keys, order[starts[g]], order[s - 1]);
    }
  }

  lemma EqualKeysInOrder(keys: seq<Key>, order: seq<nat>, p: nat, q: nat)
    requires StableOrder(order, keys, |keys|) && p < q < |order| && keys[order[p]] == keys[order[q]]
    ensures order[p] < order[q]
  {
    assert Before(keys, order[p], order[q]);
  }

  /** A run's first position holds the earliest input of its voxel. */
  lemma StartIsEarliest(points: seq<Point>, size: real, order: seq<nat>, groups: seq<nat>, starts: seq<nat>, g: nat)
    requires size > 0.0
    requires var keys := Keys(points, size);
             StableOrder(order, keys, |keys|) && |groups| == |order| && RunsNumbered(keys, order, groups, starts)
    requires g < |starts|
    ensures Earliest(points, size, order[starts[g]])
  {
    var keys := Keys(points, size);
    var i := order[starts[g]];
    hide KeyOf, KeyLess;
    forall j | 0 <= j < |points| && KeyOf(points[j], size) == KeyOf(points[i], size)
      ensures i <= j
    {
      assert j in order;
      var q :| 0 <= q < |order| && order[q] == j;
      SameGroupSameKey(keys, order, groups, starts, q, starts[g]);
      assert starts[g] <= q;
      if starts[g] < q {
        EqualKeysInOrder(keys, order, starts[g], q);
      }
    }
  }

  /** The sorted positions are cut into runs of equal keys. */
  predicate Runs(points: seq<Point>, size: real, order: seq<nat>, groups: seq<nat>, starts: seq<nat>)
    requires size > 0.0
  {
    var keys := Keys(points, size);
    && StableOrder(order, keys, |keys|) && |groups| == |order| && RunsNumbered(keys, order, groups, starts)
    && |order| == |points|
  }

  /** One representative for each run, taken from its first position. */
  predicate Represents(points: seq<Point>, size: real, order: seq<nat>, starts: seq<nat>, out: seq<Point>)
    requires size > 0.0
  {
    && |out| == |starts|
    && forall g | 0 <= g < |out| ::
         && starts[g] < |order| && order[starts[g]] < |points|
         && out[g].position == points[order[starts[g]]].position && out[g].color == points[order[starts[g]]].color
         && KeyOf(out[g], size) == KeyOf(points[order[starts[g]]], size)
  }

  lemma RunsOnePerVoxel(points: seq<Point>, size: real, order: seq<nat>, groups: seq<nat>, starts: seq<nat>, out: seq<Point>)
    requires size > 0.0 && Runs(points, size, order, groups, starts) && Represents(points, size, order, starts, out)
    ensures OnePerVoxel(out, size)
  {
    var keys := Keys(points, size);
    hide KeyOf, KeyLess;
    forall g, h | 0 <= g < h < |out|
      ensures KeyLess(KeyOf(out[g], size), KeyOf(out[h], size))
    {
      assert KeyOf(out[g], size) == keys[order[starts[g]]] && KeyOf(out[h], size) == keys[order[starts[h]]];
      hide StableOrder, RunsNumbered;
      StartsApart(keys, order, groups, starts, g, h);
    }
  }

  lemma RunsFirstIn(points: seq<Point>, size: real, order: seq<nat>, groups: seq<nat>, starts: seq<nat>, out: seq<Point>)
    requires size > 0.0 && Runs(points, size, order, groups, starts) && Represents(points, size, order, starts, out)
    ensures FirstIn(points, size, out)
  {
    hide KeyOf, KeyLess, StableOrder, RunsNumbered, Earliest;
    forall g | 0 <= g < |out|
      ensures FromEarliest(points, size, out[g])
    {
      StartIsEarliest(points, size, order, groups, starts, g);
      var i := order[starts[g]];
      assert 0 <= i < |points| && Earliest(points, size, i) && out[g].position == points[i].position;
    }
  }

  lemma PositionOf(points: seq<Point>, size: real, order: seq<nat>, groups: seq<nat>, starts: seq<nat>, i: nat) returns (p: nat)
    requires size > 0.0 && Runs(points, size, order, groups, starts) && i < |points|
    ensures p < |order| == |groups| && order[p] == i && groups[p] < |starts| && starts[groups[p]] < |order|
    ensures order[starts[groups[p]]] < |points|
    ensures KeyOf(points[order[starts[groups[p]]]], size) == KeyOf(points[i], size)
  {
    hide KeyOf, KeyLess;
    assert i in order;
    p :| 0 <= p < |order| && order[p] == i;
  }

  lemma RunsEveryVoxel(points: seq<Point>, size: real, order: seq<nat>, groups: seq<nat>, starts: seq<nat>, out: seq<Point>)
    requires size > 0.0 && Runs(points, size, order, groups, starts) && Represents(points, size, order, starts, out)
    ensures EveryVoxel(points, size, out)
  {
    hide KeyOf, Runs;
    forall i | 0 <= i < |points|
      ensures Occupied(out, size, KeyOf(points[i], size))
    {
      var p := PositionOf(points, size, order, groups, starts, i);
      assert KeyOf(out[groups[p]], size) == KeyOf(points[i], size);
    }
  }

  lemma GroupIsVoxel(points: seq<Point>, size: real, order: seq<nat>, groups: seq<nat>, starts: seq<nat>, out: seq<Point>,
                     g: nat, p: nat)
    requires size > 0.0 && Runs(points, size, order, groups, starts) && Represents(points, size, order, starts, out)
    requires g < |out| && p < |order|
    ensures order[p] < |points|
    ensures groups[p] == g <==> KeyOf(points[order[p]], size) == KeyOf(out[g], size)
  {
    var keys := Keys(points, size);
    assert groups[starts[g]] == g;
    SameGroupSameKey(keys, order, groups, starts, p, starts[g]);
    hide KeyOf, StableOrder, RunsNumbered;
  }

  lemma RunsCombine(points: seq<Point>, size: real, order: seq<nat>, groups: seq<nat>, starts: seq<nat>, combined: seq<bv8>,
                    out: seq<Point>)
    requires size > 0.0 && Runs(points, size, order, groups, starts) && Represents(points, size, order, starts, out)
    requires |combined| == |out| && forall g | 0 <= g < |out| :: out[g].source == combined[g]
    requires |order| == |groups| && (forall a | 0 <= a < |order| :: order[a] < |points|)
    requires Scattered(combined, points, order, groups, |order|)
    ensures MasksCombined(points, size, out)
  {
    hide HasBit, KeyOf, Runs, Represents;
    forall g: nat, b | g < |out|
      ensures HasBit(out[g].source, b) <==> SomeInputHas(points, size, KeyOf(out[g], size), b)
    {
      assert HasBit(out[g].source, b) <==> EarlierHas(points, order, groups, |order|, g, b);
      if EarlierHas(points, order, groups, |order|, g, b) {
        var p :| 0 <= p < |order| && groups[p] == g && HasBit(points[order[p]].source, b);
        GroupIsVoxel(points, size, order, groups, starts, out, g, p);
      }
      if SomeInputHas(points, size, KeyOf(out[g], size), b) {
        var j :| 0 <= j < |points| && KeyOf(points[j], size) == KeyOf(out[g], size) && HasBit(points[j].source, b);
        var p := PositionOf(points, size, order, groups, starts, j);
        GroupIsVoxel(points, size, order, groups, starts, out, g, p);
      }
    }
  }

  /** The voxel filter: nothing to do without points or a positive size, otherwise one point per occupied voxel. */
  method VoxelDownsample(points: seq<Point>, size: real) returns (out: seq<Point>)
    ensures points == [] || size <= 0.0 ==> out == points
    ensures points != [] && size > 0.0 ==> Grouped(points, size, out)
  {
    if |points| == 0 || size <= 0.0 {
      return points;
    }
    var keys := Keys(points, size);
    var order := LexSort(keys, |keys|);
    LexSortIsStable(keys, |keys|);
    var groups, starts := NumberRuns(keys, order);
    assert Runs(points, size, order, groups, starts);
    RunsInRange(keys, order, groups, starts);
    hide LexSort, RunsNumbered, Runs, StableOrder, HasBit, KeyOf, Scattered, OnePerVoxel, FirstIn, EveryVoxel, MasksCombined;
    var combined := CombineMasks(points, order, groups, |starts|);
    var masks := combined[..];
    out := seq(|starts|, g requires 0 <= g < |starts| && starts[g] < |order| && order[starts[g]] < |points| && g < |masks|
               => Point(points[order[starts[g]]].position, points[order[starts[g]]].color, masks[g]));
    forall g | 0 <= g < |out|
      ensures KeyOf(out[g], size) == KeyOf(points[order[starts[g]]], size)
    {
      SamePlaceSameKey(out[g], points[order[starts[g]]], size);
    }
    assert Represents(points, size, order, starts, out);
    RunsOnePerVoxel(points, size, order, groups, starts, out);
    RunsFirstIn(points, size, order, groups, starts, out);
    RunsEveryVoxel(points, size, order, groups, starts, out);
    RunsCombine(points, size, order, groups, starts, masks, out);
  }

  lemma RunsInRange(keys: seq<Key>, order: seq<nat>, groups: seq<nat>, starts: seq<nat>)
    requires |groups| == |order| && forall a | 0 <= a < |order| :: order[a] < |keys|
    requires RunsNumbered(keys, order, groups, starts)
    ensures forall p | 0 <= p < |groups| :: groups[p] < |starts|
    ensures forall g | 0 <= g < |starts| :: starts[g] < |order|
  {
  }

  // --- the specification leaves no choice -------------------------------------------------------------------------

  lemma SameBits(m: bv8, n: bv8)
    requires forall b: bv8 :: HasBit(m, b) <==> HasBit(n, b)
    ensures m == n
  {
    assert HasBit(m, m & !n) <==> HasBit(n, m & !n);
    assert HasBit(m, n & !m) <==> HasBit(n, n & !m);
  }

  lemma SameVoxelSamePlace(points: seq<Point>, size: real, a: seq<Point>, b: seq<Point>, g: nat, h: nat)
    requires size > 0.0 && FirstIn(points, size, a) && FirstIn(points, size, b)
    requires g < |a| && h < |b| && KeyOf(a[g], size) == KeyOf(b[h], size)
    ensures a[g].position == b[h].position && a[g].color == b[h].color
  {
    hide KeyOf, FirstIn;
    var i := SourceOf(points, size, a, g);
    var j := SourceOf(points, size, b, h);
    assert i == j;
  }

  lemma SameVoxelSamePoint(points: seq<Point>, size: real, a: seq<Point>, b: seq<Point>, g: nat, h: nat)
    requires size > 0.0 && Grouped(points, size, a) && Grouped(points, size, b)
    requires g < |a| && h < |b| && KeyOf(a[g], size) == KeyOf(b[h], size)
    ensures a[g] == b[h]
  {
    hide KeyOf, HasBit, FirstIn, OnePerVoxel, EveryVoxel, SomeInputHas;
    SameVoxelSamePlace(points, size, a, b, g, h);
    var k := KeyOf(a[g], size);
    forall m: bv8
      ensures HasBit(a[g].source, m) <==> HasBit(b[h].source, m)
    {
      assert HasBit(a[g].source, m) <==> SomeInputHas(points, size, k, m);
      assert HasBit(b[h].source, m) <==> SomeInputHas(points, size, k, m);
    }
    SameBits(a[g].source, b[h].source);
  }

  lemma KeyOrder(a: Key, b: Key)
    ensures !(KeyLess(a, b) && KeyLess(b, a)) && !KeyLess(a, a)
  {
  }

  predicate Ascend(ks: seq<Key>) {
    forall g, h | 0 <= g < h < |ks| :: KeyLess(ks[g], ks[h])
  }

  lemma LastIsGreatest(ks: seq<Key>, k: Key)
    requires Ascend(ks) && k in ks
    ensures k == ks[|ks| - 1] || KeyLess(k, ks[|ks| - 1])
  {
  }

  lemma FirstIsIn(ks: seq<Key>)
    ensures ks != [] ==> ks[0] in ks
  {
  }

  /** Strictly increasing lists of the same keys are the same list. */
  lemma {:induction false} AscendingUnique(a: seq<Key>, b: seq<Key>)
    requires Ascend(a) && Ascend(b) && forall k :: k in a <==> k in b
    ensures a == b
  {
    FirstIsIn(b);
    if a != [] {
      assert a[|a| - 1] in b;
      var x, y := a[|a| - 1], b[|b| - 1];
      LastIsGreatest(b, x);
      LastIsGreatest(a, y);
      KeyOrder(x, y);
      var a', b' := a[..|a| - 1], b[..|b| - 1];
      assert a == a' + [x] && b == b' + [y];
      assert x == y;
      FrontLacksLast(a);
      FrontLacksLast(b);
      forall k
        ensures k in a' <==> k in b'
      {
        assert k in a <==> k in b;
        assert k in a' <==> k in a && k != x;
        assert k in b' <==> k in b && k != y;
      }
      hide KeyLess;
      AscendingUnique(a', b');
    }
  }

  lemma FrontLacksLast(ks: seq<Key>)
    requires Ascend(ks) && ks != []
    ensures forall k :: k in ks[..|ks| - 1] <==> k in ks && k != ks[|ks| - 1]
  {
    var front, last := ks[..|ks| - 1], ks[|ks| - 1];
    assert ks == front + [last];
    forall k | k in front
      ensures k != last
    {
      var i :| 0 <= i < |front| && front[i] == k;
      KeyOrder(ks[i], last);
    }
  }

  lemma OccupiedKeys(points: seq<Point>, size: real, out: seq<Point>, k: Key)
    requires size > 0.0 && FirstIn(points, size, out) && EveryVoxel(points, size, out)
    ensures k in Keys(out, size) <==> k in Keys(points, size)
  {
    if k in Keys(out, size) {
      var g :| 0 <= g < |out| && Keys(out, size)[g] == k;
      var i := SourceOf(points, size, out, g);
      assert Keys(points, size)[i] == k;
    }
    if k in Keys(points, size) {
      var i :| 0 <= i < |points| && Keys(points, size)[i] == k;
      hide KeyOf;
      assert Occupied(out, size, KeyOf(points[i], size));
      var g :| 0 <= g < |out| && KeyOf(out[g], size) == k;
      assert Keys(out, size)[g] == k;
    }
  }

  lemma SourceOf(points: seq<Point>, size: real, out: seq<Point>, g: nat) returns (i: nat)
    requires size > 0.0 && FirstIn(points, size, out) && g < |out|
    ensures i < |points| && Earliest(points, size, i) && KeyOf(points[i], size) == KeyOf(out[g], size)
    ensures out[g].position == points[i].position && out[g].color == points[i].color
  {
    assert FromEarliest(points, size, out[g]);
    i :| 0 <= i < |points| && Earliest(points, size, i) && out[g].position == points[i].position && out[g].color == points[i].color;
    SamePlaceSameKey(out[g], points[i], size);
    hide KeyOf, Earliest;
  }

  lemma SamePlaceSameKey(p: Point, q: Point, size: real)
    requires size > 0.0 && p.position == q.position
    ensures KeyOf(p, size) == KeyOf(q, size)
  {
  }

  /** So the grouping is a function of the input: the loops above compute the only possible answer. */
  lemma GroupingUnique(points: seq<Point>, size: real, a: seq<Point>, b: seq<Point>)
    requires size > 0.0 && Grouped(points, size, a) && Grouped(points, size, b)
    ensures a == b
  {
    assert Ascend(Keys(a, size)) && Ascend(Keys(b, size));
    hide Grouped, KeyOf, Ascend;
    forall k
      ensures k in Keys(a, size) <==> k in Keys(b, size)
    {
      OccupiedKeys(points, size, a, k);
      OccupiedKeys(points, size, b, k);
    }
    AscendingUnique(Keys(a, size), Keys(b, size));
    assert |a| == |Keys(a, size)| == |b|;
    forall g | 0 <= g < |a|
      ensures a[g] == b[g]
    {
      assert KeyOf(a[g], size) == Keys(a, size)[g] == KeyOf(b[g], size);
      SameVoxelSamePoint(points, size, a, b, g, g);
    }
  }

  lemma OwnVoxel(out: seq<Point>, size: real, g: nat, h: nat)
    requires size > 0.0 && OnePerVoxel(out, size) && g < |out| && h < |out| && KeyOf(out[g], size) == KeyOf(out[h], size)
    ensures g == h
  {
    KeyOrder(KeyOf(out[g], size), KeyOf(out[h], size));
    hide KeyOf, KeyLess;
  }

  lemma SelfGrouped(out: seq<Point>, size: real)
    requires size > 0.0 && OnePerVoxel(out, size)
    ensures Grouped(out, size, out)
  {
    hide KeyOf, KeyLess, HasBit, OnePerVoxel, SomeInputHas, Earliest;
    forall g | 0 <= g < |out|
      ensures FromEarliest(out, size, out[g])
    {
      EarliestInSelf(out, size, g);
    }
    forall i | 0 <= i < |out|
      ensures Occupied(out, size, KeyOf(out[i], size))
    {
    }
    hide FirstIn, EveryVoxel, Occupied, FromEarliest;
    forall g, b | 0 <= g < |out|
      ensures HasBit(out[g].source, b) <==> SomeInputHas(out, size, KeyOf(out[g], size), b)
    {
      OwnBits(out, size, g, b);
    }
  }

  lemma EarliestInSelf(out: seq<Point>, size: real, g: nat)
    requires size > 0.0 && OnePerVoxel(out, size) && g < |out|
    ensures Earliest(out, size, g)
  {
    hide KeyOf, OnePerVoxel;
    forall j | 0 <= j < g
      ensures KeyOf(out[j], size) != KeyOf(out[g], size)
    {
      if KeyOf(out[j], size) == KeyOf(out[g], size) {
        OwnVoxel(out, size, j, g);
      }
    }
  }

  lemma OwnBits(out: seq<Point>, size: real, g: nat, b: bv8)
    requires size > 0.0 && OnePerVoxel(out, size) && g < |out|
    ensures HasBit(out[g].source, b) <==> SomeInputHas(out, size, KeyOf(out[g], size), b)
  {
    hide KeyOf, HasBit, OnePerVoxel;
    if SomeInputHas(out, size, KeyOf(out[g], size), b) {
      var j :| 0 <= j < |out| && KeyOf(out[j], size) == KeyOf(out[g], size) && HasBit(out[j].source, b);
      OwnVoxel(out, size, j, g);
    }
  }

  /** A filtered cloud is its own grouping, so filtering twice changes nothing. */
  lemma FilteredIsFixed(points: seq<Point>, size: real, out: seq<Point>, again: seq<Point>)
    requires size > 0.0 && Grouped(points, size, out) && Grouped(out, size, again)
    ensures again == out
  {
    SelfGrouped(out, size) by { hide FirstIn, EveryVoxel, MasksCombined; }
    hide Grouped;
    GroupingUnique(out, size, again, out);
  }

  // --- merging the views and capping the result ------------------------------------------------------------------

  function Flatten(clouds: seq<seq<Point>>): seq<Point> {
    if clouds == [] then [] else Flatten(clouds[..|clouds| - 1]) + clouds[|clouds| - 1]
  }

  /** Every point of every cloud is there, the clouds in order and each in its own. */
  lemma {:induction false} FlattenInOrder(clouds: seq<seq<Point>>, i: nat)
    requires i < |clouds|
    ensures var start := |Flatten(clouds[..i])|;
            start + |clouds[i]| <= |Flatten(clouds)| && Flatten(clouds)[start..start + |clouds[i]|] == clouds[i]
    ensures i == |clouds| - 1 ==> |Flatten(clouds)| == |Flatten(clouds[..i])| + |clouds[i]|
  {
    var front := clouds[..|clouds| - 1];
    if i < |clouds| - 1 {
      FlattenInOrder(front, i);
      assert front[..i] == clouds[..i];
      var start := |Flatten(clouds[..i])|;
      assert Flatten(clouds)[start..start + |clouds[i]|] == Flatten(front)[start..start + |clouds[i]|];
    }
  }

  /** A choice of `max` positions out of n, in order. */
  predicate ValidPick(pick: seq<nat>, n: nat, max: nat) {
    && |pick| == max && (forall k | 0 <= k < |pick| :: pick[k] < n)
    && forall j, k | 0 <= j < k < |pick| :: pick[j] < pick[k]
  }

  /** The cap: an ordered choice of positions, but only when there are too many. */
  function Subsample(points: seq<Point>, max: nat, pick: seq<nat>): seq<Point>
    requires |points| > max ==> ValidPick(pick, |points|, max)
  {
    if |points| <= max then points
    else seq(|pick|, k requires 0 <= k < |pick| => points[pick[k]])
  }

  /** Same voxel, or same point when there is no voxel grid. */
  predicate SamePlace(p: Point, q: Point, size: real) {
    if size > 0.0 then KeyOf(p, size) == KeyOf(q, size) else p == q
  }

  predicate Supported(points: seq<Point>, size: real, p: Point, b: bv8) {
    exists j | 0 <= j < |points| :: SamePlace(points[j], p, size) && HasBit(points[j].source, b)
  }

  /** Every bit of a merged point was set by some input there. */
  ghost predicate NoBitCreated(points: seq<Point>, size: real, merged: seq<Point>) {
    forall g, b | 0 <= g < |merged| && HasBit(merged[g].source, b) :: Supported(points, size, merged[g], b)
  }

  /** Every bit of an input is set on some merged point there. */
  ghost predicate NoBitLost(points: seq<Point>, size: real, merged: seq<Point>) {
    forall j, b | 0 <= j < |points| && HasBit(points[j].source, b) :: Supported(merged, size, points[j], b)
  }

  /** The filtered cloud, of which there is only one. */
  ghost predicate Filtered(points: seq<Point>, size: real, out: seq<Point>) {
    && (points == [] || size <= 0.0 ==> out == points)
    && (points != [] && size > 0.0 ==> Grouped(points, size, out))
  }

  /** Place and colour are those of an input. */
  predicate FromInput(points: seq<Point>, p: Point) {
    exists j :: 0 <= j < |points| && points[j].position == p.position && points[j].color == p.color
  }

  lemma FilteredFromInput(points: seq<Point>, size: real, out: seq<Point>)
    requires Filtered(points, size, out)
    ensures forall g | 0 <= g < |out| :: FromInput(points, out[g])
  {
    hide KeyOf;
    forall g | 0 <= g < |out|
      ensures FromInput(points, out[g])
    {
      if points == [] || size <= 0.0 {
        assert points[g].position == out[g].position;
      } else {
        var i := SourceOf(points, size, out, g);
      }
    }
  }

  lemma FilterKeepsBits(points: seq<Point>, size: real, out: seq<Point>)
    requires Filtered(points, size, out)
    ensures NoBitCreated(points, size, out) && NoBitLost(points, size, out)
  {
    hide HasBit, KeyOf;
    if points == [] || size <= 0.0 {
      forall g, b | 0 <= g < |out| && HasBit(out[g].source, b)
        ensures Supported(points, size, out[g], b)
      {
        assert SamePlace(points[g], out[g], size);
      }
    } else {
      forall g, b | 0 <= g < |out| && HasBit(out[g].source, b)
        ensures Supported(points, size, out[g], b)
      {
        assert SomeInputHas(points, size, KeyOf(out[g], size), b);
        var j :| 0 <= j < |points| && KeyOf(points[j], size) == KeyOf(out[g], size) && HasBit(points[j].source, b);
        assert SamePlace(points[j], out[g], size);
      }
      forall j, b | 0 <= j < |points| && HasBit(points[j].source, b)
        ensures Supported(out, size, points[j], b)
      {
        assert Occupied(out, size, KeyOf(points[j], size));
        var g :| 0 <= g < |out| && KeyOf(out[g], size) == KeyOf(points[j], size);
        assert SomeInputHas(points, size, KeyOf(out[g], size), b);
        assert SamePlace(out[g], points[j], size);
      }
    }
  }

  /** All of the filtered cloud when it fits the budget, otherwise as many of its points as fit. */
  predicate Capped(filtered: seq<Point>, max: nat, merged: seq<Point>) {
    && (|filtered| <= max ==> merged == filtered)
    && (|filtered| > max ==> |merged| == max && forall g | 0 <= g < |merged| :: merged[g] in filtered)
  }

  /**
   * Merge, filter and cap. The result fits the budget, has its places and colours from the inputs, shows no camera at a
   * place none of its points was seen by, and shows every camera everywhere it saw something unless points were dropped.
   */
  method MergeClouds(clouds: seq<seq<Point>>, size: real, max: nat, pick: nat -> seq<nat>) returns (merged: seq<Point>)
    requires forall n: nat | n > max :: ValidPick(pick(n), n, max)
    ensures exists filtered :: Filtered(Flatten(clouds), size, filtered) && Capped(filtered, max, merged)
                               && (|filtered| <= max ==> NoBitLost(Flatten(clouds), size, merged))
    ensures |merged| <= max
    ensures forall g | 0 <= g < |merged| :: FromInput(Flatten(clouds), merged[g])
    ensures NoBitCreated(Flatten(clouds), size, merged)
    ensures |merged| < max ==> NoBitLost(Flatten(clouds), size, merged)
    ensures size > 0.0 ==> OnePerVoxel(merged, size)
  {
    var points := Flatten(clouds);
    if points == [] {
      assert Filtered(points, size, []) && Capped([], max, []);
      return [];
    }
    var filtered := VoxelDownsample(points, size);
    FilterKeepsBits(points, size, filtered);
    FilteredFromInput(points, size, filtered);
    hide NoBitLost, HasBit, KeyOf, Supported, FromInput;
    merged := Subsample(filtered, max, if |filtered| > max then pick(|filtered|) else []);
    assert Filtered(points, size, filtered) && Capped(filtered, max, merged);
  }
}
