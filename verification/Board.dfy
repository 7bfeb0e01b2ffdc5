/** Vectorising the calibration board: black runs of each raster row, merged over equal neighbouring rows. */
module Board {
  import opened Wrappers

  type Row = seq<bool>

  /** Black pixels first..end of one row. */
  datatype Run = Run(first: nat, end: nat)

  /** Columns first..end of rows top..bottom. */
  datatype Rect = Rect(first: nat, end: nat, top: nat, bottom: nat)

  // --- one row -----------------------------------------------------------------------------------------

  /** Where the colour changes, among the first n pixels. */
  function Changes(row: Row, n: nat): seq<nat>
    requires n <= |row|
  {
    if n <= 1 then []
    else if row[n - 1] != row[n - 2] then Changes(row, n - 1) + [n - 1]
    else Changes(row, n - 1)
  }

  function Boundaries(row: Row): seq<nat> {
    [0] + Changes(row, |row|) + [|row|]
  }

  /** A cut of the row into pieces of one colour, with a change at every inner boundary. */
  predicate Cuts(bounds: seq<nat>, row: Row) {
    && |bounds| >= 2 && bounds[0] == 0 && bounds[|bounds| - 1] == |row|
    && (forall i, j | 0 <= i < j < |bounds| :: bounds[i] < bounds[j])
    && (forall i | 0 < i < |bounds| - 1 :: row[bounds[i]] != row[bounds[i] - 1])
    && (forall x | 0 < x < |row| && row[x] != row[x - 1] :: x in bounds)
  }

  lemma {:induction false} ChangesFound(row: Row, n: nat)
    requires n <= |row|
    ensures forall i | 0 <= i < |Changes(row, n)| ::
              0 < Changes(row, n)[i] < n && row[Changes(row, n)[i]] != row[Changes(row, n)[i] - 1]
    ensures forall i, j | 0 <= i < j < |Changes(row, n)| :: Changes(row, n)[i] < Changes(row, n)[j]
    ensures forall x | 0 < x < n && row[x] != row[x - 1] :: x in Changes(row, n)
  {
    if n > 1 {
      ChangesFound(row, n - 1);
    }
  }

  lemma BoundariesCut(row: Row)
    requires row != []
    ensures Cuts(Boundaries(row), row)
  {
    ChangesFound(row, |row|);
    var c := Changes(row, |row|);
    hide Changes;
    FrameCuts(c, row);
  }

  lemma FrameCuts(c: seq<nat>, row: Row)
    requires row != []
    requires forall i | 0 <= i < |c| :: 0 < c[i] < |row| && row[c[i]] != row[c[i] - 1]
    requires forall i, j | 0 <= i < j < |c| :: c[i] < c[j]
    requires forall x | 0 < x < |row| && row[x] != row[x - 1] :: x in c
    ensures Cuts([0] + c + [|row|], row)
  {
    var bounds := [0] + c + [|row|];
    FramedAscends(c, |row|);
    assert forall i | 0 < i < |bounds| - 1 :: bounds[i] == c[i - 1];
    forall x | x in c
      ensures x in bounds
    {
    }
  }

  lemma FramedAscends(c: seq<nat>, top: nat)
    requires top > 0 && (forall i | 0 <= i < |c| :: 0 < c[i] < top) && forall i, j | 0 <= i < j < |c| :: c[i] < c[j]
    ensures var bounds := [0] + c + [top]; forall i, j | 0 <= i < j < |bounds| :: bounds[i] < bounds[j]
  {
    var bounds := [0] + c + [top];
    forall i, j | 0 <= i < j < |bounds|
      ensures bounds[i] < bounds[j]
    {
      assert j < |c| + 1 ==> bounds[j] == c[j - 1];
      assert 0 < i ==> bounds[i] == c[i - 1];
    }
  }

  lemma NotABoundary(bounds: seq<nat>, row: Row, i: nat, x: nat)
    requires Cuts(bounds, row) && i + 1 < |bounds| && bounds[i] < x < bounds[i + 1]
    ensures x !in bounds
  {
  }

  /** Between neighbouring boundaries the colour does not change. */
  lemma {:induction false} PieceIsPlain(bounds: seq<nat>, row: Row, i: nat, x: nat)
    requires Cuts(bounds, row) && i + 1 < |bounds| && bounds[i] <= x < bounds[i + 1]
    ensures bounds[i + 1] <= |row| && row[x] == row[bounds[i]]
    decreases x
  {
    assert i + 1 < |bounds| - 1 ==> bounds[i + 1] < bounds[|bounds| - 1];
    if x > bounds[i] {
      PieceIsPlain(bounds, row, i, x - 1);
      NotABoundary(bounds, row, i, x);
    }
  }

  /** The black pieces among the first n. */
  function BlackPieces(bounds: seq<nat>, row: Row, n: nat): seq<Run>
    requires Cuts(bounds, row) && n < |bounds|
  {
    if n == 0 then []
    else
      BoundsInside(bounds, row, n - 1);
      if row[bounds[n - 1]] then BlackPieces(bounds, row, n - 1) + [Run(bounds[n - 1], bounds[n])]
      else BlackPieces(bounds, row, n - 1)
  }

  lemma BoundsInside(bounds: seq<nat>, row: Row, i: nat)
    requires Cuts(bounds, row) && i + 1 < |bounds|
    ensures bounds[i] < bounds[i + 1] <= |row|
  {
    assert bounds[i] < bounds[|bounds| - 1];
  }

  function Runs(row: Row): seq<Run>
    requires row != []
  {
    BoundariesCut(row);
    BlackPieces(Boundaries(row), row, |Boundaries(row)| - 1)
  }

  predicate InRun(r: Run, x: nat) {
    r.first <= x < r.end
  }

  predicate InSome(runs: seq<Run>, x: nat) {
    exists k :: 0 <= k < |runs| && InRun(runs[k], x)
  }

  /** Runs in order, none empty, none touching the next, together exactly the black pixels before the limit. */
  predicate Exact(runs: seq<Run>, row: Row, limit: nat)
    requires limit <= |row|
  {
    && (forall k | 0 <= k < |runs| :: runs[k].first < runs[k].end <= limit)
    && (forall j, k | 0 <= j < k < |runs| :: runs[j].end <= runs[k].first)
    && (forall x | 0 <= x < limit :: row[x] <==> InSome(runs, x))
  }

  /** And maximal: white or the row's edge on both sides. */
  predicate Maximal(runs: seq<Run>, row: Row) {
    forall k | 0 <= k < |runs| ::
      && (0 < runs[k].first <= |row| ==> !row[runs[k].first - 1])
      && (runs[k].end < |row| ==> !row[runs[k].end])
  }

  lemma ExactStep(runs: seq<Run>, row: Row, limit: nat, next: nat, black: bool)
    requires limit < next <= |row| && Exact(runs, row, limit)
    requires forall x | limit <= x < next :: row[x] == black
    ensures Exact(if black then runs + [Run(limit, next)] else runs, row, next)
  {
    var more := if black then runs + [Run(limit, next)] else runs;
    forall x | 0 <= x < next
      ensures row[x] <==> InSome(more, x)
    {
      if x < limit {
        if InSome(runs, x) {
          var k :| 0 <= k < |runs| && InRun(runs[k], x);
          assert InRun(more[k], x);
        }
      } else if black {
        assert InRun(more[|runs|], x);
      }
    }
  }

  lemma MaximalStep(runs: seq<Run>, row: Row, first: nat, end: nat)
    requires Maximal(runs, row) && first < end <= |row| && row[first] && row[end - 1]
    requires first > 0 ==> row[first] != row[first - 1]
    requires end < |row| ==> row[end] != row[end - 1]
    ensures Maximal(runs + [Run(first, end)], row)
  {
  }

  lemma {:induction false} PiecesExact(bounds: seq<nat>, row: Row, n: nat)
    requires Cuts(bounds, row) && n < |bounds|
    ensures bounds[n] <= |row| && Exact(BlackPieces(bounds, row, n), row, bounds[n])
    ensures Maximal(BlackPieces(bounds, row, n), row)
  {
    if n > 0 {
      PiecesExact(bounds, row, n - 1);
      BoundsInside(bounds, row, n - 1);
      var first, end := bounds[n - 1], bounds[n];
      forall x | first <= x < end
        ensures row[x] == row[first]
      {
        PieceIsPlain(bounds, row, n - 1, x);
      }
      BoundaryChanges(bounds, row, n - 1);
      BoundaryChanges(bounds, row, n);
      var before := BlackPieces(bounds, row, n - 1);
      assert BlackPieces(bounds, row, n) == if row[first] then before + [Run(first, end)] else before;
      hide Exact, Maximal, Cuts, BlackPieces;
      ExactStep(before, row, first, end, row[first]);
      if row[first] {
        MaximalStep(before, row, first, end);
      }
    }
  }

  lemma BoundaryChanges(bounds: seq<nat>, row: Row, i: nat)
    requires Cuts(bounds, row) && i < |bounds|
    ensures bounds[i] <= |row| && (0 < bounds[i] < |row| ==> row[bounds[i]] != row[bounds[i] - 1])
  {
    assert i < |bounds| - 1 ==> bounds[i] < bounds[|bounds| - 1];
  }

  /** The runs of a row are its maximal black stretches, in order. */
  lemma RunsExact(row: Row)
    requires row != []
    ensures Exact(Runs(row), row, |row|) && Maximal(Runs(row), row)
  {
    BoundariesCut(row);
    PiecesExact(Boundaries(row), row, |Boundaries(row)| - 1);
  }

  // --- all rows -----------------------------------------------------------------------------------------------

  predicate Inside(r: Rect, x: nat, y: nat) {
    r.first <= x < r.end && r.top <= y < r.bottom
  }

  predicate Covered(parts: seq<Rect>, x: nat, y: nat) {
    exists k :: 0 <= k < |parts| && Inside(parts[k], x, y)
  }

  predicate Apart(r: Rect, s: Rect) {
    r.end <= s.first || s.end <= r.first || r.bottom <= s.top || s.bottom <= r.top
  }

  /** Non-empty rectangles above the limit, pairwise disjoint. */
  predicate Disjoint(parts: seq<Rect>, limit: nat) {
    && (forall k | 0 <= k < |parts| :: parts[k].first < parts[k].end && parts[k].top < parts[k].bottom <= limit)
    && (forall j, k | 0 <= j < k < |parts| :: Apart(parts[j], parts[k]))
  }

  predicate Raster(raster: seq<Row>, width: nat) {
    forall y | 0 <= y < |raster| :: |raster[y]| == width
  }

  /** Above the limit the rectangles cover exactly the black pixels. */
  predicate Faithful(parts: seq<Rect>, raster: seq<Row>, width: nat, limit: nat)
    requires Raster(raster, width) && limit <= |raster|
  {
    forall x, y | 0 <= y < limit && 0 <= x < width :: raster[y][x] <==> Covered(parts, x, y)
  }

  function Rects(runs: seq<Run>, top: nat, bottom: nat): (r: seq<Rect>)
    ensures |r| == |runs| && forall k | 0 <= k < |r| :: r[k] == Rect(runs[k].first, runs[k].end, top, bottom)
  {
    seq(|runs|, k requires 0 <= k < |runs| => Rect(runs[k].first, runs[k].end, top, bottom))
  }

  /** Emitting one group of equal rows extends both promises to its bottom. */
  lemma EmitGroup(parts: seq<Rect>, raster: seq<Row>, width: nat, runs: seq<Run>, top: nat, bottom: nat)
    requires Raster(raster, width) && top < bottom <= |raster| && width > 0
    requires forall y | top <= y < bottom :: Exact(runs, raster[y], width)
    requires Disjoint(parts, top) && Faithful(parts, raster, width, top)
    ensures Disjoint(parts + Rects(runs, top, bottom), bottom)
    ensures Faithful(parts + Rects(runs, top, bottom), raster, width, bottom)
  {
    EmitDisjoint(parts, raster[top], width, runs, top, bottom);
    var more := parts + Rects(runs, top, bottom);
    hide Disjoint;
    forall x, y | 0 <= y < bottom && 0 <= x < width
      ensures raster[y][x] <==> Covered(more, x, y)
    {
      CoverExtends(parts, runs, top, bottom, x, y) by { assert Faithful(parts, raster, width, top); }
      if y >= top {
        assert Exact(runs, raster[y], width);
      }
    }
  }

  lemma EmitDisjoint(parts: seq<Rect>, row: Row, width: nat, runs: seq<Run>, top: nat, bottom: nat)
    requires |row| == width && Exact(runs, row, width) && Disjoint(parts, top) && top < bottom
    ensures Disjoint(parts + Rects(runs, top, bottom), bottom)
  {
  }

  /** Above the group nothing new is covered; inside it coverage is membership in a run, if nothing reached down there. */
  lemma CoverExtends(parts: seq<Rect>, runs: seq<Run>, top: nat, bottom: nat, x: nat, y: nat)
    requires top < bottom && y < bottom
    ensures y < top ==> (Covered(parts + Rects(runs, top, bottom), x, y) <==> Covered(parts, x, y))
    ensures y >= top && (forall k | 0 <= k < |parts| :: parts[k].bottom <= top) ==>
              (Covered(parts + Rects(runs, top, bottom), x, y) <==> InSome(runs, x))
  {
    var more := parts + Rects(runs, top, bottom);
    if y < top && Covered(parts, x, y) {
      var k :| 0 <= k < |parts| && Inside(parts[k], x, y);
      assert Inside(more[k], x, y);
    }
    if y >= top && InSome(runs, x) {
      var k :| 0 <= k < |runs| && InRun(runs[k], x);
      assert Inside(more[|parts| + k], x, y);
    }
    if Covered(more, x, y) {
      var k :| 0 <= k < |more| && Inside(more[k], x, y);
      if k >= |parts| {
        assert InRun(runs[k - |parts|], x) || y < top;
      } else {
        assert Inside(parts[k], x, y);
      }
    }
  }

  /** Rows top to bottom, one past the last; a group is written out when the runs change. */
  method Vectorise(raster: seq<Row>, width: nat) returns (parts: seq<Rect>)
    requires width > 0 && Raster(raster, width)
    ensures Disjoint(parts, |raster|) && Faithful(parts, raster, width, |raster|)
  {
    parts := [];
    var previous: Option<seq<Run>> := None;
    var start := 0;
    for y := 0 to |raster| + 1
      invariant start <= y && start <= |raster|
      invariant previous.None? ==> start == y == 0 || (y == |raster| + 1 && start == |raster|)
      invariant previous.Some? ==> start < y <= |raster| && forall k | start <= k < y :: Exact(previous.value, raster[k], width)
      invariant Disjoint(parts, start) && Faithful(parts, raster, width, start)
    {
      var runs: Option<seq<Run>> := None;
      if y < |raster| {
        runs := Some(Runs(raster[y]));
        RunsExact(raster[y]);
      }
      hide Exact, Disjoint, Faithful, Runs;
      if runs != previous {
        if previous.Some? {
          EmitGroup(parts, raster, width, previous.value, start, y);
          ghost var before := parts;
          var list := previous.value;
          for k := 0 to |list|
            invariant parts == before + Rects(list, start, y)[..k]
          {
            parts := parts + [Rect(list[k].first, list[k].end, start, y)];
          }
          assert Rects(list, start, y)[..|list|] == Rects(list, start, y);
        }
        start, previous := y, runs;
      }
    }
  }

  /** So a pixel is black exactly when one rectangle contains it, and then only one does. */
  lemma ExactlyOneRectangle(parts: seq<Rect>, raster: seq<Row>, width: nat, x: nat, y: nat)
    requires Raster(raster, width) && Disjoint(parts, |raster|) && Faithful(parts, raster, width, |raster|)
    requires x < width && y < |raster|
    ensures raster[y][x] <==> exists k :: 0 <= k < |parts| && Inside(parts[k], x, y)
    ensures forall j, k | 0 <= j < |parts| && 0 <= k < |parts| && Inside(parts[j], x, y) && Inside(parts[k], x, y) :: j == k
  {
    assert raster[y][x] <==> Covered(parts, x, y);
    forall j, k | 0 <= j < k < |parts| && Inside(parts[j], x, y)
      ensures !Inside(parts[k], x, y)
    {
      assert Apart(parts[j], parts[k]);
    }
  }
}
