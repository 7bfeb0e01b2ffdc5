/** Clock-offset estimation from round-trip probes: a streaming set of the lowest-delay samples. */
module Clock {
  import opened Wrappers
  import opened RealMath

  const DEFAULT_KEEP: nat := 8
  const DEFAULT_MAX_DELAY: real := 0.25

  datatype ClockSample = ClockSample(offset: real, delay: real)

  /** The on-wire formulas: phone-minus-backend offset and round-trip delay. */
  function ComputeOffsetAndDelay(t0: real, t1: real, t2: real, t3: real): (r: ClockSample) {
    ClockSample(((t1 - t0) + (t2 - t3)) / 2.0, (t3 - t0) - (t2 - t1))
  }

  /**
   * A probe that really happened: the phone's clock runs `theta` ahead, the request and the reply each took some
   * non-negative time, and the phone answered no earlier than it received.
   */
  predicate RealProbe(theta: real, t0: real, t1: real, t2: real, t3: real) {
    t0 <= t1 - theta <= t2 - theta <= t3
  }

  predicate Honest(s: ClockSample, theta: real) {
    s.delay >= 0.0 && Abs(s.offset - theta) <= s.delay / 2.0
  }

  /** Asymmetric paths shift the offset by half their difference, which is at most half the delay. */
  lemma ProbeIsHonest(theta: real, t0: real, t1: real, t2: real, t3: real)
    requires RealProbe(theta, t0, t1, t2, t3)
    ensures Honest(ComputeOffsetAndDelay(t0, t1, t2, t3), theta)
    ensures ComputeOffsetAndDelay(t0, t1, t2, t3).offset - theta == (((t1 - theta) - t0) - (t3 - (t2 - theta))) / 2.0
    ensures ComputeOffsetAndDelay(t0, t1, t2, t3).delay == ((t1 - theta) - t0) + (t3 - (t2 - theta))
  {
  }

  // --- stable sort by delay ----------------------------------------------------------------------

  /** Insert after everything with the same or a lower delay. */
  function Insert(sorted: seq<ClockSample>, x: ClockSample): seq<ClockSample> {
    if sorted == [] || sorted[|sorted| - 1].delay <= x.delay then sorted + [x]
    else Insert(sorted[..|sorted| - 1], x) + [sorted[|sorted| - 1]]
  }

  function StableSort(samples: seq<ClockSample>): seq<ClockSample> {
    if samples == [] then []
    else Insert(StableSort(samples[..|samples| - 1]), samples[|samples| - 1])
  }

  predicate Ascending(samples: seq<ClockSample>) {
    forall i, j | 0 <= i < j < |samples| :: samples[i].delay <= samples[j].delay
  }

  /** The samples with one particular delay, in order. */
  function WithDelay(samples: seq<ClockSample>, d: real): seq<ClockSample> {
    if samples == [] then []
    else
      var rest := WithDelay(samples[..|samples| - 1], d);
      if samples[|samples| - 1].delay == d then rest + [samples[|samples| - 1]] else rest
  }

  lemma {:induction false} InsertPermutes(sorted: seq<ClockSample>, x: ClockSample)
    ensures multiset(Insert(sorted, x)) == multiset(sorted) + multiset{x}
    ensures |Insert(sorted, x)| == |sorted| + 1
  {
    if sorted != [] && sorted[|sorted| - 1].delay > x.delay {
      var front, last := sorted[..|sorted| - 1], sorted[|sorted| - 1];
      InsertPermutes(front, x);
      assert sorted == front + [last];
    }
  }

  lemma AppendAscending(a: seq<ClockSample>, x: ClockSample)
    requires Ascending(a) && forall y | y in multiset(a) :: y.delay <= x.delay
    ensures Ascending(a + [x])
  {
    forall i | 0 <= i < |a|
      ensures a[i].delay <= x.delay
    {
      assert a[i] in multiset(a);
    }
  }

  lemma {:induction false} InsertSorts(sorted: seq<ClockSample>, x: ClockSample)
    requires Ascending(sorted)
    ensures Ascending(Insert(sorted, x))
  {
    if sorted == [] || sorted[|sorted| - 1].delay <= x.delay {
    } else {
      var front, last := sorted[..|sorted| - 1], sorted[|sorted| - 1];
      InsertSorts(front, x);
      InsertPermutes(front, x);
      AppendAscending(Insert(front, x), last);
    }
  }

  lemma {:induction false} InsertKeepsOrder(sorted: seq<ClockSample>, x: ClockSample, d: real)
    requires Ascending(sorted)
    ensures WithDelay(Insert(sorted, x), d) == WithDelay(sorted + [x], d)
  {
    assert (sorted + [x])[..|sorted|] == sorted;
    if sorted != [] && sorted[|sorted| - 1].delay > x.delay {
      var front, last := sorted[..|sorted| - 1], sorted[|sorted| - 1];
      InsertKeepsOrder(front, x, d);
      assert (front + [x])[..|front|] == front;
      var r := Insert(front, x);
      assert (r + [last])[..|r|] == r;
    }
  }

  /** The sort is a permutation, ascending, and leaves samples of equal delay in arrival order. */
  lemma {:induction false} StableSortIsSort(samples: seq<ClockSample>)
    ensures Ascending(StableSort(samples))
    ensures multiset(StableSort(samples)) == multiset(samples)
    ensures |StableSort(samples)| == |samples|
    ensures forall d :: WithDelay(StableSort(samples), d) == WithDelay(samples, d)
  {
    if samples != [] {
      var front, last := samples[..|samples| - 1], samples[|samples| - 1];
      StableSortIsSort(front);
      InsertSorts(StableSort(front), last);
      InsertPermutes(StableSort(front), last);
      assert samples == front + [last];
      forall d
        ensures WithDelay(StableSort(samples), d) == WithDelay(samples, d)
      {
        var sorted := StableSort(front);
        InsertKeepsOrder(sorted, last, d);
        assert (sorted + [last])[..|sorted|] == sorted;
      }
    }
  }

  lemma {:induction false} SortedIsFixed(samples: seq<ClockSample>)
    requires Ascending(samples)
    ensures StableSort(samples) == samples
  {
    if samples != [] {
      var front, last := samples[..|samples| - 1], samples[|samples| - 1];
      SortedIsFixed(front);
      assert samples == front + [last];
      hide Ascending;
      InsertAtEnd(front, last);
    }
  }

  function Take(samples: seq<ClockSample>, keep: nat): seq<ClockSample> {
    if |samples| <= keep then samples else samples[..keep]
  }

  /** Inserting into the kept front and truncating again is truncating the full insertion. */
  lemma {:induction false} TruncateCommutes(sorted: seq<ClockSample>, x: ClockSample, keep: nat)
    requires Ascending(sorted)
    ensures Take(Insert(Take(sorted, keep), x), keep) == Take(Insert(sorted, x), keep)
  {
    if |sorted| > keep {
      var front, last := sorted[..|sorted| - 1], sorted[|sorted| - 1];
      TruncateCommutes(front, x, keep);
      InsertPermutes(front, x);
      assert Take(front, keep) == Take(sorted, keep);
      if last.delay <= x.delay {
        InsertAtEnd(front, x);
      }
    }
  }

  lemma InsertAtEnd(sorted: seq<ClockSample>, x: ClockSample)
    requires forall i | 0 <= i < |sorted| :: sorted[i].delay <= x.delay
    ensures Insert(sorted, x) == sorted + [x]
  {
  }

  // --- the estimate ---------------------------------------------------------------------------------

  function InsertReal(sorted: seq<real>, x: real): seq<real> {
    if sorted == [] || sorted[|sorted| - 1] <= x then sorted + [x]
    else InsertReal(sorted[..|sorted| - 1], x) + [sorted[|sorted| - 1]]
  }

  /** The offsets in ascending order. */
  function SortedOffsets(samples: seq<ClockSample>): (r: seq<real>)
    ensures |r| == |samples|
  {
    if samples == [] then []
    else
      var rest := SortedOffsets(samples[..|samples| - 1]);
      InsertRealLength(rest, samples[|samples| - 1].offset);
      InsertReal(rest, samples[|samples| - 1].offset)
  }

  lemma {:induction false} InsertRealLength(sorted: seq<real>, x: real)
    ensures |InsertReal(sorted, x)| == |sorted| + 1
    ensures multiset(InsertReal(sorted, x)) == multiset(sorted) + multiset{x}
  {
    if sorted != [] && sorted[|sorted| - 1] > x {
      var front, last := sorted[..|sorted| - 1], sorted[|sorted| - 1];
      InsertRealLength(front, x);
      assert sorted == front + [last];
    }
  }

  predicate Increasing(r: seq<real>) {
    forall i, j | 0 <= i < j < |r| :: r[i] <= r[j]
  }

  lemma {:induction false} InsertRealIncreases(sorted: seq<real>, x: real)
    requires Increasing(sorted)
    ensures Increasing(InsertReal(sorted, x))
  {
    if sorted != [] && sorted[|sorted| - 1] > x {
      var front, last := sorted[..|sorted| - 1], sorted[|sorted| - 1];
      InsertRealIncreases(front, x);
      InsertRealLength(front, x);
      var r := InsertReal(front, x);
      forall i | 0 <= i < |r|
        ensures r[i] <= last
      {
        assert r[i] in multiset(r);
      }
    }
  }

  function Offsets(samples: seq<ClockSample>): seq<real> {
    seq(|samples|, i requires 0 <= i < |samples| => samples[i].offset)
  }

  lemma {:induction false} SortedOffsetsIsSort(samples: seq<ClockSample>)
    ensures var r := SortedOffsets(samples);
            && (forall i, j | 0 <= i < j < |r| :: r[i] <= r[j])
            && multiset(r) == multiset(Offsets(samples))
  {
    if samples != [] {
      var front, x := samples[..|samples| - 1], samples[|samples| - 1].offset;
      SortedOffsetsIsSort(front);
      InsertRealLength(SortedOffsets(front), x);
      InsertRealIncreases(SortedOffsets(front), x);
      assert Offsets(samples) == Offsets(front) + [x];
    }
  }

  /** Median offset of the retained samples. */
  function Median(samples: seq<ClockSample>): Option<real> {
    if samples == [] then None
    else
      var offsets := SortedOffsets(samples);
      var mid := |offsets| / 2;
      if |offsets| % 2 == 1 then Some(offsets[mid])
      else Some((offsets[mid - 1] + offsets[mid]) / 2.0)
  }

  /** How many of the values satisfy a comparison with m. */
  function CountBelow(values: seq<real>, m: real): nat {
    if values == [] then 0
    else CountBelow(values[..|values| - 1], m) + (if values[|values| - 1] < m then 1 else 0)
  }

  function CountAbove(values: seq<real>, m: real): nat {
    if values == [] then 0
    else CountAbove(values[..|values| - 1], m) + (if values[|values| - 1] > m then 1 else 0)
  }

  lemma {:induction false} CountsSplit(values: seq<real>, n: nat, m: real)
    requires n <= |values|
    requires forall i | n <= i < |values| :: values[i] >= m
    ensures CountBelow(values, m) <= n
    decreases |values|
  {
    if |values| > n {
      CountsSplit(values[..|values| - 1], n, m);
    } else {
      CountBelowLength(values, m);
    }
  }

  lemma {:induction false} CountBelowLength(values: seq<real>, m: real)
    ensures CountBelow(values, m) <= |values|
  {
    if values != [] {
      CountBelowLength(values[..|values| - 1], m);
    }
  }

  lemma {:induction false} CountsSplitAbove(values: seq<real>, n: nat, m: real)
    requires n <= |values|
    requires forall i | 0 <= i < n :: values[i] <= m
    ensures CountAbove(values, m) <= |values| - n
    decreases |values|
  {
    if |values| > n {
      CountsSplitAbove(values[..|values| - 1], n, m);
    } else if values != [] {
      CountsSplitAbove(values[..|values| - 1], n - 1, m);
    }
  }

  /** No more than half the offsets lie strictly on either side of the median, and it lies among them. */
  lemma MedianSplits(samples: seq<ClockSample>)
    requires samples != []
    ensures Median(samples).Some?
    ensures var m := Median(samples).value;
            && 2 * CountBelow(SortedOffsets(samples), m) <= |samples|
            && 2 * CountAbove(SortedOffsets(samples), m) <= |samples|
            && SortedOffsets(samples)[0] <= m <= SortedOffsets(samples)[|samples| - 1]
  {
    SortedOffsetsIsSort(samples);
    var r, m := SortedOffsets(samples), Median(samples).value;
    hide SortedOffsets;
    MiddleSplits(r, m);
  }

  /** It lies midway between the middle two, or is the middle one. */
  lemma MedianMidway(samples: seq<ClockSample>)
    requires samples != []
    ensures Median(samples).Some?
    ensures var r, m := SortedOffsets(samples), Median(samples).value;
            && m - r[(|r| - 1) / 2] == r[|r| / 2] - m
            && multiset(r) == multiset(Offsets(samples)) && forall i, j | 0 <= i < j < |r| :: r[i] <= r[j]
  {
    SortedOffsetsIsSort(samples);
    hide SortedOffsets;
  }

  lemma MiddleSplits(r: seq<real>, m: real)
    requires r != [] && forall i, j | 0 <= i < j < |r| :: r[i] <= r[j]
    requires m == if |r| % 2 == 1 then r[|r| / 2] else (r[|r| / 2 - 1] + r[|r| / 2]) / 2.0
    ensures 2 * CountBelow(r, m) <= |r| && 2 * CountAbove(r, m) <= |r| && r[0] <= m <= r[|r| - 1]
  {
    var mid := |r| / 2;
    hide CountBelow, CountAbove;
    CountsSplit(r, mid, m);
    CountsSplitAbove(r, if |r| % 2 == 1 then mid + 1 else mid, m);
  }

  function MinOffset(samples: seq<ClockSample>): real
    requires samples != []
  {
    if |samples| == 1 then samples[0].offset
    else Min(MinOffset(samples[..|samples| - 1]), samples[|samples| - 1].offset)
  }

  function MaxOffset(samples: seq<ClockSample>): real
    requires samples != []
  {
    if |samples| == 1 then samples[0].offset
    else Max(MaxOffset(samples[..|samples| - 1]), samples[|samples| - 1].offset)
  }

  function MinDelay(samples: seq<ClockSample>): real
    requires samples != []
  {
    if |samples| == 1 then samples[0].delay
    else Min(MinDelay(samples[..|samples| - 1]), samples[|samples| - 1].delay)
  }

  /** In milliseconds: the larger of half the offsets' range and the one-way time of the quickest round trip. */
  function UncertaintyMs(samples: seq<ClockSample>): Option<real> {
    if samples == [] then None
    else
      var spreadMs := (MaxOffset(samples) - MinOffset(samples)) * 1000.0 / 2.0;
      var bestOneWayMs := MinDelay(samples) * 1000.0 / 2.0;
      Some(Max(spreadMs, bestOneWayMs))
  }

  lemma {:induction false} Extremes(samples: seq<ClockSample>)
    requires samples != []
    ensures forall i | 0 <= i < |samples| :: MinOffset(samples) <= samples[i].offset <= MaxOffset(samples)
    ensures exists i :: 0 <= i < |samples| && samples[i].delay == MinDelay(samples)
  {
    if |samples| > 1 {
      var front := samples[..|samples| - 1];
      Extremes(front);
      var i :| 0 <= i < |front| && front[i].delay == MinDelay(front);
      assert samples[i] == front[i];
      var last := |samples| - 1;
      assert samples[if MinDelay(front) <= samples[last].delay then i else last].delay == MinDelay(samples);
    } else {
      assert samples[0].delay == MinDelay(samples);
    }
  }

  predicate Quickest(samples: seq<ClockSample>, k: nat)
    requires k < |samples|
  {
    forall i | 0 <= i < |samples| :: samples[k].delay <= samples[i].delay
  }

  /** The sample with the largest offset, the one with the smallest, and the quickest. */
  lemma {:induction false} Attained(samples: seq<ClockSample>) returns (i: nat, j: nat, k: nat)
    requires samples != []
    ensures i < |samples| && samples[i].offset == MaxOffset(samples)
    ensures j < |samples| && samples[j].offset == MinOffset(samples)
    ensures k < |samples| && samples[k].delay == MinDelay(samples) && Quickest(samples, k)
  {
    i, j, k := 0, 0, 0;
    if |samples| > 1 {
      var front, last := samples[..|samples| - 1], |samples| - 1;
      i, j, k := Attained(front);
      if samples[last].offset > MaxOffset(front) {
        i := last;
      }
      if samples[last].offset < MinOffset(front) {
        j := last;
      }
      if samples[last].delay < MinDelay(front) {
        k := last;
      }
      forall n | 0 <= n < |samples|
        ensures MinDelay(samples) <= samples[n].delay
      {
        assert n < last ==> front[n] == samples[n];
      }
    }
  }

  /** Half the largest distance between two offsets or half the quickest round trip, whichever is more, in milliseconds. */
  lemma UncertaintyIs(samples: seq<ClockSample>)
    requires samples != []
    ensures UncertaintyMs(samples).Some?
    ensures var u := UncertaintyMs(samples).value;
            && (forall i, j | 0 <= i < |samples| && 0 <= j < |samples| :: (samples[i].offset - samples[j].offset) * 500.0 <= u)
            && (forall k | 0 <= k < |samples| && Quickest(samples, k) :: samples[k].delay * 500.0 <= u)
            && ((exists i, j | 0 <= i < |samples| && 0 <= j < |samples| :: (samples[i].offset - samples[j].offset) * 500.0 == u)
                || exists k | 0 <= k < |samples| :: Quickest(samples, k) && samples[k].delay * 500.0 == u)
  {
    Extremes(samples);
    var i, j, k := Attained(samples);
    forall n | 0 <= n < |samples| && Quickest(samples, n)
      ensures samples[n].delay == MinDelay(samples)
    {
      assert samples[n].delay <= samples[k].delay;
    }
    hide MinOffset, MaxOffset, MinDelay;
    var u := UncertaintyMs(samples).value;
    assert (samples[i].offset - samples[j].offset) * 500.0 == u || samples[k].delay * 500.0 == u;
  }

  /** The median lies between any bounds on the offsets. */
  lemma MedianWithin(samples: seq<ClockSample>, lo: real, hi: real)
    requires samples != []
    requires forall i | 0 <= i < |samples| :: lo <= samples[i].offset <= hi
    ensures Median(samples).Some? && lo <= Median(samples).value <= hi
  {
    SortedOffsetsIsSort(samples);
    var r := SortedOffsets(samples);
    forall k | 0 <= k < |r|
      ensures lo <= r[k] <= hi
    {
      assert r[k] in multiset(r);
      assert r[k] in Offsets(samples);
    }
  }

  /** Honest samples: the estimate errs by at most half the largest delay, and by at most 3 times the uncertainty. */
  lemma EstimateError(samples: seq<ClockSample>, theta: real, maxDelay: real)
    requires samples != []
    requires forall i | 0 <= i < |samples| :: Honest(samples[i], theta) && samples[i].delay <= maxDelay
    ensures Median(samples).Some? && UncertaintyMs(samples).Some?
    ensures Abs(Median(samples).value - theta) <= maxDelay / 2.0
    ensures Abs(Median(samples).value - theta) * 1000.0 <= 3.0 * UncertaintyMs(samples).value
  {
    MedianWithin(samples, theta - maxDelay / 2.0, theta + maxDelay / 2.0);
    Extremes(samples);
    MedianWithin(samples, MinOffset(samples), MaxOffset(samples));
    var i :| 0 <= i < |samples| && samples[i].delay == MinDelay(samples);
    hide Median, UncertaintyMs;
    var spread, delay := MaxOffset(samples) - MinOffset(samples), MinDelay(samples);
    assert Abs(Median(samples).value - theta) <= spread + delay / 2.0;
    UncertaintyBound(samples);
  }

  lemma UncertaintyBound(samples: seq<ClockSample>)
    requires samples != []
    ensures UncertaintyMs(samples).Some?
    ensures (MaxOffset(samples) - MinOffset(samples)) * 1000.0 <= 2.0 * UncertaintyMs(samples).value
    ensures MinDelay(samples) / 2.0 * 1000.0 <= UncertaintyMs(samples).value
  {
  }

  // --- one pong -----------------------------------------------------------------------------------------

  predicate Accepts(s: ClockSample, maxDelay: real) {
    0.0 <= s.delay <= maxDelay
  }

  /** The accepted sample lies more than a second from the current estimate: the phone reconnected or its clock stepped. */
  predicate Jumps(samples: seq<ClockSample>, s: ClockSample) {
    Median(samples).Some? && Abs(s.offset - Median(samples).value) > 1.0
  }

  function Record(samples: seq<ClockSample>, s: ClockSample, keep: nat, maxDelay: real): seq<ClockSample> {
    if !Accepts(s, maxDelay) then samples
    else Take(StableSort((if Jumps(samples, s) then [] else samples) + [s]), keep)
  }

  // --- the estimator, in place -------------------------------------------------------------------------------

  class ClockEstimator {
    const keep: nat
    const maxDelay: real
    var samples: seq<ClockSample>

    constructor (keep: nat := DEFAULT_KEEP, maxDelay: real := DEFAULT_MAX_DELAY)
      ensures samples == [] && this.keep == keep && this.maxDelay == maxDelay
    {
      this.keep := keep;
      this.maxDelay := maxDelay;
      samples := [];
    }

    method RecordPong(t0: real, t1: real, t2: real, t3: real) returns (accepted: Option<ClockSample>)
      modifies this
      ensures samples == Record(old(samples), ComputeOffsetAndDelay(t0, t1, t2, t3), keep, maxDelay)
      ensures accepted == if Accepts(ComputeOffsetAndDelay(t0, t1, t2, t3), maxDelay)
                          then Some(ComputeOffsetAndDelay(t0, t1, t2, t3)) else None
    {
      var sample := ComputeOffsetAndDelay(t0, t1, t2, t3);
      if sample.delay < 0.0 || sample.delay > maxDelay {
        return None;
      }
      var current := Median(samples);
      if current.Some? && Abs(sample.offset - current.value) > 1.0 {
        samples := [];
      }
      samples := samples + [sample];
      samples := StableSort(samples);
      if |samples| > keep {
        samples := samples[..keep];
      }
      return Some(sample);
    }
  }

  // --- whole runs of pongs --------------------------------------------------------------------------------------

  /** The retained samples after a sequence of pongs. */
  function Retained(pongs: seq<ClockSample>, keep: nat, maxDelay: real): seq<ClockSample> {
    if pongs == [] then []
    else Record(Retained(pongs[..|pongs| - 1], keep, maxDelay), pongs[|pongs| - 1], keep, maxDelay)
  }

  /** All samples accepted since the last reset. */
  function SinceReset(pongs: seq<ClockSample>, keep: nat, maxDelay: real): seq<ClockSample> {
    if pongs == [] then []
    else
      var before, s := pongs[..|pongs| - 1], pongs[|pongs| - 1];
      if !Accepts(s, maxDelay) then SinceReset(before, keep, maxDelay)
      else if Jumps(Retained(before, keep, maxDelay), s) then [s]
      else SinceReset(before, keep, maxDelay) + [s]
  }

  /** The streaming set is the first `keep` of the stable delay-sort of everything accepted since the last reset. */
  lemma {:induction false} RetainedIsLowestDelay(pongs: seq<ClockSample>, keep: nat, maxDelay: real)
    ensures Retained(pongs, keep, maxDelay) == Take(StableSort(SinceReset(pongs, keep, maxDelay)), keep)
  {
    if pongs != [] {
      var before, s := pongs[..|pongs| - 1], pongs[|pongs| - 1];
      RetainedIsLowestDelay(before, keep, maxDelay);
      hide Jumps;
      var kept, all := Retained(before, keep, maxDelay), SinceReset(before, keep, maxDelay);
      if Accepts(s, maxDelay) {
        if !Jumps(kept, s) {
          SortAppend(all, s);
          SortAppend(kept, s);
          StableSortIsSort(all);
          SortedIsFixed(kept) by { TakeAscending(StableSort(all), keep); }
          TruncateCommutes(StableSort(all), s, keep);
        } else {
          assert [] + [s] == [s];
        }
      }
    }
  }

  lemma SortAppend(samples: seq<ClockSample>, x: ClockSample)
    ensures StableSort(samples + [x]) == Insert(StableSort(samples), x)
  {
    assert (samples + [x])[..|samples|] == samples;
  }

  lemma TakeAscending(samples: seq<ClockSample>, keep: nat)
    requires Ascending(samples)
    ensures Ascending(Take(samples, keep))
  {
  }

  /** What is retained is as quick as anything else accepted since the last reset, and there is as much of it as fits. */
  lemma RetainedAreQuickest(pongs: seq<ClockSample>, keep: nat, maxDelay: real) returns (dropped: seq<ClockSample>)
    ensures var kept, all := Retained(pongs, keep, maxDelay), SinceReset(pongs, keep, maxDelay);
            && multiset(all) == multiset(kept) + multiset(dropped) && |kept| == (if |all| <= keep then |all| else keep)
            && forall r, x | r in kept && x in dropped :: r.delay <= x.delay
  {
    RetainedIsLowestDelay(pongs, keep, maxDelay);
    var sorted := StableSort(SinceReset(pongs, keep, maxDelay));
    StableSortIsSort(SinceReset(pongs, keep, maxDelay));
    hide StableSort, Retained, SinceReset;
    dropped := if |sorted| <= keep then [] else sorted[keep..];
    assert sorted == Take(sorted, keep) + dropped;
  }

  /** Samples that all honestly measure one offset. */
  predicate AllHonest(samples: seq<ClockSample>, theta: real, maxDelay: real) {
    forall i | 0 <= i < |samples| :: Honest(samples[i], theta) && samples[i].delay <= maxDelay
  }

  lemma RecordHonest(samples: seq<ClockSample>, s: ClockSample, theta: real, keep: nat, maxDelay: real)
    requires AllHonest(samples, theta, maxDelay) && Honest(s, theta)
    ensures AllHonest(Record(samples, s, keep, maxDelay), theta, maxDelay)
  {
    hide Jumps, Honest, StableSort;
    if Accepts(s, maxDelay) {
      var all := (if Jumps(samples, s) then [] else samples) + [s];
      StableSortIsSort(all);
      forall i | 0 <= i < |StableSort(all)|
        ensures StableSort(all)[i] in all
      {
        assert StableSort(all)[i] in multiset(StableSort(all));
      }
    }
  }

  lemma HonestDoNotJump(samples: seq<ClockSample>, s: ClockSample, theta: real, maxDelay: real)
    requires maxDelay <= 1.0
    requires AllHonest(samples, theta, maxDelay) && Honest(s, theta) && Accepts(s, maxDelay)
    ensures !Jumps(samples, s)
  {
    if samples != [] {
      EstimateError(samples, theta, maxDelay);
    }
    hide Median;
  }

  /** Two honest probes as far from each other as the limit admits: one delayed only on the way out, one only on the way back. */
  function Opposite(theta: real, maxDelay: real): (ClockSample, ClockSample) {
    (ClockSample(theta + maxDelay / 2.0, maxDelay), ClockSample(theta - maxDelay / 2.0, maxDelay))
  }

  lemma OppositeJump(theta: real, maxDelay: real)
    requires maxDelay > 1.0
    ensures var (s, t) := Opposite(theta, maxDelay);
            && Honest(s, theta) && Honest(t, theta) && Accepts(s, maxDelay) && Accepts(t, maxDelay)
            && AllHonest([s], theta, maxDelay) && Jumps([s], t)
  {
    var (s, t) := Opposite(theta, maxDelay);
    MedianWithin([s], s.offset, s.offset);
    hide Median;
  }

  /** At a fixed true offset no probe triggers the reset, exactly when the delay limit is a second or less. */
  lemma ConstantOffsetNeverResets(theta: real, maxDelay: real)
    ensures (forall samples, s | AllHonest(samples, theta, maxDelay) && Honest(s, theta) && Accepts(s, maxDelay) ::
               !Jumps(samples, s))
            <==> maxDelay <= 1.0
  {
    hide AllHonest, Honest, Accepts, Jumps;
    if maxDelay <= 1.0 {
      forall samples, s | AllHonest(samples, theta, maxDelay) && Honest(s, theta) && Accepts(s, maxDelay)
        ensures !Jumps(samples, s)
      {
        HonestDoNotJump(samples, s, theta, maxDelay);
      }
    } else {
      OppositeJump(theta, maxDelay);
    }
  }

  predicate HonestRun(pongs: seq<ClockSample>, theta: real) {
    forall i | 0 <= i < |pongs| :: Honest(pongs[i], theta)
  }

  /** Nothing accepted is forgotten but the truncated tail. */
  predicate NothingForgotten(pongs: seq<ClockSample>, keep: nat, maxDelay: real) {
    SinceReset(pongs, keep, maxDelay) == Accepted(pongs, maxDelay)
  }

  lemma {:induction false} HonestRunKeeps(pongs: seq<ClockSample>, theta: real, keep: nat, maxDelay: real)
    requires HonestRun(pongs, theta)
    ensures AllHonest(Retained(pongs, keep, maxDelay), theta, maxDelay)
    ensures keep == 0 || maxDelay <= 1.0 ==> NothingForgotten(pongs, keep, maxDelay)
    ensures keep == 0 ==> Retained(pongs, keep, maxDelay) == []
  {
    if pongs != [] {
      var before, s := pongs[..|pongs| - 1], pongs[|pongs| - 1];
      HonestRunKeeps(before, theta, keep, maxDelay);
      RecordHonest(Retained(before, keep, maxDelay), s, theta, keep, maxDelay);
      hide Honest;
      if Accepts(s, maxDelay) && keep > 0 && maxDelay <= 1.0 {
        hide Jumps, Record;
        HonestDoNotJump(Retained(before, keep, maxDelay), s, theta, maxDelay);
      }
    }
  }

  lemma OppositeForgets(theta: real, keep: nat, maxDelay: real)
    requires keep > 0 && maxDelay > 1.0
    ensures var (s, t) := Opposite(theta, maxDelay); HonestRun([s, t], theta) && !NothingForgotten([s, t], keep, maxDelay)
  {
    var (s, t) := Opposite(theta, maxDelay);
    OppositeJump(theta, maxDelay);
    hide Jumps, Honest, Opposite, Accepts;
    assert [s, t][..1] == [s] && [s][..0] == [];
    assert Retained([], keep, maxDelay) == [] && Accepted([], maxDelay) == [];
    SortAppend([], s);
    assert [] + [s] == [s];
    assert !Jumps([], s) by { assert Median([]).None?; }
    assert Retained([s], keep, maxDelay) == [s];
    assert Accepted([s], maxDelay) == [s];
  }

  /** So whole runs at one true offset forget nothing exactly under that limit, or when nothing is ever retained. */
  lemma ConstantOffsetRun(theta: real, keep: nat, maxDelay: real)
    ensures forall pongs | HonestRun(pongs, theta) :: AllHonest(Retained(pongs, keep, maxDelay), theta, maxDelay)
    ensures (forall pongs | HonestRun(pongs, theta) :: NothingForgotten(pongs, keep, maxDelay))
            <==> keep == 0 || maxDelay <= 1.0
  {
    hide HonestRun, NothingForgotten, AllHonest, Retained;
    forall pongs | HonestRun(pongs, theta)
      ensures AllHonest(Retained(pongs, keep, maxDelay), theta, maxDelay)
      ensures keep == 0 || maxDelay <= 1.0 ==> NothingForgotten(pongs, keep, maxDelay)
    {
      HonestRunKeeps(pongs, theta, keep, maxDelay);
    }
    if keep > 0 && maxDelay > 1.0 {
      OppositeForgets(theta, keep, maxDelay);
    }
  }

  function Accepted(pongs: seq<ClockSample>, maxDelay: real): seq<ClockSample> {
    if pongs == [] then []
    else
      var rest := Accepted(pongs[..|pongs| - 1], maxDelay);
      if Accepts(pongs[|pongs| - 1], maxDelay) then rest + [pongs[|pongs| - 1]] else rest
  }

  /** A clock step beyond 1 s + maxDelay is noticed at the first accepted sample after it, whatever was kept before. */
  lemma StepResets(samples: seq<ClockSample>, s: ClockSample, before: real, after: real, keep: nat, maxDelay: real)
    requires keep > 0 && samples != []
    requires AllHonest(samples, before, maxDelay) && Honest(s, after) && Accepts(s, maxDelay)
    requires Abs(after - before) > 1.0 + maxDelay
    ensures Record(samples, s, keep, maxDelay) == [s]
  {
    EstimateError(samples, before, maxDelay);
    assert Jumps(samples, s) by { hide Median; }
    assert [] + [s] == [s];
    assert StableSort([s]) == [s] by { SortAppend([], s); }
  }

  /** Two honest probes, one on either side of a step, with offsets as close as the admitted delay allows. */
  function Closest(before: real, after: real, maxDelay: real): (ClockSample, ClockSample) {
    var half := (after - before) / 2.0;
    var shift := Clamp(-maxDelay / 2.0, maxDelay / 2.0, half);
    (ClockSample(before + shift, maxDelay), ClockSample(after - shift, maxDelay))
  }

  lemma ClosestDoNotJump(before: real, after: real, maxDelay: real)
    requires maxDelay >= 0.0 && Abs(after - before) <= 1.0 + maxDelay
    ensures var (s, t) := Closest(before, after, maxDelay);
            AllHonest([s], before, maxDelay) && Honest(t, after) && Accepts(t, maxDelay) && !Jumps([s], t)
  {
    var (s, t) := Closest(before, after, maxDelay);
    MedianWithin([s], s.offset, s.offset);
    hide Median;
  }

  /** No smaller step is sure to be noticed at its first accepted sample. */
  lemma StepNoticedExactly(before: real, after: real, maxDelay: real)
    requires maxDelay >= 0.0
    ensures (forall samples, s | samples != [] && AllHonest(samples, before, maxDelay) && Honest(s, after) && Accepts(s, maxDelay) ::
               Jumps(samples, s))
            <==> Abs(after - before) > 1.0 + maxDelay
  {
    if Abs(after - before) > 1.0 + maxDelay {
      forall samples, s | samples != [] && AllHonest(samples, before, maxDelay) && Honest(s, after) && Accepts(s, maxDelay)
        ensures Jumps(samples, s)
      {
        EstimateError(samples, before, maxDelay);
        hide Median;
      }
    } else {
      ClosestDoNotJump(before, after, maxDelay);
      hide Jumps, AllHonest, Honest, Accepts, Closest;
    }
  }

  /** From then on only post-step samples are retained. */
  lemma {:induction false} StepLeavesOnlyNew(samples: seq<ClockSample>, pongs: seq<ClockSample>, before: real, after: real,
                                             keep: nat, maxDelay: real)
    requires keep > 0 && samples != []
    requires AllHonest(samples, before, maxDelay) && Abs(after - before) > 1.0 + maxDelay
    requires forall i | 0 <= i < |pongs| :: Honest(pongs[i], after)
    ensures var kept := RecordAll(samples, pongs, keep, maxDelay);
            if Accepted(pongs, maxDelay) == [] then kept == samples
            else kept != [] && AllHonest(kept, after, maxDelay)
  {
    if pongs != [] {
      var front, s := pongs[..|pongs| - 1], pongs[|pongs| - 1];
      StepLeavesOnlyNew(samples, front, before, after, keep, maxDelay);
      var kept := RecordAll(samples, front, keep, maxDelay);
      if Accepts(s, maxDelay) {
        RecordNonEmpty(kept, s, keep, maxDelay);
        if Accepted(front, maxDelay) == [] {
          StepResets(samples, s, before, after, keep, maxDelay);
        } else {
          RecordHonest(kept, s, after, keep, maxDelay);
        }
      }
      hide Honest, Jumps, StableSort;
    }
  }

  lemma RecordNonEmpty(samples: seq<ClockSample>, s: ClockSample, keep: nat, maxDelay: real)
    requires keep > 0 && Accepts(s, maxDelay)
    ensures Record(samples, s, keep, maxDelay) != []
  {
    var all := (if Jumps(samples, s) then [] else samples) + [s];
    StableSortIsSort(all);
  }

  function RecordAll(samples: seq<ClockSample>, pongs: seq<ClockSample>, keep: nat, maxDelay: real): seq<ClockSample> {
    if pongs == [] then samples
    else Record(RecordAll(samples, pongs[..|pongs| - 1], keep, maxDelay), pongs[|pongs| - 1], keep, maxDelay)
  }
}
