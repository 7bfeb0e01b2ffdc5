/** The rig freshness latch: a session or raster change breaks the rig at once, movement only when it persists. */
module Freshness {
  import opened Wrappers

  const MOVEMENT_LIMIT: nat := 3

  /** How one frame compares with the calibration baseline of its phone. */
  datatype Change = Same | Moved | Altered(reason: string)

  datatype Observation = Observation(device: string, change: Change, trackingNormal: bool)

  datatype Reason = MissingBaseline | Broken(device: string, change: Change)

  /** `baselines` are the phones whose baseline the calibration recorded. */
  datatype State = State(counts: map<string, nat>, invalid: Option<Reason>)

  function Count(counts: map<string, nat>, device: string): nat {
    if device in counts then counts[device] else 0
  }

  function Step(baselines: set<string>, s: State, o: Observation): State {
    if s.invalid.Some? then s
    else if o.device !in baselines then s.(invalid := Some(MissingBaseline))
    else match o.change
      case Same => s.(counts := s.counts[o.device := 0])
      case Altered(_) => State(s.counts[o.device := 0], Some(Broken(o.device, o.change)))
      case Moved =>
        if !o.trackingNormal then s.(counts := s.counts[o.device := 0])
        else
          var count := Count(s.counts, o.device) + 1;
          State(s.counts[o.device := count], if count < MOVEMENT_LIMIT then None else Some(Broken(o.device, o.change)))
  }

  class RigFreshness {
    const synthetic: bool
    const baselines: set<string>
    var movementCounts: map<string, nat>
    var invalidReason: Option<Reason>

    ghost function Now(): State
      reads this
    {
      State(movementCounts, invalidReason)
    }

    constructor (synthetic: bool, devices: set<string>, baselines: set<string>)
      ensures this.synthetic == synthetic && this.baselines == baselines
      ensures Now() == State(map[], if !synthetic && !(devices <= baselines) then Some(MissingBaseline) else None)
    {
      this.synthetic := synthetic;
      this.baselines := baselines;
      movementCounts := map[];
      invalidReason := if !synthetic && !(devices <= baselines) then Some(MissingBaseline) else None;
    }

    method Observe(o: Observation) returns (reason: Option<Reason>)
      modifies this
      ensures Now() == if synthetic then old(Now()) else Step(baselines, old(Now()), o)
      ensures reason == invalidReason
    {
      if invalidReason.Some? {
        return invalidReason;
      }
      if synthetic {
        return None;
      }
      if o.device !in baselines {
        invalidReason := Some(MissingBaseline);
        return invalidReason;
      }
      if o.change == Moved {
        if !o.trackingNormal {
          movementCounts := movementCounts[o.device := 0];
          return None;
        }
        var count := Count(movementCounts, o.device) + 1;
        movementCounts := movementCounts[o.device := count];
        if count < MOVEMENT_LIMIT {
          return None;
        }
      } else {
        movementCounts := movementCounts[o.device := 0];
      }
      if o.change != Same {
        invalidReason := Some(Broken(o.device, o.change));
      }
      return invalidReason;
    }
  }

  // --- whole runs ---------------------------------------------------------------------------------------

  const UNBROKEN := State(map[], None)

  function Run(baselines: set<string>, history: seq<Observation>): State {
    if history == [] then UNBROKEN
    else Step(baselines, Run(baselines, history[..|history| - 1]), history[|history| - 1])
  }

  /** How many of the phone's latest frames in a row were seen moved under normal tracking. */
  function Streak(history: seq<Observation>, device: string): nat {
    if history == [] then 0
    else
      var front, o := history[..|history| - 1], history[|history| - 1];
      if o.device != device then Streak(front, device)
      else if o.change == Moved && o.trackingNormal then Streak(front, device) + 1
      else 0
  }

  /** The last frame of the history is one that breaks a rig on its own account. */
  predicate Breaks(baselines: set<string>, history: seq<Observation>)
    requires history != []
  {
    var o := history[|history| - 1];
    o.device !in baselines || o.change.Altered? || Streak(history, o.device) >= MOVEMENT_LIMIT
  }

  /** Until something breaks, the counters are the streaks; and the latch is set exactly when something has broken. */
  lemma {:induction false} LatchIsExact(baselines: set<string>, history: seq<Observation>)
    ensures Run(baselines, history).invalid.Some? <==> exists n :: 0 < n <= |history| && Breaks(baselines, history[..n])
    ensures Run(baselines, history).invalid.None? ==>
              forall device :: Count(Run(baselines, history).counts, device) == Streak(history, device) < MOVEMENT_LIMIT
  {
    if history != [] {
      var front, o := history[..|history| - 1], history[|history| - 1];
      LatchIsExact(baselines, front);
      assert history[..|history|] == history;
      forall n | 0 < n < |history|
        ensures history[..n] == front[..n]
      {
      }
      if Run(baselines, front).invalid.Some? {
        var n :| 0 < n <= |front| && Breaks(baselines, front[..n]);
        assert Breaks(baselines, history[..n]);
      } else {
        assert Count(Run(baselines, front).counts, o.device) == Streak(front, o.device);
        assert Breaks(baselines, history) <==> Run(baselines, history).invalid.Some?;
        if Breaks(baselines, history) {
          assert Breaks(baselines, history[..|history|]);
        }
      }
    }
  }

  /** Once broken, always broken, and for the reason first found. */
  lemma {:induction false} LatchHolds(baselines: set<string>, history: seq<Observation>, more: seq<Observation>)
    requires Run(baselines, history).invalid.Some?
    ensures Run(baselines, history + more).invalid == Run(baselines, history).invalid
  {
    if more == [] {
      assert history + more == history;
    } else {
      assert (history + more)[..|history + more| - 1] == history + more[..|more| - 1];
      LatchHolds(baselines, history, more[..|more| - 1]);
    }
  }

  /** The reason is that of the first frame that broke the rig: no baseline for its phone, or how that frame had changed. */
  lemma ReasonIsFirst(baselines: set<string>, history: seq<Observation>, n: nat)
    requires 0 < n <= |history| && Breaks(baselines, history[..n])
    requires forall m | 0 < m < n :: !Breaks(baselines, history[..m])
    ensures var o := history[n - 1];
            Run(baselines, history).invalid == Some(if o.device !in baselines then MissingBaseline else Broken(o.device, o.change))
  {
    var front, first := history[..n - 1], history[..n];
    LatchIsExact(baselines, front);
    forall m | 0 < m <= |front|
      ensures !Breaks(baselines, front[..m])
    {
      assert front[..m] == history[..m];
    }
    LatchIsExact(baselines, first);
    assert first[..n] == first && first[..|first| - 1] == front;
    assert history == first + history[n..];
    LatchHolds(baselines, first, history[n..]);
  }
}
