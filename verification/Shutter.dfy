/**
 * The end-to-end shutter bound: clock probes, reconnects, frame arrivals and recalibrations in any order, and how far
 * apart the true capture moments of an emitted pair can be.
 */
module Shutter {
  import opened Wrappers
  import opened RealMath
  import opened Clock
  import Pairing

  datatype Config = Config(pairing: Pairing.Config, simulation: bool) {
    predicate Valid() {
      pairing.Valid()
    }
  }

  /**
   * One thing the runtime reacts to. A registration starts a new device session, whose phone clock may run ahead by a
   * different amount; `open` says whether the gates before the pairer let the frame through.
   */
  datatype Event =
    | Pong(device: string, t0: real, t1: real, t2: real, t3: real)
    | Register(device: string, theta: real)
    | Arrive(device: string, capture: nat, timestamp: real, open: bool)
    | InstallCalibration

  datatype Emission = Emission(pair: Pairing.Pair, firstTheta: real, secondTheta: real)

  /** `theta` is each phone's true clock offset, which the backend never sees; `emitted` notes the offsets in force. */
  datatype State = State(samples: map<string, seq<ClockSample>>, pairing: Pairing.State, theta: map<string, real>,
                         emitted: seq<Emission>)

  function Initial(cfg: Config, theta: map<string, real>): State {
    State(map[cfg.pairing.first := [], cfg.pairing.second := []], Pairing.Initial(cfg.pairing), theta, [])
  }

  predicate Shaped(cfg: Config, s: State) {
    && cfg.Valid() && Pairing.HasQueues(cfg.pairing, s.pairing.queues)
    && s.samples.Keys == {cfg.pairing.first, cfg.pairing.second} && s.theta.Keys == s.samples.Keys
  }

  /** The arriving packet on the backend clock, or nothing while the phone's clock is unknown. */
  function Normalize(cfg: Config, samples: seq<ClockSample>, device: string, capture: nat, timestamp: real)
    : Option<Pairing.Frame>
  {
    var offset := if Median(samples).Some? then Median(samples).value else 0.0;
    var uncertainty := UncertaintyMs(samples);
    if uncertainty.Some? then Some(Pairing.Frame(device, capture, timestamp, timestamp - offset, uncertainty.value))
    else if cfg.simulation then Some(Pairing.Frame(device, capture, timestamp, timestamp - offset, 0.0))
    else None
  }

  function Offered(cfg: Config, s: State, e: Event): Option<Pairing.Frame>
    requires Shaped(cfg, s)
  {
    if e.Arrive? && e.device in s.samples && e.open
    then Normalize(cfg, s.samples[e.device], e.device, e.capture, e.timestamp)
    else None
  }

  function Step(cfg: Config, s: State, e: Event): (t: State)
    requires Shaped(cfg, s)
    ensures Shaped(cfg, t)
  {
    match e
    case Pong(device, t0, t1, t2, t3) =>
      if device !in s.samples then s
      else s.(samples := s.samples[device := Record(s.samples[device], ComputeOffsetAndDelay(t0, t1, t2, t3),
                                                    DEFAULT_KEEP, DEFAULT_MAX_DELAY)])
    case Register(device, theta) =>
      if device !in s.samples then s
      else s.(samples := s.samples[device := []], theta := s.theta[device := theta],
              pairing := Pairing.Step(cfg.pairing, s.pairing, Pairing.ClearEvent(device)))
    case InstallCalibration => s.(pairing := Pairing.Initial(cfg.pairing))
    case Arrive(_, _, _, _) =>
      var frame := Offered(cfg, s, e);
      if frame.None? then s
      else
        var outcome := Pairing.OfferOutcome(cfg.pairing, s.pairing.queues, frame.value, 0);
        var pairing := Pairing.Step(cfg.pairing, s.pairing, Pairing.OfferEvent(frame.value, 0));
        s.(pairing := pairing,
           emitted := if outcome.paired.Some?
                      then s.emitted + [Emission(outcome.paired.value, s.theta[cfg.pairing.first], s.theta[cfg.pairing.second])]
                      else s.emitted)
  }

  function Run(cfg: Config, theta: map<string, real>, events: seq<Event>): (s: State)
    requires cfg.Valid() && theta.Keys == {cfg.pairing.first, cfg.pairing.second}
    ensures Shaped(cfg, s)
  {
    if events == [] then Initial(cfg, theta)
    else Step(cfg, Run(cfg, theta, events[..|events| - 1]), events[|events| - 1])
  }

  /** A probe really happened against the phone's clock. */
  predicate Probed(cfg: Config, s: State, e: Event)
    requires Shaped(cfg, s)
  {
    e.Pong? && e.device in s.theta ==> RealProbe(s.theta[e.device], e.t0, e.t1, e.t2, e.t3)
  }

  predicate ProbedRun(cfg: Config, theta: map<string, real>, events: seq<Event>)
    requires cfg.Valid() && theta.Keys == {cfg.pairing.first, cfg.pairing.second}
  {
    events != [] ==>
      && ProbedRun(cfg, theta, events[..|events| - 1])
      && Probed(cfg, Run(cfg, theta, events[..|events| - 1]), events[|events| - 1])
  }

  /** Besides, no frame is taken from a phone with no accepted probe. */
  predicate Faithful(cfg: Config, s: State, e: Event)
    requires Shaped(cfg, s)
  {
    Probed(cfg, s, e) && (e.Arrive? && cfg.simulation && e.device in s.samples && e.open ==> s.samples[e.device] != [])
  }

  predicate FaithfulRun(cfg: Config, theta: map<string, real>, events: seq<Event>)
    requires cfg.Valid() && theta.Keys == {cfg.pairing.first, cfg.pairing.second}
  {
    events != [] ==>
      && FaithfulRun(cfg, theta, events[..|events| - 1])
      && Faithful(cfg, Run(cfg, theta, events[..|events| - 1]), events[|events| - 1])
  }

  // --- what one frame knows about its true moment ------------------------------------------------------------

  /** The frame's normalized time against the true backend time of its shutter. */
  function ErrorMs(f: Pairing.Frame, theta: real): real {
    Abs(f.normalizedTime - (f.captureTime - theta)) * 1000.0
  }

  /** What the reported uncertainty buys: three times it, and never more than half the admitted round trip. */
  function BoundMs(f: Pairing.Frame): real {
    Min(125.0, 3.0 * f.uncertaintyMs)
  }

  predicate Clocked(f: Pairing.Frame, theta: real) {
    ErrorMs(f, theta) <= BoundMs(f)
  }

  /** How far apart two shutters fired, against the phones' true offsets. */
  function GapMs(f: Pairing.Frame, g: Pairing.Frame, a: real, b: real): real {
    Abs((f.captureTime - a) - (g.captureTime - b)) * 1000.0
  }

  function TrueGapMs(e: Emission): real {
    GapMs(e.pair.first, e.pair.second, e.firstTheta, e.secondTheta)
  }

  /** Two well-clocked frames are truly no farther apart than their measured skew and both clock bounds. */
  lemma GapBound(e: Emission)
    requires Clocked(e.pair.first, e.firstTheta) && Clocked(e.pair.second, e.secondTheta)
    ensures TrueGapMs(e) <= Pairing.SkewMs(e.pair.first, e.pair.second) + BoundMs(e.pair.first) + BoundMs(e.pair.second)
  {
  }

  lemma NormalizedIsClocked(cfg: Config, samples: seq<ClockSample>, theta: real, device: string, capture: nat, timestamp: real)
    requires AllHonest(samples, theta, DEFAULT_MAX_DELAY)
    requires cfg.simulation ==> samples != []
    ensures var f := Normalize(cfg, samples, device, capture, timestamp);
            f.Some? ==> f.value.device == device && Clocked(f.value, theta)
  {
    if samples != [] {
      EstimateError(samples, theta, DEFAULT_MAX_DELAY);
    }
    hide Median, UncertaintyMs, Honest;
  }

  /**
   * A frame is normalized exactly where the phone's clock is known or simulated. It keeps its name and capture time and
   * moves back by the median offset; an unprobed phone's frame stays where it is and claims to be certain.
   */
  lemma NormalizedExactly(cfg: Config, samples: seq<ClockSample>, device: string, capture: nat, timestamp: real)
    ensures var f := Normalize(cfg, samples, device, capture, timestamp);
            && (f.Some? <==> cfg.simulation || samples != [])
            && (f.Some? ==>
                  && f.value.device == device && f.value.capture == capture && f.value.captureTime == timestamp
                  && if samples == [] then f.value.normalizedTime == timestamp && f.value.uncertaintyMs == 0.0
                     else && Median(samples) == Some(timestamp - f.value.normalizedTime)
                          && UncertaintyMs(samples) == Some(f.value.uncertaintyMs))
  {
    EstimateKnown(samples);
    hide Median, UncertaintyMs;
  }

  lemma EstimateKnown(samples: seq<ClockSample>)
    ensures (Median(samples).Some? <==> samples != []) && (UncertaintyMs(samples).Some? <==> samples != [])
  {
    hide SortedOffsets, MinOffset, MaxOffset, MinDelay;
  }

  /** A new calibration empties the queues and nothing else; a new session empties its own phone's queue and samples. */
  lemma WhatIsForgotten(cfg: Config, s: State, device: string, theta: real)
    requires Shaped(cfg, s) && device in s.samples
    ensures var t := Step(cfg, s, InstallCalibration);
            && (forall d | d in t.pairing.queues :: t.pairing.queues[d] == [])
            && t.samples == s.samples && t.theta == s.theta && t.emitted == s.emitted
    ensures var t := Step(cfg, s, Register(device, theta));
            && t.samples == s.samples[device := []] && t.theta == s.theta[device := theta] && t.emitted == s.emitted
            && t.pairing.queues == s.pairing.queues[device := []]
  {
    ClearStepQueues(cfg, s, device);
    hide Pairing.Step;
  }

  // --- the invariant over runs -----------------------------------------------------------------------------------

  predicate AllClocked(frames: seq<Pairing.Frame>, theta: real) {
    forall i | 0 <= i < |frames| :: Clocked(frames[i], theta)
  }

  predicate DeviceKnown(s: State, device: string)
    requires device in s.samples && device in s.theta && device in s.pairing.queues
  {
    AllHonest(s.samples[device], s.theta[device], DEFAULT_MAX_DELAY) && AllClocked(s.pairing.queues[device], s.theta[device])
  }

  /** The promise on an emission: proper, and truly within the skew limit plus both phones' clock bounds. */
  predicate WithinBudget(cfg: Config, e: Emission) {
    && Pairing.ProperPair(cfg.pairing, e.pair)
    && e.pair.first.uncertaintyMs <= cfg.pairing.uncertaintyLimitMs
    && e.pair.second.uncertaintyMs <= cfg.pairing.uncertaintyLimitMs
    && TrueGapMs(e) <= cfg.pairing.skewLimitMs + BoundMs(e.pair.first) + BoundMs(e.pair.second)
  }

  predicate AllCertain(cfg: Config, frames: seq<Pairing.Frame>) {
    forall i | 0 <= i < |frames| :: frames[i].uncertaintyMs <= cfg.pairing.uncertaintyLimitMs
  }

  ghost predicate Inv(cfg: Config, s: State) {
    && Shaped(cfg, s)
    && Pairing.Inv(cfg.pairing, s.pairing)
    && DeviceKnown(s, cfg.pairing.first) && DeviceKnown(s, cfg.pairing.second)
    && AllCertain(cfg, s.pairing.queues[cfg.pairing.first]) && AllCertain(cfg, s.pairing.queues[cfg.pairing.second])
    && forall i | 0 <= i < |s.emitted| :: WithinBudget(cfg, s.emitted[i])
  }

  lemma PongKeeps(cfg: Config, s: State, e: Event)
    requires Inv(cfg, s) && e.Pong? && Faithful(cfg, s, e)
    ensures Inv(cfg, Step(cfg, s, e))
  {
    if e.device in s.samples {
      var sample := ComputeOffsetAndDelay(e.t0, e.t1, e.t2, e.t3);
      ProbeIsHonest(s.theta[e.device], e.t0, e.t1, e.t2, e.t3);
      RecordHonest(s.samples[e.device], sample, s.theta[e.device], DEFAULT_KEEP, DEFAULT_MAX_DELAY);
    }
    hide Record, AllHonest, AllClocked, WithinBudget, Pairing.Inv, AllCertain, ComputeOffsetAndDelay;
  }

  lemma ClearStepQueues(cfg: Config, s: State, device: string)
    requires Shaped(cfg, s) && device in s.samples
    ensures Pairing.Step(cfg.pairing, s.pairing, Pairing.ClearEvent(device)).queues == s.pairing.queues[device := []]
  {
  }

  lemma RegisterKeeps(cfg: Config, s: State, e: Event)
    requires Inv(cfg, s) && e.Register?
    ensures Inv(cfg, Step(cfg, s, e))
  {
    if e.device in s.samples {
      Pairing.StepKeeps(cfg.pairing, s.pairing, Pairing.ClearEvent(e.device));
      ClearStepQueues(cfg, s, e.device);
      FreshDeviceKnown(e.theta);
      hide WithinBudget, Pairing.Inv, Clocked, Honest, Pairing.Step, AllHonest, AllClocked;
    }
  }

  lemma FreshDeviceKnown(theta: real)
    ensures AllHonest([], theta, DEFAULT_MAX_DELAY) && AllClocked([], theta)
  {
  }

  lemma InstallKeeps(cfg: Config, s: State)
    requires Inv(cfg, s)
    ensures Inv(cfg, Step(cfg, s, InstallCalibration))
  {
    Pairing.RunKeeps(cfg.pairing, []);
    hide WithinBudget, Pairing.Inv, Clocked, Honest;
  }

  /** What stays queued after an offer was queued before or is the offered frame. */
  lemma OfferOnlyAdds(cfg: Pairing.Config, queues: Pairing.Queues, frame: Pairing.Frame, device: string)
    requires cfg.Valid() && Pairing.HasQueues(cfg, queues) && device in queues
    ensures forall x | x in Pairing.OfferQueues(cfg, queues, frame)[device] ::
              x in queues[device] || (x == frame && frame.device == device && frame.uncertaintyMs <= cfg.uncertaintyLimitMs)
  {
    Pairing.PartnerInRange(cfg, queues, frame);
    if Pairing.Admitted(cfg, frame) {
      if Pairing.Partner(cfg, queues, frame).Some? {
        Pairing.RemoveAtPermutes(queues[cfg.Other(frame.device)], Pairing.Partner(cfg, queues, frame).value);
      } else {
        Pairing.AppendBoundedIsSuffix(queues[frame.device], frame, cfg.window);
      }
    }
    hide Pairing.Partner, Pairing.RemoveAt, Pairing.AppendBounded;
  }

  lemma OfferKeepsDevice(cfg: Config, s: State, frame: Pairing.Frame, device: string)
    requires Shaped(cfg, s) && device in s.samples && DeviceKnown(s, device) && AllCertain(cfg, s.pairing.queues[device])
    requires frame.device == device ==> Clocked(frame, s.theta[device])
    ensures var q := Pairing.OfferQueues(cfg.pairing, s.pairing.queues, frame)[device];
            AllClocked(q, s.theta[device]) && AllCertain(cfg, q)
  {
    OfferOnlyAdds(cfg.pairing, s.pairing.queues, frame, device);
    hide Pairing.OfferQueues, Clocked;
    var q := Pairing.OfferQueues(cfg.pairing, s.pairing.queues, frame)[device];
    forall i | 0 <= i < |q|
      ensures Clocked(q[i], s.theta[device]) && q[i].uncertaintyMs <= cfg.pairing.uncertaintyLimitMs
    {
      assert q[i] in q;
    }
  }

  /** The emitted pair is the arriving frame and a queued one, both clocked against the offsets in force. */
  lemma EmissionWithin(cfg: Config, s: State, frame: Pairing.Frame)
    requires Inv(cfg, s) && frame.device in s.samples && Clocked(frame, s.theta[frame.device])
    ensures var p := Pairing.OfferOutcome(cfg.pairing, s.pairing.queues, frame, 0).paired;
            p.Some? ==> WithinBudget(cfg, Emission(p.value, s.theta[cfg.pairing.first], s.theta[cfg.pairing.second]))
  {
    var queues := s.pairing.queues;
    var p := Pairing.OfferOutcome(cfg.pairing, queues, frame, 0).paired;
    if p.Some? {
      Pairing.EmittedIsProper(cfg.pairing, queues, frame, 0);
      var others := queues[cfg.pairing.Other(frame.device)];
      var partner := others[Pairing.Partner(cfg.pairing, queues, frame).value];
      assert Clocked(partner, s.theta[cfg.pairing.Other(frame.device)]);
      assert frame.uncertaintyMs <= cfg.pairing.uncertaintyLimitMs;
      assert p.value.first == (if frame.device == cfg.pairing.first then frame else partner);
      assert p.value.second == (if frame.device == cfg.pairing.first then partner else frame);
      hide Clocked, Pairing.Partner, Pairing.OfferOutcome, Pairing.Inv, TrueGapMs, BoundMs, Pairing.SkewMs;
      GapBound(Emission(p.value, s.theta[cfg.pairing.first], s.theta[cfg.pairing.second]));
    }
  }

  /** Everything but the pairing record survives an arrival, and the queues are what the offer leaves. */
  lemma ArriveKeeps(cfg: Config, s: State, e: Event)
    requires Inv(cfg, s) && e.Arrive? && Faithful(cfg, s, e)
    ensures Inv(cfg, Step(cfg, s, e))
  {
    var frame := Offered(cfg, s, e);
    if frame.Some? {
      assert e.device in s.samples && frame == Normalize(cfg, s.samples[e.device], e.device, e.capture, e.timestamp);
      NormalizedIsClocked(cfg, s.samples[e.device], s.theta[e.device], e.device, e.capture, e.timestamp);
      hide Offered, Normalize;
      OfferKeeps(cfg, s, e, frame.value);
    }
  }

  lemma ArriveStep(cfg: Config, s: State, e: Event, frame: Pairing.Frame)
    requires Shaped(cfg, s) && e.Arrive? && Offered(cfg, s, e) == Some(frame)
    ensures var t := Step(cfg, s, e);
            var p := Pairing.OfferOutcome(cfg.pairing, s.pairing.queues, frame, 0).paired;
            && t.samples == s.samples && t.theta == s.theta
            && t.pairing == Pairing.Step(cfg.pairing, s.pairing, Pairing.OfferEvent(frame, 0))
            && t.emitted == if p.None? then s.emitted
                            else s.emitted + [Emission(p.value, s.theta[cfg.pairing.first], s.theta[cfg.pairing.second])]
  {
    hide Offered, Pairing.OfferOutcome, Pairing.Step;
  }

  lemma OfferKeeps(cfg: Config, s: State, e: Event, frame: Pairing.Frame)
    requires Inv(cfg, s) && e.Arrive? && Offered(cfg, s, e) == Some(frame)
    requires frame.device in s.samples && Clocked(frame, s.theta[frame.device])
    ensures Inv(cfg, Step(cfg, s, e))
  {
    hide Pairing.Inv, Clocked, WithinBudget, AllHonest, Offered, Pairing.OfferOutcome, Pairing.OfferQueues, AllClocked,
         AllCertain, Pairing.Step, Step;
    ArriveStep(cfg, s, e, frame);
    EmissionWithin(cfg, s, frame);
    Pairing.StepKeeps(cfg.pairing, s.pairing, Pairing.OfferEvent(frame, 0));
    OfferStepQueues(cfg, s, frame);
    OfferKeepsDevice(cfg, s, frame, cfg.pairing.first);
    OfferKeepsDevice(cfg, s, frame, cfg.pairing.second);
  }

  lemma OfferStepQueues(cfg: Config, s: State, frame: Pairing.Frame)
    requires Shaped(cfg, s)
    ensures Pairing.Step(cfg.pairing, s.pairing, Pairing.OfferEvent(frame, 0)).queues
            == Pairing.OfferQueues(cfg.pairing, s.pairing.queues, frame)
  {
  }

  lemma StepKeeps(cfg: Config, s: State, e: Event)
    requires Inv(cfg, s) && Faithful(cfg, s, e)
    ensures Inv(cfg, Step(cfg, s, e))
  {
    hide Inv, Step, Faithful;
    match e
    case Pong(_, _, _, _, _) => PongKeeps(cfg, s, e);
    case Register(_, _) => RegisterKeeps(cfg, s, e);
    case Arrive(_, _, _, _) => ArriveKeeps(cfg, s, e);
    case InstallCalibration => InstallKeeps(cfg, s);
  }

  lemma {:induction false} RunKeeps(cfg: Config, theta: map<string, real>, events: seq<Event>)
    requires cfg.Valid() && theta.Keys == {cfg.pairing.first, cfg.pairing.second}
    requires FaithfulRun(cfg, theta, events)
    ensures Inv(cfg, Run(cfg, theta, events))
  {
    if events == [] {
      Pairing.RunKeeps(cfg.pairing, []);
    } else {
      RunKeeps(cfg, theta, events[..|events| - 1]);
      hide Inv, Step, Faithful;
      StepKeeps(cfg, Run(cfg, theta, events[..|events| - 1]), events[|events| - 1]);
    }
  }

  /**
   * Whatever the order of probes, reconnects, arrivals and recalibrations: the two shutters of an emitted pair truly
   * fired within the skew limit plus what both phones' admitted uncertainties allow, and never more than 250 ms beyond it.
   */
  lemma ShuttersWithinBudget(cfg: Config, theta: map<string, real>, events: seq<Event>, e: Emission)
    requires cfg.Valid() && theta.Keys == {cfg.pairing.first, cfg.pairing.second}
    requires FaithfulRun(cfg, theta, events) && e in Run(cfg, theta, events).emitted
    ensures Pairing.ProperPair(cfg.pairing, e.pair)
    ensures TrueGapMs(e) <= cfg.pairing.skewLimitMs + BoundMs(e.pair.first) + BoundMs(e.pair.second)
    ensures TrueGapMs(e) <= cfg.pairing.skewLimitMs + 250.0
    ensures TrueGapMs(e) <= cfg.pairing.skewLimitMs + 6.0 * cfg.pairing.uncertaintyLimitMs
  {
    RunKeeps(cfg, theta, events);
    var s := Run(cfg, theta, events);
    var i :| 0 <= i < |s.emitted| && s.emitted[i] == e;
    assert WithinBudget(cfg, s.emitted[i]);
    hide Run, Pairing.Inv, TrueGapMs;
  }

  // --- exactly when the bound holds ----------------------------------------------------------------------------

  /**
   * A frame that passes is certain to be well clocked, whatever its phone's true offset, exactly unless simulation let it
   * in unprobed.
   */
  lemma FrameClockedExactly(cfg: Config, samples: seq<ClockSample>, device: string, capture: nat, timestamp: real)
    ensures (forall theta | AllHonest(samples, theta, DEFAULT_MAX_DELAY) ::
               var f := Normalize(cfg, samples, device, capture, timestamp); f.Some? ==> Clocked(f.value, theta))
            <==> !cfg.simulation || samples != []
  {
    if !cfg.simulation || samples != [] {
      forall theta | AllHonest(samples, theta, DEFAULT_MAX_DELAY)
        ensures var f := Normalize(cfg, samples, device, capture, timestamp); f.Some? ==> Clocked(f.value, theta)
      {
        NormalizedIsClocked(cfg, samples, theta, device, capture, timestamp);
      }
    } else {
      var f := Normalize(cfg, samples, device, capture, timestamp);
      assert AllHonest(samples, 1.0, DEFAULT_MAX_DELAY);
      assert f == Some(Pairing.Frame(device, capture, timestamp, timestamp, 0.0));
      assert !Clocked(f.value, 1.0);
    }
  }

  /** The two shutters fired within the measured skew and both clock bounds of each other. */
  predicate Together(f: Pairing.Frame, g: Pairing.Frame, a: real, b: real) {
    GapMs(f, g, a, b) <= Pairing.SkewMs(f, g) + BoundMs(f) + BoundMs(g)
  }

  lemma FarOffset(f: Pairing.Frame, g: Pairing.Frame, a: real) returns (b: real)
    ensures !Together(f, g, a, b) && !Together(g, f, b, a)
  {
    var limit := Pairing.SkewMs(f, g) + BoundMs(f) + BoundMs(g);
    b := g.captureTime - (f.captureTime - a) + (Abs(limit) / 1000.0 + 1.0);
  }

  /** Two frames that pass are certain to be together exactly when both phones are synchronised: one is not enough. */
  lemma PairClockedExactly(cfg: Config, xs: seq<ClockSample>, ys: seq<ClockSample>, f: Pairing.Frame, g: Pairing.Frame,
                           alpha: real, beta: real)
    requires Normalize(cfg, xs, f.device, f.capture, f.captureTime) == Some(f)
    requires Normalize(cfg, ys, g.device, g.capture, g.captureTime) == Some(g)
    requires AllHonest(xs, alpha, DEFAULT_MAX_DELAY) && AllHonest(ys, beta, DEFAULT_MAX_DELAY)
    ensures (forall a, b | AllHonest(xs, a, DEFAULT_MAX_DELAY) && AllHonest(ys, b, DEFAULT_MAX_DELAY) :: Together(f, g, a, b))
            <==> xs != [] && ys != []
  {
    hide Together, Normalize;
    if xs == [] {
      var a := FarOffset(g, f, beta);
      assert AllHonest(xs, a, DEFAULT_MAX_DELAY);
    } else if ys == [] {
      var b := FarOffset(f, g, alpha);
      assert AllHonest(ys, b, DEFAULT_MAX_DELAY);
    } else {
      forall a, b | AllHonest(xs, a, DEFAULT_MAX_DELAY) && AllHonest(ys, b, DEFAULT_MAX_DELAY)
        ensures Together(f, g, a, b)
      {
        NormalizedIsClocked(cfg, xs, a, f.device, f.capture, f.captureTime);
        NormalizedIsClocked(cfg, ys, b, g.device, g.capture, g.captureTime);
        hide Clocked, AllHonest;
        ClockedTogether(f, g, a, b);
      }
    }
  }

  lemma ClockedTogether(f: Pairing.Frame, g: Pairing.Frame, a: real, b: real)
    requires Clocked(f, a) && Clocked(g, b)
    ensures Together(f, g, a, b)
  {
  }

  lemma ExactSample(theta: real)
    ensures var s := ClockSample(theta, 0.0);
            && AllHonest([s], theta, DEFAULT_MAX_DELAY) && Median([s]) == Some(theta) && UncertaintyMs([s]) == Some(0.0)
  {
    MedianWithin([ClockSample(theta, 0.0)], theta, theta);
    hide Median;
  }

  /**
   * A packet captured while the phone's clock was ahead by `before`, read against probes of its present offset `theta`, is
   * certain to be well clocked exactly when the two are the same.
   */
  lemma OtherSessionClockedExactly(cfg: Config, theta: real, before: real, device: string, capture: nat, timestamp: real)
    ensures (forall samples | samples != [] && AllHonest(samples, theta, DEFAULT_MAX_DELAY) ::
               var f := Normalize(cfg, samples, device, capture, timestamp); f.Some? && Clocked(f.value, before))
            <==> before == theta
  {
    if before == theta {
      forall samples | samples != [] && AllHonest(samples, theta, DEFAULT_MAX_DELAY)
        ensures var f := Normalize(cfg, samples, device, capture, timestamp); f.Some? && Clocked(f.value, before)
      {
        NormalizedIsClocked(cfg, samples, theta, device, capture, timestamp);
        UncertaintyBound(samples);
      }
    } else {
      ExactSample(theta);
      hide Median, UncertaintyMs, AllHonest;
      var f := Normalize(cfg, [ClockSample(theta, 0.0)], device, capture, timestamp);
      assert f == Some(Pairing.Frame(device, capture, timestamp, timestamp - theta, 0.0));
      assert !Clocked(f.value, before);
    }
  }

  // --- one unsynchronised phone breaks it ------------------------------------------------------------------------

  /** A frame at the start of the phone's own time, taken as exact. */
  function Exact(device: string): Pairing.Frame {
    Pairing.Frame(device, 0, 0.0, 0.0, 0.0)
  }

  /** Two arrivals, the first perhaps after a probe with no delay at all. */
  function TwoArrivals(x: string, y: string, probed: bool): seq<Event> {
    (if probed then [Pong(x, 0.0, 0.0, 0.0, 0.0)] else []) + [Arrive(x, 0, 0.0, true), Arrive(y, 0, 0.0, true)]
  }

  predicate BothDevices(cfg: Config, x: string, y: string) {
    (x == cfg.pairing.first && y == cfg.pairing.second) || (x == cfg.pairing.second && y == cfg.pairing.first)
  }

  lemma ProbeZero(cfg: Config, theta: map<string, real>, x: string) returns (s: State)
    requires cfg.Valid() && theta.Keys == {cfg.pairing.first, cfg.pairing.second} && x in theta
    ensures s == Step(cfg, Initial(cfg, theta), Pong(x, 0.0, 0.0, 0.0, 0.0))
    ensures s == Initial(cfg, theta).(samples := s.samples)
    ensures s.samples == Initial(cfg, theta).samples[x := [ClockSample(0.0, 0.0)]]
  {
    s := Step(cfg, Initial(cfg, theta), Pong(x, 0.0, 0.0, 0.0, 0.0));
    var c := ClockSample(0.0, 0.0);
    SortAppend([], c);
    assert [] + [c] == [c];
    assert !Jumps([], c);
    assert Record([], c, DEFAULT_KEEP, DEFAULT_MAX_DELAY) == [c];
    hide Record;
  }

  lemma NormalizedExact(cfg: Config, samples: seq<ClockSample>, device: string)
    requires cfg.simulation && (samples == [] || samples == [ClockSample(0.0, 0.0)])
    ensures Normalize(cfg, samples, device, 0, 0.0) == Some(Exact(device))
  {
    ExactSample(0.0);
    if samples != [] {
      hide Median, UncertaintyMs;
    }
  }

  lemma FirstWaits(cfg: Config, s: State, x: string, y: string) returns (t: State)
    requires Shaped(cfg, s) && cfg.simulation && BothDevices(cfg, x, y)
    requires cfg.pairing.window > 0 && cfg.pairing.uncertaintyLimitMs >= 0.0
    requires s.pairing.queues[x] == [] && s.pairing.queues[y] == [] && s.emitted == []
    requires s.samples[x] == [] || s.samples[x] == [ClockSample(0.0, 0.0)]
    ensures t == Step(cfg, s, Arrive(x, 0, 0.0, true))
    ensures t.emitted == [] && t.theta == s.theta && t.samples == s.samples && t.pairing.queues[x] == [Exact(x)]
  {
    t := Step(cfg, s, Arrive(x, 0, 0.0, true));
    var f := Exact(x);
    NormalizedExact(cfg, s.samples[x], x);
    hide Normalize;
    assert Pairing.Partner(cfg.pairing, s.pairing.queues, f).None?;
    OfferStepQueues(cfg, s, f);
    ArriveStep(cfg, s, Arrive(x, 0, 0.0, true), f);
    hide Pairing.Partner, Pairing.Step, Step;
    assert Pairing.AppendBounded([], f, cfg.pairing.window) == [f];
  }

  lemma SecondPairs(cfg: Config, s: State, x: string, y: string)
    requires Shaped(cfg, s) && cfg.simulation && BothDevices(cfg, x, y)
    requires cfg.pairing.skewLimitMs >= 0.0 && cfg.pairing.uncertaintyLimitMs >= 0.0
    requires s.samples[y] == [] && s.emitted == [] && s.pairing.queues[x] == [Exact(x)]
    ensures var pair := Pairing.Pair(Exact(cfg.pairing.first), Exact(cfg.pairing.second), 0.0, 0.0, 0);
            Step(cfg, s, Arrive(y, 0, 0.0, true)).emitted
            == [Emission(pair, s.theta[cfg.pairing.first], s.theta[cfg.pairing.second])]
  {
    var f, g := Exact(x), Exact(y);
    NormalizedExact(cfg, s.samples[y], y);
    hide Normalize;
    assert Offered(cfg, s, Arrive(y, 0, 0.0, true)) == Some(g);
    assert Pairing.Best(cfg.pairing, [f], g, 0) == None;
    assert Pairing.Best(cfg.pairing, [f], g, 1) == Some(0);
    assert Pairing.SkewMs(f, g) == 0.0;
    assert Pairing.Partner(cfg.pairing, s.pairing.queues, g) == Some(0);
    ArriveStep(cfg, s, Arrive(y, 0, 0.0, true), g);
    hide Pairing.Partner, Pairing.Best, Pairing.Step, Pairing.OfferQueues, Step, Offered;
  }

  lemma RunOne(cfg: Config, theta: map<string, real>, events: seq<Event>, e: Event)
    requires cfg.Valid() && theta.Keys == {cfg.pairing.first, cfg.pairing.second}
    ensures Run(cfg, theta, events + [e]) == Step(cfg, Run(cfg, theta, events), e)
    ensures ProbedRun(cfg, theta, events + [e]) <==> ProbedRun(cfg, theta, events) && Probed(cfg, Run(cfg, theta, events), e)
    ensures Run(cfg, theta, []) == Initial(cfg, theta) && ProbedRun(cfg, theta, [])
  {
    hide Step, Probed;
    assert (events + [e])[..|events|] == events;
  }

  /** The run up to the arrivals. */
  lemma ProbedStart(cfg: Config, theta: map<string, real>, x: string, probed: bool) returns (events: seq<Event>)
    requires cfg.Valid() && theta.Keys == {cfg.pairing.first, cfg.pairing.second} && x in theta && theta[x] == 0.0
    ensures events == if probed then [Pong(x, 0.0, 0.0, 0.0, 0.0)] else []
    ensures var s := Run(cfg, theta, events);
            && ProbedRun(cfg, theta, events) && s == Initial(cfg, theta).(samples := s.samples)
            && s.samples == if probed then Initial(cfg, theta).samples[x := [ClockSample(0.0, 0.0)]] else Initial(cfg, theta).samples
  {
    var e := Pong(x, 0.0, 0.0, 0.0, 0.0);
    events := if probed then [e] else [];
    RunOne(cfg, theta, [], e);
    assert [] + [e] == [e];
    hide Run, ProbedRun, Step;
    if probed {
      var s := ProbeZero(cfg, theta, x);
    }
  }

  /**
   * Simulation mode admits frames from a phone with no probe, as if its clock were exact. Then two shutters that fired any
   * distance apart are paired with a skew of zero, whichever phone it is, and whether or not the other one was probed.
   */
  lemma UnsynchronisedPair(cfg: Config, x: string, y: string, probed: bool, gap: real)
    requires cfg.Valid() && cfg.simulation && BothDevices(cfg, x, y) && cfg.pairing.window > 0 && gap >= 0.0
    requires cfg.pairing.skewLimitMs >= 0.0 && cfg.pairing.uncertaintyLimitMs >= 0.0
    ensures var theta, events := map[x := 0.0, y := gap], TwoArrivals(x, y, probed);
            && theta.Keys == {cfg.pairing.first, cfg.pairing.second} && ProbedRun(cfg, theta, events)
            && var s := Run(cfg, theta, events);
            && |s.emitted| == 1 && s.emitted[0].pair.skewMs == 0.0
            && BoundMs(s.emitted[0].pair.first) == BoundMs(s.emitted[0].pair.second) == 0.0
            && TrueGapMs(s.emitted[0]) == gap * 1000.0
  {
    hide Run, ProbedRun, Step, BoundMs, TrueGapMs;
    var theta := map[x := 0.0, y := gap];
    assert theta.Keys == {x, y} == {cfg.pairing.first, cfg.pairing.second};
    var s := StartThenArrivals(cfg, theta, x, y, probed);
    var t := FirstWaits(cfg, s, x, y);
    SecondPairs(cfg, t, x, y);
    ExactGap(cfg, theta, x, y, gap);
  }

  lemma StartThenArrivals(cfg: Config, theta: map<string, real>, x: string, y: string, probed: bool) returns (s: State)
    requires cfg.Valid() && theta.Keys == {cfg.pairing.first, cfg.pairing.second} && BothDevices(cfg, x, y) && theta[x] == 0.0
    ensures Shaped(cfg, s) && s == Initial(cfg, theta).(samples := s.samples)
    ensures s.samples == if probed then Initial(cfg, theta).samples[x := [ClockSample(0.0, 0.0)]] else Initial(cfg, theta).samples
    ensures ProbedRun(cfg, theta, TwoArrivals(x, y, probed))
    ensures Run(cfg, theta, TwoArrivals(x, y, probed)) == Step(cfg, Step(cfg, s, Arrive(x, 0, 0.0, true)), Arrive(y, 0, 0.0, true))
  {
    hide Run, ProbedRun, Step, Initial;
    var a, b := Arrive(x, 0, 0.0, true), Arrive(y, 0, 0.0, true);
    var start := ProbedStart(cfg, theta, x, probed);
    RunOne(cfg, theta, start, a);
    RunOne(cfg, theta, start + [a], b);
    assert TwoArrivals(x, y, probed) == start + [a] + [b];
    s := Run(cfg, theta, start);
  }

  lemma ExactGap(cfg: Config, theta: map<string, real>, x: string, y: string, gap: real)
    requires BothDevices(cfg, x, y) && gap >= 0.0 && theta == map[x := 0.0, y := gap] && x != y
    ensures BoundMs(Exact(x)) == BoundMs(Exact(y)) == 0.0
    ensures var f, g := cfg.pairing.first, cfg.pairing.second;
            TrueGapMs(Emission(Pairing.Pair(Exact(f), Exact(g), 0.0, 0.0, 0), theta[f], theta[g])) == gap * 1000.0
  {
  }

  // --- which configurations keep it on every run --------------------------------------------------------------------

  /** No two frames can ever be paired. */
  predicate NeverPairs(cfg: Config) {
    cfg.pairing.window == 0 || cfg.pairing.skewLimitMs < 0.0 || cfg.pairing.uncertaintyLimitMs < 0.0
  }

  lemma UncertaintyNonNegative(cfg: Config, samples: seq<ClockSample>, device: string, capture: nat, timestamp: real)
    ensures var f := Normalize(cfg, samples, device, capture, timestamp); f.Some? ==> f.value.uncertaintyMs >= 0.0
  {
    if samples != [] {
      Extremes(samples);
      hide Median;
      assert MinOffset(samples) <= samples[0].offset <= MaxOffset(samples);
    }
  }

  predicate Unpaired(cfg: Config, s: State)
    requires Shaped(cfg, s)
  {
    s.emitted == [] && (cfg.pairing.window == 0 ==>
                          s.pairing.queues[cfg.pairing.first] == [] && s.pairing.queues[cfg.pairing.second] == [])
  }

  lemma NoPartner(cfg: Config, s: State, frame: Pairing.Frame)
    requires Shaped(cfg, s) && NeverPairs(cfg) && Unpaired(cfg, s) && frame.uncertaintyMs >= 0.0
    ensures Pairing.OfferOutcome(cfg.pairing, s.pairing.queues, frame, 0).paired.None?
    ensures cfg.pairing.window == 0 ==>
              var q := Pairing.OfferQueues(cfg.pairing, s.pairing.queues, frame);
              q[cfg.pairing.first] == [] && q[cfg.pairing.second] == []
  {
    if Pairing.Admitted(cfg.pairing, frame) {
      assert Pairing.Partner(cfg.pairing, s.pairing.queues, frame).None?;
    }
    hide Pairing.Partner, Pairing.Best;
  }

  lemma StepUnpaired(cfg: Config, s: State, e: Event)
    requires Shaped(cfg, s) && NeverPairs(cfg) && Unpaired(cfg, s)
    ensures Unpaired(cfg, Step(cfg, s, e))
  {
    if e.Arrive? && Offered(cfg, s, e).Some? {
      var f := Offered(cfg, s, e).value;
      UncertaintyNonNegative(cfg, s.samples[e.device], e.device, e.capture, e.timestamp);
      hide Normalize;
      NoPartner(cfg, s, f);
      ArriveStep(cfg, s, e, f);
      OfferStepQueues(cfg, s, f);
      hide Step, Pairing.OfferOutcome, Pairing.OfferQueues, Pairing.Step;
    } else if e.Register? && e.device in s.samples {
      ClearStepQueues(cfg, s, e.device);
    }
  }

  lemma {:induction false} RunUnpaired(cfg: Config, theta: map<string, real>, events: seq<Event>)
    requires cfg.Valid() && theta.Keys == {cfg.pairing.first, cfg.pairing.second} && NeverPairs(cfg)
    ensures Unpaired(cfg, Run(cfg, theta, events))
  {
    if events != [] {
      RunUnpaired(cfg, theta, events[..|events| - 1]);
      hide Step, Unpaired;
      StepUnpaired(cfg, Run(cfg, theta, events[..|events| - 1]), events[|events| - 1]);
    }
  }

  /** Outside simulation mode probes that really happened are all a run has to promise. */
  lemma {:induction false} ProbedIsFaithful(cfg: Config, theta: map<string, real>, events: seq<Event>)
    requires cfg.Valid() && theta.Keys == {cfg.pairing.first, cfg.pairing.second} && !cfg.simulation
    requires ProbedRun(cfg, theta, events)
    ensures FaithfulRun(cfg, theta, events)
  {
    hide Run, Probed;
    if events != [] {
      ProbedIsFaithful(cfg, theta, events[..|events| - 1]);
    }
  }

  /** Everything the run emits is truly within the skew limit and both clock bounds. */
  ghost predicate KeepsBudget(cfg: Config, theta: map<string, real>, events: seq<Event>)
    requires cfg.Valid() && theta.Keys == {cfg.pairing.first, cfg.pairing.second}
  {
    forall e | e in Run(cfg, theta, events).emitted ::
      TrueGapMs(e) <= cfg.pairing.skewLimitMs + BoundMs(e.pair.first) + BoundMs(e.pair.second)
  }

  /** Every run of real probes keeps the bound exactly when the mode is not simulation, or no two frames can be paired. */
  lemma BudgetKeptExactly(cfg: Config)
    requires cfg.Valid()
    ensures (forall theta: map<string, real>, events | theta.Keys == {cfg.pairing.first, cfg.pairing.second}
                                                       && ProbedRun(cfg, theta, events) :: KeepsBudget(cfg, theta, events))
            <==> !cfg.simulation || NeverPairs(cfg)
  {
    hide Run, ProbedRun, FaithfulRun, TrueGapMs, BoundMs;
    if !cfg.simulation || NeverPairs(cfg) {
      forall theta: map<string, real>, events | theta.Keys == {cfg.pairing.first, cfg.pairing.second}
                                                && ProbedRun(cfg, theta, events)
        ensures KeepsBudget(cfg, theta, events)
      {
        if NeverPairs(cfg) {
          RunUnpaired(cfg, theta, events);
        } else {
          ProbedIsFaithful(cfg, theta, events);
          forall e | e in Run(cfg, theta, events).emitted
            ensures TrueGapMs(e) <= cfg.pairing.skewLimitMs + BoundMs(e.pair.first) + BoundMs(e.pair.second)
          {
            ShuttersWithinBudget(cfg, theta, events, e);
          }
        }
      }
    } else {
      var x, y, gap := cfg.pairing.first, cfg.pairing.second, cfg.pairing.skewLimitMs + 1.0;
      UnsynchronisedPair(cfg, x, y, false, gap);
      var theta := map[x := 0.0, y := gap];
      var s := Run(cfg, theta, TwoArrivals(x, y, false));
      assert s.emitted[0] in s.emitted;
      assert !KeepsBudget(cfg, theta, TwoArrivals(x, y, false));
    }
  }
}
