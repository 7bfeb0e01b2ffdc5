/** Pairing frames of two devices within the skew budget: two bounded queues and a nearest-partner match. */
module Pairing {
  import opened Wrappers
  import opened RealMath

  datatype Frame = Frame(device: string, capture: nat, captureTime: real, normalizedTime: real, uncertaintyMs: real)

  datatype Pair = Pair(first: Frame, second: Frame, midpoint: real, skewMs: real, calibration: nat)

  datatype Reason = UnauthorizedDevice | ClockUncertaintyExceeded | PairSkewExceeded

  datatype Outcome = Outcome(paired: Option<Pair>, rejected: Option<Reason>)

  datatype Config = Config(first: string, second: string, skewLimitMs: real, uncertaintyLimitMs: real,
                           requireCaptureId: bool, window: nat)
  {
    predicate Valid() {
      first != second
    }

    function Other(device: string): string {
      if device == first then second else first
    }
  }

  type Queues = map<string, seq<Frame>>

  predicate HasQueues(cfg: Config, queues: Queues) {
    queues.Keys == {cfg.first, cfg.second}
  }

  /** Milliseconds between two normalized capture times. */
  function SkewMs(f: Frame, g: Frame): real {
    Abs(f.normalizedTime - g.normalizedTime) * 1000.0
  }

  predicate Eligible(cfg: Config, candidate: Frame, frame: Frame) {
    !cfg.requireCaptureId || candidate.capture == frame.capture
  }

  /** Two frames that must not both wait: eligible for each other and close enough. */
  predicate Pairable(cfg: Config, f: Frame, g: Frame) {
    Eligible(cfg, f, g) && SkewMs(f, g) <= cfg.skewLimitMs
  }

  // --- the nearest partner ------------------------------------------------------------------------

  /** The earliest of the eligible candidates with the smallest skew, scanning the first n. */
  function Best(cfg: Config, candidates: seq<Frame>, frame: Frame, n: nat): Option<nat>
    requires n <= |candidates|
    ensures Best(cfg, candidates, frame, n).Some? ==> Best(cfg, candidates, frame, n).value < n
  {
    if n == 0 then None
    else
      var best := Best(cfg, candidates, frame, n - 1);
      if !Eligible(cfg, candidates[n - 1], frame) then best
      else if best.None? || SkewMs(candidates[n - 1], frame) < SkewMs(candidates[best.value], frame) then Some(n - 1)
      else best
  }

  /** It is eligible, no eligible candidate is nearer, and earlier ones are all strictly farther. */
  lemma {:induction false} BestIsNearest(cfg: Config, candidates: seq<Frame>, frame: Frame, n: nat)
    requires n <= |candidates|
    ensures var best := Best(cfg, candidates, frame, n);
            && (best.None? <==> forall i | 0 <= i < n :: !Eligible(cfg, candidates[i], frame))
            && (best.Some? ==>
                  && Eligible(cfg, candidates[best.value], frame)
                  && (forall i | 0 <= i < n && Eligible(cfg, candidates[i], frame) ::
                        SkewMs(candidates[best.value], frame) <= SkewMs(candidates[i], frame))
                  && (forall i | 0 <= i < best.value && Eligible(cfg, candidates[i], frame) ::
                        SkewMs(candidates[best.value], frame) < SkewMs(candidates[i], frame)))
  {
    if n > 0 {
      BestIsNearest(cfg, candidates, frame, n - 1);
    }
  }

  function BuildPair(cfg: Config, arriving: Frame, partner: Frame, skewMs: real, calibration: nat): Pair {
    var first := if arriving.device == cfg.first then arriving else partner;
    var second := if arriving.device == cfg.first then partner else arriving;
    Pair(first, second, (first.normalizedTime + second.normalizedTime) / 2.0, skewMs, calibration)
  }

  // --- one offer, as a function of the queues ---------------------------------------------------------

  function RemoveAt(frames: seq<Frame>, i: nat): seq<Frame>
    requires i < |frames|
  {
    frames[..i] + frames[i + 1..]
  }

  /** A deque of bounded length drops its oldest elements on append. */
  function AppendBounded(frames: seq<Frame>, f: Frame, window: nat): seq<Frame> {
    var all := frames + [f];
    if |all| > window then all[|all| - window..] else all
  }

  function Evicted(frames: seq<Frame>, f: Frame, window: nat): seq<Frame> {
    var all := frames + [f];
    if |all| > window then all[..|all| - window] else []
  }

  predicate Admitted(cfg: Config, frame: Frame) {
    (frame.device == cfg.first || frame.device == cfg.second) && frame.uncertaintyMs <= cfg.uncertaintyLimitMs
  }

  /** The candidate an admitted frame would be paired with, if it is near enough. */
  function Partner(cfg: Config, queues: Queues, frame: Frame): Option<nat>
    requires cfg.Valid() && HasQueues(cfg, queues)
  {
    var candidates := queues[cfg.Other(frame.device)];
    var best := Best(cfg, candidates, frame, |candidates|);
    if best.Some? && SkewMs(candidates[best.value], frame) <= cfg.skewLimitMs then best else None
  }

  lemma PartnerInRange(cfg: Config, queues: Queues, frame: Frame)
    requires cfg.Valid() && HasQueues(cfg, queues)
    ensures Partner(cfg, queues, frame).Some? ==> Partner(cfg, queues, frame).value < |queues[cfg.Other(frame.device)]|
  {
  }

  function OfferQueues(cfg: Config, queues: Queues, frame: Frame): (r: Queues)
    requires cfg.Valid() && HasQueues(cfg, queues)
    ensures HasQueues(cfg, r)
  {
    if !Admitted(cfg, frame) then queues
    else
      var partner := Partner(cfg, queues, frame);
      if partner.Some? then
        queues[cfg.Other(frame.device) := RemoveAt(queues[cfg.Other(frame.device)], partner.value)]
      else
        queues[frame.device := AppendBounded(queues[frame.device], frame, cfg.window)]
  }

  function OfferOutcome(cfg: Config, queues: Queues, frame: Frame, calibration: nat): Outcome
    requires cfg.Valid() && HasQueues(cfg, queues)
  {
    if frame.device != cfg.first && frame.device != cfg.second then Outcome(None, Some(UnauthorizedDevice))
    else if frame.uncertaintyMs > cfg.uncertaintyLimitMs then Outcome(None, Some(ClockUncertaintyExceeded))
    else
      var candidates := queues[cfg.Other(frame.device)];
      var partner := Partner(cfg, queues, frame);
      if partner.Some? then
        var p := candidates[partner.value];
        Outcome(Some(BuildPair(cfg, frame, p, SkewMs(p, frame), calibration)), None)
      else if Best(cfg, candidates, frame, |candidates|).Some? then Outcome(None, Some(PairSkewExceeded))
      else Outcome(None, None)
  }

  function ClearDevice(cfg: Config, queues: Queues, device: string): (r: Queues)
    requires HasQueues(cfg, queues)
    ensures HasQueues(cfg, r)
  {
    if device in queues then queues[device := []] else queues
  }

  // --- the pairer, in place ------------------------------------------------------------------------------

  class Pairer {
    const cfg: Config
    var queues: Queues

    ghost predicate Valid()
      reads this
    {
      cfg.Valid() && HasQueues(cfg, queues)
    }

    constructor (cfg: Config)
      requires cfg.Valid()
      ensures Valid() && this.cfg == cfg && queues[cfg.first] == [] && queues[cfg.second] == []
    {
      this.cfg := cfg;
      queues := map[cfg.first := [], cfg.second := []];
    }

    method Offer(frame: Frame, calibration: nat) returns (outcome: Outcome)
      requires Valid()
      modifies this
      ensures Valid() && queues == OfferQueues(cfg, old(queues), frame)
      ensures outcome == OfferOutcome(cfg, old(queues), frame, calibration)
    {
      if frame.device !in queues {
        return Outcome(None, Some(UnauthorizedDevice));
      }
      if frame.uncertaintyMs > cfg.uncertaintyLimitMs {
        return Outcome(None, Some(ClockUncertaintyExceeded));
      }
      var other := cfg.Other(frame.device);
      var candidates := queues[other];
      var best: Option<nat> := None;
      var bestSkewMs := 0.0;
      for i := 0 to |candidates|
        invariant best == Best(cfg, candidates, frame, i)
        invariant best.Some? ==> bestSkewMs == SkewMs(candidates[best.value], frame)
      {
        if cfg.requireCaptureId && candidates[i].capture != frame.capture {
          continue;
        }
        var skewMs := SkewMs(candidates[i], frame);
        if best.None? || skewMs < bestSkewMs {
          bestSkewMs := skewMs;
          best := Some(i);
        }
      }
      if best.Some? && bestSkewMs <= cfg.skewLimitMs {
        var partner := candidates[best.value];
        queues := queues[other := RemoveAt(candidates, best.value)];
        return Outcome(Some(BuildPair(cfg, frame, partner, bestSkewMs, calibration)), None);
      }
      queues := queues[frame.device := AppendBounded(queues[frame.device], frame, cfg.window)];
      return Outcome(None, if best.Some? then Some(PairSkewExceeded) else None);
    }

    method Clear(device: string)
      requires Valid()
      modifies this
      ensures Valid() && queues == ClearDevice(cfg, old(queues), device)
    {
      if device in queues {
        queues := queues[device := []];
      }
    }
  }

  // --- whole runs -------------------------------------------------------------------------------------------

  datatype Event = OfferEvent(frame: Frame, calibration: nat) | ClearEvent(device: string)

  /** The queues and what has happened: frames admitted, and the three ways an admitted frame can leave. */
  datatype State = State(queues: Queues, admitted: seq<Frame>, pairs: seq<Pair>, evicted: seq<Frame>, cleared: seq<Frame>)

  function Initial(cfg: Config): State {
    State(map[cfg.first := [], cfg.second := []], [], [], [], [])
  }

  function Step(cfg: Config, s: State, e: Event): (t: State)
    requires cfg.Valid() && HasQueues(cfg, s.queues)
    ensures HasQueues(cfg, t.queues)
  {
    match e
    case ClearEvent(device) =>
      if device in s.queues then
        s.(queues := ClearDevice(cfg, s.queues, device), cleared := s.cleared + s.queues[device])
      else s
    case OfferEvent(frame, calibration) =>
      var outcome := OfferOutcome(cfg, s.queues, frame, calibration);
      var queues := OfferQueues(cfg, s.queues, frame);
      if !Admitted(cfg, frame) then s
      else if outcome.paired.Some? then
        s.(queues := queues, admitted := s.admitted + [frame], pairs := s.pairs + [outcome.paired.value])
      else
        s.(queues := queues, admitted := s.admitted + [frame],
           evicted := s.evicted + Evicted(s.queues[frame.device], frame, cfg.window))
  }

  function Run(cfg: Config, events: seq<Event>): (s: State)
    requires cfg.Valid()
    ensures HasQueues(cfg, s.queues)
  {
    if events == [] then Initial(cfg)
    else Step(cfg, Run(cfg, events[..|events| - 1]), events[|events| - 1])
  }

  function PairedFrames(pairs: seq<Pair>): multiset<Frame> {
    if pairs == [] then multiset{}
    else PairedFrames(pairs[..|pairs| - 1]) + multiset{pairs[|pairs| - 1].first, pairs[|pairs| - 1].second}
  }

  /** Nothing waits in one queue that could be paired with something waiting in the other. */
  predicate NoMissedPair(cfg: Config, queues: Queues)
    requires HasQueues(cfg, queues)
  {
    Apart(cfg, queues[cfg.first], queues[cfg.second])
  }

  predicate Apart(cfg: Config, xs: seq<Frame>, ys: seq<Frame>) {
    forall i, j | 0 <= i < |xs| && 0 <= j < |ys| :: !Pairable(cfg, xs[i], ys[j])
  }

  predicate AllOf(device: string, frames: seq<Frame>) {
    forall i | 0 <= i < |frames| :: frames[i].device == device
  }

  /** Frames wait in their own device's queue, which never exceeds the window. */
  predicate WellQueued(cfg: Config, queues: Queues)
    requires HasQueues(cfg, queues)
  {
    && AllOf(cfg.first, queues[cfg.first]) && AllOf(cfg.second, queues[cfg.second])
    && |queues[cfg.first]| <= cfg.window && |queues[cfg.second]| <= cfg.window
  }

  /** Every admitted frame waits, or was paired, evicted or cleared: exactly one of the four. */
  predicate Conserved(cfg: Config, s: State)
    requires HasQueues(cfg, s.queues)
  {
    multiset(s.admitted)
    == multiset(s.queues[cfg.first]) + multiset(s.queues[cfg.second])
       + PairedFrames(s.pairs) + multiset(s.evicted) + multiset(s.cleared)
  }

  /** One frame of each device in configured order, close enough, and of one capture when that is required. */
  predicate ProperPair(cfg: Config, p: Pair) {
    && p.first.device == cfg.first && p.second.device == cfg.second
    && p.skewMs == SkewMs(p.first, p.second) <= cfg.skewLimitMs
    && p.midpoint == (p.first.normalizedTime + p.second.normalizedTime) / 2.0
    && (cfg.requireCaptureId ==> p.first.capture == p.second.capture)
  }

  ghost predicate Inv(cfg: Config, s: State) {
    && HasQueues(cfg, s.queues)
    && NoMissedPair(cfg, s.queues) && WellQueued(cfg, s.queues) && Conserved(cfg, s)
    && forall i | 0 <= i < |s.pairs| :: ProperPair(cfg, s.pairs[i])
  }

  lemma PairableSymmetric(cfg: Config, f: Frame, g: Frame)
    ensures Pairable(cfg, f, g) == Pairable(cfg, g, f)
    ensures SkewMs(f, g) == SkewMs(g, f)
  {
  }

  /** Without a partner no candidate is pairable with the arriving frame. */
  lemma NoPartnerNoPair(cfg: Config, queues: Queues, frame: Frame)
    requires cfg.Valid() && HasQueues(cfg, queues) && Partner(cfg, queues, frame).None?
    ensures forall i | 0 <= i < |queues[cfg.Other(frame.device)]| ::
              !Pairable(cfg, queues[cfg.Other(frame.device)][i], frame)
  {
    var candidates := queues[cfg.Other(frame.device)];
    BestIsNearest(cfg, candidates, frame, |candidates|);
    hide SkewMs, Best;
  }

  lemma ApartSymmetric(cfg: Config, xs: seq<Frame>, ys: seq<Frame>)
    requires Apart(cfg, xs, ys)
    ensures Apart(cfg, ys, xs)
  {
    forall i, j | 0 <= i < |ys| && 0 <= j < |xs|
      ensures !Pairable(cfg, ys[i], xs[j])
    {
      PairableSymmetric(cfg, ys[i], xs[j]);
    }
  }

  /** Dropping elements, or adding one that is itself apart, keeps two queues apart. */
  lemma ApartFewer(cfg: Config, xs: seq<Frame>, more: seq<Frame>, f: Frame, ys: seq<Frame>)
    requires Apart(cfg, more, ys)
    requires forall i | 0 <= i < |xs| :: xs[i] in more || (xs[i] == f && forall j | 0 <= j < |ys| :: !Pairable(cfg, f, ys[j]))
    ensures Apart(cfg, xs, ys)
  {
    hide Pairable;
  }

  lemma AppendBoundedIsSuffix(frames: seq<Frame>, f: Frame, window: nat)
    ensures var r := AppendBounded(frames, f, window);
            && |r| <= window && multiset(r) + multiset(Evicted(frames, f, window)) == multiset(frames) + multiset{f}
            && forall i | 0 <= i < |r| :: r[i] == f || r[i] in frames
  {
    var all := frames + [f];
    assert multiset(all) == multiset(frames) + multiset{f};
    if |all| > window {
      var k := |all| - window;
      assert all == all[..k] + all[k..];
      assert multiset(all) == multiset(all[..k]) + multiset(all[k..]);
    }
  }

  lemma RetainedApart(cfg: Config, queues: Queues, frame: Frame)
    requires cfg.Valid() && HasQueues(cfg, queues) && Admitted(cfg, frame) && Partner(cfg, queues, frame).None?
    requires NoMissedPair(cfg, queues) && WellQueued(cfg, queues)
    ensures NoMissedPair(cfg, OfferQueues(cfg, queues, frame)) && WellQueued(cfg, OfferQueues(cfg, queues, frame))
  {
    var own, others := queues[frame.device], queues[cfg.Other(frame.device)];
    var retained := AppendBounded(own, frame, cfg.window);
    AppendBoundedIsSuffix(own, frame, cfg.window);
    assert forall j | 0 <= j < |others| :: !Pairable(cfg, frame, others[j]) by {
      NoPartnerNoPair(cfg, queues, frame);
      hide Pairable;
      forall j | 0 <= j < |others|
        ensures !Pairable(cfg, frame, others[j])
      {
        PairableSymmetric(cfg, others[j], frame);
      }
    }
    assert OfferQueues(cfg, queues, frame) == queues[frame.device := retained];
    hide Best, Partner, Pairable, AppendBounded, OfferQueues, Evicted;
    assert AllOf(frame.device, retained);
    if frame.device == cfg.first {
      assert Apart(cfg, own, others);
      hide Apart, AllOf;
      ApartFewer(cfg, retained, own, frame, others);
    } else {
      hide Apart, AllOf;
      ApartSymmetric(cfg, others, own);
      ApartFewer(cfg, retained, own, frame, others);
      ApartSymmetric(cfg, retained, others);
    }
  }

  lemma RetainConserves(cfg: Config, s: State, frame: Frame, calibration: nat)
    requires cfg.Valid() && HasQueues(cfg, s.queues) && Admitted(cfg, frame) && Partner(cfg, s.queues, frame).None?
    requires Conserved(cfg, s)
    ensures Conserved(cfg, Step(cfg, s, OfferEvent(frame, calibration)))
    ensures Step(cfg, s, OfferEvent(frame, calibration)).pairs == s.pairs
    ensures Step(cfg, s, OfferEvent(frame, calibration)).queues == OfferQueues(cfg, s.queues, frame)
  {
    var own := s.queues[frame.device];
    AppendBoundedIsSuffix(own, frame, cfg.window);
    EvictionConserves(multiset(s.evicted), s.evicted, Evicted(own, frame, cfg.window));
    AdmissionConserves(s.admitted, frame);
    hide Best, Partner, AppendBounded, Evicted, PairedFrames;
    var t := Step(cfg, s, OfferEvent(frame, calibration));
    assert t.queues[cfg.Other(frame.device)] == s.queues[cfg.Other(frame.device)];
    assert multiset(t.queues[frame.device]) + multiset(Evicted(own, frame, cfg.window)) == multiset(own) + multiset{frame};
    Regroup(multiset(own), multiset(t.queues[frame.device]), multiset(Evicted(own, frame, cfg.window)), multiset{frame},
            multiset(s.queues[cfg.Other(frame.device)]), PairedFrames(s.pairs), multiset(s.evicted), multiset(s.cleared));
  }

  lemma Regroup(own: multiset<Frame>, retained: multiset<Frame>, gone: multiset<Frame>, x: multiset<Frame>,
                others: multiset<Frame>, paired: multiset<Frame>, evicted: multiset<Frame>, cleared: multiset<Frame>)
    requires retained + gone == own + x
    ensures retained + others + paired + (evicted + gone) + cleared == own + others + paired + evicted + cleared + x
    ensures others + retained + paired + (evicted + gone) + cleared == others + own + paired + evicted + cleared + x
  {
    assert retained + others + paired + (evicted + gone) + cleared == (retained + gone) + others + paired + evicted + cleared;
    assert others + retained + paired + (evicted + gone) + cleared == (retained + gone) + others + paired + evicted + cleared;
  }

  lemma RetainKeeps(cfg: Config, s: State, frame: Frame, calibration: nat)
    requires cfg.Valid() && Inv(cfg, s) && Admitted(cfg, frame) && Partner(cfg, s.queues, frame).None?
    ensures Inv(cfg, Step(cfg, s, OfferEvent(frame, calibration)))
  {
    RetainedApart(cfg, s.queues, frame);
    RetainConserves(cfg, s, frame, calibration);
    hide Partner, Conserved, NoMissedPair, WellQueued, ProperPair, OfferQueues, Step;
  }

  lemma EvictionConserves(m: multiset<Frame>, evicted: seq<Frame>, more: seq<Frame>)
    requires m == multiset(evicted)
    ensures multiset(evicted + more) == m + multiset(more)
  {
  }

  lemma AdmissionConserves(admitted: seq<Frame>, f: Frame)
    ensures multiset(admitted + [f]) == multiset(admitted) + multiset{f}
  {
  }

  lemma RemoveAtPermutes(frames: seq<Frame>, i: nat)
    requires i < |frames|
    ensures multiset(RemoveAt(frames, i)) + multiset{frames[i]} == multiset(frames)
    ensures |RemoveAt(frames, i)| < |frames|
    ensures forall k | 0 <= k < |RemoveAt(frames, i)| :: RemoveAt(frames, i)[k] in frames
  {
    assert frames == frames[..i] + [frames[i]] + frames[i + 1..];
  }

  /** What is emitted is a proper pair of the arriving frame and the removed one. */
  lemma EmittedIsProper(cfg: Config, queues: Queues, frame: Frame, calibration: nat)
    requires cfg.Valid() && HasQueues(cfg, queues) && Admitted(cfg, frame)
    requires WellQueued(cfg, queues) && Partner(cfg, queues, frame).Some?
    ensures var candidates := queues[cfg.Other(frame.device)];
            var i := Partner(cfg, queues, frame).value;
            var p := OfferOutcome(cfg, queues, frame, calibration).paired;
            && i < |candidates| && p.Some? && ProperPair(cfg, p.value)
            && multiset{p.value.first, p.value.second} == multiset{frame} + multiset{candidates[i]}
  {
    var candidates := queues[cfg.Other(frame.device)];
    BestIsNearest(cfg, candidates, frame, |candidates|);
    PairableSymmetric(cfg, candidates[Partner(cfg, queues, frame).value], frame);
  }

  /**
   * The last frames of a device, as many as the window holds: after an admitted frame without a partner its queue is what was
   * queued before it and the frame, less the oldest when there is no room.
   */
  lemma NewestStay(cfg: Config, queues: Queues, frame: Frame)
    requires cfg.Valid() && HasQueues(cfg, queues) && Admitted(cfg, frame) && Partner(cfg, queues, frame).None?
    ensures var r, all := OfferQueues(cfg, queues, frame), queues[frame.device] + [frame];
            && r[cfg.Other(frame.device)] == queues[cfg.Other(frame.device)]
            && |r[frame.device]| == (if |all| <= cfg.window then |all| else cfg.window)
            && r[frame.device] == all[|all| - |r[frame.device]|..]
            && (cfg.window > 0 ==> r[frame.device] != [] && r[frame.device][|r[frame.device]| - 1] == frame)
  {
    hide Partner;
  }

  /** A candidate the arriving frame may be paired with. */
  predicate Acceptable(cfg: Config, candidates: seq<Frame>, frame: Frame, i: nat)
    requires i < |candidates|
  {
    Eligible(cfg, candidates[i], frame) && SkewMs(candidates[i], frame) <= cfg.skewLimitMs
  }

  /** The earliest of the nearest eligible candidates. */
  predicate FirstNearest(cfg: Config, candidates: seq<Frame>, frame: Frame, i: nat)
    requires i < |candidates|
  {
    && Eligible(cfg, candidates[i], frame)
    && (forall j | 0 <= j < |candidates| && Eligible(cfg, candidates[j], frame) ::
          SkewMs(candidates[i], frame) <= SkewMs(candidates[j], frame))
    && (forall j | 0 <= j < i && Eligible(cfg, candidates[j], frame) ::
          SkewMs(candidates[i], frame) < SkewMs(candidates[j], frame))
  }

  /** The frame is paired with candidate i, which leaves its queue. */
  predicate PairedWith(cfg: Config, queues: Queues, frame: Frame, calibration: nat, outcome: Outcome, r: Queues, i: nat)
    requires HasQueues(cfg, queues) && i < |queues[cfg.Other(frame.device)]|
  {
    var other := cfg.Other(frame.device);
    var candidates := queues[other];
    && FirstNearest(cfg, candidates, frame, i) && Acceptable(cfg, candidates, frame, i)
    && outcome == Outcome(Some(BuildPair(cfg, frame, candidates[i], SkewMs(candidates[i], frame), calibration)), None)
    && r == queues[other := candidates[..i] + candidates[i + 1..]]
  }

  lemma PartnerExists(cfg: Config, queues: Queues, frame: Frame)
    requires cfg.Valid() && HasQueues(cfg, queues)
    ensures var candidates, partner := queues[cfg.Other(frame.device)], Partner(cfg, queues, frame);
            && (partner.Some? <==> exists i :: 0 <= i < |candidates| && Acceptable(cfg, candidates, frame, i))
            && (partner.Some? ==> partner.value < |candidates| && FirstNearest(cfg, candidates, frame, partner.value)
                                  && Acceptable(cfg, candidates, frame, partner.value))
            && (Best(cfg, candidates, frame, |candidates|).Some?
                <==> exists i :: 0 <= i < |candidates| && Eligible(cfg, candidates[i], frame))
  {
    var candidates := queues[cfg.Other(frame.device)];
    BestIsNearest(cfg, candidates, frame, |candidates|);
    hide Best, SkewMs, Eligible;
    var best := Best(cfg, candidates, frame, |candidates|);
    if best.Some? && SkewMs(candidates[best.value], frame) <= cfg.skewLimitMs {
      assert Acceptable(cfg, candidates, frame, best.value);
    }
  }

  /**
   * Which of the five outcomes an offer has: a stranger's frame or an uncertain one is rejected as that; a frame with an
   * acceptable candidate is paired with the earliest of the nearest, which leaves its queue; one whose candidates are all too
   * far is rejected for the skew, but waits; one without a candidate just waits.
   */
  lemma OfferDecides(cfg: Config, queues: Queues, frame: Frame, calibration: nat)
    requires cfg.Valid() && HasQueues(cfg, queues)
    ensures var outcome, r := OfferOutcome(cfg, queues, frame, calibration), OfferQueues(cfg, queues, frame);
            var candidates := queues[cfg.Other(frame.device)];
            if frame.device != cfg.first && frame.device != cfg.second then
              outcome == Outcome(None, Some(UnauthorizedDevice)) && r == queues
            else if frame.uncertaintyMs > cfg.uncertaintyLimitMs then
              outcome == Outcome(None, Some(ClockUncertaintyExceeded)) && r == queues
            else if exists i :: 0 <= i < |candidates| && Acceptable(cfg, candidates, frame, i) then
              exists i :: 0 <= i < |candidates| && PairedWith(cfg, queues, frame, calibration, outcome, r, i)
            else if exists i :: 0 <= i < |candidates| && Eligible(cfg, candidates[i], frame) then
              outcome == Outcome(None, Some(PairSkewExceeded)) && r[cfg.Other(frame.device)] == candidates
            else
              outcome == Outcome(None, None) && r[cfg.Other(frame.device)] == candidates
  {
    hide Best, Partner, SkewMs, AppendBounded, BuildPair, Eligible, Acceptable, FirstNearest;
    PartnerExists(cfg, queues, frame);
    var partner := Partner(cfg, queues, frame);
    if Admitted(cfg, frame) && partner.Some? {
      assert PairedWith(cfg, queues, frame, calibration, OfferOutcome(cfg, queues, frame, calibration),
                        OfferQueues(cfg, queues, frame), partner.value);
    }
  }

  lemma ConsumedApart(cfg: Config, queues: Queues, frame: Frame)
    requires cfg.Valid() && HasQueues(cfg, queues) && Admitted(cfg, frame) && Partner(cfg, queues, frame).Some?
    requires NoMissedPair(cfg, queues) && WellQueued(cfg, queues)
    ensures NoMissedPair(cfg, OfferQueues(cfg, queues, frame)) && WellQueued(cfg, OfferQueues(cfg, queues, frame))
  {
    PartnerInRange(cfg, queues, frame);
    var own, others := queues[frame.device], queues[cfg.Other(frame.device)];
    var left := RemoveAt(others, Partner(cfg, queues, frame).value);
    RemoveAtPermutes(others, Partner(cfg, queues, frame).value);
    assert OfferQueues(cfg, queues, frame) == queues[cfg.Other(frame.device) := left];
    hide Best, Partner, Pairable, RemoveAt, OfferQueues;
    assert AllOf(cfg.Other(frame.device), left);
    if frame.device == cfg.first {
      hide Apart, AllOf;
      ApartSymmetric(cfg, own, others);
      ApartFewer(cfg, left, others, frame, own);
      ApartSymmetric(cfg, left, own);
    } else {
      hide Apart, AllOf;
      ApartFewer(cfg, left, others, frame, own);
    }
  }

  lemma PairConserves(cfg: Config, s: State, frame: Frame, calibration: nat)
    requires cfg.Valid() && HasQueues(cfg, s.queues) && WellQueued(cfg, s.queues) && Admitted(cfg, frame)
    requires Conserved(cfg, s) && Partner(cfg, s.queues, frame).Some?
    ensures Conserved(cfg, Step(cfg, s, OfferEvent(frame, calibration)))
    ensures var t := Step(cfg, s, OfferEvent(frame, calibration));
            var p := OfferOutcome(cfg, s.queues, frame, calibration).paired;
            p.Some? && ProperPair(cfg, p.value) && t.pairs == s.pairs + [p.value]
            && t.queues == OfferQueues(cfg, s.queues, frame)
  {
    EmittedIsProper(cfg, s.queues, frame, calibration);
    var others := s.queues[cfg.Other(frame.device)];
    RemoveAtPermutes(others, Partner(cfg, s.queues, frame).value);
    AdmissionConserves(s.admitted, frame);
    PairedFramesAppend(s.pairs, OfferOutcome(cfg, s.queues, frame, calibration).paired.value);
    var left := RemoveAt(others, Partner(cfg, s.queues, frame).value);
    var partner := others[Partner(cfg, s.queues, frame).value];
    assert OfferQueues(cfg, s.queues, frame) == s.queues[cfg.Other(frame.device) := left];
    RegroupPair(multiset(left), multiset(others), multiset{partner}, multiset{frame}, multiset(s.queues[frame.device]),
                PairedFrames(s.pairs), multiset(s.evicted), multiset(s.cleared));
    hide Best, Partner, RemoveAt, ProperPair, PairedFrames, OfferOutcome, WellQueued, OfferQueues;
  }

  lemma RegroupPair(left: multiset<Frame>, others: multiset<Frame>, partner: multiset<Frame>, x: multiset<Frame>,
                    own: multiset<Frame>, paired: multiset<Frame>, evicted: multiset<Frame>, cleared: multiset<Frame>)
    requires left + partner == others
    ensures left + own + (paired + (x + partner)) + evicted + cleared == others + own + paired + evicted + cleared + x
    ensures own + left + (paired + (x + partner)) + evicted + cleared == own + others + paired + evicted + cleared + x
  {
    assert left + own + (paired + (x + partner)) + evicted + cleared == (left + partner) + own + paired + evicted + cleared + x;
    assert own + left + (paired + (x + partner)) + evicted + cleared == own + (left + partner) + paired + evicted + cleared + x;
  }

  lemma PairedFramesAppend(pairs: seq<Pair>, p: Pair)
    ensures PairedFrames(pairs + [p]) == PairedFrames(pairs) + multiset{p.first, p.second}
  {
    assert (pairs + [p])[..|pairs|] == pairs;
  }

  lemma PairKeeps(cfg: Config, s: State, frame: Frame, calibration: nat)
    requires cfg.Valid() && Inv(cfg, s) && Admitted(cfg, frame) && Partner(cfg, s.queues, frame).Some?
    ensures Inv(cfg, Step(cfg, s, OfferEvent(frame, calibration)))
  {
    ConsumedApart(cfg, s.queues, frame);
    PairConserves(cfg, s, frame, calibration);
    hide Partner, Conserved, NoMissedPair, WellQueued, ProperPair, OfferQueues, OfferOutcome, Step;
  }

  lemma ClearKeeps(cfg: Config, s: State, device: string)
    requires cfg.Valid() && Inv(cfg, s)
    ensures Inv(cfg, Step(cfg, s, ClearEvent(device)))
  {
    hide Pairable, ProperPair;
  }

  lemma StepKeeps(cfg: Config, s: State, e: Event)
    requires cfg.Valid() && Inv(cfg, s)
    ensures Inv(cfg, Step(cfg, s, e))
  {
    assert HasQueues(cfg, s.queues);
    hide Inv;
    match e
    case ClearEvent(device) => ClearKeeps(cfg, s, device);
    case OfferEvent(frame, calibration) =>
      if Admitted(cfg, frame) {
        if Partner(cfg, s.queues, frame).Some? {
          PairKeeps(cfg, s, frame, calibration);
        } else {
          RetainKeeps(cfg, s, frame, calibration);
        }
      }
  }

  /** After any run of offers and clears: no missed pair, every frame accounted for, every emitted pair proper. */
  lemma {:induction false} RunKeeps(cfg: Config, events: seq<Event>)
    requires cfg.Valid()
    ensures Inv(cfg, Run(cfg, events))
  {
    if events != [] {
      RunKeeps(cfg, events[..|events| - 1]);
      StepKeeps(cfg, Run(cfg, events[..|events| - 1]), events[|events| - 1]);
    }
  }

  /** So no frame is paired more often than it was admitted: a consumed frame is never reused. */
  lemma NeverPairedTwice(cfg: Config, events: seq<Event>)
    requires cfg.Valid()
    ensures PairedFrames(Run(cfg, events).pairs) <= multiset(Run(cfg, events).admitted)
  {
    RunKeeps(cfg, events);
  }
}
