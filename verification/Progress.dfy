/** What the runtime does get done: which frames are taken up, what is then published, and what a session comes to. */
module Progress {
  import opened Wrappers
  import opened Runtime
  import Pairing
  import Recalibration

  // --- from a frame to a publication ------------------------------------------------------------------------

  /** The lock is free, no registration runs, and the rig in force is whole and usable. */
  predicate ReadyFor(s: State, steady: bool, ready: bool) {
    s.work == Idle && !s.board.running && s.rig.calibration.Some? && !s.rig.invalid && steady && ready
  }

  /** A frame of one of the two phones, certain enough, with a candidate waiting that it may be paired with. */
  predicate Completes(cfg: Pairing.Config, s: State, frame: Pairing.Frame)
    requires Shaped(cfg, s)
  {
    var candidates := s.rig.queues[cfg.Other(frame.device)];
    && (frame.device == cfg.first || frame.device == cfg.second) && frame.uncertaintyMs <= cfg.uncertaintyLimitMs
    && exists i :: 0 <= i < |candidates| && Pairing.Acceptable(cfg, candidates, frame, i)
  }

  /** From an idle lock a frame is taken up exactly when it completes a pair and everything is ready for it. */
  lemma TakenUpExactly(cfg: Pairing.Config, s: State, frame: Pairing.Frame, live: bool, steady: bool, ready: bool)
    requires Shaped(cfg, s) && s.work == Idle
    ensures var t := FrameStep(cfg, s, frame, live, steady, ready);
            && (t.work.Processing? <==> ReadyFor(s, steady, ready) && Completes(cfg, s, frame))
            && (t.work.Processing? ==> t.work.live == live && t.output == s.output && t.rig.nextFrameId == s.rig.nextFrameId)
  {
    hide Pairing.OfferOutcome, Pairing.OfferQueues, Pairing.Acceptable, Pairing.PairedWith, Broadcast;
    if ReadyFor(s, steady, ready) {
      Pairing.OfferDecides(cfg, s.rig.queues, frame, s.rig.calibration.value);
      var outcome := Pairing.OfferOutcome(cfg, s.rig.queues, frame, s.rig.calibration.value);
      var candidates := s.rig.queues[cfg.Other(frame.device)];
      if Completes(cfg, s, frame) {
        var i :| 0 <= i < |candidates| && Pairing.PairedWith(cfg, s.rig.queues, frame, s.rig.calibration.value, outcome,
                                                             Pairing.OfferQueues(cfg, s.rig.queues, frame), i);
        PairedIsSome(cfg, s.rig.queues, frame, s.rig.calibration.value, outcome, Pairing.OfferQueues(cfg, s.rig.queues, frame), i);
      }
    }
  }

  lemma PairedIsSome(cfg: Pairing.Config, queues: Pairing.Queues, frame: Pairing.Frame, calibration: nat,
                     outcome: Pairing.Outcome, r: Pairing.Queues, i: nat)
    requires Pairing.HasQueues(cfg, queues) && cfg.Other(frame.device) in queues && i < |queues[cfg.Other(frame.device)]|
    requires Pairing.PairedWith(cfg, queues, frame, calibration, outcome, r, i)
    ensures outcome.paired.Some?
  {
  }

  /** The character the pair in hand becomes: the next number, the calibration in force, the two phones in order. */
  function NextCharacter(cfg: Pairing.Config, s: State): Character
    requires s.rig.calibration.Some?
  {
    Character(s.rig.nextFrameId, s.rig.calibration.value, cfg.first, cfg.second)
  }

  /** A pair processed and encoded without failure is published, once, under the next number; only an empty live one is not. */
  lemma ProcessedIsPublished(cfg: Pairing.Config, s: State, empty: bool)
    requires Shaped(cfg, s) && PublicationInv(cfg, s) && s.work.Processing?
    ensures s.rig.calibration.Some?
    ensures var t := Step(cfg, Step(cfg, s, Processed(true, empty)), Encoded(true));
            && t.work == Idle && t.rig == s.rig.(nextFrameId := s.rig.nextFrameId + 1)
            && if s.work.live && empty then t.output == s.output
               else && t.output.published == s.output.published + [Publication(NextCharacter(cfg, s), s.rig.calibration)]
                    && t.output.store == Some(NextCharacter(cfg, s))
  {
    hide WellPublished, GoodOutput, Broadcast;
  }

  /** Nothing is published, and no number used, when processing fails; a failed encoding uses its number only. */
  lemma FailurePublishesNothing(cfg: Pairing.Config, s: State, empty: bool)
    requires Shaped(cfg, s) && PublicationInv(cfg, s) && s.work.Processing?
    ensures Step(cfg, s, Processed(false, empty)) == s.(work := Idle)
    ensures var t := Step(cfg, Step(cfg, s, Processed(true, empty)), Encoded(false));
            t.work == Idle && t.output == s.output && t.rig == s.rig.(nextFrameId := s.rig.nextFrameId + 1)
  {
    hide WellPublished, GoodOutput;
  }

  /** From a completing frame to its publication, live or not. */
  lemma CompletedIsPublished(cfg: Pairing.Config, s: State, frame: Pairing.Frame, live: bool)
    requires Shaped(cfg, s) && QueuesInv(cfg, s) && PublicationInv(cfg, s)
    requires ReadyFor(s, true, true) && Completes(cfg, s, frame)
    ensures var t := Exec(cfg, s, [FrameArrives(frame, live, true, true), Processed(true, false), Encoded(true)]);
            && t.work == Idle && t.output.store == Some(NextCharacter(cfg, s))
            && t.output.published == s.output.published + [Publication(NextCharacter(cfg, s), s.rig.calibration)]
  {
    hide Completes, QueuesInv, PublicationInv, Exec, Step, FrameStep;
    var e, f, g := FrameArrives(frame, live, true, true), Processed(true, false), Encoded(true);
    var t := Step(cfg, s, e);
    FrameEvent(cfg, s, frame, live);
    TakenUpExactly(cfg, s, frame, live, true, true);
    StepPublishes(cfg, s, e);
    FrameKeepsRig(cfg, s, frame, live);
    ProcessedIsPublished(cfg, t, false);
    assert [e, f, g] == [e] + [f, g];
    Recalibration.ExecCons(cfg, s, e, [f, g]);
    Recalibration.ExecTwo(cfg, t, f, g);
  }

  lemma FrameKeepsRig(cfg: Pairing.Config, s: State, frame: Pairing.Frame, live: bool)
    requires Shaped(cfg, s) && ReadyFor(s, true, true)
    ensures var t := FrameStep(cfg, s, frame, live, true, true);
            t.rig.calibration == s.rig.calibration && t.rig.nextFrameId == s.rig.nextFrameId && t.output == s.output
  {
    hide Pairing.OfferOutcome, Pairing.OfferQueues;
  }

  /** Only a frame that finds everything ready reaches the pairer; an unsteady one breaks the rig; nothing else changes there. */
  lemma PairerSeesReady(cfg: Pairing.Config, s: State, frame: Pairing.Frame, live: bool, steady: bool, ready: bool)
    requires Shaped(cfg, s)
    ensures var t := FrameStep(cfg, s, frame, live, steady, ready);
            && t.rig.queues == (if ReadyFor(s, steady, ready) then Pairing.OfferQueues(cfg, s.rig.queues, frame) else s.rig.queues)
            && (t.rig.invalid <==>
                  s.rig.invalid || (s.work == Idle && !s.board.running && s.rig.calibration.Some? && !steady))
            && t.rig.calibration == s.rig.calibration && t.rig.nextFrameId == s.rig.nextFrameId && t.board == s.board
  {
    hide Pairing.OfferOutcome, Pairing.OfferQueues, Broadcast;
  }

  /** Two frames that may be paired, one of each phone: the first waits for the second, and then their pair is published. */
  lemma TwoFramesArePublished(cfg: Pairing.Config, s: State, f: Pairing.Frame, g: Pairing.Frame, live: bool)
    requires Shaped(cfg, s) && QueuesInv(cfg, s) && PublicationInv(cfg, s) && ReadyFor(s, true, true) && cfg.window > 0
    requires Pairing.Admitted(cfg, f) && Pairing.Admitted(cfg, g) && g.device == cfg.Other(f.device) && Pairing.Pairable(cfg, f, g)
    requires !Completes(cfg, s, f)
    ensures var t := Exec(cfg, s, [FrameArrives(f, live, true, true), FrameArrives(g, live, true, true),
                                   Processed(true, false), Encoded(true)]);
            && t.work == Idle && t.output.store == Some(NextCharacter(cfg, s))
            && t.output.published == s.output.published + [Publication(NextCharacter(cfg, s), s.rig.calibration)]
  {
    var e, rest := FrameArrives(f, live, true, true), [FrameArrives(g, live, true, true), Processed(true, false), Encoded(true)];
    hide Completes, QueuesInv, PublicationInv, Exec, Step, FrameStep, Pairing.Admitted, Pairing.Pairable;
    var t := Step(cfg, s, e);
    FrameEvent(cfg, s, f, live);
    StepPublishes(cfg, s, e);
    FrameKeepsRig(cfg, s, f, live);
    FirstWaits(cfg, s, f, g, live);
    CompletedIsPublished(cfg, t, g, live);
    assert [e] + rest == [e, rest[0], rest[1], rest[2]];
    Recalibration.ExecCons(cfg, s, e, rest);
  }

  lemma FrameEvent(cfg: Pairing.Config, s: State, frame: Pairing.Frame, live: bool)
    requires Shaped(cfg, s)
    ensures Step(cfg, s, FrameArrives(frame, live, true, true)) == FrameStep(cfg, s, frame, live, true, true)
  {
    hide FrameStep;
  }

  lemma FirstWaits(cfg: Pairing.Config, s: State, f: Pairing.Frame, g: Pairing.Frame, live: bool)
    requires Shaped(cfg, s) && ReadyFor(s, true, true) && cfg.window > 0 && !Completes(cfg, s, f)
    requires Pairing.Admitted(cfg, f) && Pairing.Admitted(cfg, g) && g.device == cfg.Other(f.device) && Pairing.Pairable(cfg, f, g)
    ensures var t := FrameStep(cfg, s, f, live, true, true); ReadyFor(t, true, true) && Completes(cfg, t, g)
  {
    var t := FrameStep(cfg, s, f, live, true, true);
    TakenUpExactly(cfg, s, f, live, true, true);
    PairerSeesReady(cfg, s, f, live, true, true);
    Pairing.PartnerExists(cfg, s.rig.queues, f);
    assert Pairing.Partner(cfg, s.rig.queues, f).None? by {
      hide Pairing.Acceptable, Pairing.FirstNearest, Pairing.Partner, Pairing.Best;
    }
    Pairing.NewestStay(cfg, s.rig.queues, f);
    hide Pairing.OfferQueues, Pairing.Partner, Pairing.OfferOutcome, Pairing.SkewMs, Pairing.Best;
    var waiting := t.rig.queues[cfg.Other(g.device)];
    assert cfg.Other(g.device) == f.device && waiting != [] && waiting[|waiting| - 1] == f;
    assert Pairing.Acceptable(cfg, waiting, g, |waiting| - 1);
  }

  // --- a broken rig -------------------------------------------------------------------------------------------

  /** The step swaps in a freshly solved rig. */
  predicate SwapsRig(s: State, e: Event) {
    && e.Solved? && e.ok && !e.late && s.work.Solving? && s.work.job < |s.board.sessions|
    && s.board.sessions[s.work.job].state == Validating
  }

  predicate SwapsWithin(cfg: Pairing.Config, s: State, events: seq<Event>)
    requires Shaped(cfg, s)
    decreases |events|
  {
    events != [] && (SwapsRig(s, events[0]) || SwapsWithin(cfg, Step(cfg, s, events[0]), events[1..]))
  }

  lemma BrokenStays(cfg: Pairing.Config, s: State, e: Event)
    requires Shaped(cfg, s) && s.rig.invalid && !s.work.Processing? && !SwapsRig(s, e)
    ensures Step(cfg, s, e).rig.invalid && !Step(cfg, s, e).work.Processing?
  {
    hide Broadcast, Pairing.OfferOutcome, Pairing.OfferQueues, Pairing.ClearDevice, EmptyQueues, Fail, Commit;
  }

  lemma {:induction false} BrokenUntilSwapped(cfg: Pairing.Config, s: State, events: seq<Event>)
    requires Shaped(cfg, s) && s.rig.invalid && !s.work.Processing? && !SwapsWithin(cfg, s, events)
    ensures Exec(cfg, s, events).rig.invalid && !Exec(cfg, s, events).work.Processing?
    decreases |events|
  {
    if events != [] {
      BrokenStays(cfg, s, events[0]);
      hide Step, SwapsRig;
      BrokenUntilSwapped(cfg, Step(cfg, s, events[0]), events[1..]);
    }
  }

  /** One frame that is not steady breaks the rig: until another one is swapped in, no frame is taken up again. */
  lemma UnsteadyBlocks(cfg: Pairing.Config, s: State, frame: Pairing.Frame, live: bool, ready: bool, events: seq<Event>)
    requires Shaped(cfg, s) && s.work == Idle && !s.board.running && s.rig.calibration.Some?
    requires !SwapsWithin(cfg, Step(cfg, s, FrameArrives(frame, live, false, ready)), events)
    ensures var t := Exec(cfg, Step(cfg, s, FrameArrives(frame, live, false, ready)), events); t.rig.invalid && !t.work.Processing?
  {
    var t := Step(cfg, s, FrameArrives(frame, live, false, ready));
    assert t.rig.invalid && t.work == Idle;
    hide Step, Exec, SwapsWithin;
    BrokenUntilSwapped(cfg, t, events);
  }

  /** Swapping starts afresh: nothing waits to be paired, and nothing is held against the new rig. */
  lemma SwapStartsAfresh(cfg: Pairing.Config, s: State, e: Event)
    requires Shaped(cfg, s) && SwapsRig(s, e)
    ensures var t := Step(cfg, s, e);
            && t.rig.calibration == Some(e.rig) && !t.rig.invalid && t.work == Idle && t.rig.nextFrameId == s.rig.nextFrameId
            && t.rig.queues[cfg.first] == [] && t.rig.queues[cfg.second] == []
            && t.board.sessions[s.work.job].state == Ready && t.board.sessions[s.work.job].installed
  {
    hide Broadcast;
  }

  /** A phone that registers starts with nothing waiting; the other phone's frames stay. */
  lemma RegisterForgets(cfg: Pairing.Config, s: State, device: string)
    requires Shaped(cfg, s) && (device == cfg.first || device == cfg.second)
    ensures var t := Step(cfg, s, RegisterDevice(device));
            && t.rig.queues[device] == [] && t.rig.queues[cfg.Other(device)] == s.rig.queues[cfg.Other(device)]
            && t == s.(rig := s.rig.(queues := t.rig.queues))
  {
  }

  // --- what a session comes to ---------------------------------------------------------------------------------

  predicate Pending(x: Session) {
    x.state == Collecting || x.state == Validating
  }

  /** A request starts a session that has seen nothing yet, unless one is running; nothing else changes. */
  lemma RegistrationStarts(cfg: Pairing.Config, s: State)
    requires Shaped(cfg, s)
    ensures var t, n := Step(cfg, s, RequestRegistration), |s.board.sessions|;
            && t == s.(board := t.board) && t.board.running
            && if s.board.running then t.board == s.board
               else && |t.board.sessions| == n + 1 && t.board.sessions[..n] == s.board.sessions && !t.board.cancelled
                    && var x := t.board.sessions[n];
                       x.state == Collecting && x.first == x.second == 0 && !x.failedEarly && !x.raced && !x.installed
  {
  }

  /** When the calibration loop returns, its session is no longer pending; a cancelled or unfinished one has failed. */
  lemma LoopLeavesNothingPending(cfg: Pairing.Config, s: State)
    requires Shaped(cfg, s) && s.board.running && s.board.sessions != []
    ensures var t, n := Step(cfg, s, LoopEnds), |s.board.sessions| - 1;
            && |t.board.sessions| == n + 1 && !t.board.running && !Pending(t.board.sessions[n])
            && (s.board.cancelled || Pending(s.board.sessions[n]) ==> t.board.sessions[n].state == Failed)
            && (!s.board.cancelled && !Pending(s.board.sessions[n]) ==> t.board.sessions == s.board.sessions)
            && t.board.sessions[..n] == s.board.sessions[..n] && !t.board.cancelled && t.rig == s.rig && t.work == s.work
  {
    hide Broadcast;
  }

  /** A recording that cannot be saved, or a rig that cannot be solved in time, fails the session and leaves the rig. */
  lemma SetbackFails(cfg: Pairing.Config, s: State, e: Event)
    requires Shaped(cfg, s)
    requires (s.work.Saving? && e == Saved(false)) || (s.work.Solving? && e.Solved? && !SwapsRig(s, e))
    requires s.work.job < |s.board.sessions|
    ensures var t := Step(cfg, s, e);
            && |t.board.sessions| == |s.board.sessions| && t.board.sessions[s.work.job].state == Failed && t.work == Idle
            && t.rig == s.rig
  {
    hide Broadcast;
  }
}
