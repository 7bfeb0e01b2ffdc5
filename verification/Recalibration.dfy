/** Board sessions over whole runs of the runtime: which of them may install a rig. */
module Recalibration {
  import opened Wrappers
  import opened Runtime
  import Pairing

  // --- board sessions over runs ---------------------------------------------------------------------------------------

  /** A session that failed before going live stays failed and never goes live, unless the failure raced an examination. */
  predicate SessionOk(x: Session) {
    x.failedEarly && !x.raced ==> x.state == Failed && !x.installed
  }

  predicate BoardInv(s: State) {
    && (forall i | 0 <= i < |s.board.sessions| :: SessionOk(s.board.sessions[i]))
    && (s.work.Offering? && s.work.examining && s.work.job < |s.board.sessions| && !s.board.sessions[s.work.job].raced ==>
          s.board.sessions[s.work.job].state == Collecting)
  }

  lemma FailOk(x: Session, midOffer: bool)
    requires SessionOk(x)
    ensures SessionOk(Fail(x, midOffer)) && (midOffer ==> Fail(x, midOffer).raced)
  {
  }

  lemma CommitOk(x: Session, second: bool, verdict: Verdict)
    requires SessionOk(x) && (!x.raced ==> x.state == Collecting)
    ensures SessionOk(Commit(x, second, verdict))
  {
  }

  lemma FailCurrentOk(s: State)
    requires BoardInv(s)
    ensures BoardInv(FailCurrent(s))
  {
    var n := |s.board.sessions|;
    if n > 0 {
      FailOk(s.board.sessions[n - 1], MidOffer(s.work, n - 1));
      hide Fail, SessionOk;
    }
  }

  /** Frames, publication and clients leave the board alone. */
  lemma BoardUntouched(cfg: Pairing.Config, s: State, e: Event)
    requires Shaped(cfg, s)
    requires e.FrameArrives? || e.Processed? || e.Encoded? || e.RegisterDevice? || e.Connect? || e.Subscribe? || e.Disconnect?
             || e.Deliver? || e.Announce?
    ensures var t := Step(cfg, s, e); t.board == s.board && (t.work == s.work || !t.work.Offering?)
  {
    hide Broadcast, Pairing.OfferOutcome, Pairing.OfferQueues, Pairing.ClearDevice;
  }

  lemma SessionStep(cfg: Pairing.Config, s: State, e: Event)
    requires Shaped(cfg, s) && BoardInv(s)
    requires e.Saved? || e.OfferEnds? || e.Solved?
    ensures BoardInv(Step(cfg, s, e))
  {
    hide Broadcast, EmptyQueues;
    match e
    case Saved(ok) =>
      if s.work.Saving? && s.work.job < |s.board.sessions| {
        FailOk(s.board.sessions[s.work.job], false);
      }
      hide Fail, SessionOk;
    case OfferEnds(verdict) =>
      if s.work.Offering? && s.work.examining && s.work.job < |s.board.sessions| {
        CommitOk(s.board.sessions[s.work.job], s.work.second, verdict);
      }
      hide Commit, SessionOk;
    case Solved(ok, late, rig) =>
      if s.work.Solving? && s.work.job < |s.board.sessions| {
        FailOk(s.board.sessions[s.work.job], false);
      }
      hide Fail;
  }

  lemma StepBoard(cfg: Pairing.Config, s: State, e: Event)
    requires Shaped(cfg, s) && BoardInv(s)
    ensures BoardInv(Step(cfg, s, e))
  {
    hide Broadcast, Fail, Commit;
    match e
    case Saved(_) => SessionStep(cfg, s, e);
    case OfferEnds(_) => SessionStep(cfg, s, e);
    case Solved(_, _, _) => SessionStep(cfg, s, e);
    case BoardPaired =>
    case OfferBegins =>
    case Concluded =>
    case RequestRegistration =>
    case ClearRegistration =>
      hide SessionOk;
      FailCurrentOk(s.(board := s.board.(cancelled := s.board.running)));
    case LoopEnds =>
      hide SessionOk;
      FailCurrentOk(s);
    case _ =>
      BoardUntouched(cfg, s, e);
      hide SessionOk, Step;
  }

  lemma {:induction false} ExecBoard(cfg: Pairing.Config, s: State, events: seq<Event>)
    requires Shaped(cfg, s) && BoardInv(s)
    ensures BoardInv(Exec(cfg, s, events))
    decreases |events|
  {
    hide Step, BoardInv;
    if events != [] {
      StepBoard(cfg, s, events[0]);
      ExecBoard(cfg, Step(cfg, s, events[0]), events[1..]);
    }
  }

  /** Over any run a failed or cancelled session installs no rig, except one that failed while a frame was being examined. */
  lemma NoInstallAfterFailure(cfg: Pairing.Config, calibration: Option<nat>, events: seq<Event>, i: nat)
    requires cfg.Valid() && i < |Run(cfg, calibration, events).board.sessions|
    ensures var x := Run(cfg, calibration, events).board.sessions[i];
            x.failedEarly && x.installed ==> x.raced
  {
    ExecBoard(cfg, Initial(cfg, calibration), events);
    hide Exec;
    assert SessionOk(Run(cfg, calibration, events).board.sessions[i]);
  }

  /** Only a step that finds a frame under examination can race: a cancel, or the loop's own timeout. */
  lemma RaceNeedsExamination(cfg: Pairing.Config, s: State, e: Event, i: nat)
    requires Shaped(cfg, s) && i < |s.board.sessions| && !s.board.sessions[i].raced
    ensures i < |Step(cfg, s, e).board.sessions|
    ensures Step(cfg, s, e).board.sessions[i].raced ==> MidOffer(s.work, i) && (e.ClearRegistration? || e.LoopEnds?)
  {
    hide Broadcast, Pairing.OfferOutcome, Pairing.OfferQueues, EmptyQueues, Pairing.ClearDevice;
  }

  /** The rig changes in one way only: a live session solved in time, that has not failed before unless it raced. */
  lemma RigChangesOnlyByInstall(cfg: Pairing.Config, s: State, e: Event)
    requires Shaped(cfg, s) && BoardInv(s) && Step(cfg, s, e).rig.calibration != s.rig.calibration
    ensures e.Solved? && e.ok && !e.late && s.work.Solving? && s.work.job < |s.board.sessions|
    ensures var x := s.board.sessions[s.work.job]; x.state == Validating && (x.failedEarly ==> x.raced)
    ensures Step(cfg, s, e).rig.calibration == Some(e.rig) && Step(cfg, s, e).rig.nextFrameId == s.rig.nextFrameId
  {
    hide Broadcast, Pairing.OfferOutcome, Pairing.OfferQueues, EmptyQueues, Pairing.ClearDevice;
  }

  lemma {:induction false} ExecAppend(cfg: Pairing.Config, s: State, a: seq<Event>, b: seq<Event>)
    requires Shaped(cfg, s)
    ensures Exec(cfg, s, a + b) == Exec(cfg, Exec(cfg, s, a), b)
    decreases |a|
  {
    hide Step;
    if a == [] {
      assert a + b == b;
    } else {
      assert (a + b)[1..] == a[1..] + b;
      ExecAppend(cfg, Step(cfg, s, a[0]), a[1..], b);
    }
  }

  lemma ExecCons(cfg: Pairing.Config, s: State, e: Event, rest: seq<Event>)
    requires Shaped(cfg, s)
    ensures Exec(cfg, s, [e] + rest) == Exec(cfg, Step(cfg, s, e), rest)
    ensures Exec(cfg, s, []) == s
  {
    hide Step;
    assert ([e] + rest)[1..] == rest;
  }

  lemma ExecTwo(cfg: Pairing.Config, s: State, e: Event, f: Event)
    requires Shaped(cfg, s)
    ensures Exec(cfg, s, [e, f]) == Step(cfg, Step(cfg, s, e), f)
  {
    hide Step, Exec;
    assert [e, f] == [e] + [f] && [f] == [f] + [];
    ExecCons(cfg, s, e, [f]);
    ExecCons(cfg, Step(cfg, s, e), f, []);
    ExecCons(cfg, Step(cfg, Step(cfg, s, e), f), f, []);
  }

  // --- the race is real --------------------------------------------------------------------------------------------------

  const PAIR_STARTS: seq<Event> := [BoardPaired, Saved(true), OfferBegins, OfferEnds(Accepted), OfferBegins]

  /** A session alone on the board with k accepted frames of each phone, and nobody holding the lock. */
  predicate AtRound(s: State, k: nat) {
    s.work == Idle && s.board.sessions == [Session(Collecting, k, k, false, false, false)]
  }

  // Single steps of a lone session, each on its own.

  lemma PairedToSaving(cfg: Pairing.Config, s: State, k: nat)
    requires Shaped(cfg, s) && AtRound(s, k)
    ensures Step(cfg, s, BoardPaired).work == Saving(0) && Step(cfg, s, BoardPaired).board == s.board
  {
  }

  lemma SavingToOffering(cfg: Pairing.Config, s: State)
    requires Shaped(cfg, s) && s.work == Saving(0) && |s.board.sessions| == 1
    ensures Step(cfg, s, Saved(true)).work == Offering(0, false, false) && Step(cfg, s, Saved(true)).board == s.board
  {
  }

  lemma OfferingToExamining(cfg: Pairing.Config, s: State, second: bool)
    requires Shaped(cfg, s) && s.work == Offering(0, second, false) && |s.board.sessions| == 1
    requires s.board.sessions[0].state == Collecting
    ensures Step(cfg, s, OfferBegins).work == Offering(0, second, true) && Step(cfg, s, OfferBegins).board == s.board
  {
  }

  lemma ExaminingToAccepted(cfg: Pairing.Config, s: State, second: bool)
    requires Shaped(cfg, s) && s.work == Offering(0, second, true) && |s.board.sessions| == 1
    ensures var t := Step(cfg, s, OfferEnds(Accepted));
            && t.work == (if second then Offered(0) else Offering(0, true, false))
            && t.board.sessions == [Commit(s.board.sessions[0], second, Accepted)]
  {
    hide Commit;
  }

  lemma OfferedToNext(cfg: Pairing.Config, s: State, i: nat)
    requires Shaped(cfg, s) && s.work == Offered(i) && i < |s.board.sessions|
    ensures var t := Step(cfg, s, Concluded);
            t.board == s.board && t.work == if s.board.sessions[i].state == Validating then Solving(i) else Idle
  {
    hide Broadcast;
  }

  lemma CancelWhileExamining(cfg: Pairing.Config, s: State)
    requires Shaped(cfg, s) && s.work == Offering(0, true, true) && |s.board.sessions| == 1
    ensures var t := Step(cfg, s, ClearRegistration);
            t.work == s.work && t.board.sessions == [Fail(s.board.sessions[0], true)]
  {
    hide Broadcast, Fail;
  }

  lemma SolvingToLive(cfg: Pairing.Config, s: State, i: nat, rig: nat)
    requires Shaped(cfg, s) && s.work == Solving(i) && i < |s.board.sessions| && s.board.sessions[i].state == Validating
    ensures var t := Step(cfg, s, Solved(true, false, rig));
            && t.rig.calibration == Some(rig)
            && t.board.sessions == s.board.sessions[i := s.board.sessions[i].(state := Ready, installed := true)]
  {
    hide Broadcast, EmptyQueues;
  }

  /** One more pair of frames, with the second still under examination. */
  lemma PairStarts(cfg: Pairing.Config, s: State, k: nat) returns (t: State)
    requires Shaped(cfg, s) && AtRound(s, k) && k < REQUIRED_OBSERVATIONS
    ensures Shaped(cfg, t) && t == Exec(cfg, s, PAIR_STARTS)
    ensures t.work == Offering(0, true, true) && t.board.sessions == [Session(Collecting, k + 1, k, false, false, false)]
  {
    hide Step, Exec, Shaped;
    var s1 := Step(cfg, s, BoardPaired);
    PairedToSaving(cfg, s, k);
    var s2 := Step(cfg, s1, Saved(true));
    SavingToOffering(cfg, s1);
    var s3 := Step(cfg, s2, OfferBegins);
    OfferingToExamining(cfg, s2, false);
    var s4 := Step(cfg, s3, OfferEnds(Accepted));
    ExaminingToAccepted(cfg, s3, false);
    t := Step(cfg, s4, OfferBegins);
    OfferingToExamining(cfg, s4, true);
    hide AtRound, Commit;
    FiveSteps(cfg, s);
  }

  lemma FiveSteps(cfg: Pairing.Config, s: State)
    requires Shaped(cfg, s)
    ensures Exec(cfg, s, PAIR_STARTS)
            == Step(cfg, Step(cfg, Step(cfg, Step(cfg, Step(cfg, s, BoardPaired), Saved(true)), OfferBegins), OfferEnds(Accepted)),
                    OfferBegins)
  {
    hide Step, Exec, Shaped;
    var s2 := Step(cfg, Step(cfg, s, BoardPaired), Saved(true));
    var s4 := Step(cfg, Step(cfg, s2, OfferBegins), OfferEnds(Accepted));
    assert PAIR_STARTS == [BoardPaired, Saved(true)] + [OfferBegins, OfferEnds(Accepted)] + ([OfferBegins] + []);
    ExecTwo(cfg, s, BoardPaired, Saved(true));
    ExecAppend(cfg, s, [BoardPaired, Saved(true)], [OfferBegins, OfferEnds(Accepted)]);
    ExecTwo(cfg, s2, OfferBegins, OfferEnds(Accepted));
    ExecAppend(cfg, s, [BoardPaired, Saved(true)] + [OfferBegins, OfferEnds(Accepted)], [OfferBegins] + []);
    ExecCons(cfg, s4, OfferBegins, []);
    ExecCons(cfg, Step(cfg, s4, OfferBegins), OfferBegins, []);
  }

  const ROUND: seq<Event> := PAIR_STARTS + [OfferEnds(Accepted), Concluded]

  lemma OneRound(cfg: Pairing.Config, s: State, k: nat)
    requires Shaped(cfg, s) && AtRound(s, k) && k + 1 < REQUIRED_OBSERVATIONS
    ensures AtRound(Exec(cfg, s, ROUND), k + 1)
  {
    hide Step, Exec, Shaped;
    var t := PairStarts(cfg, s, k);
    var u := Step(cfg, t, OfferEnds(Accepted));
    ExaminingToAccepted(cfg, t, true);
    OfferedToNext(cfg, u, 0);
    assert AtRound(Step(cfg, u, Concluded), k + 1);
    hide AtRound, Commit;
    ExecAppend(cfg, s, PAIR_STARTS, [OfferEnds(Accepted), Concluded]);
    ExecTwo(cfg, t, OfferEnds(Accepted), Concluded);
  }

  function Rounds(n: nat): seq<Event> {
    if n == 0 then [RequestRegistration] else Rounds(n - 1) + ROUND
  }

  lemma FirstRound(cfg: Pairing.Config)
    requires cfg.Valid()
    ensures AtRound(Exec(cfg, Initial(cfg, None), [RequestRegistration]), 0)
  {
    var s := Initial(cfg, None);
    var t := Step(cfg, s, RequestRegistration);
    assert AtRound(t, 0);
    hide Step, Exec, AtRound;
    assert [RequestRegistration] == [RequestRegistration] + [];
    ExecCons(cfg, s, RequestRegistration, []);
    ExecCons(cfg, t, RequestRegistration, []);
  }

  lemma RoundsUnfold(cfg: Pairing.Config, n: nat)
    requires cfg.Valid()
    ensures Shaped(cfg, Initial(cfg, None))
    ensures Run(cfg, None, Rounds(n)) == Exec(cfg, Initial(cfg, None), Rounds(n))
    ensures n == 0 ==> Rounds(n) == [RequestRegistration]
    ensures n > 0 ==> Rounds(n) == Rounds(n - 1) + ROUND
  {
    hide Exec;
  }

  lemma {:induction false} AfterRounds(cfg: Pairing.Config, n: nat)
    requires cfg.Valid() && n < REQUIRED_OBSERVATIONS
    ensures AtRound(Run(cfg, None, Rounds(n)), n)
  {
    hide Step, Exec, Shaped, Initial, Run, Rounds, AtRound;
    RoundsUnfold(cfg, n);
    if n == 0 {
      FirstRound(cfg);
    } else {
      AfterRounds(cfg, n - 1);
      RoundsUnfold(cfg, n - 1);
      ExecAppend(cfg, Initial(cfg, None), Rounds(n - 1), ROUND);
      OneRound(cfg, Run(cfg, None, Rounds(n - 1)), n - 1);
    }
  }

  /** The cancel lands while the 24th frame is examined; accepting it revives the session, and its rig goes live. */
  const RACE: seq<Event> := [ClearRegistration, OfferEnds(Accepted), Concluded, Solved(true, false, 7)]

  lemma RaceInstalls(cfg: Pairing.Config, t: State)
    requires Shaped(cfg, t) && t.work == Offering(0, true, true)
    requires t.board.sessions == [Session(Collecting, REQUIRED_OBSERVATIONS, REQUIRED_OBSERVATIONS - 1, false, false, false)]
    ensures var u := Exec(cfg, t, RACE);
            u.rig.calibration == Some(7) && |u.board.sessions| == 1 && u.board.sessions[0].failedEarly && u.board.sessions[0].installed
  {
    hide Step, Exec, Shaped;
    var s1 := Step(cfg, t, ClearRegistration);
    CancelWhileExamining(cfg, t);
    var s2 := Step(cfg, s1, OfferEnds(Accepted));
    ExaminingToAccepted(cfg, s1, true);
    assert s2.board.sessions[0].state == Validating;
    var s3 := Step(cfg, s2, Concluded);
    OfferedToNext(cfg, s2, 0);
    SolvingToLive(cfg, s3, 0, 7);
    hide Fail, Commit;
    assert RACE == [ClearRegistration, OfferEnds(Accepted)] + [Concluded, Solved(true, false, 7)];
    ExecTwo(cfg, t, ClearRegistration, OfferEnds(Accepted));
    ExecAppend(cfg, t, [ClearRegistration, OfferEnds(Accepted)], [Concluded, Solved(true, false, 7)]);
    ExecTwo(cfg, s2, Concluded, Solved(true, false, 7));
  }

  /** So the promise fails as stated: a run from the start in which a cancelled session installs its rig. */
  lemma CancelledSessionCanInstall(cfg: Pairing.Config)
    requires cfg.Valid()
    ensures var u := Run(cfg, None, Rounds(REQUIRED_OBSERVATIONS - 1) + PAIR_STARTS + RACE);
            u.rig.calibration == Some(7) && |u.board.sessions| == 1 && u.board.sessions[0].failedEarly && u.board.sessions[0].installed
  {
    var k := REQUIRED_OBSERVATIONS - 1;
    hide Exec, Rounds, AtRound, Step;
    AfterRounds(cfg, k);
    var s := Run(cfg, None, Rounds(k));
    var t := PairStarts(cfg, s, k);
    RaceInstalls(cfg, t);
    ExecAppend(cfg, Initial(cfg, None), Rounds(k), PAIR_STARTS);
    ExecAppend(cfg, Initial(cfg, None), Rounds(k) + PAIR_STARTS, RACE);
  }

  /** Left alone, twelve accepted frames of each phone and a rig solved in time put that rig in force. */
  lemma SessionInstalls(cfg: Pairing.Config, rig: nat)
    requires cfg.Valid()
    ensures var finish := [OfferEnds(Accepted), Concluded, Solved(true, false, rig)];
            var u := Run(cfg, None, Rounds(REQUIRED_OBSERVATIONS - 1) + PAIR_STARTS + finish);
            && u.rig.calibration == Some(rig)
            && u.board.sessions == [Session(Ready, REQUIRED_OBSERVATIONS, REQUIRED_OBSERVATIONS, false, false, true)]
  {
    var k, finish := REQUIRED_OBSERVATIONS - 1, [OfferEnds(Accepted), Concluded, Solved(true, false, rig)];
    hide Exec, Rounds, AtRound, Step;
    AfterRounds(cfg, k);
    var s := Run(cfg, None, Rounds(k));
    var t := PairStarts(cfg, s, k);
    var t1 := Step(cfg, t, OfferEnds(Accepted));
    ExaminingToAccepted(cfg, t, true);
    var t2 := Step(cfg, t1, Concluded);
    OfferedToNext(cfg, t1, 0);
    SolvingToLive(cfg, t2, 0, rig);
    ExecAppend(cfg, Initial(cfg, None), Rounds(k), PAIR_STARTS);
    ExecAppend(cfg, Initial(cfg, None), Rounds(k) + PAIR_STARTS, finish);
    assert finish == [OfferEnds(Accepted)] + [Concluded, Solved(true, false, rig)];
    ExecCons(cfg, t, OfferEnds(Accepted), [Concluded, Solved(true, false, rig)]);
    ExecTwo(cfg, t1, Concluded, Solved(true, false, rig));
  }

  // --- exactly when a failure can be overwritten ---------------------------------------------------------------------

  /** One more accepted frame of that phone completes both counts. */
  predicate Completes(x: Session, second: bool) {
    if second then x.second == REQUIRED_OBSERVATIONS - 1 && x.first >= REQUIRED_OBSERVATIONS
    else x.first == REQUIRED_OBSERVATIONS - 1 && x.second >= REQUIRED_OBSERVATIONS
  }

  predicate Revivable(s: State, i: nat)
    requires i < |s.board.sessions|
  {
    MidOffer(s.work, i) && Completes(s.board.sessions[i], s.work.second)
  }

  /** Failed without having gone live, and nothing under examination can change that. */
  predicate Dead(s: State, i: nat) {
    i < |s.board.sessions| && s.board.sessions[i].state == Failed && !s.board.sessions[i].installed && !Revivable(s, i)
  }

  /** A step that leaves a session's counts alone, fails nothing back to life and starts no examination of it. */
  predicate Inert(s: State, t: State, i: nat)
    requires i < |s.board.sessions|
  {
    && i < |t.board.sessions|
    && (t.board.sessions[i] == s.board.sessions[i] || exists m :: t.board.sessions[i] == Fail(s.board.sessions[i], m))
    && (t.work == s.work || !MidOffer(t.work, i))
  }

  lemma InertKeepsDead(s: State, t: State, i: nat)
    requires Dead(s, i) && Inert(s, t, i)
    ensures Dead(t, i)
  {
  }

  lemma FailCurrentInert(s: State, i: nat)
    requires i < |s.board.sessions|
    ensures Inert(s, FailCurrent(s), i)
  {
    var n := |s.board.sessions|;
    assert FailCurrent(s).board.sessions[n - 1] == Fail(s.board.sessions[n - 1], MidOffer(s.work, n - 1));
    hide Fail;
  }

  lemma StepInert(cfg: Pairing.Config, s: State, e: Event, i: nat)
    requires Shaped(cfg, s) && i < |s.board.sessions| && s.board.sessions[i].state == Failed && !e.OfferEnds?
    ensures Inert(s, Step(cfg, s, e), i)
  {
    hide Broadcast, Fail, Commit, EmptyQueues;
    match e
    case ClearRegistration => FailCurrentInert(s.(board := s.board.(cancelled := s.board.running)), i);
    case LoopEnds => FailCurrentInert(s, i);
    case Saved(_) =>
    case Solved(_, _, _) =>
    case BoardPaired =>
    case OfferBegins =>
    case Concluded =>
    case RequestRegistration =>
    case _ =>
      BoardUntouched(cfg, s, e);
      hide Step;
  }

  /** A verdict that does not complete the counts leaves the session failed, and nothing of it is examined then. */
  lemma VerdictKeepsDead(s: State, verdict: Verdict, i: nat)
    requires Dead(s, i)
    ensures Dead(OfferEndsStep(s, verdict), i)
  {
    if MidOffer(s.work, i) {
      CommitRevives(s.board.sessions[i], s.work.second, verdict);
    }
  }

  lemma StepKeepsDead(cfg: Pairing.Config, s: State, e: Event, i: nat)
    requires Shaped(cfg, s) && Dead(s, i)
    ensures Dead(Step(cfg, s, e), i)
  {
    if e.OfferEnds? {
      hide Dead, OfferEndsStep;
      VerdictKeepsDead(s, e.verdict, i);
    } else {
      hide Step, Inert, Revivable;
      StepInert(cfg, s, e, i);
      InertKeepsDead(s, Step(cfg, s, e), i);
    }
  }

  lemma {:induction false} ExecKeepsDead(cfg: Pairing.Config, s: State, events: seq<Event>, i: nat)
    requires Shaped(cfg, s) && Dead(s, i)
    ensures Dead(Exec(cfg, s, events), i)
    decreases |events|
  {
    hide Step, Dead;
    if events != [] {
      StepKeepsDead(cfg, s, events[0], i);
      ExecKeepsDead(cfg, Step(cfg, s, events[0]), events[1..], i);
    }
  }

  lemma RevivingVerdict(cfg: Pairing.Config, s: State, i: nat)
    requires Shaped(cfg, s) && i < |s.board.sessions| && Revivable(s, i)
    ensures var t := Step(cfg, s, OfferEnds(Accepted));
            && i < |t.board.sessions| && t.board.sessions[i].state == Validating
            && t.work == if s.work.second then Offered(i) else Offering(i, true, false)
  {
  }

  lemma PassedOver(cfg: Pairing.Config, s: State, i: nat)
    requires Shaped(cfg, s) && i < |s.board.sessions| && s.work == Offering(i, true, false)
    requires s.board.sessions[i].state == Validating
    ensures Step(cfg, s, OfferBegins).work == Offered(i) && Step(cfg, s, OfferBegins).board == s.board
  {
  }

  /** Some continuation makes the session's rig the active one. */
  ghost predicate CanInstall(cfg: Pairing.Config, s: State, i: nat)
    requires Shaped(cfg, s)
  {
    exists events :: Installs(cfg, s, events, i)
  }

  predicate Installs(cfg: Pairing.Config, s: State, events: seq<Event>, i: nat)
    requires Shaped(cfg, s)
  {
    var t := Exec(cfg, s, events);
    i < |t.board.sessions| && t.board.sessions[i].installed
  }

  lemma OfferedInstalls(cfg: Pairing.Config, s: State, i: nat)
    requires Shaped(cfg, s) && s.work == Offered(i) && i < |s.board.sessions| && s.board.sessions[i].state == Validating
    ensures Installs(cfg, s, [Concluded, Solved(true, false, 0)], i)
  {
    hide Step, Exec, Shaped;
    var t := Step(cfg, s, Concluded);
    OfferedToNext(cfg, s, i);
    SolvingToLive(cfg, t, i, 0);
    ExecTwo(cfg, s, Concluded, Solved(true, false, 0));
  }

  lemma RevivableInstalls(cfg: Pairing.Config, s: State, i: nat)
    requires Shaped(cfg, s) && i < |s.board.sessions| && Revivable(s, i)
    ensures CanInstall(cfg, s, i)
  {
    hide Step, Exec, Shaped;
    var rest := [Concluded, Solved(true, false, 0)];
    var t := Step(cfg, s, OfferEnds(Accepted));
    RevivingVerdict(cfg, s, i);
    ExecCons(cfg, s, OfferEnds(Accepted), rest);
    if s.work.second {
      OfferedInstalls(cfg, t, i);
      assert Installs(cfg, s, [OfferEnds(Accepted)] + rest, i);
    } else {
      PassedOver(cfg, t, i);
      OfferedInstalls(cfg, Step(cfg, t, OfferBegins), i);
      ExecCons(cfg, t, OfferBegins, rest);
      ExecCons(cfg, s, OfferEnds(Accepted), [OfferBegins] + rest);
      assert Installs(cfg, s, [OfferEnds(Accepted)] + ([OfferBegins] + rest), i);
    }
  }

  /**
   * From any state, a failed session that is not live can still go live exactly when a frame of it under examination would
   * complete both counts.
   */
  lemma FailedCanInstall(cfg: Pairing.Config, s: State, i: nat)
    requires Shaped(cfg, s) && i < |s.board.sessions| && s.board.sessions[i].state == Failed && !s.board.sessions[i].installed
    ensures CanInstall(cfg, s, i) <==> Revivable(s, i)
  {
    hide Revivable, Exec, Shaped;
    if Revivable(s, i) {
      RevivableInstalls(cfg, s, i);
    } else if CanInstall(cfg, s, i) {
      var events :| Installs(cfg, s, events, i);
      ExecKeepsDead(cfg, s, events, i);
    }
  }

  /** So a cancel or timeout is overwritten by some continuation exactly when it lands during that examination. */
  lemma CancelCanBeOverwritten(cfg: Pairing.Config, s: State, e: Event, i: nat)
    requires Shaped(cfg, s) && i < |s.board.sessions| && !s.board.sessions[i].installed && (e.ClearRegistration? || e.LoopEnds?)
    requires i < |Step(cfg, s, e).board.sessions| && Step(cfg, s, e).board.sessions[i].state == Failed
    ensures CanInstall(cfg, Step(cfg, s, e), i) <==> Revivable(s, i)
  {
    CancelKeepsCounts(cfg, s, e, i);
    hide Step, CanInstall;
    FailedCanInstall(cfg, Step(cfg, s, e), i);
  }

  lemma CancelKeepsCounts(cfg: Pairing.Config, s: State, e: Event, i: nat)
    requires Shaped(cfg, s) && i < |s.board.sessions| && (e.ClearRegistration? || e.LoopEnds?)
    ensures var t := Step(cfg, s, e);
            && t.work == s.work && i < |t.board.sessions| && t.board.sessions[i].first == s.board.sessions[i].first
            && t.board.sessions[i].second == s.board.sessions[i].second && t.board.sessions[i].installed == s.board.sessions[i].installed
  {
    hide Broadcast;
  }
}
