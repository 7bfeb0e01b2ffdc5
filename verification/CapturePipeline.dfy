/** What the capture actor promises over whole runs, whatever order its segments take. */
module CapturePipeline {
  import opened Wrappers
  import opened CaptureQueue
  import opened Subsequences
  import opened PipelineSteps
  import opened PipelineInvariant

  // --- whole runs --------------------------------------------------------------------------------------------------------

  datatype Event =
    | SubmitEvent(source: Source, spanStarted: bool)
    | ClearEvent
    | ResumeEvent(task: nat, ok: bool)

  /** One atomic segment. Resuming a task that does not exist is no step at all. */
  function Step(s: State, e: Event, encodes: Source -> bool): State
    requires Inv(s)
  {
    match e
    case SubmitEvent(source, spanStarted) => Submit(s, source, spanStarted)
    case ClearEvent => Clear(s)
    case ResumeEvent(i, ok) =>
      if i < |s.tasks| then
        ResumeKeeps(s, i, ok, encodes);
        Resume(s, i, ok, encodes)
      else s
  }

  lemma StepKeeps(s: State, e: Event, encodes: Source -> bool)
    requires Inv(s)
    ensures Inv(Step(s, e, encodes))
  {
    hide Inv, Submit, Clear, Resume;
    match e
    case SubmitEvent(source, spanStarted) => SubmitKeeps(s, source, spanStarted);
    case ClearEvent => ClearKeeps(s);
    case ResumeEvent(i, ok) =>
      if i < |s.tasks| {
        ResumeKeeps(s, i, ok, encodes);
      }
  }

  /** The state after any interleaving of submits, clears and task resumptions. */
  function Run(events: seq<Event>, encodes: Source -> bool): (s: State)
    ensures Inv(s)
  {
    if events == [] then
      InitialHolds();
      INITIAL
    else
      var s := Run(events[..|events| - 1], encodes);
      StepKeeps(s, events[|events| - 1], encodes);
      Step(s, events[|events| - 1], encodes)
  }

  /** No lost wakeup: after any run, frames waiting means exactly one drain task exists to take them. */
  lemma NoLostWakeup(events: seq<Event>, encodes: Source -> bool)
    ensures var s := Run(events, encodes);
            && |s.tasks| <= 1
            && (s.draining <==> |s.tasks| == 1)
            && (s.Queued() != [] ==> |s.tasks| == 1)
  {
  }

  /** Every submitted frame is in exactly one class, and the published totals are the sizes of theirs. */
  lemma EveryFrameAccounted(events: seq<Event>, encodes: Source -> bool)
    ensures var s := Run(events, encodes);
            && multiset(s.hist.submitted) == Accounted(s)
            && s.sentFrames == Wrap(|s.hist.sent|)
            && s.droppedLiveFrames == Wrap(|s.hist.superseded|)
            && (s.tasks == [] ==> multiset(s.hist.submitted) == Finished(s.hist))
  {
    var s := Run(events, encodes);
    hide Finished;
    if s.tasks == [] {
      assert s.Queued() == [];
    }
  }

  /** Sends are issued in submission order, for snapshots and for live frames. */
  lemma IssuedInSubmissionOrder(events: seq<Event>, encodes: Source -> bool)
    ensures var s := Run(events, encodes);
            && IsSubsequence(Select(s.hist.issued, IsSnapshot), Select(s.hist.submitted, IsSnapshot))
            && IsSubsequence(Select(s.hist.issued, IsLive), Select(s.hist.submitted, IsLive))
  {
    var s := Run(events, encodes);
    hide Run, IsSubsequence, Select;
    var h := s.hist;
    Prefix(h.issued + SavingSource(s.tasks), |h.issued|, h.dequeued);
    assert (h.issued + SavingSource(s.tasks))[..|h.issued|] == h.issued;
    SelectSubsequence(h.issued, h.dequeued, IsSnapshot);
    SelectSubsequence(h.issued, h.dequeued, IsLive);
    var snaps, lives := Select(h.dequeued, IsSnapshot), Select(h.dequeued, IsLive);
    Prefix(snaps + s.snapshots, |snaps|, Select(h.submitted, IsSnapshot));
    assert (snaps + s.snapshots)[..|snaps|] == snaps;
    Prefix(lives + LiveAsSeq(s.live), |lives|, Select(h.submitted, IsLive));
    assert (lives + LiveAsSeq(s.live))[..|lives|] == lives;
    Transitive(Select(h.issued, IsSnapshot), snaps, Select(h.submitted, IsSnapshot));
    Transitive(Select(h.issued, IsLive), lives, Select(h.submitted, IsLive));
  }

  // --- clears and sends -----------------------------------------------------------------------------------------------------

  lemma WrapSmall(n: nat)
    requires n < UINT64 && Wrap(n) == 0
    ensures n == 0
  {
  }

  /** After any run with fewer than 2^64 clears, no send was issued for a frame dequeued before a later clear. */
  lemma NoSendAfterClear(events: seq<Event>, encodes: Source -> bool)
    requires Run(events, encodes).hist.clears < UINT64
    ensures var h := Run(events, encodes).hist;
            |h.lags| == |h.issued| && forall i | 0 <= i < |h.lags| :: h.lags[i] == 0
  {
    var h := Run(events, encodes).hist;
    hide Run, Wrap;
    forall i | 0 <= i < |h.lags|
      ensures h.lags[i] == 0
    {
      WrapSmall(h.lags[i]);
    }
  }

  /**
   * The guard, exactly: a finished save is sent on precisely when the number of clears since its dequeue is a
   * multiple of 2^64, and otherwise fails.
   */
  lemma GuardIsExact(s: State, encodes: Source -> bool)
    requires Inv(s) && |s.tasks| == 1 && s.tasks[0].Saving?
    ensures var task, r := s.tasks[0], s.(tasks := []).Publish();
            && task.since <= s.hist.clears
            && Step(s, ResumeEvent(0, true), encodes)
               == if (s.hist.clears - task.since) % UINT64 == 0 then Issue(r, task.source, task.since)
                  else DrainLoop(Fail(r, task.source), encodes)
  {
    SaveEpoch(s);
    hide Inv, DrainLoop;
    assert s.tasks[..0] + s.tasks[1..] == [];
  }

  lemma RunAppend(events: seq<Event>, e: Event, encodes: Source -> bool)
    ensures Run(events + [e], encodes) == Step(Run(events, encodes), e, encodes)
  {
    hide Inv, Step;
    assert (events + [e])[..|events|] == events;
  }

  function Clears(n: nat): seq<Event> {
    if n == 0 then [] else Clears(n - 1) + [ClearEvent]
  }

  /** Clears leave the tasks and the sends already issued alone. */
  predicate OnlyCleared(s: State, t: State, n: nat) {
    t.tasks == s.tasks && t.hist.issued == s.hist.issued && t.hist.lags == s.hist.lags && t.hist.clears == s.hist.clears + n
  }

  lemma {:induction false} ClearsDuringSave(start: seq<Event>, n: nat, encodes: Source -> bool)
    ensures OnlyCleared(Run(start, encodes), Run(start + Clears(n), encodes), n)
  {
    hide Run, Inv, Wrap, Ids;
    if n == 0 {
      assert start + [] == start;
    } else {
      ClearsDuringSave(start, n - 1, encodes);
      RunAppend(start + Clears(n - 1), ClearEvent, encodes);
      assert start + Clears(n) == start + Clears(n - 1) + [ClearEvent];
    }
  }

  const STALE: Source := Source(7, Snapshot)
  const STALE_START: seq<Event> := [SubmitEvent(STALE, false), ResumeEvent(0, true)]

  lemma StaleSubmitted(encodes: Source -> bool)
    ensures var s := Submit(INITIAL, STALE, false);
            && s.snapshots == [STALE] && s.live == None && s.tasks == [Spawned] && s.epoch == 0
            && s.hist.issued == [] && s.hist.lags == [] && s.hist.clears == 0
            && Run([SubmitEvent(STALE, false)], encodes) == s
  {
    hide Inv;
    var first := [SubmitEvent(STALE, false)];
    assert first == [] + [SubmitEvent(STALE, false)];
    RunAppend([], SubmitEvent(STALE, false), encodes);
  }

  lemma StaleSaving(encodes: Source -> bool)
    requires encodes(STALE)
    ensures var s := Run(STALE_START, encodes);
            s.tasks == [Saving(STALE, 0, 0)] && s.hist.issued == [] && s.hist.lags == [] && s.hist.clears == 0
  {
    hide Inv, Run;
    StaleSubmitted(encodes);
    RunAppend([SubmitEvent(STALE, false)], ResumeEvent(0, true), encodes);
    assert STALE_START == [SubmitEvent(STALE, false)] + [ResumeEvent(0, true)];
    var one := Submit(INITIAL, STALE, false);
    hide Submit;
    var r := one.(tasks := one.tasks[..0] + one.tasks[1..]);
    assert r.tasks == [];
    assert DrainLoop(r, encodes).tasks == [Saving(STALE, 0, 0)];
  }

  /** So the bound on clears cannot be dropped: exactly 2^64 clears during one save let a stale snapshot through. */
  lemma StaleSendAfterWrap(encodes: Source -> bool)
    requires encodes(STALE)
    ensures var h := Run(STALE_START + Clears(UINT64) + [ResumeEvent(0, true)], encodes).hist;
            h.issued == [STALE] && h.lags == [UINT64]
  {
    hide Run, Inv, DrainLoop, Clears, Wrap, Step;
    StaleSaving(encodes);
    ClearsDuringSave(STALE_START, UINT64, encodes);
    var before := STALE_START + Clears(UINT64);
    RunAppend(before, ResumeEvent(0, true), encodes);
    GuardIsExact(Run(before, encodes), encodes);
  }

  // --- progress ----------------------------------------------------------------------------------------------------------------

  /** An upper bound on the resumptions still needed to empty the pipeline. */
  function Work(s: State): nat {
    3 * s.Count() + (if s.tasks == [] then 0 else if s.tasks[0].Saving? then 2 else 1)
  }

  lemma {:induction false} DrainLoopWork(s: State, encodes: Source -> bool)
    requires s.tasks == []
    ensures Work(DrainLoop(s, encodes)) <= 3 * s.Count()
    decreases s.Count()
  {
    if !s.QueueEmpty() && !encodes(Next(s)) {
      DrainLoopWork(Fail(Dequeue(s), Next(s)), encodes);
    }
  }

  /** Every resumption is progress. */
  lemma ResumeProgress(s: State, ok: bool, encodes: Source -> bool)
    requires Inv(s) && s.tasks != []
    ensures Work(Step(s, ResumeEvent(0, ok), encodes)) < Work(s)
  {
    hide Inv, Resume, Work;
    SingleTask(s);
    ResumeKeeps(s, 0, ok, encodes);
    ResumeWork(s, ok, encodes);
  }

  lemma SingleTask(s: State)
    requires Inv(s) && s.tasks != []
    ensures |s.tasks| == 1
  {
  }

  lemma ResumeWork(s: State, ok: bool, encodes: Source -> bool)
    requires |s.tasks| == 1 && (s.tasks[0].Saving? ==> s.tasks[0].since <= s.hist.clears)
    ensures Work(Resume(s, 0, ok, encodes)) < Work(s)
  {
    var r := s.(tasks := s.tasks[..0] + s.tasks[1..]);
    assert r.tasks == [];
    hide Wrap, DrainLoop;
    match s.tasks[0]
    case Spawned =>
      DrainLoopWork(r, encodes);
    case Sending(source) =>
      DrainLoopWork(if ok then SendDone(r, source) else Fail(r, source), encodes);
    case Saving(source, sourceEpoch, since) =>
      DrainLoopWork(if ok then Fail(r.Publish(), source) else Fail(r, source), encodes);
  }

  function Resumptions(oks: seq<bool>): seq<Event> {
    seq(|oks|, i requires 0 <= i < |oks| => ResumeEvent(0, oks[i]))
  }

  lemma NoWorkIsIdle(s: State)
    requires Inv(s)
    ensures Work(s) == 0 <==> s.tasks == []
    ensures s.tasks == [] ==> !s.draining && s.Queued() == []
  {
    hide Accounted, Counted, DepthPublished, SpansQueued, InOrder, EpochGuarded;
  }

  lemma ResumptionLowers(events: seq<Event>, ok: bool, encodes: Source -> bool)
    ensures var s, t := Run(events, encodes), Run(events + [ResumeEvent(0, ok)], encodes);
            Work(t) < Work(s) || Work(t) == 0
  {
    RunAppend(events, ResumeEvent(0, ok), encodes);
    var s := Run(events, encodes);
    NoWorkIsIdle(s);
    hide Run, Work, Inv, Resume;
    if s.tasks != [] {
      ResumeProgress(s, ok, encodes);
    }
  }

  /**
   * So after any run at all, Work(s) resumptions without a new submission, whatever they report, end the drain task, with
   * nothing waiting or in flight and every frame submitted finished.
   */
  lemma {:induction false} DrainEnds(events: seq<Event>, oks: seq<bool>, encodes: Source -> bool)
    requires |oks| >= Work(Run(events, encodes))
    ensures var t := Run(events + Resumptions(oks), encodes);
            t.tasks == [] && !t.draining && t.Queued() == [] && multiset(t.hist.submitted) == Finished(t.hist)
    decreases |oks|
  {
    hide Run, Work, Inv, Finished, Accounted;
    if oks == [] {
      assert events + Resumptions(oks) == events;
      NoWorkIsIdle(Run(events, encodes));
      EveryFrameAccounted(events, encodes);
    } else {
      var e := ResumeEvent(0, oks[0]);
      assert events + Resumptions(oks) == (events + [e]) + Resumptions(oks[1..]);
      ResumptionLowers(events, oks[0], encodes);
      DrainEnds(events + [e], oks[1..], encodes);
    }
  }
}
