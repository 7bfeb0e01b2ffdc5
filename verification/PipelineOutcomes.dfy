/** What each segment of the capture actor does to the frames: which class every outcome puts a frame in. */
module PipelineOutcomes {
  import opened Wrappers
  import opened CaptureQueue
  import opened PipelineSteps
  import opened PipelineInvariant
  import opened CapturePipeline

  // --- the drain loop ------------------------------------------------------------------------------------------

  /** Everything but the queue, the task and the records of dequeuing, failing and issuing. */
  predicate OthersKept(s: State, t: State) {
    && t.epoch == s.epoch && t.sentFrames == s.sentFrames && t.droppedLiveFrames == s.droppedLiveFrames
    && t.hist.submitted == s.hist.submitted && t.hist.rejected == s.hist.rejected && t.hist.superseded == s.hist.superseded
    && t.hist.cleared == s.hist.cleared && t.hist.sent == s.hist.sent && t.hist.clears == s.hist.clears
  }

  /** The first k waiting sources were taken, in order, and all of them but perhaps the last could not be encoded. */
  predicate Took(s: State, t: State, k: nat, encodes: Source -> bool) {
    var q := s.Queued();
    && k <= |q| && t.Queued() == q[k..] && t.hist.dequeued == s.hist.dequeued + q[..k]
    && t.waitSpans == s.waitSpans - Ids(q[..k])
    && forall i | 0 <= i < k - 1 :: !encodes(q[i])
  }

  /** All waiting sources failed to encode, and the task is over. */
  predicate RanDry(s: State, t: State, k: nat, encodes: Source -> bool) {
    var q := s.Queued();
    && k == |q| && (k > 0 ==> !encodes(q[k - 1])) && t.hist.failed == s.hist.failed + q
    && t.tasks == [] && !t.draining && t.hist.issued == s.hist.issued
  }

  /** The last source taken encodes: a snapshot is being saved, a live frame is being sent. */
  predicate Suspended(s: State, t: State, k: nat, encodes: Source -> bool)
    requires k <= |s.Queued()|
  {
    var q := s.Queued();
    && k > 0 && encodes(q[k - 1]) && t.hist.failed == s.hist.failed + q[..k - 1] && t.draining == s.draining
    && (if q[k - 1].mode.Snapshot?
        then t.tasks == [Saving(q[k - 1], s.epoch, s.hist.clears)] && t.hist.issued == s.hist.issued
        else t.tasks == [Sending(q[k - 1])] && t.hist.issued == s.hist.issued + [q[k - 1]])
  }

  lemma DequeueTakesFirst(s: State)
    requires !s.QueueEmpty()
    ensures var t := Dequeue(s);
            && s.Queued() == [Next(s)] + t.Queued() && OthersKept(s, t) && t.tasks == s.tasks && t.draining == s.draining
            && t.hist.dequeued == s.hist.dequeued + [Next(s)] && t.hist.failed == s.hist.failed && t.hist.issued == s.hist.issued
            && t.waitSpans == s.waitSpans - {Next(s).captureId}
  {
  }

  lemma IdsCons(x: Source, rest: seq<Source>)
    ensures Ids([x] + rest) == {x.captureId} + Ids(rest)
  {
    forall id
      ensures id in Ids([x] + rest) <==> id in {x.captureId} + Ids(rest)
    {
      if id in Ids(rest) {
        var i :| 0 <= i < |rest| && rest[i].captureId == id;
        assert ([x] + rest)[i + 1].captureId == id;
      }
      assert ([x] + rest)[0] == x;
      if id in Ids([x] + rest) {
        var i :| 0 <= i < |[x] + rest| && ([x] + rest)[i].captureId == id;
        assert i > 0 ==> rest[i - 1].captureId == id;
      }
    }
  }

  /** The loop takes sources in queue order until one encodes or none is left. */
  lemma {:induction false} DrainLoopTakes(s: State, encodes: Source -> bool) returns (k: nat)
    requires s.tasks == []
    ensures var t := DrainLoop(s, encodes);
            OthersKept(s, t) && Took(s, t, k, encodes) && (RanDry(s, t, k, encodes) || Suspended(s, t, k, encodes))
    decreases s.Count()
  {
    hide Ids, Wrap;
    var q := s.Queued();
    if s.QueueEmpty() {
      k := 0;
      assert Ids([]) == {} by { NoIds(); }
      assert q[..0] == [] && q[0..] == q;
    } else {
      var source, d := Next(s), Dequeue(s);
      DequeueTakesFirst(s);
      IdsCons(source, []);
      NoIds();
      if encodes(source) {
        k := 1;
        assert q[..1] == [source] && q[1..] == d.Queued() && q[..0] == [];
        assert [source] + [] == [source];
      } else {
        var f := Fail(d, source);
        k := DrainLoopTakes(f, encodes);
        assert f.Queued() == d.Queued() == q[1..];
        IdsCons(source, q[1..][..k]);
        hide DrainLoop, Dequeue, Fail, State.Queued;
        AfterFailure(s, f, DrainLoop(f, encodes), k, encodes);
        k := k + 1;
      }
    }
  }

  lemma NoIds()
    ensures Ids([]) == {}
  {
  }

  lemma AfterFailure(s: State, f: State, t: State, k: nat, encodes: Source -> bool)
    requires s.Queued() != [] && f.Queued() == s.Queued()[1..] && !encodes(s.Queued()[0])
    requires OthersKept(s, f) && f.draining == s.draining && f.hist.issued == s.hist.issued
    requires f.hist.dequeued == s.hist.dequeued + [s.Queued()[0]] && f.hist.failed == s.hist.failed + [s.Queued()[0]]
    requires f.waitSpans == s.waitSpans - {s.Queued()[0].captureId}
    requires OthersKept(f, t) && Took(f, t, k, encodes) && (RanDry(f, t, k, encodes) || Suspended(f, t, k, encodes))
    ensures OthersKept(s, t) && Took(s, t, k + 1, encodes) && (RanDry(s, t, k + 1, encodes) || Suspended(s, t, k + 1, encodes))
  {
    hide State.Queued, Ids;
    var q, r := s.Queued(), f.Queued();
    IdsCons(q[0], r[..k]);
    assert q == [q[0]] + r;
    assert q[..k + 1] == [q[0]] + r[..k] && q[k + 1..] == r[k..];
    assert k > 0 ==> q[..k] == [q[0]] + r[..k - 1] && q[k] == r[k - 1];
    forall i | 0 <= i < k
      ensures !encodes(q[i])
    {
      assert i > 0 ==> q[i] == r[i - 1];
    }
  }

  // --- the outcome of each await ----------------------------------------------------------------------------------

  predicate DrainedBy(s: State, t: State, k: nat, encodes: Source -> bool) {
    Took(s, t, k, encodes) && (RanDry(s, t, k, encodes) || Suspended(s, t, k, encodes))
  }

  /** The task records the given failures and goes on with the queue, until a source encodes or none is left. */
  predicate GoesOn(s: State, failures: seq<Source>, t: State, encodes: Source -> bool) {
    exists k :: 0 <= k <= |s.Queued()| && DrainedBy(s.(hist := s.hist.(failed := s.hist.failed + failures)), t, k, encodes)
  }

  lemma LoopGoesOn(s: State, b: State, failures: seq<Source>, encodes: Source -> bool)
    requires b.tasks == [] && b.Queued() == s.Queued() && b.hist.dequeued == s.hist.dequeued && b.waitSpans == s.waitSpans
    requires b.hist.failed == s.hist.failed + failures && b.hist.issued == s.hist.issued && b.draining == s.draining
    requires b.epoch == s.epoch && b.hist.clears == s.hist.clears
    ensures GoesOn(s, failures, DrainLoop(b, encodes), encodes) && OthersKept(b, DrainLoop(b, encodes))
  {
    hide DrainLoop, Ids, State.Queued;
    var k := DrainLoopTakes(b, encodes);
    QueuedSame(s, failures);
    assert DrainedBy(s.(hist := s.hist.(failed := s.hist.failed + failures)), DrainLoop(b, encodes), k, encodes);
  }

  lemma QueuedSame(s: State, failures: seq<Source>)
    ensures s.(hist := s.hist.(failed := s.hist.failed + failures)).Queued() == s.Queued()
  {
  }

  lemma LoneTask(s: State, ok: bool, encodes: Source -> bool)
    requires Inv(s) && |s.tasks| == 1
    ensures s.tasks[0].Saving? ==> s.tasks[0].since <= s.hist.clears && s.tasks[0].sourceEpoch == Wrap(s.tasks[0].since)
    ensures Step(s, ResumeEvent(0, ok), encodes) == Resume(s, 0, ok, encodes)
    ensures s.tasks[..0] + s.tasks[1..] == []
  {
    hide Resume, Accounted, Counted, DepthPublished, SpansQueued, InOrder, OneDrainer;
  }

  lemma TaskEpoch(s: State)
    requires Inv(s) && |s.tasks| == 1
    ensures s.tasks[0].Saving? ==> s.tasks[0].since <= s.hist.clears
    ensures s.tasks[..0] + s.tasks[1..] == []
  {
    hide Accounted, Counted, DepthPublished, SpansQueued, InOrder, OneDrainer;
  }

  /** A finished send counts the frame sent, a failed one lists it as failed, and nothing else; then the loop goes on. */
  predicate SendEnds(s: State, source: Source, ok: bool, t: State, encodes: Source -> bool) {
    && t.sentFrames == (if ok then Wrap(s.sentFrames + 1) else s.sentFrames)
    && t.hist.sent == (if ok then s.hist.sent + [source] else s.hist.sent)
    && GoesOn(s, if ok then [] else [source], t, encodes)
    && t.hist.rejected == s.hist.rejected && t.hist.superseded == s.hist.superseded && t.hist.cleared == s.hist.cleared
  }

  lemma ResumedSend(s: State, ok: bool, encodes: Source -> bool)
    requires Inv(s) && |s.tasks| == 1 && s.tasks[0].Sending?
    ensures SendEnds(s, s.tasks[0].source, ok, Resume(s, 0, ok, encodes), encodes)
  {
    TaskEpoch(s);
    hide Inv, DrainLoop, Wrap, GoesOn, SendEnds;
    var r, source := s.(tasks := []), s.tasks[0].source;
    if ok {
      SentGoesOn(s, r, source, encodes);
    } else {
      UnsentGoesOn(s, r, source, encodes);
    }
  }

  lemma SentGoesOn(s: State, r: State, source: Source, encodes: Source -> bool)
    requires r == s.(tasks := [])
    ensures SendEnds(s, source, true, DrainLoop(SendDone(r, source), encodes), encodes)
  {
    hide DrainLoop, Wrap, GoesOn;
    assert s.hist.failed + [] == s.hist.failed;
    LoopGoesOn(s, SendDone(r, source), [], encodes);
  }

  lemma UnsentGoesOn(s: State, r: State, source: Source, encodes: Source -> bool)
    requires r == s.(tasks := [])
    ensures SendEnds(s, source, false, DrainLoop(Fail(r, source), encodes), encodes)
  {
    hide DrainLoop, Wrap, GoesOn;
    LoopGoesOn(s, Fail(r, source), [source], encodes);
  }

  lemma SendOutcome(s: State, ok: bool, encodes: Source -> bool)
    requires Inv(s) && |s.tasks| == 1 && s.tasks[0].Sending?
    ensures SendEnds(s, s.tasks[0].source, ok, Step(s, ResumeEvent(0, ok), encodes), encodes)
  {
    LoneTask(s, ok, encodes);
    hide Inv, Step, Resume, SendEnds;
    ResumedSend(s, ok, encodes);
  }

  /** A finished save whose epoch still stands issues the send at once; otherwise the snapshot fails and the loop goes on. */
  predicate SaveEnds(s: State, source: Source, passes: bool, t: State, encodes: Source -> bool) {
    && t.sentFrames == s.sentFrames && t.hist.sent == s.hist.sent
    && if passes
       then && t.tasks == [Sending(source)] && t.hist.issued == s.hist.issued + [source]
            && t.Queued() == s.Queued() && t.hist.failed == s.hist.failed && t.hist.dequeued == s.hist.dequeued
       else GoesOn(s, [source], t, encodes)
  }

  lemma ResumedSave(s: State, ok: bool, encodes: Source -> bool)
    requires Inv(s) && |s.tasks| == 1 && s.tasks[0].Saving?
    ensures s.tasks[0].since <= s.hist.clears
    ensures SaveEnds(s, s.tasks[0].source, ok && s.tasks[0].sourceEpoch == s.epoch, Resume(s, 0, ok, encodes), encodes)
  {
    TaskEpoch(s);
    hide Inv, DrainLoop, Wrap, GoesOn;
    var r, source := s.(tasks := []), s.tasks[0].source;
    if !ok {
      LoopGoesOn(s, Fail(r, source), [source], encodes);
    } else if s.tasks[0].sourceEpoch != s.epoch {
      LoopGoesOn(s, Fail(r.Publish(), source), [source], encodes);
    }
  }

  lemma SaveOutcome(s: State, ok: bool, encodes: Source -> bool)
    requires Inv(s) && |s.tasks| == 1 && s.tasks[0].Saving?
    ensures SaveEnds(s, s.tasks[0].source, ok && s.tasks[0].sourceEpoch == s.epoch, Step(s, ResumeEvent(0, ok), encodes), encodes)
  {
    LoneTask(s, ok, encodes);
    hide Inv, Step, Resume, SaveEnds;
    ResumedSave(s, ok, encodes);
  }

  /** A spawned task starts with the queue. */
  lemma SpawnOutcome(s: State, ok: bool, encodes: Source -> bool)
    requires Inv(s) && |s.tasks| == 1 && s.tasks[0].Spawned?
    ensures var t := Step(s, ResumeEvent(0, ok), encodes);
            GoesOn(s, [], t, encodes) && t.sentFrames == s.sentFrames && t.hist.sent == s.hist.sent
  {
    LoneTask(s, ok, encodes);
    hide Inv, DrainLoop, Wrap, Step, GoesOn;
    assert s.hist.failed + [] == s.hist.failed;
    LoopGoesOn(s, s.(tasks := []), [], encodes);
  }

  // --- submitting and clearing --------------------------------------------------------------------------------------

  /** A snapshot is rejected exactly when the maximum already wait; otherwise it comes after the others and before the live frame. */
  lemma SnapshotOutcome(s: State, source: Source, spanStarted: bool)
    requires OneDrainer(s) && source.mode.Snapshot?
    ensures var t := Submit(s, source, spanStarted);
            && t.hist == s.hist.(submitted := t.hist.submitted, rejected := t.hist.rejected)
            && t.hist.submitted == s.hist.submitted + [source] && t.droppedLiveFrames == s.droppedLiveFrames
            && if |s.snapshots| >= MAXIMUM_SNAPSHOTS
               then t.hist.rejected == s.hist.rejected + [source] && t.Queued() == s.Queued() && t.tasks == s.tasks
               else && t.hist.rejected == s.hist.rejected && t.Queued() == s.snapshots + [source] + LiveAsSeq(s.live)
                    && |t.tasks| == 1 && (spanStarted ==> source.captureId in t.waitSpans)
  {
    hide Wrap;
  }

  /** A live frame is always taken; the one that waited is superseded and counted dropped. */
  lemma LiveOutcome(s: State, source: Source, spanStarted: bool)
    requires OneDrainer(s) && source.mode.Live?
    ensures var t := Submit(s, source, spanStarted);
            && t.hist == s.hist.(submitted := t.hist.submitted, superseded := t.hist.superseded)
            && t.hist.submitted == s.hist.submitted + [source] && t.Queued() == s.snapshots + [source] && |t.tasks| == 1
            && t.hist.superseded == s.hist.superseded + LiveAsSeq(s.live)
            && t.droppedLiveFrames == (if s.live.Some? then Wrap(s.droppedLiveFrames + 1) else s.droppedLiveFrames)
            && (spanStarted && (s.live.Some? ==> s.live.value.captureId != source.captureId) ==> source.captureId in t.waitSpans)
  {
    hide Wrap;
  }

  /** A clear ends every waiting frame and touches no other; the task in its await is not told, but its epoch has passed. */
  lemma ClearOutcome(s: State)
    requires Inv(s)
    ensures var t := Clear(s);
            && t.Queued() == [] && t.hist.cleared == s.hist.cleared + s.Queued() && t.tasks == s.tasks
            && t.hist.failed == s.hist.failed && t.hist.sent == s.hist.sent && t.hist.issued == s.hist.issued
            && t.hist.clears == s.hist.clears + 1 && t.epoch != s.epoch && t.queueDepth == 0
  {
    hide Accounted, DepthPublished, SpansQueued, InOrder, EpochGuarded, Ids;
  }

  // --- over runs ------------------------------------------------------------------------------------------------------

  /** The frames whose socket send came back without an error, in order. */
  function Succeeded(events: seq<Event>, encodes: Source -> bool): seq<Source> {
    if events == [] then []
    else
      var front, e := events[..|events| - 1], events[|events| - 1];
      var s := Run(front, encodes);
      if e.ResumeEvent? && e.ok && e.task < |s.tasks| && s.tasks[e.task].Sending?
      then Succeeded(front, encodes) + [s.tasks[e.task].source]
      else Succeeded(front, encodes)
  }

  lemma SentByStep(s: State, e: Event, encodes: Source -> bool)
    requires Inv(s)
    ensures Step(s, e, encodes).hist.sent
            == if e.ResumeEvent? && e.ok && e.task < |s.tasks| && s.tasks[e.task].Sending?
               then s.hist.sent + [s.tasks[e.task].source] else s.hist.sent
  {
    hide Inv, GoesOn;
    match e
    case SubmitEvent(source, span) => SubmitUnsent(s, source, span);
    case ClearEvent => ClearOutcome(s);
    case ResumeEvent(i, ok) =>
      if i < |s.tasks| {
        OneTask(s);
        hide Step;
        match s.tasks[0]
        case Spawned => SpawnOutcome(s, ok, encodes);
        case Saving(_, _, _) => SaveOutcome(s, ok, encodes);
        case Sending(_) => SendOutcome(s, ok, encodes);
      }
  }

  lemma SubmitUnsent(s: State, source: Source, spanStarted: bool)
    ensures Submit(s, source, spanStarted).hist.sent == s.hist.sent
  {
    hide Wrap;
  }

  lemma SentCounted(s: State)
    requires Inv(s)
    ensures s.sentFrames == Wrap(|s.hist.sent|)
  {
    hide Wrap, Accounted, DepthPublished, SpansQueued, InOrder, EpochGuarded;
  }

  lemma OneTask(s: State)
    requires Inv(s) && s.tasks != []
    ensures |s.tasks| == 1
  {
  }

  /** Over any run the frames counted sent are exactly those whose send succeeded, in that order. */
  lemma {:induction false} SentAreSucceeded(events: seq<Event>, encodes: Source -> bool)
    ensures var s := Run(events, encodes);
            s.hist.sent == Succeeded(events, encodes) && s.sentFrames == Wrap(|Succeeded(events, encodes)|)
  {
    hide Step, Wrap, Inv;
    SentCounted(Run(events, encodes));
    if events != [] {
      var front, e := events[..|events| - 1], events[|events| - 1];
      SentAreSucceeded(front, encodes);
      SentByStep(Run(front, encodes), e, encodes);
    }
  }
}
