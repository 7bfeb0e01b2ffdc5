/** The capture actor itself, against its segment functions. */
module PipelineActor {
  import opened Wrappers
  import opened CaptureQueue
  import opened Subsequences
  import opened PipelineSteps
  import opened PipelineInvariant
  import PipelineOutcomes

  /**
   * The actor's fields, changed in place by its methods. The ghost fields stand for what the actor does not store:
   * the runtime's suspended drain tasks, and what happened so far. Every method is tied to its segment function.
   */
  class Pipeline {
    const queue: CaptureBackpressureQueue<Source>
    var draining: bool
    var epoch: int
    var sentFrames: int
    var droppedLiveFrames: int
    var queueDepth: nat
    var waitSpans: set<nat>
    ghost var tasks: seq<DrainTask>
    ghost var hist: History

    ghost predicate Valid()
      reads this, queue
    {
      queue.maximumSnapshots == MAXIMUM_SNAPSHOTS && Inv(View())
    }

    /** The whole actor as one value. */
    ghost function View(): State
      reads this, queue
    {
      State(queue.snapshots, queue.live, draining, epoch, sentFrames, droppedLiveFrames, queueDepth, waitSpans, tasks, hist)
    }

    constructor ()
      ensures Valid() && View() == INITIAL && fresh(queue)
    {
      queue := new CaptureBackpressureQueue(MAXIMUM_SNAPSHOTS);
      draining, epoch, sentFrames, droppedLiveFrames, queueDepth, waitSpans := false, 0, 0, 0, 0, {};
      tasks, hist := [], INITIAL.hist;
      new;
      InitialHolds();
    }

    method PublishStatistics()
      modifies this`queueDepth
      ensures View() == old(View()).Publish()
    {
      queueDepth := queue.Count();
    }

    method SubmitSource(source: Source, spanStarted: bool)
      requires Valid()
      modifies this, queue
      ensures Valid() && View() == Submit(old(View()), source, spanStarted)
    {
      hide Inv, Wrap;
      SubmitKeeps(View(), source, spanStarted);
      var id := source.captureId;
      waitSpans := if spanStarted then waitSpans + {id} else waitSpans - {id};
      hist := hist.(submitted := hist.submitted + [source]);
      if source.mode.Snapshot? {
        var r := queue.EnqueueSnapshot(source);
        if !r.Accepted? {
          waitSpans := waitSpans - {id};
          hist := hist.(rejected := hist.rejected + [source]);
          return;
        }
      } else {
        var r := queue.EnqueueLive(source);
        if r.ReplacedLive? {
          waitSpans := waitSpans - {r.replaced.captureId};
          hist := hist.(superseded := hist.superseded + [r.replaced]);
          droppedLiveFrames := Wrap(droppedLiveFrames + 1);
        }
      }
      PublishStatistics();
      if draining {
        return;
      }
      draining := true;
      tasks := tasks + [Spawned];
    }

    method ClearQueue()
      requires Valid()
      modifies this, queue
      ensures Valid() && View() == Clear(old(View()))
    {
      hide Inv, Wrap, Ids;
      ClearKeeps(View());
      IdsEmpty(View().Queued());
      ghost var queued := View().Queued();
      epoch := Wrap(epoch + 1);
      var removed := queue.RemoveAll();
      hist := hist.(cleared := hist.cleared + removed, clears := hist.clears + 1);
      ghost var spans := waitSpans;
      for i := 0 to |removed|
        invariant removed == queued
        invariant waitSpans == spans - Ids(removed[..i])
        invariant View() == old(View()).(snapshots := [], live := None, epoch := Wrap(old(epoch) + 1), waitSpans := waitSpans,
                                         hist := hist)
        invariant hist == old(hist).(cleared := old(hist).cleared + queued, clears := old(hist).clears + 1)
      {
        waitSpans := waitSpans - {removed[i].captureId};
        IdsAppend(removed, i);
      }
      assert removed[..|removed|] == removed;
      PublishStatistics();
    }

    /** The drain loop of a running task, from its head to its next await or its end. */
    method DrainUntilAwait(encodes: Source -> bool)
      requires queue.maximumSnapshots == MAXIMUM_SNAPSHOTS && Running(View())
      modifies this, queue
      ensures Valid() && View() == DrainLoop(old(View()), encodes)
    {
      hide Inv, Wrap, Running, Accounted, SpansQueued, InOrder, EpochGuarded, Counted;
      DrainLoopKeeps(View(), encodes);
      ghost var start := View();
      while true
        invariant DrainLoop(View(), encodes) == DrainLoop(start, encodes)
        invariant Inv(DrainLoop(start, encodes))
        decreases queue.Count()
      {
        ghost var s := View();
        var next := queue.PopFirst();
        if next.None? {
          break;
        }
        var source := next.value;
        hist := hist.(dequeued := hist.dequeued + [source]);
        var sourceEpoch := epoch;
        waitSpans := waitSpans - {source.captureId};
        assert View() == Dequeue(s);
        if !encodes(source) {
          hist := hist.(failed := hist.failed + [source]);
          PublishStatistics();
        } else if source.mode.Snapshot? {
          tasks := tasks + [Saving(source, sourceEpoch, hist.clears)];
          return;
        } else {
          hist := hist.(issued := hist.issued + [source], lags := hist.lags + [0]);
          tasks := tasks + [Sending(source)];
          return;
        }
      }
      draining := false;
      if !queue.IsEmpty() {
        // No await separates the empty check from the assignment above, so the code's restart is never needed.
        assert false;
      }
    }

    /** A spawned task begins. */
    method StartDrain(encodes: Source -> bool)
      requires Valid() && tasks == [Spawned]
      modifies this, queue
      ensures Valid() && View() == Resume(old(View()), 0, true, encodes)
    {
      hide Inv, DrainLoop, Wrap, Accounted, Counted, SpansQueued, InOrder, EpochGuarded, IsSubsequence;
      TakeTask(View());
      SpawnedDepth(View());
      tasks := tasks[..0] + tasks[1..];
      DrainUntilAwait(encodes);
    }

    /** The recorder's save has finished: check the epoch again before sending. */
    method ResumeAfterSave(source: Source, sourceEpoch: int, ok: bool, encodes: Source -> bool)
      requires Valid() && |tasks| == 1 && tasks[0].Saving?
      requires tasks[0].source == source && tasks[0].sourceEpoch == sourceEpoch
      modifies this, queue
      ensures old(tasks[0].since) <= old(hist.clears) && Valid()
      ensures View() == Resume(old(View()), 0, ok, encodes)
      ensures PipelineOutcomes.SaveEnds(old(View()), source, ok && sourceEpoch == old(epoch), View(), encodes)
    {
      hide Inv, DrainLoop, Wrap, Accounted, Counted, SpansQueued, InOrder, EpochGuarded, IsSubsequence, Running,
           PipelineOutcomes.SaveEnds;
      PipelineOutcomes.ResumedSave(View(), ok, encodes);
      TakeTask(View());
      SaveEpoch(View());
      ghost var since := tasks[0].since;
      ResumeSaveKeeps(View(), ok, encodes);
      tasks := tasks[..0] + tasks[1..];
      if ok {
        PublishKeeps(View());
        PublishStatistics();
        if sourceEpoch == epoch {
          hist := hist.(issued := hist.issued + [source], lags := hist.lags + [hist.clears - since]);
          tasks := tasks + [Sending(source)];
          return;
        }
      }
      FailDoneRuns(View(), source);
      hist := hist.(failed := hist.failed + [source]);
      PublishStatistics();
      DrainUntilAwait(encodes);
    }

    /** The socket's send has finished. */
    method ResumeAfterSend(source: Source, ok: bool, encodes: Source -> bool)
      requires Valid() && |tasks| == 1 && tasks[0] == Sending(source)
      modifies this, queue
      ensures Valid() && View() == Resume(old(View()), 0, ok, encodes)
      ensures PipelineOutcomes.SendEnds(old(View()), source, ok, View(), encodes)
    {
      hide Inv, DrainLoop, Wrap, Accounted, Counted, SpansQueued, InOrder, EpochGuarded, IsSubsequence, Running,
           PipelineOutcomes.SendEnds;
      PipelineOutcomes.ResumedSend(View(), ok, encodes);
      TakeTask(View());
      tasks := tasks[..0] + tasks[1..];
      if ok {
        SendDoneRuns(View(), source);
        sentFrames := Wrap(sentFrames + 1);
        hist := hist.(sent := hist.sent + [source]);
      } else {
        FailDoneRuns(View(), source);
        hist := hist.(failed := hist.failed + [source]);
      }
      PublishStatistics();
      DrainUntilAwait(encodes);
    }
  }

  lemma IdsEmpty(sources: seq<Source>)
    ensures Ids(sources[..0]) == {}
  {
  }

  lemma IdsAppend(sources: seq<Source>, i: nat)
    requires i < |sources|
    ensures Ids(sources[..i + 1]) == Ids(sources[..i]) + {sources[i].captureId}
  {
    forall id | id in Ids(sources[..i + 1])
      ensures id in Ids(sources[..i]) + {sources[i].captureId}
    {
      var k :| 0 <= k < i + 1 && sources[..i + 1][k].captureId == id;
      if k < i {
        assert sources[..i][k].captureId == id;
      }
    }
    forall id | id in Ids(sources[..i])
      ensures id in Ids(sources[..i + 1])
    {
      var k :| 0 <= k < i && sources[..i][k].captureId == id;
      assert sources[..i + 1][k].captureId == id;
    }
    assert sources[..i + 1][i].captureId == sources[i].captureId;
  }
}
