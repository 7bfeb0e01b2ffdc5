/** Every segment of the capture actor keeps its invariant. */
module PipelineInvariant {
  import opened Wrappers
  import opened CaptureQueue
  import opened Subsequences
  import opened PipelineSteps

  // --- every segment keeps it ----------------------------------------------------------------------------------

  /** The state while a drain task runs: it is not listed, and nothing else about the invariant is suspended. */
  predicate Running(s: State) {
    && s.tasks == [] && s.draining && s.queueDepth == s.Count()
    && Conserved(s) && Counted(s) && SpansQueued(s) && InOrder(s) && EpochGuarded(s)
  }

  /** The same with one dequeued source in hand. */
  predicate Holding(s: State, source: Source) {
    && s.tasks == [] && s.draining && s.queueDepth == s.Count() + 1
    && multiset(s.hist.submitted) == Accounted(s) + multiset{source}
    && Counted(s) && SpansQueued(s) && InOrder(s) && EpochGuarded(s)
    && IsSubsequence(s.hist.issued + [source], s.hist.dequeued)
  }

  lemma HeadJoins(a: seq<Source>, b: seq<Source>)
    requires b != []
    ensures a + [b[0]] + b[1..] == a + b
  {
  }

  lemma SelectMovesSnapshot(s: State)
    requires s.snapshots != [] && s.snapshots[0].mode.Snapshot?
    ensures var d := Dequeue(s);
            && Select(d.hist.dequeued, IsSnapshot) + d.snapshots == Select(s.hist.dequeued, IsSnapshot) + s.snapshots
            && Select(d.hist.dequeued, IsLive) == Select(s.hist.dequeued, IsLive) && d.live == s.live
  {
    hide Select;
    var source := s.snapshots[0];
    SelectAppend(s.hist.dequeued, IsSnapshot, source);
    SelectAppend(s.hist.dequeued, IsLive, source);
    HeadJoins(Select(s.hist.dequeued, IsSnapshot), s.snapshots);
  }

  lemma SelectMovesLive(s: State)
    requires s.snapshots == [] && s.live.Some? && s.live.value.mode.Live?
    ensures var d := Dequeue(s);
            && Select(d.hist.dequeued, IsSnapshot) == Select(s.hist.dequeued, IsSnapshot) && d.snapshots == []
            && Select(d.hist.dequeued, IsLive) + LiveAsSeq(d.live) == Select(s.hist.dequeued, IsLive) + LiveAsSeq(s.live)
  {
    var source := s.live.value;
    SelectAppend(s.hist.dequeued, IsSnapshot, source);
    SelectAppend(s.hist.dequeued, IsLive, source);
    hide Select;
  }

  lemma SelectMoves(s: State)
    requires !s.QueueEmpty() && InOrder(s)
    ensures var d := Dequeue(s);
            && Select(d.hist.dequeued, IsSnapshot) + d.snapshots == Select(s.hist.dequeued, IsSnapshot) + s.snapshots
            && Select(d.hist.dequeued, IsLive) + LiveAsSeq(d.live) == Select(s.hist.dequeued, IsLive) + LiveAsSeq(s.live)
  {
    hide Select, IsSubsequence;
    if s.snapshots != [] {
      SelectMovesSnapshot(s);
    } else {
      SelectMovesLive(s);
    }
  }

  lemma MoveOut(q: multiset<Source>, x: multiset<Source>, t: multiset<Source>, f: multiset<Source>)
    ensures (q + x) + t + f == q + t + f + x
    ensures q + (t + x) + f == q + t + f + x
    ensures q + t + (f + x) == q + t + f + x
  {
  }

  lemma OneTask(task: DrainTask)
    ensures TaskSources([task]) == TaskSources([]) + TaskSource(task)
  {
    assert [task][..0] == [];
  }

  lemma DequeueQueued(s: State)
    requires !s.QueueEmpty()
    ensures s.Queued() == [Next(s)] + Dequeue(s).Queued()
    ensures Finished(Dequeue(s).hist) == Finished(s.hist) && Dequeue(s).tasks == s.tasks
  {
    if s.snapshots != [] {
      assert s.snapshots == [s.snapshots[0]] + s.snapshots[1..];
    }
  }

  lemma DequeueAccounts(s: State)
    requires !s.QueueEmpty()
    ensures Accounted(s) == Accounted(Dequeue(s)) + multiset{Next(s)}
  {
    assert Finished(Dequeue(s).hist) == Finished(s.hist) by { DequeueQueued(s); }
    hide Finished, TaskSources, Dequeue, Next, State.Queued;
    DequeueQueued(s);
    var queued, source := Dequeue(s).Queued(), Next(s);
    assert multiset([source] + queued) == multiset(queued) + multiset{source};
    MoveOut(multiset(queued), multiset{source}, TaskSources(s.tasks), Finished(s.hist));
  }

  lemma DequeueSpans(s: State)
    requires !s.QueueEmpty() && SpansQueued(s)
    ensures SpansQueued(Dequeue(s))
  {
    var source, d := Next(s), Dequeue(s);
    assert [source] + d.Queued() == s.Queued();
    forall id | id in d.waitSpans
      ensures id in Ids(d.Queued())
    {
      var i :| 0 <= i < |s.Queued()| && s.Queued()[i].captureId == id;
      assert d.Queued()[i - 1].captureId == id;
    }
  }

  lemma IssuedThenNext(s: State)
    requires !s.QueueEmpty() && InOrder(s) && s.tasks == []
    ensures IsSubsequence(s.hist.issued, Dequeue(s).hist.dequeued)
    ensures IsSubsequence(s.hist.issued + [Next(s)], Dequeue(s).hist.dequeued)
  {
    hide IsSubsequence, Select;
    assert s.hist.issued + SavingSource([]) == s.hist.issued;
    AppendBoth(s.hist.issued, s.hist.dequeued, Next(s));
    Widen(s.hist.issued, s.hist.dequeued, Next(s));
  }

  lemma DequeueOrder(s: State)
    requires !s.QueueEmpty() && InOrder(s) && s.tasks == []
    ensures InOrder(Dequeue(s)) && IsSubsequence(s.hist.issued + [Next(s)], Dequeue(s).hist.dequeued)
  {
    hide IsSubsequence, Select;
    SelectMoves(s);
    IssuedThenNext(s);
    assert s.hist.issued + SavingSource([]) == s.hist.issued;
  }

  lemma DequeueHolds(s: State)
    requires Running(s) && !s.QueueEmpty()
    ensures Holding(Dequeue(s), Next(s))
  {
    hide Accounted, SpansQueued, InOrder, IsSubsequence;
    DequeueAccounts(s);
    DequeueSpans(s);
    DequeueOrder(s);
  }

  lemma FailAccounts(s: State, source: Source)
    ensures Accounted(Fail(s, source)) == Accounted(s) + multiset{source}
  {
    var f := Fail(s, source);
    assert Finished(f.hist) == Finished(s.hist) + multiset{source};
    hide Finished, TaskSources;
    MoveOut(multiset(s.Queued()), multiset{source}, TaskSources(s.tasks), Finished(s.hist));
  }

  /** A held source that fails is accounted for, and the task goes on. */
  lemma FailRuns(s: State, source: Source)
    requires Holding(s, source)
    ensures Running(Fail(s, source))
  {
    hide SpansQueued, InOrder, IsSubsequence, Accounted;
    FailAccounts(s, source);
    FailKeepsOrder(s, source);
  }

  lemma FailKeepsOrder(s: State, source: Source)
    requires SpansQueued(s) && InOrder(s)
    ensures SpansQueued(Fail(s, source)) && InOrder(Fail(s, source))
  {
  }

  /** Listing a task that holds the source accounts for it. */
  lemma TaskAccounts(s: State, task: DrainTask, t: State)
    requires s.tasks == [] && t.tasks == [task] && t.Queued() == s.Queued()
    requires Finished(t.hist) == Finished(s.hist)
    ensures Accounted(t) == Accounted(s) + TaskSource(task)
  {
    OneTask(task);
    hide Finished, TaskSources;
    MoveOut(multiset(s.Queued()), TaskSource(task), TaskSources([]), Finished(s.hist));
  }

  /** A held snapshot handed to the recorder suspends the task. */
  lemma SaveKeeps(s: State, source: Source, since: nat)
    requires Holding(s, source) && since <= s.hist.clears
    ensures Inv(s.(tasks := [Saving(source, Wrap(since), since)]))
  {
    var t := s.(tasks := [Saving(source, Wrap(since), since)]);
    TaskAccounts(s, t.tasks[0], t);
    SaveOrder(s, source, since);
    SaveGuarded(s, source, since);
    hide IsSubsequence, Select, Accounted, Finished, TaskSources, SpansQueued, Wrap, InOrder, EpochGuarded, Counted;
    assert SpansQueued(t) by { SpansSame(s, t); }
  }

  lemma SaveOrder(s: State, source: Source, since: nat)
    requires s.tasks == [] && InOrder(s) && IsSubsequence(s.hist.issued + [source], s.hist.dequeued)
    ensures InOrder(s.(tasks := [Saving(source, Wrap(since), since)]))
  {
    hide IsSubsequence, Select;
  }

  lemma SaveGuarded(s: State, source: Source, since: nat)
    requires EpochGuarded(s) && Counted(s) && since <= s.hist.clears
    ensures var t := s.(tasks := [Saving(source, Wrap(since), since)]); EpochGuarded(t) && Counted(t)
  {
    hide Wrap;
  }

  lemma SpansSame(s: State, t: State)
    requires SpansQueued(s) && t.Queued() == s.Queued() && t.waitSpans == s.waitSpans
    ensures SpansQueued(t)
  {
  }

  /** A source past the guard is issued, and the task waits for the socket. */
  lemma IssueKeeps(s: State, source: Source, since: nat)
    requires s.tasks == [] && s.draining && (s.queueDepth == s.Count() || s.queueDepth == s.Count() + 1)
    requires multiset(s.hist.submitted) == Accounted(s) + multiset{source}
    requires Counted(s) && SpansQueued(s) && InOrder(s) && EpochGuarded(s)
    requires IsSubsequence(s.hist.issued + [source], s.hist.dequeued)
    requires since <= s.hist.clears && Wrap(s.hist.clears - since) == 0
    ensures Inv(Issue(s, source, since))
  {
    hide IsSubsequence, Select, Accounted, Finished, TaskSources, SpansQueued, Wrap, InOrder, EpochGuarded, Counted;
    var t := Issue(s, source, since);
    assert t.tasks == [Sending(source)];
    IssueAccounts(s, source, since);
    IssueOrder(s, source, since);
    IssueEpoch(s, source, since);
    SpansSame(s, t);
  }

  lemma IssueAccounts(s: State, source: Source, since: nat)
    requires s.tasks == [] && since <= s.hist.clears && multiset(s.hist.submitted) == Accounted(s) + multiset{source}
    ensures Conserved(Issue(s, source, since))
  {
    var t := Issue(s, source, since);
    TaskAccounts(s, t.tasks[0], t);
    hide Accounted;
  }

  lemma IssueOrder(s: State, source: Source, since: nat)
    requires s.tasks == [] && since <= s.hist.clears
    requires InOrder(s) && IsSubsequence(s.hist.issued + [source], s.hist.dequeued)
    ensures InOrder(Issue(s, source, since))
  {
    hide IsSubsequence, Select;
    var t := Issue(s, source, since);
    assert t.hist.issued + SavingSource(t.tasks) == s.hist.issued + [source];
  }

  lemma IssueEpoch(s: State, source: Source, since: nat)
    requires s.tasks == [] && since <= s.hist.clears && Wrap(s.hist.clears - since) == 0
    requires EpochGuarded(s) && Counted(s)
    ensures EpochGuarded(Issue(s, source, since)) && Counted(Issue(s, source, since))
  {
    hide Wrap;
  }

  lemma {:induction false} DrainLoopKeeps(s: State, encodes: Source -> bool)
    requires Running(s)
    ensures Inv(DrainLoop(s, encodes))
    decreases s.Count()
  {
    hide Accounted, SpansQueued, InOrder, IsSubsequence, EpochGuarded, Wrap;
    if s.QueueEmpty() {
      StopKeeps(s);
    } else {
      var source, d := Next(s), Dequeue(s);
      DequeueHolds(s);
      if !encodes(source) {
        FailRuns(d, source);
        DrainLoopKeeps(Fail(d, source), encodes);
      } else if source.mode.Snapshot? {
        SaveKeeps(d, source, d.hist.clears);
        assert d.tasks + [Saving(source, d.epoch, d.hist.clears)] == [Saving(source, Wrap(d.hist.clears), d.hist.clears)];
      } else {
        WrapFacts(0, 0);
        IssueKeeps(d, source, d.hist.clears);
      }
    }
  }

  lemma StopKeeps(s: State)
    requires Running(s) && s.QueueEmpty()
    ensures Inv(s.(draining := false))
  {
  }

  // --- submit ------------------------------------------------------------------------------------------------------

  lemma SwapOut(q: multiset<Source>, q': multiset<Source>, x: multiset<Source>, o: multiset<Source>,
                t: multiset<Source>, f: multiset<Source>)
    requires q' + o == q + x
    ensures q' + t + (f + o) == q + t + f + x
  {
    MoveOut(q', o, t, f);
    MoveOut(q, x, t, f);
  }

  lemma AppendOne(a: seq<Source>, b: seq<Source>, x: Source)
    ensures multiset(a + [x] + b) == multiset(a + b) + multiset{x}
  {
    assert multiset(a + [x] + b) == multiset(a) + multiset([x]) + multiset(b);
  }

  /** What a submit does to the queue and to the finished classes. */
  lemma QueueChange(s: State, source: Source, spanStarted: bool)
    ensures var t := Submit(s, source, spanStarted);
            var x := multiset{source};
            if source.mode.Snapshot? && |s.snapshots| >= MAXIMUM_SNAPSHOTS then
              t.Queued() == s.Queued() && Finished(t.hist) == Finished(s.hist) + x
            else if source.mode.Live? && s.live.Some? then
              && multiset(t.Queued()) + multiset{s.live.value} == multiset(s.Queued()) + x
              && Finished(t.hist) == Finished(s.hist) + multiset{s.live.value}
            else
              multiset(t.Queued()) == multiset(s.Queued()) + x && Finished(t.hist) == Finished(s.hist)
  {
    var t := Submit(s, source, spanStarted);
    AppendOne(s.snapshots, LiveAsSeq(s.live), source);
    AppendOne(s.snapshots, [], source);
    assert s.snapshots + [source] + [] == s.snapshots + [source] && s.snapshots + [] == s.snapshots;
    if s.live.Some? {
      AppendOne(s.snapshots, [], s.live.value);
      assert s.snapshots + [s.live.value] + [] == s.snapshots + [s.live.value];
    }
    RejectedFinishes(s.hist.(submitted := s.hist.submitted + [source]), source);
    if s.live.Some? {
      SupersededFinishes(s.hist.(submitted := s.hist.submitted + [source]), s.live.value);
    }
    assert Finished(s.hist.(submitted := s.hist.submitted + [source])) == Finished(s.hist);
    hide Finished;
  }

  lemma RejectedFinishes(h: History, x: Source)
    ensures Finished(h.(rejected := h.rejected + [x])) == Finished(h) + multiset{x}
  {
  }

  lemma SupersededFinishes(h: History, x: Source)
    ensures Finished(h.(superseded := h.superseded + [x])) == Finished(h) + multiset{x}
  {
  }

  /** A submitted frame is queued or rejected, and the frame it displaces is superseded. */
  lemma SubmitAccounts(s: State, source: Source, spanStarted: bool)
    ensures Accounted(Submit(s, source, spanStarted)) == Accounted(s) + multiset{source}
  {
    var t, x := Submit(s, source, spanStarted), multiset{source};
    OneTaskMore(s);
    QueueChange(s, source, spanStarted);
    assert TaskSources(t.tasks) == TaskSources(s.tasks);
    hide Finished, TaskSources, Submit, State.Queued;
    var q, q', tt, f := multiset(s.Queued()), multiset(t.Queued()), TaskSources(s.tasks), Finished(s.hist);
    MoveOut(q, x, tt, f);
    if source.mode.Live? && s.live.Some? {
      SwapOut(q, q', x, multiset{s.live.value}, tt, f);
    }
  }

  lemma OneTaskMore(s: State)
    ensures TaskSources(EnsureDraining(s).tasks) == TaskSources(s.tasks)
    ensures TaskSources(s.tasks + [Spawned]) == TaskSources(s.tasks)
  {
    assert (s.tasks + [Spawned])[..|s.tasks|] == s.tasks;
  }

  lemma SubmitSpans(s: State, source: Source, spanStarted: bool)
    requires SpansQueued(s)
    ensures SpansQueued(Submit(s, source, spanStarted))
  {
    var t := Submit(s, source, spanStarted);
    forall id | id in t.waitSpans
      ensures id in Ids(t.Queued())
    {
      if id == source.captureId {
        assert t.Queued()[if source.mode.Snapshot? then |t.snapshots| - 1 else |t.snapshots|].captureId == id;
      } else {
        var i :| 0 <= i < |s.Queued()| && s.Queued()[i].captureId == id;
        if i < |s.snapshots| {
          assert t.Queued()[i].captureId == id;
        } else {
          assert t.Queued()[|t.snapshots|].captureId == id;
        }
      }
    }
  }

  lemma SubmitSnapshotOrder(s: State, source: Source, spanStarted: bool)
    requires InOrder(s) && |s.tasks| == (if s.draining then 1 else 0) && source.mode.Snapshot?
    ensures InOrder(Submit(s, source, spanStarted))
  {
    hide IsSubsequence, Select;
    var t := Submit(s, source, spanStarted);
    SelectAppend(s.hist.submitted, IsSnapshot, source);
    SelectAppend(s.hist.submitted, IsLive, source);
    var snaps, subs := Select(s.hist.dequeued, IsSnapshot), Select(s.hist.submitted, IsSnapshot);
    if |s.snapshots| >= MAXIMUM_SNAPSHOTS {
      Widen(snaps + s.snapshots, subs, source);
    } else {
      AppendBoth(snaps + s.snapshots, subs, source);
      assert snaps + s.snapshots + [source] == snaps + (s.snapshots + [source]);
      assert SavingSource(t.tasks) == SavingSource(s.tasks);
    }
  }

  lemma SubmitLiveOrder(s: State, source: Source, spanStarted: bool)
    requires InOrder(s) && |s.tasks| == (if s.draining then 1 else 0) && source.mode.Live?
    ensures InOrder(Submit(s, source, spanStarted))
  {
    hide IsSubsequence, Select;
    var t := Submit(s, source, spanStarted);
    SelectAppend(s.hist.submitted, IsSnapshot, source);
    SelectAppend(s.hist.submitted, IsLive, source);
    var lives := Select(s.hist.dequeued, IsLive);
    var before := lives + LiveAsSeq(s.live);
    if s.live.Some? {
      DropLast(before, Select(s.hist.submitted, IsLive));
      assert before[..|before| - 1] == lives;
    } else {
      assert before == lives;
    }
    AppendBoth(lives, Select(s.hist.submitted, IsLive), source);
    assert SavingSource(t.tasks) == SavingSource(s.tasks);
  }

  lemma SubmitOrder(s: State, source: Source, spanStarted: bool)
    requires InOrder(s) && |s.tasks| == (if s.draining then 1 else 0)
    ensures InOrder(Submit(s, source, spanStarted))
  {
    hide InOrder, Submit;
    if source.mode.Snapshot? {
      SubmitSnapshotOrder(s, source, spanStarted);
    } else {
      SubmitLiveOrder(s, source, spanStarted);
    }
  }

  lemma SubmitCounts(s: State, source: Source, spanStarted: bool)
    requires OneDrainer(s) && Counted(s) && EpochGuarded(s) && DepthPublished(s)
    ensures var t := Submit(s, source, spanStarted);
            OneDrainer(t) && Counted(t) && EpochGuarded(t) && DepthPublished(t)
  {
    WrapFacts(|s.hist.superseded|, 0);
    hide Wrap;
  }

  lemma SubmitKeeps(s: State, source: Source, spanStarted: bool)
    requires Inv(s)
    ensures Inv(Submit(s, source, spanStarted))
  {
    hide Accounted, SpansQueued, InOrder, Counted, EpochGuarded, DepthPublished, OneDrainer;
    SubmitAccounts(s, source, spanStarted);
    SubmitSpans(s, source, spanStarted);
    SubmitCounts(s, source, spanStarted);
    SubmitOrder(s, source, spanStarted) by { DrainerCount(s); }
    var t := Submit(s, source, spanStarted);
    assert t.hist.submitted == s.hist.submitted + [source];
  }

  lemma DrainerCount(s: State)
    requires OneDrainer(s)
    ensures |s.tasks| == (if s.draining then 1 else 0)
  {
  }

  // --- clear -----------------------------------------------------------------------------------------------------------

  lemma ClearOrder(s: State)
    requires InOrder(s)
    ensures InOrder(Clear(s))
  {
    hide IsSubsequence, Select;
    var snaps, lives := Select(s.hist.dequeued, IsSnapshot), Select(s.hist.dequeued, IsLive);
    Prefix(snaps + s.snapshots, |snaps|, Select(s.hist.submitted, IsSnapshot));
    Prefix(lives + LiveAsSeq(s.live), |lives|, Select(s.hist.submitted, IsLive));
    assert (snaps + s.snapshots)[..|snaps|] == snaps + [];
    assert (lives + LiveAsSeq(s.live))[..|lives|] == lives + LiveAsSeq(None);
  }

  lemma ClearAccounts(s: State)
    ensures Accounted(Clear(s)) == Accounted(s)
  {
    assert Finished(Clear(s).hist) == Finished(s.hist) + multiset(s.Queued());
    assert Clear(s).Queued() == [];
    hide Finished, TaskSources;
  }

  lemma ClearCounts(s: State)
    requires OneDrainer(s) && Counted(s) && EpochGuarded(s) && SpansQueued(s)
    ensures var t := Clear(s);
            OneDrainer(t) && Counted(t) && EpochGuarded(t) && DepthPublished(t) && SpansQueued(t)
  {
    WrapFacts(s.hist.clears, 0);
    hide Wrap;
    assert Clear(s).Queued() == [];
    assert Ids([]) == {};
  }

  lemma ClearKeeps(s: State)
    requires Inv(s)
    ensures Inv(Clear(s))
  {
    hide Accounted, InOrder, Counted, EpochGuarded, DepthPublished, OneDrainer, SpansQueued;
    ClearOrder(s);
    ClearAccounts(s);
    ClearCounts(s);
  }

  // --- resume ----------------------------------------------------------------------------------------------------------

  lemma SendDoneRuns(s: State, source: Source)
    requires s.tasks == [] && s.draining
    requires multiset(s.hist.submitted) == Accounted(s) + multiset{source}
    requires Counted(s) && SpansQueued(s) && InOrder(s) && EpochGuarded(s)
    ensures Running(SendDone(s, source))
  {
    var t := SendDone(s, source);
    assert Finished(t.hist) == Finished(s.hist) + multiset{source};
    MoveOut(multiset(s.Queued()), multiset{source}, TaskSources(s.tasks), Finished(s.hist));
    WrapFacts(|s.hist.sent|, 0);
    hide Finished, TaskSources, IsSubsequence, Select, Wrap;
    SpansSame(s, t);
  }

  lemma FailDoneRuns(s: State, source: Source)
    requires s.tasks == [] && s.draining
    requires multiset(s.hist.submitted) == Accounted(s) + multiset{source}
    requires Counted(s) && SpansQueued(s) && InOrder(s) && EpochGuarded(s)
    ensures Running(Fail(s, source))
  {
    FailAccounts(s, source);
    FailKeepsOrder(s, source);
    hide Accounted, InOrder, SpansQueued, Wrap;
  }

  /** Taking the only task off the list leaves its source in hand. */
  lemma TakeTask(s: State)
    requires Inv(s) && |s.tasks| == 1
    ensures var r := s.(tasks := s.tasks[..0] + s.tasks[1..]);
            && r.tasks == [] && r.draining
            && multiset(r.hist.submitted) == Accounted(r) + TaskSource(s.tasks[0])
            && Counted(r) && SpansQueued(r) && InOrder(r) && EpochGuarded(r)
            && (s.tasks[0].Saving? ==> IsSubsequence(r.hist.issued + [s.tasks[0].source], r.hist.dequeued))
  {
    var r := s.(tasks := s.tasks[..0] + s.tasks[1..]);
    assert s.tasks == [s.tasks[0]];
    TaskAccounts(r, s.tasks[0], s);
    hide Accounted, IsSubsequence, Select;
    SpansSame(s, r);
    assert r.hist.issued + SavingSource(r.tasks) == r.hist.issued;
    if s.tasks[0].Saving? {
      assert s.hist.issued + SavingSource(s.tasks) == s.hist.issued + [s.tasks[0].source];
      var a := s.hist.issued + [s.tasks[0].source];
      DropLast(a, s.hist.dequeued);
      assert a[..|a| - 1] == s.hist.issued;
    } else {
      assert s.hist.issued + SavingSource(s.tasks) == s.hist.issued;
    }
  }

  lemma ResumeSentKeeps(s: State, encodes: Source -> bool)
    requires Inv(s) && |s.tasks| == 1 && s.tasks[0].Sending?
    ensures Inv(Resume(s, 0, true, encodes))
  {
    TakeTask(s);
    hide Accounted, InOrder, SpansQueued, Wrap, DrainLoop, Counted, EpochGuarded, Inv, State.Count, Finished, SendDone;
    var r, source := s.(tasks := s.tasks[..0] + s.tasks[1..]), s.tasks[0].source;
    SendDoneRuns(r, source);
    DrainLoopKeeps(SendDone(r, source), encodes);
  }

  lemma ResumeUnsentKeeps(s: State, encodes: Source -> bool)
    requires Inv(s) && |s.tasks| == 1 && s.tasks[0].Sending?
    ensures Inv(Resume(s, 0, false, encodes))
  {
    TakeTask(s);
    hide Accounted, InOrder, SpansQueued, Wrap, DrainLoop, Counted, EpochGuarded, Inv, State.Count, Finished;
    var r, source := s.(tasks := s.tasks[..0] + s.tasks[1..]), s.tasks[0].source;
    FailDoneRuns(r, source);
    DrainLoopKeeps(Fail(r, source), encodes);
  }

  lemma SaveEpoch(s: State)
    requires Inv(s) && |s.tasks| == 1 && s.tasks[0].Saving?
    ensures var t := s.tasks[0];
            && t.since <= s.hist.clears
            && (t.sourceEpoch == s.epoch <==> Wrap(s.hist.clears - t.since) == 0)
  {
    WrapFacts(s.hist.clears, s.tasks[0].since);
    hide Wrap;
  }

  lemma FailedSaveKeeps(s: State, r: State, encodes: Source -> bool)
    requires Inv(s) && |s.tasks| == 1 && s.tasks[0].Saving?
    requires r == s.(tasks := []) || r == s.(tasks := []).Publish()
    ensures Inv(DrainLoop(Fail(r, s.tasks[0].source), encodes))
  {
    hide Accounted, InOrder, SpansQueued, Wrap, DrainLoop, Counted, EpochGuarded, Inv, IsSubsequence, Running, Fail;
    TakeTask(s);
    assert s.tasks[..0] + s.tasks[1..] == [];
    PublishKeeps(s.(tasks := []));
    FailDoneRuns(r, s.tasks[0].source);
    DrainLoopKeeps(Fail(r, s.tasks[0].source), encodes);
  }

  lemma FinishedSaveKeeps(s: State)
    requires Inv(s) && |s.tasks| == 1 && s.tasks[0].Saving? && s.tasks[0].since <= s.hist.clears
    requires Wrap(s.hist.clears - s.tasks[0].since) == 0
    ensures Inv(Issue(s.(tasks := []).Publish(), s.tasks[0].source, s.tasks[0].since))
  {
    hide Accounted, InOrder, SpansQueued, Wrap, Counted, EpochGuarded, Inv, IsSubsequence, Issue;
    TakeTask(s);
    assert s.tasks[..0] + s.tasks[1..] == [];
    PublishKeeps(s.(tasks := []));
    IssueKeeps(s.(tasks := []).Publish(), s.tasks[0].source, s.tasks[0].since);
  }

  lemma ResumeSaveKeeps(s: State, ok: bool, encodes: Source -> bool)
    requires Inv(s) && |s.tasks| == 1 && s.tasks[0].Saving? && s.tasks[0].since <= s.hist.clears
    ensures Inv(Resume(s, 0, ok, encodes))
  {
    hide Wrap, DrainLoop, Inv, Issue, Fail;
    SaveEpoch(s);
    assert s.tasks[..0] + s.tasks[1..] == [];
    var r := s.(tasks := []);
    if !ok {
      FailedSaveKeeps(s, r, encodes);
    } else if s.tasks[0].sourceEpoch != r.epoch {
      FailedSaveKeeps(s, r.Publish(), encodes);
    } else {
      FinishedSaveKeeps(s);
    }
  }

  lemma ResumeSpawnedKeeps(s: State, ok: bool, encodes: Source -> bool)
    requires Inv(s) && |s.tasks| == 1 && s.tasks[0].Spawned?
    ensures Inv(Resume(s, 0, ok, encodes))
  {
    TakeTask(s);
    SpawnedDepth(s);
    hide Accounted, InOrder, SpansQueued, Wrap, DrainLoop, Counted, EpochGuarded, Inv;
    DrainLoopKeeps(s.(tasks := s.tasks[..0] + s.tasks[1..]), encodes);
  }

  lemma ResumeKeeps(s: State, i: nat, ok: bool, encodes: Source -> bool)
    requires Inv(s) && i < |s.tasks|
    ensures s.tasks[i].Saving? ==> s.tasks[i].since <= s.hist.clears
    ensures Inv(Resume(s, i, ok, encodes))
  {
    DrainerCount(s);
    assert i == 0;
    match s.tasks[0]
    case Spawned => ResumeSpawnedKeeps(s, ok, encodes);
    case Sending(_) =>
      if ok {
        ResumeSentKeeps(s, encodes);
      } else {
        ResumeUnsentKeeps(s, encodes);
      }
    case Saving(_, _, _) =>
      SaveEpoch(s);
      ResumeSaveKeeps(s, ok, encodes);
  }

  lemma SpawnedDepth(s: State)
    requires Inv(s) && |s.tasks| == 1 && s.tasks[0].Spawned?
    ensures s.queueDepth == s.Count()
  {
  }

  lemma PublishKeeps(s: State)
    requires Counted(s) && SpansQueued(s) && InOrder(s) && EpochGuarded(s)
    ensures var p := s.Publish(); Counted(p) && SpansQueued(p) && InOrder(p) && EpochGuarded(p) && Accounted(p) == Accounted(s)
  {
  }

  lemma InitialHolds()
    ensures Inv(INITIAL)
  {
    assert Ids(INITIAL.Queued()) == {};
  }
}
