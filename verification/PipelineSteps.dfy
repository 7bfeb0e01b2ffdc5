/**
 * The phone's capture actor. Its state changes only in atomic segments: submit, clear, and the stretches of the
 * drain loop between two awaits (the recorder's save and the socket's send). Any segment may follow any other.
 */
module PipelineSteps {
  import opened Wrappers
  import opened CaptureQueue
  import opened Subsequences

  const UINT64: int := 0x1_0000_0000_0000_0000

  /** Swift's wrapping 64-bit arithmetic. */
  function Wrap(n: int): int {
    n % UINT64
  }

  lemma WrapFacts(n: int, m: int)
    ensures Wrap(0) == 0
    ensures Wrap(Wrap(n) + 1) == Wrap(n + 1)
    ensures Wrap(n) == Wrap(m) <==> Wrap(n - m) == 0
  {
  }

  const MAXIMUM_SNAPSHOTS: nat := 2

  datatype Mode = Snapshot | Live

  datatype Source = Source(captureId: nat, mode: Mode)

  /**
   * One drain task of the runtime and where it is suspended. `since` is the number of clears before the source
   * was dequeued; the code keeps only the epoch it read then.
   */
  datatype DrainTask =
    | Spawned
    | Saving(source: Source, sourceEpoch: int, since: nat)
    | Sending(source: Source)

  /** What has happened so far, in order. `lags` holds, per issued send, the clears since its dequeue. */
  datatype History = History(
    submitted: seq<Source>, rejected: seq<Source>, superseded: seq<Source>, cleared: seq<Source>,
    dequeued: seq<Source>, issued: seq<Source>, sent: seq<Source>, failed: seq<Source>,
    clears: nat, lags: seq<nat>)

  datatype State = State(
    snapshots: seq<Source>, live: Option<Source>, draining: bool, epoch: int,
    sentFrames: int, droppedLiveFrames: int, queueDepth: nat, waitSpans: set<nat>,
    tasks: seq<DrainTask>, hist: History)
  {
    predicate QueueEmpty() {
      snapshots == [] && live.None?
    }

    function Queued(): seq<Source> {
      snapshots + LiveAsSeq(live)
    }

    function Count(): nat {
      |snapshots| + (if live.None? then 0 else 1)
    }

    function Publish(): State {
      this.(queueDepth := Count())
    }
  }

  const INITIAL: State := State([], None, false, 0, 0, 0, 0, {}, [], History([], [], [], [], [], [], [], [], 0, []))

  // --- the segments, as functions of the state -------------------------------------------------------

  /** A drain task is spawned unless one already exists. */
  function EnsureDraining(s: State): State {
    if s.draining then s else s.(draining := true, tasks := s.tasks + [Spawned])
  }

  /** `spanStarted`: whether the telemetry layer returned a span (a missing one is stored as an absent key). */
  function Submit(s: State, source: Source, spanStarted: bool): State {
    var id := source.captureId;
    var h := s.hist.(submitted := s.hist.submitted + [source]);
    var spans := if spanStarted then s.waitSpans + {id} else s.waitSpans - {id};
    if source.mode.Snapshot? then
      if |s.snapshots| >= MAXIMUM_SNAPSHOTS then
        s.(waitSpans := spans - {id}, hist := h.(rejected := h.rejected + [source]))
      else
        EnsureDraining(s.(snapshots := s.snapshots + [source], waitSpans := spans, hist := h).Publish())
    else if s.live.Some? then
      var replaced := s.live.value;
      EnsureDraining(s.(live := Some(source), waitSpans := spans - {replaced.captureId},
                        droppedLiveFrames := Wrap(s.droppedLiveFrames + 1),
                        hist := h.(superseded := h.superseded + [replaced])).Publish())
    else
      EnsureDraining(s.(live := Some(source), waitSpans := spans, hist := h).Publish())
  }

  function Ids(sources: seq<Source>): set<nat> {
    set i | 0 <= i < |sources| :: sources[i].captureId
  }

  function Clear(s: State): State {
    s.(snapshots := [], live := None, epoch := Wrap(s.epoch + 1), waitSpans := s.waitSpans - Ids(s.Queued()),
       hist := s.hist.(cleared := s.hist.cleared + s.Queued(), clears := s.hist.clears + 1)).Publish()
  }

  /** The next waiting source: the oldest snapshot, or the live one when no snapshot waits. */
  function Next(s: State): Source
    requires !s.QueueEmpty()
  {
    if s.snapshots != [] then s.snapshots[0] else s.live.value
  }

  function Dequeue(s: State): State
    requires !s.QueueEmpty()
  {
    var source := Next(s);
    var h := s.hist.(dequeued := s.hist.dequeued + [source]);
    if s.snapshots != [] then
      s.(snapshots := s.snapshots[1..], waitSpans := s.waitSpans - {source.captureId}, hist := h)
    else
      s.(live := None, waitSpans := s.waitSpans - {source.captureId}, hist := h)
  }

  function Fail(s: State, source: Source): State {
    s.(hist := s.hist.(failed := s.hist.failed + [source])).Publish()
  }

  function SendDone(s: State, source: Source): State {
    s.(sentFrames := Wrap(s.sentFrames + 1), hist := s.hist.(sent := s.hist.sent + [source])).Publish()
  }

  /** Past the second epoch guard the send is issued and the task waits for the socket. */
  function Issue(s: State, source: Source, since: nat): State
    requires since <= s.hist.clears
  {
    s.(tasks := s.tasks + [Sending(source)],
       hist := s.hist.(issued := s.hist.issued + [source], lags := s.hist.lags + [s.hist.clears - since]))
  }

  /** The drain loop from its head, for a task just resumed (and no longer listed), to its next await or its end. */
  function DrainLoop(s: State, encodes: Source -> bool): State
    decreases s.Count()
  {
    if s.QueueEmpty() then
      var done := s.(draining := false);
      if !done.QueueEmpty() then done.(draining := true, tasks := done.tasks + [Spawned]) else done
    else
      var source, d := Next(s), Dequeue(s);
      if !encodes(source) then
        DrainLoop(Fail(d, source), encodes)
      else if source.mode.Snapshot? then
        d.(tasks := d.tasks + [Saving(source, d.epoch, d.hist.clears)])
      else
        Issue(d, source, d.hist.clears)
  }

  /** Resume the task at position i; `ok` is what its await produced. */
  function Resume(s: State, i: nat, ok: bool, encodes: Source -> bool): State
    requires i < |s.tasks|
    requires s.tasks[i].Saving? ==> s.tasks[i].since <= s.hist.clears
  {
    var r := s.(tasks := s.tasks[..i] + s.tasks[i + 1..]);
    match s.tasks[i]
    case Spawned =>
      DrainLoop(r, encodes)
    case Saving(source, sourceEpoch, since) =>
      if !ok then
        DrainLoop(Fail(r, source), encodes)
      else if sourceEpoch != r.epoch then
        DrainLoop(Fail(r.Publish(), source), encodes)
      else
        Issue(r.Publish(), source, since)
    case Sending(source) =>
      if !ok then
        DrainLoop(Fail(r, source), encodes)
      else
        DrainLoop(SendDone(r, source), encodes)
  }

  // --- the invariant ---------------------------------------------------------------------------------------

  function TaskSource(task: DrainTask): multiset<Source> {
    if task.Spawned? then multiset{} else multiset{task.source}
  }

  /** The sources in flight. */
  function TaskSources(tasks: seq<DrainTask>): multiset<Source> {
    if tasks == [] then multiset{}
    else TaskSources(tasks[..|tasks| - 1]) + TaskSource(tasks[|tasks| - 1])
  }

  /** The five ends a frame can meet. */
  function Finished(h: History): multiset<Source> {
    multiset(h.sent) + multiset(h.failed) + multiset(h.rejected) + multiset(h.superseded) + multiset(h.cleared)
  }

  /** A drain task exists exactly when `draining`, never more than one, and work is never left without one. */
  predicate OneDrainer(s: State) {
    && |s.tasks| == (if s.draining then 1 else 0)
    && (!s.QueueEmpty() ==> s.draining)
  }

  /** The frames of every class: waiting, in flight, finished. */
  function Accounted(s: State): multiset<Source> {
    multiset(s.Queued()) + TaskSources(s.tasks) + Finished(s.hist)
  }

  /** Every submitted frame has exactly one fate. */
  predicate Conserved(s: State) {
    multiset(s.hist.submitted) == Accounted(s)
  }

  /** The counters are the sizes of their classes, in 64-bit arithmetic. */
  predicate Counted(s: State) {
    && s.sentFrames == Wrap(|s.hist.sent|)
    && s.droppedLiveFrames == Wrap(|s.hist.superseded|)
    && s.epoch == Wrap(s.hist.clears)
    && |s.snapshots| <= MAXIMUM_SNAPSHOTS
  }

  /** The published depth is current, except that a task may hold one frame taken since. */
  predicate DepthPublished(s: State) {
    s.queueDepth == s.Count() || (s.queueDepth == s.Count() + 1 && |s.tasks| == 1 && !s.tasks[0].Spawned?)
  }

  /** No wait span outlives its frame's stay in the queue. */
  predicate SpansQueued(s: State) {
    s.waitSpans <= Ids(s.Queued())
  }

  predicate IsSnapshot(source: Source) {
    source.mode.Snapshot?
  }

  predicate IsLive(source: Source) {
    source.mode.Live?
  }

  /** Sources taken by a save that has not finished. */
  function SavingSource(tasks: seq<DrainTask>): seq<Source> {
    if |tasks| == 1 && tasks[0].Saving? then [tasks[0].source] else []
  }

  /** Snapshots leave in submission order, live frames in submission order, and sends are issued in dequeue order. */
  predicate InOrder(s: State) {
    && IsSubsequence(Select(s.hist.dequeued, IsSnapshot) + s.snapshots, Select(s.hist.submitted, IsSnapshot))
    && IsSubsequence(Select(s.hist.dequeued, IsLive) + LiveAsSeq(s.live), Select(s.hist.submitted, IsLive))
    && IsSubsequence(s.hist.issued + SavingSource(s.tasks), s.hist.dequeued)
    && (forall i | 0 <= i < |s.snapshots| :: s.snapshots[i].mode.Snapshot?)
    && (s.live.Some? ==> s.live.value.mode.Live?)
  }

  /** A pending save remembers the epoch of its dequeue; an issued send saw no clear since, modulo 2^64. */
  predicate EpochGuarded(s: State) {
    && (forall i | 0 <= i < |s.tasks| && s.tasks[i].Saving? ::
          s.tasks[i].since <= s.hist.clears && s.tasks[i].sourceEpoch == Wrap(s.tasks[i].since))
    && (forall i | 0 <= i < |s.hist.lags| :: Wrap(s.hist.lags[i]) == 0 && s.hist.lags[i] <= s.hist.clears)
    && |s.hist.lags| == |s.hist.issued|
  }

  predicate Inv(s: State) {
    OneDrainer(s) && Conserved(s) && Counted(s) && DepthPublished(s) && SpansQueued(s) && InOrder(s) && EpochGuarded(s)
  }
}
