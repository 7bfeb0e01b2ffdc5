/**
 * The backend runtime between awaits: frames enter one at a time under the ingest lock, a finished board session swaps
 * the rig, and everything else may happen at any suspension point.
 */
module Runtime {
  import opened Wrappers
  import Pairing

  const REQUIRED_OBSERVATIONS: nat := 12

  // --- board sessions ------------------------------------------------------------------------------------

  datatype SessionState = Collecting | Validating | Failed | Ready

  /**
   * `failedEarly` notes a failure before any installation, `raced` a failure while one of the session's frames was being
   * examined, `installed` that its rig went live.
   */
  datatype Session = Session(state: SessionState, first: nat, second: nat, failedEarly: bool, raced: bool, installed: bool)

  datatype Verdict = Rejected | Changed | Accepted

  const NEW_SESSION := Session(Collecting, 0, 0, false, false, false)

  function Fail(s: Session, midOffer: bool): Session {
    s.(state := Failed, failedEarly := s.failedEarly || !s.installed, raced := s.raced || midOffer)
  }

  /** The verdict on one frame lands; the state tested before it was examined is not tested again. */
  function Commit(s: Session, second: bool, verdict: Verdict): Session {
    match verdict
    case Rejected => s
    case Changed => Fail(s, false)
    case Accepted =>
      if (if second then s.second else s.first) >= REQUIRED_OBSERVATIONS then s
      else
        var t := if second then s.(second := s.second + 1) else s.(first := s.first + 1);
        if t.first >= REQUIRED_OBSERVATIONS && t.second >= REQUIRED_OBSERVATIONS then t.(state := Validating) else t
  }

  /** When a failed session comes back to life: exactly on the accepted frame that completes both phones' counts. */
  lemma CommitRevives(s: Session, second: bool, verdict: Verdict)
    requires s.state == Failed
    ensures Commit(s, second, verdict).state != Failed <==>
              && verdict == Accepted
              && (if second then s.second == REQUIRED_OBSERVATIONS - 1 && s.first >= REQUIRED_OBSERVATIONS
                  else s.first == REQUIRED_OBSERVATIONS - 1 && s.second >= REQUIRED_OBSERVATIONS)
    ensures Commit(s, second, verdict).state == Failed || Commit(s, second, verdict).state == Validating
  {
  }

  // --- frames, publication and clients ---------------------------------------------------------------------

  datatype Character = Character(frameId: nat, calibration: nat, firstDevice: string, secondDevice: string)

  /** A published frame and the calibration active at that moment. */
  datatype Publication = Publication(character: Character, active: Option<nat>)

  datatype Item = Snapshot(frameId: nat) | Ack

  /** A connecting client first reads the latest snapshot, and subscribes after that has been sent. */
  datatype Client = Greeting(latest: Option<nat>) | Subscribed(pending: Option<Item>, seen: seq<nat>)

  type Clients = map<nat, Client>

  function Put(c: Client, item: Item): Client {
    match c
    case Greeting(_) => c
    case Subscribed(_, seen) => Subscribed(Some(item), seen)
  }

  /** Latest wins: whatever waits is displaced. */
  function Broadcast(clients: Clients, item: Item): Clients {
    map c | c in clients :: Put(clients[c], item)
  }

  /** Where the holder of the ingest lock is suspended. */
  datatype Work =
    | Idle
    | Processing(pair: Pairing.Pair, live: bool)
    | Encoding(character: Character)
    | Saving(job: nat)
    | Offering(job: nat, second: bool, examining: bool)
    | Offered(job: nat)
    | Solving(job: nat)

  datatype Rig = Rig(calibration: Option<nat>, queues: Pairing.Queues, invalid: bool, nextFrameId: nat)

  datatype Board = Board(sessions: seq<Session>, running: bool, cancelled: bool)

  datatype Output = Output(published: seq<Publication>, store: Option<Character>, clients: Clients)

  datatype State = State(work: Work, rig: Rig, board: Board, output: Output)

  datatype Event =
    | FrameArrives(frame: Pairing.Frame, live: bool, steady: bool, ready: bool)
    | Processed(ok: bool, empty: bool)
    | Encoded(ok: bool)
    | BoardPaired
    | Saved(ok: bool)
    | OfferBegins
    | OfferEnds(verdict: Verdict)
    | Concluded
    | Solved(ok: bool, late: bool, rig: nat)
    | RequestRegistration
    | ClearRegistration
    | LoopEnds
    | RegisterDevice(device: string)
    | Connect(client: nat)
    | Subscribe(client: nat)
    | Disconnect(client: nat)
    | Deliver(client: nat)
    | Announce

  function EmptyQueues(cfg: Pairing.Config): Pairing.Queues {
    map[cfg.first := [], cfg.second := []]
  }

  function Initial(cfg: Pairing.Config, calibration: Option<nat>): State {
    State(Idle, Rig(calibration, EmptyQueues(cfg), false, 1), Board([], false, false), Output([], None, map[]))
  }

  predicate Shaped(cfg: Pairing.Config, s: State) {
    cfg.Valid() && Pairing.HasQueues(cfg, s.rig.queues)
  }

  function Announced(s: State): State {
    s.(output := s.output.(clients := Broadcast(s.output.clients, Ack)))
  }

  predicate MidOffer(w: Work, job: nat) {
    w.Offering? && w.examining && w.job == job
  }

  /** Failing the newest session from the event loop, wherever the lock holder is. */
  function FailCurrent(s: State): State {
    var n := |s.board.sessions|;
    if n == 0 then s
    else s.(board := s.board.(sessions := s.board.sessions[n - 1 := Fail(s.board.sessions[n - 1], MidOffer(s.work, n - 1))]))
  }

  function UpdateSession(s: State, job: nat, session: Session, work: Work): State
    requires job < |s.board.sessions|
  {
    s.(work := work, board := s.board.(sessions := s.board.sessions[job := session]))
  }

  // --- one step ------------------------------------------------------------------------------------------------

  /** `steady` is what the freshness latch says of the frame, `ready` whether the rig in force may be used at all. */
  function FrameStep(cfg: Pairing.Config, s: State, frame: Pairing.Frame, live: bool, steady: bool, ready: bool): (t: State)
    requires Shaped(cfg, s)
    ensures Shaped(cfg, t)
  {
    if s.work != Idle || s.board.running || s.rig.calibration.None? then s
    else if s.rig.invalid || !steady then Announced(s.(rig := s.rig.(invalid := true)))
    else if !ready then Announced(s)
    else
      var outcome := Pairing.OfferOutcome(cfg, s.rig.queues, frame, s.rig.calibration.value);
      var rig := s.rig.(queues := Pairing.OfferQueues(cfg, s.rig.queues, frame));
      s.(rig := rig, work := if outcome.paired.Some? then Processing(outcome.paired.value, live) else Idle)
  }

  /** Assembly takes the next number only after its checks; an empty live frame uses its number up unpublished. */
  function ProcessedStep(s: State, ok: bool, empty: bool): State {
    if !s.work.Processing? then s
    else if !ok || s.rig.calibration != Some(s.work.pair.calibration) then s.(work := Idle)
    else
      var character := Character(s.rig.nextFrameId, s.work.pair.calibration, s.work.pair.first.device, s.work.pair.second.device);
      s.(rig := s.rig.(nextFrameId := s.rig.nextFrameId + 1), work := if s.work.live && empty then Idle else Encoding(character))
  }

  function EncodedStep(s: State, ok: bool): State {
    if !s.work.Encoding? then s
    else if !ok then s.(work := Idle)
    else
      var c := s.work.character;
      s.(work := Idle,
         output := Output(s.output.published + [Publication(c, s.rig.calibration)], Some(c),
                          Broadcast(s.output.clients, Snapshot(c.frameId))))
  }

  function BoardPairedStep(s: State): State {
    var n := |s.board.sessions|;
    if s.work != Idle || n == 0 || s.board.sessions[n - 1].state != Collecting then s
    else s.(work := Saving(n - 1))
  }

  function SavedStep(s: State, ok: bool): State {
    if !s.work.Saving? || s.work.job >= |s.board.sessions| then s
    else if !ok then Announced(UpdateSession(s, s.work.job, Fail(s.board.sessions[s.work.job], false), Idle))
    else s.(work := Offering(s.work.job, false, false))
  }

  function NextOffer(w: Work): Work
    requires w.Offering?
  {
    if w.second then Offered(w.job) else Offering(w.job, true, false)
  }

  function OfferBeginsStep(s: State): State {
    if !s.work.Offering? || s.work.examining || s.work.job >= |s.board.sessions| then s
    else if s.board.sessions[s.work.job].state != Collecting then s.(work := NextOffer(s.work))
    else s.(work := s.work.(examining := true))
  }

  function OfferEndsStep(s: State, verdict: Verdict): State {
    if !s.work.Offering? || !s.work.examining || s.work.job >= |s.board.sessions| then s
    else UpdateSession(s, s.work.job, Commit(s.board.sessions[s.work.job], s.work.second, verdict), NextOffer(s.work))
  }

  function ConcludedStep(s: State): State {
    if !s.work.Offered? || s.work.job >= |s.board.sessions| then s
    else Announced(s.(work := if s.board.sessions[s.work.job].state == Validating then Solving(s.work.job) else Idle))
  }

  /** The swap: rig, processor, pairer and freshness change together, with the ingest lock held. */
  function SolvedStep(cfg: Pairing.Config, s: State, ok: bool, late: bool, rig: nat): (t: State)
    requires Shaped(cfg, s)
    ensures Shaped(cfg, t)
  {
    if !s.work.Solving? || s.work.job >= |s.board.sessions| then s
    else
      var job := s.board.sessions[s.work.job];
      if !ok then Announced(UpdateSession(s, s.work.job, Fail(job, false), Idle))
      else if job.state != Validating || late then UpdateSession(s, s.work.job, Fail(job, false), Idle)
      else
        var t := UpdateSession(s, s.work.job, job.(state := Ready, installed := true), Idle);
        Announced(t.(rig := Rig(Some(rig), EmptyQueues(cfg), false, s.rig.nextFrameId)))
  }

  function RegistrationStep(s: State): State {
    if s.board.running then s
    else s.(board := Board(s.board.sessions + [NEW_SESSION], true, false))
  }

  function ClearStep(s: State): State {
    Announced(FailCurrent(s.(board := s.board.(cancelled := s.board.running))))
  }

  /** The calibration loop returns: it was cancelled, ran out of time, or saw a final state. */
  function LoopEndsStep(s: State): State {
    var n := |s.board.sessions|;
    if !s.board.running || n == 0 then s
    else
      var state := s.board.sessions[n - 1].state;
      var t := if s.board.cancelled || state == Collecting || state == Validating then FailCurrent(s) else s;
      Announced(t.(board := t.board.(running := false, cancelled := false)))
  }

  function ConnectStep(s: State, c: nat): State {
    if c in s.output.clients then s
    else
      var latest := if s.output.store.Some? then Some(s.output.store.value.frameId) else None;
      s.(output := s.output.(clients := s.output.clients[c := Greeting(latest)]))
  }

  function SubscribeStep(s: State, c: nat): State {
    if c !in s.output.clients || !s.output.clients[c].Greeting? then s
    else
      var latest := s.output.clients[c].latest;
      s.(output := s.output.(clients := s.output.clients[c := Subscribed(None, if latest.Some? then [latest.value] else [])]))
  }

  function DeliverStep(s: State, c: nat): State {
    if c !in s.output.clients || !s.output.clients[c].Subscribed? || s.output.clients[c].pending.None? then s
    else
      var item, seen := s.output.clients[c].pending.value, s.output.clients[c].seen;
      s.(output := s.output.(clients := s.output.clients[c :=
        Subscribed(None, if item.Snapshot? then seen + [item.frameId] else seen)]))
  }

  function Step(cfg: Pairing.Config, s: State, e: Event): (t: State)
    requires Shaped(cfg, s)
    ensures Shaped(cfg, t)
  {
    match e
    case FrameArrives(frame, live, steady, ready) => FrameStep(cfg, s, frame, live, steady, ready)
    case Processed(ok, empty) => ProcessedStep(s, ok, empty)
    case Encoded(ok) => EncodedStep(s, ok)
    case BoardPaired => BoardPairedStep(s)
    case Saved(ok) => SavedStep(s, ok)
    case OfferBegins => OfferBeginsStep(s)
    case OfferEnds(verdict) => OfferEndsStep(s, verdict)
    case Concluded => ConcludedStep(s)
    case Solved(ok, late, rig) => SolvedStep(cfg, s, ok, late, rig)
    case RequestRegistration => RegistrationStep(s)
    case ClearRegistration => ClearStep(s)
    case LoopEnds => LoopEndsStep(s)
    case RegisterDevice(device) => s.(rig := s.rig.(queues := Pairing.ClearDevice(cfg, s.rig.queues, device)))
    case Connect(c) => ConnectStep(s, c)
    case Subscribe(c) => SubscribeStep(s, c)
    case Disconnect(c) => s.(output := s.output.(clients := s.output.clients - {c}))
    case Deliver(c) => DeliverStep(s, c)
    case Announce => Announced(s)
  }

  function Exec(cfg: Pairing.Config, s: State, events: seq<Event>): (t: State)
    requires Shaped(cfg, s)
    ensures Shaped(cfg, t)
    decreases |events|
  {
    if events == [] then s else Exec(cfg, Step(cfg, s, events[0]), events[1..])
  }

  function Run(cfg: Pairing.Config, calibration: Option<nat>, events: seq<Event>): (s: State)
    requires cfg.Valid()
    ensures Shaped(cfg, s)
  {
    Exec(cfg, Initial(cfg, calibration), events)
  }

  // --- publication -----------------------------------------------------------------------------------------------

  /** Numbers strictly increase, each frame bears the calibration then active and one source from each phone. */
  predicate WellPublished(cfg: Pairing.Config, published: seq<Publication>, next: nat) {
    && (forall i, j | 0 <= i < j < |published| :: published[i].character.frameId < published[j].character.frameId)
    && (forall i | 0 <= i < |published| :: GoodFrame(cfg, published[i].character, published[i].active, next))
  }

  predicate GoodFrame(cfg: Pairing.Config, c: Character, active: Option<nat>, next: nat) {
    c.frameId < next && active == Some(c.calibration) && c.firstDevice == cfg.first && c.secondDevice == cfg.second
  }

  /** What the lock holder carries belongs to the rig in force, and its number is still unused. */
  predicate GoodWork(cfg: Pairing.Config, s: State) {
    match s.work
    case Processing(pair, _) =>
      s.rig.calibration == Some(pair.calibration) && pair.first.device == cfg.first && pair.second.device == cfg.second
    case Encoding(c) =>
      GoodFrame(cfg, c, s.rig.calibration, s.rig.nextFrameId)
      && forall i | 0 <= i < |s.output.published| :: s.output.published[i].character.frameId < c.frameId
    case _ => true
  }

  function Latest(published: seq<Publication>): Option<nat> {
    if published == [] then None else Some(published[|published| - 1].character.frameId)
  }

  predicate AtMost(id: nat, latest: Option<nat>) {
    latest.Some? && id <= latest.value
  }

  predicate Ascending(ids: seq<nat>) {
    forall i, j | 0 <= i < j < |ids| :: ids[i] < ids[j]
  }

  /** A client has seen increasing numbers, and a waiting frame is the latest one and newer than all it has seen. */
  predicate GoodClient(c: Client, latest: Option<nat>) {
    match c
    case Greeting(g) => g.Some? ==> AtMost(g.value, latest)
    case Subscribed(pending, seen) =>
      && Ascending(seen) && (forall i | 0 <= i < |seen| :: AtMost(seen[i], latest))
      && (pending.Some? && pending.value.Snapshot? ==>
            Some(pending.value.frameId) == latest && forall i | 0 <= i < |seen| :: seen[i] < pending.value.frameId)
  }

  predicate GoodOutput(o: Output) {
    && o.store == (if o.published == [] then None else Some(o.published[|o.published| - 1].character))
    && forall c | c in o.clients :: GoodClient(o.clients[c], Latest(o.published))
  }

  predicate PublicationInv(cfg: Pairing.Config, s: State) {
    WellPublished(cfg, s.output.published, s.rig.nextFrameId) && GoodWork(cfg, s) && GoodOutput(s.output)
  }

  /** Queued frames lie in their own phone's queue, so that a pair always has one frame of each. */
  predicate QueuesInv(cfg: Pairing.Config, s: State)
    requires Shaped(cfg, s)
  {
    Pairing.NoMissedPair(cfg, s.rig.queues) && Pairing.WellQueued(cfg, s.rig.queues)
  }

  lemma AckKeeps(cfg: Pairing.Config, s: State)
    requires PublicationInv(cfg, s)
    ensures PublicationInv(cfg, Announced(s))
  {
    hide WellPublished, AtMost, Ascending;
    forall c | c in s.output.clients
      ensures GoodClient(Put(s.output.clients[c], Ack), Latest(s.output.published))
    {
      assert GoodClient(s.output.clients[c], Latest(s.output.published));
    }
  }

  /** A newer frame may be put before every client that was in order before it. */
  lemma NewerKeepsClient(c: Client, latest: Option<nat>, id: nat)
    requires GoodClient(c, latest) && (latest.Some? ==> latest.value < id)
    ensures GoodClient(Put(c, Snapshot(id)), Some(id))
  {
  }

  lemma EncodedKeeps(cfg: Pairing.Config, s: State, ok: bool)
    requires Shaped(cfg, s) && QueuesInv(cfg, s) && PublicationInv(cfg, s)
    ensures Shaped(cfg, EncodedStep(s, ok)) && QueuesInv(cfg, EncodedStep(s, ok)) && PublicationInv(cfg, EncodedStep(s, ok))
  {
    if s.work.Encoding? && ok {
      var c := s.work.character;
      assert Latest(s.output.published).Some? ==> Latest(s.output.published).value < c.frameId;
      forall k | k in s.output.clients
        ensures GoodClient(Put(s.output.clients[k], Snapshot(c.frameId)), Some(c.frameId))
      {
        NewerKeepsClient(s.output.clients[k], Latest(s.output.published), c.frameId);
      }
      hide GoodClient;
    }
  }

  lemma ProcessedKeeps(cfg: Pairing.Config, s: State, ok: bool, empty: bool)
    requires Shaped(cfg, s) && QueuesInv(cfg, s) && PublicationInv(cfg, s)
    ensures var t := ProcessedStep(s, ok, empty); Shaped(cfg, t) && QueuesInv(cfg, t) && PublicationInv(cfg, t)
  {
    hide GoodOutput, Pairing.NoMissedPair, Pairing.WellQueued;
  }

  /** One client moves on its own: it connects, subscribes, or takes what waits for it. */
  lemma ClientKeeps(cfg: Pairing.Config, s: State, e: Event)
    requires Shaped(cfg, s) && QueuesInv(cfg, s) && PublicationInv(cfg, s)
    requires e.Connect? || e.Subscribe? || e.Deliver? || e.Disconnect?
    ensures QueuesInv(cfg, Step(cfg, s, e)) && PublicationInv(cfg, Step(cfg, s, e))
  {
    hide WellPublished, Pairing.NoMissedPair, Pairing.WellQueued;
  }

  lemma QueuesKept(cfg: Pairing.Config, s: State, frame: Pairing.Frame)
    requires Shaped(cfg, s) && QueuesInv(cfg, s)
    ensures Pairing.NoMissedPair(cfg, Pairing.OfferQueues(cfg, s.rig.queues, frame))
    ensures Pairing.WellQueued(cfg, Pairing.OfferQueues(cfg, s.rig.queues, frame))
  {
    hide Pairing.NoMissedPair, Pairing.WellQueued, Pairing.Partner;
    if Pairing.Admitted(cfg, frame) {
      if Pairing.Partner(cfg, s.rig.queues, frame).Some? {
        Pairing.ConsumedApart(cfg, s.rig.queues, frame);
      } else {
        Pairing.RetainedApart(cfg, s.rig.queues, frame);
      }
    }
  }

  lemma EmittedPair(cfg: Pairing.Config, s: State, frame: Pairing.Frame, calibration: nat)
    requires Shaped(cfg, s) && QueuesInv(cfg, s)
    ensures var p := Pairing.OfferOutcome(cfg, s.rig.queues, frame, calibration).paired;
            p.Some? ==> p.value.calibration == calibration && p.value.first.device == cfg.first && p.value.second.device == cfg.second
  {
    var p := Pairing.OfferOutcome(cfg, s.rig.queues, frame, calibration).paired;
    if p.Some? {
      assert p.value.calibration == calibration;
      hide Pairing.OfferOutcome;
      PairedIsAdmitted(cfg, s, frame, calibration);
      Pairing.EmittedIsProper(cfg, s.rig.queues, frame, calibration);
    }
  }

  lemma PairedIsAdmitted(cfg: Pairing.Config, s: State, frame: Pairing.Frame, calibration: nat)
    requires Shaped(cfg, s) && Pairing.OfferOutcome(cfg, s.rig.queues, frame, calibration).paired.Some?
    ensures Pairing.Admitted(cfg, frame) && Pairing.Partner(cfg, s.rig.queues, frame).Some?
  {
  }

  lemma FrameKeeps(cfg: Pairing.Config, s: State, frame: Pairing.Frame, live: bool, steady: bool, ready: bool)
    requires Shaped(cfg, s) && QueuesInv(cfg, s) && PublicationInv(cfg, s)
    ensures var t := FrameStep(cfg, s, frame, live, steady, ready); QueuesInv(cfg, t) && PublicationInv(cfg, t)
  {
    if s.rig.calibration.Some? {
      QueuesKept(cfg, s, frame);
      EmittedPair(cfg, s, frame, s.rig.calibration.value);
      hide Pairing.OfferOutcome, Pairing.OfferQueues, Pairing.NoMissedPair, Pairing.WellQueued, GoodOutput, WellPublished;
      if s.rig.invalid || !steady {
        var u := s.(rig := s.rig.(invalid := true));
        assert PublicationInv(cfg, u);
        AckKeeps(cfg, u);
      }
      AckKeeps(cfg, s);
    }
  }

  lemma EmptyQueuesGood(cfg: Pairing.Config)
    requires cfg.Valid()
    ensures Pairing.HasQueues(cfg, EmptyQueues(cfg))
    ensures Pairing.NoMissedPair(cfg, EmptyQueues(cfg)) && Pairing.WellQueued(cfg, EmptyQueues(cfg))
  {
  }

  /** Swapping the rig happens with no pair or frame in hand, so nothing old can be published after it. */
  lemma SolvedKeeps(cfg: Pairing.Config, s: State, ok: bool, late: bool, rig: nat)
    requires Shaped(cfg, s) && QueuesInv(cfg, s) && PublicationInv(cfg, s)
    ensures var t := SolvedStep(cfg, s, ok, late, rig); QueuesInv(cfg, t) && PublicationInv(cfg, t)
  {
    EmptyQueuesGood(cfg);
    AckKeeps(cfg, s);
    hide Pairing.NoMissedPair, Pairing.WellQueued, WellPublished, GoodClient, Broadcast, EmptyQueues;
  }

  /** Nothing happened to the rig or to what was published, and no pair or frame was picked up. */
  predicate Neutral(s: State, t: State) {
    && t.rig == s.rig && (t.output == s.output || t.output == Announced(s).output)
    && (t.work == s.work || !(t.work.Processing? || t.work.Encoding?))
  }

  lemma NeutralKeeps(cfg: Pairing.Config, s: State, t: State)
    requires Shaped(cfg, s) && QueuesInv(cfg, s) && PublicationInv(cfg, s) && Neutral(s, t)
    ensures Shaped(cfg, t) && QueuesInv(cfg, t) && PublicationInv(cfg, t)
  {
    AckKeeps(cfg, s);
    hide Pairing.NoMissedPair, Pairing.WellQueued, WellPublished, GoodClient, Broadcast;
  }

  /** The board's steps, the loop's and announcements are neutral. */
  lemma BoardNeutral(cfg: Pairing.Config, s: State, e: Event)
    requires Shaped(cfg, s)
    requires e.BoardPaired? || e.Saved? || e.OfferBegins? || e.OfferEnds? || e.Concluded? || e.RequestRegistration?
             || e.ClearRegistration? || e.LoopEnds? || e.Announce?
    ensures Neutral(s, Step(cfg, s, e))
  {
    hide Broadcast, Commit, Fail;
  }

  lemma ClearDeviceKeeps(cfg: Pairing.Config, s: State, device: string)
    requires Shaped(cfg, s) && QueuesInv(cfg, s) && PublicationInv(cfg, s)
    ensures QueuesInv(cfg, Step(cfg, s, RegisterDevice(device))) && PublicationInv(cfg, Step(cfg, s, RegisterDevice(device)))
  {
    hide Pairing.Pairable, WellPublished, GoodOutput;
  }

  lemma StepPublishes(cfg: Pairing.Config, s: State, e: Event)
    requires Shaped(cfg, s) && QueuesInv(cfg, s) && PublicationInv(cfg, s)
    ensures QueuesInv(cfg, Step(cfg, s, e)) && PublicationInv(cfg, Step(cfg, s, e))
  {
    hide QueuesInv, PublicationInv, Neutral, FrameStep, ProcessedStep, EncodedStep, SolvedStep, ConnectStep, SubscribeStep,
         DeliverStep;
    match e
    case FrameArrives(frame, live, steady, ready) =>
      FrameKeeps(cfg, s, frame, live, steady, ready);
    case Processed(ok, empty) =>
      ProcessedKeeps(cfg, s, ok, empty);
    case Encoded(ok) =>
      EncodedKeeps(cfg, s, ok);
    case Solved(ok, late, rig) =>
      SolvedKeeps(cfg, s, ok, late, rig);
    case RegisterDevice(device) =>
      ClearDeviceKeeps(cfg, s, device);
    case Connect(_) =>
      ClientKeeps(cfg, s, e);
    case Subscribe(_) =>
      ClientKeeps(cfg, s, e);
    case Deliver(_) =>
      ClientKeeps(cfg, s, e);
    case Disconnect(_) =>
      ClientKeeps(cfg, s, e);
    case _ =>
      BoardNeutral(cfg, s, e);
      NeutralKeeps(cfg, s, Step(cfg, s, e));
  }

  lemma {:induction false} ExecPublishes(cfg: Pairing.Config, s: State, events: seq<Event>)
    requires Shaped(cfg, s) && QueuesInv(cfg, s) && PublicationInv(cfg, s)
    ensures QueuesInv(cfg, Exec(cfg, s, events)) && PublicationInv(cfg, Exec(cfg, s, events))
    decreases |events|
  {
    hide Step, PublicationInv, QueuesInv;
    if events != [] {
      StepPublishes(cfg, s, events[0]);
      ExecPublishes(cfg, Step(cfg, s, events[0]), events[1..]);
    }
  }

  /**
   * Over any run, recalibrations included: frame numbers strictly increase, every frame bears the calibration active when
   * it was published and one source of each phone, the store holds the last one published, and every client sees
   * increasing numbers with nothing but the latest waiting for it.
   */
  lemma RunPublishes(cfg: Pairing.Config, calibration: Option<nat>, events: seq<Event>)
    requires cfg.Valid()
    ensures PublicationInv(cfg, Run(cfg, calibration, events)) && QueuesInv(cfg, Run(cfg, calibration, events))
  {
    EmptyQueuesGood(cfg);
    assert PublicationInv(cfg, Initial(cfg, calibration));
    hide PublicationInv, QueuesInv, Exec;
    assert QueuesInv(cfg, Initial(cfg, calibration)) by { InitialQueues(cfg, calibration); }
    ExecPublishes(cfg, Initial(cfg, calibration), events);
  }

  lemma InitialQueues(cfg: Pairing.Config, calibration: Option<nat>)
    requires cfg.Valid()
    ensures QueuesInv(cfg, Initial(cfg, calibration))
  {
    EmptyQueuesGood(cfg);
    hide Pairing.NoMissedPair, Pairing.WellQueued;
  }
}
