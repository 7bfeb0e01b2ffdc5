/** The runtime object itself: its fields, changed in place by the code between two awaits, and what they always satisfy. */
module AppRuntime {
  import opened Wrappers
  import opened Runtime
  import Pairing
  import Progress
  import Recalibration

  /** What holds between any two awaits: of the queues, of everything published and of the board's sessions. */
  ghost predicate Sound(cfg: Pairing.Config, s: State)
    requires Shaped(cfg, s)
  {
    QueuesInv(cfg, s) && PublicationInv(cfg, s) && Recalibration.BoardInv(s)
  }

  lemma StepSound(cfg: Pairing.Config, s: State, e: Event)
    requires Shaped(cfg, s) && Sound(cfg, s)
    ensures Sound(cfg, Step(cfg, s, e))
  {
    hide QueuesInv, PublicationInv, Recalibration.BoardInv, Step;
    StepPublishes(cfg, s, e);
    Recalibration.StepBoard(cfg, s, e);
  }

  lemma InitialSound(cfg: Pairing.Config, calibration: Option<nat>)
    requires cfg.Valid()
    ensures Sound(cfg, Initial(cfg, calibration))
  {
    InitialQueues(cfg, calibration);
    hide QueuesInv, EmptyQueues;
    assert PublicationInv(cfg, Initial(cfg, calibration));
  }

  // --- what the steps mean for the caller --------------------------------------------------------------------

  /** A frame is taken up only as part of a proper pair, stamped with the calibration in force. */
  lemma FrameTakenUp(cfg: Pairing.Config, s: State, frame: Pairing.Frame, live: bool, steady: bool, ready: bool)
    requires Shaped(cfg, s) && Sound(cfg, s)
    ensures var t := FrameStep(cfg, s, frame, live, steady, ready);
            t.work != s.work ==>
              && s.work == Idle && !s.board.running && !s.rig.invalid && t.work.Processing?
              && Some(t.work.pair.calibration) == s.rig.calibration
              && Pairing.ProperPair(cfg, t.work.pair) && frame in [t.work.pair.first, t.work.pair.second]
  {
    hide PublicationInv, Pairing.OfferQueues, Pairing.NoMissedPair, Pairing.WellQueued, Broadcast, Pairing.ProperPair;
    if s.rig.calibration.Some? && Pairing.OfferOutcome(cfg, s.rig.queues, frame, s.rig.calibration.value).paired.Some? {
      var c := s.rig.calibration.value;
      EmittedPair(cfg, s, frame, c);
      hide Pairing.OfferOutcome;
      PairedIsAdmitted(cfg, s, frame, c);
      Pairing.EmittedIsProper(cfg, s.rig.queues, frame, c);
      var p := Pairing.OfferOutcome(cfg, s.rig.queues, frame, c).paired.value;
      assert frame in multiset{p.first, p.second};
    }
  }

  lemma NewQueues(cfg: Pairing.Config, queues: Pairing.Queues)
    requires cfg.Valid() && Pairing.HasQueues(cfg, queues) && queues[cfg.first] == [] && queues[cfg.second] == []
    ensures queues == EmptyQueues(cfg)
  {
  }

  lemma SessionSound(cfg: Pairing.Config, s: State, i: nat)
    requires Shaped(cfg, s) && Sound(cfg, s) && i < |s.board.sessions|
    ensures var x := s.board.sessions[i]; x.failedEarly && !x.raced ==> x.state == Failed
  {
    assert Recalibration.SessionOk(s.board.sessions[i]);
  }

  /** A numbered frame is newer than all published ones, of the calibration in force, from the two phones in order. */
  predicate Numbered(cfg: Pairing.Config, s: State, c: Character) {
    && GoodFrame(cfg, c, s.rig.calibration, s.rig.nextFrameId)
    && forall i | 0 <= i < |s.output.published| :: s.output.published[i].character.frameId < c.frameId
  }

  /** The last frame published is in the store, and it is what waits for every subscriber, newer than all they have seen. */
  predicate Everywhere(o: Output) {
    && o.published != [] && o.store == Some(o.published[|o.published| - 1].character)
    && forall c | c in o.clients && o.clients[c].Subscribed? ::
         && o.clients[c].pending == Some(Snapshot(o.store.value.frameId))
         && forall i | 0 <= i < |o.clients[c].seen| :: o.clients[c].seen[i] < o.store.value.frameId
  }

  lemma PublishedEverywhere(cfg: Pairing.Config, s: State, ok: bool)
    requires Shaped(cfg, s) && Sound(cfg, s)
    ensures var t := EncodedStep(s, ok);
            t.output != s.output ==> s.work.Encoding? && Everywhere(t.output)
                                     && t.output.published == s.output.published + [Publication(s.work.character, s.rig.calibration)]
  {
    if s.work.Encoding? && ok {
      EncodedKeeps(cfg, s, ok);
      var t := EncodedStep(s, ok);
      hide Pairing.NoMissedPair, Pairing.WellQueued, WellPublished;
      forall c | c in t.output.clients && t.output.clients[c].Subscribed?
        ensures t.output.clients[c].pending == Some(Snapshot(t.output.store.value.frameId))
        ensures forall i | 0 <= i < |t.output.clients[c].seen| :: t.output.clients[c].seen[i] < t.output.store.value.frameId
      {
        assert GoodClient(t.output.clients[c], Latest(t.output.published));
      }
    }
  }

  class AppRuntime {
    const cfg: Pairing.Config
    var pairer: Pairing.Pairer
    var work: Work
    var calibration: Option<nat>
    var invalid: bool
    var nextFrameId: nat
    var sessions: seq<Session>
    var running: bool
    var cancelled: bool
    ghost var published: seq<Publication>
    var store: Option<Character>
    var clients: Clients

    ghost predicate Valid()
      reads this, pairer
    {
      pairer.cfg == cfg && Shaped(cfg, Now()) && Sound(cfg, Now())
    }

    ghost function Now(): State
      reads this, pairer
    {
      State(work, Rig(calibration, pairer.queues, invalid, nextFrameId), Board(sessions, running, cancelled),
            Output(published, store, clients))
    }

    constructor (cfg: Pairing.Config, calibration: Option<nat>)
      requires cfg.Valid()
      ensures this.cfg == cfg && Now() == Initial(cfg, calibration) && Valid() && fresh(pairer)
    {
      this.cfg := cfg;
      pairer := new Pairing.Pairer(cfg);
      work := Idle;
      this.calibration := calibration;
      invalid := false;
      nextFrameId := 1;
      sessions := [];
      running := false;
      cancelled := false;
      published := [];
      store := None;
      clients := map[];
      new;
      InitialSound(cfg, calibration);
      NewQueues(cfg, pairer.queues);
      hide Sound;
    }

    /** Put the item before every subscriber, displacing whatever waits. */
    method BroadcastItem(item: Item)
      modifies this`clients
      ensures clients == Broadcast(old(clients), item)
    {
      var todo := clients.Keys;
      while todo != {}
        invariant todo <= clients.Keys == old(clients).Keys
        invariant forall c | c in todo :: clients[c] == old(clients)[c]
        invariant forall c | c in clients && c !in todo :: clients[c] == Put(old(clients)[c], item)
        decreases |todo|
      {
        var c :| c in todo;
        clients := clients[c := Put(clients[c], item)];
        todo := todo - {c};
      }
    }

    /** A decoded frame, with the ingest lock just taken. */
    method HandleFrame(frame: Pairing.Frame, live: bool, steady: bool, ready: bool)
      requires Valid()
      modifies this, pairer
      ensures Valid() && pairer == old(pairer)
      ensures Now() == FrameStep(cfg, old(Now()), frame, live, steady, ready)
      ensures work != old(work) ==>
                && old(work) == Idle && !running && !invalid && work.Processing? && Some(work.pair.calibration) == calibration
                && Pairing.ProperPair(cfg, work.pair) && frame in [work.pair.first, work.pair.second]
      ensures Progress.ReadyFor(old(Now()), steady, ready) && Progress.Completes(cfg, old(Now()), frame) ==>
                work.Processing? && work.live == live
      ensures published == old(published) && store == old(store) && calibration == old(calibration)
    {
      hide Sound, Pairing.OfferOutcome, Pairing.OfferQueues, Pairing.ProperPair, Broadcast, Progress.Completes;
      if work == Idle {
        Progress.TakenUpExactly(cfg, Now(), frame, live, steady, ready);
      }
      StepSound(cfg, Now(), FrameArrives(frame, live, steady, ready));
      FrameTakenUp(cfg, Now(), frame, live, steady, ready);
      if work != Idle || running || calibration.None? {
        return;
      }
      if invalid || !steady {
        invalid := true;
        BroadcastItem(Ack);
        return;
      }
      if !ready {
        BroadcastItem(Ack);
        return;
      }
      var outcome := pairer.Offer(frame, calibration.value);
      if outcome.paired.Some? {
        work := Processing(outcome.paired.value, live);
      }
    }

    /** The worker thread returns: number the character, or give up. */
    method FinishProcessing(ok: bool, empty: bool)
      requires Valid()
      modifies this
      ensures Valid() && Now() == ProcessedStep(old(Now()), ok, empty)
      ensures work != old(work) ==> work == Idle || (work.Encoding? && Numbered(cfg, Now(), work.character))
      ensures published == old(published) && store == old(store) && clients == old(clients) && old(nextFrameId) <= nextFrameId
    {
      hide QueuesInv, GoodOutput, Recalibration.BoardInv;
      StepSound(cfg, Now(), Processed(ok, empty));
      if !work.Processing? {
        return;
      }
      var pair := work.pair;
      if !ok || calibration != Some(pair.calibration) {
        work := Idle;
        return;
      }
      var character := Character(nextFrameId, pair.calibration, pair.first.device, pair.second.device);
      nextFrameId := nextFrameId + 1;
      if work.live && empty {
        work := Idle;
      } else {
        work := Encoding(character);
      }
    }

    /** Serialized: store and broadcast in one turn of the event loop. */
    method FinishEncoding(ok: bool)
      requires Valid()
      modifies this
      ensures Valid() && Now() == EncodedStep(old(Now()), ok)
      ensures published != old(published) ==>
                ok && old(work).Encoding? && Numbered(cfg, old(Now()), old(work).character) && Everywhere(Now().output)
                && published == old(published) + [Publication(old(work).character, calibration)]
      ensures published == old(published) ==> store == old(store) && clients == old(clients)
    {
      hide QueuesInv, GoodOutput, WellPublished, Recalibration.BoardInv, Broadcast, Everywhere;
      StepSound(cfg, Now(), Encoded(ok));
      PublishedEverywhere(cfg, Now(), ok);
      if !work.Encoding? {
        return;
      }
      var character := work.character;
      work := Idle;
      if ok {
        store := Some(character);
        published := published + [Publication(character, calibration)];
        BroadcastItem(Snapshot(character.frameId));
      }
    }

    /** One examined board frame: count it, and start validating when both phones have enough. */
    method FinishExamination(verdict: Verdict)
      requires Valid()
      modifies this
      ensures Valid() && Now() == OfferEndsStep(old(Now()), verdict)
      ensures |sessions| == |old(sessions)|
      ensures forall i | 0 <= i < |sessions| && sessions[i] != old(sessions)[i] ::
                && MidOffer(old(work), i) && verdict != Rejected
                && (old(sessions)[i].state == Failed && sessions[i].state != Failed ==>
                      old(sessions)[i].raced && Recalibration.Completes(old(sessions)[i], old(work).second))
      ensures published == old(published) && calibration == old(calibration) && nextFrameId == old(nextFrameId)
    {
      hide QueuesInv, PublicationInv;
      StepSound(cfg, Now(), OfferEnds(verdict));
      if !work.Offering? || !work.examining || work.job >= |sessions| {
        return;
      }
      var job, session := work.job, sessions[work.job];
      if verdict.Changed? {
        session := Fail(session, false);
      } else if verdict.Accepted? {
        var count := if work.second then session.second else session.first;
        if count < REQUIRED_OBSERVATIONS {
          if work.second {
            session := session.(second := count + 1);
          } else {
            session := session.(first := count + 1);
          }
          if session.first >= REQUIRED_OBSERVATIONS && session.second >= REQUIRED_OBSERVATIONS {
            session := session.(state := Validating);
          }
        }
      }
      sessions := sessions[job := session];
      work := NextOffer(work);
    }

    /** The swap: calibration, pairer and freshness at once. */
    method Install(job: nat, rig: nat)
      requires cfg.Valid() && job < |sessions|
      modifies this`calibration, this`pairer, this`invalid, this`sessions, this`clients
      ensures fresh(pairer) && pairer.cfg == cfg && pairer.queues == EmptyQueues(cfg) && calibration == Some(rig) && !invalid
      ensures sessions == old(sessions)[job := old(sessions)[job].(state := Ready, installed := true)]
      ensures clients == Broadcast(old(clients), Ack)
    {
      calibration := Some(rig);
      pairer := new Pairing.Pairer(cfg);
      NewQueues(cfg, pairer.queues);
      invalid := false;
      sessions := sessions[job := sessions[job].(state := Ready, installed := true)];
      BroadcastItem(Ack);
    }

    /** The solve returns: refuse a session no longer validating or past its deadline, otherwise swap everything. */
    method FinishSolving(ok: bool, late: bool, rig: nat)
      requires Valid()
      modifies this
      ensures Valid() && (pairer == old(pairer) || fresh(pairer))
      ensures Now() == SolvedStep(cfg, old(Now()), ok, late, rig)
      ensures calibration != old(calibration) || pairer != old(pairer) ==>
                && ok && !late && old(work).Solving? && old(work).job < |old(sessions)|
                && calibration == Some(rig) && pairer.queues == EmptyQueues(cfg) && !invalid && work == Idle
                && var x := old(sessions)[old(work).job]; x.state == Validating && (x.failedEarly ==> x.raced)
      ensures published == old(published) && store == old(store) && nextFrameId == old(nextFrameId)
    {
      hide Sound, Broadcast, Fail, EmptyQueues;
      StepSound(cfg, Now(), Solved(ok, late, rig));
      assert Sound(cfg, SolvedStep(cfg, Now(), ok, late, rig));
      hide Step;
      if !work.Solving? || work.job >= |sessions| {
        return;
      }
      var job := work.job;
      SessionSound(cfg, Now(), job);
      work := Idle;
      if !ok {
        sessions := sessions[job := Fail(sessions[job], false)];
        BroadcastItem(Ack);
      } else if sessions[job].state != Validating || late {
        sessions := sessions[job := Fail(sessions[job], false)];
      } else {
        Install(job, rig);
      }
    }

    method RequestRegistration() returns (accepted: bool)
      requires Valid()
      modifies this
      ensures Valid() && Now() == RegistrationStep(old(Now())) && accepted == !old(running)
    {
      hide Sound;
      StepSound(cfg, Now(), Event.RequestRegistration);
      if running {
        return false;
      }
      sessions := sessions + [NEW_SESSION];
      running := true;
      cancelled := false;
      return true;
    }

    /** Cancel the setup: the newest session fails now, the loop ends when it notices. */
    method ClearRegistration()
      requires Valid()
      modifies this
      ensures Valid() && Now() == ClearStep(old(Now()))
      ensures |sessions| == |old(sessions)| && (sessions != [] ==> sessions[|sessions| - 1].state == Failed)
      ensures forall i | 0 <= i < |sessions| - 1 :: sessions[i] == old(sessions)[i]
      ensures calibration == old(calibration) && pairer == old(pairer) && pairer.queues == old(pairer.queues)
      ensures invalid == old(invalid) && nextFrameId == old(nextFrameId)
      ensures work == old(work) && published == old(published) && store == old(store)
    {
      hide Sound, Broadcast;
      StepSound(cfg, Now(), Event.ClearRegistration);
      cancelled := running;
      var n := |sessions|;
      if n > 0 {
        sessions := sessions[n - 1 := Fail(sessions[n - 1], MidOffer(work, n - 1))];
      }
      BroadcastItem(Ack);
    }

    method Take(client: nat) returns (item: Option<Item>)
      requires Valid()
      modifies this
      ensures Valid() && Now() == DeliverStep(old(Now()), client)
      ensures item == if client in old(clients) && old(clients)[client].Subscribed? then old(clients)[client].pending else None
    {
      hide Sound;
      StepSound(cfg, Now(), Deliver(client));
      if client !in clients || !clients[client].Subscribed? || clients[client].pending.None? {
        return None;
      }
      item := clients[client].pending;
      var seen := clients[client].seen;
      clients := clients[client := Subscribed(None, if item.value.Snapshot? then seen + [item.value.frameId] else seen)];
    }
  }
}
