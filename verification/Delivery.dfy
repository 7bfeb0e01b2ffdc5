/** When a published frame is seen: latest-wins queues of one item, over whole runs of the runtime. */
module Delivery {
  import opened Wrappers
  import opened Runtime
  import Pairing

  /** The step puts something before every subscriber: a frame, or an announcement. */
  predicate Broadcasts(s: State, e: Event) {
    match e
    case FrameArrives(_, _, steady, ready) =>
      s.work == Idle && !s.board.running && s.rig.calibration.Some? && (s.rig.invalid || !steady || !ready)
    case Encoded(ok) => s.work.Encoding? && ok
    case Saved(ok) => s.work.Saving? && s.work.job < |s.board.sessions| && !ok
    case Concluded => s.work.Offered? && s.work.job < |s.board.sessions|
    case Solved(ok, late, _) =>
      s.work.Solving? && s.work.job < |s.board.sessions| && (!ok || (s.board.sessions[s.work.job].state == Validating && !late))
    case LoopEnds => s.board.running && s.board.sessions != []
    case ClearRegistration => true
    case Announce => true
    case _ => false
  }

  /** What is put there: the frame just published, otherwise an announcement. */
  function Shown(s: State, e: Event): Item {
    if e.Encoded? && s.work.Encoding? then Snapshot(s.work.character.frameId) else Ack
  }

  predicate Subscriber(s: State, c: nat) {
    c in s.output.clients && s.output.clients[c].Subscribed?
  }

  /** Every step does one of three things to a subscriber: it is broadcast to, it acts itself, or it is left alone. */
  lemma StepOnSubscriber(cfg: Pairing.Config, s: State, e: Event, c: nat)
    requires Shaped(cfg, s) && Subscriber(s, c) && e != Disconnect(c)
    ensures Subscriber(Step(cfg, s, e), c)
    ensures Step(cfg, s, e).output.clients[c]
            == if Broadcasts(s, e) then Put(s.output.clients[c], Shown(s, e))
               else if e == Deliver(c) then DeliverStep(s, c).output.clients[c]
               else s.output.clients[c]
  {
    hide Pairing.OfferOutcome, Pairing.OfferQueues, Pairing.ClearDevice, EmptyQueues, Fail, Commit, NextOffer;
  }

  /** A client that leaves is forgotten; the others, and everything else, stay. */
  lemma DisconnectForgets(cfg: Pairing.Config, s: State, c: nat)
    requires Shaped(cfg, s)
    ensures var t := Step(cfg, s, Disconnect(c));
            && c !in t.output.clients && t == s.(output := s.output.(clients := t.output.clients))
            && forall d | d != c :: (d in t.output.clients <==> d in s.output.clients)
                                    && (d in s.output.clients ==> t.output.clients[d] == s.output.clients[d])
  {
  }

  /** The state after the first k events. */
  function After(cfg: Pairing.Config, s: State, events: seq<Event>, k: nat): State
    requires Shaped(cfg, s) && k <= |events|
  {
    Exec(cfg, s, events[..k])
  }

  /** Within the first k events, and without a disconnect among them, the subscriber comes to have seen frame n. */
  predicate SeesBy(cfg: Pairing.Config, s: State, events: seq<Event>, c: nat, n: nat, k: nat)
    requires Shaped(cfg, s) && k <= |events|
  {
    var t := After(cfg, s, events, k);
    Disconnect(c) !in events[..k] && Subscriber(t, c) && n in t.output.clients[c].seen
  }

  predicate Sees(cfg: Pairing.Config, s: State, events: seq<Event>, c: nat, n: nat)
    requires Shaped(cfg, s)
  {
    exists k: nat :: k <= |events| && SeesBy(cfg, s, events, c, n, k)
  }

  /** The subscriber's turn to take what waits comes before the next broadcast and before it leaves. */
  predicate TakesFirst(cfg: Pairing.Config, s: State, events: seq<Event>, c: nat)
    requires Shaped(cfg, s)
    decreases |events|
  {
    && events != [] && !Broadcasts(s, events[0]) && events[0] != Disconnect(c)
    && (events[0] == Deliver(c) || TakesFirst(cfg, Step(cfg, s, events[0]), events[1..], c))
  }

  /** Frame n, already published, has passed the subscriber by: it was not seen and does not wait. */
  predicate Missed(s: State, c: nat, n: nat) {
    && Subscriber(s, c) && AtMost(n, Latest(s.output.published)) && n !in s.output.clients[c].seen
    && s.output.clients[c].pending != Some(Snapshot(n))
  }

  /** Frame n waits for the subscriber. */
  predicate Waits(s: State, c: nat, n: nat) {
    Subscriber(s, c) && s.output.clients[c].pending == Some(Snapshot(n))
  }

  lemma WaitingIsLatest(cfg: Pairing.Config, s: State, c: nat, n: nat)
    requires PublicationInv(cfg, s) && Waits(s, c, n)
    ensures Latest(s.output.published) == Some(n) && n !in s.output.clients[c].seen
  {
    assert GoodClient(s.output.clients[c], Latest(s.output.published));
  }

  /** What is published stays published, and a new frame has a higher number than all before it. */
  lemma LatestGrows(cfg: Pairing.Config, s: State, e: Event, n: nat)
    requires Shaped(cfg, s) && PublicationInv(cfg, s) && AtMost(n, Latest(s.output.published))
    ensures AtMost(n, Latest(Step(cfg, s, e).output.published))
    ensures e.Encoded? && s.work.Encoding? ==> n < s.work.character.frameId
  {
    hide GoodOutput, Broadcast, Pairing.OfferOutcome, Pairing.OfferQueues, Pairing.ClearDevice, EmptyQueues, Fail, Commit, NextOffer;
  }

  lemma MissedKeeps(cfg: Pairing.Config, s: State, e: Event, c: nat, n: nat)
    requires Shaped(cfg, s) && PublicationInv(cfg, s) && Missed(s, c, n) && e != Disconnect(c)
    ensures Missed(Step(cfg, s, e), c, n)
  {
    LatestGrows(cfg, s, e, n);
    hide Step, PublicationInv, Broadcasts, AtMost, Latest;
    StepOnSubscriber(cfg, s, e, c);
  }

  lemma AfterFirst(cfg: Pairing.Config, s: State, events: seq<Event>, k: nat)
    requires Shaped(cfg, s) && 0 < k <= |events|
    ensures After(cfg, s, events, k) == After(cfg, Step(cfg, s, events[0]), events[1..], k - 1)
    ensures forall e :: e in events[..k] <==> e == events[0] || e in events[1..][..k - 1]
  {
    hide Step;
    assert events[..k] == [events[0]] + events[1..][..k - 1];
    assert events[..k][1..] == events[1..][..k - 1];
  }

  /** A frame is seen already, or from the next state on. */
  lemma SeesNext(cfg: Pairing.Config, s: State, events: seq<Event>, c: nat, n: nat)
    requires Shaped(cfg, s) && Subscriber(s, c)
    ensures Sees(cfg, s, events, c, n)
            <==> n in s.output.clients[c].seen
                 || (events != [] && events[0] != Disconnect(c) && Sees(cfg, Step(cfg, s, events[0]), events[1..], c, n))
  {
    hide Step, After, Shaped;
    StartIsHere(cfg, s, events);
    if n in s.output.clients[c].seen {
      assert SeesBy(cfg, s, events, c, n, 0);
    }
    if k: nat :| 0 < k <= |events| && SeesBy(cfg, s, events, c, n, k) {
      AfterFirst(cfg, s, events, k);
      assert SeesBy(cfg, Step(cfg, s, events[0]), events[1..], c, n, k - 1);
    }
    if events != [] && events[0] != Disconnect(c) && Sees(cfg, Step(cfg, s, events[0]), events[1..], c, n) {
      var k: nat :| k <= |events[1..]| && SeesBy(cfg, Step(cfg, s, events[0]), events[1..], c, n, k);
      AfterFirst(cfg, s, events, k + 1);
      assert SeesBy(cfg, s, events, c, n, k + 1);
    }
  }

  lemma StartIsHere(cfg: Pairing.Config, s: State, events: seq<Event>)
    requires Shaped(cfg, s)
    ensures After(cfg, s, events, 0) == s
  {
  }

  /** A frame that has passed a subscriber by is never seen by it. */
  lemma {:induction false} MissedNeverSeen(cfg: Pairing.Config, s: State, events: seq<Event>, c: nat, n: nat)
    requires Shaped(cfg, s) && QueuesInv(cfg, s) && PublicationInv(cfg, s) && Missed(s, c, n)
    ensures !Sees(cfg, s, events, c, n)
    decreases |events|
  {
    hide Step, Sees, QueuesInv, PublicationInv, Shaped, AtMost, Latest;
    SeesNext(cfg, s, events, c, n);
    if events != [] && events[0] != Disconnect(c) {
      StepPublishes(cfg, s, events[0]);
      MissedKeeps(cfg, s, events[0], c, n);
      MissedNeverSeen(cfg, Step(cfg, s, events[0]), events[1..], c, n);
    }
  }

  /** What becomes of a waiting frame in one step: displaced for good, taken, or still waiting. */
  lemma WaitingStep(cfg: Pairing.Config, s: State, e: Event, c: nat, n: nat)
    requires Shaped(cfg, s) && PublicationInv(cfg, s) && Waits(s, c, n) && e != Disconnect(c)
    ensures var t := Step(cfg, s, e);
            if Broadcasts(s, e) then Missed(t, c, n)
            else if e == Deliver(c) then Subscriber(t, c) && n in t.output.clients[c].seen
            else Waits(t, c, n)
  {
    WaitingIsLatest(cfg, s, c, n);
    assert AtMost(n, Latest(s.output.published));
    LatestGrows(cfg, s, e, n);
    hide Step, PublicationInv, Broadcasts, AtMost, Latest;
    StepOnSubscriber(cfg, s, e, c);
  }

  /** A waiting frame is seen, in the course of any run, exactly when its turn comes before the next broadcast or disconnect. */
  lemma {:induction false} WaitingSeenExactly(cfg: Pairing.Config, s: State, events: seq<Event>, c: nat, n: nat)
    requires Shaped(cfg, s) && QueuesInv(cfg, s) && PublicationInv(cfg, s) && Waits(s, c, n)
    ensures Sees(cfg, s, events, c, n) <==> TakesFirst(cfg, s, events, c)
    decreases |events|
  {
    WaitingIsLatest(cfg, s, c, n);
    hide Step, Sees, QueuesInv, PublicationInv, Shaped, AtMost, Latest, Broadcasts, Missed;
    SeesNext(cfg, s, events, c, n);
    if events != [] && events[0] != Disconnect(c) {
      var t, rest := Step(cfg, s, events[0]), events[1..];
      StepPublishes(cfg, s, events[0]);
      WaitingStep(cfg, s, events[0], c, n);
      if Broadcasts(s, events[0]) {
        MissedNeverSeen(cfg, t, rest, c, n);
      } else if events[0] == Deliver(c) {
        SeesNext(cfg, t, rest, c, n);
      } else {
        WaitingSeenExactly(cfg, t, rest, c, n);
      }
    }
  }

  /**
   * In any run: a frame just published waits for every subscriber, and whatever happens next the subscriber sees it
   * exactly when its turn comes before the next frame or announcement, and before it leaves.
   */
  lemma PublishedSeenExactly(cfg: Pairing.Config, calibration: Option<nat>, before: seq<Event>, after: seq<Event>, c: nat)
    requires cfg.Valid()
    requires var s := Run(cfg, calibration, before); s.work.Encoding? && Subscriber(s, c)
    ensures var s := Run(cfg, calibration, before);
            var t, n := Step(cfg, s, Encoded(true)), s.work.character.frameId;
            Waits(t, c, n) && (Sees(cfg, t, after, c, n) <==> TakesFirst(cfg, t, after, c))
  {
    var s := Run(cfg, calibration, before);
    RunPublishes(cfg, calibration, before);
    hide Run, Sees, QueuesInv, PublicationInv, TakesFirst;
    StepPublishes(cfg, s, Encoded(true));
    StepOnSubscriber(cfg, s, Encoded(true), c);
    hide Step;
    WaitingSeenExactly(cfg, Step(cfg, s, Encoded(true)), after, c, s.work.character.frameId);
  }

  // --- a new client ---------------------------------------------------------------------------------------------

  /** A client being greeted is left alone until it subscribes or leaves. */
  lemma StepOnGreeting(cfg: Pairing.Config, s: State, e: Event, c: nat)
    requires Shaped(cfg, s) && c in s.output.clients && s.output.clients[c].Greeting? && e != Disconnect(c) && e != Subscribe(c)
    ensures var t := Step(cfg, s, e); c in t.output.clients && t.output.clients[c] == s.output.clients[c]
  {
    hide Pairing.OfferOutcome, Pairing.OfferQueues, Pairing.ClearDevice, EmptyQueues, Fail, Commit, NextOffer;
  }

  lemma {:induction false} GreetingStays(cfg: Pairing.Config, s: State, events: seq<Event>, c: nat)
    requires Shaped(cfg, s) && c in s.output.clients && s.output.clients[c].Greeting?
    requires Disconnect(c) !in events && Subscribe(c) !in events
    ensures var t := Exec(cfg, s, events); c in t.output.clients && t.output.clients[c] == s.output.clients[c]
    decreases |events|
  {
    if events != [] {
      StepOnGreeting(cfg, s, events[0], c);
      hide Step;
      GreetingStays(cfg, Step(cfg, s, events[0]), events[1..], c);
    }
  }

  /** A client is shown, before anything else, the frame that was the latest when it connected. */
  lemma GreetedWithLatest(cfg: Pairing.Config, calibration: Option<nat>, before: seq<Event>, events: seq<Event>, c: nat)
    requires cfg.Valid() && c !in Run(cfg, calibration, before).output.clients
    requires Disconnect(c) !in events && Subscribe(c) !in events
    ensures var s := Run(cfg, calibration, before);
            var t := Step(cfg, Exec(cfg, Step(cfg, s, Connect(c)), events), Subscribe(c));
            var latest := Latest(s.output.published);
            && c in t.output.clients
            && t.output.clients[c] == Subscribed(None, if latest.Some? then [latest.value] else [])
  {
    var s := Run(cfg, calibration, before);
    RunPublishes(cfg, calibration, before);
    StoreIsLatest(cfg, s);
    hide Run, QueuesInv, PublicationInv, Exec, Latest;
    GreetingStays(cfg, Step(cfg, s, Connect(c)), events, c);
  }

  lemma StoreIsLatest(cfg: Pairing.Config, s: State)
    requires PublicationInv(cfg, s)
    ensures Latest(s.output.published) == if s.output.store.Some? then Some(s.output.store.value.frameId) else None
  {
    hide WellPublished, GoodWork, GoodClient;
  }
}
