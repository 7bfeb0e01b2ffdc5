/** Scan-quality warnings: one streak per camera and calibration, one recovery per warned episode. */
module Quality {
  import opened Wrappers

  datatype Signal = ExcessBackground | MissingHands | MissingFeet | MissingTorso

  datatype Reading = Poor | Fine | Unmeasured

  /** What one frame shows of one camera; a coverage is absent when its landmarks were not reliable. */
  datatype View = View(background: Option<real>, hands: Option<real>, feet: Option<real>, torso: Option<real>)

  datatype Config = Config(consecutive: nat, repeatInterval: real, backgroundLimit: real, coverageLimit: real) {
    predicate Valid() {
      consecutive > 0 && repeatInterval >= 0.0
    }
  }

  function Below(value: Option<real>, limit: real): Reading {
    if value.None? then Unmeasured else if value.value < limit then Poor else Fine
  }

  /** An unmeasured background reads as fine; an unmeasured coverage stays unmeasured. */
  function Read(cfg: Config, v: View, s: Signal): Reading {
    match s
    case ExcessBackground => if v.background.Some? && v.background.value > cfg.backgroundLimit then Poor else Fine
    case MissingHands => Below(v.hands, cfg.coverageLimit)
    case MissingFeet => Below(v.feet, cfg.coverageLimit)
    case MissingTorso => Below(v.torso, cfg.coverageLimit)
  }

  const SIGNALS: set<Signal> := {ExcessBackground, MissingHands, MissingFeet, MissingTorso}

  function PoorSignals(cfg: Config, v: View): set<Signal> {
    set s | s in SIGNALS && Read(cfg, v, s) == Poor
  }

  /** `lastWarning` is absent until the first one. */
  datatype SignalState = SignalState(poorFrames: nat, active: bool, lastWarning: Option<real>, warned: set<Signal>)

  const QUIET := SignalState(0, false, None, {})

  datatype Note = Warning(time: real, signals: set<Signal>) | Recovery(time: real)

  predicate Due(cfg: Config, s: SignalState, now: real) {
    s.lastWarning.None? || now - s.lastWarning.value >= cfg.repeatInterval
  }

  function NextState(cfg: Config, s: SignalState, v: View, now: real): SignalState {
    var poor := PoorSignals(cfg, v);
    if poor != {} then
      if s.poorFrames + 1 >= cfg.consecutive && Due(cfg, s, now) then SignalState(s.poorFrames + 1, true, Some(now), poor)
      else s.(poorFrames := s.poorFrames + 1)
    else if s.active && (exists w | w in s.warned :: Read(cfg, v, w) == Unmeasured) then s
    else s.(poorFrames := 0, active := false, warned := {})
  }

  function Noted(cfg: Config, s: SignalState, v: View, now: real): Option<Note> {
    var poor := PoorSignals(cfg, v);
    if poor != {} then
      if s.poorFrames + 1 >= cfg.consecutive && Due(cfg, s, now) then Some(Warning(now, poor)) else None
    else if s.active && !(exists w | w in s.warned :: Read(cfg, v, w) == Unmeasured) then Some(Recovery(now))
    else None
  }

  // --- the monitor, in place --------------------------------------------------------------------------

  datatype Key = Key(camera: string, calibration: nat)

  class QualityMonitor {
    const cfg: Config
    var states: map<Key, SignalState>

    constructor (cfg: Config)
      ensures this.cfg == cfg && states == map[]
    {
      this.cfg := cfg;
      states := map[];
    }

    method Observe(key: Key, v: View, now: real) returns (note: Option<Note>)
      modifies this
      ensures var before := if key in old(states) then old(states)[key] else QUIET;
              states == old(states)[key := NextState(cfg, before, v, now)] && note == Noted(cfg, before, v, now)
    {
      note := None;
      var poor := PoorSignals(cfg, v);
      var state := if key in states then states[key] else QUIET;
      if poor != {} {
        state := state.(poorFrames := state.poorFrames + 1);
        if state.poorFrames >= cfg.consecutive && Due(cfg, state, now) {
          note := Some(Warning(now, poor));
          state := state.(active := true, lastWarning := Some(now), warned := poor);
        }
      } else {
        if state.active && exists w | w in state.warned :: Read(cfg, v, w) == Unmeasured {
          states := states[key := state];
          return None;
        }
        if state.active {
          note := Some(Recovery(now));
        }
        state := state.(poorFrames := 0, active := false, warned := {});
      }
      states := states[key := state];
    }
  }

  // --- whole runs for one key ----------------------------------------------------------------------------

  datatype Frame = Frame(view: View, time: real)

  /** A note and the frame that caused it. */
  datatype Entry = Entry(index: nat, note: Note)

  function StateAfter(cfg: Config, frames: seq<Frame>): SignalState {
    if frames == [] then QUIET
    else NextState(cfg, StateAfter(cfg, frames[..|frames| - 1]), frames[|frames| - 1].view, frames[|frames| - 1].time)
  }

  function Log(cfg: Config, frames: seq<Frame>): seq<Entry> {
    if frames == [] then []
    else
      var front, f := frames[..|frames| - 1], frames[|frames| - 1];
      var note := Noted(cfg, StateAfter(cfg, front), f.view, f.time);
      if note.Some? then Log(cfg, front) + [Entry(|front|, note.value)] else Log(cfg, front)
  }

  predicate IsPoor(cfg: Config, f: Frame) {
    PoorSignals(cfg, f.view) != {}
  }

  predicate PoorSince(cfg: Config, frames: seq<Frame>, from: nat, to: nat)
    requires to <= |frames|
  {
    forall i | from <= i < to :: IsPoor(cfg, frames[i])
  }

  /** A warning that opens an episode: the first, or the first after a recovery. */
  predicate Opens(log: seq<Entry>, k: nat)
    requires k < |log|
  {
    log[k].note.Warning? && (k == 0 || log[k - 1].note.Recovery?)
  }

  /** An opening warning comes at the end of the required streak of poor frames. */
  predicate StreaksBefore(cfg: Config, frames: seq<Frame>, log: seq<Entry>) {
    forall k | 0 <= k < |log| && Opens(log, k) :: StreakTo(cfg, frames, log[k].index)
  }

  predicate StreakTo(cfg: Config, frames: seq<Frame>, index: nat) {
    && index < |frames| && index + 1 >= cfg.consecutive
    && PoorSince(cfg, frames, index + 1 - cfg.consecutive, index + 1)
  }

  predicate Spaced(cfg: Config, log: seq<Entry>) {
    forall j, k | 0 <= j < k < |log| && log[j].note.Warning? && log[k].note.Warning? ::
      log[k].note.time - log[j].note.time >= cfg.repeatInterval
  }

  /** A recovery answers a warning, on a frame with nothing poor and every coverage warned about measured. */
  predicate Answers(cfg: Config, frames: seq<Frame>, log: seq<Entry>, k: nat)
    requires k < |log|
  {
    && k > 0 && log[k - 1].note.Warning? && log[k].index < |frames|
    && !IsPoor(cfg, frames[log[k].index])
    && forall s | s in log[k - 1].note.signals :: Read(cfg, frames[log[k].index].view, s) == Fine
  }

  predicate RecoveriesAnswer(cfg: Config, frames: seq<Frame>, log: seq<Entry>) {
    forall k | 0 <= k < |log| && log[k].note.Recovery? :: Answers(cfg, frames, log, k)
  }

  /** The state remembers the end of the log: whether its last note is a warning, of what, and when the last one was. */
  predicate Remembers(cfg: Config, frames: seq<Frame>, s: SignalState, log: seq<Entry>) {
    && (s.active <==> log != [] && log[|log| - 1].note.Warning?)
    && (s.active ==> s.warned == log[|log| - 1].note.signals && s.lastWarning == Some(log[|log| - 1].note.time))
    && (s.lastWarning.None? ==> log == [])
    && (s.lastWarning.Some? ==> forall k | 0 <= k < |log| && log[k].note.Warning? :: log[k].note.time <= s.lastWarning.value)
    && (!s.active ==> s.poorFrames <= |frames| && PoorSince(cfg, frames, |frames| - s.poorFrames, |frames|))
  }

  lemma PoorOrFine(cfg: Config, v: View, s: Signal)
    requires PoorSignals(cfg, v) == {}
    ensures Read(cfg, v, s) != Poor
  {
    assert s in SIGNALS;
    assert s !in PoorSignals(cfg, v);
  }

  lemma LongerFrames(cfg: Config, front: seq<Frame>, f: Frame, log: seq<Entry>)
    requires StreaksBefore(cfg, front, log) && RecoveriesAnswer(cfg, front, log)
    ensures StreaksBefore(cfg, front + [f], log) && RecoveriesAnswer(cfg, front + [f], log)
  {
    hide PoorSignals, Read;
    forall k | 0 <= k < |log| && log[k].note.Recovery?
      ensures Answers(cfg, front + [f], log, k)
    {
      assert Answers(cfg, front, log, k);
    }
    forall k | 0 <= k < |log| && Opens(log, k)
      ensures StreakTo(cfg, front + [f], log[k].index)
    {
      assert StreakTo(cfg, front, log[k].index);
    }
  }

  /** Appending a note keeps what held of the earlier ones. */
  lemma LongerLog(cfg: Config, frames: seq<Frame>, log: seq<Entry>, e: Entry)
    requires StreaksBefore(cfg, frames, log) && RecoveriesAnswer(cfg, frames, log)
    requires Opens(log + [e], |log|) ==> StreakTo(cfg, frames, e.index)
    requires e.note.Recovery? ==> Answers(cfg, frames, log + [e], |log|)
    ensures StreaksBefore(cfg, frames, log + [e]) && RecoveriesAnswer(cfg, frames, log + [e])
  {
    hide StreakTo, IsPoor, Read;
    var more := log + [e];
    forall k | 0 <= k < |more| && Opens(more, k)
      ensures StreakTo(cfg, frames, more[k].index)
    {
      if k < |log| {
        assert Opens(log, k);
      }
    }
    hide Opens;
    forall k | 0 <= k < |more| && more[k].note.Recovery?
      ensures Answers(cfg, frames, more, k)
    {
      if k < |log| {
        assert Answers(cfg, frames, log, k);
      }
    }
  }

  lemma WarnStep(cfg: Config, front: seq<Frame>, f: Frame, s: SignalState, log: seq<Entry>)
    requires cfg.Valid() && Remembers(cfg, front, s, log) && Spaced(cfg, log) && IsPoor(cfg, f)
    requires StreaksBefore(cfg, front, log) && RecoveriesAnswer(cfg, front, log)
    requires s.poorFrames + 1 >= cfg.consecutive && Due(cfg, s, f.time)
    ensures var frames, poor := front + [f], PoorSignals(cfg, f.view);
            var more := log + [Entry(|front|, Warning(f.time, poor))];
            && Remembers(cfg, frames, SignalState(s.poorFrames + 1, true, Some(f.time), poor), more)
            && Spaced(cfg, more) && StreaksBefore(cfg, frames, more) && RecoveriesAnswer(cfg, frames, more)
  {
    var frames := front + [f];
    var e := Entry(|front|, Warning(f.time, PoorSignals(cfg, f.view)));
    LongerFrames(cfg, front, f, log);
    if Opens(log + [e], |log|) {
      assert !s.active;
      forall i | |front| + 1 - cfg.consecutive <= i < |front| + 1
        ensures i >= 0 ==> IsPoor(cfg, frames[i])
      {
        if 0 <= i < |front| {
          assert IsPoor(cfg, front[i]);
        }
      }
    }
    hide IsPoor, Read, PoorSignals;
    LongerLog(cfg, frames, log, e);
  }

  lemma RecoverStep(cfg: Config, front: seq<Frame>, f: Frame, s: SignalState, log: seq<Entry>)
    requires cfg.Valid() && Remembers(cfg, front, s, log) && Spaced(cfg, log) && !IsPoor(cfg, f)
    requires StreaksBefore(cfg, front, log) && RecoveriesAnswer(cfg, front, log)
    requires s.active && forall w | w in s.warned :: Read(cfg, f.view, w) != Unmeasured
    ensures var frames := front + [f];
            var more := log + [Entry(|front|, Recovery(f.time))];
            && Remembers(cfg, frames, s.(poorFrames := 0, active := false, warned := {}), more)
            && Spaced(cfg, more) && StreaksBefore(cfg, frames, more) && RecoveriesAnswer(cfg, frames, more)
  {
    var frames := front + [f];
    var e := Entry(|front|, Recovery(f.time));
    LongerFrames(cfg, front, f, log);
    forall w | w in s.warned
      ensures Read(cfg, f.view, w) == Fine
    {
      PoorOrFine(cfg, f.view, w);
    }
    hide IsPoor, Read, PoorSignals;
    assert Answers(cfg, frames, log + [e], |log|);
    LongerLog(cfg, frames, log, e);
  }

  lemma SilentStep(cfg: Config, front: seq<Frame>, f: Frame, s: SignalState, t: SignalState, log: seq<Entry>)
    requires Remembers(cfg, front, s, log)
    requires t.active == s.active && t.warned == s.warned && t.lastWarning == s.lastWarning
    requires !s.active ==> t.poorFrames == 0 || (t.poorFrames == s.poorFrames + 1 && IsPoor(cfg, f))
    ensures Remembers(cfg, front + [f], t, log)
  {
    var frames := front + [f];
    if !s.active && t.poorFrames > 0 {
      forall i | |frames| - t.poorFrames <= i < |frames|
        ensures i >= 0 ==> IsPoor(cfg, frames[i])
      {
        if 0 <= i < |front| {
          assert IsPoor(cfg, front[i]);
        }
      }
    }
    hide IsPoor;
  }

  /**
   * Over any run of one key: warnings are at least the interval apart, an episode opens only after the required number of
   * consecutive poor frames, and each recovery answers exactly one episode, on a frame where everything warned about
   * reads as fine.
   */
  lemma {:induction false} MonitorPromises(cfg: Config, frames: seq<Frame>)
    requires cfg.Valid()
    ensures var log := Log(cfg, frames);
            && Remembers(cfg, frames, StateAfter(cfg, frames), log)
            && Spaced(cfg, log) && StreaksBefore(cfg, frames, log) && RecoveriesAnswer(cfg, frames, log)
  {
    if frames != [] {
      var front, f := frames[..|frames| - 1], frames[|frames| - 1];
      assert frames == front + [f];
      MonitorPromises(cfg, front);
      var s, log := StateAfter(cfg, front), Log(cfg, front);
      var t, note := NextState(cfg, s, f.view, f.time), Noted(cfg, s, f.view, f.time);
      assert StateAfter(cfg, frames) == t;
      assert Log(cfg, frames) == if note.Some? then log + [Entry(|front|, note.value)] else log;
      hide StateAfter, Log, Remembers, Spaced, StreaksBefore, RecoveriesAnswer, PoorSignals, Read;
      InactiveUnwarned(cfg, front);
      if note.None? {
        LongerFrames(cfg, front, f, log);
        SilentStep(cfg, front, f, s, t, log);
      } else if note.value.Warning? {
        WarnStep(cfg, front, f, s, log);
      } else {
        RecoverStep(cfg, front, f, s, log);
      }
    }
  }

  lemma {:induction false} InactiveUnwarned(cfg: Config, frames: seq<Frame>)
    ensures !StateAfter(cfg, frames).active ==> StateAfter(cfg, frames).warned == {}
  {
    if frames != [] {
      InactiveUnwarned(cfg, frames[..|frames| - 1]);
      hide PoorSignals, Read;
    }
  }

  // --- what has to be noted ------------------------------------------------------------------------------

  /** Poor is a background over its limit, or a measured coverage under its own. */
  lemma PoorSignalsAre(cfg: Config, v: View)
    ensures var poor := PoorSignals(cfg, v);
            && (ExcessBackground in poor <==> v.background.Some? && v.background.value > cfg.backgroundLimit)
            && (MissingHands in poor <==> v.hands.Some? && v.hands.value < cfg.coverageLimit)
            && (MissingFeet in poor <==> v.feet.Some? && v.feet.value < cfg.coverageLimit)
            && (MissingTorso in poor <==> v.torso.Some? && v.torso.value < cfg.coverageLimit)
  {
  }

  /** The counter has at least the poor frames of the current streak. */
  lemma {:induction false} StreakCounted(cfg: Config, frames: seq<Frame>, n: nat)
    requires n <= |frames| && PoorSince(cfg, frames, |frames| - n, |frames|)
    ensures StateAfter(cfg, frames).poorFrames >= n
  {
    if n > 0 {
      var front := frames[..|frames| - 1];
      assert IsPoor(cfg, frames[|frames| - 1]);
      forall i | |front| - (n - 1) <= i < |front|
        ensures IsPoor(cfg, front[i])
      {
        assert IsPoor(cfg, frames[i]);
      }
      StreakCounted(cfg, front, n - 1);
      hide PoorSignals, Read;
    }
  }

  predicate AllEarlier(cfg: Config, log: seq<Entry>, now: real) {
    forall k | 0 <= k < |log| && log[k].note.Warning? :: now - log[k].note.time >= cfg.repeatInterval
  }

  lemma DueByLog(cfg: Config, frames: seq<Frame>, now: real)
    requires cfg.Valid() && AllEarlier(cfg, Log(cfg, frames), now)
    ensures Due(cfg, StateAfter(cfg, frames), now)
  {
    LastWarningLogged(cfg, frames);
  }

  lemma {:induction false} LastWarningLogged(cfg: Config, frames: seq<Frame>)
    ensures var last := StateAfter(cfg, frames).lastWarning;
            last.Some? ==> exists k :: 0 <= k < |Log(cfg, frames)| && Log(cfg, frames)[k].note.Warning?
                                       && Log(cfg, frames)[k].note.time == last.value
  {
    if frames != [] {
      var front, f := frames[..|frames| - 1], frames[|frames| - 1];
      LastWarningLogged(cfg, front);
      var s, log, more := StateAfter(cfg, front), Log(cfg, front), Log(cfg, frames);
      hide PoorSignals, Read, StateAfter, Due;
      assert StateAfter(cfg, frames) == NextState(cfg, s, f.view, f.time) by { AfterOne(cfg, frames); }
      if StateAfter(cfg, frames).lastWarning == s.lastWarning && s.lastWarning.Some? {
        var k :| 0 <= k < |log| && log[k].note.Warning? && log[k].note.time == s.lastWarning.value;
        assert more[k] == log[k];
      } else if StateAfter(cfg, frames).lastWarning.Some? {
        assert more[|log|].note.Warning?;
      }
    }
  }

  lemma AfterOne(cfg: Config, frames: seq<Frame>)
    requires frames != []
    ensures var front, f := frames[..|frames| - 1], frames[|frames| - 1];
            StateAfter(cfg, frames) == NextState(cfg, StateAfter(cfg, front), f.view, f.time)
  {
  }

  /** The required number of poor frames in a row, with no warning within the interval, warns of what the last one shows. */
  lemma StreakWarns(cfg: Config, frames: seq<Frame>)
    requires cfg.Valid() && cfg.consecutive <= |frames| && PoorSince(cfg, frames, |frames| - cfg.consecutive, |frames|)
    requires AllEarlier(cfg, Log(cfg, frames[..|frames| - 1]), frames[|frames| - 1].time)
    ensures var f := frames[|frames| - 1];
            Log(cfg, frames) == Log(cfg, frames[..|frames| - 1]) + [Entry(|frames| - 1, Warning(f.time, PoorSignals(cfg, f.view)))]
  {
    var front, f := frames[..|frames| - 1], frames[|frames| - 1];
    forall i | |front| - (cfg.consecutive - 1) <= i < |front|
      ensures IsPoor(cfg, front[i])
    {
      assert IsPoor(cfg, frames[i]);
    }
    StreakCounted(cfg, front, cfg.consecutive - 1);
    DueByLog(cfg, front, f.time);
    assert IsPoor(cfg, f);
    hide PoorSignals, Read, StateAfter, Due;
  }

  predicate NoneUnmeasured(cfg: Config, v: View, signals: set<Signal>) {
    forall w | w in signals :: Read(cfg, v, w) != Unmeasured
  }

  /** A warned episode recovers on the first frame with nothing poor and nothing warned about unmeasured. */
  lemma EpisodeRecovers(cfg: Config, frames: seq<Frame>)
    requires cfg.Valid() && frames != [] && !IsPoor(cfg, frames[|frames| - 1])
    requires var log := Log(cfg, frames[..|frames| - 1]);
             && log != [] && log[|log| - 1].note.Warning?
             && NoneUnmeasured(cfg, frames[|frames| - 1].view, log[|log| - 1].note.signals)
    ensures Log(cfg, frames) == Log(cfg, frames[..|frames| - 1]) + [Entry(|frames| - 1, Recovery(frames[|frames| - 1].time))]
  {
    MonitorPromises(cfg, frames[..|frames| - 1]);
    hide Read, StateAfter, PoorSignals, Spaced, StreaksBefore, RecoveriesAnswer;
  }

  predicate Measured(v: View, s: Signal) {
    match s
    case ExcessBackground => v.background.Some?
    case MissingHands => v.hands.Some?
    case MissingFeet => v.feet.Some?
    case MissingTorso => v.torso.Some?
  }

  lemma FineIsMeasured(cfg: Config, v: View, warned: set<Signal>)
    requires forall s | s in warned :: Read(cfg, v, s) == Fine
    ensures forall s | s in warned && !s.ExcessBackground? :: Measured(v, s)
    ensures (forall s | s in warned :: Measured(v, s)) <==> !(ExcessBackground in warned && v.background.None?)
  {
  }

  /** A recovery answers a warning; everything warned about was measured for it, unless that is the background and it was not. */
  lemma RecoveryIsMeasured(cfg: Config, frames: seq<Frame>, k: nat)
    requires cfg.Valid() && k < |Log(cfg, frames)| && Log(cfg, frames)[k].note.Recovery?
    ensures k > 0 && Log(cfg, frames)[k - 1].note.Warning? && Log(cfg, frames)[k].index < |frames|
    ensures var v, warned := frames[Log(cfg, frames)[k].index].view, Log(cfg, frames)[k - 1].note.signals;
            && (forall s | s in warned && !s.ExcessBackground? :: Measured(v, s))
            && ((forall s | s in warned :: Measured(v, s)) <==> !(ExcessBackground in warned && v.background.None?))
  {
    MonitorPromises(cfg, frames);
    assert Answers(cfg, frames, Log(cfg, frames), k);
    hide Log, StateAfter, Read, Measured, IsPoor, Remembers, Spaced, StreaksBefore, RecoveriesAnswer;
    FineIsMeasured(cfg, frames[Log(cfg, frames)[k].index].view, Log(cfg, frames)[k - 1].note.signals);
  }

  // A background at fault in every frame, and then a frame that shows nothing.

  function Faulty(cfg: Config): View {
    View(Some(cfg.backgroundLimit + 1.0), None, None, None)
  }

  const BLANK := View(None, None, None, None)

  function FaultyFrames(cfg: Config, n: nat): seq<Frame> {
    seq(n, i => Frame(Faulty(cfg), i as real))
  }

  lemma FaultyReads(cfg: Config)
    ensures PoorSignals(cfg, Faulty(cfg)) == {ExcessBackground} && PoorSignals(cfg, BLANK) == {}
    ensures Read(cfg, BLANK, ExcessBackground) == Fine
  {
  }

  lemma {:induction false} BeforeTheStreak(cfg: Config, n: nat)
    requires n < cfg.consecutive
    ensures StateAfter(cfg, FaultyFrames(cfg, n)) == SignalState(n, false, None, {}) && Log(cfg, FaultyFrames(cfg, n)) == []
  {
    if n > 0 {
      BeforeTheStreak(cfg, n - 1);
      FaultyReads(cfg);
      assert FaultyFrames(cfg, n)[..n - 1] == FaultyFrames(cfg, n - 1);
      hide PoorSignals, Read;
    }
  }

  /** Whatever the streak length, a background warning recovers on a frame whose background is absent: that reads as fine. */
  lemma BackgroundRecoversUnmeasured(cfg: Config)
    requires cfg.Valid()
    ensures var n := cfg.consecutive;
            Log(cfg, FaultyFrames(cfg, n) + [Frame(BLANK, n as real)])
            == [Entry(n - 1, Warning((n - 1) as real, {ExcessBackground})), Entry(n, Recovery(n as real))]
  {
    var n := cfg.consecutive;
    var poor, all := FaultyFrames(cfg, n), FaultyFrames(cfg, n) + [Frame(BLANK, n as real)];
    BeforeTheStreak(cfg, n - 1);
    FaultyReads(cfg);
    assert poor[..n - 1] == FaultyFrames(cfg, n - 1) && all[..n] == poor;
    hide PoorSignals, Read;
    assert StateAfter(cfg, poor) == SignalState(n, true, Some((n - 1) as real), {ExcessBackground});
    assert Log(cfg, poor) == [Entry(n - 1, Warning((n - 1) as real, {ExcessBackground}))];
  }
}
