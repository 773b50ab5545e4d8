/** The PS safety bridge (ps_safety_bridge.cpp): collects one frame's observations, judges them
    together, holds signs at Slow, and publishes the result. */
module SafetyBridge {
  import opened FixedWidth
  import opened SafetyJudge
  import opened UartFrame
  import HL = HazardLatch
  import Tx = SafetyTransmitter

  const MAX_DETECTIONS := 32
  const STATUS_OK := 0

  datatype Config = Config(judge: JudgeConfig, latch: HL.Config, minObjectness: real, frameWidth: real,
                           frameHeight: real, signHoldMs: nat)

  /** One classified proposal: the box, the classifier's status and class word. */
  datatype Observation = Observation(x: real, y: real, width: real, height: real, objectness: real,
                                     status: nat, classWord: nat)

  datatype Memory = Memory(latch: HL.Memory, pending: seq<Record>, backgroundSlow: bool, signUntil: nat, state: State)

  const INITIAL := Memory(HL.INITIAL, [], false, 0, Stop)

  predicate Usable(o: Observation, cfg: Config)
  {
    && o.objectness >= cfg.minObjectness && o.width > 0.0 && o.height > 0.0
    && cfg.frameWidth > 0.0 && cfg.frameHeight > 0.0
  }

  /** The class a record gets: a failed classification is treated as a person. */
  function ClassOf(o: Observation, cfg: Config): int
  {
    if o.status == STATUS_OK then Wrap32(o.classWord) else cfg.judge.classes.person
  }

  predicate SaysBackground(o: Observation, cfg: Config)
  {
    o.status == STATUS_OK && IsBackground(Wrap32(o.classWord), cfg.judge.classes)
  }

  function RecordOf(o: Observation, cfg: Config): Record
    requires Usable(o, cfg)
  {
    Record(o.x / cfg.frameWidth, o.y / cfg.frameHeight, (o.x + o.width) / cfg.frameWidth,
           (o.y + o.height) / cfg.frameHeight, o.objectness, ClassOf(o, cfg))
  }

  /** A record is the box in fractions of the frame. */
  lemma RecordIsNormalised(o: Observation, cfg: Config)
    requires Usable(o, cfg)
    ensures var r := RecordOf(o, cfg);
      && r.x1 * cfg.frameWidth == o.x && r.x2 * cfg.frameWidth == o.x + o.width
      && r.y1 * cfg.frameHeight == o.y && r.y2 * cfg.frameHeight == o.y + o.height
      && r.x1 < r.x2 && r.y1 < r.y2
  {
    Fraction(o.x, o.width, cfg.frameWidth);
    Fraction(o.y, o.height, cfg.frameHeight);
  }

  lemma Fraction(a: real, w: real, d: real)
    requires d > 0.0 && w > 0.0
    ensures (a / d) * d == a && ((a + w) / d) * d == a + w && a / d < (a + w) / d
  {
  }

  /** A large near box on the path that the classifier calls background. */
  predicate SuspiciousBackground(r: Record, cfg: Config)
  {
    && r.score >= cfg.minObjectness
    && cfg.judge.zoneXMin <= (r.x1 + r.x2) * 0.5 <= cfg.judge.zoneXMax
    && r.y2 >= cfg.judge.zoneYMin && r.y2 - r.y1 >= cfg.judge.slowHeight
  }

  /** In pixels: a box with a size in a frame with a size, and a proposal score that is high enough. */
  predicate HasSize(o: Observation, cfg: Config)
  {
    && o.objectness >= cfg.minObjectness && 0.0 < o.width && 0.0 < o.height
    && 0.0 < cfg.frameWidth && 0.0 < cfg.frameHeight
  }

  /** The class word as a signed 32-bit number. */
  function SignedWord(word: nat): int { if word <= 0x7FFF_FFFF then word else word - 0x1_0000_0000 }

  /** The classifier has answered, and with the background class. */
  predicate CalledBackground(o: Observation, cfg: Config)
  {
    o.status == 0 && cfg.judge.classes.background >= 0 && SignedWord(o.classWord) == cfg.judge.classes.background
  }

  /** The record stands for the observation: the box in fractions of the frame, its score, and the class
      it was given, a failed classification counting as a person. */
  ghost predicate StandsFor(r: Record, o: Observation, cfg: Config)
  {
    && r.x1 * cfg.frameWidth == o.x && r.x2 * cfg.frameWidth == o.x + o.width
    && r.y1 * cfg.frameHeight == o.y && r.y2 * cfg.frameHeight == o.y + o.height && r.score == o.objectness
    && r.classId == if o.status == 0 then SignedWord(o.classWord) else cfg.judge.classes.person
  }

  /** The records an observation adds to the frame: none or one. */
  function Added(o: Observation, cfg: Config): seq<Record>
  {
    if Usable(o, cfg) && !SaysBackground(o, cfg) then [RecordOf(o, cfg)] else []
  }

  predicate Suspicious(o: Observation, cfg: Config)
  {
    Usable(o, cfg) && SaysBackground(o, cfg) && SuspiciousBackground(RecordOf(o, cfg), cfg)
  }

  function Observed(b: Memory, o: Observation, cfg: Config): Memory
  {
    if |b.pending| >= MAX_DETECTIONS then b
    else b.(pending := b.pending + Added(o, cfg), backgroundSlow := b.backgroundSlow || Suspicious(o, cfg))
  }

  lemma WrapIsSigned(word: nat)
    requires word < 0x1_0000_0000
    ensures Wrap32(word) == SignedWord(word)
  {
  }

  /** What an observation adds: nothing if it has no size or is called background, and otherwise the one
      record that stands for it. */
  lemma AddedIs(o: Observation, cfg: Config)
    requires o.classWord < 0x1_0000_0000
    ensures var rs := Added(o, cfg);
      if !HasSize(o, cfg) || CalledBackground(o, cfg) then rs == [] else |rs| == 1 && StandsFor(rs[0], o, cfg)
  {
    WrapIsSigned(o.classWord);
    hide Wrap32, SignedWord;
    if Usable(o, cfg) {
      RecordIsNormalised(o, cfg);
      assert RecordOf(o, cfg).score == o.objectness && RecordOf(o, cfg).classId == ClassOf(o, cfg);
      hide RecordOf;
    }
  }

  /** Which background makes the robot careful, in pixels: one that stands on the path and is near and
      tall enough for Slow. */
  lemma SuspiciousIff(o: Observation, cfg: Config)
    requires o.classWord < 0x1_0000_0000
    ensures Suspicious(o, cfg) <==>
      && HasSize(o, cfg) && CalledBackground(o, cfg)
      && 2.0 * cfg.judge.zoneXMin * cfg.frameWidth <= 2.0 * o.x + o.width <= 2.0 * cfg.judge.zoneXMax * cfg.frameWidth
      && o.y + o.height >= cfg.judge.zoneYMin * cfg.frameHeight && o.height >= cfg.judge.slowHeight * cfg.frameHeight
  {
    WrapIsSigned(o.classWord);
    hide Wrap32, SignedWord;
    if Usable(o, cfg) {
      var r, c, w, h := RecordOf(o, cfg), cfg.judge, cfg.frameWidth, cfg.frameHeight;
      RecordIsNormalised(o, cfg);
      assert r.score == o.objectness;
      hide RecordOf;
      ScaledOrder(c.zoneXMin, (r.x1 + r.x2) * 0.5, w);
      ScaledOrder((r.x1 + r.x2) * 0.5, c.zoneXMax, w);
      assert (r.x1 + r.x2) * 0.5 * w == (2.0 * o.x + o.width) * 0.5;
      ScaledOrder(c.zoneYMin, r.y2, h);
      ScaledOrder(c.slowHeight, r.y2 - r.y1, h);
      assert (r.y2 - r.y1) * h == o.height;
    }
  }

  predicate IsActiveSign(r: Record, judge: JudgeConfig)
  {
    IsSign(r.classId, judge.classes) && JudgeOne(r, judge) == Slow
  }

  predicate SignSeen(pending: seq<Record>, judge: JudgeConfig)
  {
    exists i :: 0 <= i < |pending| && IsActiveSign(pending[i], judge)
  }

  function SignDeadline(b: Memory, now: nat, cfg: Config): nat
  {
    if SignSeen(b.pending, cfg.judge) then now + cfg.signHoldMs else b.signUntil
  }

  /** The more dangerous of the latch's answer and a Slow that the background or a sign asks for. */
  function Merged(latchState: State, slow: bool): State { Worse(latchState, if slow then Slow else Clear) }

  ghost function Flushed(b: Memory, now: nat, cfg: Config): Memory
  {
    var (latch, s) := HL.Step(b.latch, HL.Frame(b.pending, now), cfg.latch, cfg.judge);
    var until := SignDeadline(b, now, cfg);
    Memory(latch, [], false, until, Merged(s, b.backgroundSlow || now < until))
  }

  function ForcedStop(b: Memory): Memory { Memory(b.latch, [], false, 0, Stop) }

  class Bridge {
    const config: Config
    const latch: HL.Latch
    const transmitter: Tx.Transmitter
    const pending: array<Record>
    var pendingCount: nat
    var pendingBackgroundSlow: bool
    var signSlowUntilMs: nat
    var state: State

    ghost predicate Valid()
      reads this, latch, transmitter, transmitter.port, pending
    {
      && pending.Length == MAX_DETECTIONS && pendingCount <= MAX_DETECTIONS
      && latch.config == config.latch && transmitter.Valid()
    }

    ghost function Value(): Memory
      requires Valid()
      reads this, latch, transmitter, transmitter.port, pending
    {
      Memory(latch.Value(), pending[..pendingCount], pendingBackgroundSlow, signSlowUntilMs, state)
    }

    constructor (config: Config, transmitter: Tx.Transmitter)
      requires transmitter.Valid()
      ensures Valid() && Value() == INITIAL && this.config == config && this.transmitter == transmitter
      ensures fresh(latch) && fresh(pending)
    {
      this.config, this.transmitter := config, transmitter;
      latch := new HL.Latch(config.latch);
      pending := new Record[MAX_DETECTIONS](_ => Record(0.0, 0.0, 0.0, 0.0, 0.0, 0));
      pendingCount, pendingBackgroundSlow, signSlowUntilMs, state := 0, false, 0, Stop;
    }

    method AddObservation(o: Observation)
      requires Valid()
      modifies this, pending
      ensures Valid() && Value() == Observed(old(Value()), o, config)
      ensures old(pendingCount) == 32 ==> Value() == old(Value())
      ensures old(pendingCount) < 32 && o.classWord < 0x1_0000_0000 ==>
        if !HasSize(o, config) || CalledBackground(o, config)
        then pending[..pendingCount] == old(pending[..pendingCount])
        else && pendingCount == old(pendingCount) + 1 && pending[..pendingCount - 1] == old(pending[..pendingCount])
             && StandsFor(pending[pendingCount - 1], o, config)
    {
      if o.classWord < 0x1_0000_0000 { AddedIs(o, config); }
      hide Wrap32, StandsFor, HasSize, CalledBackground;
      if pendingCount >= MAX_DETECTIONS { return; }
      if o.objectness < config.minObjectness || !(o.width > 0.0) || !(o.height > 0.0)
         || !(config.frameWidth > 0.0) || !(config.frameHeight > 0.0) {
        return;
      }
      var x1 := o.x / config.frameWidth;
      var y1 := o.y / config.frameHeight;
      var x2 := (o.x + o.width) / config.frameWidth;
      var y2 := (o.y + o.height) / config.frameHeight;
      var classId: int;
      if o.status != STATUS_OK {
        classId := config.judge.classes.person;
      } else {
        classId := Wrap32(o.classWord);
        if config.judge.classes.background >= 0 && classId == config.judge.classes.background {
          var centerX := (x1 + x2) * 0.5;
          var height := y2 - y1;
          if o.objectness >= config.minObjectness
             && centerX >= config.judge.zoneXMin && centerX <= config.judge.zoneXMax
             && y2 >= config.judge.zoneYMin && height >= config.judge.slowHeight {
            pendingBackgroundSlow := true;
          }
          return;
        }
      }
      pending[pendingCount] := Record(x1, y1, x2, y2, o.objectness, classId);
      pendingCount := pendingCount + 1;
    }

    /** The search for a sign that passed the judge's gates. */
    method FindSign() returns (found: bool)
      requires Valid()
      ensures found == SignSeen(pending[..pendingCount], config.judge)
    {
      hide JudgeOne;
      for i := 0 to pendingCount
        invariant forall j :: 0 <= j < i ==> !IsActiveSign(pending[j], config.judge)
      {
        if IsSign(pending[i].classId, config.judge.classes) && JudgeOne(pending[i], config.judge) == Slow {
          assert IsActiveSign(pending[..pendingCount][i], config.judge);
          return true;
        }
      }
      return false;
    }

    /** The judging half of a flush. */
    method JudgeFrame(now: nat)
      requires Valid()
      modifies this, latch
      ensures Valid() && Value() == Flushed(old(Value()), now, config)
      ensures pendingCount == 0 && !pendingBackgroundSlow
      ensures latch.lastState == HL.Step(old(latch.Value()), HL.Frame(old(pending[..pendingCount]), now), config.latch,
                                         config.judge).1
      ensures IsRaised(state, latch.lastState, old(pendingBackgroundSlow) || now < signSlowUntilMs)
      ensures signSlowUntilMs ==
        if SignSeen(old(pending[..pendingCount]), config.judge) then now + config.signHoldMs else old(signSlowUntilMs)
    {
      hide JudgeOne, HL.Step, SignSeen, Tx.Transmitter.Valid;
      var found := FindSign();
      if found { signSlowUntilMs := now + config.signHoldMs; }
      state := latch.Update(pending[..pendingCount], config.judge, now);
      if pendingBackgroundSlow && state == Clear { state := Slow; }
      if now < signSlowUntilMs && Level(state) < Level(Slow) { state := Slow; }
      pendingCount, pendingBackgroundSlow := 0, false;
    }

    method FlushFrame(now: nat, up: bool)
      requires Valid()
      modifies this, latch, transmitter, transmitter.port
      ensures Valid() && Value() == Flushed(old(Value()), now, config)
      ensures pendingCount == 0 && !pendingBackgroundSlow
      ensures signSlowUntilMs ==
        if SignSeen(old(pending[..pendingCount]), config.judge) then now + config.signHoldMs else old(signSlowUntilMs)
      ensures IsRaised(state, latch.lastState, old(pendingBackgroundSlow) || now < signSlowUntilMs)
      ensures transmitter.Value() == Tx.Published(old(transmitter.Value()), state, now, up)
      ensures transmitter.port.written == old(transmitter.port.written)
              + if Tx.EntersStop(old(transmitter.Value()), state) && up then [Frame(state)] else []
      ensures transmitter.log == old(transmitter.log) + [Tx.Decide(Tx.Decision(state, now, up))]
    {
      hide Flushed, Frame;
      JudgeFrame(now);
      transmitter.Publish(state, now, up);
    }

    method ForceStop(now: nat, up: bool)
      requires Valid()
      modifies this, transmitter, transmitter.port
      ensures Valid() && Value() == ForcedStop(old(Value()))
      ensures pendingCount == 0 && !pendingBackgroundSlow && signSlowUntilMs == 0 && state == Stop
      ensures latch.Value() == old(latch.Value())
      ensures transmitter.Value() == Tx.Published(old(transmitter.Value()), Stop, now, up)
      ensures transmitter.port.written == old(transmitter.port.written)
              + if Tx.EntersStop(old(transmitter.Value()), Stop) && up then [Frame(Stop)] else []
      ensures transmitter.log == old(transmitter.log) + [Tx.Decide(Tx.Decision(Stop, now, up))]
    {
      hide Frame;
      pendingCount, pendingBackgroundSlow, signSlowUntilMs, state := 0, false, 0, Stop;
      transmitter.Publish(state, now, up);
    }
  }

  // ---------------------------------------------------------------- frames

  /** A frame's observations, in order. */
  function ObservedAll(b: Memory, os: seq<Observation>, cfg: Config): Memory
  {
    if os == [] then b else Observed(ObservedAll(b, os[..|os| - 1], cfg), os[|os| - 1], cfg)
  }

  function AddedAll(os: seq<Observation>, cfg: Config): (rs: seq<Record>)
    ensures |rs| <= |os|
  {
    if os == [] then [] else AddedAll(os[..|os| - 1], cfg) + Added(os[|os| - 1], cfg)
  }

  /** A frame of at most 32 observations is judged in full: every usable record, in order, and
      every suspicious background. */
  lemma {:induction false} FrameIsComplete(b: Memory, os: seq<Observation>, cfg: Config)
    requires b.pending == [] && !b.backgroundSlow && |os| <= MAX_DETECTIONS
    ensures ObservedAll(b, os, cfg)
         == b.(pending := AddedAll(os, cfg), backgroundSlow := exists i :: 0 <= i < |os| && Suspicious(os[i], cfg))
  {
    hide Suspicious, Added;
    if os != [] {
      var before := os[..|os| - 1];
      FrameIsComplete(b, before, cfg);
      assert forall i :: 0 <= i < |before| ==> os[i] == before[i];
      assert b.backgroundSlow == false;
    }
  }

  /** In pixels: the box of a car, a person or a failed classification stands on the path, near and
      tall enough. */
  predicate StopsRobot(o: Observation, cfg: Config)
  {
    var c := cfg.judge;
    var id := if o.status == 0 then Wrap32(o.classWord) else c.classes.person;
    && HasSize(o, cfg) && o.objectness >= c.minScore && (id == c.classes.car || id == c.classes.person)
    && id != c.classes.signWarning && id != c.classes.signProhibition && id != c.classes.signMandatory
    && !(c.classes.background >= 0 && id == c.classes.background)
    && 2.0 * c.zoneXMin * cfg.frameWidth <= 2.0 * o.x + o.width <= 2.0 * c.zoneXMax * cfg.frameWidth
    && o.y + o.height >= c.zoneYMin * cfg.frameHeight && o.height >= c.stopHeight * cfg.frameHeight
  }

  lemma ScaledOrder(a: real, b: real, d: real)
    requires d > 0.0
    ensures a <= b <==> a * d <= b * d
  {
    if a <= b { assert (b - a) * d >= 0.0; } else { assert (a - b) * d > 0.0; }
  }

  lemma StopRecordIff(o: Observation, cfg: Config)
    requires Usable(o, cfg)
    ensures JudgeOne(RecordOf(o, cfg), cfg.judge) == Stop <==> StopsRobot(o, cfg)
  {
    var r, c, w, h := RecordOf(o, cfg), cfg.judge, cfg.frameWidth, cfg.frameHeight;
    StopIff(r, c);
    RecordIsNormalised(o, cfg);
    hide JudgeOne, CanStop, ClassOf;
    ScaledOrder(c.zoneXMin, (r.x1 + r.x2) * 0.5, w);
    ScaledOrder((r.x1 + r.x2) * 0.5, c.zoneXMax, w);
    assert (r.x1 + r.x2) * 0.5 * w == (2.0 * o.x + o.width) * 0.5;
    ScaledOrder(c.zoneYMin, r.y2, h);
    ScaledOrder(c.stopHeight, r.y2 - r.y1, h);
    assert (r.y2 - r.y1) * h == o.height;
  }

  /** Which observations give a frame a record that stops the robot. */
  lemma ObservationStopsIff(o: Observation, cfg: Config)
    ensures (exists r :: r in Added(o, cfg) && JudgeOne(r, cfg.judge) == Stop) <==> StopsRobot(o, cfg)
  {
    hide JudgeOne, RecordOf;
    if Usable(o, cfg) {
      StopRecordIff(o, cfg);
      if StopsRobot(o, cfg) { assert RecordOf(o, cfg) in Added(o, cfg); }
    }
  }

  lemma {:induction false} AddedFrom(os: seq<Observation>, k: nat, cfg: Config) returns (i: nat)
    requires k < |AddedAll(os, cfg)|
    ensures i < |os| && AddedAll(os, cfg)[k] in Added(os[i], cfg)
  {
    hide Added;
    var n := |os| - 1;
    if k < |AddedAll(os[..n], cfg)| { i := AddedFrom(os[..n], k, cfg); } else { i := n; }
  }

  // ---------------------------------------------------------------- runs of flushes

  datatype Event = Flush(pending: seq<Record>, backgroundSlow: bool, now: nat) | Force(now: nat)

  /** The bridge after a series of frames and forced stops. */
  ghost function AfterEvents(events: seq<Event>, cfg: Config): Memory
  {
    if events == [] then INITIAL
    else
      var b := AfterEvents(events[..|events| - 1], cfg);
      match events[|events| - 1]
      case Flush(pending, slow, now) => Flushed(b.(pending := pending, backgroundSlow := slow), now, cfg)
      case Force(_) => ForcedStop(b)
  }

  /** A sign seen by flush `k` keeps every flush at Slow or above for sign_hold_ms, unless a
      forced stop comes between. */
  lemma {:induction false} SignHolds(events: seq<Event>, k: nat, cfg: Config)
    requires k < |events| && events[k].Flush? && SignSeen(events[k].pending, cfg.judge)
    requires forall i :: k <= i < |events| ==> events[i].Flush? && events[k].now <= events[i].now
    ensures var b := AfterEvents(events, cfg); var e := events[|events| - 1];
      && b.signUntil >= events[k].now + cfg.signHoldMs
      && (e.now < events[k].now + cfg.signHoldMs ==> Level(b.state) >= Level(Slow))
  {
    hide HL.Step, SignSeen;
    var n := |events| - 1;
    if k < n {
      SignHolds(events[..n], k, cfg);
    }
  }

  /** The frames the latch has judged. */
  function Judged(events: seq<Event>): seq<HL.Frame>
  {
    if events == [] then []
    else
      Judged(events[..|events| - 1]) +
      match events[|events| - 1]
      case Flush(pending, _, now) => [HL.Frame(pending, now)]
      case Force(_) => []
  }

  /** The latch inside the bridge runs over exactly the flushed frames; forced stops, background
      and signs leave it alone. */
  lemma {:induction false} LatchFollows(events: seq<Event>, cfg: Config)
    ensures var fs := Judged(events); AfterEvents(events, cfg).latch == HL.After(fs, |fs|, cfg.latch, cfg.judge)
  {
    hide HL.Step, SignSeen;
    if events != [] {
      var before := events[..|events| - 1];
      LatchFollows(before, cfg);
      var e, fs := events[|events| - 1], Judged(events);
      if e.Flush? {
        PrefixOfRun(Judged(before), fs, |Judged(before)|, cfg);
        assert fs == Judged(before) + [HL.Frame(e.pending, e.now)];
      } else {
        assert fs == Judged(before);
      }
    }
  }

  lemma {:induction false} PrefixOfRun(a: seq<HL.Frame>, b: seq<HL.Frame>, k: nat, cfg: Config)
    requires k <= |a| && a <= b
    ensures HL.After(a, k, cfg.latch, cfg.judge) == HL.After(b, k, cfg.latch, cfg.judge)
  {
    hide HL.Step;
    if k > 0 { PrefixOfRun(a, b, k - 1, cfg); }
  }

  /** `s` is the latch's answer, or Slow where that is Clear and something asks for Slow. */
  predicate IsRaised(s: State, latchState: State, slow: bool)
  {
    s == if latchState == Clear && slow then Slow else latchState
  }

  /** Which records are signs that count: of one of the three sign classes, scored, with a size, and wide
      enough for Slow. */
  lemma SignSeenIff(pending: seq<Record>, judge: JudgeConfig)
    ensures SignSeen(pending, judge) <==>
      exists i :: 0 <= i < |pending| && ShowsSign(pending[i], judge)
  {
    hide JudgeOne;
    forall i | 0 <= i < |pending| ensures IsActiveSign(pending[i], judge) <==> ShowsSign(pending[i], judge) {
      SlowIff(pending[i], judge);
    }
    hide IsActiveSign, ShowsSign;
  }

  predicate ShowsSign(r: Record, judge: JudgeConfig)
  {
    && (r.classId == judge.classes.signWarning || r.classId == judge.classes.signProhibition
        || r.classId == judge.classes.signMandatory)
    && !(judge.classes.background >= 0 && r.classId == judge.classes.background)
    && r.score >= judge.minScore && r.x1 < r.x2 && r.y1 < r.y2 && r.x2 - r.x1 >= judge.signSlowWidth
  }

  lemma FlushMerges(b: Memory, now: nat, cfg: Config)
    ensures var s := HL.Step(b.latch, HL.Frame(b.pending, now), cfg.latch, cfg.judge).1;
      var slow := b.backgroundSlow || now < SignDeadline(b, now, cfg);
      var f := Flushed(b, now, cfg);
      && f.state == Merged(s, slow) && IsRaised(f.state, s, slow)
      && (f.state == Stop <==> s == Stop) && (f.state == Clear <==> s == Clear && !slow)
  {
    hide HL.Step, SignSeen;
  }

  /** Flush `k` saw a sign and no forced stop has come since. */
  ghost predicate SignHeld(events: seq<Event>, k: nat, cfg: Config)
  {
    && k < |events| && (forall i :: k <= i < |events| ==> events[i].Flush?)
    && SignSeen(events[k].pending, cfg.judge)
  }

  lemma {:induction false} DeadlineHasSign(events: seq<Event>, cfg: Config)
    ensures var u := AfterEvents(events, cfg).signUntil;
      u == 0 || exists k: nat :: SignHeld(events, k, cfg) && u == events[k].now + cfg.signHoldMs
  {
    hide HL.Step, SignSeen;
    if events != [] {
      var n := |events| - 1;
      DeadlineHasSign(events[..n], cfg);
      if events[n].Flush? {
        if SignSeen(events[n].pending, cfg.judge) {
          assert SignHeld(events, n, cfg);
        } else if k: nat :| SignHeld(events[..n], k, cfg)
                            && AfterEvents(events[..n], cfg).signUntil == events[..n][k].now + cfg.signHoldMs {
          assert SignHeld(events, k, cfg) && events[k] == events[..n][k];
        }
      }
    }
  }

  /** Clock readings never go back. */
  predicate Ordered(events: seq<Event>)
  {
    forall i, j :: 0 <= i <= j < |events| ==> events[i].now <= events[j].now
  }

  /** The frame just flushed asks for Slow: a suspicious background, or a sign seen less than the hold
      time ago, in this frame or in one since which no stop was forced. */
  ghost predicate AsksForSlow(events: seq<Event>, cfg: Config)
    requires events != [] && events[|events| - 1].Flush?
  {
    var e := events[|events| - 1];
    e.backgroundSlow || exists k: nat :: SignHeld(events, k, cfg) && e.now < events[k].now + cfg.signHoldMs
  }

  /** The latch's answer to the last frame of the run over the flushed frames. */
  ghost function LatchAnswer(events: seq<Event>, cfg: Config): State
    requires events != [] && events[|events| - 1].Flush?
  {
    var fs := Judged(events);
    HL.Output(fs, |fs| - 1, cfg.latch, cfg.judge)
  }

  /** The memory that the last flush judges. */
  ghost function Judging(events: seq<Event>, cfg: Config): Memory
    requires events != [] && events[|events| - 1].Flush?
  {
    var e := events[|events| - 1];
    AfterEvents(events[..|events| - 1], cfg).(pending := e.pending, backgroundSlow := e.backgroundSlow)
  }

  lemma LatchAnswers(events: seq<Event>, cfg: Config)
    requires events != [] && events[|events| - 1].Flush?
    ensures var e, b := events[|events| - 1], Judging(events, cfg);
      LatchAnswer(events, cfg) == HL.Step(b.latch, HL.Frame(e.pending, e.now), cfg.latch, cfg.judge).1
  {
    hide HL.Step, SignSeen;
    var before, e := events[..|events| - 1], events[|events| - 1];
    LatchFollows(before, cfg);
    PrefixOfRun(Judged(before), Judged(events), |Judged(before)|, cfg);
    assert Judged(events) == Judged(before) + [HL.Frame(e.pending, e.now)];
  }

  /** Every decision of every run: the more dangerous of the latch's answer and the Slow that the
      background and the signs ask for. */
  lemma PublishedIsMaximum(events: seq<Event>, cfg: Config)
    requires events != [] && events[|events| - 1].Flush? && Ordered(events)
    ensures IsRaised(AfterEvents(events, cfg).state, LatchAnswer(events, cfg), AsksForSlow(events, cfg))
    ensures AfterEvents(events, cfg).state == Stop <==> LatchAnswer(events, cfg) == Stop
  {
    hide HL.Step, SignSeen, Merged, LatchAnswer, IsRaised;
    var e, b := events[|events| - 1], Judging(events, cfg);
    LatchAnswers(events, cfg);
    FlushMerges(b, e.now, cfg);
    DeadlineHasSign(events, cfg);
    var until := AfterEvents(events, cfg).signUntil;
    assert until == SignDeadline(b, e.now, cfg);
    if k: nat :| SignHeld(events, k, cfg) && e.now < events[k].now + cfg.signHoldMs {
      SignHolds(events, k, cfg);
    }
  }

  lemma {:induction false} JudgedFrom(events: seq<Event>, i: nat) returns (j: nat)
    requires i < |Judged(events)|
    ensures j < |events| && events[j].Flush? && Judged(events)[i] == HL.Frame(events[j].pending, events[j].now)
    ensures i == |Judged(events)| - 1 && events[|events| - 1].Flush? ==> j == |events| - 1
  {
    var n := |events| - 1;
    if i < |Judged(events[..n])| { j := JudgedFrom(events[..n], i); } else { j := n; }
  }

  /** No Stop out of nowhere: if a run's last frame is judged Stop, then it, or a frame less than the
      hold time earlier, holds an observation of a car, a person or a failed classification that is
      on the path, near and tall enough. `frames` are the observations behind the flushed records. */
  lemma StopHasCause(events: seq<Event>, frames: seq<seq<Observation>>, cfg: Config) returns (j: nat, i: nat)
    requires |frames| == |events| && forall k :: 0 <= k < |events| && events[k].Flush? ==>
      events[k].pending == AddedAll(frames[k], cfg)
    requires events != [] && events[|events| - 1].Flush? && AfterEvents(events, cfg).state == Stop
    ensures j < |events| && events[j].Flush? && i < |frames[j]| && StopsRobot(frames[j][i], cfg)
    ensures j < |events| - 1 ==> events[|events| - 1].now < events[j].now + cfg.latch.holdMs
  {
    hide HL.Step, SignSeen, Added, StopsRobot, JudgeOne;
    var fs, e, b := Judged(events), events[|events| - 1], Judging(events, cfg);
    LatchAnswers(events, cfg);
    FlushMerges(b, e.now, cfg);
    var n := HL.StopHasCause(fs, |fs| - 1, cfg.latch, cfg.judge);
    j := JudgedFrom(events, n);
    var last := JudgedFrom(events, |fs| - 1);
    var k :| 0 <= k < |fs[n].items| && JudgeOne(fs[n].items[k], cfg.judge) == Stop;
    i := AddedFrom(frames[j], k, cfg);
    ObservationStopsIff(frames[j][i], cfg);
  }
}
