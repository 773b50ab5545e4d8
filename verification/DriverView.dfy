/** The arbiter seen from outside: every command as a function of the messages and ticks so far, with no
    reference to what the arbiter remembers. */
module DriverView {
  import opened Arbiter
  import opened ResumeGate
  import opened Wrappers

  // ---------------------------------------------------------------- what the last messages said

  /** The last safety message: its state, 2 (stop) for anything undefined, and its time. */
  function LastSafety(events: seq<Event>, k: nat): (int, real)
    requires k <= |events|
  {
    if k == 0 then (2, 0.0)
    else match events[k - 1]
      case SafetyMessage(data, now) => (if 0 <= data <= 2 then data else 2, now)
      case _ => LastSafety(events, k - 1)
  }

  /** The time of the last input, from the stick or, in manual mode, from the manual topic. */
  function LastInput(events: seq<Event>, k: nat, manual: bool): real
    requires k <= |events|
  {
    if k == 0 then 0.0
    else match events[k - 1]
      case JoyMessage(_, now) => if manual then LastInput(events, k - 1, manual) else now
      case ManualMessage(_, now) => if manual then now else LastInput(events, k - 1, manual)
      case _ => LastInput(events, k - 1, manual)
  }

  function LastManual(events: seq<Event>, k: nat): Twist
    requires k <= |events|
  {
    if k == 0 then Twist(0.0, 0.0)
    else match events[k - 1]
      case ManualMessage(t, _) => t
      case _ => LastManual(events, k - 1)
  }

  predicate SafetyOld(events: seq<Event>, k: nat, cfg: ClampedConfig)
    requires k < |events| && events[k].Timer?
  {
    events[k].now - LastSafety(events, k).1 > cfg.safetyTimeout
  }

  predicate InputOld(events: seq<Event>, k: nat, cfg: ClampedConfig)
    requires k < |events| && events[k].Timer?
  {
    events[k].now - LastInput(events, k, cfg.noJoyMode) > cfg.joyTimeout
  }

  /** In joy mode: no e-stop, fresh input, and the deadman button down. In manual mode: fresh input. */
  predicate DriverThere(events: seq<Event>, k: nat, cfg: ClampedConfig)
    requires k < |events| && events[k].Timer?
  {
    && !InputOld(events, k, cfg)
    && (cfg.noJoyMode || (Presses(events, k + 1) % 2 == 0 && Pressed(LatestJoy(events, k), 4)))
  }

  /** The safety state at the last tick before `k` at which the driver was there and the state was fresh. */
  function LastDriven(events: seq<Event>, k: nat, cfg: ClampedConfig): int
    requires k <= |events|
  {
    if k == 0 then 2
    else if events[k - 1].Timer? && DriverThere(events, k - 1, cfg) && !SafetyOld(events, k - 1, cfg)
    then LastSafety(events, k - 1).0
    else LastDriven(events, k - 1, cfg)
  }

  // ---------------------------------------------------------------- what they mean

  /** A tick at which the driver may steer: there, with a fresh safety state that is not stop. */
  predicate MaySteer(events: seq<Event>, k: nat, cfg: ClampedConfig)
    requires k < |events|
  {
    events[k].Timer? && DriverThere(events, k, cfg) && !SafetyOld(events, k, cfg) && LastSafety(events, k).0 != 2
  }

  /** Events after which the driver has to let go of the stick first: a stop message; a tick with stale
      input, unless the e-stop is on; a driven tick with a stale state or a stop; and in joy mode the
      first driven tick after a stop. */
  predicate Alarms(events: seq<Event>, k: nat, cfg: ClampedConfig)
    requires k < |events|
  {
    match events[k]
    case SafetyMessage(data, _) => !(data == 0 || data == 1)
    case Timer(_) =>
      || ((cfg.noJoyMode || Presses(events, k + 1) % 2 == 0) && InputOld(events, k, cfg))
      || ((cfg.noJoyMode || DriverThere(events, k, cfg)) && (SafetyOld(events, k, cfg) || LastSafety(events, k).0 == 2))
      || (!cfg.noJoyMode && MaySteer(events, k, cfg) && LastDriven(events, k, cfg) == 2)
    case _ => false
  }

  /** What the driver asks for at tick `k`. */
  ghost predicate Asked(events: seq<Event>, k: nat, cfg: ClampedConfig, along: real, around: real)
    requires k < |events|
  {
    if cfg.noJoyMode then Twist(along, around) == LastManual(events, k)
    else Directs(LatestJoy(events, k), cfg, along, around)
  }

  predicate InCentre(along: real, around: real) { -0.05 < along < 0.05 && -0.05 < around < 0.05 }

  lemma NeutralIsCentre(x: real, y: real)
    ensures Neutral(x, y) <==> InCentre(x, y)
  {
  }

  /** The arbiter's memory is what the events say. */
  ghost predicate Knows(events: seq<Event>, k: nat, cfg: ClampedConfig)
    requires k <= |events|
  {
    var m := After(events, k, cfg);
    && (m.safety, m.safetyStamp) == LastSafety(events, k) && m.joyStamp == LastInput(events, k, false)
    && m.manualStamp == LastInput(events, k, true) && m.manual == LastManual(events, k)
    && (!cfg.noJoyMode ==> m.joy == LatestJoy(events, k) && m.prevSafety == LastDriven(events, k, cfg))
  }

  /** What a tick leaves alone. */
  predicate Keeps(m: Memory, n: Memory)
  {
    && n.safety == m.safety && n.safetyStamp == m.safetyStamp && n.joyStamp == m.joyStamp && n.joy == m.joy
    && n.manual == m.manual && n.manualStamp == m.manualStamp
  }

  lemma GateKeeps(m: Memory, x: real, y: real)
    ensures Keeps(m, Gate(m, x, y).0) && Gate(m, x, y).0.prevSafety == m.prevSafety
  {
  }

  lemma DriveKeeps(m: Memory, cfg: ClampedConfig)
    ensures Keeps(m, JoyDrive(m, cfg).0) && JoyDrive(m, cfg).0.prevSafety == m.safety
  {
    hide DirectionInput, Gate, Limited;
    var n := TrackSafety(m);
    GateKeeps(n, DirectionInput(n.joy, cfg).0, DirectionInput(n.joy, cfg).1);
  }

  lemma TickKeeps(m: Memory, now: real, cfg: ClampedConfig)
    ensures var n := Tick(m, now, cfg).0;
      && Keeps(m, n)
      && (!cfg.noJoyMode ==>
           n.prevSafety == if DriverActive(m, now, cfg) && !SafetyStale(m, now, cfg) then m.safety else m.prevSafety)
  {
    hide Gate, Limited, Button, JoyDrive;
    GateKeeps(m, m.manual.linear, m.manual.angular);
    DriveKeeps(EstopEdge(m), cfg);
  }

  lemma PressedIsButton(joy: Option<Joy>, i: nat)
    ensures Button(joy, i) == Pressed(joy, i)
  {
  }

  lemma ThereIff(events: seq<Event>, k: nat, cfg: ClampedConfig)
    requires k < |events| && events[k].Timer? && Knows(events, k, cfg)
    ensures var m, now := After(events, k, cfg), events[k].now;
      && (InputTimedOut(m, now, cfg) <==> InputOld(events, k, cfg))
      && (SafetyStale(m, now, cfg) <==> SafetyOld(events, k, cfg))
      && (!cfg.noJoyMode ==> (EstopEdge(m).estop <==> Presses(events, k + 1) % 2 == 1)
                             && (DriverActive(m, now, cfg) <==> DriverThere(events, k, cfg)))
  {
    hide After, Presses, LatestJoy, LastSafety, LastInput, Button, Pressed, EstopEdge;
    if !cfg.noJoyMode {
      var m := After(events, k, cfg);
      EstopIsParity(events, k + 1, cfg);
      EstopAfter(events, k, cfg);
      PressedIsButton(m.joy, DEADMAN_BTN);
    }
  }

  lemma EstopAfter(events: seq<Event>, k: nat, cfg: ClampedConfig)
    requires k < |events| && events[k].Timer? && !cfg.noJoyMode && ButtonsRemembered(events, k + 1, cfg)
    ensures EstopEdge(After(events, k, cfg)).estop <==> Presses(events, k + 1) % 2 == 1
  {
    hide Tick, Presses, LatestJoy, WasPressed, EstopEdge;
    TickKeepsEstop(After(events, k, cfg), events[k].now, cfg);
    assert After(events, k + 1, cfg) == Tick(After(events, k, cfg), events[k].now, cfg).0;
  }

  lemma KnowsNext(events: seq<Event>, k: nat, cfg: ClampedConfig)
    requires k < |events| && Knows(events, k, cfg)
    ensures Knows(events, k + 1, cfg)
  {
    hide Tick, DriverActive, DriverThere, SafetyOld, SafetyStale;
    if events[k].Timer? {
      TickKeeps(After(events, k, cfg), events[k].now, cfg);
      ThereIff(events, k, cfg);
    }
  }

  lemma {:induction false} AlwaysKnows(events: seq<Event>, k: nat, cfg: ClampedConfig)
    requires k <= |events|
    ensures Knows(events, k, cfg)
  {
    if k > 0 {
      AlwaysKnows(events, k - 1, cfg);
      hide Knows;
      KnowsNext(events, k - 1, cfg);
    }
  }

  lemma ReachesIff(events: seq<Event>, k: nat, cfg: ClampedConfig)
    requires k < |events|
    ensures ReachesGate(After(events, k, cfg), events[k], cfg) <==> MaySteer(events, k, cfg)
    ensures ArmsAt(events, k, cfg) <==> Alarms(events, k, cfg)
  {
    AlwaysKnows(events, k, cfg);
    hide After, LastInput, LatestJoy, Presses, EstopEdge, InputTimedOut, InputOld, SafetyStale, SafetyOld;
    if events[k].Timer? {
      ThereIff(events, k, cfg);
      hide DriverActive;
    }
  }

  // ---------------------------------------------------------------- every command

  /** At tick `k` the driver may steer and has the stick in the centre, or not in the centre. */
  ghost predicate LetsGo(events: seq<Event>, k: nat, cfg: ClampedConfig)
    requires k < |events|
  {
    MaySteer(events, k, cfg) && forall x, y :: Asked(events, k, cfg, x, y) ==> InCentre(x, y)
  }

  ghost predicate Steers(events: seq<Event>, k: nat, cfg: ClampedConfig)
    requires k < |events|
  {
    MaySteer(events, k, cfg) && forall x, y :: Asked(events, k, cfg, x, y) ==> !InCentre(x, y)
  }

  predicate NoAlarm(events: seq<Event>, from: nat, to: nat, cfg: ClampedConfig)
    requires to <= |events|
  {
    forall i :: from <= i < to ==> !Alarms(events, i, cfg)
  }

  /** No alarm yet, or since the last one the driver has let go and steered again. */
  ghost predicate Released(events: seq<Event>, k: nat, cfg: ClampedConfig)
    requires k <= |events|
  {
    || NoAlarm(events, 0, k, cfg)
    || exists a, b :: 0 <= a < b < k &&
         LetsGo(events, a, cfg) && Steers(events, b, cfg) && NoAlarm(events, a + 1, k, cfg)
  }

  /** The command for what the driver asks: as it is, or in joy mode scaled to 0.22 and 2.84; under slow
      within the caps. */
  ghost predicate Gives(t: Twist, events: seq<Event>, k: nat, cfg: ClampedConfig, along: real, around: real)
    requires k < |events|
  {
    var v, w := if cfg.noJoyMode then along else along * 0.22, if cfg.noJoyMode then around else around * 2.84;
    if LastSafety(events, k).0 == 1 then Within(t.linear, v, cfg.slowLinear) && Within(t.angular, w, cfg.slowAngular)
    else t == Twist(v, w)
  }

  /** `r` is `v`, or the limit in its direction where `v` exceeds it. */
  predicate Within(r: real, v: real, limit: real)
  {
    limit >= 0.0 ==> r == if v > limit then limit else if v < -limit then -limit else v
  }

  lemma OneDirection(joy: Option<Joy>, cfg: ClampedConfig, x: real, y: real)
    requires Directs(joy, cfg, x, y)
    ensures (x, y) == DirectionInput(joy, cfg)
  {
    SameButtons(joy);
    if Pressed(joy, 3) == Pressed(joy, 0) && Pressed(joy, 2) == Pressed(joy, 1) {
      hide Responds, Dropped, Forward, Stick, Pressed;
      var p, q :| SteersBy(joy, cfg, p, q, x, y);
      OneResponse(joy, cfg, p, q);
      SnapDrops(p, q, cfg.snapRatio);
      hide Snap;
    }
  }

  lemma OneResponse(joy: Option<Joy>, cfg: ClampedConfig, p: real, q: real)
    requires Responds(p, Forward(joy, cfg), cfg.deadzone) && Responds(q, Stick(joy, 0), cfg.deadzone)
    requires Pressed(joy, 3) == Pressed(joy, 0) && Pressed(joy, 2) == Pressed(joy, 1)
    ensures DirectionInput(joy, cfg) == Snap(p, q, cfg.snapRatio)
  {
    SameButtons(joy);
    SameStick(joy, cfg);
    DeadzoneResponds(Ahead(joy, cfg), cfg);
    DeadzoneResponds(Axis(joy, ANGULAR_AXIS), cfg);
    SameResponse(p, ApplyDeadzone(Ahead(joy, cfg), cfg), Forward(joy, cfg), cfg.deadzone);
    SameResponse(q, ApplyDeadzone(Axis(joy, ANGULAR_AXIS), cfg), Stick(joy, 0), cfg.deadzone);
    hide ApplyDeadzone, Snap, Forward, Stick, Ahead, Axis, Responds, Button, Pressed;
  }

  lemma SameResponse(p: real, q: real, stick: real, deadzone: real)
    requires Responds(p, stick, deadzone) && Responds(q, stick, deadzone) && deadzone < 1.0
    ensures p == q
  {
  }

  lemma AskedIs(events: seq<Event>, k: nat, cfg: ClampedConfig)
    requires k < |events|
    ensures var (x, y) := Input(After(events, k, cfg), cfg);
      Asked(events, k, cfg, x, y) && forall v, w :: Asked(events, k, cfg, v, w) ==> v == x && w == y
  {
    AlwaysKnows(events, k, cfg);
    hide After, LastSafety, LastInput, LatestJoy, DirectionInput, Directs;
    var joy := LatestJoy(events, k);
    InputDirects(joy, cfg);
    forall v, w | Directs(joy, cfg, v, w) ensures (v, w) == DirectionInput(joy, cfg) { OneDirection(joy, cfg, v, w); }
  }

  lemma TicksAre(events: seq<Event>, k: nat, cfg: ClampedConfig)
    requires k < |events|
    ensures NeutralAt(events, k, cfg) <==> LetsGo(events, k, cfg)
    ensures DeliberateAt(events, k, cfg) <==> Steers(events, k, cfg)
  {
    ReachesIff(events, k, cfg);
    AskedIs(events, k, cfg);
    var (x, y) := Input(After(events, k, cfg), cfg);
    NeutralIsCentre(x, y);
    hide After, Input, ReachesGate, MaySteer, Asked, Neutral, InCentre;
  }

  lemma ReleasedIff(events: seq<Event>, n: nat, cfg: ClampedConfig)
    requires n <= |events|
    ensures Opened(events, n, cfg) <==> Released(events, n, cfg)
  {
    forall i: nat | i < |events|
      ensures ArmsAt(events, i, cfg) <==> Alarms(events, i, cfg)
      ensures NeutralAt(events, i, cfg) <==> LetsGo(events, i, cfg)
      ensures DeliberateAt(events, i, cfg) <==> Steers(events, i, cfg)
    {
      ReachesIff(events, i, cfg);
      TicksAre(events, i, cfg);
    }
    hide ArmsAt, Alarms, NeutralAt, LetsGo, DeliberateAt, Steers;
    forall a: nat ensures Undisturbed(events, a, n, cfg) <==> NoAlarm(events, a, n, cfg) { }
    hide Undisturbed, NoAlarm;
    if Opened(events, n, cfg) && !Undisturbed(events, 0, n, cfg) {
      var a, b :| 0 <= a < b < n && NeutralAt(events, a, cfg) && DeliberateAt(events, b, cfg)
                  && Undisturbed(events, a + 1, n, cfg);
      assert LetsGo(events, a, cfg) && Steers(events, b, cfg) && NoAlarm(events, a + 1, n, cfg);
    }
    if Released(events, n, cfg) && !NoAlarm(events, 0, n, cfg) {
      var a, b :| 0 <= a < b < n && LetsGo(events, a, cfg) && Steers(events, b, cfg) && NoAlarm(events, a + 1, n, cfg);
      assert NeutralAt(events, a, cfg) && DeliberateAt(events, b, cfg) && Undisturbed(events, a + 1, n, cfg);
    }
  }

  lemma CapIsWithin(limit: real, v: real)
    ensures Within(Cap(limit, v), v, limit)
  {
  }

  lemma PassesGives(events: seq<Event>, k: nat, cfg: ClampedConfig, t: Twist)
    requires k < |events| && Passes(After(events, k, cfg), t, cfg)
    ensures exists x, y :: Asked(events, k, cfg, x, y) && Gives(t, events, k, cfg, x, y)
  {
    AskedIs(events, k, cfg);
    AlwaysKnows(events, k, cfg);
    var m := After(events, k, cfg);
    var (x, y) := Input(m, cfg);
    hide After, Input, Asked, LastInput, LatestJoy, Cap, Nearest;
    var full := FullCommand(m, cfg);
    CapIsWithin(cfg.slowLinear, full.linear);
    CapIsWithin(cfg.slowAngular, full.angular);
    hide Within;
    assert Gives(t, events, k, cfg, x, y);
  }

  /** Every command of every run, from the messages and ticks alone: if the driver may steer and has let
      go and steered again since the last alarm, the robot does what is asked, within the caps under slow;
      otherwise it is told to stand. */
  lemma CommandFollows(events: seq<Event>, k: nat, cfg: ClampedConfig)
    requires k < |events| && events[k].Timer?
    ensures var t := Command(events, k, cfg);
      if MaySteer(events, k, cfg) && Released(events, k + 1, cfg)
      then exists x, y :: Asked(events, k, cfg, x, y) && Gives(t, events, k, cfg, x, y)
      else t == Twist(0.0, 0.0)
  {
    CommandIs(events, k, cfg);
    ReachesIff(events, k, cfg);
    ReleasedIff(events, k + 1, cfg);
    hide After, Command, ReachesGate, Opened, MaySteer, Released, Passes;
    if MaySteer(events, k, cfg) && Released(events, k + 1, cfg) {
      PassesGives(events, k, cfg, Command(events, k, cfg));
    }
  }
}
