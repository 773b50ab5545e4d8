/** Runs of the arbiter: what has to happen between a stop and the next movement, and how fast
    the robot can be told to go. */
module ResumeGate {
  import opened Arbiter
  import opened Wrappers

  datatype Event = SafetyMessage(data: int, now: real) | JoyMessage(joy: Joy, now: real)
                 | ManualMessage(twist: Twist, now: real) | Timer(now: real)

  function Next(m: Memory, e: Event, cfg: ClampedConfig): Memory
  {
    match e
    case SafetyMessage(data, now) => OnSafety(m, data, now)
    case JoyMessage(joy, now) => m.(joy := Some(joy), joyStamp := now)
    case ManualMessage(twist, now) => m.(manual := twist, manualStamp := now)
    case Timer(now) => Tick(m, now, cfg).0
  }

  function After(events: seq<Event>, k: nat, cfg: ClampedConfig): Memory
    requires k <= |events|
  {
    if k == 0 then INITIAL else Next(After(events, k - 1, cfg), events[k - 1], cfg)
  }

  /** The twist that timer event `k` publishes. */
  function Command(events: seq<Event>, k: nat, cfg: ClampedConfig): Twist
    requires k < |events| && events[k].Timer?
  {
    Tick(After(events, k, cfg), events[k].now, cfg).1
  }

  // ---------------------------------------------------------------- what arms the gate

  predicate InputTimedOut(m: Memory, now: real, cfg: Config)
  {
    now - (if cfg.noJoyMode then m.manualStamp else m.joyStamp) > cfg.joyTimeout
  }

  /** In joy mode a tick gets past the e-stop, the timeout and the deadman button. */
  predicate DriverActive(m: Memory, now: real, cfg: ClampedConfig)
  {
    var n := EstopEdge(m);
    !n.estop && !InputTimedOut(m, now, cfg) && Button(m.joy, DEADMAN_BTN)
  }

  /** A STOP message, or a tick that sees STOP, stale safety or stale input. */
  predicate StopEvent(m: Memory, e: Event, cfg: ClampedConfig)
  {
    match e
    case SafetyMessage(data, _) => Effective(data) == STOP
    case Timer(now) =>
      if cfg.noJoyMode then SafetyStale(m, now, cfg) || m.safety == STOP || InputTimedOut(m, now, cfg)
      else
        || (!EstopEdge(m).estop && InputTimedOut(m, now, cfg))
        || (DriverActive(m, now, cfg) && (SafetyStale(m, now, cfg) || m.safety == STOP))
    case _ => false
  }

  /** In joy mode the first driven tick after a STOP arms the gate once more. */
  predicate LeavesStop(m: Memory, e: Event, cfg: ClampedConfig)
  {
    && e.Timer? && !cfg.noJoyMode && DriverActive(m, e.now, cfg) && !SafetyStale(m, e.now, cfg)
    && m.prevSafety == STOP && m.safety != STOP
  }

  predicate Arms(m: Memory, e: Event, cfg: ClampedConfig) { StopEvent(m, e, cfg) || LeavesStop(m, e, cfg) }

  /** The tick gets as far as the gate. */
  predicate ReachesGate(m: Memory, e: Event, cfg: ClampedConfig)
  {
    e.Timer? && !StopEvent(m, e, cfg) && (cfg.noJoyMode || DriverActive(m, e.now, cfg))
  }

  /** The input the gate looks at. */
  function Input(m: Memory, cfg: ClampedConfig): (real, real)
  {
    if cfg.noJoyMode then (m.manual.linear, m.manual.angular) else DirectionInput(m.joy, cfg)
  }

  predicate NeutralAt(events: seq<Event>, k: int, cfg: ClampedConfig)
  {
    0 <= k < |events| &&
    var m := After(events, k, cfg);
    ReachesGate(m, events[k], cfg) && Neutral(Input(m, cfg).0, Input(m, cfg).1)
  }

  predicate DeliberateAt(events: seq<Event>, k: int, cfg: ClampedConfig)
  {
    0 <= k < |events| &&
    var m := After(events, k, cfg);
    ReachesGate(m, events[k], cfg) && !Neutral(Input(m, cfg).0, Input(m, cfg).1)
  }

  predicate ArmsAt(events: seq<Event>, k: nat, cfg: ClampedConfig)
    requires k < |events|
  {
    Arms(After(events, k, cfg), events[k], cfg)
  }

  /** No event from `from` on and before `to` arms the gate. */
  predicate Undisturbed(events: seq<Event>, from: nat, to: nat, cfg: ClampedConfig)
    requires to <= |events|
  {
    forall i :: from <= i < to ==> !ArmsAt(events, i, cfg)
  }

  /** How one event moves the gate. */
  predicate Moves(m: Memory, n: Memory, reaches: bool, armed: bool, neutral: bool)
  {
    if reaches && (armed || m.requireResume) then
      var seen := (!armed && m.seenNeutral) || neutral;
      n.requireResume == !(seen && !neutral) && n.seenNeutral == seen
    else if !reaches && armed then n.requireResume && !n.seenNeutral
    else n.requireResume == m.requireResume && n.seenNeutral == m.seenNeutral
  }

  lemma ManualMoves(m: Memory, now: real, cfg: ClampedConfig)
    requires cfg.noJoyMode
    ensures Moves(m, ManualTick(m, now, cfg).0, ReachesGate(m, Timer(now), cfg), Arms(m, Timer(now), cfg),
                  Neutral(m.manual.linear, m.manual.angular))
  {
    hide Neutral, Limited;
  }

  lemma JoyMoves(m: Memory, now: real, cfg: ClampedConfig)
    requires !cfg.noJoyMode
    ensures var (x, y) := DirectionInput(m.joy, cfg);
      Moves(m, JoyTick(m, now, cfg).0, ReachesGate(m, Timer(now), cfg), Arms(m, Timer(now), cfg), Neutral(x, y))
  {
    hide Neutral, Limited, DirectionInput, Button;
  }

  lemma GateMoves(m: Memory, e: Event, cfg: ClampedConfig)
    ensures var (x, y) := Input(m, cfg);
      Moves(m, Next(m, e, cfg), ReachesGate(m, e, cfg), Arms(m, e, cfg), Neutral(x, y))
  {
    if e.Timer? {
      hide Moves, ReachesGate, Arms, ManualTick, JoyTick, Neutral, DirectionInput;
      if cfg.noJoyMode { ManualMoves(m, e.now, cfg); } else { JoyMoves(m, e.now, cfg); }
    }
  }

  /** Movement only comes out of a tick that reaches the gate and finds or gets it open. */
  lemma MovementPassesGate(m: Memory, now: real, cfg: ClampedConfig)
    requires Tick(m, now, cfg).1 != ZERO
    ensures ReachesGate(m, Timer(now), cfg) && !Tick(m, now, cfg).0.requireResume
    ensures !SafetyStale(m, now, cfg) && m.safety != STOP
    ensures !Arms(m, Timer(now), cfg)
  {
    hide DirectionInput, Limited, Button;
  }

  /** Nothing has armed the gate yet, or neutral and then deliberate input has passed it since. */
  predicate Opened(events: seq<Event>, k: nat, cfg: ClampedConfig)
    requires k <= |events|
  {
    || Undisturbed(events, 0, k, cfg)
    || exists a, b :: 0 <= a < b < k && NeutralAt(events, a, cfg) && DeliberateAt(events, b, cfg)
                      && Undisturbed(events, a + 1, k, cfg)
  }

  /** What an open or half-open gate says about the past. */
  predicate History(events: seq<Event>, k: nat, cfg: ClampedConfig)
    requires k <= |events|
  {
    var m := After(events, k, cfg);
    && (!m.requireResume ==> Opened(events, k, cfg))
    && (m.requireResume && m.seenNeutral ==>
         exists a :: 0 <= a < k && NeutralAt(events, a, cfg) && Undisturbed(events, a + 1, k, cfg))
  }

  lemma {:induction false} RunHistory(events: seq<Event>, k: nat, cfg: ClampedConfig)
    requires k <= |events|
    ensures History(events, k, cfg)
  {
    hide Next, Arms, ReachesGate, Input, Neutral;
    if k > 0 {
      var j := k - 1;
      RunHistory(events, j, cfg);
      var m, e := After(events, j, cfg), events[j];
      GateMoves(m, e, cfg);
      HistoryStep(events, j, cfg);
    }
  }

  lemma HistoryStep(events: seq<Event>, j: nat, cfg: ClampedConfig)
    requires j < |events| && History(events, j, cfg)
    requires var m := After(events, j, cfg);
      Moves(m, After(events, j + 1, cfg), ReachesGate(m, events[j], cfg), ArmsAt(events, j, cfg),
            Neutral(Input(m, cfg).0, Input(m, cfg).1))
    ensures History(events, j + 1, cfg)
  {
    hide After, Arms, ReachesGate, Input, Neutral;
    var m, n := After(events, j, cfg), After(events, j + 1, cfg);
    if m.requireResume && m.seenNeutral && !ArmsAt(events, j, cfg) {
      var a :| 0 <= a < j && NeutralAt(events, a, cfg) && Undisturbed(events, a + 1, j, cfg);
      assert Undisturbed(events, a + 1, j + 1, cfg);
      if !n.requireResume {
        assert DeliberateAt(events, j, cfg);
      }
    } else if !m.requireResume && !ArmsAt(events, j, cfg) && !Undisturbed(events, 0, j, cfg) {
      var a, b :| 0 <= a < b < j && NeutralAt(events, a, cfg) && DeliberateAt(events, b, cfg)
                  && Undisturbed(events, a + 1, j, cfg);
      assert Undisturbed(events, a + 1, j + 1, cfg);
    }
    if n.requireResume && n.seenNeutral && NeutralAt(events, j, cfg) {
      assert Undisturbed(events, j + 1, j + 1, cfg);
    }
  }

  lemma OpenGateHasHistory(events: seq<Event>, k: nat, n: nat, cfg: ClampedConfig)
    requires k < n <= |events| && ArmsAt(events, k, cfg)
    requires History(events, n, cfg) && !After(events, n, cfg).requireResume
    ensures exists a, b :: k <= a < b < n && NeutralAt(events, a, cfg) && DeliberateAt(events, b, cfg)
                           && Undisturbed(events, a + 1, n, cfg)
  {
    hide After, NeutralAt, DeliberateAt, ArmsAt;
    assert !Undisturbed(events, 0, n, cfg);
    var a, b :| 0 <= a < b < n && NeutralAt(events, a, cfg) && DeliberateAt(events, b, cfg)
                && Undisturbed(events, a + 1, n, cfg);
    assert k <= a;
  }

  lemma MovingTick(events: seq<Event>, j: nat, cfg: ClampedConfig)
    requires j < |events| && events[j].Timer? && Command(events, j, cfg) != ZERO
    ensures !After(events, j + 1, cfg).requireResume && !ArmsAt(events, j, cfg)
  {
    hide Tick, Arms, ReachesGate;
    MovementPassesGate(After(events, j, cfg), events[j].now, cfg);
  }

  /** A tick that stops the robot does not reach the gate, so it is not the neutral tick. */
  lemma StopEventIsNotNeutral(events: seq<Event>, k: nat, cfg: ClampedConfig)
    requires k < |events| && StopEvent(After(events, k, cfg), events[k], cfg)
    ensures !NeutralAt(events, k, cfg)
  {
    hide After, StopEvent, Input;
  }

  /** After any event that arms the gate, the next movement needs a tick with neutral input and a
      later tick with deliberate input, and nothing arms the gate after that neutral tick. */
  lemma MovementNeedsNeutral(events: seq<Event>, k: nat, j: nat, cfg: ClampedConfig)
    requires k < j < |events| && ArmsAt(events, k, cfg)
    requires events[j].Timer? && Command(events, j, cfg) != ZERO
    ensures exists a, b :: k <= a < b <= j && NeutralAt(events, a, cfg) && DeliberateAt(events, b, cfg)
                           && Undisturbed(events, a + 1, j + 1, cfg)
    ensures StopEvent(After(events, k, cfg), events[k], cfg) ==> !NeutralAt(events, k, cfg)
  {
    hide After, Command, ArmsAt, NeutralAt, DeliberateAt, Undisturbed, History, StopEvent;
    MovingTick(events, j, cfg);
    RunHistory(events, j + 1, cfg);
    OpenGateHasHistory(events, k, j + 1, cfg);
    if StopEvent(After(events, k, cfg), events[k], cfg) { StopEventIsNotNeutral(events, k, cfg); }
  }

  // ---------------------------------------------------------------- when the robot moves

  lemma OpenStays(events: seq<Event>, k: nat, cfg: ClampedConfig)
    requires k < |events| && !ArmsAt(events, k, cfg) && !After(events, k, cfg).requireResume
    ensures !After(events, k + 1, cfg).requireResume
  {
    hide Next, Arms, ReachesGate, Input, Neutral;
    GateMoves(After(events, k, cfg), events[k], cfg);
  }

  lemma {:induction false} NeutralIsSeen(events: seq<Event>, a: nat, k: nat, cfg: ClampedConfig)
    requires a < k <= |events| && NeutralAt(events, a, cfg) && Undisturbed(events, a + 1, k, cfg)
    ensures var m := After(events, k, cfg); !m.requireResume || m.seenNeutral
  {
    hide Next, Arms, ReachesGate, Input, Neutral;
    GateMoves(After(events, k - 1, cfg), events[k - 1], cfg);
    if a < k - 1 {
      NeutralIsSeen(events, a, k - 1, cfg);
      assert !ArmsAt(events, k - 1, cfg);
    }
  }

  lemma {:induction false} DeliberateOpens(events: seq<Event>, a: nat, b: nat, k: nat, cfg: ClampedConfig)
    requires a < b < k <= |events| && NeutralAt(events, a, cfg) && DeliberateAt(events, b, cfg)
    requires Undisturbed(events, a + 1, k, cfg)
    ensures !After(events, k, cfg).requireResume
  {
    hide Next, Arms, ReachesGate, Input, Neutral;
    if b < k - 1 {
      DeliberateOpens(events, a, b, k - 1, cfg);
      OpenStays(events, k - 1, cfg);
    } else {
      NeutralIsSeen(events, a, b, cfg);
      assert !ArmsAt(events, b, cfg);
      GateMoves(After(events, b, cfg), events[b], cfg);
    }
  }

  lemma {:induction false} NeverArmed(events: seq<Event>, k: nat, cfg: ClampedConfig)
    requires k <= |events| && Undisturbed(events, 0, k, cfg)
    ensures !After(events, k, cfg).requireResume
  {
    hide Next, Arms;
    if k > 0 {
      NeverArmed(events, k - 1, cfg);
      OpenStays(events, k - 1, cfg);
    }
  }

  /** The gate is open exactly when nothing has armed it yet or neutral and then deliberate input has
      come since it was last armed. */
  lemma GateOpenIff(events: seq<Event>, k: nat, cfg: ClampedConfig)
    requires k <= |events|
    ensures !After(events, k, cfg).requireResume <==> Opened(events, k, cfg)
  {
    hide After, NeutralAt, DeliberateAt, Undisturbed;
    RunHistory(events, k, cfg);
    if Undisturbed(events, 0, k, cfg) {
      NeverArmed(events, k, cfg);
    } else if Opened(events, k, cfg) {
      var a, b :| 0 <= a < b < k && NeutralAt(events, a, cfg) && DeliberateAt(events, b, cfg)
                  && Undisturbed(events, a + 1, k, cfg);
      DeliberateOpens(events, a, b, k, cfg);
    }
  }

  /** A stale or stopped safety state, an inactive driver or stale input give the zero command. */
  lemma NoMovementWithoutPermission(m: Memory, now: real, cfg: ClampedConfig)
    requires || m.safety == STOP || SafetyStale(m, now, cfg) || InputTimedOut(m, now, cfg)
             || (!cfg.noJoyMode && !DriverActive(m, now, cfg))
    ensures Tick(m, now, cfg).1 == ZERO
  {
    hide DirectionInput, Gate, Limited, Button;
  }

  /** The driver's input as a command: as it is, or scaled to the robot's maximum in joy mode. */
  function FullCommand(m: Memory, cfg: ClampedConfig): Twist
  {
    var (x, y) := Input(m, cfg);
    if cfg.noJoyMode then Twist(x, y) else Twist(x * MAX_LINEAR, y * MAX_ANGULAR)
  }

  /** `r` is `v`, or what comes nearest to it within a limit. */
  ghost predicate Nearest(limit: real, v: real, r: real)
  {
    Abs(r) <= limit && forall w :: Abs(w) <= limit ==> Abs(v - r) <= Abs(v - w)
  }

  lemma CapIsNearest(limit: real, v: real)
    requires limit >= 0.0
    ensures Nearest(limit, v, Cap(limit, v))
  {
  }

  /** What the driver gets under the safety state. */
  ghost predicate Passes(m: Memory, t: Twist, cfg: ClampedConfig)
  {
    var full := FullCommand(m, cfg);
    if m.safety != SLOW then t == full
    else
      && t == Twist(Cap(cfg.slowLinear, full.linear), Cap(cfg.slowAngular, full.angular))
      && (cfg.slowLinear >= 0.0 ==> Nearest(cfg.slowLinear, full.linear, t.linear))
      && (cfg.slowAngular >= 0.0 ==> Nearest(cfg.slowAngular, full.angular, t.angular))
  }

  lemma OpenGatePassesInput(m: Memory, now: real, cfg: ClampedConfig)
    requires ReachesGate(m, Timer(now), cfg) && !Tick(m, now, cfg).0.requireResume
    ensures Tick(m, now, cfg).1 == Limited(m.safety, FullCommand(m, cfg).linear, FullCommand(m, cfg).angular, cfg)
  {
    hide DirectionInput, Neutral, Button, Cap;
  }

  lemma LimitedPasses(m: Memory, cfg: ClampedConfig)
    ensures Passes(m, Limited(m.safety, FullCommand(m, cfg).linear, FullCommand(m, cfg).angular, cfg), cfg)
  {
    hide Cap, Nearest, FullCommand;
    var full := FullCommand(m, cfg);
    if cfg.slowLinear >= 0.0 { CapIsNearest(cfg.slowLinear, full.linear); }
    if cfg.slowAngular >= 0.0 { CapIsNearest(cfg.slowAngular, full.angular); }
  }

  /** Every command of every run, in full: if the tick reaches the gate and by now nothing has armed it,
      or neutral and then deliberate input has come since, the driver gets the input, in full under
      CLEAR and as near as the caps allow under SLOW; otherwise the robot is told to stand. */
  lemma CommandIs(events: seq<Event>, k: nat, cfg: ClampedConfig)
    requires k < |events| && events[k].Timer?
    ensures var m, t := After(events, k, cfg), Command(events, k, cfg);
      if ReachesGate(m, events[k], cfg) && Opened(events, k + 1, cfg) then Passes(m, t, cfg) else t == ZERO
  {
    hide Opened, ReachesGate, Tick, Passes, StopEvent, DriverActive, Limited, FullCommand;
    var m, now := After(events, k, cfg), events[k].now;
    GateOpenIff(events, k + 1, cfg);
    if Command(events, k, cfg) != ZERO {
      MovementPassesGate(m, now, cfg);
    }
    if !ReachesGate(m, Timer(now), cfg) {
      BlockedTick(m, now, cfg);
    } else if !Tick(m, now, cfg).0.requireResume {
      OpenGatePassesInput(m, now, cfg);
      LimitedPasses(m, cfg);
    }
  }

  lemma BlockedTick(m: Memory, now: real, cfg: ClampedConfig)
    requires !ReachesGate(m, Timer(now), cfg)
    ensures Tick(m, now, cfg).1 == ZERO
  {
    hide Tick, Button;
    NoMovementWithoutPermission(m, now, cfg);
  }

  // ---------------------------------------------------------------- the stick and the buttons

  lemma QuotientMono(a: real, b: real, d: real)
    requires a <= b && d > 0.0
    ensures a / d <= b / d
  {
  }

  /** The stick response is odd and never falls as the stick moves out. */
  lemma DeadzoneMonotone(a: real, b: real, cfg: ClampedConfig)
    requires a <= b
    ensures ApplyDeadzone(a, cfg) <= ApplyDeadzone(b, cfg)
    ensures ApplyDeadzone(-a, cfg) == -ApplyDeadzone(a, cfg)
  {
    var d := 1.0 - cfg.deadzone;
    if Abs(a) <= Abs(b) {
      QuotientMono(Abs(a) - cfg.deadzone, Abs(b) - cfg.deadzone, d);
    } else {
      QuotientMono(Abs(b) - cfg.deadzone, Abs(a) - cfg.deadzone, d);
    }
  }

  lemma FullDeflection(a: real, cfg: ClampedConfig)
    requires a >= 1.0
    ensures ApplyDeadzone(a, cfg) == 1.0
  {
    var d := 1.0 - cfg.deadzone;
    QuotientMono(d, a - cfg.deadzone, d);
  }

  /** Which of the four face buttons are pressed: Y and A along, X and B around. */
  predicate Faces(joy: Option<Joy>, y: bool, a: bool, x: bool, b: bool)
  {
    Button(joy, Y_BTN) == y && Button(joy, A_BTN) == a && Button(joy, X_BTN) == x && Button(joy, B_BTN) == b
  }

  /** The stick is all the way forward and not turned. */
  predicate FullAhead(joy: Option<Joy>, cfg: ClampedConfig)
  {
    && Faces(joy, false, false, false, false)
    && Ahead(joy, cfg) >= 1.0 && Abs(Axis(joy, ANGULAR_AXIS)) <= cfg.deadzone
  }

  /** A single pressed face button is a full command in its direction, whatever the stick says; without
      one, the stick all the way forward is a full command ahead. */
  lemma CardinalInput(joy: Option<Joy>, cfg: ClampedConfig)
    ensures var r := DirectionInput(joy, cfg);
      && (Faces(joy, true, false, false, false) || FullAhead(joy, cfg) ==> r == (1.0, 0.0))
      && (Faces(joy, false, true, false, false) ==> r == (-1.0, 0.0))
      && (Faces(joy, false, false, true, false) ==> r == (0.0, 1.0))
      && (Faces(joy, false, false, false, true) ==> r == (0.0, -1.0))
  {
    hide Button, Snap, ApplyDeadzone, Axis;
    if FullAhead(joy, cfg) { AheadInput(joy, cfg); }
  }

  lemma AheadInput(joy: Option<Joy>, cfg: ClampedConfig)
    requires FullAhead(joy, cfg)
    ensures DirectionInput(joy, cfg) == (1.0, 0.0)
  {
    FullDeflection(Ahead(joy, cfg), cfg);
    assert ApplyDeadzone(Axis(joy, ANGULAR_AXIS), cfg) == 0.0;
    hide ApplyDeadzone, Axis, Ahead, Button;
  }

  /** In any run of the joy mode: at a tick that finds the gate open under CLEAR, one face button, or
      the stick all the way forward, is the robot's maximum speed in its direction. */
  lemma FullSpeed(events: seq<Event>, k: nat, cfg: ClampedConfig)
    requires k < |events| && events[k].Timer? && !cfg.noJoyMode
    requires var m := After(events, k, cfg);
      ReachesGate(m, events[k], cfg) && Opened(events, k + 1, cfg) && m.safety != SLOW
    ensures var joy, t := After(events, k, cfg).joy, Command(events, k, cfg);
      && (Faces(joy, true, false, false, false) || FullAhead(joy, cfg) ==> t == Twist(MAX_LINEAR, 0.0))
      && (Faces(joy, false, true, false, false) ==> t == Twist(-MAX_LINEAR, 0.0))
      && (Faces(joy, false, false, true, false) ==> t == Twist(0.0, MAX_ANGULAR))
      && (Faces(joy, false, false, false, true) ==> t == Twist(0.0, -MAX_ANGULAR))
  {
    hide After, Command, ReachesGate, Opened, Faces, FullAhead, DirectionInput;
    CommandIs(events, k, cfg);
    CardinalInput(After(events, k, cfg).joy, cfg);
  }

  // ---------------------------------------------------------------- the e-stop

  /** The joy message that tick `k` looks at. */
  function LatestJoy(events: seq<Event>, k: nat): Option<Joy>
    requires k <= |events|
  {
    if k == 0 then None
    else if events[k - 1].JoyMessage? then Some(events[k - 1].joy)
    else LatestJoy(events, k - 1)
  }

  /** The e-stop button as the last tick before `k` saw it. */
  predicate WasPressed(events: seq<Event>, k: nat)
    requires k <= |events|
  {
    k > 0 && if events[k - 1].Timer? then Button(LatestJoy(events, k - 1), ESTOP_BTN) else WasPressed(events, k - 1)
  }

  /** How often a tick has found the button pressed that the tick before had found released. */
  function Presses(events: seq<Event>, k: nat): nat
    requires k <= |events|
  {
    if k == 0 then 0
    else
      var j := k - 1;
      Presses(events, j)
      + if events[j].Timer? && Button(LatestJoy(events, j), ESTOP_BTN) && !WasPressed(events, j) then 1 else 0
  }

  lemma TickKeepsEstop(m: Memory, now: real, cfg: ClampedConfig)
    requires !cfg.noJoyMode
    ensures var n, e := Tick(m, now, cfg).0, EstopEdge(m);
      n.estop == e.estop && n.prevEstopBtn == e.prevEstopBtn && n.joy == m.joy
    ensures EstopEdge(m).estop ==> Tick(m, now, cfg).1 == ZERO
  {
    hide DirectionInput, Neutral, Limited, Button;
  }

  /** What the arbiter remembers of the buttons is what the events say. */
  predicate ButtonsRemembered(events: seq<Event>, k: nat, cfg: ClampedConfig)
    requires k <= |events|
  {
    var m := After(events, k, cfg);
    && m.joy == LatestJoy(events, k) && m.prevEstopBtn == WasPressed(events, k)
    && (m.estop <==> Presses(events, k) % 2 == 1)
  }

  lemma ButtonsStep(events: seq<Event>, j: nat, cfg: ClampedConfig)
    requires j < |events| && !cfg.noJoyMode && ButtonsRemembered(events, j, cfg)
    ensures ButtonsRemembered(events, j + 1, cfg)
  {
    hide Tick, Button;
    if events[j].Timer? { TickKeepsEstop(After(events, j, cfg), events[j].now, cfg); }
    if LatestJoy(events, j).None? { NoJoyNoPress(events, j); }
  }

  lemma {:induction false} NoJoyNoPress(events: seq<Event>, k: nat)
    requires k <= |events| && LatestJoy(events, k).None?
    ensures !WasPressed(events, k) && !Button(LatestJoy(events, k), ESTOP_BTN)
  {
    if k > 0 { NoJoyNoPress(events, k - 1); }
  }

  /** In every run of the joy mode the e-stop is on exactly after an odd number of presses of its
      button, however long each is held, and while it is on the robot is told to stand. */
  lemma {:induction false} EstopIsParity(events: seq<Event>, k: nat, cfg: ClampedConfig)
    requires k <= |events| && !cfg.noJoyMode
    ensures ButtonsRemembered(events, k, cfg)
    ensures k < |events| && events[k].Timer? && Presses(events, k + 1) % 2 == 1 ==> Command(events, k, cfg) == ZERO
  {
    hide ButtonsRemembered, After, Tick;
    if k > 0 {
      EstopIsParity(events, k - 1, cfg);
      ButtonsStep(events, k - 1, cfg);
    } else {
      NothingRemembered(events, cfg);
    }
    if k < |events| && events[k].Timer? {
      ButtonsStep(events, k, cfg);
      EstopStands(events, k, cfg);
    }
  }

  lemma NothingRemembered(events: seq<Event>, cfg: ClampedConfig)
    ensures ButtonsRemembered(events, 0, cfg)
  {
  }

  lemma EstopStands(events: seq<Event>, k: nat, cfg: ClampedConfig)
    requires k < |events| && events[k].Timer? && !cfg.noJoyMode && ButtonsRemembered(events, k + 1, cfg)
    ensures Presses(events, k + 1) % 2 == 1 ==> Command(events, k, cfg) == ZERO
  {
    hide Tick, Presses, LatestJoy, WasPressed, EstopEdge;
    TickKeepsEstop(After(events, k, cfg), events[k].now, cfg);
    assert After(events, k + 1, cfg) == Tick(After(events, k, cfg), events[k].now, cfg).0;
  }

  // ---------------------------------------------------------------- speed limits

  /** A negative limit replaces every value by the limit's magnitude. */
  lemma CapBounds(limit: real, v: real)
    ensures Abs(Cap(limit, v)) <= Abs(limit)
    ensures limit >= 0.0 ==> Abs(Cap(limit, v)) <= Abs(v)
    ensures limit < 0.0 ==> Cap(limit, v) == -limit
  {
  }

  /** Under SLOW every command is within the caps. In joy mode every command is within the robot's
      physical limits, unless a cap is negative and larger than they are. */
  lemma SpeedLimits(m: Memory, now: real, cfg: ClampedConfig)
    ensures var t := Tick(m, now, cfg).1;
      && (m.safety == SLOW ==> Abs(t.linear) <= Abs(cfg.slowLinear) && Abs(t.angular) <= Abs(cfg.slowAngular))
      && (!cfg.noJoyMode ==> Abs(t.linear) <= Max(MAX_LINEAR, -cfg.slowLinear))
      && (!cfg.noJoyMode ==> Abs(t.angular) <= Max(MAX_ANGULAR, -cfg.slowAngular))
  {
    if cfg.noJoyMode {
      if m.safety == SLOW { ManualLimits(m, now, cfg); }
    } else {
      JoyLimits(m, now, cfg);
    }
  }

  lemma ManualLimits(m: Memory, now: real, cfg: ClampedConfig)
    requires m.safety == SLOW
    ensures var t := ManualTick(m, now, cfg).1;
      Abs(t.linear) <= Abs(cfg.slowLinear) && Abs(t.angular) <= Abs(cfg.slowAngular)
  {
    hide Gate, Cap;
    CapBounds(cfg.slowLinear, m.manual.linear);
    CapBounds(cfg.slowAngular, m.manual.angular);
  }

  /** The bounds of any command in joy mode. */
  predicate Bounded(safety: int, t: Twist, cfg: ClampedConfig)
  {
    && (safety == SLOW ==> Abs(t.linear) <= Abs(cfg.slowLinear) && Abs(t.angular) <= Abs(cfg.slowAngular))
    && Abs(t.linear) <= Max(MAX_LINEAR, -cfg.slowLinear) && Abs(t.angular) <= Max(MAX_ANGULAR, -cfg.slowAngular)
  }

  lemma LimitedBounded(safety: int, x: real, y: real, cfg: ClampedConfig)
    requires -1.0 <= x <= 1.0 && -1.0 <= y <= 1.0
    ensures Bounded(safety, Limited(safety, x * MAX_LINEAR, y * MAX_ANGULAR, cfg), cfg) && Bounded(safety, ZERO, cfg)
  {
    hide Cap;
    CapBounds(cfg.slowLinear, x * MAX_LINEAR);
    CapBounds(cfg.slowAngular, y * MAX_ANGULAR);
  }

  lemma JoyLimits(m: Memory, now: real, cfg: ClampedConfig)
    ensures Bounded(m.safety, JoyTick(m, now, cfg).1, cfg)
  {
    hide Neutral, DirectionInput, Button, Limited, Bounded;
    LimitedBounded(m.safety, DirectionInput(m.joy, cfg).0, DirectionInput(m.joy, cfg).1, cfg);
  }

  predicate WithinRobotLimits(t: Twist) { Abs(t.linear) <= MAX_LINEAR && Abs(t.angular) <= MAX_ANGULAR }

  /** No run of the arbiter leaves the robot's limits. */
  ghost predicate NeverTooFast(cfg: ClampedConfig)
  {
    forall events: seq<Event>, k: nat :: k < |events| && events[k].Timer? ==> WithinRobotLimits(Command(events, k, cfg))
  }

  /** In joy mode that holds exactly for caps that are not more negative than the limits themselves. */
  lemma NeverTooFastIff(cfg: ClampedConfig)
    requires !cfg.noJoyMode
    ensures NeverTooFast(cfg) <==> cfg.slowLinear >= -MAX_LINEAR && cfg.slowAngular >= -MAX_ANGULAR
  {
    hide Tick, After;
    if cfg.slowLinear >= -MAX_LINEAR && cfg.slowAngular >= -MAX_ANGULAR {
      forall events: seq<Event>, k: nat | k < |events| && events[k].Timer?
        ensures WithinRobotLimits(Command(events, k, cfg))
      {
        SpeedLimits(After(events, k, cfg), events[k].now, cfg);
      }
    } else {
      var events := TooFast(cfg);
      assert !WithinRobotLimits(Command(events, 4, cfg));
    }
  }

  /** SLOW, neutral and then deliberate input: a negative cap makes its own magnitude the command. */
  lemma TooFast(cfg: ClampedConfig) returns (events: seq<Event>)
    requires !cfg.noJoyMode && (cfg.slowLinear < -MAX_LINEAR || cfg.slowAngular < -MAX_ANGULAR)
    ensures |events| == 5 && events[4].Timer? && !WithinRobotLimits(Command(events, 4, cfg))
  {
    var now := Min(0.0, Min(cfg.joyTimeout, cfg.safetyTimeout));
    var still, ahead := Joy([], [0, 0, 0, 0, 1]), Joy([], [0, 0, 0, 1, 1]);
    events := [SafetyMessage(SLOW, 0.0), JoyMessage(still, 0.0), Timer(now), JoyMessage(ahead, 0.0), Timer(now)];
    var m2 := INITIAL.(safety := SLOW, safetyStamp := 0.0, joy := Some(still), joyStamp := 0.0);
    assert After(events, 2, cfg) == m2 by {
      assert After(events, 1, cfg) == INITIAL.(safety := SLOW, safetyStamp := 0.0);
    }
    var m3 := m2.(prevSafety := SLOW, requireResume := true, seenNeutral := true);
    StillTick(m2, now, cfg);
    assert After(events, 3, cfg) == m3;
    var m4 := m3.(joy := Some(ahead));
    assert After(events, 4, cfg) == m4;
    AheadTick(m4, now, cfg);
    CapBounds(cfg.slowLinear, MAX_LINEAR);
    CapBounds(cfg.slowAngular, 0.0);
  }

  lemma StillTick(m: Memory, now: real, cfg: ClampedConfig)
    requires !cfg.noJoyMode && now <= cfg.joyTimeout && now <= cfg.safetyTimeout
    requires m == INITIAL.(safety := SLOW, joy := Some(Joy([], [0, 0, 0, 0, 1])))
    ensures Tick(m, now, cfg).0 == m.(prevSafety := SLOW, requireResume := true, seenNeutral := true)
  {
    assert DirectionInput(m.joy, cfg) == (0.0, 0.0);
    hide DirectionInput, Limited;
  }

  lemma AheadTick(m: Memory, now: real, cfg: ClampedConfig)
    requires !cfg.noJoyMode && now <= cfg.joyTimeout && now <= cfg.safetyTimeout
    requires m == INITIAL.(safety := SLOW, prevSafety := SLOW, requireResume := true, seenNeutral := true,
                           joy := Some(Joy([], [0, 0, 0, 1, 1])))
    ensures Tick(m, now, cfg).1 == Twist(Cap(cfg.slowLinear, MAX_LINEAR), Cap(cfg.slowAngular, 0.0))
  {
    assert DirectionInput(m.joy, cfg) == (1.0, 0.0);
    hide DirectionInput, Cap;
  }
}
