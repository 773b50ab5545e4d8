/** The command arbiter of cmd_vel_arbiter.py: manual input gated by the safety state. Times,
    axes and velocities are reals. */
module Arbiter {
  import opened Wrappers

  const CLEAR := 0
  const SLOW := 1
  const STOP := 2

  const LINEAR_AXIS := 1
  const ANGULAR_AXIS := 0
  const DEADMAN_BTN := 4
  const A_BTN := 0
  const B_BTN := 1
  const X_BTN := 2
  const Y_BTN := 3
  const ESTOP_BTN := 6

  const MAX_LINEAR := 0.22
  const MAX_ANGULAR := 2.84
  const NEUTRAL_THRESH := 0.05

  datatype Twist = Twist(linear: real, angular: real)

  const ZERO := Twist(0.0, 0.0)

  datatype Joy = Joy(axes: seq<real>, buttons: seq<int>)

  function Min(a: real, b: real): real { if b < a then b else a }

  function Max(a: real, b: real): real { if b > a then b else a }

  function Abs(x: real): real { if x < 0.0 then -x else x }

  /** Parameters as declared, with the two that the constructor clamps. */
  datatype Config = Config(safetyTimeout: real, joyTimeout: real, slowLinear: real, slowAngular: real,
                           axisSign: real, deadzone: real, snapRatio: real, noJoyMode: bool)
  {
    predicate Clamped() { 0.0 <= deadzone <= 0.95 && 0.0 <= snapRatio <= 1.0 }
  }

  function Declared(c: Config): (r: Config)
    ensures r.Clamped() && r == c.(deadzone := r.deadzone, snapRatio := r.snapRatio)
    ensures r.deadzone == if c.deadzone < 0.0 then 0.0 else if c.deadzone > 0.95 then 0.95 else c.deadzone
    ensures r.snapRatio == if c.snapRatio < 0.0 then 0.0 else if c.snapRatio > 1.0 then 1.0 else c.snapRatio
  {
    c.(deadzone := Max(0.0, Min(0.95, c.deadzone)), snapRatio := Max(0.0, Min(1.0, c.snapRatio)))
  }

  type ClampedConfig = c: Config | c.Clamped() witness Config(2.0, 1.0, 0.05, 0.30, -1.0, 0.12, 0.45, false)

  datatype Memory = Memory(safety: int, safetyStamp: real, joy: Option<Joy>, joyStamp: real, requireResume: bool,
                           seenNeutral: bool, prevSafety: int, estop: bool, prevEstopBtn: bool,
                           manual: Twist, manualStamp: real)

  const INITIAL := Memory(STOP, 0.0, None, 0.0, false, false, STOP, false, false, ZERO, 0.0)

  // ---------------------------------------------------------------- reading the controls

  function Button(joy: Option<Joy>, i: nat): bool
  {
    joy.Some? && i < |joy.value.buttons| && joy.value.buttons[i] != 0
  }

  function Axis(joy: Option<Joy>, i: nat): real
  {
    if joy.None? || i >= |joy.value.axes| then 0.0 else joy.value.axes[i]
  }

  /** The stick's position along, counted forward. */
  function Ahead(joy: Option<Joy>, cfg: Config): real { cfg.axisSign * Axis(joy, LINEAR_AXIS) }

  function AsReal(b: bool): real { if b then 1.0 else 0.0 }

  lemma RatioPositive(a: real, d: real)
    requires a > 0.0 && d > 0.0
    ensures a / d > 0.0
  {
  }

  /** Nothing inside the dead zone, then a straight line up to full deflection. */
  function ApplyDeadzone(value: real, cfg: ClampedConfig): (r: real)
    ensures -1.0 <= r <= 1.0
    ensures r == 0.0 <==> Abs(value) <= cfg.deadzone
    ensures (r > 0.0 ==> value > 0.0) && (r < 0.0 ==> value < 0.0)
  {
    var magnitude := Abs(value);
    if magnitude <= cfg.deadzone then 0.0
    else
      var scaled := (magnitude - cfg.deadzone) / (1.0 - cfg.deadzone);
      RatioPositive(magnitude - cfg.deadzone, 1.0 - cfg.deadzone);
      if value > 0.0 then Min(1.0, scaled) else -Min(1.0, scaled)
  }

  /** The weaker of two perpendicular axes is dropped when the other clearly dominates. */
  function Snap(linear: real, angular: real, ratio: real): (r: (real, real))
    ensures (r.0 == linear || r.0 == 0.0) && (r.1 == angular || r.1 == 0.0)
    ensures r == (0.0, 0.0) <==> linear == 0.0 && angular == 0.0
  {
    if Abs(linear) > Abs(angular) then
      (linear, if Abs(angular) <= Abs(linear) * ratio then 0.0 else angular)
    else if Abs(angular) > Abs(linear) then
      (if Abs(linear) <= Abs(angular) * ratio then 0.0 else linear, angular)
    else (linear, angular)
  }

  /** Face buttons override the stick; either way the input stays within the unit square. */
  function DirectionInput(joy: Option<Joy>, cfg: ClampedConfig): (r: (real, real))
    ensures -1.0 <= r.0 <= 1.0 && -1.0 <= r.1 <= 1.0
  {
    var linear := AsReal(Button(joy, Y_BTN)) - AsReal(Button(joy, A_BTN));
    var angular := AsReal(Button(joy, X_BTN)) - AsReal(Button(joy, B_BTN));
    if linear != 0.0 || angular != 0.0 then (linear, angular)
    else Snap(ApplyDeadzone(Ahead(joy, cfg), cfg), ApplyDeadzone(Axis(joy, ANGULAR_AXIS), cfg), cfg.snapRatio)
  }

  /** What the stick gives along one axis: nothing inside the dead zone, full from one on, and in between
      the fraction of the way from the dead zone's edge, with the sign of the stick. */
  predicate Responds(r: real, stick: real, deadzone: real)
  {
    var m := if stick < 0.0 then -stick else stick;
    if m <= deadzone then r == 0.0
    else if m >= 1.0 then r == (if stick > 0.0 then 1.0 else -1.0)
    else (if stick > 0.0 then r else -r) * (1.0 - deadzone) == m - deadzone
  }

  lemma DeadzoneResponds(stick: real, cfg: ClampedConfig)
    ensures Responds(ApplyDeadzone(stick, cfg), stick, cfg.deadzone)
  {
    var m, d := Abs(stick), 1.0 - cfg.deadzone;
    if m > cfg.deadzone {
      var scaled := (m - cfg.deadzone) / d;
      ScaledBack(m - cfg.deadzone, d);
    }
  }

  lemma ScaledBack(a: real, d: real)
    requires d > 0.0
    ensures (a / d) * d == a && (a / d >= 1.0 <==> a >= d)
  {
    assert (a / d) * d == a;
    if a / d >= 1.0 { assert (a / d - 1.0) * d >= 0.0; } else { assert (1.0 - a / d) * d > 0.0; }
  }

  function Magnitude(x: real): real { if x < 0.0 then -x else x }

  /** An axis is dropped when it is weaker than the other and within the ratio of it. */
  predicate Dropped(weak: real, strong: real, ratio: real)
  {
    Magnitude(weak) < Magnitude(strong) && Magnitude(weak) <= Magnitude(strong) * ratio
  }

  /** The direction a driver asks for: with a face button down, Y minus A along and X minus B around;
      otherwise the two stick axes behind their dead zones, the one along counted with the configured
      sign, each dropped when the other dominates it. */
  ghost predicate Directs(joy: Option<Joy>, cfg: ClampedConfig, along: real, around: real)
  {
    var y, a, x, b := Pressed(joy, 3), Pressed(joy, 0), Pressed(joy, 2), Pressed(joy, 1);
    if y != a || x != b then
      along == (if y == a then 0.0 else if y then 1.0 else -1.0) &&
      around == (if x == b then 0.0 else if x then 1.0 else -1.0)
    else exists p, q :: SteersBy(joy, cfg, p, q, along, around)
  }

  /** `p` and `q` are the two axes behind their dead zones. */
  predicate SteersBy(joy: Option<Joy>, cfg: ClampedConfig, p: real, q: real, along: real, around: real)
  {
    && Responds(p, Forward(joy, cfg), cfg.deadzone) && Responds(q, Stick(joy, 0), cfg.deadzone)
    && along == (if Dropped(p, q, cfg.snapRatio) then 0.0 else p)
    && around == (if Dropped(q, p, cfg.snapRatio) then 0.0 else q)
  }

  function Forward(joy: Option<Joy>, cfg: ClampedConfig): real { cfg.axisSign * Stick(joy, 1) }

  predicate Pressed(joy: Option<Joy>, i: nat)
  {
    match joy
    case None => false
    case Some(j) => i < |j.buttons| && j.buttons[i] != 0
  }

  function Stick(joy: Option<Joy>, i: nat): real
  {
    match joy
    case None => 0.0
    case Some(j) => if i < |j.axes| then j.axes[i] else 0.0
  }

  lemma SnapDrops(p: real, q: real, ratio: real)
    ensures Snap(p, q, ratio) ==
      (if Dropped(p, q, ratio) then 0.0 else p, if Dropped(q, p, ratio) then 0.0 else q)
  {
  }

  lemma InputDirects(joy: Option<Joy>, cfg: ClampedConfig)
    ensures Directs(joy, cfg, DirectionInput(joy, cfg).0, DirectionInput(joy, cfg).1)
  {
    var p, q := ApplyDeadzone(Ahead(joy, cfg), cfg), ApplyDeadzone(Axis(joy, ANGULAR_AXIS), cfg);
    DeadzoneResponds(Ahead(joy, cfg), cfg);
    DeadzoneResponds(Axis(joy, ANGULAR_AXIS), cfg);
    SnapDrops(p, q, cfg.snapRatio);
    SameStick(joy, cfg);
    hide ApplyDeadzone, Snap, Dropped, Responds, Ahead, Forward, Axis, Stick;
    var r := DirectionInput(joy, cfg);
    SameButtons(joy);
    if Pressed(joy, 3) == Pressed(joy, 0) && Pressed(joy, 2) == Pressed(joy, 1) {
      assert r == Snap(p, q, cfg.snapRatio);
      hide Pressed, Button;
      assert SteersBy(joy, cfg, p, q, r.0, r.1);
    }
  }

  lemma SameButtons(joy: Option<Joy>)
    ensures Button(joy, Y_BTN) == Pressed(joy, 3) && Button(joy, A_BTN) == Pressed(joy, 0)
    ensures Button(joy, X_BTN) == Pressed(joy, 2) && Button(joy, B_BTN) == Pressed(joy, 1)
  {
  }

  lemma SameStick(joy: Option<Joy>, cfg: ClampedConfig)
    ensures Ahead(joy, cfg) == Forward(joy, cfg) && Axis(joy, ANGULAR_AXIS) == Stick(joy, 0)
  {
    assert Axis(joy, LINEAR_AXIS) == Stick(joy, 1);
  }

  predicate Neutral(linear: real, angular: real)
  {
    Abs(linear) < NEUTRAL_THRESH && Abs(angular) < NEUTRAL_THRESH
  }

  function Cap(limit: real, v: real): real { Max(-limit, Min(limit, v)) }

  function Limited(safety: int, linear: real, angular: real, cfg: Config): Twist
  {
    if safety == SLOW then Twist(Cap(cfg.slowLinear, linear), Cap(cfg.slowAngular, angular)) else Twist(linear, angular)
  }

  // ---------------------------------------------------------------- callbacks

  function Armed(m: Memory): Memory { m.(requireResume := true, seenNeutral := false) }

  /** An undefined safety value counts as STOP. */
  function Effective(data: int): int { if data == CLEAR || data == SLOW || data == STOP then data else STOP }

  function OnSafety(m: Memory, data: int, now: real): Memory
  {
    var n := m.(safety := Effective(data), safetyStamp := now);
    if n.safety == STOP then Armed(n) else n
  }

  /** The gate: closed until a neutral input has been seen and then a deliberate one. */
  function Gate(m: Memory, linear: real, angular: real): (Memory, bool)
  {
    if !m.requireResume then (m, true)
    else
      var seen := m.seenNeutral || Neutral(linear, angular);
      var opens := seen && !Neutral(linear, angular);
      (m.(seenNeutral := seen, requireResume := !opens), opens)
  }

  function SafetyStale(m: Memory, now: real, cfg: Config): bool { now - m.safetyStamp > cfg.safetyTimeout }

  function ManualTick(m: Memory, now: real, cfg: Config): (Memory, Twist)
  {
    if SafetyStale(m, now, cfg) || m.safety == STOP || now - m.manualStamp > cfg.joyTimeout then (Armed(m), ZERO)
    else
      var (n, open) := Gate(m, m.manual.linear, m.manual.angular);
      (n, if open then Limited(m.safety, m.manual.linear, m.manual.angular, cfg) else ZERO)
  }

  /** The e-stop button toggles on its rising edge. */
  function EstopEdge(m: Memory): Memory
  {
    if m.joy.None? then m
    else
      var pressed := Button(m.joy, ESTOP_BTN);
      m.(estop := if pressed && !m.prevEstopBtn then !m.estop else m.estop, prevEstopBtn := pressed)
  }

  /** Leaving STOP arms the gate. */
  function TrackSafety(m: Memory): Memory
  {
    (if m.prevSafety == STOP && m.safety != STOP then Armed(m) else m).(prevSafety := m.safety)
  }

  function JoyDrive(m: Memory, cfg: ClampedConfig): (Memory, Twist)
  {
    var n := TrackSafety(m);
    if n.safety == STOP then (Armed(n), ZERO)
    else
      var (linear, angular) := DirectionInput(n.joy, cfg);
      var (g, open) := Gate(n, linear, angular);
      (g, if open then Limited(n.safety, linear * MAX_LINEAR, angular * MAX_ANGULAR, cfg) else ZERO)
  }

  function JoyTick(m: Memory, now: real, cfg: ClampedConfig): (Memory, Twist)
  {
    var n := EstopEdge(m);
    if n.estop then (n, ZERO)
    else if now - n.joyStamp > cfg.joyTimeout then (Armed(n), ZERO)
    else if !Button(n.joy, DEADMAN_BTN) then (n, ZERO)
    else if SafetyStale(n, now, cfg) then (Armed(n), ZERO)
    else JoyDrive(n, cfg)
  }

  /** One timer callback: the new memory and the twist it publishes. */
  function Tick(m: Memory, now: real, cfg: ClampedConfig): (Memory, Twist)
  {
    if cfg.noJoyMode then ManualTick(m, now, cfg) else JoyTick(m, now, cfg)
  }

  class CmdVelArbiter {
    const config: ClampedConfig
    var safety: int
    var safetyStamp: real
    var joy: Option<Joy>
    var joyStamp: real
    var requireResume: bool
    var seenNeutral: bool
    var prevSafety: int
    var estop: bool
    var prevEstopBtn: bool
    var manualTwist: Twist
    var manualStamp: real
    var published: seq<Twist>

    function Value(): Memory
      reads this
    {
      Memory(safety, safetyStamp, joy, joyStamp, requireResume, seenNeutral, prevSafety, estop, prevEstopBtn,
             manualTwist, manualStamp)
    }

    constructor (declared: Config)
      ensures Value() == INITIAL && config == Declared(declared) && published == []
    {
      config := Declared(declared);
      safety, safetyStamp, joy, joyStamp := STOP, 0.0, None, 0.0;
      requireResume, seenNeutral, prevSafety := false, false, STOP;
      estop, prevEstopBtn, manualTwist, manualStamp, published := false, false, ZERO, 0.0, [];
    }

    method ArmResume()
      modifies this`requireResume, this`seenNeutral
      ensures requireResume && !seenNeutral
    {
      requireResume, seenNeutral := true, false;
    }

    method Publish(t: Twist)
      modifies this`published
      ensures published == old(published) + [t]
    {
      published := published + [t];
    }

    method SafetyCallback(data: int, now: real)
      modifies this
      ensures Value() == OnSafety(old(Value()), data, now)
      ensures published == old(published) + if Effective(data) == STOP then [ZERO] else []
    {
      safety := if data == CLEAR || data == SLOW || data == STOP then data else STOP;
      safetyStamp := now;
      if safety == STOP {
        ArmResume();
        Publish(ZERO);
      }
    }

    method JoyCallback(msg: Joy, now: real)
      modifies this
      ensures Value() == old(Value()).(joy := Some(msg), joyStamp := now) && published == old(published)
    {
      joy, joyStamp := Some(msg), now;
    }

    method ManualCallback(msg: Twist, now: real)
      modifies this
      ensures Value() == old(Value()).(manual := msg, manualStamp := now) && published == old(published)
    {
      manualTwist, manualStamp := msg, now;
    }

    /** The resume gate in front of both drive modes. */
    method PassGate(linear: real, angular: real) returns (open: bool)
      modifies this`requireResume, this`seenNeutral
      ensures (Value(), open) == Gate(old(Value()), linear, angular)
    {
      if requireResume {
        var atNeutral := Abs(linear) < NEUTRAL_THRESH && Abs(angular) < NEUTRAL_THRESH;
        if atNeutral { seenNeutral := true; }
        if seenNeutral && !atNeutral {
          requireResume := false;
        } else {
          return false;
        }
      }
      return true;
    }

    method ManualTimer(now: real)
      modifies this
      ensures Value() == ManualTick(old(Value()), now, config).0
      ensures published == old(published) + [ManualTick(old(Value()), now, config).1]
    {
      hide Gate, Limited;
      if now - safetyStamp > config.safetyTimeout {
        ArmResume();
        Publish(ZERO);
        return;
      }
      if safety == STOP {
        ArmResume();
        Publish(ZERO);
        return;
      }
      if now - manualStamp > config.joyTimeout {
        ArmResume();
        Publish(ZERO);
        return;
      }
      var open := PassGate(manualTwist.linear, manualTwist.angular);
      if !open {
        Publish(ZERO);
        return;
      }
      Publish(Limited(safety, manualTwist.linear, manualTwist.angular, config));
    }

    /** From the freshness check on: the safety state decides what the input may do. */
    method Drive()
      modifies this
      ensures Value() == JoyDrive(old(Value()), config).0
      ensures published == old(published) + [JoyDrive(old(Value()), config).1]
    {
      hide Gate, Limited, DirectionInput;
      if prevSafety == STOP && safety != STOP {
        requireResume, seenNeutral := true, false;
      }
      prevSafety := safety;
      if safety == STOP {
        ArmResume();
        Publish(ZERO);
        return;
      }
      var (linear, angular) := DirectionInput(joy, config);
      var open := PassGate(linear, angular);
      if !open {
        Publish(ZERO);
        return;
      }
      Publish(Limited(safety, linear * MAX_LINEAR, angular * MAX_ANGULAR, config));
    }

    method JoyTimer(now: real)
      modifies this
      ensures Value() == JoyTick(old(Value()), now, config).0
      ensures published == old(published) + [JoyTick(old(Value()), now, config).1]
    {
      hide JoyDrive;
      if joy.Some? {
        var pressed := Button(joy, ESTOP_BTN);
        if pressed && !prevEstopBtn { estop := !estop; }
        prevEstopBtn := pressed;
      }
      if estop {
        Publish(ZERO);
        return;
      }
      if now - joyStamp > config.joyTimeout {
        ArmResume();
        Publish(ZERO);
        return;
      }
      if !Button(joy, DEADMAN_BTN) {
        Publish(ZERO);
        return;
      }
      if now - safetyStamp > config.safetyTimeout {
        ArmResume();
        Publish(ZERO);
        return;
      }
      Drive();
    }

    method TimerCallback(now: real)
      modifies this
      ensures Value() == Tick(old(Value()), now, config).0
      ensures published == old(published) + [Tick(old(Value()), now, config).1]
    {
      hide ManualTick, JoyTick;
      if config.noJoyMode {
        ManualTimer(now);
      } else {
        JoyTimer(now);
      }
    }
  }
}
