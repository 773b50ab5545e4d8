/** Transmitter, serial link, receiver and arbiter together, on one clock in seconds. The link
    loses and corrupts nothing and delays a frame by at most `delay`. */
module Freshness {
  import J = SafetyJudge
  import Tx = SafetyTransmitter
  import U = UartFrame
  import R = UartReceiver
  import Arb = Arbiter
  import G = ResumeGate

  datatype Config = Config(tx: Tx.Config, delay: real, arbiter: Arb.ClampedConfig)

  /** A published decision and when it was made. */
  datatype Decision = Decision(state: J.State, at: real)

  /** A frame on its way and when it was written. */
  datatype Entry = Entry(state: J.State, at: real)

  /** `link` holds the bytes not yet polled; `queue` (not in the program) the frames not yet
      received in full; `log` (not in the program) every decision published so far. */
  datatype System = System(tx: Tx.Memory, link: seq<U.Octet>, queue: seq<Entry>, buffer: seq<U.Octet>,
                           arbiter: Arb.Memory, log: seq<Decision>)

  const INITIAL := System(Tx.INITIAL, [], [], [], Arb.INITIAL, [])

  datatype Event = Publish(state: J.State, decidedAt: real, now: real)
                 | SenderTick(now: real)
                 | Poll(bytes: nat, now: real)
                 | Input(event: G.Event)

  /** The millisecond clock. */
  function Millis(t: real): nat { if t < 0.0 then 0 else (t * 1000.0).Floor }

  function Seconds(ms: nat): real { ms as real / 1000.0 }

  function States(es: seq<Entry>): (ss: seq<J.State>)
    ensures |ss| == |es|
  {
    seq(|es|, i requires 0 <= i < |es| => es[i].state)
  }

  /** Frames completed by the next `bytes` bytes. */
  function Completed(s: System, bytes: nat): nat { (|s.buffer| + bytes) / 3 }

  ghost predicate Enabled(s: System, e: Event, cfg: Config)
  {
    match e
    case Publish(_, decidedAt, _) => decidedAt >= 0.0
    case SenderTick(now) => now >= 0.0
    case Poll(bytes, now) =>
      && bytes <= |s.link|
      && forall i :: 0 <= i < Completed(s, bytes) && i < |s.queue| ==> now <= s.queue[i].at + cfg.delay
    case Input(ev) => !ev.SafetyMessage?
  }

  function Sent(s: System, state: J.State, now: real): System
  {
    s.(link := s.link + U.Frame(state), queue := s.queue + [Entry(state, now)])
  }

  /** The receiver's publications reach the arbiter one by one. */
  function Deliver(m: Arb.Memory, states: seq<int>, now: real): Arb.Memory
  {
    if states == [] then m else Arb.OnSafety(Deliver(m, states[..|states| - 1], now), states[|states| - 1], now)
  }

  function Next(s: System, e: Event, cfg: Config): System
    requires e.Poll? ==> e.bytes <= |s.link|
  {
    match e
    case Publish(state, decidedAt, now) =>
      var t := s.(tx := Tx.Published(s.tx, state, Millis(decidedAt), true),
                  log := s.log + [Decision(state, decidedAt)]);
      if Tx.EntersStop(s.tx, state) then Sent(t, state, now) else t
    case SenderTick(now) =>
      Sent(s.(tx := Tx.Ticked(s.tx, Millis(now), true, cfg.tx)), Tx.Reported(s.tx, Millis(now), cfg.tx), now)
    case Poll(bytes, now) =>
      var r := R.Scan(s.buffer + s.link[..bytes]);
      var done := if Completed(s, bytes) <= |s.queue| then Completed(s, bytes) else |s.queue|;
      s.(link := s.link[bytes..], queue := s.queue[done..], buffer := r.rest,
         arbiter := Deliver(s.arbiter, R.Published(r.states), now))
    case Input(ev) => s.(arbiter := G.Next(s.arbiter, ev, cfg.arbiter))
  }

  // ---------------------------------------------------------------- the invariant

  /** Something that lets the robot move at time `t` goes back to a decision that did, made less
      than `age` before. */
  ghost predicate Backed(log: seq<Decision>, state: J.State, t: real, age: real)
  {
    state != J.Stop ==> exists d :: d in log && d.state == state && t < d.at + age
  }

  ghost predicate TxInv(s: System)
  {
    s.tx.seen ==> s.log != [] && var d := s.log[|s.log| - 1];
      d.at >= 0.0 && d.state == s.tx.published && Millis(d.at) == s.tx.decidedAt
  }

  ghost predicate LinkInv(s: System)
  {
    s.buffer + s.link == R.Frames(States(s.queue)) && |s.buffer| <= 2
  }

  ghost predicate QueueInv(s: System, cfg: Config)
  {
    forall e :: e in s.queue ==> Backed(s.log, e.state, e.at, Seconds(cfg.tx.decisionTimeoutMs))
  }

  function ReachedAge(cfg: Config): real { Seconds(cfg.tx.decisionTimeoutMs) + cfg.delay }

  ghost predicate ArbiterInv(s: System, cfg: Config)
  {
    s.arbiter.safety != Arb.STOP ==>
      exists state :: J.Level(state) == s.arbiter.safety && state != J.Stop
        && Backed(s.log, state, s.arbiter.safetyStamp, ReachedAge(cfg))
  }

  ghost predicate Inv(s: System, cfg: Config)
  {
    TxInv(s) && LinkInv(s) && QueueInv(s, cfg) && ArbiterInv(s, cfg)
  }

  lemma BackedLater(log: seq<Decision>, more: seq<Decision>, state: J.State, t: real, age: real)
    requires Backed(log, state, t, age)
    ensures Backed(log + more, state, t, age)
  {
    if state != J.Stop {
      var d :| d in log && d.state == state && t < d.at + age;
      assert d in log + more;
    }
  }

  lemma MillisRecent(now: real, at: real, timeoutMs: nat)
    requires now >= 0.0 && at >= 0.0 && Millis(now) < Millis(at) + timeoutMs
    ensures now < at + Seconds(timeoutMs)
  {
    assert now * 1000.0 < (Millis(now) + 1) as real;
    assert (Millis(now) + 1) as real <= Millis(at) as real + timeoutMs as real;
    assert Millis(at) as real <= at * 1000.0;
    assert timeoutMs as real == Seconds(timeoutMs) * 1000.0;
  }

  /** The frame of a sender tick is backed by the latest decision. */
  lemma TickIsBacked(s: System, now: real, cfg: Config)
    requires TxInv(s) && now >= 0.0
    ensures Backed(s.log, Tx.Reported(s.tx, Millis(now), cfg.tx), now, Seconds(cfg.tx.decisionTimeoutMs))
  {
    hide Millis, Seconds;
    if Tx.Reported(s.tx, Millis(now), cfg.tx) != J.Stop {
      Tx.MovingFrameIff(s.tx, Millis(now), cfg.tx);
      var d := s.log[|s.log| - 1];
      MillisRecent(now, d.at, cfg.tx.decisionTimeoutMs);
      assert d in s.log;
    }
  }

  lemma {:induction false} FramesConcat(a: seq<J.State>, b: seq<J.State>)
    ensures R.Frames(a + b) == R.Frames(a) + R.Frames(b) && |R.Frames(a)| == 3 * |a|
  {
    hide U.Frame;
    if a == [] {
      assert a + b == b;
    } else {
      assert (a + b)[0] == a[0] && (a + b)[1..] == a[1..] + b;
      FramesConcat(a[1..], b);
    }
  }

  lemma SentLink(s: System, state: J.State, now: real)
    requires LinkInv(s)
    ensures LinkInv(Sent(s, state, now))
  {
    hide U.Frame;
    var t := Sent(s, state, now);
    FramesConcat(States(s.queue), [state]);
    assert States(t.queue) == States(s.queue) + [state];
    assert R.Frames([state]) == U.Frame(state) + R.Frames([]);
    assert t.buffer + t.link == (s.buffer + s.link) + U.Frame(state);
  }

  lemma PublishInv(s: System, e: Event, cfg: Config)
    requires Inv(s, cfg) && e.Publish? && Enabled(s, e, cfg)
    ensures Inv(Next(s, e, cfg), cfg)
  {
    hide U.Frame, Millis, Seconds;
    var t := Next(s, e, cfg);
    var more := [Decision(e.state, e.decidedAt)];
    SentLink(s, e.state, e.now);
    forall x | x in t.queue
      ensures Backed(t.log, x.state, x.at, Seconds(cfg.tx.decisionTimeoutMs))
    {
      if x in s.queue { BackedLater(s.log, more, x.state, x.at, Seconds(cfg.tx.decisionTimeoutMs)); }
    }
    ArbiterLater(s, t, more, cfg);
  }

  lemma ArbiterLater(s: System, t: System, more: seq<Decision>, cfg: Config)
    requires ArbiterInv(s, cfg) && t.arbiter.safety == s.arbiter.safety
      && t.arbiter.safetyStamp == s.arbiter.safetyStamp
    requires t.log == s.log + more
    ensures ArbiterInv(t, cfg)
  {
    if s.arbiter.safety != Arb.STOP {
      var state :| J.Level(state) == s.arbiter.safety && state != J.Stop
        && Backed(s.log, state, s.arbiter.safetyStamp, ReachedAge(cfg));
      BackedLater(s.log, more, state, s.arbiter.safetyStamp, ReachedAge(cfg));
    }
  }

  lemma SenderTickInv(s: System, e: Event, cfg: Config)
    requires Inv(s, cfg) && e.SenderTick? && Enabled(s, e, cfg)
    ensures Inv(Next(s, e, cfg), cfg)
  {
    hide U.Frame, Millis, Seconds, Backed;
    TickIsBacked(s, e.now, cfg);
    SentLink(s, Tx.Reported(s.tx, Millis(e.now), cfg.tx), e.now);
  }

  /** The bytes at hand after a poll are the completed frames and at most two bytes of the next. */
  lemma PollSplits(s: System, bytes: nat) returns (tail: seq<U.Octet>)
    requires LinkInv(s) && bytes <= |s.link|
    ensures var m := Completed(s, bytes);
      && m <= |s.queue| && |tail| <= 2
      && s.buffer + s.link[..bytes] == R.Frames(States(s.queue[..m])) + tail
      && tail + s.link[bytes..] == R.Frames(States(s.queue[m..]))
  {
    hide U.Frame, R.Frames;
    var all := R.Frames(States(s.queue));
    var got := s.buffer + s.link[..bytes];
    FramesConcat(States(s.queue), []);
    var m := Completed(s, bytes);
    assert |got| == |s.buffer| + bytes && got == all[..|got|];
    var a, b := States(s.queue[..m]), States(s.queue[m..]);
    assert a + b == States(s.queue);
    FramesConcat(a, b);
    tail := got[3 * m..];
    assert got[..3 * m] == all[..3 * m] == R.Frames(a);
    assert tail + s.link[bytes..] == all[3 * m..];
  }

  /** What a poll hands over: exactly the frames it completes. */
  lemma PollScans(s: System, bytes: nat)
    requires LinkInv(s) && bytes <= |s.link|
    ensures var m, r := Completed(s, bytes), R.Scan(s.buffer + s.link[..bytes]);
      && m <= |s.queue| && R.Published(r.states) == R.Levels(States(s.queue[..m]))
      && r.rest + s.link[bytes..] == R.Frames(States(s.queue[m..])) && |r.rest| <= 2
  {
    hide U.Frame, R.Scan, R.Frames, R.Published, R.Levels, LinkInv;
    var tail := PollSplits(s, bytes);
    var frames := R.Frames(States(s.queue[..Completed(s, bytes)]));
    R.ScanConcat(frames, tail);
    R.ScanFrames(States(s.queue[..Completed(s, bytes)]));
    assert R.Scan(frames).rest + tail == tail;
    R.ScanShort(tail);
    assert R.Scan(frames).states + [] == R.Scan(frames).states;
  }

  /** After a delivery the arbiter holds the last state delivered, stamped now. */
  lemma DeliverLast(m: Arb.Memory, states: seq<int>, now: real)
    requires states != []
    ensures var n := Deliver(m, states, now); n.safety == Arb.Effective(states[|states| - 1]) && n.safetyStamp == now
  {
  }

  /** A poll that completes a frame leaves the arbiter with the state of the last frame it completes. */
  lemma PollDelivers(s: System, bytes: nat, now: real, cfg: Config)
    requires LinkInv(s) && bytes <= |s.link| && Completed(s, bytes) > 0
    ensures Completed(s, bytes) <= |s.queue|
    ensures var t := Next(s, Poll(bytes, now), cfg);
      && t.arbiter.safety == J.Level(s.queue[Completed(s, bytes) - 1].state) && t.arbiter.safetyStamp == now
      && t.queue == s.queue[Completed(s, bytes)..]
  {
    hide U.Frame, R.Scan, R.Frames, R.Published;
    PollScans(s, bytes);
    var m := Completed(s, bytes);
    var levels := R.Levels(States(s.queue[..m]));
    DeliverLast(s.arbiter, levels, now);
    assert levels[m - 1] == J.Level(s.queue[m - 1].state);
  }

  lemma PollInv(s: System, e: Event, cfg: Config)
    requires Inv(s, cfg) && e.Poll? && Enabled(s, e, cfg)
    ensures Inv(Next(s, e, cfg), cfg)
  {
    hide U.Frame, R.Scan, R.Frames, R.Published, Millis, Seconds;
    PollScans(s, e.bytes);
    var t := Next(s, e, cfg);
    var m := Completed(s, e.bytes);
    assert t.queue == s.queue[m..];
    if m == 0 {
      assert t.arbiter == s.arbiter;
    } else {
      var x := s.queue[m - 1];
      var levels := R.Levels(States(s.queue[..m]));
      DeliverLast(s.arbiter, levels, e.now);
      assert levels[m - 1] == J.Level(x.state);
      assert x in s.queue && e.now <= x.at + cfg.delay;
      if x.state != J.Stop {
        var d :| d in s.log && d.state == x.state && x.at < d.at + Seconds(cfg.tx.decisionTimeoutMs);
        assert Backed(t.log, x.state, t.arbiter.safetyStamp, ReachedAge(cfg));
      }
    }
  }

  lemma InputInv(s: System, e: Event, cfg: Config)
    requires Inv(s, cfg) && e.Input? && Enabled(s, e, cfg)
    ensures Inv(Next(s, e, cfg), cfg)
  {
    var t := Next(s, e, cfg);
    InputKeepsSafety(s.arbiter, e.event, cfg.arbiter);
    hide G.Next;
    assert s.log + [] == s.log;
    ArbiterLater(s, t, [], cfg);
  }

  predicate SameSafety(m: Arb.Memory, n: Arb.Memory) { n.safety == m.safety && n.safetyStamp == m.safetyStamp }

  lemma GateKeepsSafety(m: Arb.Memory, x: real, y: real)
    ensures SameSafety(m, Arb.Gate(m, x, y).0)
  {
  }

  lemma DriveKeepsSafety(m: Arb.Memory, cfg: Arb.ClampedConfig)
    ensures SameSafety(m, Arb.JoyDrive(m, cfg).0)
  {
    hide Arb.Gate, Arb.DirectionInput, Arb.Limited;
    var n := Arb.TrackSafety(m);
    var (x, y) := Arb.DirectionInput(n.joy, cfg);
    GateKeepsSafety(n, x, y);
  }

  lemma TickKeepsSafety(m: Arb.Memory, now: real, cfg: Arb.ClampedConfig)
    ensures SameSafety(m, Arb.Tick(m, now, cfg).0)
  {
    hide Arb.Gate, Arb.JoyDrive, Arb.Limited, Arb.Button;
    GateKeepsSafety(m, m.manual.linear, m.manual.angular);
    DriveKeepsSafety(Arb.EstopEdge(m), cfg);
  }

  /** Only safety messages change what the arbiter knows about safety. */
  lemma InputKeepsSafety(m: Arb.Memory, ev: G.Event, cfg: Arb.ClampedConfig)
    requires !ev.SafetyMessage?
    ensures SameSafety(m, G.Next(m, ev, cfg))
  {
    if ev.Timer? {
      hide Arb.Tick;
      TickKeepsSafety(m, ev.now, cfg);
    }
  }

  ghost predicate Step(s: System, e: Event, t: System, cfg: Config) { Enabled(s, e, cfg) && t == Next(s, e, cfg) }

  /** A run: `run[i]` is the system before event `i`. */
  ghost predicate IsRun(run: seq<System>, events: seq<Event>, cfg: Config)
  {
    && |run| == |events| + 1 && run[0] == INITIAL
    && forall i, j :: 0 <= i && j == i + 1 < |run| ==> Step(run[i], events[i], run[j], cfg)
  }

  lemma {:induction false} RunInv(run: seq<System>, events: seq<Event>, cfg: Config, k: nat)
    requires IsRun(run, events, cfg) && k < |run|
    ensures Inv(run[k], cfg)
  {
    if k == 0 {
      assert States([]) == [];
    } else {
      RunInv(run, events, cfg, k - 1);
      var s, e := run[k - 1], events[k - 1];
      assert Step(s, e, run[k], cfg);
      hide Inv, Next, Enabled;
      if e.Publish? { PublishInv(s, e, cfg); }
      else if e.SenderTick? { SenderTickInv(s, e, cfg); }
      else if e.Poll? { PollInv(s, e, cfg); }
      else { InputInv(s, e, cfg); }
    }
  }

  /** End-to-end freshness: a nonzero command at time t goes back to a Clear or Slow decision, the
      one whose limits are in force, made later than
      t - (decision_timeout + delay + safety_timeout). */
  lemma MovementIsFresh(run: seq<System>, events: seq<Event>, cfg: Config, k: nat)
    requires IsRun(run, events, cfg) && k < |events|
    requires events[k].Input? && events[k].event.Timer?
    requires Arb.Tick(run[k].arbiter, events[k].event.now, cfg.arbiter).1 != Arb.ZERO
    ensures exists d :: (
      && d in run[k].log && d.state != J.Stop && J.Level(d.state) == run[k].arbiter.safety
      && d.at > events[k].event.now - (Seconds(cfg.tx.decisionTimeoutMs) + cfg.delay + cfg.arbiter.safetyTimeout))
  {
    RunInv(run, events, cfg, k);
    hide IsRun, Arb.Tick, Seconds;
    var s, t := run[k], events[k].event.now;
    G.MovementPassesGate(s.arbiter, t, cfg.arbiter);
    var state :| J.Level(state) == s.arbiter.safety && state != J.Stop
      && Backed(s.log, state, s.arbiter.safetyStamp, ReachedAge(cfg));
    var d :| d in s.log && d.state == state && s.arbiter.safetyStamp < d.at + ReachedAge(cfg);
  }
}
