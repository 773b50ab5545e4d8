/** The periodic sender of SafetyTransmitter.cpp. Each method runs under the mutex and is one
    atomic step; the clock reading and the outcome of the port's write are parameters. */
module SafetyTransmitter {
  import opened SafetyJudge
  import opened UartFrame

  datatype Config = Config(periodMs: nat, decisionTimeoutMs: nat)

  /** The decision side of the sender. */
  datatype Memory = Memory(published: State, lastSent: State, decidedAt: nat, seen: bool)

  const INITIAL := Memory(Stop, Stop, 0, false)

  /** A call of `publish`: what was decided, when, and whether the port is up at that moment. */
  datatype Decision = Decision(state: State, at: nat, up: bool)

  /** What is done to the sender: a decision is published, or its period has passed. */
  datatype Act = Decide(d: Decision) | Period(now: nat, up: bool)

  /** An all-or-error byte sink. */
  class UartPort {
    var written: seq<seq<Octet>>

    constructor ()
      ensures written == []
    {
      written := [];
    }

    method Write(frame: seq<Octet>, up: bool) returns (ok: bool)
      modifies this
      ensures ok == up && written == old(written) + if up then [frame] else []
    {
      ok := up;
      if up { written := written + [frame]; }
    }
  }

  predicate EntersStop(m: Memory, s: State) { s == Stop && m.published != Stop }

  predicate Stale(m: Memory, now: nat, cfg: Config)
  {
    !m.seen || (now >= m.decidedAt && now - m.decidedAt >= cfg.decisionTimeoutMs)
  }

  /** What a periodic frame says. */
  function Reported(m: Memory, now: nat, cfg: Config): State
  {
    if Stale(m, now, cfg) then Stop else m.published
  }

  function Sent(m: Memory, s: State, up: bool): Memory { if up then m.(lastSent := s) else m }

  function Published(m: Memory, s: State, decidedAt: nat, up: bool): Memory
  {
    var n := Memory(s, m.lastSent, decidedAt, true);
    if EntersStop(m, s) then Sent(n, s, up) else n
  }

  function Ticked(m: Memory, now: nat, up: bool, cfg: Config): Memory { Sent(m, Reported(m, now, cfg), up) }

  class Transmitter {
    const port: UartPort
    const config: Config
    var published: State
    var lastSent: State
    var decidedAtMs: nat
    var decisionSeen: bool
    var framesSent: nat
    var sendFailures: nat
    var staleEvents: nat
    var immediateStops: nat
    ghost var log: seq<Act>

    function Value(): Memory
      reads this
    {
      Memory(published, lastSent, decidedAtMs, decisionSeen)
    }

    /** Every frame on the wire is counted, and the last one is the one remembered. */
    ghost predicate Valid()
      reads this, port
    {
      && framesSent == |port.written|
      && (if port.written == [] then lastSent == Stop else port.written[|port.written| - 1] == Frame(lastSent))
    }

    constructor (port: UartPort, config: Config)
      requires port.written == []
      ensures Valid() && Value() == INITIAL && this.port == port && this.config == config && log == []
      ensures published == Stop && lastSent == Stop && !decisionSeen
    {
      this.port, this.config := port, config;
      published, lastSent, decidedAtMs, decisionSeen := Stop, Stop, 0, false;
      framesSent, sendFailures, staleEvents, immediateStops, log := 0, 0, 0, 0, [];
    }

    method SendLocked(s: State, up: bool) returns (ok: bool)
      requires Valid()
      modifies this`lastSent, this`framesSent, this`sendFailures, port
      ensures Valid() && ok == up
      ensures port.written == old(port.written) + if up then [Frame(s)] else []
      ensures lastSent == if up then s else old(lastSent)
      ensures framesSent + sendFailures == old(framesSent + sendFailures) + 1
    {
      hide Frame;
      var frame := new Octet[3];
      var encoded := Encode(s, frame);
      if !encoded { assert false; }
      assert frame[..] == frame[..3];
      ok := port.Write(frame[..], up);
      if !ok {
        sendFailures := sendFailures + 1;
        return;
      }
      framesSent, lastSent := framesSent + 1, s;
    }

    method Publish(s: State, decidedAt: nat, up: bool)
      requires Valid()
      modifies this, port
      ensures Valid() && Value() == Published(old(Value()), s, decidedAt, up)
      ensures port.written == old(port.written) + if EntersStop(old(Value()), s) && up then [Frame(s)] else []
      ensures immediateStops == old(immediateStops) + if EntersStop(old(Value()), s) then 1 else 0
      ensures published == s && decidedAtMs == decidedAt && decisionSeen
      ensures s == Stop && old(published) != Stop ==>
        port.written == old(port.written) + (if up then [Frame(Stop)] else [])
      ensures s == Stop && old(published) != Stop ==> lastSent == if up then Stop else old(lastSent)
      ensures s != Stop || old(published) == Stop ==> port.written == old(port.written) && lastSent == old(lastSent)
      ensures log == old(log) + [Decide(Decision(s, decidedAt, up))]
    {
      hide Frame;
      var enteringStop := s == Stop && published != Stop;
      published, decidedAtMs, decisionSeen := s, decidedAt, true;
      log := log + [Decide(Decision(s, decidedAt, up))];
      if enteringStop {
        immediateStops := immediateStops + 1;
        var _ := SendLocked(s, up);
      }
    }

    method Tick(now: nat, up: bool) returns (s: State)
      requires Valid()
      modifies this, port
      ensures Valid() && Value() == Ticked(old(Value()), now, up, config)
      ensures s == Reported(old(Value()), now, config)
      ensures s == if decisionSeen && now < decidedAtMs + config.decisionTimeoutMs then published else Stop
      ensures published == old(published) && decidedAtMs == old(decidedAtMs) && decisionSeen == old(decisionSeen)
      ensures lastSent == if up then s else old(lastSent)
      ensures port.written == old(port.written) + if up then [Frame(s)] else []
      ensures log == old(log) + [Period(now, up)]
    {
      hide Frame;
      log := log + [Period(now, up)];
      s := published;
      var stale := !decisionSeen || (now >= decidedAtMs && now - decidedAtMs >= config.decisionTimeoutMs);
      if stale {
        if s != Stop { staleEvents := staleEvents + 1; }
        s := Stop;
      }
      var _ := SendLocked(s, up);
    }
  }

  function Acted(m: Memory, a: Act, cfg: Config): Memory
  {
    match a
    case Decide(d) => Published(m, d.state, d.at, d.up)
    case Period(now, up) => Ticked(m, now, up, cfg)
  }

  /** The frames an act writes: a decision writes only a Stop that replaces something else. */
  function FramesOf(m: Memory, a: Act, cfg: Config): seq<seq<Octet>>
  {
    match a
    case Decide(d) => if EntersStop(m, d.state) && d.up then [Frame(d.state)] else []
    case Period(now, up) => if up then [Frame(Reported(m, now, cfg))] else []
  }

  /** The sender after a series of acts. */
  function ActedAll(m: Memory, acts: seq<Act>, cfg: Config): Memory
  {
    if acts == [] then m else Acted(ActedAll(m, acts[..|acts| - 1], cfg), acts[|acts| - 1], cfg)
  }

  /** All the frames they write. */
  function WrittenBy(m: Memory, acts: seq<Act>, cfg: Config): seq<seq<Octet>>
  {
    if acts == [] then []
    else
      var init := acts[..|acts| - 1];
      WrittenBy(m, init, cfg) + FramesOf(ActedAll(m, init, cfg), acts[|acts| - 1], cfg)
  }

  lemma OneMore(m: Memory, acts: seq<Act>, a: Act, cfg: Config)
    ensures ActedAll(m, acts + [a], cfg) == Acted(ActedAll(m, acts, cfg), a, cfg)
    ensures WrittenBy(m, acts + [a], cfg) == WrittenBy(m, acts, cfg) + FramesOf(ActedAll(m, acts, cfg), a, cfg)
  {
    hide Acted, FramesOf;
    assert (acts + [a])[..|acts|] == acts;
  }

  /** What a transmitter was before a series of acts. */
  datatype Before = Before(memory: Memory, log: seq<Act>, written: seq<seq<Octet>>)

  ghost function Now(t: Transmitter): Before
    reads t, t.port
  {
    Before(t.Value(), t.log, t.port.written)
  }

  /** Since then exactly `acts` have been done, with the frames that go with them. */
  ghost predicate DoneSince(t: Transmitter, before: Before, acts: seq<Act>)
    reads t, t.port
  {
    && t.log == before.log + acts && t.Value() == ActedAll(before.memory, acts, t.config)
    && t.port.written == before.written + WrittenBy(before.memory, acts, t.config)
  }

  /** Exactly when a frame lets the robot move: the latest decision does, and it is more recent
      than the decision timeout. The frame then reports that decision. */
  lemma MovingFrameIff(m: Memory, now: nat, cfg: Config)
    ensures Reported(m, now, cfg) != Stop <==>
      m.seen && m.published != Stop && now - m.decidedAt < cfg.decisionTimeoutMs
    ensures Reported(m, now, cfg) != Stop ==> Reported(m, now, cfg) == m.published
  {
  }
}
