/** The bridge and the transmitter together: the classification thread decides and publishes
    while the sender thread ticks in between. Clock readings never go back. */
module SafetyRun {
  import opened SafetyJudge
  import HL = HazardLatch
  import Tx = SafetyTransmitter
  import B = SafetyBridge

  datatype Config = Config(bridge: B.Config, tx: Tx.Config)

  /** What a step of the run does. A flush is two steps, since the sender may tick between them. */
  datatype Action = Decide(pending: seq<Record>, backgroundSlow: bool) | DecideForced
                  | Publish(up: bool) | Tick(up: bool)

  datatype Timed = Timed(action: Action, now: nat)

  datatype Outbox = Empty | Decided(state: State, at: nat)

  /** A frame on the wire and when it was written. */
  datatype Written = Written(state: State, at: nat)

  datatype System = System(bridge: B.Memory, outbox: Outbox, tx: Tx.Memory, wire: seq<Written>)

  const INITIAL := System(B.INITIAL, Empty, Tx.INITIAL, [])

  /** The classification thread publishes a decision before it takes the next one. */
  predicate Enabled(s: System, a: Action)
  {
    match a
    case Decide(_, _) => s.outbox.Empty?
    case DecideForced => s.outbox.Empty?
    case Publish(_) => s.outbox.Decided?
    case Tick(_) => true
  }

  ghost function Next(s: System, e: Timed, cfg: Config): System
    requires Enabled(s, e.action)
  {
    match e.action
    case Decide(pending, slow) =>
      var b := B.Flushed(s.bridge.(pending := pending, backgroundSlow := slow), e.now, cfg.bridge);
      s.(bridge := b, outbox := Decided(b.state, e.now))
    case DecideForced => s.(bridge := B.ForcedStop(s.bridge), outbox := Decided(Stop, e.now))
    case Publish(up) =>
      s.(outbox := Empty, tx := Tx.Published(s.tx, s.outbox.state, s.outbox.at, up),
         wire := s.wire + if Tx.EntersStop(s.tx, s.outbox.state) && up then [Written(s.outbox.state, e.now)] else [])
    case Tick(up) =>
      s.(tx := Tx.Ticked(s.tx, e.now, up, cfg.tx),
         wire := s.wire + if up then [Written(Tx.Reported(s.tx, e.now, cfg.tx), e.now)] else [])
  }

  /** A run of the system: `run[i]` is what step `events[i]` starts from. */
  ghost predicate IsRun(run: seq<System>, events: seq<Timed>, cfg: Config)
  {
    && |run| == |events| + 1 && run[0] == INITIAL
    && (forall i :: 0 <= i < |events| ==> Enabled(run[i], events[i].action))
    && (forall i, j :: 0 <= i && j == i + 1 < |run| ==> run[j] == Next(run[i], events[i], cfg))
    && forall i, j :: 0 <= i <= j < |events| ==> events[i].now <= events[j].now
  }

  /** While the latch holds, whatever waits to be published is a Stop. */
  predicate Inv(s: System)
  {
    s.bridge.latch.phase == HL.Holding && s.outbox.Decided? ==> s.outbox.state == Stop
  }

  lemma HoldingAnswersStop(m: HL.Memory, f: HL.Frame, cfg: HL.Config, judge: JudgeConfig)
    requires HL.Step(m, f, cfg, judge).0.phase == HL.Holding
    ensures HL.Step(m, f, cfg, judge).1 == Stop
  {
    hide Present, WorstOf;
  }

  lemma NextInv(s: System, e: Timed, cfg: Config)
    requires Inv(s) && Enabled(s, e.action)
    ensures Inv(Next(s, e, cfg))
  {
    hide HL.Step, B.SignDeadline;
    match e.action
    case Decide(pending, slow) =>
      var b := s.bridge.(pending := pending, backgroundSlow := slow);
      var f := HL.Frame(pending, e.now);
      if HL.Step(b.latch, f, cfg.bridge.latch, cfg.bridge.judge).0.phase == HL.Holding {
        HoldingAnswersStop(b.latch, f, cfg.bridge.latch, cfg.bridge.judge);
      }
    case _ =>
  }

  lemma {:induction false} RunInv(run: seq<System>, events: seq<Timed>, cfg: Config, k: nat)
    requires IsRun(run, events, cfg) && k < |run|
    ensures Inv(run[k])
  {
    assert Inv(INITIAL);
    hide Inv, Next, Enabled;
    if k > 0 {
      RunInv(run, events, cfg, k - 1);
      NextInv(run[k - 1], events[k - 1], cfg);
      assert run[k] == Next(run[k - 1], events[k - 1], cfg);
    }
  }

  /** Step `k` judges a frame that starts a new event. */
  ghost predicate StartsEvent(run: seq<System>, events: seq<Timed>, k: nat)
    requires k < |events| && k + 1 < |run|
  {
    && events[k].action.Decide? && !HL.Held(run[k].bridge.latch, events[k].now)
    && run[k + 1].bridge.latch.phase == HL.Holding
  }

  /** The event is out: the latch holds until `until` and nothing but Stop is published. */
  predicate StopIsOut(s: System, until: nat)
  {
    && s.bridge.latch.phase == HL.Holding && s.bridge.latch.holdUntil == until
    && s.tx.published == Stop && (s.outbox.Decided? ==> s.outbox.state == Stop)
  }

  /** Nothing but Stop frames has been written since the wire carried `before`. */
  predicate OnlyStopsSince(before: seq<Written>, wire: seq<Written>)
  {
    before <= wire && forall i :: |before| <= i < |wire| ==> wire[i].state == Stop
  }

  lemma DecideWhileHeld(s: System, e: Timed, cfg: Config)
    requires Enabled(s, e.action) && e.action.Decide? && HL.Held(s.bridge.latch, e.now)
    ensures var t := Next(s, e, cfg);
      t.bridge.latch == s.bridge.latch && t.outbox == Decided(Stop, e.now) && t.tx == s.tx
  {
    hide B.SignDeadline;
  }

  lemma StaysOut(s: System, e: Timed, cfg: Config, until: nat)
    requires Enabled(s, e.action) && StopIsOut(s, until) && e.now < until
    ensures StopIsOut(Next(s, e, cfg), until)
    ensures OnlyStopsSince(s.wire, Next(s, e, cfg).wire)
  {
    if e.action.Decide? {
      DecideWhileHeld(s, e, cfg);
      hide B.Flushed;
    }
  }

  /** The step between decision and publication is always possible, and if the state published before was
      not Stop and the port is up, it puts a Stop frame on the wire then and there. */
  lemma StopGoesOut(run: seq<System>, events: seq<Timed>, cfg: Config, p: nat)
    requires IsRun(run, events, cfg) && p < |events| && run[p].outbox.Decided? && run[p].outbox.state == Stop
    ensures Enabled(run[p], Publish(true)) && Enabled(run[p], Publish(false))
    ensures events[p].action == Publish(true) && run[p].tx.published != Stop ==>
      run[p + 1].wire == run[p].wire + [Written(Stop, events[p].now)]
    ensures events[p].action.Publish? ==> run[p + 1].tx.published == Stop && run[p + 1].outbox.Empty?
  {
    assert run[p + 1] == Next(run[p], events[p], cfg);
  }

  /** Between its decision and its publication an event stays what it is. */
  lemma {:induction false} AwaitsPublication(run: seq<System>, events: seq<Timed>, cfg: Config, k: nat, p: nat)
    requires IsRun(run, events, cfg) && k < p <= |events| && StartsEvent(run, events, k)
    requires forall i :: k < i < p ==> !events[i].action.Publish?
    ensures run[p].bridge == run[k + 1].bridge && run[p].outbox == Decided(Stop, events[k].now)
    ensures run[p].bridge.latch.holdUntil == events[k].now + cfg.bridge.latch.holdMs
  {
    assert run[k + 1] == Next(run[k], events[k], cfg);
    if p == k + 1 {
      RunInv(run, events, cfg, p);
      EventDeadline(run[k], events[k], cfg);
    } else {
      hide B.Flushed, HL.Held, Tx.Ticked, Tx.Reported;
      AwaitsPublication(run, events, cfg, k, p - 1);
      assert run[p] == Next(run[p - 1], events[p - 1], cfg);
      assert Enabled(run[p - 1], events[p - 1].action);
    }
  }

  lemma EventDeadline(s: System, e: Timed, cfg: Config)
    requires Enabled(s, e.action) && e.action.Decide? && !HL.Held(s.bridge.latch, e.now)
    requires Next(s, e, cfg).bridge.latch.phase == HL.Holding
    ensures Next(s, e, cfg).bridge.latch.holdUntil == e.now + cfg.bridge.latch.holdMs
  {
    hide B.SignDeadline, Present, WorstOf;
  }

  /** Once the Stop of an event at time t has been published, every frame written before
      t + hold_ms is a Stop, whatever the two threads do in between and whichever writes fail. */
  lemma {:induction false} StopStaysOut(run: seq<System>, events: seq<Timed>, cfg: Config, k: nat, p: nat, j: nat)
    requires IsRun(run, events, cfg) && k < p < |events| && StartsEvent(run, events, k)
    requires events[p].action.Publish? && forall i :: k < i < p ==> !events[i].action.Publish?
    requires p <= j < |events| && events[j].now < events[k].now + cfg.bridge.latch.holdMs
    ensures StopIsOut(run[j + 1], events[k].now + cfg.bridge.latch.holdMs)
    ensures OnlyStopsSince(run[p].wire, run[j + 1].wire)
  {
    hide B.Flushed, HL.Held, Tx.Reported;
    AwaitsPublication(run, events, cfg, k, p);
    assert run[j + 1] == Next(run[j], events[j], cfg);
    assert run[k + 1] == Next(run[k], events[k], cfg);
    if j > p {
      StopStaysOut(run, events, cfg, k, p, j - 1);
      hide Next, StopIsOut;
      assert Enabled(run[j], events[j].action);
      StaysOut(run[j], events[j], cfg, events[k].now + cfg.bridge.latch.holdMs);
    }
  }
}
