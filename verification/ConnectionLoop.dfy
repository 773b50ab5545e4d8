/** The per-connection loop of ps_classifier_server.c: requests with the same frame id form one
    frame, which is judged when the next frame's first request arrives. */
module ConnectionLoop {
  import opened SafetyJudge
  import opened SafetyBridge
  import opened UartFrame
  import HL = HazardLatch
  import Tx = SafetyTransmitter

  /** One period of the sender thread: its clock and whether the port is up. */
  datatype Period = Period(now: nat, up: bool)

  /** One received request with its classification, the clock and port outcome of a flush it may
      trigger, whether its result could be sent back, and the sender's periods before all that. */
  datatype Request = Request(frameId: nat, observation: Observation, now: nat, up: bool, sent: bool,
                             periods: seq<Period>)

  /** The loop ends at the first request whose result cannot be sent, or when receiving fails. */
  function Served(reqs: seq<Request>): (n: nat)
    ensures n <= |reqs|
  {
    if reqs == [] then 0 else if !reqs[0].sent then 1 else 1 + Served(reqs[1..])
  }

  function AddTo(gs: seq<seq<Request>>, r: Request): (hs: seq<seq<Request>>)
    requires forall i :: 0 <= i < |gs| ==> gs[i] != []
    ensures forall i :: 0 <= i < |hs| ==> hs[i] != []
    ensures hs != [] && hs[|hs| - 1][0].frameId == r.frameId
  {
    var k := |gs| - 1;
    if gs != [] && gs[k][0].frameId == r.frameId then gs[..k] + [gs[k] + [r]] else gs + [[r]]
  }

  /** The requests grouped by frame id, in arrival order. */
  function Groups(reqs: seq<Request>): (gs: seq<seq<Request>>)
    ensures forall i :: 0 <= i < |gs| ==> gs[i] != []
    ensures gs == [] <==> reqs == []
    ensures reqs != [] ==> gs[|gs| - 1][0].frameId == reqs[|reqs| - 1].frameId
  {
    if reqs == [] then [] else AddTo(Groups(reqs[..|reqs| - 1]), reqs[|reqs| - 1])
  }

  function Joined(gs: seq<seq<Request>>): seq<Request>
  {
    if gs == [] then [] else Joined(gs[..|gs| - 1]) + gs[|gs| - 1]
  }

  /** A partition into maximal runs of equal frame ids. */
  ghost predicate MaximalRuns(gs: seq<seq<Request>>, reqs: seq<Request>)
  {
    && Joined(gs) == reqs
    && (forall i :: 0 <= i < |gs| ==> gs[i] != [] && forall j :: 0 <= j < |gs[i]| ==>
        gs[i][j].frameId == gs[i][0].frameId)
    && forall i, j :: 0 <= i && j == i + 1 < |gs| ==> gs[i][0].frameId != gs[j][0].frameId
  }

  lemma ExtendLast(gs: seq<seq<Request>>, reqs: seq<Request>, r: Request)
    requires gs != [] && MaximalRuns(gs, reqs) && gs[|gs| - 1][0].frameId == r.frameId
    ensures MaximalRuns(gs[..|gs| - 1] + [gs[|gs| - 1] + [r]], reqs + [r])
  {
    var k := |gs| - 1;
    var hs := gs[..k] + [gs[k] + [r]];
    assert hs[..k] == gs[..k];
    assert Joined(gs[..k]) + (gs[k] + [r]) == (Joined(gs[..k]) + gs[k]) + [r];
    hide Joined;
  }

  lemma StartGroup(gs: seq<seq<Request>>, reqs: seq<Request>, r: Request)
    requires MaximalRuns(gs, reqs) && (gs != [] ==> gs[|gs| - 1][0].frameId != r.frameId)
    ensures MaximalRuns(gs + [[r]], reqs + [r])
  {
    assert (gs + [[r]])[..|gs|] == gs;
  }

  lemma AddKeepsRuns(gs: seq<seq<Request>>, reqs: seq<Request>, r: Request)
    requires (forall i :: 0 <= i < |gs| ==> gs[i] != []) && MaximalRuns(gs, reqs)
    ensures MaximalRuns(AddTo(gs, r), reqs + [r])
  {
    hide MaximalRuns;
    if gs != [] && gs[|gs| - 1][0].frameId == r.frameId { ExtendLast(gs, reqs, r); } else { StartGroup(gs, reqs, r); }
  }

  /** The groups are the maximal runs of equal frame ids. */
  lemma {:induction false} GroupsAreMaximalRuns(reqs: seq<Request>)
    ensures MaximalRuns(Groups(reqs), reqs)
  {
    if reqs != [] {
      hide MaximalRuns, AddTo;
      var n := |reqs| - 1;
      GroupsAreMaximalRuns(reqs[..n]);
      AddKeepsRuns(Groups(reqs[..n]), reqs[..n], reqs[n]);
      assert reqs[..n] + [reqs[n]] == reqs;
    }
  }

  lemma DropFromLast(gs: seq<seq<Request>>, reqs: seq<Request>)
    requires gs != [] && MaximalRuns(gs, reqs) && |gs[|gs| - 1]| > 1
    ensures var k, last := |gs| - 1, gs[|gs| - 1];
      && reqs != [] && last[|last| - 1] == reqs[|reqs| - 1]
      && MaximalRuns(gs[..k] + [last[..|last| - 1]], reqs[..|reqs| - 1])
  {
    var k, last := |gs| - 1, gs[|gs| - 1];
    var hs := gs[..k] + [last[..|last| - 1]];
    assert hs[..k] == gs[..k];
    assert Joined(hs) == Joined(gs[..k]) + last[..|last| - 1];
    assert reqs[..|reqs| - 1] == Joined(gs[..k]) + last[..|last| - 1];
    hide Joined;
  }

  lemma DropLast(gs: seq<seq<Request>>, reqs: seq<Request>)
    requires gs != [] && MaximalRuns(gs, reqs) && |gs[|gs| - 1]| == 1
    ensures reqs != [] && gs[|gs| - 1] == [reqs[|reqs| - 1]] && MaximalRuns(gs[..|gs| - 1], reqs[..|reqs| - 1])
    ensures |gs| > 1 ==> gs[|gs| - 2][0].frameId != reqs[|reqs| - 1].frameId
  {
    var k := |gs| - 1;
    assert reqs[..|reqs| - 1] == Joined(gs[..k]);
    hide Joined;
    if k > 0 { assert gs[k - 1][0].frameId != gs[k][0].frameId; }
  }

  lemma AddSingle(gs: seq<seq<Request>>, r: Request)
    requires gs != [] && gs[|gs| - 1] == [r] && forall i :: 0 <= i < |gs| ==> gs[i] != []
    requires |gs| > 1 ==> gs[|gs| - 2][0].frameId != r.frameId
    ensures AddTo(gs[..|gs| - 1], r) == gs
  {
    assert gs == gs[..|gs| - 1] + [gs[|gs| - 1]];
  }

  lemma AddLonger(before: seq<seq<Request>>, last: seq<Request>, r: Request)
    requires |last| > 1 && last[|last| - 1] == r && last[0].frameId == r.frameId
    requires forall i :: 0 <= i < |before| ==> before[i] != []
    ensures AddTo(before + [last[..|last| - 1]], r) == before + [last]
  {
    var hs := before + [last[..|last| - 1]];
    assert hs[..|hs| - 1] == before && last == last[..|last| - 1] + [r];
  }

  /** Taking the last request out of its group undoes its arrival. */
  lemma Peel(gs: seq<seq<Request>>, reqs: seq<Request>) returns (hs: seq<seq<Request>>)
    requires gs != [] && MaximalRuns(gs, reqs)
    ensures reqs != [] && MaximalRuns(hs, reqs[..|reqs| - 1])
    ensures (forall i :: 0 <= i < |hs| ==> hs[i] != []) && AddTo(hs, reqs[|reqs| - 1]) == gs
  {
    var k, last := |gs| - 1, gs[|gs| - 1];
    assert last != [] && last[|last| - 1].frameId == last[0].frameId;
    assert forall i :: 0 <= i < |gs| ==> gs[i] != [];
    hide MaximalRuns, AddTo;
    if |last| == 1 {
      DropLast(gs, reqs);
      hs := gs[..k];
      AddSingle(gs, reqs[|reqs| - 1]);
    } else {
      DropFromLast(gs, reqs);
      hs := gs[..k] + [last[..|last| - 1]];
      AddLonger(gs[..k], last, reqs[|reqs| - 1]);
      assert gs == gs[..k] + [last];
    }
  }

  /** There is only one such partition. */
  lemma {:induction false} MaximalRunsUnique(gs: seq<seq<Request>>, reqs: seq<Request>)
    requires MaximalRuns(gs, reqs)
    ensures gs == Groups(reqs)
    decreases |reqs|
  {
    if gs != [] {
      hide MaximalRuns, AddTo;
      var hs := Peel(gs, reqs);
      MaximalRunsUnique(hs, reqs[..|reqs| - 1]);
    }
  }

  function Observations(g: seq<Request>): (os: seq<Observation>)
    ensures |os| == |g|
  {
    seq(|g|, i requires 0 <= i < |g| => g[i].observation)
  }

  /** The bridge after a series of groups: each group but the last has been flushed, at the
      arrival of the next one; the last is still being collected. */
  ghost function Collected(b: Memory, gs: seq<seq<Request>>, cfg: Config): Memory
    requires forall i :: 0 <= i < |gs| ==> gs[i] != []
  {
    if gs == [] then b
    else
      var k := |gs| - 1;
      var start := if k == 0 then b else Flushed(Collected(b, gs[..k], cfg), gs[k][0].now, cfg);
      ObservedAll(start, Observations(gs[k]), cfg)
  }

  lemma ObserveOne(b: Memory, r: Request, cfg: Config)
    ensures ObservedAll(b, Observations([r]), cfg) == Observed(b, r.observation, cfg)
  {
    hide Observed;
    var os := Observations([r]);
    assert os[..|os| - 1] == [] && os[|os| - 1] == r.observation;
    assert ObservedAll(b, os[..|os| - 1], cfg) == b;
  }

  lemma ObserveNext(b: Memory, g: seq<Request>, r: Request, cfg: Config)
    ensures ObservedAll(b, Observations(g + [r]), cfg) ==
      Observed(ObservedAll(b, Observations(g), cfg), r.observation, cfg)
  {
    hide Observed;
    var os := Observations(g + [r]);
    assert os[..|os| - 1] == Observations(g) && os[|os| - 1] == r.observation;
  }

  /** Where the last group of `gs + [g]` starts collecting. */
  ghost function Base(b: Memory, gs: seq<seq<Request>>, g: seq<Request>, cfg: Config): Memory
    requires g != [] && forall i :: 0 <= i < |gs| ==> gs[i] != []
  {
    if gs == [] then b else Flushed(Collected(b, gs, cfg), g[0].now, cfg)
  }

  /** What is published while the groups arrive: one decision per finished group, taken when the
      next one begins. */
  ghost function Decisions(b: Memory, gs: seq<seq<Request>>, cfg: Config): (ds: seq<Tx.Decision>)
    requires forall i :: 0 <= i < |gs| ==> gs[i] != []
    ensures |ds| == if gs == [] then 0 else |gs| - 1
  {
    var k := |gs| - 1;
    if k <= 0 then []
    else Decisions(b, gs[..k], cfg) + [DecisionAt(Collected(b, gs[..k], cfg), gs[k][0], cfg)]
  }

  /** The decision that request `r` triggers for the frame collected so far. */
  ghost function DecisionAt(b: Memory, r: Request, cfg: Config): Tx.Decision
  {
    Tx.Decision(Flushed(b, r.now, cfg).state, r.now, r.up)
  }

  lemma DecisionsFirst(b: Memory, gs: seq<seq<Request>>, r: Request, cfg: Config)
    requires forall i :: 0 <= i < |gs| ==> gs[i] != []
    ensures Decisions(b, gs + [[r]], cfg)
         == Decisions(b, gs, cfg) + if gs == [] then [] else [DecisionAt(Collected(b, gs, cfg), r, cfg)]
  {
    hide DecisionAt, Collected;
    assert (gs + [[r]])[..|gs|] == gs;
  }

  lemma DecisionsNext(b: Memory, gs: seq<seq<Request>>, r: Request, cfg: Config)
    requires gs != [] && forall i :: 0 <= i < |gs| ==> gs[i] != []
    ensures Decisions(b, gs[..|gs| - 1] + [gs[|gs| - 1] + [r]], cfg) == Decisions(b, gs, cfg)
  {
    hide DecisionAt, Collected;
    var k := |gs| - 1;
    assert (gs[..k] + [gs[k] + [r]])[..k] == gs[..k];
  }

  lemma CollectLast(b: Memory, gs: seq<seq<Request>>, g: seq<Request>, cfg: Config)
    requires g != [] && forall i :: 0 <= i < |gs| ==> gs[i] != []
    ensures Collected(b, gs + [g], cfg) == ObservedAll(Base(b, gs, g, cfg), Observations(g), cfg)
  {
    hide Flushed, ObservedAll;
    assert (gs + [g])[..|gs|] == gs;
  }

  lemma CollectFirst(b: Memory, gs: seq<seq<Request>>, r: Request, cfg: Config)
    requires forall i :: 0 <= i < |gs| ==> gs[i] != []
    ensures Collected(b, gs + [[r]], cfg) ==
      Observed(if gs == [] then b else Flushed(Collected(b, gs, cfg), r.now, cfg), r.observation, cfg)
  {
    hide Flushed, Observed, Collected, ObservedAll;
    CollectLast(b, gs, [r], cfg);
    ObserveOne(Base(b, gs, [r], cfg), r, cfg);
  }

  lemma CollectNext(b: Memory, gs: seq<seq<Request>>, r: Request, cfg: Config)
    requires gs != [] && forall i :: 0 <= i < |gs| ==> gs[i] != []
    ensures Collected(b, gs[..|gs| - 1] + [gs[|gs| - 1] + [r]], cfg) ==
      Observed(Collected(b, gs, cfg), r.observation, cfg)
  {
    hide Flushed, Observed, Collected, ObservedAll;
    var k := |gs| - 1;
    var before, g := gs[..k], gs[k];
    assert gs == before + [g];
    CollectLast(b, before, g, cfg);
    CollectLast(b, before, g + [r], cfg);
    assert (g + [r])[0] == g[0];
    ObserveNext(Base(b, before, g, cfg), g, r, cfg);
  }

  lemma {:induction false} ServedPrefix(reqs: seq<Request>, n: nat)
    requires n <= |reqs| && forall i :: 0 <= i < n - 1 ==> reqs[i].sent
    requires n == |reqs| || (n > 0 && !reqs[n - 1].sent)
    ensures Served(reqs) == n
  {
    if n > 1 || (n == 1 && reqs[0].sent) {
      ServedPrefix(reqs[1..], n - 1);
    }
  }

  /** The bridge once the first `n` requests of the connection have been handled. */
  ghost function Progress(start: Memory, reqs: seq<Request>, n: nat, cfg: Config): Memory
    requires n <= |reqs|
  {
    Collected(start, Groups(reqs[..n]), cfg)
  }

  predicate NewFrame(reqs: seq<Request>, n: nat)
    requires n < |reqs|
  {
    n > 0 && reqs[n].frameId != reqs[n - 1].frameId
  }

  lemma ProgressStart(start: Memory, reqs: seq<Request>, cfg: Config)
    ensures Progress(start, reqs, 0, cfg) == start
  {
  }

  lemma ProgressStep(start: Memory, reqs: seq<Request>, n: nat, cfg: Config)
    requires n < |reqs|
    ensures var c := Progress(start, reqs, n, cfg);
      Progress(start, reqs, n + 1, cfg)
        == Observed(if NewFrame(reqs, n) then Flushed(c, reqs[n].now, cfg) else c, reqs[n].observation, cfg)
  {
    hide Flushed, Observed, Collected;
    var gs, r := Groups(reqs[..n]), reqs[n];
    assert reqs[..n + 1][..n] == reqs[..n];
    if n > 0 && r.frameId == reqs[n - 1].frameId {
      CollectNext(start, gs, r, cfg);
    } else {
      CollectFirst(start, gs, r, cfg);
      if n == 0 { ProgressStart(start, reqs, cfg); }
    }
  }

  lemma DecisionStep(start: Memory, reqs: seq<Request>, n: nat, cfg: Config)
    requires n < |reqs|
    ensures Decisions(start, Groups(reqs[..n + 1]), cfg) == Decisions(start, Groups(reqs[..n]), cfg)
      + if NewFrame(reqs, n) then [DecisionAt(Progress(start, reqs, n, cfg), reqs[n], cfg)] else []
  {
    hide DecisionAt, Collected, Decisions;
    var gs, r := Groups(reqs[..n]), reqs[n];
    assert reqs[..n + 1][..n] == reqs[..n];
    if n > 0 && r.frameId == reqs[n - 1].frameId {
      DecisionsNext(start, gs, r, cfg);
      assert Decisions(start, gs, cfg) + [] == Decisions(start, gs, cfg);
    } else {
      DecisionsFirst(start, gs, r, cfg);
    }
  }

  function Acts(ps: seq<Period>): seq<Tx.Act>
  {
    seq(|ps|, i requires 0 <= i < |ps| => Tx.Period(ps[i].now, ps[i].up))
  }

  /** Everything that happens to the sender while the first `n` requests are handled: its periods,
      and a decision wherever a new frame begins. */
  ghost function Script(start: Memory, reqs: seq<Request>, n: nat, cfg: Config): seq<Tx.Act>
    requires n <= |reqs|
  {
    if n == 0 then []
    else
      Script(start, reqs, n - 1, cfg) + Acts(reqs[n - 1].periods)
      + if NewFrame(reqs, n - 1) then [Tx.Decide(DecisionAt(Progress(start, reqs, n - 1, cfg), reqs[n - 1], cfg))]
        else []
  }

  function DecisionsIn(acts: seq<Tx.Act>): seq<Tx.Decision>
  {
    if acts == [] then []
    else
      DecisionsIn(acts[..|acts| - 1]) + if acts[|acts| - 1].Decide? then [acts[|acts| - 1].d] else []
  }

  lemma {:induction false} DecisionsInBoth(a: seq<Tx.Act>, b: seq<Tx.Act>)
    ensures DecisionsIn(a + b) == DecisionsIn(a) + DecisionsIn(b)
  {
    if b == [] {
      assert a + b == a;
    } else {
      DecisionsInBoth(a, b[..|b| - 1]);
      assert (a + b)[..|a + b| - 1] == a + b[..|b| - 1];
    }
  }

  lemma {:induction false} PeriodsDecideNothing(ps: seq<Period>)
    ensures DecisionsIn(Acts(ps)) == []
  {
    if ps != [] {
      PeriodsDecideNothing(ps[..|ps| - 1]);
      assert Acts(ps)[..|ps| - 1] == Acts(ps[..|ps| - 1]);
    }
  }

  /** Leaving out the periods, a connection publishes one decision per finished group. */
  lemma {:induction false} ScriptDecides(start: Memory, reqs: seq<Request>, n: nat, cfg: Config)
    requires n <= |reqs|
    ensures DecisionsIn(Script(start, reqs, n, cfg)) == Decisions(start, Groups(reqs[..n]), cfg)
  {
    hide DecisionAt, Decisions, Progress, NewFrame, Groups;
    if n == 0 {
      NoDecisionsYet(start, reqs, cfg);
    } else {
      ScriptDecides(start, reqs, n - 1, cfg);
      DecisionStep(start, reqs, n - 1, cfg);
      hide Acts, DecisionsIn;
      AddingDecides(Script(start, reqs, n - 1, cfg), reqs[n - 1].periods, NewFrame(reqs, n - 1),
                    DecisionAt(Progress(start, reqs, n - 1, cfg), reqs[n - 1], cfg));
    }
  }

  lemma AddingDecides(acts: seq<Tx.Act>, ps: seq<Period>, decides: bool, d: Tx.Decision)
    ensures DecisionsIn(acts + Acts(ps) + if decides then [Tx.Decide(d)] else [])
         == DecisionsIn(acts) + if decides then [d] else []
  {
    hide Acts;
    PeriodsDecideNothing(ps);
    DecisionsInBoth(acts, Acts(ps));
    DecisionsInBoth(acts + Acts(ps), [Tx.Decide(d)]);
    assert [Tx.Decide(d)][..0] == [];
    assert acts + Acts(ps) + [] == acts + Acts(ps);
  }

  lemma NoActs(acts: seq<Tx.Act>, ps: seq<Period>)
    ensures acts + Acts(ps[..0]) == acts
  {
  }

  lemma OneAct(acts: seq<Tx.Act>, ps: seq<Period>, i: nat)
    requires i < |ps|
    ensures (acts + Acts(ps[..i])) + [Tx.Period(ps[i].now, ps[i].up)] == acts + Acts(ps[..i + 1])
  {
  }

  /** The sender's own thread between two moments of this one. */
  method LetSenderRun(bridge: Bridge, ps: seq<Period>, ghost before: Tx.Before, ghost acts: seq<Tx.Act>)
    requires bridge.Valid() && Tx.DoneSince(bridge.transmitter, before, acts)
    modifies bridge.transmitter, bridge.transmitter.port
    ensures bridge.Valid() && bridge.Value() == old(bridge.Value())
    ensures Tx.DoneSince(bridge.transmitter, before, acts + Acts(ps))
  {
    ghost var b := bridge.Value();
    hide Bridge.Valid, Bridge.Value, Tx.DoneSince, Acts;
    NoActs(acts, ps);
    for i := 0 to |ps|
      invariant bridge.Valid() && bridge.Value() == b
      invariant Tx.DoneSince(bridge.transmitter, before, acts + Acts(ps[..i]))
    {
      OnePeriod(bridge, ps[i], before, acts + Acts(ps[..i]));
      OneAct(acts, ps, i);
    }
    assert ps[..|ps|] == ps;
  }

  method OnePeriod(bridge: Bridge, p: Period, ghost before: Tx.Before, ghost acts: seq<Tx.Act>)
    requires bridge.Valid() && Tx.DoneSince(bridge.transmitter, before, acts)
    modifies bridge.transmitter, bridge.transmitter.port
    ensures bridge.Valid() && bridge.Value() == old(bridge.Value())
    ensures Tx.DoneSince(bridge.transmitter, before, acts + [Tx.Period(p.now, p.up)])
  {
    hide Frame, Tx.ActedAll, Tx.WrittenBy;
    var _ := bridge.transmitter.Tick(p.now, p.up);
    Tx.OneMore(before.memory, acts, Tx.Period(p.now, p.up), bridge.transmitter.config);
  }

  /** Flush the finished frame if there is one, and collect the request. */
  method HandleRequest(bridge: Bridge, r: Request, finished: bool, ghost before: Tx.Before, ghost acts: seq<Tx.Act>)
    requires bridge.Valid() && Tx.DoneSince(bridge.transmitter, before, acts)
    modifies bridge, bridge.latch, bridge.pending, bridge.transmitter, bridge.transmitter.port
    ensures bridge.Valid()
    ensures bridge.Value() == Observed(if finished then Flushed(old(bridge.Value()), r.now, bridge.config)
                                       else old(bridge.Value()), r.observation, bridge.config)
    ensures Tx.DoneSince(bridge.transmitter, before,
              acts + Acts(r.periods)
              + if finished then [Tx.Decide(DecisionAt(old(bridge.Value()), r, bridge.config))] else [])
  {
    hide Flushed, Observed, DecisionAt, Tx.DoneSince, Acts;
    LetSenderRun(bridge, r.periods, before, acts);
    if finished {
      FlushOnce(bridge, r, before, acts + Acts(r.periods));
    }
    hide Bridge.Value;
    assert acts + Acts(r.periods) + [] == acts + Acts(r.periods);
    CollectRequest(bridge, r);
  }

  /** The collecting half, which does not touch the sender. */
  method CollectRequest(bridge: Bridge, r: Request)
    requires bridge.Valid()
    modifies bridge, bridge.pending
    ensures bridge.Valid() && bridge.Value() == Observed(old(bridge.Value()), r.observation, bridge.config)
  {
    bridge.AddObservation(r.observation);
  }

  method FlushOnce(bridge: Bridge, r: Request, ghost before: Tx.Before, ghost acts: seq<Tx.Act>)
    requires bridge.Valid() && Tx.DoneSince(bridge.transmitter, before, acts)
    modifies bridge, bridge.latch, bridge.transmitter, bridge.transmitter.port
    ensures bridge.Valid() && bridge.Value() == Flushed(old(bridge.Value()), r.now, bridge.config)
    ensures Tx.DoneSince(bridge.transmitter, before,
                         acts + [Tx.Decide(DecisionAt(old(bridge.Value()), r, bridge.config))])
  {
    hide Flushed, Frame, Tx.ActedAll, Tx.WrittenBy, Tx.Published;
    bridge.FlushFrame(r.now, r.up);
    Tx.OneMore(before.memory, acts, Tx.Decide(Tx.Decision(bridge.state, r.now, r.up)), bridge.transmitter.config);
    assert bridge.state == bridge.Value().state;
  }

  method StopOnce(bridge: Bridge, now: nat, up: bool, ghost before: Tx.Before, ghost acts: seq<Tx.Act>)
    requires bridge.Valid() && Tx.DoneSince(bridge.transmitter, before, acts)
    modifies bridge, bridge.transmitter, bridge.transmitter.port
    ensures bridge.Valid() && bridge.Value() == ForcedStop(old(bridge.Value()))
    ensures Tx.DoneSince(bridge.transmitter, before, acts + [Tx.Decide(Tx.Decision(Stop, now, up))])
    ensures bridge.transmitter.published == Stop
  {
    hide Frame, Tx.ActedAll, Tx.WrittenBy;
    bridge.ForceStop(now, up);
    Tx.OneMore(before.memory, acts, Tx.Decide(Tx.Decision(Stop, now, up)), bridge.transmitter.config);
  }

  /** After the first `n` requests: the bridge, and everything done to the sender so far. */
  ghost predicate Handled(bridge: Bridge, start: Memory, before: Tx.Before, reqs: seq<Request>, n: nat)
    requires bridge.Valid() && n <= |reqs|
    reads bridge, bridge.latch, bridge.transmitter, bridge.transmitter.port, bridge.pending
  {
    && bridge.Value() == Progress(start, reqs, n, bridge.config)
    && Tx.DoneSince(bridge.transmitter, before, Script(start, reqs, n, bridge.config))
  }

  method HandleNext(bridge: Bridge, reqs: seq<Request>, n: nat, finished: bool, ghost start: Memory,
                    ghost before: Tx.Before)
    requires bridge.Valid() && n < |reqs| && finished == NewFrame(reqs, n) && Handled(bridge, start, before, reqs, n)
    modifies bridge, bridge.latch, bridge.pending, bridge.transmitter, bridge.transmitter.port
    ensures bridge.Valid() && Handled(bridge, start, before, reqs, n + 1)
  {
    hide Flushed, Observed, Bridge.Valid, Bridge.Value, DecisionAt, Progress, Tx.DoneSince, Acts;
    ProgressStep(start, reqs, n, bridge.config);
    HandleRequest(bridge, reqs[n], finished, before, Script(start, reqs, n, bridge.config));
  }

  /** One connection, from accept to disconnect, with the sender's periods in between: the bridge it
      leaves, and everything the sender is told and writes, which is the script of its requests
      followed by the last periods and the forced Stop. */
  method ServeConnection(bridge: Bridge, reqs: seq<Request>, last: seq<Period>, endNow: nat, endUp: bool)
    requires bridge.Valid()
    modifies bridge, bridge.latch, bridge.pending, bridge.transmitter, bridge.transmitter.port
    ensures bridge.Valid()
    ensures bridge.Value() == ForcedStop(Collected(old(bridge.Value()), Groups(reqs[..Served(reqs)]), bridge.config))
    ensures bridge.transmitter.published == Stop
    ensures Tx.DoneSince(bridge.transmitter, old(Tx.Now(bridge.transmitter)),
              Script(old(bridge.Value()), reqs, Served(reqs), bridge.config) + Acts(last)
              + [Tx.Decide(Tx.Decision(Stop, endNow, endUp))])
  {
    hide Bridge.Valid, Bridge.Value, Served, ForcedStop, Script, Collected, Groups, Tx.DoneSince, Acts;
    var haveCurrentFrame, currentFrameId := false, 0;
    var n := 0;
    ghost var start, before := bridge.Value(), Tx.Now(bridge.transmitter);
    ProgressStart(start, reqs, bridge.config);
    NothingYet(bridge, start, reqs);
    while n < |reqs|
      invariant n <= |reqs| && bridge.Valid() && (forall i :: 0 <= i < n ==> reqs[i].sent)
      invariant haveCurrentFrame <==> n > 0
      invariant n > 0 ==> currentFrameId == reqs[n - 1].frameId
      invariant Handled(bridge, start, before, reqs, n)
    {
      hide Handled;
      var r := reqs[n];
      var finished := haveCurrentFrame && r.frameId != currentFrameId;
      if !haveCurrentFrame {
        currentFrameId, haveCurrentFrame := r.frameId, true;
      } else if finished {
        currentFrameId := r.frameId;
      }
      HandleNext(bridge, reqs, n, finished, start, before);
      n := n + 1;
      if !r.sent { break; }
    }
    ServedPrefix(reqs, n);
    LetSenderRun(bridge, last, before, Script(start, reqs, n, bridge.config));
    StopOnce(bridge, endNow, endUp, before, Script(start, reqs, n, bridge.config) + Acts(last));
  }

  lemma NoDecisionsYet(start: Memory, reqs: seq<Request>, cfg: Config)
    ensures Decisions(start, Groups(reqs[..0]), cfg) == []
  {
  }

  lemma NothingYet(bridge: Bridge, start: Memory, reqs: seq<Request>)
    requires bridge.Valid()
    ensures Tx.DoneSince(bridge.transmitter, Tx.Now(bridge.transmitter), Script(start, reqs, 0, bridge.config))
  {
  }

  /** What the flush of group `k` judges: all of that frame's observations and no others. */
  lemma FlushSeesOneFrame(b: Memory, gs: seq<seq<Request>>, k: nat, cfg: Config)
    requires b.pending == [] && !b.backgroundSlow
    requires (forall i :: 0 <= i < |gs| ==> gs[i] != []) && k < |gs| && |gs[k]| <= MAX_DETECTIONS
    ensures var c, os := Collected(b, gs[..k + 1], cfg), Observations(gs[k]);
      c.pending == AddedAll(os, cfg) && c.backgroundSlow == exists i :: 0 <= i < |os| && Suspicious(os[i], cfg)
  {
    hide Suspicious, AddedAll, ObservedAll, Collected;
    assert gs[..k + 1] == gs[..k] + [gs[k]];
    CollectLast(b, gs[..k], gs[k], cfg);
    hide HL.Step, SignDeadline;
    FrameIsComplete(Base(b, gs[..k], gs[k], cfg), Observations(gs[k]), cfg);
  }

  lemma {:induction false} ObservingKeepsLatch(b: Memory, os: seq<Observation>, cfg: Config)
    ensures ObservedAll(b, os, cfg).latch == b.latch && ObservedAll(b, os, cfg).signUntil == b.signUntil
  {
    if os != [] { ObservingKeepsLatch(b, os[..|os| - 1], cfg); }
  }

  /** Nothing of an interrupted frame leaks: the last group never reaches the latch, and the next
      connection starts with an empty frame, no sign hold and the state Stop. */
  lemma LastFrameIsDropped(b: Memory, gs: seq<seq<Request>>, cfg: Config)
    requires gs != [] && forall i :: 0 <= i < |gs| ==> gs[i] != []
    ensures var f, k := ForcedStop(Collected(b, gs, cfg)), |gs| - 1;
      && f.pending == [] && !f.backgroundSlow && f.signUntil == 0 && f.state == Stop
      && f.latch == if k == 0 then b.latch else Flushed(Collected(b, gs[..k], cfg), gs[k][0].now, cfg).latch
  {
    var k := |gs| - 1;
    var c := if k == 0 then b else Flushed(Collected(b, gs[..k], cfg), gs[k][0].now, cfg);
    ObservingKeepsLatch(c, Observations(gs[k]), cfg);
  }

  // ---------------------------------------------------------------- connections as runs

  /** The flush that request `r` triggers. */
  function FlushEvent(c: Memory, r: Request): Event { Event.Flush(c.pending, c.backgroundSlow, r.now) }

  /** What a connection means for the bridge: a flush for every finished group. */
  ghost function ConnectionEvents(b: Memory, gs: seq<seq<Request>>, cfg: Config): (es: seq<Event>)
    requires forall i :: 0 <= i < |gs| ==> gs[i] != []
    ensures |es| == if gs == [] then 0 else |gs| - 1
  {
    var k := |gs| - 1;
    if k <= 0 then []
    else ConnectionEvents(b, gs[..k], cfg) + [FlushEvent(Collected(b, gs[..k], cfg), gs[k][0])]
  }

  lemma FlushIsEvent(past: seq<Event>, c: Memory, r: Request, cfg: Config)
    requires AfterEvents(past, cfg).latch == c.latch && AfterEvents(past, cfg).signUntil == c.signUntil
    ensures AfterEvents(past + [FlushEvent(c, r)], cfg) == Flushed(c, r.now, cfg)
  {
    hide HL.Step, SignSeen;
    assert (past + [FlushEvent(c, r)])[..|past|] == past;
  }

  /** Decision by decision, a connection extends the bridge's run: from any past on, its `i`-th
      decision is the state after its first `i + 1` flushes, and its end is a forced stop. */
  lemma {:induction false} ConnectionIsRun(past: seq<Event>, gs: seq<seq<Request>>, endNow: nat, cfg: Config)
    requires forall i :: 0 <= i < |gs| ==> gs[i] != []
    ensures var b := AfterEvents(past, cfg);
      var es, ds := ConnectionEvents(b, gs, cfg), Decisions(b, gs, cfg);
      && (forall i :: 0 <= i < |ds| ==> ds[i].state == AfterEvents(past + es[..i + 1], cfg).state)
      && AfterEvents(past + es + [Force(endNow)], cfg) == ForcedStop(Collected(b, gs, cfg))
  {
    hide Flushed, ForcedStop, ObservedAll, AfterEvents, Collected, FlushEvent, DecisionAt;
    var b := AfterEvents(past, cfg);
    var es, ds := ConnectionEvents(b, gs, cfg), Decisions(b, gs, cfg);
    LatchAndSigns(past, gs, cfg);
    forall i | 0 <= i < |ds| ensures ds[i].state == AfterEvents(past + es[..i + 1], cfg).state {
      DecisionIsEvent(past, gs, i, cfg);
    }
    EndIsForced(past + es, Collected(b, gs, cfg), endNow, cfg);
  }

  lemma EndIsForced(es: seq<Event>, c: Memory, endNow: nat, cfg: Config)
    requires AfterEvents(es, cfg).latch == c.latch
    ensures AfterEvents(es + [Force(endNow)], cfg) == ForcedStop(c)
  {
    assert (es + [Force(endNow)])[..|es|] == es;
  }

  /** Collecting a group moves neither the latch nor the sign hold, so both are where the flushes have
      left them. */
  lemma {:induction false} LatchAndSigns(past: seq<Event>, gs: seq<seq<Request>>, cfg: Config)
    requires forall i :: 0 <= i < |gs| ==> gs[i] != []
    ensures var b := AfterEvents(past, cfg);
      var a, c := AfterEvents(past + ConnectionEvents(b, gs, cfg), cfg), Collected(b, gs, cfg);
      a.latch == c.latch && a.signUntil == c.signUntil
  {
    hide Flushed, AfterEvents, ObservedAll, FlushEvent;
    var b, k := AfterEvents(past, cfg), |gs| - 1;
    var es := ConnectionEvents(b, gs, cfg);
    if k <= 0 {
      assert past + es == past;
      if k == 0 { ObservingKeepsLatch(b, Observations(gs[0]), cfg); }
    } else {
      var c := Collected(b, gs[..k], cfg);
      LatchAndSigns(past, gs[..k], cfg);
      FlushIsEvent(past + ConnectionEvents(b, gs[..k], cfg), c, gs[k][0], cfg);
      assert past + es == (past + ConnectionEvents(b, gs[..k], cfg)) + [FlushEvent(c, gs[k][0])];
      ObservingKeepsLatch(Flushed(c, gs[k][0].now, cfg), Observations(gs[k]), cfg);
    }
  }

  lemma {:induction false} DecisionIsEvent(past: seq<Event>, gs: seq<seq<Request>>, i: nat, cfg: Config)
    requires (forall n :: 0 <= n < |gs| ==> gs[n] != []) && i < |gs| - 1
    ensures var b := AfterEvents(past, cfg);
      Decisions(b, gs, cfg)[i].state == AfterEvents(past + ConnectionEvents(b, gs, cfg)[..i + 1], cfg).state
  {
    hide Flushed, AfterEvents, Collected, FlushEvent;
    var b, k := AfterEvents(past, cfg), |gs| - 1;
    var before, es := ConnectionEvents(b, gs[..k], cfg), ConnectionEvents(b, gs, cfg);
    if i < k - 1 {
      DecisionIsEvent(past, gs[..k], i, cfg);
      assert es[..i + 1] == before[..i + 1];
    } else {
      var c := Collected(b, gs[..k], cfg);
      LatchAndSigns(past, gs[..k], cfg);
      FlushIsEvent(past + before, c, gs[k][0], cfg);
      assert past + es[..i + 1] == (past + before) + [FlushEvent(c, gs[k][0])];
    }
  }

  /** Every decision a connection publishes is the more dangerous of the latch's answer to its frame
      and the Slow that the background and the signs of the run ask for. */
  lemma DecisionIsMaximum(past: seq<Event>, gs: seq<seq<Request>>, i: nat, cfg: Config)
    requires (forall n :: 0 <= n < |gs| ==> gs[n] != []) && i < |gs| - 1
    requires Ordered(past + ConnectionEvents(AfterEvents(past, cfg), gs, cfg))
    ensures var b := AfterEvents(past, cfg);
      var es := past + ConnectionEvents(b, gs, cfg)[..i + 1];
      && es[|es| - 1].Flush?
      && IsRaised(Decisions(b, gs, cfg)[i].state, LatchAnswer(es, cfg), AsksForSlow(es, cfg))
  {
    hide AfterEvents, LatchAnswer, AsksForSlow, Collected, IsRaised;
    var b := AfterEvents(past, cfg);
    var all := ConnectionEvents(b, gs, cfg);
    var es := past + all[..i + 1];
    OnlyFlushes(b, gs, i, cfg);
    assert es == (past + all)[..|past| + i + 1];
    DecisionIsEvent(past, gs, i, cfg);
    PublishedIsMaximum(es, cfg);
  }

  lemma {:induction false} OnlyFlushes(b: Memory, gs: seq<seq<Request>>, i: nat, cfg: Config)
    requires (forall n :: 0 <= n < |gs| ==> gs[n] != []) && i < |gs| - 1
    ensures ConnectionEvents(b, gs, cfg)[i].Flush?
  {
    hide Collected;
    if i < |gs| - 2 { OnlyFlushes(b, gs[..|gs| - 1], i, cfg); }
  }
}
