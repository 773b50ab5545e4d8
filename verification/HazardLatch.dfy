/** The event latch of SafetyHazardLatch.cpp: a Stop is held for a fixed time, after which the
    class that caused it is ignored until it has been away long enough. */
module HazardLatch {
  import opened SafetyJudge

  datatype Phase = Idle | Holding | Released

  datatype Config = Config(holdMs: nat, releaseFrames: nat, releaseMs: nat)

  /** The latch's memory. */
  datatype Memory = Memory(phase: Phase, latchedClass: int, holdUntil: nat, absentFrames: nat, absentSince: nat)

  const INITIAL := Memory(Idle, -1, 0, 0, 0)

  /** One judged frame and the clock reading that goes with it. */
  datatype Frame = Frame(items: seq<Record>, now: nat)

  predicate Held(m: Memory, now: nat) { m.phase == Holding && now < m.holdUntil }

  /** The hold time is over: the latch lets go and starts to watch for the class. */
  function Expire(m: Memory, now: nat): Memory
  {
    if m.phase == Holding then m.(phase := Released, absentFrames := 0, absentSince := now) else m
  }

  /** Both release conditions, frames and time, with this frame counted. */
  ghost predicate Unlatches(m: Memory, f: Frame, cfg: Config, judge: JudgeConfig)
  {
    && m.phase == Released && !Present(f.items, m.latchedClass, judge)
    && m.absentFrames + 1 >= cfg.releaseFrames
    && (cfg.releaseMs == 0 || (f.now >= m.absentSince && f.now - m.absentSince >= cfg.releaseMs))
  }

  /** Presence restarts the count; absence advances it and may end the event. */
  ghost function Watch(m: Memory, f: Frame, cfg: Config, judge: JudgeConfig): Memory
  {
    if m.phase != Released then m
    else if Present(f.items, m.latchedClass, judge) then m.(absentFrames := 0, absentSince := f.now)
    else if Unlatches(m, f, cfg, judge) then m.(phase := Idle, latchedClass := -1, absentFrames := m.absentFrames + 1)
    else m.(absentFrames := m.absentFrames + 1)
  }

  function Excluded(m: Memory): int { if m.phase == Released then m.latchedClass else -1 }

  function Trigger(m: Memory, f: Frame, cfg: Config, judge: JudgeConfig): (Memory, State)
  {
    var w := WorstOf(f.items, judge, Excluded(m));
    if w.level == Stop then (m.(phase := Holding, latchedClass := w.classId, holdUntil := f.now + cfg.holdMs), Stop)
    else (m, w.level)
  }

  /** One update, as a function of the memory. */
  ghost function Step(m: Memory, f: Frame, cfg: Config, judge: JudgeConfig): (Memory, State)
  {
    if Held(m, f.now) then (m, Stop)
    else Trigger(Watch(Expire(m, f.now), f, cfg, judge), f, cfg, judge)
  }

  class Latch {
    const config: Config
    var phase: Phase
    var latchedClass: int
    var holdUntilMs: nat
    var absentFrames: nat
    var absentSinceMs: nat
    var lastState: State

    function Value(): Memory
      reads this
    {
      Memory(phase, latchedClass, holdUntilMs, absentFrames, absentSinceMs)
    }

    constructor (config: Config)
      ensures Value() == INITIAL && lastState == Clear && this.config == config
      ensures phase == Idle && latchedClass == -1
    {
      this.config := config;
      phase, latchedClass, holdUntilMs, absentFrames, absentSinceMs, lastState := Idle, -1, 0, 0, 0, Clear;
    }

    method Reset()
      modifies this
      ensures Value() == INITIAL && lastState == Clear && phase == Idle && latchedClass == -1
    {
      phase, latchedClass, holdUntilMs, absentFrames, absentSinceMs, lastState := Idle, -1, 0, 0, 0, Clear;
    }

    method Update(items: seq<Record>, judge: JudgeConfig, now: nat) returns (s: State)
      modifies this
      ensures (Value(), s) == Step(old(Value()), Frame(items, now), config, judge)
      ensures lastState == s
    {
      hide JudgeOne, WorstOf, Present;
      if phase == Holding {
        if now < holdUntilMs {
          lastState := Stop;
          return lastState;
        }
        phase, absentFrames, absentSinceMs := Released, 0, now;
      }
      if phase == Released {
        var seen := ClassPresent(items, latchedClass, judge);
        if seen {
          absentFrames, absentSinceMs := 0, now;
        } else {
          absentFrames := absentFrames + 1;
          var framesOk := absentFrames >= config.releaseFrames;
          var timeOk := config.releaseMs == 0 || (now >= absentSinceMs && now - absentSinceMs >= config.releaseMs);
          if framesOk && timeOk {
            phase, latchedClass := Idle, -1;
          }
        }
      }
      var exclude := if phase == Released then latchedClass else -1;
      var worst, worstClass := JudgeWorst(items, judge, exclude);
      if worst == Stop {
        phase, latchedClass, holdUntilMs, lastState := Holding, worstClass, now + config.holdMs, Stop;
        return lastState;
      }
      lastState := worst;
      return lastState;
    }
  }

  // ---------------------------------------------------------------- runs

  /** The memory after the first `k` frames of a run that starts fresh. */
  ghost function After(run: seq<Frame>, k: nat, cfg: Config, judge: JudgeConfig): Memory
    requires k <= |run|
  {
    if k == 0 then INITIAL else Step(After(run, k - 1, cfg, judge), run[k - 1], cfg, judge).0
  }

  /** The state returned for frame `k`. */
  ghost function Output(run: seq<Frame>, k: nat, cfg: Config, judge: JudgeConfig): State
    requires k < |run|
  {
    Step(After(run, k, cfg, judge), run[k], cfg, judge).1
  }

  predicate Monotone(run: seq<Frame>)
  {
    forall i, j :: 0 <= i <= j < |run| ==> run[i].now <= run[j].now
  }

  /** The classes that can stop the robot have real class numbers. */
  predicate RealClasses(m: ClassMap) { m.car >= 0 && m.person >= 0 }

  /** Outside Idle the latched class is a car or person class, never a sign or the background. */
  ghost predicate Inv(m: Memory, judge: JudgeConfig)
  {
    if m.phase == Idle then m.latchedClass == -1 else CanStop(m.latchedClass, judge.classes)
  }

  lemma StepInv(m: Memory, f: Frame, cfg: Config, judge: JudgeConfig)
    requires Inv(m, judge)
    ensures Inv(Step(m, f, cfg, judge).0, judge)
  {
    if !Held(m, f.now) {
      var w := Watch(Expire(m, f.now), f, cfg, judge);
      WorstIsFirstMaximum(f.items, judge, Excluded(w));
      forall i | 0 <= i < |f.items| { StopIff(f.items[i], judge); }
    }
  }

  lemma {:induction false} RunInv(run: seq<Frame>, k: nat, cfg: Config, judge: JudgeConfig)
    requires k <= |run|
    ensures Inv(After(run, k, cfg, judge), judge)
  {
    if k > 0 {
      hide Step, Inv;
      RunInv(run, k - 1, cfg, judge);
      StepInv(After(run, k - 1, cfg, judge), run[k - 1], cfg, judge);
    } else {
      assert Inv(INITIAL, judge);
    }
  }

  // ---------------------------------------------------------------- non-interference

  predicate Benign(d: Record, judge: JudgeConfig)
  {
    IsSign(d.classId, judge.classes) || JudgeOne(d, judge) == Clear
  }

  /** The frame without its signs and without the records judged Clear. */
  function Erase(items: seq<Record>, judge: JudgeConfig): seq<Record>
  {
    if items == [] then []
    else
      var d := items[|items| - 1];
      Erase(items[..|items| - 1], judge) + if Benign(d, judge) then [] else [d]
  }

  lemma {:induction false} EraseKeepsStop(items: seq<Record>, judge: JudgeConfig, exclude: int)
    ensures var w, v := WorstOf(items, judge, exclude), WorstOf(Erase(items, judge), judge, exclude);
      (w.level == Stop <==> v.level == Stop) && (w.level == Stop ==> w.classId == v.classId)
  {
    if items != [] {
      var before := items[..|items| - 1];
      var d := items[|items| - 1];
      EraseKeepsStop(before, judge, exclude);
      if Benign(d, judge) {
        StopIff(d, judge);
        assert Erase(items, judge) == Erase(before, judge);
      } else {
        assert (Erase(before, judge) + [d])[..|Erase(before, judge)|] == Erase(before, judge);
      }
    }
  }

  lemma {:induction false} EraseKeepsPresence(items: seq<Record>, judge: JudgeConfig, target: int)
    requires CanStop(target, judge.classes)
    ensures Present(items, target, judge) <==> Present(Erase(items, judge), target, judge)
  {
    if items != [] {
      var before := items[..|items| - 1];
      var d := items[|items| - 1];
      EraseKeepsPresence(before, judge, target);
      PresentSnoc(items, target, judge);
      if !Benign(d, judge) {
        PresentSnoc(Erase(before, judge) + [d], target, judge);
        assert (Erase(before, judge) + [d])[..|Erase(before, judge)|] == Erase(before, judge);
      } else {
        assert Erase(items, judge) == Erase(before, judge);
      }
    }
  }

  lemma PresentSnoc(items: seq<Record>, target: int, judge: JudgeConfig)
    requires items != []
    ensures var d := items[|items| - 1];
      Present(items, target, judge) <==>
        Present(items[..|items| - 1], target, judge)
          || (target >= 0 && d.classId == target && JudgeOne(d, judge) != Clear)
  {
    hide JudgeOne;
    var n := |items| - 1;
    var before := items[..n];
    if i :| Shows(items, i, target, judge) && i < n {
      assert Shows(before, i, target, judge);
    }
    if i :| Shows(before, i, target, judge) {
      assert Shows(items, i, target, judge);
    }
    if target >= 0 && items[n].classId == target && JudgeOne(items[n], judge) != Clear {
      assert Shows(items, n, target, judge);
    }
  }

  /** Two frames at the same time that agree on the records that matter. */
  predicate SameHazards(f: Frame, g: Frame, judge: JudgeConfig)
  {
    f.now == g.now && Erase(f.items, judge) == Erase(g.items, judge)
  }

  lemma StepNonInterference(m: Memory, f: Frame, g: Frame, cfg: Config, judge: JudgeConfig)
    requires Inv(m, judge) && SameHazards(f, g, judge)
    ensures Step(m, f, cfg, judge).0 == Step(m, g, cfg, judge).0
    ensures Step(m, f, cfg, judge).1 == Stop <==> Step(m, g, cfg, judge).1 == Stop
  {
    hide WorstOf, Present, Erase;
    var e := Expire(m, f.now);
    if e.phase == Released {
      EraseKeepsPresence(f.items, judge, m.latchedClass);
      EraseKeepsPresence(g.items, judge, m.latchedClass);
    }
    var w := Watch(e, f, cfg, judge);
    EraseKeepsStop(f.items, judge, Excluded(w));
    EraseKeepsStop(g.items, judge, Excluded(w));
  }

  /** Signs and records judged Clear never influence the latch: two runs that differ only in
      them keep the same phase, latched class, deadline and counters, and stop together. */
  lemma {:induction false} NonInterference(run: seq<Frame>, other: seq<Frame>, k: nat, cfg: Config, judge: JudgeConfig)
    requires |run| == |other| && k <= |run|
    requires forall i :: 0 <= i < |run| ==> SameHazards(run[i], other[i], judge)
    ensures After(run, k, cfg, judge) == After(other, k, cfg, judge)
    ensures k < |run| ==> (Output(run, k, cfg, judge) == Stop <==> Output(other, k, cfg, judge) == Stop)
  {
    hide Step, SameHazards, Inv;
    if k > 0 {
      NonInterference(run, other, k - 1, cfg, judge);
      RunInv(run, k - 1, cfg, judge);
      StepNonInterference(After(run, k - 1, cfg, judge), run[k - 1], other[k - 1], cfg, judge);
    }
    if k < |run| {
      RunInv(run, k, cfg, judge);
      StepNonInterference(After(run, k, cfg, judge), run[k], other[k], cfg, judge);
    }
  }

  lemma {:induction false} EraseIdempotent(items: seq<Record>, judge: JudgeConfig)
    ensures Erase(Erase(items, judge), judge) == Erase(items, judge)
  {
    hide Benign;
    if items != [] {
      var d := items[|items| - 1];
      var before := Erase(items[..|items| - 1], judge);
      EraseIdempotent(items[..|items| - 1], judge);
      if Benign(d, judge) {
        assert before + [] == before;
      } else {
        assert (before + [d])[..|before|] == before;
      }
    }
  }

  /** The run with the signs and the Clear records taken out of every frame. */
  function Erased(run: seq<Frame>, judge: JudgeConfig): (r: seq<Frame>)
    ensures |r| == |run|
  {
    seq(|run|, i requires 0 <= i < |run| => Frame(Erase(run[i].items, judge), run[i].now))
  }

  /** Erasing all signs and all records judged Clear from every frame of a run changes neither the
      latch's memory at any point nor which updates return Stop. */
  lemma ErasedRunKeepsLatch(run: seq<Frame>, k: nat, cfg: Config, judge: JudgeConfig)
    requires k <= |run|
    ensures After(Erased(run, judge), k, cfg, judge) == After(run, k, cfg, judge)
    ensures k < |run| ==> (Output(Erased(run, judge), k, cfg, judge) == Stop <==> Output(run, k, cfg, judge) == Stop)
  {
    forall i | 0 <= i < |run| ensures SameHazards(Erased(run, judge)[i], run[i], judge) {
      EraseIdempotent(run[i].items, judge);
    }
    hide SameHazards, After, Step;
    NonInterference(Erased(run, judge), run, k, cfg, judge);
  }

  // ---------------------------------------------------------------- history

  /** Update `k` starts an event. */
  ghost predicate StartsEvent(run: seq<Frame>, k: nat, cfg: Config, judge: JudgeConfig)
  {
    && k < |run| && !Held(After(run, k, cfg, judge), run[k].now)
    && After(run, k + 1, cfg, judge).phase == Holding
  }

  lemma EventDeadline(run: seq<Frame>, k: nat, cfg: Config, judge: JudgeConfig)
    requires StartsEvent(run, k, cfg, judge)
    ensures Output(run, k, cfg, judge) == Stop && After(run, k + 1, cfg, judge).holdUntil == run[k].now + cfg.holdMs
  {
    hide WorstOf, Present;
  }

  /** After an event every update returns Stop until the hold time is over. */
  lemma {:induction false} EventHolds(run: seq<Frame>, k: nat, j: nat, cfg: Config, judge: JudgeConfig)
    requires Monotone(run) && StartsEvent(run, k, cfg, judge)
    requires k <= j < |run| && run[j].now < run[k].now + cfg.holdMs
    ensures Output(run, j, cfg, judge) == Stop && After(run, j + 1, cfg, judge) == After(run, k + 1, cfg, judge)
  {
    hide WorstOf, Present;
    EventDeadline(run, k, cfg, judge);
    if j > k {
      EventHolds(run, k, j - 1, cfg, judge);
    }
  }

  /** Frame `j` shows a box that stops the robot. */
  ghost predicate ShowsHazard(run: seq<Frame>, j: nat, judge: JudgeConfig)
    requires j < |run|
  {
    exists i :: 0 <= i < |run[j].items| && JudgeOne(run[j].items[i], judge) == Stop
  }

  lemma {:induction false} HoldHasCause(run: seq<Frame>, k: nat, cfg: Config, judge: JudgeConfig) returns (j: nat)
    requires k <= |run| && After(run, k, cfg, judge).phase == Holding
    ensures j < k && ShowsHazard(run, j, judge)
    ensures After(run, k, cfg, judge).holdUntil == run[j].now + cfg.holdMs
  {
    hide JudgeOne, WorstOf, Present;
    var m, f := After(run, k - 1, cfg, judge), run[k - 1];
    if Held(m, f.now) {
      j := HoldHasCause(run, k - 1, cfg, judge);
    } else {
      var w := Watch(Expire(m, f.now), f, cfg, judge);
      WorstIsFirstMaximum(f.items, judge, Excluded(w));
      j := k - 1;
    }
  }

  /** No Stop without a cause: every update that returns Stop sees a box that stops the robot, or is
      less than the hold time after a frame that showed one. */
  lemma StopHasCause(run: seq<Frame>, k: nat, cfg: Config, judge: JudgeConfig) returns (j: nat)
    requires k < |run| && Output(run, k, cfg, judge) == Stop
    ensures j <= k && ShowsHazard(run, j, judge)
    ensures j < k ==> run[k].now < run[j].now + cfg.holdMs
  {
    hide JudgeOne, WorstOf, Present;
    var m, f := After(run, k, cfg, judge), run[k];
    if Held(m, f.now) {
      j := HoldHasCause(run, k, cfg, judge);
    } else {
      var w := Watch(Expire(m, f.now), f, cfg, judge);
      WorstIsFirstMaximum(f.items, judge, Excluded(w));
      j := k;
    }
  }

  lemma {:induction false} IdleUntilStop(run: seq<Frame>, k: nat, cfg: Config, judge: JudgeConfig)
    requires k <= |run| && forall j :: 0 <= j < k ==> Output(run, j, cfg, judge) != Stop
    ensures After(run, k, cfg, judge) == INITIAL
  {
    hide WorstOf, Present;
    if k > 0 {
      IdleUntilStop(run, k - 1, cfg, judge);
      assert Output(run, k - 1, cfg, judge) != Stop;
    }
  }

  /** Coming closer never delays the first Stop: if every record of a frame is as near as in another
      run or nearer, the run has stopped by the time the other one does. */
  lemma CloserStopsNoLater(far: seq<Frame>, near: seq<Frame>, k: nat, cfg: Config, judge: JudgeConfig) returns (j: nat)
    requires |far| == |near| && k < |far| && Output(far, k, cfg, judge) == Stop
    requires forall i :: 0 <= i < |far| ==> CloserFrame(far[i], near[i])
    ensures j <= k && Output(near, j, cfg, judge) == Stop
  {
    hide After, WorstOf, Present, CloserFrame;
    j := 0;
    while Output(near, j, cfg, judge) != Stop && Output(far, j, cfg, judge) != Stop
      invariant j <= k && forall i :: 0 <= i < j ==>
        Output(near, i, cfg, judge) != Stop && Output(far, i, cfg, judge) != Stop
      decreases k - j
    {
      j := j + 1;
    }
    IdleUntilStop(far, j, cfg, judge);
    IdleUntilStop(near, j, cfg, judge);
    if Output(near, j, cfg, judge) != Stop { CloserFrames(far[j], near[j], judge); }
  }

  ghost predicate CloserFrame(f: Frame, g: Frame)
  {
    |f.items| == |g.items| && forall i :: 0 <= i < |f.items| ==> Closer(f.items[i], g.items[i])
  }

  lemma CloserFrames(f: Frame, g: Frame, judge: JudgeConfig)
    requires CloserFrame(f, g) && WorstOf(f.items, judge, -1).level == Stop
    ensures WorstOf(g.items, judge, -1).level == Stop
  {
    CloserFrameIsNotSafer(f.items, g.items, judge, -1);
  }

  /** Once released, the latched class alone never causes a Stop. */
  lemma ReleasedIgnoresItsClass(m: Memory, f: Frame, cfg: Config, judge: JudgeConfig)
    requires Inv(m, judge) && RealClasses(judge.classes)
    requires m.phase != Idle && !Held(m, f.now)
    requires forall i :: 0 <= i < |f.items| && JudgeOne(f.items[i], judge) == Stop ==>
      f.items[i].classId == m.latchedClass
    ensures Step(m, f, cfg, judge).1 != Stop
  {
    hide JudgeOne;
    var w := Watch(Expire(m, f.now), f, cfg, judge);
    var v := WorstOf(f.items, judge, Excluded(w));
    WorstIsFirstMaximum(f.items, judge, Excluded(w));
    forall i | 0 <= i < |f.items| && JudgeOne(f.items[i], judge) == Stop
      ensures Present(f.items, m.latchedClass, judge)
    {
      assert Shows(f.items, i, m.latchedClass, judge);
    }
  }

  /** The same without the assumption on class numbers: when every Stop record is of the latched
      class, and there is one, the update stops exactly if that class is below -1, so that it is
      never present, and is given up in this very update. */
  lemma LatchedClassStopsIff(m: Memory, f: Frame, cfg: Config, judge: JudgeConfig)
    requires m.phase != Idle && !Held(m, f.now)
    requires forall i :: 0 <= i < |f.items| && JudgeOne(f.items[i], judge) == Stop ==>
      f.items[i].classId == m.latchedClass
    requires exists i :: 0 <= i < |f.items| && JudgeOne(f.items[i], judge) == Stop
    ensures Step(m, f, cfg, judge).1 == Stop <==> m.latchedClass < -1 && Unlatches(Expire(m, f.now), f, cfg, judge)
  {
    hide JudgeOne;
    var w := Watch(Expire(m, f.now), f, cfg, judge);
    WorstIsFirstMaximum(f.items, judge, Excluded(w));
    forall i | 0 <= i < |f.items| && JudgeOne(f.items[i], judge) == Stop
      ensures m.latchedClass >= 0 ==> Present(f.items, m.latchedClass, judge)
    {
      if m.latchedClass >= 0 { assert Shows(f.items, i, m.latchedClass, judge); }
    }
  }

  /** Update `k` stops for records of the released class alone. */
  ghost predicate StopsForReleasedClass(run: seq<Frame>, k: nat, cfg: Config, judge: JudgeConfig)
    requires k < |run|
  {
    var m := After(run, k, cfg, judge);
    && m.phase != Idle && !Held(m, run[k].now) && Output(run, k, cfg, judge) == Stop
    && forall i :: 0 <= i < |run[k].items| ==> run[k].items[i].classId == m.latchedClass
  }

  /** Such a class number does cause a second Stop at once: the same record twice, no hold time and
      no absence asked for. */
  lemma NegativeClassStops()
    ensures exists run: seq<Frame>, cfg: Config, judge: JudgeConfig ::
      |run| == 2 && run[0] == run[1] && StartsEvent(run, 0, cfg, judge) && StopsForReleasedClass(run, 1, cfg, judge)
  {
    var judge := JudgeConfig(0.0, 1.0, 0.0, 0.5, 0.25, 0.1, 0.25, ClassMap(-2, 1, 2, 3, 4, -1));
    var d := Record(0.0, 0.0, 1.0, 1.0, 1.0, -2);
    var f, cfg := Frame([d], 0), Config(0, 0, 0);
    var run := [f, f];
    StopIff(d, judge);
    assert f.items[0] == d && f.items[..0] == [];
    assert WorstOf(f.items, judge, -1) == Verdict(Stop, -2);
    hide JudgeOne, WorstOf;
    assert After(run, 1, cfg, judge) == Memory(Holding, -2, 0, 0, 0) by { assert After(run, 0, cfg, judge) == INITIAL; }
    LatchedClassStopsIff(After(run, 1, cfg, judge), f, cfg, judge);
    assert StartsEvent(run, 0, cfg, judge) && StopsForReleasedClass(run, 1, cfg, judge);
  }

  /** Frame `p` is where the watch over the latched class last (re)started: the hold ended there
      or the class was seen there. Every later frame before `k` was without it. */
  ghost predicate WatchedSince(run: seq<Frame>, k: nat, p: nat, cfg: Config, judge: JudgeConfig)
    requires p < k <= |run|
  {
    var m, q := After(run, k, cfg, judge), After(run, p, cfg, judge);
    && q.phase != Idle && q.latchedClass == m.latchedClass && !Held(q, run[p].now)
    && (q.phase == Holding || Present(run[p].items, m.latchedClass, judge))
    && m.absentSince == run[p].now
    && (forall j :: p < j < k ==>
          After(run, j, cfg, judge).phase == Released && !Present(run[j].items, m.latchedClass, judge))
    && m.absentFrames == AbsentFrom(run, k, p, m.latchedClass, judge)
  }

  /** Number of frames without the class from `p` on, given that only `p` itself can show it. */
  ghost function AbsentFrom(run: seq<Frame>, k: nat, p: nat, target: int, judge: JudgeConfig): nat
    requires p < k <= |run|
  {
    if Present(run[p].items, target, judge) then k - p - 1 else k - p
  }

  lemma StaysReleased(m: Memory, f: Frame, cfg: Config, judge: JudgeConfig)
    requires Step(m, f, cfg, judge).0.phase == Released
    ensures var n := Step(m, f, cfg, judge).0;
      && !Held(m, f.now) && m.phase != Idle && n.latchedClass == m.latchedClass
      && n == Watch(Expire(m, f.now), f, cfg, judge)
  {
    hide WorstOf, Present;
  }

  lemma {:induction false} ReleasedHistory(run: seq<Frame>, k: nat, cfg: Config, judge: JudgeConfig) returns (p: nat)
    requires k <= |run| && After(run, k, cfg, judge).phase == Released
    ensures p < k && WatchedSince(run, k, p, cfg, judge)
  {
    hide Step, Present;
    var q, f := After(run, k - 1, cfg, judge), run[k - 1];
    StaysReleased(q, f, cfg, judge);
    p := k - 1;
    if q.phase == Released && !Present(f.items, q.latchedClass, judge) {
      p := ReleasedHistory(run, k - 1, cfg, judge);
    }
  }

  /** When an event ends. In Released, update `k` gives the class up exactly when it is absent and,
      since frame `p` (its last appearance or the end of the hold), it has been absent in at least
      max(1, release_frames) consecutive updates and release_ms have passed. */
  lemma UnlatchesIff(run: seq<Frame>, k: nat, cfg: Config, judge: JudgeConfig) returns (p: nat)
    requires k < |run| && Monotone(run) && After(run, k, cfg, judge).phase == Released
    ensures p < k && WatchedSince(run, k, p, cfg, judge)
    ensures var m := After(run, k, cfg, judge);
      Unlatches(m, run[k], cfg, judge) <==>
        && !Present(run[k].items, m.latchedClass, judge)
        && AbsentFrom(run, k + 1, p, m.latchedClass, judge) >= (if cfg.releaseFrames < 1 then 1 else cfg.releaseFrames)
        && run[k].now - run[p].now >= cfg.releaseMs
  {
    hide Step, Present;
    p := ReleasedHistory(run, k, cfg, judge);
  }

  /** Update `k` gives the latched class up. */
  ghost predicate EndsEvent(run: seq<Frame>, k: nat, cfg: Config, judge: JudgeConfig)
    requires k < |run|
  {
    var m := After(run, k, cfg, judge);
    !Held(m, run[k].now) && Unlatches(Expire(m, run[k].now), run[k], cfg, judge)
  }

  /** The watch that is open at update `k` was (re)started by update `p`: the hold was over there or
      the class was seen there, and no frame in between shows it. Says nothing of the counters. */
  ghost predicate WatchOpen(run: seq<Frame>, k: nat, p: nat, target: int, cfg: Config, judge: JudgeConfig)
    requires p <= k < |run|
  {
    var q := After(run, p, cfg, judge);
    && q.phase != Idle && q.latchedClass == target && !Held(q, run[p].now)
    && (q.phase == Holding || Present(run[p].items, target, judge))
    && (forall j :: p < j <= k ==> After(run, j, cfg, judge).phase == Released)
    && forall j :: p < j < k ==> !Present(run[j].items, target, judge)
  }

  /** Seen from the frames alone: the class is absent now and has been since the watch began, in at
      least max(1, release_frames) updates and for at least release_ms. */
  ghost predicate AwayLongEnough(run: seq<Frame>, k: nat, p: nat, target: int, cfg: Config, judge: JudgeConfig)
    requires p <= k < |run|
  {
    && WatchOpen(run, k, p, target, cfg, judge) && !Present(run[k].items, target, judge)
    && AbsentFrom(run, k + 1, p, target, judge) >= (if cfg.releaseFrames < 1 then 1 else cfg.releaseFrames)
    && run[k].now - run[p].now >= cfg.releaseMs
  }

  /** The counters follow from the watch. */
  lemma {:induction false} WatchCounters(run: seq<Frame>, k: nat, p: nat, target: int, cfg: Config, judge: JudgeConfig)
    requires p < k < |run| && WatchOpen(run, k, p, target, cfg, judge)
    ensures var m := After(run, k, cfg, judge);
      m.latchedClass == target && m.absentSince == run[p].now && m.absentFrames == AbsentFrom(run, k, p, target, judge)
  {
    hide Step, Present;
    var q, f := After(run, k - 1, cfg, judge), run[k - 1];
    assert After(run, k, cfg, judge).phase == Released;
    StaysReleased(q, f, cfg, judge);
    if p < k - 1 {
      WatchCounters(run, k - 1, p, target, cfg, judge);
    }
  }

  lemma HistoryIsWatch(run: seq<Frame>, k: nat, p: nat, cfg: Config, judge: JudgeConfig)
    requires p < k < |run| && WatchedSince(run, k, p, cfg, judge) && After(run, k, cfg, judge).phase == Released
    ensures WatchOpen(run, k, p, After(run, k, cfg, judge).latchedClass, cfg, judge)
  {
    hide Step, Present;
  }

  lemma EndsFromReleased(run: seq<Frame>, k: nat, p: nat, cfg: Config, judge: JudgeConfig)
    requires p < k < |run| && Monotone(run) && After(run, k, cfg, judge).phase == Released
    requires WatchOpen(run, k, p, After(run, k, cfg, judge).latchedClass, cfg, judge)
    ensures EndsEvent(run, k, cfg, judge) <==>
      AwayLongEnough(run, k, p, After(run, k, cfg, judge).latchedClass, cfg, judge)
  {
    WatchCounters(run, k, p, After(run, k, cfg, judge).latchedClass, cfg, judge);
    hide After, WatchOpen, Present;
  }

  lemma EndsFromHolding(run: seq<Frame>, k: nat, cfg: Config, judge: JudgeConfig)
    requires k < |run| && After(run, k, cfg, judge).phase == Holding
    ensures EndsEvent(run, k, cfg, judge) <==>
      AwayLongEnough(run, k, k, After(run, k, cfg, judge).latchedClass, cfg, judge)
  {
    hide After, Present;
  }

  /** There is no way back to Idle but giving up the class. */
  lemma IdleOnlyByUnlatching(m: Memory, f: Frame, cfg: Config, judge: JudgeConfig)
    requires m.phase != Idle && Step(m, f, cfg, judge).0.phase == Idle
    ensures !Held(m, f.now) && Unlatches(Expire(m, f.now), f, cfg, judge)
  {
    hide WorstOf, Present;
  }

  lemma BackToIdleIff(run: seq<Frame>, k: nat, cfg: Config, judge: JudgeConfig)
    requires k < |run| && After(run, k, cfg, judge).phase != Idle
    ensures After(run, k + 1, cfg, judge).phase == Idle
       <==> EndsEvent(run, k, cfg, judge) && Output(run, k, cfg, judge) != Stop
  {
    hide WorstOf, Present;
    var m, f := After(run, k, cfg, judge), run[k];
    if Step(m, f, cfg, judge).0.phase == Idle { IdleOnlyByUnlatching(m, f, cfg, judge); }
  }

  /** When an event ends, over every run and every phase: exactly when the class has been away long
      enough since some update that opened the watch, be it an earlier one or, when the hold ends
      here, this one. The latch is Idle again exactly then, unless the same update starts the next
      event. */
  lemma EventEndsIff(run: seq<Frame>, k: nat, cfg: Config, judge: JudgeConfig)
    requires k < |run| && Monotone(run) && After(run, k, cfg, judge).phase != Idle
    ensures EndsEvent(run, k, cfg, judge)
       <==> exists p: nat :: p <= k && AwayLongEnough(run, k, p, After(run, k, cfg, judge).latchedClass, cfg, judge)
    ensures After(run, k + 1, cfg, judge).phase == Idle
       <==> EndsEvent(run, k, cfg, judge) && Output(run, k, cfg, judge) != Stop
  {
    hide Step, Present, Unlatches, EndsEvent;
    BackToIdleIff(run, k, cfg, judge);
    var target := After(run, k, cfg, judge).latchedClass;
    if After(run, k, cfg, judge).phase == Holding {
      EndsFromHolding(run, k, cfg, judge);
    } else {
      var p := ReleasedHistory(run, k, cfg, judge);
      HistoryIsWatch(run, k, p, cfg, judge);
      EndsFromReleased(run, k, p, cfg, judge);
      if r: nat :| r <= k && AwayLongEnough(run, k, r, target, cfg, judge) {
        EndsFromReleased(run, k, r, cfg, judge);
      }
    }
  }

  // ---------------------------------------------------------------- what every update answers

  /** The class that update `k` ignores: the one being watched, unless this update gives it up. */
  ghost function Ignored(run: seq<Frame>, k: nat, cfg: Config, judge: JudgeConfig): int
    requires k < |run|
  {
    var m := After(run, k, cfg, judge);
    if m.phase == Idle || EndsEvent(run, k, cfg, judge) then -1 else m.latchedClass
  }

  /** Record `i` of frame `k` is judged `level` and is not of the ignored class. */
  ghost predicate Asks(run: seq<Frame>, k: nat, i: int, level: State, cfg: Config, judge: JudgeConfig)
    requires k < |run|
  {
    && 0 <= i < |run[k].items| && run[k].items[i].classId != Ignored(run, k, cfg, judge)
    && JudgeOne(run[k].items[i], judge) == level
  }

  lemma WatchedIgnores(run: seq<Frame>, k: nat, cfg: Config, judge: JudgeConfig)
    requires k < |run| && !Held(After(run, k, cfg, judge), run[k].now)
    ensures var m, f := After(run, k, cfg, judge), run[k];
      var w := Watch(Expire(m, f.now), f, cfg, judge);
      && Excluded(w) == Ignored(run, k, cfg, judge)
      && w.phase == (if m.phase == Idle || EndsEvent(run, k, cfg, judge) then Idle else Released)
      && w.latchedClass == (if EndsEvent(run, k, cfg, judge) then -1 else m.latchedClass)
  {
    hide After, Present;
  }

  lemma AnswerIsWorst(run: seq<Frame>, k: nat, cfg: Config, judge: JudgeConfig)
    requires k < |run| && !Held(After(run, k, cfg, judge), run[k].now)
    ensures Output(run, k, cfg, judge) == WorstOf(run[k].items, judge, Ignored(run, k, cfg, judge)).level
    ensures Output(run, k, cfg, judge) == Stop ==>
      var n := After(run, k + 1, cfg, judge);
      && n.phase == Holding && n.holdUntil == run[k].now + cfg.holdMs
      && n.latchedClass == WorstOf(run[k].items, judge, Ignored(run, k, cfg, judge)).classId
    ensures Output(run, k, cfg, judge) != Stop ==>
      var m, n := After(run, k, cfg, judge), After(run, k + 1, cfg, judge);
      if m.phase == Idle || EndsEvent(run, k, cfg, judge) then n.phase == Idle
      else n.phase == Released && n.latchedClass == m.latchedClass
  {
    hide WorstOf, Present, Watch, EndsEvent, Ignored;
    WatchedIgnores(run, k, cfg, judge);
  }

  /** Every update outside a hold, over every run: the answer is the worst of what the records ask for
      whose class is not ignored. It is Stop exactly when one of them is judged Stop, and then it starts
      an event for the class of the first of these, from which it holds for the hold time; otherwise the
      latch is Idle unless it still watches the same class. */
  lemma AnswerIs(run: seq<Frame>, k: nat, cfg: Config, judge: JudgeConfig)
    requires k < |run|
    requires var m := After(run, k, cfg, judge); !(m.phase == Holding && run[k].now < m.holdUntil)
    ensures var s := Output(run, k, cfg, judge);
      && (forall i, level :: Asks(run, k, i, level, cfg, judge) ==> Level(level) <= Level(s))
      && (s == Clear || exists i :: Asks(run, k, i, s, cfg, judge))
    ensures Output(run, k, cfg, judge) == Stop <==> exists i :: Asks(run, k, i, Stop, cfg, judge)
    ensures Output(run, k, cfg, judge) == Stop <==> StartsEvent(run, k, cfg, judge)
    ensures Output(run, k, cfg, judge) == Stop ==>
      exists i :: (
        && Asks(run, k, i, Stop, cfg, judge) && (forall j :: 0 <= j < i ==> !Asks(run, k, j, Stop, cfg, judge))
        && After(run, k + 1, cfg, judge).latchedClass == run[k].items[i].classId
        && After(run, k + 1, cfg, judge).holdUntil == run[k].now + cfg.holdMs)
    ensures Output(run, k, cfg, judge) != Stop ==>
      var m, n := After(run, k, cfg, judge), After(run, k + 1, cfg, judge);
      if m.phase == Idle || EndsEvent(run, k, cfg, judge) then n.phase == Idle
      else n.phase == Released && n.latchedClass == m.latchedClass
  {
    AnswerIsWorst(run, k, cfg, judge);
    hide After, Output, WorstOf, JudgeOne, Ignored, EndsEvent;
    WorstIsFirstMaximum(run[k].items, judge, Ignored(run, k, cfg, judge));
    var s, items := Output(run, k, cfg, judge), run[k].items;
    if s != Clear {
      var i :| 0 <= i < |items| && items[i].classId != Ignored(run, k, cfg, judge) && JudgeOne(items[i], judge) == s
               && items[i].classId == WorstOf(items, judge, Ignored(run, k, cfg, judge)).classId
               && forall j :: 0 <= j < i && items[j].classId != Ignored(run, k, cfg, judge) ==>
                    Level(JudgeOne(items[j], judge)) < Level(s);
      assert Asks(run, k, i, s, cfg, judge);
    }
  }
}
