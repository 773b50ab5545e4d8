/** The asymmetric debounce of SafetyDebounce.cpp: danger is taken over at once, relief only after
    an unbroken run of safer answers that is long enough in frames and in time. */
module Debounce {
  import opened SafetyJudge

  datatype Config = Config(releaseFrames: nat, releaseHoldMs: nat)

  datatype Memory = Memory(state: State, pending: State, pendingFrames: nat, pendingSince: nat)

  const INITIAL := Memory(Stop, Stop, 0, 0)

  datatype Raw = Raw(state: State, now: nat)

  function Step(m: Memory, r: Raw, cfg: Config): Memory
  {
    if Level(r.state) >= Level(m.state) then Memory(r.state, r.state, 0, r.now)
    else if r.state != m.pending then m.(pending := r.state, pendingFrames := 1, pendingSince := r.now)
    else if m.pendingFrames + 1 >= cfg.releaseFrames && Elapsed(m, r.now) >= cfg.releaseHoldMs then
      Memory(m.pending, m.pending, 0, r.now)
    else m.(pendingFrames := m.pendingFrames + 1)
  }

  function Elapsed(m: Memory, now: nat): nat { if now >= m.pendingSince then now - m.pendingSince else 0 }

  class Filter {
    const config: Config
    var state: State
    var pending: State
    var pendingFrames: nat
    var pendingSince: nat

    function Value(): Memory
      reads this
    {
      Memory(state, pending, pendingFrames, pendingSince)
    }

    constructor (config: Config)
      ensures Value() == INITIAL && this.config == config && state == Stop
    {
      this.config := config;
      state, pending, pendingFrames, pendingSince := Stop, Stop, 0, 0;
    }

    method Reset()
      modifies this
      ensures Value() == INITIAL && state == Stop
    {
      state, pending, pendingFrames, pendingSince := Stop, Stop, 0, 0;
    }

    method Update(raw: State, now: nat) returns (s: State)
      modifies this
      ensures Value() == Step(old(Value()), Raw(raw, now), config) && s == state
      ensures Level(raw) >= Level(old(state)) ==> s == raw
      ensures Level(raw) < Level(old(state)) ==>
        var drops := raw == old(pending) && old(pendingFrames) + 1 >= config.releaseFrames &&
          (config.releaseHoldMs == 0 || now >= old(pendingSince) + config.releaseHoldMs);
        s == if drops then raw else old(state)
    {
      if Level(raw) > Level(state) {
        state, pending, pendingFrames, pendingSince := raw, raw, 0, now;
        return state;
      }
      if raw == state {
        pending, pendingFrames, pendingSince := state, 0, now;
        return state;
      }
      if raw != pending {
        pending, pendingFrames, pendingSince := raw, 1, now;
        return state;
      }
      pendingFrames := pendingFrames + 1;
      var enoughFrames := pendingFrames >= config.releaseFrames;
      var elapsed := if now >= pendingSince then now - pendingSince else 0;
      var enoughTime := elapsed >= config.releaseHoldMs;
      if enoughFrames && enoughTime {
        state, pendingFrames, pendingSince := pending, 0, now;
      }
      return state;
    }
  }

  /** The filter after the first `k` raw states of a run. */
  function After(run: seq<Raw>, k: nat, cfg: Config): Memory
    requires k <= |run|
  {
    if k == 0 then INITIAL else Step(After(run, k - 1, cfg), run[k - 1], cfg)
  }

  predicate Monotone(run: seq<Raw>)
  {
    forall i, j :: 0 <= i <= j < |run| ==> run[i].now <= run[j].now
  }

  /** The candidate is never more dangerous than the state, and counts nothing exactly when it is
      the state itself. */
  predicate Inv(m: Memory)
  {
    Level(m.pending) <= Level(m.state) && (m.pendingFrames == 0 <==> m.pending == m.state)
  }

  /** The last `n` raw states before `k` are all `r`. */
  predicate TrailingRun(run: seq<Raw>, k: nat, n: nat, r: State)
    requires n <= k <= |run|
  {
    forall i :: k - n <= i < k ==> run[i].state == r
  }

  /** The candidate's counters describe the run of raw states that ends at `k`: it is as long as
      counted, started at the noted time, the output did not change during it, and the raw state
      before it (or the state then taken over) was a different one. */
  predicate Explained(run: seq<Raw>, k: nat, cfg: Config)
    requires k <= |run|
  {
    var m := After(run, k, cfg);
    && Inv(m) && m.pendingFrames <= k && (k > 0 ==> m.pending == run[k - 1].state)
    && TrailingRun(run, k, m.pendingFrames, m.pending)
    && (m.pendingFrames > 0 ==>
         && m.pendingSince == run[k - m.pendingFrames].now
         && (forall i :: k - m.pendingFrames <= i <= k ==> After(run, i, cfg).state == m.state)
         && (k - m.pendingFrames > 0 ==> run[k - m.pendingFrames - 1].state != m.pending))
  }

  /** In every run: the invariant, the meaning of the counters, and an output that is never below
      the current raw state. */
  lemma {:induction false} RunExplained(run: seq<Raw>, k: nat, cfg: Config)
    requires k <= |run|
    ensures Explained(run, k, cfg)
    ensures k > 0 ==> Level(After(run, k, cfg).state) >= Level(run[k - 1].state)
  {
    if k > 0 { RunExplained(run, k - 1, cfg); }
  }

  /** Raw states `s` to `k` agree, are at least max(2, release_frames) in number and last at least
      release_hold_ms. */
  predicate LongRun(run: seq<Raw>, s: nat, k: nat, cfg: Config)
    requires s <= k < |run|
  {
    && (forall i :: s <= i <= k ==> run[i].state == run[k].state)
    && k - s + 1 >= (if cfg.releaseFrames < 2 then 2 else cfg.releaseFrames)
    && run[k].now - run[s].now >= cfg.releaseHoldMs
  }

  /** The output follows a more dangerous raw state at once. It drops to a safer one exactly when
      such a run of that state ends here, and otherwise stays. */
  lemma DropsIff(run: seq<Raw>, k: nat, cfg: Config)
    requires k < |run| && Monotone(run)
    ensures var before, after, raw := After(run, k, cfg).state, After(run, k + 1, cfg).state, run[k].state;
      if Level(raw) >= Level(before) then after == raw
      else if exists s :: 0 <= s <= k && LongRun(run, s, k, cfg) then after == raw
      else after == before
  {
    RunExplained(run, k, cfg);
    var m, raw := After(run, k, cfg), run[k].state;
    if Level(raw) < Level(m.state) {
      if s :| 0 <= s <= k && LongRun(run, s, k, cfg) {
        assert run[k - 1].state == raw;
        var start := k - m.pendingFrames;
        assert start <= s;
        assert run[start].now <= run[s].now;
      } else if raw == m.pending {
        assert !LongRun(run, k - m.pendingFrames, k, cfg);
      }
    }
  }
}
