/** What one frame's detections mean for the robot (SafetyJudge.cpp). Box coordinates, scores and
    thresholds are reals. */
module SafetyJudge {
  datatype State = Clear | Slow | Stop

  /** The wire order: a larger number is more dangerous. */
  function Level(s: State): (n: nat)
    ensures n <= 2
  {
    match s
    case Clear => 0
    case Slow => 1
    case Stop => 2
  }

  function Worse(a: State, b: State): State
  {
    if Level(b) > Level(a) then b else a
  }

  datatype Record = Record(x1: real, y1: real, x2: real, y2: real, score: real, classId: int)

  datatype ClassMap = ClassMap(car: int, person: int, signWarning: int, signProhibition: int, signMandatory: int,
                               background: int)

  datatype JudgeConfig = JudgeConfig(zoneXMin: real, zoneXMax: real, zoneYMin: real, stopHeight: real,
                                     slowHeight: real, signSlowWidth: real, minScore: real, classes: ClassMap)

  predicate IsHazard(classId: int, m: ClassMap) { classId == m.car || classId == m.person }

  predicate IsSign(classId: int, m: ClassMap)
  {
    classId == m.signWarning || classId == m.signProhibition || classId == m.signMandatory
  }

  predicate IsBackground(classId: int, m: ClassMap) { m.background >= 0 && classId == m.background }

  /** A class that can make the robot stop. */
  predicate CanStop(classId: int, m: ClassMap)
  {
    IsHazard(classId, m) && !IsSign(classId, m) && !IsBackground(classId, m)
  }

  function JudgeOne(d: Record, c: JudgeConfig): State
  {
    if IsBackground(d.classId, c.classes) then Clear
    else if !IsSign(d.classId, c.classes) && !IsHazard(d.classId, c.classes) then Clear
    else if d.score < c.minScore then Clear
    else if d.y2 - d.y1 <= 0.0 || d.x2 <= d.x1 then Clear
    else if IsSign(d.classId, c.classes) then JudgeSign(d.x2 - d.x1, c)
    else JudgeHazard((d.x1 + d.x2) * 0.5, d.y2, d.y2 - d.y1, c)
  }

  /** Signs are judged by width alone, at any place in the picture. */
  function JudgeSign(width: real, c: JudgeConfig): State
  {
    if width >= c.signSlowWidth then Slow else Clear
  }

  /** Cars and persons count only in the corridor ahead, by height. */
  function JudgeHazard(centerX: real, bottom: real, height: real, c: JudgeConfig): State
  {
    if centerX < c.zoneXMin || centerX > c.zoneXMax then Clear
    else if bottom < c.zoneYMin then Clear
    else if height >= c.stopHeight then Stop
    else if height >= c.slowHeight then Slow
    else Clear
  }

  /** Exactly which boxes stop the robot. */
  lemma StopIff(d: Record, c: JudgeConfig)
    ensures JudgeOne(d, c) == Stop <==>
      && (d.classId == c.classes.car || d.classId == c.classes.person)
      && d.classId != c.classes.signWarning && d.classId != c.classes.signProhibition
      && d.classId != c.classes.signMandatory && !(c.classes.background >= 0 && d.classId == c.classes.background)
      && d.score >= c.minScore && d.x1 < d.x2 && d.y1 < d.y2
      && c.zoneXMin <= (d.x1 + d.x2) * 0.5 <= c.zoneXMax && d.y2 >= c.zoneYMin && d.y2 - d.y1 >= c.stopHeight
  {
  }

  /** Exactly which boxes slow it down: wide enough signs anywhere, and cars or persons on the path
      that are near but not yet near enough to stop. */
  lemma SlowIff(d: Record, c: JudgeConfig)
    ensures JudgeOne(d, c) == Slow <==>
      && !(c.classes.background >= 0 && d.classId == c.classes.background)
      && d.score >= c.minScore && d.x1 < d.x2 && d.y1 < d.y2
      && if d.classId == c.classes.signWarning || d.classId == c.classes.signProhibition
            || d.classId == c.classes.signMandatory then d.x2 - d.x1 >= c.signSlowWidth
         else && (d.classId == c.classes.car || d.classId == c.classes.person)
              && c.zoneXMin <= (d.x1 + d.x2) * 0.5 <= c.zoneXMax && d.y2 >= c.zoneYMin
              && c.slowHeight <= d.y2 - d.y1 < c.stopHeight
  {
  }

  /** The same object come closer: a box of the same class about the same axis that is no smaller, no
      higher up and no less certain. */
  predicate Closer(d: Record, e: Record)
  {
    && e.classId == d.classId && e.score >= d.score && e.x1 + e.x2 == d.x1 + d.x2 && e.y2 >= d.y2
    && e.x2 - e.x1 >= d.x2 - d.x1 && e.y2 - e.y1 >= d.y2 - d.y1
  }

  lemma CloserIsNotSafer(d: Record, e: Record, c: JudgeConfig)
    requires Closer(d, e)
    ensures Level(JudgeOne(e, c)) >= Level(JudgeOne(d, c))
  {
    StopIff(d, c); StopIff(e, c); SlowIff(d, c); SlowIff(e, c);
    assert e.y2 >= d.y2;
    hide JudgeOne;
  }

  /** The worst level of a frame and the class of the first record that reaches it. */
  datatype Verdict = Verdict(level: State, classId: int)

  function WorstOf(items: seq<Record>, c: JudgeConfig, exclude: int): Verdict
  {
    if items == [] then Verdict(Clear, -1)
    else
      var w := WorstOf(items[..|items| - 1], c, exclude);
      var d := items[|items| - 1];
      if d.classId != exclude && Level(JudgeOne(d, c)) > Level(w.level) then Verdict(JudgeOne(d, c), d.classId) else w
  }

  /** The verdict is the maximum over the records that are not excluded, and names the first of
      them that attains it. */
  lemma {:induction false} WorstIsFirstMaximum(items: seq<Record>, c: JudgeConfig, exclude: int)
    ensures var w := WorstOf(items, c, exclude);
      && (forall i :: 0 <= i < |items| && items[i].classId != exclude ==>
          Level(JudgeOne(items[i], c)) <= Level(w.level))
      && (if w.level == Clear then w.classId == -1
          else exists i :: 0 <= i < |items| && items[i].classId != exclude && items[i].classId == w.classId
                           && JudgeOne(items[i], c) == w.level
                           && forall j :: 0 <= j < i && items[j].classId != exclude ==>
                              Level(JudgeOne(items[j], c)) < Level(w.level))
  {
    hide JudgeOne;
    if items != [] {
      var n := |items| - 1;
      var before := items[..n];
      WorstIsFirstMaximum(before, c, exclude);
      assert forall i :: 0 <= i < n ==> before[i] == items[i];
      var w, v := WorstOf(items, c, exclude), WorstOf(before, c, exclude);
      if w == v && v.level != Clear {
        var i :| 0 <= i < |before| && before[i].classId != exclude && before[i].classId == v.classId
                 && JudgeOne(before[i], c) == v.level
                 && forall j :: 0 <= j < i && before[j].classId != exclude ==>
                    Level(JudgeOne(before[j], c)) < Level(v.level);
        assert items[i].classId == w.classId;
      } else if w != v {
        assert items[n].classId == w.classId;
      }
    }
  }

  /** Coming closer is never judged safer, whatever else is in the frame. */
  lemma {:induction false} CloserFrameIsNotSafer(far: seq<Record>, near: seq<Record>, c: JudgeConfig, exclude: int)
    requires |far| == |near| && forall i :: 0 <= i < |far| ==> Closer(far[i], near[i])
    ensures Level(WorstOf(near, c, exclude).level) >= Level(WorstOf(far, c, exclude).level)
  {
    hide JudgeOne, Closer;
    if far != [] {
      var n := |far| - 1;
      CloserFrameIsNotSafer(far[..n], near[..n], c, exclude);
      CloserIsNotSafer(far[n], near[n], c);
      assert far[n].classId == near[n].classId by { SameClass(far[n], near[n]); }
    }
  }

  lemma SameClass(d: Record, e: Record)
    requires Closer(d, e)
    ensures d.classId == e.classId
  {
  }

  lemma {:induction false} WorstExtend(items: seq<Record>, c: JudgeConfig, exclude: int, n: nat)
    requires n <= |items| && WorstOf(items[..n], c, exclude).level == Stop
    ensures WorstOf(items, c, exclude) == WorstOf(items[..n], c, exclude)
  {
    if n < |items| {
      assert items[..|items| - 1][..n] == items[..n];
      WorstExtend(items[..|items| - 1], c, exclude, n);
    } else {
      assert items[..n] == items;
    }
  }

  /** judgeWorst: stops looking at the first Stop. */
  method JudgeWorst(items: seq<Record>, c: JudgeConfig, exclude: int) returns (worst: State, outClass: int)
    ensures Verdict(worst, outClass) == WorstOf(items, c, exclude)
    ensures forall i :: 0 <= i < |items| && items[i].classId != exclude ==> Level(JudgeOne(items[i], c)) <= Level(worst)
    ensures worst == Clear ==> outClass == -1
    ensures worst != Clear ==>
      exists i :: (
        && 0 <= i < |items| && items[i].classId != exclude && items[i].classId == outClass
        && JudgeOne(items[i], c) == worst
        && forall j :: 0 <= j < i && items[j].classId != exclude ==> Level(JudgeOne(items[j], c)) < Level(worst))
  {
    hide JudgeOne;
    WorstIsFirstMaximum(items, c, exclude);
    worst, outClass := Clear, -1;
    for i := 0 to |items|
      invariant worst != Stop && Verdict(worst, outClass) == WorstOf(items[..i], c, exclude)
    {
      assert items[..i + 1][..i] == items[..i];
      if items[i].classId == exclude { continue; }
      var level := JudgeOne(items[i], c);
      if level == Stop {
        worst, outClass := Stop, items[i].classId;
        WorstExtend(items, c, exclude, i + 1);
        return;
      }
      if Level(level) > Level(worst) {
        worst, outClass := level, items[i].classId;
      }
    }
    assert items[..|items|] == items;
  }

  ghost predicate Shows(items: seq<Record>, i: int, target: int, c: JudgeConfig)
  {
    0 <= i < |items| && items[i].classId == target && JudgeOne(items[i], c) != Clear
  }

  /** The class is seen by some record that passes the gates. */
  ghost predicate Present(items: seq<Record>, target: int, c: JudgeConfig)
  {
    target >= 0 && exists i :: Shows(items, i, target, c)
  }

  lemma PresentIff(items: seq<Record>, target: int, c: JudgeConfig)
    ensures Present(items, target, c) <==>
      target >= 0 && exists i :: 0 <= i < |items| && items[i].classId == target && JudgeOne(items[i], c) != Clear
  {
    hide JudgeOne;
    if i :| 0 <= i < |items| && items[i].classId == target && JudgeOne(items[i], c) != Clear {
      assert Shows(items, i, target, c);
    }
  }

  method ClassPresent(items: seq<Record>, target: int, c: JudgeConfig) returns (found: bool)
    ensures found == Present(items, target, c)
    ensures found <==>
      target >= 0 && exists i :: 0 <= i < |items| && items[i].classId == target && JudgeOne(items[i], c) != Clear
  {
    PresentIff(items, target, c);
    if target < 0 { return false; }
    for i := 0 to |items|
      invariant forall j :: 0 <= j < i ==> !Shows(items, j, target, c)
    {
      if items[i].classId == target && JudgeOne(items[i], c) != Clear {
        assert Shows(items, i, target, c);
        return true;
      }
    }
    return false;
  }
}
