/** Greedy non-maximum suppression: the early-stopping loop of RoiProposer.cpp against the
    reference that computes everything and truncates (decode_reference.py). Floats are reals. */
module Nms {
  datatype Box = Box(x1: real, y1: real, x2: real, y2: real, score: real)

  datatype Candidate = Candidate(frameId: nat, roiId: nat, x: real, y: real, width: real, height: real,
                                 objectness: real)

  function Min(a: real, b: real): real { if b < a then b else a }

  function Max(a: real, b: real): real { if b > a then b else a }

  function Area(b: Box): real { (b.x2 - b.x1) * (b.y2 - b.y1) }

  function Intersection(a: Box, b: Box): real
  {
    Max(0.0, Min(a.x2, b.x2) - Max(a.x1, b.x1)) * Max(0.0, Min(a.y2, b.y2) - Max(a.y1, b.y1))
  }

  function Quotient(inter: real, denominator: real): real
  {
    if denominator > 0.0 then inter / denominator else 0.0
  }

  function Iou(a: Box, b: Box): real
  {
    Quotient(Intersection(a, b), Area(a) + Area(b) - Intersection(a, b))
  }

  predicate Overlap(a: Box, b: Box, threshold: real) { Iou(a, b) > threshold }

  predicate Proper(b: Box) { b.x2 > b.x1 && b.y2 > b.y1 }

  /** Length of what two intervals have in common; 0 when they are apart. */
  function Common(lo1: real, hi1: real, lo2: real, hi2: real): real
  {
    var lo, hi := if lo1 < lo2 then lo2 else lo1, if hi1 < hi2 then hi1 else hi2;
    if lo < hi then hi - lo else 0.0
  }

  /** The area of a w x h rectangle. */
  function Extent(w: real, h: real): real { w * h }

  /** In coordinates: the common area exceeds `t` times the area covered by either box. Two boxes that
      cover nothing have an overlap of 0. */
  predicate CoversTooMuch(a: Box, b: Box, t: real)
  {
    var common := Extent(Common(a.x1, a.x2, b.x1, b.x2), Common(a.y1, a.y2, b.y1, b.y2));
    var covered := Extent(a.x2 - a.x1, a.y2 - a.y1) + Extent(b.x2 - b.x1, b.y2 - b.y1) - common;
    if covered > 0.0 then common > t * covered else t < 0.0
  }

  lemma QuotientExceeds(a: real, d: real, t: real)
    requires d > 0.0
    ensures a / d > t <==> a > t * d
  {
    assert (a / d) * d == a;
    if a / d > t { assert (a / d - t) * d > 0.0; } else { assert (t - a / d) * d >= 0.0; }
  }

  /** Whether two boxes suppress each other, for all boxes and thresholds. */
  lemma OverlapIff(a: Box, b: Box, t: real)
    ensures Overlap(a, b, t) <==> CoversTooMuch(a, b, t)
  {
    var w, h := Common(a.x1, a.x2, b.x1, b.x2), Common(a.y1, a.y2, b.y1, b.y2);
    CommonIs(a.x1, a.x2, b.x1, b.x2);
    CommonIs(a.y1, a.y2, b.y1, b.y2);
    hide Max, Min, Common;
    assert Intersection(a, b) == Extent(w, h);
    assert Area(a) == Extent(a.x2 - a.x1, a.y2 - a.y1) && Area(b) == Extent(b.x2 - b.x1, b.y2 - b.y1);
    hide Intersection, Area, Extent;
    var covered := Area(a) + Area(b) - Intersection(a, b);
    if covered > 0.0 { QuotientExceeds(Extent(w, h), covered, t); }
  }

  /** Two boxes with an area cover some of the plane, so the test for them is on the common area alone. */
  lemma ProperOverlapIff(a: Box, b: Box, t: real)
    requires a.x1 < a.x2 && a.y1 < a.y2 && b.x1 < b.x2 && b.y1 < b.y2
    ensures var common := Extent(Common(a.x1, a.x2, b.x1, b.x2), Common(a.y1, a.y2, b.y1, b.y2));
      Overlap(a, b, t) <==>
        common > t * (Extent(a.x2 - a.x1, a.y2 - a.y1) + Extent(b.x2 - b.x1, b.y2 - b.y1) - common)
  {
    hide Overlap, Common, Extent;
    OverlapIff(a, b, t);
    var w, h := Common(a.x1, a.x2, b.x1, b.x2), Common(a.y1, a.y2, b.y1, b.y2);
    CommonFits(a.x1, a.x2, b.x1, b.x2);
    CommonFits(a.y1, a.y2, b.y1, b.y2);
    SmallerRectangle(w, h, a.x2 - a.x1, a.y2 - a.y1);
    PositiveArea(b.x2 - b.x1, b.y2 - b.y1);
  }

  lemma CommonFits(lo1: real, hi1: real, lo2: real, hi2: real)
    requires lo1 < hi1 && lo2 < hi2
    ensures 0.0 <= Common(lo1, hi1, lo2, hi2) <= hi1 - lo1
  {
  }

  lemma SmallerRectangle(w: real, h: real, a: real, b: real)
    requires 0.0 <= w <= a && 0.0 <= h <= b
    ensures Extent(w, h) <= Extent(a, b)
  {
    assert w * h <= a * h;
    assert a * h <= a * b;
  }

  lemma PositiveArea(a: real, b: real)
    requires a > 0.0 && b > 0.0
    ensures Extent(a, b) > 0.0
  {
  }

  lemma CommonIs(lo1: real, hi1: real, lo2: real, hi2: real)
    ensures Max(0.0, Min(hi1, hi2) - Max(lo1, lo2)) == Common(lo1, hi1, lo2, hi2)
  {
  }

  lemma MinMaxCommute(a: real, b: real)
    ensures Min(a, b) == Min(b, a) && Max(a, b) == Max(b, a)
  {
  }

  lemma IouSymmetric(a: Box, b: Box)
    ensures Iou(a, b) == Iou(b, a)
  {
    hide Max, Min, Area, Quotient;
    MinMaxCommute(a.x1, b.x1);
    MinMaxCommute(a.y1, b.y1);
    MinMaxCommute(a.x2, b.x2);
    MinMaxCommute(a.y2, b.y2);
    assert Intersection(a, b) == Intersection(b, a);
    hide Intersection;
  }

  // ---------------------------------------------------------------- the reference

  /** The boxes of `bs` that do not overlap `b` too much. */
  function Survivors(b: Box, bs: seq<Box>, threshold: real): (r: seq<Box>)
    ensures |r| <= |bs|
  {
    if bs == [] then []
    else (if Overlap(b, bs[0], threshold) then [] else [bs[0]]) + Survivors(b, bs[1..], threshold)
  }

  /** Keep the best box, drop everything it overlaps, and go on with the rest. */
  function Reference(bs: seq<Box>, threshold: real): (r: seq<Box>)
    ensures |r| <= |bs|
    decreases |bs|
  {
    if bs == [] then [] else [bs[0]] + Reference(Survivors(bs[0], bs[1..], threshold), threshold)
  }

  function Pick(bs: seq<Box>, indices: seq<nat>): (r: seq<Box>)
    requires forall k :: 0 <= k < |indices| ==> indices[k] < |bs|
    ensures |r| == |indices|
  {
    seq(|indices|, k requires 0 <= k < |indices| => bs[indices[k]])
  }

  lemma PickSnoc(bs: seq<Box>, indices: seq<nat>, i: nat)
    requires (forall k :: 0 <= k < |indices| ==> indices[k] < |bs|) && i < |bs|
    ensures Pick(bs, indices + [i]) == Pick(bs, indices) + [bs[i]]
  {
  }

  lemma PickHead(bs: seq<Box>, indices: seq<nat>)
    requires indices != [] && forall k :: 0 <= k < |indices| ==> indices[k] < |bs|
    ensures Pick(bs, indices) == [bs[indices[0]]] + Pick(bs, indices[1..])
  {
  }

  lemma ReferenceHead(b: Box, rest: seq<Box>, threshold: real)
    ensures Reference([b] + rest, threshold) == [b] + Reference(Survivors(b, rest, threshold), threshold)
  {
    hide Survivors;
    assert ([b] + rest)[1..] == rest;
  }

  lemma SurvivorsHead(b: Box, c: Box, rest: seq<Box>, threshold: real)
    ensures Survivors(b, [c] + rest, threshold)
         == (if Overlap(b, c, threshold) then [] else [c]) + Survivors(b, rest, threshold)
  {
    hide Overlap;
    assert ([c] + rest)[1..] == rest;
  }

  ghost predicate Indices(bs: seq<Box>, indices: seq<nat>)
  {
    forall k :: 0 <= k < |indices| ==> indices[k] < |bs|
  }

  /** What is kept already and what will be kept of the rest make up the reference's answer. */
  ghost predicate KeptSoFar(bs: seq<Box>, keep: seq<nat>, order: seq<nat>, threshold: real)
  {
    && Indices(bs, keep) && Indices(bs, order)
    && Pick(bs, keep) + Reference(Pick(bs, order), threshold) == Reference(bs, threshold)
  }

  lemma KeepHead(bs: seq<Box>, keep: seq<nat>, order: seq<nat>, remaining: seq<nat>, threshold: real)
    requires order != [] && KeptSoFar(bs, keep, order, threshold) && Indices(bs, remaining)
    requires Pick(bs, remaining) == Survivors(bs[order[0]], Pick(bs, order[1..]), threshold)
    ensures KeptSoFar(bs, keep + [order[0]], remaining, threshold)
  {
    var b := bs[order[0]];
    PickHead(bs, order);
    ReferenceHead(b, Pick(bs, order[1..]), threshold);
    PickSnoc(bs, keep, order[0]);
    hide Pick, Survivors, Reference;
    var r := Reference(Pick(bs, remaining), threshold);
    assert Pick(bs, keep) + ([b] + r) == (Pick(bs, keep) + [b]) + r;
  }

  /** _nms: works on index lists and rebuilds the remaining one in every turn. */
  method ReferenceNms(bs: seq<Box>, threshold: real) returns (keep: seq<nat>)
    ensures forall k :: 0 <= k < |keep| ==> keep[k] < |bs|
    ensures Pick(bs, keep) == Reference(bs, threshold)
    ensures exists idx: seq<nat> :: Selects(bs, idx, threshold) && Pick(bs, keep) == Pick(bs, idx)
  {
    ghost var idx := GreedySelects(bs, threshold);
    GreedyIsReference(bs, threshold);
    hide Selects;
    keep := [];
    var order: seq<nat> := seq(|bs|, i => i);
    assert Pick(bs, order) == bs && Pick(bs, keep) + Reference(bs, threshold) == Reference(bs, threshold);
    hide Survivors;
    while order != []
      invariant Indices(bs, order) && KeptSoFar(bs, keep, order, threshold)
      decreases |order|
    {
      hide KeptSoFar;
      var remaining := Remaining(bs, order[0], order[1..], threshold);
      KeepHead(bs, keep, order, remaining, threshold);
      keep := keep + [order[0]];
      order := remaining;
    }
    assert Pick(bs, keep) + [] == Pick(bs, keep);
  }

  ghost predicate RebuiltSoFar(bs: seq<Box>, i: nat, others: seq<nat>, n: nat, remaining: seq<nat>, threshold: real)
  {
    && i < |bs| && n <= |others| && Indices(bs, others) && Indices(bs, others[n..]) && Indices(bs, remaining)
    && Pick(bs, remaining) + Survivors(bs[i], Pick(bs, others[n..]), threshold) ==
       Survivors(bs[i], Pick(bs, others), threshold)
  }

  lemma RebuildNext(bs: seq<Box>, i: nat, others: seq<nat>, n: nat, remaining: seq<nat>, threshold: real)
    requires n < |others| && RebuiltSoFar(bs, i, others, n, remaining, threshold)
    ensures others[n] < |bs|
    ensures RebuiltSoFar(bs, i, others, n + 1,
                         remaining + if Overlap(bs[i], bs[others[n]], threshold) then [] else [others[n]], threshold)
  {
    var j := others[n];
    assert others[n] == others[n..][0];
    PickHead(bs, others[n..]);
    assert others[n..][1..] == others[n + 1..];
    var rest := Pick(bs, others[n + 1..]);
    SurvivorsHead(bs[i], bs[j], rest, threshold);
    PickSnoc(bs, remaining, j);
    hide Pick, Survivors, Overlap;
    var s := Survivors(bs[i], rest, threshold);
    assert Pick(bs, remaining) + ([bs[j]] + s) == (Pick(bs, remaining) + [bs[j]]) + s;
    assert Pick(bs, remaining) + ([] + s) == Pick(bs, remaining) + s;
    assert remaining + [] == remaining;
  }

  /** One turn's rebuilt list. */
  method Remaining(bs: seq<Box>, i: nat, others: seq<nat>, threshold: real) returns (remaining: seq<nat>)
    requires i < |bs| && Indices(bs, others)
    ensures |remaining| <= |others| && Indices(bs, remaining)
    ensures Pick(bs, remaining) == Survivors(bs[i], Pick(bs, others), threshold)
  {
    hide Iou;
    remaining := [];
    assert others[0..] == others;
    for n := 0 to |others|
      invariant |remaining| <= n && RebuiltSoFar(bs, i, others, n, remaining, threshold)
    {
      hide RebuiltSoFar;
      RebuildNext(bs, i, others, n, remaining, threshold);
      var j := others[n];
      assert remaining + [] == remaining;
      if Iou(bs[i], bs[j]) <= threshold {
        remaining := remaining + [j];
      }
    }
    assert Pick(bs, remaining) + [] == Pick(bs, remaining);
  }

  // ---------------------------------------------------------------- the greedy loop

  ghost predicate Suppressed(b: Box, kept: seq<Box>, threshold: real)
  {
    exists k :: 0 <= k < |kept| && Overlap(kept[k], b, threshold)
  }

  /** One box after the other: keep it unless a kept one overlaps it. */
  ghost function Greedy(bs: seq<Box>, threshold: real): (r: seq<Box>)
    ensures |r| <= |bs|
  {
    if bs == [] then []
    else
      var kept, b := Greedy(bs[..|bs| - 1], threshold), bs[|bs| - 1];
      if Suppressed(b, kept, threshold) then kept else kept + [b]
  }

  function Take(bs: seq<Box>, n: nat): (r: seq<Box>)
    ensures |r| <= n
  {
    if |bs| <= n then bs else bs[..n]
  }

  lemma {:induction false} GreedyExtends(bs: seq<Box>, threshold: real, n: nat)
    requires n <= |bs|
    ensures Greedy(bs[..n], threshold) <= Greedy(bs, threshold)
  {
    if n < |bs| {
      assert bs[..|bs| - 1][..n] == bs[..n];
      GreedyExtends(bs[..|bs| - 1], threshold, n);
    } else {
      assert bs[..n] == bs;
    }
  }

  // ---------------------------------------------------------------- the selection in coordinates

  ghost predicate Increasing(idx: seq<nat>, n: nat)
  {
    && (forall k :: 0 <= k < |idx| ==> idx[k] < n)
    && forall k, l :: 0 <= k < l < |idx| ==> idx[k] < idx[l]
  }

  /** Box `j` overlaps a chosen box that comes before it. */
  ghost predicate Crowded(bs: seq<Box>, idx: seq<nat>, j: nat, t: real)
    requires Increasing(idx, |bs|) && j < |bs|
  {
    exists k :: 0 <= k < |idx| && idx[k] < j && CoversTooMuch(bs[idx[k]], bs[j], t)
  }

  /** The chosen boxes are exactly those that no chosen box before them overlaps. */
  ghost predicate Selects(bs: seq<Box>, idx: seq<nat>, t: real)
  {
    Increasing(idx, |bs|) && forall j: nat :: j < |bs| ==> (j in idx <==> !Crowded(bs, idx, j, t))
  }

  lemma CrowdedIsSuppressed(bs: seq<Box>, idx: seq<nat>, j: nat, t: real)
    requires j < |bs| && Increasing(idx, j)
    ensures Crowded(bs, idx, j, t) <==> Suppressed(bs[j], Pick(bs, idx), t)
  {
    hide Overlap, CoversTooMuch;
    var kept := Pick(bs, idx);
    forall k | 0 <= k < |idx| ensures Overlap(kept[k], bs[j], t) <==> CoversTooMuch(bs[idx[k]], bs[j], t) {
      OverlapIff(bs[idx[k]], bs[j], t);
    }
  }

  /** What the greedy loop keeps is such a selection. */
  lemma {:induction false} GreedySelects(bs: seq<Box>, t: real) returns (idx: seq<nat>)
    ensures Selects(bs, idx, t) && Greedy(bs, t) == Pick(bs, idx)
  {
    hide Suppressed, CoversTooMuch, Overlap;
    idx := [];
    if bs != [] {
      var n := |bs| - 1;
      var before := GreedySelects(bs[..n], t);
      assert Pick(bs, before) == Pick(bs[..n], before);
      CrowdedIsSuppressed(bs, before, n, t);
      idx := if Suppressed(bs[n], Pick(bs, before), t) then before else before + [n];
      OneMoreBox(bs, before, idx, t);
      if idx != before { PickSnoc(bs, before, n); }
    }
  }

  lemma OneMoreBox(bs: seq<Box>, before: seq<nat>, idx: seq<nat>, t: real)
    requires bs != [] && Selects(bs[..|bs| - 1], before, t)
    requires var n := |bs| - 1;
      Increasing(before, n) && idx == if Crowded(bs, before, n, t) then before else before + [n]
    ensures Selects(bs, idx, t)
  {
    hide CoversTooMuch;
    var n := |bs| - 1;
    assert Increasing(idx, |bs|);
    forall j: nat | j < |bs| ensures j in idx <==> !Crowded(bs, idx, j, t) {
      if j < n {
        assert j in before <==> !Crowded(bs[..n], before, j, t);
        assert Crowded(bs[..n], before, j, t) <==> Crowded(bs, idx, j, t) by { SameCrowd(bs, before, idx, j, t); }
        assert j in idx <==> j in before;
      } else {
        assert Crowded(bs, idx, n, t) <==> Crowded(bs, before, n, t) by { NotByItself(bs, before, idx, t); }
      }
    }
  }

  lemma SameCrowd(bs: seq<Box>, before: seq<nat>, idx: seq<nat>, j: nat, t: real)
    requires j < |bs| - 1 && Increasing(before, |bs| - 1) && Increasing(idx, |bs|)
    requires idx == before || idx == before + [|bs| - 1]
    ensures Crowded(bs[..|bs| - 1], before, j, t) <==> Crowded(bs, idx, j, t)
  {
    hide CoversTooMuch;
    var init := bs[..|bs| - 1];
    if k :| 0 <= k < |before| && before[k] < j && CoversTooMuch(init[before[k]], init[j], t) {
      assert idx[k] == before[k] && CoversTooMuch(bs[idx[k]], bs[j], t);
    }
    if k :| 0 <= k < |idx| && idx[k] < j && CoversTooMuch(bs[idx[k]], bs[j], t) {
      assert idx[k] == before[k] && CoversTooMuch(init[before[k]], init[j], t);
    }
  }

  lemma NotByItself(bs: seq<Box>, before: seq<nat>, idx: seq<nat>, t: real)
    requires bs != [] && Increasing(before, |bs| - 1) && Increasing(idx, |bs|)
    requires idx == before || idx == before + [|bs| - 1]
    ensures Crowded(bs, idx, |bs| - 1, t) <==> Crowded(bs, before, |bs| - 1, t)
  {
    hide CoversTooMuch;
    var n := |bs| - 1;
    if k :| 0 <= k < |idx| && idx[k] < n && CoversTooMuch(bs[idx[k]], bs[n], t) {
      assert idx[k] == before[k] && CoversTooMuch(bs[before[k]], bs[n], t);
    }
    if k :| 0 <= k < |before| && before[k] < n && CoversTooMuch(bs[before[k]], bs[n], t) {
      assert idx[k] == before[k] && CoversTooMuch(bs[idx[k]], bs[n], t);
    }
  }

  /** Proposal `c` is box `b`, number `k` of its frame. */
  predicate Shows(c: Candidate, b: Box, frameId: nat, k: nat)
  {
    && c.frameId == frameId && c.roiId == k && c.objectness == b.score
    && c.x == b.x1 && c.y == b.y1 && c.x + c.width == b.x2 && c.y + c.height == b.y2
  }

  /** The proposals are the first `max` boxes of the selection. */
  ghost predicate Proposes(proposals: seq<Candidate>, bs: seq<Box>, t: real, max: nat, frameId: nat)
  {
    exists idx: seq<nat> ::
      Selects(bs, idx, t) && |proposals| == (if |idx| < max then |idx| else max)
      && forall k :: 0 <= k < |proposals| ==> Shows(proposals[k], bs[idx[k]], frameId, k)
  }

  lemma CandidatesPropose(bs: seq<Box>, t: real, max: nat, frameId: nat)
    ensures Proposes(Candidates(Take(Greedy(bs, t), max), frameId), bs, t, max, frameId)
  {
    hide Selects, Greedy;
    var idx := GreedySelects(bs, t);
    hide Suppressed;
  }

  function ToCandidate(b: Box, frameId: nat, roiId: nat): Candidate
  {
    Candidate(frameId, roiId, b.x1, b.y1, b.x2 - b.x1, b.y2 - b.y1, b.score)
  }

  /** The proposals that stand for the kept boxes, numbered from 0. */
  function Candidates(kept: seq<Box>, frameId: nat): (cs: seq<Candidate>)
    ensures |cs| == |kept| && forall i :: 0 <= i < |cs| ==> cs[i].roiId == i
  {
    seq(|kept|, i requires 0 <= i < |kept| => ToCandidate(kept[i], frameId, i))
  }

  lemma CandidatesSnoc(kept: seq<Box>, b: Box, frameId: nat)
    ensures Candidates(kept + [b], frameId) == Candidates(kept, frameId) + [ToCandidate(b, frameId, |kept|)]
  {
    hide ToCandidate;
  }

  /** A kept box is rebuilt from its corner and size. */
  lemma Rebuilt(b: Box, frameId: nat, roiId: nat)
    ensures var c := ToCandidate(b, frameId, roiId); Box(c.x, c.y, c.x + c.width, c.y + c.height, c.objectness) == b
  {
  }

  /** The search for a kept proposal that suppresses `box`. */
  method IsSuppressed(box: Box, proposals: seq<Candidate>, threshold: real, ghost kept: seq<Box>, frameId: nat)
    returns (suppressed: bool)
    requires proposals == Candidates(kept, frameId)
    ensures suppressed == Suppressed(box, kept, threshold)
  {
    hide Iou;
    for k := 0 to |proposals|
      invariant forall i :: 0 <= i < k ==> !Overlap(kept[i], box, threshold)
    {
      var c := proposals[k];
      var keptBox := Box(c.x, c.y, c.x + c.width, c.y + c.height, c.objectness);
      Rebuilt(kept[k], frameId, k);
      IouSymmetric(box, kept[k]);
      if Iou(box, keptBox) > threshold {
        assert Overlap(kept[k], box, threshold);
        return true;
      }
    }
    return false;
  }

  /** The suppression loop of `propose`: stops as soon as the list is full. */
  method Propose(boxes: seq<Box>, threshold: real, maxCandidates: nat, frameId: nat) returns (proposals: seq<Candidate>)
    requires maxCandidates > 0
    ensures proposals == Candidates(Take(Greedy(boxes, threshold), maxCandidates), frameId)
    ensures Proposes(proposals, boxes, threshold, maxCandidates, frameId)
  {
    hide Proposes;
    proposals := [];
    ghost var kept: seq<Box> := [];
    assert Candidates(kept, frameId) == [];
    hide Suppressed, ToCandidate, Candidates;
    for n := 0 to |boxes|
      invariant kept == Greedy(boxes[..n], threshold) && proposals == Candidates(kept, frameId)
      invariant |kept| < maxCandidates
    {
      assert boxes[..n + 1][..n] == boxes[..n];
      var suppressed := IsSuppressed(boxes[n], proposals, threshold, kept, frameId);
      if suppressed { continue; }
      CandidatesSnoc(kept, boxes[n], frameId);
      proposals := proposals + [ToCandidate(boxes[n], frameId, |proposals|)];
      kept := kept + [boxes[n]];
      if |proposals| == maxCandidates {
        GreedyExtends(boxes, threshold, n + 1);
        CandidatesPropose(boxes, threshold, maxCandidates, frameId);
        return;
      }
    }
    CandidatesPropose(boxes, threshold, maxCandidates, frameId);
    assert boxes[..|boxes|] == boxes;
  }

  // ---------------------------------------------------------------- they agree

  lemma {:induction false} SurvivorsSnoc(b: Box, bs: seq<Box>, c: Box, threshold: real)
    ensures Survivors(b, bs + [c], threshold)
         == Survivors(b, bs, threshold) + if Overlap(b, c, threshold) then [] else [c]
  {
    hide Overlap;
    if bs != [] {
      assert (bs + [c])[1..] == bs[1..] + [c];
      SurvivorsSnoc(b, bs[1..], c, threshold);
    } else {
      assert Survivors(b, [c], threshold) ==
        (if Overlap(b, c, threshold) then [] else [c]) + Survivors(b, [c][1..], threshold);
    }
  }

  /** A last box that the first one overlaps changes nothing; otherwise it joins the survivors. */
  lemma LastBox(b: Box, rest: seq<Box>, c: Box, threshold: real)
    ensures var s := Survivors(b, rest, threshold);
      Reference([b] + (rest + [c]), threshold)
        == [b] + if Overlap(b, c, threshold) then Reference(s, threshold) else Reference(s + [c], threshold)
  {
    hide Overlap, Survivors, Reference;
    ReferenceHead(b, rest + [c], threshold);
    SurvivorsSnoc(b, rest, c, threshold);
    assert Survivors(b, rest, threshold) + [] == Survivors(b, rest, threshold);
  }

  lemma SingleBox(c: Box, threshold: real)
    ensures Reference([c], threshold) == [c] && Reference([], threshold) == []
  {
  }

  /** The reference, too, decides about a last box by the boxes it has kept before. */
  lemma {:induction false} ReferenceSnoc(bs: seq<Box>, c: Box, threshold: real)
    ensures var kept := Reference(bs, threshold);
      Reference(bs + [c], threshold) == if Suppressed(c, kept, threshold) then kept else kept + [c]
    decreases |bs|
  {
    hide Overlap, Survivors, Reference, Suppressed;
    SingleBox(c, threshold);
    if bs == [] {
      NothingSuppresses(c, threshold);
      assert bs + [c] == [c];
    } else {
      var b, rest := bs[0], bs[1..];
      var s := Survivors(b, rest, threshold);
      LastBox(b, rest, c, threshold);
      ReferenceHead(b, rest, threshold);
      SuppressedCons(c, b, Reference(s, threshold), threshold);
      ReferenceSnoc(s, c, threshold);
      Regroup(b, rest, c, bs, Reference(s, threshold));
    }
  }

  lemma Regroup(b: Box, rest: seq<Box>, c: Box, bs: seq<Box>, kept: seq<Box>)
    requires bs != [] && b == bs[0] && rest == bs[1..]
    ensures bs == [b] + rest && bs + [c] == [b] + (rest + [c])
    ensures ([b] + kept) + [c] == [b] + (kept + [c])
  {
  }

  lemma NothingSuppresses(c: Box, threshold: real)
    ensures !Suppressed(c, [], threshold)
  {
  }

  lemma SuppressedCons(c: Box, b: Box, kept: seq<Box>, threshold: real)
    ensures Suppressed(c, [b] + kept, threshold) <==> Overlap(b, c, threshold) || Suppressed(c, kept, threshold)
  {
    hide Overlap;
    var all := [b] + kept;
    if Overlap(b, c, threshold) { assert Overlap(all[0], c, threshold); }
    if k :| 0 <= k < |kept| && Overlap(kept[k], c, threshold) { assert Overlap(all[k + 1], c, threshold); }
    if k :| 0 <= k < |all| && Overlap(all[k], c, threshold) && k > 0 { assert all[k] == kept[k - 1]; }
  }

  /** Greedy one-by-one selection is the reference, on every list of boxes. */
  lemma {:induction false} GreedyIsReference(bs: seq<Box>, threshold: real)
    ensures Greedy(bs, threshold) == Reference(bs, threshold)
  {
    hide Suppressed, Reference, Greedy;
    if bs == [] {
      NothingKept(threshold);
    } else {
      var n := |bs| - 1;
      GreedyLast(bs, threshold);
      GreedyIsReference(bs[..n], threshold);
      ReferenceSnoc(bs[..n], bs[n], threshold);
      assert bs[..n] + [bs[n]] == bs;
    }
  }

  lemma NothingKept(threshold: real)
    ensures Greedy([], threshold) == [] && Reference([], threshold) == []
  {
  }

  lemma GreedyLast(bs: seq<Box>, threshold: real)
    requires bs != []
    ensures var kept, b := Greedy(bs[..|bs| - 1], threshold), bs[|bs| - 1];
      Greedy(bs, threshold) == if Suppressed(b, kept, threshold) then kept else kept + [b]
  {
    hide Suppressed;
  }

  // ---------------------------------------------------------------- what is kept

  /** No two boxes overlap by more than the threshold. */
  ghost predicate Spread(kept: seq<Box>, threshold: real)
  {
    forall i, j :: 0 <= i < j < |kept| ==> !Overlap(kept[i], kept[j], threshold)
  }

  /** Kept boxes overlap pairwise by at most the threshold. */
  lemma {:induction false} KeptAreSpread(bs: seq<Box>, threshold: real)
    ensures Spread(Greedy(bs, threshold), threshold)
  {
    hide Overlap;
    if bs != [] {
      KeptAreSpread(bs[..|bs| - 1], threshold);
    }
  }

  /** A box of the list is kept as the next one exactly when no box kept before it overlaps it. */
  lemma RejectedOverlaps(bs: seq<Box>, threshold: real, n: nat)
    requires n < |bs|
    ensures var before, after := Greedy(bs[..n], threshold), Greedy(bs[..n + 1], threshold);
      && after <= Greedy(bs, threshold)
      && (after == before + [bs[n]] <==> !Suppressed(bs[n], before, threshold))
      && (after == before <==> Suppressed(bs[n], before, threshold))
  {
    hide Suppressed;
    assert bs[..n + 1][..n] == bs[..n];
    GreedyExtends(bs, threshold, n + 1);
    var before := Greedy(bs[..n], threshold);
    assert |before + [bs[n]]| != |before|;
  }

  // ---------------------------------------------------------------- degenerate boxes

  function ProperOnly(bs: seq<Box>): (r: seq<Box>)
    ensures |r| <= |bs|
  {
    if bs == [] then [] else ProperOnly(bs[..|bs| - 1]) + if Proper(bs[|bs| - 1]) then [bs[|bs| - 1]] else []
  }

  /** A box without area overlaps nothing. */
  lemma DegenerateIou(a: Box, b: Box)
    requires !Proper(a) || !Proper(b)
    ensures Iou(a, b) == 0.0
  {
    hide Area;
    assert Intersection(a, b) == 0.0;
  }

  lemma {:induction false} ProperSuppression(c: Box, kept: seq<Box>, threshold: real)
    requires threshold >= 0.0
    ensures Suppressed(c, kept, threshold) <==> Suppressed(c, ProperOnly(kept), threshold)
    ensures !Proper(c) ==> !Suppressed(c, kept, threshold)
  {
    hide Iou;
    if kept != [] {
      var n := |kept| - 1;
      ProperSuppression(c, kept[..n], threshold);
      SuppressedSnoc(c, kept[..n], kept[n], threshold);
      assert kept[..n] + [kept[n]] == kept;
      if Proper(kept[n]) {
        SuppressedSnoc(c, ProperOnly(kept[..n]), kept[n], threshold);
      } else {
        DegenerateIou(kept[n], c);
        assert ProperOnly(kept) == ProperOnly(kept[..n]);
      }
      if !Proper(c) { DegenerateIou(kept[n], c); }
    }
  }

  lemma SuppressedSnoc(c: Box, kept: seq<Box>, b: Box, threshold: real)
    ensures Suppressed(c, kept + [b], threshold) <==> Suppressed(c, kept, threshold) || Overlap(b, c, threshold)
  {
    hide Overlap;
    var all := kept + [b];
    if Overlap(b, c, threshold) { assert Overlap(all[|kept|], c, threshold); }
    if k :| 0 <= k < |kept| && Overlap(kept[k], c, threshold) { assert Overlap(all[k], c, threshold); }
  }

  lemma ProperSnoc(bs: seq<Box>, b: Box)
    ensures ProperOnly(bs + [b]) == ProperOnly(bs) + if Proper(b) then [b] else []
  {
    assert (bs + [b])[..|bs|] == bs;
  }

  /** Dropping the degenerate boxes before the suppression or after it gives the same list. */
  lemma {:induction false} DropDegenerate(bs: seq<Box>, threshold: real)
    requires threshold >= 0.0
    ensures Greedy(ProperOnly(bs), threshold) == ProperOnly(Greedy(bs, threshold))
  {
    hide Suppressed, Proper;
    if bs != [] {
      var n := |bs| - 1;
      var b := bs[n];
      DropDegenerate(bs[..n], threshold);
      var kept := Greedy(bs[..n], threshold);
      ProperSuppression(b, kept, threshold);
      ProperSnoc(kept, b);
      var ps := ProperOnly(bs[..n]);
      if Proper(b) {
        assert ProperOnly(bs) == ps + [b];
        assert (ps + [b])[..|ps|] == ps;
      } else {
        assert ProperOnly(bs) == ps;
      }
    }
  }

  ghost predicate AllProper(bs: seq<Box>)
  {
    forall i :: 0 <= i < |bs| ==> Proper(bs[i])
  }

  lemma {:induction false} ProperOnlyIsProper(bs: seq<Box>)
    ensures AllProper(ProperOnly(bs))
    ensures AllProper(bs) ==> ProperOnly(bs) == bs
  {
    if bs != [] {
      ProperOnlyIsProper(bs[..|bs| - 1]);
      assert bs[..|bs| - 1] + [bs[|bs| - 1]] == bs;
    }
  }

  lemma {:induction false} ProperOnlyPrefix(bs: seq<Box>, n: nat)
    requires n <= |bs|
    ensures ProperOnly(bs[..n]) <= ProperOnly(bs)
  {
    if n < |bs| {
      assert bs[..|bs| - 1][..n] == bs[..n];
      ProperOnlyPrefix(bs[..|bs| - 1], n);
    } else {
      assert bs[..n] == bs;
    }
  }

  lemma TruncationsAgree(bs: seq<Box>, threshold: real, max: nat)
    requires threshold >= 0.0
    ensures Take(Greedy(ProperOnly(bs), threshold), max) == Take(Reference(bs, threshold), max)
       <==> AllProper(Take(Greedy(bs, threshold), max))
  {
    hide Greedy, Reference, ProperOnly, Proper;
    GreedyIsReference(bs, threshold);
    DropDegenerate(bs, threshold);
    var kept := Reference(bs, threshold);
    ProperOnlyIsProper(kept);
    var first := Take(kept, max);
    if AllProper(first) {
      ProperOnlyIsProper(first);
      if |kept| > max { ProperOnlyPrefix(kept, max); }
    }
  }

  /** Position of the first box without area, or the length of the list. */
  function FirstDegenerate(bs: seq<Box>): (d: nat)
    ensures d <= |bs| && (forall i :: 0 <= i < d ==> Proper(bs[i])) && (d < |bs| ==> !Proper(bs[d]))
  {
    if bs == [] || !Proper(bs[0]) then 0 else 1 + FirstDegenerate(bs[1..])
  }

  lemma {:induction false} GreedyKeepsProper(bs: seq<Box>, threshold: real)
    requires AllProper(bs)
    ensures AllProper(Greedy(bs, threshold))
  {
    hide Proper, Suppressed;
    if bs != [] { GreedyKeepsProper(bs[..|bs| - 1], threshold); }
  }

  /** A box without area is always kept, right behind what the boxes before it left. */
  lemma DegenerateIsKept(bs: seq<Box>, threshold: real, d: nat)
    requires threshold >= 0.0 && d < |bs| && !Proper(bs[d])
    ensures var before := Greedy(bs[..d], threshold);
      |before| < |Greedy(bs, threshold)| && Greedy(bs, threshold)[|before|] == bs[d]
  {
    hide Proper, Suppressed;
    ProperSuppression(bs[d], Greedy(bs[..d], threshold), threshold);
    assert bs[..d + 1][..d] == bs[..d];
    GreedyExtends(bs, threshold, d + 1);
  }

  /** What fits before the first box without area decides whether the truncated list is proper. */
  lemma ProperPrefixIff(bs: seq<Box>, threshold: real, max: nat)
    requires threshold >= 0.0
    ensures var d := FirstDegenerate(bs);
      AllProper(Take(Greedy(bs, threshold), max)) <==> d == |bs| || |Greedy(bs[..d], threshold)| >= max
  {
    hide Greedy, Proper;
    var d := FirstDegenerate(bs);
    var before := Greedy(bs[..d], threshold);
    GreedyKeepsProper(bs[..d], threshold);
    GreedyExtends(bs, threshold, d);
    if d == |bs| {
      assert bs[..d] == bs;
    } else {
      DegenerateIsKept(bs, threshold, d);
      var first := Take(Greedy(bs, threshold), max);
      if |before| < max { assert first[|before|] == bs[d]; }
    }
  }

  /** The program drops degenerate boxes first and stops early; the reference does neither and
      truncates. On every list of boxes they agree exactly when no box is degenerate or the list is
      already full with what the boxes before the first degenerate one leave. */
  lemma AgreesWithReferenceIff(bs: seq<Box>, threshold: real, max: nat)
    requires threshold >= 0.0
    ensures var d := FirstDegenerate(bs);
      Take(Greedy(ProperOnly(bs), threshold), max) == Take(Reference(bs, threshold), max)
      <==> d == |bs| || |Greedy(bs[..d], threshold)| >= max
  {
    TruncationsAgree(bs, threshold, max);
    ProperPrefixIff(bs, threshold, max);
  }

  ghost predicate AgreeOnEveryLength(bs: seq<Box>, threshold: real)
  {
    forall max: nat :: Take(Greedy(ProperOnly(bs), threshold), max) == Take(Reference(bs, threshold), max)
  }

  /** Whatever the list length asked for, they agree exactly when no box is degenerate. */
  lemma AlwaysAgreesIff(bs: seq<Box>, threshold: real)
    requires threshold >= 0.0
    ensures AgreeOnEveryLength(bs, threshold) <==> AllProper(bs)
  {
    hide Greedy, Reference, ProperOnly, Proper;
    var d := FirstDegenerate(bs);
    forall max: nat
      ensures Take(Greedy(ProperOnly(bs), threshold), max) == Take(Reference(bs, threshold), max)
         <==> d == |bs| || |Greedy(bs[..d], threshold)| >= max
    {
      AgreesWithReferenceIff(bs, threshold, max);
    }
    var long := |bs| + 1;
    assert Take(Greedy(ProperOnly(bs), threshold), long) == Take(Reference(bs, threshold), long) <==> d == |bs|;
  }

  /** They do differ: a degenerate box with the best score takes the reference's only place. */
  lemma ReferenceKeepsDegenerate()
    ensures exists bs: seq<Box> ::
      Take(Greedy(ProperOnly(bs), 0.5), 1) != Take(Reference(bs, 0.5), 1)
  {
    var flat, good := Box(0.0, 0.0, 0.0, 5.0, 0.9), Box(0.0, 0.0, 4.0, 4.0, 0.8);
    var bs := [flat, good];
    assert Reference(bs, 0.5)[0] == flat;
    AgreesWithReferenceIff(bs, 0.5, 1);
    assert !Proper(Take(Reference(bs, 0.5), 1)[0]);
  }

  // ---------------------------------------------------------------- from predictions to boxes

  datatype Prediction = Prediction(cx: real, cy: real, width: real, height: real, score: real)

  type Scale = s: real | s > 0.0 witness 1.0

  datatype Letterbox = Letterbox(scale: Scale, padX: real, padY: real, cols: real, rows: real)

  function Clamp(v: real, limit: real): real { if v < 0.0 then 0.0 else if v > limit then limit else v }

  function Decode(p: Prediction, l: Letterbox): Box
  {
    Box(Clamp((p.cx - p.width / 2.0 - l.padX) / l.scale, l.cols),
        Clamp((p.cy - p.height / 2.0 - l.padY) / l.scale, l.rows),
        Clamp((p.cx + p.width / 2.0 - l.padX) / l.scale, l.cols),
        Clamp((p.cy + p.height / 2.0 - l.padY) / l.scale, l.rows),
        p.score)
  }

  /** A box inside the frame, put into the network's picture by scale and padding, decodes to itself. */
  lemma DecodeInverts(b: Box, p: Prediction, l: Letterbox)
    requires 0.0 <= b.x1 <= l.cols && 0.0 <= b.x2 <= l.cols && 0.0 <= b.y1 <= l.rows && 0.0 <= b.y2 <= l.rows
    requires p.cx == (b.x1 + b.x2) / 2.0 * l.scale + l.padX && p.width == (b.x2 - b.x1) * l.scale
    requires p.cy == (b.y1 + b.y2) / 2.0 * l.scale + l.padY && p.height == (b.y2 - b.y1) * l.scale
    requires p.score == b.score
    ensures Decode(p, l) == b
  {
    Unscaled(b.x1, b.x2, p.cx, p.width, l.padX, l.scale);
    Unscaled(b.y1, b.y2, p.cy, p.height, l.padY, l.scale);
  }

  lemma Unscaled(a: real, b: real, c: real, w: real, pad: real, scale: Scale)
    requires c == (a + b) / 2.0 * scale + pad && w == (b - a) * scale
    ensures (c - w / 2.0 - pad) / scale == a && (c + w / 2.0 - pad) / scale == b
  {
    assert c - w / 2.0 - pad == a * scale && c + w / 2.0 - pad == b * scale;
    Cancelled(a, scale);
    Cancelled(b, scale);
  }

  lemma Cancelled(a: real, scale: Scale)
    ensures (a * scale) / scale == a
  {
  }

  /** A coordinate outside the frame goes to the nearest edge. */
  lemma ClampIsNearest(v: real, limit: real, w: real)
    requires 0.0 <= w <= limit
    ensures 0.0 <= Clamp(v, limit) <= limit
    ensures (if v < Clamp(v, limit) then Clamp(v, limit) - v else v - Clamp(v, limit)) <=
            (if v < w then w - v else v - w)
  {
  }

  /** `boxes` are the decoded predictions that pass, in order. */
  ghost predicate Passing(ps: seq<Prediction>, l: Letterbox, confidence: real, boxes: seq<Box>, idx: seq<nat>)
  {
    && Increasing(idx, |ps|) && |boxes| == |idx| && (forall k :: 0 <= k < |idx| ==> boxes[k] == Decode(ps[idx[k]], l))
    && forall i: nat :: i < |ps| ==> (i in idx <==> Passes(ps, l, confidence, i))
  }

  lemma {:induction false} CollectedPass(ps: seq<Prediction>, l: Letterbox, confidence: real) returns (idx: seq<nat>)
    ensures Passing(ps, l, confidence, ProperOnly(Decoded(ps, l, confidence)), idx)
  {
    hide Decode, Passing;
    if ps == [] {
      idx := [];
      NothingPasses(l, confidence);
    } else {
      var n := |ps| - 1;
      var before := CollectedPass(ps[..n], l, confidence);
      var b := Decode(ps[n], l);
      var boxes := Decoded(ps[..n], l, confidence);
      assert boxes + [] == boxes;
      ProperSnoc(boxes, b);
      idx := if ps[n].score >= confidence && Proper(b) then before + [n] else before;
      assert ProperOnly(Decoded(ps, l, confidence)) ==
        ProperOnly(boxes) + if ps[n].score >= confidence && Proper(b) then [b] else [];
      hide ProperOnly, Decoded;
      OneMorePasses(ps, l, confidence, ProperOnly(boxes), before);
    }
  }

  lemma NothingPasses(l: Letterbox, confidence: real)
    ensures Passing([], l, confidence, ProperOnly(Decoded([], l, confidence)), [])
  {
  }

  /** Prediction `i` is confident and its box has an area. */
  predicate Passes(ps: seq<Prediction>, l: Letterbox, confidence: real, i: nat)
    requires i < |ps|
  {
    ps[i].score >= confidence && var b := Decode(ps[i], l); b.x1 < b.x2 && b.y1 < b.y2
  }

  lemma OneMorePasses(ps: seq<Prediction>, l: Letterbox, confidence: real, boxes: seq<Box>, before: seq<nat>)
    requires ps != [] && Passing(ps[..|ps| - 1], l, confidence, boxes, before)
    ensures var n := |ps| - 1; var b := Decode(ps[n], l); var passes := ps[n].score >= confidence && Proper(b);
      Passing(ps, l, confidence, boxes + if passes then [b] else [], if passes then before + [n] else before)
  {
    var n := |ps| - 1;
    var passes := Passes(ps, l, confidence, n);
    assert passes <==> ps[n].score >= confidence && Proper(Decode(ps[n], l));
    forall i: nat | i < n ensures i in before <==> Passes(ps, l, confidence, i) {
      assert Passes(ps[..n], l, confidence, i) <==> Passes(ps, l, confidence, i);
    }
    hide Decode, Passes, Proper;
    assert boxes + [] == boxes;
    var idx := if passes then before + [n] else before;
    assert Increasing(idx, |ps|);
    forall i: nat | i < |ps| ensures i in idx <==> Passes(ps, l, confidence, i) {
      if i < n { assert i in idx <==> i in before; }
    }
  }

  /** decode_output before its sort: every confident prediction. */
  function Decoded(ps: seq<Prediction>, l: Letterbox, confidence: real): seq<Box>
  {
    if ps == [] then []
    else
      Decoded(ps[..|ps| - 1], l, confidence)
      + if ps[|ps| - 1].score < confidence then [] else [Decode(ps[|ps| - 1], l)]
  }

  /** `propose` before its sort: the confident predictions that have an area. */
  method Collect(ps: seq<Prediction>, l: Letterbox, confidence: real) returns (boxes: seq<Box>)
    ensures boxes == ProperOnly(Decoded(ps, l, confidence))
    ensures exists idx: seq<nat> :: Passing(ps, l, confidence, boxes, idx)
  {
    ghost var idx := CollectedPass(ps, l, confidence);
    hide Decode, Proper, Passing;
    boxes := [];
    for i := 0 to |ps|
      invariant boxes == ProperOnly(Decoded(ps[..i], l, confidence))
    {
      assert ps[..i + 1][..i] == ps[..i];
      assert Decoded(ps[..i], l, confidence) + [] == Decoded(ps[..i], l, confidence);
      if ps[i].score < confidence { continue; }
      var box := Decode(ps[i], l);
      ProperSnoc(Decoded(ps[..i], l, confidence), box);
      if Proper(box) { boxes := boxes + [box]; }
    }
    assert ps[..|ps|] == ps;
  }

  lemma {:induction false} ProperCount(bs: seq<Box>, b: Box)
    ensures multiset(ProperOnly(bs))[b] == if Proper(b) then multiset(bs)[b] else 0
  {
    hide Proper;
    if bs != [] {
      var n := |bs| - 1;
      ProperCount(bs[..n], b);
      assert bs == bs[..n] + [bs[n]];
    }
  }
}
