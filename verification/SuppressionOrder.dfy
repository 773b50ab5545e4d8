/** Score ties in the proposal decoder: a sort may leave equal scores in any order, and this module says
    when that order, together with boxes without area, decides which proposals come out. */
module SuppressionOrder {
  import opened Nms

  /** Sorted by score, best first, ties in any order. */
  predicate Sorted(bs: seq<Box>)
  {
    forall i, j :: 0 <= i < j < |bs| ==> bs[i].score >= bs[j].score
  }

  /** What a sort by score may make of `bs`. */
  ghost predicate Arrangement(a: seq<Box>, bs: seq<Box>)
  {
    Sorted(a) && multiset(a) == multiset(bs)
  }

  lemma SortedCons(b: Box, a: seq<Box>)
    requires Sorted(a) && (a == [] || b.score >= a[0].score)
    ensures Sorted([b] + a)
  {
  }

  lemma SortedTail(a: seq<Box>)
    requires Sorted(a) && a != []
    ensures a == [a[0]] + a[1..] && Sorted(a[1..]) && (|a| > 1 ==> a[0].score >= a[1].score)
  {
  }

  function Insert(b: Box, a: seq<Box>): (r: seq<Box>)
    requires Sorted(a)
    ensures Sorted(r) && multiset(r) == multiset(a) + multiset{b}
    ensures r != [] && (r[0] == b || (a != [] && r[0] == a[0]))
  {
    hide Sorted;
    if a == [] || b.score > a[0].score then
      SortedCons(b, a);
      [b] + a
    else
      SortedTail(a);
      var rest := Insert(b, a[1..]);
      SortedCons(a[0], rest);
      [a[0]] + rest
  }

  /** One sort by score: insertion, the first of equal scores last. */
  function Arrange(bs: seq<Box>): (r: seq<Box>)
    ensures Arrangement(r, bs)
  {
    if bs == [] then []
    else
      assert bs == [bs[0]] + bs[1..];
      Insert(bs[0], Arrange(bs[1..]))
  }

  /** The boxes with a score above `s`. */
  function Better(bs: seq<Box>, s: real): (r: seq<Box>)
    ensures |r| <= |bs|
  {
    if bs == [] then []
    else
      var last := bs[|bs| - 1];
      Better(bs[..|bs| - 1], s) + if last.score > s then [last] else []
  }

  lemma {:induction false} BetterIsPrefix(a: seq<Box>, s: real)
    requires Sorted(a)
    ensures var k := |Better(a, s)|;
      && Better(a, s) == a[..k] && (forall i :: 0 <= i < k ==> a[i].score > s)
      && forall i :: k <= i < |a| ==> a[i].score <= s
  {
    if a != [] {
      var n := |a| - 1;
      BetterIsPrefix(a[..n], s);
      var k := |Better(a[..n], s)|;
      assert a[..n][..k] == a[..k];
      assert a[..n] + [a[n]] == a;
      assert k < n ==> a[..n][k] == a[k];
    }
  }

  lemma {:induction false} BetterCount(a: seq<Box>, s: real, b: Box)
    ensures multiset(Better(a, s))[b] == if b.score > s then multiset(a)[b] else 0
  {
    if a != [] {
      BetterCount(a[..|a| - 1], s, b);
      assert a == a[..|a| - 1] + [a[|a| - 1]];
    }
  }

  lemma {:induction false} BetterTwice(a: seq<Box>, s: real, u: real)
    requires s <= u
    ensures Better(Better(a, s), u) == Better(a, u)
  {
    if a != [] {
      var init, last := a[..|a| - 1], a[|a| - 1];
      BetterTwice(init, s, u);
      if last.score > s {
        assert (Better(init, s) + [last])[..|Better(init, s)|] == Better(init, s);
      } else {
        assert Better(init, s) + [] == Better(init, s);
      }
    }
  }

  /** The boxes with a better score suppress `b`. */
  ghost predicate Beaten(a: seq<Box>, b: Box, threshold: real)
  {
    Suppressed(b, Greedy(Better(a, b.score), threshold), threshold)
  }

  /** Of two different boxes with the same score at most one survives the better ones. */
  ghost predicate TiesSettled(a: seq<Box>, threshold: real)
  {
    forall i, j :: 0 <= i < j < |a| && a[i].score == a[j].score && a[i] != a[j] ==>
      Beaten(a, a[i], threshold) || Beaten(a, a[j], threshold)
  }

  // ---------------------------------------------------------------- settled ties

  /** The greedy selection going on from what is kept already. */
  ghost function Continue(kept: seq<Box>, bs: seq<Box>, threshold: real): seq<Box>
  {
    if bs == [] then kept
    else
      var before, b := Continue(kept, bs[..|bs| - 1], threshold), bs[|bs| - 1];
      if Suppressed(b, before, threshold) then before else before + [b]
  }

  lemma {:induction false} GreedyContinues(a: seq<Box>, bs: seq<Box>, threshold: real)
    ensures Greedy(a + bs, threshold) == Continue(Greedy(a, threshold), bs, threshold)
  {
    hide Suppressed;
    if bs == [] {
      assert a + bs == a;
    } else {
      GreedyContinues(a, bs[..|bs| - 1], threshold);
      assert (a + bs)[..|a + bs| - 1] == a + bs[..|bs| - 1];
    }
  }

  function Copies(b: Box, n: nat): (r: seq<Box>)
    ensures |r| == n && forall i :: 0 <= i < n ==> r[i] == b
  {
    seq(n, _ => b)
  }

  /** How many of `n` copies of `b` are kept: none, one, or, if a box does not even suppress its
      own copy, all. */
  ghost function Kept(kept: seq<Box>, b: Box, n: nat, threshold: real): nat
  {
    if n == 0 || Suppressed(b, kept, threshold) then 0 else if Overlap(b, b, threshold) then 1 else n
  }

  lemma SuppressedByMore(x: Box, kept: seq<Box>, more: seq<Box>, threshold: real)
    ensures Suppressed(x, kept + more, threshold) <==> Suppressed(x, kept, threshold) || Suppressed(x, more, threshold)
  {
    hide Overlap;
    var all := kept + more;
    if k :| 0 <= k < |kept| && Overlap(kept[k], x, threshold) { assert Overlap(all[k], x, threshold); }
    if k :| 0 <= k < |more| && Overlap(more[k], x, threshold) { assert Overlap(all[|kept| + k], x, threshold); }
    if k :| 0 <= k < |all| && Overlap(all[k], x, threshold) {
      assert all[k] == if k < |kept| then kept[k] else more[k - |kept|];
    }
  }

  lemma SuppressedByCopies(b: Box, n: nat, threshold: real)
    ensures Suppressed(b, Copies(b, n), threshold) <==> n > 0 && Overlap(b, b, threshold)
  {
    hide Overlap;
    if n > 0 && Overlap(b, b, threshold) { assert Overlap(Copies(b, n)[0], b, threshold); }
  }

  /** With only `b` able to survive, a group adds copies of `b`, in whatever order it comes. */
  lemma {:induction false} GroupAdds(kept: seq<Box>, b: Box, group: seq<Box>, threshold: real)
    requires forall i :: 0 <= i < |group| ==> group[i] == b || Suppressed(group[i], kept, threshold)
    ensures Continue(kept, group, threshold) == kept + Copies(b, Kept(kept, b, multiset(group)[b], threshold))
  {
    hide Suppressed, Overlap;
    if group == [] {
      assert kept + Copies(b, 0) == kept;
    } else {
      var init, last := group[..|group| - 1], group[|group| - 1];
      assert group == init + [last];
      GroupAdds(kept, b, init, threshold);
      var n := Kept(kept, b, multiset(init)[b], threshold);
      SuppressedByMore(last, kept, Copies(b, n), threshold);
      SuppressedByCopies(b, n, threshold);
      assert (kept + Copies(b, n)) + [b] == kept + Copies(b, n + 1);
    }
  }

  ghost predicate AtMostOne(kept: seq<Box>, group: seq<Box>, threshold: real)
  {
    forall i, j :: 0 <= i < j < |group| && group[i] != group[j] ==>
      Suppressed(group[i], kept, threshold) || Suppressed(group[j], kept, threshold)
  }

  /** The only box of the group that can survive, if there is one. */
  lemma Survivor(kept: seq<Box>, group: seq<Box>, threshold: real) returns (b: Box)
    requires AtMostOne(kept, group, threshold)
    ensures forall x :: x in group ==> x == b || Suppressed(x, kept, threshold)
  {
    hide Suppressed;
    if k :| 0 <= k < |group| && !Suppressed(group[k], kept, threshold) {
      b := group[k];
    } else {
      b := Box(0.0, 0.0, 0.0, 0.0, 0.0);
    }
  }

  lemma LastGroup(a: seq<Box>) returns (k: nat)
    requires Sorted(a) && a != []
    ensures k < |a| && Better(a, a[|a| - 1].score) == a[..k] && a == a[..k] + a[k..]
    ensures forall i :: k <= i < |a| ==> a[i].score == a[|a| - 1].score
  {
    BetterIsPrefix(a, a[|a| - 1].score);
    k := |Better(a, a[|a| - 1].score)|;
  }

  lemma SettledBefore(a: seq<Box>, k: nat, threshold: real)
    requires Sorted(a) && k < |a| && Better(a, a[|a| - 1].score) == a[..k] && TiesSettled(a, threshold)
    ensures Sorted(a[..k]) && TiesSettled(a[..k], threshold)
  {
    hide Greedy, Suppressed, Better;
    var p := a[..k];
    forall i, j | 0 <= i < j < |p| && p[i].score == p[j].score && p[i] != p[j]
      ensures Beaten(p, p[i], threshold) || Beaten(p, p[j], threshold)
    {
      assert a[i] == p[i] && a[j] == p[j];
      BetterTwice(a, a[|a| - 1].score, p[i].score);
    }
  }

  lemma SameMultisets(a: seq<Box>, b: seq<Box>, s: real)
    requires multiset(a) == multiset(b)
    ensures multiset(Better(a, s)) == multiset(Better(b, s))
  {
    forall x ensures multiset(Better(a, s))[x] == multiset(Better(b, s))[x] {
      BetterCount(a, s, x);
      BetterCount(b, s, x);
    }
  }

  lemma SameLastScore(a: seq<Box>, b: seq<Box>)
    requires Sorted(a) && Sorted(b) && multiset(a) == multiset(b) && a != []
    ensures b != [] && a[|a| - 1].score == b[|b| - 1].score
  {
    var x := a[|a| - 1];
    assert x in multiset(a);
    assert x in b;
    var y := b[|b| - 1];
    assert y in multiset(b);
    assert y in a;
  }

  /** With settled ties every order gives the same selection. */
  lemma {:induction false} SettledAlike(a: seq<Box>, b: seq<Box>, threshold: real)
    requires Sorted(a) && Sorted(b) && multiset(a) == multiset(b) && TiesSettled(a, threshold)
    ensures Greedy(a, threshold) == Greedy(b, threshold)
    decreases |a|
  {
    hide Greedy, Better, Suppressed;
    if a == [] {
      assert |multiset(b)| == 0;
    } else {
      SameLastScore(a, b);
      var s := a[|a| - 1].score;
      var i := LastGroup(a);
      var j := LastGroup(b);
      SameMultisets(a, b, s);
      SettledBefore(a, i, threshold);
      SettledAlike(a[..i], b[..j], threshold);
      SettledGroup(a, i, threshold);
      Rests(a, b, i, j);
      GroupsAlike(a[..i], a[i..], b[..j], b[j..], threshold);
    }
  }

  lemma SettledGroup(a: seq<Box>, i: nat, threshold: real)
    requires i < |a| && TiesSettled(a, threshold) && Better(a, a[|a| - 1].score) == a[..i]
    requires forall n :: i <= n < |a| ==> a[n].score == a[|a| - 1].score
    ensures AtMostOne(Greedy(a[..i], threshold), a[i..], threshold)
  {
    hide Greedy, Better, Suppressed;
    var g, kept := a[i..], Greedy(a[..i], threshold);
    forall m, n | 0 <= m < n < |g| && g[m] != g[n]
      ensures Suppressed(g[m], kept, threshold) || Suppressed(g[n], kept, threshold)
    {
      assert g[m] == a[i + m] && g[n] == a[i + n];
      assert Beaten(a, g[m], threshold) || Beaten(a, g[n], threshold);
    }
  }

  lemma GroupsAlike(a: seq<Box>, g: seq<Box>, b: seq<Box>, h: seq<Box>, threshold: real)
    requires multiset(g) == multiset(h) && Greedy(a, threshold) == Greedy(b, threshold)
    requires AtMostOne(Greedy(a, threshold), g, threshold)
    ensures Greedy(a + g, threshold) == Greedy(b + h, threshold)
  {
    hide Greedy, Suppressed, AtMostOne, Continue, Kept, Copies;
    var kept := Greedy(a, threshold);
    var x := Survivor(kept, g, threshold);
    forall n | 0 <= n < |h| ensures h[n] == x || Suppressed(h[n], kept, threshold) {
      assert h[n] in multiset(h);
      assert h[n] in g;
    }
    GreedyContinues(a, g, threshold);
    GreedyContinues(b, h, threshold);
    GroupAdds(kept, x, g, threshold);
    GroupAdds(kept, x, h, threshold);
  }

  lemma Rests(a: seq<Box>, b: seq<Box>, i: nat, j: nat)
    requires i <= |a| && j <= |b| && multiset(a) == multiset(b) && multiset(a[..i]) == multiset(b[..j])
    ensures a[..i] + a[i..] == a && b[..j] + b[j..] == b && multiset(a[i..]) == multiset(b[j..])
  {
    assert a[..i] + a[i..] == a && b[..j] + b[j..] == b;
    assert multiset(a[i..]) == multiset(a) - multiset(a[..i]);
    assert multiset(b[j..]) == multiset(b) - multiset(b[..j]);
  }

  // ---------------------------------------------------------------- open ties

  /** Box `i` moved in front of the others that share its score. */
  function Front(a: seq<Box>, f: nat, i: nat): seq<Box>
    requires f <= i < |a|
  {
    a[..f] + [a[i]] + a[f..i] + a[i + 1..]
  }

  lemma FrontSorted(a: seq<Box>, f: nat, i: nat)
    requires Sorted(a) && f <= i < |a| && a[f].score == a[i].score
    ensures Sorted(Front(a, f, i))
  {
    var r := Front(a, f, i);
    forall n | 0 <= n < |r| ensures r[n].score == a[n].score {
      if f < n <= i { assert r[n] == a[n - 1] && a[f].score >= a[n - 1].score >= a[n].score >= a[i].score; }
    }
  }

  lemma FrontArranged(a: seq<Box>, f: nat, i: nat)
    requires Sorted(a) && f <= i < |a| && a[f].score == a[i].score
    ensures Arrangement(Front(a, f, i), a)
  {
    FrontSorted(a, f, i);
    hide Sorted;
    assert a == a[..f] + a[f..i] + [a[i]] + a[i + 1..];
  }

  /** A box that the better ones leave alone is the next one kept when it comes first of its score. */
  lemma FrontIsKept(a: seq<Box>, i: nat, threshold: real)
    requires Sorted(a) && i < |a| && !Beaten(a, a[i], threshold)
    ensures var f := |Better(a, a[i].score)|;
      && f <= i && Arrangement(Front(a, f, i), a)
      && var kept, all := Greedy(Better(a, a[i].score), threshold), Greedy(Front(a, f, i), threshold);
         |kept| < |all| && all[|kept|] == a[i]
  {
    hide Suppressed;
    BetterIsPrefix(a, a[i].score);
    var f := |Better(a, a[i].score)|;
    hide Better;
    FrontArranged(a, f, i);
    var r := Front(a, f, i);
    assert r[..f + 1] == a[..f] + [a[i]];
    assert r[..f + 1][..f] == a[..f];
    GreedyExtends(r, threshold, f + 1);
  }

  /** All orders a sort may choose give the same selection. */
  ghost predicate OrderIsIrrelevant(bs: seq<Box>, threshold: real)
  {
    forall a, b :: Arrangement(a, bs) && Arrangement(b, bs) ==> Greedy(a, threshold) == Greedy(b, threshold)
  }

  /** The order of equal scores is irrelevant exactly when at most one box of each score survives
      the better ones. One sorted list decides. */
  lemma OrderIsIrrelevantIff(bs: seq<Box>, threshold: real)
    ensures OrderIsIrrelevant(bs, threshold) <==> TiesSettled(Arrange(bs), threshold)
  {
    hide Greedy, Better, Beaten, Arrange;
    var one := Arrange(bs);
    if TiesSettled(one, threshold) {
      hide TiesSettled, Sorted;
      forall a, b | Arrangement(a, bs) && Arrangement(b, bs) ensures Greedy(a, threshold) == Greedy(b, threshold) {
        SettledAlike(one, a, threshold);
        SettledAlike(one, b, threshold);
      }
    } else {
      var i, j :| 0 <= i < j < |one| && one[i].score == one[j].score && one[i] != one[j]
                  && !Beaten(one, one[i], threshold) && !Beaten(one, one[j], threshold);
      FrontIsKept(one, i, threshold);
      FrontIsKept(one, j, threshold);
      var f := |Better(one, one[i].score)|;
      var a, b := Front(one, f, i), Front(one, f, j);
      hide Front;
      assert Arrangement(a, bs) && Arrangement(b, bs) && Greedy(a, threshold) != Greedy(b, threshold);
    }
  }

  // ---------------------------------------------------------------- end to end

  /** `sorted` is what the program feeds its suppression loop, `all` what the reference feeds to
      _nms: the same confident predictions, each side sorted by score in its own way. */
  ghost predicate SameInput(ps: seq<Prediction>, l: Letterbox, confidence: real, sorted: seq<Box>, all: seq<Box>)
  {
    Arrangement(sorted, ProperOnly(Decoded(ps, l, confidence))) && Arrangement(all, Decoded(ps, l, confidence))
  }

  /** Whatever order the two sorts leave ties in and however many proposals are asked for, program
      and reference agree. */
  ghost predicate AgreeForEveryOrder(ps: seq<Prediction>, l: Letterbox, confidence: real, threshold: real)
  {
    forall sorted, all, max: nat :: SameInput(ps, l, confidence, sorted, all) ==>
      Take(Greedy(sorted, threshold), max) == Take(Reference(all, threshold), max)
  }

  lemma {:induction false} ProperSorted(bs: seq<Box>)
    requires Sorted(bs)
    ensures Sorted(ProperOnly(bs)) && forall b :: b in ProperOnly(bs) ==> b in bs
  {
    hide Proper;
    if bs != [] {
      var init, last := bs[..|bs| - 1], bs[|bs| - 1];
      ProperSorted(init);
      forall b | b in ProperOnly(init) ensures b in bs && b.score >= last.score {
        var i :| 0 <= i < |init| && init[i] == b;
        assert bs[i] == b;
      }
      assert forall b :: b in [last] ==> b in bs;
    }
  }

  lemma ProperArranged(all: seq<Box>, bs: seq<Box>)
    requires Arrangement(all, bs)
    ensures Arrangement(ProperOnly(all), ProperOnly(bs))
    ensures AllProper(all) <==> AllProper(bs)
  {
    hide Proper, ProperOnly;
    ProperSorted(all);
    forall b ensures multiset(ProperOnly(all))[b] == multiset(ProperOnly(bs))[b] {
      ProperCount(all, b);
      ProperCount(bs, b);
    }
    assert multiset(ProperOnly(all)) == multiset(ProperOnly(bs));
    assert forall b :: b in all <==> b in multiset(all);
    assert forall b :: b in bs <==> b in multiset(bs);
    assert AllProper(all) <==> forall b :: b in all ==> Proper(b);
    assert AllProper(bs) <==> forall b :: b in bs ==> Proper(b);
  }

  /** Two lists whose prefixes of every length agree are the same. */
  lemma EveryPrefix(a: seq<Box>, b: seq<Box>)
    requires forall max: nat :: Take(a, max) == Take(b, max)
    ensures a == b
  {
    var n := |a| + |b|;
    assert Take(a, n) == a && Take(b, n) == b;
  }

  lemma AgreementNeedsProper(ps: seq<Prediction>, l: Letterbox, confidence: real, threshold: real)
    requires threshold >= 0.0 && AgreeForEveryOrder(ps, l, confidence, threshold)
    ensures AllProper(Decoded(ps, l, confidence))
  {
    hide Greedy, Reference, ProperOnly, Proper, Decoded, Arrange, Arrangement;
    var boxes := Decoded(ps, l, confidence);
    var all := Arrange(boxes);
    ProperArranged(all, boxes);
    forall max: nat ensures Take(Greedy(ProperOnly(all), threshold), max) == Take(Reference(all, threshold), max) {
      assert SameInput(ps, l, confidence, ProperOnly(all), all);
    }
    AlwaysAgreesIff(all, threshold);
  }

  lemma AgreementNeedsSettledTies(ps: seq<Prediction>, l: Letterbox, confidence: real, threshold: real)
    requires AgreeForEveryOrder(ps, l, confidence, threshold) && AllProper(Decoded(ps, l, confidence))
    ensures OrderIsIrrelevant(Decoded(ps, l, confidence), threshold)
  {
    hide Greedy, Reference, ProperOnly, Proper, Decoded, Arrangement, AllProper, Take;
    var boxes := Decoded(ps, l, confidence);
    ProperOnlyIsProper(boxes);
    forall a, b | Arrangement(a, boxes) && Arrangement(b, boxes) ensures Greedy(a, threshold) == Greedy(b, threshold) {
      assert SameInput(ps, l, confidence, a, b);
      EveryPrefix(Greedy(a, threshold), Reference(b, threshold));
      GreedyIsReference(b, threshold);
    }
  }

  /** End to end at a given threshold. Program and reference agree, for every order of ties and every
      number of proposals, exactly when every confident box has an area and at most one box of each
      score survives the better ones. */
  lemma AgreeForEveryOrderIff(ps: seq<Prediction>, l: Letterbox, confidence: real, threshold: real)
    requires threshold >= 0.0
    ensures var boxes := Decoded(ps, l, confidence);
      AgreeForEveryOrder(ps, l, confidence, threshold) <==> AllProper(boxes) && TiesSettled(Arrange(boxes), threshold)
  {
    hide Greedy, Reference, ProperOnly, Proper, Decoded, Arrangement, AllProper, TiesSettled, Arrange, Take,
      AgreeForEveryOrder;
    var boxes := Decoded(ps, l, confidence);
    OrderIsIrrelevantIff(boxes, threshold);
    if AgreeForEveryOrder(ps, l, confidence, threshold) {
      AgreementNeedsProper(ps, l, confidence, threshold);
      AgreementNeedsSettledTies(ps, l, confidence, threshold);
    } else if AllProper(boxes) && OrderIsIrrelevant(boxes, threshold) {
      ProperOnlyIsProper(boxes);
      IrrelevantOrderAgrees(ps, l, confidence, threshold);
    }
  }

  lemma IrrelevantOrderAgrees(ps: seq<Prediction>, l: Letterbox, confidence: real, threshold: real)
    requires var boxes := Decoded(ps, l, confidence); ProperOnly(boxes) == boxes && OrderIsIrrelevant(boxes, threshold)
    ensures AgreeForEveryOrder(ps, l, confidence, threshold)
  {
    hide Greedy, Reference, ProperOnly, Decoded, Arrangement;
    forall sorted, all, max: nat | SameInput(ps, l, confidence, sorted, all)
      ensures Take(Greedy(sorted, threshold), max) == Take(Reference(all, threshold), max)
    {
      GreedyIsReference(all, threshold);
    }
  }

  // ---------------------------------------------------------------- every threshold

  /** Equal scores only on equal boxes. */
  predicate TieFree(bs: seq<Box>)
  {
    forall i, j :: 0 <= i < j < |bs| && bs[i].score == bs[j].score ==> bs[i] == bs[j]
  }

  lemma SideOverlap(lo1: real, hi1: real, lo2: real, hi2: real)
    ensures hi1 > lo1 ==> 0.0 <= Max(0.0, Min(hi1, hi2) - Max(lo1, lo2)) <= hi1 - lo1
    ensures hi2 > lo2 ==> 0.0 <= Max(0.0, Min(hi1, hi2) - Max(lo1, lo2)) <= hi2 - lo2
  {
  }

  lemma ProductMono(a: real, b: real, c: real, d: real)
    requires 0.0 <= a <= c && 0.0 <= b <= d
    ensures a * b <= c * d
  {
    assert a * b <= c * b;
    assert c * b <= c * d;
  }

  /** Two boxes cannot overlap by more than everything. */
  lemma IouAtMostOne(a: Box, b: Box)
    requires Proper(a) && Proper(b)
    ensures Iou(a, b) <= 1.0
  {
    SideOverlap(a.x1, a.x2, b.x1, b.x2);
    SideOverlap(a.y1, a.y2, b.y1, b.y2);
    var w := Max(0.0, Min(a.x2, b.x2) - Max(a.x1, b.x1));
    var h := Max(0.0, Min(a.y2, b.y2) - Max(a.y1, b.y1));
    ProductMono(w, h, a.x2 - a.x1, a.y2 - a.y1);
    ProductMono(w, h, b.x2 - b.x1, b.y2 - b.y1);
    assert Intersection(a, b) <= Area(a) + Area(b) - Intersection(a, b);
    hide Max, Min, Intersection, Area, Quotient;
    QuotientAtMostOne(Intersection(a, b), Area(a) + Area(b) - Intersection(a, b));
  }

  lemma QuotientAtMostOne(inter: real, denominator: real)
    requires inter <= denominator
    ensures Quotient(inter, denominator) <= 1.0
  {
    if denominator > 0.0 { DivisionAtMostOne(inter, denominator); }
  }

  lemma DivisionAtMostOne(a: real, d: real)
    requires a <= d && d > 0.0
    ensures a / d <= 1.0
  {
    assert d / d == 1.0;
    assert (d - a) / d >= 0.0;
    assert a / d + (d - a) / d == d / d;
  }

  /** At threshold 1 nothing is suppressed, so every tie between different boxes is open. */
  lemma NothingBeatenAtOne(bs: seq<Box>)
    requires AllProper(bs)
    ensures TiesSettled(Arrange(bs), 1.0) <==> TieFree(bs)
  {
    hide Proper, Arrange, Greedy, Iou;
    var a := Arrange(bs);
    ProperArranged(a, bs);
    forall i | 0 <= i < |a| ensures !Beaten(a, a[i], 1.0) { NotBeatenAtOne(a, a[i]); }
    TieFreeArranged(a, bs);
    hide Beaten, AllProper, Arrangement, Sorted;
  }

  lemma NotBeatenAtOne(a: seq<Box>, b: Box)
    requires AllProper(a) && Sorted(a) && Proper(b)
    ensures !Beaten(a, b, 1.0)
  {
    hide Proper, Greedy, Iou, Better;
    BetterIsPrefix(a, b.score);
    var kept := Greedy(Better(a, b.score), 1.0);
    GreedyKeepsProper(Better(a, b.score), 1.0);
    forall k | 0 <= k < |kept| ensures !Overlap(kept[k], b, 1.0) { IouAtMostOne(kept[k], b); }
  }

  lemma TieFreeArranged(a: seq<Box>, bs: seq<Box>)
    requires multiset(a) == multiset(bs)
    ensures TieFree(a) <==> TieFree(bs)
  {
    assert forall b :: b in a <==> b in multiset(a);
    assert forall b :: b in bs <==> b in multiset(bs);
    TieFreeByMembers(a);
    TieFreeByMembers(bs);
    hide TieFree;
  }

  ghost predicate TieFreeMembers(bs: seq<Box>)
  {
    forall b, c :: b in bs && c in bs && b.score == c.score ==> b == c
  }

  lemma TieFreeByMembers(bs: seq<Box>)
    ensures TieFree(bs) <==> TieFreeMembers(bs)
  {
    if TieFree(bs) {
      forall b, c | b in bs && c in bs && b.score == c.score ensures b == c {
        var i :| 0 <= i < |bs| && bs[i] == b;
        var j :| 0 <= j < |bs| && bs[j] == c;
        if i < j { assert bs[i] == bs[j]; } else if j < i { assert bs[j] == bs[i]; }
      }
    }
  }

  lemma NoTiesAreSettled(bs: seq<Box>, threshold: real)
    requires TieFree(bs)
    ensures TiesSettled(Arrange(bs), threshold)
  {
    hide Beaten, Arrange;
    TieFreeArranged(Arrange(bs), bs);
  }

  /** Program and reference agree at every threshold. */
  ghost predicate AgreeAtEveryThreshold(ps: seq<Prediction>, l: Letterbox, confidence: real)
  {
    forall threshold :: 0.0 <= threshold <= 1.0 ==> AgreeForEveryOrder(ps, l, confidence, threshold)
  }

  /** End to end over all thresholds: program and reference agree, for every order of ties and every
      number of proposals, exactly when every confident box has an area and no two different ones
      have the same score. */
  lemma AlwaysMatchesIff(ps: seq<Prediction>, l: Letterbox, confidence: real)
    ensures AgreeAtEveryThreshold(ps, l, confidence)
       <==> AllProper(Decoded(ps, l, confidence)) && TieFree(Decoded(ps, l, confidence))
  {
    hide Decoded, AgreeForEveryOrder, AllProper, Arrange, TiesSettled, TieFree;
    var boxes := Decoded(ps, l, confidence);
    AgreeForEveryOrderIff(ps, l, confidence, 1.0);
    if AgreeAtEveryThreshold(ps, l, confidence) {
      assert AgreeForEveryOrder(ps, l, confidence, 1.0);
      NothingBeatenAtOne(boxes);
    } else if AllProper(boxes) && TieFree(boxes) {
      forall threshold | 0.0 <= threshold <= 1.0 ensures AgreeForEveryOrder(ps, l, confidence, threshold) {
        AgreeForEveryOrderIff(ps, l, confidence, threshold);
        NoTiesAreSettled(boxes, threshold);
      }
    }
  }

  /** On two given lists, when the ties are settled or both sorts have ordered them alike: the proposals
      are the first `max` proper boxes that the reference keeps, and they are the reference's result
      exactly when no box is degenerate or the list is full before the first degenerate one. */
  lemma ProposalsMatchReference(ps: seq<Prediction>, l: Letterbox, confidence: real, sorted: seq<Box>, all: seq<Box>,
                                threshold: real, max: nat)
    requires threshold >= 0.0 && SameInput(ps, l, confidence, sorted, all)
    requires TiesSettled(sorted, threshold) || sorted == ProperOnly(all)
    ensures Take(Greedy(sorted, threshold), max) == Take(ProperOnly(Reference(all, threshold)), max)
    ensures var d := FirstDegenerate(all);
      Take(Greedy(sorted, threshold), max) == Take(Reference(all, threshold), max)
      <==> d == |all| || |Greedy(all[..d], threshold)| >= max
  {
    hide Greedy, Reference, ProperOnly, Proper, TiesSettled, Sorted, Decoded;
    ProperArranged(all, Decoded(ps, l, confidence));
    if sorted != ProperOnly(all) { SettledAlike(sorted, ProperOnly(all), threshold); }
    GreedyIsReference(all, threshold);
    DropDegenerate(all, threshold);
    AgreesWithReferenceIff(all, threshold, max);
  }

  /** Ties ordered differently can matter: of two overlapping boxes with the same score each side
      keeps only the one it sees first. */
  lemma TiesCanDiffer()
    ensures exists a: Box, b: Box :: (
      && a != b && a.score == b.score && Proper(a) && Proper(b) && Sorted([a, b]) && Sorted([b, a])
      && Greedy([a, b], 0.5) == [a] && Reference([b, a], 0.5) == [b])
  {
    var a, b := Box(0.0, 0.0, 4.0, 4.0, 0.9), Box(0.0, 0.0, 4.0, 3.0, 0.9);
    assert Iou(a, b) == 0.75;
    IouSymmetric(a, b);
    GreedyIsReference([a, b], 0.5);
    OnlyTheFirst(a, b, 0.5);
    OnlyTheFirst(b, a, 0.5);
  }

  lemma OnlyTheFirst(a: Box, b: Box, threshold: real)
    requires Overlap(a, b, threshold)
    ensures Reference([a, b], threshold) == [a]
  {
    hide Overlap;
    SingleBox(a, threshold);
    SurvivorsHead(a, b, [], threshold);
    assert [b] + [] == [b] && [a] + [b] == [a, b];
    ReferenceHead(a, [b], threshold);
  }
}
