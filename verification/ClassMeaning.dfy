/** Which class the golden model gives an image, from its bytes on, in plain arithmetic. */
module ClassMeaning {
  import opened FixedWidth
  import opened Sums
  import opened Golden
  import opened Refinement
  import opened NetworkMeaning
  import opened RoiProtocol
  import opened PsPipeline
  import opened Postprocess
  import opened ClassifyOne

  /** `x` is the picture in levels from 0 to 127, with a border of zeros. */
  ghost predicate IsQuantised(x: Tensor, image: seq<Byte>)
  {
    forall y, c, ch ::
      if 1 <= y <= 96 && 1 <= c <= 96 && 0 <= ch < 3 then NearestLevel(x(y, c, ch), Sample(image, y - 1, c - 1, ch))
      else x(y, c, ch) == 0
  }

  /** Between the image and the class: the network's input and output, channel sums and logits. */
  datatype Evidence = Evidence(x: Tensor, t: Tensor, sums: int -> int, logits: int -> int)

  /** `logits` follow from the map `t`. */
  ghost predicate Scores(t: Tensor, n: Network3, sums: int -> int, logits: int -> int)
  {
    && (forall ch :: IsChannelSum(t, 12, 12, ch, sums(ch)))
    && forall k :: logits(k) == n.fcBias(k) + Sum(64, ch => sums(ch) * n.fcWeight(k, ch))
  }

  ghost predicate Explains(image: seq<Byte>, n: Network3, e: Evidence)
  {
    && IsQuantised(e.x, image) && IsNetwork(e.x, 96, n.l0, n.l1, n.l2, e.t, false) && Scores(e.t, n, e.sums, e.logits)
  }

  /** `id` has the largest logit, and the classes before it have smaller ones. */
  ghost predicate Wins(logits: int -> int, classes: nat, id: int)
  {
    0 <= id < classes &&
    forall i :: 0 <= i < classes ==> if i < id then logits(i) < logits(id) else logits(i) <= logits(id)
  }

  ghost predicate IsGoldenClass(image: seq<Byte>, n: Network3, classes: nat, id: int)
  {
    exists e: Evidence :: Explains(image, n, e) && Wins(e.logits, classes, id)
  }

  // ---------------------------------------------------------------- the code's functions are these

  lemma InputIsQuantised(image: seq<Byte>)
    requires |image| == IMAGE_SIZE
    ensures IsQuantised(PaddedInput(image), image)
  {
    hide NearestLevel, Sample;
    var x := PaddedInput(image);
    forall y, c, ch
      ensures if 1 <= y <= 96 && 1 <= c <= 96 && 0 <= ch < 3 then
                NearestLevel(x(y, c, ch), Sample(image, y - 1, c - 1, ch))
              else x(y, c, ch) == 0
    {
      if 1 <= y <= 96 && 1 <= c <= 96 && 0 <= ch < 3 { QuantizedLevel(image, y - 1, c - 1, ch); }
    }
  }

  lemma LogitsAre(t: Tensor, n: Network3)
    ensures Scores(t, n, ChannelSum(t, GAP_SIDE, GAP_SIDE), GoldenLogits(t, n))
  {
    hide Sum, ChannelSum;
    var f := ChannelSum(t, GAP_SIDE, GAP_SIDE);
    forall ch ensures IsChannelSum(t, 12, 12, ch, f(ch)) { ChannelSumIs(t, 12, 12, ch); }
    forall k ensures GoldenLogits(t, n)(k) == n.fcBias(k) + Sum(64, ch => f(ch) * n.fcWeight(k, ch)) {
      SumExt(CHANNELS, GoldenTerm(f, n.fcWeight, k), ch => f(ch) * n.fcWeight(k, ch));
    }
  }

  /** What run_golden reports is the class of the image in that sense. */
  lemma GoldenClassIs(image: seq<Byte>, n: Network3, classes: nat, id: int)
    requires |image| == IMAGE_SIZE && GoldenClass(image, n, classes, id)
    ensures IsGoldenClass(image, n, classes, id)
  {
    hide GoldenLogits, ChannelSum, PaddedInput, Network, IsNetwork, IsQuantised, Scores;
    var x, t := PaddedInput(image), GoldenMap(image, n);
    InputIsQuantised(image);
    NetworkHolds(x, 96, n.l0, n.l1, n.l2, false);
    LogitsAre(t, n);
    var e := Evidence(x, t, ChannelSum(t, GAP_SIDE, GAP_SIDE), GoldenLogits(t, n));
    assert Explains(image, n, e) && Wins(e.logits, classes, id);
  }

  /** On the board, with any divisor, the class is the first with the largest of its own logits. */
  ghost predicate IsBoardClass(t: Tensor, n: Network3, divisor: int, classes: nat, id: int)
    requires 0 < divisor < 0x1_0000_0000
  {
    exists sums: int -> int, logits: int -> int ::
      (forall ch :: IsChannelSum(t, 12, 12, ch, sums(ch))) &&
      BoardScores(n, divisor, sums, logits) && Wins(logits, classes, id)
  }

  ghost predicate BoardScores(n: Network3, divisor: int, sums: int -> int, logits: int -> int)
    requires 0 < divisor < 0x1_0000_0000
  {
    var d := if divisor <= 0x7FFF_FFFF then divisor else divisor - 0x1_0000_0000;
    forall k :: IsLogit(sums, n.fcWeight, n.fcBias, d, k, logits(k))
  }

  lemma BoardClassIs(t: Tensor, n: Network3, divisor: int, classes: nat, id: int)
    requires 0 < divisor < 0x1_0000_0000 && BoardClass(t, n, divisor, classes, id)
    ensures IsBoardClass(t, n, divisor, classes, id)
  {
    hide ChannelSum, IsChannelSum, Logit, IsLogit;
    var f := ChannelSum(t, GAP_SIDE, GAP_SIDE);
    forall ch ensures IsChannelSum(t, 12, 12, ch, f(ch)) { ChannelSumIs(t, 12, 12, ch); }
    var logits := Logits(f, n, SignedDivisor(divisor));
    forall k ensures IsLogit(f, n.fcWeight, n.fcBias, SignedDivisor(divisor), k, logits(k)) {
      LogitIs(f, n.fcWeight, n.fcBias, SignedDivisor(divisor), k);
    }
    assert BoardScores(n, divisor, f, logits) && Wins(logits, classes, id);
  }

  // ---------------------------------------------------------------- and no other class is

  lemma LevelUnique(p: int, q: int, v: int)
    requires NearestLevel(p, v) && NearestLevel(q, v)
    ensures p == q
  {
  }

  lemma QuantisedSame(x: Tensor, y: Tensor, image: seq<Byte>)
    requires IsQuantised(x, image) && IsQuantised(y, image)
    ensures Same(x, y)
  {
    hide NearestLevel, Sample;
    forall r, c, ch ensures x(r, c, ch) == y(r, c, ch) {
      if 1 <= r <= 96 && 1 <= c <= 96 && 0 <= ch < 3 {
        LevelUnique(x(r, c, ch), y(r, c, ch), Sample(image, r - 1, c - 1, ch));
      }
    }
  }

  lemma NetworkSame(x: Tensor, y: Tensor, n: Network3, t: Tensor)
    requires Same(x, y) && IsNetwork(x, 96, n.l0, n.l1, n.l2, t, false)
    ensures IsNetwork(y, 96, n.l0, n.l1, n.l2, t, false)
  {
    var m: Maps :| Connects(x, 96, n.l0, n.l1, n.l2, m, t, false);
    hide IsPooled, IsPadded;
    assert IsConvolved(m.c0, y, n.l0, false) by { ConvolvedFrom(m.c0, x, y, n.l0); }
    hide IsConvolved, Same;
    assert Connects(y, 96, n.l0, n.l1, n.l2, m, t, false);
  }

  lemma ConvolvedFrom(p: Tensor, z: Tensor, y: Tensor, l: Layer)
    requires Same(z, y) && IsConvolved(p, z, l, false)
    ensures IsConvolved(p, y, l, false)
  {
    hide IsConvSum, Requantised, Same;
    forall r, c, oc ensures IsPixel(y, l, r, c, oc, p(r, c, oc)) {
      assert IsPixel(z, l, r, c, oc, p(r, c, oc));
      var acc :| IsConvSum(z, l, r, c, oc, acc) && Requantised(p(r, c, oc), acc, l.requant);
      ConvSumSame(z, y, l, r, c, oc, acc);
    }
  }

  lemma ChannelSumSame(t: Tensor, u: Tensor, h: nat, w: nat, ch: int, s: int, r: int)
    requires Same(t, u) && IsChannelSum(t, h, w, ch, s) && IsChannelSum(u, h, w, ch, r)
    ensures s == r
  {
    hide Sum;
    var a: int -> int :| (forall y :: a(y) == Sum(w, x => t(y, x, ch))) && s == Sum(h, a);
    var b: int -> int :| (forall y :: b(y) == Sum(w, x => u(y, x, ch))) && r == Sum(h, b);
    forall y ensures a(y) == b(y) { SumExt(w, x => t(y, x, ch), x => u(y, x, ch)); }
    SumExt(h, a, b);
  }

  lemma ScoresSame(t: Tensor, u: Tensor, n: Network3, f: int -> int, a: int -> int, g: int -> int, b: int -> int)
    requires Same(t, u) && Scores(t, n, f, a) && Scores(u, n, g, b)
    ensures forall k :: a(k) == b(k)
  {
    hide Sum, IsChannelSum, Same;
    forall ch ensures f(ch) == g(ch) { ChannelSumSame(t, u, 12, 12, ch, f(ch), g(ch)); }
    forall k ensures a(k) == b(k) { SumExt(64, ch => f(ch) * n.fcWeight(k, ch), ch => g(ch) * n.fcWeight(k, ch)); }
  }

  lemma WinnerUnique(a: int -> int, b: int -> int, classes: nat, i: int, j: int)
    requires (forall k :: a(k) == b(k)) && Wins(a, classes, i) && Wins(b, classes, j)
    ensures i == j
  {
    assert a(i) == b(i) && a(j) == b(j);
    assert if i < j then b(i) < b(j) else b(i) <= b(j);
    assert if j < i then a(j) < a(i) else a(j) <= a(i);
  }

  /** An image has only one class. */
  lemma GoldenClassUnique(image: seq<Byte>, n: Network3, classes: nat, i: int, j: int)
    requires IsGoldenClass(image, n, classes, i) && IsGoldenClass(image, n, classes, j)
    ensures i == j
  {
    hide IsQuantised, IsNetwork, Scores, Wins;
    var d: Evidence :| Explains(image, n, d) && Wins(d.logits, classes, i);
    var e: Evidence :| Explains(image, n, e) && Wins(e.logits, classes, j);
    QuantisedSame(d.x, e.x, image);
    NetworkSame(d.x, e.x, n, d.t);
    NetworkUnique(e.x, 96, n.l0, n.l1, n.l2, d.t, e.t, false);
    hide Same;
    ScoresSame(d.t, e.t, n, d.sums, d.logits, e.sums, e.logits);
    WinnerUnique(d.logits, e.logits, classes, i, j);
  }
}
