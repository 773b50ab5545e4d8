/** classifier_postprocess.c: channel sums, fully connected layer and argmax. */
module Postprocess {
  import opened FixedWidth
  import opened Sums
  import opened Golden
  import opened Refinement
  import opened PsPipeline

  datatype Status = Ok | InvalidArgument | Overflow

  function GapRow(t: Tensor, ch: int, y: int): int -> int { x => t(y, x, ch) }

  function GapRows(t: Tensor, ch: int, w: nat): int -> int { y => Sum(w, GapRow(t, ch, y)) }

  /** The golden model's gap_sum. */
  function ChannelSum(t: Tensor, h: nat, w: nat): int -> int { ch => Sum(h, GapRows(t, ch, w)) }

  /** `s` is the sum of channel `ch` over an h x w map. */
  ghost predicate IsChannelSum(t: Tensor, h: nat, w: nat, ch: int, s: int)
  {
    exists rows: int -> int :: (forall y :: rows(y) == Sum(w, x => t(y, x, ch))) && s == Sum(h, rows)
  }

  lemma ChannelSumIs(t: Tensor, h: nat, w: nat, ch: int)
    ensures IsChannelSum(t, h, w, ch, ChannelSum(t, h, w)(ch))
  {
    hide Sum;
    var rows := GapRows(t, ch, w);
    forall y ensures rows(y) == Sum(w, x => t(y, x, ch)) {
      SumExt(w, GapRow(t, ch, y), x => t(y, x, ch));
    }
    assert ChannelSum(t, h, w)(ch) == Sum(h, rows);
  }

  /** What channel `ch` holds after `y` full rows and `x` pixels of the next. */
  function GapAt(t: Tensor, ch: int, w: nat, y: nat, x: nat): int
  {
    Sum(y, GapRows(t, ch, w)) + Sum(x, GapRow(t, ch, y))
  }

  lemma GapSteps(t: Tensor, ch: int, w: nat, y: nat, x: nat)
    ensures GapAt(t, ch, w, 0, 0) == 0
    ensures GapAt(t, ch, w, y, x + 1) == GapAt(t, ch, w, y, x) + t(y, x, ch)
    ensures GapAt(t, ch, w, y + 1, 0) == GapAt(t, ch, w, y, w)
    ensures ChannelSum(t, y, w)(ch) == GapAt(t, ch, w, y, 0)
  {
  }

  /** Channels before `ch` have the current pixel added; none can have left 32 bits. */
  ghost predicate SumsAt(sums: array<Int32>, t: Tensor, y: nat, x: nat, ch: nat)
    requires sums.Length == CHANNELS
    reads sums
  {
    forall k :: 0 <= k < CHANNELS ==>
      && sums[k] == GapAt(t, k, GAP_SIDE, y, if k < ch then x + 1 else x)
      && var n := y * GAP_SIDE + (if k < ch then x + 1 else x);
         -128 * n <= sums[k] <= 128 * n
  }

  /** `adas_classifier_gap_sum`. */
  method GapSum(plOutput: array<Int8>, sums: array<Int32>, ghost t: Tensor)
    requires plOutput.Length == GAP_SIDE * GAP_SIDE * CHANNELS && sums.Length == CHANNELS
    requires FlatHolds(plOutput[..], GAP_SIDE, GAP_SIDE, CHANNELS, t)
    modifies sums
    ensures forall k :: 0 <= k < CHANNELS ==> sums[k] == ChannelSum(t, GAP_SIDE, GAP_SIDE)(k)
    ensures forall k :: 0 <= k < CHANNELS ==> IsBufferSum(plOutput[..], k, sums[k])
  {
    hide IsBufferSum;
    for k := 0 to CHANNELS
      invariant forall j :: 0 <= j < k ==> sums[j] == 0
    {
      sums[k] := 0;
    }
    forall k ensures GapAt(t, k, GAP_SIDE, 0, 0) == 0 { GapSteps(t, k, GAP_SIDE, 0, 0); }
    for y := 0 to GAP_SIDE
      invariant SumsAt(sums, t, y, 0, 0)
    {
      for x := 0 to GAP_SIDE
        invariant SumsAt(sums, t, y, x, 0)
      {
        AddPixel(plOutput, sums, t, y, x);
      }
      hide GapAt;
      forall k { GapSteps(t, k, GAP_SIDE, y, 0); }
    }
    hide GapAt, ChannelSum;
    forall k { GapSteps(t, k, GAP_SIDE, GAP_SIDE, 0); }
    forall k | 0 <= k < CHANNELS ensures IsBufferSum(plOutput[..], k, sums[k]) { BufferSum(plOutput[..], t, k); }
  }

  /** `s` is the sum of every 64th element from `k` on, over the 12 x 12 pixels of the output buffer. */
  ghost predicate IsBufferSum(output: seq<Int8>, k: int, s: int)
  {
    exists rows: int -> int ::
      (forall y :: rows(y) == Sum(12, x => Cell(output, (y * 12 + x) * 64 + k))) && s == Sum(12, rows)
  }

  lemma BufferSum(output: seq<Int8>, t: Tensor, k: int)
    requires FlatHolds(output, GAP_SIDE, GAP_SIDE, CHANNELS, t) && 0 <= k < CHANNELS
    ensures IsBufferSum(output, k, ChannelSum(t, GAP_SIDE, GAP_SIDE)(k))
  {
    hide Sum;
    var rows := y => Sum(12, x => Cell(output, (y * 12 + x) * 64 + k));
    forall y | 0 <= y < 12 ensures rows(y) == GapRows(t, k, GAP_SIDE)(y) {
      BufferRow(output, t, k, y);
    }
    SumExt(12, rows, GapRows(t, k, GAP_SIDE));
  }

  lemma BufferRow(output: seq<Int8>, t: Tensor, k: int, y: int)
    requires FlatHolds(output, GAP_SIDE, GAP_SIDE, CHANNELS, t) && 0 <= k < CHANNELS && 0 <= y < 12
    ensures Sum(12, x => Cell(output, (y * 12 + x) * 64 + k)) == Sum(12, GapRow(t, k, y))
  {
    hide Sum;
    forall x | 0 <= x < 12 ensures Cell(output, (y * 12 + x) * 64 + k) == GapRow(t, k, y)(x) {
      OffsetBounds(y, x, k, GAP_SIDE, GAP_SIDE, CHANNELS);
    }
    SumExt(12, x => Cell(output, (y * 12 + x) * 64 + k), GapRow(t, k, y));
  }

  lemma PixelAt(plOutput: array<Int8>, t: Tensor, y: nat, x: nat, ch: nat)
    requires plOutput.Length == GAP_SIDE * GAP_SIDE * CHANNELS && y < GAP_SIDE && x < GAP_SIDE && ch < CHANNELS
    requires FlatHolds(plOutput[..], GAP_SIDE, GAP_SIDE, CHANNELS, t)
    ensures var index := (y * GAP_SIDE + x) * CHANNELS + ch;
      0 <= index < plOutput.Length && plOutput[index] == t(y, x, ch)
  {
    OffsetBounds(y, x, ch, GAP_SIDE, GAP_SIDE, CHANNELS);
  }

  /** One step of the running sum stays within 32 bits. */
  lemma RunningSum(a: int, b: int, y: nat, x: nat)
    requires y < GAP_SIDE && x < GAP_SIDE && -128 <= b <= 127
    requires var n := y * GAP_SIDE + x; -128 * n <= a <= 128 * n
    ensures var n := y * GAP_SIDE + (x + 1); -128 * n <= a + b <= 128 * n && -0x8000_0000 <= a + b < 0x8000_0000
  {
  }

  method AddPixel(plOutput: array<Int8>, sums: array<Int32>, ghost t: Tensor, y: nat, x: nat)
    requires plOutput.Length == GAP_SIDE * GAP_SIDE * CHANNELS && sums.Length == CHANNELS
    requires FlatHolds(plOutput[..], GAP_SIDE, GAP_SIDE, CHANNELS, t)
    requires y < GAP_SIDE && x < GAP_SIDE && SumsAt(sums, t, y, x, 0)
    modifies sums
    ensures SumsAt(sums, t, y, x + 1, 0)
  {
    hide GapAt, FlatHolds;
    for ch := 0 to CHANNELS
      invariant SumsAt(sums, t, y, x, ch)
    {
      hide SumsAt;
      AddChannel(plOutput, sums, t, y, x, ch);
    }
  }

  method AddChannel(plOutput: array<Int8>, sums: array<Int32>, ghost t: Tensor, y: nat, x: nat, ch: nat)
    requires plOutput.Length == GAP_SIDE * GAP_SIDE * CHANNELS && sums.Length == CHANNELS && ch < CHANNELS
    requires FlatHolds(plOutput[..], GAP_SIDE, GAP_SIDE, CHANNELS, t)
    requires y < GAP_SIDE && x < GAP_SIDE && SumsAt(sums, t, y, x, ch)
    modifies sums
    ensures SumsAt(sums, t, y, x, ch + 1)
  {
    hide GapAt, FlatHolds;
    var index := (y * GAP_SIDE + x) * CHANNELS + ch;
    PixelAt(plOutput, t, y, x, ch);
    GapSteps(t, ch, GAP_SIDE, y, x);
    var a: int, b: int := sums[ch], plOutput[index];
    RunningSum(a, b, y, x);
    sums[ch] := a + b;
  }

  /** C division of signed integers, rounding toward zero. */
  function TruncDiv(a: int, d: int): (q: int)
    requires d != 0
    ensures d >= 1 && a >= 0 ==> 0 <= q <= a
  {
    if a >= 0 then (if d > 0 then a / d else -(a / -d))
    else if d > 0 then -(-a / d) else -a / -d
  }

  /** `q` is a / d without its fraction: the remainder is smaller than the divisor and on the side of `a`. */
  predicate IsTruncated(q: int, a: int, d: int)
  {
    var r := a - q * d;
    (if a >= 0 then r >= 0 else r <= 0) && if d > 0 then -d < r < d else d < r < -d
  }

  lemma TruncDivIs(a: int, d: int)
    requires d != 0
    ensures IsTruncated(TruncDiv(a, d), a, d)
  {
    hide TruncDiv;
    var n, e := if a >= 0 then a else -a, if d > 0 then d else -d;
    var q, r := Division(n, e);
    QuotientSign(a, d, q);
    SignedProduct(q, e, TruncDiv(a, d), d, a >= 0);
  }

  lemma Division(n: int, e: int) returns (q: int, r: int)
    requires e > 0
    ensures q == n / e && n == q * e + r && 0 <= r < e
  {
    q, r := n / e, n % e;
  }

  lemma QuotientSign(a: int, d: int, q: int)
    requires d != 0 && q == (if a >= 0 then a else -a) / (if d > 0 then d else -d)
    ensures TruncDiv(a, d) == if (a >= 0) == (d > 0) then q else -q
  {
  }

  lemma SignedProduct(q: int, e: int, t: int, d: int, positive: bool)
    requires e > 0 && (d == e || d == -e) && t == if positive == (d > 0) then q else -q
    ensures t * d == if positive then q * e else -(q * e)
  {
    assert (-q) * e == -(q * e) && q * (-e) == -(q * e) && (-q) * (-e) == q * e;
  }

  /** `(int32_t)feature_scale_divisor`: an unsigned divisor from 2^31 on turns negative. */
  function SignedDivisor(divisor: int): (d: int)
    requires 0 < divisor < 0x1_0000_0000
    ensures d != 0
    ensures d == if divisor <= 0x7FFF_FFFF then divisor else divisor - 0x1_0000_0000
  {
    Wrap32(divisor)
  }

  function FcTerm(f: int -> int, w: (int, int) -> int, d: int, k: int): int -> int
    requires d != 0
  {
    ch => TruncDiv(f(ch), d) * w(k, ch)
  }

  /** The 64-bit accumulator of class `k`. */
  function Logit(f: int -> int, w: (int, int) -> int, b: int -> int, d: int, k: int): int
    requires d != 0
  {
    b(k) + Sum(CHANNELS, FcTerm(f, w, d, k))
  }

  ghost predicate Divided(q: int -> int, f: int -> int, d: int) { forall ch :: IsTruncated(q(ch), f(ch), d) }

  ghost predicate Weighted(terms: int -> int, q: int -> int, w: (int, int) -> int, k: int)
  {
    forall ch :: terms(ch) == q(ch) * w(k, ch)
  }

  /** `logit` is the bias of class `k` plus the weighted channel sums, each divided by `d` first. */
  ghost predicate IsLogit(f: int -> int, w: (int, int) -> int, b: int -> int, d: int, k: int, logit: int)
  {
    exists q: int -> int, terms: int -> int ::
      Divided(q, f, d) && Weighted(terms, q, w, k) && logit == b(k) + Sum(64, terms)
  }

  lemma LogitIs(f: int -> int, w: (int, int) -> int, b: int -> int, d: int, k: int)
    requires d != 0
    ensures IsLogit(f, w, b, d, k, Logit(f, w, b, d, k))
  {
    hide Sum, TruncDiv, Divided, Weighted, FcTerm;
    var q := Quotients(f, d);
    TermsWeighted(f, w, d, k, q);
    assert Logit(f, w, b, d, k) == b(k) + Sum(64, FcTerm(f, w, d, k));
    hide Logit;
  }

  lemma Quotients(f: int -> int, d: int) returns (q: int -> int)
    requires d != 0
    ensures Divided(q, f, d) && forall ch :: q(ch) == TruncDiv(f(ch), d)
  {
    hide TruncDiv, IsTruncated;
    q := ch => TruncDiv(f(ch), d);
    forall ch ensures IsTruncated(q(ch), f(ch), d) { TruncDivIs(f(ch), d); }
  }

  lemma TermsWeighted(f: int -> int, w: (int, int) -> int, d: int, k: int, q: int -> int)
    requires d != 0 && forall ch :: q(ch) == TruncDiv(f(ch), d)
    ensures Weighted(FcTerm(f, w, d, k), q, w, k)
  {
    hide TruncDiv;
  }

  ghost predicate FcInputs(sums: array<Int32>, weights: array<Int8>, biases: array<Int32>, classes: nat,
                           f: int -> int, w: (int, int) -> int, b: int -> int)
    reads sums, weights, biases
  {
    && sums.Length == CHANNELS && weights.Length == classes * CHANNELS && biases.Length == classes
    && (forall ch :: 0 <= ch < CHANNELS ==> sums[ch] == f(ch))
    && (forall k :: 0 <= k < classes ==> biases[k] == b(k))
    && forall k, ch :: 0 <= k < classes && 0 <= ch < CHANNELS ==> weights[k * CHANNELS + ch] == w(k, ch)
  }

  ghost predicate AllFit(f: int -> int, w: (int, int) -> int, b: int -> int, d: int, classes: nat)
    requires d != 0
  {
    forall k :: 0 <= k < classes ==> InInt32(Logit(f, w, b, d, k))
  }

  /** `adas_classifier_fc`: every logit exactly, or the overflow status at the first one that
      leaves 32 bits; never a truncated value. */
  method Fc(sums: array<Int32>, divisor: nat, weights: array<Int8>, biases: array<Int32>, classes: nat,
            logits: array<Int32>,
            ghost f: int -> int, ghost w: (int, int) -> int, ghost b: int -> int) returns (status: Status)
    requires divisor < 0x1_0000_0000 && logits.Length == classes && logits != sums && logits != biases
    requires FcInputs(sums, weights, biases, classes, f, w, b)
    modifies logits
    ensures status == InvalidArgument <==> divisor == 0 || classes == 0
    ensures divisor != 0 && classes != 0 ==> (status == Ok <==> AllFit(f, w, b, SignedDivisor(divisor), classes))
    ensures status == Ok ==> forall k :: 0 <= k < classes ==> logits[k] == Logit(f, w, b, SignedDivisor(divisor), k)
    ensures status == Ok ==> forall k :: 0 <= k < classes ==> IsLogit(f, w, b, SignedDivisor(divisor), k, logits[k])
  {
    hide Logit, SignedDivisor, IsLogit;
    if divisor == 0 || classes == 0 { return InvalidArgument; }
    var d := SignedDivisor(divisor);
    for k := 0 to classes
      invariant FcInputs(sums, weights, biases, classes, f, w, b)
      invariant forall j :: 0 <= j < k ==> logits[j] == Logit(f, w, b, d, j)
    {
      var acc := FcRow(sums, d, weights, biases, classes, k, f, w, b);
      if acc < -0x8000_0000 || acc > 0x7FFF_FFFF { return Overflow; }
      logits[k] := acc;
    }
    status := Ok;
    forall k | 0 <= k < classes ensures IsLogit(f, w, b, d, k, logits[k]) { LogitIs(f, w, b, d, k); }
  }

  method FcRow(sums: array<Int32>, d: int, weights: array<Int8>, biases: array<Int32>, classes: nat, k: nat,
               ghost f: int -> int, ghost w: (int, int) -> int, ghost b: int -> int) returns (acc: int)
    requires d != 0 && k < classes && FcInputs(sums, weights, biases, classes, f, w, b)
    ensures acc == Logit(f, w, b, d, k)
  {
    acc := biases[k];
    for ch := 0 to CHANNELS
      invariant acc == b(k) + Sum(ch, FcTerm(f, w, d, k))
    {
      var feature := TruncDiv(sums[ch], d);
      var weight: int := weights[k * CHANNELS + ch];
      acc := acc + feature * weight;
    }
  }

  /** With activations from the accelerator (at most 127 each), 8-bit weights and biases that
      leave 149815296 of room, the fully connected layer cannot report overflow. */
  lemma FcNeverOverflows(t: Tensor, w: (int, int) -> int, b: int -> int, d: int, k: int)
    requires forall y, x, ch :: 0 <= t(y, x, ch) <= 127
    requires forall ch :: -128 <= w(k, ch) <= 127
    requires d >= 1 && -(0x7FFF_FFFF - 149815296) <= b(k) <= 0x7FFF_FFFF - 149815296
    ensures InInt32(Logit(ChannelSum(t, GAP_SIDE, GAP_SIDE), w, b, d, k))
  {
    hide Sum, FcTerm, ChannelSum;
    var g := FcTerm(ChannelSum(t, GAP_SIDE, GAP_SIDE), w, d, k);
    assert Bounded(CHANNELS, g, 2340864) by {
      forall ch | 0 <= ch < CHANNELS ensures -2340864 <= g(ch) <= 2340864 {
        FcTermBound(t, w, d, k, ch);
      }
    }
    hide Bounded;
    SumBound(CHANNELS, g, 2340864);
  }

  lemma FcTermBound(t: Tensor, w: (int, int) -> int, d: int, k: int, ch: int)
    requires forall y, x, ch :: 0 <= t(y, x, ch) <= 127
    requires d >= 1 && -128 <= w(k, ch) <= 127
    ensures -2340864 <= FcTerm(ChannelSum(t, GAP_SIDE, GAP_SIDE), w, d, k)(ch) <= 2340864
  {
    hide ChannelSum, TruncDiv;
    ChannelSumBound(t, GAP_SIDE, GAP_SIDE, ch);
    var q := TruncDiv(ChannelSum(t, GAP_SIDE, GAP_SIDE)(ch), d);
    assert 0 <= q <= 18288 by { DivisionShrinks(ChannelSum(t, GAP_SIDE, GAP_SIDE)(ch), d); }
    ScaledBound(q, w(k, ch), 18288);
  }

  lemma DivisionShrinks(a: int, d: int)
    requires d >= 1 && a >= 0
    ensures 0 <= TruncDiv(a, d) <= a
  {
  }

  lemma ScaledBound(q: int, w: int, limit: int)
    requires 0 <= q <= limit && -128 <= w <= 127
    ensures -limit * 128 <= q * w <= limit * 128
  {
    MulMono(0, q, 128);
    MulMono(q, limit, 128);
    MulMono(-128, w, q);
    MulMono(w, 128, q);
  }

  lemma ChannelSumBound(t: Tensor, h: nat, w: nat, ch: int)
    requires forall y, x, ch :: 0 <= t(y, x, ch) <= 127
    ensures 0 <= ChannelSum(t, h, w)(ch) <= 127 * w * h
  {
    forall y | 0 <= y < h ensures 0 <= GapRows(t, ch, w)(y) <= 127 * w {
      NonNegativeSum(w, GapRow(t, ch, y), 127);
    }
    NonNegativeSum(h, GapRows(t, ch, w), 127 * w);
  }

  lemma {:induction false} NonNegativeSum(n: nat, f: int -> int, bound: int)
    requires forall i :: 0 <= i < n ==> 0 <= f(i) <= bound
    ensures 0 <= Sum(n, f) <= bound * n
  {
    if n > 0 {
      NonNegativeSum(n - 1, f, bound);
      assert bound * n == bound * (n - 1) + bound;
    }
  }

  /** The index of the first maximum. */
  ghost predicate FirstMax(n: nat, f: int -> int, id: int)
  {
    && 0 <= id < n
    && (forall i :: 0 <= i < n ==> f(i) <= f(id))
    && forall i :: 0 <= i < id ==> f(i) < f(id)
  }

  lemma FirstMaxUnique(n: nat, f: int -> int, a: int, b: int)
    requires FirstMax(n, f, a) && FirstMax(n, f, b)
    ensures a == b
  {
    assert f(a) <= f(b) && f(b) <= f(a);
  }

  /** `adas_classifier_argmax`: only a strictly larger logit replaces the best so far. */
  method Argmax(logits: array<Int32>, classes: nat, ghost f: int -> int) returns (status: Status, classId: nat)
    requires logits.Length == classes && forall i :: 0 <= i < classes ==> logits[i] == f(i)
    ensures status == if classes == 0 then InvalidArgument else Ok
    ensures status == Ok ==> FirstMax(classes, f, classId)
    ensures status == Ok ==> classId < classes && forall i :: 0 <= i < classes ==> logits[i] <= logits[classId]
    ensures status == Ok ==> forall i :: 0 <= i < classId ==> logits[i] < logits[classId]
  {
    classId := 0;
    if classes == 0 { return InvalidArgument, 0; }
    for index := 1 to classes
      invariant FirstMax(index, f, classId)
    {
      if logits[index] > logits[classId] { classId := index; }
    }
    status := Ok;
  }
}
