/** The accelerator's result is the golden network's result whenever no accumulator and no shifted
    product leaves the 32-bit range; a bound on the exported parameters alone guarantees that. */
module Refinement {
  import opened FixedWidth
  import opened Sums
  import opened Golden
  import opened PackedMac
  import opened Engine

  ghost predicate AgreeOn(x: Tensor, z: Tensor, h: int, w: int, channels: int)
  {
    forall y, c, ch :: 0 <= y < h && 0 <= c < w && 0 <= ch < channels ==> x(y, c, ch) == z(y, c, ch)
  }

  /** A dot product only looks at its own window. */
  lemma DotLocal(x: Tensor, z: Tensor, h: int, w: int, k: Kernel, n: nat, cin: nat, y: int, c: int, oc: int)
    requires AgreeOn(x, z, h, w, cin)
    requires 0 <= y && y + n <= h && 0 <= c && c + n <= w
    ensures Dot(x, k, n, cin, y, c, oc) == Dot(z, k, n, cin, y, c, oc)
  {
    forall ky | 0 <= ky < n ensures Rows(x, k, n, cin, y, c, oc)(ky) == Rows(z, k, n, cin, y, c, oc)(ky) {
      forall kx | 0 <= kx < n
        ensures Columns(x, k, cin, y, c, oc, ky)(kx) == Columns(z, k, cin, y, c, oc, ky)(kx)
      {
        forall ic | 0 <= ic < cin ensures Tap(x, k, y, c, oc, ky, kx)(ic) == Tap(z, k, y, c, oc, ky, kx)(ic) {
          assert x(y + ky, c + kx, ic) == z(y + ky, c + kx, ic);
        }
        SumExt(cin, Tap(x, k, y, c, oc, ky, kx), Tap(z, k, y, c, oc, ky, kx));
      }
      SumExt(n, Columns(x, k, cin, y, c, oc, ky), Columns(z, k, cin, y, c, oc, ky));
    }
    SumExt(n, Rows(x, k, n, cin, y, c, oc), Rows(z, k, n, cin, y, c, oc));
  }

  ghost predicate InInt32(v: int) { -0x8000_0000 <= v < 0x8000_0000 }

  /** One pixel of a stage: neither its accumulator nor its shifted product overflows. */
  ghost predicate PixelFits(x: Tensor, l: Layer, y: int, c: int, oc: int)
  {
    && InInt32(Accumulator(x, l, y, c, oc))
    && InInt32(ShiftRight(Accumulator(x, l, y, c, oc) * l.requant.multiplier, l.requant.shift))
  }

  /** No pixel of an h x w stage overflows. */
  ghost predicate StageFits(x: Tensor, l: Layer, h: int, w: int, outCh: int)
  {
    forall y, c, oc :: 0 <= y < h && 0 <= c < w && 0 <= oc < outCh ==> PixelFits(x, l, y, c, oc)
  }

  lemma ConvExact(x: Tensor, z: Tensor, l: Layer, h: int, w: int, outCh: int, y: int, c: int, oc: int)
    requires l.side == 3 && AgreeOn(x, z, h + 2, w + 2, l.cin) && StageFits(z, l, h, w, outCh)
    requires 0 <= y < h && 0 <= c < w && 0 <= oc < outCh
    ensures HwConvOut(x, l)(y, c, oc) == ConvOut(z, l)(y, c, oc)
  {
    var acc := Accumulator(z, l, y, c, oc);
    assert PixelFits(z, l, y, c, oc);
    assert Wrap32(acc) == acc;
    hide Dot, AgreeOn, StageFits;
    DotLocal(x, z, h + 2, w + 2, l.kernel, l.side, l.cin, y, c, oc);
    assert Accumulator(x, l, y, c, oc) == acc;
    hide Clip, ShiftRight;
  }

  /** One stage: hardware on `x` and golden on `z` agree where `x` and `z` do. */
  lemma StageExact(x: Tensor, z: Tensor, l: Layer, h: int, w: int, outCh: int)
    requires l.side == 3 && AgreeOn(x, z, h + 2, w + 2, l.cin) && StageFits(z, l, h, w, outCh)
    ensures AgreeOn(HwStage(x, l), Stage(z, l), h / 2, w / 2, outCh)
  {
    hide HwConvOut, ConvOut;
    forall y, c, oc | 0 <= y < h / 2 && 0 <= c < w / 2 && 0 <= oc < outCh
      ensures HwStage(x, l)(y, c, oc) == Stage(z, l)(y, c, oc)
    {
      ConvExact(x, z, l, h, w, outCh, 2 * y, 2 * c, oc);
      ConvExact(x, z, l, h, w, outCh, 2 * y, 2 * c + 1, oc);
      ConvExact(x, z, l, h, w, outCh, 2 * y + 1, 2 * c, oc);
      ConvExact(x, z, l, h, w, outCh, 2 * y + 1, 2 * c + 1, oc);
    }
  }

  lemma PadAgree(x: Tensor, z: Tensor, h: int, w: int, channels: int)
    requires AgreeOn(x, z, h, w, channels)
    ensures AgreeOn(Pad(x, h, w), Pad(z, h, w), h + 2, w + 2, channels)
  {
    forall y, c, ch | 0 <= y < h + 2 && 0 <= c < w + 2 && 0 <= ch < channels
      ensures Pad(x, h, w)(y, c, ch) == Pad(z, h, w)(y, c, ch)
    {
      if 1 <= y <= h && 1 <= c <= w { assert x(y - 1, c - 1, ch) == z(y - 1, c - 1, ch); }
    }
  }

  /** What the hardware computes for a whole image, truncations included. */
  function HwNetwork(x: Tensor, size: int, l0: Layer, l1: Layer, l2: Layer): Tensor
  {
    var p0 := HwStage(x, l0);
    var p1 := HwStage(Pad(p0, size / 2, size / 2), l1);
    HwStage(Pad(p1, size / 4, size / 4), l2)
  }

  ghost predicate Chained(l0: Layer, l1: Layer, l2: Layer, c0: int, c1: int)
  {
    l0.side == 3 && l1.side == 3 && l2.side == 3 && l1.cin == c0 && l2.cin == c1
  }

  /** No accumulator and no shifted product of the golden run leaves the 32-bit range. */
  ghost predicate NetworkFits(x: Tensor, size: int, l0: Layer, l1: Layer, l2: Layer, c0: int, c1: int, c2: int)
  {
    var p0 := Stage(x, l0);
    var p1 := Stage(Pad(p0, size / 2, size / 2), l1);
    && StageFits(x, l0, size, size, c0)
    && StageFits(Pad(p0, size / 2, size / 2), l1, size / 2, size / 2, c1)
    && StageFits(Pad(p1, size / 4, size / 4), l2, size / 4, size / 4, c2)
  }

  /** The accelerator refines the golden model over all three stages. */
  lemma NetworkExact(x: Tensor, size: int, l0: Layer, l1: Layer, l2: Layer, c0: int, c1: int, c2: int)
    requires Chained(l0, l1, l2, c0, c1) && NetworkFits(x, size, l0, l1, l2, c0, c1, c2)
    ensures AgreeOn(HwNetwork(x, size, l0, l1, l2), Network(x, size, l0, l1, l2), size / 4 / 2, size / 4 / 2, c2)
  {
    hide HwStage, Stage, StageFits, Pad;
    var h0, g0 := HwStage(x, l0), Stage(x, l0);
    StageExact(x, x, l0, size, size, c0);
    PadAgree(h0, g0, size / 2, size / 2, c0);
    var h1 := HwStage(Pad(h0, size / 2, size / 2), l1);
    var g1 := Stage(Pad(g0, size / 2, size / 2), l1);
    StageExact(Pad(h0, size / 2, size / 2), Pad(g0, size / 2, size / 2), l1, size / 2, size / 2, c1);
    assert size / 2 / 2 == size / 4;
    PadAgree(h1, g1, size / 4, size / 4, c1);
    StageExact(Pad(h1, size / 4, size / 4), Pad(g1, size / 4, size / 4), l2, size / 4, size / 4, c2);
  }

  ghost predicate Bounded(n: nat, f: int -> int, bound: int)
  {
    forall i :: 0 <= i < n ==> -bound <= f(i) <= bound
  }

  lemma {:induction false} SumBound(n: nat, f: int -> int, bound: int)
    requires Bounded(n, f, bound)
    ensures -bound * n <= Sum(n, f) <= bound * n
  {
    if n > 0 {
      assert Bounded(n - 1, f, bound);
      SumBound(n - 1, f, bound);
      assert bound * n == bound * (n - 1) + bound;
    }
  }

  ghost predicate Int8Tensor(x: Tensor) { forall y, c, ch :: -128 <= x(y, c, ch) <= 127 }

  ghost predicate Int8Kernel(k: Kernel) { forall oc, ic, ky, kx :: -128 <= k(oc, ic, ky, kx) <= 127 }

  /** With 8-bit operands a dot product is at most 16384 per term. */
  lemma DotBound(x: Tensor, k: Kernel, n: nat, cin: nat, y: int, c: int, oc: int)
    requires Int8Tensor(x) && Int8Kernel(k)
    ensures -(0x4000 * cin * n * n) <= Dot(x, k, n, cin, y, c, oc) <= 0x4000 * cin * n * n
  {
    forall ky | 0 <= ky < n
      ensures -(0x4000 * cin * n) <= Rows(x, k, n, cin, y, c, oc)(ky) <= 0x4000 * cin * n
    {
      RowBound(x, k, n, cin, y, c, oc, ky);
    }
    SumBound(n, Rows(x, k, n, cin, y, c, oc), 0x4000 * cin * n);
  }

  lemma RowBound(x: Tensor, k: Kernel, n: nat, cin: nat, y: int, c: int, oc: int, ky: int)
    requires Int8Tensor(x) && Int8Kernel(k)
    ensures -(0x4000 * cin * n) <= Rows(x, k, n, cin, y, c, oc)(ky) <= 0x4000 * cin * n
  {
    forall kx | 0 <= kx < n ensures -(0x4000 * cin) <= Columns(x, k, cin, y, c, oc, ky)(kx) <= 0x4000 * cin {
      forall ic | 0 <= ic < cin ensures -0x4000 <= Tap(x, k, y, c, oc, ky, kx)(ic) <= 0x4000 {
        SignedBounds(x(y + ky, c + kx, ic), k(oc, ic, ky, kx));
      }
      SumBound(cin, Tap(x, k, y, c, oc, ky, kx), 0x4000);
    }
    SumBound(n, Columns(x, k, cin, y, c, oc, ky), 0x4000 * cin);
  }

  /** A condition on the exported parameters only: the requant values are among those that never
      overflow, and the biases leave room for the dot product. */
  ghost predicate BiasRoom(l: Layer)
  {
    && Int8Kernel(l.kernel) && -Pow2(l.requant.shift) < l.requant.multiplier <= Pow2(l.requant.shift)
    && forall oc :: -(0x7FFF_FFFF - 0x4000 * l.cin * l.side * l.side) <= l.bias(oc)
                    <= 0x7FFF_FFFF - 0x4000 * l.cin * l.side * l.side
  }

  lemma BiasRoomFits(x: Tensor, l: Layer, h: int, w: int, outCh: int)
    requires Int8Tensor(x) && BiasRoom(l)
    ensures StageFits(x, l, h, w, outCh)
  {
    forall y, c, oc ensures PixelFits(x, l, y, c, oc) {
      DotBound(x, l.kernel, l.side, l.cin, y, c, oc);
      hide Dot, ShiftRight;
      ShiftedFits(Accumulator(x, l, y, c, oc), l.requant);
    }
  }

  lemma StageInt8(x: Tensor, l: Layer, h: int, w: int)
    ensures Int8Tensor(Stage(x, l)) && Int8Tensor(Pad(Stage(x, l), h, w))
  {
    assert Int8Tensor(ConvOut(x, l)) by { hide ShiftRight, Accumulator; }
    hide ConvOut;
    PoolInt8(ConvOut(x, l), h, w);
  }

  lemma PoolInt8(t: Tensor, h: int, w: int)
    requires Int8Tensor(t)
    ensures Int8Tensor(MaxPool(t)) && Int8Tensor(Pad(MaxPool(t), h, w))
  {
    forall y, c, ch ensures -128 <= MaxPool(t)(y, c, ch) <= 127 {
      MaxBounds(t(2 * y, 2 * c, ch), t(2 * y, 2 * c + 1, ch), t(2 * y + 1, 2 * c, ch), t(2 * y + 1, 2 * c + 1, ch));
    }
    hide MaxPool;
  }

  lemma MaxBounds(a: int, b: int, c: int, d: int)
    requires -128 <= a <= 127 && -128 <= b <= 127 && -128 <= c <= 127 && -128 <= d <= 127
    ensures -128 <= Max(Max(a, b), Max(c, d)) <= 127
  {
  }

  /** Every network whose biases leave room runs without overflow on every 8-bit image. */
  lemma BiasRoomNetwork(x: Tensor, size: int, l0: Layer, l1: Layer, l2: Layer, c0: int, c1: int, c2: int)
    requires Int8Tensor(x) && BiasRoom(l0) && BiasRoom(l1) && BiasRoom(l2)
    ensures NetworkFits(x, size, l0, l1, l2, c0, c1, c2)
  {
    hide Stage, Pad, Int8Tensor, BiasRoom, StageFits;
    var p0 := Stage(x, l0);
    var x1 := Pad(p0, size / 2, size / 2);
    var x2 := Pad(Stage(x1, l1), size / 4, size / 4);
    StageInt8(x, l0, size / 2, size / 2);
    StageInt8(x1, l1, size / 4, size / 4);
    BiasRoomFits(x, l0, size, size, c0);
    BiasRoomFits(x1, l1, size / 2, size / 2, c1);
    BiasRoomFits(x2, l2, size / 4, size / 4, c2);
  }
}
