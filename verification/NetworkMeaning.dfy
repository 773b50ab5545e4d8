/** What the network computes, as relations between maps in plain arithmetic: each stage is a convolution
    sum, rounded down after scaling, brought to the nearest pixel value, and pooled. */
module NetworkMeaning {
  import opened FixedWidth
  import opened Sums
  import opened Golden
  import opened PackedMac
  import opened Engine
  import opened Refinement

  /** The maps have the same values. */
  ghost predicate Same(t: Tensor, u: Tensor) { forall y, c, ch :: t(y, c, ch) == u(y, c, ch) }

  /** Pixel `v` of the golden convolution. */
  ghost predicate IsPixel(z: Tensor, l: Layer, y: int, c: int, oc: int, v: int)
  {
    exists acc :: IsConvSum(z, l, y, c, oc, acc) && Requantised(v, acc, l.requant)
  }

  function Turned(v: int, turns: int): int { v + turns * 0x1_0000_0000 }

  /** `a` is what a 32-bit register holds of `v`. */
  ghost predicate InRegister(a: int, v: int)
  {
    -0x8000_0000 <= a < 0x8000_0000 && exists turns :: a == Turned(v, turns)
  }

  /** The registers of one hardware pixel: accumulator, rounded product, and the product's register. */
  datatype Registers = Registers(acc: int, held: int, floor: int, result: int)

  ghost predicate Computes(z: Tensor, l: Layer, y: int, c: int, oc: int, r: Registers, v: int)
  {
    && IsConvSum(z, l, y, c, oc, r.acc) && InRegister(r.held, r.acc)
    && IsFloor(r.floor, r.held * l.requant.multiplier, l.requant.shift)
    && InRegister(r.result, r.floor) && NearestPixel(v, r.result)
  }

  /** Pixel `v` of the hardware's convolution. */
  ghost predicate IsHwPixel(z: Tensor, l: Layer, y: int, c: int, oc: int, v: int)
  {
    exists r: Registers :: Computes(z, l, y, c, oc, r, v)
  }

  /** `t` is `p` pooled over 2x2 windows. */
  ghost predicate IsPooled(t: Tensor, p: Tensor)
  {
    forall y, c, ch ::
      Largest(t(y, c, ch), p(2 * y, 2 * c, ch), p(2 * y, 2 * c + 1, ch),
            p(2 * y + 1, 2 * c, ch), p(2 * y + 1, 2 * c + 1, ch))
  }

  /** `q` is the h x w map `t` with a border of zeros. */
  ghost predicate IsPadded(q: Tensor, t: Tensor, h: int, w: int)
  {
    forall y, c, ch :: q(y, c, ch) == if 1 <= y <= h && 1 <= c <= w then t(y - 1, c - 1, ch) else 0
  }

  /** `p` is the convolution of `z`, golden or in hardware. */
  ghost predicate IsConvolved(p: Tensor, z: Tensor, l: Layer, hw: bool)
  {
    forall y, c, oc ::
      if hw then IsHwPixel(z, l, y, c, oc, p(y, c, oc)) else IsPixel(z, l, y, c, oc, p(y, c, oc))
  }

  /** The maps between the input and the output of the network. */
  datatype Maps = Maps(c0: Tensor, p0: Tensor, z1: Tensor, c1: Tensor, p1: Tensor, z2: Tensor, c2: Tensor)

  ghost predicate Connects(x: Tensor, size: int, l0: Layer, l1: Layer, l2: Layer, m: Maps, t: Tensor, hw: bool)
  {
    && IsConvolved(m.c0, x, l0, hw) && IsPooled(m.p0, m.c0) && IsPadded(m.z1, m.p0, size / 2, size / 2)
    && IsConvolved(m.c1, m.z1, l1, hw) && IsPooled(m.p1, m.c1) && IsPadded(m.z2, m.p1, size / 4, size / 4)
    && IsConvolved(m.c2, m.z2, l2, hw) && IsPooled(t, m.c2)
  }

  /** `t` comes out of three stages on `x`. */
  ghost predicate IsNetwork(x: Tensor, size: int, l0: Layer, l1: Layer, l2: Layer, t: Tensor, hw: bool)
  {
    exists m: Maps :: Connects(x, size, l0, l1, l2, m, t, hw)
  }

  // ---------------------------------------------------------------- the code's functions are these

  lemma WrapIff(a: int, v: int)
    ensures InRegister(a, v) <==> a == Wrap32(v)
  {
    var k := WrapTurns(v);
    assert Wrap32(v) == Turned(v, k);
    if -0x8000_0000 <= a < 0x8000_0000 {
      if turns :| a == Turned(v, turns) {
        WrapShift(v, turns);
      }
    }
  }

  lemma PixelIff(z: Tensor, l: Layer, y: int, c: int, oc: int, v: int)
    ensures IsPixel(z, l, y, c, oc, v) <==> v == ConvOut(z, l)(y, c, oc)
  {
    hide IsConvSum, Requantised, Accumulator, RequantClamp;
    var acc := Accumulator(z, l, y, c, oc);
    ConvSumIff(z, l, y, c, oc, acc);
    RequantIsNearest(acc, l.requant, v);
    forall a ensures IsConvSum(z, l, y, c, oc, a) <==> a == acc { ConvSumIff(z, l, y, c, oc, a); }
  }

  lemma RegistersIff(held: int, rq: Requant, floor: int)
    ensures IsFloor(floor, held * rq.multiplier, rq.shift) <==> floor == ShiftRight(held * rq.multiplier, rq.shift)
  {
    var f := ShiftRight(held * rq.multiplier, rq.shift);
    if IsFloor(floor, held * rq.multiplier, rq.shift) { FloorUnique(f, floor, held * rq.multiplier, rq.shift); }
  }

  lemma HwPixelIff(z: Tensor, l: Layer, y: int, c: int, oc: int, v: int)
    ensures IsHwPixel(z, l, y, c, oc, v) <==> v == HwConvOut(z, l)(y, c, oc)
  {
    hide IsConvSum, Accumulator, IsFloor, NearestPixel, InRegister, Wrap32, ShiftRight, Clip;
    var acc := Accumulator(z, l, y, c, oc);
    ConvSumIff(z, l, y, c, oc, acc);
    WrapIff(Wrap32(acc), acc);
    var held: Int32 := Wrap32(acc);
    var floor := ShiftRight(held * l.requant.multiplier, l.requant.shift);
    RegistersIff(held, l.requant, floor);
    WrapIff(Wrap32(floor), floor);
    ClipIsNearest(Wrap32(floor));
    var own := Registers(acc, held, floor, Wrap32(floor));
    assert Computes(z, l, y, c, oc, own, Clip(Wrap32(floor)));
    if r: Registers :| Computes(z, l, y, c, oc, r, v) {
      ConvSumIff(z, l, y, c, oc, r.acc);
      WrapIff(r.held, r.acc);
      RegistersIff(r.held, l.requant, r.floor);
      WrapIff(r.result, r.floor);
      NearestUnique(v, Clip(r.result), r.result);
    }
  }

  function OneStage(z: Tensor, l: Layer, hw: bool): Tensor { if hw then HwStage(z, l) else Stage(z, l) }

  function OneConv(z: Tensor, l: Layer, hw: bool): Tensor { if hw then HwConvOut(z, l) else ConvOut(z, l) }

  lemma ConvolvedIff(p: Tensor, z: Tensor, l: Layer, hw: bool)
    ensures IsConvolved(p, z, l, hw) <==> Same(p, OneConv(z, l, hw))
  {
    hide IsPixel, IsHwPixel, ConvOut, HwConvOut;
    forall y, c, oc
      ensures (if hw then IsHwPixel(z, l, y, c, oc, p(y, c, oc)) else IsPixel(z, l, y, c, oc, p(y, c, oc)))
         <==> p(y, c, oc) == OneConv(z, l, hw)(y, c, oc)
    {
      if hw { HwPixelIff(z, l, y, c, oc, p(y, c, oc)); } else { PixelIff(z, l, y, c, oc, p(y, c, oc)); }
    }
  }

  lemma PoolHolds(p: Tensor)
    ensures IsPooled(MaxPool(p), p)
  {
    hide Largest, MaxPool;
    forall y, c, ch
      ensures Largest(MaxPool(p)(y, c, ch), p(2 * y, 2 * c, ch), p(2 * y, 2 * c + 1, ch),
                      p(2 * y + 1, 2 * c, ch), p(2 * y + 1, 2 * c + 1, ch))
    {
      PoolIsLargest(p, y, c, ch);
    }
  }

  lemma StageHolds(z: Tensor, l: Layer, hw: bool)
    ensures IsConvolved(OneConv(z, l, hw), z, l, hw) && IsPooled(OneStage(z, l, hw), OneConv(z, l, hw))
  {
    hide IsConvolved, OneConv, IsPooled, MaxPool;
    ConvolvedIff(OneConv(z, l, hw), z, l, hw);
    PoolHolds(OneConv(z, l, hw));
    assert OneStage(z, l, hw) == MaxPool(OneConv(z, l, hw)) by { OneStageIs(z, l, hw); }
  }

  lemma OneStageIs(z: Tensor, l: Layer, hw: bool)
    ensures OneStage(z, l, hw) == MaxPool(OneConv(z, l, hw))
  {
    hide MaxPool, ConvOut, HwConvOut;
  }

  function OneNetwork(x: Tensor, size: int, l0: Layer, l1: Layer, l2: Layer, hw: bool): Tensor
  {
    if hw then HwNetwork(x, size, l0, l1, l2) else Network(x, size, l0, l1, l2)
  }

  /** The golden network and the network of the hardware are three such stages. */
  lemma NetworkHolds(x: Tensor, size: int, l0: Layer, l1: Layer, l2: Layer, hw: bool)
    ensures IsNetwork(x, size, l0, l1, l2, OneNetwork(x, size, l0, l1, l2, hw), hw)
  {
    hide IsConvolved, IsPooled, ConvOut, HwConvOut, Stage, HwStage;
    var p0 := OneStage(x, l0, hw);
    var z1 := Pad(p0, size / 2, size / 2);
    var p1 := OneStage(z1, l1, hw);
    var z2 := Pad(p1, size / 4, size / 4);
    StageHolds(x, l0, hw);
    StageHolds(z1, l1, hw);
    StageHolds(z2, l2, hw);
    var m := Maps(OneConv(x, l0, hw), p0, z1, OneConv(z1, l1, hw), p1, z2, OneConv(z2, l2, hw));
    assert Connects(x, size, l0, l1, l2, m, OneStage(z2, l2, hw), hw);
  }

  // ---------------------------------------------------------------- and nothing else is

  lemma LargestUnique(v: int, w: int, a: int, b: int, c: int, d: int)
    requires Largest(v, a, b, c, d) && Largest(w, a, b, c, d)
    ensures v == w
  {
  }

  lemma ConvSumSame(z: Tensor, y: Tensor, l: Layer, r: int, c: int, oc: int, acc: int)
    requires Same(z, y) && IsConvSum(z, l, r, c, oc, acc)
    ensures IsConvSum(y, l, r, c, oc, acc)
  {
    hide Sum;
    var p: Parts :| AddsUp(z, l, r, c, oc, p) && acc == l.bias(oc) + Sum(l.side, p.rows);
    assert AddsUp(y, l, r, c, oc, p);
  }

  lemma ConvolvedSame(p: Tensor, z: Tensor, q: Tensor, y: Tensor, l: Layer, hw: bool)
    requires IsConvolved(p, z, l, hw) && IsConvolved(q, y, l, hw) && Same(z, y)
    ensures Same(p, q)
  {
    hide IsConvSum, Accumulator, RequantClamp, RequantRelu;
    ConvolvedIff(p, z, l, hw);
    ConvolvedIff(q, y, l, hw);
    hide IsConvolved;
    forall r, c, oc ensures p(r, c, oc) == q(r, c, oc) {
      ConvSumIff(z, l, r, c, oc, Accumulator(z, l, r, c, oc));
      ConvSumSame(z, y, l, r, c, oc, Accumulator(z, l, r, c, oc));
      ConvSumIff(y, l, r, c, oc, Accumulator(z, l, r, c, oc));
      assert OneConv(z, l, hw)(r, c, oc) == OneConv(y, l, hw)(r, c, oc);
    }
  }

  lemma PooledSame(t: Tensor, p: Tensor, u: Tensor, q: Tensor)
    requires IsPooled(t, p) && IsPooled(u, q) && Same(p, q)
    ensures Same(t, u)
  {
    hide Largest;
    forall y, c, ch ensures t(y, c, ch) == u(y, c, ch) {
      LargestUnique(t(y, c, ch), u(y, c, ch), p(2 * y, 2 * c, ch), p(2 * y, 2 * c + 1, ch), p(2 * y + 1, 2 * c, ch),
                    p(2 * y + 1, 2 * c + 1, ch));
    }
  }

  lemma PaddedSame(z: Tensor, t: Tensor, y: Tensor, u: Tensor, h: int, w: int)
    requires IsPadded(z, t, h, w) && IsPadded(y, u, h, w) && Same(t, u)
    ensures Same(z, y)
  {
  }

  /** Three stages leave no choice: whatever is connected to the input that way has the same values. */
  lemma NetworkUnique(x: Tensor, size: int, l0: Layer, l1: Layer, l2: Layer, t: Tensor, u: Tensor, hw: bool)
    requires IsNetwork(x, size, l0, l1, l2, t, hw) && IsNetwork(x, size, l0, l1, l2, u, hw)
    ensures Same(t, u)
  {
    var m: Maps :| Connects(x, size, l0, l1, l2, m, t, hw);
    var n: Maps :| Connects(x, size, l0, l1, l2, n, u, hw);
    assert Same(x, x);
    hide IsConvolved, IsPooled, IsPadded, Same;
    ConvolvedSame(m.c0, x, n.c0, x, l0, hw);
    PooledSame(m.p0, m.c0, n.p0, n.c0);
    PaddedSame(m.z1, m.p0, n.z1, n.p0, size / 2, size / 2);
    ConvolvedSame(m.c1, m.z1, n.c1, n.z1, l1, hw);
    PooledSame(m.p1, m.c1, n.p1, n.c1);
    PaddedSame(m.z2, m.p1, n.z2, n.p1, size / 4, size / 4);
    ConvolvedSame(m.c2, m.z2, n.c2, n.z2, l2, hw);
    PooledSame(t, m.c2, u, n.c2);
  }
}
