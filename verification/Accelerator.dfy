/** `classifier_top`: the three fused engines in sequence over two on-chip feature maps. */
module Accelerator {
  import opened FixedWidth
  import opened Golden
  import opened Engine
  import opened Refinement
  import opened NetworkMeaning

  const C0_SIZE := 96
  const C0_OUT_CH := 16
  const C1_OUT_CH := 32
  const C2_OUT_CH := 64
  const P2_OUT_SIZE := 12

  /** `out` holds what comes out of three stages of convolution, requantisation and pooling, with or
      without the hardware's 32-bit registers. */
  ghost predicate HoldsNetwork(out: array3<Int8>, x: Tensor, l0: Layer, l1: Layer, l2: Layer, hw: bool)
    reads out
  {
    exists t: Tensor :: IsNetwork(x, C0_SIZE, l0, l1, l2, t, hw) && Holds(out, P2_OUT_SIZE, P2_OUT_SIZE, C2_OUT_CH, t)
  }

  class ClassifierTop {
    const conv0: Conv0Pool0
    const conv1: SameConvPool
    const conv2: SameConvPool
    const fmap0p: array3<Int8>
    const fmap1p: array3<Int8>
    ghost const buffers: set<object>

    ghost predicate Valid()
    {
      && conv0.Valid() && conv1.Valid() && conv2.Valid()
      && conv0.size == C0_SIZE && conv0.outCh == C0_OUT_CH
      && conv1.size == 48 && conv1.inCh == C0_OUT_CH && conv1.outCh == C1_OUT_CH
      && conv2.size == 24 && conv2.inCh == C1_OUT_CH && conv2.outCh == C2_OUT_CH
      && fmap0p.Length0 == 48 && fmap0p.Length1 == 48 && fmap0p.Length2 == C0_OUT_CH
      && fmap1p.Length0 == 24 && fmap1p.Length1 == 24 && fmap1p.Length2 == C1_OUT_CH
      && fmap0p !in {conv0.ifmapLocal, conv0.rowBuf, conv1.rowBuf, conv2.rowBuf, fmap1p}
      && fmap1p !in {conv1.rowBuf, conv2.rowBuf}
      && conv1.rowBuf != conv2.rowBuf && conv1.wLocal != conv2.wLocal
      && conv0.wLocal !in {conv1.wLocal, conv2.wLocal}
      && buffers == {conv0.ifmapLocal, conv0.wLocal, conv0.rowBuf, conv1.wLocal, conv1.rowBuf,
                     conv2.wLocal, conv2.rowBuf, fmap0p, fmap1p}
    }

    constructor ()
      ensures Valid() && fresh(buffers)
    {
      var c0 := new Conv0Pool0(C0_SIZE, 8);
      var c1 := new SameConvPool(48, 2, 2, 16);
      var c2 := new SameConvPool(24, 4, 4, 16);
      var f0 := new Int8[48, 48, C0_OUT_CH];
      var f1 := new Int8[24, 24, C1_OUT_CH];
      conv0, conv1, conv2, fmap0p, fmap1p := c0, c1, c2, f0, f1;
      buffers := {c0.ifmapLocal, c0.wLocal, c0.rowBuf, c1.wLocal, c1.rowBuf, c2.wLocal, c2.rowBuf, f0, f1};
    }

    ghost predicate Parameters(w0: array4<Int8>, b0: array<Int32>, rq0: Requant, w1: array4<Int8>, b1: array<Int32>,
                               rq1: Requant,
                               w2: array4<Int8>, b2: array<Int32>, rq2: Requant, l0: Layer, l1: Layer, l2: Layer)
      reads w0, b0, w1, b1, w2, b2
    {
      && Chained(l0, l1, l2, C0_OUT_CH, C1_OUT_CH) && l0.cin == 3
      && rq0 == l0.requant && rq1 == l1.requant && rq2 == l2.requant
      && HoldsOihw(w0, C0_OUT_CH, l0.kernel) && HoldsBias(b0, C0_OUT_CH, l0.bias)
      && HoldsWpack(w1, C1_OUT_CH, C0_OUT_CH, l1.kernel) && HoldsBias(b1, C1_OUT_CH, l1.bias)
      && HoldsWpack(w2, C2_OUT_CH, C1_OUT_CH, l2.kernel) && HoldsBias(b2, C2_OUT_CH, l2.bias)
    }

    /** For every input, weights, biases and requant values the output is the hardware network,
        and it is the golden network when no golden accumulator overflows. */
    method Run(ifmapPadded: array3<Int8>, w0: array4<Int8>, b0: array<Int32>, rq0: Requant,
               w1: array4<Int8>, b1: array<Int32>, rq1: Requant, w2: array4<Int8>, b2: array<Int32>, rq2: Requant,
               out: array3<Int8>, ghost x: Tensor, ghost l0: Layer, ghost l1: Layer, ghost l2: Layer)
      requires Valid() && Parameters(w0, b0, rq0, w1, b1, rq1, w2, b2, rq2, l0, l1, l2)
      requires Holds(ifmapPadded, C0_SIZE + 2, C0_SIZE + 2, 3, x)
      requires out.Length0 == P2_OUT_SIZE && out.Length1 == P2_OUT_SIZE && out.Length2 == C2_OUT_CH
      requires ifmapPadded !in buffers && out !in buffers && w0 !in buffers && w1 !in buffers && w2 !in buffers
      requires b0 !in buffers && b1 !in buffers && b2 !in buffers
      requires out != ifmapPadded
      modifies buffers, out
      ensures Holds(out, P2_OUT_SIZE, P2_OUT_SIZE, C2_OUT_CH, HwNetwork(x, C0_SIZE, l0, l1, l2))
      ensures NetworkFits(x, C0_SIZE, l0, l1, l2, C0_OUT_CH, C1_OUT_CH, C2_OUT_CH) ==>
        Holds(out, P2_OUT_SIZE, P2_OUT_SIZE, C2_OUT_CH, Network(x, C0_SIZE, l0, l1, l2))
      ensures HoldsNetwork(out, x, l0, l1, l2, true)
      ensures NetworkFits(x, C0_SIZE, l0, l1, l2, C0_OUT_CH, C1_OUT_CH, C2_OUT_CH) ==>
                HoldsNetwork(out, x, l0, l1, l2, false)
    {
      hide HwStage, Stage, NetworkFits, HoldsOihw, HoldsWpack, HoldsBias, IsNetwork;
      NetworkHolds(x, C0_SIZE, l0, l1, l2, true);
      NetworkHolds(x, C0_SIZE, l0, l1, l2, false);
      ghost var p0 := HwStage(x, l0);
      conv0.Run(ifmapPadded, w0, b0, rq0, fmap0p, x, l0);
      conv1.Run(fmap0p, w1, b1, rq1, fmap1p, p0, l1);
      ghost var p1 := HwStage(Pad(p0, 48, 48), l1);
      conv2.Run(fmap1p, w2, b2, rq2, out, p1, l2);
      assert C0_SIZE / 2 == 48 && C0_SIZE / 4 == 24;
      if NetworkFits(x, C0_SIZE, l0, l1, l2, C0_OUT_CH, C1_OUT_CH, C2_OUT_CH) {
        NetworkExact(x, C0_SIZE, l0, l1, l2, C0_OUT_CH, C1_OUT_CH, C2_OUT_CH);
      }
    }
  }
}
