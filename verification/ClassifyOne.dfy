/** One request of ps_classifier_server.c, from ROI bytes to a result record, against run_golden. */
module ClassifyOne {
  import opened FixedWidth
  import opened Sums
  import opened Golden
  import opened Engine
  import opened Refinement
  import opened Accelerator
  import opened RoiProtocol
  import opened PsPipeline
  import opened Postprocess
  import opened Wrappers

  /** What the exported files mean: three layers and the fully connected parameters. */
  datatype Network3 = Network3(l0: Layer, l1: Layer, l2: Layer, fcWeight: (int, int) -> int, fcBias: int -> int)

  /** The loaded parameter buffers of classifier_model.h. */
  class Model {
    const w0: array4<Int8>
    const b0: array<Int32>
    const rq0: Requant
    const w1: array4<Int8>
    const b1: array<Int32>
    const rq1: Requant
    const w2: array4<Int8>
    const b2: array<Int32>
    const rq2: Requant
    const fcWeights: array<Int8>
    const fcBiases: array<Int32>
    const classCount: nat
    const gapDivisor: nat

    /** main() accepts class counts and divisors from 1 to UINT32_MAX. */
    ghost predicate Valid()
    {
      && 0 < classCount < 0x1_0000_0000 && 0 < gapDivisor < 0x1_0000_0000
    }

    ghost predicate Means(n: Network3)
      reads w0, b0, w1, b1, w2, b2, fcWeights, fcBiases
    {
      && Chained(n.l0, n.l1, n.l2, C0_OUT_CH, C1_OUT_CH) && n.l0.cin == 3
      && rq0 == n.l0.requant && rq1 == n.l1.requant && rq2 == n.l2.requant
      && HoldsOihw(w0, C0_OUT_CH, n.l0.kernel) && HoldsBias(b0, C0_OUT_CH, n.l0.bias)
      && HoldsWpack(w1, C1_OUT_CH, C0_OUT_CH, n.l1.kernel) && HoldsBias(b1, C1_OUT_CH, n.l1.bias)
      && HoldsWpack(w2, C2_OUT_CH, C1_OUT_CH, n.l2.kernel) && HoldsBias(b2, C2_OUT_CH, n.l2.bias)
      && fcWeights.Length == classCount * CHANNELS && fcBiases.Length == classCount
      && (forall k :: 0 <= k < classCount ==> fcBiases[k] == n.fcBias(k))
      && forall k, ch :: 0 <= k < classCount && 0 <= ch < CHANNELS ==> fcWeights[k * CHANNELS + ch] == n.fcWeight(k, ch)
    }

    ghost function Buffers(): set<object>
    {
      {w0, b0, w1, b1, w2, b2, fcWeights, fcBiases}
    }
  }

  function GoldenTerm(f: int -> int, w: (int, int) -> int, k: int): int -> int { ch => f(ch) * w(k, ch) }

  /** run_golden's logits: gap_sum @ fc_w.T + fc_b. */
  function GoldenLogits(t: Tensor, n: Network3): int -> int
  {
    k => Sum(CHANNELS, GoldenTerm(ChannelSum(t, GAP_SIDE, GAP_SIDE), n.fcWeight, k)) + n.fcBias(k)
  }

  function PaddedInput(image: seq<Byte>): Tensor
    requires |image| == IMAGE_SIZE
  {
    Pad(Quantized(image), ROI_SIDE, ROI_SIDE)
  }

  function GoldenMap(image: seq<Byte>, n: Network3): Tensor
    requires |image| == IMAGE_SIZE
  {
    Network(PaddedInput(image), C0_SIZE, n.l0, n.l1, n.l2)
  }

  /** The class run_golden reports: the first maximum of its logits. */
  ghost predicate GoldenClass(image: seq<Byte>, n: Network3, classes: nat, id: int)
    requires |image| == IMAGE_SIZE
  {
    FirstMax(classes, GoldenLogits(GoldenMap(image, n), n), id)
  }

  /** The exported parameters leave room in every accumulator. */
  ghost predicate ParametersFit(n: Network3)
  {
    && BiasRoom(n.l0) && BiasRoom(n.l1) && BiasRoom(n.l2)
    && (forall k, ch :: -128 <= n.fcWeight(k, ch) <= 127)
    && forall k :: -(0x7FFF_FFFF - 149815296) <= n.fcBias(k) <= 0x7FFF_FFFF - 149815296
  }

  lemma QuantizedInt8(image: seq<Byte>)
    requires |image| == IMAGE_SIZE
    ensures Int8Tensor(PaddedInput(image))
  {
    forall y, c, ch ensures -128 <= PaddedInput(image)(y, c, ch) <= 127 {
      var q := Quantized(image)(y - 1, c - 1, ch);
      assert 0 <= q <= 127;
    }
  }

  /** With divisor 1 the board's logits are the golden ones. */
  lemma LogitIsGolden(t: Tensor, n: Network3, k: int)
    ensures Logit(ChannelSum(t, GAP_SIDE, GAP_SIDE), n.fcWeight, n.fcBias, 1, k) == GoldenLogits(t, n)(k)
  {
    hide Sum, FcTerm, GoldenTerm, ChannelSum;
    var f := ChannelSum(t, GAP_SIDE, GAP_SIDE);
    TermsAgree(f, n.fcWeight, k);
    SumExt(CHANNELS, FcTerm(f, n.fcWeight, 1, k), GoldenTerm(f, n.fcWeight, k));
  }

  lemma TermsAgree(f: int -> int, w: (int, int) -> int, k: int)
    ensures forall ch :: FcTerm(f, w, 1, k)(ch) == GoldenTerm(f, w, k)(ch)
  {
    forall ch ensures FcTerm(f, w, 1, k)(ch) == GoldenTerm(f, w, k)(ch) {
      assert TruncDiv(f(ch), 1) == f(ch);
    }
  }

  ghost predicate Activation(t: Tensor) { forall y, c, ch :: 0 <= t(y, c, ch) <= 127 }

  lemma NetworkActivation(x: Tensor, size: int, l0: Layer, l1: Layer, l2: Layer)
    ensures Activation(Network(x, size, l0, l1, l2))
  {
    hide Stage, Pad, Activation;
    var p1 := Stage(Pad(Stage(x, l0), size / 2, size / 2), l1);
    StageActivation(Pad(p1, size / 4, size / 4), l2);
  }

  lemma StageActivation(z: Tensor, l: Layer)
    ensures Activation(Stage(z, l))
  {
    assert Activation(ConvOut(z, l)) by { hide ShiftRight, Accumulator; }
    hide ConvOut;
    PoolActivation(ConvOut(z, l));
  }

  lemma PoolActivation(t: Tensor)
    requires Activation(t)
    ensures Activation(MaxPool(t))
  {
  }

  /** The row-major input buffer seen as the three-dimensional array the engine addresses. */
  method FromDdr(flat: array<Int8>, ghost t: Tensor) returns (a: array3<Int8>)
    requires FlatHolds(flat[..], PL_SIDE, PL_SIDE, 3, t)
    ensures fresh(a) && Holds(a, PL_SIDE, PL_SIDE, 3, t)
  {
    a := new Int8[PL_SIDE, PL_SIDE, 3];
    forall y, c, ch | 0 <= y < PL_SIDE && 0 <= c < PL_SIDE && 0 <= ch < 3 {
      a[y, c, ch] := flat[(y * PL_SIDE + c) * 3 + ch];
    }
    forall y, c, ch | 0 <= y < PL_SIDE && 0 <= c < PL_SIDE && 0 <= ch < 3 ensures a[y, c, ch] == t(y, c, ch) {
      assert flat[..][Offset(y, c, ch, PL_SIDE, 3)] == t(y, c, ch);
    }
  }

  method ToDdr(a: array3<Int8>, flat: array<Int8>, ghost t: Tensor)
    requires Holds(a, GAP_SIDE, GAP_SIDE, CHANNELS, t) && flat.Length == GAP_SIDE * GAP_SIDE * CHANNELS
    modifies flat
    ensures FlatHolds(flat[..], GAP_SIDE, GAP_SIDE, CHANNELS, t)
  {
    for i := 0 to flat.Length
      invariant forall j :: 0 <= j < i ==> flat[j] == a[j / 768, j / 64 % 12, j % 64]
    {
      flat[i] := a[i / 768, i / 64 % 12, i % 64];
    }
    forall y, c, ch | 0 <= y < GAP_SIDE && 0 <= c < GAP_SIDE && 0 <= ch < CHANNELS
      ensures (OffsetBounds(y, c, ch, GAP_SIDE, GAP_SIDE, CHANNELS);
               flat[..][Offset(y, c, ch, GAP_SIDE, CHANNELS)] == t(y, c, ch))
    {
      DdrIndex(y, c, ch);
    }
  }

  /** Row, column and channel back out of a flat index. */
  lemma DdrIndex(y: int, c: int, ch: int)
    requires 0 <= y < GAP_SIDE && 0 <= c < GAP_SIDE && 0 <= ch < CHANNELS
    ensures var j := Offset(y, c, ch, GAP_SIDE, CHANNELS);
      0 <= j < 12 * 12 * 64 && j / 768 == y && j / 64 % 12 == c && j % 64 == ch
  {
    var j := (y * 12 + c) * 64 + ch;
    assert j / 64 == y * 12 + c && j / 768 == y;
  }

  /** One accelerator run between the mapped buffers. */
  method RunDevice(top: ClassifierTop, m: Model, ifmap: array<Int8>, plOutput: array<Int8>, ghost x: Tensor,
                   ghost n: Network3)
    requires top.Valid() && m.Means(n) && top.buffers !! m.Buffers()
    requires ifmap !in top.buffers && plOutput !in top.buffers && plOutput !in m.Buffers()
    requires FlatHolds(ifmap[..], PL_SIDE, PL_SIDE, 3, x) && plOutput.Length == GAP_SIDE * GAP_SIDE * CHANNELS
    modifies top.buffers, plOutput
    ensures FlatHolds(plOutput[..], GAP_SIDE, GAP_SIDE, CHANNELS, HwNetwork(x, C0_SIZE, n.l0, n.l1, n.l2))
    ensures NetworkFits(x, C0_SIZE, n.l0, n.l1, n.l2, C0_OUT_CH, C1_OUT_CH, C2_OUT_CH) ==>
      FlatHolds(plOutput[..], GAP_SIDE, GAP_SIDE, CHANNELS, Network(x, C0_SIZE, n.l0, n.l1, n.l2))
  {
    hide HwNetwork, Network, NetworkFits, HoldsOihw, HoldsWpack, HoldsBias, FlatHolds, Holds;
    var input := FromDdr(ifmap, x);
    var out := new Int8[P2_OUT_SIZE, P2_OUT_SIZE, C2_OUT_CH];
    top.Run(input, m.w0, m.b0, m.rq0, m.w1, m.b1, m.rq1, m.w2, m.b2, m.rq2, out, x, n.l0, n.l1, n.l2);
    ghost var hw, gold := HwNetwork(x, C0_SIZE, n.l0, n.l1, n.l2), Network(x, C0_SIZE, n.l0, n.l1, n.l2);
    ghost var fits := NetworkFits(x, C0_SIZE, n.l0, n.l1, n.l2, C0_OUT_CH, C1_OUT_CH, C2_OUT_CH);
    ToDdr(out, plOutput, hw);
    if fits { SameMap(out, plOutput[..], hw, gold); }
  }

  lemma SameMap(a: array3<Int8>, s: seq<Int8>, t: Tensor, u: Tensor)
    requires Holds(a, GAP_SIDE, GAP_SIDE, CHANNELS, t) && Holds(a, GAP_SIDE, GAP_SIDE, CHANNELS, u)
    requires FlatHolds(s, GAP_SIDE, GAP_SIDE, CHANNELS, t)
    ensures FlatHolds(s, GAP_SIDE, GAP_SIDE, CHANNELS, u)
  {
    forall y, c, ch | 0 <= y < GAP_SIDE && 0 <= c < GAP_SIDE && 0 <= ch < CHANNELS
      ensures (OffsetBounds(y, c, ch, GAP_SIDE, GAP_SIDE, CHANNELS);
               s[Offset(y, c, ch, GAP_SIDE, CHANNELS)] == u(y, c, ch))
    {
      assert a[y, c, ch] == t(y, c, ch) && a[y, c, ch] == u(y, c, ch);
    }
  }

  function FailedResult(status: UInt32): RoiResult
  {
    RoiResult(status, INVALID_CLASS_ID, 0)
  }

  ghost function Logits(f: int -> int, n: Network3, d: int): int -> int
    requires d != 0
  {
    k => Logit(f, n.fcWeight, n.fcBias, d, k)
  }

  /** The 64-bit logits of the board on an output map, for any divisor, all fit 32 bits. */
  ghost predicate LogitsFit(t: Tensor, n: Network3, divisor: int, classes: nat)
    requires 0 < divisor < 0x1_0000_0000
  {
    AllFit(ChannelSum(t, GAP_SIDE, GAP_SIDE), n.fcWeight, n.fcBias, SignedDivisor(divisor), classes)
  }

  /** The first maximum of those logits. */
  ghost predicate BoardClass(t: Tensor, n: Network3, divisor: int, classes: nat, id: int)
    requires 0 < divisor < 0x1_0000_0000
  {
    FirstMax(classes, Logits(ChannelSum(t, GAP_SIDE, GAP_SIDE), n, SignedDivisor(divisor)), id)
  }

  /** Channel sums, fully connected layer and argmax over the accelerator's output buffer. */
  method Decide(m: Model, plOutput: array<Int8>, logitsAllocated: bool, ghost t: Tensor, ghost n: Network3)
    returns (status: Status, classId: nat)
    requires m.Valid() && m.Means(n)
    requires plOutput.Length == GAP_SIDE * GAP_SIDE * CHANNELS
      && FlatHolds(plOutput[..], GAP_SIDE, GAP_SIDE, CHANNELS, t)
    ensures status == Ok ==> logitsAllocated && classId < m.classCount
    ensures status == if logitsAllocated && LogitsFit(t, n, m.gapDivisor, m.classCount) then Ok else Overflow
    ensures status == Ok ==> BoardClass(t, n, m.gapDivisor, m.classCount, classId)
    ensures var f := ChannelSum(t, GAP_SIDE, GAP_SIDE);
      logitsAllocated && m.gapDivisor == 1 && AllFit(f, n.fcWeight, n.fcBias, 1, m.classCount) ==>
      status == Ok && FirstMax(m.classCount, GoldenLogits(t, n), classId)
  {
    hide FlatHolds, ChannelSum, HoldsOihw, HoldsWpack, HoldsBias, Logit, Chained, GoldenLogits, FirstMax;
    classId := 0;
    var sums := new Int32[CHANNELS];
    GapSum(plOutput, sums, t);
    if !logitsAllocated { return Overflow, 0; }
    var logits := new Int32[m.classCount];
    ghost var f := ChannelSum(t, GAP_SIDE, GAP_SIDE);
    ghost var d := SignedDivisor(m.gapDivisor);
    status := Fc(sums, m.gapDivisor, m.fcWeights, m.fcBiases, m.classCount, logits, f, n.fcWeight, n.fcBias);
    if status != Ok { return status, 0; }
    ghost var g := Logits(f, n, d);
    status, classId := Argmax(logits, m.classCount, g);
    if m.gapDivisor == 1 { SameWinner(m.classCount, t, n, classId, status == Ok); }
  }

  lemma SameWinner(classes: nat, t: Tensor, n: Network3, id: int, ok: bool)
    requires ok ==> FirstMax(classes, Logits(ChannelSum(t, GAP_SIDE, GAP_SIDE), n, 1), id)
    ensures ok ==> FirstMax(classes, GoldenLogits(t, n), id)
  {
    hide Logit, ChannelSum, GoldenLogits;
    var f := ChannelSum(t, GAP_SIDE, GAP_SIDE);
    forall k ensures Logits(f, n, 1)(k) == GoldenLogits(t, n)(k) { LogitIsGolden(t, n, k); }
  }

  /** What the output buffer holds after a run: the golden map whenever that is overflow-free. */
  ghost function DeviceMap(x: Tensor, n: Network3): Tensor
  {
    if NetworkFits(x, C0_SIZE, n.l0, n.l1, n.l2, C0_OUT_CH, C1_OUT_CH, C2_OUT_CH)
    then Network(x, C0_SIZE, n.l0, n.l1, n.l2) else HwNetwork(x, C0_SIZE, n.l0, n.l1, n.l2)
  }

  /** No golden value of this image overflows, from the first accumulator to the last logit. */
  ghost predicate ImageFits(image: seq<Byte>, n: Network3, classes: nat)
    requires |image| == IMAGE_SIZE
  {
    && NetworkFits(PaddedInput(image), C0_SIZE, n.l0, n.l1, n.l2, C0_OUT_CH, C1_OUT_CH, C2_OUT_CH)
    && AllFit(ChannelSum(GoldenMap(image, n), GAP_SIDE, GAP_SIDE), n.fcWeight, n.fcBias, 1, classes)
  }

  lemma ImageFitsMap(image: seq<Byte>, n: Network3, classes: nat)
    requires |image| == IMAGE_SIZE && ImageFits(image, n, classes)
    ensures DeviceMap(PaddedInput(image), n) == GoldenMap(image, n)
    ensures AllFit(ChannelSum(GoldenMap(image, n), GAP_SIDE, GAP_SIDE), n.fcWeight, n.fcBias, 1, classes)
  {
    hide NetworkFits, Network, HwNetwork, ChannelSum, PaddedInput, AllFit;
  }

  /** Parameters with room rule every overflow out, for every image. */
  lemma GoldenMapFits(image: seq<Byte>, n: Network3, classes: nat)
    requires |image| == IMAGE_SIZE && ParametersFit(n)
    ensures ImageFits(image, n, classes)
  {
    hide NetworkFits, Network, HwNetwork, ChannelSum, PaddedInput, Logit, BiasRoom;
    var x := PaddedInput(image);
    QuantizedInt8(image);
    BiasRoomNetwork(x, C0_SIZE, n.l0, n.l1, n.l2, C0_OUT_CH, C1_OUT_CH, C2_OUT_CH);
    NetworkActivation(x, C0_SIZE, n.l0, n.l1, n.l2);
    forall k | 0 <= k < classes
      ensures InInt32(Logit(ChannelSum(GoldenMap(image, n), GAP_SIDE, GAP_SIDE), n.fcWeight, n.fcBias, 1, k))
    {
      FcNeverOverflows(GoldenMap(image, n), n.fcWeight, n.fcBias, 1, k);
    }
  }

  /** `classify_one`: every result it can produce is one the client accepts, its status is exact, and
      the class is the golden model's for every image on which no golden value overflows; with
      exported parameters that leave room that is every image. */
  method Classify(image: array<Byte>, mapped: bool, deviceOk: bool, logitsAllocated: bool, ppm: Option<nat>,
                  top: ClassifierTop, m: Model, ifmap: array<Int8>, plOutput: array<Int8>, ghost n: Network3)
    returns (result: RoiResult)
    requires top.Valid() && m.Valid() && m.Means(n) && top.buffers !! m.Buffers()
    requires ifmap !in top.buffers && plOutput !in top.buffers && ifmap !in m.Buffers() && plOutput !in m.Buffers()
    requires ifmap != plOutput && image.Length == IMAGE_SIZE
    requires ppm.Some? ==> ppm.value <= CONFIDENCE_PPM_MAX
    requires ifmap.Length == PL_SIDE * PL_SIDE * 3 && plOutput.Length == GAP_SIDE * GAP_SIDE * CHANNELS
    modifies top.buffers, ifmap, plOutput
    ensures AcceptableResult(result)
    ensures !mapped ==> result.status == STATUS_INVALID_PAYLOAD
    ensures mapped && !deviceOk ==> result.status == STATUS_ACCELERATOR_ERROR
    ensures mapped && deviceOk && !logitsAllocated ==> result.status == STATUS_POSTPROCESS_ERROR
    ensures result.status == STATUS_OK ==>
      result.classId < m.classCount && result.confidencePpm == if ppm.Some? then ppm.value else 0
    ensures mapped && deviceOk && logitsAllocated ==>
      var t := DeviceMap(PaddedInput(old(image[..])), n);
      && result.status == (if LogitsFit(t, n, m.gapDivisor, m.classCount) then STATUS_OK else STATUS_POSTPROCESS_ERROR)
      && (result.status == STATUS_OK ==> BoardClass(t, n, m.gapDivisor, m.classCount, result.classId))
    ensures ParametersFit(n) ==> ImageFits(old(image[..]), n, m.classCount)
    ensures mapped && deviceOk && logitsAllocated && m.gapDivisor == 1 && ImageFits(old(image[..]), n, m.classCount) ==>
      result.status == STATUS_OK && GoldenClass(old(image[..]), n, m.classCount, result.classId)
  {
    if ParametersFit(n) { GoldenMapFits(image[..], n, m.classCount); }
    if !mapped { return FailedResult(STATUS_INVALID_PAYLOAD); }
    hide FlatHolds, GoldenClass, ParametersFit, ImageFits, PaddedInput, Model.Means, ClassifierTop.Valid, DeviceMap,
      LogitsFit, BoardClass;
    ghost var img := image[..];
    assert |img| == IMAGE_SIZE;
    Prepare(image, top, m, ifmap, n);
    if !deviceOk { return FailedResult(STATUS_ACCELERATOR_ERROR); }
    result := Answer(top, m, ifmap, plOutput, logitsAllocated, ppm, img, n);
  }

  /** The result for a preprocessed image on a working device. */
  method Answer(top: ClassifierTop, m: Model, ifmap: array<Int8>, plOutput: array<Int8>, logitsAllocated: bool,
                ppm: Option<nat>, ghost image: seq<Byte>, ghost n: Network3) returns (result: RoiResult)
    requires top.Valid() && m.Valid() && m.Means(n) && top.buffers !! m.Buffers()
    requires ifmap !in top.buffers && plOutput !in top.buffers && plOutput !in m.Buffers()
    requires |image| == IMAGE_SIZE && FlatHolds(ifmap[..], PL_SIDE, PL_SIDE, 3, PaddedInput(image))
    requires plOutput.Length == GAP_SIDE * GAP_SIDE * CHANNELS
    requires ppm.Some? ==> ppm.value <= CONFIDENCE_PPM_MAX
    modifies top.buffers, plOutput
    ensures AcceptableResult(result)
    ensures !logitsAllocated ==> result.status == STATUS_POSTPROCESS_ERROR
    ensures result.status == STATUS_OK ==>
      result.classId < m.classCount && result.confidencePpm == if ppm.Some? then ppm.value else 0
    ensures logitsAllocated ==>
      var t := DeviceMap(PaddedInput(image), n);
      && result.status == (if LogitsFit(t, n, m.gapDivisor, m.classCount) then STATUS_OK else STATUS_POSTPROCESS_ERROR)
      && (result.status == STATUS_OK ==> BoardClass(t, n, m.gapDivisor, m.classCount, result.classId))
    ensures logitsAllocated && m.gapDivisor == 1 && ImageFits(image, n, m.classCount) ==>
      result.status == STATUS_OK && GoldenClass(image, n, m.classCount, result.classId)
  {
    hide FlatHolds, GoldenClass, ParametersFit, ImageFits, PaddedInput, Model.Means, ClassifierTop.Valid, DeviceMap,
      LogitsFit, BoardClass;
    var status, classId := Recognise(top, m, ifmap, plOutput, logitsAllocated, image, n);
    if status != Ok { return FailedResult(STATUS_POSTPROCESS_ERROR); }
    result := RoiResult(STATUS_OK, classId, if ppm.Some? then ppm.value else 0);
  }

  /** Preprocessing of the image, keeping the engines and the parameters. */
  method Prepare(image: array<Byte>, top: ClassifierTop, m: Model, ifmap: array<Int8>, ghost n: Network3)
    requires top.Valid() && m.Valid() && m.Means(n) && image.Length == IMAGE_SIZE
    requires ifmap !in top.buffers && ifmap !in m.Buffers() && ifmap.Length == PL_SIDE * PL_SIDE * 3
    modifies ifmap
    ensures FlatHolds(ifmap[..], PL_SIDE, PL_SIDE, 3, PaddedInput(old(image[..])))
    ensures top.Valid() && m.Valid() && m.Means(n)
  {
    assert PaddedInput(image[..]) == Pad(Quantized(image[..]), ROI_SIDE, ROI_SIDE);
    Preprocess(image, ifmap);
  }

  /** The accelerator run, keeping the parameters. */
  method Infer(top: ClassifierTop, m: Model, ifmap: array<Int8>, plOutput: array<Int8>, ghost x: Tensor,
               ghost n: Network3)
    requires top.Valid() && m.Means(n) && top.buffers !! m.Buffers()
    requires ifmap !in top.buffers && plOutput !in top.buffers && plOutput !in m.Buffers()
    requires FlatHolds(ifmap[..], PL_SIDE, PL_SIDE, 3, x) && plOutput.Length == GAP_SIDE * GAP_SIDE * CHANNELS
    modifies top.buffers, plOutput
    ensures FlatHolds(plOutput[..], GAP_SIDE, GAP_SIDE, CHANNELS, DeviceMap(x, n)) && m.Means(n)
  {
    hide FlatHolds, NetworkFits, Network, HwNetwork;
    RunDevice(top, m, ifmap, plOutput, x, n);
  }

  /** Accelerator run and decision on a preprocessed image. */
  method Recognise(top: ClassifierTop, m: Model, ifmap: array<Int8>, plOutput: array<Int8>, logitsAllocated: bool,
                   ghost image: seq<Byte>, ghost n: Network3) returns (status: Status, classId: nat)
    requires top.Valid() && m.Valid() && m.Means(n) && top.buffers !! m.Buffers()
    requires ifmap !in top.buffers && plOutput !in top.buffers && plOutput !in m.Buffers()
    requires |image| == IMAGE_SIZE && FlatHolds(ifmap[..], PL_SIDE, PL_SIDE, 3, PaddedInput(image))
    requires plOutput.Length == GAP_SIDE * GAP_SIDE * CHANNELS
    modifies top.buffers, plOutput
    ensures status == Ok ==> logitsAllocated && classId < m.classCount
    ensures var t := DeviceMap(PaddedInput(image), n);
      && status == (if logitsAllocated && LogitsFit(t, n, m.gapDivisor, m.classCount) then Ok else Overflow)
      && (status == Ok ==> BoardClass(t, n, m.gapDivisor, m.classCount, classId))
    ensures logitsAllocated && m.gapDivisor == 1 && ImageFits(image, n, m.classCount) ==>
      status == Ok && GoldenClass(image, n, m.classCount, classId)
  {
    hide FlatHolds, ChannelSum, GoldenMap, ImageFits, AllFit, GoldenLogits, FirstMax, PaddedInput, DeviceMap,
      Model.Means,
      ClassifierTop.Valid, LogitsFit, BoardClass;
    Infer(top, m, ifmap, plOutput, PaddedInput(image), n);
    if ImageFits(image, n, m.classCount) {
      ImageFitsMap(image, n, m.classCount);
    }
    status, classId := Decide(m, plOutput, logitsAllocated, DeviceMap(PaddedInput(image), n), n);
  }
}
