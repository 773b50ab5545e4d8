/** The loops of golden_int8.py over arrays, proved against the point-by-point functions of Golden, from
    the quantised image to the class. */
module GoldenModel {
  import opened FixedWidth
  import opened Sums
  import opened Golden
  import opened Engine
  import opened Refinement
  import opened RoiProtocol
  import opened PsPipeline
  import opened Postprocess
  import opened Accelerator
  import opened ClassifyOne
  import opened ClassMeaning

  /** An int64 map that holds `t`. */
  ghost predicate Holds64(a: array3<int>, h: nat, w: nat, channels: nat, t: Tensor)
    reads a
  {
    && a.Length0 == h && a.Length1 == w && a.Length2 == channels
    && forall y, c, ch :: 0 <= y < h && 0 <= c < w && 0 <= ch < channels ==> a[y, c, ch] == t(y, c, ch)
  }

  /** Weights in OIHW order. */
  ghost predicate HoldsKernel(a: array4<Int8>, outCh: nat, inCh: nat, k: Kernel)
    reads a
  {
    && a.Length0 == outCh && a.Length1 == inCh && a.Length2 == 3 && a.Length3 == 3
    && forall oc, ic, ky, kx :: 0 <= oc < outCh && 0 <= ic < inCh && 0 <= ky < 3 && 0 <= kx < 3
         ==> a[oc, ic, ky, kx] == k(oc, ic, ky, kx)
  }

  // ---------------------------------------------------------------- convolution

  /** The part of the dot product that the taps before (ky, kx) contribute. */
  function TapsBefore(x: Tensor, l: Layer, ky: nat, kx: nat, y: int, c: int, oc: int): int
  {
    Sum(ky, Rows(x, l.kernel, l.side, l.cin, y, c, oc)) + Sum(kx, Columns(x, l.kernel, l.cin, y, c, oc, ky))
  }

  /** The same for every point. */
  function Partial(x: Tensor, l: Layer, ky: nat, kx: nat): Tensor
  {
    (y, c, oc) => TapsBefore(x, l, ky, kx, y, c, oc)
  }

  lemma NextTap(x: Tensor, l: Layer, ky: nat, kx: nat, y: int, c: int, oc: int)
    ensures TapsBefore(x, l, ky, kx + 1, y, c, oc)
         == TapsBefore(x, l, ky, kx, y, c, oc) + Sum(l.cin, Tap(x, l.kernel, y, c, oc, ky, kx))
    ensures TapsBefore(x, l, ky + 1, 0, y, c, oc) == TapsBefore(x, l, ky, l.side, y, c, oc)
    ensures TapsBefore(x, l, 0, 0, y, c, oc) == 0
    ensures TapsBefore(x, l, l.side, 0, y, c, oc) == Dot(x, l.kernel, l.side, l.cin, y, c, oc)
  {
  }

  /** One product of that row: an activation times a weight. */
  method Product(a: int, b: int, ghost z: Tensor, ghost l: Layer, ghost y: nat, ghost c: nat, ghost oc: nat,
                 ghost ky: nat, ghost kx: nat, ghost ic: nat) returns (p: int)
    requires a == z(y + ky, c + kx, ic) && b == l.kernel(oc, ic, ky, kx)
    ensures p == Tap(z, l.kernel, y, c, oc, ky, kx)(ic)
  {
    p := a * b;
  }

  /** What one kernel tap adds to one output value: a row of the matrix product. */
  method TapProduct(x: array3<Int8>, w: array4<Int8>, y: nat, c: nat, oc: nat, ky: nat, kx: nat,
                    ghost z: Tensor, ghost l: Layer) returns (s: int)
    requires Holds(x, x.Length0, x.Length1, l.cin, z) && HoldsKernel(w, w.Length0, l.cin, l.kernel)
    requires y + ky < x.Length0 && c + kx < x.Length1 && oc < w.Length0 && ky < 3 && kx < 3
    ensures s == Sum(l.cin, Tap(z, l.kernel, y, c, oc, ky, kx))
  {
    hide Tap;
    s := 0;
    for ic := 0 to w.Length1
      invariant s == Sum(ic, Tap(z, l.kernel, y, c, oc, ky, kx))
    {
      var p := Product(x[y + ky, c + kx, ic], w[oc, ic, ky, kx], z, l, y, c, oc, ky, kx, ic);
      SumLast(ic + 1, Tap(z, l.kernel, y, c, oc, ky, kx));
      s := s + p;
    }
  }

  /** A pixel's values of all output channels, one kernel tap on. */
  method TapPixel(x: array3<Int8>, w: array4<Int8>, acc: array3<int>, y: nat, c: nat, ky: nat, kx: nat,
                  ghost z: Tensor, ghost l: Layer)
    requires Holds(x, x.Length0, x.Length1, l.cin, z) && HoldsKernel(w, acc.Length2, l.cin, l.kernel)
    requires y + ky < x.Length0 && c + kx < x.Length1 && ky < 3 && kx < 3 && y < acc.Length0 && c < acc.Length1
    requires forall oc :: 0 <= oc < acc.Length2 ==> acc[y, c, oc] == Partial(z, l, ky, kx)(y, c, oc)
    modifies acc
    ensures forall oc :: 0 <= oc < acc.Length2 ==> acc[y, c, oc] == Partial(z, l, ky, kx + 1)(y, c, oc)
    ensures forall i, j, oc | 0 <= i < acc.Length0 && 0 <= j < acc.Length1 && 0 <= oc < acc.Length2 ::
      i != y || j != c ==> acc[i, j, oc] == old(acc[i, j, oc])
  {
    hide Sum, Tap, TapsBefore, Holds, HoldsKernel;
    for oc := 0 to acc.Length2
      invariant forall o :: 0 <= o < oc ==> acc[y, c, o] == Partial(z, l, ky, kx + 1)(y, c, o)
      invariant forall o :: oc <= o < acc.Length2 ==> acc[y, c, o] == Partial(z, l, ky, kx)(y, c, o)
      invariant forall i, j, o | 0 <= i < acc.Length0 && 0 <= j < acc.Length1 && 0 <= o < acc.Length2 ::
        i != y || j != c ==> acc[i, j, o] == old(acc[i, j, o])
    {
      NextTap(z, l, ky, kx, y, c, oc);
      KernelSize(w, acc.Length2, l);
      var p := TapProduct(x, w, y, c, oc, ky, kx, z, l);
      acc[y, c, oc] := acc[y, c, oc] + p;
    }
  }

  lemma KernelSize(w: array4<Int8>, outCh: nat, l: Layer)
    requires HoldsKernel(w, outCh, l.cin, l.kernel)
    ensures w.Length0 == outCh
  {
  }

  /** Rows before `y`, and the pixels before `c` of row `y`, are one tap ahead of the others. */
  ghost predicate TapDone(acc: array3<int>, z: Tensor, l: Layer, ky: nat, kx: nat, y: nat, c: nat)
    reads acc
  {
    forall i, j, oc :: 0 <= i < acc.Length0 && 0 <= j < acc.Length1 && 0 <= oc < acc.Length2 ==>
      acc[i, j, oc] == Partial(z, l, ky, if i < y || (i == y && j < c) then kx + 1 else kx)(i, j, oc)
  }

  /** `acc += patch @ wk.T` for one kernel tap, over the whole map. */
  method AddTap(x: array3<Int8>, w: array4<Int8>, acc: array3<int>, ky: nat, kx: nat, ghost z: Tensor, ghost l: Layer)
    requires Holds(x, acc.Length0 + 2, acc.Length1 + 2, l.cin, z) && HoldsKernel(w, acc.Length2, l.cin, l.kernel)
    requires ky < 3 && kx < 3 && Holds64(acc, acc.Length0, acc.Length1, acc.Length2, Partial(z, l, ky, kx))
    modifies acc
    ensures Holds64(acc, acc.Length0, acc.Length1, acc.Length2, Partial(z, l, ky, kx + 1))
  {
    hide TapsBefore, HoldsKernel, Partial;
    for y := 0 to acc.Length0
      invariant TapDone(acc, z, l, ky, kx, y, 0)
    {
      for c := 0 to acc.Length1
        invariant TapDone(acc, z, l, ky, kx, y, c)
      {
        TapPixel(x, w, acc, y, c, ky, kx, z, l);
      }
    }
  }

  /** int8_conv3x3 on a map that is padded already: the taps one after the other, then the bias. */
  method Int8Conv3x3(x: array3<Int8>, w: array4<Int8>, bias: array<Int32>, ho: nat, wo: nat, ghost z: Tensor,
                     ghost l: Layer)
    returns (acc: array3<int>)
    requires 2 < l.side < 4 && Holds(x, ho + 2, wo + 2, l.cin, z)
    requires HoldsKernel(w, bias.Length, l.cin, l.kernel) && HoldsBias(bias, bias.Length, l.bias)
    ensures fresh(acc) && Holds64(acc, ho, wo, bias.Length, Accumulators(z, l))
  {
    hide TapsBefore, Holds, HoldsKernel;
    acc := new int[ho, wo, bias.Length]((y, c, oc) => 0);
    forall y, c, oc { NextTap(z, l, 0, 0, y, c, oc); }
    for ky := 0 to 3
      invariant Holds64(acc, ho, wo, bias.Length, Partial(z, l, ky, 0))
    {
      for kx := 0 to 3
        invariant Holds64(acc, ho, wo, bias.Length, Partial(z, l, ky, kx))
      {
        hide Holds64;
        AccSize(acc, ho, wo, bias.Length, Partial(z, l, ky, kx));
        AddTap(x, w, acc, ky, kx, z, l);
      }
      forall y, c, oc { NextTap(z, l, ky, 0, y, c, oc); }
    }
    AddBias(acc, bias, ho, wo, z, l);
  }

  lemma AccSize(a: array3<int>, h: nat, w: nat, channels: nat, t: Tensor)
    requires Holds64(a, h, w, channels, t)
    ensures a.Length0 == h && a.Length1 == w && a.Length2 == channels
  {
  }

  function Accumulators(z: Tensor, l: Layer): Tensor { (y, c, oc) => Accumulator(z, l, y, c, oc) }

  method AddBias(acc: array3<int>, bias: array<Int32>, ho: nat, wo: nat, ghost z: Tensor, ghost l: Layer)
    requires 2 < l.side < 4 && Holds64(acc, ho, wo, bias.Length, Partial(z, l, 3, 0))
      && HoldsBias(bias, bias.Length, l.bias)
    modifies acc
    ensures Holds64(acc, ho, wo, bias.Length, Accumulators(z, l))
  {
    hide TapsBefore, Dot;
    forall y, c, oc { NextTap(z, l, 0, 0, y, c, oc); }
    forall y, c, oc | 0 <= y < ho && 0 <= c < wo && 0 <= oc < bias.Length {
      acc[y, c, oc] := acc[y, c, oc] + bias[oc];
    }
  }

  // ---------------------------------------------------------------- the other array operations

  /** np.pad by one zero pixel on each side. */
  method PadMap(x: array3<Int8>, ghost h: nat, ghost w: nat, ghost channels: nat, ghost t: Tensor)
    returns (p: array3<Int8>)
    requires Holds(x, h, w, channels, t)
    ensures fresh(p) && Holds(p, h + 2, w + 2, channels, Pad(t, h, w))
  {
    p := new Int8[x.Length0 + 2, x.Length1 + 2, x.Length2]((y, c, ch) => 0);
    forall y, c, ch | 0 <= y < x.Length0 && 0 <= c < x.Length1 && 0 <= ch < x.Length2 {
      p[y + 1, c + 1, ch] := x[y, c, ch];
    }
  }

  method RequantReluClamp(acc: array3<int>, rq: Requant, ghost h: nat, ghost w: nat, ghost channels: nat,
                          ghost z: Tensor, ghost l: Layer)
    returns (out: array3<Int8>)
    requires Holds64(acc, h, w, channels, Accumulators(z, l)) && l.requant == rq
    ensures fresh(out) && Holds(out, h, w, channels, ConvOut(z, l))
    ensures forall y, c, ch :: 0 <= y < h && 0 <= c < w && 0 <= ch < channels ==>
      Requantised(out[y, c, ch], acc[y, c, ch], rq)
  {
    hide Accumulator, ShiftRight;
    out := new Int8[acc.Length0, acc.Length1, acc.Length2]((y, c, ch) => 0);
    forall y, c, ch | 0 <= y < acc.Length0 && 0 <= c < acc.Length1 && 0 <= ch < acc.Length2 {
      out[y, c, ch] := RequantClamp(acc[y, c, ch], rq);
    }
    hide RequantClamp, Requantised;
    forall y, c, ch | 0 <= y < h && 0 <= c < w && 0 <= ch < channels
      ensures Requantised(out[y, c, ch], acc[y, c, ch], rq)
    {
      RequantIsNearest(acc[y, c, ch], rq, out[y, c, ch]);
    }
  }

  /** The maximum of one 2x2 window. */
  function Window(x: array3<Int8>, y: nat, c: nat, ch: nat): Int8
    requires 2 * y + 1 < x.Length0 && 2 * c + 1 < x.Length1 && ch < x.Length2
    reads x
  {
    Golden.Max(Golden.Max(x[2 * y, 2 * c, ch], x[2 * y, 2 * c + 1, ch]),
               Golden.Max(x[2 * y + 1, 2 * c, ch], x[2 * y + 1, 2 * c + 1, ch]))
  }

  lemma WindowIsLargest(x: array3<Int8>, y: nat, c: nat, ch: nat)
    requires 2 * y + 1 < x.Length0 && 2 * c + 1 < x.Length1 && ch < x.Length2
    ensures Largest(Window(x, y, c, ch), x[2 * y, 2 * c, ch], x[2 * y, 2 * c + 1, ch], x[2 * y + 1, 2 * c, ch],
                    x[2 * y + 1, 2 * c + 1, ch])
  {
  }

  lemma WindowIsPooled(x: array3<Int8>, h: nat, w: nat, channels: nat, t: Tensor, y: nat, c: nat, ch: nat)
    requires Holds(x, h, w, channels, t) && 2 * y + 1 < h && 2 * c + 1 < w && ch < channels
    ensures Window(x, y, c, ch) == MaxPool(t)(y, c, ch)
  {
    var a, b := 2 * y, 2 * c;
    assert x[a, b, ch] == t(a, b, ch) && x[a, b + 1, ch] == t(a, b + 1, ch);
    assert x[a + 1, b, ch] == t(a + 1, b, ch) && x[a + 1, b + 1, ch] == t(a + 1, b + 1, ch);
    hide Holds, Golden.Max;
  }

  method MaxPool2x2(x: array3<Int8>, ghost h: nat, ghost w: nat, ghost channels: nat, ghost t: Tensor)
    returns (p: array3<Int8>)
    requires Holds(x, h, w, channels, t)
    ensures fresh(p) && Holds(p, h / 2, w / 2, channels, MaxPool(t))
    ensures forall y: nat, c: nat, ch: nat :: y < h / 2 && c < w / 2 && ch < channels ==>
      Largest(p[y, c, ch], x[2 * y, 2 * c, ch], x[2 * y, 2 * c + 1, ch],
            x[2 * y + 1, 2 * c, ch], x[2 * y + 1, 2 * c + 1, ch])
  {
    MapSize(x, h, w, channels, t);
    p := new Int8[x.Length0 / 2, x.Length1 / 2, x.Length2]((y, c, ch) => 0);
    assert Holds(x, h, w, channels, t);
    forall y: nat, c: nat, ch: nat | y < h / 2 && c < w / 2 && ch < channels
      ensures Window(x, y, c, ch) == MaxPool(t)(y, c, ch)
    {
      WindowIsPooled(x, h, w, channels, t, y, c, ch);
    }
    hide Window, MaxPool;
    forall y, c, ch | 0 <= y < p.Length0 && 0 <= c < p.Length1 && 0 <= ch < p.Length2 {
      p[y, c, ch] := Window(x, y, c, ch);
    }
    forall y: nat, c: nat, ch: nat | y < h / 2 && c < w / 2 && ch < channels
      ensures Largest(p[y, c, ch], x[2 * y, 2 * c, ch], x[2 * y, 2 * c + 1, ch], x[2 * y + 1, 2 * c, ch],
                      x[2 * y + 1, 2 * c + 1, ch])
    {
      WindowIsLargest(x, y, c, ch);
    }
  }

  /** quantize_input_96. */
  method QuantizeInput(image: seq<Byte>) returns (x: array3<Int8>)
    requires |image| == IMAGE_SIZE
    ensures fresh(x) && Holds(x, PL_SIDE, PL_SIDE, 3, PaddedInput(image))
  {
    var q := new Int8[ROI_SIDE, ROI_SIDE, 3]((y, c, ch) => 0);
    forall y, c, ch | 0 <= y < ROI_SIDE && 0 <= c < ROI_SIDE && 0 <= ch < 3 {
      q[y, c, ch] := (OffsetBounds(y, c, ch, ROI_SIDE, ROI_SIDE, 3);
                      QuantizePixel(image[Offset(y, c, ch, ROI_SIDE, 3)]));
    }
    x := PadMap(q, ROI_SIDE, ROI_SIDE, 3, Quantized(image));
  }

  // ---------------------------------------------------------------- the network

  /** One layer of the export: its arrays, and whether the map still has to be padded. */
  datatype LayerArrays = LayerArrays(weight: array4<Int8>, bias: array<Int32>, requant: Requant, pad: bool)

  ghost predicate HoldsLayer(a: LayerArrays, l: Layer)
    reads a.weight, a.bias
  {
    && 2 < l.side < 4 && a.requant == l.requant
    && HoldsKernel(a.weight, a.bias.Length, l.cin, l.kernel) && HoldsBias(a.bias, a.bias.Length, l.bias)
  }

  /** One turn of the layer loop: padding where needed, convolution, requant, pooling. */
  method RunLayer(cur: array3<Int8>, a: LayerArrays, ghost h: nat, ghost w: nat, ghost t: Tensor, ghost l: Layer)
    returns (pooled: array3<Int8>)
    requires HoldsLayer(a, l)
    requires if a.pad then Holds(cur, h, w, l.cin, t) else Holds(cur, h + 2, w + 2, l.cin, t)
    ensures fresh(pooled)
    ensures Holds(pooled, h / 2, w / 2, a.bias.Length, Stage(if a.pad then Pad(t, h, w) else t, l))
  {
    hide Holds, Holds64, HoldsKernel, ConvOut, MaxPool, Pad;
    ghost var z := if a.pad then Pad(t, h, w) else t;
    var x := cur;
    if a.pad { x := PadMap(cur, h, w, l.cin, t); }
    MapSize(x, h + 2, w + 2, l.cin, z);
    var acc := Int8Conv3x3(x, a.weight, a.bias, x.Length0 - 2, x.Length1 - 2, z, l);
    var out := RequantReluClamp(acc, a.requant, h, w, a.bias.Length, z, l);
    pooled := MaxPool2x2(out, h, w, a.bias.Length, ConvOut(z, l));
  }

  lemma MapSize(a: array3<Int8>, h: nat, w: nat, channels: nat, t: Tensor)
    requires Holds(a, h, w, channels, t)
    ensures a.Length0 == h && a.Length1 == w && a.Length2 == channels
  {
  }

  /** The export of run_golden: three layers, of which the first gets a padded map, and the classifier. */
  ghost predicate HoldsExport(layers: seq<LayerArrays>, n: Network3)
    reads set a <- layers :: a.weight, set a <- layers :: a.bias
  {
    && |layers| == 3 && Chained(n.l0, n.l1, n.l2, C0_OUT_CH, C1_OUT_CH) && n.l0.cin == 3
    && HoldsLayer(layers[0], n.l0) && HoldsLayer(layers[1], n.l1) && HoldsLayer(layers[2], n.l2)
    && layers[0].bias.Length == C0_OUT_CH && layers[1].bias.Length == C1_OUT_CH && layers[2].bias.Length == C2_OUT_CH
    && !layers[0].pad && layers[1].pad && layers[2].pad
  }

  /** The map after `i` layers. */
  function MapAfter(image: seq<Byte>, n: Network3, i: nat): Tensor
    requires |image| == IMAGE_SIZE && i <= 3
  {
    if i == 0 then PaddedInput(image)
    else if i == 1 then Stage(PaddedInput(image), n.l0)
    else if i == 2 then Stage(Pad(MapAfter(image, n, 1), C0_SIZE / 2, C0_SIZE / 2), n.l1)
    else Stage(Pad(MapAfter(image, n, 2), C0_SIZE / 4, C0_SIZE / 4), n.l2)
  }

  ghost predicate HoldsAfter(cur: array3<Int8>, image: seq<Byte>, n: Network3, i: nat)
    requires |image| == IMAGE_SIZE && i <= 3
    reads cur
  {
    var side := if i == 0 then PL_SIDE else if i == 1 then C0_SIZE / 2 else if i == 2 then C0_SIZE / 4 else GAP_SIDE;
    var channels := if i == 0 then 3 else if i == 1 then C0_OUT_CH else if i == 2 then C1_OUT_CH else C2_OUT_CH;
    Holds(cur, side, side, channels, MapAfter(image, n, i))
  }

  lemma AllLayers(image: seq<Byte>, n: Network3)
    requires |image| == IMAGE_SIZE
    ensures MapAfter(image, n, 3) == GoldenMap(image, n)
  {
    hide Stage, Pad, PaddedInput;
    assert MapAfter(image, n, 1) == Stage(PaddedInput(image), n.l0);
    assert MapAfter(image, n, 2) == Stage(Pad(MapAfter(image, n, 1), C0_SIZE / 2, C0_SIZE / 2), n.l1);
  }

  /** run_golden up to the PL's output: the current map threaded through the three layers. */
  method RunLayers(image: seq<Byte>, layers: seq<LayerArrays>, ghost n: Network3) returns (cur: array3<Int8>)
    requires |image| == IMAGE_SIZE && HoldsExport(layers, n)
    ensures Holds(cur, GAP_SIDE, GAP_SIDE, CHANNELS, GoldenMap(image, n))
  {
    hide Holds, HoldsLayer, Pad, Stage, PaddedInput;
    cur := QuantizeInput(image);
    for i := 0 to 3
      invariant HoldsAfter(cur, image, n, i)
    {
      ghost var side := if i == 0 then C0_SIZE else if i == 1 then C0_SIZE / 2 else C0_SIZE / 4;
      ghost var l := if i == 0 then n.l0 else if i == 1 then n.l1 else n.l2;
      cur := RunLayer(cur, layers[i], side, side, MapAfter(image, n, i), l);
    }
    AllLayers(image, n);
  }

  // ---------------------------------------------------------------- the classifier

  /** Sum of one channel over the map. */
  method GapOne(cur: array3<Int8>, ch: nat, ghost t: Tensor) returns (s: int)
    requires Holds(cur, cur.Length0, cur.Length1, cur.Length2, t) && ch < cur.Length2
    ensures s == ChannelSum(t, cur.Length0, cur.Length1)(ch)
  {
    hide GapAt, ChannelSum;
    s := 0;
    GapSteps(t, ch, cur.Length1, 0, 0);
    for y := 0 to cur.Length0
      invariant s == GapAt(t, ch, cur.Length1, y, 0)
    {
      for x := 0 to cur.Length1
        invariant s == GapAt(t, ch, cur.Length1, y, x)
      {
        GapSteps(t, ch, cur.Length1, y, x);
        s := s + cur[y, x, ch];
      }
      GapSteps(t, ch, cur.Length1, y, 0);
    }
    GapSteps(t, ch, cur.Length1, cur.Length0, 0);
  }

  /** gap_sum. */
  method GapSums(cur: array3<Int8>, ghost t: Tensor) returns (sums: array<int>)
    requires Holds(cur, GAP_SIDE, GAP_SIDE, CHANNELS, t)
    ensures sums.Length == CHANNELS && forall ch :: 0 <= ch < CHANNELS ==>
      sums[ch] == ChannelSum(t, GAP_SIDE, GAP_SIDE)(ch)
  {
    hide ChannelSum;
    sums := new int[CHANNELS](ch => 0);
    for ch := 0 to CHANNELS
      invariant forall k :: 0 <= k < ch ==> sums[k] == ChannelSum(t, GAP_SIDE, GAP_SIDE)(k)
    {
      sums[ch] := GapOne(cur, ch, t);
    }
  }

  /** One logit: a row of gap_sum @ fc_w.T, and its bias. */
  method LogitOne(sums: array<int>, fcWeight: array2<Int8>, bias: int, k: nat, ghost t: Tensor, ghost n: Network3)
    returns (s: int)
    requires sums.Length == CHANNELS && fcWeight.Length1 == CHANNELS && k < fcWeight.Length0 && bias == n.fcBias(k)
    requires forall ch :: 0 <= ch < CHANNELS ==> sums[ch] == ChannelSum(t, GAP_SIDE, GAP_SIDE)(ch)
    requires forall ch :: 0 <= ch < CHANNELS ==> fcWeight[k, ch] == n.fcWeight(k, ch)
    ensures s == GoldenLogits(t, n)(k)
  {
    hide ChannelSum;
    s := 0;
    ghost var f := ChannelSum(t, GAP_SIDE, GAP_SIDE);
    for ch := 0 to CHANNELS
      invariant s == Sum(ch, GoldenTerm(f, n.fcWeight, k))
    {
      SumLast(ch + 1, GoldenTerm(f, n.fcWeight, k));
      s := s + sums[ch] * fcWeight[k, ch];
    }
    s := s + bias;
  }

  /** The classifier's arrays. */
  ghost predicate HoldsClassifier(fcWeight: array2<Int8>, fcBias: array<Int32>, n: Network3)
    reads fcWeight, fcBias
  {
    && fcWeight.Length0 == fcBias.Length && fcWeight.Length1 == CHANNELS && HoldsBias(fcBias, fcBias.Length, n.fcBias)
    && forall k, ch :: 0 <= k < fcBias.Length && 0 <= ch < CHANNELS ==> fcWeight[k, ch] == n.fcWeight(k, ch)
  }

  /** Logits and np.argmax. */
  method BestClass(sums: array<int>, fcWeight: array2<Int8>, fcBias: array<Int32>, ghost t: Tensor, ghost n: Network3)
    returns (classId: nat)
    requires fcBias.Length > 0 && HoldsClassifier(fcWeight, fcBias, n) && sums.Length == CHANNELS
    requires forall ch :: 0 <= ch < CHANNELS ==> sums[ch] == ChannelSum(t, GAP_SIDE, GAP_SIDE)(ch)
    ensures FirstMax(fcBias.Length, GoldenLogits(t, n), classId)
  {
    hide GoldenLogits, ChannelSum;
    classId := 0;
    var best := LogitOne(sums, fcWeight, fcBias[0], 0, t, n);
    for k := 1 to fcBias.Length
      invariant FirstMax(k, GoldenLogits(t, n), classId) && best == GoldenLogits(t, n)(classId)
    {
      var logit := LogitOne(sums, fcWeight, fcBias[k], k, t, n);
      if logit > best { classId, best := k, logit; }
    }
  }

  /** run_golden: the class it reports is the golden class of the image. */
  method RunGolden(image: seq<Byte>, layers: seq<LayerArrays>, fcWeight: array2<Int8>, fcBias: array<Int32>,
                   ghost n: Network3) returns (classId: nat)
    requires |image| == IMAGE_SIZE && HoldsExport(layers, n)
    requires fcBias.Length > 0 && HoldsClassifier(fcWeight, fcBias, n)
    ensures GoldenClass(image, n, fcBias.Length, classId) && IsGoldenClass(image, n, fcBias.Length, classId)
  {
    hide GoldenLogits, GoldenMap, HoldsExport, HoldsClassifier, Holds, ChannelSum, IsGoldenClass;
    var cur := RunLayers(image, layers, n);
    var sums := GapSums(cur, GoldenMap(image, n));
    classId := BestClass(sums, fcWeight, fcBias, GoldenMap(image, n), n);
    GoldenClassIs(image, n, fcBias.Length, classId);
  }
}
