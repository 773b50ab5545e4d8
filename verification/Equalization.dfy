/** Cross-layer equalization (cle.py) over the reals: the export-side rescaling of adjacent
    layers, and the floating-point network it must not change. Weights are total functions of
    their indices; `sqrt` is whatever positive function the export uses. */
module Equalization {
  type Tensor = (int, int, int) -> real         // [row][column][channel]
  type Kernel = (int, int, int, int) -> real    // [out channel][in channel][ky][kx]
  type Matrix = (int, int) -> real              // [class][channel]
  type Vector = int -> real
  type Positive = r: real | r > 0.0 witness 1.0
  type Scales = int -> Positive
  type Root = Positive -> Positive

  const SIDE := 3
  const EPS := 0.00000001

  function Sum(n: nat, f: Vector): real
  {
    if n == 0 then 0.0 else Sum(n - 1, f) + f(n - 1)
  }

  /** The largest of f(0) .. f(n - 1), and of zero: absolute values are never below zero. */
  function Largest(n: nat, f: Vector): real
  {
    if n == 0 then 0.0 else
      var m := Largest(n - 1, f);
      if f(n - 1) > m then f(n - 1) else m
  }

  lemma {:induction false} LargestIsMaximum(n: nat, f: Vector)
    ensures var m := Largest(n, f);
      && m >= 0.0 && (forall i :: 0 <= i < n ==> f(i) <= m) && (m == 0.0 || exists i :: 0 <= i < n && f(i) == m)
  {
    if n > 0 { LargestIsMaximum(n - 1, f); }
  }

  /** Multiplication by a scale, named so that proofs can keep it abstract. */
  function Times(x: real, k: real): real { x * k }

  function Abs(x: real): real { if x < 0.0 then -x else x }

  datatype Conv = Conv(weight: Kernel, bias: Vector)
  datatype Fc = Fc(weight: Matrix, bias: Vector)

  /** The fused parameters of the network, by layer name. */
  datatype Name = Conv0 | Conv1 | Conv2 | Classifier
  datatype Layer = Convolution(conv: Conv) | Linear(fc: Fc)
  type Params = map<Name, Layer>

  /** Channel counts after the input and after each convolution, and the number of classes. */
  datatype Shape = Shape(c0: nat, c1: nat, c2: nat, c3: nat, classes: nat)

  predicate WellFormed(p: Params)
  {
    && Conv0 in p && Conv1 in p && Conv2 in p && Classifier in p
    && p[Conv0].Convolution? && p[Conv1].Convolution? && p[Conv2].Convolution? && p[Classifier].Linear?
  }

  // ---------------------------------------------------------------- the network

  function Pad(x: Tensor, size: int): Tensor
  {
    (r, c, ch) => if 1 <= r <= size && 1 <= c <= size then x(r - 1, c - 1, ch) else 0.0
  }

  function Tap(x: Tensor, w: Kernel, r: int, c: int, oc: int, ky: int, kx: int): Vector
  {
    ic => Times(x(r + ky, c + kx, ic), w(oc, ic, ky, kx))
  }

  function Columns(x: Tensor, w: Kernel, cin: nat, r: int, c: int, oc: int, ky: int): Vector
  {
    kx => Sum(cin, Tap(x, w, r, c, oc, ky, kx))
  }

  function Rows(x: Tensor, w: Kernel, n: nat, cin: nat, r: int, c: int, oc: int): Vector
  {
    ky => Sum(n, Columns(x, w, cin, r, c, oc, ky))
  }

  function Convolve(x: Tensor, l: Conv, n: nat, cin: nat): Tensor
  {
    (r, c, oc) => Sum(n, Rows(x, l.weight, n, cin, r, c, oc)) + l.bias(oc)
  }

  function Max(a: real, b: real): real { if b > a then b else a }

  function Relu(x: Tensor): Tensor
  {
    (r, c, ch) => Max(0.0, x(r, c, ch))
  }

  function MaxPool(x: Tensor): Tensor
  {
    (r, c, ch) => Max(Max(x(2 * r, 2 * c, ch), x(2 * r, 2 * c + 1, ch)),
                      Max(x(2 * r + 1, 2 * c, ch), x(2 * r + 1, 2 * c + 1, ch)))
  }

  /** conv2d with padding 1, ReLU, 2x2 maxpool, on a size x size map. */
  function Block(x: Tensor, size: nat, l: Conv, cin: nat): Tensor
  {
    MaxPool(Relu(Convolve(Pad(x, size), l, SIDE, cin)))
  }

  function RowOf(x: Tensor, r: int, ch: int): Vector { c => x(r, c, ch) }

  function RowSums(x: Tensor, side: nat, ch: int): Vector { r => Sum(side, RowOf(x, r, ch)) }

  /** Global average pooling. */
  function Gap(x: Tensor, side: nat): Vector
    requires side > 0
  {
    ch => Sum(side, RowSums(x, side, ch)) / (side * side) as real
  }

  function Weighted(g: Vector, w: Matrix, n: int): Vector { ch => Times(g(ch), w(n, ch)) }

  function Features(p: Params, d: Shape, size: nat, x: Tensor): Tensor
    requires WellFormed(p)
  {
    var p0 := Block(x, size, p[Conv0].conv, d.c0);
    var p1 := Block(p0, size / 2, p[Conv1].conv, d.c1);
    Block(p1, size / 4, p[Conv2].conv, d.c2)
  }

  /** The forward pass: three blocks, GAP, fully connected layer. */
  function Logit(p: Params, d: Shape, size: nat, x: Tensor, n: int): real
    requires WellFormed(p) && size >= 8
  {
    Sum(d.c3, Weighted(Gap(Features(p, d, size, x), size / 8), p[Classifier].fc.weight, n)) + p[Classifier].fc.bias(n)
  }

  // ---------------------------------------------------------------- the transformation

  function KernelRow(w: Kernel, oc: int, ic: int, ky: int): Vector { kx => Abs(w(oc, ic, ky, kx)) }

  function KernelPlane(w: Kernel, n: nat, oc: int, ic: int): Vector { ky => Largest(n, KernelRow(w, oc, ic, ky)) }

  /** The largest |w| of the kernel plane between two channels. */
  function PlaneRange(w: Kernel, n: nat, oc: int, ic: int): real { Largest(n, KernelPlane(w, n, oc, ic)) }

  function OutPlanes(w: Kernel, n: nat, oc: int): Vector { ic => PlaneRange(w, n, oc, ic) }

  function InPlanes(w: Kernel, n: nat, ic: int): Vector { oc => PlaneRange(w, n, oc, ic) }

  function OutRange(w: Kernel, n: nat, cin: nat, oc: int): real { Largest(cin, OutPlanes(w, n, oc)) }

  function InRange(w: Kernel, n: nat, cout: nat, ic: int): real { Largest(cout, InPlanes(w, n, ic)) }

  function ColumnOf(w: Matrix, ch: int): Vector { n => Abs(w(n, ch)) }

  function ColumnRange(w: Matrix, classes: nat, ch: int): real { Largest(classes, ColumnOf(w, ch)) }

  lemma PositiveQuotient(a: real, b: real)
    requires a > 0.0 && b > 0.0
    ensures a / b > 0.0
  {
  }

  /** sqrt(r1 / r2) where both ranges exceed eps, 1 elsewhere. */
  function ScaleOf(r1: real, r2: real, eps: real, sqrt: Root): Positive
    requires eps >= 0.0
  {
    if r1 > eps && r2 > eps then
      PositiveQuotient(r1, r2);
      sqrt(r1 / r2)
    else 1.0
  }

  function PairScales(w1: Kernel, w2: Kernel, cin: nat, cout: nat, eps: real, sqrt: Root): Scales
    requires eps >= 0.0
  {
    i => ScaleOf(OutRange(w1, SIDE, cin, i), InRange(w2, SIDE, cout, i), eps, sqrt)
  }

  function FcScales(w: Kernel, fc: Matrix, cin: nat, classes: nat, eps: real, sqrt: Root): Scales
    requires eps >= 0.0
  {
    i => ScaleOf(OutRange(w, SIDE, cin, i), ColumnRange(fc, classes, i), eps, sqrt)
  }

  function DivideOut(l: Conv, s: Scales): Conv
  {
    Conv((oc, ic, ky, kx) => l.weight(oc, ic, ky, kx) / s(oc), oc => l.bias(oc) / s(oc))
  }

  function MultiplyIn(l: Conv, s: Scales): Conv
  {
    l.(weight := (oc, ic, ky, kx) => Times(l.weight(oc, ic, ky, kx), s(ic)))
  }

  function MultiplyColumns(l: Fc, s: Scales): Fc
  {
    l.(weight := (n, ch) => Times(l.weight(n, ch), s(ch)))
  }

  /** equalize_pair. */
  function EqualizePair(l1: Conv, l2: Conv, cin: nat, cout: nat, eps: real, sqrt: Root): (Conv, Conv)
    requires eps >= 0.0
  {
    var s := PairScales(l1.weight, l2.weight, cin, cout, eps, sqrt);
    (DivideOut(l1, s), MultiplyIn(l2, s))
  }

  /** equalize_conv_to_fc. */
  function EqualizeConvToFc(l: Conv, fc: Fc, cin: nat, classes: nat, eps: real, sqrt: Root): (Conv, Fc)
    requires eps >= 0.0
  {
    var s := FcScales(l.weight, fc.weight, cin, classes, eps, sqrt);
    (DivideOut(l, s), MultiplyColumns(fc, s))
  }

  // ---------------------------------------------------------------- the function is unchanged

  /** `small` is `big` with channel i divided by s(i). */
  ghost predicate Divided(small: Tensor, big: Tensor, s: Scales, channels: nat)
  {
    forall r, c, i :: 0 <= i < channels ==> Times(small(r, c, i), s(i)) == big(r, c, i)
  }

  /** `b` computes what `a` does once channel i of its input is divided by si(i), and gives
      output channel i divided by so(i). */
  ghost predicate Rescales(b: Conv, a: Conv, cin: nat, cout: nat, si: Scales, so: Scales)
  {
    && (forall oc, ic, ky, kx :: 0 <= oc < cout && 0 <= ic < cin ==>
         Times(b.weight(oc, ic, ky, kx), so(oc)) == Times(a.weight(oc, ic, ky, kx), si(ic)))
    && forall oc :: 0 <= oc < cout ==> Times(b.bias(oc), so(oc)) == a.bias(oc)
  }

  ghost predicate RescalesFc(b: Fc, a: Fc, channels: nat, s: Scales)
  {
    && (forall n, ch :: 0 <= ch < channels ==> b.weight(n, ch) == Times(a.weight(n, ch), s(ch)))
    && forall n :: b.bias(n) == a.bias(n)
  }

  const UNIT: Scales := _ => 1.0

  /** The scales at the three places where two layers meet. */
  datatype Joints = Joints(s0: Scales, s1: Scales, s2: Scales)

  ghost predicate Equivalent(q: Params, p: Params, d: Shape, j: Joints)
  {
    && WellFormed(q) && WellFormed(p)
    && Rescales(q[Conv0].conv, p[Conv0].conv, d.c0, d.c1, UNIT, j.s0)
    && Rescales(q[Conv1].conv, p[Conv1].conv, d.c1, d.c2, j.s0, j.s1)
    && Rescales(q[Conv2].conv, p[Conv2].conv, d.c2, d.c3, j.s1, j.s2)
    && RescalesFc(q[Classifier].fc, p[Classifier].fc, d.c3, j.s2)
  }

  lemma {:induction false} SumScale(n: nat, f: Vector, g: Vector, k: real)
    requires forall i :: 0 <= i < n ==> Times(f(i), k) == g(i)
    ensures Times(Sum(n, f), k) == Sum(n, g)
  {
    assert Times(0.0, k) == 0.0;
    hide Times;
    if n > 0 {
      SumScale(n - 1, f, g, k);
      Distribute(Sum(n - 1, f), f(n - 1), k);
    }
  }

  lemma Distribute(a: real, b: real, k: real)
    ensures Times(a + b, k) == Times(a, k) + Times(b, k)
  {
  }

  lemma ScaledProduct(x: real, w: real, y: real, v: real, si: real, so: real)
    requires Times(x, si) == y && Times(w, so) == Times(v, si)
    ensures Times(Times(x, w), so) == Times(y, v)
  {
    calc {
      (x * w) * so;
      x * (w * so);
      x * (v * si);
      (x * si) * v;
    }
  }

  lemma ConvolveDivided(x: Tensor, y: Tensor, b: Conv, a: Conv, n: nat, cin: nat, cout: nat, si: Scales, so: Scales,
                        r: int, c: int, oc: int)
    requires Divided(x, y, si, cin) && Rescales(b, a, cin, cout, si, so) && 0 <= oc < cout
    ensures Times(Convolve(x, b, n, cin)(r, c, oc), so(oc)) == Convolve(y, a, n, cin)(r, c, oc)
  {
    hide Times;
    forall ky | 0 <= ky < n
      ensures Times(Rows(x, b.weight, n, cin, r, c, oc)(ky), so(oc)) == Rows(y, a.weight, n, cin, r, c, oc)(ky)
    {
      forall kx | 0 <= kx < n
        ensures Times(Columns(x, b.weight, cin, r, c, oc, ky)(kx), so(oc)) ==
          Columns(y, a.weight, cin, r, c, oc, ky)(kx)
      {
        TapsDivided(x, y, b, a, cin, cout, si, so, r, c, oc, ky, kx);
      }
      SumScale(n, Columns(x, b.weight, cin, r, c, oc, ky), Columns(y, a.weight, cin, r, c, oc, ky), so(oc));
    }
    SumScale(n, Rows(x, b.weight, n, cin, r, c, oc), Rows(y, a.weight, n, cin, r, c, oc), so(oc));
    Distribute(Sum(n, Rows(x, b.weight, n, cin, r, c, oc)), b.bias(oc), so(oc));
  }

  lemma TapsDivided(x: Tensor, y: Tensor, b: Conv, a: Conv, cin: nat, cout: nat, si: Scales, so: Scales,
                    r: int, c: int, oc: int, ky: int, kx: int)
    requires Divided(x, y, si, cin) && Rescales(b, a, cin, cout, si, so) && 0 <= oc < cout
    ensures Times(Sum(cin, Tap(x, b.weight, r, c, oc, ky, kx)), so(oc)) == Sum(cin, Tap(y, a.weight, r, c, oc, ky, kx))
  {
    hide Times;
    forall ic | 0 <= ic < cin
      ensures Times(Tap(x, b.weight, r, c, oc, ky, kx)(ic), so(oc)) == Tap(y, a.weight, r, c, oc, ky, kx)(ic)
    {
      ScaledProduct(x(r + ky, c + kx, ic), b.weight(oc, ic, ky, kx), y(r + ky, c + kx, ic), a.weight(oc, ic, ky, kx),
                    si(ic), so(oc));
    }
    SumScale(cin, Tap(x, b.weight, r, c, oc, ky, kx), Tap(y, a.weight, r, c, oc, ky, kx), so(oc));
  }

  lemma MaxScale(a: real, b: real, k: Positive)
    ensures Times(Max(a, b), k) == Max(Times(a, k), Times(b, k))
  {
    if b > a {
      assert (b - a) * k > 0.0;
      Distribute(b, -a, k);
    } else {
      assert (a - b) * k >= 0.0;
      Distribute(a, -b, k);
    }
  }

  lemma ReluPoolDivided(x: Tensor, y: Tensor, s: Scales, channels: nat)
    requires Divided(x, y, s, channels)
    ensures Divided(MaxPool(Relu(x)), MaxPool(Relu(y)), s, channels)
  {
    hide Times, Max;
    ReluDivided(x, y, s, channels);
    var u, v := Relu(x), Relu(y);
    forall r, c, i | 0 <= i < channels
      ensures Times(MaxPool(u)(r, c, i), s(i)) == MaxPool(v)(r, c, i)
    {
      MaxScale(u(2 * r, 2 * c, i), u(2 * r, 2 * c + 1, i), s(i));
      MaxScale(u(2 * r + 1, 2 * c, i), u(2 * r + 1, 2 * c + 1, i), s(i));
      MaxScale(Max(u(2 * r, 2 * c, i), u(2 * r, 2 * c + 1, i)),
               Max(u(2 * r + 1, 2 * c, i), u(2 * r + 1, 2 * c + 1, i)), s(i));
    }
  }

  lemma ReluDivided(x: Tensor, y: Tensor, s: Scales, channels: nat)
    requires Divided(x, y, s, channels)
    ensures Divided(Relu(x), Relu(y), s, channels)
  {
    assert Times(0.0, 0.0) == 0.0;
    hide Max;
    forall r, c, i | 0 <= i < channels
      ensures Times(Relu(x)(r, c, i), s(i)) == Relu(y)(r, c, i)
    {
      MaxScale(0.0, x(r, c, i), s(i));
    }
  }

  lemma PadDivided(x: Tensor, y: Tensor, size: int, s: Scales, channels: nat)
    requires Divided(x, y, s, channels)
    ensures Divided(Pad(x, size), Pad(y, size), s, channels)
  {
  }

  /** A rescaled block: conv, ReLU and maxpool all commute with positive channel scales. */
  lemma BlockDivided(x: Tensor, y: Tensor, size: nat, b: Conv, a: Conv, cin: nat, cout: nat, si: Scales, so: Scales)
    requires Divided(x, y, si, cin) && Rescales(b, a, cin, cout, si, so)
    ensures Divided(Block(x, size, b, cin), Block(y, size, a, cin), so, cout)
  {
    hide Times, Convolve, MaxPool, Relu;
    PadDivided(x, y, size, si, cin);
    var px, py := Pad(x, size), Pad(y, size);
    var u, v := Convolve(px, b, SIDE, cin), Convolve(py, a, SIDE, cin);
    forall r, c, i | 0 <= i < cout
      ensures Times(u(r, c, i), so(i)) == v(r, c, i)
    {
      ConvolveDivided(px, py, b, a, SIDE, cin, cout, si, so, r, c, i);
    }
    ReluPoolDivided(u, v, so, cout);
  }

  lemma QuotientScale(a: real, b: real, k: real, n: real)
    requires Times(a, k) == b && n != 0.0
    ensures Times(a / n, k) == b / n
  {
  }

  lemma GapDivided(x: Tensor, y: Tensor, side: nat, s: Scales, channels: nat, ch: int)
    requires Divided(x, y, s, channels) && 0 <= ch < channels && side > 0
    ensures Times(Gap(x, side)(ch), s(ch)) == Gap(y, side)(ch)
  {
    hide Times;
    forall r | 0 <= r < side
      ensures Times(RowSums(x, side, ch)(r), s(ch)) == RowSums(y, side, ch)(r)
    {
      SumScale(side, RowOf(x, r, ch), RowOf(y, r, ch), s(ch));
    }
    SumScale(side, RowSums(x, side, ch), RowSums(y, side, ch), s(ch));
    QuotientScale(Sum(side, RowSums(x, side, ch)), Sum(side, RowSums(y, side, ch)), s(ch), (side * side) as real);
  }

  /** For every positive choice of scales, every input and every size, the logits agree. */
  lemma EquivalentLogits(q: Params, p: Params, d: Shape, j: Joints, size: nat, x: Tensor, n: int)
    requires Equivalent(q, p, d, j) && size >= 8
    ensures Logit(q, d, size, x, n) == Logit(p, d, size, x, n)
  {
    hide Block, Gap;
    assert Divided(x, x, UNIT, d.c0);
    var b0, a0 := Block(x, size, q[Conv0].conv, d.c0), Block(x, size, p[Conv0].conv, d.c0);
    BlockDivided(x, x, size, q[Conv0].conv, p[Conv0].conv, d.c0, d.c1, UNIT, j.s0);
    var b1, a1 := Block(b0, size / 2, q[Conv1].conv, d.c1), Block(a0, size / 2, p[Conv1].conv, d.c1);
    BlockDivided(b0, a0, size / 2, q[Conv1].conv, p[Conv1].conv, d.c1, d.c2, j.s0, j.s1);
    var b2, a2 := Block(b1, size / 4, q[Conv2].conv, d.c2), Block(a1, size / 4, p[Conv2].conv, d.c2);
    BlockDivided(b1, a1, size / 4, q[Conv2].conv, p[Conv2].conv, d.c2, d.c3, j.s1, j.s2);
    LogitsFromFeatures(b2, a2, q[Classifier].fc, p[Classifier].fc, d.c3, size / 8, j.s2, n);
  }

  lemma LogitsFromFeatures(x: Tensor, y: Tensor, b: Fc, a: Fc, channels: nat, side: nat, s: Scales, n: int)
    requires Divided(x, y, s, channels) && RescalesFc(b, a, channels, s) && side > 0
    ensures Sum(channels, Weighted(Gap(x, side), b.weight, n)) + b.bias(n)
         == Sum(channels, Weighted(Gap(y, side), a.weight, n)) + a.bias(n)
  {
    hide Gap;
    var f, g := Weighted(Gap(x, side), b.weight, n), Weighted(Gap(y, side), a.weight, n);
    forall ch | 0 <= ch < channels
      ensures Times(f(ch), 1.0) == g(ch)
    {
      GapDivided(x, y, side, s, channels, ch);
      Reassociate(Gap(x, side)(ch), a.weight(n, ch), s(ch));
    }
    SumScale(channels, f, g, 1.0);
  }

  lemma Reassociate(g: real, w: real, s: real)
    ensures Times(g, Times(w, s)) == Times(Times(g, s), w)
  {
  }

  // ---------------------------------------------------------------- what the transformation does

  function Product(a: Positive, b: Positive): Positive
  {
    ProductPositive(a, b);
    a * b
  }

  lemma ProductPositive(a: real, b: real)
    requires a > 0.0 && b > 0.0
    ensures a * b > 0.0
  {
  }

  function Products(s: Scales, t: Scales): Scales { i => Product(s(i), t(i)) }

  lemma QuotientTimes(w: real, so: Positive, s: Positive)
    ensures Times(w / s, Product(so, s)) == Times(w, so)
  {
  }

  lemma TimesProduct(w: real, v: real, so: Positive, si: Positive, s: Positive)
    requires Times(w, so) == Times(v, si)
    ensures Times(Times(w, s), so) == Times(v, Product(si, s))
  {
    calc {
      (w * s) * so;
      (w * so) * s;
      (v * si) * s;
      v * (si * s);
    }
  }

  lemma DivideRescales(b: Conv, a: Conv, cin: nat, cout: nat, si: Scales, so: Scales, s: Scales)
    requires Rescales(b, a, cin, cout, si, so)
    ensures Rescales(DivideOut(b, s), a, cin, cout, si, Products(so, s))
  {
    hide Times, Product;
    var q := DivideOut(b, s);
    forall oc, ic, ky, kx | 0 <= oc < cout && 0 <= ic < cin
      ensures Times(q.weight(oc, ic, ky, kx), Products(so, s)(oc)) == Times(a.weight(oc, ic, ky, kx), si(ic))
    {
      QuotientTimes(b.weight(oc, ic, ky, kx), so(oc), s(oc));
    }
    forall oc | 0 <= oc < cout
      ensures Times(q.bias(oc), Products(so, s)(oc)) == a.bias(oc)
    {
      QuotientTimes(b.bias(oc), so(oc), s(oc));
    }
  }

  lemma MultiplyRescales(b: Conv, a: Conv, cin: nat, cout: nat, si: Scales, so: Scales, s: Scales)
    requires Rescales(b, a, cin, cout, si, so)
    ensures Rescales(MultiplyIn(b, s), a, cin, cout, Products(si, s), so)
  {
    hide Times, Product;
    var q := MultiplyIn(b, s);
    forall oc, ic, ky, kx | 0 <= oc < cout && 0 <= ic < cin
      ensures Times(q.weight(oc, ic, ky, kx), so(oc)) == Times(a.weight(oc, ic, ky, kx), Products(si, s)(ic))
    {
      TimesProduct(b.weight(oc, ic, ky, kx), a.weight(oc, ic, ky, kx), so(oc), si(ic), s(ic));
    }
  }

  lemma MultiplyColumnsRescales(b: Fc, a: Fc, channels: nat, si: Scales, s: Scales)
    requires RescalesFc(b, a, channels, si)
    ensures RescalesFc(MultiplyColumns(b, s), a, channels, Products(si, s))
  {
    var q := MultiplyColumns(b, s);
    forall n, ch | 0 <= ch < channels
      ensures q.weight(n, ch) == Times(a.weight(n, ch), Products(si, s)(ch))
    {
      Associate(a.weight(n, ch), si(ch), s(ch));
    }
  }

  lemma Associate(w: real, si: Positive, s: Positive)
    ensures Times(Times(w, si), s) == Times(w, Product(si, s))
  {
  }

  lemma LargestIsMax(n: nat, f: Vector)
    requires n > 0
    ensures Largest(n, f) == Max(Largest(n - 1, f), f(n - 1))
  {
  }

  lemma {:induction false} LargestScale(n: nat, f: Vector, g: Vector, k: Positive)
    requires forall i :: 0 <= i < n ==> g(i) == Times(f(i), k)
    ensures Largest(n, g) == Times(Largest(n, f), k)
  {
    assert Times(0.0, k) == 0.0;
    hide Times, Max;
    if n > 0 {
      hide Largest;
      LargestScale(n - 1, f, g, k);
      MaxScale(Largest(n - 1, f), f(n - 1), k);
      LargestIsMax(n, f);
      LargestIsMax(n, g);
    }
  }

  /** Both ranges of one plane scale with the weights. */
  lemma PlaneScale(w: Kernel, v: Kernel, n: nat, oc: int, ic: int, k: Positive)
    requires forall ky, kx :: v(oc, ic, ky, kx) == Times(w(oc, ic, ky, kx), k)
    ensures PlaneRange(v, n, oc, ic) == Times(PlaneRange(w, n, oc, ic), k)
  {
    forall ky | 0 <= ky < n
      ensures KernelPlane(v, n, oc, ic)(ky) == Times(KernelPlane(w, n, oc, ic)(ky), k)
    {
      forall kx | 0 <= kx < n
        ensures KernelRow(v, oc, ic, ky)(kx) == Times(KernelRow(w, oc, ic, ky)(kx), k)
      {
        AbsScale(w(oc, ic, ky, kx), k);
      }
      hide Times;
      LargestScale(n, KernelRow(w, oc, ic, ky), KernelRow(v, oc, ic, ky), k);
    }
    hide Times;
    LargestScale(n, KernelPlane(w, n, oc, ic), KernelPlane(v, n, oc, ic), k);
  }

  lemma AbsScale(x: real, k: Positive)
    ensures Abs(Times(x, k)) == Times(Abs(x), k)
  {
    MaxScale(x, -x, k);
    assert Times(-x, k) == -Times(x, k);
  }

  function Inverse(s: Positive): Positive
  {
    PositiveQuotient(1.0, s);
    1.0 / s
  }

  lemma QuotientIsTimes(w: real, s: Positive)
    ensures w / s == Times(w, Inverse(s))
  {
  }

  /** Dividing the output channels divides their ranges. */
  lemma DividedOutRange(l: Conv, s: Scales, n: nat, cin: nat, i: int)
    ensures OutRange(DivideOut(l, s).weight, n, cin, i) == Times(OutRange(l.weight, n, cin, i), Inverse(s(i)))
  {
    hide Times, Inverse, PlaneRange;
    var v := DivideOut(l, s).weight;
    forall ic | 0 <= ic < cin
      ensures OutPlanes(v, n, i)(ic) == Times(OutPlanes(l.weight, n, i)(ic), Inverse(s(i)))
    {
      forall ky, kx ensures v(i, ic, ky, kx) == Times(l.weight(i, ic, ky, kx), Inverse(s(i))) {
        QuotientIsTimes(l.weight(i, ic, ky, kx), s(i));
      }
      PlaneScale(l.weight, v, n, i, ic, Inverse(s(i)));
    }
    LargestScale(cin, OutPlanes(l.weight, n, i), OutPlanes(v, n, i), Inverse(s(i)));
  }

  /** Multiplying the input channels multiplies their ranges. */
  lemma MultipliedInRange(l: Conv, s: Scales, n: nat, cout: nat, i: int)
    ensures InRange(MultiplyIn(l, s).weight, n, cout, i) == Times(InRange(l.weight, n, cout, i), s(i))
  {
    hide PlaneRange;
    var v := MultiplyIn(l, s).weight;
    forall oc | 0 <= oc < cout
      ensures InPlanes(v, n, i)(oc) == Times(InPlanes(l.weight, n, i)(oc), s(i))
    {
      PlaneScale(l.weight, v, n, oc, i, s(i));
    }
    hide Times;
    LargestScale(cout, InPlanes(l.weight, n, i), InPlanes(v, n, i), s(i));
  }

  lemma MultipliedColumnRange(l: Fc, s: Scales, classes: nat, i: int)
    ensures ColumnRange(MultiplyColumns(l, s).weight, classes, i) == Times(ColumnRange(l.weight, classes, i), s(i))
  {
    var v := MultiplyColumns(l, s).weight;
    forall n | 0 <= n < classes
      ensures ColumnOf(v, i)(n) == Times(ColumnOf(l.weight, i)(n), s(i))
    {
      AbsScale(l.weight(n, i), s(i));
    }
    hide Times;
    LargestScale(classes, ColumnOf(l.weight, i), ColumnOf(v, i), s(i));
  }

  ghost predicate IsRoot(sqrt: Root) { forall x: Positive :: sqrt(x) * sqrt(x) == x }

  /** New ranges of a channel whose old ranges were r1 and r2: both land on the geometric mean,
      unless the channel is (nearly) dead on either side, which leaves it alone. */
  ghost predicate Balanced(r1: real, r2: real, n1: real, n2: real, eps: real)
  {
    if r1 > eps && r2 > eps then n1 == n2 && n1 * n1 == r1 * r2 else n1 == r1 && n2 == r2
  }

  lemma ScaleBalances(r1: real, r2: real, eps: real, sqrt: Root)
    requires eps >= 0.0 && IsRoot(sqrt)
    ensures var s := ScaleOf(r1, r2, eps, sqrt); Balanced(r1, r2, Times(r1, Inverse(s)), Times(r2, s), eps)
  {
    if r1 > eps && r2 > eps {
      PositiveQuotient(r1, r2);
      var q: Positive := r1 / r2;
      RootBalances(r1, r2, sqrt(q));
    }
  }

  lemma RootBalances(r1: real, r2: real, s: Positive)
    requires r1 > 0.0 && r2 > 0.0 && s * s == r1 / r2
    ensures Times(r1, Inverse(s)) == Times(r2, s) && Times(r2, s) * Times(r2, s) == r1 * r2
  {
    calc { r1; (r1 / r2) * r2; (s * s) * r2; s * (s * r2); }
    QuotientIsTimes(r1, s);
    CancelFactor(r1, s, s * r2);
    calc { (r2 * s) * (r2 * s); r2 * ((s * s) * r2); r2 * r1; }
  }

  lemma CancelFactor(a: real, s: Positive, b: real)
    requires a == s * b
    ensures a / s == b
  {
  }

  /** equalize_pair puts the two ranges of every live channel on their geometric mean. */
  lemma PairIsBalanced(l1: Conv, l2: Conv, cin: nat, cout: nat, eps: real, sqrt: Root, i: int)
    requires eps >= 0.0 && IsRoot(sqrt)
    ensures var (n1, n2) := EqualizePair(l1, l2, cin, cout, eps, sqrt);
      Balanced(OutRange(l1.weight, SIDE, cin, i), InRange(l2.weight, SIDE, cout, i),
               OutRange(n1.weight, SIDE, cin, i), InRange(n2.weight, SIDE, cout, i), eps)
  {
    hide Times, Balanced, OutRange, InRange, ScaleOf, Inverse, IsRoot;
    var s := PairScales(l1.weight, l2.weight, cin, cout, eps, sqrt);
    DividedOutRange(l1, s, SIDE, cin, i);
    MultipliedInRange(l2, s, SIDE, cout, i);
    ScaleBalances(OutRange(l1.weight, SIDE, cin, i), InRange(l2.weight, SIDE, cout, i), eps, sqrt);
  }

  lemma FcIsBalanced(l: Conv, fc: Fc, cin: nat, classes: nat, eps: real, sqrt: Root, i: int)
    requires eps >= 0.0 && IsRoot(sqrt)
    ensures var (n1, n2) := EqualizeConvToFc(l, fc, cin, classes, eps, sqrt);
      Balanced(OutRange(l.weight, SIDE, cin, i), ColumnRange(fc.weight, classes, i),
               OutRange(n1.weight, SIDE, cin, i), ColumnRange(n2.weight, classes, i), eps)
  {
    hide Times, Balanced, OutRange, ColumnRange, ScaleOf, Inverse, IsRoot;
    var s := FcScales(l.weight, fc.weight, cin, classes, eps, sqrt);
    DividedOutRange(l, s, SIDE, cin, i);
    MultipliedColumnRange(fc, s, classes, i);
    ScaleBalances(OutRange(l.weight, SIDE, cin, i), ColumnRange(fc.weight, classes, i), eps, sqrt);
  }

  // ---------------------------------------------------------------- one round, written out

  /** `v` or its opposite. */
  predicate PlusMinus(w: real, v: real) { w == v || w == -v }

  /** `r` is the largest absolute value of the weights that lead to output channel `oc`. */
  ghost predicate IsOutRange(r: real, w: Kernel, cin: nat, oc: int)
  {
    && r >= 0.0
    && (forall ic, ky, kx :: 0 <= ic < cin && 0 <= ky < 3 && 0 <= kx < 3 ==> -r <= w(oc, ic, ky, kx) <= r)
    && (r == 0.0 || exists ic, ky, kx ::
          0 <= ic < cin && 0 <= ky < 3 && 0 <= kx < 3 && PlusMinus(w(oc, ic, ky, kx), r))
  }

  /** The same for the weights that input channel `ic` meets. */
  ghost predicate IsInRange(r: real, w: Kernel, cout: nat, ic: int)
  {
    && r >= 0.0
    && (forall oc, ky, kx :: 0 <= oc < cout && 0 <= ky < 3 && 0 <= kx < 3 ==> -r <= w(oc, ic, ky, kx) <= r)
    && (r == 0.0 || exists oc, ky, kx ::
          0 <= oc < cout && 0 <= ky < 3 && 0 <= kx < 3 && PlusMinus(w(oc, ic, ky, kx), r))
  }

  /** And for the classifier's weights on channel `ch`. */
  ghost predicate IsColumnRange(r: real, w: Matrix, classes: nat, ch: int)
  {
    && r >= 0.0 && (forall n :: 0 <= n < classes ==> -r <= w(n, ch) <= r)
    && (r == 0.0 || exists n :: 0 <= n < classes && PlusMinus(w(n, ch), r))
  }

  lemma PlaneIsRange(w: Kernel, oc: int, ic: int) returns (y: int, x: int)
    ensures var r := PlaneRange(w, SIDE, oc, ic);
      && r >= 0.0 && (forall ky, kx :: 0 <= ky < 3 && 0 <= kx < 3 ==> -r <= w(oc, ic, ky, kx) <= r)
      && (r == 0.0 || (0 <= y < 3 && 0 <= x < 3 && PlusMinus(w(oc, ic, y, x), r)))
  {
    hide Largest;
    var r := PlaneRange(w, SIDE, oc, ic);
    LargestIsMaximum(SIDE, KernelPlane(w, SIDE, oc, ic));
    forall ky, kx | 0 <= ky < 3 && 0 <= kx < 3 ensures -r <= w(oc, ic, ky, kx) <= r {
      LargestIsMaximum(SIDE, KernelRow(w, oc, ic, ky));
      assert KernelRow(w, oc, ic, ky)(kx) <= KernelPlane(w, SIDE, oc, ic)(ky) <= r;
    }
    y, x := 0, 0;
    if r != 0.0 {
      y :| 0 <= y < 3 && KernelPlane(w, SIDE, oc, ic)(y) == r;
      LargestIsMaximum(SIDE, KernelRow(w, oc, ic, y));
      x :| 0 <= x < 3 && KernelRow(w, oc, ic, y)(x) == r;
    }
  }

  lemma OutRangeIs(w: Kernel, cin: nat, oc: int)
    ensures IsOutRange(OutRange(w, SIDE, cin, oc), w, cin, oc)
  {
    hide Largest, PlaneRange, PlusMinus;
    var r := OutRange(w, SIDE, cin, oc);
    LargestIsMaximum(cin, OutPlanes(w, SIDE, oc));
    forall ic, ky, kx | 0 <= ic < cin && 0 <= ky < 3 && 0 <= kx < 3 ensures -r <= w(oc, ic, ky, kx) <= r {
      var _, _ := PlaneIsRange(w, oc, ic);
      assert OutPlanes(w, SIDE, oc)(ic) <= r;
    }
    if r != 0.0 {
      var ic :| 0 <= ic < cin && OutPlanes(w, SIDE, oc)(ic) == r;
      var y, x := PlaneIsRange(w, oc, ic);
      assert PlusMinus(w(oc, ic, y, x), r);
    }
  }

  lemma InRangeIs(w: Kernel, cout: nat, ic: int)
    ensures IsInRange(InRange(w, SIDE, cout, ic), w, cout, ic)
  {
    hide Largest, PlaneRange, PlusMinus;
    var r := InRange(w, SIDE, cout, ic);
    LargestIsMaximum(cout, InPlanes(w, SIDE, ic));
    forall oc, ky, kx | 0 <= oc < cout && 0 <= ky < 3 && 0 <= kx < 3 ensures -r <= w(oc, ic, ky, kx) <= r {
      var _, _ := PlaneIsRange(w, oc, ic);
      assert InPlanes(w, SIDE, ic)(oc) <= r;
    }
    if r != 0.0 {
      var oc :| 0 <= oc < cout && InPlanes(w, SIDE, ic)(oc) == r;
      var y, x := PlaneIsRange(w, oc, ic);
      assert PlusMinus(w(oc, ic, y, x), r);
    }
  }

  lemma ColumnRangeIs(w: Matrix, classes: nat, ch: int)
    ensures IsColumnRange(ColumnRange(w, classes, ch), w, classes, ch)
  {
    hide Largest;
    var r := ColumnRange(w, classes, ch);
    LargestIsMaximum(classes, ColumnOf(w, ch));
    forall n | 0 <= n < classes ensures -r <= w(n, ch) <= r { assert ColumnOf(w, ch)(n) <= r; }
    if r != 0.0 {
      var n :| 0 <= n < classes && ColumnOf(w, ch)(n) == r;
      assert PlusMinus(w(n, ch), r);
    }
  }

  /** The scale of a channel with ranges `r1` on the output side and `r2` on the input side: its square
      is their ratio, and a channel that is (nearly) dead on either side is left alone. */
  predicate ScaleFits(s: real, r1: real, r2: real)
  {
    if r1 > 0.00000001 && r2 > 0.00000001 then s * s * r2 == r1 else s == 1.0
  }

  /** The scales of a round, and the two kernels between their own two updates. */
  datatype Round = Round(s0: Scales, s1: Scales, s2: Scales, w1: Kernel, w2: Kernel)

  /** Output channel i of `b` is that of `a` divided by s(i). */
  ghost predicate OutDivided(b: Kernel, a: Kernel, s: Scales)
  {
    forall oc, ic, ky, kx :: b(oc, ic, ky, kx) * s(oc) == a(oc, ic, ky, kx)
  }

  ghost predicate BiasDivided(b: Vector, a: Vector, s: Scales) { forall oc :: b(oc) * s(oc) == a(oc) }

  /** Input channel i of `b` is that of `a` multiplied by s(i). */
  ghost predicate InMultiplied(b: Kernel, a: Kernel, s: Scales)
  {
    forall oc, ic, ky, kx :: b(oc, ic, ky, kx) == a(oc, ic, ky, kx) * s(ic)
  }

  ghost predicate ColumnsMultiplied(b: Matrix, a: Matrix, s: Scales) { forall n, ch :: b(n, ch) == a(n, ch) * s(ch) }

  ghost predicate ChannelFits(s: real, w1: Kernel, w2: Kernel, cin: nat, cout: nat, i: int)
  {
    exists r1, r2 :: IsOutRange(r1, w1, cin, i) && IsInRange(r2, w2, cout, i) && ScaleFits(s, r1, r2)
  }

  ghost predicate ColumnFits(s: real, w: Kernel, fc: Matrix, cin: nat, classes: nat, i: int)
  {
    exists r1, r2 :: IsOutRange(r1, w, cin, i) && IsColumnRange(r2, fc, classes, i) && ScaleFits(s, r1, r2)
  }

  ghost predicate PairFits(s: Scales, w1: Kernel, w2: Kernel, cin: nat, cout: nat)
  {
    forall i :: ChannelFits(s(i), w1, w2, cin, cout, i)
  }

  ghost predicate FcFits(s: Scales, w1: Kernel, fc: Matrix, cin: nat, classes: nat)
  {
    forall i :: ColumnFits(s(i), w1, fc, cin, classes, i)
  }

  /** `q` is `p` after one round: conv0 / s0, conv1 * s0 / s1, conv2 * s1 / s2 and fc * s2, each scale
      fitting the ranges of its two sides at the moment of its update. */
  ghost predicate IsRound(p: Params, q: Params, d: Shape, r: Round)
  {
    && WellFormed(p) && WellFormed(q)
    && OutDivided(q[Conv0].conv.weight, p[Conv0].conv.weight, r.s0)
    && InMultiplied(r.w1, p[Conv1].conv.weight, r.s0) && OutDivided(q[Conv1].conv.weight, r.w1, r.s1)
    && InMultiplied(r.w2, p[Conv2].conv.weight, r.s1) && OutDivided(q[Conv2].conv.weight, r.w2, r.s2)
    && ColumnsMultiplied(q[Classifier].fc.weight, p[Classifier].fc.weight, r.s2)
    && BiasDivided(q[Conv0].conv.bias, p[Conv0].conv.bias, r.s0)
    && BiasDivided(q[Conv1].conv.bias, p[Conv1].conv.bias, r.s1)
    && BiasDivided(q[Conv2].conv.bias, p[Conv2].conv.bias, r.s2)
    && q[Classifier].fc.bias == p[Classifier].fc.bias
    && PairFits(r.s0, p[Conv0].conv.weight, p[Conv1].conv.weight, d.c0, d.c2)
    && PairFits(r.s1, r.w1, p[Conv2].conv.weight, d.c1, d.c3)
    && FcFits(r.s2, r.w2, p[Classifier].fc.weight, d.c2, d.classes)
  }

  lemma ScaleOfFits(r1: real, r2: real, sqrt: Root)
    requires IsRoot(sqrt)
    ensures ScaleFits(ScaleOf(r1, r2, EPS, sqrt), r1, r2)
  {
    if r1 > EPS && r2 > EPS {
      PositiveQuotient(r1, r2);
      var q: Positive := r1 / r2;
      assert sqrt(q) * sqrt(q) == q;
      assert q * r2 == r1;
    }
  }

  lemma PairScalesFit(w1: Kernel, w2: Kernel, cin: nat, cout: nat, sqrt: Root)
    requires IsRoot(sqrt)
    ensures PairFits(PairScales(w1, w2, cin, cout, EPS, sqrt), w1, w2, cin, cout)
  {
    hide OutRange, InRange, ScaleFits, ScaleOf, IsRoot, IsOutRange, IsInRange;
    var s := PairScales(w1, w2, cin, cout, EPS, sqrt);
    forall i ensures ChannelFits(s(i), w1, w2, cin, cout, i) {
      OutRangeIs(w1, cin, i);
      InRangeIs(w2, cout, i);
      ScaleOfFits(OutRange(w1, SIDE, cin, i), InRange(w2, SIDE, cout, i), sqrt);
    }
  }

  lemma FcScalesFit(w: Kernel, fc: Matrix, cin: nat, classes: nat, sqrt: Root)
    requires IsRoot(sqrt)
    ensures FcFits(FcScales(w, fc, cin, classes, EPS, sqrt), w, fc, cin, classes)
  {
    hide OutRange, ColumnRange, ScaleFits, ScaleOf, IsRoot, IsOutRange, IsColumnRange;
    var s := FcScales(w, fc, cin, classes, EPS, sqrt);
    forall i ensures ColumnFits(s(i), w, fc, cin, classes, i) {
      OutRangeIs(w, cin, i);
      ColumnRangeIs(fc, classes, i);
      ScaleOfFits(OutRange(w, SIDE, cin, i), ColumnRange(fc, classes, i), sqrt);
    }
  }

  lemma DivideOutDivides(l: Conv, s: Scales)
    ensures OutDivided(DivideOut(l, s).weight, l.weight, s) && BiasDivided(DivideOut(l, s).bias, l.bias, s)
  {
    forall oc, ic, ky, kx ensures DivideOut(l, s).weight(oc, ic, ky, kx) * s(oc) == l.weight(oc, ic, ky, kx) {
      QuotientBack(l.weight(oc, ic, ky, kx), s(oc));
    }
    forall oc ensures DivideOut(l, s).bias(oc) * s(oc) == l.bias(oc) { QuotientBack(l.bias(oc), s(oc)); }
  }

  lemma QuotientBack(w: real, s: Positive)
    ensures (w / s) * s == w
  {
  }

  lemma MultiplyInMultiplies(l: Conv, s: Scales)
    ensures InMultiplied(MultiplyIn(l, s).weight, l.weight, s) && MultiplyIn(l, s).bias == l.bias
  {
  }

  lemma ColumnsMultiply(l: Fc, s: Scales)
    ensures ColumnsMultiplied(MultiplyColumns(l, s).weight, l.weight, s) && MultiplyColumns(l, s).bias == l.bias
  {
  }

  // ---------------------------------------------------------------- the iteration

  function CleRound(p: Params, d: Shape, sqrt: Root): (q: Params)
    requires WellFormed(p)
    ensures WellFormed(q)
  {
    var (a0, a1) := EqualizePair(p[Conv0].conv, p[Conv1].conv, d.c0, d.c2, EPS, sqrt);
    var (b1, b2) := EqualizePair(a1, p[Conv2].conv, d.c1, d.c3, EPS, sqrt);
    var (c2, fc) := EqualizeConvToFc(b2, p[Classifier].fc, d.c2, d.classes, EPS, sqrt);
    p[Conv0 := Convolution(a0)][Conv1 := Convolution(b1)][Conv2 := Convolution(c2)][Classifier := Linear(fc)]
  }

  function CleRounds(p: Params, d: Shape, n: nat, sqrt: Root): (q: Params)
    requires WellFormed(p)
    ensures WellFormed(q)
  {
    if n == 0 then p else CleRound(CleRounds(p, d, n - 1, sqrt), d, sqrt)
  }

  lemma RoundEquivalent(q: Params, p: Params, d: Shape, j: Joints, sqrt: Root) returns (k: Joints)
    requires Equivalent(q, p, d, j)
    ensures Equivalent(CleRound(q, d, sqrt), p, d, k)
  {
    hide Rescales, RescalesFc, DivideOut, MultiplyIn, MultiplyColumns, Products;
    var (a0, a1) := EqualizePair(q[Conv0].conv, q[Conv1].conv, d.c0, d.c2, EPS, sqrt);
    var s0 := PairScales(q[Conv0].conv.weight, q[Conv1].conv.weight, d.c0, d.c2, EPS, sqrt);
    DivideRescales(q[Conv0].conv, p[Conv0].conv, d.c0, d.c1, UNIT, j.s0, s0);
    MultiplyRescales(q[Conv1].conv, p[Conv1].conv, d.c1, d.c2, j.s0, j.s1, s0);
    var s1 := PairScales(a1.weight, q[Conv2].conv.weight, d.c1, d.c3, EPS, sqrt);
    var k0 := Products(j.s0, s0);
    DivideRescales(a1, p[Conv1].conv, d.c1, d.c2, k0, j.s1, s1);
    MultiplyRescales(q[Conv2].conv, p[Conv2].conv, d.c2, d.c3, j.s1, j.s2, s1);
    var b2 := MultiplyIn(q[Conv2].conv, s1);
    var s2 := FcScales(b2.weight, q[Classifier].fc.weight, d.c2, d.classes, EPS, sqrt);
    var k1 := Products(j.s1, s1);
    DivideRescales(b2, p[Conv2].conv, d.c2, d.c3, k1, j.s2, s2);
    MultiplyColumnsRescales(q[Classifier].fc, p[Classifier].fc, d.c3, j.s2, s2);
    k := Joints(k0, k1, Products(j.s2, s2));
  }

  lemma UnitEquivalent(p: Params, d: Shape)
    requires WellFormed(p)
    ensures Equivalent(p, p, d, Joints(UNIT, UNIT, UNIT))
  {
  }

  lemma {:induction false} RoundsEquivalent(p: Params, d: Shape, n: nat, sqrt: Root) returns (j: Joints)
    requires WellFormed(p)
    ensures Equivalent(CleRounds(p, d, n, sqrt), p, d, j)
  {
    hide Equivalent, CleRound;
    if n == 0 {
      j := Joints(UNIT, UNIT, UNIT);
      UnitEquivalent(p, d);
    } else {
      j := RoundsEquivalent(p, d, n - 1, sqrt);
      j := RoundEquivalent(CleRounds(p, d, n - 1, sqrt), p, d, j, sqrt);
    }
  }

  /** Any number of rounds leaves every logit of every input unchanged, whatever positive
      function stands for the square root. */
  lemma RoundsKeepLogits(p: Params, d: Shape, iterations: nat, sqrt: Root, size: nat, x: Tensor, n: int)
    requires WellFormed(p) && size >= 8
    ensures Logit(CleRounds(p, d, iterations, sqrt), d, size, x, n) == Logit(p, d, size, x, n)
  {
    hide CleRounds, Logit;
    var j := RoundsEquivalent(p, d, iterations, sqrt);
    EquivalentLogits(CleRounds(p, d, iterations, sqrt), p, d, j, size, x, n);
  }

  /** The code's round is such a round. */
  lemma CleRoundIs(p: Params, d: Shape, sqrt: Root) returns (r: Round)
    requires WellFormed(p) && IsRoot(sqrt)
    ensures IsRound(p, CleRound(p, d, sqrt), d, r)
  {
    hide OutDivided, BiasDivided, InMultiplied, ColumnsMultiplied, PairFits, FcFits, IsRoot, DivideOut, MultiplyIn,
      MultiplyColumns, PairScales, FcScales;
    var s0 := PairScales(p[Conv0].conv.weight, p[Conv1].conv.weight, d.c0, d.c2, EPS, sqrt);
    PairScalesFit(p[Conv0].conv.weight, p[Conv1].conv.weight, d.c0, d.c2, sqrt);
    DivideOutDivides(p[Conv0].conv, s0);
    MultiplyInMultiplies(p[Conv1].conv, s0);
    var a1 := MultiplyIn(p[Conv1].conv, s0);
    var s1 := PairScales(a1.weight, p[Conv2].conv.weight, d.c1, d.c3, EPS, sqrt);
    PairScalesFit(a1.weight, p[Conv2].conv.weight, d.c1, d.c3, sqrt);
    DivideOutDivides(a1, s1);
    MultiplyInMultiplies(p[Conv2].conv, s1);
    var b2 := MultiplyIn(p[Conv2].conv, s1);
    var s2 := FcScales(b2.weight, p[Classifier].fc.weight, d.c2, d.classes, EPS, sqrt);
    FcScalesFit(b2.weight, p[Classifier].fc.weight, d.c2, d.classes, sqrt);
    DivideOutDivides(b2, s2);
    ColumnsMultiply(p[Classifier].fc, s2);
    r := Round(s0, s1, s2, a1.weight, b2.weight);
  }

  /** The parameters from round to round. */
  ghost predicate IsChain(chain: seq<Params>, d: Shape)
  {
    forall i, j :: 0 <= i && j == i + 1 < |chain| ==> FollowsRound(chain[i], chain[j], d)
  }

  ghost predicate FollowsRound(p: Params, q: Params, d: Shape) { exists r: Round :: IsRound(p, q, d, r) }

  lemma {:induction false} RoundsChain(p: Params, d: Shape, n: nat, sqrt: Root) returns (chain: seq<Params>)
    requires WellFormed(p) && IsRoot(sqrt)
    ensures |chain| == n + 1 && chain[0] == p && chain[n] == CleRounds(p, d, n, sqrt) && IsChain(chain, d)
  {
    hide IsRoot, IsRound, CleRound;
    if n == 0 {
      chain := [p];
    } else {
      chain := RoundsChain(p, d, n - 1, sqrt);
      var r := CleRoundIs(chain[n - 1], d, sqrt);
      assert FollowsRound(chain[n - 1], CleRound(chain[n - 1], d, sqrt), d);
      hide FollowsRound;
      chain := chain + [CleRound(chain[n - 1], d, sqrt)];
    }
  }

  /** After a round every live joint between conv2 and the classifier has equal ranges on both sides,
      and their product is what it was. */
  lemma RoundBalances(p: Params, q: Params, d: Shape, r: Round, i: int, r1: real, r2: real)
    requires IsRound(p, q, d, r)
    requires IsOutRange(r1, r.w2, d.c2, i) && IsColumnRange(r2, p[Classifier].fc.weight, d.classes, i)
    requires r1 > EPS && r2 > EPS
    ensures Balances(q, d, i, r1 * r2)
  {
    hide OutDivided, ColumnsMultiplied, InMultiplied, BiasDivided, PairFits, IsOutRange, IsColumnRange, ScaleFits;
    var s := r.s2(i);
    assert ColumnFits(s, r.w2, p[Classifier].fc.weight, d.c2, d.classes, i) by {
      FitsAt(r.s2, r.w2, p[Classifier].fc.weight, d.c2, d.classes, i);
    }
    var a, b :| IsOutRange(a, r.w2, d.c2, i) && IsColumnRange(b, p[Classifier].fc.weight, d.classes, i) &&
      ScaleFits(s, a, b);
    OutRangeUnique(a, r1, r.w2, d.c2, i);
    ColumnRangeUnique(b, r2, p[Classifier].fc.weight, d.classes, i);
    var n := r2 * s;
    assert s * s * r2 == r1 by { Fitted(s, r1, r2); }
    assert n * s == r1 && n * n == r1 * r2 by { Mean(s, r1, r2, n); }
    DividedRange(n, r1, q[Conv2].conv.weight, r.w2, r.s2, d.c2, i);
    MultipliedRange(n, r2, q[Classifier].fc.weight, p[Classifier].fc.weight, r.s2, d.classes, i);
  }

  /** Every live joint between conv2 and the classifier is balanced by the round from `p` to `q`. */
  ghost predicate JointsBalanced(p: Params, q: Params, d: Shape, r: Round)
    requires WellFormed(p) && WellFormed(q)
  {
    forall i, r1, r2 | r1 > 0.00000001 && r2 > 0.00000001 ::
      IsOutRange(r1, r.w2, d.c2, i) && IsColumnRange(r2, p[Classifier].fc.weight, d.classes, i) ==>
        Balances(q, d, i, r1 * r2)
  }

  /** `q` comes out of a round that balances every live joint. */
  ghost predicate EndsBalanced(q: Params, d: Shape)
  {
    exists before: Params, r: Round :: IsRound(before, q, d, r) && JointsBalanced(before, q, d, r)
  }

  /** Both sides of joint `i` have the same range, whose square is `product`. */
  ghost predicate Balances(q: Params, d: Shape, i: int, product: real)
    requires WellFormed(q)
  {
    exists n :: (
      && IsOutRange(n, q[Conv2].conv.weight, d.c2, i) && IsColumnRange(n, q[Classifier].fc.weight, d.classes, i)
      && n * n == product)
  }

  lemma LastRound(chain: seq<Params>, d: Shape)
    requires |chain| > 1 && IsChain(chain, d)
    ensures EndsBalanced(chain[|chain| - 1], d)
  {
    hide IsRound, IsOutRange, IsColumnRange, Balances;
    var p, q := chain[|chain| - 2], chain[|chain| - 1];
    assert FollowsRound(p, q, d);
    var r: Round :| IsRound(p, q, d, r);
    RoundWellFormed(p, q, d, r);
    forall i, r1, r2 | IsOutRange(r1, r.w2, d.c2, i) && IsColumnRange(r2, p[Classifier].fc.weight, d.classes, i)
                       && r1 > EPS && r2 > EPS
      ensures Balances(q, d, i, r1 * r2)
    {
      RoundBalances(p, q, d, r, i, r1, r2);
    }
  }

  lemma RoundWellFormed(p: Params, q: Params, d: Shape, r: Round)
    requires IsRound(p, q, d, r)
    ensures WellFormed(p) && WellFormed(q)
  {
  }

  lemma FitsAt(s: Scales, w: Kernel, fc: Matrix, cin: nat, classes: nat, i: int)
    requires FcFits(s, w, fc, cin, classes)
    ensures ColumnFits(s(i), w, fc, cin, classes, i)
  {
  }

  lemma Fitted(s: real, r1: real, r2: real)
    requires ScaleFits(s, r1, r2) && r1 > EPS && r2 > EPS
    ensures s * s * r2 == r1
  {
  }

  lemma Mean(s: real, r1: real, r2: real, n: real)
    requires s * s * r2 == r1 && n == r2 * s
    ensures n * s == r1 && n * n == r1 * r2
  {
    calc { n * s; (r2 * s) * s; s * s * r2; r1; }
    calc { n * n; n * (r2 * s); (n * s) * r2; r1 * r2; }
  }

  lemma OutRangeUnique(a: real, b: real, w: Kernel, cin: nat, oc: int)
    requires IsOutRange(a, w, cin, oc) && IsOutRange(b, w, cin, oc)
    ensures a == b
  {
  }

  lemma ColumnRangeUnique(a: real, b: real, w: Matrix, classes: nat, ch: int)
    requires IsColumnRange(a, w, classes, ch) && IsColumnRange(b, w, classes, ch)
    ensures a == b
  {
  }

  lemma ScaledBound(v: real, w: real, n: real, r: real, s: real)
    requires s > 0.0 && v * s == w && n * s == r
    ensures -n <= v <= n <==> -r <= w <= r
    ensures PlusMinus(v, n) <==> PlusMinus(w, r)
  {
    assert (n - v) * s == r - w && (n + v) * s == r + w;
    SignOf(n - v, s);
    SignOf(n + v, s);
  }

  lemma SignOf(a: real, s: real)
    requires s > 0.0
    ensures a >= 0.0 <==> a * s >= 0.0
    ensures a == 0.0 <==> a * s == 0.0
  {
    if a > 0.0 { assert a * s > 0.0; } else if a < 0.0 { assert (-a) * s > 0.0; assert a * s == -((-a) * s); }
  }

  lemma ZeroTogether(n: real, r: real, s: real)
    requires s > 0.0 && n * s == r
    ensures n == 0.0 <==> r == 0.0
  {
    SignOf(n, s);
  }

  lemma DividedPoints(n: real, r: real, b: Kernel, a: Kernel, s: Scales, i: int)
    requires OutDivided(b, a, s) && n * s(i) == r
    ensures forall ic, ky, kx :: -n <= b(i, ic, ky, kx) <= n <==> -r <= a(i, ic, ky, kx) <= r
    ensures forall ic, ky, kx :: PlusMinus(b(i, ic, ky, kx), n) <==> PlusMinus(a(i, ic, ky, kx), r)
  {
    hide PlusMinus;
    forall ic, ky, kx
      ensures -n <= b(i, ic, ky, kx) <= n <==> -r <= a(i, ic, ky, kx) <= r
      ensures PlusMinus(b(i, ic, ky, kx), n) <==> PlusMinus(a(i, ic, ky, kx), r)
    {
      assert b(i, ic, ky, kx) * s(i) == a(i, ic, ky, kx);
      ScaledBound(b(i, ic, ky, kx), a(i, ic, ky, kx), n, r, s(i));
    }
  }

  lemma DividedRange(n: real, r: real, b: Kernel, a: Kernel, s: Scales, cin: nat, i: int)
    requires OutDivided(b, a, s) && IsOutRange(r, a, cin, i) && n * s(i) == r && n >= 0.0
    ensures IsOutRange(n, b, cin, i)
  {
    hide PlusMinus;
    DividedPoints(n, r, b, a, s, i);
    ZeroTogether(n, r, s(i));
    hide OutDivided;
    if r != 0.0 {
      var ic, ky, kx :| 0 <= ic < cin && 0 <= ky < 3 && 0 <= kx < 3 && PlusMinus(a(i, ic, ky, kx), r);
      assert PlusMinus(b(i, ic, ky, kx), n);
    }
  }

  lemma MultipliedRange(n: real, r: real, b: Matrix, a: Matrix, s: Scales, classes: nat, i: int)
    requires ColumnsMultiplied(b, a, s) && IsColumnRange(r, a, classes, i) && n == r * s(i)
    ensures IsColumnRange(n, b, classes, i)
  {
    hide PlusMinus;
    forall k
      ensures -r <= a(k, i) <= r <==> -n <= b(k, i) <= n
      ensures PlusMinus(a(k, i), r) <==> PlusMinus(b(k, i), n)
    {
      assert b(k, i) == a(k, i) * s(i);
      ScaledBound(a(k, i), b(k, i), r, n, s(i));
    }
    hide ColumnsMultiplied;
    SignOf(r, s(i));
    if n != 0.0 {
      var k :| 0 <= k < classes && PlusMinus(a(k, i), r);
      assert PlusMinus(b(k, i), n);
    }
  }

  /** apply_cle: three in-place updates of the parameter dictionary per round. */
  method ApplyCle(params: Params, d: Shape, iterations: int, sqrt: Root) returns (p: Params)
    requires WellFormed(params)
    ensures p == CleRounds(params, d, if iterations < 0 then 0 else iterations, sqrt)
    ensures WellFormed(p)
    ensures IsRoot(sqrt) ==> exists chain: seq<Params> :: (
      && |chain| == (if iterations < 0 then 0 else iterations) + 1 && chain[0] == params && chain[|chain| - 1] == p
      && IsChain(chain, d))
    ensures IsRoot(sqrt) && iterations >= 1 ==> EndsBalanced(p, d)
    ensures forall x: Tensor, size: nat, n: int :: size >= 8 ==> Logit(p, d, size, x, n) == Logit(params, d, size, x, n)
  {
    hide EqualizePair, EqualizeConvToFc, Logit;
    p := params;
    var round := 0;
    while round < iterations
      invariant 0 <= round && (round <= iterations || round == 0)
      invariant p == CleRounds(params, d, round, sqrt)
    {
      ghost var was := p;
      var (a0, a1) := EqualizePair(p[Conv0].conv, p[Conv1].conv, d.c0, d.c2, EPS, sqrt);
      p := p[Conv0 := Convolution(a0)][Conv1 := Convolution(a1)];
      var (b1, b2) := EqualizePair(p[Conv1].conv, p[Conv2].conv, d.c1, d.c3, EPS, sqrt);
      p := p[Conv1 := Convolution(b1)][Conv2 := Convolution(b2)];
      var (c2, fc) := EqualizeConvToFc(p[Conv2].conv, p[Classifier].fc, d.c2, d.classes, EPS, sqrt);
      p := p[Conv2 := Convolution(c2)][Classifier := Linear(fc)];
      assert p == CleRound(was, d, sqrt);
      round := round + 1;
    }
    forall x: Tensor, size: nat, n: int | size >= 8
      ensures Logit(p, d, size, x, n) == Logit(params, d, size, x, n)
    {
      RoundsKeepLogits(params, d, round, sqrt, size, x, n);
    }
    hide IsChain, CleRounds, IsRoot;
    if IsRoot(sqrt) {
      var chain := RoundsChain(params, d, round, sqrt);
      if iterations >= 1 { LastRound(chain, d); }
    }
  }
}
