/** The float network of cle.py in plain arithmetic: what the logits are that equalization must not
    change. */
module FloatMeaning {
  import opened Equalization

  /** A convolution sum by kernel row, by column of a row, and by input channel of a column. */
  datatype Parts = Parts(rows: Vector, columns: (int, int) -> real, taps: (int, int) -> Vector)

  ghost predicate AddsUp(z: Tensor, w: Kernel, cin: nat, y: int, c: int, oc: int, p: Parts)
  {
    && (forall ky, kx, ic :: p.taps(ky, kx)(ic) == z(y + ky, c + kx, ic) * w(oc, ic, ky, kx))
    && (forall ky, kx :: p.columns(ky, kx) == Sum(cin, p.taps(ky, kx)))
    && forall ky :: p.rows(ky) == Sum(3, kx => p.columns(ky, kx))
  }

  /** `v` is the bias plus the sum of all products under the 3x3 kernel at (y, c). */
  ghost predicate IsConvSum(z: Tensor, l: Conv, cin: nat, y: int, c: int, oc: int, v: real)
  {
    exists p: Parts :: AddsUp(z, l.weight, cin, y, c, oc, p) && v == Sum(3, p.rows) + l.bias(oc)
  }

  /** `v` is the largest of zero and four values. */
  predicate LargestOrZero(v: real, a: real, b: real, c: real, d: real)
  {
    0.0 <= v && a <= v && b <= v && c <= v && d <= v && (v == 0.0 || v == a || v == b || v == c || v == d)
  }

  /** The maps of one block: the padded input, the convolution, and the pooled output. */
  ghost predicate IsBlock(x: Tensor, size: int, l: Conv, cin: nat, z: Tensor, u: Tensor, t: Tensor)
  {
    && (forall y, c, ch :: z(y, c, ch) == if 1 <= y <= size && 1 <= c <= size then x(y - 1, c - 1, ch) else 0.0)
    && (forall y, c, oc :: IsConvSum(z, l, cin, y, c, oc, u(y, c, oc)))
    && forall y, c, ch :: LargestOrZero(t(y, c, ch), u(2 * y, 2 * c, ch), u(2 * y, 2 * c + 1, ch),
                                        u(2 * y + 1, 2 * c, ch), u(2 * y + 1, 2 * c + 1, ch))
  }

  /** `g` is the mean of channel `ch` over a side x side map. */
  ghost predicate IsMean(t: Tensor, side: nat, ch: int, g: real)
  {
    exists rows: Vector ::
      (forall y :: rows(y) == Sum(side, c => t(y, c, ch))) && g * (side * side) as real == Sum(side, rows)
  }

  datatype Maps = Maps(z0: Tensor, u0: Tensor, t0: Tensor, z1: Tensor, u1: Tensor, t1: Tensor,
                       z2: Tensor, u2: Tensor, t2: Tensor, means: Vector, terms: Vector)

  ghost predicate Connects(p: Params, d: Shape, size: nat, x: Tensor, n: int, m: Maps)
    requires WellFormed(p)
  {
    && IsBlock(x, size, p[Conv0].conv, d.c0, m.z0, m.u0, m.t0)
    && IsBlock(m.t0, size / 2, p[Conv1].conv, d.c1, m.z1, m.u1, m.t1)
    && IsBlock(m.t1, size / 4, p[Conv2].conv, d.c2, m.z2, m.u2, m.t2)
    && (forall ch :: IsMean(m.t2, size / 8, ch, m.means(ch)))
    && forall ch :: m.terms(ch) == m.means(ch) * p[Classifier].fc.weight(n, ch)
  }

  /** `v` is the logit of class `n`: three blocks, channel means, and the classifier's weighted sum. */
  ghost predicate IsLogit(p: Params, d: Shape, size: nat, x: Tensor, n: int, v: real)
    requires WellFormed(p)
  {
    exists m: Maps :: Connects(p, d, size, x, n, m) && v == Sum(d.c3, m.terms) + p[Classifier].fc.bias(n)
  }

  lemma {:induction false} SumExt(n: nat, f: Vector, g: Vector)
    requires forall i :: 0 <= i < n ==> f(i) == g(i)
    ensures Sum(n, f) == Sum(n, g)
  {
    if n > 0 { SumExt(n - 1, f, g); }
  }

  lemma ConvolveIs(z: Tensor, l: Conv, cin: nat, y: int, c: int, oc: int)
    ensures IsConvSum(z, l, cin, y, c, oc, Convolve(z, l, SIDE, cin)(y, c, oc))
  {
    hide Sum;
    var p := Parts(Rows(z, l.weight, SIDE, cin, y, c, oc),
                   (ky, kx) => Columns(z, l.weight, cin, y, c, oc, ky)(kx),
                   (ky, kx) => Tap(z, l.weight, y, c, oc, ky, kx));
    forall ky ensures p.rows(ky) == Sum(3, kx => p.columns(ky, kx)) {
      SumExt(3, Columns(z, l.weight, cin, y, c, oc, ky), kx => p.columns(ky, kx));
    }
    assert AddsUp(z, l.weight, cin, y, c, oc, p);
  }

  lemma PoolIs(u: Tensor, y: int, c: int, ch: int)
    ensures LargestOrZero(MaxPool(Relu(u))(y, c, ch), u(2 * y, 2 * c, ch), u(2 * y, 2 * c + 1, ch),
                          u(2 * y + 1, 2 * c, ch), u(2 * y + 1, 2 * c + 1, ch))
  {
    var r := Relu(u);
    forall i, j ensures r(i, j, ch) == Max(0.0, u(i, j, ch)) { }
    assert MaxPool(r)(y, c, ch) == Max(Max(r(2 * y, 2 * c, ch), r(2 * y, 2 * c + 1, ch)),
                                       Max(r(2 * y + 1, 2 * c, ch), r(2 * y + 1, 2 * c + 1, ch)));
    hide Relu, MaxPool;
    MaxOfMaxes(u(2 * y, 2 * c, ch), u(2 * y, 2 * c + 1, ch), u(2 * y + 1, 2 * c, ch), u(2 * y + 1, 2 * c + 1, ch));
  }

  lemma MaxOfMaxes(a: real, b: real, c: real, d: real)
    ensures LargestOrZero(Max(Max(Max(0.0, a), Max(0.0, b)), Max(Max(0.0, c), Max(0.0, d))), a, b, c, d)
  {
  }

  lemma BlockIs(x: Tensor, size: nat, l: Conv, cin: nat)
    ensures var z := Pad(x, size); IsBlock(x, size, l, cin, z, Convolve(z, l, SIDE, cin), Block(x, size, l, cin))
  {
    hide Convolve, MaxPool, Relu, LargestOrZero, IsConvSum;
    var z := Pad(x, size);
    var u := Convolve(z, l, SIDE, cin);
    forall y, c, oc ensures IsConvSum(z, l, cin, y, c, oc, u(y, c, oc)) { ConvolveIs(z, l, cin, y, c, oc); }
    forall y, c, ch
      ensures LargestOrZero(MaxPool(Relu(u))(y, c, ch), u(2 * y, 2 * c, ch), u(2 * y, 2 * c + 1, ch),
                            u(2 * y + 1, 2 * c, ch), u(2 * y + 1, 2 * c + 1, ch))
    {
      PoolIs(u, y, c, ch);
    }
  }

  lemma GapIs(t: Tensor, side: nat, ch: int)
    requires side > 0
    ensures IsMean(t, side, ch, Gap(t, side)(ch))
  {
    hide Sum;
    var rows := RowSums(t, side, ch);
    forall y ensures rows(y) == Sum(side, c => t(y, c, ch)) { SumExt(side, RowOf(t, y, ch), c => t(y, c, ch)); }
    MeanBack(Sum(side, rows), side);
  }

  lemma MeanBack(s: real, side: nat)
    requires side > 0
    ensures side * side > 0 && (s / (side * side) as real) * (side * side) as real == s
  {
    assert side * side > 0;
  }

  /** The model's forward pass gives that logit; together with EquivalentLogits, equalization keeps it. */
  lemma LogitIs(p: Params, d: Shape, size: nat, x: Tensor, n: int)
    requires WellFormed(p) && size >= 8
    ensures IsLogit(p, d, size, x, n, Logit(p, d, size, x, n))
  {
    hide Sum, Block, Convolve, Pad, Gap, IsBlock, IsMean;
    BlockIs(x, size, p[Conv0].conv, d.c0);
    var t0 := Block(x, size, p[Conv0].conv, d.c0);
    BlockIs(t0, size / 2, p[Conv1].conv, d.c1);
    var t1 := Block(t0, size / 2, p[Conv1].conv, d.c1);
    BlockIs(t1, size / 4, p[Conv2].conv, d.c2);
    var t2 := Block(t1, size / 4, p[Conv2].conv, d.c2);
    forall ch ensures IsMean(t2, size / 8, ch, Gap(t2, size / 8)(ch)) { GapIs(t2, size / 8, ch); }
    var m := Maps(Pad(x, size), Convolve(Pad(x, size), p[Conv0].conv, SIDE, d.c0), t0,
                  Pad(t0, size / 2), Convolve(Pad(t0, size / 2), p[Conv1].conv, SIDE, d.c1), t1,
                  Pad(t1, size / 4), Convolve(Pad(t1, size / 4), p[Conv2].conv, SIDE, d.c2), t2,
                  Gap(t2, size / 8), Weighted(Gap(t2, size / 8), p[Classifier].fc.weight, n));
    assert Connects(p, d, size, x, n, m);
  }
}
