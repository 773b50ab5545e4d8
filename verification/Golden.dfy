/** The integer golden model (golden_int8.py): a feature map is a total function of
    (row, column, channel), so every stage is stated point by point. */
module Golden {
  import opened FixedWidth
  import opened Sums

  type Tensor = (int, int, int) -> int        // [row][column][channel]
  type Kernel = (int, int, int, int) -> int   // OIHW: [out channel][in channel][ky][kx]
  type Bias = int -> int

  datatype Requant = Requant(multiplier: Int32, shift: nat)

  /** A convolution layer: kernel side (3 here), input channels, weights, biases, requant. */
  datatype Layer = Layer(side: nat, cin: nat, kernel: Kernel, bias: Bias, requant: Requant)

  /** np.pad by one zero pixel on each side of an h x w map. */
  function Pad(x: Tensor, h: int, w: int): Tensor
  {
    (r, c, ch) => if 1 <= r <= h && 1 <= c <= w then x(r - 1, c - 1, ch) else 0
  }

  function Tap(x: Tensor, k: Kernel, y: int, c: int, oc: int, ky: int, kx: int): int -> int
  {
    ic => x(y + ky, c + kx, ic) * k(oc, ic, ky, kx)
  }

  function Columns(x: Tensor, k: Kernel, cin: nat, y: int, c: int, oc: int, ky: int): int -> int
  {
    kx => Sum(cin, Tap(x, k, y, c, oc, ky, kx))
  }

  function Rows(x: Tensor, k: Kernel, n: nat, cin: nat, y: int, c: int, oc: int): int -> int
  {
    ky => Sum(n, Columns(x, k, cin, y, c, oc, ky))
  }

  /** The n x n valid convolution sum without its bias. */
  function Dot(x: Tensor, k: Kernel, n: nat, cin: nat, y: int, c: int, oc: int): int
  {
    Sum(n, Rows(x, k, n, cin, y, c, oc))
  }

  function Accumulator(x: Tensor, l: Layer, y: int, c: int, oc: int): int
  {
    Dot(x, l.kernel, l.side, l.cin, y, c, oc) + l.bias(oc)
  }

  function Clip(v: int): (r: Int8)
    ensures 0 <= r <= 127
  {
    if v < 0 then 0 else if v > 127 then 127 else v
  }

  /** Multiply, arithmetic shift right, ReLU and clamp, with no intermediate truncation. */
  function RequantClamp(acc: int, rq: Requant): (r: Int8)
    ensures 0 <= r <= 127
  {
    Clip(ShiftRight(acc * rq.multiplier, rq.shift))
  }

  function ConvOut(x: Tensor, l: Layer): Tensor
  {
    (y, c, oc) => RequantClamp(Accumulator(x, l, y, c, oc), l.requant)
  }

  function Max(a: int, b: int): int { if b > a then b else a }

  function MaxPool(x: Tensor): Tensor
  {
    (y, c, ch) => Max(Max(x(2 * y, 2 * c, ch), x(2 * y, 2 * c + 1, ch)),
                      Max(x(2 * y + 1, 2 * c, ch), x(2 * y + 1, 2 * c + 1, ch)))
  }

  /** One stage on an already padded input: conv, requant, maxpool. */
  function Stage(x: Tensor, l: Layer): Tensor
  {
    MaxPool(ConvOut(x, l))
  }

  /** The three stages of run_golden on a pre-padded input whose unpadded side is `size`. */
  function Network(x: Tensor, size: int, l0: Layer, l1: Layer, l2: Layer): Tensor
  {
    var p0 := Stage(x, l0);
    var p1 := Stage(Pad(p0, size / 2, size / 2), l1);
    Stage(Pad(p1, size / 4, size / 4), l2)
  }

  // ---------------------------------------------------------------- in plain arithmetic

  /** `q` is v / 2^shift rounded down. */
  predicate IsFloor(q: int, v: int, shift: nat) { q * Pow2(shift) <= v < (q + 1) * Pow2(shift) }

  function Distance(a: int, b: int): nat { if a < b then b - a else a - b }

  /** `v` is the value from 0 to 127 that is nearest to `q`. */
  ghost predicate NearestPixel(v: int, q: int)
  {
    0 <= v <= 127 && forall w :: 0 <= w <= 127 ==> Distance(v, q) <= Distance(w, q)
  }

  /** `v` is the value from 0 to 127 nearest to acc * multiplier / 2^shift rounded down. */
  ghost predicate Requantised(v: int, acc: int, rq: Requant)
  {
    exists q :: IsFloor(q, acc * rq.multiplier, rq.shift) && NearestPixel(v, q)
  }

  lemma FloorUnique(p: int, q: int, v: int, shift: nat)
    requires IsFloor(p, v, shift) && IsFloor(q, v, shift)
    ensures p == q
  {
    if p < q { MulMono(p + 1, q, Pow2(shift)); }
    if q < p { MulMono(q + 1, p, Pow2(shift)); }
  }

  lemma ClipIsNearest(q: int)
    ensures NearestPixel(Clip(q), q)
  {
  }

  lemma NearestUnique(v: int, w: int, q: int)
    requires NearestPixel(v, q) && NearestPixel(w, q)
    ensures v == w && (0 <= q <= 127 ==> v == q)
  {
    assert Distance(v, q) <= Distance(w, q) && Distance(w, q) <= Distance(v, q);
    if 0 <= q <= 127 { assert Distance(v, q) <= Distance(q, q); }
  }

  /** Requantisation rounds the scaled accumulator down and takes the nearest pixel value, and only
      that value does: an in-range result is the rounded value itself. */
  lemma RequantIsNearest(acc: int, rq: Requant, v: int)
    ensures Requantised(v, acc, rq) <==> v == RequantClamp(acc, rq)
    ensures forall q :: 0 <= q <= 127 && IsFloor(q, acc * rq.multiplier, rq.shift) ==> RequantClamp(acc, rq) == q
  {
    hide NearestPixel, Clip;
    var f := ShiftRight(acc * rq.multiplier, rq.shift);
    assert IsFloor(f, acc * rq.multiplier, rq.shift);
    ClipIsNearest(f);
    assert Requantised(RequantClamp(acc, rq), acc, rq);
    if q :| IsFloor(q, acc * rq.multiplier, rq.shift) && NearestPixel(v, q) {
      FloorUnique(f, q, acc * rq.multiplier, rq.shift);
      NearestUnique(v, Clip(f), f);
    }
    forall q | 0 <= q <= 127 && IsFloor(q, acc * rq.multiplier, rq.shift) ensures RequantClamp(acc, rq) == q {
      FloorUnique(f, q, acc * rq.multiplier, rq.shift);
      NearestUnique(Clip(f), Clip(f), f);
    }
  }

  /** `v` is the largest of four values. */
  predicate Largest(v: int, a: int, b: int, c: int, d: int)
  {
    a <= v && b <= v && c <= v && d <= v && (v == a || v == b || v == c || v == d)
  }

  lemma PoolIsLargest(t: Tensor, y: int, c: int, ch: int)
    ensures Largest(MaxPool(t)(y, c, ch), t(2 * y, 2 * c, ch), t(2 * y, 2 * c + 1, ch),
                    t(2 * y + 1, 2 * c, ch), t(2 * y + 1, 2 * c + 1, ch))
  {
  }

  /** A convolution sum by kernel row, by column of a row, and by input channel of a column. */
  datatype Parts = Parts(rows: int -> int, columns: (int, int) -> int, taps: (int, int) -> (int -> int))

  /** The products of activation and weight under the kernel at (y, c), for output channel `oc`, and what
      they add up to over input channels, columns and rows. */
  ghost predicate AddsUp(z: Tensor, l: Layer, y: int, c: int, oc: int, p: Parts)
  {
    && (forall ky, kx, ic :: p.taps(ky, kx)(ic) == z(y + ky, c + kx, ic) * l.kernel(oc, ic, ky, kx))
    && (forall ky, kx :: p.columns(ky, kx) == Sum(l.cin, p.taps(ky, kx)))
    && forall ky :: p.rows(ky) == Sum(l.side, kx => p.columns(ky, kx))
  }

  /** `acc` is the bias plus the sum of all products under the kernel. */
  ghost predicate IsConvSum(z: Tensor, l: Layer, y: int, c: int, oc: int, acc: int)
  {
    exists p: Parts :: AddsUp(z, l, y, c, oc, p) && acc == l.bias(oc) + Sum(l.side, p.rows)
  }

  lemma GoldenParts(z: Tensor, l: Layer, y: int, c: int, oc: int) returns (p: Parts)
    ensures AddsUp(z, l, y, c, oc, p) && Sum(l.side, p.rows) == Dot(z, l.kernel, l.side, l.cin, y, c, oc)
  {
    hide Sum;
    p := Parts(Rows(z, l.kernel, l.side, l.cin, y, c, oc),
               (ky, kx) => Columns(z, l.kernel, l.cin, y, c, oc, ky)(kx),
               (ky, kx) => Tap(z, l.kernel, y, c, oc, ky, kx));
    forall ky ensures p.rows(ky) == Sum(l.side, kx => p.columns(ky, kx)) {
      SumExt(l.side, Columns(z, l.kernel, l.cin, y, c, oc, ky), kx => p.columns(ky, kx));
    }
  }

  lemma PartsUnique(z: Tensor, l: Layer, y: int, c: int, oc: int, p: Parts, q: Parts)
    requires AddsUp(z, l, y, c, oc, p) && AddsUp(z, l, y, c, oc, q)
    ensures Sum(l.side, p.rows) == Sum(l.side, q.rows)
  {
    hide Sum;
    forall ky ensures p.rows(ky) == q.rows(ky) {
      forall kx ensures p.columns(ky, kx) == q.columns(ky, kx) {
        forall ic ensures p.taps(ky, kx)(ic) == q.taps(ky, kx)(ic) {
          assert p.taps(ky, kx)(ic) == z(y + ky, c + kx, ic) * l.kernel(oc, ic, ky, kx);
        }
        SumExt(l.cin, p.taps(ky, kx), q.taps(ky, kx));
      }
      SumExt(l.side, kx => p.columns(ky, kx), kx => q.columns(ky, kx));
    }
    SumExt(l.side, p.rows, q.rows);
  }

  /** The accumulator is that sum, and no other number is. */
  lemma ConvSumIff(z: Tensor, l: Layer, y: int, c: int, oc: int, acc: int)
    ensures IsConvSum(z, l, y, c, oc, acc) <==> acc == Accumulator(z, l, y, c, oc)
  {
    hide AddsUp, Sum, Dot;
    var g := GoldenParts(z, l, y, c, oc);
    if p: Parts :| AddsUp(z, l, y, c, oc, p) && acc == l.bias(oc) + Sum(l.side, p.rows) {
      PartsUnique(z, l, y, c, oc, p, g);
    }
  }
}
