/** The arithmetic leaves of the accelerator: the DSP-packed multiply, the adder trees and the
    layer requantizers, each with the bit widths the HLS code gives them. */
module PackedMac {
  import opened FixedWidth
  import opened Sums
  import opened Golden

  const CS_IC_PAR := 8

  /** The 25-bit operand of the packed multiply: w_hi sign-extended in bits 24..16, the biased
      w_lo in bits 7..0, zeros between. */
  function PackedWord(wLo: Int8, wHi: Int8): (y: int)
    ensures y == wHi * 0x1_0000 + wLo + 128
  {
    Signed(0x100_0000, (wHi % 0x200) * 0x1_0000 + (wLo + 128) % 0x100)
  }

  /** Splits the 33-bit product: the low 16 bits read as a signed number, and what is left
      after subtracting it, shifted down by 16. */
  function Unpack(p: int): (r: (int, int))
    ensures -0x8000 <= r.0 < 0x8000
    ensures forall hi, lo :: -0x4000 <= hi <= 0x4000 && -0x8000 <= lo < 0x8000 && p == hi * 0x1_0000 + lo
              ==> r == (lo, hi)
  {
    var p33 := Signed(0x1_0000_0000, p);
    var lo16 := Signed(0x8000, p33 % 0x1_0000);
    (lo16, Signed(0x1_0000_0000, (p33 - lo16) / 0x1_0000))
  }

  /** `mac_pair`: one 8 x 25 bit multiply yields both products of a shared activation. */
  function MacPair(a: Int8, wLo: Int8, wHi: Int8): (r: (Int32, Int32))
    ensures r.0 == a * wLo
    ensures r.1 == a * wHi
  {
    PackedProduct(a, wLo, wHi);
    var fields := Unpack(a * PackedWord(wLo, wHi));
    assert fields == (a * (wLo + 128), a * wHi);
    (Wrap32(fields.0 - Wrap32(a * 128)), Wrap32(fields.1))
  }

  /** The packed product has a low field that fits 16 signed bits, so no carry reaches the
      high field. */
  lemma PackedProduct(a: Int8, wLo: Int8, wHi: Int8)
    ensures a * PackedWord(wLo, wHi) == (a * wHi) * 0x1_0000 + a * (wLo + 128)
    ensures a * (wLo + 128) == a * wLo + a * 128
    ensures -0x8000 <= a * (wLo + 128) < 0x8000
    ensures -0x4000 <= a * wHi <= 0x4000
  {
    Distribute(a, wHi, wLo);
    UnsignedBounds(a, wLo + 128);
    SignedBounds(a, wHi);
  }

  lemma Distribute(a: int, h: int, l: int)
    ensures a * (h * 0x1_0000 + l + 128) == (a * h) * 0x1_0000 + a * (l + 128)
    ensures a * (l + 128) == a * l + a * 128
  {
  }

  lemma SignedBounds(a: Int8, w: Int8)
    ensures -0x4000 <= a * w <= 0x4000
  {
    var h: int := w;
    if h >= 0 {
      UnsignedBounds(a, h);
    } else {
      var m := -h;
      UnsignedBounds(a, m);
      assert a * m == -(a * h);
    }
  }

  lemma UnsignedBounds(a: Int8, w: int)
    requires 0 <= w <= 255
    ensures -128 * w <= a * w <= 127 * w
  {
  }

  /** A 32-bit adder. */
  function Add32(a: int, b: int): Int32 { Wrap32(a + b) }

  lemma AddWrapped(a: int, b: int, fa: int, fb: int)
    requires a == Wrap32(fa) && b == Wrap32(fb)
    ensures Add32(a, b) == Wrap32(fa + fb)
  {
    WrapAdd(fa, b);
    WrapAdd(fa, fb);
  }

  function Reduce4(v0: int, v1: int, v2: int, v3: int): Int32
  {
    Add32(Add32(v0, v1), Add32(v2, v3))
  }

  lemma Reduce4Sum(v0: int, v1: int, v2: int, v3: int, f0: int, f1: int, f2: int, f3: int)
    requires v0 == Wrap32(f0) && v1 == Wrap32(f1) && v2 == Wrap32(f2) && v3 == Wrap32(f3)
    ensures Reduce4(v0, v1, v2, v3) == Wrap32(f0 + f1 + f2 + f3)
  {
    AddWrapped(v0, v1, f0, f1);
    AddWrapped(v2, v3, f2, f3);
    AddWrapped(Add32(v0, v1), Add32(v2, v3), f0 + f1, f2 + f3);
  }

  lemma Reduce4Seq(v: seq<Int32>, f: int -> int)
    requires |v| == 4
    requires forall i :: 0 <= i < 4 ==> v[i] == Wrap32(f(i))
    ensures Reduce4(v[0], v[1], v[2], v[3]) == Wrap32(Sum(4, f))
  {
    Sum8(f);
    Reduce4Sum(v[0], v[1], v[2], v[3], f(0), f(1), f(2), f(3));
  }

  /** `reduce8`: a three-level tree of 32-bit adders. */
  function Reduce8(v: seq<Int32>): Int32
    requires |v| == CS_IC_PAR
  {
    Add32(Reduce4(v[0], v[1], v[2], v[3]), Reduce4(v[4], v[5], v[6], v[7]))
  }

  lemma Sum8(f: int -> int)
    ensures Sum(4, f) == f(0) + f(1) + f(2) + f(3)
    ensures Sum(8, f) == Sum(4, f) + (f(4) + f(5) + f(6) + f(7))
  {
    assert Sum(2, f) == f(0) + f(1);
    assert Sum(6, f) == Sum(4, f) + f(4) + f(5);
  }

  /** The tree computes the sum of its eight lanes, however the lanes themselves wrapped. */
  lemma Reduce8Sum(v: seq<Int32>, f: int -> int)
    requires |v| == CS_IC_PAR
    requires forall i :: 0 <= i < CS_IC_PAR ==> v[i] == Wrap32(f(i))
    ensures Reduce8(v) == Wrap32(Sum(CS_IC_PAR, f))
  {
    Sum8(f);
    Reduce4Sum(v[0], v[1], v[2], v[3], f(0), f(1), f(2), f(3));
    Reduce4Sum(v[4], v[5], v[6], v[7], f(4), f(5), f(6), f(7));
    AddWrapped(Reduce4(v[0], v[1], v[2], v[3]), Reduce4(v[4], v[5], v[6], v[7]),
               Sum(4, f), f(4) + f(5) + f(6) + f(7));
  }

  /** One level of `reduce27`: an odd number of terms, the last one passed through. */
  function Halved(n: nat, f: int -> int): int -> int
  {
    i => if i < n then f(2 * i) + f(2 * i + 1) else f(2 * i)
  }

  lemma {:induction false} HalvedSum(n: nat, f: int -> int)
    ensures Sum(2 * n, f) == Sum(n, Halved(n, f))
    ensures Sum(2 * n + 1, f) == Sum(n + 1, Halved(n, f))
  {
    PairSum(n, n, f);
  }

  lemma {:induction false} PairSum(m: nat, n: nat, f: int -> int)
    requires m <= n
    ensures Sum(2 * m, f) == Sum(m, Halved(n, f))
  {
    if m > 0 {
      PairSum(m - 1, n, f);
      assert Sum(2 * m, f) == Sum(2 * m - 2, f) + f(2 * m - 2) + f(2 * m - 1);
    }
  }

  /** One unrolled loop of `reduce27`: `n` adders side by side. */
  method AdderLevel(src: array<Int32>, dst: array<Int32>, n: nat, ghost f: int -> int)
    requires src != dst && 2 * n <= src.Length && n <= dst.Length
    requires forall i :: 0 <= i < src.Length ==> src[i] == Wrap32(f(i))
    modifies dst
    ensures forall j :: 0 <= j < n ==> dst[j] == Wrap32(Halved(n, f)(j))
  {
    ghost var g := Halved(n, f);
    for i := 0 to n
      invariant forall j :: 0 <= j < i ==> dst[j] == Wrap32(g(j))
    {
      var sum := Add32(src[2 * i], src[2 * i + 1]);
      assert sum == Wrap32(g(i)) by { AddWrapped(src[2 * i], src[2 * i + 1], f(2 * i), f(2 * i + 1)); }
      dst[i] := sum;
    }
  }

  /** `reduce27`: levels of 14, 7, 4 and 2 partial sums. */
  method Reduce27(p: array<Int32>, ghost f: int -> int) returns (r: Int32)
    requires p.Length == 27
    requires forall i :: 0 <= i < 27 ==> p[i] == Wrap32(f(i))
    ensures r == Wrap32(Sum(27, f))
  {
    var s1, s2 := new Int32[14], new Int32[7];
    ghost var f1 := Halved(13, f);
    AdderLevel(p, s1, 13, f);
    s1[13] := p[26];
    AdderLevel(s1, s2, 7, f1);
    HalvedSum(13, f);
    HalvedSum(7, f1);
    r := Reduce7(s2, Halved(7, f1));
  }

  /** The last two levels of `reduce27`. */
  method Reduce7(s2: array<Int32>, ghost f: int -> int) returns (r: Int32)
    requires s2.Length == 7
    requires forall i :: 0 <= i < 7 ==> s2[i] == Wrap32(f(i))
    ensures r == Wrap32(Sum(7, f))
  {
    var s3 := new Int32[4];
    AdderLevel(s2, s3, 3, f);
    s3[3] := s2[6];
    ghost var g := Halved(3, f);
    r := Reduce4(s3[0], s3[1], s3[2], s3[3]);
    assert r == Wrap32(Sum(4, g)) by { Reduce4Seq(s3[..], g); }
    assert Sum(7, f) == Sum(4, g) by { HalvedSum(3, f); }
  }

  /** `requant_relu_c0/c1/c2`: the shifted product passes through a 32-bit register before it is
      clamped. The three copies differ only in multiplier latency. */
  function RequantRelu(acc: Int32, rq: Requant): (r: Int8)
    ensures 0 <= r <= 127
  {
    Clip(Wrap32(ShiftRight(acc * rq.multiplier, rq.shift)))
  }

  /** The 32-bit register never changes what this multiplier and shift give. */
  ghost predicate RequantAgrees(m: Int32, shift: nat)
  {
    forall acc: Int32 :: RequantRelu(acc, Requant(m, shift)) == RequantClamp(acc, Requant(m, shift))
  }

  /** Multiplier by multiplier: the register is invisible for every 32-bit accumulator exactly when
      the multiplier lies in (-2^shift, 2^shift]. */
  lemma RequantAgreesIff(m: Int32, shift: nat)
    ensures RequantAgrees(m, shift) <==> -Pow2(shift) < m <= Pow2(shift)
  {
    if -Pow2(shift) < m <= Pow2(shift) {
      forall acc: Int32
        ensures RequantRelu(acc, Requant(m, shift)) == RequantClamp(acc, Requant(m, shift))
      {
        ShiftedFits(acc, Requant(m, shift));
      }
    } else {
      var acc := RequantOverflows(m, shift);
      assert !RequantAgrees(m, shift);
    }
  }

  /** So it is invisible for all non-negative multipliers at once exactly from shift 31 on. */
  lemma RequantAgreesForAll(shift: nat)
    ensures (forall m: Int32 :: m >= 0 ==> RequantAgrees(m, shift)) <==> shift >= 31
  {
    hide RequantAgrees;
    Pow2Values();
    if shift >= 31 {
      Pow2Mono(31, shift);
      forall m: Int32 | m >= 0 ensures RequantAgrees(m, shift) {
        RequantAgreesIff(m, shift);
      }
    } else {
      Pow2Mono(shift, 30);
      RequantAgreesIff(0x7FFF_FFFF, shift);
    }
  }

  /** With such a multiplier the shifted product of a 32-bit accumulator fits 32 bits. */
  lemma ShiftedFits(acc: Int32, rq: Requant)
    requires -Pow2(rq.shift) < rq.multiplier <= Pow2(rq.shift)
    ensures -0x8000_0000 <= ShiftRight(acc * rq.multiplier, rq.shift) < 0x8000_0000
  {
    ProductFits(acc, rq.multiplier, Pow2(rq.shift));
    QuotientFits(acc * rq.multiplier, ShiftRight(acc * rq.multiplier, rq.shift), Pow2(rq.shift));
  }

  lemma ProductFits(a: Int32, m: int, d: int)
    requires -d < m <= d
    ensures -0x8000_0000 * d <= a * m < 0x8000_0000 * d
  {
    var b: int := a;
    if m >= 0 {
      MulMono(b, 0x7FFF_FFFF, m);
      MulMono(-0x8000_0000, b, m);
    } else {
      var k := -m;
      MulMono(b, 0x7FFF_FFFF, k);
      MulMono(-0x8000_0000, b, k);
      assert b * m == -(b * k);
    }
  }

  lemma QuotientFits(v: int, q: int, d: int)
    requires d > 0 && -0x8000_0000 * d <= v < 0x8000_0000 * d
    requires q * d <= v < (q + 1) * d
    ensures -0x8000_0000 <= q < 0x8000_0000
  {
    if q >= 0x8000_0000 { MulMono(0x8000_0000, q, d); }
    if q < -0x8000_0000 { MulMono(q + 1, -0x8000_0000, d); }
  }

  /** Any other multiplier has an accumulator whose result the register turns from 127 into 0. */
  lemma RequantOverflows(m: Int32, shift: nat) returns (acc: Int32)
    requires m <= -Pow2(shift) || m > Pow2(shift)
    ensures RequantClamp(acc, Requant(m, shift)) == 127 && RequantRelu(acc, Requant(m, shift)) == 0
  {
    var d, n: int := Pow2(shift), m;
    var k := if n < 0 then -n else n;
    var a := JustOver(0x8000_0000 * d, k);
    CornerFits(a, k, d, if n > 0 then 0x7FFF_FFFF else 0x8000_0000);
    var b := if n > 0 then a else -a;
    assert b * n == a * k;
    acc := b;
    var q := ShiftRight(acc * m, shift);
    hide Pow2, ShiftRight;
    QuotientOver(a * k, q, d);
    OverClips(q);
  }

  lemma OverClips(q: int)
    requires 0x8000_0000 <= q < 0x1_0000_0000
    ensures Clip(q) == 127 && Clip(Wrap32(q)) == 0
  {
  }

  /** The least multiple of k that reaches `v`. */
  lemma JustOver(v: int, k: int) returns (a: int)
    requires k > 0 && v > 0
    ensures a > 0 && v <= a * k < v + k
  {
    a := (v + k - 1) / k;
    assert v + k - 1 == a * k + (v + k - 1) % k;
    if a <= 0 { MulMono(a, 0, k); }
  }

  lemma CornerFits(a: int, k: int, d: int, limit: int)
    requires d >= 1 && 0x8000_0000 * d <= a * k < 0x8000_0000 * d + k && k <= 0x8000_0000
    requires (limit == 0x7FFF_FFFF && d < k <= limit) || (limit == 0x8000_0000 && d <= k)
    ensures a <= limit && a * k < 0x1_0000_0000 * d
  {
    if limit == 0x7FFF_FFFF {
      assert limit * k == 0x8000_0000 * k - k;
    } else {
      MulMono(d, k, 0x8000_0000);
    }
    assert limit * k >= 0x8000_0000 * d;
    assert (limit + 1) * k == limit * k + k;
    CancelLess(a, limit + 1, k);
  }

  lemma CancelLess(a: int, b: int, k: int)
    requires k > 0 && a * k < b * k
    ensures a < b
  {
    if a >= b { MulMono(b, a, k); }
  }

  lemma QuotientOver(v: int, q: int, d: int)
    requires d > 0 && 0x8000_0000 * d <= v < 0x1_0000_0000 * d
    requires q * d <= v < (q + 1) * d
    ensures 0x8000_0000 <= q < 0x1_0000_0000
  {
    if q < 0x8000_0000 { MulMono(q + 1, 0x8000_0000, d); }
    if q >= 0x1_0000_0000 { MulMono(0x1_0000_0000, q, d); }
  }
}
