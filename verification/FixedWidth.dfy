/** The fixed-width integers of the accelerator: `ap_int<N>` values are plain integers that are
    reduced into the signed N-bit range on every assignment. */
module FixedWidth {
  type Int8 = v: int | -0x80 <= v < 0x80
  type Int32 = v: int | -0x8000_0000 <= v < 0x8000_0000

  function Pow2(n: nat): (r: int)
    ensures r >= 1
  {
    if n == 0 then 1 else 2 * Pow2(n - 1)
  }

  /** The value an `ap_int` with `2 * half` codes holds after `v` is assigned to it. */
  function Signed(half: int, v: int): (r: int)
    requires half > 0
    ensures -half <= r < half
    ensures -half <= v < half ==> r == v
  {
    if -half <= v < half then v else (v + half) % (2 * half) - half
  }

  /** Assignment to `accum_t`, `ap_int<32>`. */
  function Wrap32(v: int): (r: Int32)
    ensures -0x8000_0000 <= v < 0x8000_0000 ==> r == v
  {
    (v + 0x8000_0000) % 0x1_0000_0000 - 0x8000_0000
  }

  /** Wrapping commutes with sums, so the order of additions and the points where the
      hardware truncates do not matter. */
  lemma WrapAdd(a: int, b: int)
    ensures Wrap32(Wrap32(a) + b) == Wrap32(a + b)
    ensures Wrap32(a + Wrap32(b)) == Wrap32(a + b)
  {
    var j := WrapTurns(a);
    var k := WrapTurns(b);
    hide Wrap32;
    WrapShift(a + b, j);
    WrapShift(a + b, k);
  }

  /** Wrapping adds some number of full turns, and turns do not show. */
  lemma WrapTurns(a: int) returns (k: int)
    ensures Wrap32(a) == a + k * 0x1_0000_0000
  {
    k := -((a + 0x8000_0000) / 0x1_0000_0000);
  }

  lemma WrapShift(a: int, k: int)
    ensures Wrap32(a + k * 0x1_0000_0000) == Wrap32(a)
  {
  }

  /** Arithmetic right shift of a two's complement number: division rounding down. */
  function ShiftRight(v: int, n: nat): (r: int)
    ensures r * Pow2(n) <= v < (r + 1) * Pow2(n)
  {
    var d := Pow2(n);
    assert v == (v / d) * d + v % d;
    v / d
  }

  lemma Pow2Mono(m: nat, n: nat)
    requires m <= n
    ensures Pow2(m) <= Pow2(n)
  {
    if m < n { Pow2Mono(m, n - 1); }
  }

  lemma Pow2Add(m: nat, n: nat)
    ensures Pow2(m + n) == Pow2(m) * Pow2(n)
  {
    if m > 0 {
      Pow2Add(m - 1, n);
      Doubled(Pow2(m - 1), Pow2(n));
    }
  }

  lemma Doubled(a: int, b: int)
    ensures 2 * (a * b) == (2 * a) * b
  {
  }

  lemma Pow2Values()
    ensures Pow2(16) == 0x1_0000 && Pow2(30) == 0x4000_0000
    ensures Pow2(31) == 0x8000_0000 && Pow2(32) == 0x1_0000_0000
    ensures Pow2(62) == 0x4000_0000_0000_0000
  {
    assert Pow2(8) == 0x100;
    Pow2Add(8, 8);
    Pow2Add(16, 16);
    assert 0x1_0000 * 0x1_0000 == 0x1_0000_0000;
    assert Pow2(32) == 2 * Pow2(31) && Pow2(31) == 2 * Pow2(30);
    Pow2Add(32, 30);
  }

  lemma MulMono(a: int, b: int, c: int)
    requires a <= b && 0 <= c
    ensures a * c <= b * c
  {
  }
}
