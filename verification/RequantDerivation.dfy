/** How the export derives a layer's requant multiplier and shift (fixed_point.py) and folds the
    missing rounding term into the bias (quantize_export.py). Floats are reals. */
module RequantDerivation {
  import opened FixedWidth
  import opened Golden
  import opened Sums

  const MAX_SHIFT := 62
  const LOW := 0x4000_0000           // 2^30
  const HIGH := 0x8000_0000          // 2^31

  /** round_half_away_from_zero. */
  function RoundHalfAway(x: real): (r: int)
    ensures x - 0.5 <= r as real <= x + 0.5
    ensures (r as real == x + 0.5 ==> x > 0.0) && (r as real == x - 0.5 ==> x < 0.0)
  {
    if x >= 0.0 then (x + 0.5).Floor else -((0.5 - x).Floor)
  }

  /** Python's round: to the nearest integer, ties to the even one. */
  function PyRound(x: real): (r: int)
    ensures x - 0.5 <= r as real <= x + 0.5
    ensures x - x.Floor as real == 0.5 ==> r % 2 == 0
  {
    var f := x.Floor;
    if x - f as real < 0.5 || (x - f as real == 0.5 && f % 2 == 0) then f else f + 1
  }

  /** Doubling `s` times. */
  function Scaled(m: real, s: nat): real
  {
    if s == 0 then m else 2.0 * Scaled(m, s - 1)
  }

  /** m * 2^s. */
  function AtShift(m: real, s: nat): real { m * Pow2(s) as real }

  /** The loop stops here: the mantissa is large enough or the shift has reached its limit. */
  predicate NormalShift(m: real, maxShift: nat, s: nat)
  {
    && s <= maxShift && (s == maxShift || Scaled(m, s) >= LOW as real)
    && (s > 0 ==> Scaled(m, s - 1) < LOW as real)
  }

  ghost predicate Derived(m: real, maxShift: nat, multiplier: int, shift: int)
  {
    if m <= 0.0 then multiplier == 0 && shift == 0
    else exists s: nat :: NormalShift(m, maxShift, s) && FromMantissa(Scaled(m, s), s, multiplier, shift)
  }

  /** Rounding, with the guard against a mantissa of 2^31. */
  predicate FromMantissa(mantissa: real, s: nat, multiplier: int, shift: int)
  {
    var q := RoundHalfAway(mantissa);
    if q >= HIGH then multiplier == q / 2 && shift == s - 1 else multiplier == q && shift == s
  }

  /** derive_multiplier_shift. */
  method DeriveMultiplierShift(realMultiplier: real, maxShift: nat) returns (multiplier: int, shift: int)
    ensures Derived(realMultiplier, maxShift, multiplier, shift)
  {
    if realMultiplier <= 0.0 { return 0, 0; }
    shift := 0;
    var m := realMultiplier;
    while m < LOW as real && shift < maxShift
      invariant 0 <= shift <= maxShift && m == Scaled(realMultiplier, shift)
      invariant shift > 0 ==> Scaled(realMultiplier, shift - 1) < LOW as real
      decreases maxShift - shift
    {
      m := m * 2.0;
      shift := shift + 1;
    }
    ghost var s: nat := shift;
    multiplier := RoundHalfAway(m);
    if multiplier >= HIGH {
      multiplier := multiplier / 2;
      shift := shift - 1;
    }
    assert NormalShift(realMultiplier, maxShift, s) && FromMantissa(Scaled(realMultiplier, s), s, multiplier, shift);
  }

  lemma {:induction false} ScaledIs(m: real, s: nat)
    ensures Scaled(m, s) == AtShift(m, s)
  {
    if s > 0 {
      ScaledIs(m, s - 1);
      Double(m, Pow2(s - 1) as real);
    }
  }

  lemma Double(m: real, p: real)
    ensures 2.0 * (m * p) == m * (2.0 * p)
  {
  }

  lemma {:induction false} ScaledMono(m: real, n: real, s: nat, t: nat)
    requires 0.0 <= m <= n && s <= t
    ensures 0.0 <= Scaled(m, s) <= Scaled(n, s) && Scaled(m, s) <= Scaled(m, t)
  {
    if s > 0 {
      ScaledMono(m, n, s - 1, t - 1);
    } else if t > 0 {
      ScaledMono(m, n, 0, t - 1);
    }
  }

  /** The shift is at least 31 whenever the mantissa of an M of at most 1/2 is normalised. */
  lemma HalfNeeds31(m: real, s: nat)
    requires 0.0 < m <= 0.5 && Scaled(m, s) > (LOW - 1) as real
    ensures s >= 31
    ensures s == 31 ==> Scaled(m, s) <= LOW as real
  {
    ScaledIs(0.5, s);
    assert Scaled(0.5, s) == 0.5 * Pow2(s) as real;
    hide Scaled, AtShift;
    ScaledMono(m, 0.5, s, s);
    Pow2Values();
    if s <= 30 {
      Pow2Mono(s, 30);
    }
  }

  /** The mantissa the loop stops with: the input itself, or a doubled value below 2^31. */
  lemma StopsBelow(m: real, s: nat)
    requires m > 0.0 && NormalShift(m, MAX_SHIFT, s)
    ensures m <= Scaled(m, s) <= Scaled(m, MAX_SHIFT)
    ensures if s == 0 then Scaled(m, s) == m else m < LOW as real && Scaled(m, s) < HIGH as real
    ensures Scaled(m, s) < LOW as real ==> s == MAX_SHIFT
  {
    ScaledMono(m, m, 0, s);
    ScaledMono(m, m, s, MAX_SHIFT);
    if s > 0 { ScaledMono(m, m, 0, s - 1); }
  }

  /** Rounding a mantissa, guard included. */
  lemma MantissaRange(x: real, s: nat, multiplier: int, shift: int)
    requires x >= 0.0 && FromMantissa(x, s, multiplier, shift)
    ensures LOW <= multiplier < HIGH <==> LOW as real - 0.5 <= x < 2.0 * HIGH as real - 0.5
    ensures shift == if x >= HIGH as real - 0.5 then s - 1 else s
  {
  }

  lemma NegativeStays(m: real)
    requires m <= 0.0
    ensures AtShift(m, MAX_SHIFT) <= 0.0
  {
    var p := Pow2(MAX_SHIFT) as real;
    assert (-m) * p >= 0.0;
    assert m * p == -((-m) * p);
  }

  /** For every real M: exactly which come out with a multiplier in [2^30, 2^31), and for exactly
      which the shift is not negative. */
  lemma NormalisedIff(m: real, multiplier: int, shift: int)
    requires Derived(m, MAX_SHIFT, multiplier, shift)
    ensures LOW <= multiplier < HIGH <==> AtShift(m, MAX_SHIFT) >= LOW as real - 0.5 && m < 2.0 * HIGH as real - 0.5
    ensures shift >= 0 <==> m < HIGH as real - 0.5
    ensures shift <= MAX_SHIFT
  {
    if m <= 0.0 {
      NegativeStays(m);
    } else {
      ScaledIs(m, MAX_SHIFT);
      hide Scaled, FromMantissa, AtShift;
      var s: nat :| NormalShift(m, MAX_SHIFT, s) && FromMantissa(Scaled(m, s), s, multiplier, shift);
      StopsBelow(m, s);
      MantissaRange(Scaled(m, s), s, multiplier, shift);
    }
  }

  /** So the promise of a multiplier in [2^30, 2^31) with a shift that fits a byte is kept exactly
      for (2^30 - 1/2) / 2^62 <= M < 2^31 - 1/2. */
  lemma PromiseIff(m: real, multiplier: int, shift: int)
    requires Derived(m, MAX_SHIFT, multiplier, shift)
    ensures LOW <= multiplier < HIGH && 0 <= shift <= 0xFF
       <==> AtShift(m, MAX_SHIFT) >= LOW as real - 0.5 && m < HIGH as real - 0.5
  {
    NormalisedIff(m, multiplier, shift);
  }

  /** Outside that interval: a smaller M gets the largest shift and its rounded mantissa, a larger one the
      shift -1 and half of what it rounds to, and a negative one nothing. */
  lemma OutsideThePromise(m: real, multiplier: int, shift: int)
    requires Derived(m, MAX_SHIFT, multiplier, shift)
    ensures m <= 0.0 ==> multiplier == 0 && shift == 0
    ensures m > 0.0 && AtShift(m, MAX_SHIFT) < LOW as real - 0.5 ==>
      shift == 62 && AtShift(m, MAX_SHIFT) - 0.5 <= multiplier as real <= AtShift(m, MAX_SHIFT) + 0.5
    ensures m >= HIGH as real - 0.5 ==> shift == -1 && m - 1.5 <= 2.0 * multiplier as real <= m + 0.5
  {
    if m > 0.0 {
      ScaledIs(m, MAX_SHIFT);
      hide Scaled, AtShift;
      var s: nat :| NormalShift(m, MAX_SHIFT, s) && FromMantissa(Scaled(m, s), s, multiplier, shift);
      StopsBelow(m, s);
    }
  }

  const TWO_TO_MINUS_33 := 1.0 / 8589934592.0

  /** Too small an M: 2^-33 runs into the shift limit with a multiplier of 2^29. */
  lemma SmallMultiplierFails(multiplier: int, shift: int)
    requires Derived(TWO_TO_MINUS_33, MAX_SHIFT, multiplier, shift)
    ensures multiplier == 0x2000_0000 && shift == MAX_SHIFT
  {
    var m := TWO_TO_MINUS_33;
    ScaledIs(m, MAX_SHIFT);
    Pow2Values();
    assert AtShift(m, MAX_SHIFT) == 536870912.0;
    hide Scaled, AtShift;
    var s: nat :| NormalShift(m, MAX_SHIFT, s) && FromMantissa(Scaled(m, s), s, multiplier, shift);
    StopsBelow(m, s);
  }

  /** Too large an M: 2^31 gives the shift -1, and 2^32 a multiplier of 2^31 as well. */
  lemma LargeMultiplierFails(m: real, multiplier: int, shift: int)
    requires m == HIGH as real || m == 2.0 * HIGH as real
    requires Derived(m, MAX_SHIFT, multiplier, shift)
    ensures shift == -1 && multiplier == if m == HIGH as real then LOW else HIGH
  {
    hide Scaled;
    var s: nat :| NormalShift(m, MAX_SHIFT, s) && FromMantissa(Scaled(m, s), s, multiplier, shift);
    StopsBelow(m, s);
  }

  lemma MantissaPrecise(x: real, s: nat, multiplier: int, shift: int)
    requires LOW as real <= x < HIGH as real && FromMantissa(x, s, multiplier, shift)
    ensures var exact := if shift == s then x else x / 2.0;
      -exact <= (multiplier as real - exact) * HIGH as real <= exact
  {
  }

  /** For every real M in [2^-32, 2^31 - 1/2): a normalised multiplier, a shift that fits and a
      relative error of at most 2^-31. Up to 1/2 the shift is at least 31. */
  lemma DerivationIsPrecise(m: real, multiplier: int, shift: int)
    requires AtShift(m, 32) >= 1.0 && m < HIGH as real - 0.5 && Derived(m, MAX_SHIFT, multiplier, shift)
    ensures LOW <= multiplier < HIGH && 0 <= shift <= MAX_SHIFT
    ensures m <= 0.5 ==> shift >= 31
    ensures var exact := AtShift(m, shift);
      -exact <= (multiplier as real - exact) * HIGH as real <= exact
  {
    AtLeastLow(m);
    hide Scaled, FromMantissa, AtShift;
    NormalisedIff(m, multiplier, shift);
    var s: nat :| NormalShift(m, MAX_SHIFT, s) && FromMantissa(Scaled(m, s), s, multiplier, shift);
    ScaledIs(m, MAX_SHIFT);
    StopsBelow(m, s);
    MantissaRange(Scaled(m, s), s, multiplier, shift);
    MantissaPrecise(Scaled(m, s), s, multiplier, shift);
    ScaledIs(m, shift);
    GuardHalves(m, s);
    if m <= 0.5 { HalfNeeds31(m, s); }
  }

  lemma AtLeastLow(m: real)
    requires AtShift(m, 32) >= 1.0
    ensures m > 0.0 && AtShift(m, MAX_SHIFT) >= LOW as real
  {
    Pow2Values();
    var p := m * 4294967296.0;
    assert m * 4611686018427387904.0 == p * 1073741824.0;
  }

  lemma GuardHalves(m: real, s: nat)
    ensures s > 0 ==> Scaled(m, s) == 2.0 * Scaled(m, s - 1)
  {
  }

  // ---------------------------------------------------------------- rounding folded into the bias

  /** int(round(2^(shift - 1) / multiplier)). */
  function Compensation(multiplier: int, shift: nat): int
    requires multiplier > 0 && shift >= 1
  {
    PyRound(Pow2(shift - 1) as real / multiplier as real)
  }

  /** The requant that the export means: round half up. */
  function RoundHalfUp(acc: int, multiplier: int, shift: nat): int
    requires shift >= 1
  {
    ShiftRight(acc * multiplier + Pow2(shift - 1), shift)
  }

  /** It is the integer nearest to the exact quotient, and of two equally near ones the larger. */
  lemma RoundHalfUpIs(acc: int, multiplier: int, shift: nat)
    requires shift >= 1
    ensures var error := acc * multiplier - RoundHalfUp(acc, multiplier, shift) * Pow2(shift);
      -Pow2(shift) <= 2 * error < Pow2(shift)
  {
    var half, d, v := Pow2(shift - 1), Pow2(shift), acc * multiplier;
    assert d == 2 * half;
    hide Pow2;
    var r := RoundHalfUp(acc, multiplier, shift);
    assert r == ShiftRight(v + half, shift);
    ShiftBounds(v + half, shift, r, d);
    hide RoundHalfUp, ShiftRight;
    RoundedBetween(v, r, d, half);
  }

  lemma ShiftBounds(v: int, shift: nat, r: int, d: int)
    requires r == ShiftRight(v, shift) && d == Pow2(shift)
    ensures r * d <= v < (r + 1) * d
  {
    hide Pow2;
  }

  lemma RoundedBetween(v: int, r: int, d: int, half: int)
    requires d == 2 * half && r * d <= v + half < (r + 1) * d
    ensures -d <= 2 * (v - r * d) < d
  {
    assert (r + 1) * d == r * d + d;
  }

  lemma CompensationClose(multiplier: int, shift: nat)
    requires multiplier > 0 && shift >= 1
    ensures var c := Compensation(multiplier, shift);
      -multiplier <= 2 * (c * multiplier - Pow2(shift - 1)) <= multiplier
  {
    QuotientClose(Compensation(multiplier, shift), Pow2(shift - 1), multiplier);
  }

  lemma QuotientClose(c: int, p: int, multiplier: int)
    requires multiplier > 0
    requires var q := p as real / multiplier as real; q - 0.5 <= c as real <= q + 0.5
    ensures -multiplier <= 2 * (c * multiplier - p) <= multiplier
  {
    var m := multiplier as real;
    var q := p as real / m;
    Quotient(p as real, m, q);
    var v := c * multiplier;
    IntProduct(c, multiplier);
    NearProduct(c as real, q, m, p as real, v as real);
    BackToInt(v, p, multiplier);
  }

  lemma BackToInt(v: int, p: int, m: int)
    requires p as real - 0.5 * m as real <= v as real <= p as real + 0.5 * m as real
    ensures -m <= 2 * (v - p) <= m
  {
  }

  lemma Quotient(p: real, m: real, q: real)
    requires m > 0.0 && q == p / m
    ensures q * m == p
  {
  }

  lemma IntProduct(a: int, b: int)
    ensures (a * b) as real == a as real * b as real
  {
  }

  lemma NearProduct(c: real, q: real, m: real, p: real, v: real)
    requires q - 0.5 <= c <= q + 0.5 && m > 0.0 && q * m == p && c * m == v
    ensures p - 0.5 * m <= v <= p + 0.5 * m
  {
    NonNegative(c - q + 0.5, m);
    NonNegative(q + 0.5 - c, m);
    assert (c - q + 0.5) * m == c * m - q * m + 0.5 * m;
    assert (q + 0.5 - c) * m == q * m + 0.5 * m - c * m;
  }

  lemma NonNegative(a: real, b: real)
    requires a >= 0.0 && b > 0.0
    ensures a * b >= 0.0
  {
  }

  /** For every accumulator: with the compensation in the bias the truncating shift gives a result
      within 1 of round-half-up, and one that differs only within multiplier/2 of a rounding
      boundary. */
  lemma FoldedRounding(acc: int, multiplier: int, shift: nat)
    requires multiplier > 0 && shift >= 1
    ensures var folded := ShiftRight((acc + Compensation(multiplier, shift)) * multiplier, shift);
      var rounded := RoundHalfUp(acc, multiplier, shift);
      && -1 <= folded - rounded <= 1
      && (folded != rounded ==> AtBoundary(acc * multiplier + Pow2(shift - 1), multiplier, shift))
  {
    var c := Compensation(multiplier, shift);
    CompensationClose(multiplier, shift);
    hide Compensation;
    var a, b := acc * multiplier + Pow2(shift - 1), (acc + c) * multiplier;
    assert b == acc * multiplier + c * multiplier;
    if multiplier > 2 * Pow2(shift) { NothingToCompensate(c, multiplier, Pow2(shift - 1)); }
    FloorsClose(a, b, multiplier, shift);
  }

  /** A multiplier above 2^(shift + 1) leaves no room for a compensation. */
  lemma NothingToCompensate(c: int, multiplier: int, half: int)
    requires half >= 1 && multiplier > 4 * half && -multiplier <= 2 * (c * multiplier - half) <= multiplier
    ensures c == 0
  {
    if c >= 1 { MulMono(1, c, multiplier); }
    if c <= -1 { MulMono(c, -1, multiplier); }
  }

  /** `k` times 2^shift is where the rounded result steps up; `v` is within multiplier/2 of it. */
  predicate NearBoundary(v: int, k: int, multiplier: int, shift: nat)
  {
    -multiplier <= 2 * (v - k * Pow2(shift)) <= multiplier
  }

  ghost predicate AtBoundary(v: int, multiplier: int, shift: nat)
  {
    exists k: int :: NearBoundary(v, k, multiplier, shift)
  }

  lemma FloorsClose(a: int, b: int, multiplier: int, shift: nat)
    requires -multiplier <= 2 * (b - a) <= multiplier && -Pow2(shift) <= b - a <= Pow2(shift)
    ensures var f, r := ShiftRight(b, shift), ShiftRight(a, shift);
      -1 <= f - r <= 1 && (f != r ==> AtBoundary(a, multiplier, shift))
  {
    hide ShiftRight;
    var d := Pow2(shift);
    var f, r := ShiftRight(b, shift), ShiftRight(a, shift);
    if f > r {
      StepsClose(r, f, d);
      assert NearBoundary(a, f, multiplier, shift);
    } else if f < r {
      StepsClose(f, r, d);
      assert NearBoundary(a, r, multiplier, shift);
    }
  }

  /** Quotients of two numbers less than a divisor apart. */
  lemma StepsClose(lo: int, hi: int, d: int)
    requires lo < hi && d > 0
    ensures (lo + 1) * d <= hi * d
    ensures hi > lo + 1 ==> (lo + 1) * d + d <= hi * d
  {
    MulMono(lo + 1, hi, d);
    if hi > lo + 1 {
      MulMono(lo + 2, hi, d);
      assert (lo + 2) * d == (lo + 1) * d + d;
    }
  }

  /** The exported layer: the same kernel, with the compensation added to every bias. */
  function WithFoldedRounding(l: Layer): Layer
    requires l.requant.multiplier > 0 && l.requant.shift >= 1
  {
    var c := Compensation(l.requant.multiplier, l.requant.shift);
    l.(bias := oc => l.bias(oc) + c)
  }

  lemma ClipClose(a: int, b: int)
    requires -1 <= a - b <= 1
    ensures -1 <= Clip(a) - Clip(b) <= 1
  {
  }

  /** Every output of the exported convolution is within 1 of the correctly rounded one. */
  lemma ExportedConvIsRounded(x: Tensor, l: Layer, y: int, c: int, oc: int)
    requires l.requant.multiplier > 0 && l.requant.shift >= 1
    ensures var rounded := Clip(RoundHalfUp(Accumulator(x, l, y, c, oc), l.requant.multiplier, l.requant.shift));
      -1 <= ConvOut(x, WithFoldedRounding(l))(y, c, oc) - rounded <= 1
  {
    hide Dot, RoundHalfUp, ShiftRight, Compensation, Clip, Pow2, Sum;
    var acc := Accumulator(x, l, y, c, oc);
    FoldedRounding(acc, l.requant.multiplier, l.requant.shift);
    var m, s := l.requant.multiplier, l.requant.shift;
    assert Accumulator(x, WithFoldedRounding(l), y, c, oc) == acc + Compensation(m, s);
    ClipClose(ShiftRight((acc + Compensation(m, s)) * m, s), RoundHalfUp(acc, m, s));
  }
}
