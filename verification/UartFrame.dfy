/** The CRC and the three-byte safety frame of UartFrame.cpp: CRC-8 with polynomial
    x^8 + x^2 + x + 1, as in section 5.4 of the SMBus 2.0 specification. */
module UartFrame {
  import opened SafetyJudge

  type Octet = bv8

  const MAGIC: Octet := 0xA5
  const POLYNOMIAL: Octet := 0x07

  predicate Has(b: Octet, mask: Octet) { b & mask != 0 }

  function Shl(b: Octet): Octet { b << 1 }

  function Xor(a: Octet, b: Octet): Octet { a ^ b }

  /** One turn of the bit loop. */
  function Round(r: Octet): Octet
  {
    if Has(r, 0x80) then Xor(Shl(r), POLYNOMIAL) else Shl(r)
  }

  function Rounds8(r: Octet): Octet
  {
    Round(Round(Round(Round(Round(Round(Round(Round(r))))))))
  }

  /** The register after a message. */
  function Crc(data: seq<Octet>): Octet
  {
    if data == [] then 0 else Rounds8(Xor(Crc(data[..|data| - 1]), data[|data| - 1]))
  }

  method Crc8(data: seq<Octet>) returns (crc: Octet)
    ensures crc == Crc(data)
  {
    crc := 0;
    for i := 0 to |data|
      invariant crc == Crc(data[..i])
    {
      assert data[..i + 1][..i] == data[..i];
      crc := crc ^ data[i];
      ghost var start := crc;
      for bit := 0 to 8
        invariant crc == Turns(bit, start)
      {
        if crc & 0x80 != 0 {
          crc := (crc << 1) ^ POLYNOMIAL;
        } else {
          crc := crc << 1;
        }
      }
      EightTurns(start);
    }
    assert data[..|data|] == data;
  }

  ghost function Turns(n: nat, r: Octet): Octet
  {
    if n == 0 then r else Round(Turns(n - 1, r))
  }

  lemma EightTurns(r: Octet)
    ensures Turns(8, r) == Rounds8(r)
  {
    hide Round;
    assert Turns(0, r) == r;
    assert Turns(1, r) == Round(Turns(0, r));
    assert Turns(2, r) == Round(Turns(1, r));
    assert Turns(4, r) == Round(Round(Turns(2, r)));
    assert Turns(6, r) == Round(Round(Turns(4, r)));
    assert Turns(8, r) == Round(Round(Turns(6, r)));
  }

  /** encode, with the caller's buffer large enough. */
  function Frame(s: State): (f: seq<Octet>)
    ensures |f| == 3
  {
    var level: Octet := match s case Clear => 0 case Slow => 1 case Stop => 2;
    [MAGIC, level, Crc([MAGIC, level])]
  }

  method Encode(s: State, out: array<Octet>) returns (ok: bool)
    modifies out
    ensures ok <==> out.Length >= 3
    ensures ok ==> out[..3] == Frame(s) && out[3..] == old(out[3..])
    ensures !ok ==> out[..] == old(out[..])
  {
    if out.Length < 3 { return false; }
    out[0] := MAGIC;
    out[1] := match s case Clear => 0 case Slow => 1 case Stop => 2;
    out[2] := Crc8(out[..2]);
    assert out[..2] == [MAGIC, out[1]];
    return true;
  }

  // ---------------------------------------------------------------- bits

  /** Message bits, most significant first. */
  function ByteBits(b: Octet): (s: seq<bool>)
    ensures |s| == 8
  {
    [Has(b, 0x80), Has(b, 0x40), Has(b, 0x20), Has(b, 0x10),
     Has(b, 0x08), Has(b, 0x04), Has(b, 0x02), Has(b, 0x01)]
  }

  function Bits(data: seq<Octet>): (s: seq<bool>)
    ensures |s| == 8 * |data|
  {
    if data == [] then [] else Bits(data[..|data| - 1]) + ByteBits(data[|data| - 1])
  }

  function Feedback(r: Octet, b: bool): bool { (Has(r, 0x80)) != b }

  /** The same register, fed one message bit at a time. */
  function BitStep(r: Octet, b: bool): Octet
  {
    Xor(Shl(r), if Feedback(r, b) then POLYNOMIAL else 0)
  }

  function CrcFrom(r: Octet, bits: seq<bool>): Octet
  {
    if bits == [] then r else BitStep(CrcFrom(r, bits[..|bits| - 1]), bits[|bits| - 1])
  }

  lemma {:induction false} CrcFromConcat(r: Octet, a: seq<bool>, b: seq<bool>)
    ensures CrcFrom(r, a + b) == CrcFrom(CrcFrom(r, a), b)
  {
    hide BitStep;
    if b == [] {
      assert a + b == a;
    } else {
      CrcFromConcat(r, a, b[..|b| - 1]);
      assert (a + b)[..|a + b| - 1] == a + b[..|b| - 1];
    }
  }

  /** The byte loop XORs the whole byte in at once; its bits reach the top one by one. */
  lemma RoundIsBitStep(r: Octet, b: Octet)
    ensures Round(Xor(r, b)) == Xor(BitStep(r, ByteBits(b)[0]), Shl(b))
  {
    hide Xor, Shl, Has;
    ShlXor(r, b);
    HasXor(r, b);
    XorLaws(Shl(r), Shl(b), POLYNOMIAL);
    XorZero(Shl(r));
  }

  lemma ShlXor(a: Octet, b: Octet)
    ensures Shl(Xor(a, b)) == Xor(Shl(a), Shl(b))
  {
  }

  lemma HasXor(a: Octet, b: Octet)
    ensures Has(Xor(a, b), 0x80) == (Has(a, 0x80) != Has(b, 0x80))
  {
  }

  lemma XorLaws(a: Octet, b: Octet, c: Octet)
    ensures Xor(Xor(a, b), c) == Xor(Xor(a, c), b)
  {
  }

  lemma ShiftedBits(b: Octet)
    ensures var s, u := ByteBits(b), ByteBits(Shl(b)); u[..7] == s[1..] && !u[7]
  {
    ShiftedMasks(b);
    hide Has, Shl;
  }

  lemma ShiftedMasks(b: Octet)
    ensures Has(Shl(b), 0x80) == Has(b, 0x40) && Has(Shl(b), 0x40) == Has(b, 0x20)
    ensures Has(Shl(b), 0x20) == Has(b, 0x10) && Has(Shl(b), 0x10) == Has(b, 0x08)
    ensures Has(Shl(b), 0x08) == Has(b, 0x04) && Has(Shl(b), 0x04) == Has(b, 0x02)
    ensures Has(Shl(b), 0x02) == Has(b, 0x01) && !Has(Shl(b), 0x01)
  {
  }

  lemma ClearedByShifts(b: Octet)
    ensures Shl(Shl(Shl(Shl(Shl(Shl(Shl(Shl(b)))))))) == 0
  {
  }

  lemma XorZero(r: Octet)
    ensures Xor(r, 0) == r
  {
  }

  /** The register after `n` turns: `n` bits consumed, the rest still to come. */
  lemma {:induction false} TurnsAreBitSteps(r: Octet, b: Octet, n: nat) returns (rest: Octet)
    requires n <= 8
    ensures Turns(n, Xor(r, b)) == Xor(CrcFrom(r, ByteBits(b)[..n]), rest) && rest == Shifts(n, b)
    ensures ByteBits(rest)[..8 - n] == ByteBits(b)[n..]
  {
    hide Xor, Round, BitStep, Shl, ByteBits;
    var s := ByteBits(b);
    if n == 0 {
      rest := b;
    } else {
      var before := TurnsAreBitSteps(r, b, n - 1);
      RoundIsBitStep(CrcFrom(r, s[..n - 1]), before);
      ShiftedBits(before);
      rest := Shl(before);
      assert s[..n][..n - 1] == s[..n - 1];
      assert ByteBits(before)[..8 - (n - 1)][0] == s[n - 1];
      assert ByteBits(rest)[..7][..8 - n] == ByteBits(rest)[..8 - n];
      assert ByteBits(before)[..8 - (n - 1)][1..] == ByteBits(before)[1..][..8 - n];
    }
  }

  ghost function Shifts(n: nat, b: Octet): Octet
  {
    if n == 0 then b else Shl(Shifts(n - 1, b))
  }

  lemma EightShifts(b: Octet)
    ensures Shifts(8, b) == 0
  {
    ClearedByShifts(b);
    hide Shl;
    assert Shifts(2, b) == Shl(Shl(Shifts(0, b)));
    assert Shifts(4, b) == Shl(Shl(Shifts(2, b)));
    assert Shifts(6, b) == Shl(Shl(Shifts(4, b)));
    assert Shifts(8, b) == Shl(Shl(Shifts(6, b)));
  }

  lemma CrcOfByte(r: Octet, b: Octet)
    ensures CrcFrom(r, ByteBits(b)) == Rounds8(Xor(r, b))
  {
    hide Xor, Round, BitStep, Shl, ByteBits, Rounds8;
    var rest := TurnsAreBitSteps(r, b, 8);
    EightShifts(b);
    EightTurns(Xor(r, b));
    assert ByteBits(b)[..8] == ByteBits(b);
    XorZero(CrcFrom(r, ByteBits(b)));
  }

  /** The byte-wise loop is the bit-serial division of the whole message. */
  lemma {:induction false} CrcIsBitSerial(data: seq<Octet>)
    ensures Crc(data) == CrcFrom(0, Bits(data))
  {
    hide Rounds8, ByteBits, BitStep;
    if data != [] {
      var n := |data| - 1;
      CrcIsBitSerial(data[..n]);
      CrcFromConcat(0, Bits(data[..n]), ByteBits(data[n]));
      CrcOfByte(Crc(data[..n]), data[n]);
    }
  }

  // ---------------------------------------------------------------- remainder

  /** Coefficient of x^i of a polynomial written as bits, highest power first. */
  function Coeff(p: seq<bool>, i: int): bool
  {
    0 <= i < |p| && p[|p| - 1 - i]
  }

  /** Coefficient of x^i of q * (x^8 + x^2 + x + 1), over the two-element field. */
  function TimesGenerator(q: seq<bool>, i: int): bool
  {
    ((Coeff(q, i - 8) != Coeff(q, i - 2)) != Coeff(q, i - 1)) != Coeff(q, i)
  }

  /** message * x^8 == quotient * generator + remainder, coefficient by coefficient. */
  ghost predicate Divides(message: seq<bool>, quotient: seq<bool>, remainder: Octet)
  {
    forall i :: Coeff(message, i - 8) == (TimesGenerator(quotient, i) != Coeff(ByteBits(remainder), i))
  }

  lemma CoeffSnoc(p: seq<bool>, b: bool, i: int)
    ensures Coeff(p + [b], i) == if i == 0 then b else Coeff(p, i - 1)
  {
  }

  /** One bit step on the register's bits: shift up and add the generator if fed back. */
  predicate BitsShifted(s: seq<bool>, u: seq<bool>, f: bool)
  {
    && |s| == 8 && |u| == 8
    && u[0] == s[1] && u[1] == s[2] && u[2] == s[3] && u[3] == s[4] && u[4] == s[5]
    && u[5] == (s[6] != f) && u[6] == (s[7] != f) && u[7] == f
  }

  lemma ShiftedCoeff(s: seq<bool>, u: seq<bool>, f: bool, i: int)
    requires BitsShifted(s, u, f)
    ensures Coeff(u, i) == ((0 < i < 8 && Coeff(s, i - 1)) != (0 <= i <= 2 && f))
  {
  }

  lemma ByteBitsAre(b: Octet)
    ensures var s := ByteBits(b);
      && s[0] == Has(b, 0x80) && s[1] == Has(b, 0x40) && s[2] == Has(b, 0x20) && s[3] == Has(b, 0x10)
      && s[4] == Has(b, 0x08) && s[5] == Has(b, 0x04) && s[6] == Has(b, 0x02) && s[7] == Has(b, 0x01)
  {
    hide Has;
  }

  lemma StepShifts(r: Octet, b: bool)
    ensures BitsShifted(ByteBits(r), ByteBits(BitStep(r, b)), Feedback(r, b))
  {
    hide BitStep, Feedback, Has, ByteBits;
    StepBits(r, b, BitStep(r, b));
    ByteBitsAre(r);
    ByteBitsAre(BitStep(r, b));
  }

  /** How one bit step moves the coefficients of the register. */
  lemma StepCoeff(r: Octet, b: bool, i: int)
    ensures Coeff(ByteBits(BitStep(r, b)), i) ==
      ((0 < i < 8 && Coeff(ByteBits(r), i - 1)) != (0 <= i <= 2 && Feedback(r, b)))
    ensures Feedback(r, b) == (Coeff(ByteBits(r), 7) != b)
  {
    hide BitStep, BitsShifted, Has;
    StepShifts(r, b);
    assert ByteBits(r)[0] == Has(r, 0x80);
    assert Coeff(ByteBits(r), 7) == ByteBits(r)[0];
    hide ByteBits;
    ShiftedCoeff(ByteBits(r), ByteBits(BitStep(r, b)), Feedback(r, b), i);
  }

  lemma StepBits(r: Octet, b: bool, t: Octet)
    requires t == BitStep(r, b)
    ensures (Has(t, 0x80)) == (Has(r, 0x40)) && (Has(t, 0x40)) == (Has(r, 0x20))
    ensures (Has(t, 0x20)) == (Has(r, 0x10)) && (Has(t, 0x10)) == (Has(r, 0x08)) && (Has(t, 0x08)) == (Has(r, 0x04))
    ensures (Has(t, 0x04)) == ((Has(r, 0x02)) != Feedback(r, b))
    ensures (Has(t, 0x02)) == ((Has(r, 0x01)) != Feedback(r, b))
    ensures (Has(t, 0x01)) == Feedback(r, b)
  {
  }

  lemma DividesStep(m: seq<bool>, q: seq<bool>, r: Octet, b: bool)
    requires Divides(m, q, r)
    ensures Divides(m + [b], q + [Feedback(r, b)], BitStep(r, b))
  {
    hide BitStep, Coeff, ByteBits;
    var f := Feedback(r, b);
    forall i
      ensures Coeff(m + [b], i - 8) == (TimesGenerator(q + [f], i) != Coeff(ByteBits(BitStep(r, b)), i))
    {
      DividesAt(m, q, r, b, i);
    }
  }

  lemma DividesAt(m: seq<bool>, q: seq<bool>, r: Octet, b: bool, i: int)
    requires Divides(m, q, r)
    ensures Coeff(m + [b], i - 8) == (TimesGenerator(q + [Feedback(r, b)], i) != Coeff(ByteBits(BitStep(r, b)), i))
  {
    var f := Feedback(r, b);
    CoeffSnoc(m, b, i - 8);
    CoeffSnoc(q, f, i); CoeffSnoc(q, f, i - 1); CoeffSnoc(q, f, i - 2); CoeffSnoc(q, f, i - 8);
    StepCoeff(r, b, i);
    assert i == 8 ==> Coeff(m, -1) == false;
    assert Coeff(q, -1) == false && Coeff(m, i - 9) == (TimesGenerator(q, i - 1) != Coeff(ByteBits(r), i - 1)) by {
      assert Coeff(m, (i - 1) - 8) == (TimesGenerator(q, i - 1) != Coeff(ByteBits(r), i - 1));
    }
    assert !(0 <= i - 1 < 8) ==> !Coeff(ByteBits(r), i - 1);
    assert i < 0 ==> !Coeff(q, i) && !Coeff(q, i - 1) && !Coeff(q, i - 2) && !Coeff(q, i - 8);
  }

  lemma {:induction false} BitSerialDivides(bits: seq<bool>) returns (q: seq<bool>)
    ensures Divides(bits, q, CrcFrom(0, bits))
  {
    hide BitStep, Feedback, Divides;
    if bits == [] {
      q := [];
      EmptyDivides();
    } else {
      var before := bits[..|bits| - 1];
      q := BitSerialDivides(before);
      DividesStep(before, q, CrcFrom(0, before), bits[|bits| - 1]);
      assert before + [bits[|bits| - 1]] == bits;
      q := q + [Feedback(CrcFrom(0, before), bits[|bits| - 1])];
    }
  }

  lemma EmptyDivides()
    ensures Divides([], [], 0)
  {
    ByteBitsAre(0);
  }

  /** Two divisions of the same message have the same quotient coefficients, from the top down. */
  lemma {:induction false} QuotientUnique(m: seq<bool>, q: seq<bool>, p: seq<bool>, r: Octet, t: Octet, i: nat)
    requires Divides(m, q, r) && Divides(m, p, t)
    ensures Coeff(q, i) == Coeff(p, i)
    decreases |q| + |p| - i
  {
    if i < |q| + |p| {
      QuotientUnique(m, q, p, r, t, i + 6);
      QuotientUnique(m, q, p, r, t, i + 7);
      QuotientUnique(m, q, p, r, t, i + 8);
      assert Coeff(m, (i + 8) - 8) == (TimesGenerator(q, i + 8) != Coeff(ByteBits(r), i + 8));
      assert Coeff(m, (i + 8) - 8) == (TimesGenerator(p, i + 8) != Coeff(ByteBits(t), i + 8));
    }
  }

  lemma SameBits(r: Octet, t: Octet)
    requires ByteBits(r) == ByteBits(t)
    ensures r == t
  {
    ByteBitsAre(r);
    ByteBitsAre(t);
    hide ByteBits;
  }

  lemma RemainderUnique(m: seq<bool>, q: seq<bool>, p: seq<bool>, r: Octet, t: Octet)
    requires Divides(m, q, r) && Divides(m, p, t)
    ensures r == t
  {
    hide ByteBits;
    var s, u := ByteBits(r), ByteBits(t);
    forall k | 0 <= k < 8
      ensures s[k] == u[k]
    {
      var i := 7 - k;
      assert Coeff(s, i) == s[k] && Coeff(u, i) == u[k];
      QuotientUnique(m, q, p, r, t, i);
      if i >= 1 { QuotientUnique(m, q, p, r, t, i - 1); }
      if i >= 2 { QuotientUnique(m, q, p, r, t, i - 2); }
      assert TimesGenerator(q, i) == TimesGenerator(p, i);
    }
    SameBits(r, t);
  }

  /** For messages of every length, the register is the remainder of message * x^8 modulo
      x^8 + x^2 + x + 1, and no other byte is. */
  lemma CrcIsTheRemainder(data: seq<Octet>, r: Octet)
    ensures r == Crc(data) <==> exists q :: Divides(Bits(data), q, r)
  {
    hide Divides, Crc;
    CrcIsBitSerial(data);
    var q := BitSerialDivides(Bits(data));
    if p :| Divides(Bits(data), p, r) {
      RemainderUnique(Bits(data), q, p, Crc(data), r);
    }
  }

  // ---------------------------------------------------------------- error detection

  /** An error pattern laid over a message. */
  function Xored(a: seq<Octet>, b: seq<Octet>): (c: seq<Octet>)
    requires |a| == |b|
    ensures |c| == |a|
  {
    seq(|a|, i requires 0 <= i < |a| => Xor(a[i], b[i]))
  }

  lemma RoundLinear(a: Octet, b: Octet)
    ensures Round(Xor(a, b)) == Xor(Round(a), Round(b))
  {
    hide Has, Shl, Xor;
    ShlXor(a, b);
    HasXor(a, b);
    XorLaws(Shl(a), POLYNOMIAL, Shl(b));
    XorAssociates(Shl(a), Shl(b), POLYNOMIAL);
    XorSwap(Shl(a), POLYNOMIAL, Shl(b), POLYNOMIAL);
    XorIsZero(POLYNOMIAL, POLYNOMIAL);
    XorZero(Xor(Shl(a), Shl(b)));
  }

  lemma XorAssociates(a: Octet, b: Octet, c: Octet)
    ensures Xor(Xor(a, b), c) == Xor(a, Xor(b, c))
  {
  }

  lemma RoundsLinear(a: Octet, b: Octet)
    ensures Rounds8(Xor(a, b)) == Xor(Rounds8(a), Rounds8(b))
  {
    hide Round, Xor, Turns;
    TurnsLinear(8, a, b);
    EightTurns(Xor(a, b));
    EightTurns(a);
    EightTurns(b);
  }

  lemma {:induction false} TurnsLinear(n: nat, a: Octet, b: Octet)
    ensures Turns(n, Xor(a, b)) == Xor(Turns(n, a), Turns(n, b))
  {
    hide Round, Xor;
    if n > 0 {
      TurnsLinear(n - 1, a, b);
      RoundLinear(Turns(n - 1, a), Turns(n - 1, b));
    }
  }

  lemma XorSwap(a: Octet, b: Octet, c: Octet, d: Octet)
    ensures Xor(Xor(a, b), Xor(c, d)) == Xor(Xor(a, c), Xor(b, d))
  {
    hide Xor;
    XorAssociates(Xor(a, b), c, d);
    XorLaws(a, b, c);
    XorAssociates(Xor(a, c), b, d);
  }

  /** The CRC of a sum is the sum of the CRCs. */
  lemma {:induction false} CrcLinear(a: seq<Octet>, b: seq<Octet>)
    requires |a| == |b|
    ensures Crc(Xored(a, b)) == Xor(Crc(a), Crc(b))
  {
    hide Rounds8, Xor;
    if a != [] {
      var n := |a| - 1;
      CrcLinear(a[..n], b[..n]);
      assert Xored(a, b)[..n] == Xored(a[..n], b[..n]);
      XorSwap(Crc(a[..n]), Crc(b[..n]), a[n], b[n]);
      RoundsLinear(Xor(Crc(a[..n]), a[n]), Xor(Crc(b[..n]), b[n]));
    } else {
      XorZero(0);
    }
  }

  lemma {:induction false} TurnsKeepNonzero(n: nat, r: Octet)
    ensures Turns(n, r) == 0 <==> r == 0
  {
    hide Round;
    if n > 0 {
      TurnsKeepNonzero(n - 1, r);
      RoundKeepsNonzero(Turns(n - 1, r));
    }
  }

  lemma RoundKeepsNonzero(r: Octet)
    ensures Round(r) == 0 <==> r == 0
  {
  }

  lemma XorIsZero(a: Octet, b: Octet)
    ensures Xor(a, b) == 0 <==> a == b
  {
  }

  /** A message with a byte appended checks out (residue 0) exactly when that byte is its CRC. */
  lemma ResidueZeroIff(data: seq<Octet>, c: Octet)
    ensures Crc(data + [c]) == 0 <==> c == Crc(data)
  {
    hide Rounds8, Xor, Turns;
    assert (data + [c])[..|data|] == data;
    EightTurns(Xor(Crc(data), c));
    TurnsKeepNonzero(8, Xor(Crc(data), c));
    XorIsZero(Crc(data), c);
  }

  function ByteOf(s: seq<bool>): Octet
    requires |s| == 8
  {
    (if s[0] then 0x80 else 0) | (if s[1] then 0x40 else 0) | (if s[2] then 0x20 else 0) | (if s[3] then 0x10 else 0)
    | (if s[4] then 0x08 else 0) | (if s[5] then 0x04 else 0) | (if s[6] then 0x02 else 0) | (if s[7] then 0x01 else 0)
  }

  lemma BitsOfByteOf(s: seq<bool>)
    requires |s| == 8
    ensures ByteBits(ByteOf(s)) == s
  {
    var b := ByteOf(s);
    MasksOfByte(s[0], s[1], s[2], s[3], s[4], s[5], s[6], s[7], b);
    hide ByteOf, Has, ByteBits;
    ByteBitsAre(b);
  }

  lemma MasksOfByte(b7: bool, b6: bool, b5: bool, b4: bool, b3: bool, b2: bool, b1: bool, b0: bool, b: Octet)
    requires b ==
      (if b7 then 0x80 else 0) | (if b6 then 0x40 else 0) | (if b5 then 0x20 else 0) | (if b4 then 0x10 else 0)
      | (if b3 then 0x08 else 0) | (if b2 then 0x04 else 0) | (if b1 then 0x02 else 0) | (if b0 then 0x01 else 0)
    ensures Has(b, 0x80) == b7 && Has(b, 0x40) == b6 && Has(b, 0x20) == b5 && Has(b, 0x10) == b4
    ensures Has(b, 0x08) == b3 && Has(b, 0x04) == b2 && Has(b, 0x02) == b1 && Has(b, 0x01) == b0
  {
  }

  lemma {:induction false} ZerosFrom(r: Octet, z: seq<bool>)
    requires forall i :: 0 <= i < |z| ==> !z[i]
    ensures CrcFrom(r, z) == 0 <==> r == 0
  {
    hide BitStep;
    if z != [] {
      ZerosFrom(r, z[..|z| - 1]);
      ZeroStep(CrcFrom(r, z[..|z| - 1]));
    }
  }

  lemma ZeroStep(r: Octet)
    ensures BitStep(r, false) == 0 <==> r == 0
  {
  }

  /** All the set bits of the pattern lie within eight consecutive places. */
  ghost predicate Burst(bits: seq<bool>, start: nat)
  {
    && start + 8 <= |bits|
    && (forall i :: 0 <= i < |bits| && bits[i] ==> start <= i < start + 8)
    && exists i :: 0 <= i < |bits| && bits[i]
  }

  lemma SetBitNonzero(b: Octet, j: nat)
    requires j < 8 && ByteBits(b)[j]
    ensures b != 0
  {
    ByteBitsAre(0);
  }

  lemma BurstLeavesTrace(bits: seq<bool>, start: nat)
    requires Burst(bits, start)
    ensures CrcFrom(0, bits) != 0
  {
    hide CrcFrom, ByteBits, ByteOf;
    var a, w, z := bits[..start], bits[start..start + 8], bits[start + 8..];
    assert bits == a + w + z;
    CrcFromConcat(0, a + w, z);
    CrcFromConcat(0, a, w);
    ZerosFrom(0, a);
    BitsOfByteOf(w);
    var b := ByteOf(w);
    CrcOfByte(0, b);
    EightTurns(Xor(0, b));
    TurnsKeepNonzero(8, Xor(0, b));
    XorIsZero(0, b);
    var i :| 0 <= i < |bits| && bits[i];
    SetBitNonzero(b, i - start);
    ZerosFrom(CrcFrom(0, w), z);
  }

  /** Any error burst of at most eight consecutive bits changes the CRC of a message. */
  lemma BurstIsDetected(data: seq<Octet>, e: seq<Octet>, start: nat)
    requires |e| == |data| && Burst(Bits(e), start)
    ensures Crc(Xored(data, e)) != Crc(data)
  {
    hide Crc, Burst, CrcFrom, Xor, Xored;
    CrcLinear(data, e);
    CrcIsBitSerial(e);
    BurstLeavesTrace(Bits(e), start);
    XorDiffers(Crc(data), Crc(e));
  }

  lemma XorDiffers(a: Octet, b: Octet)
    ensures Xor(a, b) == a <==> b == 0
  {
  }

  /** A safety frame hit by such a burst never checks out, wherever the burst falls. */
  lemma CorruptFrameRejected(s: State, e: seq<Octet>, start: nat)
    requires |e| == 3 && Burst(Bits(e), start)
    ensures var g := Xored(Frame(s), e); Crc(g[..2]) != g[2]
  {
    hide Crc, Burst, Bits, Xored;
    var f := Frame(s);
    assert f[..2] == [f[0], f[1]];
    assert f == f[..2] + [f[2]];
    ResidueZeroIff(f[..2], f[2]);
    BurstIsDetected(f, e, start);
    var g := Xored(f, e);
    assert g == g[..2] + [g[2]];
    ResidueZeroIff(g[..2], g[2]);
  }
}
