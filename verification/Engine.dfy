/** The accelerator of classifier_engine.cpp. Its static on-chip buffers are the arrays of the
    engine objects; no method assumes anything about what they held before. */
module Engine {
  import opened FixedWidth
  import opened Sums
  import opened Golden
  import opened PackedMac
  import opened Lanes

  ghost predicate Holds(a: array3<Int8>, h: nat, w: nat, channels: nat, t: Tensor)
    reads a
  {
    && a.Length0 == h && a.Length1 == w && a.Length2 == channels
    && forall y, c, ch :: 0 <= y < h && 0 <= c < w && 0 <= ch < channels ==> a[y, c, ch] == t(y, c, ch)
  }

  /** WPACK layout of conv1 and conv2: [oc][ky][kx][ic]. */
  ghost predicate HoldsWpack(a: array4<Int8>, outCh: nat, inCh: nat, k: Kernel)
    reads a
  {
    && a.Length0 == outCh && a.Length1 == 3 && a.Length2 == 3 && a.Length3 == inCh
    && forall oc, ky, kx, ic :: 0 <= oc < outCh && 0 <= ky < 3 && 0 <= kx < 3 && 0 <= ic < inCh
         ==> a[oc, ky, kx, ic] == k(oc, ic, ky, kx)
  }

  ghost predicate HoldsBias(a: array<Int32>, n: nat, b: Bias)
    reads a
  {
    a.Length == n && forall i :: 0 <= i < n ==> a[i] == b(i)
  }

  /** What the hardware puts in one pixel: the accumulator and the shifted product both pass
      through 32-bit registers. */
  function HwConvOut(x: Tensor, l: Layer): Tensor
  {
    (y, c, oc) => RequantRelu(Wrap32(Accumulator(x, l, y, c, oc)), l.requant)
  }

  function HwStage(x: Tensor, l: Layer): Tensor
  {
    MaxPool(HwConvOut(x, l))
  }

  /** The row pair (2 * py, 2 * py + 1) of the two-row buffer, pooled into row `py` of `out`. */
  method PoolRow(rowBuf: array3<Int8>, out: array3<Int8>, py: nat, ghost t: Tensor)
    requires rowBuf != out && rowBuf.Length0 == 2 && rowBuf.Length1 == 2 * out.Length1
    requires rowBuf.Length2 == out.Length2 && py < out.Length0
    requires forall c, ch :: 0 <= c < rowBuf.Length1 && 0 <= ch < rowBuf.Length2 ==>
      rowBuf[0, c, ch] == t(2 * py, c, ch) && rowBuf[1, c, ch] == t(2 * py + 1, c, ch)
    modifies out
    ensures forall y, c, ch :: 0 <= y < out.Length0 && 0 <= c < out.Length1 && 0 <= ch < out.Length2 ==>
      out[y, c, ch] == if y == py then MaxPool(t)(py, c, ch) else old(out[y, c, ch])
    ensures forall c, ch :: 0 <= c < out.Length1 && 0 <= ch < out.Length2 ==>
      Largest(out[py, c, ch], rowBuf[0, 2 * c, ch], rowBuf[0, 2 * c + 1, ch],
            rowBuf[1, 2 * c, ch], rowBuf[1, 2 * c + 1, ch])
  {
    for c := 0 to out.Length1
      invariant forall y, c', ch :: 0 <= y < out.Length0 && 0 <= c' < out.Length1 && 0 <= ch < out.Length2 ==>
        out[y, c', ch] == if y == py && c' < c then MaxPool(t)(py, c', ch) else old(out[y, c', ch])
    {
      for ch := 0 to out.Length2
        invariant forall y, c', ch' :: 0 <= y < out.Length0 && 0 <= c' < out.Length1 && 0 <= ch' < out.Length2 ==>
          out[y, c', ch'] == if y == py && (c' < c || (c' == c && ch' < ch))
                             then MaxPool(t)(py, c', ch') else old(out[y, c', ch'])
      {
        var m := rowBuf[0, c * 2, ch];
        if rowBuf[0, c * 2 + 1, ch] > m { m := rowBuf[0, c * 2 + 1, ch]; }
        if rowBuf[1, c * 2, ch] > m { m := rowBuf[1, c * 2, ch]; }
        if rowBuf[1, c * 2 + 1, ch] > m { m := rowBuf[1, c * 2 + 1, ch]; }
        out[py, c, ch] := m;
      }
    }
    forall c, ch | 0 <= c < out.Length1 && 0 <= ch < out.Length2
      ensures Largest(out[py, c, ch], rowBuf[0, 2 * c, ch], rowBuf[0, 2 * c + 1, ch], rowBuf[1, 2 * c, ch],
                      rowBuf[1, 2 * c + 1, ch])
    {
      PoolIsLargest(t, py, c, ch);
      hide MaxPool, Largest;
      assert out[py, c, ch] == MaxPool(t)(py, c, ch);
    }
  }

  /** `conv1_pool1_fused` and `conv2_pool2_fused`: the same code at two sizes. SAME padding is
      internal; input channels are processed in blocks of eight lanes, output channels in blocks
      of `ocPar` packed in pairs; two rows are buffered and pooled as soon as both are there. */
  class SameConvPool {
    const size: nat
    const icBlocks: nat
    const ocBlocks: nat
    const ocPar: nat
    const inCh: nat := icBlocks * CS_IC_PAR
    const outCh: nat := ocBlocks * ocPar
    const wLocal: array4<Int8>
    const rowBuf: array3<Int8>

    ghost predicate Valid()
    {
      && size % 2 == 0 && ocPar > 0 && ocPar % 2 == 0
      && wLocal.Length0 == outCh && wLocal.Length1 == 3 && wLocal.Length2 == 3 && wLocal.Length3 == inCh
      && rowBuf.Length0 == 2 && rowBuf.Length1 == size && rowBuf.Length2 == outCh
    }

    constructor (size: nat, icBlocks: nat, ocBlocks: nat, ocPar: nat)
      requires size % 2 == 0 && ocPar > 0 && ocPar % 2 == 0
      ensures Valid() && fresh(wLocal) && fresh(rowBuf)
      ensures this.size == size && this.icBlocks == icBlocks && this.ocBlocks == ocBlocks && this.ocPar == ocPar
    {
      this.size, this.icBlocks, this.ocBlocks, this.ocPar := size, icBlocks, ocBlocks, ocPar;
      wLocal := new Int8[ocBlocks * ocPar, 3, 3, icBlocks * CS_IC_PAR];
      rowBuf := new Int8[2, size, ocBlocks * ocPar];
    }

    method LoadWeights(w: array4<Int8>, ghost k: Kernel)
      requires Valid() && w != wLocal && HoldsWpack(w, outCh, inCh, k)
      modifies wLocal
      ensures HoldsWpack(wLocal, outCh, inCh, k)
    {
      forall oc, ky, kx, ic | 0 <= oc < outCh && 0 <= ky < 3 && 0 <= kx < 3 && 0 <= ic < inCh {
        wLocal[oc, ky, kx, ic] := w[oc, ky, kx, ic];
      }
    }

    /** The partial sums are those of `g`, reduced to 32 bits. */
    ghost predicate PartialIs(partial: array2<Int32>, g: (int, int) -> int)
      reads partial
    {
      && partial.Length0 == ocPar && partial.Length1 == CS_IC_PAR
      && forall o, i :: 0 <= o < ocPar && 0 <= i < CS_IC_PAR ==> partial[o, i] == Wrap32(g(o, i))
    }

    ghost predicate Agree(g: (int, int) -> int, h: (int, int) -> int)
    {
      forall o, i :: 0 <= o < ocPar && 0 <= i < CS_IC_PAR ==> g(o, i) == h(o, i)
    }

    /** One packed MAC step: `ocPar` output channels times eight input lanes. */
    method MacBlock(px: array<Int8>, partial: array2<Int32>, ocBase: nat, ky: nat, kx: nat, ib: nat,
                    ghost g: (int, int) -> int, ghost h: (int, int) -> int)
      requires Valid() && ocBase + ocPar <= outCh && ky < 3 && kx < 3 && ib + CS_IC_PAR <= inCh
      requires px.Length == CS_IC_PAR && PartialIs(partial, g)
      requires forall o, i :: 0 <= o < ocPar && 0 <= i < CS_IC_PAR ==>
        h(o, i) == g(o, i) + px[i] * wLocal[ocBase + o, ky, kx, ib + i]
      modifies partial
      ensures PartialIs(partial, h)
    {
      for op := 0 to ocPar / 2
        invariant Packed(partial, g, h, op, 0)
      {
        for i := 0 to CS_IC_PAR
          invariant Packed(partial, g, h, op, i)
        {
          MacPairStep(px[i], partial, op * 2, op * 2 + 1, i,
                      wLocal[ocBase + op * 2, ky, kx, ib + i], wLocal[ocBase + (op * 2 + 1), ky, kx, ib + i], g, h);
        }
      }
    }

    /** Output pairs before `op`, and lanes before `i` of pair `op`, have moved on from g to h. */
    ghost predicate Packed(partial: array2<Int32>, g: (int, int) -> int, h: (int, int) -> int, op: nat, i: nat)
      reads partial
    {
      && partial.Length0 == ocPar && partial.Length1 == CS_IC_PAR
      && forall o, l :: 0 <= o < ocPar && 0 <= l < CS_IC_PAR ==>
           partial[o, l] == Wrap32(if o < 2 * op || (o <= 2 * op + 1 && l < i) then h(o, l) else g(o, l))
    }

    /** Both products of a packed multiply, added to their partial sums. */
    method MacPairStep(a: Int8, partial: array2<Int32>, oLo: nat, oHi: nat, i: nat, wLo: Int8, wHi: Int8,
                       ghost g: (int, int) -> int, ghost h: (int, int) -> int)
      requires oLo < oHi < partial.Length0 && i < partial.Length1
      requires partial[oLo, i] == Wrap32(g(oLo, i)) && partial[oHi, i] == Wrap32(g(oHi, i))
      requires h(oLo, i) == g(oLo, i) + a * wLo && h(oHi, i) == g(oHi, i) + a * wHi
      modifies partial
      ensures partial[oLo, i] == Wrap32(h(oLo, i)) && partial[oHi, i] == Wrap32(h(oHi, i))
      ensures forall o, l | 0 <= o < partial.Length0 && 0 <= l < partial.Length1 :: l != i || (o != oLo && o != oHi) ==>
        partial[o, l] == old(partial[o, l])
    {
      var prod := MacPair(a, wLo, wHi);
      WrapAdd(g(oLo, i), prod.0);
      WrapAdd(g(oHi, i), prod.1);
      hide Wrap32, MacPair;
      partial[oLo, i] := Add32(partial[oLo, i], prod.0);
      partial[oHi, i] := Add32(partial[oHi, i], prod.1);
    }

    /** What the partial sums of output block `ocBase` add up to at a point of the schedule. */
    ghost function Sums(x: Tensor, l: Layer, oy: int, ox: int, ocBase: int, ky: nat, kx: nat, b: nat): (int, int) -> int
    {
      (o, i) => Progress(Pad(x, size, size), l.kernel, l.side, CS_IC_PAR, icBlocks, oy, ox, ocBase + o, i, ky, kx, b)
    }

    /** A 3x3 kernel over the input's channels. The side is bounded, not equated, so that the sums
        over it stay symbolic in the proofs. */
    ghost predicate Shape(l: Layer)
    {
      2 < l.side < 4 && l.cin == inCh
    }

    /** Loads the eight activations of one tap and channel block, zero outside the map. */
    method LoadPixels(ifmap: array3<Int8>, ghost x: Tensor, oy: nat, ox: nat, ky: nat, kx: nat, ib: nat)
      returns (px: array<Int8>)
      requires Valid() && Holds(ifmap, size, size, inCh, x)
      requires oy < size && ox < size && ky < 3 && kx < 3 && ib + CS_IC_PAR <= inCh
      ensures fresh(px) && px.Length == CS_IC_PAR
      ensures forall i :: 0 <= i < CS_IC_PAR ==> px[i] == Pad(x, size, size)(oy + ky, ox + kx, ib + i)
    {
      var iy, ix := oy - 1 + ky, ox - 1 + kx;
      var inBounds := 0 <= iy < size && 0 <= ix < size;
      px := new Int8[CS_IC_PAR];
      for i := 0 to CS_IC_PAR
        invariant forall j :: 0 <= j < i ==> px[j] == Pad(x, size, size)(oy + ky, ox + kx, ib + j)
      {
        px[i] := if inBounds then ifmap[iy, ix, ib + i] else 0;
      }
    }

    /** Multiplies one tap and channel block into the partial sums. */
    method MacStep(ifmap: array3<Int8>, partial: array2<Int32>, ghost x: Tensor, ghost l: Layer,
                   oy: nat, ox: nat, ocBase: nat, ky: nat, kx: nat, b: nat)
      requires Valid() && Holds(ifmap, size, size, inCh, x) && HoldsWpack(wLocal, outCh, inCh, l.kernel)
      requires oy < size && ox < size && ocBase + ocPar <= outCh && ky < 3 && kx < 3 && b < icBlocks
      requires PartialIs(partial, Sums(x, l, oy, ox, ocBase, ky, kx, b))
      modifies partial
      ensures PartialIs(partial, Sums(x, l, oy, ox, ocBase, ky, kx, b + 1))
    {
      hide Wrap32, Progress;
      var ib := b * CS_IC_PAR;
      var px := LoadPixels(ifmap, x, oy, ox, ky, kx, ib);
      ghost var g := Sums(x, l, oy, ox, ocBase, ky, kx, b);
      ghost var h := Sums(x, l, oy, ox, ocBase, ky, kx, b + 1);
      forall o, i | 0 <= o < ocPar && 0 <= i < CS_IC_PAR
        ensures h(o, i) == g(o, i) + px[i] * wLocal[ocBase + o, ky, kx, ib + i]
      {
        ProgressBlock(Pad(x, size, size), l.kernel, l.side, CS_IC_PAR, icBlocks, oy, ox, ocBase + o, i, ky, kx, b);
      }
      MacBlock(px, partial, ocBase, ky, kx, ib, g, h);
    }

    lemma NextTap(x: Tensor, l: Layer, oy: int, ox: int, ocBase: nat, ky: nat, kx: nat)
      ensures Agree(Sums(x, l, oy, ox, ocBase, ky, kx, icBlocks), Sums(x, l, oy, ox, ocBase, ky, kx + 1, 0))
    {
      hide Progress;
      forall o, i | 0 <= o < ocPar && 0 <= i < CS_IC_PAR
        ensures Sums(x, l, oy, ox, ocBase, ky, kx, icBlocks)(o, i) == Sums(x, l, oy, ox, ocBase, ky, kx + 1, 0)(o, i)
      {
        ProgressTap(Pad(x, size, size), l.kernel, l.side, CS_IC_PAR, icBlocks, oy, ox, ocBase + o, i, ky, kx);
      }
    }

    lemma NextRow(x: Tensor, l: Layer, oy: int, ox: int, ocBase: nat, ky: nat)
      ensures Agree(Sums(x, l, oy, ox, ocBase, ky, l.side, 0), Sums(x, l, oy, ox, ocBase, ky + 1, 0, 0))
    {
      hide Progress;
      forall o, i | 0 <= o < ocPar && 0 <= i < CS_IC_PAR
        ensures Sums(x, l, oy, ox, ocBase, ky, l.side, 0)(o, i) == Sums(x, l, oy, ox, ocBase, ky + 1, 0, 0)(o, i)
      {
        ProgressRow(Pad(x, size, size), l.kernel, l.side, CS_IC_PAR, icBlocks, oy, ox, ocBase + o, i, ky);
      }
    }

    lemma StartZero(x: Tensor, l: Layer, oy: int, ox: int, ocBase: nat)
      ensures forall o, i :: Sums(x, l, oy, ox, ocBase, 0, 0, 0)(o, i) == 0
    {
      forall o, i ensures Sums(x, l, oy, ox, ocBase, 0, 0, 0)(o, i) == 0 {
        assert Progress(Pad(x, size, size), l.kernel, l.side, CS_IC_PAR, icBlocks, oy, ox, ocBase + o, i, 0, 0, 0) == 0;
      }
    }

    lemma Carry(partial: array2<Int32>, g: (int, int) -> int, h: (int, int) -> int)
      requires PartialIs(partial, g) && Agree(g, h)
      ensures PartialIs(partial, h)
    {
    }

    /** The partial sums of one block of output channels at one pixel. */
    method AccumulateBlock(ifmap: array3<Int8>, ghost x: Tensor, ghost l: Layer, oy: nat, ox: nat, ocBase: nat)
      returns (partial: array2<Int32>)
      requires Valid() && Shape(l)
      requires Holds(ifmap, size, size, inCh, x) && HoldsWpack(wLocal, outCh, inCh, l.kernel)
      requires oy < size && ox < size && ocBase + ocPar <= outCh
      ensures fresh(partial) && PartialIs(partial, Sums(x, l, oy, ox, ocBase, l.side, 0, 0))
    {
      partial := new Int32[ocPar, CS_IC_PAR]((_, _) => 0);
      StartZero(x, l, oy, ox, ocBase);
      hide PartialIs, Sums, Wrap32;
      for ky := 0 to 3
        invariant PartialIs(partial, Sums(x, l, oy, ox, ocBase, ky, 0, 0))
      {
        for kx := 0 to 3
          invariant PartialIs(partial, Sums(x, l, oy, ox, ocBase, ky, kx, 0))
        {
          for b := 0 to icBlocks
            invariant PartialIs(partial, Sums(x, l, oy, ox, ocBase, ky, kx, b))
          {
            MacStep(ifmap, partial, x, l, oy, ox, ocBase, ky, kx, b);
          }
          NextTap(x, l, oy, ox, ocBase, ky, kx);
          Carry(partial, Sums(x, l, oy, ox, ocBase, ky, kx, icBlocks), Sums(x, l, oy, ox, ocBase, ky, kx + 1, 0));
        }
        NextRow(x, l, oy, ox, ocBase, ky);
        Carry(partial, Sums(x, l, oy, ox, ocBase, ky, l.side, 0), Sums(x, l, oy, ox, ocBase, ky + 1, 0, 0));
      }
    }

    lemma LanesFinal(v: seq<Int32>, x: Tensor, l: Layer, oy: int, ox: int, ocBase: int, o: int, f: int -> int)
      requires |v| == CS_IC_PAR
      requires forall i :: 0 <= i < CS_IC_PAR ==> v[i] == Wrap32(Sums(x, l, oy, ox, ocBase, l.side, 0, 0)(o, i))
      requires f == LaneSum(Pad(x, size, size), l.kernel, l.side, CS_IC_PAR, icBlocks, oy, ox, ocBase + o)
      ensures forall i :: 0 <= i < CS_IC_PAR ==> v[i] == Wrap32(f(i))
    {
      hide Wrap32, Sums, LaneSum;
      forall i | 0 <= i < CS_IC_PAR ensures v[i] == Wrap32(f(i)) {
        LaneFinal(x, l, oy, ox, ocBase, o, i);
      }
    }

    lemma LaneFinal(x: Tensor, l: Layer, oy: int, ox: int, ocBase: int, o: int, i: int)
      ensures Sums(x, l, oy, ox, ocBase, l.side, 0, 0)(o, i)
           == LaneSum(Pad(x, size, size), l.kernel, l.side, CS_IC_PAR, icBlocks, oy, ox, ocBase + o)(i)
    {
      hide Progress, LaneSum;
      ProgressDone(Pad(x, size, size), l.kernel, l.side, CS_IC_PAR, icBlocks, oy, ox, ocBase + o, i);
    }

    /** Eight finished lanes plus the bias are the wrapped golden accumulator. */
    lemma LanesToAccumulator(v: seq<Int32>, x: Tensor, l: Layer, oy: int, ox: int, ocBase: int, o: int)
      requires Shape(l) && |v| == CS_IC_PAR
      requires forall i :: 0 <= i < CS_IC_PAR ==> v[i] == Wrap32(Sums(x, l, oy, ox, ocBase, l.side, 0, 0)(o, i))
      ensures Add32(l.bias(ocBase + o), Reduce8(v)) == Wrap32(Accumulator(Pad(x, size, size), l, oy, ox, ocBase + o))
    {
      hide Wrap32, LaneSum, Reduce8, Sums, Dot;
      var xp := Pad(x, size, size);
      var oc := ocBase + o;
      var f := LaneSum(xp, l.kernel, l.side, CS_IC_PAR, icBlocks, oy, ox, oc);
      LanesFinal(v, x, l, oy, ox, ocBase, o, f);
      Reduce8Sum(v, f);
      LanesAreDot(xp, l.kernel, l.side, CS_IC_PAR, icBlocks, oy, ox, oc);
      WrapAdd(l.bias(oc), Dot(xp, l.kernel, l.side, inCh, oy, ox, oc));
    }

    /** Reduces and requantizes one output channel of a finished block. */
    method PixelOut(partial: array2<Int32>, bias: Int32, rq: Requant, ghost x: Tensor, ghost l: Layer,
                    oy: nat, ox: nat, ocBase: nat, o: nat) returns (r: Int8)
      requires Shape(l) && rq == l.requant && o < ocPar && bias == l.bias(ocBase + o)
      requires PartialIs(partial, Sums(x, l, oy, ox, ocBase, l.side, 0, 0))
      ensures r == HwConvOut(Pad(x, size, size), l)(oy, ox, ocBase + o)
    {
      hide Wrap32, Reduce8, Accumulator, RequantRelu, Sums;
      var v: seq<Int32> := [partial[o, 0], partial[o, 1], partial[o, 2], partial[o, 3],
                            partial[o, 4], partial[o, 5], partial[o, 6], partial[o, 7]];
      var acc := Add32(bias, Reduce8(v));
      LanesToAccumulator(v, x, l, oy, ox, ocBase, o);
      r := RequantRelu(acc, rq);
    }

    /** Stores one block of output channels. */
    method WriteBlock(partial: array2<Int32>, b: array<Int32>, rq: Requant, ghost x: Tensor, ghost l: Layer,
                      oy: nat, ox: nat, ocBase: nat)
      requires Valid() && Shape(l) && HoldsBias(b, outCh, l.bias) && rq == l.requant
      requires oy < size && ox < size && ocBase + ocPar <= outCh
      requires PartialIs(partial, Sums(x, l, oy, ox, ocBase, l.side, 0, 0))
      modifies rowBuf
      ensures forall r, c, oc :: 0 <= r < 2 && 0 <= c < size && 0 <= oc < outCh ==>
        rowBuf[r, c, oc] == if r == oy % 2 && c == ox && ocBase <= oc < ocBase + ocPar
                            then HwConvOut(Pad(x, size, size), l)(oy, ox, oc) else old(rowBuf[r, c, oc])
    {
      hide HwConvOut, PartialIs, Sums;
      for o := 0 to ocPar
        invariant forall r, c, oc :: 0 <= r < 2 && 0 <= c < size && 0 <= oc < outCh ==>
          rowBuf[r, c, oc] == if r == oy % 2 && c == ox && ocBase <= oc < ocBase + o
                              then HwConvOut(Pad(x, size, size), l)(oy, ox, oc) else old(rowBuf[r, c, oc])
      {
        var pixel := PixelOut(partial, b[ocBase + o], rq, x, l, oy, ox, ocBase, o);
        rowBuf[oy % 2, ox, ocBase + o] := pixel;
      }
    }

    /** Pixels before `ox`, and channels before `oc` of pixel `ox`, of the current row are final. */
    ghost predicate RowDone(x: Tensor, l: Layer, oy: nat, ox: nat, oc: nat)
      requires Valid()
      reads rowBuf
    {
      forall c, ch :: 0 <= c < size && 0 <= ch < outCh && (c < ox || (c == ox && ch < oc)) ==>
        rowBuf[oy % 2, c, ch] == HwConvOut(Pad(x, size, size), l)(oy, c, ch)
    }

    /** One output row, into the buffer row of its parity. */
    method ConvRow(ifmap: array3<Int8>, b: array<Int32>, rq: Requant, ghost x: Tensor, ghost l: Layer, oy: nat)
      requires Valid() && Shape(l) && ifmap != rowBuf
      requires Holds(ifmap, size, size, inCh, x) && HoldsWpack(wLocal, outCh, inCh, l.kernel)
      requires HoldsBias(b, outCh, l.bias) && rq == l.requant && oy < size
      modifies rowBuf
      ensures forall r, c, oc :: 0 <= r < 2 && 0 <= c < size && 0 <= oc < outCh ==>
        rowBuf[r, c, oc] == if r == oy % 2 then HwConvOut(Pad(x, size, size), l)(oy, c, oc) else old(rowBuf[r, c, oc])
    {
      for ox := 0 to size
        invariant RowDone(x, l, oy, ox, 0)
        invariant forall r, c, ch :: 0 <= r < 2 && r != oy % 2 && 0 <= c < size && 0 <= ch < outCh ==>
          rowBuf[r, c, ch] == old(rowBuf[r, c, ch])
      {
        var ocBase := 0;
        ghost var block: nat := 0;
        while ocBase < outCh
          invariant block <= ocBlocks && ocBase == block * ocPar
          invariant RowDone(x, l, oy, ox, ocBase)
          invariant forall r, c, ch :: 0 <= r < 2 && r != oy % 2 && 0 <= c < size && 0 <= ch < outCh ==>
          rowBuf[r, c, ch] == old(rowBuf[r, c, ch])
          decreases ocBlocks - block
        {
          NextBlock(block, ocBlocks, ocPar);
          var partial := AccumulateBlock(ifmap, x, l, oy, ox, ocBase);
          WriteBlock(partial, b, rq, x, l, oy, ox, ocBase);
          ocBase := ocBase + ocPar;
          block := block + 1;
        }
      }
    }

    /** The whole fused stage: convolution rows streamed into the two-row buffer and pooled in
        pairs. The result is the stage on the padded input, whatever the buffers held. */
    method Run(ifmap: array3<Int8>, w: array4<Int8>, b: array<Int32>, rq: Requant, pooledOut: array3<Int8>,
               ghost x: Tensor, ghost l: Layer)
      requires Valid() && Shape(l) && rq == l.requant
      requires ifmap != rowBuf && ifmap != pooledOut && pooledOut != rowBuf && w != wLocal
      requires Holds(ifmap, size, size, inCh, x) && HoldsWpack(w, outCh, inCh, l.kernel) && HoldsBias(b, outCh, l.bias)
      requires pooledOut.Length0 == size / 2 && pooledOut.Length1 == size / 2 && pooledOut.Length2 == outCh
      modifies wLocal, rowBuf, pooledOut
      ensures Holds(pooledOut, size / 2, size / 2, outCh, HwStage(Pad(x, size, size), l))
    {
      hide HwConvOut, MaxPool;
      LoadWeights(w, l.kernel);
      ghost var t := HwConvOut(Pad(x, size, size), l);
      for oy := 0 to size
        invariant HoldsWpack(wLocal, outCh, inCh, l.kernel)
        invariant forall y, c, ch :: 0 <= y < oy / 2 && 0 <= c < size / 2 && 0 <= ch < outCh ==>
          pooledOut[y, c, ch] == MaxPool(t)(y, c, ch)
        invariant oy % 2 == 1 ==> forall c, ch :: 0 <= c < size && 0 <= ch < outCh ==>
          rowBuf[0, c, ch] == t(oy - 1, c, ch)
      {
        ConvRow(ifmap, b, rq, x, l, oy);
        if oy % 2 == 1 {
          PoolRow(rowBuf, pooledOut, oy / 2, t);
        }
      }
    }
  }

  const C0_OC_PAR := 2

  /** OIHW layout of conv0: [oc][ic][ky][kx]. */
  ghost predicate HoldsOihw(a: array4<Int8>, outCh: nat, k: Kernel)
    reads a
  {
    && a.Length0 == outCh && a.Length1 == 3 && a.Length2 == 3 && a.Length3 == 3
    && forall oc, ic, ky, kx :: 0 <= oc < outCh && 0 <= ic < 3 && 0 <= ky < 3 && 0 <= kx < 3
         ==> a[oc, ic, ky, kx] == k(oc, ic, ky, kx)
  }

  ghost predicate Window(a: array3<Int8>, f: (int, int, int) -> int)
    reads a
  {
    && a.Length0 == 3 && a.Length1 == 3 && a.Length2 == 3
    && forall ky, kx, ic :: 0 <= ky < 3 && 0 <= kx < 3 && 0 <= ic < 3 ==> a[ky, kx, ic] == f(ky, kx, ic)
  }

  function PixelWindow(x: Tensor, y: int, c: int): (int, int, int) -> int
  {
    (ky, kx, ic) => x(y + ky, c + kx, ic)
  }

  function KernelWindow(k: Kernel, oc: int): (int, int, int) -> int
  {
    (ky, kx, ic) => k(oc, ic, ky, kx)
  }

  /** `dot27`: 27 independent products at flat index (ky * 3 + kx) * 3 + ic, then the adder tree. */
  method Dot27(px: array3<Int8>, wr: array3<Int8>, ghost x: Tensor, ghost k: Kernel, ghost y: int, ghost c: int,
               ghost oc: int)
    returns (r: Int32)
    requires Window(px, PixelWindow(x, y, c))
    requires Window(wr, KernelWindow(k, oc))
    ensures r == Wrap32(Sum(27, FlatTap(x, k, y, c, oc)))
  {
    hide FlatTap;
    var p := new Int32[27];
    ghost var f := FlatTap(x, k, y, c, oc);
    for ky := 0 to 3
      invariant forall j :: 0 <= j < ky * 9 ==> p[j] == f(j)
    {
      for kx := 0 to 3
        invariant forall j :: 0 <= j < ky * 9 + kx * 3 ==> p[j] == f(j)
      {
        for ic := 0 to 3
          invariant forall j :: 0 <= j < ky * 9 + (kx * 3 + ic) ==> p[j] == f(j)
        {
          var idx := (ky * 3 + kx) * 3 + ic;
          FlatTapAt(x, k, y, c, oc, ky, kx, ic);
          p[idx] := Product(px[ky, kx, ic], wr[ky, kx, ic]);
        }
      }
    }
    r := Reduce27(p, f);
  }

  function Product(a: Int8, w: Int8): (r: Int32)
    ensures r == a * w
  {
    SignedBounds(a, w);
    var r: int := (a as int) * w;
    r
  }

  /** `conv0_pool0_fused`: the pre-padded input and the weights are copied on chip, two output
      channels are computed per pass with the full 27-tap window, and row pairs are pooled. */
  class Conv0Pool0 {
    const size: nat
    const ocBlocks: nat
    const outCh: nat := ocBlocks * C0_OC_PAR
    const ifmapLocal: array3<Int8>
    const wLocal: array4<Int8>
    const rowBuf: array3<Int8>

    ghost predicate Valid()
    {
      && size % 2 == 0
      && ifmapLocal.Length0 == size + 2 && ifmapLocal.Length1 == size + 2 && ifmapLocal.Length2 == 3
      && wLocal.Length0 == outCh && wLocal.Length1 == 3 && wLocal.Length2 == 3 && wLocal.Length3 == 3
      && rowBuf.Length0 == 2 && rowBuf.Length1 == size && rowBuf.Length2 == outCh
      && ifmapLocal != rowBuf
    }

    constructor (size: nat, ocBlocks: nat)
      requires size % 2 == 0
      ensures Valid() && fresh(ifmapLocal) && fresh(wLocal) && fresh(rowBuf)
      ensures this.size == size && this.ocBlocks == ocBlocks
    {
      this.size, this.ocBlocks := size, ocBlocks;
      ifmapLocal := new Int8[size + 2, size + 2, 3];
      wLocal := new Int8[ocBlocks * C0_OC_PAR, 3, 3, 3];
      rowBuf := new Int8[2, size, ocBlocks * C0_OC_PAR];
    }

    /** A 3x3 kernel over three channels; bounded for the same reason as in the other engine. */
    ghost predicate Shape(l: Layer)
    {
      2 < l.side < 4 && 2 < l.cin < 4
    }

    ghost predicate Loaded(x: Tensor, l: Layer)
      reads ifmapLocal, wLocal
    {
      Holds(ifmapLocal, size + 2, size + 2, 3, x) && HoldsOihw(wLocal, outCh, l.kernel)
    }

    method Load(ifmap: array3<Int8>, w: array4<Int8>, ghost x: Tensor, ghost l: Layer)
      requires Valid() && ifmap != ifmapLocal && w != wLocal
      requires Holds(ifmap, size + 2, size + 2, 3, x) && HoldsOihw(w, outCh, l.kernel)
      modifies ifmapLocal, wLocal
      ensures Loaded(x, l)
    {
      forall y, c, ch | 0 <= y < size + 2 && 0 <= c < size + 2 && 0 <= ch < 3 {
        ifmapLocal[y, c, ch] := ifmap[y, c, ch];
      }
      forall oc, ic, ky, kx | 0 <= oc < outCh && 0 <= ic < 3 && 0 <= ky < 3 && 0 <= kx < 3 {
        wLocal[oc, ic, ky, kx] := w[oc, ic, ky, kx];
      }
    }

    /** One output channel of one pixel. */
    method PixelOut(px: array3<Int8>, bias: Int32, rq: Requant, ghost x: Tensor, ghost l: Layer,
                    oy: nat, ox: nat, oc: nat) returns (r: Int8)
      requires Valid() && Shape(l) && Loaded(x, l) && rq == l.requant && oc < outCh && bias == l.bias(oc)
      requires Window(px, PixelWindow(x, oy, ox))
      ensures r == HwConvOut(x, l)(oy, ox, oc)
    {
      hide Wrap32, FlatTap, RequantRelu, Dot, PixelWindow, KernelWindow;
      var wr := LoadKernel(x, l, oc);
      var dot := Dot27(px, wr, x, l.kernel, oy, ox, oc);
      DotToAccumulator(bias, dot, x, l, oy, ox, oc);
      r := RequantRelu(Add32(bias, dot), rq);
    }

    lemma DotToAccumulator(bias: int, dot: Int32, x: Tensor, l: Layer, oy: nat, ox: nat, oc: nat)
      requires Shape(l) && bias == l.bias(oc)
      requires dot == Wrap32(Sum(27, FlatTap(x, l.kernel, oy, ox, oc)))
      ensures Add32(bias, dot) == Wrap32(Accumulator(x, l, oy, ox, oc))
    {
      hide Wrap32, FlatTap, Dot, Sum;
      FlatIsDot(x, l.kernel, l.side, 9, 27, oy, ox, oc);
      WrapAdd(l.bias(oc), Dot(x, l.kernel, l.side, l.cin, oy, ox, oc));
    }

    method LoadKernel(ghost x: Tensor, ghost l: Layer, oc: nat) returns (wr: array3<Int8>)
      requires Valid() && Loaded(x, l) && oc < outCh
      ensures fresh(wr) && Window(wr, KernelWindow(l.kernel, oc))
    {
      wr := new Int8[3, 3, 3];
      forall ky, kx, ic | 0 <= ky < 3 && 0 <= kx < 3 && 0 <= ic < 3 {
        wr[ky, kx, ic] := wLocal[oc, ic, ky, kx];
      }
    }

    method LoadWindow(ghost x: Tensor, ghost l: Layer, oy: nat, ox: nat) returns (px: array3<Int8>)
      requires Valid() && Loaded(x, l) && oy < size && ox < size
      ensures fresh(px) && Window(px, PixelWindow(x, oy, ox))
    {
      px := new Int8[3, 3, 3];
      forall ky, kx, ic | 0 <= ky < 3 && 0 <= kx < 3 && 0 <= ic < 3 {
        px[ky, kx, ic] := ifmapLocal[oy + ky, ox + kx, ic];
      }
    }

    ghost predicate RowDone(t: Tensor, oy: nat, ox: nat, oc: nat)
      requires Valid()
      reads rowBuf
    {
      forall c, ch :: 0 <= c < size && 0 <= ch < outCh && (c < ox || (c == ox && ch < oc)) ==>
        rowBuf[oy % 2, c, ch] == t(oy, c, ch)
    }

    /** The next output channel of the current pixel. */
    method WritePixel(px: array3<Int8>, b: array<Int32>, rq: Requant, ghost x: Tensor, ghost l: Layer, oy: nat,
                      ox: nat, oc: nat)
      requires Valid() && Shape(l) && Loaded(x, l) && HoldsBias(b, outCh, l.bias) && rq == l.requant
      requires px != rowBuf && Window(px, PixelWindow(x, oy, ox)) && ox < size && oc < outCh
      requires RowDone(HwConvOut(x, l), oy, ox, oc)
      modifies rowBuf
      ensures RowDone(HwConvOut(x, l), oy, ox, oc + 1)
      ensures forall r, c, ch :: 0 <= r < 2 && r != oy % 2 && 0 <= c < size && 0 <= ch < outCh ==>
        rowBuf[r, c, ch] == old(rowBuf[r, c, ch])
    {
      hide HwConvOut, PixelWindow, Loaded;
      var pixel := PixelOut(px, b[oc], rq, x, l, oy, ox, oc);
      rowBuf[oy % 2, ox, oc] := pixel;
    }

    method ConvRow(b: array<Int32>, rq: Requant, ghost x: Tensor, ghost l: Layer, oy: nat)
      requires Valid() && Shape(l) && Loaded(x, l) && HoldsBias(b, outCh, l.bias) && rq == l.requant && oy < size
      modifies rowBuf
      ensures forall r, c, oc :: 0 <= r < 2 && 0 <= c < size && 0 <= oc < outCh ==>
        rowBuf[r, c, oc] == if r == oy % 2 then HwConvOut(x, l)(oy, c, oc) else old(rowBuf[r, c, oc])
    {
      hide HwConvOut, PixelWindow, Loaded;
      ghost var t := HwConvOut(x, l);
      for ox := 0 to size
        invariant RowDone(t, oy, ox, 0)
        invariant forall r, c, ch :: 0 <= r < 2 && r != oy % 2 && 0 <= c < size && 0 <= ch < outCh ==>
          rowBuf[r, c, ch] == old(rowBuf[r, c, ch])
      {
        for block := 0 to ocBlocks
          invariant RowDone(t, oy, ox, block * C0_OC_PAR)
          invariant forall r, c, ch :: 0 <= r < 2 && r != oy % 2 && 0 <= c < size && 0 <= ch < outCh ==>
            rowBuf[r, c, ch] == old(rowBuf[r, c, ch])
        {
          var px := LoadWindow(x, l, oy, ox);
          for lane := 0 to C0_OC_PAR
            invariant RowDone(t, oy, ox, block * C0_OC_PAR + lane) && Window(px, PixelWindow(x, oy, ox))
            invariant forall r, c, ch :: 0 <= r < 2 && r != oy % 2 && 0 <= c < size && 0 <= ch < outCh ==>
              rowBuf[r, c, ch] == old(rowBuf[r, c, ch])
          {
            WritePixel(px, b, rq, x, l, oy, ox, block * C0_OC_PAR + lane);
          }
        }
      }
    }

    method Run(ifmap: array3<Int8>, w: array4<Int8>, b: array<Int32>, rq: Requant, pooledOut: array3<Int8>,
               ghost x: Tensor, ghost l: Layer)
      requires Valid() && Shape(l) && rq == l.requant
      requires ifmap != ifmapLocal && ifmap != rowBuf && ifmap != pooledOut && w != wLocal
      requires pooledOut != ifmapLocal && pooledOut != rowBuf
      requires Holds(ifmap, size + 2, size + 2, 3, x) && HoldsOihw(w, outCh, l.kernel) && HoldsBias(b, outCh, l.bias)
      requires pooledOut.Length0 == size / 2 && pooledOut.Length1 == size / 2 && pooledOut.Length2 == outCh
      modifies ifmapLocal, wLocal, rowBuf, pooledOut
      ensures Holds(pooledOut, size / 2, size / 2, outCh, HwStage(x, l))
    {
      hide HwConvOut, MaxPool;
      Load(ifmap, w, x, l);
      ghost var t := HwConvOut(x, l);
      for oy := 0 to size
        invariant Loaded(x, l)
        invariant forall y, c, ch :: 0 <= y < oy / 2 && 0 <= c < size / 2 && 0 <= ch < outCh ==>
          pooledOut[y, c, ch] == MaxPool(t)(y, c, ch)
        invariant oy % 2 == 1 ==> forall c, ch :: 0 <= c < size && 0 <= ch < outCh ==>
          rowBuf[0, c, ch] == t(oy - 1, c, ch)
      {
        ConvRow(b, rq, x, l, oy);
        if oy % 2 == 1 {
          PoolRow(rowBuf, pooledOut, oy / 2, t);
        }
      }
    }
  }

  lemma NextBlock(block: nat, blocks: nat, size: nat)
    requires block * size < blocks * size
    ensures block < blocks && block * size + size <= blocks * size && (block + 1) * size == block * size + size
  {
    if block >= blocks { MulMono(blocks, block, size); }
    MulMono(block + 1, blocks, size);
  }
}
