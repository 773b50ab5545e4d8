/** The processing-system side of one classification: quantise and pre-pad the ROI, run the
    accelerator over flat DDR buffers, sum per channel, fully connected layer, argmax. */
module PsPipeline {
  import opened FixedWidth
  import opened Sums
  import opened Golden
  import opened Engine
  import opened Refinement
  import opened Accelerator
  import opened RoiProtocol

  const ROI_SIDE := 96
  const PL_SIDE := 98
  const GAP_SIDE := 12
  const CHANNELS := 64

  /** NHWC offset of (y, c, ch) in a map of width `w` with `n` channels. */
  function Offset(y: int, c: int, ch: int, w: int, n: int): int
  {
    (y * w + c) * n + ch
  }

  lemma OffsetBounds(y: int, c: int, ch: int, h: int, w: int, n: int)
    requires 0 <= y < h && 0 <= c < w && 0 <= ch < n
    ensures 0 <= Offset(y, c, ch, w, n) < h * w * n
  {
    MulMono(0, y, w);
    MulMono(y + 1, h, w);
    MulMono(0, y * w + c, n);
    MulMono(y * w + c + 1, h * w, n);
  }

  /** Distinct positions have distinct offsets. */
  lemma OffsetInjective(y: int, c: int, ch: int, y': int, c': int, ch': int, w: int, n: int)
    requires 0 <= c < w && 0 <= c' < w && 0 <= ch < n && 0 <= ch' < n
    requires Offset(y, c, ch, w, n) == Offset(y', c', ch', w, n)
    ensures y == y' && c == c' && ch == ch'
  {
    RadixUnique(y * w + c, ch, y' * w + c', ch', n);
    RadixUnique(y, c, y', c', w);
  }

  lemma RadixUnique(a: int, r: int, a': int, r': int, n: int)
    requires 0 <= r < n && 0 <= r' < n && a * n + r == a' * n + r'
    ensures a == a' && r == r'
  {
    if a < a' { MulMono(a + 1, a', n); }
    if a' < a { MulMono(a' + 1, a, n); }
  }

  ghost predicate FlatHolds(s: seq<Int8>, h: nat, w: nat, n: nat, t: Tensor)
  {
    && |s| == h * w * n
    && forall y, c, ch :: 0 <= y < h && 0 <= c < w && 0 <= ch < n ==>
         (OffsetBounds(y, c, ch, h, w, n); s[Offset(y, c, ch, w, n)] == t(y, c, ch))
  }

  /** The element at index `i` of a flat buffer. */
  function Cell(s: seq<int>, i: int): int { if 0 <= i < |s| then s[i] else 0 }

  /** Byte `ch` of the pixel at (y, c) of a 96 x 96 RGB picture. */
  function Sample(image: seq<Byte>, y: int, c: int, ch: int): int { Cell(image, (y * 96 + c) * 3 + ch) }

  /** Level `ch` at (y, c) of the 98 x 98 map that goes to the accelerator. */
  function StoredLevel(s: seq<Int8>, y: int, c: int, ch: int): int { Cell(s, (y * 98 + c) * 3 + ch) }

  /** `q` is p * 127 / 255 rounded to the nearest integer; there are no ties. */
  predicate NearestLevel(q: int, p: int) { -255 < 2 * (127 * p - 255 * q) < 255 }

  /** The buffer holds the picture in levels from 0 to 127, one pixel in, and zeros around it. */
  ghost predicate HoldsPicture(s: seq<Int8>, image: seq<Byte>)
  {
    forall y, c, ch :: 0 <= y < 98 && 0 <= c < 98 && 0 <= ch < 3 ==>
      if 1 <= y <= 96 && 1 <= c <= 96 then NearestLevel(StoredLevel(s, y, c, ch), Sample(image, y - 1, c - 1, ch))
      else StoredLevel(s, y, c, ch) == 0
  }

  /** `adas_roi_quantize_pixel`. */
  function QuantizePixel(p: Byte): (q: Int8)
    ensures 0 <= q <= 127
  {
    (p * 127 + 127) / 255
  }

  /** The integer rounding used on the board is the golden model's
      `round_half_away_from_zero(p * 127 / 255)`. */
  lemma QuantizeIsRounding(p: Byte)
    ensures QuantizePixel(p) == ((p as real) * 127.0 / 255.0 + 0.5).Floor
    ensures QuantizePixel(p) == 0 <==> p < 2
  {
    var q := QuantizePixel(p);
    var v: int := p * 127 + 127;
    assert v == 255 * q + v % 255;
    var x := (p as real) * 127.0 / 255.0 + 0.5;
    assert x * 255.0 == (v as real) + 0.5;
    assert (255 * q) as real <= v as real;
    assert v + 1 <= 255 * (q + 1);
    assert (v + 1) as real <= (255 * (q + 1)) as real;
  }

  /** The quantised ROI as a tensor. */
  function Quantized(image: seq<Byte>): Tensor
    requires |image| == IMAGE_SIZE
  {
    (y, c, ch) => if 0 <= y < ROI_SIDE && 0 <= c < ROI_SIDE && 0 <= ch < 3
                  then (OffsetBounds(y, c, ch, ROI_SIDE, ROI_SIDE, 3);
                        QuantizePixel(image[Offset(y, c, ch, ROI_SIDE, 3)]))
                  else 0
  }

  lemma QuantizedLevel(image: seq<Byte>, y: int, c: int, ch: int)
    requires |image| == IMAGE_SIZE && 0 <= y < 96 && 0 <= c < 96 && 0 <= ch < 3
    ensures NearestLevel(Quantized(image)(y, c, ch), Sample(image, y, c, ch))
  {
    OffsetBounds(y, c, ch, ROI_SIDE, ROI_SIDE, 3);
    var p: int := image[Offset(y, c, ch, ROI_SIDE, 3)];
    assert Sample(image, y, c, ch) == p;
    assert Quantized(image)(y, c, ch) == (p * 127 + 127) / 255;
  }

  lemma PaddedIsPicture(s: seq<Int8>, image: seq<Byte>)
    requires |image| == IMAGE_SIZE && FlatHolds(s, PL_SIDE, PL_SIDE, 3, Pad(Quantized(image), ROI_SIDE, ROI_SIDE))
    ensures HoldsPicture(s, image)
  {
    hide NearestLevel, Quantized, Sample;
    forall y, c, ch | 0 <= y < 98 && 0 <= c < 98 && 0 <= ch < 3
      ensures if 1 <= y <= 96 && 1 <= c <= 96 then
                NearestLevel(StoredLevel(s, y, c, ch), Sample(image, y - 1, c - 1, ch))
              else StoredLevel(s, y, c, ch) == 0
    {
      OffsetBounds(y, c, ch, PL_SIDE, PL_SIDE, 3);
      assert s[Offset(y, c, ch, PL_SIDE, 3)] == Pad(Quantized(image), ROI_SIDE, ROI_SIDE)(y, c, ch);
      if 1 <= y <= 96 && 1 <= c <= 96 { QuantizedLevel(image, y - 1, c - 1, ch); }
    }
  }

  /** Writing one element of a flat map changes that position only. */
  lemma FlatUpdate(s: seq<Int8>, h: nat, w: nat, n: nat, t: Tensor, u: Tensor, y: int, c: int, ch: int, v: Int8)
    requires FlatHolds(s, h, w, n, t) && 0 <= y < h && 0 <= c < w && 0 <= ch < n && u(y, c, ch) == v
    requires forall y', c', ch' :: 0 <= y' < h && 0 <= c' < w && 0 <= ch' < n && !(y' == y && c' == c && ch' == ch) ==>
      u(y', c', ch') == t(y', c', ch')
    requires 0 <= Offset(y, c, ch, w, n) < |s|
    ensures FlatHolds(s[Offset(y, c, ch, w, n) := v], h, w, n, u)
  {
    hide Offset;
    forall y', c', ch' | 0 <= y' < h && 0 <= c' < w && 0 <= ch' < n
      ensures (OffsetBounds(y', c', ch', h, w, n);
               s[Offset(y, c, ch, w, n) := v][Offset(y', c', ch', w, n)] == u(y', c', ch'))
    {
      OffsetBounds(y', c', ch', h, w, n);
      if Offset(y, c, ch, w, n) == Offset(y', c', ch', w, n) {
        OffsetInjective(y, c, ch, y', c', ch', w, n);
      }
    }
  }

  /** The padded map after the pixels before (y, c, ch) have been stored. */
  ghost function Filled(image: seq<Byte>, y: int, c: int, ch: int): Tensor
    requires |image| == IMAGE_SIZE
  {
    (r, k, h) => if r - 1 < y || (r - 1 == y && (k - 1 < c || (k - 1 == c && h < ch)))
                 then Pad(Quantized(image), ROI_SIDE, ROI_SIDE)(r, k, h) else 0
  }

  /** `adas_roi_preprocess`: clears the whole buffer, then stores the quantised pixels one
      border in. The result is the zero-padded quantised ROI. */
  method Preprocess(input: array<Byte>, output: array<Int8>)
    requires input.Length == IMAGE_SIZE && output.Length == PL_SIDE * PL_SIDE * 3
    modifies output
    ensures FlatHolds(output[..], PL_SIDE, PL_SIDE, 3, Pad(Quantized(input[..]), ROI_SIDE, ROI_SIDE))
    ensures HoldsPicture(output[..], input[..])
  {
    hide HoldsPicture;
    ghost var image := input[..];
    forall i | 0 <= i < output.Length { output[i] := 0; }
    Cleared(output[..], image);
    for y := 0 to ROI_SIDE
      invariant FlatHolds(output[..], PL_SIDE, PL_SIDE, 3, Filled(image, y, 0, 0))
    {
      for x := 0 to ROI_SIDE
        invariant FlatHolds(output[..], PL_SIDE, PL_SIDE, 3, Filled(image, y, x, 0))
      {
        for ch := 0 to 3
          invariant FlatHolds(output[..], PL_SIDE, PL_SIDE, 3, Filled(image, y, x, ch))
        {
          hide FlatHolds, Filled, Quantized;
          OffsetBounds(y, x, ch, ROI_SIDE, ROI_SIDE, 3);
          OffsetBounds(y + 1, x + 1, ch, PL_SIDE, PL_SIDE, 3);
          var inputIndex := (y * ROI_SIDE + x) * 3 + ch;
          var outputIndex := ((y + 1) * PL_SIDE + (x + 1)) * 3 + ch;
          var v := QuantizePixel(input[inputIndex]);
          StorePixel(output[..], image, y, x, ch, v);
          ghost var before := output[..];
          output[outputIndex] := v;
          assert output[..] == before[Offset(y + 1, x + 1, ch, PL_SIDE, 3) := v];
        }
        Carried(output[..], Filled(image, y, x, 3), Filled(image, y, x + 1, 0));
      }
      RowFilled(image, y);
      Carried(output[..], Filled(image, y, ROI_SIDE, 0), Filled(image, y + 1, 0, 0));
    }
    Carried(output[..], Filled(image, ROI_SIDE, 0, 0), Pad(Quantized(image), ROI_SIDE, ROI_SIDE));
    PaddedIsPicture(output[..], image);
    assert input[..] == image;
  }

  lemma FilledAt(image: seq<Byte>, y: int, c: int, ch: int, r: int, k: int, h: int)
    requires |image| == IMAGE_SIZE
    ensures Filled(image, y, c, ch)(r, k, h)
         == if (r - 1 < y || (r - 1 == y && (k - 1 < c || (k - 1 == c && h < ch)))) && 1 <= r <= ROI_SIDE
           && 1 <= k <= ROI_SIDE
            then Quantized(image)(r - 1, k - 1, h) else 0
  {
    assert Pad(Quantized(image), ROI_SIDE, ROI_SIDE)(r, k, h)
        == if 1 <= r <= ROI_SIDE && 1 <= k <= ROI_SIDE then Quantized(image)(r - 1, k - 1, h) else 0;
  }

  /** A finished row is the start of the next one: the border stays zero. */
  lemma RowFilled(image: seq<Byte>, y: int)
    requires |image| == IMAGE_SIZE && 0 <= y < ROI_SIDE
    ensures AgreeOn(Filled(image, y, ROI_SIDE, 0), Filled(image, y + 1, 0, 0), PL_SIDE, PL_SIDE, 3)
  {
    forall r, k, h | 0 <= r < PL_SIDE && 0 <= k < PL_SIDE && 0 <= h < 3
      ensures Filled(image, y, ROI_SIDE, 0)(r, k, h) == Filled(image, y + 1, 0, 0)(r, k, h)
    {
      FilledAt(image, y, ROI_SIDE, 0, r, k, h);
      FilledAt(image, y + 1, 0, 0, r, k, h);
    }
  }

  lemma Cleared(s: seq<Int8>, image: seq<Byte>)
    requires |s| == PL_SIDE * PL_SIDE * 3 && |image| == IMAGE_SIZE
    requires forall i :: 0 <= i < |s| ==> s[i] == 0
    ensures FlatHolds(s, PL_SIDE, PL_SIDE, 3, Filled(image, 0, 0, 0))
  {
    forall y, c, ch | 0 <= y < PL_SIDE && 0 <= c < PL_SIDE && 0 <= ch < 3
      ensures (OffsetBounds(y, c, ch, PL_SIDE, PL_SIDE, 3);
               s[Offset(y, c, ch, PL_SIDE, 3)] == Filled(image, 0, 0, 0)(y, c, ch))
    {
      OffsetBounds(y, c, ch, PL_SIDE, PL_SIDE, 3);
      FilledAt(image, 0, 0, 0, y, c, ch);
    }
  }

  lemma Carried(s: seq<Int8>, t: Tensor, u: Tensor)
    requires FlatHolds(s, PL_SIDE, PL_SIDE, 3, t) && AgreeOn(t, u, PL_SIDE, PL_SIDE, 3)
    ensures FlatHolds(s, PL_SIDE, PL_SIDE, 3, u)
  {
  }

  lemma StorePixel(s: seq<Int8>, image: seq<Byte>, y: int, x: int, ch: int, v: Int8)
    requires |image| == IMAGE_SIZE && FlatHolds(s, PL_SIDE, PL_SIDE, 3, Filled(image, y, x, ch))
    requires 0 <= y < ROI_SIDE && 0 <= x < ROI_SIDE && 0 <= ch < 3
    requires 0 <= (y * ROI_SIDE + x) * 3 + ch < IMAGE_SIZE && v == QuantizePixel(image[(y * ROI_SIDE + x) * 3 + ch])
    requires 0 <= Offset(y + 1, x + 1, ch, PL_SIDE, 3) < |s|
    ensures FlatHolds(s[Offset(y + 1, x + 1, ch, PL_SIDE, 3) := v], PL_SIDE, PL_SIDE, 3, Filled(image, y, x, ch + 1))
  {
    FilledAt(image, y, x, ch + 1, y + 1, x + 1, ch);
    assert Quantized(image)(y, x, ch) == v;
    FlatUpdate(s, PL_SIDE, PL_SIDE, 3, Filled(image, y, x, ch), Filled(image, y, x, ch + 1), y + 1, x + 1, ch, v);
  }
}
