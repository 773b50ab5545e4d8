/** How the accelerator's schedules split one golden dot product: eight input-channel lanes
    accumulated block by block (conv1, conv2), or 27 taps side by side (conv0). */
module Lanes {
  import opened FixedWidth
  import opened Sums
  import opened Golden
  import opened PackedMac

  /** The terms lane `lane` of `w` adds up for one kernel tap, one per channel block. */
  function BlockTerm(f: int -> int, w: int, lane: int): int -> int
  {
    b => f(b * w + lane)
  }

  function LaneColumns(x: Tensor, k: Kernel, w: nat, blocks: nat, y: int, c: int, oc: int, lane: int,
                       ky: int): int -> int
  {
    kx => Sum(blocks, BlockTerm(Tap(x, k, y, c, oc, ky, kx), w, lane))
  }

  function LaneRows(x: Tensor, k: Kernel, n: nat, w: nat, blocks: nat, y: int, c: int, oc: int, lane: int): int -> int
  {
    ky => Sum(n, LaneColumns(x, k, w, blocks, y, c, oc, lane, ky))
  }

  function LaneSum(x: Tensor, k: Kernel, n: nat, w: nat, blocks: nat, y: int, c: int, oc: int): int -> int
  {
    lane => Sum(n, LaneRows(x, k, n, w, blocks, y, c, oc, lane))
  }

  /** Row `r` of a flat matrix with rows of length `w`. */
  function FromRow(f: int -> int, w: int, r: int): int -> int { i => f(r * w + i) }

  lemma {:induction false} SumRows(n: nat, w: nat, f: int -> int, rows: int -> int)
    requires forall r :: 0 <= r < n ==> rows(r) == Sum(w, FromRow(f, w, r))
    ensures Sum(n * w, f) == Sum(n, rows)
  {
    hide FromRow;
    if n > 0 {
      SumRows(n - 1, w, f, rows);
      RowAppended(n, w, f, (n - 1) * w);
    }
  }

  lemma RowAppended(n: nat, w: nat, f: int -> int, before: nat)
    requires n > 0 && before == (n - 1) * w
    ensures Sum(n * w, f) == Sum(before, f) + Sum(w, FromRow(f, w, n - 1))
  {
    assert n * w == before + w;
    SumConcat(before, w, f, FromRow(f, w, n - 1));
  }

  lemma Interleaved(w: nat, blocks: nat, f: int -> int, lanes: int -> int)
    requires forall l :: 0 <= l < w ==> lanes(l) == Sum(blocks, BlockTerm(f, w, l))
    ensures Sum(w, lanes) == Sum(blocks * w, f)
  {
    hide Sum;
    var rows := r => Sum(w, FromRow(f, w, r));
    SumRows(blocks, w, f, rows);
    SumSwap(w, blocks, lanes, rows, l => BlockTerm(f, w, l), r => FromRow(f, w, r));
  }

  lemma LanesColumn(x: Tensor, k: Kernel, n: nat, w: nat, blocks: nat, y: int, c: int, oc: int, ky: int,
                    lanes: int -> int)
    requires forall l :: 0 <= l < w ==> lanes(l) == LaneRows(x, k, n, w, blocks, y, c, oc, l)(ky)
    ensures Sum(w, lanes) == Rows(x, k, n, blocks * w, y, c, oc)(ky)
  {
    var row := l => LaneColumns(x, k, w, blocks, y, c, oc, l, ky);
    var col := (kx: int) => (l: int) => LaneColumns(x, k, w, blocks, y, c, oc, l, ky)(kx);
    forall kx ensures Sum(w, col(kx)) == Columns(x, k, blocks * w, y, c, oc, ky)(kx) {
      Interleaved(w, blocks, Tap(x, k, y, c, oc, ky, kx), col(kx));
    }
    SumSwap(w, n, lanes, Columns(x, k, blocks * w, y, c, oc, ky), row, col);
  }

  /** The lanes together add up the golden dot product, for any lane and block count. */
  lemma LanesAreDot(x: Tensor, k: Kernel, n: nat, w: nat, blocks: nat, y: int, c: int, oc: int)
    ensures Sum(w, LaneSum(x, k, n, w, blocks, y, c, oc)) == Dot(x, k, n, blocks * w, y, c, oc)
  {
    var row := l => LaneRows(x, k, n, w, blocks, y, c, oc, l);
    var col := (ky: int) => (l: int) => LaneRows(x, k, n, w, blocks, y, c, oc, l)(ky);
    forall ky ensures Sum(w, col(ky)) == Rows(x, k, n, blocks * w, y, c, oc)(ky) {
      LanesColumn(x, k, n, w, blocks, y, c, oc, ky, col(ky));
    }
    SumSwap(w, n, LaneSum(x, k, n, w, blocks, y, c, oc), Rows(x, k, n, blocks * w, y, c, oc), row, col);
  }

  /** What lane `lane` has added up after `ky` kernel rows, then `kx` columns of the next row,
      then `b` channel blocks of the next column. */
  function Progress(x: Tensor, k: Kernel, n: nat, w: nat, blocks: nat, y: int, c: int, oc: int, lane: int,
                    ky: nat, kx: nat, b: nat): int
  {
    Sum(ky, LaneRows(x, k, n, w, blocks, y, c, oc, lane))
    + Sum(kx, LaneColumns(x, k, w, blocks, y, c, oc, lane, ky))
    + Sum(b, BlockTerm(Tap(x, k, y, c, oc, ky, kx), w, lane))
  }

  lemma ProgressBlock(x: Tensor, k: Kernel, n: nat, w: nat, blocks: nat, y: int, c: int, oc: int, lane: int,
                      ky: nat, kx: nat, b: nat)
    ensures Progress(x, k, n, w, blocks, y, c, oc, lane, ky, kx, b + 1)
         == Progress(x, k, n, w, blocks, y, c, oc, lane, ky, kx, b) + Tap(x, k, y, c, oc, ky, kx)(b * w + lane)
  {
  }

  lemma ProgressTap(x: Tensor, k: Kernel, n: nat, w: nat, blocks: nat, y: int, c: int, oc: int, lane: int,
                    ky: nat, kx: nat)
    ensures Progress(x, k, n, w, blocks, y, c, oc, lane, ky, kx + 1, 0)
         == Progress(x, k, n, w, blocks, y, c, oc, lane, ky, kx, blocks)
  {
  }

  lemma ProgressRow(x: Tensor, k: Kernel, n: nat, w: nat, blocks: nat, y: int, c: int, oc: int, lane: int, ky: nat)
    ensures Progress(x, k, n, w, blocks, y, c, oc, lane, ky + 1, 0, 0)
         == Progress(x, k, n, w, blocks, y, c, oc, lane, ky, n, 0)
  {
  }

  lemma ProgressDone(x: Tensor, k: Kernel, n: nat, w: nat, blocks: nat, y: int, c: int, oc: int, lane: int)
    ensures Progress(x, k, n, w, blocks, y, c, oc, lane, n, 0, 0) == LaneSum(x, k, n, w, blocks, y, c, oc)(lane)
  {
  }

  /** The product at flat index (ky * 3 + kx) * 3 + ic of the conv0 window. */
  function FlatTap(x: Tensor, k: Kernel, y: int, c: int, oc: int): int -> int
  {
    i => Tap(x, k, y, c, oc, i / 9, i / 3 % 3)(i % 3)
  }

  lemma FlatIndex(ky: int, kx: int, ic: int)
    requires 0 <= ky < 3 && 0 <= kx < 3 && 0 <= ic < 3
    ensures (ky * 9 + (kx * 3 + ic)) / 9 == ky
    ensures (ky * 9 + (kx * 3 + ic)) / 3 % 3 == kx
    ensures (ky * 9 + (kx * 3 + ic)) % 3 == ic
  {
  }

  lemma FlatTapAt(x: Tensor, k: Kernel, y: int, c: int, oc: int, ky: int, kx: int, ic: int)
    requires 0 <= ky < 3 && 0 <= kx < 3 && 0 <= ic < 3
    ensures FlatTap(x, k, y, c, oc)((ky * 3 + kx) * 3 + ic) == x(y + ky, c + kx, ic) * k(oc, ic, ky, kx)
  {
    FlatIndex(ky, kx, ic);
    var i := (ky * 3 + kx) * 3 + ic;
    assert i == ky * 9 + (kx * 3 + ic);
    assert FlatTap(x, k, y, c, oc)(i) == Tap(x, k, y, c, oc, i / 9, i / 3 % 3)(i % 3);
  }

  /** The 27 flat products of a 3 x 3 window with 3 channels add up the golden dot product. The
      sizes are passed as variables so that no sum is unrolled. */
  lemma FlatIsDot(x: Tensor, k: Kernel, n: nat, nine: nat, total: nat, y: int, c: int, oc: int)
    requires 2 < n < 4 && 8 < nine < 10 && 26 < total < 28
    ensures Sum(total, FlatTap(x, k, y, c, oc)) == Dot(x, k, n, n, y, c, oc)
  {
    hide FlatTap, Rows, FromRow, Sum;
    var f := FlatTap(x, k, y, c, oc);
    var rows := Rows(x, k, n, n, y, c, oc);
    forall ky | 0 <= ky < n ensures rows(ky) == Sum(nine, FromRow(f, nine, ky)) {
      NineShift(f, nine, ky);
      FlatRow(x, k, n, nine, y, c, oc, ky, FromRow(f, nine, ky));
    }
    SumRows(n, nine, f, rows);
    assert n * nine == total;
  }

  lemma NineShift(f: int -> int, nine: nat, r: int)
    requires 8 < nine < 10
    ensures Shifted(r * 9, nine, f, FromRow(f, nine, r))
  {
    assert nine == 9;
  }

  lemma FlatRow(x: Tensor, k: Kernel, n: nat, nine: nat, y: int, c: int, oc: int, ky: int, h: int -> int)
    requires 2 < n < 4 && 8 < nine < 10
    requires 0 <= ky < n
    requires Shifted(ky * 9, nine, FlatTap(x, k, y, c, oc), h)
    ensures Rows(x, k, n, n, y, c, oc)(ky) == Sum(nine, h)
  {
    var tap := kx => Tap(x, k, y, c, oc, ky, kx);
    forall kx | 0 <= kx < n
      ensures Columns(x, k, n, y, c, oc, ky)(kx) == Sum(n, tap(kx)) && Shifted(kx * 3, n, h, tap(kx))
    {
      FlatColumn(x, k, n, nine, y, c, oc, ky, kx, h);
    }
    SumBlocks(n, n, h, kx => kx * 3, Columns(x, k, n, y, c, oc, ky), tap);
  }

  lemma FlatColumn(x: Tensor, k: Kernel, n: nat, nine: nat, y: int, c: int, oc: int, ky: int, kx: int, h: int -> int)
    requires 2 < n < 4 && 8 < nine < 10
    requires 0 <= ky < n && 0 <= kx < n
    requires Shifted(ky * 9, nine, FlatTap(x, k, y, c, oc), h)
    ensures Shifted(kx * 3, n, h, Tap(x, k, y, c, oc, ky, kx))
  {
    forall i | 0 <= i < n ensures Tap(x, k, y, c, oc, ky, kx)(i) == h(kx * 3 + i) {
      FlatIndex(ky, kx, i);
      assert h(kx * 3 + i) == FlatTap(x, k, y, c, oc)(ky * 9 + (kx * 3 + i));
    }
  }
}
