/** Finite sums over an index range, the vocabulary of every dot product in the network. */
module Sums {
  function Sum(n: nat, f: int -> int): int
  {
    if n == 0 then 0 else Sum(n - 1, f) + f(n - 1)
  }

  lemma SumLast(n: nat, f: int -> int)
    requires n > 0
    ensures Sum(n, f) == Sum(n - 1, f) + f(n - 1)
  {
  }

  lemma {:induction false} SumExt(n: nat, f: int -> int, g: int -> int)
    requires forall i :: 0 <= i < n ==> f(i) == g(i)
    ensures Sum(n, f) == Sum(n, g)
  {
    if n > 0 { SumExt(n - 1, f, g); }
  }

  lemma {:induction false} SumAdd(n: nat, f: int -> int, g: int -> int, h: int -> int)
    requires forall i :: 0 <= i < n ==> h(i) == f(i) + g(i)
    ensures Sum(n, h) == Sum(n, f) + Sum(n, g)
  {
    if n > 0 { SumAdd(n - 1, f, g, h); }
  }

  lemma {:induction false} SumZero(n: nat, f: int -> int)
    requires forall i :: 0 <= i < n ==> f(i) == 0
    ensures Sum(n, f) == 0
  {
    if n > 0 { SumZero(n - 1, f); }
  }

  /** The first `m` values of `g` are those of `f` from `n` on. */
  ghost predicate Shifted(n: int, m: nat, f: int -> int, g: int -> int)
  {
    forall i :: 0 <= i < m ==> g(i) == f(n + i)
  }

  lemma {:induction false} SumConcat(n: nat, m: nat, f: int -> int, g: int -> int)
    requires Shifted(n, m, f, g)
    ensures Sum(n + m, f) == Sum(n, f) + Sum(m, g)
  {
    if m > 0 { SumConcat(n, m - 1, f, g); }
  }

  /** `sums` lists the sums of the first `m` terms of each of the first `n` functions. */
  ghost predicate SumsOf(n: int, m: nat, sums: int -> int, terms: int -> int -> int)
  {
    forall i :: 0 <= i < n ==> sums(i) == Sum(m, terms(i))
  }

  ghost predicate Transposed(n: nat, m: nat, row: int -> int -> int, col: int -> int -> int)
  {
    forall i, j :: 0 <= i < n && 0 <= j < m ==> row(i)(j) == col(j)(i)
  }

  /** A matrix of terms, by rows and by columns: the row sums add up to what the column
      sums add up to. */
  lemma {:induction false} SwapSums(n: nat, m: nat, rows: int -> int, cols: int -> int,
                                    row: int -> int -> int, col: int -> int -> int)
    requires SumsOf(n, m, rows, row) && SumsOf(m, n, cols, col) && Transposed(n, m, row, col)
    ensures Sum(n, rows) == Sum(m, cols)
  {
    if n == 0 {
      SumZero(m, cols);
    } else {
      var before := j => Sum(n - 1, col(j));
      LastRow(n, m, rows, cols, before, row, col);
      hide SumsOf, Transposed, Sum;
      SwapSums(n - 1, m, rows, before, row, col);
      SumAdd(m, before, row(n - 1), cols);
    }
  }

  lemma LastRow(n: nat, m: nat, rows: int -> int, cols: int -> int, before: int -> int,
                row: int -> int -> int, col: int -> int -> int)
    requires n > 0 && SumsOf(n, m, rows, row) && SumsOf(m, n, cols, col) && Transposed(n, m, row, col)
    requires SumsOf(m, n - 1, before, col)
    ensures SumsOf(n - 1, m, rows, row) && Transposed(n - 1, m, row, col)
    ensures Sum(n, rows) == Sum(n - 1, rows) + Sum(m, row(n - 1))
    ensures forall j :: 0 <= j < m ==> cols(j) == before(j) + row(n - 1)(j)
  {
    SumLast(n, rows);
    forall j | 0 <= j < m ensures cols(j) == before(j) + row(n - 1)(j) {
      SumLast(n, col(j));
    }
  }

  lemma SumSwap(n: nat, m: nat, rows: int -> int, cols: int -> int,
                row: int -> int -> int, col: int -> int -> int)
    requires forall i :: 0 <= i < n ==> rows(i) == Sum(m, row(i))
    requires forall j :: 0 <= j < m ==> cols(j) == Sum(n, col(j))
    requires forall i, j :: 0 <= i < n && 0 <= j < m ==> row(i)(j) == col(j)(i)
    ensures Sum(n, rows) == Sum(m, cols)
  {
    SwapSums(n, m, rows, cols, row, col);
  }

  /** Where the blocks of a long sum start: at 0, one after the other. */
  ghost predicate Stride(n: nat, size: nat, at: int -> int)
  {
    at(0) == 0 && forall b, b' :: 0 <= b < n && b' == b + 1 ==> at(b') == at(b) + size
  }

  lemma StrideStep(n: nat, size: nat, at: int -> int)
    requires n > 0 && Stride(n, size, at)
    ensures Stride(n - 1, size, at) && at(n) == at(n - 1) + size
  {
  }

  /** A long sum cut into consecutive blocks of the same size. */
  lemma {:induction false} SumBlocks(n: nat, size: nat, f: int -> int, at: int -> int, block: int -> int,
                                     term: int -> int -> int)
    requires Stride(n, size, at)
    requires forall b :: 0 <= b < n ==> block(b) == Sum(size, term(b)) && Shifted(at(b), size, f, term(b))
    ensures at(n) >= 0 && Sum(at(n), f) == Sum(n, block)
  {
    if n > 0 {
      StrideStep(n, size, at);
      SumLast(n, block);
      hide Stride, Shifted, Sum;
      SumBlocks(n - 1, size, f, at, block, term);
      SumConcat(at(n - 1), size, f, term(n - 1));
    }
  }
}
