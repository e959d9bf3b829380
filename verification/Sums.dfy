/**
 Finite sums of reals.  The kernels reduce over blocks, slices and split-K shares in different
 orders; the lemmas here are the re-orderings they rely on.
 */
module Sums {

  /** f(0) + ... + f(n-1). */
  function Sum(n: nat, f: int -> real): real {
    if n == 0 then 0.0 else Sum(n - 1, f) + f(n - 1)
  }

  /** A product whose factors the callers need not look into. */
  function Times(a: real, b: real): real { a * b }

  lemma {:induction false} SumExt(n: nat, f: int -> real, g: int -> real)
    requires forall i :: 0 <= i < n ==> f(i) == g(i)
    ensures Sum(n, f) == Sum(n, g)
  {
    if n > 0 { SumExt(n - 1, f, g); }
  }

  lemma {:induction false} SumAdd(n: nat, f: int -> real, g: int -> real, h: int -> real)
    requires forall i :: 0 <= i < n ==> h(i) == f(i) + g(i)
    ensures Sum(n, h) == Sum(n, f) + Sum(n, g)
  {
    if n > 0 { SumAdd(n - 1, f, g, h); }
  }

  lemma {:induction false} SumScale(n: nat, c: real, f: int -> real, h: int -> real)
    requires forall i :: 0 <= i < n ==> h(i) == Times(c, f(i))
    ensures Sum(n, h) == Times(c, Sum(n, f))
  {
    if n > 0 { SumScale(n - 1, c, f, h); }
  }

  /** A sum whose terms from k on are zero stops at k. */
  lemma {:induction false} SumTail(k: nat, n: nat, f: int -> real)
    requires k <= n
    requires forall i :: k <= i < n ==> f(i) == 0.0
    ensures Sum(n, f) == Sum(k, f)
  {
    if k < n { SumTail(k, n - 1, f); }
  }

  lemma {:induction false} SumSplit(a: nat, b: nat, f: int -> real, g: int -> real)
    requires forall i :: 0 <= i < b ==> g(i) == f(a + i)
    ensures Sum(a + b, f) == Sum(a, f) + Sum(b, g)
  {
    if b > 0 { SumSplit(a, b - 1, f, g); }
  }

  /** A sum over nb blocks of bs terms is the sum of the block sums. */
  lemma {:induction false} SumBlocks(nb: nat, bs: nat, f: int -> real, blk: int -> real)
    requires forall b :: 0 <= b < nb ==> blk(b) == Sum(bs, i => f(b * bs + i))
    ensures Sum(nb * bs, f) == Sum(nb, blk)
  {
    if nb > 0 {
      SumBlocks(nb - 1, bs, f, blk);
      OneMore(nb - 1, bs);
      SumSplitAt((nb - 1) * bs, bs, f, blk(nb - 1));
    }
  }

  lemma SumSplitAt(m: nat, n: nat, f: int -> real, rest: real)
    requires rest == Sum(n, i => f(m + i))
    ensures Sum(m + n, f) == Sum(m, f) + rest
  {
    SumSplit(m, n, f, i => f(m + i));
  }

  lemma OneMore(n: nat, bs: nat)
    ensures (n + 1) * bs == n * bs + bs
  {
  }

  /** Order of summation does not matter. */
  lemma {:induction false} SumSwap(n: nat, m: nat, f: (int, int) -> real, row: int -> real, col: int -> real)
    requires forall i :: 0 <= i < n ==> row(i) == Sum(m, j => f(i, j))
    requires forall j :: 0 <= j < m ==> col(j) == Sum(n, i => f(i, j))
    ensures Sum(n, row) == Sum(m, col)
  {
    if n == 0 {
      SumTail(0, m, col);
    } else {
      var col' := (j: int) => Sum(n - 1, i => f(i, j));
      SumSwap(n - 1, m, f, row, col');
      var last := (j: int) => f(n - 1, j);
      forall j | 0 <= j < m ensures col(j) == col'(j) + last(j) {
        SumPeel(n, i => f(i, j), i => f(i, j));
      }
      SumAdd(m, col', last, col);
      SumExt(m, last, j => f(n - 1, j));
    }
  }

  lemma SumPeel(n: nat, f: int -> real, g: int -> real)
    requires n > 0
    requires forall i :: 0 <= i < n ==> f(i) == g(i)
    ensures Sum(n, f) == Sum(n - 1, g) + g(n - 1)
  {
    SumExt(n - 1, f, g);
  }

  /** Changing one term moves the sum by the change of that term. */
  lemma {:induction false} SumUpdate(n: nat, f: int -> real, g: int -> real, k: nat)
    requires k < n
    requires forall i :: 0 <= i < n && i != k ==> g(i) == f(i)
    ensures Sum(n, g) == Sum(n, f) - f(k) + g(k)
  {
    if k == n - 1 {
      SumExt(n - 1, f, g);
    } else {
      SumUpdate(n - 1, f, g, k);
    }
  }
}
