/**
 The fused base + LoRA kernel, Y = X W^T + alpha (X A^T) B^T: what each split-K program computes, that the
 slices add up to the reference, and the launches that share one zeroed workspace.
 */
module FusedLora {
  import opened Arithmetic
  import opened Common
  import opened SplitKProtocol
  import opened Sums

  datatype Problem = Problem(M: nat, N: nat, K: nat, R: nat, x: seq<seq<real>>, w: seq<seq<real>>,
                             a: seq<seq<real>>, b: seq<seq<real>>, alpha: real) {
    ghost predicate Shaped() { IsMat(x, M, K) && IsMat(w, N, K) && IsMat(a, R, K) && IsMat(b, N, R) }

    /** The CPU reference, one cell: x W^T + alpha (x A^T) B^T on the rows themselves. */
    ghost function Ref(m: nat, n: nat): real
      requires Shaped() && m < M && n < N
    {
      Inner(x[m], w[n]) + alpha * Inner(seq(R, r requires 0 <= r < R => Inner(x[m], a[r])), b[n])
    }

    /** The same in masked sums. */
    ghost function SumRef(m: nat, n: nat): real {
      Sum(K, k => Term(x, w, K, m, n, k)) +
      Times(alpha, Sum(R, r => Times(Sum(K, k => Term(x, a, K, m, r, k)), Entry(b, n, r))))
    }
  }

  ghost function Inner(u: seq<real>, v: seq<real>): real
    requires |u| == |v|
  {
    if u == [] then 0.0 else Inner(u[..|u| - 1], v[..|v| - 1]) + u[|u| - 1] * v[|v| - 1]
  }

  /** The sum of the first n products. */
  lemma {:induction false} InnerUpTo(u: seq<real>, v: seq<real>, f: int -> real, n: nat)
    requires n <= |u| == |v| && forall k :: 0 <= k < n ==> f(k) == u[k] * v[k]
    ensures Sum(n, f) == Inner(u[..n], v[..n])
  {
    if n > 0 {
      InnerUpTo(u, v, f, n - 1);
      assert u[..n][..n - 1] == u[..n - 1] && v[..n][..n - 1] == v[..n - 1];
    }
  }

  lemma InnerIs(u: seq<real>, v: seq<real>, f: int -> real)
    requires |u| == |v| && forall k :: 0 <= k < |u| ==> f(k) == u[k] * v[k]
    ensures Sum(|u|, f) == Inner(u, v)
  {
    InnerUpTo(u, v, f, |u|);
    assert u[..|u|] == u && v[..|v|] == v;
  }

  /** The masked sums are the reference. */
  lemma RefIs(pr: Problem, m: nat, n: nat)
    requires pr.Shaped() && m < pr.M && n < pr.N
    ensures pr.SumRef(m, n) == pr.Ref(m, n)
  {
    hide Inner, Sum;
    TermsAre(pr.x, pr.w, pr.K, m, n);
    HiddenIs(pr, m, n);
    TimesIs(pr.alpha, Inner(seq(pr.R, r requires 0 <= r < pr.R => Inner(pr.x[m], pr.a[r])), pr.b[n]));
  }

  lemma TimesIs(u: real, v: real)
    ensures Times(u, v) == u * v
  {
  }

  lemma TermsAre(s: seq<seq<real>>, t: seq<seq<real>>, kdim: nat, i: nat, j: nat)
    requires i < |s| && j < |t| && |s[i]| == |t[j]| == kdim
    ensures Sum(kdim, k => Term(s, t, kdim, i, j, k)) == Inner(s[i], t[j])
  {
    hide Inner, Sum;
    InnerIs(s[i], t[j], k => Term(s, t, kdim, i, j, k));
  }

  lemma HiddenIs(pr: Problem, m: nat, n: nat)
    requires pr.Shaped() && m < pr.M && n < pr.N
    ensures Sum(pr.R, r => Times(Sum(pr.K, k => Term(pr.x, pr.a, pr.K, m, r, k)), Entry(pr.b, n, r))) ==
      Inner(seq(pr.R, r requires 0 <= r < pr.R => Inner(pr.x[m], pr.a[r])), pr.b[n])
  {
    hide Inner, Sum, Term;
    var h := seq(pr.R, r requires 0 <= r < pr.R => Inner(pr.x[m], pr.a[r]));
    var f := (r: int) => Times(Sum(pr.K, k => Term(pr.x, pr.a, pr.K, m, r, k)), Entry(pr.b, n, r));
    forall r | 0 <= r < pr.R ensures f(r) == h[r] * pr.b[n][r] {
      TermsAre(pr.x, pr.a, pr.K, m, r);
      TimesIs(h[r], pr.b[n][r]);
    }
    InnerIs(h, pr.b[n], f);
    SumExt(pr.R, f, r => Times(Sum(pr.K, k => Term(pr.x, pr.a, pr.K, m, r, k)), Entry(pr.b, n, r)));
  }

  ghost predicate IsMat(s: seq<seq<real>>, rows: nat, cols: nat) {
    |s| == rows && forall i :: 0 <= i < rows ==> |s[i]| == cols
  }

  /** A masked load: zero outside the matrix. */
  function Entry(s: seq<seq<real>>, i: int, j: int): real {
    if 0 <= i < |s| && 0 <= j < |s[i]| then s[i][j] else 0.0
  }

  lemma EntryIs(s: seq<seq<real>>, rows: nat, cols: nat, i: int, j: int)
    requires IsMat(s, rows, cols)
    ensures 0 <= i < rows && 0 <= j < cols ==> Entry(s, i, j) == s[i][j]
    ensures !(0 <= i < rows && 0 <= j < cols) ==> Entry(s, i, j) == 0.0
  {
  }

  /** One product of a row of s with a row of t, k masked by the true extent. */
  function Term(s: seq<seq<real>>, t: seq<seq<real>>, kdim: nat, i: int, j: int, k: int): real {
    if 0 <= k < kdim then Times(Entry(s, i, k), Entry(t, j, k)) else 0.0
  }

  datatype Config = Config(bm: nat, bn: nat, bk: nat, sk: nat) {
    predicate Valid() { bm > 0 && bn > 0 && bk > 0 && sk > 0 }

    /** The K range of a slice, in whole blocks. */
    function Chunk(kdim: nat): nat
      requires Valid()
    {
      CeilDiv(CeilDiv(kdim, sk), bk) * bk
    }
  }

  function SliceDot(s: seq<seq<real>>, t: seq<seq<real>>, kdim: nat, lo: int, len: nat, i: int, j: int): real {
    Sum(len, q => Term(s, t, kdim, i, j, lo + q))
  }

  /** What slice s contributes to the LoRA term of cell (m, n): its own H, expanded. */
  function LoraShare(pr: Problem, c: Config, s: int, m: int, n: int): real
    requires c.Valid()
  {
    Sum(pr.R, r => LoraTerm(pr, c, s, m, n, r))
  }

  function LoraTerm(pr: Problem, c: Config, s: int, m: int, n: int, r: int): real
    requires c.Valid()
  {
    Times(Times(SliceDot(pr.x, pr.a, pr.K, s * c.Chunk(pr.K), c.Chunk(pr.K), m, r), pr.alpha), Entry(pr.b, n, r))
  }

  /** What program (., s, .) contributes to cell (m, n): its share of the base product and of the LoRA term. */
  function SliceCell(pr: Problem, c: Config, s: int, m: int, n: int): real
    requires c.Valid()
  {
    SliceDot(pr.x, pr.w, pr.K, s * c.Chunk(pr.K), c.Chunk(pr.K), m, n) + LoraShare(pr, c, s, m, n)
  }

  lemma ChunksCover(kdim: nat, c: Config)
    requires c.Valid()
    ensures c.sk * c.Chunk(kdim) >= kdim
  {
    var per := CeilDiv(kdim, c.sk);
    CeilDivBounds(kdim, c.sk);
    CeilDivBounds(per, c.bk);
    TimesGrowsOrEqual(per, c.Chunk(kdim), c.sk);
  }

  /** The slices of one dot product add up to all of it. */
  lemma SlicesOfDot(s: seq<seq<real>>, t: seq<seq<real>>, kdim: nat, c: Config, i: int, j: int)
    requires c.Valid()
    ensures Sum(c.sk, z => SliceDot(s, t, kdim, z * c.Chunk(kdim), c.Chunk(kdim), i, j)) ==
      Sum(kdim, k => Term(s, t, kdim, i, j, k))
  {
    var kc := c.Chunk(kdim);
    var f := (k: int) => Term(s, t, kdim, i, j, k);
    var blk := (z: int) => SliceDot(s, t, kdim, z * kc, kc, i, j);
    forall z | 0 <= z < c.sk ensures blk(z) == Sum(kc, q => f(z * kc + q)) {
      SumExt(kc, q => Term(s, t, kdim, i, j, z * kc + q), q => f(z * kc + q));
    }
    SumBlocks(c.sk, kc, f, blk);
    ChunksCover(kdim, c);
    SumTail(kdim, c.sk * kc, f);
  }

  /** H enters linearly: over the slices, one rank's expansion is the expansion of the whole H. */
  lemma SlicesOfRank(pr: Problem, c: Config, m: int, n: int, r: int)
    requires c.Valid()
    ensures Sum(c.sk, z => LoraTerm(pr, c, z, m, n, r)) ==
      Times(pr.alpha, Times(Sum(pr.K, k => Term(pr.x, pr.a, pr.K, m, r, k)), Entry(pr.b, n, r)))
  {
    var h := (z: int) => SliceDot(pr.x, pr.a, pr.K, z * c.Chunk(pr.K), c.Chunk(pr.K), m, r);
    SlicesOfDot(pr.x, pr.a, pr.K, c, m, r);
    SumExt(c.sk, h, z => SliceDot(pr.x, pr.a, pr.K, z * c.Chunk(pr.K), c.Chunk(pr.K), m, r));
    var q := Times(pr.alpha, Entry(pr.b, n, r));
    forall z ensures LoraTerm(pr, c, z, m, n, r) == Times(q, h(z)) { Reorder(h(z), pr.alpha, Entry(pr.b, n, r)); }
    SumScale(c.sk, q, h, z => LoraTerm(pr, c, z, m, n, r));
    Reorder(Sum(c.sk, h), pr.alpha, Entry(pr.b, n, r));
  }

  lemma Reorder(h: real, alpha: real, b: real)
    ensures Times(Times(h, alpha), b) == Times(Times(alpha, b), h) == Times(alpha, Times(h, b))
  {
  }

  /** The slices' LoRA shares add up to the whole LoRA term. */
  lemma SlicesOfLora(pr: Problem, c: Config, m: int, n: int)
    requires c.Valid()
    ensures Sum(c.sk, z => LoraShare(pr, c, z, m, n)) ==
      Times(pr.alpha, Sum(pr.R, r => Times(Sum(pr.K, k => Term(pr.x, pr.a, pr.K, m, r, k)), Entry(pr.b, n, r))))
  {
    var f := (z: int, r: int) => LoraTerm(pr, c, z, m, n, r);
    var row := (z: int) => LoraShare(pr, c, z, m, n);
    var col := (r: int) => Sum(c.sk, z => LoraTerm(pr, c, z, m, n, r));
    forall z | 0 <= z < c.sk ensures row(z) == Sum(pr.R, r => f(z, r)) {
      SumExt(pr.R, r => LoraTerm(pr, c, z, m, n, r), r => f(z, r));
    }
    forall r | 0 <= r < pr.R ensures col(r) == Sum(c.sk, z => f(z, r)) {
      SumExt(c.sk, z => LoraTerm(pr, c, z, m, n, r), z => f(z, r));
    }
    SumSwap(c.sk, pr.R, f, row, col);
    var whole := (r: int) => Times(Sum(pr.K, k => Term(pr.x, pr.a, pr.K, m, r, k)), Entry(pr.b, n, r));
    forall r | 0 <= r < pr.R ensures col(r) == Times(pr.alpha, whole(r)) { SlicesOfRank(pr, c, m, n, r); }
    SumScale(pr.R, pr.alpha, whole, col);
  }

  /** All slices of a cell together give the reference. */
  lemma SlicesAddUp(pr: Problem, c: Config, m: nat, n: nat)
    requires c.Valid() && pr.Shaped() && m < pr.M && n < pr.N
    ensures Sum(c.sk, s => SliceCell(pr, c, s, m, n)) == pr.Ref(m, n)
  {
    var base := (z: int) => SliceDot(pr.x, pr.w, pr.K, z * c.Chunk(pr.K), c.Chunk(pr.K), m, n);
    var lora := (z: int) => LoraShare(pr, c, z, m, n);
    SlicesOfDot(pr.x, pr.w, pr.K, c, m, n);
    SlicesOfLora(pr, c, m, n);
    RefIs(pr, m, n);
    SumAdd(c.sk, base, lora, s => SliceCell(pr, c, s, m, n));
  }

  // ---- the program of one slice of one tile ---------------------------------------------------------------

  type Tile = (int, int) -> real

  /** The registers f hold the products of `len` columns from lo on, rows from m and columns from n of the result. */
  ghost predicate Holds(f: Tile, s: seq<seq<real>>, t: seq<seq<real>>, kdim: nat, lo: int, len: nat, m: int, n: int) {
    forall i, j :: f(i, j) == SliceDot(s, t, kdim, lo, len, m + i, n + j)
  }

  /** tl.dot(x, y, acc) on one masked block of K. */
  function DotBlock(f: Tile, s: seq<seq<real>>, t: seq<seq<real>>, kdim: nat, at: int, bk: nat, m: int, n: int): Tile {
    (i, j) => f(i, j) + SliceDot(s, t, kdim, at, bk, m + i, n + j)
  }

  lemma DotBlockHolds(f: Tile, s: seq<seq<real>>, t: seq<seq<real>>, kdim: nat, lo: int, len: nat, bk: nat, m: int,
                      n: int)
    requires Holds(f, s, t, kdim, lo, len, m, n)
    ensures Holds(DotBlock(f, s, t, kdim, lo + len, bk, m, n), s, t, kdim, lo, len + bk, m, n)
  {
    var g := DotBlock(f, s, t, kdim, lo + len, bk, m, n);
    forall i, j ensures g(i, j) == SliceDot(s, t, kdim, lo, len + bk, m + i, n + j) {
      SumSplit(len, bk, q => Term(s, t, kdim, m + i, n + j, lo + q), q => Term(s, t, kdim, m + i, n + j, lo + len + q));
    }
  }

  /** The LoRA expand of this slice, alpha folded into H. */
  function Expand(f: Tile, h: Tile, pr: Problem, n: int): Tile {
    (i, j) => f(i, j) + Sum(pr.R, r => Times(Times(h(i, r), pr.alpha), Entry(pr.b, n + j, r)))
  }

  /** K advances block by block, the pointers with it; the result is the slice's share of every cell of the tile. */
  method SliceTile(pr: Problem, c: Config, pidN: nat, pidS: nat, pidM: nat) returns (acc: Tile)
    requires c.Valid()
    ensures forall i, j :: acc(i, j) == SliceCell(pr, c, pidS, pidM * c.bm + i, pidN * c.bn + j)
  {
    var m, n := pidM * c.bm, pidN * c.bn;
    var blocks := CeilDiv(CeilDiv(pr.K, c.sk), c.bk);
    var chunk := blocks * c.bk;
    var lo := pidS * chunk;
    var h: Tile := (i, r) => 0.0;
    acc := (i, j) => 0.0;
    var k, at := 0, lo;
    ghost var q := 0;
    assert Holds(acc, pr.x, pr.w, pr.K, lo, 0, m, n) && Holds(h, pr.x, pr.a, pr.K, lo, 0, m, 0);
    while k < chunk
      invariant 0 <= q <= blocks && k == q * c.bk <= chunk && at == lo + k
      invariant Holds(acc, pr.x, pr.w, pr.K, lo, k, m, n) && Holds(h, pr.x, pr.a, pr.K, lo, k, m, 0)
      decreases blocks - q
    {
      hide Holds, DotBlock;
      DotBlockHolds(acc, pr.x, pr.w, pr.K, lo, k, c.bk, m, n);
      DotBlockHolds(h, pr.x, pr.a, pr.K, lo, k, c.bk, m, 0);
      acc := DotBlock(acc, pr.x, pr.w, pr.K, at, c.bk, m, n);
      h := DotBlock(h, pr.x, pr.a, pr.K, at, c.bk, m, 0);
      NextBlock(q, blocks, c.bk);
      at, k, q := at + c.bk, k + c.bk, q + 1;
    }
    ExpandHolds(acc, h, pr, c, pidS, m, n);
    acc := Expand(acc, h, pr, n);
  }

  lemma NextBlock(q: nat, blocks: nat, bk: nat)
    requires q * bk < blocks * bk
    ensures q < blocks && (q + 1) * bk == q * bk + bk <= blocks * bk
  {
    if blocks <= q { TimesGrowsOrEqual(blocks, q, bk); }
    TimesGrowsOrEqual(q + 1, blocks, bk);
  }

  lemma ExpandHolds(f: Tile, h: Tile, pr: Problem, c: Config, s: nat, m: int, n: int)
    requires c.Valid()
    requires var kc := c.Chunk(pr.K);
      Holds(f, pr.x, pr.w, pr.K, s * kc, kc, m, n) && Holds(h, pr.x, pr.a, pr.K, s * kc, kc, m, 0)
    ensures forall i, j :: Expand(f, h, pr, n)(i, j) == SliceCell(pr, c, s, m + i, n + j)
  {
    var kc := c.Chunk(pr.K);
    forall i, j ensures Expand(f, h, pr, n)(i, j) == SliceCell(pr, c, s, m + i, n + j) {
      forall r ensures Times(Times(h(i, r), pr.alpha), Entry(pr.b, n + j, r)) == LoraTerm(pr, c, s, m + i, n + j, r) {
        assert h(i, r) == SliceDot(pr.x, pr.a, pr.K, s * kc, kc, m + i, 0 + r);
      }
      SumExt(pr.R, r => Times(Times(h(i, r), pr.alpha), Entry(pr.b, n + j, r)),
             r => LoraTerm(pr, c, s, m + i, n + j, r));
    }
  }

  // ---- addresses and tiles -----------------------------------------------------------------------------------

  function RowTiles(pr: Problem, c: Config): nat requires c.Valid() { CeilDiv(pr.M, c.bm) }

  function ColTiles(pr: Problem, c: Config): nat requires c.Valid() { CeilDiv(pr.N, c.bn) }

  function TileOf(pr: Problem, c: Config, a: int): int
    requires c.Valid()
  {
    if pr.N == 0 then 0 else a / pr.N / c.bm * ColTiles(pr, c) + a % pr.N / c.bn
  }

  /** Tile t belongs to programs (t % column tiles, ., t / column tiles). */
  function PidM(pr: Problem, c: Config, t: int): int
    requires c.Valid()
  {
    if ColTiles(pr, c) == 0 then 0 else t / ColTiles(pr, c)
  }

  function PidN(pr: Problem, c: Config, t: int): int
    requires c.Valid()
  {
    if ColTiles(pr, c) == 0 then 0 else t % ColTiles(pr, c)
  }

  /** The registers of every program when its K loop is over: registers[s][t] is the tile of slice s of tile t. */
  type Registers = seq<seq<Tile>>

  /** The lane of program (., s, .) whose address is a. */
  function LaneAt(pr: Problem, c: Config, registers: Registers, s: int, a: int): real
    requires c.Valid()
  {
    var t := TileOf(pr, c, a);
    if pr.N > 0 && 0 <= s < |registers| && 0 <= t < |registers[s]| then
      registers[s][t](a / pr.N - PidM(pr, c, t) * c.bm, a % pr.N - PidN(pr, c, t) * c.bn)
    else 0.0
  }

  /** The launch: cell (m, n) of Y has address m N + n, in the workspace too; a program adds its lanes. */
  function GridOf(pr: Problem, c: Config, registers: Registers): Grid
    requires c.Valid()
  {
    Grid(pr.M * pr.N, RowTiles(pr, c) * ColTiles(pr, c), c.sk, a => TileOf(pr, c, a),
         (s, a) => LaneAt(pr, c, registers, s, a))
  }

  /** A program's registers hold its slice's share of every cell of its tile. */
  ghost predicate HoldsShare(pr: Problem, c: Config, s: int, t: int, acc: Tile)
    requires c.Valid()
  {
    forall i, j :: acc(i, j) == SliceCell(pr, c, s, PidM(pr, c, t) * c.bm + i, PidN(pr, c, t) * c.bn + j)
  }

  ghost predicate SliceDone(pr: Problem, c: Config, s: int, tiles: seq<Tile>)
    requires c.Valid()
  {
    forall t :: 0 <= t < |tiles| ==> HoldsShare(pr, c, s, t, tiles[t])
  }

  ghost predicate AllDone(pr: Problem, c: Config, registers: Registers)
    requires c.Valid()
  {
    && |registers| == c.sk
    && forall s :: 0 <= s < c.sk ==>
        |registers[s]| == RowTiles(pr, c) * ColTiles(pr, c) && SliceDone(pr, c, s, registers[s])
  }

  /** The programs of one slice. */
  method RunSlice(pr: Problem, c: Config, s: nat) returns (tiles: seq<Tile>)
    requires c.Valid()
    ensures |tiles| == RowTiles(pr, c) * ColTiles(pr, c) && SliceDone(pr, c, s, tiles)
  {
    tiles := [];
    while |tiles| < RowTiles(pr, c) * ColTiles(pr, c)
      invariant |tiles| <= RowTiles(pr, c) * ColTiles(pr, c) && SliceDone(pr, c, s, tiles)
    {
      var t := |tiles|;
      var acc := SliceTile(pr, c, PidN(pr, c, t), s, PidM(pr, c, t));
      assert HoldsShare(pr, c, s, t, acc);
      hide HoldsShare;
      tiles := tiles + [acc];
    }
  }

  /** The K loops of all programs; they read only X, W, A and B, so they do not depend on each other. */
  method RunPrograms(pr: Problem, c: Config) returns (registers: Registers)
    requires c.Valid()
    ensures AllDone(pr, c, registers)
  {
    hide SliceDone;
    registers := [];
    while |registers| < c.sk
      invariant |registers| <= c.sk
      invariant forall s :: 0 <= s < |registers| ==>
        |registers[s]| == RowTiles(pr, c) * ColTiles(pr, c) && SliceDone(pr, c, s, registers[s])
    {
      var tiles := RunSlice(pr, c, |registers|);
      registers := registers + [tiles];
    }
  }

  lemma AddressOf(m: nat, n: nat, N: nat)
    requires n < N
    ensures (m * N + n) / N == m && (m * N + n) % N == n
  {
    var a := m * N + n;
    assert a / N * N <= a < a / N * N + N;
    BlockUnique(m, a / N, N, a);
  }

  lemma InTiles(m: nat, M: nat, bm: nat)
    requires m < M && bm > 0
    ensures m / bm < CeilDiv(M, bm)
  {
    var i := BlockOf(m, M, bm);
    BlockUnique(i, m / bm, bm, m);
  }

  lemma IndexInGrid(i: nat, j: nat, rows: nat, cols: nat)
    requires i < rows && j < cols
    ensures 0 <= i * cols + j < rows * cols
  {
    TimesGrows(i, rows, cols);
    ProductNonNegative(i, cols);
  }

  lemma TileInGrid(m: nat, n: nat, M: nat, N: nat, bm: nat, bn: nat)
    requires m < M && n < N && bm > 0 && bn > 0
    ensures m / bm < CeilDiv(M, bm) && n / bn < CeilDiv(N, bn)
    ensures 0 <= m / bm * CeilDiv(N, bn) + n / bn < CeilDiv(M, bm) * CeilDiv(N, bn)
  {
    InTiles(m, M, bm);
    InTiles(n, N, bn);
    IndexInGrid(m / bm, n / bn, CeilDiv(M, bm), CeilDiv(N, bn));
  }

  /**
   The masked lanes of program (pidN, ., pidM) address exactly the cells of tile pidM * (column tiles) + pidN.
   */
  lemma LanesAreTile(pr: Problem, c: Config, pidM: nat, pidN: nat, m: nat, n: nat)
    requires c.Valid() && m < pr.M && n < pr.N && pidM < RowTiles(pr, c) && pidN < ColTiles(pr, c)
    ensures TileOf(pr, c, m * pr.N + n) == pidM * ColTiles(pr, c) + pidN <==>
      (pidM * c.bm <= m < pidM * c.bm + c.bm && pidN * c.bn <= n < pidN * c.bn + c.bn)
  {
    AddressOf(m, n, pr.N);
    TileInGrid(m, n, pr.M, pr.N, c.bm, c.bn);
    InBlock(m, c.bm, pidM);
    InBlock(n, c.bn, pidN);
    TilesDiffer(m / c.bm, n / c.bn, pidM, pidN, ColTiles(pr, c));
  }

  lemma InBlock(m: nat, d: nat, p: nat)
    requires d > 0
    ensures p * d <= m < p * d + d <==> m / d == p
  {
    assert m / d * d <= m < m / d * d + d;
    if p * d <= m < p * d + d { BlockUnique(m / d, p, d, m); }
  }

  lemma TilesDiffer(i: nat, j: nat, p: nat, q: nat, cols: nat)
    requires j < cols && q < cols
    ensures i * cols + j == p * cols + q <==> i == p && j == q
  {
    if i * cols + j == p * cols + q { BlockUnique(i, p, cols, p * cols + q); }
  }

  lemma ProgramOfTile(pr: Problem, c: Config, pidM: nat, pidN: nat)
    requires c.Valid() && pidM < RowTiles(pr, c) && pidN < ColTiles(pr, c)
    ensures var t := pidM * ColTiles(pr, c) + pidN;
      0 <= t < RowTiles(pr, c) * ColTiles(pr, c) && PidM(pr, c, t) == pidM && PidN(pr, c, t) == pidN
  {
    hide RowTiles, ColTiles;
    AddressOf(pidM, pidN, ColTiles(pr, c));
    IndexInGrid(pidM, pidN, RowTiles(pr, c), ColTiles(pr, c));
  }

  /** A masked-in lane of program (pidN, s, pidM) is what the launch adds to its own address, inside its own tile. */
  lemma LaneAdds(pr: Problem, c: Config, registers: Registers, pidN: nat, s: nat, pidM: nat, i: nat, j: nat, m: nat,
                 n: nat)
    requires c.Valid() && AllDone(pr, c, registers) && s < c.sk
    requires pidM < RowTiles(pr, c) && pidN < ColTiles(pr, c) && i < c.bm && j < c.bn
    requires m == pidM * c.bm + i < pr.M && n == pidN * c.bn + j < pr.N
    ensures var t, a := pidM * ColTiles(pr, c) + pidN, m * pr.N + n;
      && 0 <= t < |registers[s]| && GridOf(pr, c, registers).In(a, t)
      && GridOf(pr, c, registers).val(s, a) == registers[s][t](i, j)
      && registers[s][t](i, j) == SliceCell(pr, c, s, m, n)
  {
    hide RowTiles, ColTiles, SliceDone, PidM, PidN, HoldsShare, SliceCell;
    var t := pidM * ColTiles(pr, c) + pidN;
    LanesAreTile(pr, c, pidM, pidN, m, n);
    ProgramOfTile(pr, c, pidM, pidN);
    AddressOf(m, n, pr.N);
    InBuffer(m, n, pr.M, pr.N);
    ProductNonNegative(m, pr.N);
    hide TileOf;
    LaneHolds(pr, c, registers, s, t, i, j);
  }

  lemma LaneHolds(pr: Problem, c: Config, registers: Registers, s: nat, t: nat, i: int, j: int)
    requires c.Valid() && AllDone(pr, c, registers) && s < c.sk && t < |registers[s]|
    ensures registers[s][t](i, j) == SliceCell(pr, c, s, PidM(pr, c, t) * c.bm + i, PidN(pr, c, t) * c.bn + j)
  {
    hide SliceCell, PidM, PidN;
    assert HoldsShare(pr, c, s, t, registers[s][t]);
  }

  lemma LaneOfCell(m: nat, bm: nat) returns (pid: nat, i: nat)
    requires bm > 0
    ensures m == pid * bm + i && i < bm && pid == m / bm
  {
    pid, i := m / bm, m % bm;
  }

  /** Every cell has its lane in every slice, and what is added there is that slice's share of the cell. */
  lemma LaunchAdds(pr: Problem, c: Config, registers: Registers, s: nat, m: nat, n: nat)
    requires c.Valid() && AllDone(pr, c, registers) && s < c.sk && m < pr.M && n < pr.N
    ensures GridOf(pr, c, registers).val(s, m * pr.N + n) == SliceCell(pr, c, s, m, n)
  {
    hide SliceCell, GridOf, AllDone;
    TileInGrid(m, n, pr.M, pr.N, c.bm, c.bn);
    var pidM, i := LaneOfCell(m, c.bm);
    var pidN, j := LaneOfCell(n, c.bn);
    LaneAdds(pr, c, registers, pidN, s, pidM, i, j, m, n);
  }

  lemma RowOfAddress(a: nat, M: nat, N: nat) returns (m: nat, n: nat)
    requires a < M * N
    ensures N > 0 && m == a / N < M && n == a % N < N
  {
    m, n := a / N, a % N;
    if m >= M { TimesGrowsOrEqual(M, m, N); }
  }

  lemma TileOfInRange(pr: Problem, c: Config, a: nat)
    requires c.Valid() && a < pr.M * pr.N
    ensures 0 <= TileOf(pr, c, a) < RowTiles(pr, c) * ColTiles(pr, c)
  {
    var m, n := RowOfAddress(a, pr.M, pr.N);
    hide CeilDiv;
    TileInGrid(m, n, pr.M, pr.N, c.bm, c.bn);
  }

  lemma GridValid(pr: Problem, c: Config, registers: Registers)
    requires c.Valid()
    ensures GridOf(pr, c, registers).Valid()
  {
    hide TileOf, RowTiles, ColTiles, LaneAt;
    forall a: nat | a < pr.M * pr.N ensures 0 <= TileOf(pr, c, a) < RowTiles(pr, c) * ColTiles(pr, c) {
      TileOfInRange(pr, c, a);
    }
  }

  /** The configurations the autotuner may pick for a batch of M rows. */
  ghost function SmallBlock(M: nat): nat { if M <= 16 then 16 else if M <= 32 then 32 else 64 }

  ghost predicate Tuned(c: Config, M: nat) {
    if M > 64 then
      c in {Config(64, 64, 64, 1), Config(64, 128, 32, 1), Config(64, 128, 64, 1), Config(64, 64, 64, 2),
            Config(128, 64, 32, 1), Config(128, 64, 64, 1), Config(128, 128, 32, 1), Config(128, 64, 32, 2)}
    else
      && c.bm == SmallBlock(M)
      && (c.bn, c.bk, c.sk) in {(32, 128, 1), (32, 128, 2), (32, 128, 4), (32, 256, 1), (32, 256, 2), (64, 128, 1),
            (64, 128, 2), (64, 128, 4), (64, 128, 8), (64, 256, 2), (64, 256, 4), (128, 64, 4), (128, 64, 8),
            (128, 128, 2), (128, 128, 4), (128, 128, 8)}
  }

  lemma TunedBlocks(c: Config, M: nat)
    requires Tuned(c, M)
    ensures c.Valid() && c.bm >= 16 && c.bn >= 32
  {
  }

  /** The scratch memory is sized for the smallest tile any configuration uses. */
  lemma TilesFit(pr: Problem, c: Config)
    requires c.Valid() && c.bm >= 16 && c.bn >= 32
    ensures RowTiles(pr, c) * ColTiles(pr, c) <= CeilDiv(pr.M, 16) * CeilDiv(pr.N, 32)
  {
    FewerTiles(pr.M, 16, c.bm);
    FewerTiles(pr.N, 32, c.bn);
    TimesGrowsOrEqual(RowTiles(pr, c), CeilDiv(pr.M, 16), ColTiles(pr, c));
    TimesGrowsOrEqual(ColTiles(pr, c), CeilDiv(pr.N, 32), CeilDiv(pr.M, 16));
  }

  lemma FewerTiles(n: nat, small: nat, large: nat)
    requires 0 < small <= large
    ensures CeilDiv(n, large) <= CeilDiv(n, small)
  {
    CeilDivBounds(n, small);
    CeilDivBounds(n, large);
    TimesGrowsOrEqual(small, large, CeilDiv(n, small));
    QuotientOrder(CeilDiv(n, large), CeilDiv(n, small), large);
  }

  /**
   forward_triton on a warm or cold workspace, with any configuration whose tiles are not too small for the scratch
   memory: Y is the reference and the scratch memory is zero again.
   */
  method Forward(pr: Problem, c: Config, work: Workspace) returns (y: seq<Cell>, ghost stores: seq<nat>)
    requires pr.Shaped() && c.Valid() && c.bm >= 16 && c.bn >= 32 && AllZero(work.ws, work.cnt)
    modifies work
    ensures AllZero(work.ws, work.cnt) && IsReference(pr, y) && |stores| == |y|
    ensures forall a :: 0 <= a < |y| ==> stores[a] == 1
  {
    TilesFit(pr, c);
    var registers := RunPrograms(pr, c);
    GridValid(pr, c, registers);
    work.Ensure(pr.M * pr.N, CeilDiv(pr.M, 16) * CeilDiv(pr.N, 32));
    y, stores := work.Launch(GridOf(pr, c, registers));
    TotalsAreReference(pr, c, registers, y);
  }

  ghost predicate IsReference(pr: Problem, y: seq<Cell>)
    requires pr.Shaped()
  {
    |y| == pr.M * pr.N && forall m, n :: 0 <= m < pr.M && 0 <= n < pr.N ==> CellAt(pr, y, m, n) == Num(pr.Ref(m, n))
  }

  function CellAt(pr: Problem, y: seq<Cell>, m: nat, n: nat): Cell
    requires |y| == pr.M * pr.N && m < pr.M && n < pr.N
  {
    InBuffer(m, n, pr.M, pr.N);
    y[m * pr.N + n]
  }

  lemma InBuffer(m: nat, n: nat, M: nat, N: nat)
    requires m < M && n < N
    ensures m * N + n < M * N
  {
    TimesGrows(m, M, N);
  }

  lemma TotalIsRef(pr: Problem, c: Config, registers: Registers, m: nat, n: nat)
    requires c.Valid() && pr.Shaped() && AllDone(pr, c, registers) && m < pr.M && n < pr.N
    ensures GridOf(pr, c, registers).Total(m * pr.N + n) == pr.Ref(m, n)
  {
    hide SliceCell, AllDone, LaneAt, TileOf;
    SlicesAddUp(pr, c, m, n);
    var g, a := GridOf(pr, c, registers), m * pr.N + n;
    forall s: nat | s < c.sk ensures g.val(s, a) == SliceCell(pr, c, s, m, n) { LaunchAdds(pr, c, registers, s, m, n); }
    SumExt(c.sk, s => g.val(s, a), s => SliceCell(pr, c, s, m, n));
  }

  lemma TotalsAreReference(pr: Problem, c: Config, registers: Registers, y: seq<Cell>)
    requires c.Valid() && pr.Shaped() && |y| == pr.M * pr.N && AllDone(pr, c, registers)
    requires forall a :: 0 <= a < |y| ==> y[a] == Num(GridOf(pr, c, registers).Total(a))
    ensures IsReference(pr, y)
  {
    hide GridOf, AllDone;
    forall m: nat, n: nat | m < pr.M && n < pr.N ensures CellAt(pr, y, m, n) == Num(pr.Ref(m, n)) {
      InBuffer(m, n, pr.M, pr.N);
      TotalIsRef(pr, c, registers, m, n);
    }
  }

  /** Launches of any shapes, one after the other, over one workspace. */
  method Serve(jobs: seq<(Problem, Config)>, work: Workspace) returns (ys: seq<seq<Cell>>)
    requires forall i :: 0 <= i < |jobs| ==> jobs[i].0.Shaped() && jobs[i].1.Valid()
    requires forall i :: 0 <= i < |jobs| ==> jobs[i].1.bm >= 16 && jobs[i].1.bn >= 32
    requires AllZero(work.ws, work.cnt)
    modifies work
    ensures AllZero(work.ws, work.cnt) && |ys| == |jobs|
    ensures forall i :: 0 <= i < |jobs| ==> IsReference(jobs[i].0, ys[i])
  {
    ys := [];
    while |ys| < |jobs|
      invariant |ys| <= |jobs| && AllZero(work.ws, work.cnt)
      invariant forall i :: 0 <= i < |ys| ==> IsReference(jobs[i].0, ys[i])
    {
      hide IsReference, AllZero;
      var job := jobs[|ys|];
      var y, _ := Forward(job.0, job.1, work);
      ys := ys + [y];
    }
  }
}
