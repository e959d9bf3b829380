/**
 The tile-scheduled grouped LoRA kernels.

 One launch runs a program per (work-list slot, column block, slice x K share).  A program looks up
 its segment, wraps its row and column indices into range, accumulates a register tile over its K
 share and stores it under a mask.  Device tensors are two-dimensional arrays; a cell of a buffer
 that was allocated without being filled is Blank, and reading one is an error.
 */
module TiledGemm {
  import opened Arithmetic
  import opened SegmentedWrapper
  import opened Segments
  import opened Sums
  import opened TileMap

  type Vec = seq<real>
  type Mat = seq<Vec>

  /** The step's metadata buffers as a kernel reads them, and the tile height they were built for. */
  datatype Work = Work(start: seq<int>, len: seq<int>, lora: seq<int>, tileSeg: seq<int>, tileM: seq<int>,
                       cap: nat, bm: nat)
  {
    ghost predicate Ready(idx: seq<int>) { KernelReady(idx, start, len, lora, tileSeg, tileM, cap, bm) }

    /** Program row t stores token row p. */
    ghost predicate StoresRow(t: int, p: int) {
      && 0 <= t < |tileSeg| == |tileM| && |start| == |len| == |lora|
      && 0 <= tileSeg[t] < |lora| && lora[tileSeg[t]] != -1
      && start[tileSeg[t]] + tileM[t] * bm <= p < start[tileSeg[t]] + len[tileSeg[t]]
      && p < start[tileSeg[t]] + tileM[t] * bm + bm
    }
  }

  /** The output side of a launch: slice sid owns the n columns from off[sid], cut into bn-blocks. */
  datatype Grid = Grid(w: Work, off: seq<int>, n: nat, bn: nat) {
    ghost predicate Disjoint() {
      && bn > 0
      && (forall i :: 0 <= i < |off| ==> off[i] >= 0)
      && forall i, j :: 0 <= i < j < |off| ==> off[i] + n <= off[j]
    }

    function ColBlocks(): nat requires bn > 0 { CeilDiv(n, bn) }

    /** Column j of slice sid. */
    function Col(sid: int, j: int): int requires 0 <= sid < |off| { off[sid] + j }

    /** The program (t, nb, sid) stores cell (p, c). */
    ghost predicate Stores(t: int, nb: int, sid: int, p: int, c: int) {
      && w.StoresRow(t, p) && 0 <= sid < |off| && 0 <= nb
      && off[sid] + nb * bn <= c < off[sid] + n && c < off[sid] + nb * bn + bn
    }

    ghost predicate Stored(p: int, c: int) { exists t, nb, sid :: Stores(t, nb, sid, p, c) }
  }

  // ---- which program stores which cell --------------------------------------------------------

  lemma RowOwnerUnique(w: Work, idx: seq<int>, t: int, u: int, p: int)
    requires w.Ready(idx) && w.StoresRow(t, p) && w.StoresRow(u, p)
    ensures t == u
  {
    var s, r := w.tileSeg[t], w.tileSeg[u];
    assert TileAt(w.len, w.bm, w.tileSeg, w.tileM, t, s, w.tileM[t]);
    assert TileAt(w.len, w.bm, w.tileSeg, w.tileM, u, r, w.tileM[u]);
    ProductNonNegative(w.tileM[t], w.bm);
    ProductNonNegative(w.tileM[u], w.bm);
    assert s == r by {
      assert w.start[s] <= p < w.start[s] + w.len[s];
      assert w.start[r] <= p < w.start[r] + w.len[r];
    }
    BlockUnique(w.tileM[t], w.tileM[u], w.bm, p - w.start[s]);
  }

  /** Every token with an adapter has a program row, inside the launch grid, that uses its adapter. */
  lemma RowOwnerExists(w: Work, idx: seq<int>, p: nat) returns (t: nat)
    requires w.Ready(idx) && p < |idx| && idx[p] != -1
    ensures t < w.cap && w.StoresRow(t, p)
  {
    assert Covered(w.start, w.len, p);
    var s :| 0 <= s < |w.len| && InSegment(w.start, w.len, s, p);
    var m := BlockOf(p - w.start[s], w.len[s], w.bm);
    assert HasTile(w.len, w.bm, w.tileSeg, w.tileM, s, m);
    t :| TileAt(w.len, w.bm, w.tileSeg, w.tileM, t, s, m);
  }

  lemma RowAdapter(w: Work, idx: seq<int>, t: int, p: int)
    requires w.Ready(idx) && w.StoresRow(t, p)
    ensures 0 <= p < |idx| && idx[p] == w.lora[w.tileSeg[t]] != -1
    ensures t < w.cap
  {
    assert TileAt(w.len, w.bm, w.tileSeg, w.tileM, t, w.tileSeg[t], w.tileM[t]);
    ProductNonNegative(w.tileM[t], w.bm);
    assert InSegment(w.start, w.len, w.tileSeg[t], p);
  }

  lemma StoresUnique(g: Grid, idx: seq<int>, t: int, nb: int, sid: int, t': int, nb': int, sid': int, p: int, c: int)
    requires g.w.Ready(idx) && g.Disjoint()
    requires g.Stores(t, nb, sid, p, c) && g.Stores(t', nb', sid', p, c)
    ensures t == t' && nb == nb' && sid == sid'
  {
    RowOwnerUnique(g.w, idx, t, t', p);
    ProductNonNegative(nb, g.bn);
    ProductNonNegative(nb', g.bn);
    assert sid == sid';
    BlockUnique(nb, nb', g.bn, c - g.off[sid]);
  }

  lemma StoresExists(g: Grid, idx: seq<int>, p: nat, sid: nat, j: nat) returns (t: nat, nb: nat)
    requires g.w.Ready(idx) && g.Disjoint()
    requires p < |idx| && idx[p] != -1 && sid < |g.off| && j < g.n
    ensures t < g.w.cap && nb < g.ColBlocks() && g.Stores(t, nb, sid, p, g.off[sid] + j)
  {
    t := RowOwnerExists(g.w, idx, p);
    nb := BlockOf(j, g.n, g.bn);
  }

  // ---- register tiles --------------------------------------------------------------------------

  /** A masked load: 0 where the mask is off. */
  function Load(v: Vec, k: int, live: bool): real
    requires live ==> 0 <= k < |v|
  {
    if live then v[k] else 0.0
  }

  predicate LaneOn(offK: int, krem: int, evenK: bool, q: int) { evenK || offK + q < krem }

  /** Every lane that is on reads inside a vector of n elements. */
  ghost predicate InRange(n: nat, kcol: int, offK: int, krem: int, evenK: bool, bk: nat) {
    forall q :: 0 <= q < bk && LaneOn(offK, krem, evenK, q) ==> 0 <= kcol + q < n
  }

  /** One K-tile of an inner product; kcol is where the pointers stand, offK + q the lane's offset. */
  function TileDot(xr: Vec, wr: Vec, kcol: int, offK: int, krem: int, evenK: bool, bk: nat): real
    requires InRange(|xr|, kcol, offK, krem, evenK, bk) && InRange(|wr|, kcol, offK, krem, evenK, bk)
  {
    if bk == 0 then 0.0
    else
      var live := LaneOn(offK, krem, evenK, bk - 1);
      TileDot(xr, wr, kcol, offK, krem, evenK, bk - 1) +
      Load(xr, kcol + (bk - 1), live) * Load(wr, kcol + (bk - 1), live)
  }

  /** The k-th term of an inner product, zero outside the vectors. */
  ghost function Term(xr: Vec, wr: Vec, k: int): real {
    if 0 <= k < |xr| && k < |wr| then xr[k] * wr[k] else 0.0
  }

  ghost function Dot(xr: Vec, wr: Vec): real { Sum(|xr|, k => Term(xr, wr, k)) }

  ghost function KTile(xr: Vec, wr: Vec, from: int, bk: nat): real { Sum(bk, q => Term(xr, wr, from + q)) }

  /** The part of the inner product that K share z of sk accumulates over nk K-tiles. */
  ghost function Part(xr: Vec, wr: Vec, bk: nat, sk: nat, z: int, nk: nat): real {
    Sum(nk, kk => KTile(xr, wr, kk * (bk * sk) + z * bk, bk))
  }

  lemma {:induction false} TileDotIsKTile(xr: Vec, wr: Vec, kcol: int, offK: int, krem: int, evenK: bool, bk: nat)
    requires 0 <= kcol && |xr| == |wr| && kcol - offK == |xr| - krem
    requires evenK ==> kcol + bk <= |xr|
    ensures InRange(|xr|, kcol, offK, krem, evenK, bk)
    ensures TileDot(xr, wr, kcol, offK, krem, evenK, bk) == KTile(xr, wr, kcol, bk)
  {
    if bk > 0 {
      TileDotIsKTile(xr, wr, kcol, offK, krem, evenK, bk - 1);
      KTileStep(xr, wr, kcol, bk - 1);
      assert LaneOn(offK, krem, evenK, bk - 1) <==> kcol + (bk - 1) < |xr|;
    }
  }

  lemma KTileStep(xr: Vec, wr: Vec, from: int, bk: nat)
    ensures KTile(xr, wr, from, bk + 1) == KTile(xr, wr, from, bk) + Term(xr, wr, from + bk)
  {
    var f := (q: int) => Term(xr, wr, from + q);
    SumExt(bk + 1, q => Term(xr, wr, from + q), f);
    SumExt(bk, q => Term(xr, wr, from + q), f);
  }

  lemma NothingBeyond(xr: Vec, wr: Vec)
    ensures forall k :: k >= |xr| ==> Term(xr, wr, k) == 0.0
  {
  }

  /** One step of all K shares: sk tiles of bk terms, from position at on. */
  lemma TilesOfStep(xr: Vec, wr: Vec, bk: nat, sk: nat, at: nat, h: int -> real, row: int -> real)
    requires forall i :: h(i) == Term(xr, wr, at + i)
    requires forall z :: 0 <= z < sk ==> row(z) == KTile(xr, wr, at + z * bk, bk)
    ensures Sum(sk * bk, h) == Sum(sk, row)
  {
    hide Term, Sum;
    forall z | 0 <= z < sk ensures row(z) == Sum(bk, i => h(z * bk + i)) {
      var from := z * bk;
      SumExt(bk, q => Term(xr, wr, at + from + q), i => h(from + i));
    }
    SumBlocks(sk, bk, h, row);
  }

  /** The K shares of all sk programs add up to the whole inner product. */
  lemma PartsAddUp(xr: Vec, wr: Vec, bk: nat, sk: nat, nk: nat, part: int -> real)
    requires |xr| == |wr| && bk * sk > 0 && nk == CeilDiv(|xr|, bk * sk)
    requires forall z :: 0 <= z < sk ==> part(z) == Part(xr, wr, bk, sk, z, nk)
    ensures Sum(sk, part) == Dot(xr, wr)
  {
    hide Term, Sum;
    var f := (k: int) => Term(xr, wr, k);
    var step := bk * sk;
    CeilDivBounds(|xr|, step);
    NothingBeyond(xr, wr);
    SumTail(|xr|, nk * step, f);
    var blk := (kk: int) => Sum(step, i => f(kk * step + i));
    SumBlocks(nk, step, f, blk);
    var cell := (kk: int, z: int) => KTile(xr, wr, kk * step + z * bk, bk);
    forall kk | 0 <= kk < nk ensures blk(kk) == Sum(sk, z => cell(kk, z)) {
      TilesOfStep(xr, wr, bk, sk, kk * step, i => f(kk * step + i), z => cell(kk, z));
    }
    forall z | 0 <= z < sk ensures part(z) == Sum(nk, kk => cell(kk, z)) {
      SumExt(nk, kk => KTile(xr, wr, kk * (bk * sk) + z * bk, bk), kk => cell(kk, z));
    }
    SumSwap(nk, sk, cell, blk, part);
    SumExt(|xr|, f, k => Term(xr, wr, k));
  }

  /** acc += dot(a, b) over one K-tile; xs and ws are the rows the tile's pointers stand on. */
  function AccStep(acc: Mat, xs: Mat, ws: Mat, kcol: int, offK: int, krem: int, evenK: bool, bk: nat): (r: Mat)
    requires |acc| == |xs| && forall i :: 0 <= i < |acc| ==> |acc[i]| == |ws|
    requires forall i :: 0 <= i < |xs| ==> InRange(|xs[i]|, kcol, offK, krem, evenK, bk)
    requires forall j :: 0 <= j < |ws| ==> InRange(|ws[j]|, kcol, offK, krem, evenK, bk)
    ensures |r| == |acc| && forall i :: 0 <= i < |r| ==> |r[i]| == |ws|
    ensures forall i, j :: 0 <= i < |xs| && 0 <= j < |ws| ==>
              r[i][j] == acc[i][j] + TileDot(xs[i], ws[j], kcol, offK, krem, evenK, bk)
  {
    seq(|xs|, i requires 0 <= i < |xs| =>
      seq(|ws|, j requires 0 <= j < |ws| => acc[i][j] + TileDot(xs[i], ws[j], kcol, offK, krem, evenK, bk)))
  }

  /** The K loop of a program: K share z of sk, over rows of length kdim. */
  method Accumulate(xs: Mat, ws: Mat, kdim: nat, bk: nat, sk: nat, z: nat, evenK: bool) returns (acc: Mat)
    requires bk > 0 && sk > 0 && z < sk
    requires evenK ==> kdim % (bk * sk) == 0
    requires forall i :: 0 <= i < |xs| ==> |xs[i]| == kdim
    requires forall j :: 0 <= j < |ws| ==> |ws[j]| == kdim
    ensures |acc| == |xs| && forall i :: 0 <= i < |acc| ==> |acc[i]| == |ws|
    ensures forall i, j :: 0 <= i < |xs| && 0 <= j < |ws| ==>
              acc[i][j] == Part(xs[i], ws[j], bk, sk, z, CeilDiv(kdim, bk * sk))
  {
    var step := bk * sk;
    StepPositive(bk, sk);
    acc := seq(|xs|, _ => seq(|ws|, _ => 0.0));
    var offK := z * bk;
    var kcol := offK;
    var nk := CeilDiv(kdim, step);
    for k := 0 to nk
      invariant kcol == k * step + z * bk
      invariant |acc| == |xs| && forall i :: 0 <= i < |acc| ==> |acc[i]| == |ws|
      invariant forall i, j :: 0 <= i < |xs| && 0 <= j < |ws| ==> acc[i][j] == Part(xs[i], ws[j], bk, sk, z, k)
    {
      var krem := kdim - k * step;
      TileInRange(kdim, bk, sk, z, k, evenK);
      ghost var was := acc;
      acc := AccStep(acc, xs, ws, kcol, offK, krem, evenK, bk);
      forall i, j | 0 <= i < |xs| && 0 <= j < |ws|
        ensures acc[i][j] == Part(xs[i], ws[j], bk, sk, z, k + 1)
      {
        TileDotIsKTile(xs[i], ws[j], kcol, offK, krem, evenK, bk);
        PartStep(xs[i], ws[j], bk, sk, z, k);
      }
      kcol := kcol + step;
    }
  }

  lemma PartStep(xr: Vec, wr: Vec, bk: nat, sk: nat, z: int, k: nat)
    ensures Part(xr, wr, bk, sk, z, k + 1) == Part(xr, wr, bk, sk, z, k) + KTile(xr, wr, k * (bk * sk) + z * bk, bk)
  {
    var f := (kk: int) => KTile(xr, wr, kk * (bk * sk) + z * bk, bk);
    SumExt(k + 1, kk => KTile(xr, wr, kk * (bk * sk) + z * bk, bk), f);
    SumExt(k, kk => KTile(xr, wr, kk * (bk * sk) + z * bk, bk), f);
  }

  /** When K is a multiple of the step, every unmasked tile lies inside K. */
  lemma TileInRange(kdim: nat, bk: nat, sk: nat, z: nat, k: nat, evenK: bool)
    requires bk > 0 && bk * sk > 0 && z < sk && k < CeilDiv(kdim, bk * sk)
    requires evenK ==> kdim % (bk * sk) == 0
    ensures 0 <= k * (bk * sk) + z * bk
    ensures evenK ==> k * (bk * sk) + z * bk + bk <= kdim
    ensures InRange(kdim, k * (bk * sk) + z * bk, z * bk, kdim - k * (bk * sk), evenK, bk)
  {
    var step := bk * sk;
    ProductNonNegative(k, step);
    ProductNonNegative(z, bk);
    if evenK {
      MultipleOf(kdim, step);
      CeilDivBounds(kdim, step);
      QuotientOrder(CeilDiv(kdim, step), kdim / step, step);
      TimesGrowsOrEqual(k + 1, kdim / step, step);
      assert (k + 1) * step == k * step + step;
      TimesGrowsOrEqual(z + 1, sk, bk);
      assert (z + 1) * bk == z * bk + bk;
      assert sk * bk == step;
    }
  }
}
