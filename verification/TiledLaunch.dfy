/**
 Launches of the tile kernels: the programs of a grid run in an arbitrary order, and together they
 compute the per-token LoRA product.
 */
module TiledLaunch {
  import opened Arithmetic
  import opened Common
  import opened SegmentedWrapper
  import opened Segments
  import opened Sums
  import opened TileMap
  import opened TiledGemm

  type Pid = (int, int, int)

  /** An execution order of a launch: every program of the grid exactly once. */
  ghost predicate Schedule(order: seq<Pid>, g0: int, g1: int, g2: int) {
    && (forall i, j :: 0 <= i < j < |order| ==> order[i] != order[j])
    && (forall pid: Pid :: pid in order <==> InGrid(pid, g0, g1, g2))
  }

  ghost predicate InGrid(pid: Pid, g0: int, g1: int, g2: int) {
    0 <= pid.0 < g0 && 0 <= pid.1 < g1 && 0 <= pid.2 < g2
  }

  /** Slot-indexed stacks of weight matrices, one stack per slice, cover every slot the work uses. */
  ghost predicate WeightsFit(w: Work, stacks: seq<seq<Mat>>, rows: nat, cols: nat) {
    forall sid, s :: 0 <= sid < |stacks| && 0 <= s < |w.lora| && w.lora[s] != -1 ==>
      MatrixFits(stacks[sid], w.lora[s], rows, cols)
  }

  ghost predicate MatrixFits(stack: seq<Mat>, l: int, rows: nat, cols: nat) {
    0 <= l < |stack| && |stack[l]| == rows && forall j :: 0 <= j < rows ==> |stack[l][j]| == cols
  }

  lemma WeightAt(w: Work, stacks: seq<seq<Mat>>, rows: nat, cols: nat, sid: nat, s: nat)
    requires WeightsFit(w, stacks, rows, cols) && sid < |stacks| && s < |w.lora| && w.lora[s] != -1
    ensures MatrixFits(stacks[sid], w.lora[s], rows, cols)
  {
  }

  // ---- shrink ------------------------------------------------------------------------------------

  datatype Shrink = Shrink(w: Work, x: Mat, a: seq<seq<Mat>>, scaling: real, n: nat, kdim: nat,
                           bn: nat, bk: nat, sk: nat)
  {
    ghost predicate Ok(idx: seq<int>) {
      && w.Ready(idx) && bn > 0 && bk > 0 && sk > 0
      && |x| == |idx| && (forall p :: 0 <= p < |x| ==> |x[p]| == kdim)
      && WeightsFit(w, a, n, kdim)
    }

    /** The slices' columns lie side by side in the buffer. */
    function Out(): Grid { Grid(w, seq(|a|, sid => sid * n), n, bn) }

    /** What K share z contributes to a cell. */
    ghost function Share(t: int, sid: int, p: int, c: int, z: int): real
      requires bk * sk > 0
    {
      if 0 <= t < |w.tileSeg| && 0 <= w.tileSeg[t] < |w.lora| && 0 <= sid < |a|
         && 0 <= w.lora[w.tileSeg[t]] < |a[sid]| && 0 <= p < |x|
         && 0 <= c - sid * n < |a[sid][w.lora[w.tileSeg[t]]]|
      then Times(scaling, Part(x[p], a[sid][w.lora[w.tileSeg[t]]][c - sid * n], bk, sk, z, CeilDiv(kdim, bk * sk)))
      else 0.0
    }
  }

  /** A cell after a store (one K share) or an atomic add (several). */
  ghost function Put(sk: nat, cell: Cell, v: real): Cell {
    if sk == 1 then Num(v) else match cell case Blank => Blank case Num(u) => Num(u + v)
  }

  lemma ProgramIndex(pid2: nat, sk: nat, ns: nat)
    requires sk > 0 && pid2 < ns * sk
    ensures 0 <= pid2 / sk < ns && 0 <= pid2 % sk < sk && pid2 == pid2 / sk * sk + pid2 % sk
  {
    var q, r := pid2 / sk, pid2 % sk;
    assert pid2 == q * sk + r;
    QuotientOrder(q + 1, ns, sk) by { assert (q + 1) * sk == q * sk + sk; }
  }

  lemma InSlice(sid: nat, ns: nat, n: nat)
    requires sid < ns
    ensures sid * n >= 0 && sid * n + n <= ns * n
  {
    ProductNonNegative(sid, n);
    TimesGrows(sid, ns, n);
  }

  function Wrap(x: nat, m: nat): (r: nat)
    requires m > 0
    ensures r < m && (x < m ==> r == x)
  {
    x % m
  }

  /** The rows a tile's pointers stand on: count rows from `from`, wrapping at m, in the block at base. */
  method WrapRows(rows: Mat, base: nat, from: nat, count: nat, m: nat, ghost width: nat) returns (r: Mat)
    requires m > 0 && base + m <= |rows|
    requires forall i :: base <= i < base + m ==> |rows[i]| == width
    ensures |r| == count && forall i :: 0 <= i < count ==> |r[i]| == width
    ensures forall i :: 0 <= i < count && from + i < m ==> r[i] == rows[base + from + i]
  {
    r := [];
    for i := 0 to count
      invariant |r| == i && forall k :: 0 <= k < i ==> |r[k]| == width
      invariant forall k :: 0 <= k < i && from + k < m ==> r[k] == rows[base + from + k]
    {
      r := r + [rows[base + Wrap(from + i, m)]];
    }
  }

  /** What a program may assume about the work-list slot it was given. */
  lemma SlotFacts(w: Work, idx: seq<int>, t: nat)
    requires w.Ready(idx) && t < w.cap
    ensures t < |w.tileSeg| == |w.tileM| && |w.start| == |w.len| == |w.lora| && w.tileSeg[t] < |w.lora|
    ensures w.tileM[t] >= 0
    ensures var s := w.tileSeg[t]; s >= 0 ==> w.start[s] >= 0 && w.len[s] >= 0 && w.start[s] + w.len[s] <= |idx|
  {
    if w.tileSeg[t] >= 0 { assert TileAt(w.len, w.bm, w.tileSeg, w.tileM, t, w.tileSeg[t], w.tileM[t]); }
  }

  /** The register tile of a shrink program: rows and columns wrap, lanes that will be stored do not. */
  method ShrinkTile(d: Shrink, ghost idx: seq<int>, t: nat, s: nat, l: nat, row0: nat, col0: nat, sid: nat, z: nat)
    returns (acc: Mat)
    requires d.Ok(idx) && t < |d.w.tileSeg| && d.w.tileSeg[t] == s < |d.w.lora| && d.w.lora[s] == l
    requires sid < |d.a| && z < d.sk && row0 < d.w.len[s] && col0 < d.n && d.bk * d.sk > 0
    ensures |acc| == d.w.bm && forall i :: 0 <= i < |acc| ==> |acc[i]| == d.bn
    ensures forall i, j :: 0 <= i < d.w.bm && 0 <= j < d.bn && row0 + i < d.w.len[s] && col0 + j < d.n ==>
              acc[i][j] == d.Share(t, sid, d.w.start[s] + row0 + i, sid * d.n + col0 + j, z)
  {
    var M, cur := d.w.len[s], d.w.start[s];
    assert MatrixFits(d.a[sid], l, d.n, d.kdim);
    var xs := WrapRows(d.x, cur, row0, d.w.bm, M, d.kdim);
    var ws := WrapRows(d.a[sid][l], 0, col0, d.bn, d.n, d.kdim);
    hide KernelReady, WeightsFit;
    var raw := Accumulate(xs, ws, d.kdim, d.bk, d.sk, z, d.kdim % (d.bk * d.sk) == 0);
    acc := Scaled(d.scaling, raw, d.bn);
    forall i, j | 0 <= i < d.w.bm && 0 <= j < d.bn && row0 + i < M && col0 + j < d.n
      ensures acc[i][j] == d.Share(t, sid, cur + row0 + i, sid * d.n + col0 + j, z)
    {
      assert xs[i] == d.x[cur + row0 + i] && ws[j] == d.a[sid][l][col0 + j];
    }
  }

  function Scaled(k: real, m: Mat, cols: nat): (r: Mat)
    requires forall i :: 0 <= i < |m| ==> |m[i]| == cols
    ensures |r| == |m| && forall i :: 0 <= i < |m| ==> |r[i]| == cols
    ensures forall i, j :: 0 <= i < |m| && 0 <= j < cols ==> r[i][j] == Times(k, m[i][j])
  {
    seq(|m|, i requires 0 <= i < |m| => seq(cols, j requires 0 <= j < cols => Times(k, m[i][j])))
  }

  /** The store mask of a bm x bn tile at (row, col), clipped to rowEnd, colEnd. */
  ghost predicate InTile(p: int, c: int, row: int, rowEnd: int, col: int, colEnd: int, bm: nat, bn: nat) {
    row <= p < rowEnd && p < row + bm && col <= c < colEnd && c < col + bn
  }

  /** Masked store (sk == 1) or atomic add of a register tile at (row, col), clipped to rowEnd, colEnd. */
  method StoreTile(buf: array2<Cell>, acc: Mat, row: nat, rowEnd: nat, col: nat, colEnd: nat, bm: nat, bn: nat, sk: nat)
    requires rowEnd <= buf.Length0 && colEnd <= buf.Length1
    requires |acc| == bm && forall i :: 0 <= i < bm ==> |acc[i]| == bn
    requires sk != 1 ==> forall p, c :: 0 <= p < buf.Length0 && 0 <= c < buf.Length1 ==> buf[p, c].Num?
    modifies buf
    ensures forall p, c :: 0 <= p < buf.Length0 && 0 <= c < buf.Length1 ==>
      buf[p, c] == if InTile(p, c, row, rowEnd, col, colEnd, bm, bn)
                   then Put(sk, old(buf[p, c]), acc[p - row][c - col]) else old(buf[p, c])
  {
    if sk == 1 {
      forall i, j | 0 <= i < bm && 0 <= j < bn && row + i < rowEnd && col + j < colEnd {
        buf[row + i, col + j] := Num(acc[i][j]);
      }
    } else {
      forall i, j | 0 <= i < bm && 0 <= j < bn && row + i < rowEnd && col + j < colEnd {
        buf[row + i, col + j] := Num(buf[row + i, col + j].v + acc[i][j]);
      }
    }
  }

  /** One program of the shrink launch. */
  method ShrinkProgram(d: Shrink, ghost idx: seq<int>, buf: array2<Cell>, pidT: nat, pidN: nat, pid2: nat)
    requires d.Ok(idx) && buf.Length0 == |idx| && buf.Length1 == |d.a| * d.n
    requires pidT < d.w.cap && pidN < d.Out().ColBlocks() && pid2 < |d.a| * d.sk && d.bk * d.sk > 0
    requires d.sk > 1 ==> forall p, c :: 0 <= p < buf.Length0 && 0 <= c < buf.Length1 ==> buf[p, c].Num?
    modifies buf
    ensures forall p, c :: 0 <= p < buf.Length0 && 0 <= c < buf.Length1 ==>
      buf[p, c] == if d.Out().Stores(pidT, pidN, pid2 / d.sk, p, c)
                   then Put(d.sk, old(buf[p, c]), d.Share(pidT, pid2 / d.sk, p, c, pid2 % d.sk))
                   else old(buf[p, c])
  {
    ProgramIndex(pid2, d.sk, |d.a|);
    ShrinkSlice(d, idx, buf, pidT, pidN, pid2 / d.sk, pid2 % d.sk);
  }

  /** The program (pidT, pidN) of K share z of slice sid. */
  method ShrinkSlice(d: Shrink, ghost idx: seq<int>, buf: array2<Cell>, pidT: nat, pidN: nat, sid: nat, z: nat)
    requires d.Ok(idx) && buf.Length0 == |idx| && buf.Length1 == |d.a| * d.n
    requires pidT < d.w.cap && pidN < d.Out().ColBlocks() && sid < |d.a| && z < d.sk && d.bk * d.sk > 0
    requires d.sk > 1 ==> forall p, c :: 0 <= p < buf.Length0 && 0 <= c < buf.Length1 ==> buf[p, c].Num?
    modifies buf
    ensures forall p, c :: 0 <= p < buf.Length0 && 0 <= c < buf.Length1 ==>
      buf[p, c] == if d.Out().Stores(pidT, pidN, sid, p, c)
                   then Put(d.sk, old(buf[p, c]), d.Share(pidT, sid, p, c, z)) else old(buf[p, c])
  {
    hide KernelReady, WeightsFit;
    SlotFacts(d.w, idx, pidT);
    var s := d.w.tileSeg[pidT];
    if s < 0 { return; }
    var lora := d.w.lora[s];
    if lora == -1 { return; }
    ShrinkTileSlice(d, idx, buf, pidT, pidN, sid, z, s, lora);
  }

  /** The same program once its segment and adapter are known. */
  method ShrinkTileSlice(d: Shrink, ghost idx: seq<int>, buf: array2<Cell>, pidT: nat, pidN: nat, sid: nat, z: nat,
                         s: nat, lora: int)
    requires d.Ok(idx) && buf.Length0 == |idx| && buf.Length1 == |d.a| * d.n
    requires pidT < d.w.cap && pidN < d.Out().ColBlocks() && sid < |d.a| && z < d.sk && d.bk * d.sk > 0
    requires d.sk > 1 ==> forall p, c :: 0 <= p < buf.Length0 && 0 <= c < buf.Length1 ==> buf[p, c].Num?
    requires pidT < |d.w.tileSeg| && d.w.tileSeg[pidT] == s < |d.w.lora| && d.w.lora[s] == lora != -1
    modifies buf
    ensures forall p, c :: 0 <= p < buf.Length0 && 0 <= c < buf.Length1 ==>
      buf[p, c] == if d.Out().Stores(pidT, pidN, sid, p, c)
                   then Put(d.sk, old(buf[p, c]), d.Share(pidT, sid, p, c, z)) else old(buf[p, c])
  {
    hide KernelReady, WeightsFit, Times, Part, Shrink.Share, Grid.Stores, InTile;
    SlotFacts(d.w, idx, pidT);
    StoresTile(d.Out(), pidT, pidN, sid, s);
    var M := d.w.len[s];
    var row0 := d.w.tileM[pidT] * d.w.bm;
    if row0 >= M { return; }
    var cur, col0, off := d.w.start[s], pidN * d.bn, sid * d.n;
    ProgramColumn(pidN, d.n, d.bn);
    InSlice(sid, |d.a|, d.n);
    ProductNonNegative(d.w.tileM[pidT], d.w.bm);
    WeightAt(d.w, d.a, d.n, d.kdim, sid, s);
    var acc := ShrinkTile(d, idx, pidT, s, lora, row0, col0, sid, z);
    LaneShares(d, acc, pidT, sid, z, cur, row0, M, off, col0);
    StoreTile(buf, acc, cur + row0, cur + M, off + col0, off + d.n, d.w.bm, d.bn, d.sk);
  }

  /** The cells a program stores are the unmasked lanes of its tile. */
  lemma StoresTile(g: Grid, t: nat, nb: nat, sid: nat, s: nat)
    requires t < |g.w.tileSeg| == |g.w.tileM| && |g.w.start| == |g.w.len| == |g.w.lora| && sid < |g.off|
    requires g.w.tileSeg[t] == s < |g.w.lora| && g.w.lora[s] != -1
    ensures forall p, c :: g.Stores(t, nb, sid, p, c) <==>
      InTile(p, c, g.w.start[s] + g.w.tileM[t] * g.w.bm, g.w.start[s] + g.w.len[s],
             g.off[sid] + nb * g.bn, g.off[sid] + g.n, g.w.bm, g.bn)
    ensures g.w.len[s] <= g.w.tileM[t] * g.w.bm ==> forall p, c :: !g.Stores(t, nb, sid, p, c)
  {
  }

  /** The lanes of a register tile, by the cells they are stored to. */
  lemma LaneShares(d: Shrink, acc: Mat, t: nat, sid: nat, z: nat, cur: int, row0: nat, M: int, off: nat, col0: nat)
    requires d.bk * d.sk > 0 && |acc| == d.w.bm && forall i :: 0 <= i < |acc| ==> |acc[i]| == d.bn
    requires forall i, j :: 0 <= i < d.w.bm && 0 <= j < d.bn && row0 + i < M && col0 + j < d.n ==>
      acc[i][j] == d.Share(t, sid, cur + row0 + i, off + col0 + j, z)
    ensures forall p, c :: InTile(p, c, cur + row0, cur + M, off + col0, off + d.n, d.w.bm, d.bn) ==>
      acc[p - (cur + row0)][c - (off + col0)] == d.Share(t, sid, p, c, z)
  {
    hide Shrink.Share;
    forall p, c | InTile(p, c, cur + row0, cur + M, off + col0, off + d.n, d.w.bm, d.bn)
      ensures acc[p - (cur + row0)][c - (off + col0)] == d.Share(t, sid, p, c, z)
    {
      var i, j := p - (cur + row0), c - (off + col0);
      assert acc[i][j] == d.Share(t, sid, cur + row0 + i, off + col0 + j, z);
    }
  }

  lemma ProgramColumn(nb: nat, n: nat, bn: nat)
    requires bn > 0 && nb < CeilDiv(n, bn)
    ensures 0 <= nb * bn < n
  {
    CeilDivBounds(n, bn);
    ProductNonNegative(nb, bn);
    TimesGrows(nb, CeilDiv(n, bn), bn);
  }

  /** The program of K share z of slice sid. */
  function ShareProgram(t: int, nb: int, sid: int, sk: nat, z: int): Pid { (t, nb, sid * sk + z) }

  ghost function ShareIf(d: Shrink, done: set<Pid>, t: int, nb: int, sid: int, p: int, c: int, z: int): real
    requires d.bk * d.sk > 0
  {
    if ShareProgram(t, nb, sid, d.sk, z) in done then d.Share(t, sid, p, c, z) else 0.0
  }

  /** A cell of the programs (t, nb, sid) when the programs in done have run; cell0 is what it held. */
  ghost function Partial(d: Shrink, done: set<Pid>, cell0: Cell, t: int, nb: int, sid: int, p: int, c: int): Cell
    requires d.bk * d.sk > 0
  {
    if d.sk == 1 then
      if ShareProgram(t, nb, sid, 1, 0) in done then Num(d.Share(t, sid, p, c, 0)) else cell0
    else Num(Sum(d.sk, z => ShareIf(d, done, t, nb, sid, p, c, z)))
  }

  lemma PartialStart(d: Shrink, cell0: Cell, t: int, nb: int, sid: int, p: int, c: int)
    requires d.bk * d.sk > 0 && d.sk > 0 && (d.sk > 1 ==> cell0 == Num(0.0))
    ensures Partial(d, {}, cell0, t, nb, sid, p, c) == cell0
  {
    SumTail(0, d.sk, z => ShareIf(d, {}, t, nb, sid, p, c, z));
  }

  lemma ShareProgramUnique(s0: int, z0: int, sid: int, z: int, sk: nat)
    requires 0 <= z < sk && 0 <= z0 < sk && sid * sk + z == s0 * sk + z0
    ensures sid == s0 && z == z0
  {
    BlockUnique(sid, s0, sk, sid * sk + z);
  }

  lemma PartialStep(d: Shrink, done: set<Pid>, pid: Pid, s0: int, z0: int, cell0: Cell, t: int, nb: int, sid: int,
                    p: int, c: int)
    requires d.bk * d.sk > 0 && pid !in done && 0 <= z0 < d.sk && pid == ShareProgram(pid.0, pid.1, s0, d.sk, z0)
    ensures Partial(d, done + {pid}, cell0, t, nb, sid, p, c) ==
            if (t, nb, sid) == (pid.0, pid.1, s0)
            then Put(d.sk, Partial(d, done, cell0, t, nb, sid, p, c), d.Share(t, sid, p, c, z0))
            else Partial(d, done, cell0, t, nb, sid, p, c)
  {
    var f := (z: int) => ShareIf(d, done, t, nb, sid, p, c, z);
    var g := (z: int) => ShareIf(d, done + {pid}, t, nb, sid, p, c, z);
    forall z | 0 <= z < d.sk && ((t, nb, sid) != (pid.0, pid.1, s0) || z != z0)
      ensures ShareProgram(t, nb, sid, d.sk, z) != pid
    {
      if ShareProgram(t, nb, sid, d.sk, z) == pid { ShareProgramUnique(s0, z0, sid, z, d.sk); }
    }
    if (t, nb, sid) == (pid.0, pid.1, s0) {
      SumUpdate(d.sk, f, g, z0);
    } else {
      SumExt(d.sk, f, g);
    }
  }

  /** The row, adapter and column a stored cell stands for. */
  lemma StoredCell(d: Shrink, idx: seq<int>, t: int, nb: int, sid: int, p: int, j: int)
    requires d.Ok(idx) && d.bk * d.sk > 0 && 0 <= sid < |d.a| && 0 <= j < d.n
    requires d.Out().Stores(t, nb, sid, p, d.Out().Col(sid, j))
    ensures 0 <= p < |idx| && idx[p] != -1 && MatrixFits(d.a[sid], idx[p], d.n, d.kdim)
    ensures |d.x| == |idx| && |d.x[p]| == d.kdim
    ensures forall z :: (d.Share(t, sid, p, d.Out().Col(sid, j), z) ==
                         Times(d.scaling, Part(d.x[p], d.a[sid][idx[p]][j],
                                               d.bk, d.sk, z, CeilDiv(d.kdim, d.bk * d.sk))))
  {
    RowAdapter(d.w, idx, t, p);
    WeightAt(d.w, d.a, d.n, d.kdim, sid, d.w.tileSeg[t]);
  }

  /** All shares in: the whole scaled inner product. */
  lemma SharesAddUp(share: int -> real, scaling: real, xr: Vec, wr: Vec, bk: nat, sk: nat)
    requires |xr| == |wr| && bk * sk > 0
    requires forall z :: 0 <= z < sk ==> share(z) == Times(scaling, Part(xr, wr, bk, sk, z, CeilDiv(|xr|, bk * sk)))
    ensures Sum(sk, share) == Times(scaling, Dot(xr, wr))
  {
    hide CeilDiv, Times;
    var nk := CeilDiv(|xr|, bk * sk);
    var part := (z: int) => Part(xr, wr, bk, sk, z, nk);
    PartsAddUp(xr, wr, bk, sk, nk, part);
    SumScale(sk, scaling, part, share);
  }

  lemma PartialComplete(d: Shrink, idx: seq<int>, done: set<Pid>, cell0: Cell, t: int, nb: int, sid: int, j: int,
                        p: int)
    requires d.Ok(idx) && d.bk * d.sk > 0 && 0 <= sid < |d.a| && 0 <= j < d.n
    requires d.Out().Stores(t, nb, sid, p, d.Out().Col(sid, j))
    requires forall z :: 0 <= z < d.sk ==> ShareProgram(t, nb, sid, d.sk, z) in done
    ensures 0 <= p < |idx| && idx[p] != -1 && MatrixFits(d.a[sid], idx[p], d.n, d.kdim)
    ensures Partial(d, done, cell0, t, nb, sid, p, d.Out().Col(sid, j)) ==
            Num(Times(d.scaling, Dot(d.x[p], d.a[sid][idx[p]][j])))
  {
    StoredCell(d, idx, t, nb, sid, p, j);
    hide KernelReady, WeightsFit, Work.StoresRow, Grid.Stores, Dot, Part, CeilDiv, Times;
    var share := (z: int) => ShareIf(d, done, t, nb, sid, p, d.Out().Col(sid, j), z);
    forall z | 0 <= z < d.sk ensures share(z) == d.Share(t, sid, p, d.Out().Col(sid, j), z) {
      assert ShareProgram(t, nb, sid, d.sk, z) in done;
    }
    SharesAddUp(share, d.scaling, d.x[p], d.a[sid][idx[p]][j], d.bk, d.sk);
    if d.sk == 1 { assert Sum(1, share) == Sum(0, share) + share(0); }
  }

  /** The shrink launch, its programs in any order. */
  method ShrinkLaunch(d: Shrink, ghost idx: seq<int>, buf: array2<Cell>, order: seq<Pid>)
    requires d.Ok(idx) && buf.Length0 == |idx| && buf.Length1 == |d.a| * d.n
    requires Schedule(order, d.w.cap, d.Out().ColBlocks(), |d.a| * d.sk)
    requires d.sk > 1 ==> forall p, c :: 0 <= p < buf.Length0 && 0 <= c < buf.Length1 ==> buf[p, c] == Num(0.0)
    modifies buf
    ensures forall t, nb, sid, p, c ::
      0 <= p < buf.Length0 && 0 <= c < buf.Length1 && d.Out().Stores(t, nb, sid, p, c) && d.bk * d.sk > 0 ==>
        buf[p, c] == Partial(d, set pid | pid in order, old(buf[p, c]), t, nb, sid, p, c)
    ensures forall p, c :: 0 <= p < buf.Length0 && 0 <= c < buf.Length1 && !d.Out().Stored(p, c) ==>
      buf[p, c] == old(buf[p, c])
  {
    StepPositive(d.bk, d.sk);
    hide KernelReady, WeightsFit;
    ghost var done: set<Pid> := {};
    ghost var g := d.Out();
    forall t, nb, sid, p, c | 0 <= p < buf.Length0 && 0 <= c < buf.Length1 && g.Stores(t, nb, sid, p, c)
      ensures Partial(d, done, buf[p, c], t, nb, sid, p, c) == buf[p, c]
    {
      PartialStart(d, buf[p, c], t, nb, sid, p, c);
    }
    for k := 0 to |order|
      invariant done == set pid | pid in order[..k]
      invariant forall t, nb, sid, p, c ::
        0 <= p < buf.Length0 && 0 <= c < buf.Length1 && g.Stores(t, nb, sid, p, c) ==>
          buf[p, c] == Partial(d, done, old(buf[p, c]), t, nb, sid, p, c)
      invariant forall p, c :: 0 <= p < buf.Length0 && 0 <= c < buf.Length1 && !g.Stored(p, c) ==>
        buf[p, c] == old(buf[p, c])
    {
      var pid := order[k];
      assert pid in order;
      assert pid !in done;
      ProgramIndex(pid.2, d.sk, |d.a|);
      label before:
      ShrinkProgram(d, idx, buf, pid.0, pid.1, pid.2);
      forall t, nb, sid, p, c | 0 <= p < buf.Length0 && 0 <= c < buf.Length1 && g.Stores(t, nb, sid, p, c)
        ensures buf[p, c] == Partial(d, done + {pid}, old(buf[p, c]), t, nb, sid, p, c)
      {
        PartialStep(d, done, pid, pid.2 / d.sk, pid.2 % d.sk, old(buf[p, c]), t, nb, sid, p, c);
        if g.Stores(pid.0, pid.1, pid.2 / d.sk, p, c) {
          SliceColumnsDisjoint(d);
          StoresUnique(g, idx, t, nb, sid, pid.0, pid.1, pid.2 / d.sk, p, c);
        }
      }
      done := done + {pid};
      assert order[..k + 1] == order[..k] + [pid];
    }
    assert order[..|order|] == order;
  }

  lemma SliceColumnsDisjoint(d: Shrink)
    requires d.bn > 0
    ensures d.Out().Disjoint()
  {
    forall i, j | 0 <= i < j < |d.a| ensures i * d.n + d.n <= j * d.n { TimesGrows(i, j, d.n); }
    forall i | 0 <= i < |d.a| ensures i * d.n >= 0 { ProductNonNegative(i, d.n); }
  }

  // ---- expand ------------------------------------------------------------------------------------

  datatype Expand = Expand(w: Work, b: seq<seq<Mat>>, n: nat, kdim: nat, bn: nat, bk: nat, yoff: seq<int>,
                           addInputs: bool)
  {
    ghost predicate Ok(idx: seq<int>) {
      w.Ready(idx) && bn > 0 && bk > 0 && |yoff| == |b| && Out().Disjoint() && WeightsFit(w, b, n, kdim)
    }

    function Out(): Grid { Grid(w, yoff, n, bn) }
  }

  /** Every buffer cell the expand kernel may read has been written. */
  ghost predicate Written(buf: array2<Cell>, idx: seq<int>)
    requires buf.Length0 == |idx|
    reads buf
  {
    forall p, c :: 0 <= p < |idx| && idx[p] != -1 && 0 <= c < buf.Length1 ==> buf[p, c].Num?
  }

  /** Columns c0 .. c0+n of buffer row p. */
  function BufRow(buf: array2<Cell>, p: nat, c0: nat, n: nat): (r: Vec)
    requires p < buf.Length0 && c0 + n <= buf.Length1
    requires forall c :: c0 <= c < c0 + n ==> buf[p, c].Num?
    reads buf
    ensures |r| == n && forall k :: 0 <= k < n ==> r[k] == buf[p, c0 + k].v
  {
    seq(n, k requires 0 <= k < n && p < buf.Length0 && c0 + n <= buf.Length1 && buf[p, c0 + k].Num?
      reads buf => buf[p, c0 + k].v)
  }

  /** The value the program row t of slice sid adds to cell (p, c). */
  ghost function Delta(d: Expand, buf: array2<Cell>, t: int, sid: int, p: int, c: int): real
    reads buf
  {
    if 0 <= t < |d.w.tileSeg| && 0 <= d.w.tileSeg[t] < |d.w.lora| && 0 <= sid < |d.b| && |d.yoff| == |d.b|
       && 0 <= d.w.lora[d.w.tileSeg[t]] < |d.b[sid]| && 0 <= p < buf.Length0
       && 0 <= c - d.yoff[sid] < |d.b[sid][d.w.lora[d.w.tileSeg[t]]]|
       && 0 <= sid * d.kdim && sid * d.kdim + d.kdim <= buf.Length1
       && (forall k :: sid * d.kdim <= k < sid * d.kdim + d.kdim ==> buf[p, k].Num?)
    then Dot(BufRow(buf, p, sid * d.kdim, d.kdim), d.b[sid][d.w.lora[d.w.tileSeg[t]]][c - d.yoff[sid]])
    else 0.0
  }

  method WrapBufRows(buf: array2<Cell>, base: nat, from: nat, count: nat, m: nat, c0: nat, n: nat) returns (r: Mat)
    requires m > 0 && base + m <= buf.Length0 && c0 + n <= buf.Length1
    requires forall p, c :: base <= p < base + m && 0 <= c < buf.Length1 ==> buf[p, c].Num?
    ensures |r| == count && forall i :: 0 <= i < count ==> |r[i]| == n
    ensures forall i :: 0 <= i < count && from + i < m ==> r[i] == BufRow(buf, base + from + i, c0, n)
  {
    r := [];
    for i := 0 to count
      invariant |r| == i && forall k :: 0 <= k < i ==> |r[k]| == n
      invariant forall k :: 0 <= k < i && from + k < m ==> r[k] == BufRow(buf, base + from + k, c0, n)
    {
      r := r + [BufRow(buf, base + Wrap(from + i, m), c0, n)];
    }
  }

  lemma OneShareIsAll(xr: Vec, wr: Vec, bk: nat)
    requires |xr| == |wr| && bk > 0
    ensures Part(xr, wr, bk, 1, 0, CeilDiv(|xr|, bk * 1)) == Dot(xr, wr)
  {
    var nk := CeilDiv(|xr|, bk * 1);
    var part := (z: int) => Part(xr, wr, bk, 1, z, nk);
    PartsAddUp(xr, wr, bk, 1, nk, part);
    assert Sum(1, part) == Sum(0, part) + part(0);
  }

  method ExpandTile(d: Expand, ghost idx: seq<int>, buf: array2<Cell>, t: nat, s: nat, l: nat, row0: nat, col0: nat,
                    sid: nat)
    returns (acc: Mat)
    requires d.Ok(idx) && buf.Length0 == |idx| && buf.Length1 == |d.b| * d.kdim && Written(buf, idx)
    requires t < |d.w.tileSeg| && d.w.tileSeg[t] == s < |d.w.lora| && d.w.lora[s] == l
    requires sid < |d.b| && row0 < d.w.len[s] && col0 < d.n
    ensures |acc| == d.w.bm && forall i :: 0 <= i < |acc| ==> |acc[i]| == d.bn
    ensures forall i, j :: 0 <= i < d.w.bm && 0 <= j < d.bn && row0 + i < d.w.len[s] && col0 + j < d.n ==>
              acc[i][j] == Delta(d, buf, t, sid, d.w.start[s] + row0 + i, d.yoff[sid] + col0 + j)
  {
    var M, cur := d.w.len[s], d.w.start[s];
    assert MatrixFits(d.b[sid], l, d.n, d.kdim);
    forall p | cur <= p < cur + M ensures idx[p] != -1 { assert InSegment(d.w.start, d.w.len, s, p); }
    hide KernelReady, WeightsFit;
    InSlice(sid, |d.b|, d.kdim);
    var xs := WrapBufRows(buf, cur, row0, d.w.bm, M, sid * d.kdim, d.kdim);
    var ws := WrapRows(d.b[sid][l], 0, col0, d.bn, d.n, d.kdim);
    acc := Accumulate(xs, ws, d.kdim, d.bk, 1, 0, d.kdim % d.bk == 0);
    hide Part, Dot, CeilDiv;
    forall i, j | 0 <= i < d.w.bm && 0 <= j < d.bn && row0 + i < M && col0 + j < d.n
      ensures acc[i][j] == Delta(d, buf, t, sid, cur + row0 + i, d.yoff[sid] + col0 + j)
    {
      OneShareIsAll(xs[i], ws[j], d.bk);
    }
  }

  /** Masked store of a register tile, on top of what is there if addInputs. */
  method AddTile(y: array2<real>, acc: Mat, row: nat, rowEnd: nat, col: nat, colEnd: nat, bm: nat, bn: nat,
                 addInputs: bool)
    requires rowEnd <= y.Length0 && colEnd <= y.Length1
    requires |acc| == bm && forall i :: 0 <= i < bm ==> |acc[i]| == bn
    modifies y
    ensures forall p, c :: 0 <= p < y.Length0 && 0 <= c < y.Length1 ==>
      y[p, c] == if InTile(p, c, row, rowEnd, col, colEnd, bm, bn)
                 then (if addInputs then old(y[p, c]) else 0.0) + acc[p - row][c - col] else old(y[p, c])
  {
    forall i, j | 0 <= i < bm && 0 <= j < bn && row + i < rowEnd && col + j < colEnd {
      y[row + i, col + j] := (if addInputs then y[row + i, col + j] else 0.0) + acc[i][j];
    }
  }

  /** One program of the expand launch. */
  method ExpandProgram(d: Expand, ghost idx: seq<int>, buf: array2<Cell>, y: array2<real>, pidT: nat, pidN: nat,
                       sid: nat)
    requires d.Ok(idx) && buf.Length0 == |idx| == y.Length0 && buf.Length1 == |d.b| * d.kdim && Written(buf, idx)
    requires forall i :: 0 <= i < |d.yoff| ==> d.yoff[i] + d.n <= y.Length1
    requires pidT < d.w.cap && pidN < d.Out().ColBlocks() && sid < |d.b|
    modifies y
    ensures forall p, c :: 0 <= p < y.Length0 && 0 <= c < y.Length1 ==>
      y[p, c] == if d.Out().Stores(pidT, pidN, sid, p, c)
                 then (if d.addInputs then old(y[p, c]) else 0.0) + Delta(d, buf, pidT, sid, p, c) else old(y[p, c])
  {
    hide KernelReady, WeightsFit, Written, Delta;
    SlotFacts(d.w, idx, pidT);
    var s := d.w.tileSeg[pidT];
    if s < 0 { return; }
    var lora := d.w.lora[s];
    if lora == -1 { return; }
    ExpandTileSlice(d, idx, buf, y, pidT, pidN, sid, s, lora);
  }

  method ExpandTileSlice(d: Expand, ghost idx: seq<int>, buf: array2<Cell>, y: array2<real>, pidT: nat, pidN: nat,
                         sid: nat, s: nat, lora: int)
    requires d.Ok(idx) && buf.Length0 == |idx| == y.Length0 && buf.Length1 == |d.b| * d.kdim && Written(buf, idx)
    requires forall i :: 0 <= i < |d.yoff| ==> d.yoff[i] + d.n <= y.Length1
    requires pidT < d.w.cap && pidN < d.Out().ColBlocks() && sid < |d.b|
    requires pidT < |d.w.tileSeg| && d.w.tileSeg[pidT] == s < |d.w.lora| && d.w.lora[s] == lora != -1
    modifies y
    ensures forall p, c :: 0 <= p < y.Length0 && 0 <= c < y.Length1 ==>
      y[p, c] == if d.Out().Stores(pidT, pidN, sid, p, c)
                 then (if d.addInputs then old(y[p, c]) else 0.0) + Delta(d, buf, pidT, sid, p, c) else old(y[p, c])
  {
    hide KernelReady, WeightsFit, Written, Delta;
    SlotFacts(d.w, idx, pidT);
    var M := d.w.len[s];
    var row0 := d.w.tileM[pidT] * d.w.bm;
    if row0 >= M { return; }
    var cur, col0, off := d.w.start[s], pidN * d.bn, d.yoff[sid];
    ProgramColumn(pidN, d.n, d.bn);
    ProductNonNegative(d.w.tileM[pidT], d.w.bm);
    WeightAt(d.w, d.b, d.n, d.kdim, sid, s);
    var acc := ExpandTile(d, idx, buf, pidT, s, lora, row0, col0, sid);
    forall p, c ensures d.Out().Stores(pidT, pidN, sid, p, c) <==>
                        InTile(p, c, cur + row0, cur + M, off + col0, off + d.n, d.w.bm, d.bn) {
    }
    hide Grid.Stores;
    AddTile(y, acc, cur + row0, cur + M, off + col0, off + d.n, d.w.bm, d.bn, d.addInputs);
  }

  /** The expand launch, its programs in any order: each stored cell is written by exactly one. */
  method ExpandLaunch(d: Expand, ghost idx: seq<int>, buf: array2<Cell>, y: array2<real>, order: seq<Pid>)
    requires d.Ok(idx) && buf.Length0 == |idx| == y.Length0 && buf.Length1 == |d.b| * d.kdim && Written(buf, idx)
    requires forall i :: 0 <= i < |d.yoff| ==> d.yoff[i] + d.n <= y.Length1
    requires Schedule(order, d.w.cap, d.Out().ColBlocks(), |d.b|)
    modifies y
    ensures forall t, nb, sid, p, c ::
      0 <= p < y.Length0 && 0 <= c < y.Length1 && d.Out().Stores(t, nb, sid, p, c) ==>
        y[p, c] == if (t, nb, sid) in order
                   then (if d.addInputs then old(y[p, c]) else 0.0) + Delta(d, buf, t, sid, p, c)
                   else old(y[p, c])
    ensures forall p, c :: 0 <= p < y.Length0 && 0 <= c < y.Length1 && !d.Out().Stored(p, c) ==> y[p, c] == old(y[p, c])
  {
    hide KernelReady, WeightsFit, Written, Delta;
    ghost var g := d.Out();
    for k := 0 to |order|
      invariant forall t, nb, sid, p, c ::
        0 <= p < y.Length0 && 0 <= c < y.Length1 && g.Stores(t, nb, sid, p, c) ==>
          y[p, c] == if (t, nb, sid) in order[..k]
                     then (if d.addInputs then old(y[p, c]) else 0.0) + Delta(d, buf, t, sid, p, c)
                     else old(y[p, c])
      invariant forall p, c :: 0 <= p < y.Length0 && 0 <= c < y.Length1 && !g.Stored(p, c) ==> y[p, c] == old(y[p, c])
    {
      var pid := order[k];
      assert pid in order;
      assert pid !in order[..k];
      assert order[..k + 1] == order[..k] + [pid];
      ExpandProgram(d, idx, buf, y, pid.0, pid.1, pid.2);
      forall t, nb, sid, p, c | 0 <= p < y.Length0 && 0 <= c < y.Length1 && g.Stores(t, nb, sid, p, c)
        ensures g.Stores(pid.0, pid.1, pid.2, p, c) ==> (t, nb, sid) == pid
      {
        if g.Stores(pid.0, pid.1, pid.2, p, c) { StoresUnique(g, idx, t, nb, sid, pid.0, pid.1, pid.2, p, c); }
      }
    }
    assert order[..|order|] == order;
  }
}
