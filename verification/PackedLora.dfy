/**
 The whole LoRA update of a packed projection: one shrink launch into a scratch buffer and one expand
 launch onto the output, against the per-token definition y += scaling * (x A^T) B^T.
 */
module PackedLora {
  import opened Arithmetic
  import opened Common
  import opened SegmentedWrapper
  import opened Sums
  import opened TiledGemm
  import opened TiledLaunch

  /** (BLOCK_N, BLOCK_K, SPLIT_K) of the shrink launch. */
  function ShrinkCfg(rank: nat): (r: (nat, nat, nat))
    ensures r.0 > 0 && r.1 > 0 && r.2 > 1
    ensures rank < 64 ==> r == (16, 64, 16)
    ensures 64 <= rank < 128 ==> r == (16, 64, 8)
    ensures 128 <= rank ==> r == (32, 64, 4)
  {
    if rank >= 128 then (32, 64, 4) else if rank >= 64 then (16, 64, 8) else (16, 64, 16)
  }

  /** (BLOCK_N, BLOCK_K) of the expand launch. */
  function ExpandCfg(rank: nat): (r: (nat, nat))
    requires rank > 0
    ensures r.0 > 0 && r.1 > 0
    ensures rank < 32 ==> r == (128, rank)
    ensures 32 <= rank < 128 ==> r == (128, 32)
    ensures 128 <= rank ==> r == (64, 32)
  {
    if rank >= 128 then (64, 32) else (128, if rank < 32 then rank else 32)
  }

  function SplitK(rank: nat, isPrefill: bool): (sk: nat)
    ensures sk > 0 && (sk == 1 <==> isPrefill) && (isPrefill || sk == ShrinkCfg(rank).2)
  {
    if isPrefill then 1 else ShrinkCfg(rank).2
  }

  /** scaling * A x, one entry per rank. */
  ghost function Hidden(x: Vec, a: Mat, scaling: real): (h: Vec)
    ensures |h| == |a| && forall r :: 0 <= r < |h| ==> h[r] == Times(scaling, Dot(x, a[r]))
  {
    seq(|a|, r requires 0 <= r < |a| => Times(scaling, Dot(x, a[r])))
  }

  /** One output entry of one token's LoRA update: the definition the kernels must meet. */
  ghost function LoraEntry(x: Vec, a: Mat, b: Mat, scaling: real, j: nat): real
    requires j < |b|
  {
    Dot(Hidden(x, a, scaling), b[j])
  }

  /** An output entry of a token using adapter slot l went from was to now by that adapter's update. */
  ghost predicate Updated(was: real, now: real, x: Vec, a: seq<Mat>, b: seq<Mat>, l: int, scaling: real, j: int) {
    0 <= l < |a| && 0 <= l < |b| && 0 <= j < |b[l]| && now == was + LoraEntry(x, a[l], b[l], scaling, j)
  }

  /** Column c belongs to no slice. */
  ghost predicate Outside(off: seq<int>, n: nat, c: int) {
    forall sid :: 0 <= sid < |off| ==> c < off[sid] || off[sid] + n <= c
  }

  function OutCol(sid: int, nOut: int, j: int): int { sid * nOut + j }

  ghost function WorkOf(w: Wrapper): Work
    reads w, w.segStart, w.segLen, w.segLora, w.tileSeg, w.tileM
  {
    Work(w.segStart[..], w.segLen[..], w.segLora[..], w.tileSeg[..], w.tileM[..], w.tileCap, w.bm)
  }

  /** What a finished shrink launch left in the buffer. */
  ghost predicate Shrunk(d: Shrink, idx: seq<int>, buf: array2<Cell>)
    requires d.Ok(idx) && buf.Length0 == |idx| && buf.Length1 == |d.a| * d.n
    reads buf
  {
    forall p, sid :: 0 <= p < |idx| && idx[p] != -1 && 0 <= sid < |d.a| ==> RowShrunk(d, idx, buf, p, sid)
  }

  ghost predicate RowShrunk(d: Shrink, idx: seq<int>, buf: array2<Cell>, p: int, sid: int)
    requires d.Ok(idx) && buf.Length0 == |idx| && buf.Length1 == |d.a| * d.n
    requires 0 <= p < |idx| && 0 <= sid < |d.a|
    reads buf
  {
    && 0 <= idx[p] < |d.a[sid]| && |d.a[sid][idx[p]]| == d.n
    && 0 <= sid * d.n && sid * d.n + d.n <= buf.Length1
    && (forall c :: sid * d.n <= c < sid * d.n + d.n ==> buf[p, c].Num?)
    && BufRow(buf, p, sid * d.n, d.n) == Hidden(d.x[p], d.a[sid][idx[p]], d.scaling)
  }

  /** The launch's cell-wise result, read back per token and slice. */
  lemma CellsMakeRow(d: Shrink, idx: seq<int>, buf: array2<Cell>, p: int, sid: int)
    requires d.Ok(idx) && buf.Length0 == |idx| && buf.Length1 == |d.a| * d.n && d.bk * d.sk > 0
    requires 0 <= p < |idx| && 0 <= sid < |d.a| && idx[p] != -1 && MatrixFits(d.a[sid], idx[p], d.n, d.kdim)
    requires 0 <= sid * d.n && sid * d.n + d.n <= buf.Length1
    requires forall j :: 0 <= j < d.n ==>
      buf[p, OutCol(sid, d.n, j)] == Num(Times(d.scaling, Dot(d.x[p], d.a[sid][idx[p]][j])))
    ensures RowShrunk(d, idx, buf, p, sid)
  {
    hide KernelReady, WeightsFit, Dot;
    forall c | sid * d.n <= c < sid * d.n + d.n ensures buf[p, c].Num? {
      assert c == OutCol(sid, d.n, c - sid * d.n);
    }
    var r, h := BufRow(buf, p, sid * d.n, d.n), Hidden(d.x[p], d.a[sid][idx[p]], d.scaling);
    forall j | 0 <= j < d.n ensures r[j] == h[j] {
      assert buf[p, OutCol(sid, d.n, j)].Num?;
    }
  }

  method RunShrink(d: Shrink, ghost idx: seq<int>, buf: array2<Cell>, order: seq<Pid>)
    requires d.Ok(idx) && buf.Length0 == |idx| && buf.Length1 == |d.a| * d.n
    requires Schedule(order, d.w.cap, d.Out().ColBlocks(), |d.a| * d.sk)
    requires d.sk > 1 ==> forall p, c :: 0 <= p < buf.Length0 && 0 <= c < buf.Length1 ==> buf[p, c] == Num(0.0)
    modifies buf
    ensures Shrunk(d, idx, buf)
    ensures forall p, c :: 0 <= p < buf.Length0 && 0 <= c < buf.Length1 && idx[p] == -1 ==> buf[p, c] == old(buf[p, c])
  {
    hide KernelReady, WeightsFit, Partial, Dot, Times, Grid.Stores, Work.StoresRow, Schedule;
    StepPositive(d.bk, d.sk);
    ShrinkLaunch(d, idx, buf, order);
    SliceColumnsDisjoint(d);
    forall p, sid | 0 <= p < |idx| && idx[p] != -1 && 0 <= sid < |d.a| ensures RowShrunk(d, idx, buf, p, sid) {
      InSlice(sid, |d.a|, d.n);
      var t0 := RowOwnerExists(d.w, idx, p);
      RowAdapter(d.w, idx, t0, p);
      RowWeight(d, idx, p, sid);
      forall j | 0 <= j < d.n
        ensures buf[p, OutCol(sid, d.n, j)] == Num(Times(d.scaling, Dot(d.x[p], d.a[sid][idx[p]][j])))
      {
        var t, nb := CellComplete(d, idx, order, old(buf[p, OutCol(sid, d.n, j)]), p, sid, j);
      }
      CellsMakeRow(d, idx, buf, p, sid);
    }
    forall p, c | 0 <= p < buf.Length0 && 0 <= c < buf.Length1 && idx[p] == -1 ensures !d.Out().Stored(p, c) {
      NotStored(d.Out(), idx, p, c);
    }
  }

  /** When a schedule has run, the cell of column j of the slice has all its shares. */
  lemma CellComplete(d: Shrink, idx: seq<int>, order: seq<Pid>, cell0: Cell, p: nat, sid: nat, j: nat)
    returns (t: nat, nb: nat)
    requires d.Ok(idx) && d.bk * d.sk > 0 && p < |idx| && idx[p] != -1 && sid < |d.a| && j < d.n
    requires Schedule(order, d.w.cap, d.Out().ColBlocks(), |d.a| * d.sk)
    ensures d.Out().Stores(t, nb, sid, p, OutCol(sid, d.n, j)) && MatrixFits(d.a[sid], idx[p], d.n, d.kdim)
    ensures Partial(d, (set pid | pid in order), cell0, t, nb, sid, p, OutCol(sid, d.n, j)) ==
      Num(Times(d.scaling, Dot(d.x[p], d.a[sid][idx[p]][j])))
  {
    hide KernelReady, WeightsFit, Partial, Dot, Times, Grid.Stores, Work.StoresRow, Schedule;
    SliceColumnsDisjoint(d);
    t, nb := StoresExists(d.Out(), idx, p, sid, j);
    SharesRan(order, d.w.cap, d.Out().ColBlocks(), |d.a|, d.sk, t, nb, sid);
    PartialComplete(d, idx, (set pid | pid in order), cell0, t, nb, sid, j, p);
  }

  /** A schedule runs every share of a tile. */
  lemma SharesRan(order: seq<Pid>, cap: nat, blocks: nat, ns: nat, sk: nat, t: nat, nb: nat, sid: nat)
    requires Schedule(order, cap, blocks, ns * sk) && t < cap && nb < blocks && sid < ns
    ensures forall z :: 0 <= z < sk ==> ShareProgram(t, nb, sid, sk, z) in order
  {
    forall z | 0 <= z < sk ensures ShareProgram(t, nb, sid, sk, z) in order {
      ShareInGrid(sid, ns, sk, z);
      assert InGrid(ShareProgram(t, nb, sid, sk, z), cap, blocks, ns * sk);
    }
  }

  lemma ShareInGrid(sid: nat, ns: nat, sk: nat, z: nat)
    requires sid < ns && z < sk
    ensures 0 <= sid * sk + z < ns * sk
  {
    ProductNonNegative(sid, sk);
    TimesGrows(sid, ns, sk);
  }

  lemma RowWeight(d: Shrink, idx: seq<int>, p: int, sid: int)
    requires d.Ok(idx) && 0 <= p < |idx| && idx[p] != -1 && 0 <= sid < |d.a|
    ensures MatrixFits(d.a[sid], idx[p], d.n, d.kdim)
  {
    var t := RowOwnerExists(d.w, idx, p);
    RowAdapter(d.w, idx, t, p);
    WeightAt(d.w, d.a, d.n, d.kdim, sid, d.w.tileSeg[t]);
  }

  /** Nothing is stored in the row of a token without an adapter. */
  lemma NotStored(g: Grid, idx: seq<int>, p: int, c: int)
    requires g.w.Ready(idx) && 0 <= p < |idx| && idx[p] == -1
    ensures !g.Stored(p, c)
  {
    if g.Stored(p, c) {
      var t, nb, sid :| g.Stores(t, nb, sid, p, c);
      RowAdapter(g.w, idx, t, p);
    }
  }

  /** What the expand launch adds to column j of slice sid of a token's row. */
  lemma DeltaIsLora(e: Expand, d: Shrink, idx: seq<int>, buf: array2<Cell>, t: int, nb: int, sid: int, p: int, j: int)
    requires e.Ok(idx) && d.Ok(idx) && d.w == e.w && |d.a| == |e.b| && d.n == e.kdim
    requires buf.Length0 == |idx| && buf.Length1 == |d.a| * d.n && Shrunk(d, idx, buf)
    requires 0 <= sid < |e.b| && 0 <= j < e.n && e.Out().Stores(t, nb, sid, p, e.Out().Col(sid, j))
    ensures 0 <= p < |idx| && idx[p] != -1
    ensures MatrixFits(d.a[sid], idx[p], d.n, d.kdim) && MatrixFits(e.b[sid], idx[p], e.n, e.kdim)
    ensures Delta(e, buf, t, sid, p, e.Out().Col(sid, j)) ==
            LoraEntry(d.x[p], d.a[sid][idx[p]], e.b[sid][idx[p]], d.scaling, j)
  {
    RowAdapter(e.w, idx, t, p);
    WeightAt(d.w, d.a, d.n, d.kdim, sid, d.w.tileSeg[t]);
    WeightAt(e.w, e.b, e.n, e.kdim, sid, e.w.tileSeg[t]);
    hide KernelReady, WeightsFit, Dot;
    assert RowShrunk(d, idx, buf, p, sid);
  }

  lemma WrittenRows(d: Shrink, idx: seq<int>, buf: array2<Cell>)
    requires d.Ok(idx) && buf.Length0 == |idx| && buf.Length1 == |d.a| * d.n && Shrunk(d, idx, buf)
    ensures Written(buf, idx)
  {
    hide KernelReady, WeightsFit, Hidden;
    forall p, c | 0 <= p < |idx| && idx[p] != -1 && 0 <= c < buf.Length1 ensures buf[p, c].Num? {
      var sid := SliceOf(c, |d.a|, d.n);
      assert RowShrunk(d, idx, buf, p, sid);
    }
  }

  /** The slice a packed column belongs to. */
  lemma SliceOf(c: nat, ns: nat, n: nat) returns (sid: nat)
    requires c < ns * n
    ensures sid < ns && sid * n <= c < sid * n + n
  {
    assert n > 0;
    sid := c / n;
    assert sid * n <= c < sid * n + n;
    assert (sid + 1) * n == sid * n + n;
    if sid >= ns { TimesGrowsOrEqual(ns, sid, n); }
  }

  method RunExpand(e: Expand, ghost d: Shrink, ghost idx: seq<int>, buf: array2<Cell>, y: array2<real>, order: seq<Pid>)
    requires e.Ok(idx) && d.Ok(idx) && d.w == e.w && |d.a| == |e.b| && d.n == e.kdim && e.addInputs
    requires buf.Length0 == |idx| == y.Length0 && buf.Length1 == |d.a| * d.n && Shrunk(d, idx, buf)
    requires forall i :: 0 <= i < |e.yoff| ==> e.yoff[i] + e.n <= y.Length1
    requires Schedule(order, e.w.cap, e.Out().ColBlocks(), |e.b|)
    modifies y
    ensures forall p, sid, j :: 0 <= p < |idx| && 0 <= sid < |e.b| && 0 <= j < e.n && idx[p] != -1 ==>
      Updated(old(y[p, e.Out().Col(sid, j)]), y[p, e.Out().Col(sid, j)],
              d.x[p], d.a[sid], e.b[sid], idx[p], d.scaling, j)
    ensures forall p, c :: 0 <= p < |idx| && 0 <= c < y.Length1 && (idx[p] == -1 || Outside(e.yoff, e.n, c)) ==>
      y[p, c] == old(y[p, c])
  {
    WrittenRows(d, idx, buf);
    ExpandLaunch(e, idx, buf, y, order);
    hide KernelReady, WeightsFit, Delta, LoraEntry, Written, Work.StoresRow;
    forall p, sid, j | 0 <= p < |idx| && 0 <= sid < |e.b| && 0 <= j < e.n && idx[p] != -1
      ensures Updated(old(y[p, e.Out().Col(sid, j)]), y[p, e.Out().Col(sid, j)],
                      d.x[p], d.a[sid], e.b[sid], idx[p], d.scaling, j)
    {
      var t, nb := StoresExists(e.Out(), idx, p, sid, j);
      assert InGrid((t, nb, sid), e.w.cap, e.Out().ColBlocks(), |e.b|);
      DeltaIsLora(e, d, idx, buf, t, nb, sid, p, j);
    }
    forall p, c | 0 <= p < |idx| && 0 <= c < y.Length1 && (idx[p] == -1 || Outside(e.yoff, e.n, c))
      ensures !e.Out().Stored(p, c)
    {
      if idx[p] == -1 {
        NotStored(e.Out(), idx, p, c);
      } else if e.Out().Stored(p, c) {
        var t, nb, sid :| e.Out().Stores(t, nb, sid, p, c);
        ProductNonNegative(nb, e.bn);
      }
    }
  }

  /**
   The update of a packed projection of ns equal slices.  orderA and orderB are whatever order the
   hardware runs the two grids in.
   */
  method AddLoraPackedNslice(w: Wrapper, x: Mat, a: seq<seq<Mat>>, b: seq<seq<Mat>>, scaling: real, kdim: nat,
                             rank: nat, nOut: nat, isPrefill: bool, y: array2<real>, orderA: seq<Pid>, orderB: seq<Pid>)
    requires w.Valid() && w.Ready() && rank > 0 && 1 <= |a| == |b| <= 3
    requires |x| == |w.indices| == y.Length0 && (forall p :: 0 <= p < |x| ==> |x[p]| == kdim) && |b| * nOut <= y.Length1
    requires WeightsFit(WorkOf(w), a, rank, kdim) && WeightsFit(WorkOf(w), b, nOut, rank)
    requires Schedule(orderA, w.tileCap, CeilDiv(rank, ShrinkCfg(rank).0), |a| * SplitK(rank, isPrefill))
    requires Schedule(orderB, w.tileCap, CeilDiv(nOut, ExpandCfg(rank).0), |b|)
    modifies y
    ensures forall p, sid, j :: 0 <= p < |x| && 0 <= sid < |b| && 0 <= j < nOut && w.indices[p] != -1 ==>
      0 <= OutCol(sid, nOut, j) < y.Length1 &&
      Updated(old(y[p, OutCol(sid, nOut, j)]), y[p, OutCol(sid, nOut, j)],
              x[p], a[sid], b[sid], w.indices[p], scaling, j)
    ensures forall p, c :: 0 <= p < |x| && 0 <= c < y.Length1 && (w.indices[p] == -1 || c >= |b| * nOut) ==>
      y[p, c] == old(y[p, c])
  {
    hide KernelReady, WeightsFit, LoraEntry, Shrunk, Work.StoresRow, Schedule;
    var work := Work(w.segStart[..], w.segLen[..], w.segLora[..], w.tileSeg[..], w.tileM[..], w.tileCap, w.bm);
    var ns, idx := |a|, w.indices;
    var (bn, bk, _) := ShrinkCfg(rank);
    var sk := SplitK(rank, isPrefill);
    var buf: array2<Cell>;
    if sk > 1 {
      buf := new Cell[|x|, ns * rank]((p, c) => Num(0.0));   // torch.zeros
    } else {
      buf := new Cell[|x|, ns * rank]((p, c) => Blank);      // torch.empty
    }
    var d := Shrink(work, x, a, scaling, rank, kdim, bn, bk, sk);
    RunShrink(d, idx, buf, orderA);
    var (bn2, bk2) := ExpandCfg(rank);
    var e := Expand(work, b, nOut, rank, bn2, bk2, seq(ns, i => i * nOut), true);
    OutputSlices(e, ns, nOut, y.Length1);
    RunExpand(e, d, idx, buf, y, orderB);
    forall p, sid, j | 0 <= p < |x| && 0 <= sid < |b| && 0 <= j < nOut && idx[p] != -1
      ensures OutCol(sid, nOut, j) == e.Out().Col(sid, j) && 0 <= OutCol(sid, nOut, j) < y.Length1
    {
      InSlice(sid, |b|, nOut);
    }
    forall c | |b| * nOut <= c < y.Length1 ensures Outside(e.yoff, e.n, c) {
      forall sid | 0 <= sid < |b| ensures e.yoff[sid] + e.n <= c { InSlice(sid, |b|, nOut); }
    }
  }

  lemma OutputSlices(e: Expand, ns: nat, nOut: nat, width: nat)
    requires e.bn > 0 && e.n == nOut && e.yoff == seq(ns, i => i * nOut) && ns * nOut <= width
    ensures e.Out().Disjoint() && forall i :: 0 <= i < ns ==> e.yoff[i] + nOut <= width
  {
    forall i, j | 0 <= i < j < ns ensures e.yoff[i] + nOut <= e.yoff[j] { TimesGrows(i, j, nOut); }
    forall i | 0 <= i < ns ensures e.yoff[i] >= 0 && e.yoff[i] + nOut <= width { InSlice(i, ns, nOut); }
  }
}
