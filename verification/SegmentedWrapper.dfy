/**
 The wrapper's per-step metadata refresh: persistent segment and work-list buffers, filled in place
 before the kernels of the step are launched.
 */
module SegmentedWrapper {
  import opened Arithmetic
  import opened Segments
  import opened TileMap

  /** Tokens per step the work-list buffers are sized for. */
  const TILE_MAP_TOKENS: nat := 8192

  /** Everything the tile kernels rely on for a step over the tokens idx. */
  ghost predicate KernelReady(idx: seq<int>, start: seq<int>, len: seq<int>, lora: seq<int>, tileSeg: seq<int>,
                              tileM: seq<int>, tileCap: nat, bm: nat)
  {
    && bm > 0
    && Faithful(idx, start, len, lora)
    && WorkList(len, bm, tileSeg, tileM)
    && TilesBefore(len, bm, |len|) < tileCap <= |tileSeg|
  }

  /** The launch grid and the buffers hold every tile of a described batch. */
  lemma LaunchHolds(idx: seq<int>, start: seq<int>, len: seq<int>, lora: seq<int>, bm: nat)
    requires bm > 0 && Faithful(idx, start, len, lora) && NonNegative(len) && |idx| <= TILE_MAP_TOKENS
    ensures TilesBefore(len, bm, |len|) < CeilDiv(|idx|, bm) + |len| + 1 <= CeilDiv(TILE_MAP_TOKENS, bm) + |len| + 1
  {
    TokensInOrder(idx, start, len, lora, |len|);
    LaunchCoversTiles(len, bm, |idx|);
    CeilDivMonotone(|idx|, TILE_MAP_TOKENS, bm);
  }

  lemma {:induction false} TokensInOrder(idx: seq<int>, start: seq<int>, len: seq<int>, lora: seq<int>, s: nat)
    requires Faithful(idx, start, len, lora) && NonNegative(len) && s <= |len|
    ensures TokensBefore(len, s) <= |idx|
    ensures forall t :: s <= t < |len| && len[t] > 0 ==> TokensBefore(len, s) <= start[t]
  {
    if s > 0 {
      TokensInOrder(idx, start, len, lora, s - 1);
      if len[s - 1] == 0 { assert TokensBefore(len, s) == TokensBefore(len, s - 1); }
    }
  }

  class Wrapper {
    const bm: nat           // tile height, shared by map and kernels
    var indices: seq<int>   // token_lora_indices of the step
    var segCap: int
    var segStart: array<int>
    var segLen: array<int>
    var segLora: array<int>
    var tileSeg: array<int>
    var tileM: array<int>
    var tileCap: nat
    var prefillOk: bool

    ghost predicate Valid()
      reads this
    {
      && bm > 0
      && segStart != segLen && segStart != segLora && segLen != segLora && tileSeg != tileM
      && {segStart, segLen, segLora} !! {tileSeg, tileM}
      && (segCap >= 0 ==> segStart.Length == segLen.Length == segLora.Length == segCap)
      && tileSeg.Length == tileM.Length
    }

    ghost function Buffers(): set<object>
      reads this
    {
      {segStart, segLen, segLora, tileSeg, tileM}
    }

    constructor Install(bm: nat)
      requires bm > 0
      ensures Valid() && fresh(Buffers()) && segCap == -1 && !prefillOk && this.bm == bm
      ensures indices == [] && tileCap == segStart.Length == segLen.Length == segLora.Length == tileSeg.Length == 0
    {
      this.bm := bm;
      indices, segCap, tileCap, prefillOk := [], -1, 0, false;
      segStart, segLen, segLora := new int[0], new int[0], new int[0];
      tileSeg, tileM := new int[0], new int[0];
    }

    /** Segment buffers for this slot count, reallocated only when the count changes, and cleared. */
    method ClearSegments(nLoras: nat)
      requires Valid()
      modifies this`segCap, this`segStart, this`segLen, this`segLora, segStart, segLen, segLora
      ensures Valid() && segCap == nLoras && fresh(Buffers() - old(Buffers()))
      ensures old(segCap) == nLoras ==>
        segStart == old(segStart) && segLen == old(segLen) && segLora == old(segLora)
      ensures forall s :: 0 <= s < nLoras ==> segStart[s] == 0 && segLen[s] == 0 && segLora[s] == -1
    {
      if segCap != nLoras {
        segCap := nLoras;
        segStart, segLen, segLora := new int[nLoras], new int[nLoras], new int[nLoras];
      }
      forall s | 0 <= s < nLoras { segStart[s] := 0; }
      forall s | 0 <= s < nLoras { segLen[s] := 0; }
      forall s | 0 <= s < nLoras { segLora[s] := -1; }
    }

    /** Recompute the segment slots from the step's indices. */
    method RefreshSegments(nLoras: nat) returns (n: nat)
      requires Valid() && nLoras > 0
      modifies this`segCap, this`segStart, this`segLen, this`segLora, segStart, segLen, segLora
      ensures Valid() && segCap == nLoras && fresh(Buffers() - old(Buffers()))
      ensures n == |indices|
      ensures NonNegative(segLen[..])
      ensures Faithful(indices, segStart[..], segLen[..], segLora[..]) <==> Runs(indices) <= nLoras
    {
      ClearSegments(nLoras);
      n := |indices|;
      var idx := indices;
      if n == 0 {
        assert Faithful(idx, segStart[..], segLen[..], segLora[..]);
        return;
      }
      var seg := SlotIds(idx, nLoras);
      ScatterLengths(seg);
      ScatterStarts(seg);
      ScatterLora(idx, seg);
      forall s | 0 <= s < nLoras && segLen[s] == 0 ensures segStart[s] == 0 {
        CountZero(seg, s, |seg|);
      }
      forall s | 0 <= s < nLoras && segLen[s] > 0 ensures 0 <= segStart[s] < |seg| {
        CountPositive(seg, s, |seg|);
      }
      assert Scattered(idx, seg, segStart[..], segLen[..], segLora[..]);
      if Runs(idx) <= nLoras {
        ScatteredIsFaithful(idx, seg, segStart[..], segLen[..], segLora[..]);
      }
      if Faithful(idx, segStart[..], segLen[..], segLora[..]) {
        FaithfulNeedsSlots(idx, segStart[..], segLen[..], segLora[..]);
      }
    }

    /** Cumulative sum of the run-start flags, minus one, clamped to the last slot. */
    static method SlotIds(idx: seq<int>, nLoras: nat) returns (seg: seq<int>)
      requires nLoras > 0 && |idx| > 0
      ensures |seg| == |idx|
      ensures forall p :: 0 <= p < |idx| ==> seg[p] == SlotOf(idx, nLoras, p)
    {
      var starts := 0;
      seg := [];
      for p := 0 to |idx|
        invariant |seg| == p && (p > 0 ==> starts == RunOf(idx, p - 1) + 1) && (p == 0 ==> starts == 0)
        invariant forall q :: 0 <= q < p ==> seg[q] == SlotOf(idx, nLoras, q)
      {
        var isStart := p == 0 || idx[p] != idx[p - 1];
        starts := starts + (if isStart then 1 else 0);
        seg := seg + [if starts - 1 > nLoras - 1 then nLoras - 1 else starts - 1];
      }
    }

    method ScatterLengths(seg: seq<int>)
      requires Valid() && segCap > 0
      requires forall p :: 0 <= p < |seg| ==> 0 <= seg[p] < segCap
      requires forall s :: 0 <= s < segCap ==> segLen[s] == 0
      modifies segLen
      ensures forall s :: 0 <= s < segCap ==> segLen[s] == Count(seg, s, |seg|)
    {
      for p := 0 to |seg|
        invariant forall s :: 0 <= s < segCap ==> segLen[s] == Count(seg, s, p)
      {
        segLen[seg[p]] := segLen[seg[p]] + 1;
      }
    }

    /** Least position per slot, ignoring the cleared value (include_self is false). */
    method ScatterStarts(seg: seq<int>)
      requires Valid() && segCap > 0
      requires forall p :: 0 <= p < |seg| ==> 0 <= seg[p] < segCap
      requires forall s :: 0 <= s < segCap ==> segStart[s] == 0
      modifies segStart
      ensures forall s :: 0 <= s < segCap ==> IsLeast(seg, s, |seg|, segStart[s])
    {
      for p := 0 to |seg|
        invariant forall s :: 0 <= s < segCap ==> IsLeast(seg, s, p, segStart[s])
      {
        var s := seg[p];
        var first := true;
        for q := 0 to p
          invariant first <==> forall r :: 0 <= r < q ==> seg[r] != s
        {
          if seg[q] == s { first := false; }
        }
        if first || p < segStart[s] { segStart[s] := p; }
      }
    }

    /** The adapter of each slot, written by its tokens in any order; empty slots read -1. */
    method ScatterLora(idx: seq<int>, seg: seq<int>)
      requires Valid() && segCap > 0 && |seg| == |idx|
      requires forall p :: 0 <= p < |seg| ==> 0 <= seg[p] < segCap
      requires forall s :: 0 <= s < segCap ==> segLen[s] == Count(seg, s, |seg|)
      modifies segLora
      ensures forall s :: 0 <= s < segCap && segLen[s] == 0 ==> segLora[s] == -1
      ensures forall s :: 0 <= s < segCap && segLen[s] > 0 ==> WrittenBy(idx, seg, s, segLora[s])
    {
      var todo := set p {:trigger seg[p]} | 0 <= p < |seg|;
      while todo != {}
        invariant forall p :: p in todo ==> 0 <= p < |seg|
        invariant forall p :: 0 <= p < |seg| && p !in todo ==> WrittenBy(idx, seg, seg[p], segLora[seg[p]])
      {
        var p :| p in todo;
        segLora[seg[p]] := idx[p];
        assert WrittenBy(idx, seg, seg[p], segLora[seg[p]]);
        todo := todo - {p};
      }
      forall s | 0 <= s < segCap && segLen[s] > 0 ensures WrittenBy(idx, seg, s, segLora[s]) {
        CountPositive(seg, s, |seg|);
      }
      forall s | 0 <= s < segCap && segLen[s] == 0 { segLora[s] := -1; }
    }

    /** Build the work list once per step, in buffers sized once for TILE_MAP_TOKENS tokens. */
    method RefreshTiles(nLoras: nat)
      requires Valid() && nLoras > 0 && segCap == nLoras && NonNegative(segLen[..])
      modifies this`tileCap, this`tileSeg, this`tileM, tileSeg, tileM
      ensures Valid() && fresh(Buffers() - old(Buffers()))
      ensures segStart[..] == old(segStart[..]) && segLen[..] == old(segLen[..]) && segLora[..] == old(segLora[..])
      ensures tileCap == CeilDiv(|indices|, bm) + nLoras + 1
      ensures var need := CeilDiv(8192, bm) + nLoras + 1;
        && tileSeg.Length == tileM.Length == (if old(tileSeg.Length) < need then need else old(tileSeg.Length))
        && (old(tileSeg.Length) >= need ==> tileSeg == old(tileSeg) && tileM == old(tileM))
      ensures Faithful(indices, segStart[..], segLen[..], segLora[..]) && |indices| <= TILE_MAP_TOKENS ==>
                KernelReady(indices, segStart[..], segLen[..], segLora[..], tileSeg[..], tileM[..], tileCap, bm)
    {
      tileCap := LaunchSize(|indices|, bm, nLoras);
      var need := LaunchSize(TILE_MAP_TOKENS, bm, nLoras);
      if tileSeg.Length < need {
        tileSeg, tileM := new int[need], new int[need];
      }
      BuildTileMap(segLen, bm, tileSeg, tileM);
      if Faithful(indices, segStart[..], segLen[..], segLora[..]) && |indices| <= TILE_MAP_TOKENS {
        hide Faithful;
        LaunchHolds(indices, segStart[..], segLen[..], segLora[..], bm);
      }
    }

    /** Runs of the host-side adapter list. */
    static method CountRuns(ids: seq<int>) returns (runs: nat)
      requires |ids| > 0
      ensures runs == Runs(ids)
    {
      runs := 1;
      for p := 1 to |ids|
        invariant runs == RunOf(ids, p - 1) + 1
      {
        if ids[p] != ids[p - 1] { runs := runs + 1; }
      }
    }

    /**
     The step's metadata.  ids is the host-side adapter list; slot maps an adapter to its LoRA slot
     (the base class's translation).  A decode step is always described; a prefill step only when
     its adapters form at most maxLoras runs.
     */
    method UpdateMetadata(ids: seq<int>, slot: int -> int, maxLoras: nat, isPrefill: bool, mode: int,
                          prefillGrouped: bool)
      requires Valid() && maxLoras > 0
      modifies this, segStart, segLen, segLora, tileSeg, tileM
      ensures Valid() && fresh(Buffers() - old(Buffers()))
      ensures |indices| == |ids| && forall p :: 0 <= p < |ids| ==> indices[p] == slot(ids[p])
      ensures prefillOk <==>
        isPrefill && mode == 3 && prefillGrouped && 0 < |ids| <= TILE_MAP_TOKENS && Runs(ids) <= maxLoras
      ensures prefillOk ==> Ready()
      ensures !isPrefill ==> (Described() <==> Runs(indices) <= maxLoras)
      ensures !isPrefill && mode >= 2 && Runs(indices) <= maxLoras && |ids| <= TILE_MAP_TOKENS ==> Ready()
    {
      hide Faithful, KernelReady;
      indices := seq(|ids|, p requires 0 <= p < |ids| => slot(ids[p]));
      prefillOk := false;
      if !isPrefill {
        Refresh(maxLoras, mode >= 2);
      } else if mode == 3 && prefillGrouped && 0 < |ids| <= TILE_MAP_TOKENS {
        GroupPrefill(ids, slot, maxLoras);
      }
    }

    /** A prefill step is grouped if its adapters form at most maxLoras runs. */
    method GroupPrefill(ids: seq<int>, slot: int -> int, maxLoras: nat)
      requires Valid() && maxLoras > 0 && 0 < |ids| <= TILE_MAP_TOKENS && !prefillOk
      requires |indices| == |ids| && forall p :: 0 <= p < |ids| ==> indices[p] == slot(ids[p])
      modifies this, segStart, segLen, segLora, tileSeg, tileM
      ensures Valid() && fresh(Buffers() - old(Buffers())) && indices == old(indices)
      ensures (prefillOk <==> Runs(ids) <= maxLoras) && (prefillOk ==> Ready())
    {
      hide Faithful, KernelReady;
      var runs := CountRuns(ids);
      if runs <= maxLoras {
        RelabelRuns(ids, indices, slot, |ids| - 1);
        Refresh(maxLoras, true);
        prefillOk := true;
      }
    }

    ghost predicate Described()
      reads this, segStart, segLen, segLora
    {
      Faithful(indices, segStart[..], segLen[..], segLora[..])
    }

    ghost predicate Ready()
      reads this, segStart, segLen, segLora, tileSeg, tileM
    {
      KernelReady(indices, segStart[..], segLen[..], segLora[..], tileSeg[..], tileM[..], tileCap, bm)
    }

    /** Segments, then (for the tile-scheduled modes) the work list. */
    method Refresh(nLoras: nat, tiled: bool)
      requires Valid() && nLoras > 0
      modifies this, segStart, segLen, segLora, tileSeg, tileM
      ensures Valid() && fresh(Buffers() - old(Buffers()))
      ensures indices == old(indices) && prefillOk == old(prefillOk)
      ensures Described() <==> Runs(indices) <= nLoras
      ensures !tiled ==> tileCap == old(tileCap) && tileSeg == old(tileSeg) && tileM == old(tileM)
      ensures !tiled ==> tileSeg[..] == old(tileSeg[..]) && tileM[..] == old(tileM[..])
      ensures tiled && Runs(indices) <= nLoras && |indices| <= TILE_MAP_TOKENS ==> Ready()
    {
      var _ := RefreshSegments(nLoras);
      if tiled {
        ghost var was := Described();
        RefreshTiles(nLoras);
        assert Described() == was;
      }
    }
  }

  /** v is the least position below n scattered to slot s, or 0 if there is none. */
  ghost predicate IsLeast(seg: seq<int>, s: int, n: nat, v: int)
    requires n <= |seg|
  {
    if forall p :: 0 <= p < n ==> seg[p] != s then v == 0
    else 0 <= v < n && seg[v] == s && forall p :: 0 <= p < v ==> seg[p] != s
  }

  ghost predicate WrittenBy(idx: seq<int>, seg: seq<int>, s: int, v: int)
    requires |seg| == |idx|
  {
    exists p :: 0 <= p < |seg| && seg[p] == s && v == idx[p]
  }

  lemma {:induction false} CountZero(seg: seq<int>, s: int, i: nat)
    requires i <= |seg| && Count(seg, s, i) == 0
    ensures forall p :: 0 <= p < i ==> seg[p] != s
  {
    if i > 0 { CountZero(seg, s, i - 1); }
  }

  lemma {:induction false} CountPositive(seg: seq<int>, s: int, i: nat)
    requires i <= |seg| && Count(seg, s, i) > 0
    ensures exists p :: 0 <= p < i && seg[p] == s
  {
    if seg[i - 1] != s { CountPositive(seg, s, i - 1); }
  }
}
