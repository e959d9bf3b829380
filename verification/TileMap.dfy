/**
 The flat work list of the tile-scheduled kernels: slot t names one (segment, m-tile) pair.
 */
module TileMap {
  import opened Arithmetic

  ghost predicate NonNegative(len: seq<int>) { forall s :: 0 <= s < |len| ==> len[s] >= 0 }

  /** Row tiles of segment s. */
  ghost function TilesOf(len: seq<int>, bm: nat, s: nat): nat
    requires bm > 0 && NonNegative(len) && s < |len|
  {
    CeilDiv(len[s], bm)
  }

  /** Row tiles of the segments before s. */
  ghost function TilesBefore(len: seq<int>, bm: nat, s: nat): nat
    requires bm > 0 && NonNegative(len) && s <= |len|
  {
    if s == 0 then 0 else TilesBefore(len, bm, s - 1) + TilesOf(len, bm, s - 1)
  }

  ghost function TokensBefore(len: seq<int>, s: nat): nat
    requires NonNegative(len) && s <= |len|
  {
    if s == 0 then 0 else TokensBefore(len, s - 1) + len[s - 1]
  }

  ghost predicate TileAt(len: seq<int>, bm: nat, tileSeg: seq<int>, tileM: seq<int>, t: int, s: int, m: int)
    requires bm > 0 && NonNegative(len) && |tileSeg| == |tileM|
  {
    && 0 <= t < |tileSeg| && tileSeg[t] == s && tileM[t] == m
    && 0 <= s < |len| && 0 <= m < TilesOf(len, bm, s)
  }

  /**
   The list is a work list for these segment lengths: its live slots come first, each live slot
   names a pair that exists, and every pair that exists has exactly one slot.
   */
  ghost predicate WorkList(len: seq<int>, bm: nat, tileSeg: seq<int>, tileM: seq<int>)
    requires bm > 0 && NonNegative(len)
  {
    && |tileSeg| == |tileM|
    && (forall t :: 0 <= t < |tileSeg| ==>
          if t < TilesBefore(len, bm, |len|) then TileAt(len, bm, tileSeg, tileM, t, tileSeg[t], tileM[t])
          else tileSeg[t] == -1 && tileM[t] == 0)
    && (forall s, m :: 0 <= s < |len| && 0 <= m < TilesOf(len, bm, s) ==> HasTile(len, bm, tileSeg, tileM, s, m))
    && (forall t, u :: 0 <= t < u < |tileSeg| && tileSeg[t] >= 0 ==> tileSeg[t] != tileSeg[u] || tileM[t] != tileM[u])
  }

  ghost predicate HasTile(len: seq<int>, bm: nat, tileSeg: seq<int>, tileM: seq<int>, s: int, m: int)
    requires bm > 0 && NonNegative(len) && |tileSeg| == |tileM|
  {
    exists t :: TileAt(len, bm, tileSeg, tileM, t, s, m)
  }

  lemma {:induction false} TilesMonotone(len: seq<int>, bm: nat, s: nat, t: nat)
    requires bm > 0 && NonNegative(len) && s <= t <= |len|
    ensures TilesBefore(len, bm, s) <= TilesBefore(len, bm, t)
  {
    if s < t { TilesMonotone(len, bm, s, t - 1); }
  }

  /** Each segment adds at most one partial tile to the full ones. */
  lemma {:induction false} TilesPerTokens(len: seq<int>, bm: nat, s: nat)
    requires bm > 0 && NonNegative(len) && s <= |len|
    ensures TilesBefore(len, bm, s) * bm <= TokensBefore(len, s) + s * (bm - 1)
  {
    if s > 0 {
      TilesPerTokens(len, bm, s - 1);
      PartialTile(TilesBefore(len, bm, s - 1), TokensBefore(len, s - 1), len[s - 1], bm, s - 1);
    }
  }

  lemma PartialTile(tiles: nat, tokens: nat, n: nat, bm: nat, s: nat)
    requires bm > 0 && tiles * bm <= tokens + s * (bm - 1)
    ensures (tiles + CeilDiv(n, bm)) * bm <= tokens + n + (s + 1) * (bm - 1)
  {
    CeilDivBounds(n, bm);
    var own := CeilDiv(n, bm);
    hide CeilDiv;
    assert (tiles + own) * bm == tiles * bm + own * bm;
    assert (s + 1) * (bm - 1) == s * (bm - 1) + (bm - 1);
  }

  /** Slots launched for a step of n tokens. */
  function LaunchSize(n: nat, bm: nat, slots: nat): nat
    requires bm > 0
  {
    CeilDiv(n, bm) + slots + 1
  }

  /** Every live slot is inside the launch grid. */
  lemma LaunchCoversTiles(len: seq<int>, bm: nat, n: nat)
    requires bm > 0 && NonNegative(len) && TokensBefore(len, |len|) <= n
    ensures TilesBefore(len, bm, |len|) < LaunchSize(n, bm, |len|)
  {
    TilesPerTokens(len, bm, |len|);
    CeilDivBounds(n, bm);
    LaunchArithmetic(TilesBefore(len, bm, |len|), CeilDiv(n, bm), |len|, n, bm);
  }

  lemma LaunchArithmetic(tiles: nat, full: nat, slots: nat, n: nat, bm: nat)
    requires bm > 0 && tiles * bm <= n + slots * (bm - 1) && n <= full * bm
    ensures tiles <= full + slots
  {
    assert slots * (bm - 1) == slots * bm - slots;
    assert (full + slots) * bm == full * bm + slots * bm;
    QuotientOrder(tiles, full + slots, bm);
  }

  /** First position whose entry exceeds x, or |cum|. */
  ghost predicate IsUpperBound(cum: seq<int>, x: int, j: nat) {
    && j <= |cum|
    && (forall i :: 0 <= i < j ==> cum[i] <= x)
    && (forall i :: j <= i < |cum| ==> cum[i] > x)
  }

  method SearchSorted(cum: seq<int>, x: int) returns (j: nat)
    requires forall a, b :: 0 <= a <= b < |cum| ==> cum[a] <= cum[b]
    ensures IsUpperBound(cum, x, j)
  {
    var hi := |cum|;
    j := 0;
    while j < hi
      invariant 0 <= j <= hi <= |cum|
      invariant forall i :: 0 <= i < j ==> cum[i] <= x
      invariant forall i :: hi <= i < |cum| ==> cum[i] > x
    {
      var mid := (j + hi) / 2;
      if cum[mid] <= x { j := mid + 1; } else { hi := mid; }
    }
  }

  /** Fill tileSeg/tileM with the work list of these segment lengths. */
  method BuildTileMap(segLen: array<int>, blockM: nat, tileSeg: array<int>, tileM: array<int>)
    requires blockM > 0 && segLen.Length > 0 && NonNegative(segLen[..])
    requires tileSeg.Length == tileM.Length && tileSeg != tileM && segLen != tileSeg && segLen != tileM
    modifies tileSeg, tileM
    ensures segLen[..] == old(segLen[..])
    ensures forall t :: 0 <= t < tileSeg.Length ==> Slot(segLen[..], blockM, t, tileSeg[t], tileM[t])
    ensures TilesBefore(segLen[..], blockM, segLen.Length) <= tileSeg.Length ==>
              WorkList(segLen[..], blockM, tileSeg[..], tileM[..])
  {
    ghost var len := segLen[..];
    var nSeg := segLen.Length;
    var ntiles, cum := CumSum(segLen, blockM);
    var starts := seq(nSeg, s requires 0 <= s < nSeg => cum[s] - ntiles[s]);
    forall a, b | 0 <= a <= b < nSeg ensures cum[a] <= cum[b] { TilesMonotone(len, blockM, a + 1, b + 1); }
    ghost var total := TilesBefore(len, blockM, nSeg);
    var pos := 0;
    while pos < tileSeg.Length
      invariant 0 <= pos <= tileSeg.Length
      invariant segLen[..] == len
      invariant forall t :: 0 <= t < pos ==> Slot(len, blockM, t, tileSeg[t], tileM[t])
    {
      var segOf := SearchSorted(cum, pos);
      var clamped := if segOf > nSeg - 1 then nSeg - 1 else segOf;
      var local := pos - starts[clamped];
      var valid := pos < cum[nSeg - 1];
      UpperBoundIsOwner(len, blockM, cum, pos, segOf);
      tileSeg[pos] := if valid then clamped else -1;
      tileM[pos] := if valid then local else 0;
      pos := pos + 1;
    }
    if total <= tileSeg.Length { SlotsAreWorkList(len, blockM, tileSeg[..], tileM[..]); }
  }

  /** Slot t holds the pair that starts at t, or the inert pair past the end. */
  ghost predicate Slot(len: seq<int>, bm: nat, t: int, s: int, m: int)
    requires bm > 0 && NonNegative(len)
  {
    if t < TilesBefore(len, bm, |len|) then
      0 <= s < |len| && 0 <= m < TilesOf(len, bm, s) && t == TilesBefore(len, bm, s) + m
    else s == -1 && m == 0
  }

  /** The segment whose running total first exceeds t owns slot t. */
  lemma UpperBoundIsOwner(len: seq<int>, bm: nat, cum: seq<int>, t: nat, s: nat)
    requires bm > 0 && NonNegative(len) && |len| > 0 && |cum| == |len|
    requires forall i :: 0 <= i < |cum| ==> cum[i] == TilesBefore(len, bm, i + 1)
    requires IsUpperBound(cum, t, s)
    ensures t < cum[|len| - 1] <==> s < |len|
    ensures s < |len| ==> 0 <= t - TilesBefore(len, bm, s) < TilesOf(len, bm, s)
  {
    if s < |len| {
      assert cum[s] == TilesBefore(len, bm, s + 1);
      TilesMonotone(len, bm, s + 1, |len|);
      if s > 0 { assert cum[s - 1] == TilesBefore(len, bm, s); }
    } else {
      assert cum[|len| - 1] <= t;
    }
  }

  lemma SlotsAreWorkList(len: seq<int>, bm: nat, tileSeg: seq<int>, tileM: seq<int>)
    requires bm > 0 && NonNegative(len) && |tileSeg| == |tileM|
    requires TilesBefore(len, bm, |len|) <= |tileSeg|
    requires forall t :: 0 <= t < |tileSeg| ==> Slot(len, bm, t, tileSeg[t], tileM[t])
    ensures WorkList(len, bm, tileSeg, tileM)
  {
    forall s, m | 0 <= s < |len| && 0 <= m < TilesOf(len, bm, s) ensures HasTile(len, bm, tileSeg, tileM, s, m) {
      var t := TilesBefore(len, bm, s) + m;
      TilesMonotone(len, bm, s + 1, |len|);
      assert Slot(len, bm, t, tileSeg[t], tileM[t]);
      var u := tileSeg[t];
      if u < s { TilesMonotone(len, bm, u + 1, s); }
      if s < u { TilesMonotone(len, bm, s + 1, u); }
      assert TileAt(len, bm, tileSeg, tileM, t, s, m);
    }
    forall t, u | 0 <= t < u < |tileSeg| && tileSeg[t] >= 0
      ensures tileSeg[t] != tileSeg[u] || tileM[t] != tileM[u]
    {
      assert Slot(len, bm, t, tileSeg[t], tileM[t]) && Slot(len, bm, u, tileSeg[u], tileM[u]);
    }
    forall t | 0 <= t < |tileSeg| && t < TilesBefore(len, bm, |len|)
      ensures TileAt(len, bm, tileSeg, tileM, t, tileSeg[t], tileM[t])
    {
      assert Slot(len, bm, t, tileSeg[t], tileM[t]);
    }
  }

  /** Tiles per segment and their running totals. */
  method CumSum(segLen: array<int>, blockM: nat) returns (ntiles: seq<int>, cum: seq<int>)
    requires blockM > 0 && NonNegative(segLen[..])
    ensures |cum| == |ntiles| == segLen.Length
    ensures forall s :: 0 <= s < |cum| ==> ntiles[s] == TilesOf(segLen[..], blockM, s)
    ensures forall s :: 0 <= s < |cum| ==> cum[s] == TilesBefore(segLen[..], blockM, s + 1)
  {
    ntiles, cum := [], [];
    var acc := 0;
    for s := 0 to segLen.Length
      invariant |cum| == |ntiles| == s && acc == TilesBefore(segLen[..], blockM, s)
      invariant forall i :: 0 <= i < s ==> ntiles[i] == TilesOf(segLen[..], blockM, i)
      invariant forall i :: 0 <= i < s ==> cum[i] == TilesBefore(segLen[..], blockM, i + 1)
    {
      assert segLen[..][s] >= 0;
      var n := CeilDiv(segLen[s], blockM);
      acc := acc + n;
      ntiles, cum := ntiles + [n], cum + [acc];
    }
  }
}
