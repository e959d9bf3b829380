/**
 What append_slot does to the reference counts, and how many blocks a step over several sequences takes.
 */
module AppendNeeds {
  import opened BlockTables

  // ---- one append ---------------------------------------------------------------------------------

  lemma OneTableChanged(before: Tables, after: Tables, id: int, logical: nat, r: SlotResult)
    requires id in before && logical > 0 && SlotReady(before, after, id, logical, r)
    ensures after == before[id := after[id]]
  {
    hide Refs;
    var m := before[id := after[id]];
    assert m.Keys == before.Keys;
    forall j | j in m ensures m[j] == after[j] { }
  }

  /** A grown table adds a reference to its new block. */
  lemma GrownRefs(before: Tables, after: Tables, id: int, logical: nat, r: SlotResult)
    requires id in before && logical > 0 && SlotReady(before, after, id, logical, r) && |before[id]| < logical
    ensures Refs(after) == Refs(before) + multiset{Last(after[id])} && Refs(before)[Last(after[id])] == 0
  {
    OneTableChanged(before, after, id, logical, r);
    assert after[id] == before[id] + [Last(after[id])];
    RefsUpdate(before, id, after[id]);
  }

  /** A copy-on-write moves a reference from the shared block to a fresh one. */
  lemma CopiedRefs(before: Tables, after: Tables, id: int, logical: nat, r: SlotResult)
    requires id in before && logical > 0 && SlotReady(before, after, id, logical, r) && r.CopyOnWrite?
    ensures Refs(before)[r.dst] == 0 && Refs(before)[r.src] > 1
    ensures Refs(after) == Refs(before) + multiset{r.dst} - multiset{r.src}
  {
    hide Refs, SlotReady;
    OneTableChanged(before, after, id, logical, r);
    CopyIs(before, after, id, logical, r);
    CopyRefs(before, id, r.dst);
  }

  /** What a copy result says of the table: its last block was shared and a block nobody referred to replaces it. */
  lemma CopyIs(before: Tables, after: Tables, id: int, logical: nat, r: SlotResult)
    requires id in before && logical > 0 && SlotReady(before, after, id, logical, r) && r.CopyOnWrite?
    ensures var t := before[id]; t != [] && after[id] == t[|t| - 1 := r.dst] && Last(t) == r.src
    ensures Refs(before)[r.dst] == 0 && Refs(before)[r.src] != 1
  {
    hide Refs;
  }

  lemma InPlaceStays(before: Tables, after: Tables, id: int, logical: nat, r: SlotResult)
    requires id in before && logical > 0 && SlotReady(before, after, id, logical, r)
    requires |before[id]| >= logical && !r.CopyOnWrite?
    ensures after == before
  {
    OneTableChanged(before, after, id, logical, r);
    assert before[id := before[id]] == before;
  }

  /** A block with a single reference keeps it through other sequences' append_slots. */
  lemma SoleStays(before: Tables, after: Tables, id: int, logical: nat, r: SlotResult, b: Block)
    requires id in before && logical > 0 && SlotReady(before, after, id, logical, r) && Refs(before)[b] == 1
    ensures Refs(after)[b] == 1
  {
    hide Refs, SlotReady;
    if |before[id]| < logical {
      GrownRefs(before, after, id, logical, r);
    } else if r.CopyOnWrite? {
      CopiedRefs(before, after, id, logical, r);
    } else {
      InPlaceStays(before, after, id, logical, r);
    }
  }

  // ---- a step over several sequences ----------------------------------------------------------------

  /** The sequence's next token goes into block b, the last of its table. */
  ghost predicate WritesOn(m: Tables, s: SeqInfo, b: Block) {
    s.id in m && 0 < s.logical <= |m[s.id]| && Last(m[s.id]) == b
  }

  /** How many of the first n sequences write on into block b. */
  ghost function Writers(m: Tables, todo: Group, n: nat, b: Block): nat
    requires n <= |todo|
  {
    if n == 0 then 0 else Writers(m, todo, n - 1, b) + (if WritesOn(m, todo[n - 1], b) then 1 else 0)
  }

  /** The k-th append takes a block: its table is short, or those before it have not left it the last block alone. */
  ghost predicate TakesBlock(m: Tables, todo: Group, k: nat)
    requires k < |todo|
  {
    var s := todo[k];
    s.id in m && s.logical > 0 &&
    (|m[s.id]| < s.logical || Refs(m)[Last(m[s.id])] != Writers(m, todo, k, Last(m[s.id])) + 1)
  }

  /** The blocks the first n appends take, told from the tables before the step. */
  ghost function BlocksNeeded(m: Tables, todo: Group, n: nat): nat
    requires n <= |todo|
  {
    if n == 0 then 0 else BlocksNeeded(m, todo, n - 1) + (if TakesBlock(m, todo, n - 1) then 1 else 0)
  }

  lemma NeededNone(m: Tables, todo: Group)
    ensures BlocksNeeded(m, todo, 0) == 0
  {
  }

  lemma {:induction false} NeededAtMost(m: Tables, todo: Group, n: nat)
    requires n <= |todo|
    ensures BlocksNeeded(m, todo, n) <= n
  {
    if n > 0 { NeededAtMost(m, todo, n - 1); }
  }

  lemma {:induction false} NeededGrows(m: Tables, todo: Group, k: nat, n: nat)
    requires k <= n <= |todo|
    ensures BlocksNeeded(m, todo, k) <= BlocksNeeded(m, todo, n)
  {
    if k < n { NeededGrows(m, todo, k, n - 1); }
  }

  /** How many of the first n sequences copy block b. */
  ghost function Copiers(m: Tables, todo: Group, n: nat, b: Block): nat
    requires n <= |todo|
  {
    if n == 0 then 0
    else Copiers(m, todo, n - 1, b) + (if WritesOn(m, todo[n - 1], b) && TakesBlock(m, todo, n - 1) then 1 else 0)
  }

  /** Of the sequences that write on into a block each copies it, but for one if nobody else refers to the block. */
  lemma CopiersAre(m: Tables, todo: Group, b: Block)
    requires DistinctIds(todo)
    ensures var w, refs := Writers(m, todo, |todo|, b), Refs(m)[b];
      w <= refs && Copiers(m, todo, |todo|, b) == if w < refs || w == 0 then w else w - 1
  {
    WritersWithinRefs(m, todo, |todo|, b);
    CopiersUpTo(m, todo, |todo|, b);
  }

  lemma {:induction false} CopiersUpTo(m: Tables, todo: Group, n: nat, b: Block)
    requires n <= |todo| && Writers(m, todo, n, b) <= Refs(m)[b]
    ensures var w := Writers(m, todo, n, b);
      Copiers(m, todo, n, b) == if w < Refs(m)[b] || w == 0 then w else w - 1
  {
    hide Refs;
    if n > 0 { CopiersUpTo(m, todo, n - 1, b); }
  }

  lemma {:induction false} WritersWithinRefs(m: Tables, todo: Group, n: nat, b: Block)
    requires DistinctIds(todo) && n <= |todo|
    ensures Writers(m, todo, n, b) <= Refs(m)[b]
  {
    hide Refs;
    if n > 0 {
      var id := todo[n - 1].id;
      if WritesOn(m, todo[n - 1], b) {
        RefsPick(m, id);
        WritersWithinRefs(m - {id}, todo, n - 1, b);
        WritersWithout(m, todo, n - 1, b, id);
        assert b in multiset(m[id]);
      } else {
        WritersWithinRefs(m, todo, n - 1, b);
      }
    }
  }

  lemma {:induction false} WritersWithout(m: Tables, todo: Group, n: nat, b: Block, id: int)
    requires n <= |todo| && forall k :: 0 <= k < n ==> todo[k].id != id
    ensures Writers(m - {id}, todo, n, b) == Writers(m, todo, n, b)
  {
    if n > 0 { WritersWithout(m, todo, n - 1, b, id); }
  }

  /** After k appends a sequence still to come has its table, whose last block has lost a reference per writer. */
  ghost predicate PendingAt(m0: Tables, m: Tables, todo: Group, k: nat, s: SeqInfo)
    requires k <= |todo|
  {
    && s.id in m && s.id in m0 && m[s.id] == m0[s.id]
    && (0 < s.logical <= |m0[s.id]| ==>
         var b := Last(m0[s.id]); Refs(m)[b] == Refs(m0)[b] - Writers(m0, todo, k, b))
  }

  ghost predicate Pending(m0: Tables, m: Tables, todo: Group, k: nat)
    requires k <= |todo|
  {
    forall i :: k <= i < |todo| ==> PendingAt(m0, m, todo, k, todo[i])
  }

  lemma PendingStart(m: Tables, todo: Group)
    requires forall k :: 0 <= k < |todo| ==> Appendable(m, todo[k])
    ensures Pending(m, m, todo, 0)
  {
    hide Refs;
  }

  /** The next sequence is still appendable, and whether it takes a block was told by the tables before the step. */
  lemma PendingNext(m0: Tables, m: Tables, todo: Group, k: nat)
    requires k < |todo| && Pending(m0, m, todo, k) && Appendable(m0, todo[k])
    ensures Appendable(m, todo[k])
    ensures BlocksNeeded(m0, todo, k + 1) ==
      BlocksNeeded(m0, todo, k) + (if NeedsBlock(m, todo[k].id, todo[k].logical) then 1 else 0)
    ensures BlocksNeeded(m0, todo, k + 1) <= BlocksNeeded(m0, todo, |todo|)
  {
    hide Refs;
    assert PendingAt(m0, m, todo, k, todo[k]);
    NeededGrows(m0, todo, k + 1, |todo|);
  }

  lemma PendingStep(m0: Tables, m: Tables, after: Tables, todo: Group, k: nat, r: SlotResult)
    requires DistinctIds(todo) && k < |todo| && Pending(m0, m, todo, k)
    requires todo[k].id in m && todo[k].logical > 0 && SlotReady(m, after, todo[k].id, todo[k].logical, r)
    ensures Pending(m0, after, todo, k + 1)
  {
    hide Refs, SlotReady;
    forall i | k + 1 <= i < |todo| ensures PendingAt(m0, after, todo, k + 1, todo[i]) {
      PendingStepAt(m0, m, after, todo, k, r, todo[i]);
    }
  }

  lemma PendingStepAt(m0: Tables, m: Tables, after: Tables, todo: Group, k: nat, r: SlotResult, s: SeqInfo)
    requires k < |todo| && PendingAt(m0, m, todo, k, todo[k]) && PendingAt(m0, m, todo, k, s) && s.id != todo[k].id
    requires todo[k].logical > 0 && SlotReady(m, after, todo[k].id, todo[k].logical, r)
    ensures PendingAt(m0, after, todo, k + 1, s)
  {
    hide Refs, SlotReady;
    var id, logical := todo[k].id, todo[k].logical;
    OneTableChanged(m, after, id, logical, r);
    if 0 < s.logical <= |m0[s.id]| {
      var b := Last(m0[s.id]);
      RefsPick(m, s.id);
      assert b in multiset(m[s.id]);
      assert Refs(m)[b] > 0;
      if |m[id]| < logical {
        GrownRefs(m, after, id, logical, r);
      } else if r.CopyOnWrite? {
        CopiedRefs(m, after, id, logical, r);
        CopyIs(m, after, id, logical, r);
      } else {
        InPlaceStays(m, after, id, logical, r);
        SoleLast(m, after, id, logical, r, s.id);
      }
    }
  }

  /** A block written in place is in no other table. */
  lemma SoleLast(m: Tables, after: Tables, id: int, logical: nat, r: SlotResult, j: int)
    requires id in m && j in m && j != id && 0 < logical <= |m[id]| && m[j] != []
    requires SlotReady(m, after, id, logical, r) && !r.CopyOnWrite?
    ensures Last(m[j]) != Last(m[id])
  {
    hide Refs;
    RefsExclusive(m, Last(m[id]), id, j);
  }

  // ---- what the step leaves -------------------------------------------------------------------------

  /** A sequence after its append: one block more if its table was short, and a last GPU block of its own. */
  ghost predicate Roomed(before: Tables, after: Tables, s: SeqInfo) {
    && s.id in before && s.id in after && after[s.id] != [] && after[s.id][|after[s.id]| - 1].device == GPU
    && |after[s.id]| == |before[s.id]| + (if |before[s.id]| < s.logical then 1 else 0)
    && forall j :: j in after && j != s.id ==> after[s.id][|after[s.id]| - 1] !in after[j]
  }

  /** The same, with the reference that keeps the block from others. */
  ghost predicate RoomedFor(before: Tables, after: Tables, s: SeqInfo) {
    && s.id in before && s.id in after && after[s.id] != [] && Last(after[s.id]).device == GPU
    && |after[s.id]| == |before[s.id]| + (if |before[s.id]| < s.logical then 1 else 0)
    && Refs(after)[Last(after[s.id])] == 1
  }

  lemma RoomedIs(before: Tables, after: Tables, s: SeqInfo)
    requires RoomedFor(before, after, s)
    ensures Roomed(before, after, s)
  {
    hide Refs;
    forall j | j in after && j != s.id ensures Last(after[s.id]) !in after[j] {
      RefsExclusive(after, Last(after[s.id]), s.id, j);
    }
  }

  /** After a step every one of its sequences has room; the tables of others are what they were. */
  lemma {:induction false} ChainRooms(hist: seq<Tables>, todo: Group, rs: seq<SlotResult>)
    requires Chain(hist, todo, rs) && DistinctIds(todo)
    ensures hist[|todo|].Keys == hist[0].Keys
    ensures forall k :: 0 <= k < |todo| ==> RoomedFor(hist[0], hist[|todo|], todo[k])
    ensures forall j :: j in hist[0] && (forall k :: 0 <= k < |todo| ==> todo[k].id != j) ==>
      hist[|todo|][j] == hist[0][j]
    decreases |todo|
  {
    if todo != [] {
      hide Refs, SlotReady, Chain, RoomedFor;
      var n := |todo| - 1;
      ChainPrefix(hist, todo, rs);
      var h, g := hist[..n + 1], todo[..n];
      ChainRooms(h, g, rs[..n]);
      LastAppend(hist, todo, rs);
      FrontStays(hist[0], hist[n], hist[n + 1], todo, rs[n]);
      RoomedNow(hist[0], hist[n], hist[n + 1], todo[n], rs[n]);
      LeftAlone(hist[0], hist[n], hist[n + 1], todo, rs[n]);
    }
  }

  lemma LeftAlone(m0: Tables, before: Tables, after: Tables, todo: Group, r: SlotResult)
    requires todo != [] && before.Keys == after.Keys == m0.Keys && todo[|todo| - 1].id in before
    requires var s := todo[|todo| - 1]; s.logical > 0 && SlotReady(before, after, s.id, s.logical, r)
    requires var front := todo[..|todo| - 1];
      forall j :: j in m0 && (forall k :: 0 <= k < |front| ==> front[k].id != j) ==> before[j] == m0[j]
    ensures forall j :: j in m0 && (forall k :: 0 <= k < |todo| ==> todo[k].id != j) ==> after[j] == m0[j]
  {
    var n := |todo| - 1;
    forall j | j in m0 && (forall k :: 0 <= k < |todo| ==> todo[k].id != j) ensures after[j] == m0[j] {
      assert forall k :: 0 <= k < n ==> todo[..n][k] == todo[k];
      assert todo[n].id != j;
      OtherTable(before, after, todo[n].id, todo[n].logical, r, j);
    }
  }

  lemma FrontStays(m0: Tables, before: Tables, after: Tables, todo: Group, r: SlotResult)
    requires todo != [] && DistinctIds(todo) && todo[|todo| - 1].id in before
    requires var s := todo[|todo| - 1]; s.logical > 0 && SlotReady(before, after, s.id, s.logical, r)
    requires var front := todo[..|todo| - 1]; forall k :: 0 <= k < |front| ==> RoomedFor(m0, before, front[k])
    ensures forall k :: 0 <= k < |todo| - 1 ==> RoomedFor(m0, after, todo[k])
  {
    hide Refs, SlotReady, RoomedFor;
    var n := |todo| - 1;
    forall k | 0 <= k < n ensures RoomedFor(m0, after, todo[k]) {
      assert todo[..n][k] == todo[k];
      RoomedStays(m0, before, after, todo[k], todo[n].id, todo[n].logical, r);
    }
  }

  lemma LastAppend(hist: seq<Tables>, todo: Group, rs: seq<SlotResult>)
    requires Chain(hist, todo, rs) && todo != []
    ensures var n := |todo| - 1; var s := todo[n];
      && s.logical > 0 && s.id in hist[n] && SlotReady(hist[n], hist[n + 1], s.id, s.logical, rs[n])
      && hist[n + 1].Keys == hist[n].Keys && hist[n + 1][s.id] != [] && Last(hist[n + 1][s.id]).device == GPU
      && Refs(hist[n + 1])[Last(hist[n + 1][s.id])] == 1
  {
    hide Refs;
    assert Link(hist, todo, rs, |todo| - 1);
  }

  lemma OtherTable(before: Tables, after: Tables, id: int, logical: nat, r: SlotResult, j: int)
    requires id in before && logical > 0 && SlotReady(before, after, id, logical, r) && j in before && j != id
    ensures j in after && after[j] == before[j]
  {
    hide Refs;
  }

  lemma RoomedStays(first: Tables, before: Tables, after: Tables, s: SeqInfo, id: int, logical: nat, r: SlotResult)
    requires RoomedFor(first, before, s) && s.id != id && id in before && logical > 0
    requires SlotReady(before, after, id, logical, r)
    ensures RoomedFor(first, after, s)
  {
    hide Refs, SlotReady;
    OtherTable(before, after, id, logical, r, s.id);
    SoleStays(before, after, id, logical, r, Last(before[s.id]));
  }

  lemma RoomedNow(first: Tables, before: Tables, after: Tables, s: SeqInfo, r: SlotResult)
    requires s.id in first && s.id in before && before[s.id] == first[s.id] && s.logical > 0
    requires SlotReady(before, after, s.id, s.logical, r) && s.id in after && after[s.id] != []
    requires Last(after[s.id]).device == GPU && Refs(after)[Last(after[s.id])] == 1
    ensures RoomedFor(first, after, s)
  {
    hide Refs;
  }

  /** ... so every sequence of the group with the status has. */
  lemma AllRoomed(hist: seq<Tables>, group: Group, st: Status, rs: seq<SlotResult>)
    requires Chain(hist, WithStatus(group, st), rs) && DistinctIds(group)
    ensures forall s :: s in group && s.status == st ==> Roomed(hist[0], hist[|hist| - 1], s)
  {
    hide Chain, Roomed, RoomedFor, WithStatus;
    var todo := WithStatus(group, st);
    WithStatusDistinct(group, st);
    ChainLength(hist, todo, rs);
    ChainRooms(hist, todo, rs);
    forall s | s in group && s.status == st ensures Roomed(hist[0], hist[|hist| - 1], s) {
      var k :| 0 <= k < |todo| && todo[k] == s;
      RoomedIs(hist[0], hist[|todo|], s);
    }
  }

  /** A step after a swap. */
  lemma RoomedAfterMove(before: Tables, mid: Tables, after: Tables, group: Group, f: map<Block, Block>, st: Status)
    requires Moved(before, mid, group, f) && st != FINISHED
    requires forall s :: s in group && s.status == st ==> s.id in before && Roomed(mid, after, s)
    ensures forall s :: s in group && s.status == st ==> Roomed(before, after, s)
  {
    forall s | s in group && s.status == st ensures Roomed(before, after, s) {
      assert HasUnfinished(group, s.id);
      assert TableMoved(before[s.id], mid[s.id], f);
    }
  }

  lemma ChainLength(hist: seq<Tables>, todo: Group, rs: seq<SlotResult>)
    requires Chain(hist, todo, rs)
    ensures |hist| == |todo| + 1 && |rs| == |todo|
  {
  }
}
