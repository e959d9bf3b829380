/**
 The block manager together with the cache memory it manages.  stored is the abstract state: the token
 list whose entries are in the cache, for every sequence that has a table.  Every operation's effect on
 stored is the effect of the same operation on plain, unshared token lists.
 */
module KvEngine {
  import opened AppendNeeds
  import opened Arithmetic
  import opened BlockManager
  import opened BlockTables
  import opened KvCache

  type TokenLists = map<int, seq<int>>

  ghost predicate Sized(kv: Memory, pool: set<Block>, bs: nat) {
    pool <= kv.Keys && forall b :: b in kv ==> |kv[b]| == bs
  }

  /** Every table has exactly the blocks its sequence's tokens fit in. */
  ghost predicate Fitted(m: Tables, stored: TokenLists, bs: nat)
    requires bs > 0
  {
    m.Keys == stored.Keys && forall id :: id in m ==> |m[id]| == CeilDiv(|stored[id]|, bs)
  }

  /** Memory and tables present exactly the stored token lists. */
  ghost predicate Presents(kv: Memory, m: Tables, stored: TokenLists, bs: nat) {
    bs > 0 && Fitted(m, stored, bs) && AllRead(kv, m, stored, bs)
  }

  lemma SameKeys(kv: Memory, m: Tables, stored: TokenLists, bs: nat)
    requires Presents(kv, m, stored, bs)
    ensures m.Keys == stored.Keys && bs > 0
  {
  }

  /** What reading a sequence through its table means: its token list, entry by entry. */
  lemma PresentsMeans(kv: Memory, m: Tables, stored: TokenLists, bs: nat, id: int, i: nat)
    requires Presents(kv, m, stored, bs) && id in m && i < |stored[id]|
    ensures i / bs < |m[id]| && m[id][i / bs] in kv && i % bs < |kv[m[id][i / bs]]|
    ensures kv[m[id][i / bs]][i % bs] == stored[id][i]
  {
    var block, offset := BlockAndOffset(i, bs);
    hide CeilDiv;
    assert Entry(stored[id], bs, block, offset);
    assert ReadsAt(kv, m[id], stored[id], bs, block, offset);
  }

  lemma BlockAndOffset(i: nat, bs: nat) returns (block: nat, offset: nat)
    requires bs > 0
    ensures block == i / bs && offset == i % bs && block * bs + offset == i && offset < bs
  {
    block, offset := i / bs, i % bs;
  }

  // ---- the operations on values -----------------------------------------------------------------------

  ghost function WithPrompt(stored: TokenLists, ids: set<int>, prompt: seq<int>): TokenLists {
    map id | id in stored.Keys + ids :: if id in stored then stored[id] else prompt
  }

  ghost function Ids(group: Group): set<int> { set s | s in group :: s.id }

  lemma PrefillPresents(kv: Memory, before: Tables, after: Tables, group: Group, t: BlockTable, stored: TokenLists,
                        prompt: seq<int>, bs: nat, pool: set<Block>)
    requires Presents(kv, before, stored, bs) && Sized(kv, pool, bs) && TablesIn(after, pool) && |group| > 0
    requires FreshTable(before, t, GPU) && Assigned(before, after, group, t) && |t| == CeilDiv(|prompt|, bs)
    requires forall i :: 0 <= i < |group| ==> group[i].id !in stored
    ensures forall b :: b in t ==> b in kv && |kv[b]| == bs
    ensures Presents(Prefilled(kv, t, prompt, bs, |t|), after, WithPrompt(stored, Ids(group), prompt), bs)
    ensures Sized(Prefilled(kv, t, prompt, bs, |t|), pool, bs)
  {
    hide CeilDiv, FreshTable, AllRead;
    TableBlocks(after, group[0].id, pool);
    var next := WithPrompt(stored, Ids(group), prompt);
    forall i | 0 <= i < |group| ensures group[i].id in next && next[group[i].id] == prompt { assert group[i] in group; }
    PrefillKeeps(kv, before, after, group, t, GPU, stored, next, prompt, bs);
    forall id | id in after ensures id in next && |after[id]| == CeilDiv(|next[id]|, bs) {
      if id !in before { assert HasId(id, group); }
    }
    forall id | id in next ensures id in after {
      if id !in before {
        var s :| s in group && s.id == id;
        var i :| 0 <= i < |group| && group[i] == s;
      }
    }
    assert after.Keys == next.Keys;
  }

  /** One new token for every sequence of the list. */
  ghost function Extended(stored: TokenLists, todo: Group, news: seq<int>): TokenLists
    requires |todo| == |news|
  {
    if todo == [] then stored
    else
      var n := |todo| - 1;
      var rest := Extended(stored, todo[..n], news[..n]);
      if todo[n].id in rest then rest[todo[n].id := rest[todo[n].id] + [news[n]]] else rest
  }

  lemma ForkPresents(kv: Memory, m: Tables, stored: TokenLists, bs: nat, parent: int, child: int)
    requires Presents(kv, m, stored, bs) && parent in m
    ensures Presents(kv, m[child := m[parent]], stored[child := stored[parent]], bs)
  {
    ForkKeeps(kv, m, stored, bs, parent, child);
  }

  lemma FreePresents(kv: Memory, m: Tables, stored: TokenLists, bs: nat, id: int)
    requires Presents(kv, m, stored, bs)
    ensures Presents(kv, m - {id}, stored - {id}, bs)
  {
  }

  lemma SwapPresents(kv: Memory, before: Tables, after: Tables, group: Group, f: map<Block, Block>, dev: Device,
                     stored: TokenLists, bs: nat, pool: set<Block>)
    requires Presents(kv, before, stored, bs) && Sized(kv, pool, bs) && TablesIn(before, pool)
    requires Moved(before, after, group, f) && Renaming(before, f, dev) && f.Keys == PhysicalBlocks(before, group)
    ensures forall b :: b in f ==> b in kv
    ensures Presents(Swapped(kv, f), after, stored, bs) && Sized(Swapped(kv, f), pool, bs)
  {
    PhysicalInPool(before, group, pool);
    hide PhysicalBlocks;
    SwapKeeps(kv, before, after, group, f, dev, stored, bs);
    hide AllRead, CeilDiv, Renaming;
    forall id | id in after ensures |after[id]| == |before[id]| {
      if HasUnfinished(group, id) { assert TableMoved(before[id], after[id], f); }
    }
    forall b | b in Swapped(kv, f) ensures |Swapped(kv, f)[b]| == bs {
      if b in f.Values { assert Source(f, b) in f; }
    }
  }

  lemma {:induction false} PhysicalInPool(m: Tables, group: Group, pool: set<Block>)
    requires TablesIn(m, pool)
    ensures PhysicalBlocks(m, group) <= pool
  {
    if group != [] { PhysicalInPool(m, group[..|group| - 1], pool); }
  }

  /** Between a step's copies and its last write: the first k sequences of the list have their new token. */
  ghost predicate MidStep(kv: Memory, m: Tables, todo: Group, stored: TokenLists, bs: nat, k: nat)
    requires bs > 0
  {
    && AllRead(kv, m, stored, bs) && m.Keys == stored.Keys && k <= |todo| && DistinctIds(todo)
    && (forall j :: 0 <= j < |todo| ==> HasRoom(m, todo[j]))
    && (forall j :: k <= j < |todo| ==> |m[todo[j].id]| == CeilDiv(|stored[todo[j].id]| + 1, bs))
    && (forall id :: id in m && !ListsId(todo[k..], id) ==> |m[id]| == CeilDiv(|stored[id]|, bs))
  }

  lemma StepStarts(kv: Memory, hist: seq<Tables>, todo: Group, rs: seq<SlotResult>, stored: TokenLists, bs: nat,
                   pool: set<Block>)
    requires Chain(hist, todo, rs) && Presents(kv, hist[0], stored, bs) && StepReady(hist[0], todo, stored, bs)
    requires Sized(kv, pool, bs)
    ensures MidStep(CopiedAll(kv, rs), hist[|todo|], todo, stored, bs, 0) && Sized(CopiedAll(kv, rs), pool, bs)
  {
    ChainKeeps(kv, hist, todo, rs, stored, bs);
    CopiedSizes(kv, rs, pool, bs);
    hide AllRead, CeilDiv, Chain, CopiedAll;
    assert todo[0..] == todo;
    forall j | 0 <= j < |todo| ensures |hist[|todo|][todo[j].id]| == CeilDiv(|stored[todo[j].id]| + 1, bs) {
      assert HasRoom(hist[|todo|], todo[j]) && SeqReady(hist[0], todo[j], stored, bs);
    }
  }

  lemma {:induction false} CopiedSizes(kv: Memory, rs: seq<SlotResult>, pool: set<Block>, bs: nat)
    requires Sized(kv, pool, bs)
    ensures Sized(CopiedAll(kv, rs), pool, bs)
  {
    if rs != [] { CopiedSizes(kv, rs[..|rs| - 1], pool, bs); }
  }

  /** The place of the next write. */
  lemma WriteSlot(kv: Memory, m: Tables, todo: Group, stored: TokenLists, bs: nat, k: nat, pool: set<Block>)
    requires bs > 0 && k < |todo| && MidStep(kv, m, todo, stored, bs, k) && Sized(kv, pool, bs) && TablesIn(m, pool)
    ensures todo[k].id in m && todo[k].id in stored && m[todo[k].id] != []
    ensures Last(m[todo[k].id]) in kv && |kv[Last(m[todo[k].id])]| == bs && Refs(m)[Last(m[todo[k].id])] == 1
    ensures 0 <= |stored[todo[k].id]| - (|m[todo[k].id]| - 1) * bs < bs
  {
    hide AllRead, Refs, CeilDiv;
    assert HasRoom(m, todo[k]);
    TableBlocks(m, todo[k].id, pool);
    OneMoreBlock(|stored[todo[k].id]|, bs);
    var blocks := |m[todo[k].id]|;
    assert (blocks - 1) * bs == blocks * bs - bs;
  }

  lemma WrittenSized(kv: Memory, t: BlockTable, n: nat, bs: nat, tok: int, pool: set<Block>)
    requires Sized(kv, pool, bs) && t != [] && Last(t) in kv && 0 <= n - (|t| - 1) * bs < bs
    ensures |kv[Last(t)]| == bs && Sized(Written(kv, t, n, bs, tok), pool, bs)
  {
  }

  /** One write of a step. */
  lemma StepWrites(kv: Memory, m: Tables, todo: Group, stored: TokenLists, bs: nat, k: nat, tok: int, pool: set<Block>)
    requires bs > 0 && k < |todo| && MidStep(kv, m, todo, stored, bs, k) && Sized(kv, pool, bs) && TablesIn(m, pool)
    ensures todo[k].id in m && todo[k].id in stored && m[todo[k].id] != []
    ensures Last(m[todo[k].id]) in kv && |kv[Last(m[todo[k].id])]| == bs
    ensures 0 <= |stored[todo[k].id]| - (|m[todo[k].id]| - 1) * bs < bs
    ensures MidStep(Written(kv, m[todo[k].id], |stored[todo[k].id]|, bs, tok), m, todo,
                    stored[todo[k].id := stored[todo[k].id] + [tok]], bs, k + 1)
    ensures Sized(Written(kv, m[todo[k].id], |stored[todo[k].id]|, bs, tok), pool, bs)
  {
    hide AllRead, CeilDiv, Written, HasRoom, Refs, ListsId;
    var id := todo[k].id;
    WriteSlot(kv, m, todo, stored, bs, k, pool);
    WriteKeeps(kv, m, stored, bs, id, tok);
    WrittenSized(kv, m[id], |stored[id]|, bs, tok, pool);
    hide Sized;
    var next := stored[id := stored[id] + [tok]];
    forall i | i in m && !ListsId(todo[k + 1..], i) ensures |m[i]| == CeilDiv(|next[i]|, bs) {
      if i != id { ListsRest(todo, k, i); }
    }
  }

  lemma ListsRest(todo: Group, k: nat, id: int)
    requires k < |todo|
    ensures ListsId(todo[k..], id) <==> todo[k].id == id || ListsId(todo[k + 1..], id)
  {
    assert todo[k..] == [todo[k]] + todo[k + 1..];
  }

  lemma StepEnds(kv: Memory, m: Tables, todo: Group, stored: TokenLists, bs: nat)
    requires bs > 0 && MidStep(kv, m, todo, stored, bs, |todo|)
    ensures Presents(kv, m, stored, bs)
  {
    forall id | id in m ensures !ListsId(todo[|todo|..], id) { }
  }

  /** A whole step: the copies, then the writes in turn. */
  lemma StepOnValues(kv: Memory, hist: seq<Tables>, todo: Group, rs: seq<SlotResult>, stored: TokenLists,
                     news: seq<int>, bs: nat, pool: set<Block>) returns (kv': Memory, stored': TokenLists)
    requires Chain(hist, todo, rs) && Presents(kv, hist[0], stored, bs) && StepReady(hist[0], todo, stored, bs)
    requires Sized(kv, pool, bs) && TablesIn(hist[|todo|], pool) && |news| == |todo|
    ensures Presents(kv', hist[|todo|], stored', bs) && Sized(kv', pool, bs)
    ensures stored' == Extended(stored, todo, news)
  {
    StepStarts(kv, hist, todo, rs, stored, bs, pool);
    kv', stored' := CopiedAll(kv, rs), stored;
    var m := hist[|todo|];
    hide Presents, Sized, MidStep, TablesIn, CopiedAll, Written, Chain, Refs, StepReady;
    assert todo[..0] == [] && news[..0] == [];
    for k := 0 to |todo|
      invariant MidStep(kv', m, todo, stored', bs, k) && Sized(kv', pool, bs)
      invariant stored' == Extended(stored, todo[..k], news[..k])
    {
      StepWrites(kv', m, todo, stored', bs, k, news[k], pool);
      ExtendedStep(stored, todo, news, k);
      var id := todo[k].id;
      kv' := Written(kv', m[id], |stored'[id]|, bs, news[k]);
      stored' := stored'[id := stored'[id] + [news[k]]];
    }
    assert todo[..|todo|] == todo && news[..|todo|] == news;
    StepEnds(kv', m, todo, stored', bs);
  }

  // ---- the engine -------------------------------------------------------------------------------------

  class Engine {
    const bs: nat
    const mgr: BlockSpaceManager
    ghost var kv: Memory
    ghost var stored: TokenLists

    ghost predicate Inv()
      reads this, mgr, mgr.gpu, mgr.cpu, mgr.gpu.pool, mgr.cpu.pool
    {
      mgr.Valid() && Presents(kv, mgr.blockTables, stored, bs) && Sized(kv, mgr.Pool(), bs)
    }

    constructor (bs: nat, numGpuBlocks: nat, numCpuBlocks: nat, watermarkBlocks: nat)
      requires bs > 0
      ensures Inv() && stored == map[] && this.bs == bs && mgr.watermarkBlocks == watermarkBlocks
      ensures |mgr.Free(GPU)| == numGpuBlocks && |mgr.Free(CPU)| == numCpuBlocks
      ensures fresh(mgr) && fresh(mgr.gpu) && fresh(mgr.cpu) && fresh(mgr.gpu.pool) && fresh(mgr.cpu.pool)
    {
      this.bs := bs;
      mgr := new BlockSpaceManager(numGpuBlocks, numCpuBlocks, watermarkBlocks);
      stored := map[];
      new;
      kv := map b | b in mgr.Pool() :: seq(bs, _ => 0);
    }

    /** A new group of sequences that all start with the prompt. */
    method Prefill(group: Group, ghost prompt: seq<int>) returns (ok: bool)
      requires Inv() && |group| > 0 && DistinctIds(group) && (forall i :: 0 <= i < |group| ==> group[i].id !in stored)
      requires group[0].logical == CeilDiv(|prompt|, bs)
      modifies this, mgr`blockTables, mgr.gpu, mgr.cpu, mgr.gpu.pool, mgr.cpu.pool
      ensures ok <==> group[0].logical <= |old(mgr.Free(GPU))|
      ensures old(mgr.CanAllocate(group[0].logical)) <==> ok && |mgr.Free(GPU)| >= mgr.watermarkBlocks
      ensures ok ==> Inv() && stored == WithPrompt(old(stored), Ids(group), prompt)
    {
      hide BlockSpaceManager.Tracks, Presents, Sized, Prefilled, WithPrompt, FreshTable, Assigned, TablesIn, Refs;
      ghost var before := mgr.blockTables;
      SameKeys(kv, before, stored, bs);
      ghost var t;
      ok, t := mgr.Allocate(group);
      if !ok { return; }
      PrefillPresents(kv, before, mgr.blockTables, group, t, stored, prompt, bs, mgr.Pool());
      kv := Prefilled(kv, t, prompt, bs, |t|);
      stored := WithPrompt(stored, Ids(group), prompt);
    }

    /**
     A decode step: append_slot for every sequence, then all copies, then one new token each.  It fails exactly when
     it needs more blocks than are free; as many free blocks as sequences (can_append_slot) are always enough.
     */
    method Decode(todo: Group, ghost news: seq<int>) returns (ok: bool)
      requires Inv() && StepReady(mgr.blockTables, todo, stored, bs) && |news| == |todo|
      requires forall k :: 0 <= k < |todo| ==> Appendable(mgr.blockTables, todo[k])
      modifies this, mgr`blockTables, mgr.gpu, mgr.cpu, mgr.gpu.pool, mgr.cpu.pool
      ensures ok <==> BlocksNeeded(old(mgr.blockTables), todo, |todo|) <= |old(mgr.Free(GPU))|
      ensures |todo| <= |old(mgr.Free(GPU))| ==> ok
      ensures ok ==> Inv() && stored == Extended(old(stored), todo, news)
    {
      hide BlockSpaceManager.Tracks, Presents, Sized, StepReady, CopiedAll, Chain, Refs, TablesIn;
      var rs;
      ghost var hist;
      StepDistinct(mgr.blockTables, todo, stored, bs);
      ok, rs, hist := mgr.AppendSlots(todo);
      if !ok { return; }
      kv, stored := StepOnValues(kv, hist, todo, rs, stored, news, bs, mgr.Pool());
    }

    /** The child starts from the parent's tokens. */
    method Fork(parent: int, child: int)
      requires Inv() && parent in stored && child !in stored
      modifies this, mgr`blockTables, mgr.gpu.pool, mgr.cpu.pool
      ensures Inv() && stored == old(stored)[child := old(stored)[parent]]
    {
      ForkPresents(kv, mgr.blockTables, stored, bs, parent, child);
      mgr.Fork(parent, child);
      stored := stored[child := stored[parent]];
    }

    method FreeSeq(id: int)
      requires Inv()
      modifies this, mgr`blockTables, mgr.gpu, mgr.cpu, mgr.gpu.pool, mgr.cpu.pool
      ensures Inv() && stored == old(stored) - {id}
    {
      FreePresents(kv, mgr.blockTables, stored, bs, id);
      mgr.FreeSeq(id);
      stored := stored - {id};
    }

    /** Swapping a group in either direction changes no token list. */
    method Swap(group: Group, dev: Device) returns (ok: bool)
      requires Inv() && DistinctIds(group) && HaveTables(group, mgr.blockTables)
      requires forall b :: b in PhysicalBlocks(mgr.blockTables, group) ==> b.device != dev
      modifies this`kv, mgr`blockTables, mgr.gpu, mgr.cpu, mgr.gpu.pool, mgr.cpu.pool
      ensures ok <==> |PhysicalBlocks(old(mgr.blockTables), group)| <= |old(mgr.Free(dev))|
      ensures ok ==> Inv() && stored == old(stored)
    {
      hide BlockSpaceManager.Tracks, Presents, Sized, Moved, Renaming, PhysicalBlocks, TablesIn, Refs, Swapped;
      ghost var before := mgr.blockTables;
      var f;
      ok, f := mgr.MoveGroup(group, dev);
      if !ok { return; }
      SwapPresents(kv, before, mgr.blockTables, group, f, dev, stored, bs, mgr.Pool());
      kv := Swapped(kv, f);
    }
  }

  lemma StepDistinct(m: Tables, todo: Group, stored: TokenLists, bs: nat)
    requires StepReady(m, todo, stored, bs)
    ensures DistinctIds(todo)
  {
  }

  lemma ExtendedStep(stored: TokenLists, todo: Group, news: seq<int>, k: nat)
    requires k < |todo| == |news|
    ensures var was := Extended(stored, todo[..k], news[..k]);
            todo[k].id in was ==>
              Extended(stored, todo[..k + 1], news[..k + 1]) == was[todo[k].id := was[todo[k].id] + [news[k]]]
  {
    assert todo[..k + 1][..k] == todo[..k] && news[..k + 1][..k] == news[..k];
  }
}
