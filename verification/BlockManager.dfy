/**
 The paged KV block manager: a reference-counted allocator per device and one block table per
 sequence.  Blocks are shared between tables by forking and un-shared by copy-on-write.
 */
module BlockManager {
  import opened AppendNeeds
  import opened BlockTables
  import opened Common

  /** Manages the free blocks of one device. */
  class BlockAllocator {
    const device: Device
    ghost const pool: set<Block>   // every block of the device
    var freeBlocks: seq<Block>

    /** The counts are exactly the given references, and the free list is exactly the unreferenced blocks. */
    ghost predicate Consistent(owners: multiset<Block>)
      reads this, pool
    {
      && NoDuplicates(freeBlocks)
      && (forall b :: b in freeBlocks ==> b in pool)
      && (forall b :: b in pool ==>
           b.device == device && b.refCount == owners[b] && (b in freeBlocks <==> owners[b] == 0))
    }

    constructor (device: Device, numBlocks: nat)
      ensures fresh(pool) && this.device == device && |pool| == |freeBlocks| == numBlocks
      ensures Consistent(multiset{})
      ensures forall b, c :: b in pool && c in pool && b.number == c.number ==> b == c
    {
      this.device := device;
      var bs: seq<Block> := [];
      ghost var all: set<Block> := {};
      for i := 0 to numBlocks
        invariant |bs| == i && NoDuplicates(bs) && (forall b :: b in bs <==> b in all) && |all| == i
        invariant fresh(all)
        invariant forall k :: 0 <= k < i ==> bs[k].number == k && bs[k].device == device && bs[k].refCount == 0
      {
        var b := new PhysicalTokenBlock(device, i);
        bs := bs + [b];
        all := all + {b};
      }
      freeBlocks := bs;
      pool := all;
    }

    /** Take the last free block; None when there is none. */
    method Allocate(ghost owners: multiset<Block>) returns (r: Option<Block>)
      requires Consistent(owners)
      modifies this, pool
      ensures r.None? <==> old(freeBlocks) == []
      ensures r.None? ==> Consistent(owners) && freeBlocks == []
      ensures r.Some? ==> r.value in pool && owners[r.value] == 0 && Consistent(owners + multiset{r.value})
      ensures r.Some? ==> old(freeBlocks) == freeBlocks + [r.value]
      ensures forall b :: b in pool && r != Some(b) ==> b.refCount == old(b.refCount)
    {
      if |freeBlocks| == 0 { return None; }
      var b := freeBlocks[|freeBlocks| - 1];
      freeBlocks := freeBlocks[..|freeBlocks| - 1];
      b.refCount := 1;
      r := Some(b);
    }

    /** Overwrite the count of a block that has one reference. */
    method SetCount(b: Block, n: nat, ghost owners: multiset<Block>)
      requires b in pool && owners[b] == 0 && n > 0 && Consistent(owners + multiset{b})
      modifies pool
      ensures Consistent(owners[b := n])
    {
      b.refCount := n;
    }

    /** Drop one reference; false is the double-free error. */
    method Free(b: Block, ghost owners: multiset<Block>) returns (ok: bool)
      requires Consistent(owners) && b in pool
      modifies this, pool
      ensures ok <==> owners[b] > 0
      ensures Consistent(owners - multiset{b})
      ensures freeBlocks == old(freeBlocks) + (if owners[b] == 1 then [b] else [])
    {
      if b.refCount == 0 { return false; }
      b.refCount := b.refCount - 1;
      if b.refCount == 0 { freeBlocks := freeBlocks + [b]; }
      ok := true;
    }
  }

  /** Manages the mapping between logical and physical token blocks. */
  class BlockSpaceManager {
    const watermarkBlocks: nat
    const gpu: BlockAllocator
    const cpu: BlockAllocator
    var blockTables: Tables

    /** Both allocators count exactly the given references. */
    ghost predicate Tracks(refs: multiset<Block>)
      reads gpu, cpu, gpu.pool, cpu.pool
    {
      && gpu != cpu && gpu.device == GPU && cpu.device == CPU && gpu.pool !! cpu.pool
      && gpu.Consistent(refs) && cpu.Consistent(refs)
    }

    /** Every block's count is its number of occurrences across all tables; the free lists hold the rest. */
    ghost predicate Valid()
      reads this, gpu, cpu, gpu.pool, cpu.pool
    {
      Tracks(Refs(blockTables)) && TablesIn(blockTables, Pool())
    }

    ghost function Pool(): set<Block> { gpu.pool + cpu.pool }

    function Free(dev: Device): seq<Block>
      reads gpu, cpu
    {
      if dev == GPU then gpu.freeBlocks else cpu.freeBlocks
    }

    constructor (numGpuBlocks: nat, numCpuBlocks: nat, watermarkBlocks: nat)
      ensures Valid() && fresh(gpu) && fresh(cpu) && fresh(gpu.pool) && fresh(cpu.pool)
      ensures blockTables == map[] && |Free(GPU)| == numGpuBlocks && |Free(CPU)| == numCpuBlocks
      ensures this.watermarkBlocks == watermarkBlocks
    {
      this.watermarkBlocks := watermarkBlocks;
      var g := new BlockAllocator(GPU, numGpuBlocks);
      var c := new BlockAllocator(CPU, numCpuBlocks);
      gpu, cpu, blockTables := g, c, map[];
      new;
      assert Refs(map[]) == multiset{};
    }

    // ---- one block at a time ----------------------------------------------------------------------

    method Take(dev: Device, ghost refs: multiset<Block>) returns (r: Option<Block>)
      requires Tracks(refs)
      modifies gpu, cpu, gpu.pool, cpu.pool
      ensures r.None? <==> old(Free(dev)) == []
      ensures r.None? ==> Tracks(refs)
      ensures r.Some? ==>
        r.value in Pool() && r.value.device == dev && refs[r.value] == 0 && Tracks(refs + multiset{r.value})
      ensures r.Some? ==> |Free(dev)| == |old(Free(dev))| - 1
      ensures forall d :: d != dev ==> Free(d) == old(Free(d))
    {
      if dev == GPU { r := gpu.Allocate(refs); } else { r := cpu.Allocate(refs); }
    }

    /** A second reference to a block in use. */
    method Share(b: Block, ghost refs: multiset<Block>)
      requires Tracks(refs) && b in Pool() && refs[b] > 0
      modifies gpu.pool, cpu.pool
      ensures Tracks(refs + multiset{b})
    {
      b.refCount := b.refCount + 1;
    }

    method SetCount(b: Block, n: nat, ghost refs: multiset<Block>)
      requires Tracks(refs + multiset{b}) && b in Pool() && refs[b] == 0 && n > 0
      modifies gpu.pool, cpu.pool
      ensures Tracks(refs[b := n])
    {
      b.refCount := n;
    }

    /** Free through the allocator of the block's device.  A counted reference is never a double free. */
    method Drop(b: Block, ghost refs: multiset<Block>)
      requires Tracks(refs) && b in Pool() && refs[b] > 0
      modifies gpu, cpu, gpu.pool, cpu.pool
      ensures Tracks(refs - multiset{b})
      ensures Free(b.device) == old(Free(b.device)) + (if refs[b] == 1 then [b] else [])
      ensures forall d :: d != b.device ==> Free(d) == old(Free(d))
    {
      var ok;
      if b.device == GPU { ok := gpu.Free(b, refs); } else { ok := cpu.Free(b, refs); }
      assert ok;
    }

    method SoleReference(b: Block, ghost refs: multiset<Block>) returns (sole: bool)
      requires Tracks(refs) && b in Pool()
      ensures sole <==> refs[b] == 1
    {
      sole := b.refCount == 1;
    }

    // ---- allocation ---------------------------------------------------------------------------------

    predicate CanAllocate(logical: nat)
      reads gpu
    {
      |gpu.freeBlocks| - logical >= watermarkBlocks
    }

    /** Give the group one table of `logical` fresh blocks, shared by all its sequences. */
    method Allocate(group: Group) returns (ok: bool, ghost t: BlockTable)
      requires Valid() && |group| > 0 && DistinctIds(group)
      requires forall i :: 0 <= i < |group| ==> group[i].id !in blockTables
      modifies this`blockTables, gpu, cpu, gpu.pool, cpu.pool
      ensures ok <==> group[0].logical <= |old(Free(GPU))|
      ensures old(CanAllocate(group[0].logical)) <==> ok && |Free(GPU)| >= watermarkBlocks
      ensures !ok ==> blockTables == old(blockTables)
      ensures ok ==> Valid() && |Free(GPU)| == |old(Free(GPU))| - group[0].logical
      ensures ok ==> |t| == group[0].logical && FreshTable(old(blockTables), t, GPU)
      ensures ok ==> Assigned(old(blockTables), blockTables, group, t)
    {
      hide BlockSpaceManager.Tracks, Refs, TablesIn, Copies;
      var bs := [];
      ghost var refs := Refs(blockTables);
      var n := |group|;
      CopiesOnly(bs, n);
      assert refs + Copies(bs, n) == refs;
      for i := 0 to group[0].logical
        invariant blockTables == old(blockTables) && |bs| == i && FreshTable(blockTables, bs, GPU)
        invariant |Free(GPU)| == |old(Free(GPU))| - i
        invariant forall b :: b in bs ==> b in Pool()
        invariant Tracks(refs + Copies(bs, n))
      {
        var r := Take(GPU, refs + Copies(bs, n));
        if r == None { return false, bs; }
        SetCount(r.value, n, refs + Copies(bs, n));
        CopiesOnly(bs, n);
        if r.value in bs { CopiesAll(bs, n, r.value); }
        CopiesExtend(bs, r.value, n);
        assert refs + Copies(bs + [r.value], n) == (refs + Copies(bs, n))[r.value := n];
        bs := bs + [r.value];
      }
      Publish(group, bs);
      ok, t := true, bs;
    }

    /** Record t as the table of every sequence of the group. */
    method Publish(group: Group, t: BlockTable)
      requires Tracks(Refs(blockTables) + Copies(t, |group|)) && TablesIn(blockTables, Pool()) && DistinctIds(group)
      requires forall i :: 0 <= i < |group| ==> group[i].id !in blockTables
      requires forall b :: b in t ==> b in Pool()
      modifies this`blockTables
      ensures Valid() && Assigned(old(blockTables), blockTables, group, t)
    {
      hide BlockSpaceManager.Tracks, Assigned, Refs, TablesIn, Copies;
      ghost var total := Refs(blockTables) + Copies(t, |group|);
      AssignedNone(blockTables, group, t);
      for i := 0 to |group|
        invariant Refs(blockTables) + Copies(t, |group| - i) == total
        invariant Assigned(old(blockTables), blockTables, group[..i], t)
        invariant TablesIn(blockTables, Pool())
      {
        AssignedStep(old(blockTables), blockTables, group, i, t);
        RefsAdd(blockTables, group[i].id, t);
        CopiesPeel(t, |group| - i);
        TablesInUpdate(blockTables, group[i].id, t, Pool());
        blockTables := blockTables[group[i].id := t];
      }
      assert group[..|group|] == group;
      CopiesNone(t);
      assert Refs(blockTables) == total;
    }

    // ---- appending ----------------------------------------------------------------------------------

    /** Make room for one more token of a sequence with `logical` logical blocks. */
    method AppendSlot(id: int, logical: nat) returns (r: SlotResult)
      requires Valid() && id in blockTables && logical > 0
      requires logical <= |blockTables[id]| ==> Last(blockTables[id]).device == GPU
      modifies this`blockTables, gpu, cpu, gpu.pool, cpu.pool
      ensures Valid()
      ensures r != NoRoom ==>
        |Free(GPU)| == |old(Free(GPU))| - (if NeedsBlock(old(blockTables), id, logical) then 1 else 0)
      ensures r == NoRoom <==> old(Free(GPU)) == [] && NeedsBlock(old(blockTables), id, logical)
      ensures r == NoRoom ==> blockTables == old(blockTables)
      ensures r != NoRoom ==> SlotReady(old(blockTables), blockTables, id, logical, r)
      ensures r != NoRoom ==> id in blockTables && blockTables[id] != []
      ensures r != NoRoom ==> Last(blockTables[id]).device == GPU && Refs(blockTables)[Last(blockTables[id])] == 1
    {
      hide BlockSpaceManager.Tracks, Refs, TablesIn;
      var t := blockTables[id];
      TableBlocks(blockTables, id, Pool());
      if |t| < logical {
        r := Grow(id);
        return;
      }
      var sole := SoleReference(Last(t), Refs(blockTables));
      if sole { return InPlace; }
      r := ReplaceLast(id);
    }

    /** A fresh block at the end of the table. */
    method Grow(id: int) returns (r: SlotResult)
      requires Valid() && id in blockTables
      modifies this`blockTables, gpu, cpu, gpu.pool, cpu.pool
      ensures Valid() && (r != NoRoom ==> |Free(GPU)| == |old(Free(GPU))| - 1)
      ensures r == NoRoom <==> old(Free(GPU)) == []
      ensures r == NoRoom ==> blockTables == old(blockTables)
      ensures r != NoRoom ==> SlotReady(old(blockTables), blockTables, id, |old(blockTables)[id]| + 1, r)
      ensures r != NoRoom ==> Last(blockTables[id]).device == GPU && Refs(blockTables)[Last(blockTables[id])] == 1
    {
      hide BlockSpaceManager.Tracks, Refs, TablesIn;
      var t := blockTables[id];
      ghost var refs := Refs(blockTables);
      var b := Take(GPU, refs);
      if b == None { return NoRoom; }
      TableBlocks(blockTables, id, Pool());
      TablesInUpdate(blockTables, id, t + [b.value], Pool());
      RefsUpdate(blockTables, id, t + [b.value]);
      blockTables := blockTables[id := t + [b.value]];
      assert Refs(blockTables) == refs + multiset{b.value};
      r := InPlace;
    }

    /** Copy-on-write: a fresh block takes the place of the shared last one. */
    method ReplaceLast(id: int) returns (r: SlotResult)
      requires Valid() && id in blockTables && blockTables[id] != []
      requires Last(blockTables[id]).device == GPU && Refs(blockTables)[Last(blockTables[id])] != 1
      modifies this`blockTables, gpu, cpu, gpu.pool, cpu.pool
      ensures Valid() && (r != NoRoom ==> |Free(GPU)| == |old(Free(GPU))| - 1)
      ensures r == NoRoom <==> old(Free(GPU)) == []
      ensures r == NoRoom ==> blockTables == old(blockTables)
      ensures r != NoRoom ==> SlotReady(old(blockTables), blockTables, id, |old(blockTables)[id]|, r)
      ensures r != NoRoom ==> Last(blockTables[id]).device == GPU && Refs(blockTables)[Last(blockTables[id])] == 1
    {
      hide BlockSpaceManager.Tracks, Refs, TablesIn, SlotReady;
      var t := blockTables[id];
      ghost var refs := Refs(blockTables);
      var last := Last(t);
      var b := Take(GPU, refs);
      if b == None { return NoRoom; }
      var u := t[|t| - 1 := b.value];
      TableBlocks(blockTables, id, Pool());
      TablesInUpdate(blockTables, id, u, Pool());
      CopyIsReady(blockTables, id, b.value);
      CopyRefs(blockTables, id, b.value);
      blockTables := blockTables[id := u];
      Drop(last, refs + multiset{b.value});
      r := CopyOnWrite(last, b.value);
    }

    // ---- sharing and freeing ------------------------------------------------------------------------

    /** The child shares every block of the parent. */
    method Fork(parent: int, child: int)
      requires Valid() && parent in blockTables && child !in blockTables
      modifies this`blockTables, gpu.pool, cpu.pool
      ensures Valid() && blockTables == old(blockTables)[child := old(blockTables)[parent]]
    {
      hide BlockSpaceManager.Tracks, Refs, TablesIn;
      var t := blockTables[parent];
      ghost var refs := Refs(blockTables);
      TableBlocks(blockTables, parent, Pool());
      TablesInUpdate(blockTables, child, t, Pool());
      RefsAdd(blockTables, child, t);
      RefsUpdate(blockTables, parent, t);
      blockTables := blockTables[child := t];
      assert refs + multiset(t[..0]) == refs;
      for i := 0 to |t|
        invariant blockTables == old(blockTables)[child := t]
        invariant Tracks(refs + multiset(t[..i]))
      {
        assert t[i] in multiset(t);
        Share(t[i], refs + multiset(t[..i]));
        assert t[..i + 1] == t[..i] + [t[i]];
        assert refs + multiset(t[..i + 1]) == refs + multiset(t[..i]) + multiset{t[i]};
      }
      assert t[..|t|] == t;
    }

    /** Drop every reference of a table that is still counted. */
    method FreeBlockTable(t: BlockTable, ghost refs: multiset<Block>)
      requires Tracks(refs) && multiset(t) <= refs && forall b :: b in t ==> b in Pool()
      modifies gpu, cpu, gpu.pool, cpu.pool
      ensures Tracks(refs - multiset(t))
      ensures forall d :: |Free(d)| >= |old(Free(d))|
    {
      hide BlockSpaceManager.Tracks;
      assert refs - multiset(t[..0]) == refs;
      for i := 0 to |t|
        invariant Tracks(refs - multiset(t[..i]))
        invariant forall d :: |Free(d)| >= |old(Free(d))|
      {
        StillCounted(refs, t, i);
        Drop(t[i], refs - multiset(t[..i]));
      }
      assert t[..|t|] == t;
    }

    /** Free a sequence's table; nothing if it has none. */
    method FreeSeq(id: int)
      requires Valid()
      modifies this`blockTables, gpu, cpu, gpu.pool, cpu.pool
      ensures Valid() && blockTables == old(blockTables) - {id}
      ensures forall d :: |Free(d)| >= |old(Free(d))|
    {
      hide BlockSpaceManager.Tracks, Refs, TablesIn;
      if id !in blockTables { assert blockTables - {id} == blockTables; return; }
      TableBlocks(blockTables, id, Pool());
      TablesInRemove(blockTables, id, Pool());
      RefsRemove(blockTables, id);
      FreeBlockTable(blockTables[id], Refs(blockTables));
      blockTables := blockTables - {id};
    }

    /** Free every table. */
    method Reset()
      requires Valid()
      modifies this`blockTables, gpu, cpu, gpu.pool, cpu.pool
      ensures Valid() && blockTables == map[]
    {
      hide BlockSpaceManager.Tracks, TablesIn;
      var keys := blockTables.Keys;
      while exists id :: id in keys
        invariant Valid() && blockTables.Keys == keys
        decreases keys
      {
        var id :| id in keys;
        FreeSeq(id);
        keys := keys - {id};
      }
      assert blockTables.Keys == {};
    }

    // ---- moving tables between devices --------------------------------------------------------------

    /** The images of f are counted blocks of the device. */
    ghost predicate Live(f: map<Block, Block>, dev: Device, refs: multiset<Block>) {
      forall b :: b in f ==> f[b] in Pool() && f[b].device == dev && refs[f[b]] > 0
    }

    /** No block of the device has lost references since m0. */
    ghost predicate Grown(m0: Tables, dev: Device, refs: multiset<Block>) {
      forall b :: b in Pool() && b.device == dev ==> Refs(m0)[b] <= refs[b]
    }

    /** Move one reference of b to the device: its image is shared again, or is a fresh block. */
    method MoveBlock(b: Block, dev: Device, f: map<Block, Block>, ghost m0: Tables, ghost refs: multiset<Block>)
      returns (ok: bool, g: map<Block, Block>)
      requires Tracks(refs) && b in Pool() && b.device != dev && refs[b] > 0
      requires Renaming(m0, f, dev) && Live(f, dev, refs) && Grown(m0, dev, refs)
      modifies gpu, cpu, gpu.pool, cpu.pool
      ensures !ok <==> b !in f && old(Free(dev)) == []
      ensures ok ==> b in g && g == f[b := g[b]] && (b in f ==> g[b] == f[b])
      ensures ok ==> Tracks(refs + multiset{g[b]} - multiset{b})
      ensures ok ==> Renaming(m0, g, dev) && Live(g, dev, refs + multiset{g[b]} - multiset{b})
      ensures ok ==> Grown(m0, dev, refs + multiset{g[b]} - multiset{b})
      ensures ok ==> |Free(dev)| == |old(Free(dev))| - (if b in f then 0 else 1)
    {
      hide BlockSpaceManager.Tracks, Refs, BlockSpaceManager.Live, BlockSpaceManager.Grown, Renaming;
      g := f;
      if b in f {
        LiveAt(f, dev, refs, b);
        Share(f[b], refs);
        SharedImage(m0, f, dev, refs, b);
      } else {
        var r := Take(dev, refs);
        if r == None { return false, g; }
        g := f[b := r.value];
        FreshImage(m0, f, dev, refs, b, r.value);
      }
      Drop(b, refs + multiset{g[b]});
      ok := true;
    }

    lemma SharedImage(m0: Tables, f: map<Block, Block>, dev: Device, refs: multiset<Block>, b: Block)
      requires Renaming(m0, f, dev) && Live(f, dev, refs) && Grown(m0, dev, refs)
      requires b in f && b.device != dev && refs[b] > 0
      ensures f[b := f[b]] == f && Live(f, dev, refs + multiset{f[b]} - multiset{b})
      ensures Grown(m0, dev, refs + multiset{f[b]} - multiset{b})
    {
    }

    lemma FreshImage(m0: Tables, f: map<Block, Block>, dev: Device, refs: multiset<Block>, b: Block, c: Block)
      requires Renaming(m0, f, dev) && Live(f, dev, refs) && Grown(m0, dev, refs)
      requires b !in f && b.device != dev && refs[b] > 0
      requires c in Pool() && c.device == dev && refs[c] == 0
      ensures Renaming(m0, f[b := c], dev) && Live(f[b := c], dev, refs + multiset{c} - multiset{b})
      ensures Grown(m0, dev, refs + multiset{c} - multiset{b})
    {
      hide Refs;
      var after := refs + multiset{c} - multiset{b};
      assert forall x :: x in Pool() && x.device == dev ==> after[x] >= refs[x];
      assert after[c] > 0;
      FreshRenaming(m0, f, dev, refs, b, c);
      FreshLive(f, dev, refs, after, b, c);
    }

    lemma FreshRenaming(m0: Tables, f: map<Block, Block>, dev: Device, refs: multiset<Block>, b: Block, c: Block)
      requires Renaming(m0, f, dev) && Live(f, dev, refs)
      requires b !in f && c.device == dev && refs[c] == 0 && Refs(m0)[c] == 0
      ensures Renaming(m0, f[b := c], dev)
    {
      forall x | x in f ensures f[x] != c { assert refs[f[x]] > 0; }
    }

    lemma FreshLive(f: map<Block, Block>, dev: Device, refs: multiset<Block>, after: multiset<Block>, b: Block,
                    c: Block)
      requires Live(f, dev, refs) && (forall x :: x in Pool() && x.device == dev ==> after[x] >= refs[x])
      requires b !in f && c in Pool() && c.device == dev && after[c] > 0
      ensures Live(f[b := c], dev, after)
    {
    }

    /** Move one table to another device, block by block. */
    method MoveTable(id: int, dev: Device, f: map<Block, Block>, ghost m0: Tables)
      returns (ok: bool, g: map<Block, Block>)
      requires Valid() && id in blockTables && (forall b :: b in blockTables[id] ==> b.device != dev)
      requires Renaming(m0, f, dev) && Live(f, dev, Refs(blockTables)) && Grown(m0, dev, Refs(blockTables))
      modifies this`blockTables, gpu, cpu, gpu.pool, cpu.pool
      ensures ok <==> |NewBlocks(old(blockTables)[id], f)| <= |old(Free(dev))|
      ensures ok ==>
        Valid() && Renaming(m0, g, dev) && Live(g, dev, Refs(blockTables)) && Grown(m0, dev, Refs(blockTables))
      ensures ok ==> Extends(f, g) && g.Keys == f.Keys + NewBlocks(old(blockTables)[id], f)
      ensures ok ==> id in blockTables && TableMoved(old(blockTables)[id], blockTables[id], g)
      ensures ok ==> blockTables == old(blockTables)[id := blockTables[id]]
      ensures ok ==> |Free(dev)| == |old(Free(dev))| - |NewBlocks(old(blockTables)[id], f)|
    {
      hide BlockSpaceManager.Tracks, Refs, TablesIn, BlockSpaceManager.MoveInv, BlockSpaceManager.Live,
        BlockSpaceManager.Grown, Renaming, TableMoved, NewBlocks, Extends, Left;
      var t := blockTables[id];
      var u: BlockTable := [];
      g := f;
      ghost var refs := Refs(blockTables);
      RefsUpdate(blockTables, id, t);
      TableBlocks(blockTables, id, Pool());
      MoveInvStart(m0, dev, refs, t, f);
      for j := 0 to |t|
        invariant blockTables == old(blockTables)
        invariant MoveInv(m0, dev, refs, t, j, f, u, g)
        invariant |Free(dev)| == |old(Free(dev))| - |NewBlocks(t[..j], f)|
        invariant Tracks(Left(refs, t, j, u))
      {
        ghost var was := g;
        MoveInvFacts(m0, dev, refs, t, j, f, u, g);
        var moved;
        moved, g := MoveBlock(t[j], dev, g, m0, Left(refs, t, j, u));
        if !moved { NewBlocksBeyond(t, j, f, was); return false, g; }
        MoveInvStep(m0, dev, refs, t, j, f, u, was, g);
        u := u + [g[t[j]]];
      }
      MoveInvEnd(m0, dev, refs, t, f, u, g, blockTables, id);
      blockTables := blockTables[id := u];
      ok := true;
    }

    /** j entries of t moved so far, into u. */
    ghost predicate MoveInv(m0: Tables, dev: Device, refs: multiset<Block>, t: BlockTable, j: nat, f: map<Block, Block>,
                            u: BlockTable, g: map<Block, Block>)
      requires j <= |t|
    {
      && Extends(f, g) && TableMoved(t[..j], u, g) && g.Keys == f.Keys + NewBlocks(t[..j], f)
      && (forall b :: b in u ==> b in Pool())
      && Renaming(m0, g, dev) && Live(g, dev, Left(refs, t, j, u)) && Grown(m0, dev, Left(refs, t, j, u))
    }

    lemma MoveInvStart(m0: Tables, dev: Device, refs: multiset<Block>, t: BlockTable, f: map<Block, Block>)
      requires Renaming(m0, f, dev) && Live(f, dev, refs) && Grown(m0, dev, refs)
      ensures Left(refs, t, 0, []) == refs && NewBlocks(t[..0], f) == {}
      ensures MoveInv(m0, dev, refs, t, 0, f, [], f)
    {
      assert Left(refs, t, 0, []) == refs;
    }

    lemma MoveInvFacts(m0: Tables, dev: Device, refs: multiset<Block>, t: BlockTable, j: nat, f: map<Block, Block>,
                       u: BlockTable, g: map<Block, Block>)
      requires j < |t| && MoveInv(m0, dev, refs, t, j, f, u, g) && multiset(t) <= refs
      ensures Left(refs, t, j, u)[t[j]] > 0 && g.Keys == f.Keys + NewBlocks(t[..j], f)
      ensures Renaming(m0, g, dev) && Live(g, dev, Left(refs, t, j, u)) && Grown(m0, dev, Left(refs, t, j, u))
    {
      StillCounted(refs, t, j);
    }

    lemma MoveInvStep(m0: Tables, dev: Device, refs: multiset<Block>, t: BlockTable, j: nat, f: map<Block, Block>,
                      u: BlockTable, was: map<Block, Block>, g: map<Block, Block>)
      requires j < |t| && MoveInv(m0, dev, refs, t, j, f, u, was) && multiset(t) <= refs
      requires t[j] in g && g == was[t[j] := g[t[j]]] && (t[j] in was ==> g[t[j]] == was[t[j]])
      requires Renaming(m0, g, dev) && Live(g, dev, Left(refs, t, j, u) + multiset{g[t[j]]} - multiset{t[j]})
      requires Grown(m0, dev, Left(refs, t, j, u) + multiset{g[t[j]]} - multiset{t[j]})
      ensures Left(refs, t, j + 1, u + [g[t[j]]]) == Left(refs, t, j, u) + multiset{g[t[j]]} - multiset{t[j]}
      ensures MoveInv(m0, dev, refs, t, j + 1, f, u + [g[t[j]]], g)
      ensures |NewBlocks(t[..j + 1], f)| == |NewBlocks(t[..j], f)| + (if t[j] in was then 0 else 1)
    {
      hide BlockSpaceManager.Live, BlockSpaceManager.Grown, Renaming, TableMoved, NewBlocks, Extends, Left;
      MovedRefs(refs, t, j, u, g[t[j]]);
      MovedStep(t, j, u, f, was, g);
      NewBlocksCount(t, j, f, was);
      LiveAt(g, dev, Left(refs, t, j, u) + multiset{g[t[j]]} - multiset{t[j]}, t[j]);
    }

    lemma MoveInvEnd(m0: Tables, dev: Device, refs: multiset<Block>, t: BlockTable, f: map<Block, Block>, u: BlockTable,
                     g: map<Block, Block>, m: Tables, id: int)
      requires MoveInv(m0, dev, refs, t, |t|, f, u, g) && id in m && m[id] == t && refs == Refs(m)
      requires TablesIn(m, Pool())
      ensures t[..|t|] == t && Left(refs, t, |t|, u) == Refs(m[id := u]) && TablesIn(m[id := u], Pool())
      ensures Renaming(m0, g, dev) && Live(g, dev, Refs(m[id := u])) && Grown(m0, dev, Refs(m[id := u]))
      ensures Extends(f, g) && g.Keys == f.Keys + NewBlocks(t, f) && TableMoved(t, u, g)
    {
      assert t[..|t|] == t;
      RefsUpdate(m, id, u);
      TablesInUpdate(m, id, u, Pool());
    }

    lemma LiveAt(f: map<Block, Block>, dev: Device, refs: multiset<Block>, b: Block)
      requires Live(f, dev, refs) && b in f
      ensures f[b] in Pool() && f[b].device == dev && refs[f[b]] > 0
    {
    }

    // ---- appending for several sequences ------------------------------------------------------------

    predicate CanAppendSlot(group: Group): (can: bool)
      reads gpu
      ensures can <==> |Positions(group, READY)| <= |gpu.freeBlocks|
    {
      WithStatusCount(group, READY);
      |WithStatus(group, READY)| <= |gpu.freeBlocks|
    }

    /**
     append_slot for each sequence of the list in turn; hist are the tables in between.  It runs out exactly when
     the step needs more blocks than are free.
     */
    method AppendSlots(todo: Group) returns (ok: bool, rs: seq<SlotResult>, ghost hist: seq<Tables>)
      requires Valid() && DistinctIds(todo)
      requires forall k :: 0 <= k < |todo| ==> Appendable(blockTables, todo[k])
      modifies this`blockTables, gpu, cpu, gpu.pool, cpu.pool
      ensures ok <==> BlocksNeeded(old(blockTables), todo, |todo|) <= |old(Free(GPU))|
      ensures |todo| <= |old(Free(GPU))| ==> ok
      ensures ok ==> |Free(GPU)| == |old(Free(GPU))| - BlocksNeeded(old(blockTables), todo, |todo|)
      ensures ok ==> Valid() && Chain(hist, todo, rs) && hist[0] == old(blockTables) && hist[|todo|] == blockTables
    {
      hide BlockSpaceManager.Valid, Chain, Pending, BlocksNeeded, NeedsBlock, SlotReady, Refs;
      ghost var m0 := blockTables;
      NeededAtMost(m0, todo, |todo|);
      NeededNone(m0, todo);
      PendingStart(m0, todo);
      ChainStart(m0);
      rs, hist := [], [blockTables];
      for k := 0 to |todo|
        invariant Valid() && |hist| == k + 1 && hist[0] == m0 && hist[k] == blockTables
        invariant Chain(hist, todo[..k], rs) && Pending(m0, blockTables, todo, k)
        invariant |Free(GPU)| == |old(Free(GPU))| - BlocksNeeded(m0, todo, k)
      {
        ghost var before := blockTables;
        PendingNext(m0, before, todo, k);
        var r := AppendSlot(todo[k].id, todo[k].logical);
        if r == NoRoom { return false, rs, hist; }
        PendingStep(m0, before, blockTables, todo, k, r);
        ChainStep(hist, todo, k, rs, blockTables, r);
        rs, hist := rs + [r], hist + [blockTables];
      }
      assert todo[..|todo|] == todo;
      ok := true;
    }

    /** append_slot for every sequence of the group that runs, behind can_append_slot, never runs out of blocks. */
    method AppendGroup(group: Group) returns (rs: seq<SlotResult>, ghost hist: seq<Tables>)
      requires Valid() && DistinctIds(group) && CanAppendSlot(group)
      requires forall s :: s in group && s.status == READY ==> Appendable(blockTables, s)
      modifies this`blockTables, gpu, cpu, gpu.pool, cpu.pool
      ensures Valid() && Chain(hist, WithStatus(group, READY), rs)
      ensures hist[0] == old(blockTables) && hist[|hist| - 1] == blockTables
      ensures forall s :: s in group && s.status == READY ==> Roomed(old(blockTables), blockTables, s)
    {
      hide BlockSpaceManager.Valid, Chain, Roomed, RoomedFor, WithStatus;
      WithStatusDistinct(group, READY);
      WithStatusCount(group, READY);
      var ok;
      ok, rs, hist := AppendSlots(WithStatus(group, READY));
      assert ok;
      ChainLength(hist, WithStatus(group, READY), rs);
      AllRoomed(hist, group, READY, rs);
    }

    // ---- swapping -----------------------------------------------------------------------------------

    predicate CanSwapOut(group: Group)
      requires HaveTables(group, blockTables)
      reads this, cpu
    {
      |PhysicalBlocks(blockTables, group)| <= |cpu.freeBlocks|
    }

    predicate CanSwapIn(group: Group): (can: bool)
      requires HaveTables(group, blockTables)
      reads this, gpu
      ensures can <==>
        |gpu.freeBlocks| >= watermarkBlocks + |PhysicalBlocks(blockTables, group)| + |Positions(group, SWAPPED)|
    {
      WithStatusCount(group, SWAPPED);
      |gpu.freeBlocks| - (|PhysicalBlocks(blockTables, group)| + |WithStatus(group, SWAPPED)|) >= watermarkBlocks
    }

    /** swap_out behind its guard; not ok is the guard's error.  Behind it the CPU blocks are always found. */
    method SwapOut(group: Group) returns (ok: bool, f: map<Block, Block>)
      requires Valid() && DistinctIds(group) && HaveTables(group, blockTables)
      requires forall b :: b in PhysicalBlocks(blockTables, group) ==> b.device != CPU
      modifies this`blockTables, gpu, cpu, gpu.pool, cpu.pool
      ensures Valid() && (ok <==> |PhysicalBlocks(old(blockTables), group)| <= |old(Free(CPU))|)
      ensures !ok ==> blockTables == old(blockTables) && Free(GPU) == old(Free(GPU)) && Free(CPU) == old(Free(CPU))
      ensures ok ==> Renaming(old(blockTables), f, CPU) && f.Keys == PhysicalBlocks(old(blockTables), group)
      ensures ok ==> Moved(old(blockTables), blockTables, group, f)
    {
      hide Renaming, Moved, PhysicalBlocks;
      if !CanSwapOut(group) { return false, map[]; }
      ok, f := MoveGroup(group, CPU);
      assert ok;
    }

    /**
     swap_in followed by append_slot for every swapped sequence, behind can_swap_in: neither ever runs
     out of blocks, even if every sequence has to copy a block the whole group shares.
     */
    method SwapInAndAppend(group: Group)
      returns (f: map<Block, Block>, rs: seq<SlotResult>, ghost mid: Tables, ghost hist: seq<Tables>)
      requires Valid() && DistinctIds(group) && HaveTables(group, blockTables) && CanSwapIn(group)
      requires forall b :: b in PhysicalBlocks(blockTables, group) ==> b.device != GPU
      requires forall s :: s in group && s.status == SWAPPED ==> s.logical > 0 && s.id in blockTables
      modifies this`blockTables, gpu, cpu, gpu.pool, cpu.pool
      ensures Valid() && Renaming(old(blockTables), f, GPU) && f.Keys == PhysicalBlocks(old(blockTables), group)
      ensures Moved(old(blockTables), mid, group, f)
      ensures Chain(hist, WithStatus(group, SWAPPED), rs) && hist[0] == mid && hist[|hist| - 1] == blockTables
      ensures forall s :: s in group && s.status == SWAPPED ==> Roomed(old(blockTables), blockTables, s)
    {
      hide BlockSpaceManager.Valid, Renaming, PhysicalBlocks, Roomed, RoomedFor, WithStatus, Moved, Refs, Chain;
      ghost var before := blockTables;
      var todo := WithStatus(group, SWAPPED);
      WithStatusDistinct(group, SWAPPED);
      WithStatusCount(group, SWAPPED);
      var ok;
      ok, f := MoveGroup(group, GPU);
      mid := blockTables;
      SwappedAppendable(before, mid, group, f, todo);
      ok, rs, hist := AppendSlots(todo);
      assert ok;
      ChainLength(hist, todo, rs);
      AllRoomed(hist, group, SWAPPED, rs);
      RoomedAfterMove(before, mid, blockTables, group, f, SWAPPED);
    }

    lemma SwappedAppendable(before: Tables, mid: Tables, group: Group, f: map<Block, Block>, todo: Group)
      requires Moved(before, mid, group, f) && Renaming(before, f, GPU) && todo == WithStatus(group, SWAPPED)
      requires forall s :: s in group && s.status == SWAPPED ==> s.logical > 0 && s.id in before
      ensures forall k :: 0 <= k < |todo| ==> Appendable(mid, todo[k])
    {
      hide Renaming, Moved;
      forall k | 0 <= k < |todo| ensures Appendable(mid, todo[k]) {
        assert todo[k] in group && HasUnfinished(group, todo[k].id);
        MovedToDevice(before, mid, group, f, GPU, todo[k].id);
      }
    }

    lemma NothingMovedYet(m0: Tables, group: Group, dev: Device)
      ensures Moved(m0, m0, group[..0], map[]) && PhysicalBlocks(m0, group[..0]) == {}
      ensures Renaming(m0, map[], dev) && Live(map[], dev, Refs(m0)) && Grown(m0, dev, Refs(m0))
    {
    }

    /** Move the tables of the group's unfinished sequences to the device; f is the block mapping. */
    method MoveGroup(group: Group, dev: Device) returns (ok: bool, f: map<Block, Block>)
      requires Valid() && DistinctIds(group) && HaveTables(group, blockTables)
      requires forall b :: b in PhysicalBlocks(blockTables, group) ==> b.device != dev
      modifies this`blockTables, gpu, cpu, gpu.pool, cpu.pool
      ensures ok <==> |PhysicalBlocks(old(blockTables), group)| <= |old(Free(dev))|
      ensures ok ==> Valid() && Renaming(old(blockTables), f, dev) && f.Keys == PhysicalBlocks(old(blockTables), group)
      ensures ok ==> Moved(old(blockTables), blockTables, group, f)
      ensures ok ==> |Free(dev)| == |old(Free(dev))| - |PhysicalBlocks(old(blockTables), group)|
    {
      hide BlockSpaceManager.Tracks, Refs, TablesIn, BlockSpaceManager.Live, BlockSpaceManager.Grown, Renaming, Moved,
        PhysicalBlocks, NewBlocks, Extends;
      f := map[];
      ghost var m0 := blockTables;
      NothingMovedYet(m0, group, dev);
      for i := 0 to |group|
        invariant Valid() && Moved(m0, blockTables, group[..i], f)
        invariant Renaming(m0, f, dev) && Live(f, dev, Refs(blockTables)) && Grown(m0, dev, Refs(blockTables))
        invariant f.Keys == PhysicalBlocks(m0, group[..i])
        invariant |Free(dev)| == |old(Free(dev))| - |PhysicalBlocks(m0, group[..i])|
      {
        PhysicalBlocksStep(m0, group, i, f);
        if group[i].status == FINISHED {
          MovedSkip(m0, blockTables, group, i, f);
          continue;
        }
        NotYetMoved(m0, blockTables, group, i, f);
        ghost var was := blockTables;
        var moved, g := MoveTable(group[i].id, dev, f, m0);
        if !moved { return false, g; }
        MovedGroupStep(m0, was, group, i, f, g, blockTables);
        f := g;
      }
      assert group[..|group|] == group;
      ok := true;
    }
  }
}
