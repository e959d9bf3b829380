/**
 Re-creating exported block tables in another manager: block numbers that are equal in the exported tables
 become one shared block, different ones become different fresh blocks.
 */
module BlockImport {
  import opened BlockManager
  import opened BlockTables
  import opened Common

  /** The block numbers of several exported tables. */
  function Numbers(tables: seq<seq<int>>): set<int> {
    if tables == [] then {} else Numbers(tables[..|tables| - 1]) + SetOf(tables[|tables| - 1])
  }

  /** f names fresh blocks of the device, one per number; refs0 are the references before the import, refs those now. */
  ghost predicate Naming(f: map<int, Block>, pool: set<Block>, dev: Device, refs0: multiset<Block>,
                         refs: multiset<Block>) {
    && (forall a, b :: a in f && b in f && f[a] == f[b] ==> a == b)
    && (forall a :: a in f ==> f[a] in pool && f[a].device == dev && refs0[f[a]] == 0 && refs[f[a]] > 0)
    && refs0 <= refs
  }

  /** The table that the numbers stand for. */
  ghost predicate Named(nums: seq<int>, t: BlockTable, f: map<int, Block>) {
    |t| == |nums| && forall p :: 0 <= p < |t| ==> nums[p] in f && t[p] == f[nums[p]]
  }

  lemma NamingMore(f: map<int, Block>, pool: set<Block>, dev: Device, refs0: multiset<Block>, refs: multiset<Block>,
                   n: int, b: Block)
    requires Naming(f, pool, dev, refs0, refs) && b in pool && b.device == dev
    requires if n in f then b == f[n] else refs[b] == 0
    ensures Naming(f[n := b], pool, dev, refs0, refs + multiset{b})
  {
  }

  /** One entry: the block its number already stands for, or a fresh one. */
  method ImportBlock(m: BlockSpaceManager, n: int, dev: Device, f: map<int, Block>, ghost refs0: multiset<Block>,
                     ghost refs: multiset<Block>)
    returns (b: Option<Block>)
    requires m.Tracks(refs) && Naming(f, m.Pool(), dev, refs0, refs)
    modifies m.gpu, m.cpu, m.gpu.pool, m.cpu.pool
    ensures b.None? <==> n !in f && old(m.Free(dev)) == []
    ensures b.Some? ==>
      m.Tracks(refs + multiset{b.value}) && Naming(f[n := b.value], m.Pool(), dev, refs0, refs + multiset{b.value})
    ensures b.Some? ==> b.value in m.Pool() && (n in f ==> b.value == f[n])
    ensures b.Some? ==> |m.Free(dev)| + |f[n := b.value]| == |old(m.Free(dev))| + |f|
  {
    hide BlockSpaceManager.Tracks;
    if n !in f {
      b := m.Take(dev, refs);
      if b.None? { return; }
      NamingMore(f, m.Pool(), dev, refs0, refs, n, b.value);
      assert |f[n := b.value]| == |f| + 1;
    } else {
      b := Some(f[n]);
      NamingMore(f, m.Pool(), dev, refs0, refs, n, f[n]);
      assert f[n := f[n]] == f;
      m.Share(f[n], refs);
    }
  }

  lemma NumbersStep(nums: seq<int>, j: nat)
    requires j < |nums|
    ensures SetOf(nums[..j + 1]) == SetOf(nums[..j]) + {nums[j]}
  {
    assert nums[..j + 1] == nums[..j] + [nums[j]];
  }

  lemma NamedStep(nums: seq<int>, j: nat, t: BlockTable, f: map<int, Block>, b: Block)
    requires j < |nums| && Named(nums[..j], t, f) && (nums[j] in f ==> b == f[nums[j]])
    ensures Named(nums[..j + 1], t + [b], f[nums[j] := b])
  {
  }

  ghost predicate Extending(f: map<int, Block>, g: map<int, Block>) { forall a :: a in f ==> a in g && g[a] == f[a] }

  lemma Kept(f: map<int, Block>, g: map<int, Block>, n: int)
    requires Extending(f, g) && n in f
    ensures n in g && g[n] == f[n]
  {
  }

  /** j entries of nums imported so far, into t. */
  ghost predicate ImportInv(f: map<int, Block>, g: map<int, Block>, pool: set<Block>, dev: Device,
                            refs0: multiset<Block>, base: multiset<Block>, nums: seq<int>, j: nat, t: BlockTable)
    requires j <= |nums|
  {
    && Naming(g, pool, dev, refs0, base + multiset(t)) && Extending(f, g) && g.Keys == f.Keys + SetOf(nums[..j])
    && Named(nums[..j], t, g) && forall b :: b in t ==> b in pool
  }

  lemma ImportStep(f: map<int, Block>, g: map<int, Block>, pool: set<Block>, dev: Device, refs0: multiset<Block>,
                   base: multiset<Block>, nums: seq<int>, j: nat, t: BlockTable, b: Block)
    requires j < |nums| && ImportInv(f, g, pool, dev, refs0, base, nums, j, t)
    requires b in pool && (nums[j] in g ==> b == g[nums[j]])
    requires Naming(g[nums[j] := b], pool, dev, refs0, base + multiset(t) + multiset{b})
    ensures ImportInv(f, g[nums[j] := b], pool, dev, refs0, base, nums, j + 1, t + [b])
    ensures base + multiset(t) + multiset{b} == base + multiset(t + [b])
  {
    OneMore(base, t, b);
    NumbersStep(nums, j);
    NamedStep(nums, j, t, g, b);
    hide Naming, Named;
    ExtendingStep(f, g, nums[j], b);
    hide Extending;
    assert g[nums[j] := b].Keys == g.Keys + {nums[j]};
  }

  lemma OneMore(base: multiset<Block>, t: BlockTable, b: Block)
    ensures base + multiset(t) + multiset{b} == base + multiset(t + [b])
  {
  }

  lemma ExtendingStep(f: map<int, Block>, g: map<int, Block>, n: int, b: Block)
    requires Extending(f, g) && (n in g ==> b == g[n])
    ensures Extending(f, g[n := b])
  {
  }

  lemma ImportStart(f: map<int, Block>, pool: set<Block>, dev: Device, refs0: multiset<Block>, base: multiset<Block>,
                    nums: seq<int>)
    requires Naming(f, pool, dev, refs0, base)
    ensures ImportInv(f, f, pool, dev, refs0, base, nums, 0, []) && base + multiset([]) == base
  {
    assert base + multiset([]) == base;
  }

  /** No block left for number j: the table has more new numbers than there were free blocks. */
  lemma ImportFails(f: map<int, Block>, g: map<int, Block>, nums: seq<int>, j: nat, free: nat)
    requires j < |nums| && nums[j] !in g && g.Keys == f.Keys + SetOf(nums[..j]) && |g| == free + |f|
    ensures |f.Keys + SetOf(nums)| > |f| + free
  {
    assert nums[..j] <= nums;
    assert g.Keys + {nums[j]} <= f.Keys + SetOf(nums);
    SubsetCard(g.Keys + {nums[j]}, f.Keys + SetOf(nums));
    assert |g.Keys + {nums[j]}| == |g.Keys| + 1;
  }

  /** One exported table, number by number. */
  method ImportTable(m: BlockSpaceManager, nums: seq<int>, dev: Device, f: map<int, Block>,
                     ghost refs0: multiset<Block>, ghost base: multiset<Block>)
    returns (ok: bool, t: BlockTable, g: map<int, Block>)
    requires m.Tracks(base) && Naming(f, m.Pool(), dev, refs0, base)
    modifies m.gpu, m.cpu, m.gpu.pool, m.cpu.pool
    ensures ok <==> |f.Keys + SetOf(nums)| <= |f| + |old(m.Free(dev))|
    ensures ok ==> m.Tracks(base + multiset(t)) && ImportInv(f, g, m.Pool(), dev, refs0, base, nums, |nums|, t)
    ensures ok ==> |m.Free(dev)| + |g| == |old(m.Free(dev))| + |f|
  {
    hide BlockSpaceManager.Tracks, Naming, Named;
    t, g := [], f;
    ImportStart(f, m.Pool(), dev, refs0, base, nums);
    for j := 0 to |nums|
      invariant m.Tracks(base + multiset(t)) && ImportInv(f, g, m.Pool(), dev, refs0, base, nums, j, t)
      invariant |m.Free(dev)| + |g| == |old(m.Free(dev))| + |f|
    {
      var b := ImportBlock(m, nums[j], dev, g, refs0, base + multiset(t));
      if b.None? {
        ImportFails(f, g, nums, j, |old(m.Free(dev))|);
        return false, t, g;
      }
      ImportStep(f, g, m.Pool(), dev, refs0, base, nums, j, t, b.value);
      hide ImportInv;
      t, g := t + [b.value], g[nums[j] := b.value];
    }
    assert nums[..|nums|] == nums;
    ok := true;
    assert |g| == |g.Keys|;
  }

  /** before with table ids[i] added for the numbers tables[i], i < n. */
  ghost predicate Imported(before: Tables, after: Tables, ids: seq<int>, tables: seq<seq<int>>, n: nat,
                           f: map<int, Block>)
    requires n <= |ids| == |tables|
  {
    && after.Keys == before.Keys + SetOf(ids[..n])
    && (forall id :: id in before ==> id in after && after[id] == before[id])
    && forall i :: 0 <= i < n ==> ids[i] in after && Named(tables[i], after[ids[i]], f)
  }

  lemma ImportedStep(before: Tables, after: Tables, ids: seq<int>, tables: seq<seq<int>>, i: nat, f: map<int, Block>,
                     g: map<int, Block>, t: BlockTable)
    requires i < |ids| == |tables| && NoDuplicates(ids) && Imported(before, after, ids, tables, i, f) && Extending(f, g)
    requires Named(tables[i], t, g) && ids[i] !in before
    ensures Imported(before, after[ids[i] := t], ids, tables, i + 1, g) && ids[i] !in after
  {
    assert ids[..i + 1] == ids[..i] + [ids[i]];
    assert ids[i] !in ids[..i] && ids[i] !in SetOf(ids[..i]);
    assert ids[i] !in after.Keys;
    forall k | 0 <= k < i ensures ids[k] in after && ids[k] != ids[i] && Named(tables[k], after[ids[k]], g) {
      NamedExtends(tables[k], after[ids[k]], f, g);
    }
  }

  lemma NamedExtends(nums: seq<int>, t: BlockTable, f: map<int, Block>, g: map<int, Block>)
    requires Named(nums, t, f) && Extending(f, g)
    ensures Named(nums, t, g)
  {
    forall p | 0 <= p < |t| ensures nums[p] in g && t[p] == g[nums[p]] {
      assert t[p] == f[nums[p]];
      Kept(f, g, nums[p]);
    }
  }

  lemma TooMany(f: map<int, Block>, tables: seq<seq<int>>, i: nat, free: nat)
    requires i < |tables| && f.Keys == Numbers(tables[..i]) && |f.Keys + SetOf(tables[i])| > free
    ensures |Numbers(tables)| > free
  {
    assert tables[..i + 1][..i] == tables[..i];
    NumbersGrow(tables, i + 1);
    SubsetCard(f.Keys + SetOf(tables[i]), Numbers(tables));
  }

  lemma {:induction false} NumbersGrow(tables: seq<seq<int>>, i: nat)
    requires i <= |tables|
    ensures Numbers(tables[..i]) <= Numbers(tables)
  {
    if i < |tables| {
      NumbersGrow(tables[..|tables| - 1], i);
      assert tables[..|tables| - 1][..i] == tables[..i];
    } else {
      assert tables[..i] == tables;
    }
  }

  /** The first i tables are imported. */
  ghost predicate ImportedSoFar(m: BlockSpaceManager, before: Tables, ids: seq<int>, tables: seq<seq<int>>, dev: Device,
                                i: nat, f: map<int, Block>)
    requires i <= |ids| == |tables|
    reads m, m.gpu, m.cpu, m.gpu.pool, m.cpu.pool
  {
    && m.Valid() && Imported(before, m.blockTables, ids, tables, i, f)
    && Naming(f, m.Pool(), dev, Refs(before), Refs(m.blockTables)) && f.Keys == Numbers(tables[..i])
  }

  method ImportOne(m: BlockSpaceManager, ids: seq<int>, tables: seq<seq<int>>, dev: Device, i: nat, f: map<int, Block>,
                   ghost before: Tables)
    returns (ok: bool, g: map<int, Block>)
    requires i < |ids| == |tables| && NoDuplicates(ids) && ids[i] !in before
    requires ImportedSoFar(m, before, ids, tables, dev, i, f)
    modifies m`blockTables, m.gpu, m.cpu, m.gpu.pool, m.cpu.pool
    ensures ok ==>
      ImportedSoFar(m, before, ids, tables, dev, i + 1, g) && |m.Free(dev)| + |g| == |old(m.Free(dev))| + |f|
    ensures !ok ==> |Numbers(tables)| > |f| + |old(m.Free(dev))|
  {
    hide BlockSpaceManager.Tracks, Refs, TablesIn, Naming, Named, Imported, ImportInv, Numbers;
    var t;
    ok, t, g := ImportTable(m, tables[i], dev, f, Refs(before), Refs(m.blockTables));
    if !ok {
      TooMany(f, tables, i, |f| + |old(m.Free(dev))|);
      return;
    }
    TableImported(f, g, m.Pool(), dev, Refs(before), Refs(m.blockTables), tables, i, t);
    Recorded(before, m.blockTables, ids, tables, i, f, g, t, m.Pool());
    m.blockTables := m.blockTables[ids[i] := t];
  }

  /** Give every listed sequence a table for its exported numbers, on one device. */
  method Import(m: BlockSpaceManager, ids: seq<int>, tables: seq<seq<int>>, dev: Device)
    returns (ok: bool, f: map<int, Block>)
    requires m.Valid() && |ids| == |tables| && NoDuplicates(ids)
    requires forall i :: 0 <= i < |ids| ==> ids[i] !in m.blockTables
    modifies m`blockTables, m.gpu, m.cpu, m.gpu.pool, m.cpu.pool
    ensures ok <==> |Numbers(tables)| <= |old(m.Free(dev))|
    ensures ok ==> m.Valid() && Imported(old(m.blockTables), m.blockTables, ids, tables, |ids|, f)
    ensures ok ==> Naming(f, m.Pool(), dev, Refs(old(m.blockTables)), Refs(m.blockTables)) && f.Keys == Numbers(tables)
    ensures ok ==> |m.Free(dev)| == |old(m.Free(dev))| - |Numbers(tables)|
  {
    f := map[];
    ghost var before := m.blockTables;
    NamingNone(m.Pool(), dev, Refs(before));
    assert tables[..0] == [];
    for i := 0 to |ids|
      invariant ImportedSoFar(m, before, ids, tables, dev, i, f) && |m.Free(dev)| + |f| == |old(m.Free(dev))|
    {
      hide ImportedSoFar, Numbers;
      ok, f := ImportOne(m, ids, tables, dev, i, f, before);
      if !ok { return; }
    }
    assert tables[..|ids|] == tables;
    assert |f| == |f.Keys|;
    ok := true;
  }

  /** The references and tables after recording one imported table. */
  lemma Recorded(before: Tables, after: Tables, ids: seq<int>, tables: seq<seq<int>>, i: nat, f: map<int, Block>,
                 g: map<int, Block>, t: BlockTable, pool: set<Block>)
    requires i < |ids| == |tables| && NoDuplicates(ids) && Imported(before, after, ids, tables, i, f) && Extending(f, g)
    requires Named(tables[i], t, g) && ids[i] !in before && TablesIn(after, pool) && forall b :: b in t ==> b in pool
    ensures Imported(before, after[ids[i] := t], ids, tables, i + 1, g) && TablesIn(after[ids[i] := t], pool)
    ensures Refs(after[ids[i] := t]) == Refs(after) + multiset(t)
  {
    ImportedStep(before, after, ids, tables, i, f, g, t);
    hide Imported, Named;
    RefsAdd(after, ids[i], t);
    TablesInUpdate(after, ids[i], t, pool);
  }

  lemma NamingNone(pool: set<Block>, dev: Device, refs: multiset<Block>)
    ensures Naming(map[], pool, dev, refs, refs)
  {
  }

  lemma TableImported(f: map<int, Block>, g: map<int, Block>, pool: set<Block>, dev: Device, refs0: multiset<Block>,
                      base: multiset<Block>, tables: seq<seq<int>>, i: nat, t: BlockTable)
    requires i < |tables| && f.Keys == Numbers(tables[..i])
    requires ImportInv(f, g, pool, dev, refs0, base, tables[i], |tables[i]|, t)
    ensures g.Keys == Numbers(tables[..i + 1]) && Named(tables[i], t, g) && Extending(f, g)
    ensures Naming(g, pool, dev, refs0, base + multiset(t)) && forall b :: b in t ==> b in pool
  {
    hide Naming;
    assert tables[i][..|tables[i]|] == tables[i];
    assert tables[..i + 1][..i] == tables[..i];
  }

  /** reproduce: on the GPU if all blocks fit there, else on the CPU; the answer says whether it was the GPU. */
  method Reproduce(m: BlockSpaceManager, ids: seq<int>, tables: seq<seq<int>>)
    returns (onGpu: bool, ok: bool, f: map<int, Block>)
    requires m.Valid() && |ids| == |tables| && NoDuplicates(ids)
    requires forall i :: 0 <= i < |ids| ==> ids[i] !in m.blockTables
    modifies m`blockTables, m.gpu, m.cpu, m.gpu.pool, m.cpu.pool
    ensures onGpu <==> |Numbers(tables)| <= |old(m.Free(GPU))|
    ensures ok <==> onGpu || |Numbers(tables)| <= |old(m.Free(CPU))|
    ensures ok ==> m.Valid() && Imported(old(m.blockTables), m.blockTables, ids, tables, |ids|, f)
    ensures ok ==> Naming(f, m.Pool(), if onGpu then GPU else CPU, Refs(old(m.blockTables)), Refs(m.blockTables))
  {
    onGpu := |Numbers(tables)| <= |m.Free(GPU)|;
    ok, f := Import(m, ids, tables, if onGpu then GPU else CPU);
  }

  /** Imported tables share a block at two positions exactly if the exported numbers are equal there. */
  lemma ImportKeepsSharing(before: Tables, after: Tables, ids: seq<int>, tables: seq<seq<int>>, f: map<int, Block>,
                           pool: set<Block>, dev: Device, i: nat, p: nat, j: nat, q: nat)
    requires |ids| == |tables| && Imported(before, after, ids, tables, |ids|, f)
    requires Naming(f, pool, dev, Refs(before), Refs(after))
    requires i < |ids| && j < |ids| && p < |tables[i]| && q < |tables[j]|
    ensures ids[i] in after && ids[j] in after && |after[ids[i]]| == |tables[i]| && |after[ids[j]]| == |tables[j]|
    ensures after[ids[i]][p] == after[ids[j]][q] <==> tables[i][p] == tables[j][q]
    ensures forall id :: id in before ==> after[ids[i]][p] !in before[id]
  {
    assert Named(tables[i], after[ids[i]], f) && Named(tables[j], after[ids[j]], f);
    var b := after[ids[i]][p];
    forall id | id in before ensures b !in before[id] {
      RefsPick(before, id);
      assert Refs(before)[b] == 0;
    }
  }
}
