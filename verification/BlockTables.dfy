/**
 Block tables as values: the references a set of tables holds, and the table changes that
 allocating, appending and moving between devices make.
 */
module BlockTables {
  import opened Common

  datatype Device = GPU | CPU

  class PhysicalTokenBlock {
    const device: Device
    const number: nat
    var refCount: nat

    constructor (device: Device, number: nat)
      ensures this.device == device && this.number == number && refCount == 0
    {
      this.device, this.number, refCount := device, number, 0;
    }
  }

  type Block = PhysicalTokenBlock
  type BlockTable = seq<Block>
  type Tables = map<int, BlockTable>

  /** All references to blocks that a set of tables holds, with multiplicity. */
  ghost function Refs(m: Tables): multiset<Block> {
    if exists k :: k in m then
      var k :| k in m;
      multiset(m[k]) + Refs(m - {k})
    else multiset{}
  }

  /** Any table can be counted first. */
  lemma {:induction false} RefsPick(m: Tables, k: int)
    requires k in m
    ensures Refs(m) == multiset(m[k]) + Refs(m - {k})
    decreases |m|
  {
    var j :| j in m && Refs(m) == multiset(m[j]) + Refs(m - {j});
    if j != k {
      RefsPick(m - {j}, k);
      RefsPick(m - {k}, j);
      assert m - {j} - {k} == m - {k} - {j};
    }
  }

  lemma RefsAdd(m: Tables, k: int, t: BlockTable)
    requires k !in m
    ensures Refs(m[k := t]) == Refs(m) + multiset(t)
  {
    RefsPick(m[k := t], k);
    assert m[k := t] - {k} == m;
  }

  lemma RefsUpdate(m: Tables, k: int, t: BlockTable)
    requires k in m
    ensures multiset(m[k]) <= Refs(m)
    ensures Refs(m[k := t]) == Refs(m) - multiset(m[k]) + multiset(t)
  {
    RefsPick(m, k);
    RefsPick(m[k := t], k);
    assert m[k := t] - {k} == m - {k};
  }

  lemma RefsRemove(m: Tables, k: int)
    requires k in m
    ensures multiset(m[k]) <= Refs(m)
    ensures Refs(m - {k}) == Refs(m) - multiset(m[k])
  {
    RefsPick(m, k);
  }

  /** A block with a single reference is in no second table. */
  lemma RefsExclusive(m: Tables, b: Block, k: int, j: int)
    requires k in m && j in m && k != j && b in m[k] && Refs(m)[b] == 1
    ensures b !in m[j]
  {
    RefsPick(m, k);
    RefsPick(m - {k}, j);
  }

  ghost predicate TablesIn(m: Tables, pool: set<Block>) { forall id, b :: id in m && b in m[id] ==> b in pool }

  lemma TablesInUpdate(m: Tables, id: int, t: BlockTable, pool: set<Block>)
    requires TablesIn(m, pool) && forall b :: b in t ==> b in pool
    ensures TablesIn(m[id := t], pool)
  {
  }

  datatype Status = WAITING | RUNNING | SWAPPED | READY | FINISHED

  /** What the manager reads of a sequence: its id, its number of logical blocks, its status. */
  datatype SeqInfo = SeqInfo(id: int, logical: nat, status: Status)

  type Group = seq<SeqInfo>

  ghost predicate DistinctIds(g: Group) { forall i, j :: 0 <= i < j < |g| ==> g[i].id != g[j].id }

  /** get_seqs(status): the sequences of the group with the given status, in order. */
  function WithStatus(g: Group, st: Status): (r: Group)
    ensures |r| <= |g| && (forall i :: 0 <= i < |r| ==> r[i].status == st && r[i] in g)
    ensures forall s :: s in g && s.status == st ==> s in r
  {
    if g == [] then [] else WithStatus(g[..|g| - 1], st) + (if g[|g| - 1].status == st then [g[|g| - 1]] else [])
  }

  /** The positions of the group with the given status. */
  ghost function Positions(g: Group, st: Status): set<int> { set i | 0 <= i < |g| && g[i].status == st }

  lemma WithStatusSnoc(g: Group, st: Status)
    requires g != []
    ensures var n := |g| - 1; WithStatus(g, st) == WithStatus(g[..n], st) + (if g[n].status == st then [g[n]] else [])
  {
  }

  lemma PositionsSnoc(g: Group, st: Status)
    requires g != []
    ensures var n := |g| - 1; |Positions(g, st)| == |Positions(g[..n], st)| + (if g[n].status == st then 1 else 0)
  {
    var n := |g| - 1;
    assert Positions(g, st) == Positions(g[..n], st) + (if g[n].status == st then {n} else {});
  }

  /** One sequence for each of those positions ... */
  lemma {:induction false} WithStatusCount(g: Group, st: Status)
    ensures |WithStatus(g, st)| == |Positions(g, st)|
  {
    if g != [] {
      var n := |g| - 1;
      WithStatusCount(g[..n], st);
      WithStatusSnoc(g, st);
      PositionsSnoc(g, st);
      hide *;
    }
  }

  /** ... in the group's order. */
  lemma {:induction false} WithStatusOrder(g: Group, st: Status, i: nat, j: nat) returns (a: nat, b: nat)
    requires i < j < |g| && g[i].status == g[j].status == st
    ensures a < b < |WithStatus(g, st)| && WithStatus(g, st)[a] == g[i] && WithStatus(g, st)[b] == g[j]
  {
    var n := |g| - 1;
    var front := WithStatus(g[..n], st);
    WithStatusSnoc(g, st);
    hide WithStatus;
    if j < n {
      a, b := WithStatusOrder(g[..n], st, i, j);
    } else {
      assert g[..n][i] in g[..n] && g[i] in front;
      a :| 0 <= a < |front| && front[a] == g[i];
      b := |front|;
    }
  }

  lemma {:induction false} WithStatusDistinct(g: Group, st: Status)
    requires DistinctIds(g)
    ensures DistinctIds(WithStatus(g, st))
  {
    if g != [] {
      var h := g[..|g| - 1];
      WithStatusDistinct(h, st);
      forall x | x in h ensures x.id != g[|g| - 1].id { }
    }
  }

  /** k references for every block of t. */
  ghost function Copies(t: BlockTable, k: nat): multiset<Block> {
    if k == 0 then multiset{} else multiset(t) + Copies(t, k - 1)
  }

  lemma {:induction false} CopiesExtend(t: BlockTable, b: Block, k: nat)
    requires b !in t
    ensures Copies(t + [b], k) == Copies(t, k)[b := k]
  {
    if k > 0 { CopiesExtend(t, b, k - 1); }
    CopiesOnly(t, k);
  }

  lemma {:induction false} CopiesOnly(t: BlockTable, k: nat)
    ensures forall b :: b in Copies(t, k) ==> b in t
  {
    if k > 0 { CopiesOnly(t, k - 1); }
  }

  lemma {:induction false} CopiesAll(t: BlockTable, k: nat, b: Block)
    requires b in t && k > 0
    ensures Copies(t, k)[b] > 0
  {
  }

  lemma CopiesPeel(t: BlockTable, k: nat)
    requires k > 0
    ensures Copies(t, k) == multiset(t) + Copies(t, k - 1)
  {
  }

  lemma CopiesNone(t: BlockTable)
    ensures Copies(t, 0) == multiset{}
  {
  }

  /** append_slot: out of memory, room in the last block, or a copy-on-write from src to dst. */
  datatype SlotResult = NoRoom | InPlace | CopyOnWrite(src: Block, dst: Block)

  /** t with every block replaced by its image. */
  ghost function Image(f: map<Block, Block>, t: BlockTable): (u: BlockTable)
    requires forall b :: b in t ==> b in f
    ensures |u| == |t| && forall i :: 0 <= i < |t| ==> u[i] == f[t[i]]
  {
    seq(|t|, i requires 0 <= i < |t| => f[t[i]])
  }

  ghost predicate Extends(f: map<Block, Block>, g: map<Block, Block>) { forall b :: b in f ==> b in g && g[b] == f[b] }

  /** The blocks of t that have no image yet. */
  ghost function NewBlocks(t: BlockTable, f: map<Block, Block>): set<Block> { set b | b in t && b !in f }

  lemma NewBlocksBeyond(t: BlockTable, j: nat, f0: map<Block, Block>, f: map<Block, Block>)
    requires j < |t| && t[j] !in f && f.Keys == f0.Keys + NewBlocks(t[..j], f0)
    ensures |NewBlocks(t[..j], f0)| < |NewBlocks(t, f0)|
  {
    SubsetCard(NewBlocks(t[..j], f0) + {t[j]}, NewBlocks(t, f0));
  }

  lemma MovedStep(t: BlockTable, j: nat, u: BlockTable, f0: map<Block, Block>, f: map<Block, Block>,
                  g: map<Block, Block>)
    requires j < |t| && TableMoved(t[..j], u, f) && t[j] in g && g == f[t[j] := g[t[j]]]
    requires t[j] in f ==> g[t[j]] == f[t[j]]
    requires Extends(f0, f) && f.Keys == f0.Keys + NewBlocks(t[..j], f0)
    ensures TableMoved(t[..j + 1], u + [g[t[j]]], g) && Extends(f0, g)
    ensures g.Keys == f0.Keys + NewBlocks(t[..j + 1], f0)
  {
    assert t[..j + 1] == t[..j] + [t[j]];
  }

  lemma NewBlocksCount(t: BlockTable, j: nat, f0: map<Block, Block>, f: map<Block, Block>)
    requires j < |t| && f.Keys == f0.Keys + NewBlocks(t[..j], f0)
    ensures |NewBlocks(t[..j + 1], f0)| == |NewBlocks(t[..j], f0)| + (if t[j] in f then 0 else 1)
  {
    var n := NewBlocks(t[..j], f0);
    NewBlocksStep(t, j, f0);
    assert t[j] in f <==> t[j] in f0 || t[j] in n;
    hide NewBlocks;
    if t[j] in f && t[j] !in f0 { assert n + {t[j]} == n; }
  }

  lemma NewBlocksStep(t: BlockTable, j: nat, f0: map<Block, Block>)
    requires j < |t|
    ensures NewBlocks(t[..j + 1], f0) == if t[j] in f0 then NewBlocks(t[..j], f0) else NewBlocks(t[..j], f0) + {t[j]}
  {
    assert t[..j + 1] == t[..j] + [t[j]];
  }

  /**
   f renames the moved blocks one-to-one onto blocks of the device that nothing referred to, so two
   positions share a block after the move exactly if they did before.
   */
  ghost predicate Renaming(m: Tables, f: map<Block, Block>, dev: Device) {
    && (forall b, c :: b in f && c in f && f[b] == f[c] ==> b == c)
    && (forall b :: b in f ==> f[b].device == dev && Refs(m)[f[b]] == 0)
  }

  ghost predicate HasUnfinished(group: Group, id: int) { exists s :: s in group && s.status != FINISHED && s.id == id }

  /** before with the tables of the group's unfinished sequences renamed. */
  ghost predicate Moved(before: Tables, after: Tables, group: Group, f: map<Block, Block>) {
    && after.Keys == before.Keys
    && (forall id :: id in before && HasUnfinished(group, id) ==> TableMoved(before[id], after[id], f))
    && (forall id :: id in before && !HasUnfinished(group, id) ==> after[id] == before[id])
  }

  ghost predicate TableMoved(t: BlockTable, u: BlockTable, f: map<Block, Block>) {
    (forall b :: b in t ==> b in f) && u == Image(f, t)
  }

  /** Every unfinished sequence of the group has a table. */
  ghost predicate HaveTables(group: Group, m: Tables) {
    forall i :: 0 <= i < |group| && group[i].status != FINISHED ==> group[i].id in m
  }

  lemma TablesInRemove(m: Tables, id: int, pool: set<Block>)
    requires TablesIn(m, pool)
    ensures TablesIn(m - {id}, pool)
  {
  }

  /** While a table is being freed, the references it has left are still counted. */
  lemma StillCounted(refs: multiset<Block>, t: BlockTable, i: nat)
    requires multiset(t) <= refs && i < |t|
    ensures (refs - multiset(t[..i]))[t[i]] > 0
    ensures refs - multiset(t[..i + 1]) == refs - multiset(t[..i]) - multiset{t[i]}
  {
    assert t == t[..i] + [t[i]] + t[i + 1..];
    assert t[..i + 1] == t[..i] + [t[i]];
  }

  /** The references when the first j entries of t have been replaced by u. */
  ghost function Left(refs: multiset<Block>, t: BlockTable, j: nat, u: BlockTable): multiset<Block>
    requires j <= |t|
  {
    refs - multiset(t[..j]) + multiset(u)
  }

  lemma MovedRefs(refs: multiset<Block>, t: BlockTable, j: nat, u: BlockTable, c: Block)
    requires multiset(t) <= refs && j < |t|
    ensures Left(refs, t, j + 1, u + [c]) == Left(refs, t, j, u) + multiset{c} - multiset{t[j]}
  {
    StillCounted(refs, t, j);
  }

  lemma TableBlocks(m: Tables, id: int, pool: set<Block>)
    requires TablesIn(m, pool) && id in m
    ensures forall b :: b in m[id] ==> b in pool
  {
  }

  lemma CopyIsReady(m: Tables, id: int, b: Block)
    requires id in m && m[id] != [] && Refs(m)[Last(m[id])] != 1 && Refs(m)[b] == 0
    ensures SlotReady(m, m[id := m[id][|m[id]| - 1 := b]], id, |m[id]|, CopyOnWrite(Last(m[id]), b))
  {
  }

  /** The blocks that the group's unfinished sequences occupy. */
  function PhysicalBlocks(m: Tables, group: Group): set<Block> {
    if group == [] then {}
    else
      var s := group[|group| - 1];
      PhysicalBlocks(m, group[..|group| - 1]) + (if s.status != FINISHED && s.id in m then set b | b in m[s.id] else {})
  }

  lemma PhysicalBlocksStep(m: Tables, group: Group, i: nat, f: map<Block, Block>)
    requires i < |group| && HaveTables(group, m) && f.Keys == PhysicalBlocks(m, group[..i])
    ensures PhysicalBlocks(m, group[..i + 1]) == PhysicalBlocks(m, group[..i]) +
      (if group[i].status == FINISHED then {} else NewBlocks(m[group[i].id], f))
    ensures |PhysicalBlocks(m, group[..i + 1])| == |PhysicalBlocks(m, group[..i])| +
      (if group[i].status == FINISHED then 0 else |NewBlocks(m[group[i].id], f)|)
    ensures |PhysicalBlocks(m, group[..i + 1])| <= |PhysicalBlocks(m, group)|
  {
    assert group[..i + 1][..i] == group[..i];
    PhysicalBlocksGrow(m, group, i + 1);
    SubsetCard(PhysicalBlocks(m, group[..i + 1]), PhysicalBlocks(m, group));
    if group[i].status != FINISHED {
      var old_, new_ := PhysicalBlocks(m, group[..i]), NewBlocks(m[group[i].id], f);
      assert PhysicalBlocks(m, group[..i + 1]) == old_ + new_ && old_ !! new_;
    }
  }

  lemma {:induction false} PhysicalBlocksGrow(m: Tables, group: Group, i: nat)
    requires i <= |group|
    ensures PhysicalBlocks(m, group[..i]) <= PhysicalBlocks(m, group)
    decreases |group|
  {
    if i < |group| {
      var h := group[..|group| - 1];
      PhysicalBlocksGrow(m, h, i);
      assert h[..i] == group[..i];
    } else {
      assert group[..i] == group;
    }
  }

  lemma MovedSkip(m0: Tables, m: Tables, group: Group, i: nat, f: map<Block, Block>)
    requires i < |group| && group[i].status == FINISHED && Moved(m0, m, group[..i], f)
    ensures Moved(m0, m, group[..i + 1], f)
  {
    forall id ensures HasUnfinished(group[..i + 1], id) <==> HasUnfinished(group[..i], id) {
      assert group[..i + 1] == group[..i] + [group[i]];
    }
  }

  lemma NotYetMoved(m0: Tables, m: Tables, group: Group, i: nat, f: map<Block, Block>)
    requires i < |group| && DistinctIds(group) && HaveTables(group, m0) && group[i].status != FINISHED
    requires Moved(m0, m, group[..i], f)
    ensures group[i].id in m && m[group[i].id] == m0[group[i].id]
    ensures forall b :: b in m0[group[i].id] ==> b in PhysicalBlocks(m0, group)
  {
    assert !HasUnfinished(group[..i], group[i].id);
    assert group[..i + 1][..i] == group[..i];
    PhysicalBlocksGrow(m0, group, i + 1);
  }

  lemma MovedGroupStep(m0: Tables, was: Tables, group: Group, i: nat, f: map<Block, Block>, g: map<Block, Block>,
                       now: Tables)
    requires i < |group| && DistinctIds(group) && group[i].status != FINISHED && group[i].id in m0
    requires Moved(m0, was, group[..i], f) && Extends(f, g)
    requires group[i].id in was && was[group[i].id] == m0[group[i].id]
    requires group[i].id in now && now == was[group[i].id := now[group[i].id]]
    requires TableMoved(was[group[i].id], now[group[i].id], g)
    ensures Moved(m0, now, group[..i + 1], g)
  {
    assert group[..i + 1] == group[..i] + [group[i]];
    assert group[i] in group[..i + 1] && HasUnfinished(group[..i + 1], group[i].id);
    forall id | id in m0 && HasUnfinished(group[..i + 1], id) ensures TableMoved(m0[id], now[id], g) {
      if id != group[i].id {
        assert HasUnfinished(group[..i], id);
        assert TableMoved(m0[id], was[id], f);
      }
    }
    forall id | id in m0 && !HasUnfinished(group[..i + 1], id) ensures now[id] == m0[id] {
      assert !HasUnfinished(group[..i], id);
    }
  }

  lemma MovedToDevice(before: Tables, after: Tables, group: Group, f: map<Block, Block>, dev: Device, id: int)
    requires Moved(before, after, group, f) && Renaming(before, f, dev) && id in before && HasUnfinished(group, id)
    ensures id in after && forall b :: b in after[id] ==> b.device == dev
  {
    assert TableMoved(before[id], after[id], f);
    forall b | b in after[id] ensures b.device == dev {
      var i :| 0 <= i < |after[id]| && after[id][i] == b;
      assert before[id][i] in f;
    }
  }

  /** append_slot's demand on its caller: a token to place, and a last block on the GPU to place it in. */
  ghost predicate Appendable(m: Tables, s: SeqInfo) {
    s.id in m && s.logical > 0 && (s.logical <= |m[s.id]| ==> Last(m[s.id]).device == GPU)
  }

  /** hist are the tables before, between and after append_slot calls for todo with results rs. */
  ghost predicate Chain(hist: seq<Tables>, todo: Group, rs: seq<SlotResult>) {
    && |hist| == |todo| + 1 && |rs| == |todo|
    && forall k :: 0 <= k < |todo| ==> Link(hist, todo, rs, k)
  }

  ghost predicate Link(hist: seq<Tables>, todo: Group, rs: seq<SlotResult>, k: int)
    requires |hist| == |todo| + 1 && |rs| == |todo| && 0 <= k < |todo|
  {
    && rs[k] != NoRoom && todo[k].id in hist[k] && todo[k].logical > 0
    && SlotReady(hist[k], hist[k + 1], todo[k].id, todo[k].logical, rs[k])
    && todo[k].id in hist[k + 1] && hist[k + 1][todo[k].id] != []
    && Last(hist[k + 1][todo[k].id]).device == GPU
    && Refs(hist[k + 1])[Last(hist[k + 1][todo[k].id])] == 1
  }

  lemma ChainStart(m: Tables)
    ensures Chain([m], [], [])
  {
  }

  lemma ChainStep(hist: seq<Tables>, todo: Group, k: nat, rs: seq<SlotResult>, m: Tables, r: SlotResult)
    requires k < |todo| && Chain(hist, todo[..k], rs) && r != NoRoom && todo[k].id in hist[k] && todo[k].logical > 0
    requires SlotReady(hist[k], m, todo[k].id, todo[k].logical, r) && m[todo[k].id] != []
    requires Last(m[todo[k].id]).device == GPU && Refs(m)[Last(m[todo[k].id])] == 1
    ensures Chain(hist + [m], todo[..k + 1], rs + [r])
  {
    var hist', todo', rs' := hist + [m], todo[..k + 1], rs + [r];
    forall j | 0 <= j < k + 1 ensures Link(hist', todo', rs', j) {
      if j < k { assert Link(hist, todo[..k], rs, j); }
    }
  }

  lemma ChainPrefix(hist: seq<Tables>, todo: Group, rs: seq<SlotResult>)
    requires Chain(hist, todo, rs) && |todo| > 0
    ensures Chain(hist[..|todo|], todo[..|todo| - 1], rs[..|todo| - 1])
  {
    var n := |todo| - 1;
    var h, g, r := hist[..|todo|], todo[..n], rs[..n];
    forall k | 0 <= k < n ensures Link(h, g, r, k) { assert Link(hist, todo, rs, k); }
  }

  /** Replacing the last block moves one reference from it to the new block. */
  lemma CopyRefs(m: Tables, id: int, b: Block)
    requires id in m && m[id] != [] && Refs(m)[Last(m[id])] != 1 && Refs(m)[b] == 0
    ensures Refs(m[id := m[id][|m[id]| - 1 := b]]) == Refs(m) + multiset{b} - multiset{Last(m[id])}
    ensures Refs(m)[Last(m[id])] > 1
  {
    hide Refs;
    var t := m[id];
    var u := t[|t| - 1 := b];
    assert t == t[..|t| - 1] + [Last(t)] && u == t[..|t| - 1] + [b];
    RefsUpdate(m, id, u);
    assert Last(t) in multiset(t);
    MoveReference(Refs(m), multiset(t), multiset(u), Last(t), b);
  }

  lemma MoveReference(refs: multiset<Block>, t: multiset<Block>, u: multiset<Block>, a: Block, b: Block)
    requires t <= refs && a in t && u == t - multiset{a} + multiset{b}
    ensures refs - t + u == refs + multiset{b} - multiset{a} && refs[a] > 0
  {
  }

  function Last(t: BlockTable): Block
    requires t != []
  {
    t[|t| - 1]
  }

  /** t is made of distinct blocks of the device that no table of m refers to. */
  ghost predicate FreshTable(m: Tables, t: BlockTable, dev: Device) {
    NoDuplicates(t) && forall b :: b in t ==> Refs(m)[b] == 0 && b.device == dev
  }

  ghost predicate HasId(id: int, group: Group) { exists i :: 0 <= i < |group| && group[i].id == id }

  /** after is before with table t added for every sequence of the group. */
  ghost predicate Assigned(before: Tables, after: Tables, group: Group, t: BlockTable) {
    && (forall id :: id in after <==> id in before || HasId(id, group))
    && (forall id :: id in before ==> id in after && after[id] == before[id])
    && (forall i :: 0 <= i < |group| ==> group[i].id in after && after[group[i].id] == t)
  }

  lemma AssignedNone(before: Tables, group: Group, t: BlockTable)
    ensures Assigned(before, before, group[..0], t)
  {
  }

  lemma AssignedStep(before: Tables, after: Tables, group: Group, i: nat, t: BlockTable)
    requires DistinctIds(group) && i < |group| && group[i].id !in before
    requires Assigned(before, after, group[..i], t)
    ensures group[i].id !in after
    ensures Assigned(before, after[group[i].id := t], group[..i + 1], t)
  {
    var now := after[group[i].id := t];
    forall id | id in now ensures HasId(id, group[..i + 1]) || id in before {
      if id == group[i].id {
        assert group[..i + 1][i].id == id;
      } else if id !in before {
        var k :| 0 <= k < |group[..i]| && group[..i][k].id == id;
        assert group[..i + 1][k].id == id;
      }
    }
    var g := group[..i + 1];
    forall k | 0 <= k < |g| ensures g[k].id in now && now[g[k].id] == t {
      if k < i { assert group[..i][k] == g[k]; }
    }
  }

  /** append_slot has to take a block: the table is short, or its last block is shared. */
  ghost predicate NeedsBlock(m: Tables, id: int, logical: nat)
    requires id in m && logical > 0
  {
    |m[id]| < logical || Refs(m)[Last(m[id])] != 1
  }

  /**
   The table change append_slot makes: a fresh block at the end, nothing, or a fresh last block.
   Other tables stay.
   */
  ghost predicate SlotReady(before: Tables, after: Tables, id: int, logical: nat, r: SlotResult)
    requires id in before && logical > 0
  {
    && after.Keys == before.Keys && (forall j :: j in before && j != id ==> after[j] == before[j])
    && var t, u := before[id], after[id];
       if |t| < logical then
         r == InPlace && |u| == |t| + 1 && u[..|t|] == t && Refs(before)[u[|t|]] == 0
       else
         && |u| == |t| && u[..|t| - 1] == t[..|t| - 1]
         && if Refs(before)[Last(t)] == 1 then r == InPlace && u == t
            else r == CopyOnWrite(Last(t), Last(u)) && Refs(before)[Last(u)] == 0
  }
}
