/**
 What the block tables are for: reading a sequence's tokens through its table returns the sequence's
 own token list, over any run of prefills, decode steps, forks, frees and swaps.
 */
module KvCache {
  import opened AppendNeeds
  import opened Arithmetic
  import opened BlockTables
  import opened Common

  /** Block contents, on both devices. */
  type Memory = map<Block, seq<int>>

  /** Entry q*bs + r of the token list is at offset r of the q-th block of the table. */
  ghost predicate Reads(kv: Memory, t: BlockTable, toks: seq<int>, bs: nat) {
    forall q, r :: Entry(toks, bs, q, r) ==> ReadsAt(kv, t, toks, bs, q, r)
  }

  ghost predicate Entry(toks: seq<int>, bs: nat, q: int, r: int) { 0 <= q && 0 <= r < bs && 0 <= q * bs + r < |toks| }

  ghost predicate ReadsAt(kv: Memory, t: BlockTable, toks: seq<int>, bs: nat, q: int, r: int)
    requires Entry(toks, bs, q, r)
  {
    q < |t| && t[q] in kv && |kv[t[q]]| == bs && kv[t[q]][r] == toks[q * bs + r]
  }

  ghost predicate AllRead(kv: Memory, m: Tables, toks: map<int, seq<int>>, bs: nat) {
    forall id :: id in m ==> id in toks && Reads(kv, m[id], toks[id], bs)
  }

  // ---- appending ----------------------------------------------------------------------------------

  /** The copy that an append_slot result asks for. */
  ghost function Copied(kv: Memory, r: SlotResult): Memory {
    match r
    case CopyOnWrite(src, dst) => if src in kv then kv[dst := kv[src]] else kv
    case _ => kv
  }

  /** A block that no table refers to can take any contents. */
  lemma UnreferencedBlock(kv: Memory, m: Tables, toks: map<int, seq<int>>, bs: nat, b: Block, v: seq<int>)
    requires AllRead(kv, m, toks, bs) && Refs(m)[b] == 0
    ensures AllRead(kv[b := v], m, toks, bs)
  {
    forall id | id in m ensures Reads(kv[b := v], m[id], toks[id], bs) {
      NotIn(m, id, b);
      forall q, r | Entry(toks[id], bs, q, r) ensures ReadsAt(kv[b := v], m[id], toks[id], bs, q, r) {
        assert ReadsAt(kv, m[id], toks[id], bs, q, r);
      }
    }
  }

  lemma NotIn(m: Tables, id: int, b: Block)
    requires id in m && Refs(m)[b] == 0
    ensures b !in m[id]
  {
    RefsUpdate(m, id, m[id]);
    assert b in m[id] <==> multiset(m[id])[b] > 0;
  }

  /** A stored non-empty token list has its last entry in the last block. */
  lemma LastStored(kv: Memory, t: BlockTable, toks: seq<int>, bs: nat)
    requires bs > 0 && Reads(kv, t, toks, bs) && |t| == CeilDiv(|toks|, bs) > 0
    ensures Last(t) in kv && |kv[Last(t)]| == bs
  {
    CeilDivBounds(|toks|, bs);
    assert (|t| - 1) * bs == |t| * bs - bs;
    assert Entry(toks, bs, |t| - 1, 0) by { assert (|t| - 1) * bs >= 0; }
    assert ReadsAt(kv, t, toks, bs, |t| - 1, 0);
  }

  /** append_slot and its copy leave every sequence's tokens readable. */
  lemma AppendKeeps(kv: Memory, before: Tables, after: Tables, toks: map<int, seq<int>>, bs: nat, id: int, logical: nat,
                    r: SlotResult)
    requires bs > 0 && AllRead(kv, before, toks, bs) && id in before && logical > 0
    requires |before[id]| == CeilDiv(|toks[id]|, bs) && logical == CeilDiv(|toks[id]| + 1, bs)
    requires SlotReady(before, after, id, logical, r)
    ensures AllRead(Copied(kv, r), after, toks, bs)
    ensures |after[id]| == logical
  {
    var t, u, n := before[id], after[id], |toks[id]|;
    OneMoreBlock(n, bs);
    hide CeilDiv;
    if |t| < logical {
      assert u == t + [u[|t|]];
      GrownReads(kv, t, u[|t|], toks[id], bs);
    } else if r.CopyOnWrite? {
      LastStored(kv, t, toks[id], bs);
      UnreferencedBlock(kv, before, toks, bs, r.dst, kv[r.src]);
      NotIn(before, id, r.dst);
      CopyReads(kv, t, u, toks[id], bs, r.src, r.dst);
    }
  }

  lemma GrownReads(kv: Memory, t: BlockTable, b: Block, toks: seq<int>, bs: nat)
    requires Reads(kv, t, toks, bs)
    ensures Reads(kv, t + [b], toks, bs)
  {
    forall q, r | Entry(toks, bs, q, r) ensures ReadsAt(kv, t + [b], toks, bs, q, r) {
      assert ReadsAt(kv, t, toks, bs, q, r);
    }
  }

  lemma CopyReads(kv: Memory, t: BlockTable, u: BlockTable, toks: seq<int>, bs: nat, src: Block, dst: Block)
    requires Reads(kv, t, toks, bs) && |t| == |u| > 0 && u[..|t| - 1] == t[..|t| - 1]
    requires Last(t) == src && Last(u) == dst && src in kv && dst !in t
    ensures Reads(kv[dst := kv[src]], u, toks, bs)
  {
    var kv' := kv[dst := kv[src]];
    forall q, r | Entry(toks, bs, q, r) ensures ReadsAt(kv', u, toks, bs, q, r) {
      assert ReadsAt(kv, t, toks, bs, q, r);
      if q < |t| - 1 { assert u[..|t| - 1][q] == t[..|t| - 1][q]; }
    }
  }

  // ---- a step over several sequences ----------------------------------------------------------------

  /** The copies of the first k results, carried out one after the other. */
  ghost function CopiedAll(kv: Memory, rs: seq<SlotResult>): Memory {
    if rs == [] then kv else Copied(CopiedAll(kv, rs[..|rs| - 1]), rs[|rs| - 1])
  }

  /** The same copies done all at once, each from the memory before the step. */
  ghost predicate CopiedAtOnce(kv: Memory, after: Memory, rs: seq<SlotResult>) {
    && (forall k :: 0 <= k < |rs| && rs[k].CopyOnWrite? && rs[k].src in kv ==>
          rs[k].dst in after && after[rs[k].dst] == kv[rs[k].src])
    && (forall b :: b in kv && (forall k :: 0 <= k < |rs| && rs[k].CopyOnWrite? ==> rs[k].dst != b) ==>
          b in after && after[b] == kv[b])
  }

  /** No copy of the step reads or overwrites what another one wrote, so their order does not matter. */
  lemma {:induction false} CopiesCommute(kv: Memory, hist: seq<Tables>, todo: Group, rs: seq<SlotResult>)
    requires Chain(hist, todo, rs)
    ensures CopiedAtOnce(kv, CopiedAll(kv, rs), rs)
    ensures forall k :: 0 <= k < |rs| && rs[k].CopyOnWrite? ==> Refs(hist[|todo|])[rs[k].dst] == 1
    ensures kv.Keys <= CopiedAll(kv, rs).Keys
    decreases |todo|
  {
    if |todo| > 0 {
      hide Refs, Chain, CopiedAtOnce;
      var n := |todo| - 1;
      var rs0 := rs[..n];
      ChainPrefix(hist, todo, rs);
      CopiesCommute(kv, hist[..n + 1], todo[..n], rs0);
      forall k | 0 <= k < n && rs[k].CopyOnWrite? ensures Refs(hist[n])[rs[k].dst] == 1 { assert rs0[k] == rs[k]; }
      SoleTargets(hist, todo, rs);
      LastCopy(kv, CopiedAll(kv, rs0), rs, hist[n]);
    }
  }

  /** One more append: the earlier targets still have one reference, and so has its own, which nobody referred to. */
  lemma SoleTargets(hist: seq<Tables>, todo: Group, rs: seq<SlotResult>)
    requires Chain(hist, todo, rs) && |todo| > 0
    requires forall k :: 0 <= k < |todo| - 1 && rs[k].CopyOnWrite? ==> Refs(hist[|todo| - 1])[rs[k].dst] == 1
    ensures forall k :: 0 <= k < |rs| && rs[k].CopyOnWrite? ==> Refs(hist[|todo|])[rs[k].dst] == 1
    ensures var n := |todo| - 1; rs[n].CopyOnWrite? ==> Refs(hist[n])[rs[n].dst] == 0 && Refs(hist[n])[rs[n].src] > 1
  {
    hide Refs, SlotReady;
    var n := |todo| - 1;
    assert Link(hist, todo, rs, n);
    if rs[n].CopyOnWrite? { CopiedRefs(hist[n], hist[n + 1], todo[n].id, todo[n].logical, rs[n]); }
    forall k | 0 <= k < n && rs[k].CopyOnWrite? ensures Refs(hist[n + 1])[rs[k].dst] == 1 {
      SoleStays(hist[n], hist[n + 1], todo[n].id, todo[n].logical, rs[n], rs[k].dst);
    }
  }

  lemma LastCopy(kv: Memory, mid: Memory, rs: seq<SlotResult>, m: Tables)
    requires |rs| > 0 && CopiedAtOnce(kv, mid, rs[..|rs| - 1]) && kv.Keys <= mid.Keys
    requires forall k :: 0 <= k < |rs| - 1 && rs[k].CopyOnWrite? ==> Refs(m)[rs[k].dst] == 1
    requires rs[|rs| - 1].CopyOnWrite? ==> Refs(m)[rs[|rs| - 1].dst] == 0 && Refs(m)[rs[|rs| - 1].src] > 1
    ensures CopiedAtOnce(kv, Copied(mid, rs[|rs| - 1]), rs) && kv.Keys <= Copied(mid, rs[|rs| - 1]).Keys
  {
    hide Refs;
    var n := |rs| - 1;
    var r0, after := rs[..n], Copied(mid, rs[n]);
    assert forall k :: 0 <= k < n ==> r0[k] == rs[k];
    forall k | 0 <= k < |rs| && rs[k].CopyOnWrite? && rs[k].src in kv
      ensures rs[k].dst in after && after[rs[k].dst] == kv[rs[k].src]
    {
      if k < n { assert r0[k] == rs[k]; }
    }
    forall b | b in kv && (forall k :: 0 <= k < |rs| && rs[k].CopyOnWrite? ==> rs[k].dst != b)
      ensures b in after && after[b] == kv[b]
    {
      assert rs[n].CopyOnWrite? ==> rs[n].dst != b;
    }
  }

  /** The sequences of a step: stored so far, each asking for the blocks of one more token. */
  ghost predicate StepReady(m: Tables, todo: Group, toks: map<int, seq<int>>, bs: nat) {
    && bs > 0 && DistinctIds(todo)
    && forall k :: 0 <= k < |todo| ==> SeqReady(m, todo[k], toks, bs)
  }

  ghost predicate SeqReady(m: Tables, s: SeqInfo, toks: map<int, seq<int>>, bs: nat)
    requires bs > 0
  {
    s.id in m && s.id in toks && |m[s.id]| == CeilDiv(|toks[s.id]|, bs) && s.logical == CeilDiv(|toks[s.id]| + 1, bs)
  }

  /** After its append_slot a sequence has room for one more token in a last block of its own. */
  ghost predicate HasRoom(m: Tables, s: SeqInfo) {
    s.id in m && |m[s.id]| == s.logical > 0 && Refs(m)[Last(m[s.id])] == 1
  }

  /** A whole step of append_slots and copies leaves every sequence readable and gives each a private slot. */
  lemma {:induction false} ChainKeeps(kv: Memory, hist: seq<Tables>, todo: Group, rs: seq<SlotResult>,
                                      toks: map<int, seq<int>>, bs: nat)
    requires Chain(hist, todo, rs) && StepReady(hist[0], todo, toks, bs) && AllRead(kv, hist[0], toks, bs)
    ensures AllRead(CopiedAll(kv, rs), hist[|todo|], toks, bs)
    ensures hist[|todo|].Keys == hist[0].Keys
    ensures forall k :: 0 <= k < |todo| ==> HasRoom(hist[|todo|], todo[k])
    ensures forall id :: id in hist[0] && !ListsId(todo, id) ==> hist[|todo|][id] == hist[0][id]
    decreases |todo|
  {
    if |todo| > 0 {
      hide Refs, AllRead, SlotReady, CeilDiv, HasRoom, ListsId;
      var n := |todo| - 1;
      ChainPrefix(hist, todo, rs);
      StepReadyPrefix(hist[0], todo, toks, bs);
      ChainKeeps(kv, hist[..n + 1], todo[..n], rs[..n], toks, bs);
      LastLink(hist, todo, rs);
      ChainNext(CopiedAll(kv, rs[..n]), hist[0], hist[n], hist[n + 1], todo, todo[..n], rs[n], toks, bs);
    }
  }

  lemma StepReadyPrefix(m: Tables, todo: Group, toks: map<int, seq<int>>, bs: nat)
    requires StepReady(m, todo, toks, bs) && todo != []
    ensures StepReady(m, todo[..|todo| - 1], toks, bs)
  {
    var n := |todo| - 1;
    forall k | 0 <= k < n ensures SeqReady(m, todo[..n][k], toks, bs) { assert todo[..n][k] == todo[k]; }
  }

  /** One more append and its copy, for the last sequence of the list. */
  lemma ChainNext(kv: Memory, first: Tables, before: Tables, after: Tables, todo: Group, front: Group, r: SlotResult,
                  toks: map<int, seq<int>>, bs: nat)
    requires StepReady(first, todo, toks, bs) && todo != [] && AllRead(kv, before, toks, bs)
    requires before.Keys == first.Keys
    requires front == todo[..|todo| - 1] && forall k :: 0 <= k < |front| ==> HasRoom(before, front[k])
    requires forall id :: id in first && !ListsId(front, id) ==> before[id] == first[id]
    requires var s := todo[|todo| - 1]; s.logical > 0 && s.id in before && SlotReady(before, after, s.id, s.logical, r)
    requires var s := todo[|todo| - 1];
      after.Keys == before.Keys && (|after[s.id]| == s.logical ==> HasRoom(after, s))
    ensures AllRead(Copied(kv, r), after, toks, bs) && after.Keys == first.Keys
    ensures forall k :: 0 <= k < |todo| ==> HasRoom(after, todo[k])
    ensures forall id :: id in first && !ListsId(todo, id) ==> after[id] == first[id]
  {
    hide Refs, AllRead, CeilDiv, HasRoom, ListsId;
    var n := |todo| - 1;
    var s := todo[n];
    NotYetListed(todo);
    assert SeqReady(first, s, toks, bs);
    AppendKeeps(kv, before, after, toks, bs, s.id, s.logical, r);
    OthersStay(before, after, s.id, s.logical, r);
    forall k | 0 <= k < n ensures HasRoom(after, todo[k]) {
      assert front[k] == todo[k];
      RoomStays(before, after, todo[k], s.id, s.logical, r);
    }
  }

  lemma OthersStay(before: Tables, after: Tables, id: int, logical: nat, r: SlotResult)
    requires id in before && logical > 0 && SlotReady(before, after, id, logical, r)
    ensures forall j :: j in before && j != id ==> j in after && after[j] == before[j]
  {
    hide Refs;
  }

  lemma LastLink(hist: seq<Tables>, todo: Group, rs: seq<SlotResult>)
    requires Chain(hist, todo, rs) && todo != []
    ensures var n := |todo| - 1; var s := todo[n];
      && s.logical > 0 && s.id in hist[n] && SlotReady(hist[n], hist[n + 1], s.id, s.logical, rs[n])
      && hist[n + 1].Keys == hist[n].Keys && (|hist[n + 1][s.id]| == s.logical ==> HasRoom(hist[n + 1], s))
  {
    hide Refs;
    assert Link(hist, todo, rs, |todo| - 1);
  }

  lemma NotYetListed(todo: Group)
    requires DistinctIds(todo) && todo != []
    ensures !ListsId(todo[..|todo| - 1], todo[|todo| - 1].id)
    ensures forall id :: ListsId(todo, id) <==> ListsId(todo[..|todo| - 1], id) || id == todo[|todo| - 1].id
  {
    forall id | ListsId(todo[..|todo| - 1], id) ensures ListsId(todo, id) {
      var k :| 0 <= k < |todo| - 1 && todo[..|todo| - 1][k].id == id;
      assert todo[k].id == id;
    }
    forall id | ListsId(todo, id) && id != todo[|todo| - 1].id ensures ListsId(todo[..|todo| - 1], id) {
      var k :| 0 <= k < |todo| && todo[k].id == id;
      assert todo[..|todo| - 1][k].id == id;
    }
  }

  /** Another sequence's append leaves a private slot private. */
  lemma RoomStays(before: Tables, after: Tables, s: SeqInfo, id: int, logical: nat, r: SlotResult)
    requires HasRoom(before, s) && s.id != id && id in before && logical > 0 && SlotReady(before, after, id, logical, r)
    ensures HasRoom(after, s)
  {
    hide Refs;
    SoleStays(before, after, id, logical, r, Last(before[s.id]));
  }

  ghost predicate ListsId(todo: Group, id: int) { exists k :: 0 <= k < |todo| && todo[k].id == id }

  // ---- writing the new token ------------------------------------------------------------------------

  /** The memory after writing tok behind the first n tokens of table t. */
  ghost function Written(kv: Memory, t: BlockTable, n: nat, bs: nat, tok: int): Memory
    requires t != [] && Last(t) in kv && |kv[Last(t)]| == bs && 0 <= n - (|t| - 1) * bs < bs
  {
    kv[Last(t) := kv[Last(t)][n - (|t| - 1) * bs := tok]]
  }

  /** Writing a sequence's new token in its private last block extends that sequence and no other. */
  lemma WriteKeeps(kv: Memory, m: Tables, toks: map<int, seq<int>>, bs: nat, id: int, tok: int)
    requires bs > 0 && AllRead(kv, m, toks, bs) && id in m && |m[id]| == CeilDiv(|toks[id]| + 1, bs)
    requires m[id] != [] && Refs(m)[Last(m[id])] == 1 && Last(m[id]) in kv && |kv[Last(m[id])]| == bs
    ensures 0 <= |toks[id]| - (|m[id]| - 1) * bs < bs
    ensures AllRead(Written(kv, m[id], |toks[id]|, bs, tok), m, toks[id := toks[id] + [tok]], bs)
  {
    OneMoreBlock(|toks[id]|, bs);
    assert (|m[id]| - 1) * bs == |m[id]| * bs - bs;
    hide CeilDiv, Refs;
    var t, n := m[id], |toks[id]|;
    var kv' := Written(kv, t, n, bs, tok);
    forall j | j in m && j != id ensures Reads(kv', m[j], toks[j], bs) {
      RefsExclusive(m, Last(t), id, j);
      forall q, r | Entry(toks[j], bs, q, r) ensures ReadsAt(kv', m[j], toks[j], bs, q, r) {
        assert ReadsAt(kv, m[j], toks[j], bs, q, r);
      }
    }
    LastOnce(m, id);
    WriteReads(kv, t, toks[id], bs, tok);
  }

  lemma LastOnce(m: Tables, id: int)
    requires id in m && m[id] != [] && Refs(m)[Last(m[id])] == 1
    ensures Last(m[id]) !in m[id][..|m[id]| - 1]
  {
    var t := m[id];
    RefsUpdate(m, id, t);
    assert t == t[..|t| - 1] + [Last(t)];
    assert multiset(t) == multiset(t[..|t| - 1]) + multiset{Last(t)};
    assert multiset(t)[Last(t)] <= 1;
    assert Last(t) in t[..|t| - 1] <==> multiset(t[..|t| - 1])[Last(t)] > 0;
  }

  lemma WriteReads(kv: Memory, t: BlockTable, toks: seq<int>, bs: nat, tok: int)
    requires bs > 0 && Reads(kv, t, toks, bs) && t != [] && Last(t) in kv && |kv[Last(t)]| == bs
    requires 0 <= |toks| - (|t| - 1) * bs < bs && Last(t) !in t[..|t| - 1]
    ensures Reads(Written(kv, t, |toks|, bs, tok), t, toks + [tok], bs)
  {
    var kv', n := Written(kv, t, |toks|, bs, tok), |toks|;
    forall q, r | Entry(toks + [tok], bs, q, r) ensures ReadsAt(kv', t, toks + [tok], bs, q, r) {
      if q * bs + r < n {
        assert ReadsAt(kv, t, toks, bs, q, r);
        if q < |t| - 1 { assert t[q] == t[..|t| - 1][q]; }
      } else {
        SamePlace(q, r, |t| - 1, n - (|t| - 1) * bs, bs);
      }
    }
  }

  lemma SamePlace(q: int, r: int, q': int, r': int, bs: nat)
    requires 0 <= r < bs && 0 <= r' < bs && q * bs + r == q' * bs + r'
    ensures q == q' && r == r'
  {
    QuotientOrder(q, q', bs);
    QuotientOrder(q', q, bs);
  }

  // ---- prefill --------------------------------------------------------------------------------------

  /** The memory after writing the first k blocks' worth of the prompt into table t. */
  ghost function Prefilled(kv: Memory, t: BlockTable, prompt: seq<int>, bs: nat, k: nat): Memory
    requires k <= |t| && forall b :: b in t ==> b in kv && |kv[b]| == bs
    ensures forall b :: b in kv ==> b in Prefilled(kv, t, prompt, bs, k)
    ensures (forall b :: b in kv ==> |kv[b]| == bs) ==>
      forall b :: b in Prefilled(kv, t, prompt, bs, k) ==> |Prefilled(kv, t, prompt, bs, k)[b]| == bs
  {
    if k == 0 then kv
    else
      var m := Prefilled(kv, t, prompt, bs, k - 1);
      m[t[k - 1] := seq(bs, r requires 0 <= r < bs =>
        if 0 <= (k - 1) * bs + r < |prompt| then prompt[(k - 1) * bs + r] else kv[t[k - 1]][r])]
  }

  lemma {:induction false} PrefillWrites(kv: Memory, t: BlockTable, prompt: seq<int>, bs: nat, k: nat, q: nat, r: nat)
    requires k <= |t| && NoDuplicates(t) && (forall b :: b in t ==> b in kv && |kv[b]| == bs) && q < k
    requires Entry(prompt, bs, q, r)
    ensures t[q] in Prefilled(kv, t, prompt, bs, k) && |Prefilled(kv, t, prompt, bs, k)[t[q]]| == bs
    ensures Prefilled(kv, t, prompt, bs, k)[t[q]][r] == prompt[q * bs + r]
  {
    if q < k - 1 { PrefillWrites(kv, t, prompt, bs, k - 1, q, r); }
  }

  lemma {:induction false} PrefillElsewhere(kv: Memory, t: BlockTable, prompt: seq<int>, bs: nat, k: nat, b: Block)
    requires k <= |t| && (forall b :: b in t ==> b in kv && |kv[b]| == bs) && b !in t && b in kv
    ensures Prefilled(kv, t, prompt, bs, k)[b] == kv[b]
  {
    if k > 0 { PrefillElsewhere(kv, t, prompt, bs, k - 1, b); }
  }

  /** A prefill stores the prompt for every sequence of the group and disturbs no other sequence. */
  lemma PrefillKeeps(kv: Memory, before: Tables, after: Tables, group: Group, t: BlockTable, dev: Device,
                     toks: map<int, seq<int>>, toks': map<int, seq<int>>, prompt: seq<int>, bs: nat)
    requires bs > 0 && AllRead(kv, before, toks, bs) && (forall b :: b in t ==> b in kv && |kv[b]| == bs)
    requires FreshTable(before, t, dev) && Assigned(before, after, group, t) && |t| == CeilDiv(|prompt|, bs)
    requires forall i :: 0 <= i < |group| ==> group[i].id in toks' && toks'[group[i].id] == prompt
    requires forall id :: id in before ==> id in toks && id in toks' && toks'[id] == toks[id]
    ensures AllRead(Prefilled(kv, t, prompt, bs, |t|), after, toks', bs)
  {
    var kv' := Prefilled(kv, t, prompt, bs, |t|);
    CeilDivBounds(|prompt|, bs);
    hide CeilDiv;
    forall id | id in after ensures id in toks' && Reads(kv', after[id], toks'[id], bs) {
      if id in before {
        forall q, r | Entry(toks[id], bs, q, r) ensures ReadsAt(kv', after[id], toks'[id], bs, q, r) {
          assert ReadsAt(kv, before[id], toks[id], bs, q, r);
          var b := before[id][q];
          if Refs(before)[b] == 0 { NotIn(before, id, b); }
          PrefillElsewhere(kv, t, prompt, bs, |t|, b);
        }
      } else {
        var i :| 0 <= i < |group| && group[i].id == id;
        forall q, r | Entry(prompt, bs, q, r) ensures ReadsAt(kv', after[id], prompt, bs, q, r) {
          QuotientOrder(q + 1, |t|, bs) by { assert (q + 1) * bs == q * bs + bs; }
          PrefillWrites(kv, t, prompt, bs, |t|, q, r);
        }
      }
    }
  }

  // ---- forking and swapping -------------------------------------------------------------------------

  lemma ForkKeeps(kv: Memory, m: Tables, toks: map<int, seq<int>>, bs: nat, parent: int, child: int)
    requires AllRead(kv, m, toks, bs) && parent in m
    ensures AllRead(kv, m[child := m[parent]], toks[child := toks[parent]], bs)
  {
  }

  /** The memory after every block of f has been copied to its image. */
  ghost function Swapped(kv: Memory, f: map<Block, Block>): Memory
    requires forall b :: b in f ==> b in kv
  {
    map b | b in kv.Keys + f.Values :: if b in f.Values then kv[Source(f, b)] else kv[b]
  }

  ghost function Source(f: map<Block, Block>, b: Block): (a: Block)
    requires b in f.Values
    ensures a in f && f[a] == b
  {
    var a :| a in f && f[a] == b;
    a
  }

  /** Swapping a group leaves every sequence's tokens readable, moved or not. */
  lemma SwapKeeps(kv: Memory, before: Tables, after: Tables, group: Group, f: map<Block, Block>, dev: Device,
                  toks: map<int, seq<int>>, bs: nat)
    requires AllRead(kv, before, toks, bs) && Moved(before, after, group, f) && Renaming(before, f, dev)
    requires forall b :: b in f ==> b in kv
    ensures AllRead(Swapped(kv, f), after, toks, bs)
  {
    var kv' := Swapped(kv, f);
    forall id | id in after ensures Reads(kv', after[id], toks[id], bs) {
      forall q, r | Entry(toks[id], bs, q, r) ensures ReadsAt(kv', after[id], toks[id], bs, q, r) {
        assert ReadsAt(kv, before[id], toks[id], bs, q, r);
        var b := before[id][q];
        if HasUnfinished(group, id) {
          assert TableMoved(before[id], after[id], f);
          assert f[b] in f.Values && Source(f, f[b]) == b;
        } else {
          if b in f.Values {
            assert Refs(before)[f[Source(f, b)]] == 0;
            NotIn(before, id, b);
          }
        }
      }
    }
  }

  /** Two positions of moved tables share a block after the move exactly if they did before. */
  lemma SwapKeepsSharing(before: Tables, after: Tables, group: Group, f: map<Block, Block>, dev: Device, id: int,
                         q: nat, id': int, q': nat)
    requires Moved(before, after, group, f) && Renaming(before, f, dev)
    requires id in before && HasUnfinished(group, id) && q < |before[id]|
    requires id' in before && HasUnfinished(group, id') && q' < |before[id']|
    ensures |after[id]| == |before[id]| && |after[id']| == |before[id']|
    ensures after[id][q] == after[id'][q'] <==> before[id][q] == before[id'][q']
  {
    assert TableMoved(before[id], after[id], f) && TableMoved(before[id'], after[id'], f);
  }
}
