/**
 The merged-weight cache, shared by the scheduler (request), loader threads (LoadDone) and the model runner
 (process, get).  Every method is one critical section; the sections of all threads interleave arbitrarily.
 */
module MergedWeights {
  import opened AccessOrder
  import opened Common

  /** Adapters in the order they were last inserted or fetched. */
  ghost predicate ByUse(order: seq<int>, used: map<int, int>, clock: int) {
    Ascending(order, UseTime(used)) && forall i :: 0 <= i < |order| ==>
      order[i] in used && UsedAt(used, order[i]) < clock
  }

  ghost function UsedAt(used: map<int, int>, x: int): int { if x in used then used[x] else -1 }

  ghost function UseTime(used: map<int, int>): int -> int { x => UsedAt(used, x) }

  class MergedWeightCache {
    const kHotMax: nat
    var kHot: Option<nat>        // unknown until the runner sizes the cache
    var weights: seq<int>        // resident adapters, least recently used first
    var loaded: seq<int>         // LoRA tensors read, in order of arrival
    var requested: set<int>
    var nMerges: nat
    ghost var inFlight: set<int>          // loader threads still reading
    ghost var merging: Option<int>        // popped by the runner, not yet inserted
    ghost var used: map<int, int>         // time of the last insertion or fetch
    ghost var clock: int

    ghost function InHand(): set<int>
      reads this
    {
      if merging.Some? then {merging.value} else {}
    }

    /** Every requested adapter is in exactly one place. */
    ghost predicate Partition()
      reads this
    {
      && requested == inFlight + SetOf(loaded) + InHand() + SetOf(weights)
      && inFlight !! SetOf(loaded) && (inFlight + SetOf(loaded)) !! InHand()
      && (inFlight + SetOf(loaded) + InHand()) !! SetOf(weights)
      && NoDuplicates(loaded) && NoDuplicates(weights)
    }

    /** A cache sized to nothing is switched off: nothing is ever resident. */
    ghost predicate Valid()
      reads this
    {
      && ByUse(weights, used, clock) && NoDuplicates(weights)
      && (if kHot == Some(0) then weights == [] else Partition())
      && (if kHot.Some? then |weights| <= kHot.value <= kHotMax else weights == [])
    }

    constructor (kHotMax: nat)
      ensures Valid() && this.kHotMax == kHotMax && kHot.None? && requested == {} && weights == []
      ensures nMerges == 0 && loaded == [] && inFlight == {} && merging.None?
    {
      this.kHotMax, kHot, weights, loaded, requested, nMerges := kHotMax, None, [], [], {}, 0;
      inFlight, merging, used, clock := {}, None, map[], 0;
    }

    /** Ask for an adapter; true if a loader thread starts. */
    method Request(id: int) returns (starts: bool)
      requires Valid()
      modifies this`requested, this`inFlight
      ensures Valid() && starts == (kHot != Some(0) && id !in old(requested) && id !in weights)
      ensures requested == (if starts then old(requested) + {id} else old(requested))
      ensures inFlight == (if starts then old(inFlight) + {id} else old(inFlight))
    {
      if kHot == Some(0) || id in weights || id in requested { return false; }
      requested := requested + {id};
      inFlight := inFlight + {id};
      return true;
    }

    /** A loader thread has read its tensors. */
    method LoadDone(id: int)
      requires Valid() && id in inFlight
      modifies this`loaded, this`inFlight
      ensures Valid() && loaded == old(loaded) + [id] && inFlight == old(inFlight) - {id}
    {
      assert kHot != Some(0) ==> id !in SetOf(loaded);
      assert SetOf(loaded + [id]) == SetOf(loaded) + {id};
      loaded := loaded + [id];
      inFlight := inFlight - {id};
    }

    /** The runner takes the adapter that was loaded last. */
    method TakeLoaded() returns (id: Option<int>)
      requires Valid() && merging.None?
      modifies this`loaded, this`merging
      ensures Valid() && merging == id && (id.Some? <==> old(loaded) != [])
      ensures id.Some? ==> old(loaded) == loaded + [id.value]
    {
      if |loaded| == 0 { return None; }
      var n := |loaded| - 1;
      assert SetOf(loaded) == SetOf(loaded[..n]) + {loaded[n]};
      assert kHot != Some(0) ==> loaded[n] !in SetOf(loaded[..n]);
      id := Some(loaded[n]);
      merging := id;
      loaded := loaded[..n];
    }

    /** First use: as many adapters as fit, at most kHotMax. */
    method Size(fit: nat)
      requires Valid() && kHot.None?
      modifies this`kHot
      ensures Valid() && kHot == Some(if kHotMax < fit then kHotMax else fit)
    {
      kHot := Some(if kHotMax < fit then kHotMax else fit);
    }

    /** No room for any adapter: forget everything. */
    method Disable()
      requires Valid() && kHot == Some(0)
      modifies this`requested, this`loaded, this`merging
      ensures Valid() && requested == {} && loaded == [] && merging.None?
    {
      requested, loaded, merging := {}, [], None;
    }

    /** Drop the least recently used adapter; it may be requested again. */
    method EvictFirst() returns (victim: int)
      requires Valid() && weights != []
      modifies this`weights, this`requested
      ensures Valid() && old(weights) == [victim] + weights && requested == old(requested) - {victim}
    {
      victim := weights[0];
      assert SetOf(weights) == SetOf(weights[1..]) + {victim};
      assert victim !in SetOf(weights[1..]);
      requested := requested - {victim};
      weights := weights[1..];
    }

    /** The merged adapter becomes resident; whoever makes room for it is the least recently used. */
    method Insert(id: int) returns (ghost evicted: seq<int>)
      requires Valid() && merging == Some(id) && kHot.Some? && kHot.value > 0
      modifies this`weights, this`requested, this`merging, this`nMerges, this`used, this`clock
      ensures Valid() && merging.None? && nMerges == old(nMerges) + 1 && id !in old(weights)
      ensures old(weights) + [id] == evicted + weights && requested == old(requested) - SetOf(evicted)
      ensures |evicted| == (if |old(weights)| == kHot.value then 1 else 0)
      ensures LeastRecent(evicted, old(weights)[|evicted|..], old(used))
    {
      assert id !in weights by { assert id !in SetOf(weights); }
      evicted := MakeRoom();
      Place(id);
    }

    /** The eviction loop; a full cache gives up one adapter. */
    method MakeRoom() returns (ghost evicted: seq<int>)
      requires Valid() && kHot.Some? && kHot.value > 0
      modifies this`weights, this`requested
      ensures Valid() && |weights| < kHot.value && old(weights) == evicted + weights
      ensures requested == old(requested) - SetOf(evicted)
      ensures |evicted| == (if |old(weights)| == kHot.value then 1 else 0)
      ensures LeastRecent(evicted, old(weights)[|evicted|..], used)
    {
      hide MergedWeightCache.Partition, ByUse, LeastRecent, SetOf;
      evicted := [];
      ghost var k, was, asked := kHot.value, weights, requested;
      FirstIsOldestIfAny(weights, used, clock);
      EvictedNone(was, asked, used);
      while |weights| >= kHot.value
        invariant Valid() && kHot == Some(k) && |weights| <= |was| <= k
        invariant Evicted(was, asked, evicted, weights, requested) && (evicted != [] ==> |was| == k)
        decreases |weights|
      {
        var victim := EvictFirst();
        evicted := [victim];
        SetOfOne(victim);
        assert was[..1] == [victim] && was[1..] == weights;
      }
      assert was[|evicted|..] == weights && (evicted != [] ==> was[..1] == evicted);
    }

    method Place(id: int)
      requires Valid() && merging == Some(id) && kHot.Some? && |weights| < kHot.value
      modifies this`weights, this`merging, this`nMerges, this`used, this`clock
      ensures Valid() && merging.None? && nMerges == old(nMerges) + 1 && weights == old(weights) + [id]
    {
      assert id !in weights by { assert id !in SetOf(weights); }
      assert SetOf(weights + [id]) == SetOf(weights) + {id};
      AppendLatest(weights, used, clock, id);
      hide ByUse;
      weights := weights + [id];
      nMerges, merging := nMerges + 1, None;
      used, clock := used[id := clock], clock + 1;
    }

    /** Merged weights for a step, if resident; a fetch makes the adapter the most recently used. */
    method Get(id: int) returns (found: bool)
      requires Valid()
      modifies this`weights, this`used, this`clock
      ensures Valid() && found == (id in old(weights)) && SetOf(weights) == SetOf(old(weights))
      ensures found ==> weights == Drop(old(weights), id) + [id]
      ensures !found ==> weights == old(weights)
    {
      found := id in weights;
      if found {
        DropByUse(weights, used, clock, id);
        hide Drop;
        weights := Drop(weights, id) + [id];
        used, clock := used[id := clock], clock + 1;
      }
    }
  }

  /** At most one resident has gone, the first, and with it its request. */
  ghost predicate Evicted(was: seq<int>, asked: set<int>, evicted: seq<int>, weights: seq<int>, requested: set<int>) {
    |evicted| <= 1 && was == evicted + weights && requested == asked - SetOf(evicted)
  }

  lemma EvictedNone(weights: seq<int>, requested: set<int>, used: map<int, int>)
    ensures Evicted(weights, requested, [], weights, requested) && LeastRecent([], weights, used)
  {
  }

  lemma SetOfOne(id: int)
    ensures SetOf([id]) == {id}
  {
  }

  /** Every victim was inserted or fetched before every adapter that stays. */
  ghost predicate LeastRecent(victims: seq<int>, rest: seq<int>, used: map<int, int>) {
    forall v, w :: v in victims && w in rest ==> UsedAt(used, v) < UsedAt(used, w)
  }

  /** A fetch moves an adapter behind all others. */
  lemma DropByUse(order: seq<int>, used: map<int, int>, clock: int, id: int)
    requires ByUse(order, used, clock) && NoDuplicates(order)
    ensures ByUse(Drop(order, id) + [id], used[id := clock], clock + 1) && NoDuplicates(Drop(order, id) + [id])
    ensures id in order ==> SetOf(Drop(order, id) + [id]) == SetOf(order) && |Drop(order, id)| == |order| - 1
  {
    DropDistinct(order, id);
    DropIn(order, id);
    DropAscending(order, id, UseTime(used));
    hide Drop;
    var r := Drop(order, id);
    forall i | 0 <= i < |r| ensures r[i] in used && UsedAt(used, r[i]) < clock {
      assert r[i] in r;
      var k :| 0 <= k < |order| && order[k] == r[i];
    }
    AppendLatest(Drop(order, id), used, clock, id);
  }

  lemma AppendLatest(r: seq<int>, used: map<int, int>, clock: int, id: int)
    requires ByUse(r, used, clock) && id !in r
    ensures ByUse(r + [id], used[id := clock], clock + 1)
  {
    var s, now := r + [id], used[id := clock];
    forall i | 0 <= i < |r| ensures UsedAt(now, r[i]) == UsedAt(used, r[i]) < clock { assert r[i] in r; }
    forall i, j | 0 <= i < j < |s| ensures UseTime(now)(s[i]) < UseTime(now)(s[j]) {
      if j < |r| { assert UseTime(used)(r[i]) < UseTime(used)(r[j]); }
    }
  }

  lemma FirstIsOldestIfAny(order: seq<int>, used: map<int, int>, clock: int)
    requires ByUse(order, used, clock)
    ensures order != [] ==> LeastRecent(order[..1], order[1..], used)
  {
    if order != [] { FirstIsOldest(order, used, clock); }
  }

  lemma FirstIsOldest(order: seq<int>, used: map<int, int>, clock: int)
    requires ByUse(order, used, clock) && order != []
    ensures LeastRecent([order[0]], order[1..], used)
  {
    forall w | w in order[1..] ensures UsedAt(used, order[0]) < UsedAt(used, w) {
      var k :| 0 <= k < |order| - 1 && order[1..][k] == w;
      assert order[k + 1] == w;
      assert UseTime(used)(order[0]) < UseTime(used)(order[k + 1]);
    }
  }
}
