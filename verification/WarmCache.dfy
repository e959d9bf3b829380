/**
 The warm set of adapters: an access-ordered dictionary of bounded size.  Under LRU it holds exactly the last
 k distinct adapters accessed.
 */
module WarmCache {
  import opened AccessOrder
  import opened Common
  import DispatchPlan

  type Adapter = DispatchPlan.Adapter

  /** The distinct adapters of a trace, the most recently accessed last. */
  function Recency(trace: seq<Adapter>): seq<Adapter> {
    if trace == [] then [] else Drop(Recency(trace[..|trace| - 1]), trace[|trace| - 1]) + [trace[|trace| - 1]]
  }

  lemma {:induction false} RecencyIn(trace: seq<Adapter>)
    ensures forall x :: x in Recency(trace) <==> x in trace
  {
    if trace != [] {
      var n := |trace| - 1;
      var r := Recency(trace[..n]);
      RecencyIn(trace[..n]);
      DropIn(r, trace[n]);
      var d := Drop(r, trace[n]);
      hide Drop, Recency;
      forall x ensures x in d + [trace[n]] <==> x in trace { InSnoc(trace, x); }
    }
  }

  lemma InSnoc(s: seq<Adapter>, x: Adapter)
    requires s != []
    ensures x in s <==> x in s[..|s| - 1] || x == s[|s| - 1]
  {
    assert s == s[..|s| - 1] + [s[|s| - 1]];
  }

  /** Where an adapter was last accessed; -1 if it never was. */
  ghost function LastAccess(trace: seq<Adapter>, x: Adapter): (i: int)
    ensures -1 <= i < |trace| && (i >= 0 ==> trace[i] == x)
    ensures forall j :: i < j < |trace| ==> trace[j] != x
  {
    if trace == [] then -1
    else if trace[|trace| - 1] == x then |trace| - 1
    else LastAccess(trace[..|trace| - 1], x)
  }

  ghost function LastAccesses(trace: seq<Adapter>): Adapter -> int { x => LastAccess(trace, x) }

  /** Recency lists exactly the adapters of the trace, each once, ordered by its last access. */
  lemma {:induction false} RecencyOrdered(trace: seq<Adapter>)
    ensures NoDuplicates(Recency(trace)) && Ascending(Recency(trace), LastAccesses(trace))
    ensures forall x :: x in Recency(trace) <==> x in trace
  {
    RecencyIn(trace);
    if trace != [] {
      var n := |trace| - 1;
      var r0 := Recency(trace[..n]);
      RecencyOrdered(trace[..n]);
      DropDistinct(r0, trace[n]);
      DropIn(r0, trace[n]);
      DropAscending(r0, trace[n], LastAccesses(trace[..n]));
      AppendAscends(Drop(r0, trace[n]), trace, trace[n]);
    }
  }

  lemma AppendAscends(d: seq<Adapter>, trace: seq<Adapter>, x: Adapter)
    requires trace != [] && x == trace[|trace| - 1] && x !in d
    requires Ascending(d, LastAccesses(trace[..|trace| - 1]))
    ensures Ascending(d + [x], LastAccesses(trace))
  {
    forall i, j | 0 <= i < j < |d| ensures LastAccess(trace, d[i]) < LastAccess(trace, d[j]) {
      assert LastAccesses(trace[..|trace| - 1])(d[i]) < LastAccesses(trace[..|trace| - 1])(d[j]);
      assert d[i] != x && d[j] != x;
    }
    forall i | 0 <= i < |d| ensures LastAccess(trace, d[i]) < LastAccess(trace, x) { assert d[i] != x; }
  }

  // ---- the LRU warm set ---------------------------------------------------------------------------------------

  /** The last n elements. */
  function Last(s: seq<Adapter>, n: nat): seq<Adapter> { if |s| <= n then s else s[|s| - n..] }

  /** One LRU access with capacity k. */
  function Access(warm: seq<Adapter>, x: Adapter, k: nat): seq<Adapter>
    requires k > 0
  {
    if x in warm then Drop(warm, x) + [x]
    else if |warm| >= k then warm[1..] + [x]
    else warm + [x]
  }

  lemma LastOfJoin(a: seq<Adapter>, b: seq<Adapter>, k: nat)
    requires |b| >= k
    ensures Last(a + b, k) == Last(b, k)
  {
  }

  lemma LongerThan(r: seq<Adapter>, x: Adapter, k: nat)
    requires 0 < k < |r| && NoDuplicates(r)
    ensures Access(Last(r, k), x, k) == Last(Drop(r, x) + [x], k)
  {
    var n := |r| - k;
    var front, tail := r[..n], r[n..];
    assert r == front + tail;
    assert x in tail ==> x !in front;
    DropJoin(front, tail, x);
    DropDistinct(tail, x);
    DropIn(tail, x);
    hide NoDuplicates;
    if x in tail {
      InTail(front, tail, x, k);
    } else {
      NotInTail(Drop(front, x), tail, x, k);
      assert Drop(front, x) + tail == Drop(r, x);
    }
  }

  lemma InTail(front: seq<Adapter>, tail: seq<Adapter>, x: Adapter, k: nat)
    requires |tail| == k > 0 && x !in front && |Drop(tail, x)| == k - 1
    ensures Drop(tail, x) + [x] == Last(Drop(front, x) + Drop(tail, x) + [x], k)
  {
    DropIn(front, x);
    hide Drop;
    assert front + Drop(tail, x) + [x] == front + (Drop(tail, x) + [x]);
    LastOfJoin(front, Drop(tail, x) + [x], k);
  }

  lemma NotInTail(front: seq<Adapter>, tail: seq<Adapter>, x: Adapter, k: nat)
    requires |tail| == k > 0
    ensures tail[1..] + [x] == Last(front + tail + [x], k)
  {
    assert front + tail + [x] == front + (tail + [x]);
    LastOfJoin(front, tail + [x], k);
  }

  /** Under LRU one more access keeps the last k distinct adapters, in access order. */
  lemma AccessIsLast(trace: seq<Adapter>, x: Adapter, k: nat)
    requires k > 0
    ensures Access(Last(Recency(trace), k), x, k) == Last(Recency(trace + [x]), k)
  {
    var r := Recency(trace);
    RecencyOrdered(trace);
    assert Recency(trace + [x]) == Drop(r, x) + [x] by { assert (trace + [x])[..|trace|] == trace; }
    hide Recency, Ascending;
    if |r| > k { LongerThan(r, x, k); } else { FitsAll(r, x, k); }
  }

  lemma FitsAll(r: seq<Adapter>, x: Adapter, k: nat)
    requires 0 < k && |r| <= k && NoDuplicates(r)
    ensures Access(r, x, k) == Last(Drop(r, x) + [x], k)
  {
    hide Drop, NoDuplicates;
    DropDistinct(r, x);
    DropIn(r, x);
    if x !in r && |r| == k { OldestGoes(r, x); }
  }

  lemma OldestGoes(r: seq<Adapter>, x: Adapter)
    requires r != []
    ensures Last(r + [x], |r|) == r[1..] + [x]
  {
  }

  /** A larger cache always contains a smaller one on the same trace. */
  lemma LargerContains(trace: seq<Adapter>, small: nat, large: nat)
    requires small <= large
    ensures forall x :: x in Last(Recency(trace), small) ==> x in Last(Recency(trace), large)
  {
    var r := Recency(trace);
    if |r| > large { assert Last(r, small) == Last(r, large)[large - small..]; }
  }

  /** Requests of the trace that find their adapter warm. */
  ghost function Hits(trace: seq<Adapter>, k: nat): nat {
    if trace == [] then 0
    else
      var n := |trace| - 1;
      Hits(trace[..n], k) + (if trace[n] in Last(Recency(trace[..n]), k) then 1 else 0)
  }

  /** More capacity never costs hits. */
  lemma {:induction false} LargerHitsMore(trace: seq<Adapter>, small: nat, large: nat)
    requires small <= large
    ensures Hits(trace, small) <= Hits(trace, large)
  {
    if trace != [] {
      var n := |trace| - 1;
      LargerHitsMore(trace[..n], small, large);
      LargerContains(trace[..n], small, large);
    }
  }

  // ---- the manager -----------------------------------------------------------------------------------------------

  /** Predictive evicts by the chance of a request soon, a function of the rate, and by the order of names. */
  datatype Policy = Lru | TopK | Predictive(score: real -> real, nameRank: Adapter -> int)

  class WarmCacheManager {
    const kWarmMax: nat
    const policy: Policy
    const tauLoadMs: real
    var warm: seq<Adapter>   // least recently used first
    var hits: map<Adapter, nat>
    var misses: map<Adapter, nat>
    var totalRequests: nat
    var totalHits: nat
    var totalMisses: nat
    var totalEvictions: nat
    ghost var accesses: seq<Adapter>   // requests, and prefetches that loaded
    ghost var loads: nat

    ghost predicate Valid()
      reads this
    {
      && kWarmMax > 0 && |warm| <= kWarmMax && NoDuplicates(warm)
      && totalRequests == totalHits + totalMisses && loads == |warm| + totalEvictions
      && (policy.Lru? ==> warm == Last(Recency(accesses), kWarmMax))
    }

    constructor (k: nat, tau: real, policy: Policy)
      requires k > 0
      ensures Valid() && kWarmMax == k && this.policy == policy && tauLoadMs == tau && warm == [] && accesses == []
      ensures hits == misses == map[] && totalRequests == totalEvictions == loads == 0
    {
      kWarmMax, tauLoadMs, this.policy := k, tau, policy;
      warm, hits, misses, accesses := [], map[], map[], [];
      totalRequests, totalHits, totalMisses, totalEvictions, loads := 0, 0, 0, 0, 0;
    }

    lemma WarmIsLast()
      requires Valid() && policy.Lru?
      ensures warm == Last(Recency(accesses), kWarmMax)
    {
    }

    /**
     The oldest adapter; with known rates, under TopK the first of lowest rate, under Predictive that of lowest
     score.
     */
    method ChooseEviction(rates: map<Adapter, real>) returns (v: nat)
      requires warm != []
      ensures v < |warm| && Victim(policy, rates, warm, v)
    {
      if policy.Lru? || rates == map[] { v := 0; }
      else if policy.TopK? { v := LowestRate(rates); }
      else { v := LowestScore(rates); }
    }

    method LowestScore(rates: map<Adapter, real>) returns (v: nat)
      requires warm != [] && policy.Predictive?
      ensures v < |warm| && forall i :: 0 <= i < |warm| ==>
        var s, t := policy.score(RateOf(rates, warm[v])), policy.score(RateOf(rates, warm[i]));
        s < t || (s == t && policy.nameRank(warm[v]) <= policy.nameRank(warm[i]))
    {
      v := 0;
      for i := 1 to |warm|
        invariant v < i <= |warm| && forall j :: 0 <= j < i ==> Sooner(policy, rates, warm[v], warm[j])
      {
        if !Sooner(policy, rates, warm[v], warm[i]) { v := i; }
      }
    }

    method LowestRate(rates: map<Adapter, real>) returns (v: nat)
      requires warm != []
      ensures v < |warm| && forall i :: 0 <= i < |warm| ==> RateOf(rates, warm[v]) <= RateOf(rates, warm[i])
      ensures forall i :: 0 <= i < v ==> RateOf(rates, warm[v]) < RateOf(rates, warm[i])
    {
      v := 0;
      var i := 1;
      while i < |warm|
        invariant v < i <= |warm|
        invariant forall j :: 0 <= j < i ==> RateOf(rates, warm[v]) <= RateOf(rates, warm[j])
        invariant forall j :: 0 <= j < v ==> RateOf(rates, warm[v]) < RateOf(rates, warm[j])
      {
        if RateOf(rates, warm[i]) < RateOf(rates, warm[v]) { v := i; }
        i := i + 1;
      }
    }

    /** Bring a cold adapter in, evicting one when the set is full. */
    method Load(x: Adapter, rates: map<Adapter, real>)
      requires Valid() && x !in warm
      modifies this`warm, this`totalEvictions, this`loads, this`accesses
      ensures Valid() && accesses == old(accesses) + [x] && LoadedInto(policy, rates, kWarmMax, old(warm), x, warm)
      ensures totalEvictions == old(totalEvictions) + (if |old(warm)| < kWarmMax then 0 else 1)
    {
      hide Recency, Last, Victim, LoadedInto, NoDuplicates;
      var next := warm + [x];
      if |warm| < kWarmMax {
        JoinKeeps(policy, rates, kWarmMax, accesses, warm, x);
      } else {
        var v := ChooseEviction(rates);
        ReplaceKeeps(policy, rates, kWarmMax, accesses, warm, x, v);
        next := warm[..v] + warm[v + 1..] + [x];
        totalEvictions := totalEvictions + 1;
      }
      warm := next;
      loads := loads + 1;
      accesses := accesses + [x];
    }

    /** Warm or cold, and what the request costs. */
    method Request(x: Adapter, rates: map<Adapter, real>) returns (wasWarm: bool, coldMs: real)
      requires Valid()
      modifies this
      ensures Valid() && accesses == old(accesses) + [x] && x in warm
      ensures wasWarm == (x in old(warm)) && coldMs == (if wasWarm then 0.0 else tauLoadMs)
      ensures totalHits == old(totalHits) + (if wasWarm then 1 else 0) && totalRequests == old(totalRequests) + 1
      ensures wasWarm ==> warm == Drop(old(warm), x) + [x] && totalEvictions == old(totalEvictions)
      ensures !wasWarm ==> LoadedInto(policy, rates, kWarmMax, old(warm), x, warm)
      ensures if wasWarm then CountedOnce(old(hits), x, hits) && misses == old(misses)
              else CountedOnce(old(misses), x, misses) && hits == old(hits)
    {
      hide Drop, Recency, Last;
      if x in warm {
        Touch(x);
        hits, totalHits, totalRequests := Bump(hits, x), totalHits + 1, totalRequests + 1;
        return true, 0.0;
      }
      Load(x, rates);
      misses, totalMisses, totalRequests := Bump(misses, x), totalMisses + 1, totalRequests + 1;
      return false, tauLoadMs;
    }

    /** A hit moves its adapter to the most recently used end. */
    method Touch(x: Adapter)
      requires Valid() && x in warm
      modifies this`warm, this`accesses
      ensures Valid() && warm == Drop(old(warm), x) + [x] && accesses == old(accesses) + [x]
    {
      if policy.Lru? { AccessIsLast(accesses, x, kWarmMax); }
      DropDistinct(warm, x);
      DropIn(warm, x);
      hide Drop, Recency, Last;
      warm := Drop(warm, x) + [x];
      accesses := accesses + [x];
    }

    /** Pre-warm an adapter; a warm one keeps its place. */
    method Prefetch(x: Adapter, rates: map<Adapter, real>) returns (loaded: bool)
      requires Valid()
      modifies this`warm, this`totalEvictions, this`loads, this`accesses
      ensures Valid() && loaded == (x !in old(warm)) && x in warm
      ensures if loaded then LoadedInto(policy, rates, kWarmMax, old(warm), x, warm) else warm == old(warm)
    {
      if x in warm { return false; }
      Load(x, rates);
      return true;
    }
  }

  /** a goes before b: its score is lower, or equal and its name is not greater. */
  predicate Sooner(policy: Policy, rates: map<Adapter, real>, a: Adapter, b: Adapter)
    requires policy.Predictive?
  {
    var s, t := policy.score(RateOf(rates, a)), policy.score(RateOf(rates, b));
    s < t || (s == t && policy.nameRank(a) <= policy.nameRank(b))
  }

  /** The adapter that makes room: the oldest; with known rates the first of lowest rate, or that of lowest score. */
  ghost predicate Victim(policy: Policy, rates: map<Adapter, real>, warm: seq<Adapter>, v: nat) {
    && v < |warm|
    && if policy.Lru? || rates == map[] then v == 0
       else if policy.TopK? then
         && (forall i :: 0 <= i < |warm| ==> RateOf(rates, warm[v]) <= RateOf(rates, warm[i]))
         && forall i :: 0 <= i < v ==> RateOf(rates, warm[v]) < RateOf(rates, warm[i])
       else forall i :: 0 <= i < |warm| ==>
         var s, t := policy.score(RateOf(rates, warm[v])), policy.score(RateOf(rates, warm[i]));
         s < t || (s == t && policy.nameRank(warm[v]) <= policy.nameRank(warm[i]))
  }

  /** x joins as the most recent; a full set loses its victim. */
  ghost predicate LoadedInto(policy: Policy, rates: map<Adapter, real>, k: nat, before: seq<Adapter>, x: Adapter,
                             now: seq<Adapter>) {
    if |before| < k then now == before + [x]
    else exists v: nat :: Victim(policy, rates, before, v) && now == before[..v] + before[v + 1..] + [x]
  }

  /** The set stays distinct and within capacity, and under LRU the last k adapters accessed. */
  ghost predicate Keeps(policy: Policy, k: nat, accesses: seq<Adapter>, x: Adapter, next: seq<Adapter>) {
    NoDuplicates(next) && |next| <= k && (policy.Lru? ==> next == Last(Recency(accesses + [x]), k))
  }

  /** A set with room takes the adapter in. */
  lemma JoinKeeps(policy: Policy, rates: map<Adapter, real>, k: nat, accesses: seq<Adapter>, warm: seq<Adapter>,
                  x: Adapter)
    requires |warm| < k && x !in warm && NoDuplicates(warm) && (policy.Lru? ==> warm == Last(Recency(accesses), k))
    ensures Keeps(policy, k, accesses, x, warm + [x]) && LoadedInto(policy, rates, k, warm, x, warm + [x])
  {
    hide Recency, Last;
    if policy.Lru? { AccessIsLast(accesses, x, k); }
  }

  /** A full set takes the adapter in, in place of its victim. */
  lemma ReplaceKeeps(policy: Policy, rates: map<Adapter, real>, k: nat, accesses: seq<Adapter>, warm: seq<Adapter>,
                     x: Adapter, v: nat)
    requires 0 < k == |warm| && v < |warm| && x !in warm && NoDuplicates(warm) && Victim(policy, rates, warm, v)
    requires policy.Lru? ==> warm == Last(Recency(accesses), k)
    ensures var next := warm[..v] + warm[v + 1..] + [x];
      |next| == |warm| && Keeps(policy, k, accesses, x, next) && LoadedInto(policy, rates, k, warm, x, next)
  {
    hide Recency, Last;
    DistinctLess(warm, x, v);
    if policy.Lru? {
      AccessIsLast(accesses, x, k);
      assert v == 0 && warm[..0] + warm[1..] == warm[1..];
    }
  }

  lemma DistinctLess(warm: seq<Adapter>, x: Adapter, v: nat)
    requires v < |warm| && x !in warm && NoDuplicates(warm)
    ensures NoDuplicates(warm[..v] + warm[v + 1..] + [x])
  {
  }

  /** The estimate, 0 for an adapter without one. */
  function RateOf(rates: map<Adapter, real>, x: Adapter): (r: real)
    ensures (x in rates ==> r == rates[x]) && (x !in rates ==> r == 0.0)
  {
    if x in rates then rates[x] else 0.0
  }

  /** One more for x, an adapter not counted so far included, and the same for all others. */
  ghost predicate CountedOnce(before: map<Adapter, nat>, x: Adapter, now: map<Adapter, nat>) {
    && now.Keys == before.Keys + {x} && (forall y :: y in before && y != x ==> now[y] == before[y])
    && now[x] == if x in before then before[x] + 1 else 1
  }

  function Bump(m: map<Adapter, nat>, x: Adapter): map<Adapter, nat> { m[x := (if x in m then m[x] else 0) + 1] }

  /** A request-only trace against a fresh LRU cache: its hits, and the warm set it ends with. */
  method Replay(trace: seq<Adapter>, k: nat) returns (hits: nat, warm: seq<Adapter>)
    requires k > 0
    ensures hits == Hits(trace, k) && warm == Last(Recency(trace), k)
  {
    var m := new WarmCacheManager(k, 200.0, Lru);
    var i := 0;
    assert trace[..0] == [];
    while i < |trace|
      invariant 0 <= i <= |trace| && m.Valid() && m.policy.Lru? && m.kWarmMax == k
      invariant m.accesses == trace[..i] && m.totalHits == Hits(trace[..i], k)
    {
      m.WarmIsLast();
      HitsStep(trace, i, k);
      hide WarmCacheManager.Valid, Recency, Drop, Last, Hits, Bump, LoadedInto;
      var _, _ := m.Request(trace[i], map[]);
      i := i + 1;
    }
    assert trace[..|trace|] == trace;
    m.WarmIsLast();
    return m.totalHits, m.warm;
  }

  lemma HitsStep(trace: seq<Adapter>, i: nat, k: nat)
    requires i < |trace|
    ensures trace[..i + 1] == trace[..i] + [trace[i]]
    ensures Hits(trace[..i + 1], k) == Hits(trace[..i], k) + (if trace[i] in Last(Recency(trace[..i]), k) then 1 else 0)
  {
    assert trace[..i + 1][..i] == trace[..i];
  }
}
