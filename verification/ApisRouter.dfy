/**
 Adapter-to-shard assignment: rate-sorted round-robin over the shards, late comers in the next turn.
 */
module ApisRouter {
  import opened Arithmetic
  import opened Common

  /** Rates never grow along the list. */
  ghost predicate Descending(x: seq<real>) { forall i, j :: 0 <= i <= j < |x| ==> x[i] >= x[j] }

  /** Load of shard j once the first m adapters are dealt out round-robin. */
  ghost function Load(x: seq<real>, n: nat, j: nat, m: nat): real
    requires n > 0 && m <= |x|
  {
    if m == 0 then 0.0 else Load(x, n, j, m - 1) + (if (m - 1) % n == j then x[m - 1] else 0.0)
  }

  /**
   Between two shards i < j: while i is one adapter ahead, the difference lies between the last rate dealt and
   the first; when they are level, it has come down by at least the last rate dealt.
   */
  lemma {:induction false} DealtDifference(x: seq<real>, n: nat, i: nat, j: nat, m: nat)
    requires i < j < n && 0 < m <= |x| && Descending(x) && forall k :: 0 <= k < |x| ==> x[k] >= 0.0
    ensures var d := Load(x, n, i, m) - Load(x, n, j, m);
      if i < m % n <= j then x[m - 1] <= d <= x[0] else 0.0 <= d <= x[0] - x[m - 1]
  {
    NextTurn(m - 1, n);
    if m > 1 {
      DealtDifference(x, n, i, j, m - 1);
      assert x[m - 2] >= x[m - 1] && x[0] >= x[m - 1];
    } else {
      assert Load(x, n, i, 0) == Load(x, n, j, 0) == 0.0 && 0 % n == 0;
    }
  }

  /** Lower shards never carry less, and never more than the largest single rate above a higher one. */
  lemma LoadsBalanced(x: seq<real>, n: nat, i: nat, j: nat)
    requires i < j < n && x != [] && Descending(x) && forall k :: 0 <= k < |x| ==> x[k] >= 0.0
    ensures 0.0 <= Load(x, n, i, |x|) - Load(x, n, j, |x|) <= x[0]
  {
    DealtDifference(x, n, i, j, |x|);
  }

  /** Adapters dealt to shard j among the first m. */
  ghost function Dealt(m: nat, n: nat, j: nat): nat
    requires n > 0
  {
    if m == 0 then 0 else Dealt(m - 1, n, j) + (if (m - 1) % n == j then 1 else 0)
  }

  lemma {:induction false} DealtIs(m: nat, n: nat, j: nat)
    requires j < n
    ensures Dealt(m, n, j) == m / n + (if j < m % n then 1 else 0)
  {
    if m > 0 {
      DealtIs(m - 1, n, j);
      NextTurn(m - 1, n);
    } else {
      DivMod(0, 0, 0, n);
    }
  }

  /** The dictionary that deals the listed adapters out in turn. */
  ghost predicate Deals(assignment: map<int, int>, order: seq<int>, n: nat)
    requires n > 0
  {
    && NoDuplicates(order) && (forall a :: a in assignment <==> a in order)
    && forall i :: 0 <= i < |order| ==> order[i] in assignment && assignment[order[i]] == i % n
  }

  function OnShard(assignment: map<int, int>, j: int): set<int> { set a | a in assignment && assignment[a] == j }

  /** Shard j holds the adapters of its turns. */
  lemma {:induction false} CountOnShard(assignment: map<int, int>, order: seq<int>, n: nat, j: nat)
    requires j < n && Deals(assignment, order, n)
    ensures |OnShard(assignment, j)| == Dealt(|order|, n, j) && |assignment| == |order|
  {
    if order == [] {
      assert forall a :: a !in assignment;
      assert OnShard(assignment, j) == {} && assignment == map[];
    } else {
      var m := |order| - 1;
      LastDealt(assignment, order, n, j);
      CountOnShard(assignment - {order[m]}, order[..m], n, j);
    }
  }

  lemma LastDealt(assignment: map<int, int>, order: seq<int>, n: nat, j: nat)
    requires j < n && Deals(assignment, order, n) && order != []
    ensures var m := |order| - 1; var rest := assignment - {order[m]};
      && Deals(rest, order[..m], n) && |assignment| == |rest| + 1
      && |OnShard(assignment, j)| == |OnShard(rest, j)| + (if m % n == j then 1 else 0)
  {
    var m := |order| - 1;
    FewerDealt(assignment, order, n);
    assert order[m] in assignment && assignment[order[m]] == m % n;
    hide Deals;
    WithoutOne(assignment, order[m], j);
  }

  lemma FewerDealt(assignment: map<int, int>, order: seq<int>, n: nat)
    requires n > 0 && Deals(assignment, order, n) && order != []
    ensures Deals(assignment - {order[|order| - 1]}, order[..|order| - 1], n)
  {
    var m := |order| - 1;
    assert order == order[..m] + [order[m]];
    assert order[m] !in order[..m];
  }

  lemma WithoutOne(assignment: map<int, int>, a: int, j: int)
    requires a in assignment
    ensures |assignment| == |assignment - {a}| + 1
    ensures |OnShard(assignment, j)| == |OnShard(assignment - {a}, j)| + (if assignment[a] == j then 1 else 0)
  {
    var rest := assignment - {a};
    assert rest.Keys == assignment.Keys - {a};
    assert |assignment.Keys| == |rest.Keys| + 1;
    var mine := OnShard(rest, j);
    assert a !in mine;
    assert OnShard(assignment, j) == mine + (if assignment[a] == j then {a} else {});
  }

  /** Shard sizes differ by at most one. */
  lemma CountsBalanced(assignment: map<int, int>, order: seq<int>, n: nat, i: nat, j: nat)
    requires i < n && j < n && Deals(assignment, order, n)
    ensures |OnShard(assignment, i)| <= |OnShard(assignment, j)| + 1
  {
    CountOnShard(assignment, order, n, i);
    CountOnShard(assignment, order, n, j);
    DealtIs(|order|, n, i);
    DealtIs(|order|, n, j);
  }

  // ---- the router ----------------------------------------------------------------------------------------------

  /** Decreasing rate, equal rates by name. */
  predicate Before(rates: map<int, real>, name: int -> int, a: int, b: int)
    requires a in rates && b in rates
  {
    rates[a] > rates[b] || (rates[a] == rates[b] && name(a) <= name(b))
  }

  ghost predicate Sorted(order: seq<int>, rates: map<int, real>, name: int -> int) {
    && (forall i :: 0 <= i < |order| ==> order[i] in rates)
    && forall i, j :: 0 <= i < j < |order| ==>
         || rates[order[i]] > rates[order[j]]
         || (rates[order[i]] == rates[order[j]] && name(order[i]) <= name(order[j]))
  }

  /** The adapters with an estimate, by rate. */
  method SortByRate(rates: map<int, real>, name: int -> int) returns (order: seq<int>)
    ensures NoDuplicates(order) && (forall a :: a in order <==> a in rates) && Sorted(order, rates, name)
  {
    order := [];
    var todo := rates.Keys;
    while exists a :: a in todo
      invariant todo <= rates.Keys && NoDuplicates(order) && Sorted(order, rates, name)
      invariant forall a :: a in order <==> a in rates && a !in todo
      decreases |todo|
    {
      var a :| a in todo;
      var k := |order|;
      while k > 0 && !Before(rates, name, order[k - 1], a)
        invariant 0 <= k <= |order| && forall i :: k <= i < |order| ==> !Before(rates, name, order[i], a)
      {
        k := k - 1;
      }
      Inserted(order, rates, name, a, k);
      order := order[..k] + [a] + order[k..];
      todo := todo - {a};
    }
  }

  lemma Inserted(order: seq<int>, rates: map<int, real>, name: int -> int, a: int, k: nat)
    requires Sorted(order, rates, name) && NoDuplicates(order) && a in rates && a !in order && k <= |order|
    requires k > 0 ==> Before(rates, name, order[k - 1], a)
    requires forall i :: k <= i < |order| ==> !Before(rates, name, order[i], a)
    ensures var r := order[..k] + [a] + order[k..];
      Sorted(r, rates, name) && NoDuplicates(r) && forall x :: x in r <==> x in order || x == a
  {
    InsertedDistinct(order, a, k);
    InsertedSorted(order, rates, name, a, k);
  }

  lemma InsertedDistinct(order: seq<int>, a: int, k: nat)
    requires NoDuplicates(order) && a !in order && k <= |order|
    ensures var r := order[..k] + [a] + order[k..]; NoDuplicates(r) && forall x :: x in r <==> x in order || x == a
  {
    var r := order[..k] + [a] + order[k..];
    assert order == order[..k] + order[k..];
    assert forall i :: 0 <= i < |r| ==> r[i] == if i < k then order[i] else if i == k then a else order[i - 1];
  }

  lemma InsertedSorted(order: seq<int>, rates: map<int, real>, name: int -> int, a: int, k: nat)
    requires Sorted(order, rates, name) && a in rates && k <= |order|
    requires k > 0 ==> Before(rates, name, order[k - 1], a)
    requires forall i :: k <= i < |order| ==> !Before(rates, name, order[i], a)
    ensures Sorted(order[..k] + [a] + order[k..], rates, name)
  {
    var r := order[..k] + [a] + order[k..];
    assert forall i :: 0 <= i < |r| ==> r[i] == if i < k then order[i] else if i == k then a else order[i - 1];
    forall i, j | 0 <= i < j < |r| ensures r[i] in rates && r[j] in rates && Before(rates, name, r[i], r[j]) {
      if i == k { NotBefore(rates, name, order[j - 1], a); }
      if i < k && j == k { BeforeAll(order, rates, name, a, k, i); }
    }
  }

  lemma NotBefore(rates: map<int, real>, name: int -> int, x: int, a: int)
    requires x in rates && a in rates && !Before(rates, name, x, a)
    ensures Before(rates, name, a, x)
  {
  }

  lemma BeforeAll(order: seq<int>, rates: map<int, real>, name: int -> int, a: int, k: nat, i: nat)
    requires Sorted(order, rates, name) && a in rates && i < k <= |order| && Before(rates, name, order[k - 1], a)
    ensures Before(rates, name, order[i], a)
  {
    assert i < k - 1 ==> Before(rates, name, order[i], order[k - 1]);
  }

  class APISRouter {
    const n: nat
    const rebalanceS: real
    const name: int -> int   // position of an adapter's name in string order
    var assignment: map<int, int>
    var lastRebalance: Option<real>
    var nRebalances: nat
    ghost var order: seq<int>   // the assignment's keys in the order they joined

    ghost predicate Valid()
      reads this
    {
      n > 0 && Deals(assignment, order, n)
    }

    constructor (n: nat, rebalanceS: real, name: int -> int, initialRates: map<int, real>)
      requires n > 0
      ensures Valid() && this.n == n && this.rebalanceS == rebalanceS && this.name == name && lastRebalance.None?
      ensures initialRates == map[] ==> assignment == map[] && nRebalances == 0
      ensures initialRates != map[] ==> DealtByRate(assignment, initialRates, n, name) && nRebalances == 1
    {
      this.n, this.rebalanceS, this.name := n, rebalanceS, name;
      assignment, lastRebalance, nRebalances, order := map[], None, 0, [];
      new;
      if initialRates != map[] { Rebalance(initialRates); }
    }

    /** Rate-sorted round-robin over the current estimates. */
    method Rebalance(rates: map<int, real>)
      requires n > 0
      modifies this`assignment, this`nRebalances, this`order
      ensures Valid() && nRebalances == old(nRebalances) + 1 && DealtByRate(assignment, rates, n, name)
    {
      var sorted := SortByRate(rates, name);
      order := sorted;
      assignment := map a | a in sorted :: IndexOf(sorted, a) % n;
      forall i | 0 <= i < |sorted| ensures assignment[sorted[i]] == i % n {
        assert sorted[IndexOf(sorted, sorted[i])] == sorted[i];
      }
      nRebalances := nRebalances + 1;
      assert assignment.Keys == rates.Keys by { assert forall a :: a in assignment.Keys <==> a in rates.Keys; }
      assert Deals(assignment, sorted, n) && Sorted(sorted, rates, name);
    }

    /** The shard for a request; rates are the estimates after this arrival. */
    method Route(adapter: int, now: real, rates: map<int, real>) returns (shard: int)
      requires Valid()
      modifies this
      ensures Valid() && adapter in assignment && shard == assignment[adapter] && 0 <= shard < n
      ensures nRebalances == old(nRebalances) + (if Due(old(lastRebalance), now) then 1 else 0)
      ensures lastRebalance ==
        (if Due(old(lastRebalance), now) || old(lastRebalance).None? then Some(now) else old(lastRebalance))
      ensures !Due(old(lastRebalance), now) ==> assignment == Joined(old(assignment), adapter)
      ensures Due(old(lastRebalance), now) ==>
        exists dealt :: DealtByRate(dealt, rates, n, name) && assignment == Joined(dealt, adapter)
    {
      if lastRebalance.None? {
        lastRebalance := Some(now);
      } else if now - lastRebalance.value >= rebalanceS {
        Rebalance(rates);
        lastRebalance := Some(now);
      }
      ghost var dealt := assignment;
      if adapter !in assignment { Join(adapter); }
      shard := assignment[adapter];
      TurnInRange(assignment, order, n, adapter);
    }

    predicate Due(last: Option<real>, now: real) { last.Some? && now - last.value >= rebalanceS }

    /** An adapter that holds a shard keeps it; a late comer takes the next turn. */
    function Joined(shards: map<int, int>, adapter: int): map<int, int>
      requires n > 0
    {
      if adapter in shards then shards else shards[adapter := |shards| % n]
    }

    method Join(adapter: int)
      requires Valid() && adapter !in assignment
      modifies this`assignment, this`order
      ensures Valid() && assignment == Joined(old(assignment), adapter)
    {
      CountOnShard(assignment, order, n, 0);
      assert adapter !in order;
      order := order + [adapter];
      assignment := assignment[adapter := |assignment| % n];
    }
  }

  function IndexOf(s: seq<int>, a: int): (i: nat)
    requires a in s
    ensures i < |s| && s[i] == a
  {
    if s[0] == a then 0 else 1 + IndexOf(s[1..], a)
  }

  lemma TurnInRange(assignment: map<int, int>, order: seq<int>, n: nat, a: int)
    requires n > 0 && Deals(assignment, order, n) && a in assignment
    ensures 0 <= assignment[a] < n
  {
    assert a in order;
    var i :| 0 <= i < |order| && order[i] == a;
  }

  /** The adapters with an estimate, dealt out by decreasing rate. */
  ghost predicate DealtByRate(assignment: map<int, int>, rates: map<int, real>, n: nat, name: int -> int) {
    n > 0 && exists order :: Deals(assignment, order, n) && Sorted(order, rates, name) && assignment.Keys == rates.Keys
  }

  ghost function RatesIn(order: seq<int>, rates: map<int, real>): (x: seq<real>)
    requires forall i :: 0 <= i < |order| ==> order[i] in rates
    ensures |x| == |order| && forall i :: 0 <= i < |x| ==> x[i] == rates[order[i]]
  {
    seq(|order|, i requires 0 <= i < |order| => rates[order[i]])
  }

  /** The load of shard j, adapters summed in the given order. */
  ghost function ShardLoad(order: seq<int>, assignment: map<int, int>, rates: map<int, real>, j: int): real
    requires forall i :: 0 <= i < |order| ==> order[i] in rates && order[i] in assignment
  {
    if order == [] then 0.0
    else
      var m := |order| - 1;
      ShardLoad(order[..m], assignment, rates, j) + (if assignment[order[m]] == j then rates[order[m]] else 0.0)
  }

  lemma {:induction false} ShardLoadIs(order: seq<int>, assignment: map<int, int>, rates: map<int, real>, n: nat,
                                       j: nat, x: seq<real>)
    requires n > 0 && |x| >= |order| && forall i :: 0 <= i < |order| ==> order[i] in rates && order[i] in assignment
    requires forall i :: 0 <= i < |order| ==> assignment[order[i]] == i % n && x[i] == rates[order[i]]
    ensures ShardLoad(order, assignment, rates, j) == Load(x, n, j, |order|)
  {
    if order != [] { ShardLoadIs(order[..|order| - 1], assignment, rates, n, j, x); }
  }

  /** After a rebalance, with non-negative rates, two shards differ by no more than the largest single rate. */
  lemma RebalancedLoads(assignment: map<int, int>, rates: map<int, real>, n: nat, name: int -> int, i: nat, j: nat)
    returns (order: seq<int>, top: int)
    requires DealtByRate(assignment, rates, n, name) && i < j < n && rates != map[]
    requires forall a :: a in rates ==> rates[a] >= 0.0
    ensures NoDuplicates(order) && (forall a :: a in order ==> a in rates && a in assignment)
    ensures forall a :: a in rates ==> a in order
    ensures top in rates && (forall a :: a in rates ==> rates[a] <= rates[top])
    ensures forall k :: 0 <= k < |order| ==> order[k] in rates && order[k] in assignment
    ensures 0.0 <= ShardLoad(order, assignment, rates, i) - ShardLoad(order, assignment, rates, j) <= rates[top]
  {
    order :| Deals(assignment, order, n) && Sorted(order, rates, name) && assignment.Keys == rates.Keys;
    forall a ensures a in order <==> a in rates { assert a in assignment.Keys <==> a in rates.Keys; }
    NotEmpty(order, rates);
    top := order[0];
    HighestFirst(order, rates, name);
    DealtLoads(assignment, order, rates, n, name, i, j);
  }

  lemma HighestFirst(order: seq<int>, rates: map<int, real>, name: int -> int)
    requires order != [] && Sorted(order, rates, name) && forall a :: a in order <==> a in rates
    ensures forall a :: a in rates ==> rates[a] <= rates[order[0]]
  {
    forall a | a in rates ensures rates[a] <= rates[order[0]] {
      var k :| 0 <= k < |order| && order[k] == a;
      assert k > 0 ==> Before(rates, name, order[0], order[k]);
    }
  }

  lemma DealtLoads(assignment: map<int, int>, order: seq<int>, rates: map<int, real>, n: nat, name: int -> int, i: nat,
                   j: nat)
    requires i < j < n && Deals(assignment, order, n) && Sorted(order, rates, name) && order != []
    requires forall a :: a in rates ==> rates[a] >= 0.0
    ensures 0.0 <= ShardLoad(order, assignment, rates, i) - ShardLoad(order, assignment, rates, j) <= rates[order[0]]
  {
    var x := RatesIn(order, rates);
    forall p, q | 0 <= p <= q < |x| ensures x[p] >= x[q] { assert p < q ==> order[p] in rates; }
    forall k | 0 <= k < |x| ensures x[k] >= 0.0 { Estimated(rates, order[k]); }
    LoadsBalanced(x, n, i, j);
    ShardLoadIs(order, assignment, rates, n, i, x);
    ShardLoadIs(order, assignment, rates, n, j, x);
  }

  lemma Estimated(rates: map<int, real>, a: int)
    requires a in rates && forall b :: b in rates ==> rates[b] >= 0.0
    ensures rates[a] >= 0.0
  {
  }

  lemma NotEmpty(order: seq<int>, rates: map<int, real>)
    requires forall a :: a in order <==> a in rates
    ensures order == [] ==> rates == map[]
  {
    if order == [] {
      assert forall a :: a in order ==> a in rates;
      forall a ensures a !in rates { assert a !in order; }
    }
  }
}
