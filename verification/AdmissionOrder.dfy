/**
 The waiting queue ordered adapter by adapter before a prefill pass, and why that fills a wave from the fewest adapters.
 */
module AdmissionOrder {
  import opened Common
  import opened StableSort

  /** A waiting sequence group; adapter 0 is the base model. */
  datatype Request = Request(id: int, lora: int, arrival: real)

  /** Requests of one adapter. */
  ghost function CountOf(s: seq<Request>, l: int): nat {
    if s == [] then 0 else CountOf(s[..|s| - 1], l) + (if s[|s| - 1].lora == l then 1 else 0)
  }

  function Tally(count: map<int, nat>, l: int): nat { if l in count then count[l] else 0 }

  /** count is the number of waiting requests by adapter. */
  ghost predicate Counts(count: map<int, nat>, s: seq<Request>) { forall l :: Tally(count, l) == CountOf(s, l) }

  function ByArrival(): (Request, Request) -> bool { (a: Request, b: Request) => a.arrival <= b.arrival }

  /** The waiting queue is kept in arrival order. */
  ghost predicate InArrivalOrder(queue: seq<Request>) { Ascending(queue, ByArrival()) }

  lemma {:induction false} ThoseAscending(s: seq<Request>, p: Request -> bool)
    requires InArrivalOrder(s)
    ensures InArrivalOrder(Those(s, p))
  {
    if s != [] {
      var n := |s| - 1;
      ThoseAscending(s[..n], p);
      forall x | x in s[..n] ensures x.arrival <= s[n].arrival {
        var i :| 0 <= i < n && s[..n][i] == x;
        assert ByArrival()(s[i], s[n]);
      }
    }
  }

  /** Waited so long that arrival order counts again. */
  predicate Aged(r: Request, now: real, maxWait: real) { now - r.arrival >= maxWait }

  /** The order of the sort key: (0, arrival) if aged, else (1, -count, adapter, arrival). */
  predicate Ahead(count: map<int, nat>, now: real, maxWait: real, a: Request, b: Request) {
    if Aged(a, now, maxWait) || Aged(b, now, maxWait) then
      Aged(a, now, maxWait) && (Aged(b, now, maxWait) ==> a.arrival <= b.arrival)
    else if Tally(count, a.lora) != Tally(count, b.lora) then Tally(count, a.lora) > Tally(count, b.lora)
    else if a.lora != b.lora then a.lora < b.lora
    else a.arrival <= b.arrival
  }

  function GroupOrder(count: map<int, nat>, now: real, maxWait: real): (Request, Request) -> bool {
    (a: Request, b: Request) => Ahead(count, now, maxWait, a, b)
  }

  lemma GroupOrderIsKeyOrder(count: map<int, nat>, now: real, maxWait: real)
    ensures KeyOrder(GroupOrder(count, now, maxWait)) && KeyOrder(ByArrival())
  {
  }

  /** The waiting queue by adapter. */
  method CountByAdapter(waiting: seq<Request>) returns (count: map<int, nat>)
    ensures Counts(count, waiting)
  {
    count := map[];
    var i := 0;
    assert waiting[..0] == [];
    while i < |waiting|
      invariant 0 <= i <= |waiting| && Counts(count, waiting[..i])
    {
      ghost var was := count;
      assert waiting[..i + 1] == waiting[..i] + [waiting[i]] && waiting[..i + 1][..i] == waiting[..i];
      var l := waiting[i].lora;
      count := count[l := Tally(count, l) + 1];
      assert forall k :: Tally(count, k) == Tally(was, k) + (if k == l then 1 else 0);
      i := i + 1;
    }
    assert waiting[..|waiting|] == waiting;
  }

  /** Aged requests first, in arrival order; then adapter by adapter, longest queue first. */
  ghost predicate Grouped(s: seq<Request>, r: seq<Request>, now: real, maxWait: real) {
    exists count :: Counts(count, s) && SortedBy(s, r, GroupOrder(count, now, maxWait))
  }

  /** group_waiting_by_adapter */
  method GroupByAdapter(waiting: seq<Request>, now: real, maxWait: real) returns (r: seq<Request>)
    ensures Grouped(waiting, r, now, maxWait)
  {
    var count := CountByAdapter(waiting);
    GroupOrderIsKeyOrder(count, now, maxWait);
    r := Sort(waiting, GroupOrder(count, now, maxWait));
  }

  /** Of two adapters the one with more requests comes first, of equal ones the lower. */
  ghost predicate LongerFirst(mine: nat, other: nat, l: int, k: int) { mine > other || (mine == other && l <= k) }

  /** What the order means, without the sort key. */
  ghost predicate AdapterByAdapter(s: seq<Request>, r: seq<Request>, now: real, maxWait: real) {
    && multiset(r) == multiset(s)
    && (forall i, j :: 0 <= i < j < |r| && now - r[j].arrival >= maxWait ==>
         now - r[i].arrival >= maxWait && r[i].arrival <= r[j].arrival)
    && (forall i, j, k :: 0 <= i <= j <= k < |r| && now - r[i].arrival < maxWait && r[i].lora == r[k].lora ==>
         r[j].lora == r[i].lora)
    && (forall i, j :: 0 <= i < j < |r| && now - r[i].arrival < maxWait && r[i].lora == r[j].lora ==>
         r[i].arrival <= r[j].arrival)
    && forall i, j :: 0 <= i < j < |r| && now - r[i].arrival < maxWait ==>
         LongerFirst(CountOf(s, r[i].lora), CountOf(s, r[j].lora), r[i].lora, r[j].lora)
  }

  lemma GroupedMeans(s: seq<Request>, r: seq<Request>, now: real, maxWait: real)
    requires Grouped(s, r, now, maxWait)
    ensures AdapterByAdapter(s, r, now, maxWait)
  {
    var count :| Counts(count, s) && SortedBy(s, r, GroupOrder(count, now, maxWait));
    var le := GroupOrder(count, now, maxWait);
    forall i, j | 0 <= i < j < |r| ensures Ahead(count, now, maxWait, r[i], r[j]) { assert le(r[i], r[j]); }
    hide SortedBy, CountOf, Ahead;
    forall i, j | 0 <= i < j < |r| {
      AheadMeans(s, count, now, maxWait, r[i], r[j]);
    }
    forall i, j, k | 0 <= i <= j <= k < |r| && now - r[i].arrival < maxWait && r[i].lora == r[k].lora
      ensures r[j].lora == r[i].lora
    {
      if i < j < k { Between(count, now, maxWait, r[i], r[j], r[k]); }
    }
  }

  lemma AheadMeans(s: seq<Request>, count: map<int, nat>, now: real, maxWait: real, a: Request, b: Request)
    requires Counts(count, s) && Ahead(count, now, maxWait, a, b)
    ensures now - b.arrival >= maxWait ==> now - a.arrival >= maxWait && a.arrival <= b.arrival
    ensures now - a.arrival < maxWait ==> LongerFirst(CountOf(s, a.lora), CountOf(s, b.lora), a.lora, b.lora)
    ensures now - a.arrival < maxWait && a.lora == b.lora ==> a.arrival <= b.arrival
  {
    hide CountOf;
  }

  lemma Between(count: map<int, nat>, now: real, maxWait: real, a: Request, b: Request, c: Request)
    requires Ahead(count, now, maxWait, a, b) && Ahead(count, now, maxWait, b, c)
    requires now - a.arrival < maxWait && a.lora == c.lora
    ensures b.lora == a.lora
  {
  }

  ghost function Adapters(s: seq<Request>): set<int> { set r | r in s :: r.lora }

  /** Requests of several adapters. */
  ghost function CountIn(s: seq<Request>, ls: set<int>): nat {
    if s == [] then 0 else CountIn(s[..|s| - 1], ls) + (if s[|s| - 1].lora in ls then 1 else 0)
  }

  lemma {:induction false} CountAll(s: seq<Request>, ls: set<int>)
    ensures CountIn(s, ls) <= |s|
    ensures (forall r :: r in s ==> r.lora in ls) ==> CountIn(s, ls) == |s|
  {
    if s != [] { CountAll(s[..|s| - 1], ls); }
  }

  lemma {:induction false} CountMore(s: seq<Request>, few: set<int>, many: set<int>)
    requires few <= many
    ensures CountIn(s, few) <= CountIn(s, many)
  {
    if s != [] { CountMore(s[..|s| - 1], few, many); }
  }

  lemma {:induction false} CountOneMore(s: seq<Request>, ls: set<int>, l: int)
    requires l !in ls
    ensures CountIn(s, ls + {l}) == CountIn(s, ls) + CountOf(s, l)
  {
    if s != [] { CountOneMore(s[..|s| - 1], ls, l); }
  }

  lemma {:induction false} CountNone(s: seq<Request>, l: int)
    requires l !in Adapters(s)
    ensures CountOf(s, l) == 0
  {
    if s != [] {
      assert s[|s| - 1] in s;
      forall r | r in s[..|s| - 1] ensures r in s { }
      CountNone(s[..|s| - 1], l);
    }
  }

  lemma {:induction false} CountJoin(s: seq<Request>, t: seq<Request>, ls: set<int>)
    ensures CountIn(s + t, ls) == CountIn(s, ls) + CountIn(t, ls)
  {
    if t == [] {
      assert s + t == s;
    } else {
      var n := |t| - 1;
      assert (s + t)[..|s| + n] == s + t[..n];
      CountJoin(s, t[..n], ls);
    }
  }

  /** A selection has no more requests of the given adapters than the queue it is taken from. */
  lemma {:induction false} CountWithin(some: seq<Request>, s: seq<Request>, ls: set<int>)
    requires multiset(some) <= multiset(s)
    ensures CountIn(some, ls) <= CountIn(s, ls)
    decreases |some|
  {
    if some != [] {
      var n := |some| - 1;
      assert some == some[..n] + [some[n]];
      var rest := WithoutOne(s, some[n], ls);
      CountWithin(some[..n], rest, ls);
    }
  }

  lemma WithoutOne(s: seq<Request>, x: Request, ls: set<int>) returns (rest: seq<Request>)
    requires x in multiset(s)
    ensures multiset(rest) == multiset(s) - multiset{x}
    ensures CountIn(s, ls) == CountIn(rest, ls) + (if x.lora in ls then 1 else 0)
  {
    var i :| 0 <= i < |s| && s[i] == x;
    rest := s[..i] + s[i + 1..];
    assert s[..i] + ([x] + s[i + 1..]) == s;
    CountJoin(s[..i], [x] + s[i + 1..], ls);
    CountJoin([x], s[i + 1..], ls);
    CountJoin(s[..i], s[i + 1..], ls);
  }

  lemma Outside(a: set<int>, b: set<int>) returns (x: int)
    requires !(a <= b)
    ensures x in a && x !in b
  {
    if forall y :: y in a ==> y in b { assert false; }
    x :| x in a && x !in b;
  }

  /** Adapters with no fewer requests each, and at least as many of them, have no fewer requests in all. */
  lemma {:induction false} Exchange(s: seq<Request>, few: set<int>, top: set<int>)
    requires |few| <= |top| && forall l, t :: l in few && l !in top && t in top ==> CountOf(s, l) <= CountOf(s, t)
    ensures CountIn(s, few) <= CountIn(s, top)
    decreases |few - top|
  {
    if few <= top {
      CountMore(s, few, top);
    } else {
      var l := Outside(few, top);
      if top <= few { SubsetCard(top, few - {l}); }
      var t := Outside(top, few);
      CountOneMore(s, few - {l}, l);
      CountOneMore(s, few - {l}, t);
      var next := few - {l} + {t};
      assert few == few - {l} + {l} && next - top == (few - top) - {l};
      Exchange(s, next, top);
    }
  }

  /** Every adapter stands in one stretch. */
  ghost predicate Stretches(r: seq<Request>) {
    forall i, j, k :: 0 <= i <= j <= k < |r| && r[i].lora == r[k].lora ==> r[j].lora == r[i].lora
  }

  /** Adapters with more requests in s come first. */
  ghost predicate Falling(s: seq<Request>, r: seq<Request>) {
    forall i, j :: 0 <= i < j < |r| ==> CountOf(s, r[i].lora) >= CountOf(s, r[j].lora)
  }

  /**
   The adapters of the first n requests, but the last one's: all their requests are among those n, with one to
   spare.
   */
  lemma WholeQueues(s: seq<Request>, r: seq<Request>, n: nat, top: set<int>)
    requires 0 < n <= |r| && top == Adapters(r[..n]) - {r[n - 1].lora}
    requires Stretches(r)
    ensures CountIn(r, top) < n
  {
    assert r == r[..n] + r[n..] && r[..n] == r[..n - 1] + [r[n - 1]];
    CountJoin(r[..n], r[n..], top);
    CountJoin(r[..n - 1], [r[n - 1]], top);
    CountAll(r[..n - 1], top);
    Behind(r, n, top);
    NoneIn(r[n..], top);
  }

  lemma Behind(r: seq<Request>, n: nat, top: set<int>)
    requires 0 < n <= |r| && top == Adapters(r[..n]) - {r[n - 1].lora}
    requires Stretches(r)
    ensures forall q :: q in r[n..] ==> q.lora !in top
  {
    forall k | n <= k < |r| ensures r[k].lora !in top {
      if r[k].lora in Adapters(r[..n]) {
        var i := AmongFirst(r, n, r[k].lora);
        assert r[n - 1].lora == r[i].lora;
      }
    }
  }

  lemma {:induction false} NoneIn(s: seq<Request>, ls: set<int>)
    requires forall r :: r in s ==> r.lora !in ls
    ensures CountIn(s, ls) == 0
  {
    if s != [] { NoneIn(s[..|s| - 1], ls); }
  }

  lemma AmongFirst(r: seq<Request>, n: nat, l: int) returns (i: nat)
    requires n <= |r| && l in Adapters(r[..n])
    ensures i < n && r[i].lora == l
  {
    var p :| p in r[..n] && p.lora == l;
    i :| 0 <= i < n && r[..n][i] == p;
  }

  /** Those adapters have the most requests. */
  lemma LongestFirst(s: seq<Request>, r: seq<Request>, n: nat, l: int, t: int)
    requires multiset(r) == multiset(s) && Falling(s, r) && 0 < n <= |r|
    requires t in Adapters(r[..n]) && t != r[n - 1].lora && (l in Adapters(r[..n]) ==> l == r[n - 1].lora)
    ensures CountOf(s, l) <= CountOf(s, t)
  {
    var i := AmongFirst(r, n, t);
    if l in Adapters(r) {
      assert r[..|r|] == r;
      var j := AmongFirst(r, |r|, l);
      if j < n { assert r[..n][j] in r[..n]; }
      var k := if j < n then n - 1 else j;
      assert i < k && r[k].lora == l;
    } else {
      CountNone(r, l);
      SameCounts(s, r, l);
    }
  }

  lemma SameCounts(s: seq<Request>, r: seq<Request>, l: int)
    requires multiset(s) == multiset(r)
    ensures CountOf(s, l) == CountOf(r, l)
  {
    CountOneMore(s, {}, l);
    CountOneMore(r, {}, l);
    CountWithin(s, r, {} + {l});
    CountWithin(r, s, {} + {l});
    CountWithin(s, r, {});
    CountWithin(r, s, {});
  }

  /** Requests of fewer adapters than the first n draw on are fewer than n. */
  lemma FewerAdapters(s: seq<Request>, r: seq<Request>, n: nat, few: set<int>)
    requires multiset(r) == multiset(s) && Stretches(r) && Falling(s, r) && 0 < n <= |r|
    requires |few| < |Adapters(r[..n])|
    ensures CountIn(s, few) < n
  {
    var last := r[n - 1].lora;
    var top := Adapters(r[..n]) - {last};
    assert r[..n][n - 1] in r[..n];
    assert Adapters(r[..n]) == top + {last};
    forall l, t | l in few && l !in top && t in top ensures CountOf(s, l) <= CountOf(s, t) {
      LongestFirst(s, r, n, l, t);
    }
    hide Adapters;
    WholeQueues(s, r, n, top);
    Exchange(s, few, top);
    CountWithin(s, r, top);
  }

  /** No choice of n requests draws on fewer adapters than the first n in this order. */
  lemma OrderedIsFewest(s: seq<Request>, r: seq<Request>, n: nat, some: seq<Request>)
    requires multiset(r) == multiset(s) && Stretches(r) && Falling(s, r) && n <= |r|
    requires multiset(some) <= multiset(s) && |some| == n
    ensures |Adapters(r[..n])| <= |Adapters(some)|
  {
    if n > 0 && |Adapters(some)| < |Adapters(r[..n])| {
      FewerAdapters(s, r, n, Adapters(some));
      CountAll(some, Adapters(some));
      CountWithin(some, s, Adapters(some));
    }
  }
}
