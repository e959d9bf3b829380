/**
 When grouping the waiting queue fills every wave from the fewest adapters: the exact condition on the queue.
 */
module AdmissionWaves {
  import opened AdmissionOrder
  import opened Common
  import opened StableSort

  /** However many requests a wave takes from the front of r, no choice of as many of s draws on fewer adapters. */
  ghost predicate Fewest(s: seq<Request>, r: seq<Request>) {
    forall n, some :: 0 <= n <= |r| ==> NoBetter(s, r, n, some)
  }

  ghost predicate NoBetter(s: seq<Request>, r: seq<Request>, n: nat, some: seq<Request>)
    requires n <= |r|
  {
    multiset(some) <= multiset(s) && |some| == n ==> |Adapters(r[..n])| <= |Adapters(some)|
  }

  // ---- which orders are best ---------------------------------------------------------------------------------

  lemma AdapterIn(r: seq<Request>, n: nat, i: nat)
    requires i < n <= |r|
    ensures r[i].lora in Adapters(r[..n])
  {
    assert r[..n][i] in r[..n];
  }

  lemma OneMoreAdapter(r: seq<Request>, p: nat, q: Request)
    requires p <= |r|
    ensures Adapters(r[..p] + [q]) == Adapters(r[..p]) + {q.lora}
  {
    assert q in r[..p] + [q];
    forall x | x in r[..p] ensures x in r[..p] + [q] { }
  }

  lemma PartOfOrder(r: seq<Request>, p: nat, q: nat)
    requires p <= q < |r|
    ensures multiset(r[..p] + [r[q]]) <= multiset(r)
  {
    assert r == r[..p] + (r[p..q] + [r[q]] + r[q + 1..]);
  }

  /** A new adapter before an older one is finished: finishing the older one first needs fewer. */
  lemma NewWhileUnfinished(s: seq<Request>, r: seq<Request>, p: nat, q: nat)
    requires multiset(r) == multiset(s) && p < q < |r|
    requires r[p].lora !in Adapters(r[..p]) && r[q].lora in Adapters(r[..p])
    ensures !Fewest(s, r)
  {
    var some := r[..p] + [r[q]];
    PartOfOrder(r, p, q);
    OneMoreAdapter(r, p, r[q]);
    OneMoreAdapter(r, p, r[p]);
    assert r[..p + 1] == r[..p] + [r[p]];
    hide Adapters;
    assert !NoBetter(s, r, p + 1, some);
  }

  /** The first place of an adapter. */
  lemma FirstOf(r: seq<Request>, i: nat) returns (f: nat)
    requires i < |r|
    ensures f <= i && r[f].lora == r[i].lora && r[f].lora !in Adapters(r[..f])
  {
    f := i;
    while r[f].lora in Adapters(r[..f])
      invariant f <= i && r[f].lora == r[i].lora
      decreases f
    {
      f := AmongFirst(r, f, r[f].lora);
    }
  }

  lemma FewestHasStretches(s: seq<Request>, r: seq<Request>, i: nat, j: nat, k: nat)
    requires multiset(r) == multiset(s) && Fewest(s, r) && i <= j <= k < |r| && r[i].lora == r[k].lora
    ensures r[j].lora == r[i].lora
  {
    if r[j].lora != r[i].lora {
      var a := FirstOf(r, i);
      var b := FirstOf(r, j);
      if a < b {
        AdapterIn(r, b, a);
        NewWhileUnfinished(s, r, b, k);
      } else {
        AdapterIn(r, a, b);
        NewWhileUnfinished(s, r, a, j);
      }
    }
  }

  /** All requests of the given adapters. */
  ghost function OfAdapters(s: seq<Request>, ls: set<int>): (t: seq<Request>)
    ensures |t| == CountIn(s, ls) && multiset(t) <= multiset(s) && forall r :: r in t ==> r.lora in ls
  {
    if s == [] then []
    else
      assert s == s[..|s| - 1] + [s[|s| - 1]];
      OfAdapters(s[..|s| - 1], ls) + (if s[|s| - 1].lora in ls then [s[|s| - 1]] else [])
  }

  /** n requests from so few adapters, if these have that many. */
  lemma Choose(s: seq<Request>, ls: set<int>, n: nat) returns (some: seq<Request>)
    requires n <= CountIn(s, ls)
    ensures |some| == n && multiset(some) <= multiset(s) && |Adapters(some)| <= |ls|
  {
    var all := OfAdapters(s, ls);
    some := all[..n];
    assert all == some + all[n..];
    forall x | x in some ensures x in all { }
    assert Adapters(some) <= ls;
    SubsetCard(Adapters(some), ls);
  }

  /** In stretches, the requests before an adapter's first are all those of their adapters. */
  lemma FinishedBefore(r: seq<Request>, p: nat)
    requires Stretches(r) && p < |r| && r[p].lora !in Adapters(r[..p])
    ensures CountIn(r, Adapters(r[..p])) == p
  {
    var ls := Adapters(r[..p]);
    Unstarted(r, p, ls);
    hide Adapters, Stretches;
    AllOwn(r[..p]);
    NoneIn(r[p..], ls);
    OnlyFront(r, p, ls);
  }

  lemma OnlyFront(r: seq<Request>, p: nat, ls: set<int>)
    requires p <= |r| && CountIn(r[..p], ls) == p && CountIn(r[p..], ls) == 0
    ensures CountIn(r, ls) == p
  {
    hide CountIn;
    CountJoin(r[..p], r[p..], ls);
    assert r == r[..p] + r[p..];
  }

  lemma AllOwn(s: seq<Request>)
    ensures CountIn(s, Adapters(s)) == |s|
  {
    CountAll(s, Adapters(s));
  }

  lemma Unstarted(r: seq<Request>, p: nat, ls: set<int>)
    requires Stretches(r) && p < |r| && ls == Adapters(r[..p]) && r[p].lora !in ls
    ensures forall x :: x in r[p..] ==> x.lora !in ls
  {
    forall k | p <= k < |r| ensures r[k].lora !in ls {
      if r[k].lora in ls {
        var i := AmongFirst(r, p, r[k].lora);
        assert false;
      }
    }
  }

  /** A longer queue behind a shorter one: trading them needs fewer adapters. */
  lemma FewestIsFalling(s: seq<Request>, r: seq<Request>, i: nat, j: nat)
    requires multiset(r) == multiset(s) && Fewest(s, r) && Stretches(r) && i < j < |r|
    ensures CountOf(s, r[i].lora) >= CountOf(s, r[j].lora)
  {
    if CountOf(s, r[i].lora) < CountOf(s, r[j].lora) {
      var a := r[i].lora;
      var p := FirstOf(r, j);
      assert i < p;
      AdapterIn(r, p, i);
      Traded(s, r, p, a);
    }
  }

  lemma Traded(s: seq<Request>, r: seq<Request>, p: nat, a: int)
    requires multiset(r) == multiset(s) && Stretches(r) && p < |r|
    requires r[p].lora !in Adapters(r[..p]) && a in Adapters(r[..p]) && CountOf(s, a) < CountOf(s, r[p].lora)
    ensures !Fewest(s, r)
  {
    hide Adapters, Stretches;
    var ls, b := Adapters(r[..p]), r[p].lora;
    FinishedBefore(r, p);
    SameIn(s, r, ls);
    TradedCount(s, ls, a, b);
    OneMoreAdapter(r, p, r[p]);
    assert r[..p + 1] == r[..p] + [r[p]];
    var some := Choose(s, ls - {a} + {b}, p + 1);
    assert !NoBetter(s, r, p + 1, some);
  }

  lemma TradedCount(s: seq<Request>, ls: set<int>, a: int, b: int)
    requires a in ls && b !in ls && CountOf(s, a) < CountOf(s, b)
    ensures CountIn(s, ls - {a} + {b}) > CountIn(s, ls) && |ls - {a} + {b}| == |ls|
  {
    CountOneMore(s, ls - {a}, a);
    CountOneMore(s, ls - {a}, b);
    assert ls - {a} + {a} == ls;
  }

  lemma SameIn(s: seq<Request>, r: seq<Request>, ls: set<int>)
    requires multiset(s) == multiset(r)
    ensures CountIn(s, ls) == CountIn(r, ls)
  {
    CountWithin(s, r, ls);
    CountWithin(r, s, ls);
  }

  /** The best orders: every adapter in one stretch, longer queues first. */
  lemma FewestIffOrdered(s: seq<Request>, r: seq<Request>)
    requires multiset(r) == multiset(s)
    ensures Fewest(s, r) <==> Stretches(r) && Falling(s, r)
  {
    if Fewest(s, r) {
      forall i, j, k | 0 <= i <= j <= k < |r| && r[i].lora == r[k].lora ensures r[j].lora == r[i].lora {
        FewestHasStretches(s, r, i, j, k);
      }
      forall i, j | 0 <= i < j < |r| ensures CountOf(s, r[i].lora) >= CountOf(s, r[j].lora) {
        FewestIsFalling(s, r, i, j);
      }
    }
    if Stretches(r) && Falling(s, r) {
      forall n, some | 0 <= n <= |r| ensures NoBetter(s, r, n, some) {
        if multiset(some) <= multiset(s) && |some| == n { OrderedIsFewest(s, r, n, some); }
      }
    }
  }

  // ---- the aged requests in front ----------------------------------------------------------------------------

  function AgedBy(now: real, maxWait: real): Request -> bool { (r: Request) => Aged(r, now, maxWait) }

  /** g are the aged requests in arrival order, equal times as in the queue. */
  ghost predicate AgedInOrder(s: seq<Request>, g: seq<Request>, now: real, maxWait: real) {
    SortedBy(Those(s, AgedBy(now, maxWait)), g, ByArrival())
  }

  /** No aged request comes after one that is not. */
  ghost predicate AgedFirst(r: seq<Request>, now: real, maxWait: real) {
    forall i, j :: 0 <= i < j < |r| && Aged(r[j], now, maxWait) ==> Aged(r[i], now, maxWait)
  }

  lemma {:induction false} AgedPrefix(r: seq<Request>, now: real, maxWait: real) returns (m: nat)
    requires AgedFirst(r, now, maxWait)
    ensures m <= |r| && Those(r, AgedBy(now, maxWait)) == r[..m]
    ensures forall i :: 0 <= i < m ==> Aged(r[i], now, maxWait)
    ensures forall i :: m <= i < |r| ==> !Aged(r[i], now, maxWait)
  {
    hide Those, Aged;
    if r == [] {
      m := 0;
      NoneOfNone(AgedBy(now, maxWait));
    } else {
      var n := |r| - 1;
      m := AgedPrefix(r[..n], now, maxWait);
      ThoseEnd(r, AgedBy(now, maxWait));
      assert r[..n][..m] == r[..m] && (m >= n || r[..n][m] == r[m]);
      if Aged(r[n], now, maxWait) {
        assert m == n && r[..n] + [r[n]] == r[..n + 1];
        m := n + 1;
      }
    }
  }

  lemma NoneOfNone(p: Request -> bool)
    ensures Those([], p) == []
  {
  }

  /** Aged requests with the time of an aged c are tied with it in the group order, and nothing else is. */
  lemma {:induction false} AgedTies(s: seq<Request>, count: map<int, nat>, now: real, maxWait: real, c: Request)
    ensures Ties(Those(s, AgedBy(now, maxWait)), ByArrival(), c) ==
      if Aged(c, now, maxWait) then Ties(s, GroupOrder(count, now, maxWait), c) else []
  {
    hide Ties, Tied, Those, Aged, GroupOrder, ByArrival;
    var p, le, at := AgedBy(now, maxWait), GroupOrder(count, now, maxWait), ByArrival();
    if s == [] {
      NoneOfNone(p);
      EmptyTies(le, c);
      EmptyTies(at, c);
    } else {
      var n := |s| - 1;
      AgedTies(s[..n], count, now, maxWait, c);
      ThoseEnd(s, p);
      TiesAdd(Those(s[..n], p), if p(s[n]) then [s[n]] else [], at, c);
      SingleTie(s[n], at, c);
      EmptyTies(at, c);
      TieWithAged(count, now, maxWait, s[n], c);
      EndTies(s, le, c);
    }
  }

  lemma EmptyTies(le: (Request, Request) -> bool, c: Request)
    ensures Ties([], le, c) == []
  {
  }

  lemma SingleTie(x: Request, le: (Request, Request) -> bool, c: Request)
    ensures Ties([x], le, c) == if Tied(le, x, c) then [x] else []
  {
    assert [x][..0] == [];
  }

  lemma EndTies(s: seq<Request>, le: (Request, Request) -> bool, c: Request)
    requires s != []
    ensures Ties(s, le, c) == Ties(s[..|s| - 1], le, c) + (if Tied(le, s[|s| - 1], c) then [s[|s| - 1]] else [])
  {
  }

  lemma TieWithAged(count: map<int, nat>, now: real, maxWait: real, x: Request, c: Request)
    ensures Aged(c, now, maxWait) ==>
      (Tied(GroupOrder(count, now, maxWait), x, c) <==> Aged(x, now, maxWait) && Tied(ByArrival(), x, c))
    ensures Aged(x, now, maxWait) && !Aged(c, now, maxWait) ==> !Tied(ByArrival(), x, c)
  {
  }

  /** The grouped queue starts with exactly the aged requests in arrival order. */
  lemma Front(s: seq<Request>, r: seq<Request>, g: seq<Request>, now: real, maxWait: real)
    requires Grouped(s, r, now, maxWait) && AgedInOrder(s, g, now, maxWait)
    ensures |g| <= |r| && r[..|g|] == g && forall i :: |g| <= i < |r| ==> !Aged(r[i], now, maxWait)
    ensures forall i :: 0 <= i < |g| ==> Aged(g[i], now, maxWait)
  {
    GroupedMeans(s, r, now, maxWait);
    var count :| Counts(count, s) && SortedBy(s, r, GroupOrder(count, now, maxWait));
    hide Counts;
    var m := AgedPrefix(r, now, maxWait);
    FrontSorted(s, r, g, count, now, maxWait, m);
  }

  lemma FrontSorted(s: seq<Request>, r: seq<Request>, g: seq<Request>, count: map<int, nat>, now: real, maxWait: real,
                    m: nat)
    requires SortedBy(s, r, GroupOrder(count, now, maxWait)) && AgedInOrder(s, g, now, maxWait)
    requires m <= |r| && Those(r, AgedBy(now, maxWait)) == r[..m]
    requires forall i, j :: 0 <= i < j < m ==> r[i].arrival <= r[j].arrival
    ensures r[..m] == g
  {
    GroupOrderIsKeyOrder(count, now, maxWait);
    forall c ensures Ties(r[..m], ByArrival(), c) == Ties(g, ByArrival(), c) {
      AgedTies(s, count, now, maxWait, c);
      AgedTies(r, count, now, maxWait, c);
      assert Ties(r, GroupOrder(count, now, maxWait), c) == Ties(s, GroupOrder(count, now, maxWait), c);
      assert Ties(g, ByArrival(), c) == Ties(Those(s, AgedBy(now, maxWait)), ByArrival(), c);
    }
    hide Ties, KeyOrder;
    SortedUnique(r[..m], g, ByArrival());
  }

  /** Adapter a goes before adapter b: more requests, or as many and the smaller id. */
  ghost predicate Before(s: seq<Request>, a: int, b: int) {
    CountOf(s, a) > CountOf(s, b) || (CountOf(s, a) == CountOf(s, b) && a <= b)
  }

  /** Behind the aged ones, the adapters go by queue length. */
  lemma Tail(s: seq<Request>, r: seq<Request>, now: real, maxWait: real, i: nat, j: nat)
    requires Grouped(s, r, now, maxWait) && i < j < |r| && !Aged(r[i], now, maxWait) && !Aged(r[j], now, maxWait)
    ensures Before(s, r[i].lora, r[j].lora)
  {
    var count :| Counts(count, s) && SortedBy(s, r, GroupOrder(count, now, maxWait));
    assert GroupOrder(count, now, maxWait)(r[i], r[j]);
    assert Tally(count, r[i].lora) == CountOf(s, r[i].lora) && Tally(count, r[j].lora) == CountOf(s, r[j].lora);
    hide CountOf, SortedBy;
  }

  // ---- the condition on the queue ----------------------------------------------------------------------------

  /**
   What the aged requests, in arrival order g, must be like: each aged adapter in one stretch, longer queues first; no
   aged adapter but the last has other requests; the last one's queue is no shorter than any other adapter's behind;
   and if the last one has other requests, it also goes before those adapters.
   */
  ghost predicate AgedFit(s: seq<Request>, g: seq<Request>, now: real, maxWait: real) {
    && Stretches(g) && Falling(s, g)
    && (g != [] ==> LastFits(s, g, g[|g| - 1].lora, now, maxWait))
  }

  ghost predicate LastFits(s: seq<Request>, g: seq<Request>, last: int, now: real, maxWait: real) {
    && (forall q, x :: q in s && !Aged(q, now, maxWait) && x in g && x.lora == q.lora ==> q.lora == last)
    && (forall q :: q in s && !Aged(q, now, maxWait) ==> CountOf(s, last) >= CountOf(s, q.lora))
    && forall q, x :: q in s && x in s && !Aged(q, now, maxWait) && !Aged(x, now, maxWait) && x.lora == last ==>
         Before(s, last, q.lora)
  }

  /** A queue with the aged requests g in front and the others by queue length. */
  ghost predicate FrontAndTail(s: seq<Request>, r: seq<Request>, g: seq<Request>, now: real, maxWait: real) {
    && multiset(r) == multiset(s) && |g| <= |r| && r[..|g|] == g
    && (forall i :: 0 <= i < |g| ==> Aged(g[i], now, maxWait))
    && (forall i :: |g| <= i < |r| ==> !Aged(r[i], now, maxWait))
    && forall i, j :: |g| <= i < j < |r| ==> Before(s, r[i].lora, r[j].lora)
  }

  lemma GroupedIsFrontAndTail(s: seq<Request>, r: seq<Request>, g: seq<Request>, now: real, maxWait: real)
    requires Grouped(s, r, now, maxWait) && AgedInOrder(s, g, now, maxWait)
    ensures FrontAndTail(s, r, g, now, maxWait)
  {
    GroupedMeans(s, r, now, maxWait);
    Front(s, r, g, now, maxWait);
    hide Grouped, AgedInOrder, Before, Aged;
    forall i, j | |g| <= i < j < |r| ensures Before(s, r[i].lora, r[j].lora) { Tail(s, r, now, maxWait, i, j); }
  }

  /** An unaged request of the queue stands behind the front. */
  lemma InTail(s: seq<Request>, r: seq<Request>, g: seq<Request>, now: real, maxWait: real, q: Request) returns (k: nat)
    requires FrontAndTail(s, r, g, now, maxWait) && q in s && !Aged(q, now, maxWait)
    ensures |g| <= k < |r| && r[k] == q
  {
    assert q in multiset(r) && forall i :: 0 <= i < |g| ==> g[i] == r[i];
    k :| 0 <= k < |r| && r[k] == q;
  }

  lemma OrderedFits(s: seq<Request>, r: seq<Request>, g: seq<Request>, now: real, maxWait: real)
    requires FrontAndTail(s, r, g, now, maxWait) && Stretches(r) && Falling(s, r)
    ensures AgedFit(s, g, now, maxWait)
  {
    assert forall i :: 0 <= i < |g| ==> g[i] == r[i];
    if g != [] {
      var m := |g| - 1;
      var last := g[m].lora;
      forall q, x | q in s && !Aged(q, now, maxWait) && x in g && x.lora == q.lora ensures q.lora == last {
        var i :| 0 <= i < |g| && g[i] == x;
        var k := InTail(s, r, g, now, maxWait, q);
        assert r[i].lora == r[k].lora && r[m].lora == r[i].lora;
      }
      forall q | q in s && !Aged(q, now, maxWait) ensures CountOf(s, last) >= CountOf(s, q.lora) {
        var k := InTail(s, r, g, now, maxWait, q);
        assert CountOf(s, r[m].lora) >= CountOf(s, r[k].lora);
      }
      forall q, x | q in s && x in s && !Aged(q, now, maxWait) && !Aged(x, now, maxWait) && x.lora == last
        ensures Before(s, last, q.lora)
      {
        var j := InTail(s, r, g, now, maxWait, q);
        var k := InTail(s, r, g, now, maxWait, x);
        if j <= k { assert r[j].lora == r[m].lora; } else { assert Before(s, r[k].lora, r[j].lora); }
      }
    }
  }

  lemma FitsIsOrdered(s: seq<Request>, r: seq<Request>, g: seq<Request>, now: real, maxWait: real)
    requires FrontAndTail(s, r, g, now, maxWait) && AgedFit(s, g, now, maxWait)
    ensures Stretches(r) && Falling(s, r)
  {
    assert forall i :: 0 <= i < |g| ==> g[i] == r[i];
    forall i, j, k | 0 <= i <= j <= k < |r| && r[i].lora == r[k].lora ensures r[j].lora == r[i].lora {
      FitsStretch(s, r, g, now, maxWait, i, j, k);
    }
    forall i, j | 0 <= i < j < |r| ensures CountOf(s, r[i].lora) >= CountOf(s, r[j].lora) {
      FitsFalling(s, r, g, now, maxWait, i, j);
    }
  }

  lemma FitsStretch(s: seq<Request>, r: seq<Request>, g: seq<Request>, now: real, maxWait: real, i: nat, j: nat, k: nat)
    requires FrontAndTail(s, r, g, now, maxWait) && AgedFit(s, g, now, maxWait)
    requires i <= j <= k < |r| && r[i].lora == r[k].lora
    ensures r[j].lora == r[i].lora
  {
    assert forall n :: 0 <= n < |g| ==> g[n] == r[n];
    assert r[k] in multiset(s) && r[j] in multiset(s);
    if |g| <= i {
      assert i == j || Before(s, r[i].lora, r[j].lora);
      assert j == k || Before(s, r[j].lora, r[k].lora);
    } else if k < |g| {
      assert g[i].lora == g[k].lora && g[j].lora == g[i].lora;
    } else {
      var m := |g| - 1;
      assert g[i] in g && r[k].lora == g[m].lora;
      if j < |g| {
        assert g[i].lora == g[m].lora && g[j].lora == g[i].lora;
      } else {
        assert Before(s, g[m].lora, r[j].lora);
        assert j == k || Before(s, r[j].lora, r[k].lora);
      }
    }
  }

  lemma FitsFalling(s: seq<Request>, r: seq<Request>, g: seq<Request>, now: real, maxWait: real, i: nat, j: nat)
    requires FrontAndTail(s, r, g, now, maxWait) && AgedFit(s, g, now, maxWait) && i < j < |r|
    ensures CountOf(s, r[i].lora) >= CountOf(s, r[j].lora)
  {
    assert forall n :: 0 <= n < |g| ==> g[n] == r[n];
    assert r[j] in multiset(s);
    if |g| <= i {
      assert Before(s, r[i].lora, r[j].lora);
    } else if j < |g| {
      assert CountOf(s, g[i].lora) >= CountOf(s, g[j].lora);
    } else {
      var m := |g| - 1;
      assert i == m || CountOf(s, g[i].lora) >= CountOf(s, g[m].lora);
      assert CountOf(s, g[m].lora) >= CountOf(s, r[j].lora);
    }
  }

  /** Grouping gives every wave the fewest adapters exactly if the aged requests fit. */
  lemma FewestIffAgedFit(s: seq<Request>, r: seq<Request>, g: seq<Request>, now: real, maxWait: real)
    requires Grouped(s, r, now, maxWait) && AgedInOrder(s, g, now, maxWait)
    ensures Fewest(s, r) <==> AgedFit(s, g, now, maxWait)
  {
    GroupedIsFrontAndTail(s, r, g, now, maxWait);
    FewestIffOrdered(s, r);
    hide Fewest, Grouped, AgedInOrder, FrontAndTail, AgedFit, Falling, Stretches;
    if AgedFit(s, g, now, maxWait) { FitsIsOrdered(s, r, g, now, maxWait); }
    if Stretches(r) && Falling(s, r) { OrderedFits(s, r, g, now, maxWait); }
  }

  /** The scheduler keeps its queue in arrival order; then the aged requests are in order as they stand. */
  lemma FewestInArrivalOrder(s: seq<Request>, r: seq<Request>, now: real, maxWait: real)
    requires Grouped(s, r, now, maxWait) && InArrivalOrder(s)
    ensures Fewest(s, r) <==> AgedFit(s, Those(s, AgedBy(now, maxWait)), now, maxWait)
  {
    ThoseAscending(s, AgedBy(now, maxWait));
    FewestIffAgedFit(s, r, Those(s, AgedBy(now, maxWait)), now, maxWait);
  }

  lemma HasFirst(g: seq<Request>)
    ensures g == [] || exists x :: x in g
  {
    if g != [] { assert g[0] in g; }
  }

  /** Nobody aged: no choice of n waiting requests draws on fewer adapters than the first n of the grouped queue. */
  lemma FewestAdapters(s: seq<Request>, r: seq<Request>, now: real, maxWait: real, n: nat, some: seq<Request>)
    requires Grouped(s, r, now, maxWait) && n <= |r| && (forall q :: q in s ==> !Aged(q, now, maxWait))
    requires multiset(some) <= multiset(s) && |some| == n
    ensures |Adapters(r[..n])| <= |Adapters(some)|
  {
    var g := Those(s, AgedBy(now, maxWait));
    forall x ensures x !in g { assert x in g ==> AgedBy(now, maxWait)(x); }
    HasFirst(g);
    FewestIffAgedFit(s, r, g, now, maxWait);
    assert NoBetter(s, r, n, some);
  }

  /** Four waiting requests of two adapters, the first aged. */
  function AgedQueue(): seq<Request> {
    [Request(1, 2, 0.0), Request(2, 2, 9.0), Request(3, 1, 9.0), Request(4, 1, 9.0)]
  }

  lemma AgedQueueCounts()
    ensures CountOf(AgedQueue(), 1) == CountOf(AgedQueue(), 2) == 2
  {
    var a, b, c, d := Request(1, 2, 0.0), Request(2, 2, 9.0), Request(3, 1, 9.0), Request(4, 1, 9.0);
    assert [a, b, c, d][..3] == [a, b, c] && [a, b, c][..2] == [a, b] && [a, b][..1] == [a] && [a][..0] == [];
    assert CountOf([a], 2) == 1 && CountOf([a], 1) == 0;
    assert CountOf([a, b], 2) == 2 && CountOf([a, b], 1) == 0;
  }

  lemma AgedQueueOrder(count: map<int, nat>)
    requires Tally(count, 1) == Tally(count, 2)
    ensures var s, le := AgedQueue(), GroupOrder(count, 10.0, 5.0);
      !le(s[1], s[2]) && forall x :: x in s && x != s[0] ==> !le(x, s[0])
  {
  }

  /**
   With an aged request in front it can fail: adapter 1 goes ahead of the rest of adapter 2, which is in use
   already.
   */
  lemma AgedExample(r: seq<Request>)
    requires Grouped(AgedQueue(), r, 10.0, 5.0)
    ensures |r| == 4 && |Adapters(r[..2])| == 2 && |Adapters(AgedQueue()[..2])| == 1
  {
    hide CountOf, SameTies, KeyOrder, GroupOrder, Ascending, Counts, Aged;
    var s := AgedQueue();
    var count :| Counts(count, s) && SortedBy(s, r, GroupOrder(count, 10.0, 5.0));
    AgedQueueTallies(count);
    AgedQueueOrder(count);
    FirstTwo(s, r, GroupOrder(count, 10.0, 5.0));
    TwoAdapters(r);
  }

  lemma AgedQueueTallies(count: map<int, nat>)
    requires Counts(count, AgedQueue())
    ensures Tally(count, 1) == Tally(count, 2)
  {
    AgedQueueCounts();
    hide CountOf;
  }

  lemma TwoAdapters(r: seq<Request>)
    requires |r| == 4 && r[0] == AgedQueue()[0] && r[1] in AgedQueue()[2..]
    ensures Adapters(r[..2]) == {1, 2} && Adapters(AgedQueue()[..2]) == {2}
  {
    var s := AgedQueue();
    assert r[..2] == [r[0], r[1]] && s[..2] == [s[0], s[1]];
    assert r[0] in r[..2] && r[1] in r[..2] && s[0] in s[..2];
  }

  lemma FirstTwo(s: seq<Request>, r: seq<Request>, le: (Request, Request) -> bool)
    requires multiset(r) == multiset(s) && Ascending(r, le) && s == AgedQueue()
    requires !le(s[1], s[2]) && forall x :: x in s && x != s[0] ==> !le(x, s[0])
    ensures |r| == 4 && r[0] == s[0] && r[1] in s[2..]
  {
    assert |r| == |multiset(r)| == |multiset(s)| == 4;
    assert s[0] in multiset(r) && s[2] in multiset(r);
    var i :| 0 <= i < 4 && r[i] == s[0];
    var j :| 0 <= j < 4 && r[j] == s[2];
    assert r[0] in multiset(s) && r[1] in multiset(s);
    assert i == 0;
    assert multiset(r)[s[0]] == 1 by { assert multiset(s)[s[0]] == 1; }
    assert r[1] != s[1] || 1 < j;
  }
}
