/**
 First come, first served within each model: what a schedule must keep of the order of its queue.
 */
module FirstCome {
  import opened Common
  import opened GroupLists

  ghost predicate StandsBefore(s: seq<Group>, x: Group, y: Group) {
    exists a, b :: 0 <= a < b < |s| && s[a] == x && s[b] == y
  }

  /** Of two queued groups of one model the later one is served only behind the earlier one. */
  ghost predicate FirstServed(queue: seq<Group>, s: seq<Group>) {
    forall i, j :: 0 <= i < j < |queue| && queue[i].model == queue[j].model && queue[j] in s ==>
      StandsBefore(s, queue[i], queue[j])
  }

  /** Each model is served from the front of its own queue. */
  ghost predicate FromTheFront(queue: seq<Group>, s: seq<Group>) {
    forall m :: OfModel(s, m) <= OfModel(queue, m)
  }

  // ---- the groups of one model ----------------------------------------------------------------------

  lemma {:induction false} OfModelJoin(s: seq<Group>, t: seq<Group>, m: int)
    ensures OfModel(s + t, m) == OfModel(s, m) + OfModel(t, m)
  {
    if t == [] {
      assert s + t == s;
    } else {
      var n := |t| - 1;
      OfModelJoin(s, t[..n], m);
      assert (s + t)[..|s| + n] == s + t[..n];
    }
  }

  lemma {:induction false} OfModelNone(s: seq<Group>, m: int)
    requires forall g :: g in s ==> g.model != m
    ensures OfModel(s, m) == []
  {
    if s != [] { OfModelNone(s[..|s| - 1], m); }
  }

  lemma {:induction false} OfModelAll(s: seq<Group>, m: int)
    requires forall g :: g in s ==> g.model == m
    ensures OfModel(s, m) == s
  {
    if s != [] {
      OfModelAll(s[..|s| - 1], m);
      assert s == s[..|s| - 1] + [s[|s| - 1]];
    }
  }

  lemma OfModelOf(s: seq<Group>, x: int, m: int)
    ensures OfModel(OfModel(s, x), m) == if m == x then OfModel(s, x) else []
  {
    OfModelIs(s, x);
    if m == x { OfModelAll(OfModel(s, x), m); } else { OfModelNone(OfModel(s, x), m); }
  }

  lemma OfModelPrefix(s: seq<Group>, n: nat, m: int)
    ensures OfModel(Prefix(s, n), m) <= OfModel(s, m)
  {
    if |s| > n {
      assert s == s[..n] + s[n..];
      OfModelJoin(s[..n], s[n..], m);
    }
  }

  lemma {:induction false} OfModelKept(s: seq<Group>, models: set<int>, m: int)
    ensures OfModel(OfModels(s, models), m) == if m in models then OfModel(s, m) else []
  {
    if s != [] {
      var n := |s| - 1;
      OfModelKept(s[..n], models, m);
      OfModelJoin(OfModels(s[..n], models), if s[n].model in models then [s[n]] else [], m);
      OfModelOne(s[n], m);
    }
  }

  lemma OfModelOne(g: Group, m: int)
    ensures OfModel([g], m) == if g.model == m then [g] else []
  {
    assert [g][..0] == [];
  }

  lemma {:induction false} OfModelLine(queue: seq<Group>, models: seq<int>, m: int)
    requires NoDuplicates(models)
    ensures OfModel(Line(queue, models), m) == if m in models then OfModel(queue, m) else []
  {
    hide OfModel, Line, NoDuplicates;
    if models == [] {
      LineNone(queue, m);
    } else {
      var k := |models| - 1;
      LastIsNew(models);
      OfModelLine(queue, models[..k], m);
      OfModelJoin(Line(queue, models[..k]), OfModel(queue, models[k]), m);
      OfModelOf(queue, models[k], m);
      LineLast(queue, models);
    }
  }

  lemma LineNone(queue: seq<Group>, m: int)
    ensures OfModel(Line(queue, []), m) == []
  {
  }

  lemma LastIsNew(models: seq<int>)
    requires NoDuplicates(models) && models != []
    ensures var k := |models| - 1; models[k] !in models[..k] && NoDuplicates(models[..k])
    ensures forall m :: m in models <==> m in models[..|models| - 1] || m == models[|models| - 1]
  {
    assert models == models[..|models| - 1] + [models[|models| - 1]];
  }

  lemma LineLast(queue: seq<Group>, models: seq<int>)
    requires models != []
    ensures var k := |models| - 1; Line(queue, models) == Line(queue, models[..k]) + OfModel(queue, models[k])
  {
  }

  /** Leaving out groups of other models, or all those of this one. */
  lemma {:induction false} OfModelRest(s: seq<Group>, t: seq<Group>, m: int)
    ensures (forall g :: g in s && g.model == m ==> g !in t) ==> OfModel(NotAmong(s, t), m) == OfModel(s, m)
    ensures (forall g :: g in s && g.model == m ==> g in t) ==> OfModel(NotAmong(s, t), m) == []
  {
    if s != [] {
      var n := |s| - 1;
      OfModelRest(s[..n], t, m);
      OfModelJoin(NotAmong(s[..n], t), if s[n] in t then [] else [s[n]], m);
      OfModelOne(s[n], m);
      assert s[n] in s && forall g :: g in s[..n] ==> g in s;
    }
  }

  // ---- schedules ------------------------------------------------------------------------------------

  lemma HeadFromTheFront(queue: seq<Group>, n: nat)
    ensures FromTheFront(queue, Prefix(queue, n))
  {
    forall m ensures OfModel(Prefix(queue, n), m) <= OfModel(queue, m) { OfModelPrefix(queue, n, m); }
  }

  lemma ModelFromTheFront(queue: seq<Group>, x: int, n: nat)
    ensures FromTheFront(queue, OfModel(queue, x)) && FromTheFront(queue, Prefix(OfModel(queue, x), n))
  {
    forall m
      ensures OfModel(OfModel(queue, x), m) <= OfModel(queue, m)
      ensures OfModel(Prefix(OfModel(queue, x), n), m) <= OfModel(queue, m)
    {
      OfModelOf(queue, x, m);
      OfModelPrefix(OfModel(queue, x), n, m);
    }
  }

  lemma KeptFromTheFront(queue: seq<Group>, s: seq<Group>, cap: nat, kept: seq<Group>)
    requires FromTheFront(queue, s) && OfFirst(s, kept, cap)
    ensures FromTheFront(queue, kept)
  {
    var models :| FirstModels(s, models, cap) && kept == OfModels(s, models);
    forall m ensures OfModel(kept, m) <= OfModel(queue, m) {
      OfModelKept(s, models, m);
      assert OfModel(s, m) <= OfModel(queue, m);
    }
  }

  /** Favoured models in turn until the batch is full, then arrivals that are not in it yet. */
  lemma CreditFromTheFront(queue: seq<Group>, favoured: seq<int>, n: nat)
    requires NoDuplicates(favoured)
    ensures var fcfs, picked := Prefix(queue, n), Prefix(Line(queue, favoured), n);
      |picked| <= n && FromTheFront(queue, picked + Prefix(NotAmong(fcfs, picked), n - |picked|))
  {
    var fcfs, picked := Prefix(queue, n), Prefix(Line(queue, favoured), n);
    var rest := Prefix(NotAmong(fcfs, picked), n - |picked|);
    forall m ensures OfModel(picked + rest, m) <= OfModel(queue, m) {
      CreditModel(queue, favoured, n, m);
    }
  }

  lemma CreditModel(queue: seq<Group>, favoured: seq<int>, n: nat, m: int)
    requires NoDuplicates(favoured)
    ensures var fcfs, picked := Prefix(queue, n), Prefix(Line(queue, favoured), n);
      OfModel(picked + Prefix(NotAmong(fcfs, picked), n - |picked|), m) <= OfModel(queue, m)
  {
    hide OfModel, Line, NotAmong, NoDuplicates;
    var line, fcfs := Line(queue, favoured), Prefix(queue, n);
    var picked := Prefix(line, n);
    var rest := Prefix(NotAmong(fcfs, picked), n - |picked|);
    OfModelLine(queue, favoured, m);
    OfModelPrefix(line, n, m);
    if |picked| == n {
      assert picked + rest == picked;
    } else {
      assert picked == line;
      OfModelJoin(line, rest, m);
      OfModelPrefix(NotAmong(fcfs, line), n - |line|, m);
      LineServes(queue, favoured, fcfs, m);
      OfModelPrefix(queue, n, m);
      hide Prefix;
    }
  }

  /** Whoever the favoured models leave are the groups of other models. */
  lemma LineServes(queue: seq<Group>, favoured: seq<int>, fcfs: seq<Group>, m: int)
    requires OnlyFrom(queue, fcfs)
    ensures OfModel(NotAmong(fcfs, Line(queue, favoured)), m) == if m in favoured then [] else OfModel(fcfs, m)
  {
    hide OfModel, NotAmong, Line;
    LineIn(queue, favoured);
    OfModelRest(fcfs, Line(queue, favoured), m);
  }

  // ---- what it means --------------------------------------------------------------------------------

  /** A list of one model's groups keeps the order of the queue. */
  lemma {:induction false} OfModelOrder(s: seq<Group>, i: nat, j: nat)
    requires i < j < |s| && s[i].model == s[j].model
    ensures StandsBefore(OfModel(s, s[i].model), s[i], s[j])
  {
    var n, m := |s| - 1, s[i].model;
    var front := s[..n];
    if j < n {
      OfModelOrder(front, i, j);
      var a, b :| 0 <= a < b < |OfModel(front, m)| && OfModel(front, m)[a] == s[i] && OfModel(front, m)[b] == s[j];
      assert OfModel(s, m)[a] == s[i] && OfModel(s, m)[b] == s[j];
    } else {
      OfModelIs(front, m);
      assert front[i] == s[i];
      var a :| 0 <= a < |OfModel(front, m)| && OfModel(front, m)[a] == s[i];
      assert OfModel(s, m)[a] == s[i] && OfModel(s, m)[|OfModel(front, m)|] == s[j];
    }
  }

  /** ... and the list of the model's groups the order of the schedule. */
  lemma {:induction false} OrderInSchedule(s: seq<Group>, m: int, a: nat, b: nat)
    requires a < b < |OfModel(s, m)|
    ensures StandsBefore(s, OfModel(s, m)[a], OfModel(s, m)[b])
  {
    var n := |s| - 1;
    var front := s[..n];
    var x, y := OfModel(s, m)[a], OfModel(s, m)[b];
    if b < |OfModel(front, m)| {
      OrderInSchedule(front, m, a, b);
      var c, d :| 0 <= c < d < |front| && front[c] == x && front[d] == y;
      assert s[c] == x && s[d] == y;
    } else {
      OfModelIs(front, m);
      assert x in OfModel(front, m);
      var c :| 0 <= c < |front| && front[c] == x;
      assert s[c] == x && s[n] == y;
    }
  }

  /** Serving each model from the front of its queue is first come, first served. */
  lemma FrontIsFirst(queue: seq<Group>, s: seq<Group>)
    requires NoDuplicates(queue) && FromTheFront(queue, s)
    ensures FirstServed(queue, s)
  {
    forall i, j | 0 <= i < j < |queue| && queue[i].model == queue[j].model && queue[j] in s
      ensures StandsBefore(s, queue[i], queue[j])
    {
      FrontIsFirstAt(queue, s, i, j);
    }
  }

  lemma FrontIsFirstAt(queue: seq<Group>, s: seq<Group>, i: nat, j: nat)
    requires NoDuplicates(queue) && i < j < |queue| && queue[i].model == queue[j].model && queue[j] in s
    requires OfModel(s, queue[i].model) <= OfModel(queue, queue[i].model)
    ensures StandsBefore(s, queue[i], queue[j])
  {
    var m := queue[i].model;
    var mine, all := OfModel(s, m), OfModel(queue, m);
    OfModelIs(s, m);
    OfModelIs(queue, m);
    OfModelOrder(queue, i, j);
    hide OfModel;
    var a, b :| 0 <= a < b < |all| && all[a] == queue[i] && all[b] == queue[j];
    PlaceInPrefix(mine, all, b);
    OrderInSchedule(s, m, a, b);
  }

  /** A group of a front part of a list stands in that part. */
  lemma PlaceInPrefix(mine: seq<Group>, all: seq<Group>, b: nat)
    requires NoDuplicates(all) && mine <= all && b < |all| && all[b] in mine
    ensures b < |mine| && mine[b] == all[b]
  {
    var c :| 0 <= c < |mine| && mine[c] == all[b];
    assert all[c] == all[b];
  }
}
