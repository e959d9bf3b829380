/**
 Lists of request groups: those of one model or of several, the head of a list, what is left of it.
 */
module GroupLists {
  import opened Common

  /** A request of a model's adapter. */
  datatype Group = Group(id: int, model: int)

  /** The queued groups of one model, in queue order. */
  function OfModel(queue: seq<Group>, m: int): seq<Group> {
    if queue == [] then []
    else OfModel(queue[..|queue| - 1], m) + (if queue[|queue| - 1].model == m then [queue[|queue| - 1]] else [])
  }

  lemma {:induction false} OfModelIs(queue: seq<Group>, m: int)
    ensures forall g :: g in OfModel(queue, m) <==> g in queue && g.model == m
    ensures NoDuplicates(queue) ==> NoDuplicates(OfModel(queue, m))
    ensures |OfModel(queue, m)| <= |queue|
  {
    if queue != [] {
      var n := |queue| - 1;
      OfModelIs(queue[..n], m);
      assert queue == queue[..n] + [queue[n]];
      if NoDuplicates(queue) {
        assert queue[n] !in queue[..n];
        hide OfModel;
        SnocDistinct(OfModel(queue[..n], m), queue[n]);
      }
    }
  }

  /** Where the model's groups stand. */
  ghost function Positions(queue: seq<Group>, m: int): set<int> { set i | 0 <= i < |queue| && queue[i].model == m }

  lemma {:induction false} OfModelCount(queue: seq<Group>, m: int)
    ensures |OfModel(queue, m)| == |Positions(queue, m)|
  {
    if queue != [] {
      var n := |queue| - 1;
      OfModelCount(queue[..n], m);
      assert Positions(queue, m) == Positions(queue[..n], m) + (if queue[n].model == m then {n} else {});
    }
  }

  lemma SnocDistinct(s: seq<Group>, g: Group)
    requires NoDuplicates(s) && g !in s
    ensures NoDuplicates(s + [g]) && NoDuplicates(s + [])
  {
  }

  /** A choice of queued groups, none twice. */
  ghost predicate Picked(queue: seq<Group>, s: seq<Group>) { NoDuplicates(s) && forall g :: g in s ==> g in queue }

  ghost predicate OnlyFrom(queue: seq<Group>, s: seq<Group>) { forall g :: g in s ==> g in queue }

  function Prefix(s: seq<Group>, n: nat): seq<Group> { if |s| <= n then s else s[..n] }

  lemma TakeMine(queue: seq<Group>, picked: seq<Group>, mine: seq<Group>, num: nat, m: int)
    requires Picked(queue, picked) && NoDuplicates(mine) && num <= |mine|
    requires (forall g :: g in mine ==> g in queue && g.model == m) && forall g :: g in picked ==> g.model != m
    ensures Picked(queue, picked + mine[..num])
  {
    JoinDistinct(picked, mine[..num]);
  }

  /** A full batch, or one that holds the whole queue's head, has as many groups as arrival order would give. */
  lemma SameSize(queue: seq<Group>, scheduled: seq<Group>, fcfs: seq<Group>, n: nat)
    requires NoDuplicates(queue) && Picked(queue, scheduled) && |scheduled| <= n && fcfs == Prefix(queue, n)
    requires |scheduled| == n || forall g :: g in fcfs ==> g in scheduled
    ensures |scheduled| == |fcfs|
  {
    DistinctWithin(scheduled, queue);
    if |scheduled| < n {
      assert NoDuplicates(fcfs);
      DistinctWithin(fcfs, scheduled);
    }
  }

  // ---- what the passes compute -----------------------------------------------------------------------------

  function Among(s: seq<Group>, t: seq<Group>): seq<Group> {
    if s == [] then [] else Among(s[..|s| - 1], t) + (if s[|s| - 1] in t then [s[|s| - 1]] else [])
  }

  function NotAmong(s: seq<Group>, t: seq<Group>): seq<Group> {
    if s == [] then [] else NotAmong(s[..|s| - 1], t) + (if s[|s| - 1] in t then [] else [s[|s| - 1]])
  }

  lemma {:induction false} NotAmongIn(s: seq<Group>, t: seq<Group>)
    ensures forall g :: g in NotAmong(s, t) <==> g in s && g !in t
  {
    if s != [] {
      NotAmongIn(s[..|s| - 1], t);
      assert s == s[..|s| - 1] + [s[|s| - 1]];
    }
  }

  lemma NotAmongStep(s: seq<Group>, t: seq<Group>, i: nat)
    requires NoDuplicates(s) && i < |s|
    ensures NotAmong(s[..i + 1], t) == NotAmong(s[..i], t) + (if s[i] in t then [] else [s[i]])
    ensures s[i] in t + NotAmong(s[..i], t) <==> s[i] in t
  {
    assert s[..i + 1][..i] == s[..i];
    NotAmongIn(s[..i], t);
    assert s[i] !in s[..i];
  }

  lemma {:induction false} NotAmongDistinct(s: seq<Group>, t: seq<Group>)
    requires NoDuplicates(s)
    ensures NoDuplicates(NotAmong(s, t))
  {
    if s != [] {
      NotAmongDistinct(s[..|s| - 1], t);
      NotAmongIn(s[..|s| - 1], t);
      assert s[|s| - 1] !in s[..|s| - 1];
    }
  }

  /** Picked groups and the arrivals among the first i that they leave: queued groups, none twice. */
  lemma FilledIsPicked(queue: seq<Group>, picked: seq<Group>, fcfs: seq<Group>, i: nat, n: nat)
    requires NoDuplicates(queue) && Picked(queue, picked) && fcfs == Prefix(queue, n) && i <= |fcfs|
    requires var s := picked + NotAmong(fcfs[..i], picked); |s| == n || (|s| <= n && i == |fcfs|)
    ensures var s := picked + NotAmong(fcfs[..i], picked); Picked(queue, s) && |s| == |fcfs|
  {
    var rest := NotAmong(fcfs[..i], picked);
    NotAmongIn(fcfs[..i], picked);
    NotAmongDistinct(fcfs[..i], picked);
    forall g | g in fcfs[..i] ensures g in queue { }
    JoinDistinct(picked, rest);
    hide NotAmong;
    if i == |fcfs| { assert fcfs[..i] == fcfs; }
    SameSize(queue, picked + rest, fcfs, n);
  }

  lemma {:induction false} NotAmongPrefix(s: seq<Group>, t: seq<Group>, i: nat)
    requires i <= |s|
    ensures NotAmong(s[..i], t) <= NotAmong(s, t)
  {
    if i < |s| {
      NotAmongPrefix(s[..|s| - 1], t, i);
      assert s[..|s| - 1][..i] == s[..i];
    } else {
      assert s[..i] == s;
    }
  }

  /** The queues of several models, one after the other. */
  function Line(queue: seq<Group>, models: seq<int>): seq<Group> {
    if models == [] then [] else Line(queue, models[..|models| - 1]) + OfModel(queue, models[|models| - 1])
  }

  lemma {:induction false} LineIn(queue: seq<Group>, models: seq<int>)
    ensures forall g :: g in Line(queue, models) <==> g in queue && g.model in models
  {
    if models != [] {
      var k := |models| - 1;
      LineIn(queue, models[..k]);
      OfModelIs(queue, models[k]);
      assert models == models[..k] + [models[k]];
      hide OfModel;
    }
  }

  lemma LineSnoc(queue: seq<Group>, models: seq<int>, m: int)
    ensures Line(queue, models + [m]) == Line(queue, models) + OfModel(queue, m)
  {
    assert (models + [m])[..|models|] == models;
  }

  lemma LineGrows(queue: seq<Group>, models: seq<int>, m: int, num: nat)
    requires num <= |OfModel(queue, m)|
    ensures Line(queue, models + [m]) == Line(queue, models) + OfModel(queue, m)
    ensures Prefix(Line(queue, models + [m]), |Line(queue, models)| + num) ==
      Line(queue, models) + OfModel(queue, m)[..num]
  {
    hide Line, OfModel, Prefix;
    LineSnoc(queue, models, m);
    PrefixOfJoin(Line(queue, models), OfModel(queue, m), num);
  }

  lemma PrefixFrom(s: seq<Group>, n: nat)
    ensures OnlyFrom(s, Prefix(s, n)) && (s != [] && n > 0 ==> Prefix(s, n) != [])
  {
  }

  lemma PrefixOfJoin(s: seq<Group>, t: seq<Group>, num: nat)
    requires num <= |t|
    ensures Prefix(s + t, |s| + num) == s + t[..num]
  {
  }

  function OfModels(s: seq<Group>, models: set<int>): seq<Group> {
    if s == [] then [] else OfModels(s[..|s| - 1], models) + (if s[|s| - 1].model in models then [s[|s| - 1]] else [])
  }

  ghost function ModelsIn(s: seq<Group>): set<int> { set g | g in s :: g.model }

  /** At most cap models of s; a group of another model comes after groups of cap of them. */
  ghost predicate FirstModels(s: seq<Group>, models: set<int>, cap: nat) {
    && |models| <= cap && models <= ModelsIn(s)
    && forall i :: 0 <= i < |s| && s[i].model !in models ==> |models| == cap && models <= ModelsIn(s[..i])
  }

  /** The groups of the first cap models. */
  ghost predicate OfFirst(s: seq<Group>, kept: seq<Group>, cap: nat) {
    exists models :: FirstModels(s, models, cap) && kept == OfModels(s, models)
  }

  lemma FirstModelsCount(s: seq<Group>, models: set<int>, cap: nat)
    requires FirstModels(s, models, cap)
    ensures |models| == if |ModelsIn(s)| < cap then |ModelsIn(s)| else cap
  {
    SubsetCard(models, ModelsIn(s));
    if |models| < cap {
      forall g | g in s ensures g.model in models {
        var i :| 0 <= i < |s| && s[i] == g;
      }
      assert models == ModelsIn(s);
    }
  }

  lemma KeptModels(s: seq<Group>, models: set<int>, cap: nat)
    requires FirstModels(s, models, cap)
    ensures ModelsIn(OfModels(s, models)) == models
  {
    OfModelsIn(s, models);
    forall m | m in models ensures m in ModelsIn(OfModels(s, models)) {
      var g :| g in s && g.model == m;
      assert g in OfModels(s, models);
    }
  }

  lemma FirstModelsStep(s: seq<Group>, i: nat, models: set<int>, cap: nat)
    requires i < |s| && FirstModels(s[..i], models, cap)
    ensures var m := s[i].model;
      FirstModels(s[..i + 1], if m in models || |models| < cap then models + {m} else models, cap)
  {
    hide ModelsIn;
    var t, u, m := s[..i], s[..i + 1], s[i].model;
    var next := if m in models || |models| < cap then models + {m} else models;
    assert u == t + [s[i]];
    ModelsInSnoc(t, s[i]);
    if m in models { assert models + {m} == models; }
    forall k | 0 <= k < |u| && u[k].model !in next ensures |next| == cap && next <= ModelsIn(u[..k]) {
      if k < i { assert u[k] == t[k] && u[..k] == t[..k]; } else { assert u[..k] == t; }
    }
  }

  lemma ModelsInSnoc(s: seq<Group>, g: Group)
    ensures ModelsIn(s + [g]) == ModelsIn(s) + {g.model}
  {
    forall m ensures m in ModelsIn(s + [g]) <==> m in ModelsIn(s) + {g.model} { assert g in s + [g]; }
  }

  /** kept are the groups of the models of s counted so far; nothing is skipped before the capacity is reached. */
  ghost predicate KeptSoFar(s: seq<Group>, models: set<int>, cap: nat, kept: seq<Group>) {
    && FirstModels(s, models, cap) && kept == OfModels(s, models) && (kept != s ==> |models| == cap)
    && if s == [] then models == {} else cap > 0 ==> kept != []
  }

  lemma KeptNone(cap: nat)
    ensures KeptSoFar([], {}, cap, [])
  {
  }

  lemma KeptAll(s: seq<Group>, models: set<int>, cap: nat, kept: seq<Group>)
    requires KeptSoFar(s, models, cap, kept)
    ensures FirstModels(s, models, cap) && kept == OfModels(s, models) && (s != [] && cap > 0 ==> kept != [])
  {
    hide FirstModels, OfModels;
  }

  lemma KeptStep(s: seq<Group>, i: nat, models: set<int>, cap: nat, kept: seq<Group>)
    requires i < |s| && KeptSoFar(s[..i], models, cap, kept)
    ensures var m := s[i].model;
      if m in models || |models| < cap then KeptSoFar(s[..i + 1], models + {m}, cap, kept + [s[i]])
      else KeptSoFar(s[..i + 1], models, cap, kept)
  {
    hide ModelsIn, OfModels;
    var m := s[i].model;
    OfModelsStep(s, i, models, m, kept);
    FirstModelsStep(s, i, models, cap);
    if m in models { assert models + {m} == models; }
    assert kept == s[..i] ==> kept + [s[i]] == s[..i + 1];
    assert kept + [] == kept;
  }

  /** Nothing skipped so far: one more model changes nothing about the groups seen. */
  lemma OfModelsStep(s: seq<Group>, i: nat, models: set<int>, m: int, kept: seq<Group>)
    requires i < |s| && kept == OfModels(s[..i], models) && m == s[i].model
    ensures OfModels(s[..i + 1], models) == kept + (if m in models then [s[i]] else [])
    ensures kept == s[..i] ==> OfModels(s[..i + 1], models + {m}) == kept + [s[i]]
    ensures s[..i + 1] == s[..i] + [s[i]]
  {
    assert s[..i + 1][..i] == s[..i];
    if kept == s[..i] { MoreModels(s[..i], models, m); }
  }

  lemma {:induction false} MoreModels(s: seq<Group>, models: set<int>, m: int)
    requires OfModels(s, models) == s
    ensures OfModels(s, models + {m}) == s
  {
    if s != [] {
      OfModelsShorter(s[..|s| - 1], models);
      assert OfModels(s[..|s| - 1], models) == s[..|s| - 1];
      MoreModels(s[..|s| - 1], models, m);
    }
  }

  lemma {:induction false} OfModelsShorter(s: seq<Group>, models: set<int>)
    ensures |OfModels(s, models)| <= |s|
  {
    if s != [] { OfModelsShorter(s[..|s| - 1], models); }
  }

  lemma {:induction false} OfModelsIn(s: seq<Group>, models: set<int>)
    ensures forall g :: g in OfModels(s, models) <==> g in s && g.model in models
  {
    if s != [] {
      OfModelsIn(s[..|s| - 1], models);
      assert s == s[..|s| - 1] + [s[|s| - 1]];
    }
  }
}
