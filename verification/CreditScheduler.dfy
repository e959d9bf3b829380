/**
 The dLoRA credit schedule: models that were passed over earn credit from the models that overtook them, and a
 model with enough credit is served first.
 */
module CreditScheduler {
  import opened Common
  import opened FirstCome
  import opened GroupLists
  import opened MergeMeter
  import opened StableSort
  import opened Sums

  type Credit = map<int, real>

  function CreditOf(credit: Credit, m: int): real { if m in credit then credit[m] else 0.0 }

  /** All credit in the system. */
  ghost function Total(credit: Credit, n: nat): real { Sum(n, m => CreditOf(credit, m)) }

  ghost predicate ForModels(credit: Credit, n: nat) { forall m :: m in credit <==> 0 <= m < n }

  // ---- credit moves, it is never made or lost --------------------------------------------------------------

  function Moved(credit: Credit, payer: int, payee: int, c: real): Credit {
    if payer in credit && payee in credit then
      var paid := credit[payer := credit[payer] - c];
      paid[payee := paid[payee] + c]
    else credit
  }

  lemma MoveConserves(credit: Credit, n: nat, payer: int, payee: int, c: real)
    requires ForModels(credit, n)
    ensures ForModels(Moved(credit, payer, payee, c), n) && Total(Moved(credit, payer, payee, c), n) == Total(credit, n)
  {
    if payer in credit && payee in credit {
      var paid := credit[payer := credit[payer] - c];
      SumUpdate(n, m => CreditOf(credit, m), m => CreditOf(paid, m), payer);
      SumUpdate(n, m => CreditOf(paid, m), m => CreditOf(paid[payee := paid[payee] + c], m), payee);
    }
  }

  /** The same credit for every model. */
  function Even(n: nat, c: real): Credit {
    if n == 0 then map[] else Even(n - 1, c)[n - 1 := c]
  }

  lemma {:induction false} EvenIs(n: nat, c: real)
    ensures ForModels(Even(n, c), n) && forall m :: 0 <= m < n ==> CreditOf(Even(n, c), m) == c
  {
    if n > 0 {
      EvenIs(n - 1, c);
      forall m | 0 <= m < n ensures CreditOf(Even(n, c), m) == c {
        if m < n - 1 { assert CreditOf(Even(n - 1, c), m) == c; }
      }
    }
  }

  lemma EvenTotal(credit: Credit, n: nat, c: real)
    requires forall m :: 0 <= m < n ==> CreditOf(credit, m) == c
    ensures Total(credit, n) == c * n as real
  {
    EvenSum(m => CreditOf(credit, m), n, c);
  }

  lemma {:induction false} EvenSum(f: int -> real, n: nat, c: real)
    requires forall m :: 0 <= m < n ==> f(m) == c
    ensures Sum(n, f) == c * n as real
  {
    if n > 0 {
      EvenSum(f, n - 1, c);
      OneMoreTimes(c, (n - 1) as real, n as real);
      assert Sum(n, f) == Sum(n - 1, f) + f(n - 1);
    } else {
      assert n as real == 0.0;
    }
  }

  lemma OneMoreTimes(c: real, r: real, s: real)
    requires s == r + 1.0
    ensures c * s == c * r + c
  {
  }

  /** With a non-negative total, some model has non-negative credit. */
  lemma SomeoneSolvent(credit: Credit, n: nat)
    requires n > 0 && Total(credit, n) >= 0.0
    ensures exists m :: 0 <= m < n && CreditOf(credit, m) >= 0.0
  {
    if forall m :: 0 <= m < n ==> CreditOf(credit, m) < 0.0 { NegativeTotal(credit, n); }
  }

  lemma NegativeTotal(credit: Credit, n: nat)
    requires n > 0 && forall m :: 0 <= m < n ==> CreditOf(credit, m) < 0.0
    ensures Total(credit, n) < 0.0
  {
    var f := m => CreditOf(credit, m);
    NegativeSum(f, n);
    SumExt(n, f, m => CreditOf(credit, m));
  }

  lemma {:induction false} NegativeSum(f: int -> real, n: nat)
    requires n > 0 && forall m :: 0 <= m < n ==> f(m) < 0.0
    ensures Sum(n, f) < 0.0
  {
    if n > 1 { NegativeSum(f, n - 1); } else { assert Sum(0, f) == 0.0; }
  }

  class CreditScheduler {
    const numModels: nat
    const maxNumSeqs: nat
    const gpuCapacity: nat
    const creditCost: real
    const batchCreditCost: real
    const creditLeft: real    // threshold of a model that was favoured before
    const creditRight: real   // threshold of any other model
    const creditBase: real
    var credit: Credit
    var previous: seq<int>    // models favoured by the last credit pass
    var active: seq<int>
    var modelsInGpu: seq<int>
    var merged: bool
    var mergeLeft: real
    var mergeRight: real
    var numIters: nat
    var mergeBatchCnt: nat
    var unmergeBatchCnt: nat
    var maxModel: int
    var virtualSwitchCnt: nat

    /** Every model has an account and the sum is what was handed out at the start. */
    ghost predicate Balanced()
      reads this`credit
    {
      ForModels(credit, numModels) && Total(credit, numModels) == 10000.0 * (numModels - 1) as real * numModels as real
    }

    ghost predicate Modes()
      reads this`mergeLeft, this`mergeRight, this`modelsInGpu, this`merged, this`active
    {
      && numModels > 0 && maxNumSeqs > 0 && creditBase == 0.0 && creditLeft <= creditRight
      && 0.0 < mergeLeft < mergeRight
      && |modelsInGpu| > 0 && NoDuplicates(modelsInGpu) && (!merged ==> active == modelsInGpu)
    }

    ghost predicate Valid()
      reads this
    {
      Balanced() && Modes()
    }

    /** Every model has been handed the same credit, too little to earn a turn. */
    ghost predicate Untouched()
      reads this
    {
      && ForModels(credit, numModels)
      && (forall m :: 0 <= m < numModels ==> CreditOf(credit, m) == 10000.0 * (numModels - 1) as real)
      && creditRight == 10000.0 * numModels as real && creditLeft == creditRight - 5000.0 && !merged
      && active == modelsInGpu
    }

    constructor (numModels: nat, maxNumSeqs: nat, gpuCapacity: nat, modelsInGpu: seq<int>, speedRate: real)
      requires numModels > 0 && maxNumSeqs > 0 && modelsInGpu != [] && NoDuplicates(modelsInGpu)
      requires 0.0 < speedRate < 1.0
      ensures Valid() && this.numModels == numModels && this.maxNumSeqs == maxNumSeqs && this.gpuCapacity == gpuCapacity
      ensures Untouched() && previous == [] && this.modelsInGpu == modelsInGpu && mergeLeft == speedRate
      ensures mergeRight == 1.0
      ensures creditCost * maxNumSeqs as real == 1.0 && batchCreditCost * (speedRate * maxNumSeqs as real) == 1.0
      ensures Reading() == Meter(false, speedRate, 1.0, 0, 0, 0, 0, -1)
    {
      this.numModels, this.maxNumSeqs, this.gpuCapacity := numModels, maxNumSeqs, gpuCapacity;
      creditRight, creditLeft, creditBase := 10000.0 * numModels as real, 10000.0 * numModels as real - 5000.0, 0.0;
      creditCost, batchCreditCost := 1.0 / maxNumSeqs as real, 1.0 / (speedRate * maxNumSeqs as real);
      credit := Even(numModels, 10000.0 * (numModels - 1) as real);
      this.modelsInGpu, active, previous, merged := modelsInGpu, modelsInGpu, [], false;
      mergeLeft, mergeRight, numIters, mergeBatchCnt, unmergeBatchCnt := speedRate, 1.0, 0, 0, 0;
      maxModel, virtualSwitchCnt := -1, 0;
      new;
      EvenIs(numModels, 10000.0 * (numModels - 1) as real);
      EvenTotal(credit, numModels, 10000.0 * (numModels - 1) as real);
    }

    ghost predicate Queue(queue: seq<Group>)
    {
      NoDuplicates(queue) && forall g :: g in queue ==> 0 <= g.model < numModels
    }

    /**
     Credit flows from the groups that overtake to the groups whose places they take; with schedules of unequal
     length, from the merged model to every group left out.  False is the assertion error.
     */
    method AdjustCredit(fcfs: seq<Group>, scheduled: seq<Group>, cost: real) returns (ok: bool)
      requires Balanced() && forall g :: g in fcfs || g in scheduled ==> 0 <= g.model < numModels
      modifies this`credit
      ensures Balanced()
      ensures ok <==> |fcfs| == |scheduled| || (cost == batchCreditCost && scheduled != [])
      ensures ok ==>
        credit == Settled(old(credit), Transfers(scheduled, fcfs), if |fcfs| == |scheduled| then cost else cost / 2.0)
      ensures !ok ==> credit == old(credit)
    {
      var first, rest := Partition(scheduled, fcfs);
      var order := first + rest;
      hide CreditScheduler.Balanced, Settled, Overtakes, LeftOut, Among, NotAmong;
      if |fcfs| == |scheduled| {
        SettleOvertakes(order, fcfs, cost);
        return true;
      }
      if cost != batchCreditCost || |scheduled| == 0 { return false; }
      SettleLeftOut(order, fcfs, cost / 2.0);
      ok := true;
    }

    method Pay(payer: int, payee: int, c: real)
      requires Balanced() && 0 <= payer < numModels && 0 <= payee < numModels
      modifies this`credit
      ensures Balanced() && credit == Moved(old(credit), payer, payee, c)
    {
      MoveConserves(credit, numModels, payer, payee, c);
      hide Moved;
      credit := Moved(credit, payer, payee, c);
    }

    method SettleOvertakes(order: seq<Group>, fcfs: seq<Group>, cost: real)
      requires Balanced() && |order| == |fcfs| && forall g :: g in fcfs || g in order ==> 0 <= g.model < numModels
      modifies this`credit
      ensures Balanced()
      ensures credit == Settled(old(credit), Overtakes(order, fcfs, |fcfs|), cost)
    {
      hide CreditScheduler.Balanced, Moved, Total, ForModels;
      var i := 0;
      while i < |order|
        invariant 0 <= i <= |order| && Balanced()
        invariant credit == Settled(old(credit), Overtakes(order, fcfs, i), cost)
      {
        hide Settled;
        assert Overtakes(order, fcfs, i) + [] == Overtakes(order, fcfs, i);
        if order[i] !in fcfs {
          SettledStep(old(credit), Overtakes(order, fcfs, i), cost, (order[i].model, fcfs[i].model));
          Pay(order[i].model, fcfs[i].model, cost);
        }
        i := i + 1;
      }
    }

    method SettleLeftOut(order: seq<Group>, fcfs: seq<Group>, cost: real)
      requires Balanced() && order != [] && forall g :: g in fcfs || g in order ==> 0 <= g.model < numModels
      modifies this`credit
      ensures Balanced()
      ensures credit == Settled(old(credit), LeftOut(order, fcfs, |fcfs|), cost)
    {
      hide CreditScheduler.Balanced, Moved, Total, ForModels;
      var i := 0;
      while i < |fcfs|
        invariant 0 <= i <= |fcfs| && Balanced()
        invariant credit == Settled(old(credit), LeftOut(order, fcfs, i), cost)
      {
        hide Settled;
        assert LeftOut(order, fcfs, i) + [] == LeftOut(order, fcfs, i);
        if fcfs[i] !in order {
          SettledStep(old(credit), LeftOut(order, fcfs, i), cost, (order[0].model, fcfs[i].model));
          Pay(order[0].model, fcfs[i].model, cost);
        }
        i := i + 1;
      }
    }

    /** Groups that are in fcfs, then the others, both in order. */
    method Partition(scheduled: seq<Group>, fcfs: seq<Group>) returns (first: seq<Group>, rest: seq<Group>)
      ensures first == Among(scheduled, fcfs) && rest == NotAmong(scheduled, fcfs) && |first| + |rest| == |scheduled|
      ensures forall g :: g in first || g in rest <==> g in scheduled
    {
      first, rest := [], [];
      var i := 0;
      while i < |scheduled|
        invariant 0 <= i <= |scheduled| && |first| + |rest| == i
        invariant forall g :: g in first || g in rest <==> g in scheduled[..i]
        invariant first == Among(scheduled[..i], fcfs) && rest == NotAmong(scheduled[..i], fcfs)
      {
        assert scheduled[..i + 1] == scheduled[..i] + [scheduled[i]] && scheduled[..i + 1][..i] == scheduled[..i];
        if scheduled[i] in fcfs { first := first + [scheduled[i]]; } else { rest := rest + [scheduled[i]]; }
        i := i + 1;
      }
      assert scheduled[..|scheduled|] == scheduled;
    }

    /** A model that has earned its turn. */
    ghost predicate Qualifies(m: int)
      reads this`credit, this`previous
    {
      m in credit && credit[m] >= creditLeft && (credit[m] >= creditRight || m in previous)
    }

    /** A model that has earned its turn has a group to serve. */
    ghost predicate Entitled(queue: seq<Group>)
      reads this`credit, this`previous
    {
      exists g :: g in queue && Qualifies(g.model)
    }

    /** The models a credit pass favours: entitled ones, richest first, all of them unless the batch is full before. */
    ghost predicate Favours(queue: seq<Group>, favoured: seq<int>)
      reads this`credit, this`previous
    {
      && NoDuplicates(favoured) && (forall m :: m in favoured ==> Qualifies(m))
      && (|Line(queue, favoured)| < maxNumSeqs ==> forall m :: Qualifies(m) ==> m in favoured)
      && (forall i, j :: 0 <= i < j < |favoured| ==> CreditOf(credit, favoured[i]) >= CreditOf(credit, favoured[j]))
      && forall f, m :: f in favoured && m !in favoured && Qualifies(m) ==> CreditOf(credit, f) >= CreditOf(credit, m)
    }

    lemma NobodyPicked(queue: seq<Group>, favoured: seq<int>)
      requires forall m :: m in favoured ==> Qualifies(m)
      ensures Line(queue, favoured) != [] ==> Entitled(queue)
      ensures (forall m :: Qualifies(m) ==> m in favoured) && Entitled(queue) ==> Line(queue, favoured) != []
    {
      LineIn(queue, favoured);
      if Line(queue, favoured) != [] { assert Line(queue, favoured)[0] in queue; }
    }

    /** Serve the models that have earned it, richest first, until the batch is full. */
    method PickByCredit(queue: seq<Group>, order: seq<int>) returns (picked: seq<Group>, favoured: seq<int>, room: nat)
      requires maxNumSeqs > 0 && Queue(queue) && ByCredit(order)
      ensures PassDone(queue, picked, favoured, room)
    {
      hide CreditScheduler.PickedSoFar, CreditScheduler.FavouredSoFar, CreditScheduler.Favours, CreditScheduler.Queue;
      hide CreditScheduler.ByCredit, CreditScheduler.Entitled, CreditScheduler.Qualifies, Picked, OfModel, Line, Prefix;
      picked, favoured, room := [], [], maxNumSeqs;
      var i := 0;
      PassBegins(queue, order);
      while i < |order|
        invariant 0 <= i <= |order| && PickedSoFar(queue, order, i, picked, favoured, room)
      {
        var m := order[i];
        HasCredit(order, i);
        if credit[m] < creditLeft {
          PassEnds(queue, order, i, picked, favoured, room);
          return;
        }
        if credit[m] >= creditRight || m in previous {
          var mine := OfModel(queue, m);
          var num := if room < |mine| then room else |mine|;
          PickStep(queue, order, i, picked, favoured, room, num);
          picked, favoured, room := picked + mine[..num], favoured + [m], room - num;
          if room == 0 { return; }
          assert PickedSoFar(queue, order, i + 1, picked, favoured, room);
        } else {
          PassStep(queue, order, i, picked, favoured, room);
          assert PickedSoFar(queue, order, i + 1, picked, favoured, room);
        }
        i := i + 1;
      }
      PassEnds(queue, order, |order|, picked, favoured, room);
    }

    /** What a finished pass has picked. */
    ghost predicate PassDone(queue: seq<Group>, picked: seq<Group>, favoured: seq<int>, room: nat)
      reads this`credit, this`previous
    {
      && Picked(queue, picked) && |picked| + room == maxNumSeqs && picked == Prefix(Line(queue, favoured), maxNumSeqs)
      && Favours(queue, favoured) && (picked == [] <==> !Entitled(queue))
    }

    ghost predicate PickedSoFar(queue: seq<Group>, order: seq<int>, i: nat, picked: seq<Group>, favoured: seq<int>,
                                room: nat)
      requires i <= |order|
      reads this
    {
      && Picked(queue, picked) && |picked| + room == maxNumSeqs && room > 0 && picked == Line(queue, favoured)
      && FavouredSoFar(order, i, favoured) && forall g :: g in picked ==> g.model in order[..i]
    }

    lemma PassStep(queue: seq<Group>, order: seq<int>, i: nat, picked: seq<Group>, favoured: seq<int>, room: nat)
      requires i < |order| && PickedSoFar(queue, order, i, picked, favoured, room)
      requires order[i] in credit && credit[order[i]] < creditRight && order[i] !in previous
      ensures PickedSoFar(queue, order, i + 1, picked, favoured, room)
    {
      assert order[..i + 1] == order[..i] + [order[i]];
    }

    /** A qualifying model gets its turn; if the batch is full then, the pick is done. */
    lemma PickStep(queue: seq<Group>, order: seq<int>, i: nat, picked: seq<Group>, favoured: seq<int>, room: nat,
                   num: nat)
      requires Queue(queue) && ByCredit(order) && i < |order| && PickedSoFar(queue, order, i, picked, favoured, room)
      requires order[i] in credit && credit[order[i]] >= creditLeft
      requires credit[order[i]] >= creditRight || order[i] in previous
      requires var mine := |OfModel(queue, order[i])|; num == if room < mine then room else mine
      ensures var p, f := picked + OfModel(queue, order[i])[..num], favoured + [order[i]];
        if room == num then PassDone(queue, p, f, 0) else PickedSoFar(queue, order, i + 1, p, f, room - num)
    {
      TakeTurn(queue, order, i, picked, favoured, room, num);
      FavourStep(order, i, favoured);
      NextTurn(order, i);
      hide OfModel, Line, CreditScheduler.FavouredSoFar, CreditScheduler.ByCredit, CreditScheduler.Qualifies, Picked;
      if room == num { FavouredEnough(queue, order, i + 1, favoured + [order[i]]); }
    }

    lemma TakeTurn(queue: seq<Group>, order: seq<int>, i: nat, picked: seq<Group>, favoured: seq<int>, room: nat,
                   num: nat)
      requires Queue(queue) && ByCredit(order) && i < |order| && PickedSoFar(queue, order, i, picked, favoured, room)
      requires var mine := |OfModel(queue, order[i])|; num == if room < mine then room else mine
      ensures var p := picked + OfModel(queue, order[i])[..num]; var line := Line(queue, favoured + [order[i]]);
        && Picked(queue, p) && p == Prefix(line, maxNumSeqs) && (room > num ==> p == line)
        && (room == num ==> |line| >= maxNumSeqs) && forall g :: g in p ==> g.model in order[..i + 1]
    {
      hide OfModel, Line, NoDuplicates, CreditScheduler.FavouredSoFar;
      var m := order[i];
      NextTurn(order, i);
      OfModelIs(queue, m);
      TakeMine(queue, picked, OfModel(queue, m), num, m);
      LineGrows(queue, favoured, m, num);
      hide Picked;
    }

    lemma NextTurn(order: seq<int>, i: nat)
      requires NoDuplicates(order) && i < |order|
      ensures order[..i + 1] == order[..i] + [order[i]] && order[i] !in order[..i]
    {
    }

    lemma FavourStep(order: seq<int>, i: nat, favoured: seq<int>)
      requires ByCredit(order) && i < |order| && FavouredSoFar(order, i, favoured) && Qualifies(order[i])
      ensures FavouredSoFar(order, i + 1, favoured + [order[i]])
    {
      assert order[..i + 1] == order[..i] + [order[i]];
      forall k | 0 <= k < |favoured| ensures CreditOf(credit, favoured[k]) >= CreditOf(credit, order[i]) {
        assert favoured[k] in favoured;
        var j :| 0 <= j < i && order[..i][j] == favoured[k];
        assert order[j] == favoured[k];
      }
    }

    /** The qualifying models among the first i of the order, in order. */
    ghost predicate FavouredSoFar(order: seq<int>, i: nat, favoured: seq<int>)
      requires i <= |order|
      reads this
    {
      && NoDuplicates(favoured) && (forall m :: m in favoured <==> m in order[..i] && Qualifies(m))
      && forall k, l :: 0 <= k < l < |favoured| ==> CreditOf(credit, favoured[k]) >= CreditOf(credit, favoured[l])
    }

    lemma PassBegins(queue: seq<Group>, order: seq<int>)
      requires maxNumSeqs > 0
      ensures PickedSoFar(queue, order, 0, [], [], maxNumSeqs)
    {
    }

    lemma HasCredit(order: seq<int>, i: nat)
      requires ByCredit(order) && i < |order|
      ensures order[i] in credit
    {
      assert order[i] in order;
    }

    /** A pass ends where no further model can qualify. */
    lemma PassEnds(queue: seq<Group>, order: seq<int>, i: nat, picked: seq<Group>, favoured: seq<int>, room: nat)
      requires ByCredit(order) && i <= |order| && PickedSoFar(queue, order, i, picked, favoured, room)
      requires i < |order| ==> order[i] in credit && credit[order[i]] < creditLeft
      ensures PassDone(queue, picked, favoured, room)
    {
      if i < |order| { PoorFromHere(order, i); } else { assert order[..i] == order; }
      FavouredEnough(queue, order, i, favoured);
    }

    /** The pass has seen every model that qualifies, or filled the batch. */
    lemma FavouredEnough(queue: seq<Group>, order: seq<int>, i: nat, favoured: seq<int>)
      requires ByCredit(order) && i <= |order| && FavouredSoFar(order, i, favoured) && maxNumSeqs > 0
      requires |Line(queue, favoured)| >= maxNumSeqs || forall m :: Qualifies(m) ==> m in order[..i]
      ensures Favours(queue, favoured) && (Prefix(Line(queue, favoured), maxNumSeqs) == [] <==> !Entitled(queue))
    {
      NobodyPicked(queue, favoured);
      forall f, m | f in favoured && m !in favoured && Qualifies(m) ensures CreditOf(credit, f) >= CreditOf(credit, m) {
        assert m in order && m !in order[..i] && f in order[..i];
        var k :| 0 <= k < |order| && order[k] == m;
        var j :| 0 <= j < i && order[..i][j] == f;
        assert order[j] == f;
      }
    }

    lemma PoorFromHere(order: seq<int>, i: nat)
      requires ByCredit(order) && i < |order| && order[i] in credit && credit[order[i]] < creditLeft
      ensures forall m :: Qualifies(m) ==> m in order[..i]
    {
      forall k | i <= k < |order| ensures order[k] in credit && credit[order[k]] < creditLeft {
        assert order[k] in order;
      }
      forall m | Qualifies(m) ensures m in order[..i] {
        assert m in order;
        var k :| 0 <= k < |order| && order[k] == m;
        assert order[..i][k] == m;
      }
    }

    /** The models by decreasing credit. */
    ghost predicate ByCredit(order: seq<int>)
      reads this
    {
      && NoDuplicates(order) && (forall m :: m in order <==> m in credit)
      && forall i, j :: 0 <= i < j < |order| ==> CreditOf(credit, order[i]) >= CreditOf(credit, order[j])
    }

    /** Fill the rest of the batch in arrival order. */
    method FillByArrival(queue: seq<Group>, picked: seq<Group>, fcfs: seq<Group>, room: nat)
      returns (scheduled: seq<Group>)
      requires Queue(queue) && Picked(queue, picked) && |picked| + room == maxNumSeqs && room > 0
      requires fcfs == Prefix(queue, maxNumSeqs)
      ensures Picked(queue, scheduled) && |scheduled| == |fcfs|
      ensures scheduled == picked + Prefix(NotAmong(fcfs, picked), room)
    {
      scheduled := picked;
      var left, i := room, 0;
      assert fcfs[..0] == [];
      while i < |fcfs|
        invariant 0 <= i <= |fcfs| && |scheduled| + left == maxNumSeqs && left > 0
        invariant scheduled == picked + NotAmong(fcfs[..i], picked)
      {
        NotAmongStep(fcfs, picked, i);
        if fcfs[i] !in scheduled {
          scheduled, left := scheduled + [fcfs[i]], left - 1;
          assert scheduled == picked + NotAmong(fcfs[..i + 1], picked);
          if left == 0 {
            NotAmongPrefix(fcfs, picked, i + 1);
            FilledIsPicked(queue, picked, fcfs, i + 1, maxNumSeqs);
            return;
          }
        }
        i := i + 1;
      }
      assert fcfs[..|fcfs|] == fcfs;
      FilledIsPicked(queue, picked, fcfs, |fcfs|, maxNumSeqs);
    }

    /** No solvent model has more queued groups, and none with a lower number as many. */
    ghost predicate IsLongest(queue: seq<Group>, best: int)
      reads this`credit
    {
      && 0 <= best < numModels && best in credit && credit[best] >= creditBase
      && (forall m :: 0 <= m < numModels && m in credit && credit[m] >= creditBase ==>
           |OfModel(queue, m)| <= |OfModel(queue, best)|)
      && forall m :: 0 <= m < best && m in credit && credit[m] >= creditBase ==>
          |OfModel(queue, m)| < |OfModel(queue, best)|
    }

    /** The solvent model with the most queued groups, lowest number first: the head of the sorted dictionary. */
    method LongestSolvent(queue: seq<Group>) returns (best: int)
      requires Valid() && Queue(queue)
      ensures IsLongest(queue, best)
    {
      TotalNotNegative();
      SomeoneSolvent(credit, numModels);
      best := -1;
      var m := 0;
      while m < numModels
        invariant 0 <= m <= numModels && -1 <= best < m
        invariant best == -1 ==> forall k :: 0 <= k < m ==> credit[k] < creditBase
        invariant best >= 0 ==> credit[best] >= creditBase
        invariant best >= 0 ==>
          forall k :: 0 <= k < m && credit[k] >= creditBase ==> |OfModel(queue, k)| <= |OfModel(queue, best)|
        invariant best >= 0 ==>
          forall k :: 0 <= k < best && credit[k] >= creditBase ==> |OfModel(queue, k)| < |OfModel(queue, best)|
      {
        if credit[m] >= creditBase && (best == -1 || |OfModel(queue, m)| > |OfModel(queue, best)|) { best := m; }
        m := m + 1;
      }
    }

    lemma TotalNotNegative()
      requires Valid()
      ensures Total(credit, numModels) >= 0.0
    {
    }

    /** What the choice between merged and unmerged steps is based on. */
    ghost function Reading(): Meter
      reads this`merged, this`mergeLeft, this`mergeRight, this`numIters, this`mergeBatchCnt, this`unmergeBatchCnt
      reads this`virtualSwitchCnt, this`maxModel
    {
      Meter(merged, mergeLeft, mergeRight, numIters, mergeBatchCnt, unmergeBatchCnt, virtualSwitchCnt, maxModel)
    }

    /**
     Additive-increase, multiplicative-decrease of the merge thresholds; they stay apart and positive.  The
     threshold of the present mode moves towards the faster mode.
     */
    method AdjustMergeThreshold(c: Costs)
      requires Valid() && c.Positive()
      modifies this`mergeLeft, this`mergeRight, this`mergeBatchCnt, this`unmergeBatchCnt, this`virtualSwitchCnt
      modifies this`maxModel
      ensures Valid() && Reading() == old(Reading()).Adjusted(c)
    {
      if numIters == 0 { return; }
      var tputMerge, tputUnmerge := Throughputs(c);
      hide Meter.MergedIsFaster, Meter.UnmergedIsFaster, CreditScheduler.Balanced;
      if merged {
        if tputMerge > tputUnmerge && mergeRight - 0.05 > mergeLeft {
          mergeRight := mergeRight - 0.05;
        } else if tputMerge < tputUnmerge {
          mergeRight := mergeRight * 1.1;
        }
      } else {
        if tputUnmerge > tputMerge && mergeLeft + 0.05 < mergeRight {
          mergeLeft := mergeLeft + 0.05;
        } else if tputUnmerge < tputMerge {
          mergeLeft := mergeLeft / 1.1;
        }
      }
      mergeBatchCnt, unmergeBatchCnt, virtualSwitchCnt, maxModel := 0, 0, 0, -1;
    }

    /** Groups served per second in either mode. */
    method Throughputs(c: Costs) returns (tputMerge: real, tputUnmerge: real)
      requires numIters > 0 && c.Positive()
      ensures tputMerge > tputUnmerge <==> Reading().MergedIsFaster(c)
      ensures tputMerge < tputUnmerge <==> Reading().UnmergedIsFaster(c)
    {
      var tMerge, tUnmerge := c.merge * numIters as real, c.unmerge * numIters as real;
      ProductPositive(c.merge, numIters as real);
      ProductPositive(c.unmerge, numIters as real);
      if merged {
        tMerge := tMerge + c.switch;
      } else {
        tUnmerge := tUnmerge + c.switch;
        SwitchTime(c.switch, virtualSwitchCnt);
        tMerge := tMerge + c.switch * virtualSwitchCnt as real;
      }
      assert tMerge == Reading().MergedTime(c) && tUnmerge == Reading().UnmergedTime(c);
      hide Times, Meter.MergedTime, Meter.UnmergedTime;
      tputMerge, tputUnmerge := mergeBatchCnt as real / tMerge, unmergeBatchCnt as real / tUnmerge;
      Throughput(mergeBatchCnt as real, tMerge, unmergeBatchCnt as real, tUnmerge);
    }

    /** A queue long enough for a positive threshold is not empty. */
    lemma LongEnough(queue: seq<Group>, fcfs: seq<Group>, m: int, threshold: real)
      requires Queue(queue) && fcfs != [] && OnlyFrom(queue, fcfs)
      requires threshold > 0.0 && |OfModel(queue, m)| as real >= threshold * |fcfs| as real
      ensures OfModel(queue, m) != [] && OnlyFrom(queue, OfModel(queue, m))
      ensures forall g :: g in fcfs || g in OfModel(queue, m) ==> 0 <= g.model < numModels
    {
      OfModelIs(queue, m);
      hide OfModel;
      Served(threshold, |fcfs|, |OfModel(queue, m)|);
    }

    lemma Keepable(queue: seq<Group>, fcfs: seq<Group>, m: int)
      requires Valid() && Queue(queue) && fcfs != [] && OnlyFrom(queue, fcfs) && CanKeep(queue, m, |fcfs|)
      ensures OfModel(queue, m) != [] && OnlyFrom(queue, OfModel(queue, m))
      ensures forall g :: g in fcfs || g in OfModel(queue, m) ==> 0 <= g.model < numModels
    {
      LongEnough(queue, fcfs, m, mergeLeft);
    }

    lemma Mergeable(queue: seq<Group>, fcfs: seq<Group>, m: int)
      requires Valid() && Queue(queue) && fcfs != [] && OnlyFrom(queue, fcfs) && IsLarge(queue, m, |fcfs|)
      ensures var batch := Prefix(OfModel(queue, m), maxNumSeqs);
        batch != [] && OnlyFrom(queue, batch) && forall g :: g in fcfs || g in batch ==> 0 <= g.model < numModels
    {
      LongEnough(queue, fcfs, m, mergeRight);
    }

    /** The credit after a batch of one model has been served in place of the arrivals. */
    ghost function AfterBatch(before: Credit, scheduled: seq<Group>, fcfs: seq<Group>): Credit
      requires |scheduled| == |fcfs| || scheduled != []
    {
      Settled(before, Transfers(scheduled, fcfs),
              if |fcfs| == |scheduled| then batchCreditCost else batchCreditCost / 2.0)
    }

    /** Another step of the model merged now; every queued group of it. */
    method KeepMerged(queue: seq<Group>, fcfs: seq<Group>) returns (scheduled: seq<Group>, ok: bool)
      requires Valid() && Queue(queue) && fcfs != [] && OnlyFrom(queue, fcfs) && |active| == 1
      requires CanKeep(queue, active[0], |fcfs|)
      modifies this`credit, this`numIters
      ensures Valid() && (ok <==> merged || numModels == 1)
      ensures scheduled == OfModel(queue, active[0]) && OnlyFrom(queue, scheduled) && scheduled != []
      ensures if ok then credit == AfterBatch(old(credit), scheduled, fcfs) && Reading() == old(Reading()).Kept()
              else credit == old(credit) && Reading() == old(Reading())
    {
      hide Transfers, Settled, CreditScheduler.Balanced, CreditScheduler.CanKeep, CreditScheduler.Queue, OnlyFrom,
        OfModel;
      Keepable(queue, fcfs, active[0]);
      scheduled, ok := OfModel(queue, active[0]), merged || numModels == 1;
      if !ok { return; }
      numIters := numIters + 1;
      ok := AdjustCredit(fcfs, scheduled, batchCreditCost);
    }

    /** Merge the longest solvent queue's model and serve a batch of it. */
    method MergeLongest(queue: seq<Group>, fcfs: seq<Group>, best: int, c: Costs)
      returns (scheduled: seq<Group>, ok: bool)
      requires Valid() && Queue(queue) && fcfs != [] && OnlyFrom(queue, fcfs) && c.Positive()
      requires IsLarge(queue, best, |fcfs|)
      modifies this`mergeLeft, this`mergeRight, this`mergeBatchCnt, this`unmergeBatchCnt, this`virtualSwitchCnt
      modifies this`maxModel
      modifies this`merged, this`numIters, this`active, this`modelsInGpu, this`credit
      ensures ok && Valid() && active == [best] && modelsInGpu == Joined(old(modelsInGpu), best)
      ensures Reading() == old(Reading()).Merging(c)
      ensures scheduled == Prefix(OfModel(queue, best), maxNumSeqs) && OnlyFrom(queue, scheduled) && scheduled != []
      ensures credit == AfterBatch(old(credit), scheduled, fcfs)
    {
      hide OfModel, Transfers, Settled, CreditScheduler.Balanced, CreditScheduler.Queue, CreditScheduler.IsLarge,
        OnlyFrom;
      Mergeable(queue, fcfs, best);
      scheduled := Prefix(OfModel(queue, best), maxNumSeqs);
      hide Prefix;
      SwitchTo(best, c);
      ok := AdjustCredit(fcfs, scheduled, batchCreditCost);
    }

    method SwitchTo(best: int, c: Costs)
      requires Valid() && c.Positive()
      modifies this`mergeLeft, this`mergeRight, this`mergeBatchCnt, this`unmergeBatchCnt, this`virtualSwitchCnt
      modifies this`maxModel
      modifies this`merged, this`numIters, this`active, this`modelsInGpu
      ensures Valid() && active == [best] && modelsInGpu == Joined(old(modelsInGpu), best)
      ensures Reading() == old(Reading()).Merging(c)
    {
      AdjustMergeThreshold(c);
      merged, numIters, active := true, 1, [best];
      if best !in modelsInGpu {
        modelsInGpu := modelsInGpu[0 := best];
        assert modelsInGpu[0] == best;
      }
    }

    /** Not worth merging: serve by arrival, noting which model would have been merged. */
    method ByArrival(best: int)
      requires Valid()
      modifies this`virtualSwitchCnt, this`maxModel
      ensures Valid() && Reading() == old(Reading()).Noted(best)
    {
      if maxModel != best { virtualSwitchCnt, maxModel := virtualSwitchCnt + 1, best; }
    }

    /** No model has enough credit: keep the merged model, merge the longest queue, or serve by arrival. */
    method ByBatch(queue: seq<Group>, fcfs: seq<Group>, c: Costs)
      returns (scheduled: seq<Group>, byBatch: seq<Group>, toMerge: bool, ok: bool, best: int)
      requires Valid() && Queue(queue) && fcfs != [] && OnlyFrom(queue, fcfs) && c.Positive()
      modifies this`mergeLeft, this`mergeRight, this`mergeBatchCnt, this`unmergeBatchCnt, this`virtualSwitchCnt
      modifies this`maxModel
      modifies this`merged, this`numIters, this`active, this`modelsInGpu, this`credit
      ensures Valid() && |modelsInGpu| == |old(modelsInGpu)| && (ok && toMerge ==> merged || numModels == 1)
      ensures scheduled == (if toMerge then byBatch else fcfs) && (ok ==> scheduled != [])
      ensures ok ==> OnlyFrom(queue, scheduled)
      ensures old(IsLongest(queue, best))
      ensures var keep := old(Keeps(queue, |fcfs|)); var large := old(IsLarge(queue, best, |fcfs|));
        && (toMerge <==> keep || large) && (ok <==> !keep || old(merged) || numModels == 1)
        && byBatch == (if keep then OfModel(queue, old(active)[0]) else Prefix(OfModel(queue, best), maxNumSeqs))
        && (ok && toMerge ==> byBatch != [] && credit == AfterBatch(old(credit), byBatch, fcfs))
        && (keep ==> old(active) != []) && (if keep || !large then merged == old(merged) else merged)
        && (ok && keep ==>
             Reading() == old(Reading()).Kept() && active == old(active) && modelsInGpu == old(modelsInGpu))
        && (!keep && large ==>
              && Reading() == old(Reading()).Merging(c) && active == [best]
              && modelsInGpu == Joined(old(modelsInGpu), best))
        && (!keep && !large ==>
              Reading() == old(Reading()).Noted(best) && credit == old(credit) && modelsInGpu == old(modelsInGpu))
    {
      best := LongestSolvent(queue);
      byBatch := Prefix(OfModel(queue, best), maxNumSeqs);
      toMerge, ok := true, true;
      hide OfModel, OnlyFrom, CreditScheduler.Balanced, CreditScheduler.Modes, CreditScheduler.Queue,
        CreditScheduler.IsLongest, CreditScheduler.IsLarge, CreditScheduler.CanKeep, CreditScheduler.AfterBatch;
      if Keeps(queue, |fcfs|) {
        byBatch, ok := KeepMerged(queue, fcfs);
      } else if IsLarge(queue, best, |fcfs|) {
        byBatch, ok := MergeLongest(queue, fcfs, best, c);
      } else {
        ByArrival(best);
        toMerge := false;
      }
      scheduled := if toMerge then byBatch else fcfs;
    }

    /** The one active model is solvent and has enough queued groups. */
    predicate CanKeep(queue: seq<Group>, m: int, fcfs: nat): (can: bool)
      reads this`credit, this`mergeLeft
      ensures can <==>
        m in credit && creditBase <= credit[m] && mergeLeft * fcfs as real <= |Positions(queue, m)| as real
    {
      OfModelCount(queue, m);
      m in credit && credit[m] >= creditBase && |OfModel(queue, m)| as real >= mergeLeft * fcfs as real
    }

    /** Enough groups of one model to merge it. */
    predicate IsLarge(queue: seq<Group>, m: int, fcfs: nat): (large: bool)
      reads this`mergeRight
      ensures large <==> mergeRight * fcfs as real <= |Positions(queue, m)| as real
    {
      OfModelCount(queue, m);
      |OfModel(queue, m)| as real >= mergeRight * fcfs as real
    }

    predicate Keeps(queue: seq<Group>, fcfs: nat)
      reads this`credit, this`mergeLeft, this`active
    {
      |active| == 1 && CanKeep(queue, active[0], fcfs)
    }

    method CountBatch(batch: nat, fcfs: nat)
      modifies this`mergeBatchCnt, this`unmergeBatchCnt
      ensures Reading() == old(Reading()).Counted(batch, fcfs, maxNumSeqs)
    {
      mergeBatchCnt := mergeBatchCnt + (if batch < maxNumSeqs then batch else maxNumSeqs);
      unmergeBatchCnt := unmergeBatchCnt + (if fcfs < maxNumSeqs then fcfs else maxNumSeqs);
    }

    /** The groups of the first gpuCapacity models; groups of further models sit the step out. */
    method WithinCapacity(scheduled: seq<Group>) returns (kept: seq<Group>, models: set<int>)
      ensures FirstModels(scheduled, models, gpuCapacity) && kept == OfModels(scheduled, models)
      ensures scheduled != [] && gpuCapacity > 0 ==> kept != []
    {
      hide FirstModels, OfModels, KeptSoFar;
      kept, models := [], {};
      var i := 0;
      KeptNone(gpuCapacity);
      assert scheduled[..0] == [];
      while i < |scheduled|
        invariant 0 <= i <= |scheduled| && KeptSoFar(scheduled[..i], models, gpuCapacity, kept)
      {
        var g := scheduled[i];
        KeptStep(scheduled, i, models, gpuCapacity, kept);
        if g.model in models {
          assert models + {g.model} == models;
          kept := kept + [g];
        } else if |models| < gpuCapacity {
          models := models + {g.model};
          kept := kept + [g];
        }
        i := i + 1;
      }
      assert scheduled[..|scheduled|] == scheduled;
      KeptAll(scheduled, models, gpuCapacity, kept);
    }

    /** The models of a step are resident, in place of the least requested of those that do not run. */
    ghost predicate Placed(was: seq<int>, models: set<int>, reqCnt: int -> int, now: seq<int>) {
      && NoDuplicates(now) && |now| == |was| && (forall i, j :: 0 <= i < j < |now| ==> now[i] <= now[j])
      && (forall m :: m in models ==> m in now) && (forall m :: m in now ==> m in models || m in was)
      && forall m, k :: m in was && m !in now && k in now && k !in models ==> reqCnt(m) <= reqCnt(k)
    }

    /** The merged model takes slot 0 if it is not resident. */
    ghost function Joined(gpu: seq<int>, best: int): seq<int>
      requires gpu != []
    {
      if best in gpu then gpu else gpu[0 := best]
    }

    /** Bring every model of the step onto the GPU, in place of the least requested models that do not run. */
    method PlaceModels(models: set<int>, reqCnt: int -> int)
      requires NoDuplicates(modelsInGpu) && |models| <= |modelsInGpu|
      modifies this`modelsInGpu
      ensures Placed(old(modelsInGpu), models, reqCnt, modelsInGpu)
    {
      hide CreditScheduler.Placed;
      var gpu := Sort(modelsInGpu, ByKey(reqCnt));
      SortedDistinct(modelsInGpu, gpu, ByKey(reqCnt));
      ghost var ranked := gpu;
      var todo, idx := models, 0;
      while exists m :: m in todo
        invariant todo <= models && NoDuplicates(gpu) && |gpu| == |old(modelsInGpu)| && 0 <= idx <= |gpu|
        invariant (forall m :: m in models - todo ==> m in gpu) && forall k :: 0 <= k < idx ==> gpu[k] in models
        invariant forall m :: m in gpu ==> m in models || m in old(modelsInGpu)
        invariant Displaced(ranked, gpu, models, idx)
        decreases |todo|
      {
        var m :| m in todo;
        if m !in gpu {
          hide Displaced;
          SlotLeft(gpu, models, m, idx);
          while gpu[idx] in models
            invariant 0 <= idx < |gpu| && (forall k :: 0 <= k < idx ==> gpu[k] in models)
            invariant Displaced(ranked, gpu, models, idx)
            decreases |gpu| - idx
          {
            SlotLeft(gpu, models, m, idx + 1);
            DisplacedPass(ranked, gpu, models, idx);
            idx := idx + 1;
          }
          Replaced(gpu, models, idx, m);
          DisplacedStep(ranked, gpu, models, idx, m);
          gpu := gpu[idx := m];
          idx := idx + 1;
        }
        todo := todo - {m};
      }
      var byNumber := ByKey((m: int) => m);
      var placed := Sort(gpu, byNumber);
      SortedDistinct(gpu, placed, byNumber);
      assert forall i, j :: 0 <= i < j < |placed| ==> byNumber(placed[i], placed[j]);
      AllPlaced(old(modelsInGpu), ranked, gpu, models, idx, reqCnt, placed);
      modelsInGpu := placed;
    }

    lemma AllPlaced(was: seq<int>, ranked: seq<int>, gpu: seq<int>, models: set<int>, idx: nat, reqCnt: int -> int,
                    now: seq<int>)
      requires NoDuplicates(gpu) && |gpu| == |was| && NoDuplicates(now) && |now| == |gpu|
      requires (forall m :: m in now <==> m in gpu) && forall i, j :: 0 <= i < j < |now| ==> now[i] <= now[j]
      requires Ascending(ranked, ByKey(reqCnt)) && (forall m :: m in ranked <==> m in was)
      requires Displaced(ranked, gpu, models, idx) && forall k :: 0 <= k < idx ==> gpu[k] in models
      requires (forall m :: m in models ==> m in gpu) && forall m :: m in gpu ==> m in models || m in was
      ensures Placed(was, models, reqCnt, now)
    {
      LeastRequested(ranked, gpu, models, idx, reqCnt);
      hide Displaced, NoDuplicates;
    }

    /** Models with enough credit go first; arrival order fills the rest.  The assertion in AdjustCredit cannot fire. */
    method ByCreditFirst(queue: seq<Group>, picked: seq<Group>, fcfs: seq<Group>, room: nat)
      returns (scheduled: seq<Group>)
      requires Valid() && Queue(queue) && Picked(queue, picked) && |picked| + room == maxNumSeqs
      requires fcfs == Prefix(queue, maxNumSeqs)
      modifies this`credit
      ensures Valid() && Picked(queue, scheduled) && |scheduled| == |fcfs|
      ensures scheduled == picked + Prefix(NotAmong(fcfs, picked), room)
      ensures credit == Settled(old(credit), Transfers(scheduled, fcfs), creditCost)
    {
      if room == 0 {
        scheduled := picked;
        SameSize(queue, scheduled, fcfs, maxNumSeqs);
        assert Prefix(NotAmong(fcfs, picked), 0) == [];
      } else {
        scheduled := FillByArrival(queue, picked, fcfs, room);
      }
      var ok := AdjustCredit(fcfs, scheduled, creditCost);
      assert ok;
    }

    /** More models to serve than the GPU has slots, under a capacity that lets them all through. */
    ghost predicate Overflows(s: seq<Group>, slots: nat) { slots < gpuCapacity && slots < |ModelsIn(s)| }

    /** The end of a step that is not merged: at most gpuCapacity models, all of them on the GPU. */
    method ServeUnmerged(scheduled: seq<Group>, reqCnt: int -> int, c: Costs) returns (r: Outcome)
      requires Valid() && c.Positive()
      modifies this`mergeLeft, this`mergeRight, this`mergeBatchCnt, this`unmergeBatchCnt, this`virtualSwitchCnt
      modifies this`maxModel
      modifies this`merged, this`numIters, this`active, this`modelsInGpu
      ensures Balanced() && (r.Scheduled? ==> Valid() && !merged && Resident(r.groups, modelsInGpu))
      ensures r.Scheduled? ==>
        active == modelsInGpu && OnlyFrom(scheduled, r.groups) && OfFirst(scheduled, r.groups, gpuCapacity)
      ensures r.Scheduled? && scheduled != [] && gpuCapacity > 0 ==> r.groups != []
      ensures (r.AssertionFailed? <==> Overflows(scheduled, |old(modelsInGpu)|)) && |modelsInGpu| == |old(modelsInGpu)|
      ensures r.Scheduled? ==> Reading() == old(Reading()).Unmerging(c)
      ensures r.Scheduled? ==> Placed(old(modelsInGpu), ModelsIn(r.groups), reqCnt, modelsInGpu)
    {
      if merged { AdjustMergeThreshold(c); }
      var kept, models := WithinCapacity(scheduled);
      OfModelsIn(scheduled, models);
      KeptModels(scheduled, models, gpuCapacity);
      FirstModelsCount(scheduled, models, gpuCapacity);
      if |models| > |modelsInGpu| { return AssertionFailed; }
      numIters := if merged then 1 else numIters + 1;
      merged := false;
      PlaceModels(models, reqCnt);
      active := modelsInGpu;
      r := Scheduled(kept);
    }

    /** What a credit step serves: the favoured models' groups, then arrivals while there is room. */
    ghost function CreditBatch(queue: seq<Group>, favoured: seq<int>): seq<Group> {
      var fcfs, picked := Prefix(queue, maxNumSeqs), Prefix(Line(queue, favoured), maxNumSeqs);
      picked + Prefix(NotAmong(fcfs, picked), maxNumSeqs - |picked|)
    }

    /** A step that served s on credit, in place of the arrivals; it fails exactly when s overflows the slots. */
    ghost predicate CreditStep(s: seq<Group>, fcfs: seq<Group>, gpu: seq<int>, reqCnt: int -> int, before: Credit,
                               r: Outcome)
      reads this`credit, this`merged, this`active, this`modelsInGpu
    {
      && |s| == |fcfs| && credit == Settled(before, Transfers(s, fcfs), creditCost)
      && (r.AssertionFailed? <==> Overflows(s, |gpu|)) && (r.Scheduled? ==> Unmerged(s, r.groups, gpu, reqCnt))
    }

    /**
     A step without credit: all groups of the merged model if it is kept, else a batch of the longest queue if that is
     large, paying for the arrivals left out; else the arrivals.  Keeping fails the assertion on the mode exactly
     when nothing is merged among several models, serving arrivals exactly when they overflow the slots.
     */
    ghost predicate BatchStep(queue: seq<Group>, fcfs: seq<Group>, best: int, keep: bool, large: bool, wasMerged: bool,
                              wasActive: seq<int>, gpu: seq<int>, reqCnt: int -> int, before: Credit, r: Outcome)
      requires gpu != []
      reads this`credit, this`merged, this`active, this`modelsInGpu
    {
      if keep || large then
        && (r.Scheduled? <==> !keep || wasMerged || numModels == 1)
        && (r.Scheduled? && keep ==> wasActive != [] && r.groups == OfModel(queue, wasActive[0]))
        && (r.Scheduled? && !keep ==> r.groups == Prefix(OfModel(queue, best), maxNumSeqs))
        && (r.Scheduled? ==> r.groups != [] && credit == AfterBatch(before, r.groups, fcfs))
        && (r.Scheduled? && keep ==> merged == wasMerged && active == wasActive && modelsInGpu == gpu)
        && (!keep ==> merged && active == [best] && modelsInGpu == Joined(gpu, best))
      else
        && credit == before && (r.AssertionFailed? <==> Overflows(fcfs, |gpu|))
        && (r.Scheduled? ==> Unmerged(fcfs, r.groups, gpu, reqCnt))
    }

    /** The steps without credit that fail: nothing is merged to be kept, or the arrivals overflow the slots. */
    ghost predicate BatchFails(queue: seq<Group>, fcfs: seq<Group>, best: int)
      reads this
    {
      if Keeps(queue, |fcfs|) then !merged && numModels > 1
      else !IsLarge(queue, best, |fcfs|) && Overflows(fcfs, |modelsInGpu|)
    }

    /** Entitled models' groups, then arrivals. */
    method WithCredit(queue: seq<Group>, picked: seq<Group>, fcfs: seq<Group>, room: nat, reqCnt: int -> int, c: Costs)
      returns (r: Outcome)
      requires Valid() && Queue(queue) && Picked(queue, picked) && picked != [] && |picked| + room == maxNumSeqs
      requires c.Positive()
      requires fcfs == Prefix(queue, maxNumSeqs)
      modifies this`mergeLeft, this`mergeRight, this`mergeBatchCnt, this`unmergeBatchCnt, this`virtualSwitchCnt
      modifies this`maxModel
      modifies this`merged, this`numIters, this`active, this`modelsInGpu, this`credit
      ensures Balanced()
      ensures r.Scheduled? ==> Valid() && OnlyFrom(queue, r.groups) && (gpuCapacity > 0 ==> r.groups != [])
      ensures |modelsInGpu| == |old(modelsInGpu)|
      ensures CreditStep(picked + Prefix(NotAmong(fcfs, picked), room), fcfs, old(modelsInGpu), reqCnt, old(credit), r)
      ensures r.Scheduled? ==> Reading() == old(Reading()).Unmerging(c)
      ensures r.AssertionFailed? <==> Overflows(picked + Prefix(NotAmong(fcfs, picked), room), |old(modelsInGpu)|)
    {
      hide CreditScheduler.Balanced, CreditScheduler.Modes, NotAmong, Transfers, Settled, OfFirst,
        CreditScheduler.Overflows;
      var scheduled := ByCreditFirst(queue, picked, fcfs, room);
      assert OnlyFrom(queue, scheduled) && scheduled != [];
      hide Picked, Prefix;
      r := ServeUnmerged(scheduled, reqCnt, c);
    }

    /** No model is entitled: a batch of one model, or arrivals. */
    method WithoutCredit(queue: seq<Group>, fcfs: seq<Group>, reqCnt: int -> int, c: Costs)
      returns (r: Outcome, best: int)
      requires Valid() && Queue(queue) && fcfs != [] && OnlyFrom(queue, fcfs) && c.Positive()
      modifies this`mergeLeft, this`mergeRight, this`mergeBatchCnt, this`unmergeBatchCnt, this`virtualSwitchCnt
      modifies this`maxModel
      modifies this`merged, this`numIters, this`active, this`modelsInGpu, this`credit
      ensures Balanced()
      ensures r.Scheduled? ==> Valid() && OnlyFrom(queue, r.groups) && (gpuCapacity > 0 ==> r.groups != [])
      ensures |modelsInGpu| == |old(modelsInGpu)|
      ensures old(IsLongest(queue, best))
      ensures r.AssertionFailed? <==> old(BatchFails(queue, fcfs, best))
      ensures BatchStep(queue, fcfs, best, old(Keeps(queue, |fcfs|)), old(IsLarge(queue, best, |fcfs|)),
        old(merged), old(active), old(modelsInGpu), reqCnt, old(credit), r)
      ensures r.Scheduled? ==>
        var keep, large := old(Keeps(queue, |fcfs|)), old(IsLarge(queue, best, |fcfs|));
        Reading() == BatchReading(old(Reading()), queue, |fcfs|, best, keep, large, old(active), c)
    {
      var scheduled, byBatch, toMerge, ok;
      assert numModels > 0;
      hide OfModel, OfFirst, CreditScheduler.Balanced, CreditScheduler.Modes, CreditScheduler.Queue,
        CreditScheduler.IsLongest, CreditScheduler.CanKeep, CreditScheduler.IsLarge, CreditScheduler.AfterBatch,
        CreditScheduler.Overflows, CreditScheduler.Reading, Meter.Kept, Meter.Counted, Meter.Merging, Meter.Noted,
        Meter.Unmerging, CreditScheduler.Placed, CreditScheduler.Joined, ModelsIn, Resident, Prefix,
        CreditScheduler.Keeps;
      scheduled, byBatch, toMerge, ok, best := ByBatch(queue, fcfs, c);
      if !ok { return AssertionFailed, best; }
      CountBatch(|byBatch|, |fcfs|);
      if toMerge { return Scheduled(scheduled), best; }
      r := ServeUnmerged(scheduled, reqCnt, c);
    }

    /** Every step without credit counts what either mode would have served. */
    ghost function BatchReading(x: Meter, queue: seq<Group>, fcfs: nat, best: int, keep: bool, large: bool,
                                wasActive: seq<int>, c: Costs): Meter {
      var n := if keep && wasActive != [] then |OfModel(queue, wasActive[0])|
               else |Prefix(OfModel(queue, best), maxNumSeqs)|;
      if keep then x.Kept().Counted(n, fcfs, maxNumSeqs)
      else if large then x.Merging(c).Counted(n, fcfs, maxNumSeqs)
      else x.Noted(best).Counted(n, fcfs, maxNumSeqs).Unmerging(c)
    }

    /** An unmerged step: the groups of the first models that fit on the GPU, all of them placed there. */
    ghost predicate Unmerged(s: seq<Group>, groups: seq<Group>, gpu: seq<int>, reqCnt: int -> int)
      reads this`merged, this`active, this`modelsInGpu
    {
      && !merged && active == modelsInGpu && OfFirst(s, groups, gpuCapacity) && Resident(groups, modelsInGpu)
      && Placed(gpu, ModelsIn(groups), reqCnt, modelsInGpu)
    }

    lemma Sizes()
      requires Modes()
      ensures maxNumSeqs > 0 && numModels > 0 && modelsInGpu != []
    {
    }

    lemma AllOnce(queue: seq<Group>, favoured: seq<int>)
      requires Queue(queue) && Favours(queue, favoured)
      ensures NoDuplicates(queue) && NoDuplicates(favoured)
    {
    }

    /** A credit step serves each model in queue order. */
    lemma CreditInOrder(queue: seq<Group>, favoured: seq<int>, fcfs: seq<Group>, gpu: seq<int>, reqCnt: int -> int,
                        before: Credit, r: Outcome)
      requires NoDuplicates(queue) && NoDuplicates(favoured) && fcfs == Prefix(queue, maxNumSeqs)
      requires CreditStep(CreditBatch(queue, favoured), fcfs, gpu, reqCnt, before, r)
      ensures r.Scheduled? ==> FirstServed(queue, r.groups)
    {
      hide Prefix, Line, NotAmong, OfFirst, FirstServed, FromTheFront, Transfers, Settled, CreditScheduler.Overflows;
      if r.Scheduled? {
        CreditFromTheFront(queue, favoured, maxNumSeqs);
        KeptFromTheFront(queue, CreditBatch(queue, favoured), gpuCapacity, r.groups);
        FrontIsFirst(queue, r.groups);
      }
    }

    /** So does a step without credit. */
    lemma BatchInOrder(queue: seq<Group>, fcfs: seq<Group>, best: int, keep: bool, large: bool, wasMerged: bool,
                       wasActive: seq<int>, gpu: seq<int>, reqCnt: int -> int, before: Credit, r: Outcome)
      requires gpu != [] && NoDuplicates(queue) && fcfs == Prefix(queue, maxNumSeqs)
      requires BatchStep(queue, fcfs, best, keep, large, wasMerged, wasActive, gpu, reqCnt, before, r)
      ensures r.Scheduled? ==> FirstServed(queue, r.groups)
    {
      hide Prefix, OfModel, OfFirst, FirstServed, FromTheFront, CreditScheduler.AfterBatch, CreditScheduler.Overflows;
      if r.Scheduled? {
        HeadFromTheFront(queue, maxNumSeqs);
        if keep {
          ModelFromTheFront(queue, wasActive[0], maxNumSeqs);
        } else if large {
          ModelFromTheFront(queue, best, maxNumSeqs);
        } else {
          KeptFromTheFront(queue, fcfs, gpuCapacity, r.groups);
        }
        FrontIsFirst(queue, r.groups);
      }
    }

    /**
     The steps that fail an assertion: credit or arrivals bring more models than there are slots, or the one model
     that is resident but not merged, among several, is due to be kept.
     */
    ghost predicate Fails(queue: seq<Group>, favoured: seq<int>, best: int)
      reads this
    {
      if Entitled(queue) then Overflows(CreditBatch(queue, favoured), |modelsInGpu|)
      else BatchFails(queue, Prefix(queue, maxNumSeqs), best)
    }

    lemma UntouchedOrder(order: seq<int>)
      requires Untouched() && NoDuplicates(order) && forall m :: m in order <==> 0 <= m < numModels
      ensures ByCredit(order) && forall queue :: !Entitled(queue)
    {
      forall m | m in credit ensures credit[m] < creditLeft { assert CreditOf(credit, m) == credit[m]; }
    }

    lemma OneSlotFails(g: Group)
      requires Untouched() && Modes() && maxNumSeqs == gpuCapacity == 1 && numModels > 1
      requires modelsInGpu == [g.model] && 0 <= g.model < numModels && mergeLeft <= 1.0
      ensures forall favoured, best :: Fails([g], favoured, best)
    {
      forall m | m in credit ensures credit[m] < creditLeft { assert CreditOf(credit, m) == credit[m]; }
      assert OfModel([g], g.model) == [g] && credit[g.model] == CreditOf(credit, g.model);
    }

    lemma ThreeOverflow(a: Group, b: Group, c: Group)
      requires Untouched() && maxNumSeqs == gpuCapacity == 3 && |modelsInGpu| == 2 && mergeRight == 1.0
      requires a.model != b.model && b.model != c.model && a.model != c.model
      ensures forall favoured, best :: Fails([a, b, c], favoured, best)
    {
      forall m | m in credit ensures credit[m] < creditLeft { assert CreditOf(credit, m) == credit[m]; }
      var queue := [a, b, c];
      forall best ensures |OfModel(queue, best)| <= 1 {
        assert queue[..2][..1] == [a];
        assert OfModel(queue[..2], best) == OfModel([a], best) + (if b.model == best then [b] else []);
      }
      assert a in queue && b in queue && c in queue;
      SubsetCard({a.model, b.model, c.model}, ModelsIn(queue));
    }

    /** With a slot for each model the capacity lets through, only an engine of one slot can fail, and only unmerged. */
    lemma OnlyOneSlotFails(queue: seq<Group>, favoured: seq<int>, best: int)
      requires Valid() && gpuCapacity <= |modelsInGpu|
      ensures Fails(queue, favoured, best) <==>
        !Entitled(queue) && !merged && numModels > 1 && |modelsInGpu| == 1
        && CanKeep(queue, modelsInGpu[0], |Prefix(queue, maxNumSeqs)|)
    {
      hide CreditScheduler.Balanced, CreditScheduler.Entitled, CreditScheduler.CanKeep, CreditScheduler.IsLarge;
    }

    /**
     credit_schedule.  Models entitled by their credit go first; failing any, the merged model is kept, or the
     longest solvent queue (best) is merged, or arrivals are served.
     */
    method CreditSchedule(queue: seq<Group>, order: seq<int>, reqCnt: int -> int, c: Costs)
      returns (r: Outcome, best: int)
      requires Valid() && Queue(queue) && ByCredit(order) && c.Positive()
      modifies this
      ensures Balanced() && (r.Scheduled? ==> Valid())
      ensures r.Scheduled? ==> OnlyFrom(queue, r.groups) && (queue != [] && gpuCapacity > 0 ==> r.groups != [])
      ensures r.Scheduled? ==> FirstServed(queue, r.groups)
      ensures |modelsInGpu| == |old(modelsInGpu)|
      ensures r.AssertionFailed? <==> queue != [] && var favoured := previous; old(Fails(queue, favoured, best))
      ensures queue == [] ==> r == Scheduled([]) && credit == old(credit) && previous == old(previous)
      ensures queue == [] ==> Reading() == old(Reading()) && active == old(active) && modelsInGpu == old(modelsInGpu)
      ensures queue != [] ==> var favoured := previous; old(Favours(queue, favoured))
      ensures queue != [] && old(Entitled(queue)) ==>
        CreditStep(CreditBatch(queue, previous), Prefix(queue, maxNumSeqs), old(modelsInGpu), reqCnt, old(credit), r)
      ensures queue != [] && !old(Entitled(queue)) ==> old(IsLongest(queue, best))
      ensures queue != [] && !old(Entitled(queue)) ==> var fcfs := Prefix(queue, maxNumSeqs);
        BatchStep(queue, fcfs, best, old(Keeps(queue, |fcfs|)), old(IsLarge(queue, best, |fcfs|)),
          old(merged), old(active), old(modelsInGpu), reqCnt, old(credit), r)
      ensures queue != [] && r.Scheduled? ==> var fcfs := |Prefix(queue, maxNumSeqs)|;
        Reading() == if old(Entitled(queue)) then old(Reading()).Unmerging(c)
                     else BatchReading(old(Reading()), queue, fcfs, best, old(Keeps(queue, fcfs)),
                                       old(IsLarge(queue, best, fcfs)), old(active), c)
    {
      hide CreditScheduler.Balanced, CreditScheduler.ByCredit, CreditScheduler.Entitled, CreditScheduler.Favours,
        Picked;
      hide CreditScheduler.IsLongest, CreditScheduler.IsLarge, CreditScheduler.Keeps, CreditScheduler.BatchStep;
      hide CreditScheduler.CreditStep, CreditScheduler.Queue, CreditScheduler.Modes, CreditScheduler.Overflows;
      hide OfModel, Line, NotAmong, Prefix;
      best := -1;
      if |queue| == 0 { return Scheduled([]), best; }
      Sizes();
      var fcfs := Prefix(queue, maxNumSeqs);
      PrefixFrom(queue, maxNumSeqs);
      var picked, favoured, room := PickByCredit(queue, order);
      AllOnce(queue, favoured);
      previous := favoured;
      if room == maxNumSeqs {
        r, best := WithoutCredit(queue, fcfs, reqCnt, c);
        BatchInOrder(queue, fcfs, best, old(Keeps(queue, |fcfs|)), old(IsLarge(queue, best, |fcfs|)),
                     old(merged), old(active), old(modelsInGpu), reqCnt, old(credit), r);
      } else {
        r := WithCredit(queue, picked, fcfs, room, reqCnt, c);
        CreditInOrder(queue, favoured, fcfs, old(modelsInGpu), reqCnt, old(credit), r);
      }
    }
  }

  /** The engine has a slot for one of its two models; the first request is for that model, and its schedule fails. */
  method OneSlotExample() returns (r: Outcome)
    ensures r.AssertionFailed?
  {
    hide CreditScheduler.Balanced, CreditScheduler.Fails, CreditScheduler.BatchStep, CreditScheduler.CreditStep;
    hide CreditScheduler.Favours, CreditScheduler.IsLongest, CreditScheduler.Entitled;
    var scheduler := new CreditScheduler(2, 1, 1, [0], 0.5);
    scheduler.UntouchedOrder([0, 1]);
    scheduler.OneSlotFails(Group(0, 0));
    var best;
    r, best := scheduler.CreditSchedule([Group(0, 0)], [0, 1], m => 0, Costs(1.0, 1.0, 0.0));
  }

  /** Two slots, a capacity of three, and three models in the queue. */
  method OverflowExample() returns (r: Outcome)
    ensures r.AssertionFailed?
  {
    hide CreditScheduler.Balanced, CreditScheduler.Fails, CreditScheduler.BatchStep, CreditScheduler.CreditStep;
    hide CreditScheduler.Favours, CreditScheduler.IsLongest, CreditScheduler.Entitled;
    var scheduler := new CreditScheduler(3, 3, 3, [0, 1], 0.5);
    scheduler.UntouchedOrder([0, 1, 2]);
    scheduler.ThreeOverflow(Group(0, 0), Group(1, 1), Group(2, 2));
    var best;
    r, best := scheduler.CreditSchedule([Group(0, 0), Group(1, 1), Group(2, 2)], [0, 1, 2], m => 0,
                                        Costs(1.0, 1.0, 0.0));
  }

  datatype Outcome = Scheduled(groups: seq<Group>) | AssertionFailed

  ghost predicate Resident(groups: seq<Group>, models: seq<int>) { forall g :: g in groups ==> g.model in models }

  lemma Served(threshold: real, fcfs: nat, n: nat)
    requires threshold > 0.0 && fcfs > 0 && n as real >= threshold * fcfs as real
    ensures n > 0
  {
    ProductPositive(threshold, fcfs as real);
  }

  lemma SortedDistinct(s: seq<int>, r: seq<int>, le: (int, int) -> bool)
    requires NoDuplicates(s) && SortedBy(s, r, le)
    ensures NoDuplicates(r) && |r| == |s| && forall x :: x in r <==> x in s
  {
    SameDistinct(s, r);
    assert |r| == |multiset(r)| == |multiset(s)| == |s|;
  }

  /** While a model of the step is missing, some slot holds a model that does not run. */
  lemma SlotLeft(gpu: seq<int>, models: set<int>, m: int, idx: nat)
    requires NoDuplicates(gpu) && |models| <= |gpu| && m in models && m !in gpu && idx <= |gpu|
    requires forall k :: 0 <= k < idx ==> gpu[k] in models
    ensures idx < |gpu|
  {
    if idx == |gpu| {
      CardAtMost(gpu);
      assert SetOf(gpu) <= models - {m};
      SubsetCard(SetOf(gpu), models - {m});
    }
  }

  lemma Replaced(gpu: seq<int>, models: set<int>, idx: nat, m: int)
    requires NoDuplicates(gpu) && idx < |gpu| && m in models && m !in gpu && gpu[idx] !in models
    ensures NoDuplicates(gpu[idx := m]) && m in gpu[idx := m]
    ensures forall x :: x in gpu && x in models ==> x in gpu[idx := m]
    ensures forall x :: x in gpu[idx := m] ==> x == m || x in gpu
  {
    assert gpu[idx := m][idx] == m;
    forall x | x in gpu && x in models ensures x in gpu[idx := m] {
      var k :| 0 <= k < |gpu| && gpu[k] == x;
      assert gpu[idx := m][k] == x;
    }
  }

  /** What has been displaced from ranked stood before idx and does not run; from idx on nothing has changed. */
  ghost predicate Displaced(ranked: seq<int>, gpu: seq<int>, models: set<int>, idx: nat) {
    && |gpu| == |ranked| && idx <= |gpu| && (forall k :: idx <= k < |gpu| ==> gpu[k] == ranked[k])
    && forall k :: 0 <= k < idx ==> gpu[k] == ranked[k] || ranked[k] !in models
  }

  lemma DisplacedPass(ranked: seq<int>, gpu: seq<int>, models: set<int>, idx: nat)
    requires Displaced(ranked, gpu, models, idx) && idx < |gpu|
    ensures Displaced(ranked, gpu, models, idx + 1)
  {
  }

  lemma DisplacedStep(ranked: seq<int>, gpu: seq<int>, models: set<int>, idx: nat, m: int)
    requires Displaced(ranked, gpu, models, idx) && idx < |gpu| && gpu[idx] !in models
    ensures Displaced(ranked, gpu[idx := m], models, idx + 1)
  {
    assert gpu[idx] == ranked[idx];
  }

  /** The displaced models do not run, and are requested no more than any idle one that stays. */
  lemma LeastRequested(ranked: seq<int>, gpu: seq<int>, models: set<int>, idx: nat, reqCnt: int -> int)
    requires Ascending(ranked, ByKey(reqCnt)) && Displaced(ranked, gpu, models, idx)
    requires forall k :: 0 <= k < idx ==> gpu[k] in models
    ensures forall m :: m in ranked && m !in gpu ==> m !in models
    ensures forall m, k :: m in ranked && m !in gpu && k in gpu && k !in models ==> reqCnt(m) <= reqCnt(k)
  {
    forall m | m in ranked && m !in gpu ensures exists i :: 0 <= i < idx && ranked[i] == m && m !in models {
      var i :| 0 <= i < |ranked| && ranked[i] == m;
      assert i < idx;
    }
    forall k | k in gpu && k !in models ensures exists j :: idx <= j < |ranked| && ranked[j] == k {
      var j :| 0 <= j < |gpu| && gpu[j] == k;
      assert ranked[j] == k;
    }
  }

  lemma ProductPositive(a: real, b: real)
    requires a > 0.0 && b > 0.0
    ensures a * b > 0.0
  {
  }

  lemma Throughput(a: real, t: real, b: real, u: real)
    requires t > 0.0 && u > 0.0
    ensures a / t > b / u <==> Times(a, u) > Times(b, t)
    ensures a / t < b / u <==> Times(a, u) < Times(b, t)
  {
    var x, y := a / t, b / u;
    assert Times(a, u) == x * (t * u) && Times(b, t) == y * (t * u);
    ProductPositive(t, u);
    OrderScaled(x, y, t * u);
    OrderScaled(y, x, t * u);
  }

  lemma OrderScaled(x: real, y: real, c: real)
    requires c > 0.0
    ensures x > y <==> x * c > y * c
  {
    if x > y { ProductPositive(x - y, c); } else if x < y { ProductPositive(y - x, c); }
  }

  lemma SwitchTime(a: real, n: nat)
    requires a >= 0.0
    ensures a * n as real >= 0.0
  {
  }

  // ---- transfers --------------------------------------------------------------------------------------------

  /** Who pays whom when the schedules have equal length: a group that overtakes pays the group at its place. */
  ghost function Overtakes(order: seq<Group>, fcfs: seq<Group>, n: nat): seq<(int, int)>
    requires n <= |order| == |fcfs|
  {
    if n == 0 then []
    else
      Overtakes(order, fcfs, n - 1) +
        (if order[n - 1] in fcfs then [] else [(order[n - 1].model, fcfs[n - 1].model)])
  }

  /** Who pays whom otherwise: the first scheduled group's model pays every group left out. */
  ghost function LeftOut(order: seq<Group>, fcfs: seq<Group>, n: nat): seq<(int, int)>
    requires order != [] && n <= |fcfs|
  {
    if n == 0 then []
    else LeftOut(order, fcfs, n - 1) + (if fcfs[n - 1] in order then [] else [(order[0].model, fcfs[n - 1].model)])
  }

  /** (payer, payee) pairs of one adjustment. */
  ghost function Transfers(scheduled: seq<Group>, fcfs: seq<Group>): seq<(int, int)>
    requires |scheduled| == |fcfs| || scheduled != []
  {
    ArrangedLength(scheduled, fcfs);
    var order := Among(scheduled, fcfs) + NotAmong(scheduled, fcfs);
    if |scheduled| == |fcfs| then Overtakes(order, fcfs, |fcfs|) else LeftOut(order, fcfs, |fcfs|)
  }

  lemma {:induction false} ArrangedLength(s: seq<Group>, t: seq<Group>)
    ensures |Among(s, t)| + |NotAmong(s, t)| == |s|
  {
    if s != [] { ArrangedLength(s[..|s| - 1], t); }
  }

  ghost function Settled(credit: Credit, ts: seq<(int, int)>, c: real): Credit {
    if ts == [] then credit
    else
      var (payer, payee) := ts[|ts| - 1];
      Moved(Settled(credit, ts[..|ts| - 1], c), payer, payee, c)
  }

  lemma SettledStep(credit: Credit, ts: seq<(int, int)>, c: real, x: (int, int))
    ensures Settled(credit, ts + [x], c) == Moved(Settled(credit, ts, c), x.0, x.1, c)
  {
    assert (ts + [x])[..|ts|] == ts;
  }

  /** Times a model is paid, less the times it pays. */
  ghost function Balance(ts: seq<(int, int)>, m: int): int {
    if ts == [] then 0
    else
      var (payer, payee) := ts[|ts| - 1];
      Balance(ts[..|ts| - 1], m) + (if payee == m then 1 else 0) - (if payer == m then 1 else 0)
  }

  function Cost(c: real, k: int): real { c * k as real }

  lemma MovedAt(credit: Credit, payer: int, payee: int, c: real, m: int)
    requires payer in credit && payee in credit && m in credit
    ensures m in Moved(credit, payer, payee, c)
    ensures CreditOf(Moved(credit, payer, payee, c), m) ==
      CreditOf(credit, m) + (if payee == m then c else 0.0) - (if payer == m then c else 0.0)
  {
  }

  /** Settling moves each model's credit by the cost times its balance. */
  lemma {:induction false} SettledBalance(credit: Credit, n: nat, ts: seq<(int, int)>, c: real, m: int)
    requires ForModels(credit, n) && 0 <= m < n && forall t :: t in ts ==> 0 <= t.0 < n && 0 <= t.1 < n
    ensures ForModels(Settled(credit, ts, c), n)
    ensures CreditOf(Settled(credit, ts, c), m) == CreditOf(credit, m) + Cost(c, Balance(ts, m))
  {
    if ts != [] {
      var k := |ts| - 1;
      assert ts[k] in ts;
      SettledBalance(credit, n, ts[..k], c, m);
      var before := Settled(credit, ts[..k], c);
      MoveConserves(before, n, ts[k].0, ts[k].1, c);
      MovedAt(before, ts[k].0, ts[k].1, c, m);
      CostStep(c, Balance(ts[..k], m));
      hide Moved, CreditOf, Cost;
    }
  }

  lemma BalanceStep(ts: seq<(int, int)>, x: (int, int), m: int)
    ensures Balance(ts + [x], m) == Balance(ts, m) + (if x.1 == m then 1 else 0) - (if x.0 == m then 1 else 0)
  {
    assert (ts + [x])[..|ts|] == ts;
  }

  lemma CostStep(c: real, k: int)
    ensures Cost(c, k + 1) == Cost(c, k) + c && Cost(c, k - 1) == Cost(c, k) - c
  {
    assert (k + 1) as real == k as real + 1.0 && (k - 1) as real == k as real - 1.0;
  }

  /** A model that overtakes nobody never pays. */
  lemma {:induction false} PatientNeverPay(order: seq<Group>, fcfs: seq<Group>, n: nat, m: int)
    requires n <= |order| == |fcfs| && forall g :: g in order && g !in fcfs ==> g.model != m
    ensures Balance(Overtakes(order, fcfs, n), m) >= 0
  {
    if n > 0 {
      PatientNeverPay(order, fcfs, n - 1, m);
      assert order[n - 1] in order && Overtakes(order, fcfs, n - 1) + [] == Overtakes(order, fcfs, n - 1);
      BalanceStep(Overtakes(order, fcfs, n - 1), (order[n - 1].model, fcfs[n - 1].model), m);
    }
  }
}
