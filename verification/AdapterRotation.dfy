/**
 Prefill admission with fewer LoRA slots than adapters: which adapter stops admitting so that a starved one gets its
 slot.
 */
module AdapterRotation {
  import opened AdmissionOrder
  import opened Common
  import opened StableSort

  /** Waiting requests of an adapter; the base model's are not counted. */
  ghost function Demand(queue: seq<Request>, l: int): nat { if l > 0 then CountOf(queue, l) else 0 }

  /** r waits for an adapter that has no slot. */
  predicate Shut(r: Request, resident: set<int>) { r.lora > 0 && r.lora !in resident }

  ghost predicate Starving(queue: seq<Request>, resident: set<int>, now: real, after: real) {
    exists r :: r in queue && Shut(r, resident) && now - r.arrival >= after
  }

  /** No resident adapter has fewer waiting requests. */
  ghost predicate Fewest(queue: seq<Request>, resident: set<int>, v: int) {
    v in resident && forall u :: u in resident ==> Demand(queue, v) <= Demand(queue, u)
  }

  /** One rotation decision: who holds back, from who held back before. */
  ghost predicate Rotates(held: set<int>, resident: set<int>, slots: Option<nat>, queue: seq<Request>, now: real,
                          after: real, next: set<int>) {
    if slots.None? || resident == {} then next == {}
    else
      var still := held * resident;
      if |resident| < slots.value || still != {} || !Starving(queue, resident, now, after) then next == still
      else exists v :: Fewest(queue, resident, v) && next == {v}
  }

  /** At most one adapter holds back, and it is in the running batch. */
  lemma OneAtATime(held: set<int>, resident: set<int>, slots: Option<nat>, queue: seq<Request>, now: real, after: real,
                   next: set<int>)
    requires Rotates(held, resident, slots, queue, now, after, next) && |held| <= 1
    ensures |next| <= 1 && next <= resident
  {
    SubsetCard(held * resident, held);
  }

  /** It holds back until it has left the batch. */
  lemma HoldsUntilGone(held: set<int>, resident: set<int>, slots: Option<nat>, queue: seq<Request>, now: real,
                       after: real, next: set<int>, v: int)
    requires Rotates(held, resident, slots, queue, now, after, next) && v in held && v in resident && slots.Some?
    ensures v in next
  {
    assert v in held * resident;
  }

  /** With every slot taken and a starving request, some resident adapter holds back. */
  lemma SomeoneHolds(held: set<int>, resident: set<int>, slots: Option<nat>, queue: seq<Request>, now: real,
                     after: real, next: set<int>)
    returns (v: int)
    requires Rotates(held, resident, slots, queue, now, after, next)
    requires slots.Some? && resident != {} && |resident| >= slots.value && Starving(queue, resident, now, after)
    ensures v in next && v in resident
  {
    if held * resident == {} {
      v :| Fewest(queue, resident, v) && next == {v};
    } else {
      v := Member(held * resident);
    }
  }

  // ---- over a run ------------------------------------------------------------------------------------------

  /** A running sequence: its adapter and the decode steps it may still take. */
  datatype Active = Active(id: int, lora: int, left: nat)

  ghost function Residents(batch: seq<Active>): set<int> { set a | a in batch && a.lora > 0 :: a.lora }

  /**
   A sequence of the next batch was admitted past the holdout, or was there before; a decode step is taken only by
   those that ran, the others (held in the alignment buffer, or in a step of prefills) stay as they are.
   */
  ghost predicate Continues(before: seq<Active>, held: set<int>, ran: set<int>, a: Active) {
    || a.lora !in held
    || exists b :: b in before && b.id == a.id && b.lora == a.lora && b.left == a.left + (if a.id in ran then 1 else 0)
  }

  /** Ticks 0, 1, ...: the batch before each tick, who holds back, which sequences run, what waits, and the time. */
  datatype Trace = Trace(batches: seq<seq<Active>>, held: seq<set<int>>, ran: seq<set<int>>, queues: seq<seq<Request>>,
                         clock: seq<real>, slots: nat, after: real) {
    /** Any admissions that respect the holdout, any arrivals, any preemptions, any choice of who runs. */
    ghost predicate Valid() {
      && |batches| == |held| + 1 && |held| == |ran| == |queues| == |clock|
      && (forall i :: 0 <= i < |held| ==> Decides(i))
      && forall i :: 0 <= i < |held| ==> Advances(i)
    }

    ghost predicate Decides(i: int)
      requires 0 <= i < |held| == |queues| == |clock| && |batches| == |held| + 1
    {
      Rotates(if i == 0 then {} else held[i - 1], Residents(batches[i]), Some(slots),
              queues[i], clock[i], after, held[i])
    }

    ghost predicate Advances(i: int)
      requires 0 <= i < |held| == |ran| && |batches| == |held| + 1
    {
      forall a :: a in batches[i + 1] ==> Continues(batches[i], held[i], ran[i], a)
    }

    /** Every slot is taken and a request for an adapter without one has waited long enough. */
    ghost predicate Stuck(i: int)
      requires 0 <= i < |queues| == |clock| && i < |batches|
    {
      var resident := Residents(batches[i]);
      resident != {} && |resident| >= slots && Starving(queues[i], resident, clock[i], after)
    }

    /** In how many of the d ticks from i on the sequence runs. */
    ghost function RunsOf(id: int, i: nat, d: nat): nat
      requires i + d <= |ran|
    {
      if d == 0 then 0 else RunsOf(id, i, d - 1) + (if id in ran[i + d - 1] then 1 else 0)
    }

    ghost predicate HoldsFrom(v: int, i: nat, d: nat)
      requires i + d <= |held|
    {
      forall j :: i <= j < i + d ==> v in held[j]
    }

    ghost predicate There(v: int, id: int, i: int)
      requires 0 <= i < |batches|
    {
      exists a :: a in batches[i] && a.lora == v && a.id == id
    }

    /** A sequence of adapter v that stays in the batch runs at least once in any h ticks. */
    ghost predicate Fair(v: int, h: nat)
      requires |ran| < |batches|
    {
      forall id, j: nat :: j + h <= |ran| && (forall k :: j <= k <= j + h ==> There(v, id, k)) ==> RunsOf(id, j, h) > 0
    }
  }

  /** While its adapter holds back, a sequence can only be one that was there before, with its runs taken off. */
  lemma {:induction false} Tracked(t: Trace, v: int, i: nat, d: nat, a: Active) returns (b: Active)
    requires t.Valid() && i + d <= |t.held| && t.HoldsFrom(v, i, d) && a in t.batches[i + d] && a.lora == v
    ensures b in t.batches[i] && b.lora == v && b.id == a.id && b.left == a.left + t.RunsOf(a.id, i, d)
  {
    if d == 0 {
      b := a;
    } else {
      var j := i + d - 1;
      assert t.Advances(j) && v in t.held[j];
      assert Continues(t.batches[j], t.held[j], t.ran[j], a);
      var c :| c in t.batches[j] && c.id == a.id && c.lora == a.lora
        && c.left == a.left + (if a.id in t.ran[j] then 1 else 0);
      b := Tracked(t, v, i, d - 1, c);
    }
  }

  /** An adapter that holds back does so until it has left the batch. */
  lemma {:induction false} HoldsOrLeaves(t: Trace, v: int, i: nat, d: nat) returns (k: nat)
    requires t.Valid() && i + d <= |t.held| && i < |t.held| && v in t.held[i]
    ensures i <= k <= i + d && (v !in Residents(t.batches[k]) || (k == i + d && t.HoldsFrom(v, i, d)))
  {
    if d <= 1 {
      k := i + d;
    } else {
      k := HoldsOrLeaves(t, v, i, d - 1);
      if v in Residents(t.batches[k]) {
        var j := i + d - 1;
        assert t.Decides(j);
        HoldsUntilGone(t.held[j - 1], Residents(t.batches[j]), Some(t.slots), t.queues[j], t.clock[j], t.after,
                       t.held[j], v);
        k := i + d;
      }
    }
  }

  /** It leaves once each of its running sequences has run more often than it had steps left. */
  lemma HolderLeaves(t: Trace, v: int, i: nat, d: nat) returns (k: nat)
    requires t.Valid() && i + d <= |t.held| && i < |t.held| && v in t.held[i]
    requires forall b :: b in t.batches[i] && b.lora == v ==> t.RunsOf(b.id, i, d) > b.left
    ensures i <= k <= i + d && v !in Residents(t.batches[k])
  {
    k := HoldsOrLeaves(t, v, i, d);
    if a :| a in t.batches[k] && a.lora == v && v in Residents(t.batches[k]) {
      var b := Tracked(t, v, i, d, a);
      assert false;
    }
  }

  /**
   Rotation frees a slot: if every slot is taken and a request for an adapter without one has waited long enough, some
   adapter of the batch leaves it by the time every running sequence has run more often than it had steps left,
   whatever else arrives.
   */
  lemma RotationFreesASlot(t: Trace, i: nat, d: nat) returns (v: int, k: nat)
    requires t.Valid() && i + d <= |t.held| && i < |t.held| && t.Stuck(i)
    requires forall b :: b in t.batches[i] ==> t.RunsOf(b.id, i, d) > b.left
    ensures v in Residents(t.batches[i]) && i <= k <= i + d && v !in Residents(t.batches[k])
  {
    v := Holder(t, i);
    k := HolderLeaves(t, v, i, d);
  }

  lemma Holder(t: Trace, i: nat) returns (v: int)
    requires t.Valid() && i < |t.held| && t.Stuck(i)
    ensures v in t.held[i] && v in Residents(t.batches[i])
  {
    assert t.Decides(i);
    v := SomeoneHolds(if i == 0 then {} else t.held[i - 1], Residents(t.batches[i]), Some(t.slots),
                      t.queues[i], t.clock[i], t.after, t.held[i]);
  }

  lemma {:induction false} RunsAdd(t: Trace, id: int, i: nat, d: nat, e: nat)
    requires i + d + e <= |t.ran|
    ensures t.RunsOf(id, i, d + e) == t.RunsOf(id, i, d) + t.RunsOf(id, i + d, e)
  {
    if e > 0 { RunsAdd(t, id, i, d, e - 1); }
  }

  /** A sequence that is still there after n turns of h ticks has run n times. */
  lemma {:induction false} RunsEachTurn(t: Trace, v: int, id: int, i: nat, n: nat, h: nat)
    requires |t.ran| < |t.batches| && n * h >= 0 && i + n * h <= |t.ran| && t.Fair(v, h)
    requires forall k :: i <= k <= i + n * h ==> t.There(v, id, k)
    ensures t.RunsOf(id, i, n * h) >= n
  {
    if n > 0 {
      var d := (n - 1) * h;
      assert n * h == d + h && d >= 0;
      RunsEachTurn(t, v, id, i, n - 1, h);
      RunsAdd(t, id, i, d, h);
      assert t.RunsOf(id, i + d, h) > 0;
    }
  }

  /** ... so within n h ticks, if the sequences have fewer than n steps left and run at least once in any h ticks. */
  lemma RotationFreesASlotWithin(t: Trace, i: nat, n: nat, h: nat) returns (v: int, k: nat)
    requires t.Valid() && n * h >= 0 && i + n * h <= |t.held| && i < |t.held| && t.Stuck(i) && forall u :: t.Fair(u, h)
    requires forall b :: b in t.batches[i] ==> b.left < n
    ensures v in Residents(t.batches[i]) && i <= k <= i + n * h && v !in Residents(t.batches[k])
  {
    var d := n * h;
    v := Holder(t, i);
    k := HoldsOrLeaves(t, v, i, d);
    if a :| a in t.batches[k] && a.lora == v && v in Residents(t.batches[k]) {
      forall j | i <= j <= i + d ensures t.There(v, a.id, j) { StaysThere(t, v, i, d, a, j); }
      RunsEachTurn(t, v, a.id, i, n, h);
      var b := Tracked(t, v, i, d, a);
      assert false;
    }
  }

  lemma StaysThere(t: Trace, v: int, i: nat, d: nat, a: Active, j: nat)
    requires t.Valid() && i + d <= |t.held| && t.HoldsFrom(v, i, d) && a in t.batches[i + d] && a.lora == v
    requires i <= j <= i + d
    ensures t.There(v, a.id, j)
  {
    var b := Tracked(t, v, j, i + d - j, a);
  }

  /** Ticks alone are no bound: a sequence on its last step that the alignment buffer holds keeps its adapter's slot. */
  lemma SittingOutExample()
    ensures var t := Trace([[Active(1, 5, 0)], [Active(1, 5, 0)]], [{5}], [{}], [[Request(7, 6, 0.0)]], [10.0], 1, 1.0);
      t.Valid() && t.Stuck(0) && t.batches[0][0].left == 0 && Residents(t.batches[1]) == {5}
  {
    var a := Active(1, 5, 0);
    var t := Trace([[a], [a]], [{5}], [{}], [[Request(7, 6, 0.0)]], [10.0], 1, 1.0);
    assert a in [a] && Residents([a]) == {5};
    assert Request(7, 6, 0.0) in t.queues[0] && Shut(Request(7, 6, 0.0), {5});
    assert Fewest(t.queues[0], {5}, 5);
    assert t.Decides(0) by { assert {} * {5} == {}; }
    assert t.Advances(0);
  }

  // ---- the scheduler's queue -------------------------------------------------------------------------------

  function Not(p: Request -> bool): Request -> bool { (r: Request) => !p(r) }

  function Past(held: set<int>): Request -> bool { (r: Request) => r.lora !in held }

  function HeldBack(held: set<int>): Request -> bool { (r: Request) => r.lora in held }

  /** Past the holdout, and taken by the base scheduler. */
  function Admissible(held: set<int>, takes: Request -> bool): Request -> bool {
    (r: Request) => r.lora !in held && takes(r)
  }

  class AdmissionQueue {
    const slots: Option<nat>      // GPU slots for adapters; None without LoRA
    const rotateAfter: real
    const admitGrouped: bool
    const groupMaxWait: real
    var waiting: seq<Request>
    var draining: set<int>

    constructor (slots: Option<nat>, rotateAfter: real, admitGrouped: bool, groupMaxWait: real)
      ensures waiting == [] && draining == {} && this.slots == slots && this.rotateAfter == rotateAfter
      ensures this.admitGrouped == admitGrouped && this.groupMaxWait == groupMaxWait
    {
      this.slots, this.rotateAfter, this.admitGrouped, this.groupMaxWait
        := slots, rotateAfter, admitGrouped, groupMaxWait;
      waiting, draining := [], {};
    }

    /** rotation_holdout */
    method RotationHoldout(resident: set<int>, now: real)
      modifies this`draining
      ensures Rotates(old(draining), resident, slots, waiting, now, rotateAfter, draining)
    {
      if slots.None? || resident == {} {
        draining := {};
        return;
      }
      draining := draining * resident;
      if |resident| < slots.value { return; }
      var demand, oldest := Survey(resident);
      if oldest == map[] || draining != {} { return; }
      var first := Earliest(oldest);
      if now - first >= rotateAfter {
        var v := LeastDemanded(resident, demand);
        draining := {v};
      }
    }

    /** How many requests wait for each adapter, and since when the adapters without a slot are waited for. */
    method Survey(resident: set<int>) returns (demand: map<int, nat>, oldest: map<int, real>)
      ensures forall l :: Tally(demand, l) == Demand(waiting, l)
      ensures OldestOf(waiting, resident, oldest)
    {
      demand, oldest := map[], map[];
      var i := 0;
      assert waiting[..0] == [];
      while i < |waiting|
        invariant 0 <= i <= |waiting|
        invariant forall l :: Tally(demand, l) == Demand(waiting[..i], l)
        invariant OldestOf(waiting[..i], resident, oldest)
      {
        var r := waiting[i];
        assert waiting[..i + 1] == waiting[..i] + [r] && waiting[..i + 1][..i] == waiting[..i];
        if r.lora > 0 {
          ghost var was := demand;
          demand := demand[r.lora := Tally(demand, r.lora) + 1];
          assert forall l :: Tally(demand, l) == Tally(was, l) + (if l == r.lora then 1 else 0);
          if r.lora !in resident {
            var t := if r.lora in oldest && oldest[r.lora] <= r.arrival then oldest[r.lora] else r.arrival;
            OldestStep(waiting[..i], r, resident, oldest, t);
            oldest := oldest[r.lora := t];
          }
        }
        i := i + 1;
      }
      assert waiting[..|waiting|] == waiting;
    }

    /** The base scheduler's pass takes some of the offered requests and leaves the others in place. */
    method Admit(takes: Request -> bool) returns (admitted: seq<Request>)
      modifies this`waiting
      ensures admitted == Those(old(waiting), takes) && waiting == Those(old(waiting), Not(takes))
    {
      admitted, waiting := Those(waiting, takes), Those(waiting, Not(takes));
    }

    /** schedule_prefills_rotated: requests of a held-back adapter sit the pass out. */
    method SchedulePrefillsRotated(resident: set<int>, now: real, takes: Request -> bool)
      returns (admitted: seq<Request>)
      modifies this`waiting, this`draining
      ensures Rotates(old(draining), resident, slots, old(waiting), now, rotateAfter, draining)
      ensures admitted == Those(old(waiting), Admissible(draining, takes))
      ensures multiset(admitted) + multiset(waiting) == multiset(old(waiting))
      ensures InArrivalOrder(old(waiting)) || draining != {} ==> InArrivalOrder(waiting)
    {
      RotationHoldout(resident, now);
      var held := draining;
      if held == {} {
        admitted := Admit(takes);
        ThoseAndOthers(old(waiting), takes, Not(takes));
        SameThose(old(waiting), takes, Admissible(held, takes));
        if InArrivalOrder(old(waiting)) { ThoseAscending(old(waiting), Not(takes)); }
        return;
      }
      var keep, sitOut := Those(waiting, Past(held)), Those(waiting, HeldBack(held));
      ThoseAndOthers(waiting, Past(held), HeldBack(held));
      waiting := keep;
      admitted := Admit(takes);
      ThoseAndOthers(keep, takes, Not(takes));
      ThoseOfThose(old(waiting), Past(held), takes, Admissible(held, takes));
      waiting := waiting + sitOut;
      Resort();
    }

    /**
     schedule_prefills: with grouping the queue is ordered adapter by adapter for the pass, and by arrival again
     after it.
     */
    method SchedulePrefills(resident: set<int>, now: real, takes: Request -> bool) returns (admitted: seq<Request>)
      modifies this`waiting, this`draining
      ensures multiset(admitted) + multiset(waiting) == multiset(old(waiting))
      ensures InArrivalOrder(old(waiting)) || (admitGrouped && |old(waiting)| > 1) || draining != {} ==>
        InArrivalOrder(waiting)
      ensures InArrivalOrder(old(waiting)) && TieFree(SetOf(old(waiting)), ByArrival()) ==>
                waiting == Those(old(waiting), Not(Admissible(draining, takes)))
      ensures forall r :: r in admitted <==> r in old(waiting) && Admissible(draining, takes)(r)
      ensures exists offered :: Offered(old(waiting), offered, admitGrouped, now, groupMaxWait)
                && Rotates(old(draining), resident, slots, offered, now, rotateAfter, draining)
                && admitted == Those(offered, Admissible(draining, takes))
    {
      ghost var offered := waiting;
      hide Rotates, Grouped, SortedBy, InArrivalOrder, Those;
      if admitGrouped && |waiting| > 1 {
        waiting := GroupByAdapter(waiting, now, groupMaxWait);
        offered := waiting;
        GroupedMeans(old(waiting), waiting, now, groupMaxWait);
        admitted := SchedulePrefillsRotated(resident, now, takes);
        Resort();
      } else {
        admitted := SchedulePrefillsRotated(resident, now, takes);
      }
      SameMembers(old(waiting), offered);
      if InArrivalOrder(old(waiting)) && TieFree(SetOf(old(waiting)), ByArrival()) {
        QueueRestored(old(waiting), offered, Admissible(draining, takes), waiting);
      }
      assert Offered(old(waiting), offered, admitGrouped, now, groupMaxWait);
    }

    /** Back to arrival order. */
    method Resort()
      modifies this`waiting
      ensures InArrivalOrder(waiting) && multiset(waiting) == multiset(old(waiting))
    {
      GroupOrderIsKeyOrder(map[], 0.0, 0.0);
      waiting := Sort(waiting, ByArrival());
    }
  }

  /** Without equal arrival times, grouping leaves no trace: the others are waiting in the order they were. */
  lemma QueueRestored(queue: seq<Request>, offered: seq<Request>, p: Request -> bool, left: seq<Request>)
    requires InArrivalOrder(queue) && InArrivalOrder(left) && TieFree(SetOf(queue), ByArrival())
    requires multiset(offered) == multiset(queue) && multiset(Those(offered, p)) + multiset(left) == multiset(queue)
    ensures left == Those(queue, Not(p))
  {
    var rest := Those(queue, Not(p));
    ThoseAscending(queue, Not(p));
    forall x ensures multiset(left)[x] == multiset(rest)[x] {
      ThoseCount(offered, p, x);
      ThoseCount(queue, Not(p), x);
      assert multiset(Those(offered, p))[x] + multiset(left)[x] == multiset(queue)[x];
    }
    assert multiset(left) == multiset(rest);
    AscendingUnique(rest, left, ByArrival(), SetOf(queue));
  }

  lemma SameMembers(s: seq<Request>, r: seq<Request>)
    requires multiset(s) == multiset(r)
    ensures forall x :: x in s <==> x in r
  {
    forall x ensures x in s <==> x in r { assert x in multiset(s) <==> x in multiset(r); }
  }

  /** The queue as the pass sees it. */
  ghost predicate Offered(queue: seq<Request>, offered: seq<Request>, grouped: bool, now: real, maxWait: real) {
    if grouped && |queue| > 1 then Grouped(queue, offered, now, maxWait) else offered == queue
  }

  lemma {:induction false} SameThose(s: seq<Request>, p: Request -> bool, q: Request -> bool)
    requires forall r :: p(r) == q(r)
    ensures Those(s, p) == Those(s, q)
  {
    if s != [] { SameThose(s[..|s| - 1], p, q); }
  }

  lemma {:induction false} ThoseOfThose(s: seq<Request>, p: Request -> bool, q: Request -> bool, both: Request -> bool)
    requires forall r :: both(r) == (p(r) && q(r))
    ensures Those(Those(s, p), q) == Those(s, both)
  {
    if s != [] {
      var n := |s| - 1;
      ThoseOfThose(s[..n], p, q, both);
      var t := Those(s[..n], p);
      if p(s[n]) {
        assert Those(s, p) == t + [s[n]] && (t + [s[n]])[..|t|] == t;
      } else {
        assert Those(s, p) == t;
      }
    }
  }

  /** The first arrival for every adapter without a slot. */
  ghost predicate OldestOf(queue: seq<Request>, resident: set<int>, oldest: map<int, real>) {
    && (forall r :: r in queue && Shut(r, resident) ==> r.lora in oldest && oldest[r.lora] <= r.arrival)
    && forall l :: l in oldest ==> exists r :: r in queue && Shut(r, resident) && r.lora == l && r.arrival == oldest[l]
  }

  lemma OldestStep(queue: seq<Request>, r: Request, resident: set<int>, oldest: map<int, real>, t: real)
    requires OldestOf(queue, resident, oldest) && Shut(r, resident)
    requires t == if r.lora in oldest && oldest[r.lora] <= r.arrival then oldest[r.lora] else r.arrival
    ensures OldestOf(queue + [r], resident, oldest[r.lora := t])
  {
    var more, next := queue + [r], oldest[r.lora := t];
    forall l | l in next ensures exists q :: q in more && Shut(q, resident) && q.lora == l && q.arrival == next[l] {
      if l == r.lora && t == r.arrival {
        assert r in more;
      } else {
        var q :| q in queue && Shut(q, resident) && q.lora == l && q.arrival == oldest[l];
        assert q in more;
      }
    }
  }

  method Earliest(oldest: map<int, real>) returns (first: real)
    requires oldest != map[]
    ensures (forall l :: l in oldest ==> first <= oldest[l]) && exists l :: l in oldest && oldest[l] == first
  {
    var todo := oldest.Keys;
    if forall l :: l !in todo { assert false; }
    var l0 :| l0 in todo;
    first, todo := oldest[l0], todo - {l0};
    while exists l :: l in todo
      invariant todo <= oldest.Keys && (forall l :: l in oldest && l !in todo ==> first <= oldest[l])
      invariant exists l :: l in oldest && oldest[l] == first
      decreases |todo|
    {
      var l :| l in todo;
      if oldest[l] < first { first := oldest[l]; }
      todo := todo - {l};
    }
  }

  method LeastDemanded(resident: set<int>, demand: map<int, nat>) returns (v: int)
    requires resident != {}
    ensures v in resident && forall u :: u in resident ==> Tally(demand, v) <= Tally(demand, u)
  {
    var todo := resident;
    if forall u :: u !in todo { assert false; }
    v :| v in todo;
    todo := todo - {v};
    while exists u :: u in todo
      invariant todo <= resident && v in resident
      invariant forall u :: u in resident && u !in todo ==> Tally(demand, v) <= Tally(demand, u)
      decreases |todo|
    {
      var u :| u in todo;
      if Tally(demand, u) < Tally(demand, v) { v := u; }
      todo := todo - {u};
    }
  }
}
