/**
 What one dispatch of the alignment buffer takes from the per-adapter queues, as a function of the
 queues, their ages and the budget.
 */
module DispatchPlan {
  import opened Arithmetic
  import opened Common

  datatype Adapter = Adapter(name: string)

  /** A waiting decode token: its sequence and when it was enqueued. */
  datatype Entry = Entry(id: int, t: real)

  type Queues = map<Adapter, seq<Entry>>

  /** A dispatched token: adapter, sequence, promotion flag. */
  type Token = (Adapter, int, bool)

  /**
   Deadline: whole warps, or the whole queue once its deadline has passed; an adapter whose warps do
   not fit stops the scan.  Holdback: the four WGKP rules with threshold eff and half threshold half;
   merged are the adapters with resident merged weights.
   */
  datatype Mode = Deadline | Holdback(eff: nat, half: nat, merged: set<Adapter>)

  datatype Policy = Policy(mode: Mode, W: nat, slo: real, now: real,
                           tmax: map<Adapter, real>, default: real, budget: nat) {
    function EffDeadline(k: Adapter): real {
      var d := if k in tmax then tmax[k] else default;
      if d < slo then d else slo
    }
  }

  function Min(a: int, b: int): int { if a < b then a else b }

  function Age(enq: Option<real>, now: real): real {
    if enq.Some? then now - enq.value else 0.0
  }

  /** The tokens a queue of the given length and age gives up when `left` of the budget remain. */
  function Wanted(p: Policy, k: Adapter, len: nat, age: real, left: nat): (c: nat)
    requires p.W > 0
    ensures c <= len && c <= left
  {
    if len >= p.W then WholeWarps(len, left, p.W)
    else if p.mode.Holdback? && (len >= p.mode.eff || (len >= p.mode.half && age > p.EffDeadline(k) / 2.0))
      then Min(len, left)
    else if age >= p.EffDeadline(k) then Min(len, left)
    else 0
  }

  /** The tokens of the whole warps that both the queue and the budget have. */
  function WholeWarps(len: nat, left: nat, w: nat): (c: nat)
    requires w > 0
    ensures c <= len && c <= left
  {
    WarpsFit(Min(len / w, left / w), len, left, w);
    Min(len / w, left / w) * w
  }

  lemma WarpsFit(n: nat, len: nat, left: nat, w: nat)
    requires w > 0 && n == Min(len / w, left / w)
    ensures n * w <= len && n * w <= left
  {
    TimesGrowsOrEqual(n, len / w, w);
    TimesGrowsOrEqual(n, left / w, w);
  }

  /** Rules 1 and 2 of the holdback promote a resident adapter's segment. */
  predicate Promoted(p: Policy, k: Adapter, len: nat, c: nat) {
    p.mode.Holdback? && k in p.mode.merged && c > 0 && (len >= p.W || len >= p.mode.eff)
  }

  function Tagged(k: Adapter, es: seq<Entry>, promo: bool): (r: seq<Token>)
    ensures |r| == |es| && forall i :: 0 <= i < |es| ==> r[i] == (k, es[i].id, promo)
  {
    seq(|es|, i requires 0 <= i < |es| => (k, es[i].id, promo))
  }

  /** One visited adapter: how many of its oldest tokens leave, and their flag. */
  datatype Take = Take(adapter: Adapter, count: nat, promo: bool)

  datatype Plan = Plan(takes: seq<Take>, batch: seq<Token>, halted: bool)

  function QueueOf(qs: Queues, k: Adapter): seq<Entry> { if k in qs then qs[k] else [] }

  function OldestOf(es: map<Adapter, Option<real>>, k: Adapter): Option<real> { if k in es then es[k] else None }

  /** The dispatch after visiting the adapters of `ranked` in turn. */
  function PlanFor(p: Policy, qs: Queues, oldest: map<Adapter, Option<real>>, ranked: seq<Adapter>): (r: Plan)
    requires p.W > 0
    ensures |r.batch| <= p.budget && |r.takes| == |ranked|
  {
    if ranked == [] then Plan([], [], false)
    else
      var n := |ranked| - 1;
      Visit(p, qs, oldest, PlanFor(p, qs, oldest, ranked[..n]), ranked[n])
  }

  function Visit(p: Policy, qs: Queues, oldest: map<Adapter, Option<real>>, r: Plan, k: Adapter): (s: Plan)
    requires p.W > 0 && |r.batch| <= p.budget
    ensures |s.batch| <= p.budget && |s.takes| == |r.takes| + 1
  {
    var q := QueueOf(qs, k);
    var left := p.budget - |r.batch|;
    if r.halted || left == 0 || q == [] then r.(takes := r.takes + [Take(k, 0, false)])
    else
      var c := Wanted(p, k, |q|, Age(OldestOf(oldest, k), p.now), left);
      var promo := Promoted(p, k, |q|, c);
      Plan(r.takes + [Take(k, c, promo)], r.batch + Tagged(k, q[..c], promo),
           p.mode.Deadline? && |q| >= p.W && c == 0)
  }

  /** The tokens named by a list of takes, in order. */
  ghost function Gathered(qs: Queues, takes: seq<Take>): seq<Token>
    requires forall x :: x in takes ==> x.count <= |QueueOf(qs, x.adapter)|
  {
    if takes == [] then []
    else
      var x := takes[|takes| - 1];
      Gathered(qs, takes[..|takes| - 1]) + Tagged(x.adapter, QueueOf(qs, x.adapter)[..x.count], x.promo)
  }

  lemma VisitTakes(p: Policy, qs: Queues, oldest: map<Adapter, Option<real>>, r: Plan, k: Adapter)
    requires p.W > 0 && |r.batch| <= p.budget
    ensures var s := Visit(p, qs, oldest, r, k); var x := s.takes[|r.takes|];
      && s.takes == r.takes + [x] && x.adapter == k && x.count <= |QueueOf(qs, k)|
      && s.batch == r.batch + Tagged(k, QueueOf(qs, k)[..x.count], x.promo)
  {
    assert Tagged(k, QueueOf(qs, k)[..0], false) == [];
  }

  /** One take per adapter of the list, no longer than its queue. */
  ghost predicate TakesFrom(qs: Queues, ranked: seq<Adapter>, takes: seq<Take>) {
    |takes| == |ranked| && forall i :: 0 <= i < |takes| ==>
      takes[i].adapter == ranked[i] && takes[i].count <= |QueueOf(qs, ranked[i])|
  }

  lemma TakesFromStep(qs: Queues, ranked: seq<Adapter>, takes: seq<Take>, x: Take)
    requires ranked != [] && TakesFrom(qs, ranked[..|ranked| - 1], takes)
    requires x.adapter == ranked[|ranked| - 1] && x.count <= |QueueOf(qs, x.adapter)|
    ensures TakesFrom(qs, ranked, takes + [x])
  {
  }

  lemma TakesFit(qs: Queues, ranked: seq<Adapter>, takes: seq<Take>)
    requires TakesFrom(qs, ranked, takes)
    ensures forall x :: x in takes ==> x.count <= |QueueOf(qs, x.adapter)|
  {
  }

  /** The batch is the concatenation, in rank order, of one FIFO prefix per visited adapter. */
  lemma {:induction false} BatchIsGathered(p: Policy, qs: Queues, oldest: map<Adapter, Option<real>>,
                                           ranked: seq<Adapter>)
    requires p.W > 0
    ensures TakesFrom(qs, ranked, PlanFor(p, qs, oldest, ranked).takes)
    ensures forall x :: x in PlanFor(p, qs, oldest, ranked).takes ==> x.count <= |QueueOf(qs, x.adapter)|
    ensures PlanFor(p, qs, oldest, ranked).batch == Gathered(qs, PlanFor(p, qs, oldest, ranked).takes)
  {
    hide Wanted, Visit, Promoted, TakesFrom;
    var r := PlanFor(p, qs, oldest, ranked);
    if ranked != [] {
      var n := |ranked| - 1;
      BatchIsGathered(p, qs, oldest, ranked[..n]);
      var r0 := PlanFor(p, qs, oldest, ranked[..n]);
      VisitTakes(p, qs, oldest, r0, ranked[n]);
      TakesFromStep(qs, ranked, r0.takes, r.takes[n]);
      assert r.takes[..n] == r0.takes;
    } else {
      assert TakesFrom(qs, [], []) by { NoTakes(qs); }
    }
    TakesFit(qs, ranked, r.takes);
  }

  lemma NoTakes(qs: Queues)
    ensures TakesFrom(qs, [], [])
  {
  }

  /** Promotion only of resident adapters, only with the holdback, never of an empty take or a short queue. */
  lemma {:induction false} PromotedAreMerged(p: Policy, qs: Queues, oldest: map<Adapter, Option<real>>,
                                             ranked: seq<Adapter>)
    requires p.W > 0
    ensures forall x :: x in PlanFor(p, qs, oldest, ranked).takes && x.promo ==>
      p.mode.Holdback? && x.adapter in p.mode.merged && x.count > 0 &&
      (|QueueOf(qs, x.adapter)| >= p.W || |QueueOf(qs, x.adapter)| >= p.mode.eff)
  {
    if ranked != [] { PromotedAreMerged(p, qs, oldest, ranked[..|ranked| - 1]); }
  }

  // ---- deadlines ----------------------------------------------------------------------------------

  /** Tokens waiting in the visited queues. */
  ghost function Waiting(qs: Queues, ranked: seq<Adapter>): nat {
    if ranked == [] then 0 else Waiting(qs, ranked[..|ranked| - 1]) + |QueueOf(qs, ranked[|ranked| - 1])|
  }

  /** What a queue gives up when the budget is no constraint. */
  ghost function Ample(p: Policy, k: Adapter, len: nat, age: real): (c: nat)
    requires p.W > 0
    ensures c <= len
  {
    Wanted(p, k, len, age, len)
  }

  lemma EnoughIsAmple(p: Policy, k: Adapter, len: nat, age: real, left: nat)
    requires p.W > 0 && left >= len
    ensures Wanted(p, k, len, age, left) == Ample(p, k, len, age)
    ensures len >= p.W ==> Ample(p, k, len, age) == len / p.W * p.W > 0
  {
    QuotientMonotone(len, left, p.W);
    if len >= p.W { QuotientMonotone(p.W, len, p.W); }
  }

  /** Every take is what its queue gives up unconstrained. */
  ghost predicate AmpleTakes(p: Policy, qs: Queues, oldest: map<Adapter, Option<real>>, takes: seq<Take>)
    requires p.W > 0
  {
    forall i :: 0 <= i < |takes| ==>
      takes[i].count == Ample(p, takes[i].adapter, |QueueOf(qs, takes[i].adapter)|,
                              Age(OldestOf(oldest, takes[i].adapter), p.now))
  }

  lemma AmpleVisit(p: Policy, qs: Queues, oldest: map<Adapter, Option<real>>, r: Plan, k: Adapter)
    requires p.W > 0 && !r.halted && |r.batch| + |QueueOf(qs, k)| <= p.budget
    ensures var s := Visit(p, qs, oldest, r, k); var x := s.takes[|r.takes|];
      && !s.halted && |s.batch| <= |r.batch| + |QueueOf(qs, k)| && s.takes == r.takes + [x] && x.adapter == k
      && x.count == Ample(p, k, |QueueOf(qs, k)|, Age(OldestOf(oldest, k), p.now))
  {
    var q, age := QueueOf(qs, k), Age(OldestOf(oldest, k), p.now);
    EnoughIsAmple(p, k, |q|, age, p.budget - |r.batch|);
    hide Ample, Wanted, Promoted;
    assert q == [] ==> Ample(p, k, |q|, age) == 0;
  }

  /** A budget of all waiting tokens constrains no queue. */
  lemma {:induction false} AmpleBudget(p: Policy, qs: Queues, oldest: map<Adapter, Option<real>>, ranked: seq<Adapter>)
    requires p.W > 0 && Waiting(qs, ranked) <= p.budget
    ensures var r := PlanFor(p, qs, oldest, ranked);
      !r.halted && |r.batch| <= Waiting(qs, ranked) && AmpleTakes(p, qs, oldest, r.takes)
  {
    if ranked != [] {
      var n := |ranked| - 1;
      AmpleBudget(p, qs, oldest, ranked[..n]);
      AmpleVisit(p, qs, oldest, PlanFor(p, qs, oldest, ranked[..n]), ranked[n]);
      hide Visit, Ample;
    }
  }

  /** With an ample budget fewer than a warp stays behind, and nothing does in an expired short queue. */
  lemma AmpleLeaves(p: Policy, k: Adapter, len: nat, age: real)
    requires p.W > 0
    ensures len - Ample(p, k, len, age) < p.W
    ensures len < p.W && age >= p.slo ==> Ample(p, k, len, age) == len
  {
    EnoughIsAmple(p, k, len, age, len);
    if len >= p.W { assert len - len / p.W * p.W < p.W; }
  }

  /** The recorded age of a queue is at least the age of each of its tokens. */
  ghost predicate AgeCovers(q: seq<Entry>, enq: Option<real>) {
    q != [] ==> enq.Some? && forall i :: 0 <= i < |q| ==> enq.value <= q[i].t
  }

  /**
   A token that is older than T_SLO at one tick is gone by the end of the next: an expired short queue
   is flushed, and what a full-warp dispatch leaves behind is shorter than the next one takes.
   */
  lemma ExpiredGoneByNextTick(p1: Policy, p2: Policy, k: Adapter, q1: seq<Entry>, enq1: Option<real>, q2: seq<Entry>,
                              enq2: Option<real>, i: nat)
    requires p1.W == p2.W > 0 && p1.slo == p2.slo && p1.now <= p2.now
    requires AgeCovers(q1, enq1) && AgeCovers(q2, enq2) && i < |q1| && p1.now - q1[i].t >= p1.slo
    requires q1[Ample(p1, k, |q1|, Age(enq1, p1.now))..] <= q2
    ensures i < Ample(p1, k, |q1|, Age(enq1, p1.now)) ||
            i - Ample(p1, k, |q1|, Age(enq1, p1.now)) < Ample(p2, k, |q2|, Age(enq2, p2.now))
  {
    var c1 := Ample(p1, k, |q1|, Age(enq1, p1.now));
    AmpleLeaves(p1, k, |q1|, Age(enq1, p1.now));
    if i >= c1 {
      assert q1[c1..][i - c1] == q1[i] && q2[i - c1] == q1[i];
      AmpleLeaves(p2, k, |q2|, Age(enq2, p2.now));
      EnoughIsAmple(p2, k, |q2|, Age(enq2, p2.now), |q2|);
      if |q2| >= p2.W { TimesGrowsOrEqual(1, |q2| / p2.W, p2.W); }
    }
  }

  /** The grace of one tick is needed: a full-warp dispatch can leave an expired remainder behind. */
  lemma ExpiredRemainderExample()
    ensures var p := Policy(Holdback(1, 1, {}), 2, 1.0, 10.0, map[], 1.0, 3);
            var q := [Entry(1, 0.0), Entry(2, 0.0), Entry(3, 0.0)];
            p.now - q[2].t >= p.slo && Ample(p, Adapter("a"), |q|, Age(Some(0.0), p.now)) == 2
  {
  }
}
