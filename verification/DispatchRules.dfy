/**
 The dispatch rules told of each queue by itself: what a dispatch with budget for all visited tokens leaves behind
 and which tokens it flags.
 */
module DispatchRules {
  import opened Arithmetic
  import opened Common
  import opened DispatchPlan

  // ---- rounding -----------------------------------------------------------------------------------

  /** Python's round(a / b): to the nearest integer, ties to the even one. */
  function RoundHalfEven(a: nat, b: nat): nat
    requires b > 0
  {
    var q, r := a / b, a % b;
    if 2 * r < b || (2 * r == b && q % 2 == 0) then q else q + 1
  }

  /** r is an integer nearest to a / b, the even one of two. */
  ghost predicate Nearest(r: nat, a: nat, b: nat) {
    && 2 * a <= (2 * r + 1) * b && (2 * r - 1) * b <= 2 * a
    && (2 * a == (2 * r + 1) * b || 2 * a == (2 * r - 1) * b ==> r % 2 == 0)
  }

  lemma RoundIsNearest(a: nat, b: nat)
    requires b > 0
    ensures Nearest(RoundHalfEven(a, b), a, b)
  {
    var q, r := a / b, a % b;
    NearestOf(q, r, a, b, q * b);
  }

  lemma NearestOf(q: nat, r: nat, a: nat, b: nat, whole: nat)
    requires whole == q * b && a == whole + r && r < b
    ensures Nearest(if 2 * r < b || (2 * r == b && q % 2 == 0) then q else q + 1, a, b)
  {
    OddTimes(q, b);
    OddTimes(q + 1, b);
    assert (q + 1) * b == whole + b;
  }

  lemma OddTimes(q: nat, b: nat)
    ensures (2 * q + 1) * b == 2 * (q * b) + b && (2 * q - 1) * b == 2 * (q * b) - b
  {
  }

  lemma NearestUnique(r: nat, s: nat, a: nat, b: nat)
    requires b > 0 && Nearest(r, a, b) && Nearest(s, a, b)
    ensures r == s
  {
    NearestAtMost(r, s, a, b);
    NearestAtMost(s, r, a, b);
  }

  lemma NearestAtMost(r: nat, s: nat, a: nat, b: nat)
    requires b > 0 && Nearest(r, a, b) && Nearest(s, a, b)
    ensures s <= r
  {
    if r < s {
      TimesGrowsOrEqual(2 * r + 1, 2 * s - 1, b);
      if r + 1 < s { TimesGrows(2 * r + 1, 2 * s - 1, b); }
    }
  }

  // ---- one queue ----------------------------------------------------------------------------------

  /** A queue of at least W tokens keeps what does not fill a warp; a shorter one leaves whole or stays. */
  ghost predicate Keeps(W: nat, leaves: bool, q: seq<Entry>, rest: seq<Entry>) {
    if |q| >= W then exists warps: nat :: |q| - W < warps * W <= |q| && rest == q[warps * W..]
    else rest == if leaves then [] else q
  }

  /** Rules 2 to 4: the queue reaches eff; or half of it, and half the deadline has passed; or the deadline has. */
  ghost predicate Released(eff: nat, half: nat, deadline: real, age: real, len: nat) {
    len >= eff || (len >= half && age > deadline / 2.0) || age >= deadline
  }

  ghost function DeadlineOf(tmax: map<Adapter, real>, other: real, slo: real, k: Adapter): real {
    var d := if k in tmax then tmax[k] else other;
    if d < slo then d else slo
  }

  ghost function AgeOf(times: map<Adapter, Option<real>>, k: Adapter, now: real): real {
    if k in times && times[k].Some? then now - times[k].value else 0.0
  }

  /** What the holdback with budget for all visited tokens does to every visited queue. */
  ghost predicate HoldbackDone(W: nat, nStar: int, ranked: seq<Adapter>, tmax: map<Adapter, real>, tMax: real,
                               slo: real,
                               merged: set<Adapter>, now: real, was: Queues, times: map<Adapter, Option<real>>,
                               left: Queues, batch: seq<Token>) {
    var K := if |ranked| > 1 then |ranked| else 1;
    exists share: nat :: Nearest(share, W, K)
      && HoldbackWith(W, Threshold(nStar, share), ranked, tmax, tMax, slo, merged, now, was, times, left, batch)
  }

  /** The promotion threshold capped at one adapter's share of a warp, and at least 1. */
  function Threshold(nStar: int, share: nat): (eff: nat)
    ensures nStar < 1 || share < 1 ==> eff == 1
    ensures nStar >= 1 && share >= 1 ==> eff <= nStar && eff <= share && (eff == nStar || eff == share)
  {
    var capped := if nStar < share then nStar else share;
    if capped > 1 then capped else 1
  }

  ghost predicate HoldbackWith(W: nat, eff: nat, ranked: seq<Adapter>, tmax: map<Adapter, real>, tMax: real, slo: real,
                               merged: set<Adapter>, now: real, was: Queues, times: map<Adapter, Option<real>>,
                               left: Queues, batch: seq<Token>) {
    && (forall k :: k in ranked ==>
          Keeps(W, Released(eff, CeilDiv(eff, 2), DeadlineOf(tmax, tMax, slo, k), AgeOf(times, k, now),
                            |QueueOf(was, k)|), QueueOf(was, k), QueueOf(left, k)))
    && forall x :: x in batch ==>
         x.0 in ranked && (x.2 <==> x.0 in merged && (|QueueOf(was, x.0)| >= W || |QueueOf(was, x.0)| >= eff))
  }

  /** What a dispatch by deadline with budget for all visited tokens does to every visited queue. */
  ghost predicate DeadlineDone(W: nat, visit: seq<Adapter>, tmax: map<Adapter, real>, other: real, slo: real, now: real,
                               was: Queues, times: map<Adapter, Option<real>>, left: Queues, batch: seq<Token>) {
    && (forall k :: k in visit ==>
          Keeps(W, AgeOf(times, k, now) >= DeadlineOf(tmax, other, slo, k), QueueOf(was, k), QueueOf(left, k)))
    && forall x :: x in batch ==> x.0 in visit && !x.2
  }

  /** Does the rule of a policy release a queue shorter than a warp? */
  ghost predicate ReleasedBy(p: Policy, k: Adapter, age: real, len: nat) {
    var d := DeadlineOf(p.tmax, p.default, p.slo, k);
    if p.mode.Holdback? then Released(p.mode.eff, p.mode.half, d, age, len) else age >= d
  }

  lemma AmpleKeeps(p: Policy, k: Adapter, age: real, q: seq<Entry>)
    requires p.W > 0
    ensures Keeps(p.W, ReleasedBy(p, k, age, |q|), q, q[Ample(p, k, |q|, age)..])
  {
    EnoughIsAmple(p, k, |q|, age, |q|);
    if |q| >= p.W {
      WholeWarpsOf(|q|, p.W);
      hide Ample;
      assert |q| - p.W < (|q| / p.W) * p.W <= |q|;
    } else {
      ShortIs(p, k, age, |q|);
    }
  }

  lemma WholeWarpsOf(len: nat, w: nat)
    requires w > 0
    ensures len - w < len / w * w <= len
  {
  }

  lemma ShortIs(p: Policy, k: Adapter, age: real, len: nat)
    requires p.W > 0 && len < p.W
    ensures Ample(p, k, len, age) == if ReleasedBy(p, k, age, len) then len else 0
  {
  }

  // ---- flags --------------------------------------------------------------------------------------

  /** A taken token's flag: the holdback is on, its adapter is resident, and the queue reached W or eff. */
  ghost predicate FlagFor(p: Policy, qs: Queues, k: Adapter) {
    p.mode.Holdback? && k in p.mode.merged && (|QueueOf(qs, k)| >= p.W || |QueueOf(qs, k)| >= p.mode.eff)
  }

  ghost predicate Flagged(p: Policy, qs: Queues, ranked: seq<Adapter>, batch: seq<Token>) {
    forall x :: x in batch ==> x.0 in ranked && (x.2 <==> FlagFor(p, qs, x.0))
  }

  lemma {:induction false} BatchFlags(p: Policy, qs: Queues, oldest: map<Adapter, Option<real>>, ranked: seq<Adapter>)
    requires p.W > 0
    ensures Flagged(p, qs, ranked, PlanFor(p, qs, oldest, ranked).batch)
  {
    if ranked != [] {
      var n := |ranked| - 1;
      BatchFlags(p, qs, oldest, ranked[..n]);
      VisitFlags(p, qs, oldest, PlanFor(p, qs, oldest, ranked[..n]), ranked[n]);
      hide FlagFor, Visit;
      assert forall k :: k in ranked[..n] || k == ranked[n] ==> k in ranked;
    }
  }

  lemma VisitFlags(p: Policy, qs: Queues, oldest: map<Adapter, Option<real>>, r: Plan, k: Adapter)
    requires p.W > 0 && |r.batch| <= p.budget
    ensures forall x :: x in Visit(p, qs, oldest, r, k).batch ==>
      x in r.batch || (x.0 == k && (x.2 <==> FlagFor(p, qs, k)))
  {
    hide Wanted;
  }
}
