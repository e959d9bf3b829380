/**
 The PI controller of the global deadline: gains scaled into the stable region of the estimated slope, and the
 linearised loop they stabilise.
 */
module PiController {
  import opened Common
  import opened Sums

  function Abs(x: real): real { if x < 0.0 then -x else x }

  function Clip(x: real, lo: real, hi: real): real {
    var up := if x > lo then x else lo;
    if up < hi then up else hi
  }

  /** The average of x and a new sample y of weight a. */
  ghost predicate IsAverage(a: real, x: real, y: real, average: real) { average == (1.0 - a) * x + a * y }

  /** The slope after WAR and T_max: a finite difference counts once T_max has moved by 1e-6, in an average. */
  ghost predicate Sampled(a: real, was: Option<real>, war0: Option<real>, tmax0: Option<real>, war: real, tmax: real,
                          now: Option<real>) {
    if war0.None? || tmax0.None? || -0.000001 < tmax - tmax0.value < 0.000001 then now == was
    else
      var rise, run := war - war0.value, tmax - tmax0.value;
      exists sample :: Quotient(sample, rise, run) &&
        if was.None? then now == Some(sample) else now.Some? && IsAverage(a, was.value, sample, now.value)
  }

  /** The size of rise over run. */
  ghost predicate Quotient(q: real, rise: real, run: real) {
    q >= 0.0 && (q * run == rise || q * run == -rise)
  }

  lemma QuotientIs(rise: real, run: real)
    requires run != 0.0
    ensures Quotient(Abs(rise / run), rise, run)
  {
  }

  /** next is the move of tmax by PI gains p and i for errors e and, before it, e0, as far as lo and hi allow. */
  ghost predicate IsMove(tmax: real, p: real, i: real, e: real, e0: real, lo: real, hi: real, next: real) {
    var goal := tmax + p * (e - e0) + i * e;
    next == goal || (next == lo && goal <= lo) || (next == hi && goal >= hi)
  }

  /** A move that is not clipped is one step of the loop, whatever the slope of WAR over T_max. */
  ghost predicate FollowsLoop(tmax: real, p: real, i: real, e: real, e0: real, target: real, war: real, next: real) {
    forall l :: target - (war + l * (next - tmax)) == NextError(p, i, l, e, e0)
  }

  lemma MoveFollowsLoop(tmax: real, p: real, i: real, e: real, e0: real, target: real, war: real, next: real)
    requires next == tmax + p * (e - e0) + i * e && e == target - war
    ensures FollowsLoop(tmax, p, i, e, e0, target, war, next)
  {
    var move := next - tmax;
    forall l ensures target - (war + l * (next - tmax)) == NextError(p, i, l, e, e0) {
      assert p * (e - e0) + i * e == move;
    }
  }

  /** While WAR is short of the target and not closer than before, T_max does not fall; and the other way round. */
  lemma MoveTowards(tmax: real, p: real, i: real, e: real, e0: real, lo: real, hi: real, next: real)
    requires IsMove(tmax, p, i, e, e0, lo, hi, next) && p > 0.0 && i > 0.0
    ensures e >= 0.0 && e >= e0 ==> next >= tmax || next == hi
    ensures e <= 0.0 && e <= e0 ==> next <= tmax || next == lo
  {
    if e >= 0.0 && e >= e0 {
      NonNegative(p, e - e0);
      NonNegative(i, e);
    }
    if e <= 0.0 && e <= e0 {
      NonNegative(p, e0 - e);
      NonNegative(i, -e);
    }
  }

  /** Twice the proportional plus the integral gain within the margin of the bound. */
  ghost predicate WithinBound(p: real, i: real, margin: real, L: Option<real>) {
    L.Some? && L.value > 0.0 ==> 2.0 * p + i <= margin * 2.0 / L.value
  }

  /** Both gains scaled alike. */
  ghost predicate Proportional(p: real, i: real, kp: real, ki: real) { p * ki == i * kp }

  lemma Unscaled(kp: real, ki: real)
    ensures Proportional(kp, ki, kp, ki)
  {
  }

  /** Gains that the linearised loop of slope L tolerates. */
  ghost predicate Stable(kp: real, ki: real, L: real) { kp > 0.0 && ki > 0.0 && L > 0.0 && L * (2.0 * kp + ki) < 2.0 }

  class PIController {
    const kp: real
    const ki: real
    const warTarget: real
    const tmaxMin: real
    const tmaxMax: real
    const margin: real
    const slopeAlpha: real
    var tmax: real
    var L: Option<real>
    var t: nat
    var prevError: Option<real>
    var prevWar: Option<real>
    var prevTmax: Option<real>

    // Only the gains are checked when a controller is made; what needs a positive margin, an average weight within
    // [0, 1] or an interval in order says so.

    ghost predicate Valid()
      reads this
    {
      && kp > 0.0 && ki > 0.0 && prevWar.Some? == prevTmax.Some? == prevError.Some?
      && (0.0 <= slopeAlpha <= 1.0 && L.Some? ==> L.value >= 0.0)
      && (tmaxMin <= tmaxMax && t > 0 ==> tmaxMin <= tmax <= tmaxMax)
    }

    constructor (kp: real, ki: real, warTarget: real, tmaxInit: real, tmaxMin: real, tmaxMax: real, margin: real,
                 slopeAlpha: real)
      requires kp > 0.0 && ki > 0.0
      ensures Valid() && t == 0 && L.None? && tmax == tmaxInit && prevError.None?
      ensures this.kp == kp && this.ki == ki && this.margin == margin && this.tmaxMin == tmaxMin
      ensures this.tmaxMax == tmaxMax && this.slopeAlpha == slopeAlpha && this.warTarget == warTarget
    {
      this.kp, this.ki, this.warTarget, this.tmaxMin, this.tmaxMax := kp, ki, warTarget, tmaxMin, tmaxMax;
      this.margin, this.slopeAlpha, tmax, L, t := margin, slopeAlpha, tmaxInit, None, 0;
      prevError, prevWar, prevTmax := None, None, None;
    }

    /** The configured gains, scaled down when they exceed the bound for the estimated slope. */
    method EffectiveGains() returns (p: real, i: real)
      requires Valid()
      ensures Proportional(p, i, kp, ki) && WithinBound(p, i, margin, L)
      ensures margin > 0.0 && 0.0 <= slopeAlpha <= 1.0 ==> 0.0 < p <= kp && 0.0 < i <= ki
      ensures L.None? || L.value == 0.0 || 2.0 * kp + ki <= margin * 2.0 / L.value ==> p == kp && i == ki
    {
      Unscaled(kp, ki);
      hide Proportional;
      if L.None? || L.value == 0.0 { return kp, ki; }
      var bound := margin * 2.0 / L.value;
      var total := 2.0 * kp + ki;
      if total <= bound { return kp, ki; }
      var scale := bound / total;
      p, i := kp * scale, ki * scale;
      ScaledGains(kp, ki, bound, scale, p, i);
      if margin > 0.0 && L.value > 0.0 { BoundPositive(margin, L.value); }
    }

    /** The exponential average, with this weight on the sample. */
    method Average(x: real, sample: real) returns (average: real)
      ensures IsAverage(slopeAlpha, x, sample, average)
      ensures 0.0 <= slopeAlpha <= 1.0 && x >= 0.0 && sample >= 0.0 ==> average >= 0.0
    {
      average := (1.0 - slopeAlpha) * x + slopeAlpha * sample;
      if 0.0 <= slopeAlpha <= 1.0 && x >= 0.0 && sample >= 0.0 { EwmaNonNegative(slopeAlpha, x, sample); }
    }

    /** A new finite-difference sample of the slope; T_max changes below 1e-6 give none. */
    method UpdateSlope(war: real)
      requires Valid()
      modifies this`L
      ensures Valid()
      ensures Sampled(slopeAlpha, old(L), prevWar, prevTmax, war, tmax, L)
    {
      hide IsAverage, Quotient;
      if prevWar.None? { return; }
      var dTmax := tmax - prevTmax.value;
      if Abs(dTmax) < 0.000001 { return; }
      var sample := Abs((war - prevWar.value) / dTmax);
      QuotientIs(war - prevWar.value, dTmax);
      if L.None? {
        L := Some(sample);
      } else {
        var average := Average(L.value, sample);
        L := Some(average);
      }
    }

    /** The PI move of T_max, clipped. */
    method Move(p: real, de: real, i: real, e: real, ghost war: real) returns (next: real)
      requires e == warTarget - war
      ensures tmaxMin <= tmaxMax ==> tmaxMin <= next <= tmaxMax && IsMove(tmax, p, i, e, e - de, tmaxMin, tmaxMax, next)
      ensures tmaxMin < next < tmaxMax ==> FollowsLoop(tmax, p, i, e, e - de, warTarget, war, next)
      ensures p > 0.0 && i > 0.0 && tmaxMin <= tmaxMax ==>
        && (e >= 0.0 && de >= 0.0 ==> next >= tmax || next == tmaxMax)
        && (e <= 0.0 && de <= 0.0 ==> next <= tmax || next == tmaxMin)
    {
      hide FollowsLoop;
      var goal := tmax + p * de + i * e;
      next := Clip(goal, tmaxMin, tmaxMax);
      assert de == e - (e - de);
      if next == goal { MoveFollowsLoop(tmax, p, i, e, e - de, warTarget, war, next); }
      if p > 0.0 && i > 0.0 && tmaxMin <= tmaxMax { MoveTowards(tmax, p, i, e, e - de, tmaxMin, tmaxMax, next); }
    }

    /** One control step; the gains it used are returned for reference. */
    method Update(war: real) returns (tm: real, ghost p: real, ghost i: real)
      requires Valid()
      modifies this
      ensures Valid() && tm == tmax && t == old(t) + 1 && (tmaxMin <= tmaxMax ==> tmaxMin <= tmax <= tmaxMax)
      ensures Proportional(p, i, kp, ki) && WithinBound(p, i, margin, L)
      ensures margin > 0.0 && 0.0 <= slopeAlpha <= 1.0 ==> p > 0.0 && i > 0.0
      ensures prevError == Some(warTarget - war) && prevWar == Some(war) && prevTmax == Some(old(tmax))
      ensures Sampled(slopeAlpha, old(L), old(prevWar), old(prevTmax), war, old(tmax), L)
      ensures var e := warTarget - war; var e0 := if old(prevError).None? then e else old(prevError).value;
        && (tmaxMin <= tmaxMax ==> IsMove(old(tmax), p, i, e, e0, tmaxMin, tmaxMax, tmax))
        && (tmaxMin < tmax < tmaxMax ==> FollowsLoop(old(tmax), p, i, e, e0, warTarget, war, tmax))
        && (margin > 0.0 && 0.0 <= slopeAlpha <= 1.0 && tmaxMin <= tmaxMax ==>
              && (e >= 0.0 && e >= e0 ==> tmax >= old(tmax) || tmax == tmaxMax)
              && (e <= 0.0 && e <= e0 ==> tmax <= old(tmax) || tmax == tmaxMin))
    {
      hide WithinBound, Proportional, FollowsLoop, IsMove, Sampled;
      UpdateSlope(war);
      var kpE, kiE := EffectiveGains();
      var e := warTarget - war;
      var de := if prevError.None? then 0.0 else e - prevError.value;
      prevError, prevWar, prevTmax := Some(e), Some(war), Some(tmax);
      tmax := Move(kpE, de, kiE, e, war);
      t := t + 1;
      tm, p, i := tmax, kpE, kiE;
    }
  }

  lemma BoundPositive(margin: real, L: real)
    requires margin > 0.0 && L > 0.0
    ensures margin * 2.0 / L > 0.0
  {
  }

  lemma EwmaNonNegative(a: real, x: real, y: real)
    requires 0.0 <= a <= 1.0 && x >= 0.0 && y >= 0.0
    ensures (1.0 - a) * x + a * y >= 0.0
  {
    NonNegative(1.0 - a, x);
    NonNegative(a, y);
  }

  lemma NonNegative(a: real, x: real)
    requires a >= 0.0 && x >= 0.0
    ensures a * x >= 0.0
  {
  }

  lemma Fraction(bound: real, total: real, s: real)
    requires total > 0.0 && bound < total && s == bound / total
    ensures s * total == bound && (bound > 0.0 ==> 0.0 < s < 1.0)
  {
    assert s * total == bound;
    if s <= 0.0 { NonNegative(-s, total); }
    if s >= 1.0 { NonNegative(s - 1.0, total); }
  }

  /** Scaling both gains by bound / total brings their total to the bound. */
  lemma ScaledGains(kp: real, ki: real, bound: real, s: real, p: real, i: real)
    requires kp > 0.0 && ki > 0.0 && bound < 2.0 * kp + ki && s == bound / (2.0 * kp + ki) && p == kp * s
    requires i == ki * s
    ensures 2.0 * p + i == bound && Proportional(p, i, kp, ki)
    ensures bound > 0.0 ==> 0.0 < p <= kp && 0.0 < i <= ki
  {
    var total := 2.0 * kp + ki;
    Fraction(bound, total, s);
    if bound > 0.0 {
      ProductPositive(kp, s);
      ProductPositive(ki, s);
    }
    assert 2.0 * p + i == s * total;
    assert p * ki == kp * s * ki == i * kp;
  }

  lemma ProductPositive(k: real, s: real)
    requires k > 0.0 && 0.0 < s < 1.0
    ensures 0.0 < k * s <= k
  {
  }

  // ---- the linearised loop --------------------------------------------------------------------------------------

  /** The error after the next step, from the last two, when WAR follows T_max with slope L and nothing is clipped. */
  function NextError(kp: real, ki: real, L: real, e: real, e0: real): real { e - L * (kp * (e - e0) + ki * e) }

  /** The same as a second-order recurrence. */
  ghost function A(kp: real, ki: real, L: real): real { 1.0 - L * (kp + ki) }

  ghost function B(kp: real, L: real): real { L * kp }

  /** Schur-Cohn form of the recurrence z = a x + b y. */
  ghost function Form(a: real, b: real, x: real, y: real): real { (1.0 - b) * (x * x + y * y) - 2.0 * a * x * y }

  function Step(a: real, b: real, x: real, y: real): real { a * x + b * y }

  /** A positive multiple of the squared errors, within the Jury region. */
  ghost function Bowl(a: real, b: real, x: real, y: real): real { (1.0 - b - Abs(a)) * (x * x + y * y) }

  /** The energy of two successive errors. */
  ghost function Energy(kp: real, ki: real, L: real, e: real, e0: real): real { Form(A(kp, ki, L), B(kp, L), e, e0) }

  lemma Recurrence(kp: real, ki: real, L: real, e: real, e0: real)
    ensures NextError(kp, ki, L, e, e0) == Step(A(kp, ki, L), B(kp, L), e, e0)
  {
  }

  /** Within the bound the recurrence passes the Jury test: |a| < 1 - b and 0 < b < 1. */
  lemma Jury(kp: real, ki: real, L: real)
    requires Stable(kp, ki, L)
    ensures 0.0 < B(kp, L) < 1.0 && Abs(A(kp, ki, L)) < 1.0 - B(kp, L)
  {
    var p, q := L * kp, L * ki;
    assert p > 0.0 && q > 0.0;
    assert L * (2.0 * kp + ki) == 2.0 * p + q;
    assert L * (kp + ki) == p + q;
  }

  /** The energy dominates the errors: it is zero only when both are. */
  lemma EnergyDominates(a: real, b: real, x: real, y: real)
    requires Abs(a) < 1.0 - b
    ensures Form(a, b, x, y) >= Bowl(a, b, x, y)
  {
    assert (x - y) * (x - y) == x * x + y * y - 2.0 * x * y;
    assert (x + y) * (x + y) == x * x + y * y + 2.0 * x * y;
    if a >= 0.0 { Squares(a, x, y); } else { Squares(-a, x, -y); }
  }

  lemma Squares(a: real, x: real, y: real)
    requires a >= 0.0
    ensures a * (x * x + y * y) >= 2.0 * a * x * y
  {
    assert (x - y) * (x - y) >= 0.0;
    assert a * ((x - y) * (x - y)) == a * (x * x + y * y) - 2.0 * a * x * y;
  }

  /** Each step loses exactly (1 + b)(a e - (1 - b) e0)^2. */
  lemma EnergyDrops(a: real, b: real, x: real, y: real)
    ensures Form(a, b, x, y) - Form(a, b, Step(a, b, x, y), x) ==
      (1.0 + b) * ((a * x - (1.0 - b) * y) * (a * x - (1.0 - b) * y))
  {
  }

  lemma FormNeverRises(a: real, b: real, x: real, y: real)
    requires b >= -1.0
    ensures Form(a, b, Step(a, b, x, y), x) <= Form(a, b, x, y)
    ensures b > -1.0 && Form(a, b, Step(a, b, x, y), x) == Form(a, b, x, y) ==> a * x == (1.0 - b) * y
  {
    EnergyDrops(a, b, x, y);
    Square(1.0 + b, a * x - (1.0 - b) * y);
  }

  /** In the stable region the energy is positive definite and no step raises it. */
  lemma EnergyNeverRises(kp: real, ki: real, L: real, e: real, e0: real)
    requires Stable(kp, ki, L)
    ensures Energy(kp, ki, L, NextError(kp, ki, L, e, e0), e) <= Energy(kp, ki, L, e, e0)
    ensures Energy(kp, ki, L, e, e0) >= Bowl(A(kp, ki, L), B(kp, L), e, e0)
    ensures 1.0 - B(kp, L) - Abs(A(kp, ki, L)) > 0.0
  {
    Jury(kp, ki, L);
    Recurrence(kp, ki, L, e, e0);
    hide NextError, A, B, Form, Step, Bowl;
    EnergyDominates(A(kp, ki, L), B(kp, L), e, e0);
    FormNeverRises(A(kp, ki, L), B(kp, L), e, e0);
  }

  /** Two steps lose energy unless the errors are zero already. */
  lemma TwoStepsLose(a: real, b: real, x: real, y: real)
    requires 0.0 < b < 1.0 && Abs(a) < 1.0 - b && (x != 0.0 || y != 0.0)
    ensures var z := Step(a, b, x, y); Form(a, b, Step(a, b, z, x), z) < Form(a, b, x, y)
  {
    var z := Step(a, b, x, y);
    FormNeverRises(a, b, x, y);
    FormNeverRises(a, b, z, x);
    hide Form;
    if Form(a, b, Step(a, b, z, x), z) == Form(a, b, x, y) {
      Cancelled(b, y);
      BothZero(a, 1.0 - b, x, y);
    }
  }

  lemma Cancelled(b: real, y: real)
    ensures (1.0 - b) * y + b * y == y
  {
  }

  lemma BothZero(a: real, c: real, x: real, y: real)
    requires Abs(a) < c && a * x == c * y && a * y == c * x
    ensures x == 0.0 && y == 0.0
  {
    assert (c - a) * (x + y) == 0.0;
    assert (c + a) * (x - y) == 0.0;
    if x + y > 0.0 { Positive(c - a, x + y); } else if x + y < 0.0 { Positive(c - a, -(x + y)); }
    if x - y > 0.0 { Positive(c + a, x - y); } else if x - y < 0.0 { Positive(c + a, -(x - y)); }
  }

  lemma Square(c: real, d: real)
    requires c >= 0.0
    ensures c * (d * d) >= 0.0 && (c > 0.0 && c * (d * d) == 0.0 ==> d == 0.0)
  {
    if d != 0.0 {
      SquarePositive(d);
      if c > 0.0 { Positive(c, Times(d, d)); }
    }
  }

  lemma SquarePositive(d: real)
    requires d != 0.0
    ensures Times(d, d) > 0.0
  {
    if d > 0.0 {
      Positive(d, d);
    } else {
      Positive(-d, -d);
      assert Times(-d, -d) == Times(d, d);
    }
  }

  lemma Positive(c: real, d: real)
    requires c > 0.0 && d > 0.0
    ensures Times(c, d) > 0.0
  {
  }

  /** The errors of the loop from its first two on. */
  ghost function ErrorAt(kp: real, ki: real, L: real, e1: real, e0: real, n: nat): real {
    if n == 0 then e0
    else if n == 1 then e1
    else NextError(kp, ki, L, ErrorAt(kp, ki, L, e1, e0, n - 1), ErrorAt(kp, ki, L, e1, e0, n - 2))
  }

  /** Over any run the energy stays below its start, so the errors stay bounded. */
  lemma {:induction false} RunBounded(kp: real, ki: real, L: real, e1: real, e0: real, n: nat)
    requires Stable(kp, ki, L) && n > 0
    ensures Energy(kp, ki, L, ErrorAt(kp, ki, L, e1, e0, n), ErrorAt(kp, ki, L, e1, e0, n - 1)) <=
      Energy(kp, ki, L, e1, e0)
  {
    if n > 1 {
      RunBounded(kp, ki, L, e1, e0, n - 1);
      EnergyNeverRises(kp, ki, L, ErrorAt(kp, ki, L, e1, e0, n - 1), ErrorAt(kp, ki, L, e1, e0, n - 2));
      hide Energy, NextError;
    }
  }

  /** Gains within a margin below one of the bound are stable ones. */
  lemma ScaledGainsAreStable(p: real, i: real, margin: real, L: real)
    requires p > 0.0 && i > 0.0 && 0.0 < margin < 1.0 && L > 0.0 && WithinBound(p, i, margin, Some(L))
    ensures Stable(p, i, L)
  {
    var bound := margin * 2.0 / L;
    assert L * bound == margin * 2.0;
    Ordered(L, 2.0 * p + i, bound);
  }

  lemma Ordered(c: real, x: real, y: real)
    requires c > 0.0 && x <= y
    ensures c * x <= c * y
  {
  }
}
