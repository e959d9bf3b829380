/**
 When the linearised PI loop settles: the exact region of gains, whatever their signs.
 */
module LoopStability {
  import opened PiController
  import opened Sums

  /** The recurrence z = a x + b y from its first two values on. */
  ghost function Orbit(a: real, b: real, x1: real, x0: real, n: nat): real {
    if n == 0 then x0
    else if n == 1 then x1
    else Step(a, b, Orbit(a, b, x1, x0, n - 1), Orbit(a, b, x1, x0, n - 2))
  }

  lemma {:induction false} ErrorsAreOrbit(kp: real, ki: real, L: real, e1: real, e0: real, n: nat)
    ensures ErrorAt(kp, ki, L, e1, e0, n) == Orbit(A(kp, ki, L), B(kp, L), e1, e0, n)
  {
    if n > 1 {
      ErrorsAreOrbit(kp, ki, L, e1, e0, n - 1);
      ErrorsAreOrbit(kp, ki, L, e1, e0, n - 2);
      Recurrence(kp, ki, L, ErrorAt(kp, ki, L, e1, e0, n - 1), ErrorAt(kp, ki, L, e1, e0, n - 2));
    }
  }

  ghost function Sq(x: real): real { Times(x, x) }

  lemma SqNonNegative(x: real)
    ensures Sq(x) >= 0.0
  {
    if x != 0.0 { SquarePositive(x); }
  }

  /** The squared errors of the first n steps. */
  ghost function SquaredErrors(kp: real, ki: real, L: real, e1: real, e0: real, n: nat): real {
    if n == 0 then 0.0 else SquaredErrors(kp, ki, L, e1, e0, n - 1) + Sq(ErrorAt(kp, ki, L, e1, e0, n - 1))
  }

  ghost predicate Within(kp: real, ki: real, L: real, e1: real, e0: real, bound: real) {
    forall n: nat :: SquaredErrors(kp, ki, L, e1, e0, n) <= bound
  }

  /** All squared errors together are finite; so the errors go to zero. */
  ghost predicate RunSettles(kp: real, ki: real, L: real, e1: real, e0: real) {
    exists bound :: Within(kp, ki, L, e1, e0, bound)
  }

  /** ... whatever the first two errors. */
  ghost predicate Settles(kp: real, ki: real, L: real) { forall e1, e0 :: RunSettles(kp, ki, L, e1, e0) }

  /** The squares of the first n values. */
  ghost function Squares(a: real, b: real, x1: real, x0: real, n: nat): real {
    if n == 0 then 0.0 else Squares(a, b, x1, x0, n - 1) + Sq(Orbit(a, b, x1, x0, n - 1))
  }

  lemma {:induction false} ErrorsAreSquares(kp: real, ki: real, L: real, e1: real, e0: real, n: nat)
    ensures SquaredErrors(kp, ki, L, e1, e0, n) == Squares(A(kp, ki, L), B(kp, L), e1, e0, n)
  {
    hide A, B, Sq;
    if n > 0 {
      ErrorsAreSquares(kp, ki, L, e1, e0, n - 1);
      ErrorsAreOrbit(kp, ki, L, e1, e0, n - 1);
    }
  }

  // ---- within the region -------------------------------------------------------------------------------------

  /** The Jury test of z = a x + b y. */
  ghost predicate Inside(a: real, b: real) { -1.0 < b && Abs(a) < 1.0 - b }

  /** (1 - b)^2 - a^2, positive inside the region. */
  ghost function Gap(a: real, b: real): real { Times(1.0 - b - a, 1.0 - b + a) }

  ghost function Weight(a: real, b: real): real { Times(1.0 + b, Sq(Gap(a, b))) }

  lemma WeightPositive(a: real, b: real)
    requires Inside(a, b)
    ensures Weight(a, b) > 0.0
  {
    Positive(1.0 - b - a, 1.0 - b + a);
    Positive(Gap(a, b), Gap(a, b));
    Positive(1.0 + b, Sq(Gap(a, b)));
  }

  /** A step loses a multiple of the square of this. */
  ghost function Root(a: real, b: real, x: real, y: real): real { a * x - (1.0 - b) * y }

  /** What two successive steps lose determines the error they start from. */
  lemma Recovered(a: real, b: real, x: real, y: real)
    ensures Times(Times(a, b), Root(a, b, x, y)) + Times(1.0 - b, Root(a, b, Step(a, b, x, y), x)) ==
      -Times(Gap(a, b), x)
  {
    var c := 1.0 - b;
    var z := Step(a, b, x, y);
    var p, q := a * x - c * y, a * z - c * x;
    assert a * b * p == a * a * b * x - a * b * c * y;
    assert c * q == a * c * z - c * c * x;
    assert a * c * z == a * a * c * x + a * b * c * y;
    assert a * a * b * x + a * a * c * x == a * a * x * (b + c);
    assert Gap(a, b) == c * c - a * a;
  }

  lemma SquareOfSum(u: real, v: real)
    ensures Sq(u + v) <= 2.0 * (Sq(u) + Sq(v))
  {
    SqNonNegative(u - v);
    assert Sq(u - v) == Sq(u) + Sq(v) - 2.0 * Times(u, v);
    assert Sq(u + v) == Sq(u) + Sq(v) + 2.0 * Times(u, v);
  }

  lemma SquareOfProduct(k: real, p: real)
    ensures Sq(Times(k, p)) == Times(Sq(k), Sq(p))
  {
  }

  lemma Scaled(k: real, p: real)
    requires -2.0 <= k <= 2.0
    ensures Sq(Times(k, p)) <= 4.0 * Sq(p)
  {
    SqNonNegative(p);
    NonNegative(2.0 - k, 2.0 + k);
    assert (2.0 - k) * (2.0 + k) == 4.0 - Sq(k);
    SquareOfProduct(k, p);
    NonNegative(4.0 - Sq(k), Sq(p));
    assert (4.0 - Sq(k)) * Sq(p) == 4.0 * Sq(p) - Times(Sq(k), Sq(p));
  }

  lemma SmallProduct(a: real, b: real)
    requires -2.0 <= a <= 2.0 && -1.0 <= b <= 1.0
    ensures -2.0 <= Times(a, b) <= 2.0
  {
    NonNegative(2.0 - a, 1.0 - b);
    NonNegative(2.0 - a, 1.0 + b);
    NonNegative(2.0 + a, 1.0 - b);
    NonNegative(2.0 + a, 1.0 + b);
    assert (2.0 - a) * (1.0 - b) + (2.0 + a) * (1.0 + b) == 4.0 + 2.0 * Times(a, b);
    assert (2.0 - a) * (1.0 + b) + (2.0 + a) * (1.0 - b) == 4.0 - 2.0 * Times(a, b);
  }

  lemma Combined(g: real, u: real, v: real, s: real, t: real)
    requires u + v == -g && Sq(u) <= 4.0 * s && Sq(v) <= 4.0 * t
    ensures Sq(g) <= 8.0 * (s + t)
  {
    SquareOfSum(u, v);
    assert Sq(g) == Sq(-g);
  }

  lemma InsideBounds(a: real, b: real)
    requires Inside(a, b)
    ensures -2.0 <= a <= 2.0 && -1.0 <= b <= 1.0 && -2.0 <= 1.0 - b <= 2.0
  {
  }

  /** The error is bounded by what the two steps lose. */
  lemma ErrorFromLosses(a: real, b: real, x: real, y: real)
    requires Inside(a, b)
    ensures Sq(Times(Gap(a, b), x)) <= 8.0 * (Sq(Root(a, b, x, y)) + Sq(Root(a, b, Step(a, b, x, y), x)))
  {
    hide Gap, Step, Root, Sq, Inside, Times;
    var p, q := Root(a, b, x, y), Root(a, b, Step(a, b, x, y), x);
    Recovered(a, b, x, y);
    InsideBounds(a, b);
    SmallProduct(a, b);
    Scaled(Times(a, b), p);
    Scaled(1.0 - b, q);
    Combined(Times(Gap(a, b), x), Times(Times(a, b), p), Times(1.0 - b, q), Sq(p), Sq(q));
  }

  lemma Loss(a: real, b: real, x: real, y: real)
    ensures Form(a, b, x, y) - Form(a, b, Step(a, b, x, y), x) == Times(1.0 + b, Sq(Root(a, b, x, y)))
  {
    EnergyDrops(a, b, x, y);
  }

  lemma Weighted(k: real, g: real, x: real, s: real, t: real)
    requires k >= 0.0 && Sq(Times(g, x)) <= 8.0 * (s + t)
    ensures Times(Times(k, Sq(g)), Sq(x)) <= 8.0 * (Times(k, s) + Times(k, t))
  {
    SquareOfProduct(g, x);
    NonNegative(k, 8.0 * (s + t) - Sq(Times(g, x)));
    Distribute(k, s, t);
    Associate(k, Sq(g), Sq(x));
  }

  lemma Associate(k: real, s: real, t: real)
    ensures Times(Times(k, s), t) == Times(k, Times(s, t))
  {
  }

  lemma Distribute(k: real, s: real, t: real)
    ensures Times(k, s + t) == Times(k, s) + Times(k, t)
  {
  }

  /** An error costs energy over the next two steps. */
  lemma TwoStepCost(a: real, b: real, x: real, y: real)
    requires Inside(a, b)
    ensures var z := Step(a, b, x, y);
      Times(Weight(a, b), Sq(x)) <= 8.0 * (Form(a, b, x, y) - Form(a, b, Step(a, b, z, x), z))
  {
    hide Form, Step, Gap, Times, Sq, Root, Inside;
    var z := Step(a, b, x, y);
    InsideBounds(a, b);
    ErrorFromLosses(a, b, x, y);
    Loss(a, b, x, y);
    Loss(a, b, z, x);
    Weighted(1.0 + b, Gap(a, b), x, Sq(Root(a, b, x, y)), Sq(Root(a, b, z, x)));
  }

  ghost function EnergyAt(a: real, b: real, x1: real, x0: real, n: nat): real
    requires n > 0
  {
    Form(a, b, Orbit(a, b, x1, x0, n), Orbit(a, b, x1, x0, n - 1))
  }

  lemma OrbitCost(a: real, b: real, x1: real, x0: real, n: nat)
    requires Inside(a, b) && n > 0
    ensures Times(Weight(a, b), Sq(Orbit(a, b, x1, x0, n))) <=
      8.0 * (EnergyAt(a, b, x1, x0, n) - EnergyAt(a, b, x1, x0, n + 2))
  {
    hide Form, Step, Weight, Times, Sq, Inside;
    var x, y := Orbit(a, b, x1, x0, n), Orbit(a, b, x1, x0, n - 1);
    TwoStepCost(a, b, x, y);
    assert Orbit(a, b, x1, x0, n + 1) == Step(a, b, x, y);
    assert Orbit(a, b, x1, x0, n + 2) == Step(a, b, Orbit(a, b, x1, x0, n + 1), x);
  }

  /** The energy pays for all squares. */
  lemma {:induction false} CostBounded(a: real, b: real, x1: real, x0: real, n: nat)
    requires Inside(a, b) && n > 0
    ensures Times(Weight(a, b), Squares(a, b, x1, x0, n)) <=
      Times(Weight(a, b), Sq(x0)) + 8.0 * (EnergyAt(a, b, x1, x0, 1) + EnergyAt(a, b, x1, x0, 2))
                                  - 8.0 * (EnergyAt(a, b, x1, x0, n) + EnergyAt(a, b, x1, x0, n + 1))
  {
    hide EnergyAt, Weight, Times, Sq, Inside;
    if n == 1 {
      assert Squares(a, b, x1, x0, 0) == 0.0;
    } else {
      CostBounded(a, b, x1, x0, n - 1);
      OrbitCost(a, b, x1, x0, n - 1);
      Distribute(Weight(a, b), Squares(a, b, x1, x0, n - 1), Sq(Orbit(a, b, x1, x0, n - 1)));
    }
  }

  lemma EnergyNonNegative(a: real, b: real, x1: real, x0: real, n: nat)
    requires Inside(a, b) && n > 0
    ensures EnergyAt(a, b, x1, x0, n) >= 0.0
  {
    var x, y := Orbit(a, b, x1, x0, n), Orbit(a, b, x1, x0, n - 1);
    EnergyDominates(a, b, x, y);
    SqNonNegative(x);
    SqNonNegative(y);
    NonNegative(1.0 - b - Abs(a), Sq(x) + Sq(y));
  }

  lemma Divided(g: real, s: real, m: real)
    requires g > 0.0 && Times(g, s) <= m
    ensures s <= m / g
  {
    var d := m / g;
    assert d * g == m;
    if s > d {
      Positive(g, s - d);
      Distribute(g, d, s - d);
    }
  }

  ghost function SquareBound(a: real, b: real, x1: real, x0: real): real
    requires Weight(a, b) > 0.0
  {
    (Times(Weight(a, b), Sq(x0)) + 8.0 * (EnergyAt(a, b, x1, x0, 1) + EnergyAt(a, b, x1, x0, 2))) / Weight(a, b)
  }

  lemma SquaresBounded(a: real, b: real, x1: real, x0: real, n: nat)
    requires Inside(a, b) && n > 0 && Weight(a, b) > 0.0
    ensures Squares(a, b, x1, x0, n) <= SquareBound(a, b, x1, x0)
  {
    hide EnergyAt, Weight, Times, Sq, Inside;
    CostBounded(a, b, x1, x0, n);
    EnergyNonNegative(a, b, x1, x0, n);
    EnergyNonNegative(a, b, x1, x0, n + 1);
    Divided(Weight(a, b), Squares(a, b, x1, x0, n),
            Times(Weight(a, b), Sq(x0)) + 8.0 * (EnergyAt(a, b, x1, x0, 1) + EnergyAt(a, b, x1, x0, 2)));
  }

  lemma InsideSettles(kp: real, ki: real, L: real, e1: real, e0: real)
    requires Inside(A(kp, ki, L), B(kp, L))
    ensures RunSettles(kp, ki, L, e1, e0)
  {
    var a, b := A(kp, ki, L), B(kp, L);
    hide A, B, Weight, Inside, SquareBound;
    WeightPositive(a, b);
    var m := SquareBound(a, b, e1, e0);
    var bound := if m > 0.0 then m else 0.0;
    forall n: nat ensures SquaredErrors(kp, ki, L, e1, e0, n) <= bound {
      ErrorsAreSquares(kp, ki, L, e1, e0, n);
      if n > 0 { SquaresBounded(a, b, e1, e0, n); }
    }
    assert Within(kp, ki, L, e1, e0, bound);
  }

  // ---- outside the region ------------------------------------------------------------------------------------

  /** From 1, 1 on: no value is below 1, and without a positive b none is below the one before. */
  lemma {:induction false} NeverShrinks(a: real, b: real, n: nat)
    requires a + b >= 1.0 && (b <= 0.0 || a >= 0.0) && n > 0
    ensures Orbit(a, b, 1.0, 1.0, n) >= 1.0 && Orbit(a, b, 1.0, 1.0, n - 1) >= 1.0
    ensures b <= 0.0 ==> Orbit(a, b, 1.0, 1.0, n) >= Orbit(a, b, 1.0, 1.0, n - 1)
  {
    hide Step;
    if n > 1 {
      NeverShrinks(a, b, n - 1);
      NextNotSmaller(a, b, Orbit(a, b, 1.0, 1.0, n - 1), Orbit(a, b, 1.0, 1.0, n - 2));
    }
  }

  lemma NextNotSmaller(a: real, b: real, x: real, y: real)
    requires a + b >= 1.0 && (b <= 0.0 || a >= 0.0) && x >= 1.0 && y >= 1.0 && (b <= 0.0 ==> x >= y)
    ensures Step(a, b, x, y) >= 1.0 && (b <= 0.0 ==> Step(a, b, x, y) >= x)
  {
    if b <= 0.0 {
      NonNegative(a + b - 1.0, x);
      NonNegative(-b, x - y);
      assert (a + b - 1.0) * x + -b * (x - y) == Step(a, b, x, y) - x;
    } else {
      StepAtLeast(a, b, x, y);
    }
  }

  lemma StepAtLeast(a: real, b: real, x: real, y: real)
    requires a >= 0.0 && b >= 0.0 && x >= 1.0 && y >= 1.0
    ensures Step(a, b, x, y) >= a + b
  {
    var s, t := x - 1.0, y - 1.0;
    NonNegative(a, s);
    NonNegative(b, t);
    assert Step(a, b, x, y) == a * s + b * t + a + b;
  }

  /** Changing every other sign turns a into -a. */
  lemma {:induction false} Mirror(a: real, b: real, x1: real, x0: real, n: nat)
    ensures Orbit(a, b, -x1, x0, n) == if n % 2 == 0 then Orbit(-a, b, x1, x0, n) else -Orbit(-a, b, x1, x0, n)
  {
    hide Step;
    if n > 1 {
      Mirror(a, b, x1, x0, n - 1);
      Mirror(a, b, x1, x0, n - 2);
      StepSigns(a, b, Orbit(-a, b, x1, x0, n - 1), Orbit(-a, b, x1, x0, n - 2));
    }
  }

  lemma StepSigns(a: real, b: real, x: real, y: real)
    ensures Step(a, b, -x, y) == Step(-a, b, x, y) && Step(a, b, x, -y) == -Step(-a, b, x, y)
  {
  }

  lemma SqAtLeastOne(x: real)
    requires x >= 1.0 || x <= -1.0
    ensures Sq(x) >= 1.0
  {
    if x >= 1.0 { NonNegative(x - 1.0, x + 1.0); } else { NonNegative(-x - 1.0, -x + 1.0); }
    assert (x - 1.0) * (x + 1.0) == Sq(x) - 1.0;
  }

  lemma {:induction false} ManySquares(a: real, b: real, x1: real, x0: real, n: nat)
    requires forall i: nat :: Orbit(a, b, x1, x0, i) >= 1.0 || Orbit(a, b, x1, x0, i) <= -1.0
    ensures Squares(a, b, x1, x0, n) >= n as real
  {
    if n > 0 {
      ManySquares(a, b, x1, x0, n - 1);
      SqAtLeastOne(Orbit(a, b, x1, x0, n - 1));
    }
  }

  lemma Exceeds(kp: real, ki: real, L: real, e1: real, e0: real, bound: real)
    requires forall n: nat :: SquaredErrors(kp, ki, L, e1, e0, n) >= n as real
    ensures !Within(kp, ki, L, e1, e0, bound)
  {
    var n: nat := if bound < 0.0 then 1 else bound.Floor + 1;
    assert SquaredErrors(kp, ki, L, e1, e0, n) > bound;
  }

  /** Squared errors that grow with the number of steps have no bound. */
  lemma LargeRunNeverSettles(kp: real, ki: real, L: real, e1: real, e0: real)
    requires forall n: nat :: SquaredErrors(kp, ki, L, e1, e0, n) >= n as real
    ensures !RunSettles(kp, ki, L, e1, e0)
  {
    forall bound ensures !Within(kp, ki, L, e1, e0, bound) { Exceeds(kp, ki, L, e1, e0, bound); }
  }

  lemma GrowingNeverSettles(kp: real, ki: real, L: real)
    requires A(kp, ki, L) + B(kp, L) >= 1.0 && -1.0 < B(kp, L) < 1.0
    ensures !RunSettles(kp, ki, L, 1.0, 1.0)
  {
    hide A, B, Orbit, Squares, SquaredErrors;
    var a, b := A(kp, ki, L), B(kp, L);
    forall i: nat ensures Orbit(a, b, 1.0, 1.0, i) >= 1.0 { NeverShrinks(a, b, i + 1); }
    forall n: nat ensures SquaredErrors(kp, ki, L, 1.0, 1.0, n) >= n as real {
      ErrorsAreSquares(kp, ki, L, 1.0, 1.0, n);
      ManySquares(a, b, 1.0, 1.0, n);
    }
    LargeRunNeverSettles(kp, ki, L, 1.0, 1.0);
  }

  /** Errors that start at 1 and -1 keep changing sign and never get smaller than 1. */
  lemma AlternatingNeverSettles(kp: real, ki: real, L: real)
    requires B(kp, L) - A(kp, ki, L) >= 1.0 && (B(kp, L) <= 0.0 || A(kp, ki, L) <= 0.0)
    ensures !RunSettles(kp, ki, L, -1.0, 1.0)
  {
    hide A, B, Orbit, Squares, SquaredErrors;
    var a, b := A(kp, ki, L), B(kp, L);
    forall i: nat ensures Orbit(a, b, -1.0, 1.0, i) >= 1.0 || Orbit(a, b, -1.0, 1.0, i) <= -1.0 {
      Mirror(a, b, 1.0, 1.0, i);
      NeverShrinks(-a, b, i + 1);
    }
    forall n: nat ensures SquaredErrors(kp, ki, L, -1.0, 1.0, n) >= n as real {
      ErrorsAreSquares(kp, ki, L, -1.0, 1.0, n);
      ManySquares(a, b, -1.0, 1.0, n);
    }
    LargeRunNeverSettles(kp, ki, L, -1.0, 1.0);
  }

  /** The area that two runs span. */
  ghost function Area(u: real, v: real, u0: real, v0: real): real { Times(u, v0) - Times(v, u0) }

  lemma AreaStep(a: real, b: real, u: real, v: real, u0: real, v0: real)
    ensures Area(Step(a, b, u, u0), Step(a, b, v, v0), u, v) == -b * Area(u, v, u0, v0)
  {
    assert Times(Step(a, b, u, u0), v) == a * u * v + b * u0 * v;
    assert Times(Step(a, b, v, v0), u) == a * u * v + b * v0 * u;
  }

  ghost function AreaAt(a: real, b: real, n: nat): real
    requires n > 0
  {
    Area(Orbit(a, b, 1.0, 0.0, n), Orbit(a, b, 0.0, 1.0, n), Orbit(a, b, 1.0, 0.0, n - 1), Orbit(a, b, 0.0, 1.0, n - 1))
  }

  /** With |b| >= 1 the area never shrinks. */
  lemma {:induction false} AreaNeverShrinks(a: real, b: real, n: nat)
    requires (b <= -1.0 || b >= 1.0) && n > 0
    ensures AreaAt(a, b, n) >= 1.0 || AreaAt(a, b, n) <= -1.0
  {
    if n > 1 {
      AreaNeverShrinks(a, b, n - 1);
      hide Area, Step;
      AreaStep(a, b, Orbit(a, b, 1.0, 0.0, n - 1), Orbit(a, b, 0.0, 1.0, n - 1),
               Orbit(a, b, 1.0, 0.0, n - 2), Orbit(a, b, 0.0, 1.0, n - 2));
      ScaledUp(b, AreaAt(a, b, n - 1));
    }
  }

  lemma ScaledUp(b: real, w: real)
    requires (b <= -1.0 || b >= 1.0) && (w >= 1.0 || w <= -1.0)
    ensures -b * w >= 1.0 || -b * w <= -1.0
  {
    var s, t := Abs(b), Abs(w);
    NonNegative(s - 1.0, t - 1.0);
    assert s * t == b * w || s * t == -b * w;
    assert (s - 1.0) * (t - 1.0) == s * t - s - t + 1.0;
  }

  /** An area of at least 1 takes squares of at least 2. */
  lemma AreaTakesSquares(u: real, v: real, u0: real, v0: real)
    requires Area(u, v, u0, v0) >= 1.0 || Area(u, v, u0, v0) <= -1.0
    ensures Sq(u) + Sq(v) + Sq(u0) + Sq(v0) >= 2.0
  {
    SqNonNegative(u - v0);
    SqNonNegative(u + v0);
    SqNonNegative(v - u0);
    SqNonNegative(v + u0);
    assert Sq(u - v0) == Sq(u) + Sq(v0) - 2.0 * Times(u, v0) && Sq(u + v0) == Sq(u) + Sq(v0) + 2.0 * Times(u, v0);
    assert Sq(v - u0) == Sq(v) + Sq(u0) - 2.0 * Times(v, u0) && Sq(v + u0) == Sq(v) + Sq(u0) + 2.0 * Times(v, u0);
  }

  /** Two runs together, in pairs of steps. */
  lemma {:induction false} BothRuns(a: real, b: real, m: nat)
    requires b <= -1.0 || b >= 1.0
    ensures Squares(a, b, 1.0, 0.0, 2 * m) + Squares(a, b, 0.0, 1.0, 2 * m) >= 2.0 * m as real
  {
    if m > 0 {
      BothRuns(a, b, m - 1);
      AreaNeverShrinks(a, b, 2 * m - 1);
      hide Area, Sq, Orbit;
      AreaTakesSquares(Orbit(a, b, 1.0, 0.0, 2 * m - 1), Orbit(a, b, 0.0, 1.0, 2 * m - 1),
                       Orbit(a, b, 1.0, 0.0, 2 * m - 2), Orbit(a, b, 0.0, 1.0, 2 * m - 2));
      TwoMore(a, b, 1.0, 0.0, 2 * m);
      TwoMore(a, b, 0.0, 1.0, 2 * m);
    }
  }

  lemma TwoMore(a: real, b: real, x1: real, x0: real, n: nat)
    requires n > 1
    ensures Squares(a, b, x1, x0, n) ==
      Squares(a, b, x1, x0, n - 2) + Sq(Orbit(a, b, x1, x0, n - 2)) + Sq(Orbit(a, b, x1, x0, n - 1))
  {
    hide Orbit, Sq;
    assert Squares(a, b, x1, x0, n - 1) == Squares(a, b, x1, x0, n - 2) + Sq(Orbit(a, b, x1, x0, n - 2));
  }

  /** With |L Kp| >= 1 two runs cannot both settle. */
  lemma OneOfTwoNeverSettles(kp: real, ki: real, L: real)
    requires B(kp, L) <= -1.0 || B(kp, L) >= 1.0
    ensures !RunSettles(kp, ki, L, 1.0, 0.0) || !RunSettles(kp, ki, L, 0.0, 1.0)
  {
    var a, b := A(kp, ki, L), B(kp, L);
    hide A, B;
    if RunSettles(kp, ki, L, 1.0, 0.0) && RunSettles(kp, ki, L, 0.0, 1.0) {
      var s :| Within(kp, ki, L, 1.0, 0.0, s);
      var t :| Within(kp, ki, L, 0.0, 1.0, t);
      var m: nat := if s + t < 0.0 then 0 else (s + t).Floor + 1;
      ErrorsAreSquares(kp, ki, L, 1.0, 0.0, 2 * m);
      ErrorsAreSquares(kp, ki, L, 0.0, 1.0, 2 * m);
      BothRuns(a, b, m);
      assert false;
    }
  }

  // ---- the region --------------------------------------------------------------------------------------------

  /** The region of gains, in terms of the recurrence. */
  lemma Region(kp: real, ki: real, L: real)
    requires L > 0.0
    ensures Inside(A(kp, ki, L), B(kp, L)) <==> ki > 0.0 && L * kp > -1.0 && L * (2.0 * kp + ki) < 2.0
    ensures A(kp, ki, L) + B(kp, L) >= 1.0 <==> ki <= 0.0
    ensures B(kp, L) - A(kp, ki, L) >= 1.0 <==> L * (2.0 * kp + ki) >= 2.0
  {
    var p, q := L * kp, L * ki;
    assert L * (2.0 * kp + ki) == 2.0 * p + q;
    assert L * (kp + ki) == p + q;
    if ki > 0.0 { Positive(L, ki); } else { NonNegative(L, -ki); }
    assert q > 0.0 <==> ki > 0.0;
  }

  /** The loop settles from every start exactly for these gains. */
  lemma SettlesExactly(kp: real, ki: real, L: real)
    requires L > 0.0
    ensures Settles(kp, ki, L) <==> ki > 0.0 && L * kp > -1.0 && L * (2.0 * kp + ki) < 2.0
  {
    Region(kp, ki, L);
    var a, b := A(kp, ki, L), B(kp, L);
    hide A, B;
    if Inside(a, b) {
      forall e1, e0 ensures RunSettles(kp, ki, L, e1, e0) { InsideSettles(kp, ki, L, e1, e0); }
    } else if b <= -1.0 || b >= 1.0 {
      OneOfTwoNeverSettles(kp, ki, L);
    } else if a + b >= 1.0 {
      GrowingNeverSettles(kp, ki, L);
    } else {
      AlternatingNeverSettles(kp, ki, L);
    }
  }

  /** For positive gains, which the controller demands: twice the proportional plus the integral gain below 2 / L. */
  lemma SettlesIffWithinBound(kp: real, ki: real, L: real)
    requires kp > 0.0 && ki > 0.0 && L > 0.0
    ensures Settles(kp, ki, L) <==> L * (2.0 * kp + ki) < 2.0
  {
    SettlesExactly(kp, ki, L);
    Positive(L, kp);
  }

  /** A positive proportional gain is not needed: with none, any integral gain below 2 / L settles the loop. */
  lemma IntegralAloneSettles(ki: real, L: real)
    requires L > 0.0
    ensures Settles(0.0, ki, L) <==> ki > 0.0 && L * ki < 2.0
  {
    SettlesExactly(0.0, ki, L);
  }

  /** Beyond the bound positive gains overshoot: the errors that start at 1 and -1 never get smaller than 1. */
  lemma OvershootingRunNeverSettles(kp: real, ki: real, L: real)
    requires kp > 0.0 && ki > 0.0 && L > 0.0 && L * (2.0 * kp + ki) >= 2.0
    ensures !RunSettles(kp, ki, L, -1.0, 1.0)
  {
    Region(kp, ki, L);
    var p, q := L * kp, L * ki;
    Positive(L, kp);
    Positive(L, ki);
    assert L * (kp + ki) == p + q && L * (2.0 * kp + ki) == 2.0 * p + q;
    AlternatingNeverSettles(kp, ki, L);
  }
}
