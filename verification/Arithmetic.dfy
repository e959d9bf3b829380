/**
 Integer division and products, in the shapes that tiling, paging and warp counting need them.
 */
module Arithmetic {

  function CeilDiv(a: nat, b: nat): nat
    requires b > 0
  {
    (a + b - 1) / b
  }

  lemma CeilDivBounds(a: nat, b: nat)
    requires b > 0
    ensures a <= CeilDiv(a, b) * b < a + b
  {
  }

  lemma TimesGrows(a: int, b: int, d: nat)
    requires a < b
    ensures a * d + d <= b * d
  {
    assert b * d == a * d + d + (b - a - 1) * d;
  }

  lemma CeilDivMonotone(a: nat, b: nat, d: nat)
    requires d > 0 && a <= b
    ensures CeilDiv(a, d) <= CeilDiv(b, d)
  {
    CeilDivBounds(a, d);
    CeilDivBounds(b, d);
    QuotientOrder(CeilDiv(a, d), CeilDiv(b, d), d);
  }

  lemma QuotientOrder(a: int, b: int, d: nat)
    requires a * d < b * d + d
    ensures a <= b
  {
    if b < a { TimesGrows(b, a, d); }
  }

  lemma BlockUnique(a: int, b: int, d: nat, x: int)
    requires a * d <= x < a * d + d && b * d <= x < b * d + d
    ensures a == b
  {
    QuotientOrder(a, b, d);
    QuotientOrder(b, a, d);
  }

  lemma ProductNonNegative(a: nat, b: nat)
    ensures a * b >= 0
  {
  }

  /** The block an offset falls in is one of the blocks of its range. */
  lemma BlockOf(x: nat, n: nat, d: nat) returns (m: nat)
    requires d > 0 && x < n
    ensures m < CeilDiv(n, d) && m * d <= x < m * d + d
  {
    m := x / d;
    assert m * d <= x < m * d + d;
    CeilDivBounds(n, d);
    assert (m + 1) * d == m * d + d;
    QuotientOrder(m + 1, CeilDiv(n, d), d);
  }

  lemma StepPositive(a: nat, b: nat)
    requires a > 0 && b > 0
    ensures a * b > 0
  {
    TimesGrows(0, a, b);
  }

  lemma MultipleOf(a: nat, d: nat)
    requires d > 0 && a % d == 0
    ensures a / d * d == a
  {
  }

  lemma TimesGrowsOrEqual(a: int, b: int, d: nat)
    requires a <= b
    ensures a * d <= b * d
  {
    if a < b { TimesGrows(a, b, d); }
  }

  lemma QuotientMonotone(a: nat, b: nat, w: nat)
    requires w > 0 && a <= b
    ensures a / w <= b / w
    ensures a >= w ==> a / w * w > 0
  {
    assert a / w * w <= a < a / w * w + w;
    assert b < b / w * w + w;
    QuotientOrder(a / w, b / w, w);
  }

  lemma DivMod(a: nat, q: nat, r: nat, n: nat)
    requires r < n && a == q * n + r
    ensures a / n == q && a % n == r
  {
    assert a / n * n <= a < a / n * n + n;
    BlockUnique(q, a / n, n, a);
  }

  /** Counting on by one turns the remainder, and the quotient at the end of a turn. */
  lemma NextTurn(m: nat, n: nat)
    requires n > 0
    ensures (m + 1) % n == if m % n + 1 == n then 0 else m % n + 1
    ensures (m + 1) / n == if m % n + 1 == n then m / n + 1 else m / n
  {
    var q, r := m / n, m % n;
    assert m == q * n + r;
    if r + 1 == n {
      assert m + 1 == (q + 1) * n;
      DivMod(m + 1, q + 1, 0, n);
    } else {
      DivMod(m + 1, q, r + 1, n);
    }
  }

  lemma OneMoreBlock(n: nat, bs: nat)
    requires bs > 0
    ensures CeilDiv(n, bs) <= CeilDiv(n + 1, bs) <= CeilDiv(n, bs) + 1
    ensures CeilDiv(n + 1, bs) > 0
    ensures (CeilDiv(n + 1, bs) - 1) * bs <= n < CeilDiv(n + 1, bs) * bs
  {
    CeilDivMonotone(n, n + 1, bs);
    CeilDivBounds(n, bs);
    CeilDivBounds(n + 1, bs);
    var a, b := CeilDiv(n, bs), CeilDiv(n + 1, bs);
    assert (a + 1) * bs == a * bs + bs;
    assert (b - 1) * bs == b * bs - bs;
    QuotientOrder(b, a + 1, bs);
  }
}
