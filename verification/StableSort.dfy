/**
 Sorting a list by a total order on keys, equal keys in their old order.
 */
module StableSort {

  /** How a key compares its values: le(x, y) when the key of x is at most that of y. */
  ghost predicate KeyOrder<T(!new)>(le: (T, T) -> bool) {
    (forall x, y :: le(x, y) || le(y, x)) && forall x, y, z :: le(x, y) && le(y, z) ==> le(x, z)
  }

  function ByKey<T>(key: T -> int): (T, T) -> bool { (x, y) => key(x) <= key(y) }

  /** Python's list.sort with a key: keys ascending, equal keys in their old order. */
  ghost predicate SortedBy<T(!new)>(s: seq<T>, r: seq<T>, le: (T, T) -> bool) {
    multiset(r) == multiset(s) && Ascending(r, le) && SameTies(s, r, le)
  }

  ghost predicate Ascending<T>(r: seq<T>, le: (T, T) -> bool) { forall i, j :: 0 <= i < j < |r| ==> le(r[i], r[j]) }

  ghost predicate SameTies<T(!new)>(s: seq<T>, r: seq<T>, le: (T, T) -> bool) {
    forall c :: Ties(r, le, c) == Ties(s, le, c)
  }

  predicate Tied<T>(le: (T, T) -> bool, x: T, c: T) { le(x, c) && le(c, x) }

  /** The elements with the key of c. */
  ghost function Ties<T>(s: seq<T>, le: (T, T) -> bool, c: T): seq<T> {
    if s == [] then [] else Ties(s[..|s| - 1], le, c) + (if Tied(le, s[|s| - 1], c) then [s[|s| - 1]] else [])
  }

  lemma {:induction false} TiesAdd<T>(s: seq<T>, u: seq<T>, le: (T, T) -> bool, c: T)
    ensures Ties(s + u, le, c) == Ties(s, le, c) + Ties(u, le, c)
  {
    if u == [] {
      assert s + u == s;
    } else {
      var n := |u| - 1;
      TiesAdd(s, u[..n], le, c);
      assert (s + u)[..|s| + n] == s + u[..n];
    }
  }

  /** Position k of s is where x belongs: behind every key up to its own. */
  ghost predicate Fits<T>(s: seq<T>, x: T, le: (T, T) -> bool, k: nat) {
    && k <= |s| && (forall i :: 0 <= i < k ==> le(s[i], x)) && forall i :: k <= i < |s| ==> !le(s[i], x)
  }

  lemma {:induction false} NoTies<T>(s: seq<T>, le: (T, T) -> bool, c: T)
    requires forall i :: 0 <= i < |s| ==> !Tied(le, s[i], c)
    ensures Ties(s, le, c) == []
  {
    if s != [] { NoTies(s[..|s| - 1], le, c); }
  }

  lemma InsertedTies<T(!new)>(s: seq<T>, x: T, le: (T, T) -> bool, k: nat, c: T)
    requires KeyOrder(le) && Fits(s, x, le, k)
    ensures Ties(s[..k] + [x] + s[k..], le, c) == Ties(s + [x], le, c)
  {
    hide KeyOrder;
    TiesBehind(s, x, le, k, c);
    hide Ties, Tied;
    TiesAdd(s[..k] + [x], s[k..], le, c);
    TiesAdd(s[..k], [x], le, c);
    TiesAdd(s[..k], s[k..], le, c);
    TiesAdd(s, [x], le, c);
    assert s[..k] + s[k..] == s;
  }

  /** x, or what comes behind it, is not tied with c. */
  lemma TiesBehind<T(!new)>(s: seq<T>, x: T, le: (T, T) -> bool, k: nat, c: T)
    requires KeyOrder(le) && Fits(s, x, le, k)
    ensures Ties([x], le, c) == [] || Ties(s[k..], le, c) == []
  {
    if Tied(le, x, c) {
      forall i | k <= i < |s| ensures !Tied(le, s[i], c) { assert !le(s[i], x); }
      hide KeyOrder;
      NoTies(s[k..], le, c);
    }
  }

  lemma Inserted<T(!new)>(s: seq<T>, x: T, le: (T, T) -> bool, k: nat)
    requires KeyOrder(le) && Ascending(s, le) && Fits(s, x, le, k)
    ensures SortedBy(s + [x], s[..k] + [x] + s[k..], le)
  {
    forall c ensures Ties(s[..k] + [x] + s[k..], le, c) == Ties(s + [x], le, c) { InsertedTies(s, x, le, k, c); }
    hide Ties;
    InsertedAscends(s, x, le, k);
    hide Ascending;
    assert s == s[..k] + s[k..];
  }

  lemma InsertedAscends<T(!new)>(s: seq<T>, x: T, le: (T, T) -> bool, k: nat)
    requires KeyOrder(le) && Ascending(s, le) && Fits(s, x, le, k)
    ensures Ascending(s[..k] + [x] + s[k..], le)
  {
    var r := s[..k] + [x] + s[k..];
    assert forall i :: 0 <= i < |r| ==> r[i] == if i < k then s[i] else if i == k then x else s[i - 1];
  }

  lemma SortedStep<T(!new)>(u: seq<T>, s: seq<T>, r: seq<T>, x: T, le: (T, T) -> bool)
    requires SortedBy(u, s, le) && SortedBy(s + [x], r, le)
    ensures SortedBy(u + [x], r, le)
  {
    forall c ensures Ties(r, le, c) == Ties(u + [x], le, c) {
      TiesAdd(u, [x], le, c);
      TiesAdd(s, [x], le, c);
    }
  }

  method Insert<T(!new)>(s: seq<T>, x: T, le: (T, T) -> bool) returns (r: seq<T>)
    requires KeyOrder(le) && Ascending(s, le)
    ensures SortedBy(s + [x], r, le)
  {
    var k := |s|;
    while k > 0 && !le(s[k - 1], x)
      invariant 0 <= k <= |s| && forall i :: k <= i < |s| ==> !le(s[i], x)
    {
      k := k - 1;
    }
    Inserted(s, x, le, k);
    r := s[..k] + [x] + s[k..];
  }

  method Sort<T(!new)>(s: seq<T>, le: (T, T) -> bool) returns (r: seq<T>)
    requires KeyOrder(le)
    ensures SortedBy(s, r, le)
  {
    r := [];
    var i := 0;
    while i < |s|
      invariant 0 <= i <= |s| && SortedBy(s[..i], r, le)
    {
      ghost var r0 := r;
      r := Insert(r, s[i], le);
      SortedStep(s[..i], r0, r, s[i], le);
      assert s[..i + 1] == s[..i] + [s[i]];
      i := i + 1;
    }
    assert s[..|s|] == s;
  }

  /** The last of an ascending list has the largest key of all. */
  lemma LastIsLargest<T>(a: seq<T>, le: (T, T) -> bool, x: T)
    requires Ascending(a, le) && x in a
    ensures x == a[|a| - 1] || le(x, a[|a| - 1])
  {
    var i :| 0 <= i < |a| && a[i] == x;
  }

  lemma SplitLast<T>(a: seq<T>)
    requires a != []
    ensures multiset(a) == multiset(a[..|a| - 1]) + multiset{a[|a| - 1]}
  {
    assert a == a[..|a| - 1] + [a[|a| - 1]];
  }

  ghost predicate TieFree<T(!new)>(elems: set<T>, le: (T, T) -> bool) {
    forall x, y :: x in elems && y in elems && Tied(le, x, y) ==> x == y
  }

  lemma SameLast<T(!new)>(a: seq<T>, b: seq<T>, le: (T, T) -> bool, elems: set<T>)
    requires Ascending(a, le) && Ascending(b, le) && multiset(a) == multiset(b) && a != [] && b != []
    requires TieFree(elems, le) && forall x :: x in a ==> x in elems
    ensures a[|a| - 1] == b[|b| - 1]
  {
    var x, y := a[|a| - 1], b[|b| - 1];
    assert x in multiset(b) && y in multiset(a);
    LastIsLargest(a, le, y);
    LastIsLargest(b, le, x);
    assert x == y || Tied(le, x, y);
  }

  lemma SameLength<T>(a: seq<T>, b: seq<T>)
    requires multiset(a) == multiset(b)
    ensures |a| == |b|
  {
    assert |a| == |multiset(a)| == |multiset(b)| == |b|;
  }

  lemma SameFronts<T>(a: seq<T>, b: seq<T>, n: nat)
    requires multiset(a) == multiset(b) && |a| == |b| == n + 1 && a[n] == b[n]
    ensures multiset(a[..n]) == multiset(b[..n])
  {
    SplitLast(a);
    SplitLast(b);
    assert multiset(a[..n]) == multiset(a) - multiset{a[n]} == multiset(b[..n]);
  }

  /** Without ties there is one ascending arrangement. */
  lemma {:induction false} AscendingUnique<T(!new)>(a: seq<T>, b: seq<T>, le: (T, T) -> bool, elems: set<T>)
    requires Ascending(a, le) && Ascending(b, le) && multiset(a) == multiset(b)
    requires TieFree(elems, le) && forall x :: x in a ==> x in elems
    ensures a == b
  {
    SameLength(a, b);
    if a != [] {
      var n := |a| - 1;
      SameLast(a, b, le, elems);
      hide TieFree;
      SameFronts(a, b, n);
      AscendingUnique(a[..n], b[..n], le, elems);
      assert a == a[..n] + [a[n]] && b == b[..n] + [b[n]];
    }
  }

  /** A list in order that has an element keeps it among the ties of itself. */
  lemma LastTie<T(!new)>(a: seq<T>, le: (T, T) -> bool)
    requires KeyOrder(le) && a != []
    ensures Ties(a, le, a[|a| - 1]) != [] && a[|a| - 1] in Ties(a, le, a[|a| - 1])
    ensures Ties(a, le, a[|a| - 1])[|Ties(a, le, a[|a| - 1])| - 1] == a[|a| - 1]
  {
    assert Tied(le, a[|a| - 1], a[|a| - 1]);
  }

  lemma {:induction false} TiesIn<T>(s: seq<T>, le: (T, T) -> bool, c: T, x: T)
    requires x in Ties(s, le, c)
    ensures x in s && Tied(le, x, c)
  {
    if s != [] && x in Ties(s[..|s| - 1], le, c) { TiesIn(s[..|s| - 1], le, c, x); }
  }

  /** Two ascending lists with the same ties end alike. */
  lemma SameEnd<T(!new)>(a: seq<T>, b: seq<T>, le: (T, T) -> bool)
    requires KeyOrder(le) && Ascending(a, le) && Ascending(b, le) && SameTies(a, b, le) && a != []
    ensures b != [] && a[|a| - 1] == b[|b| - 1]
  {
    var x := a[|a| - 1];
    LastTie(a, le);
    assert Ties(b, le, x) == Ties(a, le, x);
    TiesIn(b, le, x, x);
    var y := b[|b| - 1];
    LastTie(b, le);
    assert Ties(a, le, y) == Ties(b, le, y);
    TiesIn(a, le, y, y);
    hide Ties;
    LastIsLargest(a, le, y);
    LastIsLargest(b, le, x);
    assert le(x, x) && le(y, y);
    EndOfTies(b, le, x);
  }

  lemma EndOfTies<T(!new)>(b: seq<T>, le: (T, T) -> bool, x: T)
    requires b != [] && Tied(le, b[|b| - 1], x)
    ensures Ties(b, le, x) != [] && Ties(b, le, x)[|Ties(b, le, x)| - 1] == b[|b| - 1]
  {
  }

  lemma FrontTies<T(!new)>(a: seq<T>, b: seq<T>, le: (T, T) -> bool)
    requires a != [] && b != [] && a[|a| - 1] == b[|b| - 1] && SameTies(a, b, le)
    ensures SameTies(a[..|a| - 1], b[..|b| - 1], le)
  {
    var a0, b0, x := a[..|a| - 1], b[..|b| - 1], a[|a| - 1];
    forall c ensures Ties(a0, le, c) == Ties(b0, le, c) {
      assert Ties(a, le, c) == Ties(b, le, c);
      SameFront(Ties(a0, le, c), Ties(b0, le, c), if Tied(le, x, c) then [x] else []);
    }
  }

  lemma SameFront<T>(s: seq<T>, t: seq<T>, x: seq<T>)
    requires s + x == t + x
    ensures s == t
  {
    assert |s| == |t| && s == (s + x)[..|s|] && t == (t + x)[..|t|];
  }

  /** A stable sort has one result. */
  lemma {:induction false} SortedUnique<T(!new)>(a: seq<T>, b: seq<T>, le: (T, T) -> bool)
    requires KeyOrder(le) && Ascending(a, le) && Ascending(b, le) && SameTies(a, b, le)
    ensures a == b
    decreases |a|
  {
    hide KeyOrder, SameTies;
    if a != [] {
      SameEnd(a, b, le);
      FrontTies(a, b, le);
      SortedUnique(a[..|a| - 1], b[..|b| - 1], le);
      assert a == a[..|a| - 1] + [a[|a| - 1]] && b == b[..|b| - 1] + [b[|b| - 1]];
    } else {
      NoTiesEmpty(b, le);
    }
  }

  lemma NoTiesEmpty<T(!new)>(b: seq<T>, le: (T, T) -> bool)
    requires KeyOrder(le) && SameTies([], b, le)
    ensures b == []
  {
    if b != [] {
      var x := b[|b| - 1];
      LastTie(b, le);
    }
  }
}
