/**
 Notions that several components share.
 */
module Common {

  datatype Option<T> = None | Some(value: T)

  /** A cell of an output buffer that starts uninitialised. */
  datatype Cell = Blank | Num(v: real)

  ghost predicate NoDuplicates<T>(s: seq<T>) { forall i, j :: 0 <= i < j < |s| ==> s[i] != s[j] }

  function SetOf<T(==)>(s: seq<T>): set<T> { set x | x in s }

  /** The elements with the property, in order. */
  function Those<T(!new)>(s: seq<T>, p: T -> bool): (r: seq<T>)
    ensures forall x :: x in r <==> x in s && p(x)
  {
    if s == [] then []
    else
      assert s == s[..|s| - 1] + [s[|s| - 1]];
      Those(s[..|s| - 1], p) + (if p(s[|s| - 1]) then [s[|s| - 1]] else [])
  }

  lemma ThoseEnd<T(!new)>(s: seq<T>, p: T -> bool)
    requires s != []
    ensures Those(s, p) == Those(s[..|s| - 1], p) + (if p(s[|s| - 1]) then [s[|s| - 1]] else [])
  {
  }

  /** A property and its opposite part a list. */
  lemma {:induction false} ThoseAndOthers<T(!new)>(s: seq<T>, p: T -> bool, q: T -> bool)
    requires forall x :: x in s ==> (p(x) <==> !q(x))
    ensures multiset(Those(s, p)) + multiset(Those(s, q)) == multiset(s)
  {
    if s != [] {
      var n := |s| - 1;
      assert s == s[..n] + [s[n]];
      ThoseAndOthers(s[..n], p, q);
    }
  }

  lemma {:induction false} ThoseCount<T(!new)>(s: seq<T>, p: T -> bool, x: T)
    ensures multiset(Those(s, p))[x] == if p(x) then multiset(s)[x] else 0
  {
    if s != [] {
      assert s == s[..|s| - 1] + [s[|s| - 1]];
      ThoseCount(s[..|s| - 1], p, x);
    }
  }

  lemma JoinDistinct<T>(s: seq<T>, t: seq<T>)
    requires NoDuplicates(s) && NoDuplicates(t) && forall x :: x in s ==> x !in t
    ensures NoDuplicates(s + t)
  {
    forall i, j | 0 <= i < j < |s + t| ensures (s + t)[i] != (s + t)[j] {
      if i < |s| <= j { assert s[i] in s && t[j - |s|] in t; }
    }
  }

  lemma HalvesDistinct<T>(s: seq<T>, u: seq<T>)
    requires NoDuplicates(s + u)
    ensures NoDuplicates(s) && NoDuplicates(u) && forall x :: x in s ==> x !in u
  {
    assert forall i :: 0 <= i < |s| ==> (s + u)[i] == s[i];
    assert forall j :: 0 <= j < |u| ==> (s + u)[|s| + j] == u[j];
  }

  /** A list has as many members as places, if none repeats, and never more. */
  lemma {:induction false} CardAtMost<T>(s: seq<T>)
    ensures |SetOf(s)| <= |s|
    ensures NoDuplicates(s) ==> |SetOf(s)| == |s|
  {
    if s != [] {
      var n := |s| - 1;
      CardAtMost(s[..n]);
      assert SetOf(s) == SetOf(s[..n]) + {s[n]};
      assert NoDuplicates(s) ==> s[n] !in SetOf(s[..n]);
    } else {
      assert SetOf(s) == {};
    }
  }

  lemma Member<T(!new)>(s: set<T>) returns (x: T)
    requires s != {}
    ensures x in s
  {
    if forall y :: y !in s { assert false; }
    x :| x in s;
  }

  lemma SubsetCard<T>(a: set<T>, b: set<T>)
    requires a <= b
    ensures |a| <= |b|
  {
    assert b == a + (b - a);
  }

  /** No more distinct elements than the list that contains them is long. */
  lemma DistinctWithin<T>(s: seq<T>, u: seq<T>)
    requires NoDuplicates(s) && forall x :: x in s ==> x in u
    ensures |s| <= |u|
  {
    CardAtMost(s);
    CardAtMost(u);
    assert SetOf(s) <= SetOf(u);
    SubsetCard(SetOf(s), SetOf(u));
  }

  lemma SameDistinct<T>(s: seq<T>, u: seq<T>)
    requires NoDuplicates(s) && multiset(u) == multiset(s)
    ensures NoDuplicates(u) && forall x :: x in u <==> x in s
  {
    forall x ensures x in u <==> x in s { assert x in multiset(u) <==> x in multiset(s); }
    forall i, j | 0 <= i < j < |u| ensures u[i] != u[j] {
      if u[i] == u[j] {
        TwiceInMultiset(u, i, j);
        OnceInMultiset(s, u[i]);
        assert false;
      }
    }
  }

  lemma TwiceInMultiset<T>(u: seq<T>, i: nat, j: nat)
    requires i < j < |u| && u[i] == u[j]
    ensures multiset(u)[u[i]] >= 2
  {
    assert u == u[..j] + u[j..];
    assert u[..j][i] == u[i] && u[j..][0] == u[i];
    assert u[i] in u[..j] && u[i] in u[j..];
    assert multiset(u) == multiset(u[..j]) + multiset(u[j..]);
  }

  lemma {:induction false} OnceInMultiset<T>(s: seq<T>, x: T)
    requires NoDuplicates(s)
    ensures multiset(s)[x] <= 1
  {
    if s != [] {
      var n := |s| - 1;
      OnceInMultiset(s[..n], x);
      assert s == s[..n] + [s[n]];
      assert s[n] !in s[..n];
    }
  }
}
