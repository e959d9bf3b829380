/**
 Access-ordered lists without repetition, as an ordered dictionary keeps them: least recently used first.
 */
module AccessOrder {
  import opened Common

  /** s without x. */
  function Drop<T(==)>(s: seq<T>, x: T): seq<T> {
    if s == [] then []
    else Drop(s[..|s| - 1], x) + (if s[|s| - 1] == x then [] else [s[|s| - 1]])
  }

  lemma DropSnoc<T(!new)>(s: seq<T>, y: T, x: T)
    ensures Drop(s + [y], x) == Drop(s, x) + (if y == x then [] else [y])
  {
    assert (s + [y])[..|s|] == s;
  }

  lemma {:induction false} DropJoin<T(!new)>(s: seq<T>, t: seq<T>, x: T)
    ensures Drop(s + t, x) == Drop(s, x) + Drop(t, x)
  {
    if t == [] {
      assert s + t == s;
    } else {
      var n := |t| - 1;
      DropJoin(s, t[..n], x);
      DropSnoc(s + t[..n], t[n], x);
      DropSnoc(t[..n], t[n], x);
      hide Drop;
      Regroup(s, t[..n], [t[n]]);
      Regroup(Drop(s, x), Drop(t[..n], x), if t[n] == x then [] else [t[n]]);
      assert t == t[..n] + [t[n]];
    }
  }

  lemma Regroup<T>(a: seq<T>, b: seq<T>, c: seq<T>)
    ensures (a + b) + c == a + (b + c)
  {
  }

  lemma {:induction false} DropIn<T(!new)>(s: seq<T>, x: T)
    ensures forall y :: y in Drop(s, x) <==> y in s && y != x
    ensures x !in s ==> Drop(s, x) == s
  {
    if s != [] {
      var n := |s| - 1;
      DropIn(s[..n], x);
      assert s == s[..n] + [s[n]];
    }
  }

  lemma {:induction false} DropDistinct<T(!new)>(s: seq<T>, x: T)
    requires NoDuplicates(s)
    ensures NoDuplicates(Drop(s, x)) && |Drop(s, x)| == (if x in s then |s| - 1 else |s|)
  {
    if s != [] {
      var n := |s| - 1;
      DropDistinct(s[..n], x);
      DropIn(s[..n], x);
      assert s[n] !in s[..n];
    }
  }

  ghost predicate Ascending<T(!new)>(s: seq<T>, rank: T -> int) {
    forall i, j :: 0 <= i < j < |s| ==> rank(s[i]) < rank(s[j])
  }

  /** Dropping an element keeps the others in order. */
  lemma {:induction false} DropAscending<T(!new)>(s: seq<T>, x: T, rank: T -> int)
    requires Ascending(s, rank)
    ensures Ascending(Drop(s, x), rank)
  {
    if s != [] {
      var n := |s| - 1;
      DropAscending(s[..n], x, rank);
      DropIn(s[..n], x);
      var r0 := Drop(s[..n], x);
      forall i | 0 <= i < |r0| ensures rank(r0[i]) < rank(s[n]) {
        assert r0[i] in s[..n];
        var k :| 0 <= k < n && s[..n][k] == r0[i];
        assert s[k] == r0[i];
      }
    }
  }
}
