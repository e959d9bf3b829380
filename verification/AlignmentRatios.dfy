/**
 GWAR (tokens in long same-adapter runs) and WAR (homogeneous warps) of a dispatched batch.
 */
module AlignmentRatios {
  import opened Arithmetic

  /** The lengths of the maximal runs, in order. */
  ghost function Runs(ids: seq<int>): (r: seq<nat>)
    ensures ids != [] ==> r != []
  {
    if ids == [] then []
    else
      var n := |ids| - 1;
      var front := Runs(ids[..n]);
      if n > 0 && ids[n] == ids[n - 1] then Longer(front) else front + [1]
  }

  /** The last run grows by one token. */
  ghost function Longer(l: seq<nat>): (r: seq<nat>)
    requires l != []
    ensures r != []
  {
    l[..|l| - 1] + [l[|l| - 1] + 1]
  }

  lemma LongerSnoc(l: seq<nat>, x: nat)
    ensures Longer(l + [x]) == l + [x + 1]
  {
  }

  /** Tokens in the runs of at least t. */
  ghost function Promoted(lengths: seq<nat>, t: int): nat {
    if lengths == [] then 0
    else
      var n := |lengths| - 1;
      Promoted(lengths[..n], t) + (if lengths[n] >= t then lengths[n] else 0)
  }

  /** GWAR(t) for t >= 1. */
  ghost function Gwar(ids: seq<int>, t: int): real {
    if ids == [] then 0.0 else Promoted(Runs(ids), t) as real / |ids| as real
  }

  /** Equal tokens from k on, after a different one, are one more run. */
  lemma {:induction false} RunAtEnd(ids: seq<int>, k: nat)
    requires k < |ids| && (forall i :: k <= i < |ids| ==> ids[i] == ids[|ids| - 1]) && (k > 0 ==> ids[k - 1] != ids[k])
    ensures Runs(ids) == Runs(ids[..k]) + [|ids| - k]
  {
    hide Longer;
    var n := |ids| - 1;
    if k < n {
      RunAtEnd(ids[..n], k);
      assert ids[..n][..k] == ids[..k];
      assert ids[n] == ids[n - 1];
      LongerSnoc(Runs(ids[..k]), n - k);
    }
  }

  lemma RunAppended(ids: seq<int>, i: nat, j: nat)
    requires i < j <= |ids| && (forall k :: i <= k < j ==> ids[k] == ids[i]) && (i > 0 ==> ids[i - 1] != ids[i])
    ensures Runs(ids[..j]) == Runs(ids[..i]) + [j - i]
  {
    RunAtEnd(ids[..j], i);
    assert ids[..j][..i] == ids[..i];
  }

  lemma PromotedSnoc(l: seq<nat>, x: nat, t: int)
    ensures Promoted(l + [x], t) == Promoted(l, t) + (if x >= t then x else 0)
  {
    assert (l + [x])[..|l|] == l;
  }

  /** All tokens are in runs of length at least 1. */
  lemma {:induction false} RunsCover(ids: seq<int>)
    ensures Promoted(Runs(ids), 1) == |ids|
  {
    if ids != [] {
      var n := |ids| - 1;
      RunsCover(ids[..n]);
      var f := Runs(ids[..n]);
      if n > 0 && ids[n] == ids[n - 1] {
        var l := f[..|f| - 1];
        assert f == l + [f[|f| - 1]];
        PromotedSnoc(l, f[|f| - 1], 1);
        PromotedSnoc(l, f[|f| - 1] + 1, 1);
      } else {
        PromotedSnoc(f, 1, 1);
      }
    }
  }

  /** A higher threshold promotes no more tokens. */
  lemma {:induction false} PromotedMonotone(l: seq<nat>, t: int, u: int)
    requires t <= u
    ensures Promoted(l, u) <= Promoted(l, t)
  {
    if l != [] { PromotedMonotone(l[..|l| - 1], t, u); }
  }

  lemma FractionOrder(a: nat, b: nat, n: nat)
    requires a <= b && n > 0
    ensures 0.0 <= a as real / n as real <= b as real / n as real && n as real / n as real == 1.0
  {
  }

  lemma GwarOne(ids: seq<int>)
    requires ids != []
    ensures Gwar(ids, 1) == 1.0
  {
    RunsCover(ids);
    FractionOrder(0, 0, |ids|);
  }

  /** GWAR is non-increasing in the threshold, 1 at threshold 1, and never outside [0, 1]. */
  lemma GwarMonotone(ids: seq<int>, t: int, u: int)
    requires 1 <= t <= u && ids != []
    ensures Gwar(ids, 1) == 1.0 && 0.0 <= Gwar(ids, u) <= Gwar(ids, t) <= 1.0
  {
    GwarOne(ids);
    GwarOrder(ids, t, u);
    GwarOrder(ids, 1, t);
  }

  lemma GwarOrder(ids: seq<int>, t: int, u: int)
    requires t <= u && ids != []
    ensures 0.0 <= Gwar(ids, u) <= Gwar(ids, t)
  {
    PromotedMonotone(Runs(ids), t, u);
    FractionOrder(Promoted(Runs(ids), u), Promoted(Runs(ids), t), |ids|);
  }

  // ---- the scan and the curve ---------------------------------------------------------------------------------

  /** The end of the run that starts at i. */
  method RunEnd(ids: seq<int>, i: nat) returns (j: nat)
    requires i < |ids|
    ensures i < j <= |ids| && (forall k :: i <= k < j ==> ids[k] == ids[i]) && (j < |ids| ==> ids[j] != ids[j - 1])
  {
    j := i + 1;
    while j < |ids| && ids[j] == ids[i]
      invariant i < j <= |ids| && forall k :: i <= k < j ==> ids[k] == ids[i]
    {
      j := j + 1;
    }
  }

  /** compute_gwar: one scan; thresholds below 1 give 0. */
  method ComputeGwar(ids: seq<int>, threshold: int) returns (r: real)
    ensures r == (if threshold <= 0 then 0.0 else Gwar(ids, threshold))
  {
    if |ids| == 0 || threshold <= 0 { return 0.0; }
    if threshold == 1 {
      GwarOne(ids);
      return 1.0;
    }
    var promoted, i := 0, 0;
    assert ids[..0] == [];
    while i < |ids|
      invariant 0 <= i <= |ids| && promoted == Promoted(Runs(ids[..i]), threshold)
      invariant 0 < i < |ids| ==> ids[i] != ids[i - 1]
    {
      var j := RunEnd(ids, i);
      RunAppended(ids, i, j);
      PromotedSnoc(Runs(ids[..i]), j - i, threshold);
      if j - i >= threshold { promoted := promoted + (j - i); }
      i := j;
    }
    assert ids[..|ids|] == ids;
    r := promoted as real / |ids| as real;
  }

  /** The run-length encoding behind the curve. */
  method RunLengths(ids: seq<int>) returns (lengths: seq<nat>)
    ensures lengths == Runs(ids)
  {
    lengths := [];
    var i := 0;
    assert ids[..0] == [];
    while i < |ids|
      invariant 0 <= i <= |ids| && lengths == Runs(ids[..i]) && (0 < i < |ids| ==> ids[i] != ids[i - 1])
    {
      var j := RunEnd(ids, i);
      RunAppended(ids, i, j);
      lengths := lengths + [j - i];
      i := j;
    }
    assert ids[..|ids|] == ids;
  }

  method SumLong(lengths: seq<nat>, t: int) returns (s: nat)
    ensures s == Promoted(lengths, t)
  {
    s := 0;
    var i := 0;
    assert lengths[..0] == [];
    while i < |lengths|
      invariant 0 <= i <= |lengths| && s == Promoted(lengths[..i], t)
    {
      assert lengths[..i + 1][..i] == lengths[..i];
      if lengths[i] >= t { s := s + lengths[i]; }
      i := i + 1;
    }
    assert lengths[..|lengths|] == lengths;
  }

  /** compute_gwar_curve: agrees with the scan from threshold 1 on; below, a non-empty batch gets 1 here and 0 there. */
  method ComputeGwarCurve(ids: seq<int>, thresholds: seq<int>) returns (curve: map<int, real>)
    ensures forall t :: t in curve <==> t in thresholds
    ensures forall t :: t in curve ==> curve[t] == (if ids != [] && t <= 0 then 1.0 else Gwar(ids, t))
  {
    curve := map[];
    var lengths := RunLengths(ids);
    if ids != [] { GwarOne(ids); }
    var i := 0;
    while i < |thresholds|
      invariant 0 <= i <= |thresholds| && forall t :: t in curve <==> t in thresholds[..i]
      invariant forall t :: t in curve ==> curve[t] == (if ids != [] && t <= 0 then 1.0 else Gwar(ids, t))
    {
      var t := thresholds[i];
      var value := 0.0;
      if |ids| > 0 {
        if t <= 1 {
          value := 1.0;
        } else {
          var s := SumLong(lengths, t);
          value := s as real / |ids| as real;
        }
      }
      assert thresholds[..i + 1] == thresholds[..i] + [t];
      curve := curve[t := value];
      i := i + 1;
    }
    assert thresholds[..|thresholds|] == thresholds;
  }

  // ---- the sorted order is best -----------------------------------------------------------------------------

  /** Tokens of s whose adapter has at least t tokens in all. */
  ghost function Plenty(m: multiset<int>, s: seq<int>, t: int): nat {
    if s == [] then 0 else Plenty(m, s[..|s| - 1], t) + (if m[s[|s| - 1]] >= t then 1 else 0)
  }

  lemma {:induction false} PlentyJoin(m: multiset<int>, s: seq<int>, u: seq<int>, t: int)
    ensures Plenty(m, s + u, t) == Plenty(m, s, t) + Plenty(m, u, t)
  {
    if u == [] {
      assert s + u == s;
    } else {
      var n := |u| - 1;
      PlentyJoin(m, s, u[..n], t);
      assert (s + u)[..|s| + n] == s + u[..n];
    }
  }

  /** Plenty does not depend on the order. */
  lemma {:induction false} PlentyPermuted(m: multiset<int>, s: seq<int>, p: seq<int>, t: int)
    requires multiset(s) == multiset(p)
    ensures Plenty(m, s, t) == Plenty(m, p, t)
    decreases |s|
  {
    if s == [] {
      assert |multiset(p)| == 0;
    } else {
      var n := |s| - 1;
      assert s == s[..n] + [s[n]];
      assert s[n] in multiset(p);
      var i :| 0 <= i < |p| && p[i] == s[n];
      TakeOut(p, i);
      PlentyPermuted(m, s[..n], p[..i] + p[i + 1..], t);
      PlentyAround(m, p, i, t);
    }
  }

  lemma TakeOut(p: seq<int>, i: nat)
    requires i < |p|
    ensures multiset(p[..i] + p[i + 1..]) == multiset(p) - multiset{p[i]}
  {
    assert p == p[..i] + ([p[i]] + p[i + 1..]);
  }

  lemma PlentyAround(m: multiset<int>, p: seq<int>, i: nat, t: int)
    requires i < |p|
    ensures Plenty(m, p, t) == Plenty(m, p[..i] + p[i + 1..], t) + (if m[p[i]] >= t then 1 else 0)
  {
    assert p == (p[..i] + [p[i]]) + p[i + 1..];
    PlentyJoin(m, p[..i] + [p[i]], p[i + 1..], t);
    PlentyJoin(m, p[..i], p[i + 1..], t);
    assert (p[..i] + [p[i]])[..i] == p[..i];
  }

  /** Where the last run of a non-empty batch starts. */
  ghost function LastRun(ids: seq<int>): (k: nat)
    requires ids != []
    ensures k < |ids| && (forall i :: k <= i < |ids| ==> ids[i] == ids[|ids| - 1]) && (k > 0 ==> ids[k - 1] != ids[k])
  {
    var n := |ids| - 1;
    if n > 0 && ids[n - 1] == ids[n] then
      assert ids[..n][n - 1] == ids[n];
      LastRun(ids[..n])
    else n
  }

  /** A run of k tokens of one adapter. */
  lemma {:induction false} PlentyRun(m: multiset<int>, s: seq<int>, a: int, t: int)
    requires forall i :: 0 <= i < |s| ==> s[i] == a
    ensures Plenty(m, s, t) == (if m[a] >= t then |s| else 0) && multiset(s)[a] == |s|
  {
    if s != [] {
      PlentyRun(m, s[..|s| - 1], a, t);
      assert s == s[..|s| - 1] + [s[|s| - 1]];
    }
  }

  /** Both counts, split at the last run. */
  lemma SplitAtRun(m: multiset<int>, s: seq<int>, k: nat, t: int)
    requires k < |s| && (forall i :: k <= i < |s| ==> s[i] == s[|s| - 1]) && (k > 0 ==> s[k - 1] != s[k])
    ensures Promoted(Runs(s), t) == Promoted(Runs(s[..k]), t) + (if |s| - k >= t then |s| - k else 0)
    ensures Plenty(m, s, t) == Plenty(m, s[..k], t) + (if m[s[|s| - 1]] >= t then |s| - k else 0)
    ensures multiset(s[..k]) <= multiset(s) && multiset(s)[s[|s| - 1]] >= |s| - k
  {
    hide Runs, Promoted, Plenty;
    RunAtEnd(s, k);
    PromotedSnoc(Runs(s[..k]), |s| - k, t);
    assert s == s[..k] + s[k..];
    PlentyJoin(m, s[..k], s[k..], t);
    PlentyRun(m, s[k..], s[|s| - 1], t);
  }

  /** Tokens in long runs belong to adapters with that many tokens. */
  lemma {:induction false} PromotedAtMost(m: multiset<int>, s: seq<int>, t: int)
    requires multiset(s) <= m
    ensures Promoted(Runs(s), t) <= Plenty(m, s, t)
    decreases |s|
  {
    if s != [] {
      SplitAtRun(m, s, LastRun(s), t);
      hide Runs, Promoted, Plenty;
      PromotedAtMost(m, s[..LastRun(s)], t);
    }
  }

  /** Equal adapters stand together. */
  ghost predicate Grouped(s: seq<int>) { forall i, j, k :: 0 <= i <= j <= k < |s| && s[i] == s[k] ==> s[j] == s[i] }

  ghost predicate Sorted(s: seq<int>) { forall i, j :: 0 <= i <= j < |s| ==> s[i] <= s[j] }

  /** m counts the tokens of s. */
  ghost predicate Counts(m: multiset<int>, s: seq<int>) { forall i :: 0 <= i < |s| ==> m[s[i]] == multiset(s)[s[i]] }

  lemma FrontOthers(s: seq<int>)
    requires s != [] && Grouped(s)
    ensures Grouped(s[..LastRun(s)]) && forall i :: 0 <= i < LastRun(s) ==> s[i] != s[|s| - 1]
  {
    var k, a := LastRun(s), s[|s| - 1];
    forall i | 0 <= i < k ensures s[i] != a { assert s[k - 1] != a; }
  }

  /** The tokens before the last run of a grouped batch: other adapters, with all their tokens. */
  lemma FrontOfGrouped(m: multiset<int>, s: seq<int>)
    requires s != [] && Grouped(s) && Counts(m, s)
    ensures var k := LastRun(s); Grouped(s[..k]) && Counts(m, s[..k]) && m[s[|s| - 1]] == |s| - k
  {
    FrontOthers(s);
    var k, a := LastRun(s), s[|s| - 1];
    assert m[a] == multiset(s)[a];
    hide Grouped;
    SplitCounts(s[..k], s[k..], a);
    assert s == s[..k] + s[k..];
    forall i | 0 <= i < k ensures m[s[..k][i]] == multiset(s[..k])[s[..k][i]] { assert m[s[i]] == multiset(s)[s[i]]; }
  }

  lemma SplitCounts(front: seq<int>, run: seq<int>, a: int)
    requires (forall i :: 0 <= i < |run| ==> run[i] == a) && forall i :: 0 <= i < |front| ==> front[i] != a
    ensures multiset(front + run)[a] == |run|
    ensures forall i :: 0 <= i < |front| ==> multiset(front + run)[front[i]] == multiset(front)[front[i]]
  {
    PlentyRun(multiset{}, run, a, 0);
    NotInRun(front, a);
    CountJoin(front, run, a);
    forall i | 0 <= i < |front| ensures multiset(front + run)[front[i]] == multiset(front)[front[i]] {
      NotInRun(run, front[i]);
      CountJoin(front, run, front[i]);
    }
  }

  lemma CountJoin(f: seq<int>, r: seq<int>, x: int)
    ensures multiset(f + r)[x] == multiset(f)[x] + multiset(r)[x]
  {
  }

  /** In a grouped batch every adapter is one run, so nothing is lost. */
  lemma {:induction false} GroupedPromotesAll(m: multiset<int>, s: seq<int>, t: int)
    requires Grouped(s) && Counts(m, s)
    ensures Promoted(Runs(s), t) == Plenty(m, s, t)
    decreases |s|
  {
    if s != [] {
      FrontOfGrouped(m, s);
      hide Grouped, Runs, Counts, Promoted, Plenty;
      SplitAtRun(m, s, LastRun(s), t);
      GroupedPromotesAll(m, s[..LastRun(s)], t);
    }
  }

  lemma NotInRun(s: seq<int>, b: int)
    requires forall i :: 0 <= i < |s| ==> s[i] != b
    ensures multiset(s)[b] == 0
  {
    assert b !in s;
  }

  /** No order of a batch has a higher GWAR than its adapter-sorted order. */
  lemma SortedIsBest(sorted: seq<int>, p: seq<int>, t: int)
    requires Sorted(sorted) && multiset(p) == multiset(sorted)
    ensures Gwar(p, t) <= Gwar(sorted, t)
  {
    assert |p| == |multiset(p)| == |multiset(sorted)| == |sorted|;
    if p != [] {
      PromotedAtMost(multiset(p), p, t);
      PlentyPermuted(multiset(p), p, sorted, t);
      GroupedPromotesAll(multiset(sorted), sorted, t);
      FractionOrder(Promoted(Runs(p), t), Promoted(Runs(sorted), t), |p|);
    }
  }

  // ---- warps ------------------------------------------------------------------------------------------------------

  /** Warp j is homogeneous. */
  ghost predicate Aligned(ids: seq<int>, w: nat, j: nat) {
    forall i :: j * w <= i < j * w + w && i < |ids| ==> ids[i] == ids[j * w]
  }

  /** Homogeneous warps among the first m. */
  ghost function AlignedWarps(ids: seq<int>, w: nat, m: nat): nat {
    if m == 0 then 0 else AlignedWarps(ids, w, m - 1) + (if Aligned(ids, w, m - 1) then 1 else 0)
  }

  /** WAR over the complete warps; the partial tail does not count. */
  ghost function War(ids: seq<int>, w: nat): real
    requires w > 0
  {
    if |ids| / w == 0 then 0.0 else AlignedWarps(ids, w, |ids| / w) as real / (|ids| / w) as real
  }

  /** Position i lies in w equal consecutive tokens. */
  ghost predicate InLong(ids: seq<int>, w: nat, i: nat) {
    exists b :: Window(ids, w, b) && b <= i < b + w
  }

  ghost predicate Window(ids: seq<int>, w: nat, b: int) {
    0 <= b && b + w <= |ids| && forall i :: b <= i < b + w ==> ids[i] == ids[b]
  }

  /** Positions below n in long stretches. */
  ghost function LongTokens(ids: seq<int>, w: nat, n: nat): nat {
    if n == 0 then 0 else LongTokens(ids, w, n - 1) + (if InLong(ids, w, n - 1) then 1 else 0)
  }

  lemma {:induction false} LongTokensSpan(ids: seq<int>, w: nat, i: nat, j: nat)
    requires i <= j
    ensures LongTokens(ids, w, i) <= LongTokens(ids, w, j)
    ensures (forall k :: i <= k < j ==> InLong(ids, w, k)) ==> LongTokens(ids, w, j) == LongTokens(ids, w, i) + (j - i)
    ensures (forall k :: i <= k < j ==> !InLong(ids, w, k)) ==> LongTokens(ids, w, j) == LongTokens(ids, w, i)
  {
    if i < j { LongTokensSpan(ids, w, i, j - 1); }
  }

  /** Homogeneous warps consist of tokens in long stretches. */
  lemma {:induction false} WarpsAreLong(ids: seq<int>, w: nat, m: nat)
    requires w > 0 && m * w <= |ids|
    ensures AlignedWarps(ids, w, m) * w <= LongTokens(ids, w, m * w)
  {
    if m > 0 {
      var j := m - 1;
      assert m * w == j * w + w;
      WarpsAreLong(ids, w, j);
      LongTokensSpan(ids, w, j * w, m * w);
      if Aligned(ids, w, j) {
        assert Window(ids, w, j * w);
        forall k | j * w <= k < m * w ensures InLong(ids, w, k) { }
        OneMore(AlignedWarps(ids, w, j), w);
      }
    }
  }

  lemma OneMore(a: nat, w: nat)
    ensures (a + 1) * w == a * w + w
  {
  }

  /** Long stretches never leave their run. */
  lemma LongInFront(ids: seq<int>, w: nat, k: nat, i: nat)
    requires w > 0 && 0 < k < |ids| && ids[k - 1] != ids[k] && i < k
    ensures InLong(ids, w, i) <==> InLong(ids[..k], w, i)
  {
    if InLong(ids, w, i) {
      var b :| Window(ids, w, b) && b <= i < b + w;
      if b + w > k { assert false; }
      assert Window(ids[..k], w, b);
    }
    if InLong(ids[..k], w, i) {
      var b :| Window(ids[..k], w, b) && b <= i < b + w;
      assert Window(ids, w, b);
    }
  }

  lemma {:induction false} LongTokensFront(ids: seq<int>, w: nat, k: nat, n: nat)
    requires w > 0 && 0 < k < |ids| && ids[k - 1] != ids[k] && n <= k
    ensures LongTokens(ids, w, n) == LongTokens(ids[..k], w, n)
  {
    if n > 0 {
      LongTokensFront(ids, w, k, n - 1);
      LongInFront(ids, w, k, n - 1);
    }
  }

  /** A position of the last run is in a long stretch exactly when the run is long enough. */
  lemma LongInLastRun(ids: seq<int>, w: nat, i: nat)
    requires w > 0 && ids != [] && LastRun(ids) <= i < |ids|
    ensures InLong(ids, w, i) <==> |ids| - LastRun(ids) >= w
  {
    var k := LastRun(ids);
    if |ids| - k >= w {
      var b := if i + w <= |ids| then i else |ids| - w;
      assert Window(ids, w, b);
    }
    if InLong(ids, w, i) {
      var b :| Window(ids, w, b) && b <= i < b + w;
      if b < k { assert false; }
    }
  }

  /** The tokens in long runs, counted position by position. */
  lemma {:induction false} PromotedIsLong(ids: seq<int>, w: nat)
    requires w > 0
    ensures Promoted(Runs(ids), w) == LongTokens(ids, w, |ids|)
    decreases |ids|
  {
    if ids != [] {
      var k := LastRun(ids);
      PromotedIsLong(ids[..k], w);
      RunAtEnd(ids, k);
      PromotedSnoc(Runs(ids[..k]), |ids| - k, w);
      if k > 0 { LongTokensFront(ids, w, k, k); }
      forall i | k <= i < |ids| ensures InLong(ids, w, i) <==> |ids| - k >= w { LongInLastRun(ids, w, i); }
      LongTokensSpan(ids, w, k, |ids|);
    }
  }

  /** Homogeneous warps hold no more tokens than long runs. */
  lemma WarpTokens(ids: seq<int>, w: nat, m: nat)
    requires w > 0 && m * w <= |ids|
    ensures AlignedWarps(ids, w, m) * w <= Promoted(Runs(ids), w)
  {
    PromotedIsLong(ids, w);
    WarpsAreLong(ids, w, m);
    ProductNonNegative(m, w);
    LongTokensSpan(ids, w, m * w, |ids|);
  }

  /** Every homogeneous warp is inside a run of at least a warp: WAR * M * W <= GWAR(W) * N. */
  lemma WarBelowGwar(ids: seq<int>, w: nat)
    requires w > 0
    ensures War(ids, w) * (|ids| / w * w) as real <= Gwar(ids, w) * |ids| as real
  {
    hide Gwar, AlignedWarps;
    DivBelow(|ids|, w);
    WarpsBelowRuns(ids, w, |ids| / w);
  }

  lemma WarpsBelowRuns(ids: seq<int>, w: nat, m: nat)
    requires w > 0 && m * w <= |ids|
    ensures (if m == 0 then 0.0 else AlignedWarps(ids, w, m) as real / m as real) * (m * w) as real <=
      Gwar(ids, w) * |ids| as real
  {
    hide Runs, Promoted, AlignedWarps, Aligned;
    WarpTokens(ids, w, m);
    Scaled(AlignedWarps(ids, w, m), m, w);
    ProductNonNegative(AlignedWarps(ids, w, m), w);
    if ids != [] { Rescaled(Promoted(Runs(ids), w), |ids|); } else { NoWarps(m, w); }
  }

  lemma NoWarps(m: nat, w: nat)
    requires w > 0 && m * w <= 0
    ensures m == 0
  {
  }

  lemma DivBelow(a: nat, w: nat)
    requires w > 0
    ensures a / w * w <= a
  {
  }

  lemma Scaled(a: nat, m: nat, w: nat)
    ensures (if m == 0 then 0.0 else a as real / m as real) * (m * w) as real ==
      (if m == 0 then 0.0 else (a * w) as real)
  {
    if m > 0 {
      var x := a as real / m as real;
      assert (m * w) as real == m as real * w as real && (a * w) as real == a as real * w as real;
      assert x * (m as real * w as real) == (x * m as real) * w as real;
    }
  }

  lemma Rescaled(a: nat, n: nat)
    requires n > 0
    ensures a as real / n as real * n as real == a as real
  {
  }

  /** compute_war: a warp counts when the set of its adapters has one element. */
  method ComputeWar(ids: seq<int>, w: nat) returns (r: real)
    requires w > 0
    ensures r == War(ids, w)
  {
    if |ids| == 0 { return 0.0; }
    var m := |ids| / w;
    if m == 0 { return 0.0; }
    DivBelow(|ids|, w);
    var aligned, j := 0, 0;
    while j < m
      invariant 0 <= j <= m && aligned == AlignedWarps(ids, w, j)
    {
      hide Aligned, AllEqual;
      var warp := Warp(ids, w, j, m);
      var adapters := set i | 0 <= i < |warp| :: warp[i];
      OneAdapter(warp, adapters);
      if |adapters| == 1 { aligned := aligned + 1; }
      j := j + 1;
    }
    r := aligned as real / m as real;
  }

  /** The j-th of m complete warps. */
  method Warp(ids: seq<int>, w: nat, j: nat, m: nat) returns (warp: seq<int>)
    requires w > 0 && j < m && m * w <= |ids|
    ensures |warp| == w && (AllEqual(warp) <==> Aligned(ids, w, j))
  {
    OneMore(j, w);
    TimesGrowsOrEqual(j + 1, m, w);
    ProductNonNegative(j, w);
    WarpAligned(ids, w, j);
    warp := ids[j * w..j * w + w];
  }

  ghost predicate AllEqual(s: seq<int>) { forall i :: 0 <= i < |s| ==> s[i] == s[0] }

  lemma WarpAligned(ids: seq<int>, w: nat, j: nat)
    requires w > 0 && j * w + w <= |ids| && j * w >= 0
    ensures Aligned(ids, w, j) <==> AllEqual(ids[j * w..j * w + w])
  {
    var b := j * w;
    if AllEqual(ids[b..b + w]) {
      forall i | b <= i < b + w ensures ids[i] == ids[b] { assert ids[b..b + w][i - b] == ids[i]; }
    }
  }

  lemma OneAdapter(s: seq<int>, adapters: set<int>)
    requires s != [] && adapters == set i | 0 <= i < |s| :: s[i]
    ensures |adapters| == 1 <==> AllEqual(s)
  {
    assert s[0] in adapters;
    if AllEqual(s) { assert adapters == {s[0]}; }
    if |adapters| == 1 {
      assert |adapters - {s[0]}| == 0;
      forall i | 0 <= i < |s| ensures s[i] == s[0] {
        assert s[i] in adapters;
        assert adapters == {s[0]} + (adapters - {s[0]});
      }
    }
  }

  /** compute_war_from_ids: a warp counts when its smallest and largest id agree. */
  method ComputeWarFromIds(ids: seq<int>, w: nat) returns (r: real)
    requires w > 0
    ensures r == War(ids, w)
  {
    var m := |ids| / w;
    if m == 0 { return 0.0; }
    DivBelow(|ids|, w);
    var aligned, j := 0, 0;
    while j < m
      invariant 0 <= j <= m && aligned == AlignedWarps(ids, w, j)
    {
      hide Aligned, AllEqual;
      var warp := Warp(ids, w, j, m);
      var lo, hi := MinMax(warp);
      if lo == hi { aligned := aligned + 1; }
      j := j + 1;
    }
    r := aligned as real / m as real;
  }

  method MinMax(s: seq<int>) returns (lo: int, hi: int)
    requires s != []
    ensures (forall i :: 0 <= i < |s| ==> lo <= s[i] <= hi) && lo in s && hi in s
    ensures lo == hi <==> AllEqual(s)
  {
    lo, hi := s[0], s[0];
    var i := 1;
    while i < |s|
      invariant 1 <= i <= |s| && lo in s && hi in s && forall k :: 0 <= k < i ==> lo <= s[k] <= hi
    {
      if s[i] < lo { lo := s[i]; }
      if s[i] > hi { hi := s[i]; }
      i := i + 1;
    }
  }
}
