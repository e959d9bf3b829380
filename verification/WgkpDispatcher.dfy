/**
 Run-length encoding of a dispatched batch into segments, with the all-or-nothing promotion check.
 */
module WgkpDispatcher {
  import opened Common
  import opened DispatchPlan

  datatype Segment = Segment(adapter: Adapter, seqIds: seq<int>, promoted: bool)

  ghost function Tokens(s: Segment): seq<Token> {
    seq(|s.seqIds|, i requires 0 <= i < |s.seqIds| => (s.adapter, s.seqIds[i], s.promoted))
  }

  ghost function Flatten(segs: seq<Segment>): seq<Token> {
    if segs == [] then [] else Flatten(segs[..|segs| - 1]) + Tokens(segs[|segs| - 1])
  }

  /** Non-empty segments, neighbours of different adapters. */
  ghost predicate Maximal(segs: seq<Segment>) {
    && (forall i :: 0 <= i < |segs| ==> segs[i].seqIds != [])
    && (forall i :: 0 <= i < |segs| - 1 ==> segs[i].adapter != segs[i + 1].adapter)
  }

  ghost predicate IsRle(raw: seq<Token>, segs: seq<Segment>) { Maximal(segs) && Flatten(segs) == raw }

  /** Neighbouring tokens of one adapter carry the same flag. */
  ghost predicate UniformRuns(raw: seq<Token>) {
    forall i :: 0 < i < |raw| && raw[i].0 == raw[i - 1].0 ==> raw[i].2 == raw[i - 1].2
  }

  ghost function PromotedTokens(raw: seq<Token>): nat {
    if raw == [] then 0 else PromotedTokens(raw[..|raw| - 1]) + (if raw[|raw| - 1].2 then 1 else 0)
  }

  /** The last segment is as long as it can be: the token before it belongs to another adapter. */
  lemma LastRun(raw: seq<Token>, segs: seq<Segment>)
    requires IsRle(raw, segs) && segs != []
    ensures var s := segs[|segs| - 1]; var k := |raw| - |s.seqIds|;
      && 0 <= k < |raw| && raw[k..] == Tokens(s) && raw[..k] == Flatten(segs[..|segs| - 1])
      && (k > 0 ==> raw[k - 1].0 != s.adapter) && (forall i :: k <= i < |raw| ==> raw[i].0 == s.adapter)
  {
    var n := |segs| - 1;
    var front := Flatten(segs[..n]);
    assert raw == front + Tokens(segs[n]);
    forall i | |front| <= i < |raw| ensures raw[i].0 == segs[n].adapter {
      assert raw[i] == Tokens(segs[n])[i - |front|];
    }
    if n > 0 {
      assert segs[..n][n - 1] == segs[n - 1];
      assert front == Flatten(segs[..n][..n - 1]) + Tokens(segs[n - 1]);
      assert front[|front| - 1] == Tokens(segs[n - 1])[|segs[n - 1].seqIds| - 1];
    }
  }

  lemma MaximalPrefix(segs: seq<Segment>, n: nat)
    requires Maximal(segs) && n <= |segs|
    ensures Maximal(segs[..n])
  {
  }

  /** A batch has one run-length encoding. */
  lemma {:induction false} RleUnique(raw: seq<Token>, a: seq<Segment>, b: seq<Segment>)
    requires IsRle(raw, a) && IsRle(raw, b)
    ensures a == b
    decreases |a|
  {
    if a == [] || b == [] {
      if a != [] { LastRun(raw, a); }
      if b != [] { LastRun(raw, b); }
    } else {
      hide Flatten, Maximal, Tokens;
      var j := SameLastRun(raw, a, b);
      MaximalPrefix(a, |a| - 1);
      MaximalPrefix(b, |b| - 1);
      RleUnique(raw[..j], a[..|a| - 1], b[..|b| - 1]);
      assert a == a[..|a| - 1] + [a[|a| - 1]] && b == b[..|b| - 1] + [b[|b| - 1]];
    }
  }

  /** Two encodings of a batch end in the same segment. */
  lemma SameLastRun(raw: seq<Token>, a: seq<Segment>, b: seq<Segment>) returns (j: nat)
    requires IsRle(raw, a) && IsRle(raw, b) && a != [] && b != []
    ensures a[|a| - 1] == b[|b| - 1] && j <= |raw|
    ensures raw[..j] == Flatten(a[..|a| - 1]) == Flatten(b[..|b| - 1])
  {
    hide Flatten, Maximal;
    LastRun(raw, a);
    LastRun(raw, b);
    var s, t := a[|a| - 1], b[|b| - 1];
    j := |raw| - |s.seqIds|;
    assert raw[|raw| - 1].0 == s.adapter == t.adapter;
    assert j == |raw| - |t.seqIds|;
    SameTokens(s, t);
  }

  lemma SameTokens(s: Segment, t: Segment)
    requires Tokens(s) == Tokens(t) && s.seqIds != []
    ensures s == t
  {
    assert Tokens(s)[0] == Tokens(t)[0];
    forall i | 0 <= i < |s.seqIds| ensures s.seqIds[i] == t.seqIds[i] { assert Tokens(s)[i] == Tokens(t)[i]; }
  }

  /** A batch that has an encoding has uniform runs. */
  lemma {:induction false} RleIsUniform(raw: seq<Token>, segs: seq<Segment>)
    requires IsRle(raw, segs)
    ensures UniformRuns(raw)
    decreases |segs|
  {
    if segs != [] {
      LastRun(raw, segs);
      var n := |segs| - 1;
      var k := |raw| - |segs[n].seqIds|;
      MaximalPrefix(segs, n);
      RleIsUniform(raw[..k], segs[..n]);
      forall i | 0 < i < |raw| && raw[i].0 == raw[i - 1].0 ensures raw[i].2 == raw[i - 1].2 {
        if i < k {
          assert raw[..k][i] == raw[i] && raw[..k][i - 1] == raw[i - 1];
        } else if i > k {
          assert raw[k..][i - k] == raw[i] && raw[k..][i - 1 - k] == raw[i - 1];
        }
      }
    }
  }

  class WgkpDispatcher {
    var totalBatches: nat
    var totalTokens: nat
    var totalPromotedTokens: nat

    constructor ()
      ensures totalBatches == 0 && totalTokens == 0 && totalPromotedTokens == 0
    {
      totalBatches, totalTokens, totalPromotedTokens := 0, 0, 0;
    }

    /** One segment per run of equal adapters; None is the atomicity error of a run with mixed flags. */
    method SegmentAndPromote(raw: seq<Token>) returns (r: Option<seq<Segment>>)
      modifies this
      ensures r.Some? <==> UniformRuns(raw)
      ensures r.Some? ==> IsRle(raw, r.value)
      ensures totalBatches == old(totalBatches) + (if raw == [] then 0 else 1)
      ensures totalTokens == old(totalTokens) + |raw|
      ensures r.Some? ==> totalPromotedTokens == old(totalPromotedTokens) + PromotedTokens(raw)
    {
      if raw == [] { return Some([]); }
      totalBatches := totalBatches + 1;
      totalTokens := totalTokens + |raw|;
      var segs: seq<Segment> := [];
      var i, n := 0, |raw|;
      assert raw[..0] == [];
      while i < n
        invariant 0 <= i <= n && IsRle(raw[..i], segs)
        invariant i > 0 ==> segs != [] && segs[|segs| - 1].adapter == raw[i - 1].0
        invariant 0 < i < n ==> raw[i].0 != raw[i - 1].0
        invariant totalBatches == old(totalBatches) + 1 && totalTokens == old(totalTokens) + n
        invariant totalPromotedTokens == old(totalPromotedTokens) + PromotedTokens(raw[..i])
      {
        var (adapter, seq0, promo) := raw[i];
        var ids := [seq0];
        var j := i + 1;
        while j < n && raw[j].0 == adapter
          invariant i < j <= n && |ids| == j - i
          invariant forall k :: i <= k < j ==> raw[k] == (adapter, ids[k - i], promo)
        {
          if raw[j].2 != promo {
            assert raw[j].0 == raw[j - 1].0;
            return None;
          }
          ids := ids + [raw[j].1];
          j := j + 1;
        }
        var seg := Segment(adapter, ids, promo);
        SegmentAdded(raw, segs, seg, i, j);
        segs := segs + [seg];
        if promo { totalPromotedTokens := totalPromotedTokens + |ids|; }
        i := j;
      }
      assert raw[..n] == raw;
      RleIsUniform(raw, segs);
      r := Some(segs);
    }

    method PromotionFraction() returns (f: real)
      ensures totalTokens == 0 ==> f == 0.0
      ensures totalTokens > 0 ==> f * totalTokens as real == totalPromotedTokens as real
    {
      if totalTokens == 0 { return 0.0; }
      f := totalPromotedTokens as real / totalTokens as real;
    }
  }

  lemma SegmentAdded(raw: seq<Token>, segs: seq<Segment>, s: Segment, i: nat, j: nat)
    requires i < j <= |raw| && IsRle(raw[..i], segs) && |s.seqIds| == j - i
    requires forall k :: i <= k < j ==> raw[k] == (s.adapter, s.seqIds[k - i], s.promoted)
    requires segs != [] ==> segs[|segs| - 1].adapter != s.adapter
    ensures IsRle(raw[..j], segs + [s])
    ensures PromotedTokens(raw[..j]) == PromotedTokens(raw[..i]) + (if s.promoted then j - i else 0)
  {
    assert (segs + [s])[..|segs|] == segs;
    assert raw[..j] == raw[..i] + Tokens(s);
    PromotedRun(raw, i, j, s.promoted);
  }

  lemma {:induction false} PromotedRun(raw: seq<Token>, i: nat, j: nat, promo: bool)
    requires i <= j <= |raw| && forall k :: i <= k < j ==> raw[k].2 == promo
    ensures PromotedTokens(raw[..j]) == PromotedTokens(raw[..i]) + (if promo then j - i else 0)
  {
    if i < j {
      PromotedRun(raw, i, j - 1, promo);
      assert raw[..j][..j - 1] == raw[..j - 1];
    }
  }

  // ---- the dispatcher on a dispatched batch -----------------------------------------------------------

  /** One segment per take that dispatched something, in rank order. */
  ghost function SegmentsOf(qs: Queues, takes: seq<Take>): seq<Segment>
    requires forall x :: x in takes ==> x.count <= |QueueOf(qs, x.adapter)|
  {
    if takes == [] then []
    else
      var x := takes[|takes| - 1];
      SegmentsOf(qs, takes[..|takes| - 1]) +
        (if x.count == 0 then [] else [SegmentOf(qs, x)])
  }

  ghost function SegmentOf(qs: Queues, x: Take): (s: Segment)
    requires x.count <= |QueueOf(qs, x.adapter)|
    ensures |s.seqIds| == x.count
  {
    Segment(x.adapter, seq(x.count, i requires 0 <= i < x.count => QueueOf(qs, x.adapter)[i].id), x.promo)
  }

  lemma {:induction false} SegmentsFlatten(qs: Queues, takes: seq<Take>)
    requires forall x :: x in takes ==> x.count <= |QueueOf(qs, x.adapter)|
    ensures Flatten(SegmentsOf(qs, takes)) == Gathered(qs, takes)
  {
    if takes != [] {
      var n := |takes| - 1;
      var x := takes[n];
      SegmentsFlatten(qs, takes[..n]);
      var front := SegmentsOf(qs, takes[..n]);
      TakeTokens(qs, x);
      FlattenSnoc(front, SegmentOf(qs, x));
      hide Flatten, Tokens, SegmentOf;
      if x.count == 0 { assert Gathered(qs, takes) == Gathered(qs, takes[..n]) && SegmentsOf(qs, takes) == front; }
    }
  }

  lemma TakeTokens(qs: Queues, x: Take)
    requires x.count <= |QueueOf(qs, x.adapter)|
    ensures Tokens(SegmentOf(qs, x)) == Tagged(x.adapter, QueueOf(qs, x.adapter)[..x.count], x.promo)
  {
  }

  lemma FlattenSnoc(segs: seq<Segment>, s: Segment)
    ensures Flatten(segs + [s]) == Flatten(segs) + Tokens(s)
  {
    assert (segs + [s])[..|segs|] == segs;
  }

  /** The segments come from distinct adapters of the list, so neighbours differ. */
  lemma {:induction false} SegmentsMaximal(qs: Queues, ranked: seq<Adapter>, takes: seq<Take>)
    requires NoDuplicates(ranked) && TakesFrom(qs, ranked, takes)
    requires forall x :: x in takes ==> x.count <= |QueueOf(qs, x.adapter)|
    ensures Maximal(SegmentsOf(qs, takes))
    ensures forall s :: s in SegmentsOf(qs, takes) ==> s.adapter in ranked
  {
    if takes != [] {
      var n := |takes| - 1;
      SegmentsMaximal(qs, ranked[..n], takes[..n]);
      assert takes[n].adapter == ranked[n];
      OneMoreSegment(SegmentsOf(qs, takes[..n]), ranked, SegmentOf(qs, takes[n]), takes[n].count > 0);
    }
  }

  lemma OneMoreSegment(front: seq<Segment>, ranked: seq<Adapter>, s: Segment, taken: bool)
    requires NoDuplicates(ranked) && ranked != [] && s.adapter == ranked[|ranked| - 1] && (taken ==> s.seqIds != [])
    requires Maximal(front) && forall f :: f in front ==> f.adapter in ranked[..|ranked| - 1]
    ensures var segs := front + (if taken then [s] else []); Maximal(segs) && forall f :: f in segs ==>
      f.adapter in ranked
  {
    assert ranked[|ranked| - 1] !in ranked[..|ranked| - 1];
    if front != [] { assert front[|front| - 1] in front; }
  }

  /**
   On a batch that form_batch_wgkp dispatched over distinct adapters, segmentation never raises: it
   yields exactly one segment per dispatched adapter, in rank order, each the FIFO prefix taken.
   */
  lemma DispatchedBatchSegments(p: Policy, qs: Queues, oldest: map<Adapter, Option<real>>, ranked: seq<Adapter>)
    requires p.W > 0 && NoDuplicates(ranked)
    ensures var r := PlanFor(p, qs, oldest, ranked);
      && (forall x :: x in r.takes ==> x.count <= |QueueOf(qs, x.adapter)|)
      && UniformRuns(r.batch) && IsRle(r.batch, SegmentsOf(qs, r.takes))
      && forall segs :: IsRle(r.batch, segs) ==> segs == SegmentsOf(qs, r.takes)
  {
    BatchIsGathered(p, qs, oldest, ranked);
    var r := PlanFor(p, qs, oldest, ranked);
    SegmentsFlatten(qs, r.takes);
    SegmentsMaximal(qs, ranked, r.takes);
    RleIsUniform(r.batch, SegmentsOf(qs, r.takes));
    forall segs | IsRle(r.batch, segs) ensures segs == SegmentsOf(qs, r.takes) {
      RleUnique(r.batch, segs, SegmentsOf(qs, r.takes));
    }
  }
}
