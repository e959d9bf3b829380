/**
 Promotion to the merged form: one GEMM on W + alpha B A computes what the fused form computes, and a step is
 promoted only when all its tokens belong to the merged adapter.
 */
module MergedLinear {
  import opened Common
  import opened FusedLora
  import opened Sums

  /** One weight of W + (alpha B) A. */
  function Merged(pr: Problem, n: int, k: int): real {
    Entry(pr.w, n, k) + Sum(pr.R, r => Delta(pr, n, k, r))
  }

  function Delta(pr: Problem, n: int, k: int, r: int): real {
    Times(Times(Entry(pr.b, n, r), pr.alpha), Entry(pr.a, r, k))
  }

  /** F.linear on the merged weights, one cell. */
  function MergedCell(pr: Problem, m: int, n: int): real { Sum(pr.K, k => Times(Entry(pr.x, m, k), Merged(pr, n, k))) }

  lemma Spread(x: real, w: real, d: real)
    ensures Times(x, w + d) == Times(x, w) + Times(x, d)
  {
  }

  lemma Reassociate(x: real, b: real, alpha: real, a: real)
    ensures Times(x, Times(Times(b, alpha), a)) == Times(Times(alpha, b), Times(x, a))
  {
    assert x * (b * alpha * a) == alpha * b * (x * a);
  }

  lemma Commute(alpha: real, b: real, h: real)
    ensures Times(Times(alpha, b), h) == Times(alpha, Times(h, b))
  {
    assert alpha * b * h == alpha * (h * b);
  }

  /** Rank r's share of the merged product is its expansion of H. */
  lemma RankShare(pr: Problem, m: nat, n: nat, r: nat)
    requires pr.Shaped() && m < pr.M && n < pr.N && r < pr.R
    ensures Sum(pr.K, k => Times(Entry(pr.x, m, k), Delta(pr, n, k, r))) ==
      Times(pr.alpha, Times(Sum(pr.K, k => Term(pr.x, pr.a, pr.K, m, r, k)), Entry(pr.b, n, r)))
  {
    var h := (k: int) => Term(pr.x, pr.a, pr.K, m, r, k);
    var q := Times(pr.alpha, Entry(pr.b, n, r));
    forall k | 0 <= k < pr.K ensures Times(Entry(pr.x, m, k), Delta(pr, n, k, r)) == Times(q, h(k)) {
      Reassociate(Entry(pr.x, m, k), Entry(pr.b, n, r), pr.alpha, Entry(pr.a, r, k));
    }
    SumScale(pr.K, q, h, k => Times(Entry(pr.x, m, k), Delta(pr, n, k, r)));
    Commute(pr.alpha, Entry(pr.b, n, r), Sum(pr.K, h));
  }

  /** The low-rank part of the merged product. */
  lemma LowRankShare(pr: Problem, m: nat, n: nat)
    requires pr.Shaped() && m < pr.M && n < pr.N
    ensures Sum(pr.K, k => Times(Entry(pr.x, m, k), Sum(pr.R, r => Delta(pr, n, k, r)))) ==
      Times(pr.alpha, Sum(pr.R, r => Times(Sum(pr.K, k => Term(pr.x, pr.a, pr.K, m, r, k)), Entry(pr.b, n, r))))
  {
    var f := (k: int, r: int) => Times(Entry(pr.x, m, k), Delta(pr, n, k, r));
    var row := (k: int) => Times(Entry(pr.x, m, k), Sum(pr.R, r => Delta(pr, n, k, r)));
    var col := (r: int) => Sum(pr.K, k => Times(Entry(pr.x, m, k), Delta(pr, n, k, r)));
    forall k | 0 <= k < pr.K ensures row(k) == Sum(pr.R, r => f(k, r)) {
      SumScale(pr.R, Entry(pr.x, m, k), r => Delta(pr, n, k, r), r => f(k, r));
    }
    forall r | 0 <= r < pr.R ensures col(r) == Sum(pr.K, k => f(k, r)) {
      SumExt(pr.K, k => Times(Entry(pr.x, m, k), Delta(pr, n, k, r)), k => f(k, r));
    }
    SumSwap(pr.K, pr.R, f, row, col);
    var whole := (r: int) => Times(Sum(pr.K, k => Term(pr.x, pr.a, pr.K, m, r, k)), Entry(pr.b, n, r));
    forall r | 0 <= r < pr.R ensures col(r) == Times(pr.alpha, whole(r)) { RankShare(pr, m, n, r); }
    SumScale(pr.R, pr.alpha, whole, col);
  }

  /** The merged form computes the fused form: X (W + alpha B A)^T == X W^T + alpha (X A^T) B^T. */
  lemma MergedIsFused(pr: Problem, m: nat, n: nat)
    requires pr.Shaped() && m < pr.M && n < pr.N
    ensures MergedCell(pr, m, n) == pr.Ref(m, n)
  {
    var base := (k: int) => Term(pr.x, pr.w, pr.K, m, n, k);
    var low := (k: int) => Times(Entry(pr.x, m, k), Sum(pr.R, r => Delta(pr, n, k, r)));
    forall k | 0 <= k < pr.K ensures Times(Entry(pr.x, m, k), Merged(pr, n, k)) == base(k) + low(k) {
      Spread(Entry(pr.x, m, k), Entry(pr.w, n, k), Sum(pr.R, r => Delta(pr, n, k, r)));
    }
    SumAdd(pr.K, base, low, k => Times(Entry(pr.x, m, k), Merged(pr, n, k)));
    LowRankShare(pr, m, n);
    RefIs(pr, m, n);
  }

  ghost predicate AllOf(loraIds: seq<int>, id: int) { forall i :: 0 <= i < |loraIds| ==> loraIds[i] == id }

  /** The adapter of a step whose tokens all belong to it, with at least nStar of them. */
  method PromotableAdapter(loraIds: seq<int>, nStar: int) returns (id: Option<int>)
    requires loraIds != [] || nStar > 0
    ensures id.Some? <==> |loraIds| >= nStar && exists k :: k > 0 && AllOf(loraIds, k)
    ensures id.Some? ==> id.value > 0 && AllOf(loraIds, id.value)
  {
    if |loraIds| < nStar { return None; }
    var first := loraIds[0];
    if first <= 0 { return None; }
    var i := 0;
    while i < |loraIds|
      invariant 0 <= i <= |loraIds| && forall j :: 0 <= j < i ==> loraIds[j] == first
    {
      if loraIds[i] != first { return None; }
      i := i + 1;
    }
    assert AllOf(loraIds, first);
    return Some(first);
  }

  /** A promoted step gives every token the output of its own adapter. */
  lemma PromotedStepIsExact(adapters: int -> Problem, loraIds: seq<int>, id: int, m: nat, n: nat)
    requires AllOf(loraIds, id)
    requires var pr := adapters(id); pr.Shaped() && pr.M == |loraIds| && m < pr.M && n < pr.N
    ensures loraIds[m] == id && MergedCell(adapters(id), m, n) == adapters(loraIds[m]).Ref(m, n)
  {
    MergedIsFused(adapters(id), m, n);
  }
}
