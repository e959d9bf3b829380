/**
 Adapter-run segments of a decode batch: the metadata that the grouped LoRA kernels read.

 A batch is the array of LoRA slot indices, one per token (-1: no LoRA).  The wrapper turns it into
 a fixed number of segment slots (start, length, lora), one per maximal run, padding the rest with
 length 0 and lora -1.
 */
module Segments {

  /** Which run of equal neighbours token p belongs to, counting from 0. */
  ghost function RunOf(idx: seq<int>, p: nat): nat
    requires p < |idx|
  {
    if p == 0 then 0 else RunOf(idx, p - 1) + (if idx[p] != idx[p - 1] then 1 else 0)
  }

  /** Number of maximal runs. */
  ghost function Runs(idx: seq<int>): nat {
    if |idx| == 0 then 0 else RunOf(idx, |idx| - 1) + 1
  }

  /** The segment slot token p is scattered to: its run, clamped to the last slot. */
  ghost function SlotOf(idx: seq<int>, slots: nat, p: nat): nat
    requires p < |idx| && slots > 0
  {
    if RunOf(idx, p) < slots then RunOf(idx, p) else slots - 1
  }

  ghost predicate InSegment(start: seq<int>, len: seq<int>, s: int, p: int)
    requires |start| == |len| && 0 <= s < |start|
  {
    start[s] <= p < start[s] + len[s]
  }

  ghost predicate Covered(start: seq<int>, len: seq<int>, p: int)
    requires |start| == |len|
  {
    exists s :: 0 <= s < |len| && InSegment(start, len, s, p)
  }

  /**
   The table describes the batch: in slot order its segments cut the batch into consecutive
   pieces, every token of a piece carries the piece's LoRA slot, neighbouring pieces differ (they
   are maximal runs), and the slots left over are inert padding.
   */
  ghost predicate Faithful(idx: seq<int>, start: seq<int>, len: seq<int>, lora: seq<int>) {
    && |start| == |len| == |lora|
    && (forall s :: 0 <= s < |len| ==> len[s] >= 0 && start[s] >= 0 && start[s] + len[s] <= |idx|)
    && (forall s, p :: 0 <= s < |len| && InSegment(start, len, s, p) ==> idx[p] == lora[s])
    && (forall p :: 0 <= p < |idx| ==> Covered(start, len, p))
    && (forall s, t :: 0 <= s < t < |len| && len[t] > 0 ==> start[s] + len[s] <= start[t])
    && (forall s :: 0 <= s < |len| - 1 && len[s + 1] > 0 ==> len[s] > 0 && lora[s] != lora[s + 1])
    && (forall s :: 0 <= s < |len| && len[s] == 0 ==> start[s] == 0 && lora[s] == -1)
  }

  /** How many of the first i tokens were scattered to slot s. */
  ghost function Count(seg: seq<int>, s: int, i: nat): nat
    requires i <= |seg|
  {
    if i == 0 then 0 else Count(seg, s, i - 1) + (if seg[i - 1] == s then 1 else 0)
  }

  /** What the four scatter operations leave behind, whatever order they run in. */
  ghost predicate Scattered(idx: seq<int>, seg: seq<int>, start: seq<int>, len: seq<int>, lora: seq<int>) {
    && |seg| == |idx| && |start| == |len| == |lora|
    && (forall s :: 0 <= s < |len| ==> len[s] == Count(seg, s, |seg|))
    && (forall s :: 0 <= s < |len| && len[s] == 0 ==> start[s] == 0 && lora[s] == -1)
    && (forall s :: 0 <= s < |len| && len[s] > 0 ==>
          && 0 <= start[s] < |seg| && seg[start[s]] == s
          && (forall p :: 0 <= p < start[s] ==> seg[p] != s)
          && (exists p :: 0 <= p < |seg| && seg[p] == s && lora[s] == idx[p]))
  }

  /** The slot numbers start at 0 and go up by at most one, so a slot's tokens are consecutive. */
  lemma {:induction false} RunOfMonotone(idx: seq<int>, p: nat, q: nat)
    requires p <= q < |idx|
    ensures RunOf(idx, p) <= RunOf(idx, q) <= RunOf(idx, p) + (q - p)
  {
    if p < q { RunOfMonotone(idx, p, q - 1); }
  }

  lemma {:induction false} SameRunSameAdapter(idx: seq<int>, p: nat, q: nat)
    requires p <= q < |idx|
    requires RunOf(idx, p) == RunOf(idx, q)
    ensures idx[p] == idx[q]
  {
    if p < q {
      RunOfMonotone(idx, p, q - 1);
      SameRunSameAdapter(idx, p, q - 1);
    }
  }

  lemma {:induction false} CountInterval(seg: seq<int>, s: int, a: nat, i: nat)
    requires a < i <= |seg|
    requires forall p, q :: 0 <= p <= q < |seg| ==> seg[p] <= seg[q]
    requires seg[a] == s && forall p :: 0 <= p < a ==> seg[p] != s
    ensures 1 <= Count(seg, s, i) <= i - a
    ensures forall p :: 0 <= p < i ==> (seg[p] == s <==> a <= p < a + Count(seg, s, i))
    decreases i
  {
    if i == a + 1 {
      CountNone(seg, s, a);
    } else {
      CountInterval(seg, s, a, i - 1);
      var c := Count(seg, s, i - 1);
      if a + c < i - 1 { assert s < seg[a + c] <= seg[i - 1]; }
    }
  }

  lemma {:induction false} CountNone(seg: seq<int>, s: int, i: nat)
    requires i <= |seg|
    requires forall p :: 0 <= p < i ==> seg[p] != s
    ensures Count(seg, s, i) == 0
  {
    if i > 0 { CountNone(seg, s, i - 1); }
  }

  lemma {:induction false} CountSome(seg: seq<int>, s: int, i: nat, p: nat)
    requires p < i <= |seg| && seg[p] == s
    ensures Count(seg, s, i) > 0
  {
    if p < i - 1 { CountSome(seg, s, i - 1, p); }
  }

  /** The token positions of one non-empty slot. */
  lemma SlotInterval(idx: seq<int>, seg: seq<int>, start: seq<int>, len: seq<int>, lora: seq<int>, s: int)
    requires Scattered(idx, seg, start, len, lora)
    requires |len| > 0 && forall p :: 0 <= p < |idx| ==> seg[p] == SlotOf(idx, |len|, p)
    requires 0 <= s < |len| && len[s] > 0
    ensures start[s] >= 0 && start[s] + len[s] <= |idx|
    ensures forall p :: 0 <= p < |idx| ==> (seg[p] == s <==> InSegment(start, len, s, p))
  {
    SlotsMonotone(idx, seg, |len|);
    CountInterval(seg, s, start[s], |seg|);
  }

  lemma SlotsMonotone(idx: seq<int>, seg: seq<int>, slots: nat)
    requires |seg| == |idx| && slots > 0
    requires forall p :: 0 <= p < |idx| ==> seg[p] == SlotOf(idx, slots, p)
    ensures forall p, q :: 0 <= p <= q < |seg| ==> seg[p] <= seg[q]
  {
    forall p, q | 0 <= p <= q < |seg| ensures seg[p] <= seg[q] { RunOfMonotone(idx, p, q); }
  }

  /** With a slot for every run, the scattered table is faithful. */
  lemma ScatteredIsFaithful(idx: seq<int>, seg: seq<int>, start: seq<int>, len: seq<int>, lora: seq<int>)
    requires Scattered(idx, seg, start, len, lora)
    requires |len| > 0 && forall p :: 0 <= p < |idx| ==> seg[p] == SlotOf(idx, |len|, p)
    requires Runs(idx) <= |len|
    ensures Faithful(idx, start, len, lora)
  {
    forall p | 0 <= p < |idx| ensures seg[p] == RunOf(idx, p) < |len| {
      RunOfMonotone(idx, p, |idx| - 1);
    }
    SlotsInRange(idx, seg, start, len, lora);
    SlotsUniform(idx, seg, start, len, lora);
    SlotsInOrder(idx, seg, start, len, lora);
  }

  lemma SlotsInRange(idx: seq<int>, seg: seq<int>, start: seq<int>, len: seq<int>, lora: seq<int>)
    requires Scattered(idx, seg, start, len, lora)
    requires |len| > 0 && forall p :: 0 <= p < |idx| ==> seg[p] == SlotOf(idx, |len|, p)
    ensures forall s :: 0 <= s < |len| ==> len[s] >= 0 && start[s] >= 0 && start[s] + len[s] <= |idx|
    ensures forall p :: 0 <= p < |idx| ==> Covered(start, len, p)
  {
    forall s | 0 <= s < |len| ensures len[s] >= 0 && start[s] >= 0 && start[s] + len[s] <= |idx| {
      if len[s] > 0 { SlotInterval(idx, seg, start, len, lora, s); }
    }
    forall p | 0 <= p < |idx| ensures Covered(start, len, p) {
      CountSome(seg, seg[p], |seg|, p);
      SlotInterval(idx, seg, start, len, lora, seg[p]);
      assert InSegment(start, len, seg[p], p);
    }
  }

  lemma SlotsUniform(idx: seq<int>, seg: seq<int>, start: seq<int>, len: seq<int>, lora: seq<int>)
    requires Scattered(idx, seg, start, len, lora)
    requires |len| > 0 && forall p :: 0 <= p < |idx| ==> seg[p] == SlotOf(idx, |len|, p) == RunOf(idx, p)
    requires forall s :: 0 <= s < |len| ==> len[s] >= 0 && start[s] >= 0 && start[s] + len[s] <= |idx|
    ensures forall s, p :: 0 <= s < |len| && InSegment(start, len, s, p) ==> idx[p] == lora[s]
  {
    forall s, p | 0 <= s < |len| && InSegment(start, len, s, p) ensures idx[p] == lora[s] {
      SlotInterval(idx, seg, start, len, lora, s);
      var q :| 0 <= q < |seg| && seg[q] == s && lora[s] == idx[q];
      if p <= q { SameRunSameAdapter(idx, p, q); } else { SameRunSameAdapter(idx, q, p); }
    }
  }

  lemma SlotBefore(idx: seq<int>, seg: seq<int>, start: seq<int>, len: seq<int>, lora: seq<int>, s: int, t: int)
    requires Scattered(idx, seg, start, len, lora)
    requires |len| > 0 && forall p :: 0 <= p < |idx| ==> seg[p] == SlotOf(idx, |len|, p)
    requires 0 <= s < t < |len| && len[t] > 0
    ensures start[s] + len[s] <= start[t]
  {
    SlotInterval(idx, seg, start, len, lora, t);
    if len[s] > 0 {
      SlotInterval(idx, seg, start, len, lora, s);
      var last := start[s] + len[s] - 1;
      assert InSegment(start, len, s, last);
      SlotsMonotone(idx, seg, |len|);
      assert seg[last] < seg[start[t]];
    }
  }

  /** A run begins where its left neighbour's slot ends, with another adapter. */
  lemma SlotNext(idx: seq<int>, seg: seq<int>, start: seq<int>, len: seq<int>, lora: seq<int>, s: int)
    requires Scattered(idx, seg, start, len, lora)
    requires |len| > 0 && forall p :: 0 <= p < |idx| ==> seg[p] == SlotOf(idx, |len|, p) == RunOf(idx, p)
    requires 0 <= s < |len| - 1 && len[s + 1] > 0
    ensures len[s] > 0 && lora[s] != lora[s + 1]
  {
    var b := start[s + 1];
    assert RunOf(idx, b) == s + 1;
    assert b > 0 && seg[b - 1] == s && idx[b] != idx[b - 1];
    CountSome(seg, s, |seg|, b - 1);
    var p :| 0 <= p < |seg| && seg[p] == s && lora[s] == idx[p];
    var q :| 0 <= q < |seg| && seg[q] == s + 1 && lora[s + 1] == idx[q];
    RunsApart(idx, p, b - 1, b, q);
  }

  lemma RunsApart(idx: seq<int>, p: int, a: int, b: int, q: int)
    requires 0 <= p < |idx| && 0 <= q < |idx| && 0 <= a && b == a + 1 < |idx|
    requires RunOf(idx, p) == RunOf(idx, a) && RunOf(idx, q) == RunOf(idx, b) && idx[a] != idx[b]
    ensures idx[p] != idx[q]
  {
    if p <= a { SameRunSameAdapter(idx, p, a); } else { SameRunSameAdapter(idx, a, p); }
    if q <= b { SameRunSameAdapter(idx, q, b); } else { SameRunSameAdapter(idx, b, q); }
  }

  lemma SlotsInOrder(idx: seq<int>, seg: seq<int>, start: seq<int>, len: seq<int>, lora: seq<int>)
    requires Scattered(idx, seg, start, len, lora)
    requires |len| > 0 && forall p :: 0 <= p < |idx| ==> seg[p] == SlotOf(idx, |len|, p) == RunOf(idx, p)
    ensures forall s, t :: 0 <= s < t < |len| && len[t] > 0 ==> start[s] + len[s] <= start[t]
    ensures forall s :: 0 <= s < |len| - 1 && len[s + 1] > 0 ==> len[s] > 0 && lora[s] != lora[s + 1]
  {
    forall s, t | 0 <= s < t < |len| && len[t] > 0 ensures start[s] + len[s] <= start[t] {
      SlotBefore(idx, seg, start, len, lora, s, t);
    }
    forall s | 0 <= s < |len| - 1 && len[s + 1] > 0 ensures len[s] > 0 && lora[s] != lora[s + 1] {
      SlotNext(idx, seg, start, len, lora, s);
    }
  }

  /** A faithful table has a slot for every run: no table can describe more runs than it has slots. */
  lemma FaithfulNeedsSlots(idx: seq<int>, start: seq<int>, len: seq<int>, lora: seq<int>)
    requires Faithful(idx, start, len, lora)
    ensures Runs(idx) <= |len|
  {
    if |idx| > 0 {
      var s := SlotAtLeastRun(idx, start, len, lora, |idx| - 1);
    }
  }

  lemma {:induction false} SlotAtLeastRun(idx: seq<int>, start: seq<int>, len: seq<int>, lora: seq<int>, p: nat)
    returns (s: nat)
    requires Faithful(idx, start, len, lora) && p < |idx|
    ensures s < |len| && InSegment(start, len, s, p) && RunOf(idx, p) <= s
  {
    assert Covered(start, len, p);
    s :| 0 <= s < |len| && InSegment(start, len, s, p);
    if p > 0 {
      var r := SlotAtLeastRun(idx, start, len, lora, p - 1);
      if s < r { assert start[s] + len[s] <= start[r]; }
    }
  }

  /** Relabelling tokens through any function of their adapter cannot create runs. */
  lemma {:induction false} RelabelRuns(ids: seq<int>, idx: seq<int>, slot: int -> int, p: nat)
    requires |idx| == |ids| && p < |ids|
    requires forall q :: 0 <= q < |ids| ==> idx[q] == slot(ids[q])
    ensures RunOf(idx, p) <= RunOf(ids, p)
  {
    if p > 0 { RelabelRuns(ids, idx, slot, p - 1); }
  }

  /** Three runs, two slots: the clamped last slot swallows two adapters. */
  lemma TooManyRunsExample()
    ensures Runs([7, 8, 7]) == 3
    ensures forall start: seq<int>, len: seq<int>, lora: seq<int> ::
              |len| == 2 ==> !Faithful([7, 8, 7], start, len, lora)
  {
    assert RunOf([7, 8, 7], 1) == 1;
    forall start: seq<int>, len: seq<int>, lora: seq<int> | |len| == 2
      ensures !Faithful([7, 8, 7], start, len, lora)
    {
      if Faithful([7, 8, 7], start, len, lora) { FaithfulNeedsSlots([7, 8, 7], start, len, lora); }
    }
  }
}
