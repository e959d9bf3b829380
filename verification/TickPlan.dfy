/**
 One WGKP scheduler tick on values: which decode groups run, which stay buffered, and what the buffer
 and the already-aligned set become.  Groups are named by the id of their sequence.
 */
module TickPlan {
  import opened AlignmentBuffer
  import opened Arithmetic
  import opened Common
  import opened DispatchPlan

  function Only(s: seq<int>, keep: set<int>): (r: seq<int>)
    ensures forall x :: x in r <==> x in s && x in keep
  {
    if s == [] then []
    else Only(s[..|s| - 1], keep) + (if s[|s| - 1] in keep then [s[|s| - 1]] else [])
  }

  function Except(s: seq<int>, drop: set<int>): (r: seq<int>)
    ensures forall x :: x in r <==> x in s && x !in drop
  {
    if s == [] then []
    else Except(s[..|s| - 1], drop) + (if s[|s| - 1] in drop then [] else [s[|s| - 1]])
  }

  /** The sequences of a dispatched batch. */
  function Ids(batch: seq<Token>): (r: seq<int>)
    ensures |r| == |batch| && forall i :: 0 <= i < |r| ==> r[i] == batch[i].1
  {
    seq(|batch|, i requires 0 <= i < |batch| => batch[i].1)
  }

  function EnteredAll(b: Buffered, ids: seq<int>, of: int -> Adapter, t: real): Buffered {
    if ids == [] then b
    else
      var id := ids[|ids| - 1];
      Entered(EnteredAll(b, ids[..|ids| - 1], of, t), of(id), id, t)
  }

  function RemovedOne(b: Buffered, k: Adapter, id: int): Buffered {
    Buffered(RemovedFrom(b.queues, k, id), RemovedTime(b.oldest, b.queues, k, id), b.records)
  }

  function RemovedAll(b: Buffered, ids: seq<int>, of: int -> Adapter): Buffered {
    if ids == [] then b
    else
      var id := ids[|ids| - 1];
      RemovedOne(RemovedAll(b, ids[..|ids| - 1], of), of(id), id)
  }

  /** The buffer without the records of the given sequences. */
  function Released(b: Buffered, ids: seq<int>): Buffered { b.(records := b.records - SetOf(ids)) }

  lemma ReleasedStep(b: Buffered, ids: seq<int>, id: int)
    ensures SetOf(ids + [id]) == SetOf(ids) + {id}
    ensures Released(b, ids + [id]) == Released(b, ids).(records := Released(b, ids).records - {id})
  {
    assert SetOf(ids + [id]) == SetOf(ids) + {id};
  }

  lemma ReleasedNone(b: Buffered)
    ensures Released(b, []) == b && SetOf<int>([]) == {}
  {
    assert SetOf<int>([]) == {};
  }

  ghost function AfterTakes(b: Buffered, takes: seq<Take>): Buffered {
    Buffered(Remaining(b.queues, takes), RemainingTime(b.oldest, b.queues, takes), b.records)
  }

  /**
   What a tick does.  first and post split the offered decode groups; entered is the buffer with the
   first-timers in; aligned are the dispatched first-timers; drained the ones released only because
   the step would be empty.
   */
  datatype Tick = Tick(first: seq<int>, post: seq<int>, entered: Buffered, plan: Plan, aligned: seq<int>,
                       drained: seq<int>, after: Buffered, postAligned: set<int>)

  ghost function TickOf(b: Buffered, known: set<int>, of: int -> Adapter, prefill: seq<int>, decode: seq<int>,
                        ranked: seq<Adapter>, p: Policy, t: real): Tick
    requires p.W > 0
  {
    var first, post := Except(decode, known), Only(decode, known);
    var e := EnteredAll(b, first, of, t);
    var plan := PlanFor(p, e.queues, e.oldest, ranked);
    var aligned := Only(Ids(plan.batch), SetOf(first));
    var left := AfterTakes(e, plan.takes);
    var drained := if prefill == [] && post == [] && aligned == [] then first else [];
    Tick(first, post, e, plan, aligned, drained,
         Released(RemovedAll(Released(left, aligned), drained, of), drained),
         known + SetOf(aligned) + SetOf(drained))
  }

  // ---- sequences waiting in the buffer -----------------------------------------------------------------

  ghost predicate Homed(qs: Queues, of: int -> Adapter) { forall k, x :: x in QueueOf(qs, k) ==> of(x.id) == k }

  ghost predicate Sound(b: Buffered, of: int -> Adapter) { Good(b.queues, b.oldest, b.records) && Homed(b.queues, of) }

  /** The sequence is in its adapter's queue, since its recorded time. */
  ghost predicate Waits(b: Buffered, of: int -> Adapter, id: int) {
    id in b.records && Entry(id, b.records[id]) in QueueOf(b.queues, of(id))
  }

  /** A record without a place in any queue: the buffer would ignore the sequence from now on. */
  ghost predicate Orphan(b: Buffered, of: int -> Adapter, id: int) { id in b.records && !Waits(b, of, id) }

  lemma QueuedWaits(b: Buffered, of: int -> Adapter, id: int)
    requires Sound(b, of)
    ensures Queued(b.queues, id) <==> Waits(b, of, id)
  {
    if Queued(b.queues, id) {
      var k, x :| k in b.queues && x in b.queues[k] && x.id == id;
      assert x in QueueOf(b.queues, k) && QueueGood(b.queues[k], b.oldest[k], b.records);
      assert x == Entry(id, b.records[id]);
    }
  }

  lemma EntryWaits(b: Buffered, of: int -> Adapter, k: Adapter, x: Entry)
    requires Sound(b, of) && x in QueueOf(b.queues, k)
    ensures k == of(x.id) && Waits(b, of, x.id) && x.t == b.records[x.id]
  {
    assert QueueGood(b.queues[k], b.oldest[k], b.records);
  }

  // ---- enqueueing ----------------------------------------------------------------------------------------

  lemma EnterOne(b: Buffered, of: int -> Adapter, id: int, t: real)
    requires Sound(b, of) && Before(b.queues, t)
    ensures var e := Entered(b, of(id), id, t);
      && Sound(e, of) && Before(e.queues, t)
      && (forall k :: QueueOf(e.queues, k) ==
           QueueOf(b.queues, k) + (if id !in b.records && k == of(id) then [Entry(id, t)] else []))
      && e.records == if id in b.records then b.records else b.records[id := t]
  {
    hide Good;
    var k := of(id);
    if id !in b.records {
      RegisterThenPush(b.queues, b.oldest, b.records, k, id, t);
      if k !in b.queues {
        RegisterKeeps(b.queues, b.oldest, b.records, k);
        PushKeeps(b.queues[k := []], b.oldest[k := None], b.records, k, id, t);
      } else {
        PushKeeps(b.queues, b.oldest, b.records, k, id, t);
      }
      var e := Entered(b, k, id, t);
      forall l ensures QueueOf(e.queues, l) == QueueOf(b.queues, l) + (if l == k then [Entry(id, t)] else []) { }
    } else {
      forall l ensures QueueOf(b.queues, l) + [] == QueueOf(b.queues, l) { }
    }
  }

  /** Nobody who waited loses a place; the new ones stand behind, recorded at t. */
  ghost predicate EnteredFrom(b: Buffered, ids: seq<int>, of: int -> Adapter, t: real, e: Buffered) {
    && (forall k :: QueueOf(b.queues, k) <= QueueOf(e.queues, k))
    && (forall id :: id in e.records <==> id in b.records || id in ids)
    && (forall id :: id in e.records ==> e.records[id] == if id in b.records then b.records[id] else t)
    && (forall id :: Waits(e, of, id) <==> Waits(b, of, id) || (id in ids && id !in b.records))
  }

  lemma {:induction false} EnterAll(b: Buffered, ids: seq<int>, of: int -> Adapter, t: real)
    requires Sound(b, of) && Before(b.queues, t)
    ensures var e := EnteredAll(b, ids, of, t); Sound(e, of) && Before(e.queues, t) && EnteredFrom(b, ids, of, t, e)
  {
    if ids != [] {
      var n := |ids| - 1;
      EnterAll(b, ids[..n], of, t);
      var m := EnteredAll(b, ids[..n], of, t);
      EnterOne(m, of, ids[n], t);
      hide Sound, Before, Entered;
      EnteredStep(b, ids, of, t, m, EnteredAll(b, ids, of, t));
    }
  }

  lemma EnteredStep(b: Buffered, ids: seq<int>, of: int -> Adapter, t: real, m: Buffered, e: Buffered)
    requires ids != [] && EnteredFrom(b, ids[..|ids| - 1], of, t, m)
    requires var id := ids[|ids| - 1];
      && (forall k :: QueueOf(e.queues, k) ==
           QueueOf(m.queues, k) + (if id !in m.records && k == of(id) then [Entry(id, t)] else []))
      && e.records == if id in m.records then m.records else m.records[id := t]
    ensures EnteredFrom(b, ids, of, t, e)
  {
    var id := ids[|ids| - 1];
    assert forall x :: x in ids <==> x in ids[..|ids| - 1] || x == id;
    forall x ensures Waits(e, of, x) <==> Waits(b, of, x) || (x in ids && x !in b.records) {
      if x == id && id !in m.records {
        assert Waits(e, of, x);
      } else {
        assert Waits(e, of, x) <==> Waits(m, of, x);
      }
    }
  }

  // ---- dispatching -----------------------------------------------------------------------------------------

  /** How many tokens the takes remove from the queue of k. */
  ghost function TakenFrom(takes: seq<Take>, k: Adapter): nat {
    if takes == [] then 0
    else if takes[|takes| - 1].adapter == k then takes[|takes| - 1].count
    else TakenFrom(takes[..|takes| - 1], k)
  }

  lemma {:induction false} NoneTaken(takes: seq<Take>, k: Adapter)
    requires forall x :: x in takes ==> x.adapter != k
    ensures TakenFrom(takes, k) == 0
  {
    if takes != [] { NoneTaken(takes[..|takes| - 1], k); }
  }

  lemma LastIsNew(qs: Queues, ranked: seq<Adapter>, takes: seq<Take>)
    requires NoDuplicates(ranked) && TakesFrom(qs, ranked, takes) && takes != []
    ensures var n := |takes| - 1;
      && NoDuplicates(ranked[..n]) && TakesFrom(qs, ranked[..n], takes[..n])
      && TakenFrom(takes[..n], takes[n].adapter) == 0
      && takes[n].count <= |QueueOf(qs, takes[n].adapter)|
  {
    NoneTaken(takes[..|takes| - 1], takes[|takes| - 1].adapter);
  }

  /** Each queue loses exactly its own prefix. */
  lemma {:induction false} RemainingTaken(qs: Queues, ranked: seq<Adapter>, takes: seq<Take>)
    requires NoDuplicates(ranked) && TakesFrom(qs, ranked, takes)
    ensures forall k :: TakenFrom(takes, k) <= |QueueOf(qs, k)|
    ensures forall k :: QueueOf(Remaining(qs, takes), k) == QueueOf(qs, k)[TakenFrom(takes, k)..]
  {
    if takes != [] {
      var n := |takes| - 1;
      LastIsNew(qs, ranked, takes);
      RemainingTaken(qs, ranked[..n], takes[..n]);
      hide NoDuplicates, TakesFrom;
      var m, x := Remaining(qs, takes[..n]), takes[n];
      forall k ensures QueueOf(Popped(m, x), k) == QueueOf(qs, k)[TakenFrom(takes, k)..] { }
    }
  }

  lemma {:induction false} RemainingGood(b: Buffered, takes: seq<Take>)
    requires Good(b.queues, b.oldest, b.records)
    ensures var a := AfterTakes(b, takes); Good(a.queues, a.oldest, b.records)
  {
    if takes != [] {
      RemainingGood(b, takes[..|takes| - 1]);
      var a := AfterTakes(b, takes[..|takes| - 1]);
      TakeKeeps(a.queues, a.oldest, b.records, takes[|takes| - 1]);
      hide Good;
    }
  }

  /** The sequences a take removes. */
  ghost predicate InTake(b: Buffered, of: int -> Adapter, takes: seq<Take>, id: int) {
    var q := QueueOf(b.queues, of(id));
    id in b.records && TakenFrom(takes, of(id)) <= |q| && Entry(id, b.records[id]) in q[..TakenFrom(takes, of(id))]
  }

  ghost predicate InOne(b: Buffered, of: int -> Adapter, x: Take, id: int)
    requires x.count <= |QueueOf(b.queues, x.adapter)|
  {
    of(id) == x.adapter && id in b.records && Entry(id, b.records[id]) in QueueOf(b.queues, x.adapter)[..x.count]
  }

  lemma TaggedIds(b: Buffered, of: int -> Adapter, x: Take)
    requires Sound(b, of) && x.count <= |QueueOf(b.queues, x.adapter)|
    ensures var ids := Ids(Tagged(x.adapter, QueueOf(b.queues, x.adapter)[..x.count], x.promo));
      && NoDuplicates(ids)
      && forall id :: id in ids <==> InOne(b, of, x, id)
  {
    var q := QueueOf(b.queues, x.adapter);
    var ids := Ids(Tagged(x.adapter, q[..x.count], x.promo));
    assert q != [] ==> QueueGood(q, b.oldest[x.adapter], b.records);
    hide Good;
    forall i | 0 <= i < x.count ensures ids[i] == q[i].id && of(ids[i]) == x.adapter && q[..x.count][i] == q[i] {
      assert q[i] in q;
    }
    forall id | of(id) == x.adapter && id in b.records && Entry(id, b.records[id]) in q[..x.count] ensures id in ids {
      var i :| 0 <= i < x.count && q[..x.count][i] == Entry(id, b.records[id]);
      assert ids[i] == id;
    }
  }

  /** The tokens gathered by the takes name exactly the sequences in the taken prefixes, each once. */
  ghost predicate Names(b: Buffered, of: int -> Adapter, takes: seq<Take>, ids: seq<int>) {
    NoDuplicates(ids) && forall id :: id in ids <==> InTake(b, of, takes, id)
  }

  lemma {:induction false} GatheredIds(b: Buffered, of: int -> Adapter, ranked: seq<Adapter>, takes: seq<Take>)
    requires Sound(b, of) && NoDuplicates(ranked) && TakesFrom(b.queues, ranked, takes)
    requires forall x :: x in takes ==> x.count <= |QueueOf(b.queues, x.adapter)|
    ensures Names(b, of, takes, Ids(Gathered(b.queues, takes)))
  {
    hide Sound, Names, Tagged, QueueOf, TakenFrom;
    if takes != [] {
      var n := |takes| - 1;
      LastIsNew(b.queues, ranked, takes);
      GatheredIds(b, of, ranked[..n], takes[..n]);
      var x := takes[n];
      var last := Tagged(x.adapter, QueueOf(b.queues, x.adapter)[..x.count], x.promo);
      NamesStep(b, of, takes, takes[..n], x, Gathered(b.queues, takes[..n]), last);
    } else {
      NamesNone(b, of);
    }
  }

  lemma NamesNone(b: Buffered, of: int -> Adapter)
    ensures Names(b, of, [], Ids([]))
  {
  }

  lemma NamesStep(b: Buffered, of: int -> Adapter, takes: seq<Take>, prev: seq<Take>, x: Take, front: seq<Token>,
                  last: seq<Token>)
    requires Sound(b, of) && takes == prev + [x] && TakenFrom(prev, x.adapter) == 0
    requires x.count <= |QueueOf(b.queues, x.adapter)|
    requires last == Tagged(x.adapter, QueueOf(b.queues, x.adapter)[..x.count], x.promo)
    requires Names(b, of, prev, Ids(front))
    ensures Names(b, of, takes, Ids(front + last))
  {
    hide Sound, NoDuplicates, InTake, InOne, TakenFrom;
    TaggedIds(b, of, x);
    assert Ids(front + last) == Ids(front) + Ids(last);
    forall id
      ensures id in Ids(front) ==> id !in Ids(last)
      ensures id in Ids(front) + Ids(last) <==> InTake(b, of, takes, id)
    {
      TakeSplits(b, of, takes, prev, x, id);
    }
    JoinDistinct(Ids(front), Ids(last));
  }

  lemma TakeSplits(b: Buffered, of: int -> Adapter, takes: seq<Take>, prev: seq<Take>, x: Take, id: int)
    requires takes == prev + [x] && TakenFrom(prev, x.adapter) == 0 && x.count <= |QueueOf(b.queues, x.adapter)|
    ensures InTake(b, of, takes, id) <==> InTake(b, of, prev, id) || InOne(b, of, x, id)
    ensures InTake(b, of, prev, id) ==> !InOne(b, of, x, id)
  {
    assert takes[..|takes| - 1] == prev;
  }

  ghost predicate Parts(b: Buffered, of: int -> Adapter, ids: seq<int>, a: Buffered) {
    && a.records == b.records && NoDuplicates(ids)
    && (forall id :: Waits(b, of, id) <==> (id in ids || Waits(a, of, id)))
    && (forall id :: id in ids ==> !Waits(a, of, id))
  }

  /** A dispatch parts the waiting sequences: those in the batch, and those who wait on. */
  lemma DispatchParts(b: Buffered, of: int -> Adapter, ranked: seq<Adapter>, p: Policy, t: real)
    requires Sound(b, of) && NoDuplicates(ranked) && p.W > 0 && Before(b.queues, t)
    ensures var r := PlanFor(p, b.queues, b.oldest, ranked); var a := AfterTakes(b, r.takes);
      Sound(a, of) && Before(a.queues, t) && Parts(b, of, Ids(r.batch), a)
  {
    hide PlanFor, TakesFrom, Good, NoDuplicates, InTake;
    var r := PlanFor(p, b.queues, b.oldest, ranked);
    BatchIsGathered(p, b.queues, b.oldest, ranked);
    GatheredIds(b, of, ranked, r.takes);
    RemainingTaken(b.queues, ranked, r.takes);
    RemainingGood(b, r.takes);
    TakesPart(b, of, r.takes);
    RestBefore(b.queues, Remaining(b.queues, r.takes), r.takes, of, t);
  }

  /** Who waits is taken or waits on, and not both. */
  lemma TakesPart(b: Buffered, of: int -> Adapter, takes: seq<Take>)
    requires Sound(b, of) && forall k :: TakenFrom(takes, k) <= |QueueOf(b.queues, k)|
    requires forall k :: QueueOf(Remaining(b.queues, takes), k) == QueueOf(b.queues, k)[TakenFrom(takes, k)..]
    ensures forall id :: Waits(b, of, id) <==> InTake(b, of, takes, id) || Waits(AfterTakes(b, takes), of, id)
    ensures forall id :: InTake(b, of, takes, id) ==> !Waits(AfterTakes(b, takes), of, id)
  {
    hide Sound;
    forall id ensures Waits(b, of, id) <==> (InTake(b, of, takes, id) || Waits(AfterTakes(b, takes), of, id))
      ensures InTake(b, of, takes, id) ==> !Waits(AfterTakes(b, takes), of, id)
    {
      if id in b.records { PrefixOrRest(b, of, id, TakenFrom(takes, of(id))); }
    }
  }

  lemma RestBefore(qs: Queues, now: Queues, takes: seq<Take>, of: int -> Adapter, t: real)
    requires forall k :: TakenFrom(takes, k) <= |QueueOf(qs, k)|
    requires forall k :: QueueOf(now, k) == QueueOf(qs, k)[TakenFrom(takes, k)..]
    requires Before(qs, t) && Homed(qs, of)
    ensures Before(now, t) && Homed(now, of)
  {
    forall k, x | x in QueueOf(now, k) ensures x in QueueOf(qs, k) { }
    forall k, x | k in now && x in now[k] ensures x.t <= t { assert x in QueueOf(now, k); }
  }

  lemma PrefixOrRest(b: Buffered, of: int -> Adapter, id: int, c: nat)
    requires Sound(b, of) && c <= |QueueOf(b.queues, of(id))| && id in b.records
    ensures var q, x := QueueOf(b.queues, of(id)), Entry(id, b.records[id]);
      (x in q <==> x in q[..c] || x in q[c..]) && !(x in q[..c] && x in q[c..])
  {
    var q, x := QueueOf(b.queues, of(id)), Entry(id, b.records[id]);
    assert q == q[..c] + q[c..];
    assert q != [] ==> QueueGood(q, b.oldest[of(id)], b.records);
    hide Good;
    assert forall i, j :: 0 <= i < c && 0 <= j < |q| - c ==> q[i].id != q[c..][j].id;
  }

  // ---- draining and releasing --------------------------------------------------------------------------------

  /** The queues without the given sequences. */
  ghost predicate LeftOut(qs: Queues, gone: set<int>, now: Queues) {
    forall k, x: Entry {:trigger x in QueueOf(now, k)} {:trigger x in QueueOf(qs, k)} ::
      x in QueueOf(now, k) <==> x in QueueOf(qs, k) && x.id !in gone
  }

  lemma RemovedLeavesOut(qs: Queues, of: int -> Adapter, id: int)
    requires Homed(qs, of)
    ensures LeftOut(qs, {id}, RemovedFrom(qs, of(id), id))
  {
    var now := RemovedFrom(qs, of(id), id);
    forall l, x: Entry ensures x in QueueOf(now, l) <==> x in QueueOf(qs, l) && x.id !in {id} {
      if x in QueueOf(qs, l) { assert of(x.id) == l; }
    }
  }

  lemma LeftOutKeeps(qs: Queues, gone: set<int>, now: Queues, of: int -> Adapter, t: real)
    requires LeftOut(qs, gone, now) && Homed(qs, of) && Before(qs, t)
    ensures Homed(now, of) && Before(now, t)
  {
    forall l, x: Entry | x in QueueOf(now, l) ensures x in QueueOf(qs, l) { }
    forall l, x: Entry | l in now && x in now[l] ensures x.t <= t {
      assert x in QueueOf(now, l) && x in QueueOf(qs, l) && l in qs;
    }
  }

  lemma LeftOutTwice(qs: Queues, one: set<int>, mid: Queues, two: set<int>, now: Queues)
    requires LeftOut(qs, one, mid) && LeftOut(mid, two, now)
    ensures LeftOut(qs, one + two, now)
  {
    forall l, x: Entry ensures x in QueueOf(now, l) <==> x in QueueOf(qs, l) && x.id !in one + two {
      assert x in QueueOf(mid, l) <==> x in QueueOf(qs, l) && x.id !in one;
    }
  }

  lemma RemoveOne(b: Buffered, of: int -> Adapter, id: int, t: real)
    requires Sound(b, of) && Before(b.queues, t)
    ensures var r := RemovedOne(b, of(id), id);
      Sound(r, of) && Before(r.queues, t) && r.records == b.records && LeftOut(b.queues, {id}, r.queues)
  {
    if of(id) in b.queues { RemoveKeeps(b.queues, b.oldest, b.records, of(id), id); }
    RemovedLeavesOut(b.queues, of, id);
    hide Good, LeftOut, Homed, Before;
    LeftOutKeeps(b.queues, {id}, RemovedFrom(b.queues, of(id), id), of, t);
  }

  lemma {:induction false} RemoveAll(b: Buffered, ids: seq<int>, of: int -> Adapter, t: real)
    requires Sound(b, of) && Before(b.queues, t)
    ensures var r := RemovedAll(b, ids, of);
      Sound(r, of) && Before(r.queues, t) && r.records == b.records && LeftOut(b.queues, SetOf(ids), r.queues)
  {
    if ids == [] {
      assert LeftOut(b.queues, SetOf<int>([]), b.queues);
    } else {
      hide Sound, Before, LeftOut, RemovedOne, SetOf;
      var n := |ids| - 1;
      var m := RemovedAll(b, ids[..n], of);
      RemoveAll(b, ids[..n], of, t);
      RemoveOne(m, of, ids[n], t);
      SetOfEnd(ids);
      LeftOutTwice(b.queues, SetOf(ids[..n]), m.queues, {ids[n]}, RemovedAll(b, ids, of).queues);
    }
  }

  lemma SetOfEnd(ids: seq<int>)
    requires ids != []
    ensures SetOf(ids) == SetOf(ids[..|ids| - 1]) + {ids[|ids| - 1]}
  {
  }

  lemma ReleaseAll(b: Buffered, of: int -> Adapter, gone: set<int>)
    requires Sound(b, of) && forall id :: id in gone ==> !Waits(b, of, id)
    ensures Sound(b.(records := b.records - gone), of) && Releases(b, of, gone, b.(records := b.records - gone))
  {
    var r := b.(records := b.records - gone);
    forall k | k in b.queues ensures QueueGood(b.queues[k], b.oldest[k], r.records) {
      assert QueueGood(b.queues[k], b.oldest[k], b.records);
      forall x | x in b.queues[k] ensures x.id !in gone { EntryWaits(b, of, k, x); }
    }
  }

  ghost predicate Releases(b: Buffered, of: int -> Adapter, gone: set<int>, r: Buffered) {
    && r.records == b.records - gone
    && forall id :: id !in gone ==> (Waits(r, of, id) <==> Waits(b, of, id))
  }

  ghost predicate Drains(b: Buffered, of: int -> Adapter, gone: set<int>, r: Buffered) {
    r.records == b.records && forall id :: Waits(r, of, id) <==> Waits(b, of, id) && id !in gone
  }

  lemma LeftOutDrains(b: Buffered, of: int -> Adapter, gone: set<int>, r: Buffered)
    requires r.records == b.records && LeftOut(b.queues, gone, r.queues)
    ensures Drains(b, of, gone, r)
  {
    forall id ensures Waits(r, of, id) <==> Waits(b, of, id) && id !in gone { }
  }

  // ---- the tick ------------------------------------------------------------------------------------------------

  lemma {:induction false} Parted(s: seq<int>, known: set<int>)
    requires NoDuplicates(s)
    ensures NoDuplicates(Only(s, known)) && NoDuplicates(Except(s, known))
    ensures |Only(s, known)| + |Except(s, known)| == |s|
  {
    if s != [] {
      var n := |s| - 1;
      Parted(s[..n], known);
      assert s[n] !in s[..n];
    }
  }

  /** What holds between ticks: an already aligned sequence has no record in the buffer. */
  ghost predicate TickInv(b: Buffered, postAligned: set<int>, of: int -> Adapter, t: real) {
    Sound(b, of) && Before(b.queues, t) && forall id :: id in postAligned ==> id !in b.records
  }

  /** Who has a record and who waits after the tick, and since when. */
  ghost predicate Outcome(b: Buffered, of: int -> Adapter, t: real, k: Tick) {
    && (forall id :: id in k.after.records <==>
          (id in b.records || id in k.first) && id !in k.aligned && id !in k.drained)
    && (forall id :: id in k.after.records ==> k.after.records[id] == if id in b.records then b.records[id] else t)
    && (forall id :: Waits(k.after, of, id) <==>
          (Waits(b, of, id) || (id in k.first && id !in b.records)) && id !in Ids(k.plan.batch) && id !in k.drained)
    && NoDuplicates(Ids(k.plan.batch))
    && (forall id :: id in Ids(k.plan.batch) ==> Waits(b, of, id) || (id in k.first && id !in b.records))
  }

  lemma TickOutcome(b: Buffered, known: set<int>, of: int -> Adapter, prefill: seq<int>, decode: seq<int>,
                    ranked: seq<Adapter>, p: Policy, t: real)
    requires TickInv(b, known, of, t) && NoDuplicates(ranked) && p.W > 0
    ensures var k := TickOf(b, known, of, prefill, decode, ranked, p, t);
      TickInv(k.after, k.postAligned, of, t) && Outcome(b, of, t, k)
  {
    var k := TickOf(b, known, of, prefill, decode, ranked, p, t);
    hide Sound, Before, RemovedAll, EnteredAll, PlanFor, Outcome, SetOf, AfterTakes;
    TickStages(b, known, of, ranked, p, t, k);
  }

  lemma TickStages(b: Buffered, known: set<int>, of: int -> Adapter, ranked: seq<Adapter>, p: Policy, t: real, k: Tick)
    requires TickInv(b, known, of, t) && NoDuplicates(ranked) && p.W > 0
    requires k.entered == EnteredAll(b, k.first, of, t)
    requires k.plan == PlanFor(p, k.entered.queues, k.entered.oldest, ranked)
    requires (forall id :: id in k.aligned ==> id in Ids(k.plan.batch)) && forall id :: id in known ==> id !in k.first
    requires k.after ==
      Released(RemovedAll(Released(AfterTakes(k.entered, k.plan.takes), k.aligned), k.drained, of), k.drained)
    requires k.postAligned == known + SetOf(k.aligned) + SetOf(k.drained)
    ensures TickInv(k.after, k.postAligned, of, t) && Outcome(b, of, t, k)
  {
    hide Sound, Before, RemovedAll, EnteredAll, PlanFor, LeftOut, Drains, Releases, EnteredFrom, Parts, Outcome, Waits,
      AfterTakes;
    EnterAll(b, k.first, of, t);
    DispatchParts(k.entered, of, ranked, p, t);
    var left := AfterTakes(k.entered, k.plan.takes);
    AlignedLeft(k.entered, of, Ids(k.plan.batch), left, k.aligned);
    ReleaseAll(left, of, SetOf(k.aligned));
    var held := Released(left, k.aligned);
    RemoveAll(held, k.drained, of, t);
    var rest := RemovedAll(held, k.drained, of);
    LeftOutDrains(held, of, SetOf(k.drained), rest);
    DrainedLeft(held, of, SetOf(k.drained), rest);
    ReleaseAll(rest, of, SetOf(k.drained));
    OutcomeFrom(b, known, of, t, k, left, held, rest);
  }

  lemma AlignedLeft(b: Buffered, of: int -> Adapter, ids: seq<int>, left: Buffered, aligned: seq<int>)
    requires Parts(b, of, ids, left) && forall id :: id in aligned ==> id in ids
    ensures forall id :: id in SetOf(aligned) ==> !Waits(left, of, id)
  {
  }

  lemma DrainedLeft(b: Buffered, of: int -> Adapter, gone: set<int>, r: Buffered)
    requires Drains(b, of, gone, r)
    ensures forall id :: id in gone ==> !Waits(r, of, id)
  {
  }

  lemma OutcomeFrom(b: Buffered, known: set<int>, of: int -> Adapter, t: real, k: Tick, left: Buffered, held: Buffered,
                    rest: Buffered)
    requires EnteredFrom(b, k.first, of, t, k.entered)
    requires forall id :: id in known ==> id !in b.records && id !in k.first
    requires Parts(k.entered, of, Ids(k.plan.batch), left)
    requires Releases(left, of, SetOf(k.aligned), held)
    requires Drains(held, of, SetOf(k.drained), rest)
    requires Releases(rest, of, SetOf(k.drained), k.after)
    requires k.postAligned == known + SetOf(k.aligned) + SetOf(k.drained)
    requires forall id :: id in k.aligned ==> id in Ids(k.plan.batch)
    ensures Outcome(b, of, t, k) && forall id :: id in k.postAligned ==> id !in k.after.records
  {
    WaitersAfter(k.entered, of, Ids(k.plan.batch), left, k.aligned, held, k.drained, rest, k.after);
    RecordsAfter(k.entered, of, left, k.aligned, held, k.drained, rest, k.after);
    hide Releases, Drains, Waits, NoDuplicates;
    assert forall id :: id in Ids(k.plan.batch) ==> Waits(k.entered, of, id);
  }

  lemma RecordsAfter(e: Buffered, of: int -> Adapter, left: Buffered, aligned: seq<int>, held: Buffered,
                     drained: seq<int>, rest: Buffered, after: Buffered)
    requires left.records == e.records && Releases(left, of, SetOf(aligned), held)
    requires Drains(held, of, SetOf(drained), rest) && Releases(rest, of, SetOf(drained), after)
    ensures forall id :: id in after.records <==> id in e.records && id !in aligned && id !in drained
    ensures forall id :: id in after.records ==> after.records[id] == e.records[id]
  {
    hide Waits;
  }

  lemma WaitersAfter(e: Buffered, of: int -> Adapter, ids: seq<int>, left: Buffered, aligned: seq<int>, held: Buffered,
                     drained: seq<int>, rest: Buffered, after: Buffered)
    requires Parts(e, of, ids, left) && Releases(left, of, SetOf(aligned), held)
    requires Drains(held, of, SetOf(drained), rest) && Releases(rest, of, SetOf(drained), after)
    requires forall id :: id in aligned ==> id in ids
    ensures forall id :: Waits(after, of, id) <==> Waits(e, of, id) && id !in ids && id !in drained
  {
    RecordsAfter(e, of, left, aligned, held, drained, rest, after);
    assert WaitsRecordedIn(held, of) && WaitsRecordedIn(after, of);
    hide Waits;
    forall id ensures Waits(after, of, id) <==> Waits(e, of, id) && id !in ids && id !in drained {
      assert id in SetOf(aligned) <==> id in aligned;
      assert id in SetOf(drained) <==> id in drained;
    }
  }

  ghost predicate WaitsRecordedIn(b: Buffered, of: int -> Adapter) { forall id :: Waits(b, of, id) ==> id in b.records }

  // ---- what runs -------------------------------------------------------------------------------------------------

  /** The groups a tick schedules; sorted is the already-aligned part in adapter order. */
  function Scheduled(prefill: seq<int>, sorted: seq<int>, aligned: seq<int>, drained: seq<int>): seq<int> {
    prefill + sorted + aligned + drained
  }

  /**
   No group is scheduled twice; every prefill and every already aligned group runs; nothing runs that was
   not offered; and a tick with decode groups is never empty.
   */
  lemma TickRuns(b: Buffered, known: set<int>, of: int -> Adapter, prefill: seq<int>, decode: seq<int>,
                 ranked: seq<Adapter>, p: Policy, t: real, sorted: seq<int>)
    requires TickInv(b, known, of, t) && NoDuplicates(ranked) && p.W > 0 && NoDuplicates(prefill + decode)
    requires multiset(sorted) == multiset(Only(decode, known))
    ensures var k := TickOf(b, known, of, prefill, decode, ranked, p, t);
      var out := Scheduled(prefill, sorted, k.aligned, k.drained);
      && NoDuplicates(out) && (forall id :: id in prefill ==> id in out)
      && (forall id :: id in decode && id in known ==> id in out)
      && (forall id :: id in out ==> id in prefill || id in decode)
      && (decode != [] ==> out != [])
      && forall id :: id in decode ==> (id !in out <==> id in k.first && id !in k.aligned && id !in k.drained)
  {
    var k := TickOf(b, known, of, prefill, decode, ranked, p, t);
    TickOutcome(b, known, of, prefill, decode, ranked, p, t);
    HalvesDistinct(prefill, decode);
    Parted(decode, known);
    SameDistinct(k.post, sorted);
    Parted(Ids(k.plan.batch), SetOf(k.first));
    assert decode != [] ==> k.first != [] || k.post != [];
    assert |sorted| == |multiset(sorted)| == |multiset(k.post)| == |k.post|;
    hide TickOf, TickInv, Outcome, NoDuplicates;
    JoinDistinct(prefill, sorted);
    JoinDistinct(prefill + sorted, k.aligned);
    JoinDistinct(prefill + sorted + k.aligned, k.drained);
  }

  /** A group left out of the tick keeps its record, and its place if it had one. */
  lemma OmittedKeepWaiting(b: Buffered, known: set<int>, of: int -> Adapter, prefill: seq<int>, decode: seq<int>,
                           ranked: seq<Adapter>, p: Policy, t: real, id: int)
    requires TickInv(b, known, of, t) && NoDuplicates(ranked) && p.W > 0
    requires var k := TickOf(b, known, of, prefill, decode, ranked, p, t);
      id in k.first && id !in k.aligned && id !in k.drained
    ensures var k := TickOf(b, known, of, prefill, decode, ranked, p, t);
      && id in k.after.records && k.after.records[id] == (if id in b.records then b.records[id] else t)
      && (Waits(k.after, of, id) <==> !Orphan(b, of, id))
  {
    TickOutcome(b, known, of, prefill, decode, ranked, p, t);
    hide TickInv;
  }

  /** The orphans after a tick: the old ones that no drain freed, and the dispatched ones nobody offered. */
  lemma OrphansAfterTick(b: Buffered, known: set<int>, of: int -> Adapter, prefill: seq<int>, decode: seq<int>,
                         ranked: seq<Adapter>, p: Policy, t: real, id: int)
    requires TickInv(b, known, of, t) && NoDuplicates(ranked) && p.W > 0
    ensures var k := TickOf(b, known, of, prefill, decode, ranked, p, t);
      Orphan(k.after, of, id) <==>
        (Orphan(b, of, id) && id !in k.drained) || (id in Ids(k.plan.batch) && id !in decode)
  {
    TickOutcome(b, known, of, prefill, decode, ranked, p, t);
    hide PlanFor, EnteredAll, AfterTakes, RemovedAll;
  }

  /** An orphan that is offered as a first-timer is passed over, unless the step would be empty without it. */
  lemma OrphanStarves(b: Buffered, known: set<int>, of: int -> Adapter, prefill: seq<int>, decode: seq<int>,
                      ranked: seq<Adapter>, p: Policy, t: real, id: int)
    requires TickInv(b, known, of, t) && NoDuplicates(ranked) && p.W > 0
    requires Orphan(b, of, id) && TickOf(b, known, of, prefill, decode, ranked, p, t).drained == []
    ensures var k := TickOf(b, known, of, prefill, decode, ranked, p, t);
      id !in k.aligned && id !in k.post && Orphan(k.after, of, id)
  {
    TickOutcome(b, known, of, prefill, decode, ranked, p, t);
    OrphansAfterTick(b, known, of, prefill, decode, ranked, p, t, id);
    hide PlanFor, EnteredAll, AfterTakes, RemovedAll;
  }

  ghost function ExampleBuffer(a: Adapter, t: real): Buffered {
    Buffered(map[a := [Entry(1, t)]], map[a := Some(t)], map[1 := t])
  }

  ghost function ExamplePolicy(t: real): Policy { Policy(Holdback(1, 1, {}), 1, 1.0, t, map[], 1.0, 1) }

  /** A dispatched token whose group is not offered leaves a record behind: sequence 1 becomes an orphan. */
  lemma OrphanExample(a: Adapter, t: real)
    ensures var b, of := ExampleBuffer(a, t), (id: int) => a;
      && TickInv(b, {}, of, t) && NoOrphans(b, of)
      && Orphan(TickOf(b, {}, of, [7], [2], [a], ExamplePolicy(t), t).after, of, 1)
  {
    var b, of := ExampleBuffer(a, t), (id: int) => a;
    ExampleSound(a, t, of);
    var k := TickOf(b, {}, of, [7], [2], [a], ExamplePolicy(t), t);
    assert k.first == [2] by { assert [2][..0] == []; assert Except([], {}) + [2] == [2]; }
    ExampleEntered(a, t, of);
    DispatchesOne(ExamplePolicy(t), k.entered, a, t);
    hide TickInv, PlanFor, EnteredAll, AfterTakes, RemovedAll, ExampleBuffer, NoOrphans, Only, Except;
    assert Ids(k.plan.batch)[0] == 1;
    OrphansAfterTick(b, {}, of, [7], [2], [a], ExamplePolicy(t), t, 1);
  }

  lemma ExampleSound(a: Adapter, t: real, of: int -> Adapter)
    requires of == (id => a)
    ensures TickInv(ExampleBuffer(a, t), {}, of, t) && NoOrphans(ExampleBuffer(a, t), of)
  {
    var b := ExampleBuffer(a, t);
    assert QueueGood(b.queues[a], b.oldest[a], b.records);
    assert Entry(1, t) in QueueOf(b.queues, a);
  }

  lemma ExampleEntered(a: Adapter, t: real, of: int -> Adapter)
    requires of == (id => a)
    ensures var e := EnteredAll(ExampleBuffer(a, t), [2], of, t);
      a in e.queues && e.queues[a] == [Entry(1, t), Entry(2, t)]
  {
    assert [2][..0] == [];
    assert EnteredAll(ExampleBuffer(a, t), [2], of, t) == Entered(EnteredAll(ExampleBuffer(a, t), [], of, t), a, 2, t);
  }

  lemma DispatchesOne(p: Policy, e: Buffered, a: Adapter, t: real)
    requires p == Policy(Holdback(1, 1, {}), 1, 1.0, t, map[], 1.0, 1)
    requires a in e.queues && e.queues[a] == [Entry(1, t), Entry(2, t)]
    ensures PlanFor(p, e.queues, e.oldest, [a]).batch == [(a, 1, false)]
  {
    assert [a][..0] == [];
    assert e.queues[a][..1] == [Entry(1, t)];
    assert Tagged(a, [Entry(1, t)], false) == [(a, 1, false)];
  }

  // ---- ticks in which every buffered sequence is offered again -----------------------------------------------------

  ghost predicate NoOrphans(b: Buffered, of: int -> Adapter) { forall id :: !Orphan(b, of, id) }

  ghost predicate Reoffered(b: Buffered, of: int -> Adapter, decode: seq<int>) {
    forall id :: Waits(b, of, id) ==> id in decode
  }

  ghost predicate Short(b: Buffered, W: nat) { forall k :: |QueueOf(b.queues, k)| < W }

  ghost function WholeQueues(qs: Queues, ranked: seq<Adapter>): (r: seq<Take>)
    ensures TakesFrom(qs, ranked, r) && forall x :: x in r ==> x.count == |QueueOf(qs, x.adapter)|
  {
    seq(|ranked|, i requires 0 <= i < |ranked| => Take(ranked[i], |QueueOf(qs, ranked[i])|, false))
  }

  lemma {:induction false} WholeQueuesLength(qs: Queues, ranked: seq<Adapter>)
    ensures |Gathered(qs, WholeQueues(qs, ranked))| == Waiting(qs, ranked)
  {
    if ranked != [] {
      var n := |ranked| - 1;
      WholeQueuesLength(qs, ranked[..n]);
      assert WholeQueues(qs, ranked)[..n] == WholeQueues(qs, ranked[..n]);
    }
  }

  lemma TakenWaits(b: Buffered, of: int -> Adapter, takes: seq<Take>, ids: seq<int>)
    requires Names(b, of, takes, ids)
    ensures NoDuplicates(ids) && forall id :: id in ids ==> Waits(b, of, id)
  {
    hide NoDuplicates;
    forall id | id in ids ensures Waits(b, of, id) {
      var q := QueueOf(b.queues, of(id));
      assert InTake(b, of, takes, id) && q[..TakenFrom(takes, of(id))] <= q;
    }
  }

  /** As many decode groups as waiting sequences: the tick's budget constrains no queue. */
  lemma BudgetSuffices(b: Buffered, of: int -> Adapter, ranked: seq<Adapter>, decode: seq<int>)
    requires Sound(b, of) && NoDuplicates(ranked) && Reoffered(b, of, decode)
    ensures Waiting(b.queues, ranked) <= |decode|
  {
    var takes := WholeQueues(b.queues, ranked);
    var ids := Ids(Gathered(b.queues, takes));
    GatheredIds(b, of, ranked, takes);
    WholeQueuesLength(b.queues, ranked);
    hide Sound, WholeQueues, Gathered, NoDuplicates;
    TakenWaits(b, of, takes, ids);
    hide Names, Waits;
    DistinctWithin(ids, decode);
  }

  /** Every token a plan dispatches belongs to an offered group. */
  lemma AllOffered(b: Buffered, known: set<int>, of: int -> Adapter, prefill: seq<int>, decode: seq<int>,
                   ranked: seq<Adapter>, p: Policy, t: real)
    requires TickInv(b, known, of, t) && NoDuplicates(ranked) && p.W > 0 && Reoffered(b, of, decode)
    ensures var k := TickOf(b, known, of, prefill, decode, ranked, p, t);
      && (forall id :: id in Ids(k.plan.batch) ==> id in k.first)
      && (forall id :: id in Ids(k.plan.batch) <==> id in k.aligned)
      && Reoffered(k.entered, of, decode)
  {
    var k := TickOf(b, known, of, prefill, decode, ranked, p, t);
    TickOutcome(b, known, of, prefill, decode, ranked, p, t);
    EnterAll(b, k.first, of, t);
    hide PlanFor, EnteredAll, AfterTakes, RemovedAll;
  }

  /** With enough budget, queue k gives up what it would give up unconstrained. */
  lemma AmpleTaken(p: Policy, b: Buffered, ranked: seq<Adapter>, k: Adapter)
    requires p.W > 0 && NoDuplicates(ranked) && Waiting(b.queues, ranked) <= p.budget && k in ranked
    ensures var c := TakenFrom(PlanFor(p, b.queues, b.oldest, ranked).takes, k); var q := QueueOf(b.queues, k);
      && c == Ample(p, k, |q|, Age(OldestOf(b.oldest, k), p.now))
      && QueueOf(Remaining(b.queues, PlanFor(p, b.queues, b.oldest, ranked).takes), k) == q[c..]
  {
    var takes := PlanFor(p, b.queues, b.oldest, ranked).takes;
    AmpleBudget(p, b.queues, b.oldest, ranked);
    BatchIsGathered(p, b.queues, b.oldest, ranked);
    RemainingTaken(b.queues, ranked, takes);
    hide Ample, PlanFor;
    var i :| 0 <= i < |ranked| && ranked[i] == k;
    TakenAt(b.queues, ranked, takes, i);
  }

  lemma {:induction false} TakenAt(qs: Queues, ranked: seq<Adapter>, takes: seq<Take>, i: nat)
    requires NoDuplicates(ranked) && TakesFrom(qs, ranked, takes) && i < |takes|
    ensures TakenFrom(takes, ranked[i]) == takes[i].count
  {
    if i < |takes| - 1 {
      TakenAt(qs, ranked[..|ranked| - 1], takes[..|takes| - 1], i);
      assert takes[|takes| - 1].adapter == ranked[|ranked| - 1] != ranked[i];
    }
  }

  /** After a dispatch within budget, every queue holds less than a warp. */
  lemma DispatchLeavesShort(p: Policy, b: Buffered, ranked: seq<Adapter>)
    requires p.W > 0 && NoDuplicates(ranked) && Waiting(b.queues, ranked) <= p.budget
    requires forall k :: k in b.queues ==> k in ranked
    ensures Short(AfterTakes(b, PlanFor(p, b.queues, b.oldest, ranked).takes), p.W)
  {
    var takes := PlanFor(p, b.queues, b.oldest, ranked).takes;
    BatchIsGathered(p, b.queues, b.oldest, ranked);
    RemainingTaken(b.queues, ranked, takes);
    hide PlanFor, Ample;
    forall k ensures |QueueOf(Remaining(b.queues, takes), k)| < p.W {
      if k in b.queues {
        AmpleTaken(p, b, ranked, k);
        AmpleLeaves(p, k, |b.queues[k]|, Age(OldestOf(b.oldest, k), p.now));
      }
    }
  }

  lemma PlaceOf(b: Buffered, e: Buffered, of: int -> Adapter, ids: seq<int>, t: real, id: int) returns (i: nat)
    requires EnteredFrom(b, ids, of, t, e) && Waits(b, of, id)
    ensures i < |QueueOf(b.queues, of(id))| <= |QueueOf(e.queues, of(id))|
    ensures id in e.records && QueueOf(e.queues, of(id))[i] == Entry(id, e.records[id]) == Entry(id, b.records[id])
  {
    var q := QueueOf(b.queues, of(id));
    assert q <= QueueOf(e.queues, of(id));
    i :| 0 <= i < |q| && q[i] == Entry(id, b.records[id]);
  }

  /** An expired token within the first W places leaves. */
  lemma ExpiredIndex(p: Policy, k: Adapter, q: seq<Entry>, enq: Option<real>, records: map<int, real>, i: nat)
    requires p.W > 0 && QueueGood(q, enq, records) && i < p.W && i < |q| && p.now - q[i].t >= p.slo
    ensures i < Ample(p, k, |q|, Age(enq, p.now)) && q[i] !in q[Ample(p, k, |q|, Age(enq, p.now))..]
  {
    OldestAge(q, enq, records, p.now, i);
    EnoughIsAmple(p, k, |q|, Age(enq, p.now), |q|);
    AmpleLeaves(p, k, |q|, Age(enq, p.now));
    if |q| >= p.W { TimesGrowsOrEqual(1, |q| / p.W, p.W); }
    hide QueueGood, Ample, Age;
    NotBehind(q, enq, records, Ample(p, k, |q|, Age(enq, p.now)), i);
  }

  lemma ExpiredTaken(p: Policy, b: Buffered, e: Buffered, of: int -> Adapter, ids: seq<int>, t: real,
                     ranked: seq<Adapter>, id: int)
    requires p.W > 0 && NoDuplicates(ranked) && Waiting(e.queues, ranked) <= p.budget
    requires forall k :: k in e.queues ==> k in ranked
    requires EnteredFrom(b, ids, of, t, e) && Sound(e, of) && Short(b, p.W) && Waits(b, of, id)
    requires p.now - b.records[id] >= p.slo
    ensures !Waits(AfterTakes(e, PlanFor(p, e.queues, e.oldest, ranked).takes), of, id)
  {
    var k := of(id);
    var i := PlaceOf(b, e, of, ids, t, id);
    hide EnteredFrom, PlanFor, Ample;
    AmpleTaken(p, e, ranked, k);
    assert |QueueOf(b.queues, k)| < p.W;
    assert QueueGood(e.queues[k], e.oldest[k], e.records);
    ExpiredIndex(p, k, e.queues[k], e.oldest[k], e.records, i);
  }

  lemma OldestAge(q: seq<Entry>, enq: Option<real>, records: map<int, real>, now: real, i: nat)
    requires QueueGood(q, enq, records) && i < |q|
    ensures enq.Some? && Age(enq, now) >= now - q[i].t
  {
  }

  lemma NotBehind(q: seq<Entry>, enq: Option<real>, records: map<int, real>, c: nat, i: nat)
    requires QueueGood(q, enq, records) && i < c <= |q|
    ensures q[i] !in q[c..]
  {
  }

  lemma DrainedIsEmpty(of: int -> Adapter, W: nat, left: Buffered, drained: seq<int>, rest: Buffered)
    requires Short(left, W) && LeftOut(left.queues, SetOf(drained), rest.queues) && Sound(left, of)
    requires drained == [] ==> rest == left
    requires drained != [] ==> forall id :: Waits(left, of, id) ==> id in drained
    requires W > 0
    ensures Short(rest, W)
  {
    if drained != [] {
      forall k ensures QueueOf(rest.queues, k) == [] {
        if QueueOf(rest.queues, k) != [] {
          var x := QueueOf(rest.queues, k)[0];
          assert x in QueueOf(rest.queues, k);
          EntryWaits(left, of, k, x);
          assert false;
        }
      }
    }
  }

  /** The buffer after a tick that re-offered everything: every queue is shorter than a warp. */
  lemma ReofferedShort(b: Buffered, known: set<int>, of: int -> Adapter, prefill: seq<int>, decode: seq<int>,
                       ranked: seq<Adapter>, p: Policy, t: real)
    requires TickInv(b, known, of, t) && NoDuplicates(ranked) && p.W > 0 && p.budget == |decode|
    requires Reoffered(b, of, decode)
    requires forall k :: k in EnteredAll(b, Except(decode, known), of, t).queues ==> k in ranked
    ensures Waiting(EnteredAll(b, Except(decode, known), of, t).queues, ranked) <= |decode|
    ensures Short(TickOf(b, known, of, prefill, decode, ranked, p, t).after, p.W)
  {
    var k := TickOf(b, known, of, prefill, decode, ranked, p, t);
    AllOffered(b, known, of, prefill, decode, ranked, p, t);
    EnterAll(b, k.first, of, t);
    hide EnteredAll, Except;
    BudgetSuffices(k.entered, of, ranked, decode);
    DispatchLeavesShort(p, k.entered, ranked);
    DispatchParts(k.entered, of, ranked, p, t);
    var left := AfterTakes(k.entered, k.plan.takes);
    hide Before, PlanFor, RemovedAll, AfterTakes, NoDuplicates, Sound;
    FirstsWait(b, known, of, t, decode, k.first, k.entered, left, Ids(k.plan.batch));
    AlignedLeft(k.entered, of, Ids(k.plan.batch), left, k.aligned);
    hide EnteredFrom, Parts, LeftOut, Short, Waits;
    ReleaseAll(left, of, SetOf(k.aligned));
    var held := Released(left, k.aligned);
    FewerWait(left, of, held, k.aligned, k.first);
    SameQueues(left, held, p.W);
    RemoveAll(held, k.drained, of, t);
    var rest := RemovedAll(held, k.drained, of);
    assert k.drained == [] ==> rest == held by { NothingRemoved(held, of); }
    DrainedIsEmpty(of, p.W, held, k.drained, rest);
    SameQueues(rest, k.after, p.W);
  }

  lemma FewerWait(left: Buffered, of: int -> Adapter, held: Buffered, aligned: seq<int>, first: seq<int>)
    requires Releases(left, of, SetOf(aligned), held)
    requires forall id :: Waits(left, of, id) ==> id in first
    ensures forall id :: Waits(held, of, id) ==> id in first
  {
  }

  lemma NothingRemoved(b: Buffered, of: int -> Adapter)
    ensures RemovedAll(b, [], of) == b
  {
  }

  lemma SameQueues(b: Buffered, a: Buffered, W: nat)
    requires Short(b, W) && a.queues == b.queues
    ensures Short(a, W)
  {
  }

  lemma FirstsWait(b: Buffered, known: set<int>, of: int -> Adapter, t: real, decode: seq<int>, first: seq<int>,
                   e: Buffered, left: Buffered, ids: seq<int>)
    requires EnteredFrom(b, first, of, t, e) && Reoffered(b, of, decode) && Parts(e, of, ids, left)
    requires forall id :: id in first <==> id in decode && id !in known
    requires forall id :: id in known ==> id !in b.records
    ensures forall id :: Waits(left, of, id) ==> id in first
  {
    assert WaitsRecordedIn(b, of);
    hide Waits;
  }

  /** Whoever waited longer than T_SLO before the tick runs in it. */
  lemma ReofferedExpired(b: Buffered, known: set<int>, of: int -> Adapter, prefill: seq<int>, decode: seq<int>,
                         ranked: seq<Adapter>, p: Policy, t: real, id: int)
    requires TickInv(b, known, of, t) && NoDuplicates(ranked) && p.W > 0 && p.budget == |decode|
    requires Reoffered(b, of, decode) && Short(b, p.W) && Waits(b, of, id) && p.now - b.records[id] >= p.slo
    requires forall k :: k in EnteredAll(b, Except(decode, known), of, t).queues ==> k in ranked
    ensures id in TickOf(b, known, of, prefill, decode, ranked, p, t).aligned
  {
    var k := TickOf(b, known, of, prefill, decode, ranked, p, t);
    AllOffered(b, known, of, prefill, decode, ranked, p, t);
    ReofferedShort(b, known, of, prefill, decode, ranked, p, t);
    EnterAll(b, k.first, of, t);
    DispatchParts(k.entered, of, ranked, p, t);
    hide Before, PlanFor, RemovedAll, AfterTakes, NoDuplicates, Sound, EnteredAll, Except;
    ExpiredTaken(p, b, k.entered, of, k.first, t, ranked, id);
    assert Waits(k.entered, of, id);
  }

  /**
   If every buffered sequence is offered again, a tick keeps the buffer free of orphans and every queue
   shorter than a warp, and whoever waited longer than T_SLO before it runs in it.
   */
  lemma ReofferedTick(b: Buffered, known: set<int>, of: int -> Adapter, prefill: seq<int>, decode: seq<int>,
                      ranked: seq<Adapter>, p: Policy, t: real)
    requires TickInv(b, known, of, t) && NoDuplicates(ranked) && p.W > 0 && p.budget == |decode|
    requires Reoffered(b, of, decode) && NoOrphans(b, of) && Short(b, p.W)
    requires forall k :: k in EnteredAll(b, Except(decode, known), of, t).queues ==> k in ranked
    ensures var k := TickOf(b, known, of, prefill, decode, ranked, p, t);
      && NoOrphans(k.after, of) && Short(k.after, p.W)
      && forall id :: Waits(b, of, id) && p.now - b.records[id] >= p.slo ==> id in k.aligned
  {
    hide TickInv, Reoffered, Short;
    ReofferedShort(b, known, of, prefill, decode, ranked, p, t);
    AllOffered(b, known, of, prefill, decode, ranked, p, t);
    var k := TickOf(b, known, of, prefill, decode, ranked, p, t);
    forall id ensures !Orphan(k.after, of, id) {
      OrphansAfterTick(b, known, of, prefill, decode, ranked, p, t, id);
    }
    forall id | Waits(b, of, id) && p.now - b.records[id] >= p.slo ensures id in k.aligned {
      ReofferedExpired(b, known, of, prefill, decode, ranked, p, t, id);
    }
  }

  /**
   What a tick promises, as a relation of the states before and after: b and known are the buffer and the
   already aligned set before, after and postAligned those after, out the groups that run.
   */
  ghost predicate Promises(b: Buffered, known: set<int>, of: int -> Adapter, prefill: seq<int>, decode: seq<int>,
                           p: Policy, t: real, out: seq<int>, after: Buffered, postAligned: set<int>)
  {
    && TickInv(after, postAligned, of, t)
    && NoDuplicates(out)
    && (forall id :: id in prefill ==> id in out)
    && (forall id :: id in decode && id in known ==> id in out)
    && (forall id :: id in out ==> id in prefill || id in decode)
    && (decode != [] ==> out != [])
    && (forall id :: id in decode && id !in out ==> StillHeld(b, of, t, after, id))
    && (Reoffered(b, of, decode) && NoOrphans(b, of) && Short(b, p.W) ==>
          && NoOrphans(after, of) && Short(after, p.W)
          && forall id :: Waits(b, of, id) && p.now - b.records[id] >= p.slo ==> id in out)
  }

  ghost predicate StillHeld(b: Buffered, of: int -> Adapter, t: real, after: Buffered, id: int) {
    && id in after.records && after.records[id] == (if id in b.records then b.records[id] else t)
    && (Waits(after, of, id) <==> !Orphan(b, of, id))
  }

  lemma TickKeepsPromises(b: Buffered, known: set<int>, of: int -> Adapter, prefill: seq<int>, decode: seq<int>,
                          ranked: seq<Adapter>, p: Policy, t: real, sorted: seq<int>)
    requires TickInv(b, known, of, t) && NoDuplicates(ranked) && p.W > 0 && NoDuplicates(prefill + decode)
    requires p.budget == |decode|
    requires forall k :: k in EnteredAll(b, Except(decode, known), of, t).queues ==> k in ranked
    requires multiset(sorted) == multiset(Only(decode, known))
    ensures var k := TickOf(b, known, of, prefill, decode, ranked, p, t);
      Promises(b, known, of, prefill, decode, p, t, Scheduled(prefill, sorted, k.aligned, k.drained),
               k.after, k.postAligned)
  {
    hide TickOf, TickInv, Outcome, EnteredAll, Except, Only, Reoffered, NoOrphans, Short, NoDuplicates, Waits, Orphan;
    TickOutcome(b, known, of, prefill, decode, ranked, p, t);
    TickRuns(b, known, of, prefill, decode, ranked, p, t, sorted);
    var k := TickOf(b, known, of, prefill, decode, ranked, p, t);
    var out := Scheduled(prefill, sorted, k.aligned, k.drained);
    forall id | id in decode && id !in out ensures StillHeld(b, of, t, k.after, id) {
      OmittedKeepWaiting(b, known, of, prefill, decode, ranked, p, t, id);
    }
    if Reoffered(b, of, decode) && NoOrphans(b, of) && Short(b, p.W) {
      ReofferedTick(b, known, of, prefill, decode, ranked, p, t);
    }
  }
}
