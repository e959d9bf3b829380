/**
 The WGKP scheduler tick: already aligned groups pass, first-timers go through the alignment buffer, and
 held groups are drained only when the step would otherwise be empty.
 */
module SchedulerTick {
  import opened AlignmentBuffer
  import opened Common
  import opened DispatchPlan
  import opened StableSort
  import opened TickPlan
  import opened WgkpDispatcher

  class WgkpScheduler {
    const buffer: AlignmentBuffer
    const dispatcher: WgkpDispatcher
    const adapterOf: int -> Adapter
    const nameRank: Adapter -> int   // position of an adapter id in string order
    var postAligned: set<int>

    /** t is the clock: no buffered sequence is younger. */
    ghost predicate Valid(t: real)
      reads this, buffer
    {
      buffer.Valid() && TickInv(buffer.State(), postAligned, adapterOf, t)
    }

    constructor (adapters: seq<Adapter>, warpSize: nat, tMax: real, ttftSlo: real, of: int -> Adapter,
                 rank: Adapter -> int)
      requires warpSize > 0 && NoDuplicates(adapters)
      ensures Valid(0.0) && postAligned == {} && fresh(buffer) && fresh(dispatcher) && adapterOf == of
      ensures buffer.W == warpSize && buffer.tMax == tMax && buffer.ttftSlo == ttftSlo && nameRank == rank
      ensures NoOrphans(buffer.State(), of) && Short(buffer.State(), warpSize)
    {
      buffer := new AlignmentBuffer(adapters, warpSize, tMax, ttftSlo);
      dispatcher := new WgkpDispatcher();
      adapterOf, nameRank, postAligned := of, rank, {};
    }

    /** Forget the aligned sequences that have left the running set. */
    method ForgetStale(active: set<int>, ghost t: real)
      requires Valid(t)
      modifies this`postAligned, buffer`seqEnqueue
      ensures Valid(t) && buffer.State() == old(buffer.State()) && postAligned == old(postAligned) * active
    {
      var stale := postAligned - active;
      postAligned := postAligned - stale;
      var todo := stale;
      while exists id :: id in todo
        invariant todo <= stale && Valid(t) && postAligned == old(postAligned) - stale
        invariant buffer.State() == old(buffer.State())
        decreases |todo|
      {
        var id :| id in todo;
        QueuedWaits(buffer.State(), adapterOf, id);
        assert id !in buffer.seqEnqueue;
        buffer.Release(id);
        assert buffer.State().records == old(buffer.State()).records;
        todo := todo - {id};
      }
      assert old(postAligned) * active == old(postAligned) - stale;
    }

    /** The offered decode groups that were aligned before, and the others, each in offered order. */
    method SplitByAlignment(decode: seq<int>) returns (first: seq<int>, post: seq<int>)
      ensures first == Except(decode, postAligned) && post == Only(decode, postAligned)
    {
      first, post := [], [];
      var i := 0;
      while i < |decode|
        invariant 0 <= i <= |decode| && first == Except(decode[..i], postAligned)
        invariant post == Only(decode[..i], postAligned)
      {
        assert decode[..i + 1][..i] == decode[..i];
        if decode[i] in postAligned { post := post + [decode[i]]; } else { first := first + [decode[i]]; }
        i := i + 1;
      }
      assert decode[..|decode|] == decode;
    }

    method EnqueueFirst(first: seq<int>, t: real)
      requires buffer.Valid() && Before(buffer.queues, t)
      modifies buffer
      ensures buffer.Valid() && Before(buffer.queues, t)
      ensures buffer.State() == EnteredAll(old(buffer.State()), first, adapterOf, t)
      ensures buffer.tMax == old(buffer.tMax)
    {
      var i := 0;
      assert first[..0] == [];
      while i < |first|
        invariant 0 <= i <= |first| && buffer.Valid() && Before(buffer.queues, t) && buffer.tMax == old(buffer.tMax)
        invariant buffer.State() == EnteredAll(old(buffer.State()), first[..i], adapterOf, t)
      {
        hide AlignmentBuffer.Valid, Before, Entered;
        assert first[..i + 1][..i] == first[..i];
        buffer.Enqueue(adapterOf(first[i]), first[i], t);
        i := i + 1;
      }
      assert first[..|first|] == first;
    }

    method AlignOne(id: int)
      requires buffer.Valid() && !Queued(buffer.queues, id)
      modifies this`postAligned, buffer`seqEnqueue
      ensures buffer.Valid() && postAligned == old(postAligned) + {id}
      ensures buffer.State() == old(buffer.State()).(records := old(buffer.State()).records - {id})
      ensures buffer.queues == old(buffer.queues)
    {
      postAligned := postAligned + {id};
      buffer.Release(id);
    }

    /** The dispatched sequences whose groups were offered, in batch order. */
    method AlignedOf(batch: seq<Token>, first: seq<int>) returns (aligned: seq<int>)
      ensures aligned == Only(Ids(batch), SetOf(first))
    {
      aligned := [];
      var i := 0;
      assert Ids(batch[..0]) == [];
      while i < |batch|
        invariant 0 <= i <= |batch| && aligned == Only(Ids(batch[..i]), SetOf(first))
      {
        OnlyStep(batch, i, first);
        if batch[i].1 in first { aligned := aligned + [batch[i].1]; }
        i := i + 1;
      }
      assert batch[..|batch|] == batch;
    }

    /** Take the groups the buffer did not dispatch out of their queues, to run in this step. */
    method DrainRemaining(groups: seq<int>, dispatched: seq<int>) returns (remaining: seq<int>)
      requires buffer.Valid()
      modifies buffer`queues, buffer`enqueueTime
      ensures buffer.Valid() && remaining == Except(groups, SetOf(dispatched))
      ensures buffer.State() == RemovedAll(old(buffer.State()), remaining, adapterOf)
    {
      remaining := [];
      var i := 0;
      assert groups[..0] == [];
      while i < |groups|
        invariant 0 <= i <= |groups| && buffer.Valid() && remaining == Except(groups[..i], SetOf(dispatched))
        invariant buffer.State() == RemovedAll(old(buffer.State()), remaining, adapterOf)
      {
        hide AlignmentBuffer.Valid, RemovedFrom, RemovedTime;
        assert groups[..i + 1][..i] == groups[..i];
        if groups[i] !in dispatched {
          buffer.Remove(adapterOf(groups[i]), groups[i]);
          assert (remaining + [groups[i]])[..|remaining|] == remaining;
          remaining := remaining + [groups[i]];
        }
        i := i + 1;
      }
      assert groups[..|groups|] == groups;
    }

    /** Mark sequences aligned and drop their records. */
    method AlignAll(ids: seq<int>)
      requires buffer.Valid() && forall id :: id in ids ==> !Queued(buffer.queues, id)
      modifies this`postAligned, buffer`seqEnqueue
      ensures buffer.Valid() && postAligned == old(postAligned) + SetOf(ids)
      ensures buffer.State() == Released(old(buffer.State()), ids)
    {
      var i := 0;
      assert ids[..0] == [];
      ReleasedNone(buffer.State());
      while i < |ids|
        invariant 0 <= i <= |ids| && buffer.Valid() && postAligned == old(postAligned) + SetOf(ids[..i])
        invariant buffer.State() == Released(old(buffer.State()), ids[..i])
        invariant forall id :: id in ids ==> !Queued(buffer.queues, id)
      {
        hide AlignmentBuffer.Valid, Queued, Released, SetOf;
        ReleasedStep(old(buffer.State()), ids[..i], ids[i]);
        assert ids[..i + 1] == ids[..i] + [ids[i]];
        AlignOne(ids[i]);
        i := i + 1;
      }
      assert ids[..|ids|] == ids;
    }

    /** Enqueue the first-timers, form the batch in rank order and cut it into segments. */
    method Dispatch(first: seq<int>, ranked: seq<Adapter>, tmaxK: map<Adapter, real>, nStar: int, merged: set<Adapter>,
                    capacity: nat, t: real, now: real) returns (batch: seq<Token>, segments: seq<Segment>)
      requires buffer.Valid() && Before(buffer.queues, t) && NoDuplicates(ranked)
      modifies buffer, dispatcher
      ensures buffer.Valid()
      ensures var p := old(buffer.WgkpPolicy(|ranked|, tmaxK, nStar, merged, Some(capacity), now));
        var e := EnteredAll(old(buffer.State()), first, adapterOf, t);
        && p.W > 0 && var r := PlanFor(p, e.queues, e.oldest, ranked);
        && batch == r.batch && buffer.State() == AfterTakes(e, r.takes)
        && IsRle(batch, segments)
    {
      EnqueueFirst(first, t);
      ghost var e := buffer.State();
      batch := buffer.FormBatchWgkp(ranked, tmaxK, nStar, merged, Some(capacity), now);
      segments := [];
      DispatchedBatchSegments(old(buffer.WgkpPolicy(|ranked|, tmaxK, nStar, merged, Some(capacity), now)), e.queues,
                              e.oldest, ranked);
      if batch != [] {
        var r := dispatcher.SegmentAndPromote(batch);
        if r.Some? { segments := r.value; }
      }
    }

    /** The held groups run only when the step would otherwise be empty. */
    method DrainIfEmpty(empty: bool, first: seq<int>, ghost t: real) returns (drained: seq<int>)
      requires Sound(buffer.State(), adapterOf) && Before(buffer.queues, t) && buffer.Valid()
      modifies this`postAligned, buffer`queues, buffer`enqueueTime, buffer`seqEnqueue
      ensures buffer.Valid() && drained == (if empty then first else [])
      ensures postAligned == old(postAligned) + SetOf(drained)
      ensures buffer.State() == Released(RemovedAll(old(buffer.State()), drained, adapterOf), drained)
    {
      if empty {
        drained := DrainRemaining(first, []);
        NothingDropped(first);
        RemovedNotQueued(old(buffer.State()), adapterOf, first, t);
        AlignAll(drained);
      } else {
        drained := [];
        ReleasedNone(buffer.State());
      }
    }

    /** A tick that has decode groups, after the stale ones are forgotten. */
    method Advance(prefill: seq<int>, decode: seq<int>, ranked: seq<Adapter>, tmaxK: map<Adapter, real>, nStar: int,
                   merged: set<Adapter>, t: real, now: real) returns (out: seq<int>, segments: seq<Segment>)
      requires Valid(t) && NoDuplicates(ranked)
      modifies this`postAligned, buffer, dispatcher
      ensures buffer.Valid()
      ensures Ticked(old(buffer.State()), old(postAligned), adapterOf, nameRank, prefill, decode, ranked,
                     old(buffer.WgkpPolicy(|ranked|, tmaxK, nStar, merged, Some(|decode|), now)), t,
                     out, segments, buffer.State(), postAligned)
    {
      assert buffer.W > 0;
      hide AlignmentBuffer.Valid, Sound, Before, EnteredAll, PlanFor, AfterTakes, RemovedAll, Released, Parts, Queued,
        IsRle, SortedBy;
      ghost var e := EnteredAll(buffer.State(), Except(decode, postAligned), adapterOf, t);
      EnterAll(buffer.State(), Except(decode, postAligned), adapterOf, t);
      DispatchParts(e, adapterOf, ranked, buffer.WgkpPolicy(|ranked|, tmaxK, nStar, merged, Some(|decode|), now), t);
      var first, post := SplitByAlignment(decode);
      var batch;
      batch, segments := Dispatch(first, ranked, tmaxK, nStar, merged, |decode|, t, now);
      var aligned := AlignedOf(batch, first);
      DispatchedLeft(e, adapterOf, Ids(batch), buffer.State(), aligned);
      AlignAll(aligned);
      var drained := DrainIfEmpty(prefill == [] && post == [] && aligned == [], first, t);
      var sorted := Sort(post, ByKey((id: int) => nameRank(adapterOf(id))));
      out := Scheduled(prefill, sorted, aligned, drained);
    }

    /** schedule_wgkp_inner */
    method Tick(prefill: seq<int>, decode: seq<int>, active: set<int>, ranked: seq<Adapter>, tmaxK: map<Adapter, real>,
                nStar: int, merged: set<Adapter>, t: real, now: real) returns (out: seq<int>, segments: seq<Segment>)
      requires Valid(t) && NoDuplicates(prefill + decode) && NoDuplicates(ranked)
      requires forall k ::
        k in EnteredAll(buffer.State(), Except(decode, postAligned * active), adapterOf, t).queues ==> k in ranked
      modifies this`postAligned, buffer, dispatcher
      ensures buffer.Valid()
      ensures decode == [] ==>
        out == prefill && segments == [] && buffer.State() == old(buffer.State()) && postAligned == old(postAligned)
      ensures decode != [] ==>
        Ticked(old(buffer.State()), old(postAligned) * active, adapterOf, nameRank, prefill, decode, ranked,
               old(buffer.WgkpPolicy(|ranked|, tmaxK, nStar, merged, Some(|decode|), now)), t,
               out, segments, buffer.State(), postAligned)
      ensures Promises(old(buffer.State()), old(postAligned) * active, adapterOf, prefill, decode,
                       old(buffer.WgkpPolicy(|ranked|, tmaxK, nStar, merged, Some(|decode|), now)), t,
                       out, buffer.State(), postAligned)
    {
      assert buffer.W > 0;
      hide AlignmentBuffer.Valid, TickInv, Ticked, Promises, NoDuplicates, EnteredAll;
      if decode == [] {
        IdleKeepsPromises(buffer.State(), postAligned, active, adapterOf, prefill,
                          buffer.WgkpPolicy(|ranked|, tmaxK, nStar, merged, Some(0), now), t);
        return prefill, [];
      }
      ForgetStale(active, t);
      out, segments := Advance(prefill, decode, ranked, tmaxK, nStar, merged, t, now);
      TickedKeepsPromises(old(buffer.State()), old(postAligned) * active, adapterOf, nameRank, prefill, decode, ranked,
                          old(buffer.WgkpPolicy(|ranked|, tmaxK, nStar, merged, Some(|decode|), now)), t,
                          out, segments, buffer.State(), postAligned);
    }
  }

  /** The state after a tick and what it schedules, against the tick on values. */
  ghost predicate Ticked(b: Buffered, known: set<int>, of: int -> Adapter, rank: Adapter -> int, prefill: seq<int>,
                         decode: seq<int>, ranked: seq<Adapter>, p: Policy, t: real, out: seq<int>,
                         segments: seq<Segment>, after: Buffered, postAligned: set<int>)
  {
    && p.W > 0
    && var k := TickOf(b, known, of, prefill, decode, ranked, p, t);
       && after == k.after && postAligned == k.postAligned && IsRle(k.plan.batch, segments)
       && exists sorted :: SortedBy(k.post, sorted, ByKey((id: int) => rank(of(id))))
            && out == Scheduled(prefill, sorted, k.aligned, k.drained)
  }

  /** A tick without decode groups changes nothing. */
  lemma IdleKeepsPromises(b: Buffered, postAligned: set<int>, active: set<int>, of: int -> Adapter, prefill: seq<int>,
                          p: Policy, t: real)
    requires TickInv(b, postAligned, of, t) && NoDuplicates(prefill + []) && p.W > 0
    ensures Promises(b, postAligned * active, of, prefill, [], p, t, prefill, b, postAligned)
  {
    assert prefill + [] == prefill;
  }

  lemma TickedKeepsPromises(b: Buffered, known: set<int>, of: int -> Adapter, rank: Adapter -> int, prefill: seq<int>,
                            decode: seq<int>, ranked: seq<Adapter>, p: Policy, t: real, out: seq<int>,
                            segments: seq<Segment>, after: Buffered, postAligned: set<int>)
    requires TickInv(b, known, of, t) && NoDuplicates(ranked) && NoDuplicates(prefill + decode) && p.budget == |decode|
    requires forall k :: k in EnteredAll(b, Except(decode, known), of, t).queues ==> k in ranked
    requires Ticked(b, known, of, rank, prefill, decode, ranked, p, t, out, segments, after, postAligned)
    ensures Promises(b, known, of, prefill, decode, p, t, out, after, postAligned)
  {
    hide TickInv, NoDuplicates, EnteredAll, PlanFor, AfterTakes, RemovedAll, Promises, IsRle;
    var k := TickOf(b, known, of, prefill, decode, ranked, p, t);
    var sorted :| SortedBy(k.post, sorted, ByKey((id: int) => rank(of(id)))) && out == Scheduled(prefill, sorted,
                           k.aligned, k.drained);
    TickKeepsPromises(b, known, of, prefill, decode, ranked, p, t, sorted);
  }

  lemma {:induction false} NothingDropped(s: seq<int>)
    ensures Except(s, SetOf<int>([])) == s
  {
    if s != [] {
      NothingDropped(s[..|s| - 1]);
      assert s == s[..|s| - 1] + [s[|s| - 1]];
    }
  }

  lemma RemovedNotQueued(b: Buffered, of: int -> Adapter, ids: seq<int>, t: real)
    requires Sound(b, of) && Before(b.queues, t)
    ensures forall id :: id in ids ==> !Queued(RemovedAll(b, ids, of).queues, id)
  {
    var r := RemovedAll(b, ids, of);
    RemoveAll(b, ids, of, t);
    hide Sound, Before, RemovedAll;
    forall k, x | k in r.queues && x in r.queues[k] ensures x.id !in ids {
      assert x in QueueOf(r.queues, k);
    }
  }

  /** Aligned sequences have left their queues, and dropping their records keeps the buffer sound. */
  lemma DispatchedLeft(b: Buffered, of: int -> Adapter, ids: seq<int>, left: Buffered, aligned: seq<int>)
    requires Sound(left, of) && Parts(b, of, ids, left) && forall id :: id in aligned ==> id in ids
    ensures (forall id :: id in aligned ==> !Queued(left.queues, id)) && Sound(Released(left, aligned), of)
  {
    AlignedLeft(b, of, ids, left, aligned);
    ReleaseAll(left, of, SetOf(aligned));
    forall id | id in aligned ensures !Queued(left.queues, id) { QueuedWaits(left, of, id); }
  }

  lemma OnlyStep(batch: seq<Token>, i: nat, first: seq<int>)
    requires i < |batch|
    ensures var id := batch[i].1;
      Only(Ids(batch[..i + 1]), SetOf(first)) ==
        Only(Ids(batch[..i]), SetOf(first)) + (if id in first then [id] else [])
  {
    assert Ids(batch[..i + 1])[..i] == Ids(batch[..i]);
  }
}
