/**
 The alignment buffer: per-adapter FIFO queues of decode tokens, dispatched by full warp, by the WGKP
 holdback rules or by deadline.
 */
module AlignmentBuffer {
  import opened Arithmetic
  import opened Common
  import opened DispatchPlan
  import opened DispatchRules

  /** Queue, oldest-token time: no time for an empty queue; otherwise a lower bound of sorted times. */
  ghost predicate Timed(q: seq<Entry>, enq: Option<real>) {
    && (q == [] <==> enq == None)
    && (q != [] ==> enq.value <= q[0].t)
    && (forall i, j :: 0 <= i < j < |q| ==> q[i].t <= q[j].t)
  }

  /** The recorded time is the oldest token's own. */
  ghost predicate Exact(q: seq<Entry>, enq: Option<real>) { q != [] ==> enq == Some(q[0].t) }

  ghost predicate Recorded(q: seq<Entry>, records: map<int, real>) {
    forall e :: e in q ==> e.id in records && records[e.id] == e.t
  }

  ghost predicate UniqueIn(q: seq<Entry>) { forall i, j :: 0 <= i < j < |q| ==> q[i].id != q[j].id }

  ghost predicate QueueGood(q: seq<Entry>, enq: Option<real>, records: map<int, real>) {
    Timed(q, enq) && Recorded(q, records) && UniqueIn(q)
  }

  ghost predicate Queued(qs: Queues, id: int) { exists k, e :: k in qs && e in qs[k] && e.id == id }

  /** A sequence waits in one queue only. */
  ghost predicate Apart(p: seq<Entry>, q: seq<Entry>) { forall e, f :: e in p && f in q ==> e.id != f.id }

  /** The buffer's queues, oldest-token times and records, as values. */
  ghost predicate Good(qs: Queues, oldest: map<Adapter, Option<real>>, records: map<int, real>) {
    && oldest.Keys == qs.Keys
    && (forall k :: k in qs ==> QueueGood(qs[k], oldest[k], records))
    && AllApart(qs)
  }

  ghost predicate Lists(order: seq<Adapter>, qs: Queues) {
    NoDuplicates(order) && forall k :: k in order <==> k in qs
  }

  lemma SameKeysListed(order: seq<Adapter>, qs: Queues, now: Queues)
    requires Lists(order, qs) && now.Keys == qs.Keys
    ensures Lists(order, now)
  {
    assert forall k :: k in qs <==> k in now.Keys;
  }

  ghost predicate Before(qs: Queues, t: real) { forall k, e :: k in qs && e in qs[k] ==> e.t <= t }

  function Head(q: seq<Entry>): Option<real> { if q == [] then None else Some(q[0].t) }

  lemma PoppedQueue(q: seq<Entry>, enq: Option<real>, records: map<int, real>, n: nat)
    requires QueueGood(q, enq, records) && n <= |q|
    ensures QueueGood(q[n..], Head(q[n..]), records) && Exact(q[n..], Head(q[n..]))
    ensures forall e :: e in q[n..] ==> e in q
  {
  }

  /** Taking a prefix of one queue. */
  lemma PopKeeps(qs: Queues, oldest: map<Adapter, Option<real>>, records: map<int, real>, k: Adapter, n: nat)
    requires Good(qs, oldest, records) && k in qs && n <= |qs[k]|
    ensures Good(qs[k := qs[k][n..]], oldest[k := Head(qs[k][n..])], records)
    ensures Exact(qs[k][n..], Head(qs[k][n..]))
  {
    hide QueueGood, Head, Exact, AllApart;
    var rest := qs[k][n..];
    PoppedQueue(qs[k], oldest[k], records, n);
    FewerApart(qs, k, rest);
    OneGood(qs, oldest, records, k, rest, Head(rest));
  }

  /** One queue replaced by a good one. */
  lemma OneGood(qs: Queues, oldest: map<Adapter, Option<real>>, records: map<int, real>, k: Adapter, q: seq<Entry>,
                enq: Option<real>)
    requires oldest.Keys == qs.Keys && k in qs && QueueGood(q, enq, records) && AllApart(qs[k := q])
    requires forall l :: l in qs && l != k ==> QueueGood(qs[l], oldest[l], records)
    ensures Good(qs[k := q], oldest[k := enq], records)
  {
    hide QueueGood, AllApart;
    var now, times := qs[k := q], oldest[k := enq];
    forall l | l in now ensures QueueGood(now[l], times[l], records) { if l != k { assert now[l] == qs[l]; } }
  }

  lemma PushedQueue(q: seq<Entry>, enq: Option<real>, records: map<int, real>, id: int, t: real)
    requires QueueGood(q, enq, records) && id !in records && forall e :: e in q ==> e.t <= t
    ensures QueueGood(q + [Entry(id, t)], if enq == None then Some(t) else enq, records[id := t])
    ensures forall e :: e in q ==> e.id != id
  {
    assert forall e :: e in q ==> e.id != id;
  }

  lemma OtherQueue(q: seq<Entry>, enq: Option<real>, records: map<int, real>, id: int, t: real)
    requires QueueGood(q, enq, records) && id !in records
    ensures QueueGood(q, enq, records[id := t]) && forall e :: e in q ==> e.id != id
  {
  }

  /** Appending a new sequence to one queue. */
  lemma PushKeeps(qs: Queues, oldest: map<Adapter, Option<real>>, records: map<int, real>, k: Adapter, id: int, t: real)
    requires Good(qs, oldest, records) && k in qs && id !in records && Before(qs, t)
    ensures Good(Pushed(qs, k, Entry(id, t)), PushedTime(oldest, k, t), records[id := t])
  {
    hide QueueGood, AllApart;
    PushedQueue(qs[k], oldest[k], records, id, t);
    forall l | l in qs && l != k
      ensures QueueGood(qs[l], oldest[l], records[id := t]) && forall e :: e in qs[l] ==> e.id != id
    {
      OtherQueue(qs[l], oldest[l], records, id, t);
    }
    PushApart(qs, k, Entry(id, t));
    OneGood(qs, oldest, records[id := t], k, qs[k] + [Entry(id, t)], if oldest[k] == None then Some(t) else oldest[k]);
  }

  ghost predicate AllApart(qs: Queues) { forall k, l :: k in qs && l in qs && k != l ==> Apart(qs[k], qs[l]) }

  lemma PushApart(qs: Queues, k: Adapter, e: Entry)
    requires AllApart(qs) && k in qs && forall l, f :: l in qs && f in qs[l] ==> f.id != e.id
    ensures AllApart(Pushed(qs, k, e))
  {
    var qs' := Pushed(qs, k, e);
    forall l, m | l in qs' && m in qs' && l != m ensures Apart(qs'[l], qs'[m]) { }
  }

  lemma RegisterKeeps(qs: Queues, oldest: map<Adapter, Option<real>>, records: map<int, real>, k: Adapter)
    requires Good(qs, oldest, records) && k !in qs
    ensures Good(qs[k := []], oldest[k := None], records)
  {
    hide QueueGood;
    assert QueueGood([], None, records) by { EmptyQueue(records); }
  }

  /** A new token at the end of its queue. */
  function Pushed(qs: Queues, k: Adapter, e: Entry): Queues { qs[k := QueueOf(qs, k) + [e]] }

  function PushedTime(oldest: map<Adapter, Option<real>>, k: Adapter, t: real): map<Adapter, Option<real>> {
    oldest[k := if OldestOf(oldest, k) == None then Some(t) else OldestOf(oldest, k)]
  }

  /** What a buffer holds: queues, oldest-token times and per-sequence records. */
  datatype Buffered = Buffered(queues: Queues, oldest: map<Adapter, Option<real>>, records: map<int, real>)

  /** Idempotent: a sequence that has a record keeps its place and its time. */
  function Entered(b: Buffered, k: Adapter, id: int, t: real): Buffered {
    if id in b.records then b
    else Buffered(Pushed(b.queues, k, Entry(id, t)), PushedTime(b.oldest, k, t), b.records[id := t])
  }

  lemma PushedBefore(qs: Queues, k: Adapter, id: int, t: real)
    requires Before(qs, t)
    ensures Before(Pushed(qs, k, Entry(id, t)), t)
  {
    var qs' := Pushed(qs, k, Entry(id, t));
    forall l, e: Entry | l in qs' && e in qs'[l] ensures e.t <= t {
      if l == k && k !in qs { } else if e != Entry(id, t) { assert e in qs[l]; }
    }
  }

  lemma RegisterThenPush(qs: Queues, oldest: map<Adapter, Option<real>>, records: map<int, real>, k: Adapter, id: int,
                         t: real)
    requires Good(qs, oldest, records) && Before(qs, t)
    ensures Before(Pushed(qs, k, Entry(id, t)), t)
    ensures k !in qs ==> Before(qs[k := []], t) && Pushed(qs[k := []], k, Entry(id, t)) == Pushed(qs, k, Entry(id, t))
    ensures k !in qs ==> PushedTime(oldest[k := None], k, t) == PushedTime(oldest, k, t)
  {
    hide QueueGood, AllApart;
    PushedBefore(qs, k, id, t);
    assert k !in qs ==> k !in oldest;
    hide Good;
  }

  lemma EmptyQueue(records: map<int, real>)
    ensures QueueGood([], None, records)
  {
  }

  lemma ReleaseKeeps(qs: Queues, oldest: map<Adapter, Option<real>>, records: map<int, real>, id: int)
    requires Good(qs, oldest, records) && !Queued(qs, id)
    ensures Good(qs, oldest, records - {id})
  {
    forall k | k in qs ensures QueueGood(qs[k], oldest[k], records - {id}) { }
  }

  /** q without the entries of sequence id. */
  function Without(q: seq<Entry>, id: int): (r: seq<Entry>)
    ensures forall e :: e in r <==> e in q && e.id != id
  {
    if q == [] then []
    else
      var n := |q| - 1;
      if q[n].id == id then Without(q[..n], id) else Without(q[..n], id) + [q[n]]
  }

  lemma AppendGood(r: seq<Entry>, x: Entry, enq: real, records: map<int, real>)
    requires r != [] ==> QueueGood(r, Some(enq), records)
    requires enq <= x.t && x.id in records && records[x.id] == x.t && forall e :: e in r ==> e.t <= x.t && e.id != x.id
    ensures QueueGood(r + [x], Some(enq), records)
  {
    assert forall i :: 0 <= i < |r| ==> r[i] in r;
  }

  lemma PrefixGood(q: seq<Entry>, enq: real, records: map<int, real>)
    requires q != [] && QueueGood(q, Some(enq), records)
    ensures |q| > 1 ==> QueueGood(q[..|q| - 1], Some(enq), records)
    ensures var x := q[|q| - 1];
      enq <= x.t && x.id in records && records[x.id] == x.t
      && forall e :: e in q[..|q| - 1] ==> e.t <= x.t && e.id != x.id
  {
  }

  /** Dropping entries keeps times sorted, ids unique and the oldest-token time a lower bound. */
  lemma {:induction false} WithoutGood(q: seq<Entry>, enq: real, records: map<int, real>, id: int)
    requires q != [] ==> QueueGood(q, Some(enq), records)
    ensures Without(q, id) != [] ==> QueueGood(Without(q, id), Some(enq), records)
  {
    if q != [] {
      var n := |q| - 1;
      PrefixGood(q, enq, records);
      hide QueueGood;
      WithoutGood(q[..n], enq, records, id);
      if q[n].id != id { AppendGood(Without(q[..n], id), q[n], enq, records); }
    }
  }

  function RemovedFrom(qs: Queues, k: Adapter, id: int): Queues {
    if k in qs then qs[k := Without(qs[k], id)] else qs
  }

  function RemovedTime(oldest: map<Adapter, Option<real>>, qs: Queues, k: Adapter,
                       id: int): map<Adapter, Option<real>> {
    if k in qs && Without(qs[k], id) == [] then oldest[k := None] else oldest
  }

  lemma RemoveKeeps(qs: Queues, oldest: map<Adapter, Option<real>>, records: map<int, real>, k: Adapter, id: int)
    requires Good(qs, oldest, records) && k in qs
    ensures Good(RemovedFrom(qs, k, id), RemovedTime(oldest, qs, k, id), records)
  {
    var r := Without(qs[k], id);
    if qs[k] != [] { WithoutGood(qs[k], oldest[k].value, records, id); }
    if r == [] { EmptyQueue(records); }
    hide QueueGood;
    FewerApart(qs, k, r);
    hide AllApart, Without;
  }

  lemma FewerApart(qs: Queues, k: Adapter, r: seq<Entry>)
    requires AllApart(qs) && k in qs && forall e :: e in r ==> e in qs[k]
    ensures AllApart(qs[k := r])
  {
    var qs' := qs[k := r];
    forall l, m | l in qs' && m in qs' && l != m ensures Apart(qs'[l], qs'[m]) { }
  }

  // ---- dispatching ----------------------------------------------------------------------------------

  function Popped(qs: Queues, x: Take): Queues {
    if x.adapter in qs && 0 < x.count <= |qs[x.adapter]| then qs[x.adapter := qs[x.adapter][x.count..]] else qs
  }

  function PoppedTime(oldest: map<Adapter, Option<real>>, qs: Queues, x: Take): map<Adapter, Option<real>> {
    if x.adapter in qs && 0 < x.count <= |qs[x.adapter]| then oldest[x.adapter := Head(qs[x.adapter][x.count..])]
    else oldest
  }

  /** The queues after the takes. */
  ghost function Remaining(qs: Queues, takes: seq<Take>): Queues {
    if takes == [] then qs else Popped(Remaining(qs, takes[..|takes| - 1]), takes[|takes| - 1])
  }

  ghost function RemainingTime(oldest: map<Adapter, Option<real>>, qs: Queues,
                               takes: seq<Take>): map<Adapter, Option<real>> {
    if takes == [] then oldest
    else
      var n := |takes| - 1;
      PoppedTime(RemainingTime(oldest, qs, takes[..n]), Remaining(qs, takes[..n]), takes[n])
  }

  lemma TakeKeeps(qs: Queues, oldest: map<Adapter, Option<real>>, records: map<int, real>, x: Take)
    requires Good(qs, oldest, records)
    ensures Good(Popped(qs, x), PoppedTime(oldest, qs, x), records)
  {
    if x.adapter in qs && 0 < x.count <= |qs[x.adapter]| { PopKeeps(qs, oldest, records, x.adapter, x.count); }
  }

  /** With distinct adapters, each visited queue has lost exactly its own prefix. */
  lemma {:induction false} RemainingAt(qs: Queues, ranked: seq<Adapter>, takes: seq<Take>)
    requires NoDuplicates(ranked) && TakesFrom(qs, ranked, takes)
    ensures Remaining(qs, takes).Keys == qs.Keys
    ensures forall i :: 0 <= i < |ranked| ==>
      QueueOf(Remaining(qs, takes), ranked[i]) == QueueOf(qs, ranked[i])[takes[i].count..]
    ensures forall k :: k !in ranked ==> QueueOf(Remaining(qs, takes), k) == QueueOf(qs, k)
  {
    if takes != [] {
      var n := |takes| - 1;
      hide Popped, QueueOf;
      RemainingAt(qs, ranked[..n], takes[..n]);
      var m := Remaining(qs, takes[..n]);
      forall i | 0 <= i < n ensures QueueOf(m, ranked[i]) == QueueOf(qs, ranked[i])[takes[i].count..] {
        assert ranked[..n][i] == ranked[i];
      }
      RemainingNext(qs, ranked, takes, m);
    }
  }

  lemma RemainingNext(qs: Queues, ranked: seq<Adapter>, takes: seq<Take>, m: Queues)
    requires NoDuplicates(ranked) && TakesFrom(qs, ranked, takes) && takes != [] && m.Keys == qs.Keys
    requires forall i :: 0 <= i < |takes| - 1 ==> QueueOf(m, ranked[i]) == QueueOf(qs, ranked[i])[takes[i].count..]
    requires forall k :: k !in ranked[..|takes| - 1] ==> QueueOf(m, k) == QueueOf(qs, k)
    ensures var r, n := Popped(m, takes[|takes| - 1]), |takes| - 1;
      && r.Keys == qs.Keys && (forall k :: k !in ranked ==> QueueOf(r, k) == QueueOf(qs, k))
      && forall i :: 0 <= i < |ranked| ==> QueueOf(r, ranked[i]) == QueueOf(qs, ranked[i])[takes[i].count..]
  {
    hide Popped, QueueOf;
    var n := |takes| - 1;
    assert ranked[n] !in ranked[..n];
    PoppedAt(m, takes[n]);
    forall k | k !in ranked ensures k !in ranked[..n] && k != ranked[n] { }
  }

  lemma PoppedKeys(qs: Queues, x: Take)
    ensures Popped(qs, x).Keys == qs.Keys
  {
  }

  lemma PoppedAt(qs: Queues, x: Take)
    requires x.count <= |QueueOf(qs, x.adapter)|
    ensures Popped(qs, x).Keys == qs.Keys && QueueOf(Popped(qs, x), x.adapter) == QueueOf(qs, x.adapter)[x.count..]
    ensures forall k :: k != x.adapter ==> QueueOf(Popped(qs, x), k) == QueueOf(qs, k)
  {
  }

  /** The scan of `ranked` has visited i adapters, from queues qs and times es to now and nowTime. */
  ghost predicate Reached(p: Policy, qs: Queues, es: map<Adapter, Option<real>>, ranked: seq<Adapter>, i: nat,
                          batch: seq<Token>, halted: bool, now: Queues, nowTime: map<Adapter, Option<real>>)
    requires p.W > 0 && i <= |ranked|
  {
    var r := PlanFor(p, qs, es, ranked[..i]);
    && batch == r.batch && halted == r.halted && now == Remaining(qs, r.takes)
    && nowTime == RemainingTime(es, qs, r.takes)
    && forall j :: i <= j < |ranked| ==> SameAt(qs, now, es, nowTime, ranked[j])
  }

  ghost predicate SameAt(qs: Queues, now: Queues, es: map<Adapter, Option<real>>, nowTime: map<Adapter, Option<real>>,
                         k: Adapter) {
    QueueOf(now, k) == QueueOf(qs, k) && OldestOf(nowTime, k) == OldestOf(es, k)
  }

  /** What the scan decides for one adapter: tokens taken, their flag, whether it stops. */
  function Decide(p: Policy, k: Adapter, len: nat, enq: Option<real>, left: nat): (r: (nat, bool, bool))
    requires p.W > 0
    ensures r.0 <= len && r.0 <= left
  {
    if len == 0 then (0, false, false)
    else
      var c := Wanted(p, k, len, Age(enq, p.now), left);
      (c, Promoted(p, k, len, c), p.mode.Deadline? && len >= p.W && c == 0)
  }

  /** The same, once the scan may have stopped or spent its budget. */
  function Choice(p: Policy, k: Adapter, q: seq<Entry>, enq: Option<real>, used: nat,
                  halted: bool): (r: (nat, bool, bool))
    requires p.W > 0 && used <= p.budget
    ensures r.0 <= |q| && r.0 <= p.budget - used
  {
    if halted || used == p.budget then (0, false, halted) else Decide(p, k, |q|, enq, p.budget - used)
  }

  /** A scan that has not stopped decides by the first rule. */
  lemma OpenChoice(p: Policy, k: Adapter, q: seq<Entry>, enq: Option<real>, used: nat)
    requires p.W > 0 && used < p.budget
    ensures Choice(p, k, q, enq, used, false) == Decide(p, k, |q|, enq, p.budget - used)
    ensures Decide(p, k, |q|, enq, p.budget - used).0 <= |q|
  {
    hide Decide;
  }

  lemma VisitDecides(p: Policy, qs: Queues, es: map<Adapter, Option<real>>, ranked: seq<Adapter>, i: nat)
    requires p.W > 0 && i < |ranked|
    ensures var r, s, k := PlanFor(p, qs, es, ranked[..i]), PlanFor(p, qs, es, ranked[..i + 1]), ranked[i];
      var d := Choice(p, k, QueueOf(qs, k), OldestOf(es, k), |r.batch|, r.halted);
      && s.takes == r.takes + [Take(k, d.0, d.1)] && s.halted == d.2
      && s.batch == r.batch + Tagged(k, QueueOf(qs, k)[..d.0], d.1)
  {
    assert ranked[..i + 1][..i] == ranked[..i];
    hide Wanted, Promoted;
    assert Tagged(ranked[i], QueueOf(qs, ranked[i])[..0], false) == [];
  }

  lemma ReachedNone(p: Policy, qs: Queues, es: map<Adapter, Option<real>>, ranked: seq<Adapter>)
    requires p.W > 0
    ensures Reached(p, qs, es, ranked, 0, [], false, qs, es)
  {
    assert ranked[..0] == [];
  }

  /** One step of the scan. */
  lemma ReachedStep(p: Policy, qs: Queues, es: map<Adapter, Option<real>>, ranked: seq<Adapter>, i: nat,
                    batch: seq<Token>, halted: bool, now: Queues, nowTime: map<Adapter, Option<real>>)
    requires p.W > 0 && i < |ranked| && NoDuplicates(ranked)
    requires Reached(p, qs, es, ranked, i, batch, halted, now, nowTime) && |batch| <= p.budget
    ensures var k := ranked[i];
      var d := Choice(p, k, QueueOf(now, k), OldestOf(nowTime, k), |batch|, halted);
      Reached(p, qs, es, ranked, i + 1, batch + Tagged(k, QueueOf(now, k)[..d.0], d.1), d.2,
              Popped(now, Take(k, d.0, d.1)), PoppedTime(nowTime, now, Take(k, d.0, d.1)))
  {
    VisitDecides(p, qs, es, ranked, i);
    hide Choice, PlanFor, Tagged;
    var r, k := PlanFor(p, qs, es, ranked[..i]), ranked[i];
    assert SameAt(qs, now, es, nowTime, k);
    var d := Choice(p, k, QueueOf(now, k), OldestOf(nowTime, k), |batch|, halted);
    var x := Take(k, d.0, d.1);
    SameStep(qs, now, es, nowTime, ranked, i, x);
    hide SameAt, Popped, PoppedTime, QueueOf, OldestOf;
    RemainingStep(qs, es, r.takes, x);
  }

  lemma RemainingStep(qs: Queues, es: map<Adapter, Option<real>>, takes: seq<Take>, x: Take)
    ensures Remaining(qs, takes + [x]) == Popped(Remaining(qs, takes), x)
    ensures RemainingTime(es, qs, takes + [x]) == PoppedTime(RemainingTime(es, qs, takes), Remaining(qs, takes), x)
  {
    assert (takes + [x])[..|takes|] == takes;
  }

  lemma SameStep(qs: Queues, now: Queues, es: map<Adapter, Option<real>>, nowTime: map<Adapter, Option<real>>,
                 ranked: seq<Adapter>, i: nat, x: Take)
    requires i < |ranked| && NoDuplicates(ranked) && x.adapter == ranked[i]
    requires forall j :: i <= j < |ranked| ==> SameAt(qs, now, es, nowTime, ranked[j])
    ensures forall j :: i + 1 <= j < |ranked| ==> SameAt(qs, Popped(now, x), es, PoppedTime(nowTime, now, x), ranked[j])
  {
    forall j | i + 1 <= j < |ranked| ensures SameAt(qs, Popped(now, x), es, PoppedTime(nowTime, now, x), ranked[j]) {
      assert SameAt(qs, now, es, nowTime, ranked[j]) && ranked[j] != ranked[i];
    }
  }

  /** Once the scan has stopped, or the budget is spent, the rest of the list changes nothing. */
  lemma {:induction false} ReachedIdle(p: Policy, qs: Queues, es: map<Adapter, Option<real>>, ranked: seq<Adapter>,
                                       i: nat, batch: seq<Token>, halted: bool, now: Queues,
                                       nowTime: map<Adapter, Option<real>>)
    requires p.W > 0 && i <= |ranked| && NoDuplicates(ranked) && (halted || |batch| == p.budget) && |batch| <= p.budget
    requires Reached(p, qs, es, ranked, i, batch, halted, now, nowTime)
    ensures Reached(p, qs, es, ranked, |ranked|, batch, halted, now, nowTime)
    decreases |ranked| - i
  {
    if i < |ranked| {
      ReachedStep(p, qs, es, ranked, i, batch, halted, now, nowTime);
      hide Reached;
      assert batch + Tagged(ranked[i], QueueOf(now, ranked[i])[..0], false) == batch;
      ReachedIdle(p, qs, es, ranked, i + 1, batch, halted, now, nowTime);
    }
  }

  class AlignmentBuffer {
    const W: nat
    const ttftSlo: real
    var tMax: real
    var order: seq<Adapter>   // insertion order of the queues
    var queues: Queues
    var enqueueTime: map<Adapter, Option<real>>
    var seqEnqueue: map<int, real>
    var nEnqueued: nat
    var nDispatched: nat

    ghost predicate Valid()
      reads this
    {
      W > 0 && Lists(order, queues) && Good(queues, enqueueTime, seqEnqueue)
    }

    constructor (adapters: seq<Adapter>, warpSize: nat, tMax: real, ttftSlo: real)
      requires warpSize > 0 && NoDuplicates(adapters)
      ensures Valid() && W == warpSize && this.tMax == tMax && this.ttftSlo == ttftSlo
      ensures order == adapters && (forall k :: k in queues ==> queues[k] == []) && seqEnqueue == map[]
      ensures nEnqueued == nDispatched == 0
    {
      W, this.tMax, this.ttftSlo, order := warpSize, tMax, ttftSlo, adapters;
      queues := map k | k in adapters :: [];
      enqueueTime := map k | k in adapters :: None;
      seqEnqueue, nEnqueued, nDispatched := map[], 0, 0;
    }

    method RegisterAdapter(k: Adapter)
      requires Valid()
      modifies this`order, this`queues, this`enqueueTime
      ensures Valid() && k in queues && (k in old(queues) ==> queues == old(queues) && enqueueTime == old(enqueueTime))
      ensures k !in old(queues) ==> queues == old(queues)[k := []] && enqueueTime == old(enqueueTime)[k := None]
    {
      if k !in queues {
        RegisterKeeps(queues, enqueueTime, seqEnqueue, k);
        order, queues, enqueueTime := order + [k], queues[k := []], enqueueTime[k := None];
      }
    }

    function State(): Buffered
      reads this
    {
      Buffered(queues, enqueueTime, seqEnqueue)
    }

    method Enqueue(k: Adapter, id: int, t: real)
      requires Valid() && Before(queues, t)
      modifies this`order, this`queues, this`enqueueTime, this`seqEnqueue, this`nEnqueued
      ensures Valid() && Before(queues, t) && State() == Entered(old(State()), k, id, t)
      ensures nEnqueued == old(nEnqueued) + (if id in old(seqEnqueue) then 0 else 1)
    {
      hide AlignmentBuffer.Valid, Before, Pushed, PushedTime;
      if id !in seqEnqueue {
        RegisterFirst(k, id, t);
        RegisterAdapter(k);
        Append(k, id, t);
      }
    }

    lemma RegisterFirst(k: Adapter, id: int, t: real)
      requires Valid() && Before(queues, t)
      ensures Before(Pushed(queues, k, Entry(id, t)), t) && (k in queues || Before(queues[k := []], t))
      ensures k !in queues ==> Pushed(queues[k := []], k, Entry(id, t)) == Pushed(queues, k, Entry(id, t))
      ensures k !in queues ==> PushedTime(enqueueTime[k := None], k, t) == PushedTime(enqueueTime, k, t)
    {
      RegisterThenPush(queues, enqueueTime, seqEnqueue, k, id, t);
    }

    method Append(k: Adapter, id: int, t: real)
      requires Valid() && Before(queues, t) && k in queues && id !in seqEnqueue
      modifies this`queues, this`enqueueTime, this`seqEnqueue, this`nEnqueued
      ensures Valid() && seqEnqueue == old(seqEnqueue)[id := t] && nEnqueued == old(nEnqueued) + 1
      ensures queues == Pushed(old(queues), k, Entry(id, t)) && enqueueTime == PushedTime(old(enqueueTime), k, t)
    {
      hide Good, Before, Lists, PushedTime;
      SameKeysListed(order, queues, Pushed(queues, k, Entry(id, t)));
      PushKeeps(queues, enqueueTime, seqEnqueue, k, id, t);
      queues := Pushed(queues, k, Entry(id, t));
      enqueueTime := PushedTime(enqueueTime, k, t);
      seqEnqueue := seqEnqueue[id := t];
      nEnqueued := nEnqueued + 1;
    }

    /** Drop the record of a sequence that is in no queue any more. */
    method Release(id: int)
      requires Valid() && !Queued(queues, id)
      modifies this`seqEnqueue
      ensures Valid() && seqEnqueue == old(seqEnqueue) - {id}
    {
      ReleaseKeeps(queues, enqueueTime, seqEnqueue, id);
      seqEnqueue := seqEnqueue - {id};
    }

    /** Take one sequence out of a queue, wherever it stands (the anti-empty drain). */
    method Remove(k: Adapter, id: int)
      requires Valid()
      modifies this`queues, this`enqueueTime
      ensures Valid()
      ensures queues == RemovedFrom(old(queues), k, id)
      ensures enqueueTime == RemovedTime(old(enqueueTime), old(queues), k, id)
    {
      hide Good, Lists, Without;
      if k in queues {
        RemoveKeeps(queues, enqueueTime, seqEnqueue, k, id);
        SameKeysListed(order, queues, RemovedFrom(queues, k, id));
        var left := Without(queues[k], id);
        if left == [] { enqueueTime := enqueueTime[k := None]; }
        queues := queues[k := left];
      }
    }

    /** Take the oldest tokens of one queue and move its oldest-token time to what is left. */
    method Pop(x: Take)
      requires Valid()
      modifies this`queues, this`enqueueTime, this`nDispatched
      ensures Valid() && queues == Popped(old(queues), x) && enqueueTime == PoppedTime(old(enqueueTime), old(queues), x)
      ensures nDispatched == old(nDispatched) + x.count
    {
      hide Good, Lists, Popped, PoppedTime;
      TakeKeeps(queues, enqueueTime, seqEnqueue, x);
      PoppedKeys(queues, x);
      SameKeysListed(order, queues, Popped(queues, x));
      nDispatched := nDispatched + x.count;
      enqueueTime, queues := PoppedTime(enqueueTime, queues, x), Popped(queues, x);
    }

    /** The first rule that applies to a queue of the given length: how many tokens leave, their flag, and a stop. */
    method FirstRule(p: Policy, k: Adapter, len: nat, enq: Option<real>, left: nat)
      returns (c: nat, promo: bool, stop: bool)
      requires p.W > 0 && left > 0
      ensures (c, promo, stop) == Decide(p, k, len, enq, left)
    {
      c, promo, stop := 0, false, false;
      if len == 0 { return; }
      var age := if enq.Some? then p.now - enq.value else 0.0;
      var deadline := if k in p.tmax then p.tmax[k] else p.default;
      if p.slo <= deadline { deadline := p.slo; }
      if len >= p.W {
        var warps := if len / p.W < left / p.W then len / p.W else left / p.W;
        WarpsFit(warps, len, left, p.W);
        c := warps * p.W;
        promo := p.mode.Holdback? && k in p.mode.merged && c > 0;
        stop := p.mode.Deadline? && c == 0;
      } else if p.mode.Holdback? && len >= p.mode.eff {
        c := if len < left then len else left;
        promo := k in p.mode.merged && c > 0;
      } else if p.mode.Holdback? && len >= p.mode.half && age > deadline / 2.0 {
        c := if len < left then len else left;
      } else if age >= deadline {
        c := if len < left then len else left;
      }
    }

    /**
     Visit the adapters in the given order and dispatch from each queue what the policy wants.  The
     batch and the queues left behind are those of the plan.
     */
    method Dispatch(p: Policy, visit: seq<Adapter>) returns (batch: seq<Token>)
      requires Valid() && p.W == W && NoDuplicates(visit)
      modifies this`queues, this`enqueueTime, this`nDispatched
      ensures Valid()
      ensures batch == PlanFor(p, old(queues), old(enqueueTime), visit).batch
      ensures queues == Remaining(old(queues), PlanFor(p, old(queues), old(enqueueTime), visit).takes)
      ensures enqueueTime ==
        RemainingTime(old(enqueueTime), old(queues), PlanFor(p, old(queues), old(enqueueTime), visit).takes)
      ensures nDispatched == old(nDispatched) + |batch|
    {
      hide Reached, Choice, Decide, Good, Popped, PoppedTime, QueueOf, OldestOf, Tagged, PlanFor, Remaining,
        RemainingTime;
      ghost var qs, es := queues, enqueueTime;
      batch := [];
      var halted, i := false, 0;
      ReachedNone(p, qs, es, visit);
      while i < |visit| && !halted && |batch| < p.budget
        invariant 0 <= i <= |visit| && Valid() && |batch| <= p.budget
        invariant Reached(p, qs, es, visit, i, batch, halted, queues, enqueueTime)
        invariant nDispatched == old(nDispatched) + |batch|
        decreases |visit| - i
      {
        OpenChoice(p, visit[i], QueueOf(queues, visit[i]), OldestOf(enqueueTime, visit[i]), |batch|);
        ReachedStep(p, qs, es, visit, i, batch, halted, queues, enqueueTime);
        var k := visit[i];
        var q := QueueOf(queues, k);
        var c, promo, stop := FirstRule(p, k, |q|, OldestOf(enqueueTime, k), p.budget - |batch|);
        Pop(Take(k, c, promo));
        batch, halted, i := batch + Tagged(k, q[..c], promo), stop, i + 1;
      }
      ReachedEnd(p, qs, es, visit, i, batch, halted, queues, enqueueTime);
    }

    /** Budget: max_tokens, or W tokens per queue. */
    function Budget(maxTokens: Option<nat>): nat
      reads this
    {
      if maxTokens.Some? then maxTokens.value else W * |queues|
    }

    /** The budget is enough for all tokens of the visited queues. */
    ghost predicate Covers(visit: seq<Adapter>, maxTokens: Option<nat>)
      reads this
    {
      match maxTokens
      case Some(n) => Waiting(queues, visit) <= n
      case None => Waiting(queues, visit) <= W * |queues|
    }

    /** The holdback rules: n* capped at one adapter's share of a warp. */
    function WgkpPolicy(nRanked: nat, tmaxK: map<Adapter, real>, nStar: int, merged: set<Adapter>,
                        maxTokens: Option<nat>, now: real): Policy
      reads this
    {
      var n := if nRanked > 1 then nRanked else 1;
      var eff := Threshold(nStar, RoundHalfEven(W, n));
      Policy(Holdback(eff, (eff + 1) / 2, merged), W, ttftSlo, now, tmaxK, tMax, Budget(maxTokens))
    }

    /** form_batch_wgkp */
    method FormBatchWgkp(ranked: seq<Adapter>, tmaxK: map<Adapter, real>, nStar: int, merged: set<Adapter>,
                         maxTokens: Option<nat>, now: real) returns (batch: seq<Token>)
      requires Valid() && NoDuplicates(ranked)
      modifies this`queues, this`enqueueTime, this`nDispatched
      ensures Valid() && nDispatched == old(nDispatched) + |batch|
      ensures Dispatched(old(WgkpPolicy(|ranked|, tmaxK, nStar, merged, maxTokens, now)), ranked,
                         old(queues), old(enqueueTime), batch, queues, enqueueTime)
      ensures old(Covers(ranked, maxTokens)) ==>
        HoldbackDone(W, nStar, ranked, tmaxK, tMax, ttftSlo, merged, now, old(queues), old(enqueueTime), queues, batch)
    {
      hide Good, HoldbackDone;
      var p := WgkpPolicy(|ranked|, tmaxK, nStar, merged, maxTokens, now);
      ghost var covered := Covers(ranked, maxTokens);
      batch := Dispatch(p, ranked);
      if covered {
        RoundIsNearest(W, if |ranked| > 1 then |ranked| else 1);
        HoldbackIs(p, nStar, ranked, old(queues), old(enqueueTime), batch, queues);
      }
    }

    /** form_batch: one global deadline, queues in insertion order. */
    method FormBatch(maxTokens: Option<nat>, now: real) returns (batch: seq<Token>)
      requires Valid()
      modifies this`queues, this`enqueueTime, this`nDispatched
      ensures Valid() && nDispatched == old(nDispatched) + |batch|
      ensures Dispatched(old(Policy(Deadline, W, ttftSlo, now, map[], tMax, Budget(maxTokens))), order,
                         old(queues), old(enqueueTime), batch, queues, enqueueTime)
      ensures old(Covers(order, maxTokens)) ==>
        DeadlineDone(W, order, map[], tMax, ttftSlo, now, old(queues), old(enqueueTime), queues, batch)
    {
      hide Good, DeadlineDone;
      var p := Policy(Deadline, W, ttftSlo, now, map[], tMax, Budget(maxTokens));
      ghost var covered := Covers(order, maxTokens);
      ListedOnce(order, queues);
      batch := Dispatch(p, order);
      if covered { DeadlineIs(p, order, old(queues), old(enqueueTime), batch, queues); }
    }

    /** form_batch_erlang and form_batch_cash: per-adapter deadlines, in insertion or CASH order. */
    method FormBatchDeadlines(visit: seq<Adapter>, tmaxK: map<Adapter, real>, maxTokens: Option<nat>, now: real)
      returns (batch: seq<Token>)
      requires Valid() && NoDuplicates(visit)
      modifies this`queues, this`enqueueTime, this`nDispatched
      ensures Valid() && nDispatched == old(nDispatched) + |batch|
      ensures Dispatched(old(Policy(Deadline, W, ttftSlo, now, tmaxK, ttftSlo, Budget(maxTokens))), visit,
                         old(queues), old(enqueueTime), batch, queues, enqueueTime)
      ensures old(Covers(visit, maxTokens)) ==>
        DeadlineDone(W, visit, tmaxK, ttftSlo, ttftSlo, now, old(queues), old(enqueueTime), queues, batch)
    {
      hide Good, DeadlineDone;
      var p := Policy(Deadline, W, ttftSlo, now, tmaxK, ttftSlo, Budget(maxTokens));
      ghost var covered := Covers(visit, maxTokens);
      batch := Dispatch(p, visit);
      if covered { DeadlineIs(p, visit, old(queues), old(enqueueTime), batch, queues); }
    }
  }

  lemma ListedOnce(order: seq<Adapter>, qs: Queues)
    requires Lists(order, qs)
    ensures NoDuplicates(order)
  {
  }

  /** With budget for all visited tokens each visited queue is left what its rule leaves. */
  lemma DispatchLeaves(p: Policy, visit: seq<Adapter>, qs: Queues, es: map<Adapter, Option<real>>, left: Queues)
    requires p.W > 0 && NoDuplicates(visit) && Waiting(qs, visit) <= p.budget
    requires left == Remaining(qs, PlanFor(p, qs, es, visit).takes)
    ensures forall k :: k in visit ==>
      Keeps(p.W, ReleasedBy(p, k, Age(OldestOf(es, k), p.now), |QueueOf(qs, k)|), QueueOf(qs, k), QueueOf(left, k))
  {
    hide PlanFor, Remaining, Keeps, ReleasedBy, Ample;
    var takes := PlanFor(p, qs, es, visit).takes;
    AmpleBudget(p, qs, es, visit);
    BatchIsGathered(p, qs, es, visit);
    RemainingAt(qs, visit, takes);
    forall k | k in visit
      ensures var q := QueueOf(qs, k);
        Keeps(p.W, ReleasedBy(p, k, Age(OldestOf(es, k), p.now), |q|), q, QueueOf(left, k))
    {
      var i :| 0 <= i < |visit| && visit[i] == k;
      AmpleKeeps(p, k, Age(OldestOf(es, k), p.now), QueueOf(qs, k));
      assert takes[i].adapter == k;
    }
  }

  lemma AgeIs(es: map<Adapter, Option<real>>, k: Adapter, now: real)
    ensures Age(OldestOf(es, k), now) == AgeOf(es, k, now)
  {
  }

  lemma HoldbackIs(p: Policy, nStar: int, ranked: seq<Adapter>, qs: Queues, es: map<Adapter, Option<real>>,
                   batch: seq<Token>, left: Queues)
    requires p.W > 0 && NoDuplicates(ranked) && Waiting(qs, ranked) <= p.budget && p.mode.Holdback?
    requires var r := PlanFor(p, qs, es, ranked); batch == r.batch && left == Remaining(qs, r.takes)
    requires var eff := Threshold(nStar, RoundHalfEven(p.W, if |ranked| > 1 then |ranked| else 1));
      p.mode.eff == eff && p.mode.half == (eff + 1) / 2
    ensures HoldbackDone(p.W, nStar, ranked, p.tmax, p.default, p.slo, p.mode.merged, p.now, qs, es, left, batch)
  {
    hide PlanFor, Remaining, Keeps, RoundHalfEven, Waiting, Nearest, Threshold, QueueOf, OldestOf, Age, AgeOf, Released;
    var K := if |ranked| > 1 then |ranked| else 1;
    RoundIsNearest(p.W, K);
    DispatchLeaves(p, ranked, qs, es, left);
    BatchFlags(p, qs, es, ranked);
    forall k { AgeIs(es, k, p.now); }
    assert CeilDiv(p.mode.eff, 2) == p.mode.half;
    assert HoldbackWith(p.W, p.mode.eff, ranked, p.tmax, p.default, p.slo, p.mode.merged, p.now, qs, es, left, batch);
  }

  lemma DeadlineIs(p: Policy, visit: seq<Adapter>, qs: Queues, es: map<Adapter, Option<real>>, batch: seq<Token>,
                   left: Queues)
    requires p.W > 0 && NoDuplicates(visit) && Waiting(qs, visit) <= p.budget && p.mode.Deadline?
    requires var r := PlanFor(p, qs, es, visit); batch == r.batch && left == Remaining(qs, r.takes)
    ensures DeadlineDone(p.W, visit, p.tmax, p.default, p.slo, p.now, qs, es, left, batch)
  {
    hide PlanFor, Remaining, Keeps, Waiting, QueueOf, OldestOf, Age, AgeOf;
    DispatchLeaves(p, visit, qs, es, left);
    BatchFlags(p, qs, es, visit);
    forall k { AgeIs(es, k, p.now); }
  }

  /** A dispatch took what its plan says and left the rest. */
  ghost predicate Dispatched(p: Policy, visit: seq<Adapter>, qs: Queues, es: map<Adapter, Option<real>>,
                             batch: seq<Token>, now: Queues, nowTime: map<Adapter, Option<real>>)
  {
    && p.W > 0
    && var r := PlanFor(p, qs, es, visit);
       batch == r.batch && now == Remaining(qs, r.takes) && nowTime == RemainingTime(es, qs, r.takes)
  }

  lemma ReachedEnd(p: Policy, qs: Queues, es: map<Adapter, Option<real>>, ranked: seq<Adapter>, i: nat,
                   batch: seq<Token>, halted: bool, now: Queues, nowTime: map<Adapter, Option<real>>)
    requires p.W > 0 && i <= |ranked| && NoDuplicates(ranked) && |batch| <= p.budget
    requires i == |ranked| || halted || |batch| == p.budget
    requires Reached(p, qs, es, ranked, i, batch, halted, now, nowTime)
    ensures var r := PlanFor(p, qs, es, ranked);
      batch == r.batch && now == Remaining(qs, r.takes) && nowTime == RemainingTime(es, qs, r.takes)
  {
    if i < |ranked| { ReachedIdle(p, qs, es, ranked, i, batch, halted, now, nowTime); }
    assert ranked[..|ranked|] == ranked;
  }
}
