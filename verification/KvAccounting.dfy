/**
 The accounting of KV-aware admission: lifetimes, blocks held and growth owed, what one decode step does to them
 and what one admission pass answers.  A token's block comes one step after the token, in append_slot.
 */
module KvAccounting {
  import opened Arithmetic
  import opened Common

  datatype AllocStatus = Ok | Later | Never

  /** A request's sequence; without max_tokens it may grow to the model's maximum length. */
  datatype Request = Request(prompt: nat, maxTokens: Option<nat>)

  /** A running sequence: tokens so far and KV blocks held. */
  datatype Running = Running(req: Request, len: nat, held: nat)

  datatype Config = Config(bs: nat, maxModelLen: nat, total: nat)

  function Limit(c: Config, r: Request): nat {
    if r.maxTokens.Some? then r.prompt + r.maxTokens.value else c.maxModelLen
  }

  /** Blocks held once the sequence has produced everything it may. */
  function Lifetime(c: Config, r: Request): nat
    requires c.bs > 0
  {
    CeilDiv(Limit(c, r), c.bs)
  }

  function Need(c: Config, group: seq<Request>): nat
    requires c.bs > 0
  {
    if group == [] then 0 else Need(c, group[..|group| - 1]) + Lifetime(c, group[|group| - 1])
  }

  // ---- sums over the running list -----------------------------------------------------------------------

  function SumOf(rs: seq<Running>, f: Running -> int): int {
    if rs == [] then 0 else SumOf(rs[..|rs| - 1], f) + f(rs[|rs| - 1])
  }

  lemma {:induction false} SumOfAppend(rs: seq<Running>, more: seq<Running>, f: Running -> int)
    ensures SumOf(rs + more, f) == SumOf(rs, f) + SumOf(more, f)
  {
    if more == [] {
      assert rs + more == rs;
    } else {
      var n := |more| - 1;
      SumOfAppend(rs, more[..n], f);
      assert (rs + more)[..|rs| + n] == rs + more[..n];
    }
  }

  lemma SumOfAround(rs: seq<Running>, i: nat, f: Running -> int)
    requires i < |rs|
    ensures SumOf(rs, f) == SumOf(rs[..i] + rs[i + 1..], f) + f(rs[i])
  {
    var before, r, after := rs[..i], rs[i], rs[i + 1..];
    assert rs == before + ([r] + after);
    SumOfOne(r, f);
    hide SumOf;
    SumOfAppend(before, [r] + after, f);
    SumOfAppend([r], after, f);
    SumOfAppend(before, after, f);
  }

  lemma SumOfOne(r: Running, f: Running -> int)
    ensures SumOf([r], f) == f(r)
  {
    assert [r][..0] == [];
  }

  lemma SumOfUpdate(rs: seq<Running>, i: nat, r: Running, f: Running -> int)
    requires i < |rs|
    ensures SumOf(rs[i := r], f) == SumOf(rs, f) - f(rs[i]) + f(r)
  {
    SumOfAround(rs, i, f);
    SumOfAround(rs[i := r], i, f);
    assert rs[i := r][..i] == rs[..i] && rs[i := r][i + 1..] == rs[i + 1..];
  }

  /** Term by term at most; less if some term is less. */
  lemma {:induction false} SumOfAtMost(rs: seq<Running>, ss: seq<Running>, f: Running -> int, g: Running -> int)
    requires |rs| == |ss| && forall i :: 0 <= i < |rs| ==> f(rs[i]) <= g(ss[i])
    ensures SumOf(rs, f) <= SumOf(ss, g)
    ensures (exists i :: 0 <= i < |rs| && f(rs[i]) < g(ss[i])) ==> SumOf(rs, f) < SumOf(ss, g)
  {
    if rs != [] { SumOfAtMost(rs[..|rs| - 1], ss[..|rs| - 1], f, g); }
  }

  lemma {:induction false} SumOfNonNegative(rs: seq<Running>, f: Running -> int)
    requires forall i :: 0 <= i < |rs| ==> f(rs[i]) >= 0
    ensures SumOf(rs, f) >= 0
  {
    if rs != [] { SumOfNonNegative(rs[..|rs| - 1], f); }
  }

  function LifeOf(c: Config): Running -> int requires c.bs > 0 { (r: Running) => Lifetime(c, r.req) }

  function HeldOf(): Running -> int { (r: Running) => r.held }

  function LagOf(c: Config): Running -> int requires c.bs > 0 { (r: Running) => CeilDiv(r.len, c.bs) - r.held }

  function GrowthOf(c: Config): Running -> int requires c.bs > 0 { (r: Running) => Growth(c, r) }

  function PeakOf(c: Config): Running -> int requires c.bs > 0 { (r: Running) => Peak(c, r) }

  function RestOf(c: Config): Running -> int { (r: Running) => Limit(c, r.req) - r.len }

  function Growth(c: Config, r: Running): nat
    requires c.bs > 0
  {
    var g := Lifetime(c, r.req) - CeilDiv(r.len, c.bs);
    if g > 0 then g else 0
  }

  /** The most blocks a sequence can come to hold: its last token is never given a slot. */
  function Peak(c: Config, r: Running): nat
    requires c.bs > 0
  {
    if r.len < Limit(c, r.req) then CeilDiv(Limit(c, r.req) - 1, c.bs) else r.held
  }

  /** The reserved lifetimes. */
  ghost function Lives(c: Config, rs: seq<Running>): int requires c.bs > 0 { SumOf(rs, LifeOf(c)) }

  function Held(rs: seq<Running>): int { SumOf(rs, HeldOf()) }

  ghost function Owed(c: Config, rs: seq<Running>): int requires c.bs > 0 { SumOf(rs, GrowthOf(c)) }

  /** Blocks that the lengths call for but the sequences do not hold yet. */
  ghost function Lag(c: Config, rs: seq<Running>): int requires c.bs > 0 { SumOf(rs, LagOf(c)) }

  ghost function Peaks(c: Config, rs: seq<Running>): int requires c.bs > 0 { SumOf(rs, PeakOf(c)) }

  // ---- the accounting -----------------------------------------------------------------------------------

  ghost predicate WithinLimits(c: Config, rs: seq<Running>) {
    forall i :: 0 <= i < |rs| ==> rs[i].len <= Limit(c, rs[i].req)
  }

  /** Nobody holds more blocks than its length calls for, nor falls behind by more than the one for its last token. */
  ghost predicate Paced(c: Config, rs: seq<Running>)
    requires c.bs > 0
  {
    forall i :: 0 <= i < |rs| ==> rs[i].held <= CeilDiv(rs[i].len, c.bs) <= rs[i].held + 1
  }

  ghost predicate Sound(c: Config, rs: seq<Running>) { c.bs > 0 && WithinLimits(c, rs) && Paced(c, rs) }

  /** The growth owed is the lifetimes minus what is held, up to the accounting lag. */
  lemma {:induction false} OwedIs(c: Config, rs: seq<Running>)
    requires c.bs > 0 && WithinLimits(c, rs)
    ensures Owed(c, rs) == Lives(c, rs) - Held(rs) - Lag(c, rs)
    ensures Paced(c, rs) ==> Lag(c, rs) >= 0
  {
    if rs != [] {
      var n := |rs| - 1;
      OwedIs(c, rs[..n]);
      CeilDivMonotone(rs[n].len, Limit(c, rs[n].req), c.bs);
    }
  }

  /** A grant of this size keeps every reserved lifetime within the cache. */
  ghost predicate Covered(c: Config, rs: seq<Running>, need: nat)
    requires c.bs > 0
  {
    Lives(c, rs) + need <= c.total
  }

  /**
   Exactly when the admission test is safe: whatever need passes it keeps the reserved lifetimes within the
   cache if and only if no running sequence lags behind its length (or the headroom is negative anyway).
   */
  lemma AdmissionSafeIffAccounted(c: Config, rs: seq<Running>, free: int)
    requires c.bs > 0 && WithinLimits(c, rs) && free + Held(rs) == c.total
    ensures var headroom := free - Owed(c, rs);
      && headroom == c.total - Lives(c, rs) + Lag(c, rs)
      && ((forall need: nat :: need <= headroom ==> Covered(c, rs, need)) <==> (Lag(c, rs) <= 0 || headroom < 0))
  {
    OwedIs(c, rs);
    var headroom := free - Owed(c, rs);
    if headroom >= 0 && Lag(c, rs) > 0 { assert !Covered(c, rs, headroom); }
  }

  /** One sequence that has just produced token 17 of a 16-token block: a grant exhausts the cache. */
  lemma LagExample()
    ensures var c := Config(16, 64, 3); var r := Running(Request(1, Some(31)), 17, 1); var g := Request(17, Some(15));
      && Sound(c, [r]) && 2 + Held([r]) == c.total && Need(c, [g]) <= 2 - Owed(c, [r])
      && Lives(c, [r]) + Need(c, [g]) > c.total
      && CeilDiv(r.len, c.bs) - r.held > 2 - CeilDiv(g.prompt, c.bs)
  {
    var c := Config(16, 64, 3); var r := Running(Request(1, Some(31)), 17, 1); var g := Request(17, Some(15));
    assert [r][..0] == [] && [g][..0] == [];
  }

  /** Held blocks are within the peaks, and the peaks within the lifetimes; who waits for a block is below its peak. */
  lemma PeaksBetween(c: Config, rs: seq<Running>)
    requires Sound(c, rs)
    ensures Held(rs) <= Peaks(c, rs) <= Lives(c, rs)
    ensures (exists i :: 0 <= i < |rs| && rs[i].len < Limit(c, rs[i].req) && Wants(c, rs[i])) ==>
      Held(rs) < Peaks(c, rs)
  {
    forall i | 0 <= i < |rs|
      ensures rs[i].held <= Peak(c, rs[i]) <= Lifetime(c, rs[i].req)
      ensures rs[i].len < Limit(c, rs[i].req) && Wants(c, rs[i]) ==> rs[i].held < Peak(c, rs[i])
    {
      PeakBetween(c, rs[i]);
    }
    SumOfAtMost(rs, rs, HeldOf(), PeakOf(c));
    SumOfAtMost(rs, rs, PeakOf(c), LifeOf(c));
  }

  lemma PeakBetween(c: Config, r: Running)
    requires Sound(c, [r])
    ensures r.held <= Peak(c, r) <= Lifetime(c, r.req)
    ensures r.len < Limit(c, r.req) && Wants(c, r) ==> r.held < Peak(c, r)
  {
    assert [r][0] == r;
    CeilDivMonotone(r.len, Limit(c, r.req), c.bs);
    if r.len < Limit(c, r.req) {
      CeilDivMonotone(r.len, Limit(c, r.req) - 1, c.bs);
      CeilDivMonotone(Limit(c, r.req) - 1, Limit(c, r.req), c.bs);
    }
  }

  /** While the reserved lifetimes fit the cache, a sequence that still has to grow and waits for a block finds one. */
  lemma RoomToGrow(c: Config, rs: seq<Running>, i: nat)
    requires Sound(c, rs) && Lives(c, rs) <= c.total && i < |rs| && rs[i].len < Limit(c, rs[i].req) && Wants(c, rs[i])
    ensures c.total - Held(rs) > 0
  {
    PeaksBetween(c, rs);
  }

  /** The sequences of a group as they start running: their prompts in the cache. */
  function Started(c: Config, group: seq<Request>): (rs: seq<Running>)
    requires c.bs > 0
    ensures |rs| == |group|
    ensures forall i :: 0 <= i < |rs| ==> rs[i] == Running(group[i], group[i].prompt, CeilDiv(group[i].prompt, c.bs))
  {
    seq(|group|, i requires 0 <= i < |group| => Running(group[i], group[i].prompt, CeilDiv(group[i].prompt, c.bs)))
  }

  lemma {:induction false} StartedLives(c: Config, group: seq<Request>)
    requires c.bs > 0
    ensures Lives(c, Started(c, group)) == Need(c, group)
  {
    if group != [] {
      var n := |group| - 1;
      StartedLives(c, group[..n]);
      assert Started(c, group)[..n] == Started(c, group[..n]);
    }
  }

  /** Prompts the engine accepts fit the model. */
  ghost predicate Acceptable(c: Config, group: seq<Request>) {
    forall i :: 0 <= i < |group| ==> group[i].prompt <= Limit(c, group[i])
  }

  // ---- decode steps on values -----------------------------------------------------------------------------

  /** What a decode step does with a sequence: give it a slot or pass it over; run it or leave it out of the batch. */
  datatype Turn = Turn(slot: bool, runs: bool)

  predicate Wants(c: Config, r: Running) requires c.bs > 0 { r.held < CeilDiv(r.len, c.bs) }

  /** append_slot has to find a block for this sequence; one that has reached its limit is finished. */
  predicate Asks(c: Config, r: Running, t: Turn) requires c.bs > 0 { t.slot && r.len < Limit(c, r.req) && Wants(c, r) }

  function Slotted(c: Config, r: Running): Running requires c.bs > 0 { Running(r.req, r.len, CeilDiv(r.len, c.bs)) }

  function Longer(r: Running): Running { Running(r.req, r.len + 1, r.held) }

  /** A sequence after its turn: the block for its last token, and then a new token. */
  function Decoded(c: Config, r: Running, t: Turn): Running
    requires c.bs > 0
  {
    if !t.slot || r.len >= Limit(c, r.req) then r
    else if t.runs then Longer(Slotted(c, r))
    else Slotted(c, r)
  }

  /** How many of the first n sequences ask for a block. */
  ghost function Asking(c: Config, rs: seq<Running>, turns: seq<Turn>, n: nat): nat
    requires c.bs > 0 && n <= |rs| == |turns|
  {
    if n == 0 then 0 else Asking(c, rs, turns, n - 1) + (if Asks(c, rs[n - 1], turns[n - 1]) then 1 else 0)
  }

  /** How far a step gets that has reached sequence n: to the first that asks when the free blocks are used up. */
  ghost function Reached(c: Config, rs: seq<Running>, turns: seq<Turn>, n: nat): (k: nat)
    requires c.bs > 0 && n <= |rs| == |turns|
    ensures n <= k <= |rs|
    decreases |rs| - n
  {
    if n == |rs| || (Asks(c, rs[n], turns[n]) && Asking(c, rs, turns, n) >= c.total - Held(rs)) then n
    else Reached(c, rs, turns, n + 1)
  }

  /** The first n sequences have had their turns. */
  ghost function Advanced(c: Config, rs: seq<Running>, turns: seq<Turn>, n: nat): seq<Running>
    requires c.bs > 0 && n <= |rs| == |turns|
  {
    seq(|rs|, i requires 0 <= i < |rs| => if i < n then Decoded(c, rs[i], turns[i]) else rs[i])
  }

  /** A step that does not find a block it has to find; the base scheduler then preempts. */
  ghost predicate Misses(c: Config, rs: seq<Running>, turns: seq<Turn>)
    requires c.bs > 0
  {
    |turns| == |rs| && Reached(c, rs, turns, 0) < |rs|
  }

  /** A step misses a block exactly when more sequences ask than there are free blocks. */
  lemma MissesIff(c: Config, rs: seq<Running>, turns: seq<Turn>)
    requires c.bs > 0 && |turns| == |rs|
    ensures var asking := Asking(c, rs, turns, |rs|);
      Misses(c, rs, turns) <==> asking > 0 && asking > c.total - Held(rs)
  {
    ReachedIs(c, rs, turns, 0);
    var n := |rs|;
    if Misses(c, rs, turns) {
      AskingGrows(c, rs, turns, Reached(c, rs, turns, 0) + 1, n);
    } else if Asking(c, rs, turns, n) > 0 {
      var k := LastAsking(c, rs, turns, n);
      assert Asking(c, rs, turns, k) < c.total - Held(rs);
    }
  }

  lemma {:induction false} ReachedIs(c: Config, rs: seq<Running>, turns: seq<Turn>, n: nat)
    requires c.bs > 0 && n <= |rs| == |turns|
    ensures var k := Reached(c, rs, turns, n);
      && (k < |rs| ==> Asks(c, rs[k], turns[k]) && Asking(c, rs, turns, k) >= c.total - Held(rs))
      && forall i :: n <= i < k && Asks(c, rs[i], turns[i]) ==> Asking(c, rs, turns, i) < c.total - Held(rs)
    decreases |rs| - n
  {
    if n < |rs| { ReachedIs(c, rs, turns, n + 1); }
  }

  lemma {:induction false} AskingGrows(c: Config, rs: seq<Running>, turns: seq<Turn>, k: nat, n: nat)
    requires c.bs > 0 && k <= n <= |rs| == |turns|
    ensures Asking(c, rs, turns, k) <= Asking(c, rs, turns, n)
  {
    if k < n { AskingGrows(c, rs, turns, k, n - 1); }
  }

  lemma {:induction false} LastAsking(c: Config, rs: seq<Running>, turns: seq<Turn>, n: nat) returns (k: nat)
    requires c.bs > 0 && n <= |rs| == |turns| && Asking(c, rs, turns, n) > 0
    ensures k < n && Asks(c, rs[k], turns[k]) && Asking(c, rs, turns, k) == Asking(c, rs, turns, n) - 1
  {
    if Asks(c, rs[n - 1], turns[n - 1]) { k := n - 1; } else { k := LastAsking(c, rs, turns, n - 1); }
  }

  /** One turn keeps a sequence sound, takes the block it asks for, reserves no more and does not raise the peak. */
  lemma DecodedKeeps(c: Config, r: Running, t: Turn)
    requires Sound(c, [r])
    ensures var d := Decoded(c, r, t);
      && Sound(c, [d]) && d.req == r.req && d.held == r.held + (if Asks(c, r, t) then 1 else 0)
      && Peak(c, d) <= Peak(c, r)
      && (r.len + 1 < Limit(c, r.req) || !t.runs ==> Peak(c, d) == Peak(c, r))
  {
    assert [r][0] == r;
    OneMoreBlock(r.len, c.bs);
    PeakBetween(c, r);
  }

  /** After n turns: nothing but the blocks asked for has changed in the sums. */
  lemma {:induction false} AdvancedKeeps(c: Config, rs: seq<Running>, turns: seq<Turn>, n: nat)
    requires Sound(c, rs) && n <= |rs| == |turns|
    ensures var ss := Advanced(c, rs, turns, n);
      && Sound(c, ss) && Held(ss) == Held(rs) + Asking(c, rs, turns, n)
      && Lives(c, ss) == Lives(c, rs) && Peaks(c, ss) <= Peaks(c, rs)
  {
    if n == 0 {
      assert Advanced(c, rs, turns, 0) == rs;
    } else {
      AdvancedKeeps(c, rs, turns, n - 1);
      var ss, r := Advanced(c, rs, turns, n - 1), Decoded(c, rs[n - 1], turns[n - 1]);
      OneAdvances(c, ss, n - 1, turns[n - 1]);
      assert Advanced(c, rs, turns, n) == ss[n - 1 := r];
    }
  }

  lemma OneAdvances(c: Config, rs: seq<Running>, i: nat, t: Turn)
    requires Sound(c, rs) && i < |rs|
    ensures var ss := rs[i := Decoded(c, rs[i], t)];
      && Sound(c, ss) && Held(ss) == Held(rs) + (if Asks(c, rs[i], t) then 1 else 0)
      && Lives(c, ss) == Lives(c, rs) && Peaks(c, ss) <= Peaks(c, rs)
  {
    DecodedKeeps(c, rs[i], t);
    var d := Decoded(c, rs[i], t);
    assert [d][0] == d;
    hide Decoded, Asks;
    SumOfUpdate(rs, i, d, HeldOf());
    SumOfUpdate(rs, i, d, LifeOf(c));
    SumOfUpdate(rs, i, d, PeakOf(c));
  }

  /** A step that misses a block was on the way to holding more than the cache. */
  lemma MissNeedsPeaks(c: Config, rs: seq<Running>, turns: seq<Turn>)
    requires Sound(c, rs) && Misses(c, rs, turns)
    ensures Peaks(c, rs) > c.total
  {
    ReachedIs(c, rs, turns, 0);
    var k := Reached(c, rs, turns, 0);
    AdvancedKeeps(c, rs, turns, k);
    var ss := Advanced(c, rs, turns, k);
    assert ss[k] == rs[k];
    PeaksBetween(c, ss);
  }

  /** The next turn of a step: what it does to the list, what is free for it, and whether the step ends here. */
  lemma TurnNext(c: Config, rs: seq<Running>, turns: seq<Turn>, i: nat)
    requires Sound(c, rs) && i < |rs| == |turns|
    ensures var ss := Advanced(c, rs, turns, i);
      && |ss| == |rs| && ss[i] == rs[i] && Advanced(c, rs, turns, i + 1) == ss[i := Decoded(c, rs[i], turns[i])]
      && Reached(c, rs, turns, i) ==
        (if Asks(c, rs[i], turns[i]) && c.total - Held(ss) <= 0 then i else Reached(c, rs, turns, i + 1))
  {
    AdvancedKeeps(c, rs, turns, i);
    var ss := Advanced(c, rs, turns, i);
    assert Advanced(c, rs, turns, i + 1) == ss[i := Decoded(c, rs[i], turns[i])];
  }

  // ---- admission passes on values -----------------------------------------------------------------------

  /** The wrapper's two cells after i calls: the headroom left, and whether nothing runs or was granted yet. */
  ghost function Cells(c: Config, waiting: seq<seq<Request>>, stock: seq<AllocStatus>, h: int, idle: bool,
                       i: nat): (int, bool)
    requires c.bs > 0 && i <= |waiting| == |stock|
  {
    if i == 0 then (h, idle)
    else
      var cells := Cells(c, waiting, stock, h, idle, i - 1);
      NextCells(c, waiting[i - 1], Answer(c, waiting[i - 1], stock[i - 1], cells), cells)
  }

  /** A grant uses headroom, and from then on something counts as running. */
  function NextCells(c: Config, group: seq<Request>, status: AllocStatus, cells: (int, bool)): (int, bool)
    requires c.bs > 0
  {
    if status == Ok then (cells.0 - Need(c, group), false) else cells
  }

  /** The sequences a group adds when it is granted and taken. */
  function Joining(c: Config, group: seq<Request>, status: AllocStatus, take: bool): seq<Running>
    requires c.bs > 0
  {
    if status == Ok && take then Started(c, group) else []
  }

  /** Grant what the stock allocator grants, if the lifetime fits the headroom or nothing runs. */
  function Answer(c: Config, group: seq<Request>, stock: AllocStatus, cells: (int, bool)): AllocStatus
    requires c.bs > 0
  {
    if stock == Ok && Need(c, group) > cells.0 && !cells.1 then Later else stock
  }

  ghost predicate Answered(c: Config, waiting: seq<seq<Request>>, stock: seq<AllocStatus>, h: int, idle: bool,
                           statuses: seq<AllocStatus>)
    requires c.bs > 0 && |waiting| == |stock|
  {
    |statuses| <= |stock| &&
    forall i :: 0 <= i < |statuses| ==>
      statuses[i] == Answer(c, waiting[i], stock[i], Cells(c, waiting, stock, h, idle, i))
  }

  /** The granted lifetimes among the first i groups. */
  ghost function Granted(c: Config, waiting: seq<seq<Request>>, statuses: seq<AllocStatus>, i: nat): nat
    requires c.bs > 0 && i <= |statuses| <= |waiting|
  {
    if i == 0 then 0
    else Granted(c, waiting, statuses, i - 1) + (if statuses[i - 1] == Ok then Need(c, waiting[i - 1]) else 0)
  }

  /** None of the first i groups was granted. */
  ghost predicate NoneGranted(statuses: seq<AllocStatus>, i: nat)
    requires i <= |statuses|
  {
    i == 0 || (statuses[i - 1] != Ok && NoneGranted(statuses, i - 1))
  }

  /** The headroom cell is the first headroom minus everything granted; the other is the idle start until a grant. */
  lemma {:induction false} CellsMean(c: Config, waiting: seq<seq<Request>>, stock: seq<AllocStatus>, h: int, idle: bool,
                                     statuses: seq<AllocStatus>, i: nat)
    requires c.bs > 0 && |waiting| == |stock| && Answered(c, waiting, stock, h, idle, statuses) && i <= |statuses|
    ensures Cells(c, waiting, stock, h, idle, i) ==
      (h - Granted(c, waiting, statuses, i), idle && NoneGranted(statuses, i))
  {
    hide Answer, Answered, Need;
    if i > 0 {
      CellsMean(c, waiting, stock, h, idle, statuses, i - 1);
      AnsweredAt(c, waiting, stock, h, idle, statuses, i - 1);
    }
  }

  lemma AnsweredAt(c: Config, waiting: seq<seq<Request>>, stock: seq<AllocStatus>, h: int, idle: bool,
                   statuses: seq<AllocStatus>, i: nat)
    requires c.bs > 0 && |waiting| == |stock| && Answered(c, waiting, stock, h, idle, statuses) && i < |statuses|
    ensures statuses[i] == Answer(c, waiting[i], stock[i], Cells(c, waiting, stock, h, idle, i))
  {
    hide Answer, Cells;
  }

  lemma AnsweredStep(c: Config, waiting: seq<seq<Request>>, stock: seq<AllocStatus>, h: int, idle: bool,
                     statuses: seq<AllocStatus>, status: AllocStatus)
    requires c.bs > 0 && |waiting| == |stock| && Answered(c, waiting, stock, h, idle, statuses) && |statuses| < |stock|
    requires status == Answer(c, waiting[|statuses|], stock[|statuses|], Cells(c, waiting, stock, h, idle, |statuses|))
    ensures Answered(c, waiting, stock, h, idle, statuses + [status])
  {
    hide Cells, Answer;
  }

  /** The sequences of the groups that were granted and then taken. */
  ghost function Taken(c: Config, waiting: seq<seq<Request>>, statuses: seq<AllocStatus>,
                       takes: seq<bool>): seq<Running>
    requires c.bs > 0 && |statuses| == |takes| == |waiting|
  {
    if waiting == [] then []
    else
      var n := |waiting| - 1;
      Taken(c, waiting[..n], statuses[..n], takes[..n]) + Joining(c, waiting[n], statuses[n], takes[n])
  }

  lemma TakenStep(c: Config, waiting: seq<seq<Request>>, statuses: seq<AllocStatus>, takes: seq<bool>,
                  status: AllocStatus)
    requires c.bs > 0 && |statuses| < |waiting| == |takes|
    ensures var n := |statuses|;
      Taken(c, waiting[..n + 1], statuses + [status], takes[..n + 1]) ==
        Taken(c, waiting[..n], statuses, takes[..n]) + Joining(c, waiting[n], status, takes[n])
  {
    var n := |statuses|;
    assert waiting[..n + 1][..n] == waiting[..n] && takes[..n + 1][..n] == takes[..n];
    assert (statuses + [status])[..n] == statuses;
  }
}
