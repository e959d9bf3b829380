/**
 KV-aware admission: a request is let in only when the free blocks, minus the growth still owed to the
 running sequences, cover its whole lifetime.
 */
module KvAdmission {
  import opened Arithmetic
  import opened Common
  import opened KvAccounting
  import opened KvRuns

  class Admission {
    const c: Config
    var running: seq<Running>
    var free: int   // free GPU blocks

    ghost predicate Valid()
      reads this
    {
      free + Held(running) == c.total && Sound(c, running)
    }

    constructor (c: Config)
      requires c.bs > 0
      ensures Valid() && running == [] && this.c == c
    {
      this.c, running, free := c, [], c.total;
    }

    /** Free blocks minus the growth still owed to the running sequences. */
    method Headroom() returns (h: int)
      requires c.bs > 0
      ensures h == free - Owed(c, running)
    {
      var owed, i := 0, 0;
      assert running[..0] == [];
      while i < |running|
        invariant 0 <= i <= |running| && owed == Owed(c, running[..i])
      {
        assert running[..i + 1][..i] == running[..i];
        owed := owed + Growth(c, running[i]);
        i := i + 1;
      }
      assert running[..|running|] == running;
      h := free - owed;
    }

    /** The lifetimes of a group's sequences: without max_tokens a sequence may grow to the model's maximum length. */
    method LifetimeOf(group: seq<Request>) returns (need: nat)
      requires c.bs > 0
      ensures need == Need(c, group)
    {
      need := 0;
      assert group[..0] == [];
      for i := 0 to |group|
        invariant need == Need(c, group[..i])
      {
        assert group[..i + 1][..i] == group[..i];
        var most := if group[i].maxTokens.Some? then group[i].prompt + group[i].maxTokens.value else c.maxModelLen;
        need := need + CeilDiv(most, c.bs);
      }
      assert group[..|group|] == group;
    }

    /** The wrapped can_allocate: the stock answer stands unless it is Ok and the lifetime does not fit. */
    method CanAllocate(stock: AllocStatus, group: seq<Request>, headroom: int, nothing: bool)
      returns (status: AllocStatus, headroom': int, nothing': bool)
      requires c.bs > 0
      ensures var grant := stock == Ok && (Need(c, group) <= headroom || nothing);
        && status == (if stock != Ok || grant then stock else Later)
        && headroom' == (if grant then headroom - Need(c, group) else headroom)
        && nothing' == (nothing && !grant)
      ensures |group| == 1 && stock == Ok && !nothing ==>
        var most := match group[0].maxTokens case None => c.maxModelLen case Some(n) => group[0].prompt + n;
        (status == Ok <==> CeilDiv(most, c.bs) <= headroom)
    {
      assert |group| == 1 ==> group[..0] == [];
      status, headroom', nothing' := stock, headroom, nothing;
      if status != Ok { return; }
      var need := LifetimeOf(group);
      if need > headroom && !nothing {
        status := Later;
        return;
      }
      headroom', nothing' := headroom - need, false;
    }

    /** The base scheduler takes a granted group: its prompts go into the cache. */
    method Start(group: seq<Request>)
      requires Valid() && Acceptable(c, group)
      modifies this
      ensures Valid() && running == old(running) + Started(c, group)
      ensures Lives(c, running) == old(Lives(c, running)) + Need(c, group)
      ensures Lives(c, running) <= c.total ==> free >= 0
    {
      var started := Started(c, group);
      StartedLives(c, group);
      SumOfAppend(running, started, LifeOf(c));
      SumOfAppend(running, started, HeldOf());
      running := running + started;
      PeaksBetween(c, running);
      free := free - Held(started);
    }

    /** One waiting group: asked for, and taken if the base scheduler goes on with it. */
    method Offer(stock: AllocStatus, group: seq<Request>, take: bool, headroom: int, nothing: bool)
      returns (status: AllocStatus, headroom': int, nothing': bool)
      requires Valid() && Acceptable(c, group)
      modifies this
      ensures Valid() && status == Answer(c, group, stock, (headroom, nothing))
      ensures running == old(running) + Joining(c, group, status, take)
      ensures (headroom', nothing') == NextCells(c, group, status, (headroom, nothing))
    {
      status, headroom', nothing' := CanAllocate(stock, group, headroom, nothing);
      if status == Ok && take { Start(group); }
    }

    /**
     One admission pass.  For each waiting group in turn: what the stock allocator answers, and whether the
     base scheduler then really takes a granted group.
     */
    method SchedulePrefills(waiting: seq<seq<Request>>, stock: seq<AllocStatus>, takes: seq<bool>)
      returns (statuses: seq<AllocStatus>)
      requires Valid() && Admit(waiting, stock, takes).WellFormed(c)
      modifies this
      ensures Valid() && statuses == Answers(c, old(running), waiting, stock)
      ensures running == old(running) + Taken(c, waiting, statuses, takes)
    {
      hide Acceptable, PassState, Answered, Answer, NextCells, Joining, Taken, Cells, Admission.Valid;
      var headroom, nothing := OpenCells();
      ghost var h, idle, taken := headroom, nothing, [];
      statuses := [];
      PassBegin(c, waiting, stock, takes, h, idle);
      while |statuses| < |waiting|
        invariant |statuses| <= |waiting| && Valid() && running == old(running) + taken
        invariant PassState(c, waiting, stock, takes, h, idle, statuses, (headroom, nothing), taken)
      {
        var i := |statuses|;
        PassBounds(c, waiting, stock, takes, h, idle, statuses, (headroom, nothing), taken);
        PassIndex(c, waiting, stock, takes, h, idle, statuses, (headroom, nothing), taken, i,
                  Answer(c, waiting[i], stock[i], (headroom, nothing)));
        var status;
        status, headroom, nothing := Offer(stock[i], waiting[i], takes[i], headroom, nothing);
        ghost var more := Joining(c, waiting[i], status, takes[i]);
        Regroup(old(running), taken, more);
        taken := taken + more;
        statuses := statuses + [status];
      }
      PassEnd(c, waiting, stock, takes, h, idle, statuses, (headroom, nothing), taken);
      AnswersAre(c, old(running), waiting, stock, statuses);
    }

    /** The cells at the start of a pass. */
    method OpenCells() returns (headroom: int, nothing: bool)
      requires Valid()
      ensures (headroom, nothing) == Open(c, running)
    {
      OwedIs(c, running);
      headroom := Headroom();
      nothing := running == [];
    }

    /** append_slot: the block for a sequence's last token, if it does not have it yet.  False if there is none. */
    method AppendSlot(i: nat) returns (found: bool)
      requires Valid() && i < |running| && running[i].len < Limit(c, running[i].req)
      modifies this
      ensures Valid() && (found <==> !Wants(c, old(running)[i]) || old(free) > 0)
      ensures running == if found then old(running)[i := Slotted(c, old(running)[i])] else old(running)
    {
      var r := running[i];
      OneAdvances(c, running, i, Turn(true, false));
      if Wants(c, r) {
        if free <= 0 { return false; }
        free := free - 1;
      }
      running := running[i := Slotted(c, r)];
      found := true;
    }

    /** A sequence that has its slot produces a token. */
    method AppendToken(i: nat)
      requires Valid() && i < |running| && running[i].len < Limit(c, running[i].req) && !Wants(c, running[i])
      modifies this`running
      ensures Valid() && running == old(running)[i := Longer(old(running)[i])]
    {
      OneAdvances(c, running, i, Turn(true, true));
      assert Slotted(c, running[i]) == running[i];
      running := running[i := Longer(running[i])];
    }

    method TakeTurn(i: nat, t: Turn) returns (found: bool)
      requires Valid() && i < |running|
      modifies this
      ensures Valid() && (found <==> !Asks(c, old(running)[i], t) || old(free) > 0)
      ensures running == if found then old(running)[i := Decoded(c, old(running)[i], t)] else old(running)
      ensures found && t.slot && t.runs ==>
        var r := old(running)[i];
        var most := match r.req.maxTokens case None => c.maxModelLen case Some(n) => r.req.prompt + n;
        running[i].len == r.len + (if r.len < most then 1 else 0)
    {
      hide Admission.Valid;
      found := true;
      if t.slot && running[i].len < Limit(c, running[i].req) {
        found := AppendSlot(i);
        if found && t.runs { AppendToken(i); }
      }
    }

    /** One decode step over the running list; it stops at a sequence that finds no block. */
    method DecodeStep(turns: seq<Turn>) returns (preempted: bool)
      requires Valid() && |turns| == |running|
      modifies this
      ensures Valid() && (preempted <==> Misses(c, old(running), turns))
      ensures running == After(c, old(running), Decode(turns))
    {
      ghost var rs := running;
      var i := 0;
      assert Advanced(c, rs, turns, 0) == rs;
      while i < |running|
        invariant 0 <= i <= |running| == |turns| && Valid() && running == Advanced(c, rs, turns, i)
        invariant Reached(c, rs, turns, 0) == Reached(c, rs, turns, i)
      {
        hide Admission.Valid, Asks, Decoded;
        TurnNext(c, rs, turns, i);
        assert Valid();
        var found := TakeTurn(i, turns[i]);
        if !found { return true; }
        i := i + 1;
      }
      preempted := false;
    }

    /** A finished, aborted or preempted sequence gives its blocks back. */
    method Finish(i: nat)
      requires Valid() && i < |running|
      modifies this
      ensures Valid() && running == old(running)[..i] + old(running)[i + 1..]
      ensures free == old(free) + old(running)[i].held
    {
      SumOfAround(running, i, HeldOf());
      free := free + running[i].held;
      running := running[..i] + running[i + 1..];
    }

    method Handle(e: Event) returns (missed: bool)
      requires Valid() && e.WellFormed(c)
      modifies this
      ensures Valid() && running == After(c, old(running), e)
      ensures missed <==> e.Decode? && Misses(c, old(running), e.turns)
    {
      hide Admission.Valid, Taken, Answers, Advanced, Reached, Acceptable;
      missed := false;
      match e {
        case Admit(waiting, stock, takes) => var _ := SchedulePrefills(waiting, stock, takes);
        case Decode(turns) => if |turns| == |running| { missed := DecodeStep(turns); }
        case Finished(i) => if i < |running| { Finish(i); }
      }
    }

    /** Any run of admission passes, decode steps and finishes is the run on values. */
    method Serve(events: seq<Event>) returns (preempted: bool)
      requires Valid() && AllWellFormed(c, events)
      modifies this
      ensures Valid() && running == Run(c, old(running), events, |events|)
      ensures preempted <==> MissesBefore(c, old(running), events, |events|)
    {
      hide Admission.Valid, After, MissesBefore, Run, Misses;
      ghost var rs := running;
      preempted := false;
      var n := 0;
      RunNext(c, rs, events, 0);
      while n < |events|
        invariant 0 <= n <= |events| && Valid() && running == Run(c, rs, events, n)
        invariant preempted <==> MissesBefore(c, rs, events, n)
      {
        RunNext(c, rs, events, n);
        var missed := Handle(events[n]);
        preempted := preempted || missed;
        n := n + 1;
      }
    }
  }

  lemma Regroup(rs: seq<Running>, some: seq<Running>, more: seq<Running>)
    ensures (rs + some) + more == rs + (some + more)
  {
  }

  /** A pass after |statuses| groups: the answers given, the cells, and the sequences taken. */
  ghost predicate PassState(c: Config, waiting: seq<seq<Request>>, stock: seq<AllocStatus>, takes: seq<bool>, h: int,
                            idle: bool, statuses: seq<AllocStatus>, cells: (int, bool), taken: seq<Running>)
  {
    && c.bs > 0 && |waiting| == |stock| == |takes| && Answered(c, waiting, stock, h, idle, statuses)
    && cells == Cells(c, waiting, stock, h, idle, |statuses|)
    && taken == Taken(c, waiting[..|statuses|], statuses, takes[..|statuses|])
  }

  lemma PassBegin(c: Config, waiting: seq<seq<Request>>, stock: seq<AllocStatus>, takes: seq<bool>, h: int, idle: bool)
    requires c.bs > 0 && |waiting| == |stock| == |takes|
    ensures PassState(c, waiting, stock, takes, h, idle, [], (h, idle), [])
  {
  }

  lemma PassEnd(c: Config, waiting: seq<seq<Request>>, stock: seq<AllocStatus>, takes: seq<bool>, h: int, idle: bool,
                statuses: seq<AllocStatus>, cells: (int, bool), taken: seq<Running>)
    requires PassState(c, waiting, stock, takes, h, idle, statuses, cells, taken) && |statuses| == |waiting|
    ensures Answered(c, waiting, stock, h, idle, statuses) && taken == Taken(c, waiting, statuses, takes)
  {
    hide Answered, Taken;
    assert waiting[..|waiting|] == waiting && takes[..|takes|] == takes;
  }

  lemma PassBounds(c: Config, waiting: seq<seq<Request>>, stock: seq<AllocStatus>, takes: seq<bool>, h: int, idle: bool,
                   statuses: seq<AllocStatus>, cells: (int, bool), taken: seq<Running>)
    requires PassState(c, waiting, stock, takes, h, idle, statuses, cells, taken)
    ensures c.bs > 0 && |waiting| == |stock| == |takes|
  {
  }

  /** The next group. */
  lemma PassIndex(c: Config, waiting: seq<seq<Request>>, stock: seq<AllocStatus>, takes: seq<bool>, h: int, idle: bool,
                  statuses: seq<AllocStatus>, cells: (int, bool), taken: seq<Running>, i: nat, status: AllocStatus)
    requires PassState(c, waiting, stock, takes, h, idle, statuses, cells, taken) && i == |statuses| < |waiting|
    requires status == Answer(c, waiting[i], stock[i], cells)
    ensures PassState(c, waiting, stock, takes, h, idle, statuses + [status],
                      NextCells(c, waiting[i], status, cells), taken + Joining(c, waiting[i], status, takes[i]))
  {
    hide Taken, Answer, NextCells, Joining, Answered;
    TakenStep(c, waiting, statuses, takes, status);
    AnsweredStep(c, waiting, stock, h, idle, statuses, status);
    assert |statuses + [status]| == i + 1;
  }

  lemma AnswersAre(c: Config, rs: seq<Running>, waiting: seq<seq<Request>>, stock: seq<AllocStatus>,
                   statuses: seq<AllocStatus>)
    requires c.bs > 0 && |stock| == |waiting| == |statuses|
    requires Answered(c, waiting, stock, Open(c, rs).0, Open(c, rs).1, statuses)
    ensures statuses == Answers(c, rs, waiting, stock)
  {
    hide Answer, Cells, Open;
  }
}
