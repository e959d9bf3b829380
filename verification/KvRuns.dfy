/**
 Runs of admission passes, decode steps and finishes: how far the reserved lifetimes can exceed the cache, and
 when a running batch can outgrow it.
 */
module KvRuns {
  import opened Arithmetic
  import opened Common
  import opened KvAccounting

  // ---- runs -------------------------------------------------------------------------------------------------

  datatype Event =
    | Admit(waiting: seq<seq<Request>>, stock: seq<AllocStatus>, takes: seq<bool>)
    | Decode(turns: seq<Turn>)
    | Finished(i: nat)
  {
    ghost predicate WellFormed(c: Config) {
      c.bs > 0
      && (Admit? ==> |stock| == |takes| == |waiting| && forall i :: 0 <= i < |waiting| ==> Acceptable(c, waiting[i]))
    }
  }

  /** Each group alone fits the cache; an idle engine lets any group in. */
  ghost predicate EachFits(c: Config, e: Event)
    requires c.bs > 0
  {
    e.Admit? ==> forall i :: 0 <= i < |e.waiting| ==> Need(c, e.waiting[i]) <= c.total
  }

  ghost predicate AllWellFormed(c: Config, events: seq<Event>) {
    c.bs > 0 && forall n :: 0 <= n < |events| ==> events[n].WellFormed(c)
  }

  /** The headroom when a pass begins, and whether nothing runs. */
  ghost function Open(c: Config, rs: seq<Running>): (int, bool)
    requires c.bs > 0
  {
    (c.total - Lives(c, rs) + Lag(c, rs), rs == [])
  }

  /** The answers of a pass. */
  ghost function Answers(c: Config, rs: seq<Running>, waiting: seq<seq<Request>>,
                         stock: seq<AllocStatus>): seq<AllocStatus>
    requires c.bs > 0 && |stock| == |waiting|
  {
    seq(|waiting|, i requires 0 <= i < |waiting| =>
      Answer(c, waiting[i], stock[i], Cells(c, waiting, stock, Open(c, rs).0, Open(c, rs).1, i)))
  }

  ghost function After(c: Config, rs: seq<Running>, e: Event): seq<Running>
    requires e.WellFormed(c)
  {
    match e
    case Admit(waiting, stock, takes) => rs + Taken(c, waiting, Answers(c, rs, waiting, stock), takes)
    case Decode(turns) => if |turns| == |rs| then Advanced(c, rs, turns, Reached(c, rs, turns, 0)) else rs
    case Finished(i) => if i < |rs| then rs[..i] + rs[i + 1..] else rs
  }

  /** The running list after n events. */
  ghost function Run(c: Config, rs: seq<Running>, events: seq<Event>, n: nat): seq<Running>
    requires AllWellFormed(c, events) && n <= |events|
  {
    if n == 0 then rs else After(c, Run(c, rs, events, n - 1), events[n - 1])
  }

  ghost predicate Grants(c: Config, rs: seq<Running>, e: Event)
    requires e.WellFormed(c)
  {
    e.Admit? && Ok in Answers(c, rs, e.waiting, e.stock)
  }

  ghost predicate MissesAt(c: Config, rs: seq<Running>, events: seq<Event>, n: nat)
    requires AllWellFormed(c, events) && n < |events|
  {
    events[n].Decode? && Misses(c, Run(c, rs, events, n), events[n].turns)
  }

  ghost predicate MissesBefore(c: Config, rs: seq<Running>, events: seq<Event>, n: nat)
    requires AllWellFormed(c, events) && n <= |events|
  {
    exists k :: 0 <= k < n && MissesAt(c, rs, events, k)
  }

  lemma RunNext(c: Config, rs: seq<Running>, events: seq<Event>, n: nat)
    requires AllWellFormed(c, events) && n <= |events|
    ensures Run(c, rs, events, 0) == rs && !MissesBefore(c, rs, events, 0)
    ensures n < |events| ==>
      && Run(c, rs, events, n + 1) == After(c, Run(c, rs, events, n), events[n])
      && (MissesBefore(c, rs, events, n + 1) <==> MissesBefore(c, rs, events, n) || MissesAt(c, rs, events, n))
  {
    hide MissesAt;
  }

  /** The lag at the last pass that granted something, 0 before the first. */
  ghost function LastLag(c: Config, rs: seq<Running>, events: seq<Event>, n: nat): int
    requires AllWellFormed(c, events) && n <= |events|
  {
    if n == 0 then 0
    else if Grants(c, Run(c, rs, events, n - 1), events[n - 1]) then Lag(c, Run(c, rs, events, n - 1))
    else LastLag(c, rs, events, n - 1)
  }

  /** What is granted fits the headroom the pass began with. */
  lemma {:induction false} GrantedFits(c: Config, waiting: seq<seq<Request>>, stock: seq<AllocStatus>, h: int,
                                       idle: bool, statuses: seq<AllocStatus>, i: nat)
    requires c.bs > 0 && |waiting| == |stock| && Answered(c, waiting, stock, h, idle, statuses)
    requires i <= |statuses| <= |waiting|
    requires idle ==> forall k :: 0 <= k < |waiting| ==> Need(c, waiting[k]) <= h
    ensures if NoneGranted(statuses, i) then Granted(c, waiting, statuses, i) == 0
            else Granted(c, waiting, statuses, i) <= h
  {
    hide Answered, Need, Cells, Answer;
    if i > 0 {
      GrantedFits(c, waiting, stock, h, idle, statuses, i - 1);
      AnsweredAt(c, waiting, stock, h, idle, statuses, i - 1);
      CellsMean(c, waiting, stock, h, idle, statuses, i - 1);
      OneGrant(c, waiting[i - 1], stock[i - 1], h, Granted(c, waiting, statuses, i - 1), idle,
               NoneGranted(statuses, i - 1));
    }
  }

  /** One more grant still fits: it was within what is left, or the first on an idle engine. */
  lemma OneGrant(c: Config, group: seq<Request>, stock: AllocStatus, h: int, granted: int, idle: bool, none: bool)
    requires c.bs > 0 && (idle ==> Need(c, group) <= h) && (none ==> granted == 0) && (!none ==> granted <= h)
    ensures Answer(c, group, stock, (h - granted, idle && none)) == Ok ==> granted + Need(c, group) <= h
  {
    hide Need;
  }

  /** The base scheduler takes no more than was granted. */
  lemma {:induction false} TakenLives(c: Config, waiting: seq<seq<Request>>, statuses: seq<AllocStatus>,
                                      takes: seq<bool>, i: nat)
    requires c.bs > 0 && |statuses| == |takes| == |waiting| && i <= |waiting|
    requires forall k :: 0 <= k < |waiting| ==> Acceptable(c, waiting[k])
    ensures var more := Taken(c, waiting[..i], statuses[..i], takes[..i]);
      Sound(c, more) && Lives(c, more) <= Granted(c, waiting, statuses, i)
  {
    if i > 0 {
      TakenLives(c, waiting, statuses, takes, i - 1);
      TakenLivesNext(c, waiting, statuses, takes, i - 1);
    }
  }

  lemma TakenLivesNext(c: Config, waiting: seq<seq<Request>>, statuses: seq<AllocStatus>, takes: seq<bool>, i: nat)
    requires c.bs > 0 && |statuses| == |takes| == |waiting| && i < |waiting| && Acceptable(c, waiting[i])
    requires Sound(c, Taken(c, waiting[..i], statuses[..i], takes[..i]))
    requires Lives(c, Taken(c, waiting[..i], statuses[..i], takes[..i])) <= Granted(c, waiting, statuses, i)
    ensures Sound(c, Taken(c, waiting[..i + 1], statuses[..i + 1], takes[..i + 1]))
    ensures Lives(c, Taken(c, waiting[..i + 1], statuses[..i + 1], takes[..i + 1])) <=
      Granted(c, waiting, statuses, i + 1)
  {
    hide Taken, Joining, Lives, Sound, Acceptable, Need;
    TakenNext(c, waiting, statuses, takes, i);
    JoiningLives(c, waiting[i], statuses[i], takes[i]);
    LivesOfJoin(c, Taken(c, waiting[..i], statuses[..i], takes[..i]), Joining(c, waiting[i], statuses[i], takes[i]));
  }

  lemma LivesOfJoin(c: Config, rs: seq<Running>, more: seq<Running>)
    requires Sound(c, rs) && Sound(c, more)
    ensures Sound(c, rs + more) && Lives(c, rs + more) == Lives(c, rs) + Lives(c, more)
  {
    SumOfAppend(rs, more, LifeOf(c));
  }

  lemma JoiningLives(c: Config, group: seq<Request>, status: AllocStatus, take: bool)
    requires c.bs > 0 && Acceptable(c, group)
    ensures Sound(c, Joining(c, group, status, take))
    ensures 0 <= Lives(c, Joining(c, group, status, take)) <= if status == Ok then Need(c, group) else 0
  {
    StartedLives(c, group);
  }

  lemma TakenNext(c: Config, waiting: seq<seq<Request>>, statuses: seq<AllocStatus>, takes: seq<bool>, i: nat)
    requires c.bs > 0 && |statuses| == |takes| == |waiting| && i < |waiting|
    ensures Taken(c, waiting[..i + 1], statuses[..i + 1], takes[..i + 1]) ==
      Taken(c, waiting[..i], statuses[..i], takes[..i]) + Joining(c, waiting[i], statuses[i], takes[i])
  {
    assert statuses[..i + 1] == statuses[..i] + [statuses[i]];
    TakenStep(c, waiting, statuses[..i], takes, statuses[i]);
  }

  lemma AnswersAnswered(c: Config, rs: seq<Running>, waiting: seq<seq<Request>>, stock: seq<AllocStatus>)
    requires c.bs > 0 && |stock| == |waiting|
    ensures |Answers(c, rs, waiting, stock)| == |waiting|
    ensures Answered(c, waiting, stock, Open(c, rs).0, Open(c, rs).1, Answers(c, rs, waiting, stock))
  {
    hide Answer, Cells, Open;
  }

  lemma {:induction false} NoneGrantedIs(statuses: seq<AllocStatus>, i: nat)
    requires i <= |statuses|
    ensures NoneGranted(statuses, i) <==> Ok !in statuses[..i]
  {
    if i > 0 {
      NoneGrantedIs(statuses, i - 1);
      assert statuses[..i] == statuses[..i - 1] + [statuses[i - 1]];
    }
  }

  /** The groups of a pass fit an idle engine one by one. */
  lemma OpenFits(c: Config, rs: seq<Running>, waiting: seq<seq<Request>>)
    requires c.bs > 0 && forall i :: 0 <= i < |waiting| ==> Need(c, waiting[i]) <= c.total
    ensures Open(c, rs).1 ==> forall k :: 0 <= k < |waiting| ==> Need(c, waiting[k]) <= Open(c, rs).0
  {
  }

  /** A pass that grants leaves the lifetimes within the cache and the lag it found; any other pass changes nothing. */
  lemma PassKeeps(c: Config, rs: seq<Running>, e: Event)
    requires e.WellFormed(c) && e.Admit? && Sound(c, rs) && EachFits(c, e)
    ensures Sound(c, After(c, rs, e))
    ensures if Grants(c, rs, e) then Lives(c, After(c, rs, e)) <= c.total + Lag(c, rs)
            else Lives(c, After(c, rs, e)) <= Lives(c, rs)
  {
    hide Answers, Answered, Taken, Granted, Sound, Lives, Lag, Acceptable, Need, NoneGranted;
    var statuses, n := Answers(c, rs, e.waiting, e.stock), |e.waiting|;
    AnswersAnswered(c, rs, e.waiting, e.stock);
    OpenFits(c, rs, e.waiting);
    GrantedFits(c, e.waiting, e.stock, Open(c, rs).0, Open(c, rs).1, statuses, n);
    NoneGrantedIs(statuses, n);
    TakenLives(c, e.waiting, statuses, e.takes, n);
    assert e.waiting[..n] == e.waiting && statuses[..n] == statuses && e.takes[..n] == e.takes;
    LivesOfJoin(c, rs, Taken(c, e.waiting, statuses, e.takes));
  }

  /** Decode steps and finishes reserve nothing new and raise no peak. */
  lemma StepKeeps(c: Config, rs: seq<Running>, e: Event)
    requires e.WellFormed(c) && !e.Admit? && Sound(c, rs)
    ensures var ss := After(c, rs, e); Sound(c, ss) && Lives(c, ss) <= Lives(c, rs) && Peaks(c, ss) <= Peaks(c, rs)
  {
    hide Sound, Peaks, Lives, Advanced, Reached;
    if e.Decode? && |e.turns| == |rs| {
      AdvancedKeeps(c, rs, e.turns, Reached(c, rs, e.turns, 0));
    } else if e.Finished? && e.i < |rs| {
      FinishKeeps(c, rs, e.i);
    }
  }

  lemma FinishKeeps(c: Config, rs: seq<Running>, i: nat)
    requires Sound(c, rs) && i < |rs|
    ensures var ss := rs[..i] + rs[i + 1..];
      Sound(c, ss) && Lives(c, ss) <= Lives(c, rs) && Peaks(c, ss) <= Peaks(c, rs)
  {
    SumOfAround(rs, i, LifeOf(c));
    SumOfAround(rs, i, PeakOf(c));
  }

  /**
   Over every run from an empty engine, or from one whose lifetimes fit: the reserved lifetimes never exceed the
   cache by more than the lag the last granting pass found.
   */
  lemma {:induction false} ReservedWithinLag(c: Config, rs: seq<Running>, events: seq<Event>, n: nat)
    requires AllWellFormed(c, events) && n <= |events| && Sound(c, rs) && Lives(c, rs) <= c.total
    requires forall k :: 0 <= k < n ==> EachFits(c, events[k])
    ensures Sound(c, Run(c, rs, events, n)) && Lives(c, Run(c, rs, events, n)) <= c.total + LastLag(c, rs, events, n)
  {
    if n > 0 {
      ReservedWithinLag(c, rs, events, n - 1);
      hide Sound, After, Lives, Lag, Grants;
      if events[n - 1].Admit? {
        PassKeeps(c, Run(c, rs, events, n - 1), events[n - 1]);
      } else {
        StepKeeps(c, Run(c, rs, events, n - 1), events[n - 1]);
        NoGrant(c, Run(c, rs, events, n - 1), events[n - 1]);
      }
    }
  }

  lemma NoGrant(c: Config, rs: seq<Running>, e: Event)
    requires e.WellFormed(c) && !e.Admit?
    ensures !Grants(c, rs, e)
  {
  }

  /** A run in which every granting pass finds nobody behind never misses a block, so nothing is recomputed. */
  lemma NoLagNoMiss(c: Config, rs: seq<Running>, events: seq<Event>, n: nat)
    requires AllWellFormed(c, events) && n < |events| && Sound(c, rs) && Lives(c, rs) <= c.total
    requires forall k :: 0 <= k < n ==> EachFits(c, events[k])
    requires forall k :: 0 <= k < n && Grants(c, Run(c, rs, events, k), events[k]) ==>
      Lag(c, Run(c, rs, events, k)) == 0
    ensures !MissesAt(c, rs, events, n)
  {
    ReservedWithinLag(c, rs, events, n);
    NoLastLag(c, rs, events, n);
    if MissesAt(c, rs, events, n) {
      MissNeedsPeaks(c, Run(c, rs, events, n), events[n].turns);
      PeaksBetween(c, Run(c, rs, events, n));
      assert false;
    }
  }

  lemma {:induction false} NoLastLag(c: Config, rs: seq<Running>, events: seq<Event>, n: nat)
    requires AllWellFormed(c, events) && n <= |events|
    requires forall k :: 0 <= k < n && Grants(c, Run(c, rs, events, k), events[k]) ==>
      Lag(c, Run(c, rs, events, k)) == 0
    ensures LastLag(c, rs, events, n) == 0
  {
    hide Grants, Lag, Run, AllWellFormed;
    if n > 0 { NoLastLag(c, rs, events, n - 1); }
  }

  ghost predicate NoAdmit(events: seq<Event>) { forall e :: e in events ==> !e.Admit? }

  /** Some run without admissions misses a block. */
  ghost predicate CanMiss(c: Config, rs: seq<Running>) {
    exists events :: AllWellFormed(c, events) && NoAdmit(events) && events != []
      && MissesAt(c, rs, events, |events| - 1)
  }

  /** The running sequences always have room to finish if and only if their peaks fit the cache together. */
  lemma RoomToFinishIff(c: Config, rs: seq<Running>)
    requires Sound(c, rs) && Held(rs) <= c.total
    ensures !CanMiss(c, rs) <==> Peaks(c, rs) <= c.total
  {
    if Peaks(c, rs) > c.total { var _ := Outgrows(c, rs); }
    forall events: seq<Event> | AllWellFormed(c, events) && NoAdmit(events) && events != []
      && MissesAt(c, rs, events, |events| - 1)
      ensures Peaks(c, rs) > c.total
    {
      RunKeepsPeaks(c, rs, events, |events| - 1);
      MissNeedsPeaks(c, Run(c, rs, events, |events| - 1), events[|events| - 1].turns);
    }
  }

  lemma {:induction false} RunKeepsPeaks(c: Config, rs: seq<Running>, events: seq<Event>, n: nat)
    requires AllWellFormed(c, events) && NoAdmit(events) && n <= |events| && Sound(c, rs)
    ensures Sound(c, Run(c, rs, events, n)) && Peaks(c, Run(c, rs, events, n)) <= Peaks(c, rs)
  {
    if n > 0 {
      RunKeepsPeaks(c, rs, events, n - 1);
      assert events[n - 1] in events;
      StepKeeps(c, Run(c, rs, events, n - 1), events[n - 1]);
    }
  }

  /** Everybody gets a slot and runs, up to the last token. */
  ghost function Onward(c: Config, rs: seq<Running>): (turns: seq<Turn>)
    ensures |turns| == |rs|
  {
    seq(|rs|, i requires 0 <= i < |rs| => Turn(true, rs[i].len + 1 < Limit(c, rs[i].req)))
  }

  /** Peaks beyond the cache are reached: a run of decode steps that ends in a miss. */
  lemma {:induction false} Outgrows(c: Config, rs: seq<Running>) returns (events: seq<Event>)
    requires c.bs > 0 && Sound(c, rs) && Held(rs) <= c.total < Peaks(c, rs)
    ensures AllWellFormed(c, events) && NoAdmit(events) && events != [] && MissesAt(c, rs, events, |events| - 1)
    decreases SumOf(rs, RestOf(c))
  {
    hide Sound, Misses, Run, Advanced, Onward, After;
    var turns := Onward(c, rs);
    if Misses(c, rs, turns) {
      events := MissNow(c, rs, turns);
    } else {
      var ss := OnwardIs(c, rs);
      OnwardKeeps(c, rs, ss);
      var rest := Outgrows(c, ss);
      events := MissLater(c, rs, Decode(turns), rest);
    }
  }

  lemma MissNow(c: Config, rs: seq<Running>, turns: seq<Turn>) returns (events: seq<Event>)
    requires c.bs > 0 && Misses(c, rs, turns)
    ensures AllWellFormed(c, events) && NoAdmit(events) && events != [] && MissesAt(c, rs, events, |events| - 1)
  {
    hide Misses;
    events := [Decode(turns)];
    assert Run(c, rs, events, 0) == rs;
  }

  lemma MissLater(c: Config, rs: seq<Running>, e: Event, rest: seq<Event>) returns (events: seq<Event>)
    requires e.WellFormed(c) && !e.Admit? && AllWellFormed(c, rest) && NoAdmit(rest) && rest != []
    requires MissesAt(c, After(c, rs, e), rest, |rest| - 1)
    ensures AllWellFormed(c, events) && NoAdmit(events) && events != [] && MissesAt(c, rs, events, |events| - 1)
  {
    hide Misses, After, Run;
    events := [e] + rest;
    Shifted(c, e, rest, events);
    RunShift(c, rs, e, rest, events, |rest| - 1);
    assert events[|rest|] == rest[|rest| - 1];
  }

  lemma Shifted(c: Config, e: Event, rest: seq<Event>, events: seq<Event>)
    requires e.WellFormed(c) && AllWellFormed(c, rest) && events == [e] + rest
    ensures AllWellFormed(c, events) && events[0] == e && forall k :: 0 <= k < |rest| ==> events[k + 1] == rest[k]
  {
    hide Event.WellFormed;
  }

  lemma {:induction false} RunShift(c: Config, rs: seq<Running>, e: Event, rest: seq<Event>, events: seq<Event>, n: nat)
    requires e.WellFormed(c) && AllWellFormed(c, rest) && AllWellFormed(c, events) && n <= |rest| == |events| - 1
    requires events[0] == e && forall k :: 0 <= k < |rest| ==> events[k + 1] == rest[k]
    ensures Run(c, rs, events, n + 1) == Run(c, After(c, rs, e), rest, n)
  {
    hide After, Event.WellFormed;
    if n > 0 { RunShift(c, rs, e, rest, events, n - 1); } else { assert Run(c, rs, events, 0) == rs; }
  }

  lemma OnwardIs(c: Config, rs: seq<Running>) returns (ss: seq<Running>)
    requires c.bs > 0 && !Misses(c, rs, Onward(c, rs))
    ensures ss == Advanced(c, rs, Onward(c, rs), |rs|) == After(c, rs, Decode(Onward(c, rs)))
  {
    ss := After(c, rs, Decode(Onward(c, rs)));
  }

  /** A full step that misses nothing brings everybody on; nobody's peak changes. */
  lemma OnwardKeeps(c: Config, rs: seq<Running>, ss: seq<Running>)
    requires Sound(c, rs) && !Misses(c, rs, Onward(c, rs)) && Held(rs) <= c.total < Peaks(c, rs)
    requires ss == Advanced(c, rs, Onward(c, rs), |rs|)
    ensures Sound(c, ss) && Held(ss) <= c.total < Peaks(c, ss) && 0 <= SumOf(ss, RestOf(c)) < SumOf(rs, RestOf(c))
  {
    hide Advanced, Misses, Onward;
    MissesIff(c, rs, Onward(c, rs));
    AdvancedKeeps(c, rs, Onward(c, rs), |rs|);
    OnwardPeaks(c, rs, ss);
    OnwardRest(c, rs, ss);
  }

  lemma OnwardRest(c: Config, rs: seq<Running>, ss: seq<Running>)
    requires Sound(c, rs) && Sound(c, ss) && ss == Advanced(c, rs, Onward(c, rs), |rs|) && Held(ss) < Peaks(c, ss)
    ensures 0 <= SumOf(ss, RestOf(c)) < SumOf(rs, RestOf(c))
  {
    SumOfNonNegative(ss, RestOf(c));
    var i := StillGrowing(c, ss);
    OnwardPeaks(c, rs, ss);
    SumOfAtMost(ss, rs, RestOf(c), RestOf(c));
  }

  /** Below its peak: some sequence holds less than it can come to hold. */
  lemma StillGrowing(c: Config, rs: seq<Running>) returns (i: nat)
    requires c.bs > 0 && Held(rs) < Peaks(c, rs)
    ensures i < |rs| && rs[i].held < Peak(c, rs[i])
  {
    if k :| 0 <= k < |rs| && rs[k].held < Peak(c, rs[k]) { return k; }
    SumOfAtMost(rs, rs, PeakOf(c), HeldOf());
    assert false;
  }

  lemma OnwardPeaks(c: Config, rs: seq<Running>, ss: seq<Running>)
    requires Sound(c, rs) && ss == Advanced(c, rs, Onward(c, rs), |rs|)
    ensures Peaks(c, ss) == Peaks(c, rs)
    ensures forall i :: 0 <= i < |rs| && rs[i].len + 1 >= Limit(c, rs[i].req) ==> Peak(c, ss[i]) == ss[i].held
  {
    forall i | 0 <= i < |rs| ensures Peak(c, ss[i]) == Peak(c, rs[i]) { DecodedKeeps(c, rs[i], Onward(c, rs)[i]); }
    SumOfAtMost(ss, rs, PeakOf(c), PeakOf(c));
    SumOfAtMost(rs, ss, PeakOf(c), PeakOf(c));
  }

  // ---- a pass over one request ------------------------------------------------------------------------------

  lemma AnswersOne(c: Config, rs: seq<Running>, r: Request)
    requires c.bs > 0 && Lifetime(c, r) <= Open(c, rs).0
    ensures Answers(c, rs, [[r]], [Ok]) == [Ok]
  {
    hide Lifetime, Lives, Lag, Open;
    assert [r][..0] == [];
    assert Need(c, [r]) == Lifetime(c, r);
    assert Cells(c, [[r]], [Ok], Open(c, rs).0, Open(c, rs).1, 0) == (Open(c, rs).0, Open(c, rs).1);
  }

  lemma TakenOne(c: Config, r: Request)
    requires c.bs > 0
    ensures Taken(c, [[r]], [Ok], [true]) == [Running(r, r.prompt, CeilDiv(r.prompt, c.bs))]
  {
    hide Started, CeilDiv;
    assert [[r]][..0] == [] && [Ok][..0] == [] && [true][..0] == [];
    assert Taken(c, [], [], []) == [];
    assert Taken(c, [[r]], [Ok], [true]) == Started(c, [r]);
    assert Started(c, [r]) == [Started(c, [r])[0]];
  }

  lemma AdmitOne(c: Config, rs: seq<Running>, r: Request)
    requires c.bs > 0 && Lifetime(c, r) <= Open(c, rs).0 && r.prompt <= Limit(c, r)
    ensures Admit([[r]], [Ok], [true]).WellFormed(c) && Grants(c, rs, Admit([[r]], [Ok], [true]))
    ensures After(c, rs, Admit([[r]], [Ok], [true])) == rs + [Running(r, r.prompt, CeilDiv(r.prompt, c.bs))]
  {
    hide Lifetime, Limit, CeilDiv, Taken, Answers;
    assert [r][..0] == [];
    assert Need(c, [r]) == Lifetime(c, r);
    AnswersOne(c, rs, r);
    TakenOne(c, r);
  }

  // ---- what a pass may do to the room to finish -------------------------------------------------------------

  /** No pass raises the peaks by more than the headroom it finds. */
  lemma PassPeaks(c: Config, rs: seq<Running>, e: Event)
    requires e.WellFormed(c) && e.Admit? && Sound(c, rs) && EachFits(c, e)
    ensures var h := Open(c, rs).0;
      Sound(c, After(c, rs, e)) && Peaks(c, After(c, rs, e)) <= Peaks(c, rs) + if h > 0 then h else 0
  {
    hide Answers, Answered, Taken, Granted, Sound, Lives, Lag, Peaks, Acceptable, Need, NoneGranted;
    var statuses, n := Answers(c, rs, e.waiting, e.stock), |e.waiting|;
    AnswersAnswered(c, rs, e.waiting, e.stock);
    OpenFits(c, rs, e.waiting);
    GrantedFits(c, e.waiting, e.stock, Open(c, rs).0, Open(c, rs).1, statuses, n);
    TakenLives(c, e.waiting, statuses, e.takes, n);
    assert e.waiting[..n] == e.waiting && statuses[..n] == statuses && e.takes[..n] == e.takes;
    LivesOfJoin(c, rs, Taken(c, e.waiting, statuses, e.takes));
    PeaksOfJoin(c, rs, Taken(c, e.waiting, statuses, e.takes));
    PeaksBetween(c, Taken(c, e.waiting, statuses, e.takes));
  }

  lemma PeaksOfJoin(c: Config, rs: seq<Running>, more: seq<Running>)
    requires c.bs > 0
    ensures Peaks(c, rs + more) == Peaks(c, rs) + Peaks(c, more) && Held(rs + more) == Held(rs) + Held(more)
  {
    SumOfAppend(rs, more, PeakOf(c));
    SumOfAppend(rs, more, HeldOf());
  }

  /** A short prompt that may grow to h blocks; with blocks of one token, a prompt of h tokens. */
  function Filling(c: Config, h: nat): Request
    requires c.bs > 0 && h > 0
  {
    ProductNonNegative(h - 1, c.bs);
    assert h * c.bs == (h - 1) * c.bs + c.bs;
    if c.bs == 1 then Request(h, Some(0)) else Request(1, Some(h * c.bs - 1))
  }

  lemma FillingIs(c: Config, h: nat)
    requires c.bs > 0 && h > 0
    ensures var q := Filling(c, h); var r := Running(q, q.prompt, CeilDiv(q.prompt, c.bs));
      && q.prompt <= Limit(c, q) && Lifetime(c, q) == Peak(c, r) == h && r.held <= h && Sound(c, [r])
  {
    var q := Filling(c, h);
    if c.bs == 1 {
      assert CeilDiv(h, 1) == h;
    } else {
      WholeBlocks(h, 0, c.bs);
      WholeBlocks(h, 1, c.bs);
      WholeBlocks(1, c.bs - 1, c.bs);
    }
  }

  /** h blocks but for a few tokens are h blocks. */
  lemma WholeBlocks(h: nat, few: nat, bs: nat)
    requires few < bs && h * bs >= few && h > 0
    ensures CeilDiv(h * bs - few, bs) == h
  {
    var n := CeilDiv(h * bs - few, bs);
    CeilDivBounds(h * bs - few, bs);
    hide CeilDiv;
    QuotientOrder(n, h, bs);
    QuotientOrder(h, n, bs);
  }

  /** A pass over acceptable groups that each fit the cache, after which the running sequences have room to finish. */
  ghost predicate LeavesRoom(c: Config, rs: seq<Running>, e: Event) {
    e.Admit? && e.WellFormed(c) && EachFits(c, e) && Held(After(c, rs, e)) <= c.total ==> !CanMiss(c, After(c, rs, e))
  }

  /** Before a pass: with headroom, what the sequences behind lack is made up by last tokens that need no block. */
  ghost predicate RoomForPass(c: Config, rs: seq<Running>)
    requires c.bs > 0
  {
    if Open(c, rs).0 > 0 then Lag(c, rs) <= Lives(c, rs) - Peaks(c, rs) else Peaks(c, rs) <= c.total
  }

  /** Exactly when the promise holds: whatever the next pass admits, the running sequences have room to finish. */
  lemma PassSafeIff(c: Config, rs: seq<Running>)
    requires Sound(c, rs) && Held(rs) <= c.total
    ensures (forall e :: LeavesRoom(c, rs, e)) <==> RoomForPass(c, rs)
  {
    hide CanMiss, After;
    if RoomForPass(c, rs) {
      forall e ensures LeavesRoom(c, rs, e) { SafePass(c, rs, e); }
    } else {
      var _ := UnsafePass(c, rs);
    }
  }

  lemma SafePass(c: Config, rs: seq<Running>, e: Event)
    requires Sound(c, rs) && RoomForPass(c, rs)
    ensures LeavesRoom(c, rs, e)
  {
    hide Sound, CanMiss, After, Peaks, Lives, Lag, Held;
    if e.Admit? && e.WellFormed(c) && EachFits(c, e) && Held(After(c, rs, e)) <= c.total {
      PassPeaks(c, rs, e);
      RoomToFinishIff(c, After(c, rs, e));
    }
  }

  /** The pass that goes wrong: it admits nobody, or one request that takes all the headroom. */
  lemma UnsafePass(c: Config, rs: seq<Running>) returns (e: Event)
    requires c.bs > 0 && Sound(c, rs) && Held(rs) <= c.total && !RoomForPass(c, rs)
    ensures !LeavesRoom(c, rs, e)
  {
    hide CanMiss, Sound, Peaks, Lives, Lag, Held;
    var h := Open(c, rs).0;
    if h > 0 {
      e := FillingPass(c, rs, h);
    } else {
      e := Admit([], [], []);
      assert After(c, rs, e) == rs;
      RoomToFinishIff(c, rs);
    }
  }

  lemma FillingPass(c: Config, rs: seq<Running>, h: nat) returns (e: Event)
    requires c.bs > 0 && Sound(c, rs) && h > 0 && h == Open(c, rs).0 && Peaks(c, rs) + h > c.total
    ensures !LeavesRoom(c, rs, e)
  {
    hide CanMiss, Peaks, Lives, Lag, Held, After, Sound, Peak, Lifetime, Limit, CeilDiv;
    var q := Filling(c, h);
    FillingIs(c, h);
    AdmitOne(c, rs, q);
    e := Admit([[q]], [Ok], [true]);
    var r := Running(q, q.prompt, CeilDiv(q.prompt, c.bs));
    HeadroomIsFree(c, rs);
    PeaksOfOne(c, rs, r);
    NeedOfOne(c, q);
    RoomToFinishIff(c, rs + [r]);
  }

  lemma PeaksOfOne(c: Config, rs: seq<Running>, r: Running)
    requires Sound(c, rs) && Sound(c, [r])
    ensures Peaks(c, rs + [r]) == Peaks(c, rs) + Peak(c, r) && Held(rs + [r]) == Held(rs) + r.held && Sound(c, rs + [r])
  {
    PeaksOfJoin(c, rs, [r]);
    SumOfOne(r, PeakOf(c));
    SumOfOne(r, HeldOf());
  }

  lemma NeedOfOne(c: Config, q: Request)
    requires c.bs > 0
    ensures Need(c, [q]) == Lifetime(c, q)
  {
    assert [q][..0] == [];
  }

  /** The headroom is never more than what is free. */
  lemma HeadroomIsFree(c: Config, rs: seq<Running>)
    requires Sound(c, rs)
    ensures Open(c, rs).0 <= c.total - Held(rs) && Held(rs) >= 0
  {
    OwedIs(c, rs);
    SumOfNonNegative(rs, GrowthOf(c));
    SumOfNonNegative(rs, HeldOf());
  }

  // ---- a run that misses a block ----------------------------------------------------------------------------

  /** Two decode steps, then a second request is let in, and the next decode step of the first finds no block. */
  function LagEvents(r: Request, late: Request): seq<Event> {
    [Admit([[r]], [Ok], [true]), Decode([Turn(true, true)]), Decode([Turn(true, true)]),
     Admit([[late]], [Ok], [true]), Decode([Turn(true, true), Turn(false, false)])]
  }

  lemma DecodeOne(c: Config, r: Running)
    requires c.bs > 0 && !Asks(c, r, Turn(true, true))
    ensures After(c, [r], Decode([Turn(true, true)])) == [Decoded(c, r, Turn(true, true))]
  {
    hide Decoded, Asks, Held;
    assert Reached(c, [r], [Turn(true, true)], 1) == 1;
  }

  lemma LateMisses(c: Config, r: Running, late: Running)
    requires c.bs > 0 && Asks(c, r, Turn(true, true)) && r.held + late.held >= c.total
    ensures Misses(c, [r, late], [Turn(true, true), Turn(false, false)])
  {
    assert [r, late] == [r] + [late];
    SumOfAppend([r], [late], HeldOf());
    SumOfOne(r, HeldOf());
    SumOfOne(late, HeldOf());
  }

  lemma OpenIdle(c: Config)
    requires c.bs > 0
    ensures Open(c, []) == (c.total, true)
  {
  }

  lemma OpenOne(c: Config, r: Running)
    requires c.bs > 0
    ensures Lag(c, [r]) == CeilDiv(r.len, c.bs) - r.held
    ensures Open(c, [r]) == (c.total - Lifetime(c, r.req) + Lag(c, [r]), false)
  {
    SumOfOne(r, LifeOf(c));
    SumOfOne(r, LagOf(c));
  }

  /** From an empty engine: a pass that finds one sequence behind grants, and the next decode step misses a block. */
  lemma LagRun()
    ensures var c, events := Config(2, 64, 3), LagEvents(Request(1, Some(3)), Request(3, Some(1)));
      AllWellFormed(c, events) && MissesAt(c, [], events, 4) && LastLag(c, [], events, 4) == 1
  {
    hide SumOf, Grants, After, MissesAt, LastLag, Run, Misses;
    var c, r, late := Config(2, 64, 3), Request(1, Some(3)), Request(3, Some(1));
    var events := LagEvents(r, late);
    OpenIdle(c);
    AdmitOne(c, [], r);
    DecodeOne(c, Running(r, 1, 1));
    DecodeOne(c, Running(r, 2, 1));
    var behind := Running(r, 3, 1);
    OpenOne(c, behind);
    AdmitOne(c, [behind], late);
    LateMisses(c, behind, Running(late, 3, 2));
    LagRunIs(c, r, late, [Running(r, 1, 1)], [Running(r, 2, 1)], [behind], [behind, Running(late, 3, 2)]);
  }

  lemma LagRunIs(c: Config, r: Request, late: Request, s1: seq<Running>, s2: seq<Running>, s3: seq<Running>,
                 s4: seq<Running>)
    requires AllWellFormed(c, LagEvents(r, late))
    requires After(c, [], LagEvents(r, late)[0]) == s1 && After(c, s1, LagEvents(r, late)[1]) == s2
    requires After(c, s2, LagEvents(r, late)[2]) == s3 && After(c, s3, LagEvents(r, late)[3]) == s4
    requires Grants(c, s3, LagEvents(r, late)[3]) && Misses(c, s4, LagEvents(r, late)[4].turns)
    ensures MissesAt(c, [], LagEvents(r, late), 4) && LastLag(c, [], LagEvents(r, late), 4) == Lag(c, s3)
  {
    hide After, Misses, Grants, Lag, AllWellFormed;
    var events := LagEvents(r, late);
    assert Run(c, [], events, 1) == s1;
    assert Run(c, [], events, 2) == s2;
    assert Run(c, [], events, 3) == s3;
  }
}
