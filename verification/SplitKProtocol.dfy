/**
 The arrival-counter protocol of the fused kernel: the split-K programs of a tile add their shares into a
 shared workspace, the last one to arrive writes the tile of Y and zeroes workspace and counter.  The steps of
 all programs interleave arbitrarily.
 */
module SplitKProtocol {
  import opened Common
  import opened Sums

  /** Program s of a tile. */
  datatype Prog = Prog(tile: int, s: int)

  /** Where a program stands: the cells it has added, written or directly stored so far. */
  datatype Phase = Adding(added: set<int>) | Writing(written: set<int>) | Storing(stored: set<int>) | Done

  /** A launch: output cells by address, the tile each belongs to, and what slice s contributes to it. */
  datatype Grid = Grid(cells: nat, tiles: nat, sk: nat, tileOf: int -> int, val: (int, int) -> real) {
    ghost predicate Valid() { sk > 0 && forall a :: 0 <= a < cells ==> 0 <= tileOf(a) < tiles }

    predicate In(a: int, t: int) { 0 <= a < cells && tileOf(a) == t }

    ghost function Total(a: int): real { Sum(sk, s => val(s, a)) }
  }

  /** Device memory during a launch; stores counts the writes to each cell of Y. */
  datatype Dev = Dev(ws: seq<real>, cnt: seq<int>, y: seq<Cell>, stores: seq<nat>, pc: map<Prog, Phase>)

  ghost predicate Shaped(g: Grid, d: Dev) {
    && g.Valid() && |d.ws| >= g.cells && |d.cnt| >= g.tiles && |d.y| == |d.stores| == g.cells
    && forall t, s :: Prog(t, s) in d.pc <==> 0 <= t < g.tiles && 0 <= s < g.sk
  }

  function At(pc: map<Prog, Phase>, p: Prog): Phase { if p in pc then pc[p] else Done }

  ghost predicate HasAdded(ph: Phase, a: int) { ph.Adding? ==> a in ph.added }

  /** What the slices that have reached cell a have added to it. */
  ghost function Partial(g: Grid, pc: map<Prog, Phase>, t: int, a: int): real {
    Sum(g.sk, Share(g, pc, t, a))
  }

  ghost function Share(g: Grid, pc: map<Prog, Phase>, t: int, a: int): int -> real {
    s => if HasAdded(At(pc, Prog(t, s)), a) then g.val(s, a) else 0.0
  }

  ghost function Arrived(pc: map<Prog, Phase>, t: int, n: nat): nat {
    if n == 0 then 0 else Arrived(pc, t, n - 1) + (if At(pc, Prog(t, n - 1)).Adding? then 0 else 1)
  }

  ghost predicate CellIs(d: Dev, a: int, ws: real, y: Cell)
    requires 0 <= a < |d.ws| && a < |d.y| && a < |d.stores|
  {
    d.ws[a] == ws && d.y[a] == y && d.stores[a] == (if y == Blank then 0 else 1)
  }

  /** Some slice has not arrived. */
  ghost predicate Gathering(g: Grid, d: Dev, t: int)
    requires Shaped(g, d) && 0 <= t < g.tiles
  {
    && g.sk > 1 && (exists s :: 0 <= s < g.sk && At(d.pc, Prog(t, s)).Adding?)
    && (forall s :: 0 <= s < g.sk ==> At(d.pc, Prog(t, s)).Adding? || At(d.pc, Prog(t, s)).Done?)
    && d.cnt[t] == Arrived(d.pc, t, g.sk)
    && forall a :: g.In(a, t) ==> CellIs(d, a, Partial(g, d.pc, t, a), Blank)
  }

  /** All slices have arrived; c writes the tile. */
  ghost predicate Closing(g: Grid, d: Dev, t: int, c: int)
    requires Shaped(g, d) && 0 <= t < g.tiles
  {
    && g.sk > 1 && 0 <= c < g.sk && At(d.pc, Prog(t, c)).Writing?
    && (forall s :: 0 <= s < g.sk && s != c ==> At(d.pc, Prog(t, s)).Done?)
    && forall a :: g.In(a, t) ==>
      if a in At(d.pc, Prog(t, c)).written then CellIs(d, a, 0.0, Num(g.Total(a))) else CellIs(d, a, g.Total(a), Blank)
  }

  /** The tile is written, its workspace and counter are zero again. */
  ghost predicate Closed(g: Grid, d: Dev, t: int)
    requires Shaped(g, d) && 0 <= t < g.tiles
  {
    && (forall s :: 0 <= s < g.sk ==> At(d.pc, Prog(t, s)).Done?) && d.cnt[t] == 0
    && forall a :: g.In(a, t) ==> CellIs(d, a, 0.0, Num(g.Total(a)))
  }

  /** No split: the one program stores its cells and never touches workspace or counter. */
  ghost predicate Direct(g: Grid, d: Dev, t: int)
    requires Shaped(g, d) && 0 <= t < g.tiles
  {
    && g.sk == 1 && At(d.pc, Prog(t, 0)).Storing? && d.cnt[t] == 0
    && forall a :: g.In(a, t) ==>
      if a in At(d.pc, Prog(t, 0)).stored then CellIs(d, a, 0.0, Num(g.Total(a))) else CellIs(d, a, 0.0, Blank)
  }

  ghost predicate TileInv(g: Grid, d: Dev, t: int)
    requires Shaped(g, d) && 0 <= t < g.tiles
  {
    Gathering(g, d, t) || (exists c :: Closing(g, d, t, c)) || Closed(g, d, t) || Direct(g, d, t)
  }

  /** Memory beyond this launch's cells and tiles stays zero. */
  ghost predicate RestZero(g: Grid, d: Dev) {
    (forall a :: g.cells <= a < |d.ws| ==> d.ws[a] == 0.0) && forall t :: g.tiles <= t < |d.cnt| ==> d.cnt[t] == 0
  }

  ghost predicate Inv(g: Grid, d: Dev) {
    Shaped(g, d) && RestZero(g, d) && forall t :: 0 <= t < g.tiles ==> TileInv(g, d, t)
  }

  // ---- the atomic steps ------------------------------------------------------------------------------------

  datatype Action = Add(a: int) | Arrive | Write(b: int) | Clear | Store(c: int) | Finish

  ghost predicate Complete(g: Grid, t: int, cells: set<int>) { forall a :: g.In(a, t) ==> a in cells }

  /** A step the program can take: it works through its tile's cells in any order, then moves on. */
  ghost predicate Enabled(g: Grid, d: Dev, p: Prog, act: Action) {
    && p in d.pc
    && match d.pc[p]
       case Adding(added) => (act.Add? && g.In(act.a, p.tile) && act.a !in added)
         || (act.Arrive? && Complete(g, p.tile, added))
       case Writing(written) => (act.Write? && g.In(act.b, p.tile) && act.b !in written)
         || (act.Clear? && Complete(g, p.tile, written))
       case Storing(stored) => (act.Store? && g.In(act.c, p.tile) && act.c !in stored)
         || (act.Finish? && Complete(g, p.tile, stored))
       case Done => false
  }

  function Next(g: Grid, d: Dev, p: Prog, act: Action): Dev
    requires Shaped(g, d) && Enabled(g, d, p, act)
  {
    match act
    case Add(a) =>
      d.(ws := d.ws[a := d.ws[a] + g.val(p.s, a)], pc := d.pc[p := Adding(d.pc[p].added + {a})])
    case Arrive =>
      var arrived := d.cnt[p.tile];
      d.(cnt := d.cnt[p.tile := arrived + 1], pc := d.pc[p := if arrived == g.sk - 1 then Writing({}) else Done])
    case Write(a) =>
      d.(y := d.y[a := Num(d.ws[a])], stores := d.stores[a := d.stores[a] + 1], ws := d.ws[a := 0.0],
         pc := d.pc[p := Writing(d.pc[p].written + {a})])
    case Clear =>
      d.(cnt := d.cnt[p.tile := 0], pc := d.pc[p := Done])
    case Store(a) =>
      d.(y := d.y[a := Num(g.val(p.s, a))], stores := d.stores[a := d.stores[a] + 1],
         pc := d.pc[p := Storing(d.pc[p].stored + {a})])
    case Finish =>
      d.(pc := d.pc[p := Done])
  }

  // ---- every step keeps the invariant --------------------------------------------------------------------------

  /** Tile t looks the same in both memories. */
  ghost predicate SameTile(g: Grid, d: Dev, e: Dev, t: int)
    requires Shaped(g, d) && Shaped(g, e) && 0 <= t < g.tiles
  {
    && e.cnt[t] == d.cnt[t] && (forall s :: 0 <= s < g.sk ==> At(e.pc, Prog(t, s)) == At(d.pc, Prog(t, s)))
    && forall a :: g.In(a, t) ==> e.ws[a] == d.ws[a] && e.y[a] == d.y[a] && e.stores[a] == d.stores[a]
  }

  lemma NextShaped(g: Grid, d: Dev, p: Prog, act: Action)
    requires Shaped(g, d) && RestZero(g, d) && Enabled(g, d, p, act)
    ensures Shaped(g, Next(g, d, p, act)) && RestZero(g, Next(g, d, p, act))
  {
  }

  /** A step touches only its own tile. */
  lemma NextElsewhere(g: Grid, d: Dev, p: Prog, act: Action, t: int)
    requires Shaped(g, d) && RestZero(g, d) && Enabled(g, d, p, act) && 0 <= t < g.tiles && t != p.tile
    ensures Shaped(g, Next(g, d, p, act)) && SameTile(g, d, Next(g, d, p, act), t)
  {
    NextShaped(g, d, p, act);
    var e := Next(g, d, p, act);
    forall s ensures At(e.pc, Prog(t, s)) == At(d.pc, Prog(t, s)) { assert Prog(t, s) != p; }
  }

  lemma SamePartial(g: Grid, d: Dev, e: Dev, t: int, a: int)
    requires Shaped(g, d) && Shaped(g, e) && 0 <= t < g.tiles && SameTile(g, d, e, t)
    ensures Partial(g, e.pc, t, a) == Partial(g, d.pc, t, a)
  {
    SumExt(g.sk, Share(g, e.pc, t, a), Share(g, d.pc, t, a));
  }

  lemma {:induction false} SameArrived(pc: map<Prog, Phase>, pd: map<Prog, Phase>, t: int, n: nat)
    requires forall s :: 0 <= s < n ==> At(pc, Prog(t, s)) == At(pd, Prog(t, s))
    ensures Arrived(pc, t, n) == Arrived(pd, t, n)
  {
    if n > 0 { SameArrived(pc, pd, t, n - 1); }
  }

  lemma SameTileInv(g: Grid, d: Dev, e: Dev, t: int)
    requires Shaped(g, d) && Shaped(g, e) && 0 <= t < g.tiles && SameTile(g, d, e, t) && TileInv(g, d, t)
    ensures TileInv(g, e, t)
  {
    hide Shaped;
    if Gathering(g, d, t) {
      SameArrived(e.pc, d.pc, t, g.sk);
      forall a | g.In(a, t) ensures Partial(g, e.pc, t, a) == Partial(g, d.pc, t, a) { SamePartial(g, d, e, t, a); }
      assert Gathering(g, e, t);
    } else if Closed(g, d, t) {
      assert Closed(g, e, t);
    } else if Direct(g, d, t) {
      assert Direct(g, e, t);
    } else {
      var c :| Closing(g, d, t, c);
      assert Closing(g, e, t, c);
    }
  }

  lemma AddKeeps(g: Grid, d: Dev, p: Prog, a: int)
    requires Shaped(g, d) && RestZero(g, d) && Enabled(g, d, p, Add(a)) && TileInv(g, d, p.tile)
    ensures Shaped(g, Next(g, d, p, Add(a))) && TileInv(g, Next(g, d, p, Add(a)), p.tile)
  {
    NextShaped(g, d, p, Add(a));
    var e, t := Next(g, d, p, Add(a)), p.tile;
    assert At(d.pc, p).Adding? && Gathering(g, d, t);
    forall s | 0 <= s < g.sk && s != p.s ensures At(e.pc, Prog(t, s)) == At(d.pc, Prog(t, s)) {
      assert Prog(t, s) != p;
    }
    hide Shaped;
    forall b | g.In(b, t) ensures CellIs(e, b, Partial(g, e.pc, t, b), Blank) {
      SumUpdate(g.sk, Share(g, d.pc, t, b), Share(g, e.pc, t, b), p.s);
      assert HasAdded(At(e.pc, p), b) <==> HasAdded(At(d.pc, p), b) || b == a;
    }
    assert At(e.pc, p).Adding?;
    SameAdding(e.pc, d.pc, t, g.sk);
    assert Gathering(g, e, t);
  }

  lemma {:induction false} SameAdding(pc: map<Prog, Phase>, pd: map<Prog, Phase>, t: int, n: nat)
    requires forall s :: 0 <= s < n ==> At(pc, Prog(t, s)).Adding? == At(pd, Prog(t, s)).Adding?
    ensures Arrived(pc, t, n) == Arrived(pd, t, n)
  {
    if n > 0 { SameAdding(pc, pd, t, n - 1); }
  }

  /** One more arrival. */
  lemma {:induction false} OneArrives(pc: map<Prog, Phase>, pd: map<Prog, Phase>, p: Prog, n: nat)
    requires At(pc, p).Adding? && !At(pd, p).Adding? && 0 <= p.s
    requires forall s :: 0 <= s < n && s != p.s ==> At(pd, Prog(p.tile, s)) == At(pc, Prog(p.tile, s))
    ensures Arrived(pd, p.tile, n) == Arrived(pc, p.tile, n) + (if p.s < n then 1 else 0)
  {
    if n > 0 { OneArrives(pc, pd, p, n - 1); }
  }

  /** All have arrived exactly when the count says so. */
  lemma {:induction false} AllArrived(pc: map<Prog, Phase>, t: int, n: nat)
    ensures Arrived(pc, t, n) <= n
    ensures Arrived(pc, t, n) == n <==> forall s :: 0 <= s < n ==> !At(pc, Prog(t, s)).Adding?
  {
    if n > 0 { AllArrived(pc, t, n - 1); }
  }

  lemma AllShares(g: Grid, pc: map<Prog, Phase>, t: int, a: int)
    requires forall s :: 0 <= s < g.sk ==> !At(pc, Prog(t, s)).Adding?
    ensures Partial(g, pc, t, a) == g.Total(a)
  {
    forall s | 0 <= s < g.sk ensures Share(g, pc, t, a)(s) == g.val(s, a) { assert !At(pc, Prog(t, s)).Adding?; }
    SumExt(g.sk, Share(g, pc, t, a), s => g.val(s, a));
  }

  lemma ArriveKeeps(g: Grid, d: Dev, p: Prog)
    requires Shaped(g, d) && RestZero(g, d) && Enabled(g, d, p, Arrive) && TileInv(g, d, p.tile)
    ensures Shaped(g, Next(g, d, p, Arrive)) && TileInv(g, Next(g, d, p, Arrive), p.tile)
  {
    NextShaped(g, d, p, Arrive);
    var e, t := Next(g, d, p, Arrive), p.tile;
    assert At(d.pc, p).Adding? && Gathering(g, d, t);
    forall s | 0 <= s < g.sk && s != p.s ensures At(e.pc, Prog(t, s)) == At(d.pc, Prog(t, s)) {
      assert Prog(t, s) != p;
    }
    hide Shaped;
    forall b | g.In(b, t) ensures Partial(g, e.pc, t, b) == Partial(g, d.pc, t, b) {
      assert HasAdded(At(e.pc, p), b) && HasAdded(At(d.pc, p), b);
      SumExt(g.sk, Share(g, d.pc, t, b), Share(g, e.pc, t, b));
    }
    OneArrives(d.pc, e.pc, p, g.sk);
    AllArrived(e.pc, t, g.sk);
    if d.cnt[t] == g.sk - 1 {
      forall b | g.In(b, t) ensures CellIs(e, b, g.Total(b), Blank) { AllShares(g, e.pc, t, b); }
      assert Closing(g, e, t, p.s);
    } else {
      assert Gathering(g, e, t);
    }
  }

  lemma WriteKeeps(g: Grid, d: Dev, p: Prog, a: int)
    requires Shaped(g, d) && RestZero(g, d) && Enabled(g, d, p, Write(a)) && TileInv(g, d, p.tile)
    ensures Shaped(g, Next(g, d, p, Write(a))) && TileInv(g, Next(g, d, p, Write(a)), p.tile)
  {
    NextShaped(g, d, p, Write(a));
    var e, t := Next(g, d, p, Write(a)), p.tile;
    assert At(d.pc, p).Writing? && Closing(g, d, t, p.s);
    forall s | 0 <= s < g.sk && s != p.s ensures At(e.pc, Prog(t, s)) == At(d.pc, Prog(t, s)) {
      assert Prog(t, s) != p;
    }
    assert Closing(g, e, t, p.s);
  }

  lemma ClearKeeps(g: Grid, d: Dev, p: Prog)
    requires Shaped(g, d) && RestZero(g, d) && Enabled(g, d, p, Clear) && TileInv(g, d, p.tile)
    ensures Shaped(g, Next(g, d, p, Clear)) && TileInv(g, Next(g, d, p, Clear), p.tile)
  {
    NextShaped(g, d, p, Clear);
    var e, t := Next(g, d, p, Clear), p.tile;
    assert At(d.pc, p).Writing? && Closing(g, d, t, p.s);
    forall s | 0 <= s < g.sk ensures At(e.pc, Prog(t, s)).Done? { assert s != p.s ==> Prog(t, s) != p; }
    assert Closed(g, e, t);
  }

  lemma StoreKeeps(g: Grid, d: Dev, p: Prog, act: Action)
    requires Shaped(g, d) && RestZero(g, d) && Enabled(g, d, p, act) && TileInv(g, d, p.tile) && d.pc[p].Storing?
    ensures Shaped(g, Next(g, d, p, act)) && TileInv(g, Next(g, d, p, act), p.tile)
  {
    NextShaped(g, d, p, act);
    var e, t := Next(g, d, p, act), p.tile;
    assert At(d.pc, p).Storing? && Direct(g, d, t) && p.s == 0;
    forall a ensures g.Total(a) == g.val(0, a) {
      assert Sum(1, s => g.val(s, a)) == Sum(0, s => g.val(s, a)) + g.val(0, a);
    }
    if act.Store? {
      assert Direct(g, e, t);
    } else {
      assert Closed(g, e, t);
    }
  }

  lemma OwnTile(g: Grid, d: Dev, p: Prog, act: Action)
    requires Shaped(g, d) && RestZero(g, d) && Enabled(g, d, p, act) && TileInv(g, d, p.tile)
    ensures Shaped(g, Next(g, d, p, act)) && TileInv(g, Next(g, d, p, act), p.tile)
  {
    hide TileInv;
    match act
    case Add(a) => AddKeeps(g, d, p, a);
    case Arrive => ArriveKeeps(g, d, p);
    case Write(a) => WriteKeeps(g, d, p, a);
    case Clear => ClearKeeps(g, d, p);
    case Store(_) => StoreKeeps(g, d, p, act);
    case Finish => StoreKeeps(g, d, p, act);
  }

  /** Every step of every program keeps the invariant. */
  lemma NextKeeps(g: Grid, d: Dev, p: Prog, act: Action)
    requires Inv(g, d) && Enabled(g, d, p, act)
    ensures Inv(g, Next(g, d, p, act))
  {
    assert p == Prog(p.tile, p.s);
    NextShaped(g, d, p, act);
    hide TileInv, Next, Enabled, SameTile;
    OwnTile(g, d, p, act);
    forall t | 0 <= t < g.tiles && t != p.tile ensures TileInv(g, Next(g, d, p, act), t) {
      NextElsewhere(g, d, p, act, t);
      SameTileInv(g, d, Next(g, d, p, act), t);
    }
  }

  // ---- termination ----------------------------------------------------------------------------------------------

  predicate Unfinished(g: Grid, ph: Phase, t: int, a: int) {
    g.In(a, t) && match ph
                  case Adding(added) => a !in added
                  case Writing(written) => a !in written
                  case Storing(stored) => a !in stored
                  case Done => false
  }

  ghost function ToAdd(g: Grid, d: Dev): set<(Prog, int)> {
    set p, a | p in d.pc && 0 <= a < g.cells && d.pc[p].Adding? && Unfinished(g, d.pc[p], p.tile, a) :: (p, a)
  }

  ghost function Adders(d: Dev): set<Prog> { set p | p in d.pc && d.pc[p].Adding? }

  ghost function ToWrite(g: Grid, d: Dev): set<(Prog, int)> {
    set p, a | p in d.pc && 0 <= a < g.cells && !d.pc[p].Adding? && Unfinished(g, d.pc[p], p.tile, a) :: (p, a)
  }

  ghost function Live(d: Dev): set<Prog> { set p | p in d.pc && !d.pc[p].Done? }

  /** Every step brings the launch closer to its end. */
  lemma NextProgress(g: Grid, d: Dev, p: Prog, act: Action)
    requires Shaped(g, d) && Enabled(g, d, p, act)
    ensures var e := Next(g, d, p, act);
      || ToAdd(g, e) < ToAdd(g, d)
      || (ToAdd(g, e) == ToAdd(g, d) && Adders(e) < Adders(d))
      || (ToAdd(g, e) == ToAdd(g, d) && Adders(e) == Adders(d) && ToWrite(g, e) < ToWrite(g, d))
      || (ToAdd(g, e) == ToAdd(g, d) && Adders(e) == Adders(d) && ToWrite(g, e) == ToWrite(g, d) && Live(e) < Live(d))
  {
    var e := Next(g, d, p, act);
    match act
    case Add(a) => assert (p, a) in ToAdd(g, d) && (p, a) !in ToAdd(g, e);
    case Arrive => assert p in Adders(d) && p !in Adders(e); assert ToAdd(g, e) == ToAdd(g, d);
    case Write(a) => assert (p, a) in ToWrite(g, d) && (p, a) !in ToWrite(g, e); SameToAdd(g, d, e, p);
    case Store(a) => assert (p, a) in ToWrite(g, d) && (p, a) !in ToWrite(g, e); SameToAdd(g, d, e, p);
    case Clear => assert p in Live(d) && p !in Live(e); SameToAdd(g, d, e, p); assert ToWrite(g, e) == ToWrite(g, d);
    case Finish => assert p in Live(d) && p !in Live(e); SameToAdd(g, d, e, p); assert ToWrite(g, e) == ToWrite(g, d);
  }

  /** A step of a program that has arrived leaves the adding ones alone. */
  lemma SameToAdd(g: Grid, d: Dev, e: Dev, p: Prog)
    requires p in d.pc && p in e.pc && !d.pc[p].Adding? && !e.pc[p].Adding? && e.pc == d.pc[p := e.pc[p]]
    ensures ToAdd(g, e) == ToAdd(g, d) && Adders(e) == Adders(d)
  {
    assert ToAdd(g, e) == ToAdd(g, d);
    assert Adders(e) == Adders(d);
  }

  // ---- a launch ---------------------------------------------------------------------------------------------------

  ghost predicate AllZero(ws: seq<real>, cnt: seq<int>) {
    (forall a :: 0 <= a < |ws| ==> ws[a] == 0.0) && forall t :: 0 <= t < |cnt| ==> cnt[t] == 0
  }

  function Launched(g: Grid, ws: seq<real>, cnt: seq<int>): Dev {
    Dev(ws, cnt, seq(g.cells, _ => Blank), seq(g.cells, _ => 0),
        map t, s | 0 <= t < g.tiles && 0 <= s < g.sk :: Prog(t, s) := if g.sk == 1 then Storing({}) else Adding({}))
  }

  lemma NoShares(g: Grid, pc: map<Prog, Phase>, t: int, a: int)
    requires forall s :: 0 <= s < g.sk ==> At(pc, Prog(t, s)) == Adding({})
    ensures Partial(g, pc, t, a) == 0.0
  {
    forall s | 0 <= s < g.sk ensures Share(g, pc, t, a)(s) == 0.0 {
      assert At(pc, Prog(t, s)) == Adding({});
      assert !HasAdded(At(pc, Prog(t, s)), a);
    }
    SumTail(0, g.sk, Share(g, pc, t, a));
  }

  lemma LaunchedInv(g: Grid, ws: seq<real>, cnt: seq<int>)
    requires g.Valid() && AllZero(ws, cnt) && |ws| >= g.cells && |cnt| >= g.tiles
    ensures Inv(g, Launched(g, ws, cnt))
  {
    var d := Launched(g, ws, cnt);
    forall t | 0 <= t < g.tiles ensures TileInv(g, d, t) {
      if g.sk == 1 {
        assert Direct(g, d, t);
      } else {
        forall s | 0 <= s < g.sk ensures At(d.pc, Prog(t, s)) == Adding({}) { assert Prog(t, s) in d.pc; }
        forall a | g.In(a, t) ensures CellIs(d, a, Partial(g, d.pc, t, a), Blank) { NoShares(g, d.pc, t, a); }
        assert At(d.pc, Prog(t, 0)).Adding?;
        NoneArrived(d.pc, t, g.sk);
        assert Gathering(g, d, t);
      }
    }
  }

  lemma {:induction false} NoneArrived(pc: map<Prog, Phase>, t: int, n: nat)
    requires forall s :: 0 <= s < n ==> At(pc, Prog(t, s)).Adding?
    ensures Arrived(pc, t, n) == 0
  {
    if n > 0 { NoneArrived(pc, t, n - 1); }
  }

  /** When every program is done, every tile is written once, in full, and the scratch memory is zero again. */
  lemma LaunchDone(g: Grid, d: Dev)
    requires Inv(g, d) && forall p :: p in d.pc ==> d.pc[p].Done?
    ensures AllZero(d.ws, d.cnt)
    ensures forall a :: 0 <= a < g.cells ==> d.y[a] == Num(g.Total(a)) && d.stores[a] == 1
  {
    forall t | 0 <= t < g.tiles ensures Closed(g, d, t) {
      assert TileInv(g, d, t);
      forall s | 0 <= s < g.sk ensures At(d.pc, Prog(t, s)).Done? { assert Prog(t, s) in d.pc; }
    }
    forall a | 0 <= a < g.cells ensures d.ws[a] == 0.0 && d.y[a] == Num(g.Total(a)) && d.stores[a] == 1 {
      assert g.In(a, g.tileOf(a)) && Closed(g, d, g.tileOf(a));
      assert CellIs(d, a, 0.0, Num(g.Total(a)));
    }
    forall t | 0 <= t < |d.cnt| ensures d.cnt[t] == 0 { assert t < g.tiles ==> Closed(g, d, t); }
  }

  /** The per-device scratch memory, kept from launch to launch. */
  class Workspace {
    var ws: seq<real>
    var cnt: seq<int>

    constructor ()
      ensures AllZero(ws, cnt) && ws == [] && cnt == []
    {
      ws, cnt := [], [];
    }

    /** get_workspace: grow on demand, zeroed; an empty buffer is one not made yet. */
    method Ensure(nWs: nat, nCnt: nat)
      requires AllZero(ws, cnt)
      modifies this
      ensures AllZero(ws, cnt) && |ws| >= nWs && |cnt| >= nCnt
      ensures if |old(ws)| >= nWs && old(ws) != [] then ws == old(ws) else |ws| == nWs >= 0x10_0000 || |ws| == 0x10_0000
      ensures if |old(cnt)| >= nCnt && old(cnt) != [] then cnt == old(cnt) else |cnt| == nCnt >= 4096 || |cnt| == 4096
    {
      if |ws| == 0 || |ws| < nWs { ws := seq(if nWs > 0x10_0000 then nWs else 0x10_0000, _ => 0.0); }
      if |cnt| == 0 || |cnt| < nCnt { cnt := seq(if nCnt > 4096 then nCnt else 4096, _ => 0); }
    }

    /** Run all programs of a launch to the end, their atomic steps in any order. */
    method Launch(g: Grid) returns (y: seq<Cell>, ghost stores: seq<nat>)
      requires g.Valid() && AllZero(ws, cnt) && |ws| >= g.cells && |cnt| >= g.tiles
      modifies this
      ensures AllZero(ws, cnt) && |y| == |stores| == g.cells
      ensures forall a :: 0 <= a < g.cells ==> y[a] == Num(g.Total(a)) && stores[a] == 1
    {
      var d := Launched(g, ws, cnt);
      LaunchedInv(g, ws, cnt);
      while exists p :: p in d.pc && !d.pc[p].Done?
        invariant Inv(g, d)
        decreases ToAdd(g, d), Adders(d), ToWrite(g, d), Live(d)
      {
        hide Inv, Next, ToAdd, Adders, ToWrite, Live;
        var p :| p in d.pc && !d.pc[p].Done?;
        var act := Pick(g, d, p);
        NextProgress(g, d, p, act);
        NextKeeps(g, d, p, act);
        d := Next(g, d, p, act);
      }
      LaunchDone(g, d);
      ws, cnt, y, stores := d.ws, d.cnt, d.y, d.stores;
    }
  }

  /** Any step the program can take. */
  method Pick(g: Grid, d: Dev, p: Prog) returns (act: Action)
    requires Shaped(g, d) && p in d.pc && !d.pc[p].Done?
    ensures Enabled(g, d, p, act)
  {
    var ph := d.pc[p];
    var pending := set a | 0 <= a < g.cells && Unfinished(g, ph, p.tile, a);
    if exists a :: a in pending {
      var a :| a in pending;
      act := if ph.Adding? then Add(a) else if ph.Writing? then Write(a) else Store(a);
    } else {
      forall a | g.In(a, p.tile) ensures !Unfinished(g, ph, p.tile, a) { assert a !in pending; }
      act := if ph.Adding? then Arrive else if ph.Writing? then Clear else Finish;
    }
  }
}
