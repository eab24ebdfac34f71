/**
 Player and sector nodes as objects: Reset and SetSector, the locks of one and of two sectors, and the
 sector part of Req_SectorMove and LeaveProc, each run by one thread from its first action to its last.
 */
module SectorMove {
  import opened Options
  import opened SectorIndex
  import LockOrder
  import Around

  const NO_SECTOR: nat := 0xFFFF

  class Player {
    var ref: int
    var closing: bool
    var sessionID: int
    var accountNo: int
    var sectorX: nat
    var sectorY: nat
    var isLogined: bool
    var lastRecvTime: int

    constructor ()
      ensures ref == 1 && !closing
    {
      ref, closing, sessionID, accountNo, sectorX, sectorY, isLogined, lastRecvTime := 1, false, 0, 0, 0, 0, false, 0;
    }

    /** One reference, not closing, not logged in, and in no sector of a grid of up to 65535 x 65535 cells. */
    method Reset()
      modifies this
      ensures ref == 1 && !closing && !isLogined
      ensures sessionID == 0 && accountNo == 0 && lastRecvTime == 0
      ensures forall w: nat, h: nat :: w <= 65535 || h <= 65535 ==> !Around.IsValidSector(sectorX, sectorY, w, h)
    {
      sessionID, accountNo, lastRecvTime := 0, 0, 0;
      sectorX, sectorY, isLogined := NO_SECTOR, NO_SECTOR, false;
      ref, closing := 1, false;
    }

    method SetSector(x: nat, y: nat)
      modifies this`sectorX, this`sectorY
      ensures sectorX == x && sectorY == y
    {
      sectorX, sectorY := x, y;
    }
  }

  // ----- the locks of two sectors --------------------------------------------------------------

  function IndexOf(c: Cell, width: nat): LockOrder.Index {
    LockOrder.LockIndex(c.x, c.y, width)
  }

  /** The cells in the order LockTwoSectorsExclusive locks them. */
  function TwoCells(c: Cell, d: Cell, width: nat): seq<Cell> {
    if c == d then [c] else if IndexOf(c, width) < IndexOf(d, width) then [c, d] else [d, c]
  }

  /** It is the order under which sector locks cannot deadlock. */
  lemma TwoCellsFollowLockOrder(c: Cell, d: Cell, width: nat)
    requires c.x < width && d.x < width
    ensures var cells := TwoCells(c, d, width);
            var indices := seq(|cells|, i requires 0 <= i < |cells| => IndexOf(cells[i], width));
            indices == LockOrder.TwoLocks(IndexOf(c, width), IndexOf(d, width)) && LockOrder.Increasing(indices)
    ensures TwoCells(c, d, width) == TwoCells(d, c, width)
  {
    LockOrder.TwoLocksOrdered(c.x, c.y, d.x, d.y, width);
  }

  function Locks(t: Tid, cells: seq<Cell>): seq<Act> {
    if |cells| == 2 then [Lock(t, cells[0]), Lock(t, cells[1])] else if |cells| == 1 then [Lock(t, cells[0])] else []
  }

  function Unlocks(t: Tid, cells: seq<Cell>): seq<Act> {
    if |cells| == 2 then [Unlock(t, cells[0]), Unlock(t, cells[1])] else if |cells| == 1 then [Unlock(t, cells[0])] else []
  }

  // ----- one request, stage by stage -----------------------------------------------------------

  /** The other cell whose lock a request takes: where the player is, or the target itself on a first placement. */
  function From(s: Sectors, p: Pid, to: Cell): Cell {
    if p in s.place then s.place[p] else to
  }

  function Shift(t: Tid, placed: bool): seq<Act> {
    if placed then [Erase(t), Insert(t)] else [Insert(t)]
  }

  /** Req_SectorMove up to its unlock. */
  function UpToUnlock(s: Sectors, t: Tid, p: Pid, to: Cell, width: nat): seq<Act> {
    var cells := TwoCells(From(s, p, to), to, width);
    [Ask(t, p, to)] + (Locks(t, cells) + (Shift(t, p in s.place) + Unlocks(t, cells)))
  }

  /** Req_SectorMove: the fields are written last. */
  function WholeRequest(s: Sectors, t: Tid, p: Pid, to: Cell, width: nat): seq<Act> {
    UpToUnlock(s, t, p, to, width) + [Store(t)]
  }

  /** `p` out of the set of the cell it was in, if any, and in the new one. */
  function Shifted(sets: map<Cell, set<Pid>>, p: Pid, origin: Option<Cell>, to: Cell): map<Cell, set<Pid>>
    requires to in sets && (origin.Some? ==> origin.value in sets)
  {
    var erased := if origin.Some? then sets[origin.value := sets[origin.value] - {p}] else sets;
    erased[to := erased[to] + {p}]
  }

  /** The request has read the fields. */
  function Asked(s: Sectors, t: Tid, p: Pid, to: Cell): Sectors
    requires t < |s.motion|
  {
    With(s, t, Wanting(p, Field(s, p), to, {})).(asking := s.asking[p := t])
  }

  /** It has the locks. */
  function Granted(s: Sectors, t: Tid, p: Pid, to: Cell): Sectors
    requires t < |s.motion|
  {
    var from := From(s, p, to);
    With(s, t, Wanting(p, Field(s, p), to, {from, to})).(asking := s.asking[p := t], lock := s.lock[from := t][to := t])
  }

  /** It has erased and inserted. */
  function Carried(s: Sectors, t: Tid, p: Pid, to: Cell): Sectors
    requires t < |s.motion| && to in s.sets && (p in s.place ==> s.place[p] in s.sets)
  {
    var from := From(s, p, to);
    With(s, t, Inserted(p, Field(s, p), to, {from, to}))
      .(sets := Shifted(s.sets, p, Field(s, p), to), asking := s.asking[p := t], wiped := s.wiped - {p},
        lock := s.lock[from := t][to := t])
  }

  /** It has unlocked and not yet written the fields. */
  function Unwrote(s: Sectors, t: Tid, p: Pid, to: Cell): Sectors
    requires t < |s.motion| && to in s.sets && (p in s.place ==> s.place[p] in s.sets)
  {
    With(s, t, Inserted(p, Field(s, p), to, {}))
      .(sets := Shifted(s.sets, p, Field(s, p), to), asking := s.asking[p := t], wiped := s.wiped - {p})
  }

  /** The request is over. */
  function Moved(s: Sectors, p: Pid, to: Cell): Sectors
    requires to in s.sets && (p in s.place ==> s.place[p] in s.sets)
  {
    s.(sets := Shifted(s.sets, p, Field(s, p), to), wiped := s.wiped - {p}, place := s.place[p := to])
  }

  predicate MayAsk(s: Sectors, t: Tid, p: Pid, to: Cell) {
    IsStill(s, t) && p !in s.asking && Free(s, to) && Free(s, From(s, p, to))
  }

  lemma LockBoth(s: Sectors, t: Tid, p: Pid, origin: Option<Cell>, to: Cell, c: Cell, d: Cell)
    requires t < |s.motion| && s.motion[t] == Wanting(p, origin, to, {}) && c != d
    requires Needs(s.motion[t], c) && Needs(s.motion[t], d) && Free(s, c) && Free(s, d)
    ensures Leads(s, [Lock(t, c), Lock(t, d)],
                  With(s, t, Wanting(p, origin, to, {c, d})).(lock := s.lock[c := t][d := t]))
  {
    var s1 := Do(s, Lock(t, c));
    RunOfTwo(s, Lock(t, c), Lock(t, d));
    assert {} + {c} + {d} == {c, d};
    assert Do(s1, Lock(t, d)).motion == s.motion[t := Wanting(p, origin, to, {c, d})];
  }

  lemma RunLocks(s: Sectors, t: Tid, p: Pid, to: Cell, width: nat)
    requires MayAsk(s, t, p, to)
    ensures Leads(Asked(s, t, p, to), Locks(t, TwoCells(From(s, p, to), to, width)), Granted(s, t, p, to))
  {
    var (s1, from) := (Asked(s, t, p, to), From(s, p, to));
    if from == to {
      RunOfOne(s1, Lock(t, to));
      assert {} + {to} == {from, to};
      assert Do(s1, Lock(t, to)).motion == Granted(s, t, p, to).motion;
      assert s.lock[from := t][to := t] == s.lock[to := t];
    } else if IndexOf(from, width) < IndexOf(to, width) {
      LockBoth(s1, t, p, Field(s, p), to, from, to);
    } else {
      LockBoth(s1, t, p, Field(s, p), to, to, from);
      assert s.lock[from := t][to := t] == s.lock[to := t][from := t];
      assert {to, from} == {from, to};
    }
    assert s1.motion[t := Wanting(p, Field(s, p), to, {from, to})] == Granted(s, t, p, to).motion;
  }

  lemma RunShift(s: Sectors, t: Tid, p: Pid, to: Cell)
    requires MayAsk(s, t, p, to)
    ensures Leads(Granted(s, t, p, to), Shift(t, p in s.place), Carried(s, t, p, to))
  {
    var s1 := Granted(s, t, p, to);
    if p in s.place {
      RunOfTwo(s1, Erase(t), Insert(t));
      assert Do(Do(s1, Erase(t)), Insert(t)).motion == Carried(s, t, p, to).motion;
    } else {
      RunOfOne(s1, Insert(t));
    }
  }

  lemma UnlockBoth(s: Sectors, t: Tid, p: Pid, origin: Option<Cell>, to: Cell, c: Cell, d: Cell)
    requires t < |s.motion| && s.motion[t] == Inserted(p, origin, to, {c, d}) && c != d
    ensures Leads(s, [Unlock(t, c), Unlock(t, d)], With(s, t, Inserted(p, origin, to, {})).(lock := s.lock - {c} - {d}))
  {
    var s1 := Do(s, Unlock(t, c));
    assert {c, d} - {c} - {d} == {};
    RunOfTwo(s, Unlock(t, c), Unlock(t, d));
    assert Do(s1, Unlock(t, d)).motion == s.motion[t := Inserted(p, origin, to, {})];
  }

  lemma RunUnlocks(s: Sectors, t: Tid, p: Pid, to: Cell, width: nat)
    requires MayAsk(s, t, p, to)
    ensures Leads(Carried(s, t, p, to), Unlocks(t, TwoCells(From(s, p, to), to, width)), Unwrote(s, t, p, to))
  {
    var (s1, from) := (Carried(s, t, p, to), From(s, p, to));
    if from == to {
      RunOfOne(s1, Unlock(t, to));
      assert {from, to} - {to} == {};
      assert Do(s1, Unlock(t, to)).motion == Unwrote(s, t, p, to).motion;
      assert s.lock[from := t][to := t] - {to} == s.lock;
    } else {
      var cells := TwoCells(from, to, width);
      assert {cells[0], cells[1]} == {from, to};
      UnlockBoth(s1, t, p, Field(s, p), to, cells[0], cells[1]);
      assert s.lock[from := t][to := t] - {cells[0]} - {cells[1]} == s.lock;
    }
    assert s1.motion[t := Inserted(p, Field(s, p), to, {})] == Unwrote(s, t, p, to).motion;
  }

  lemma RunUpToUnlock(s: Sectors, t: Tid, p: Pid, to: Cell, width: nat)
    requires MayAsk(s, t, p, to)
    ensures Leads(s, UpToUnlock(s, t, p, to, width), Unwrote(s, t, p, to))
  {
    var cells := TwoCells(From(s, p, to), to, width);
    RunOfOne(s, Ask(t, p, to));
    RunLocks(s, t, p, to, width);
    RunShift(s, t, p, to);
    RunUnlocks(s, t, p, to, width);
    hide Can, Do;
    var (s1, s2, s3, s4) := (Asked(s, t, p, to), Granted(s, t, p, to), Carried(s, t, p, to), Unwrote(s, t, p, to));
    RunsInTurn(s2, Shift(t, p in s.place), Unlocks(t, cells), s3, s4);
    RunsInTurn(s1, Locks(t, cells), Shift(t, p in s.place) + Unlocks(t, cells), s2, s4);
    RunsInTurn(s, [Ask(t, p, to)], Locks(t, cells) + (Shift(t, p in s.place) + Unlocks(t, cells)), s1, s4);
  }

  lemma RunStore(s: Sectors, t: Tid, p: Pid, to: Cell)
    requires MayAsk(s, t, p, to)
    ensures Leads(Unwrote(s, t, p, to), [Store(t)], Moved(s, p, to))
  {
    var s1 := Unwrote(s, t, p, to);
    RunOfOne(s1, Store(t));
    assert s1.asking - {p} == s.asking;
    assert s1.motion[t := Still] == s.motion;
  }

  /** The whole request, from reading the fields to writing them, is a run of the sector map. */
  lemma RunRequest(s: Sectors, t: Tid, p: Pid, to: Cell, width: nat)
    requires MayAsk(s, t, p, to)
    ensures Leads(s, WholeRequest(s, t, p, to, width), Moved(s, p, to))
  {
    RunUpToUnlock(s, t, p, to, width);
    RunStore(s, t, p, to);
    RunsInTurn(s, UpToUnlock(s, t, p, to, width), [Store(t)], Unwrote(s, t, p, to), Moved(s, p, to));
  }

  /**
   In every request that changes the cell there is a moment, after the unlock and before the fields are
   written, when any other thread may lock the new cell and finds in it a player whose fields do not
   name it.
   */
  lemma EveryMoveIsSeenEarly(s: Sectors, t: Tid, p: Pid, to: Cell, width: nat, u: Tid)
    requires Inv(s) && MayAsk(s, t, p, to) && !Names(s, p, to) && u != t && u < |s.motion|
    ensures Run(s, UpToUnlock(s, t, p, to, width))
    ensures var s' := After(s, UpToUnlock(s, t, p, to, width));
            && Can(s', LockShared(u, to)) && Free(s', to)
            && p in s'.sets[to] && !Names(s', p, to) && !Agrees(s', p)
  {
    RunUpToUnlock(s, t, p, to, width);
    var s' := Unwrote(s, t, p, to);
    assert to in s'.sets && p in s'.sets[to] && !Names(s', p, to);
  }

  /** A finished request leaves its player settled and every other player as it was. */
  lemma RequestEffect(s: Sectors, t: Tid, p: Pid, to: Cell, width: nat)
    requires Inv(s) && MayAsk(s, t, p, to)
    ensures Inv(Moved(s, p, to)) && Agrees(Moved(s, p, to), p)
    ensures forall c, q :: c in s.sets ==>
              (q in Moved(s, p, to).sets[c] <==> if q == p then c == to else q in s.sets[c])
  {
    RunRequest(s, t, p, to, width);
    InvRun(s, WholeRequest(s, t, p, to, width));
    var s' := Moved(s, p, to);
    assert PlaceOk(s, p);
    SettledAgrees(s', p);
    forall c | c in s.sets ensures p in s'.sets[c] <==> c == to {
      assert p in s'.sets[c] <==> Names(s', p, c);
    }
  }

  // ----- what a call does to the locks ---------------------------------------------------------

  /** A lock taken or given back, and what sets and fields were then. */
  datatype LockEvent =
    | Taken(c: Cell, sets: map<Cell, set<Pid>>, place: map<Pid, Cell>)
    | GivenBack(c: Cell, sets: map<Cell, set<Pid>>, place: map<Pid, Cell>)

  /** The cells are `c` and `d`. */
  predicate AreBoth(es: seq<LockEvent>, c: Cell, d: Cell) {
    && (forall i :: 0 <= i < |es| ==> es[i].c == c || es[i].c == d)
    && (exists i :: 0 <= i < |es| && es[i].c == c)
    && (exists i :: 0 <= i < |es| && es[i].c == d)
  }

  /** The locks of `c` and `d` are taken, in strictly increasing index, the same cell once, with sets and fields as given. */
  predicate TakesInOrder(es: seq<LockEvent>, c: Cell, d: Cell, width: nat, sets: map<Cell, set<Pid>>, place: map<Pid, Cell>) {
    && AreBoth(es, c, d)
    && (forall i, j :: 0 <= i < j < |es| ==> IndexOf(es[i].c, width) < IndexOf(es[j].c, width))
    && (forall i :: 0 <= i < |es| ==> es[i] == Taken(es[i].c, sets, place))
  }

  /** The locks of `c` and `d` are given back, each once, with sets and fields as given. */
  predicate GivesBackOnce(es: seq<LockEvent>, c: Cell, d: Cell, sets: map<Cell, set<Pid>>, place: map<Pid, Cell>) {
    && AreBoth(es, c, d)
    && (forall i, j :: 0 <= i < j < |es| ==> es[i].c != es[j].c)
    && (forall i :: 0 <= i < |es| ==> es[i] == GivenBack(es[i].c, sets, place))
  }

  lemma TwoAreAll(es: seq<LockEvent>, c: Cell, d: Cell)
    requires (|es| == 1 && es[0].c == c == d) || (|es| == 2 && {es[0].c, es[1].c} == {c, d})
    ensures AreBoth(es, c, d)
  {
    if |es| == 1 {
      assert es[0].c == c && es[0].c == d;
    } else {
      assert es[0].c in {c, d} && es[1].c in {c, d} && c in {es[0].c, es[1].c} && d in {es[0].c, es[1].c};
      assert es[0].c == c || es[1].c == c;
      assert es[0].c == d || es[1].c == d;
    }
  }

  lemma OneIsBoth(c: Cell, width: nat, sets: map<Cell, set<Pid>>, place: map<Pid, Cell>)
    ensures TakesInOrder([Taken(c, sets, place)], c, c, width, sets, place)
    ensures GivesBackOnce([GivenBack(c, sets, place)], c, c, sets, place)
  {
    TwoAreAll([Taken(c, sets, place)], c, c);
    TwoAreAll([GivenBack(c, sets, place)], c, c);
  }

  // ----- the sector map as an object -----------------------------------------------------------

  class SectorMap {
    const width: nat
    var sets: map<Cell, set<Pid>>
    var lock: map<Cell, Tid>
    var readers: set<Reader>
    var place: map<Pid, Cell>
    ghost var asking: map<Pid, Tid>
    ghost var wiped: set<Pid>
    ghost var motion: seq<Motion>

    /** Every lock taken and given back on this object so far, in turn. */
    ghost var log: seq<LockEvent>

    ghost function View(): Sectors
      reads this
    {
      Sectors(sets, lock, readers, place, asking, wiped, motion)
    }

    ghost predicate OnGrid()
      reads this
    {
      forall c :: c in sets ==> c.x < width
    }

    constructor (width: nat, height: nat, ghost threads: nat)
      ensures this.width == width
      ensures View() == Start(set x, y | 0 <= x < width && 0 <= y < height :: Cell(x, y), threads)
      ensures OnGrid() && log == []
    {
      this.width := width;
      var grid := set x, y | 0 <= x < width && 0 <= y < height :: Cell(x, y);
      sets := map c | c in grid :: {};
      lock, readers, place := map[], {}, map[];
      asking, wiped, motion, log := map[], {}, seq(threads, _ => Still), [];
    }

    method LockSectorExclusive(t: Tid, c: Cell)
      requires Free(View(), c)
      modifies this`lock, this`log
      ensures lock == old(lock)[c := t] && log == old(log) + [Taken(c, sets, place)]
    {
      lock := lock[c := t];
      log := log + [Taken(c, sets, place)];
    }

    /** Whoever has it. */
    method UnlockSectorExclusive(c: Cell)
      modifies this`lock, this`log
      ensures lock == old(lock) - {c} && log == old(log) + [GivenBack(c, sets, place)]
    {
      lock := lock - {c};
      log := log + [GivenBack(c, sets, place)];
    }

    /** Locks both cells, lower index first, the same cell once. */
    method LockTwoSectorsExclusive(t: Tid, c: Cell, d: Cell) returns (ghost es: seq<LockEvent>)
      requires Free(View(), c) && Free(View(), d) && c.x < width && d.x < width
      modifies this`lock, this`log
      ensures lock == old(lock)[c := t][d := t]
      ensures log == old(log) + es && TakesInOrder(es, c, d, width, sets, place)
    {
      LockOrder.LockIndexIsInjective(c.x, c.y, d.x, d.y, width);
      var (i1, i2) := (IndexOf(c, width), IndexOf(d, width));
      if i1 == i2 {
        LockSectorExclusive(t, c);
        es := [Taken(c, sets, place)];
      } else if i1 < i2 {
        LockSectorExclusive(t, c);
        LockSectorExclusive(t, d);
        es := [Taken(c, sets, place), Taken(d, sets, place)];
      } else {
        LockSectorExclusive(t, d);
        LockSectorExclusive(t, c);
        es := [Taken(d, sets, place), Taken(c, sets, place)];
      }
      TwoAreAll(es, c, d);
      assert lock == old(lock)[c := t][d := t];
    }

    method UnlockTwoSectorsExclusive(c: Cell, d: Cell) returns (ghost es: seq<LockEvent>)
      requires c.x < width && d.x < width
      modifies this`lock, this`log
      ensures lock == old(lock) - {c, d}
      ensures log == old(log) + es && GivesBackOnce(es, c, d, sets, place)
    {
      LockOrder.LockIndexIsInjective(c.x, c.y, d.x, d.y, width);
      UnlockSectorExclusive(c);
      es := [GivenBack(c, sets, place)];
      if IndexOf(c, width) != IndexOf(d, width) {
        UnlockSectorExclusive(d);
        es := [GivenBack(c, sets, place), GivenBack(d, sets, place)];
      }
      TwoAreAll(es, c, d);
      assert lock == old(lock) - {c, d};
    }

    /** The erase and the insert, between the lock and the unlock. */
    method Relocate(p: Pid, origin: Option<Cell>, to: Cell)
      requires to in sets && (origin.Some? ==> origin.value in sets)
      modifies this`sets, this`wiped
      ensures sets == Shifted(old(sets), p, origin, to) && wiped == old(wiped) - {p}
    {
      if origin.Some? {
        sets := sets[origin.value := sets[origin.value] - {p}];
      }
      sets := sets[to := sets[to] + {p}];
      wiped := wiped - {p};
    }

    /**
     From the locks to the unlocks: two cells if the player has one already, else the target alone. The sets
     are the old ones up to the last lock, and the new ones from the first unlock on.
     */
    method Carry(t: Tid, p: Pid, to: Cell) returns (ghost taken: seq<LockEvent>, ghost given: seq<LockEvent>)
      requires Free(View(), to) && Free(View(), From(View(), p, to)) && OnGrid()
      modifies this`sets, this`lock, this`wiped, this`log
      ensures lock == old(lock) && wiped == old(wiped) - {p} && OnGrid()
      ensures sets == Shifted(old(sets), p, Field(old(View()), p), to)
      ensures log == old(log) + taken + given
      ensures TakesInOrder(taken, From(old(View()), p, to), to, width, old(sets), place)
      ensures GivesBackOnce(given, From(old(View()), p, to), to, sets, place)
    {
      hide TakesInOrder, GivesBackOnce;
      ghost var (locks, before) := (lock, log);
      if p in place {
        var from := place[p];
        taken := LockTwoSectorsExclusive(t, from, to);
        Relocate(p, Some(from), to);
        given := UnlockTwoSectorsExclusive(from, to);
        assert locks[from := t][to := t] - {from, to} == locks;
      } else {
        taken, given := [Taken(to, sets, place)], [];
        OneIsBoth(to, width, sets, place);
        LockSectorExclusive(t, to);
        Relocate(p, None, to);
        UnlockSectorExclusive(to);
        given := [GivenBack(to, sets, place)];
        OneIsBoth(to, width, sets, place);
        assert locks[to := t] - {to} == locks;
      }
      assert log == before + taken + given;
    }

    /**
     Req_SectorMove. A target outside the grid is refused and changes nothing. Otherwise the player
     leaves the set of the cell it was in, if any, joins the new cell's, and its fields name the new
     cell; all other players and all locks are as before; and the whole is a run of the sector map.
     */
    method SectorMove(t: Tid, p: Pid, to: Cell)
      returns (ok: bool, ghost taken: seq<LockEvent>, ghost given: seq<LockEvent>)
      requires Inv(View()) && (to in sets ==> MayAsk(View(), t, p, to)) && OnGrid()
      modifies this
      ensures OnGrid()
      ensures ok <==> to in old(sets)
      ensures !ok ==> View() == old(View()) && log == old(log)
      ensures ok ==>
                && log == old(log) + taken + given
                && TakesInOrder(taken, From(old(View()), p, to), to, width, old(sets), old(place))
                && GivesBackOnce(given, From(old(View()), p, to), to, sets, old(place))
      ensures ok ==>
                && Inv(View()) && Agrees(View(), p)
                && place == old(place)[p := to] && lock == old(lock) && readers == old(readers)
                && sets.Keys == old(sets.Keys)
                && (forall c, q :: c in sets ==> (q in sets[c] <==> if q == p then c == to else q in old(sets)[c]))
                && Leads(old(View()), WholeRequest(old(View()), t, p, to, width), View())
    {
      hide TakesInOrder, GivesBackOnce;
      taken, given := [], [];
      if to !in sets {
        return false, [], [];
      }
      ghost var s := View();
      RunRequest(s, t, p, to, width);
      RequestEffect(s, t, p, to, width);
      taken, given := Carry(t, p, to);
      place := place[p := to];
      assert View() == Moved(s, p, to);
      ok := true;
    }

    /**
     The sector part of LeaveProc: a player with valid fields is erased from the cell they name; the
     fields are left as they are.
     */
    method LeaveSector(t: Tid, p: Pid)
      requires Inv(View()) && IsStill(View(), t) && (p in place ==> Free(View(), place[p]))
      modifies this`sets, this`lock, this`wiped, this`log
      ensures Inv(View()) && place == old(place) && lock == old(lock)
      ensures p !in place ==> View() == old(View()) && log == old(log)
      ensures p in place ==>
                && log == old(log) + [Taken(place[p], old(sets), place), GivenBack(place[p], sets, place)]
                && sets == old(sets)[place[p] := old(sets)[place[p]] - {p}]
                && Leads(old(View()), WholeLeave(t, p), View())
    {
      if p !in place {
        return;
      }
      ghost var s := View();
      RunLeave(s, t, p);
      InvRun(s, WholeLeave(t, p));
      LockSectorExclusive(t, place[p]);
      if p in sets[place[p]] {
        wiped := wiped + {p};
      }
      sets := sets[place[p] := sets[place[p]] - {p}];
      UnlockSectorExclusive(place[p]);
      assert s.lock[place[p] := t] - {place[p]} == s.lock;
      assert View() == WipedFrom(s, p, place[p]);
    }
  }
}
