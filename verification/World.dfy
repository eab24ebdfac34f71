/**
 Player lifetimes and the sector map together. The sets of the sector map hold plain `Player*` and
 count no reference for them; Req_Chat reads isLogined and sessionID through them under the cell's
 lock. A step is one event of the player's life or one action on the sector map.
 */
module World {
  import opened Options
  import L = PlayerLife
  import S = SectorIndex
  import C = PlayerCalls
  import M = SectorMove

  datatype World = World(life: L.Life, sectors: S.Sectors)

  datatype Step = LifeStep(e: L.Event) | SectorStep(a: S.Act)

  /**
   A request is made with a handle that AcquirePlayer returned and the thread keeps to its end; a leave
   goes to the sector between erasing the player from the map and its ReleasePlayer.
   */
  predicate Can(w: World, st: Step) {
    match st
    case LifeStep(e) => L.Enabled(w.life, e) && (!e.NewSlot? ==> S.IsStill(w.sectors, e.t))
    case SectorStep(a) =>
      && S.Can(w.sectors, a)
      && L.In(w.life, a.t)
      && (a.Ask? ==> w.life.workers[a.t].phase.Idle? && a.p in w.life.workers[a.t].held)
      && (a.LeaveTest? ==> w.life.workers[a.t].phase == L.Leaving(a.p))
  }

  function Next(w: World, st: Step): World
    requires Can(w, st)
  {
    match st
    case LifeStep(e) => w.(life := L.Next(w.life, e))
    case SectorStep(a) => w.(sectors := S.Do(w.sectors, a))
  }

  ghost predicate Run(w: World, sts: seq<Step>)
    decreases |sts|
  {
    sts == [] || (Can(w, sts[0]) && Run(Next(w, sts[0]), sts[1..]))
  }

  ghost function After(w: World, sts: seq<Step>): World
    requires Run(w, sts)
    decreases |sts|
  {
    if sts == [] then w else After(Next(w, sts[0]), sts[1..])
  }

  function Start(grid: set<S.Cell>, n: nat, repaired: bool): World {
    World(L.Start(n, repaired), S.Start(grid, n))
  }

  // ----- what ties the two ---------------------------------------------------------------------

  /** The thread of a request holds its player. */
  predicate HoldsMoved(w: World, t: nat) {
    t < |w.sectors.motion| && S.IsRequest(w.sectors.motion[t]) ==>
      L.In(w.life, t) && w.life.workers[t].phase.Idle? && w.sectors.motion[t].p in w.life.workers[t].held
  }

  ghost predicate ListedJoined(w: World, c: S.Cell, p: nat) {
    c in w.sectors.sets && p in w.sectors.sets[c] ==> L.Joined(w.life, p)
  }

  ghost predicate Inv(w: World) {
    && L.Inv(w.life) && !w.life.repaired
    && (forall t :: HoldsMoved(w, t))
    && (forall c, p :: ListedJoined(w, c, p))
  }

  /** What a thread that is not joining holds has been in the map. */
  lemma HeldIsJoined(l: L.Life, t: nat, p: nat)
    requires L.Inv(l) && L.In(l, t) && l.workers[t].phase.Idle? && p in l.workers[t].held
    ensures L.Joined(l, p)
  {
    assert L.Balanced(l, p);
    L.SumCovers(l.workers, t, L.Handles, p);
    L.JoinsHeld(l, p);
  }

  lemma ListedAfterLife(w: World, e: L.Event, c: S.Cell, p: nat)
    requires L.Inv(w.life) && !w.life.repaired && L.Enabled(w.life, e) && ListedJoined(w, c, p)
    ensures ListedJoined(w.(life := L.Next(w.life, e)), c, p)
  {
    if L.Joined(w.life, p) {
      L.JoinedKept(w.life, e, p);
    }
  }

  lemma InvAfterLife(w: World, e: L.Event)
    requires Inv(w) && Can(w, LifeStep(e))
    ensures Inv(Next(w, LifeStep(e)))
  {
    var w' := Next(w, LifeStep(e));
    L.InvAfter(w.life, e);
    forall t ensures HoldsMoved(w', t) {
      assert HoldsMoved(w, t);
      if L.In(w.life, t) && t != L.Actor(e) {
        L.OthersKept(w.life, e, t);
      } else if e.NewSlot? && L.In(w.life, t) {
        NewSlotKeepsWorkers(w.life, e);
      }
    }
    forall c, p ensures ListedJoined(w', c, p) {
      assert ListedJoined(w, c, p);
      ListedAfterLife(w, e, c, p);
    }
  }

  lemma NewSlotKeepsWorkers(l: L.Life, e: L.Event)
    requires L.Enabled(l, e) && e.NewSlot?
    ensures L.Next(l, e).workers == l.workers
  {
  }

  lemma ListedAfterSector(w: World, a: S.Act, c: S.Cell, p: nat)
    requires Can(w, SectorStep(a)) && ListedJoined(w, c, p)
    requires a.Insert? ==> L.Joined(w.life, w.sectors.motion[a.t].p)
    ensures ListedJoined(Next(w, SectorStep(a)), c, p)
  {
  }

  lemma HoldsAfterSector(w: World, a: S.Act, t: nat)
    requires Can(w, SectorStep(a)) && HoldsMoved(w, t) && HoldsMoved(w, a.t)
    ensures HoldsMoved(Next(w, SectorStep(a)), t)
  {
  }

  lemma InvAfterSector(w: World, a: S.Act)
    requires Inv(w) && Can(w, SectorStep(a))
    ensures Inv(Next(w, SectorStep(a)))
  {
    var w' := Next(w, SectorStep(a));
    assert HoldsMoved(w, a.t);
    if a.Insert? {
      HeldIsJoined(w.life, a.t, w.sectors.motion[a.t].p);
    }
    forall t ensures HoldsMoved(w', t) {
      assert HoldsMoved(w, t);
      HoldsAfterSector(w, a, t);
    }
    forall c, p ensures ListedJoined(w', c, p) {
      assert ListedJoined(w, c, p);
      ListedAfterSector(w, a, c, p);
    }
  }

  lemma InvStart(grid: set<S.Cell>, n: nat)
    ensures Inv(Start(grid, n, false))
  {
    L.InvStart(n, false);
  }

  lemma {:induction false} InvRun(w: World, sts: seq<Step>)
    requires Inv(w) && Run(w, sts)
    ensures Inv(After(w, sts))
    decreases |sts|
  {
    hide L.Inv, L.Next, S.Do;
    if sts != [] {
      match sts[0] {
        case LifeStep(e) => InvAfterLife(w, e);
        case SectorStep(a) => InvAfterSector(w, a);
      }
      InvRun(Next(w, sts[0]), sts[1..]);
    }
  }

  // ----- the whole is a run of each part -------------------------------------------------------

  function LifeEvents(sts: seq<Step>): seq<L.Event> {
    if sts == [] then [] else (if sts[0].LifeStep? then [sts[0].e] else []) + LifeEvents(sts[1..])
  }

  function SectorActs(sts: seq<Step>): seq<S.Act> {
    if sts == [] then [] else (if sts[0].SectorStep? then [sts[0].a] else []) + SectorActs(sts[1..])
  }

  lemma {:induction false} ProjectsToLife(w: World, sts: seq<Step>)
    requires Run(w, sts)
    ensures L.Run(w.life, LifeEvents(sts)) && L.After(w.life, LifeEvents(sts)) == After(w, sts).life
    decreases |sts|
  {
    hide L.Next, S.Do;
    if sts != [] {
      var rest := LifeEvents(sts[1..]);
      ProjectsToLife(Next(w, sts[0]), sts[1..]);
      if sts[0].LifeStep? {
        assert ([sts[0].e] + rest)[1..] == rest;
      } else {
        assert LifeEvents(sts) == rest;
      }
    }
  }

  lemma {:induction false} ProjectsToSectors(w: World, sts: seq<Step>)
    requires Run(w, sts)
    ensures S.Run(w.sectors, SectorActs(sts)) && S.After(w.sectors, SectorActs(sts)) == After(w, sts).sectors
    decreases |sts|
  {
    hide L.Next, S.Do;
    if sts != [] {
      var rest := SectorActs(sts[1..]);
      ProjectsToSectors(Next(w, sts[0]), sts[1..]);
      if sts[0].SectorStep? {
        assert ([sts[0].a] + rest)[1..] == rest;
      } else {
        assert SectorActs(sts) == rest;
      }
    }
  }

  // ----- the pointers in the sets --------------------------------------------------------------

  /**
   In every interleaving, whatever a sector set lists at any time is a player that is in use, and it
   stays in use, and the player of the same session, however the run goes on: no pointer in a set can
   come to dangle. It is the reference that LeaveProc never gives back that makes this so.
   */
  lemma SectorPointersAreLive(grid: set<S.Cell>, n: nat, sts: seq<Step>, later: seq<Step>, c: S.Cell, p: nat)
    requires Run(Start(grid, n, false), sts)
    requires var w := After(Start(grid, n, false), sts); Run(w, later) && c in w.sectors.sets && p in w.sectors.sets[c]
    ensures var w := After(Start(grid, n, false), sts);
            var w' := After(w, later);
            && p in w.life.slots && p in w'.life.slots
            && w.life.pool[p] == w'.life.pool[p] == 0
            && w'.life.slots[p].ref > 0
            && w'.life.slots[p].sid == w.life.slots[p].sid
  {
    InvStart(grid, n);
    InvRun(Start(grid, n, false), sts);
    var w := After(Start(grid, n, false), sts);
    assert ListedJoined(w, c, p);
    L.JoinedIsOut(w.life, p);
    ProjectsToLife(w, later);
    L.OnceJoinedForGood(w.life, LifeEvents(later), p);
  }

  /** And, on runs whose leaves find the fields as they read them, the set is what the sector map says it is. */
  lemma LockHolderSees(grid: set<S.Cell>, n: nat, sts: seq<Step>, t: nat, c: S.Cell, p: nat)
    requires Run(Start(grid, n, false), sts) && c in grid
    requires S.Run(S.Start(grid, n), SectorActs(sts)) && S.AlwaysSteady(S.Start(grid, n), SectorActs(sts))
    requires var s := After(Start(grid, n, false), sts).sectors;
             t < |s.motion| && !s.motion[t].Cleared? && S.Sees(s, t, c)
    ensures var s := After(Start(grid, n, false), sts).sectors;
            && c in s.sets
            && (p in s.sets[c] <==>
                  p !in s.wiped && if S.Unwritten(s, p) then S.Moving(s, p).to == c else S.Names(s, p, c))
  {
    ProjectsToSectors(Start(grid, n, false), sts);
    S.SeenUnderLock(grid, n, SectorActs(sts), t, c, p);
  }

  // ----- the repaired leave --------------------------------------------------------------------

  /** The steps run from `w` and end in `w2`. */
  ghost predicate Leads(w: World, sts: seq<Step>, w2: World) {
    Run(w, sts) && After(w, sts) == w2
  }

  lemma RunFromFirst(w: World, st: Step, rest: seq<Step>, w2: World)
    requires Can(w, st) && Leads(Next(w, st), rest, w2)
    ensures Leads(w, [st] + rest, w2)
  {
    assert ([st] + rest)[1..] == rest;
  }

  lemma {:induction false} RunsInTurn(w: World, first: seq<Step>, rest: seq<Step>, w1: World, w2: World)
    requires Leads(w, first, w1) && Leads(w1, rest, w2)
    ensures Leads(w, first + rest, w2)
    decreases |first|
  {
    hide Can, Next;
    if first == [] {
      assert first + rest == rest;
    } else {
      RunsInTurn(Next(w, first[0]), first[1..], rest, w1, w2);
      RunFromFirst(w, first[0], first[1..] + rest, w2);
      assert [first[0]] + (first[1..] + rest) == first + rest;
    }
  }

  /** The request has inserted and unlocked, the leave has passed: what is left for the request's thread to do. */
  function LastSteps(t: nat, p: nat): seq<Step> {
    [SectorStep(S.Store(t))] + ([LifeStep(L.ReleaseCount(t, p))] + [LifeStep(L.ReleaseFree(t))])
  }

  lemma LastStepsDangle(w: World, t: nat, p: nat)
    requires L.Inv(w.life) && w.life.repaired && L.In(w.life, t) && w.life.workers[t].phase.Idle?
    requires p in w.life.workers[t].held && L.HasLeft(w.life, p) && p in w.life.slots && w.life.slots[p].ref == 1
    requires t < |w.sectors.motion| && S.Can(w.sectors, S.Store(t))
    requires var m := w.sectors.motion[t]; m.p == p && m.to in w.sectors.sets && p in w.sectors.sets[m.to]
    ensures var to := w.sectors.motion[t].to;
            && Run(w, LastSteps(t, p))
            && var w' := After(w, LastSteps(t, p));
               p in w'.life.pool && to in w'.sectors.sets && p in w'.sectors.sets[to]
  {
    var s1 := S.Do(w.sectors, S.Store(t));
    var w1 := World(w.life, s1);
    var w2 := World(L.Next(w.life, L.ReleaseCount(t, p)), s1);
    assert w2.life.workers[t].phase == L.Freeing(p);
    var w3 := World(L.Next(w2.life, L.ReleaseFree(t)), s1);
    assert Can(w2, LifeStep(L.ReleaseFree(t)));
    assert Can(w1, LifeStep(L.ReleaseCount(t, p)));
    assert [LifeStep(L.ReleaseFree(t))][1..] == [];
    assert Leads(w3, [], w3);
    assert Leads(w2, [LifeStep(L.ReleaseFree(t))], w3);
    RunFromFirst(w1, LifeStep(L.ReleaseCount(t, p)), [LifeStep(L.ReleaseFree(t))], w3);
    RunFromFirst(w, SectorStep(S.Store(t)), [LifeStep(L.ReleaseCount(t, p))] + [LifeStep(L.ReleaseFree(t))], w3);
  }

  function Lives(es: seq<L.Event>): seq<Step> {
    if es == [] then [] else [LifeStep(es[0])] + Lives(es[1..])
  }

  function Acts(acts: seq<S.Act>): seq<Step> {
    if acts == [] then [] else [SectorStep(acts[0])] + Acts(acts[1..])
  }

  /** Life events of threads that are not in the middle of anything. */
  lemma {:induction false} LiftLife(w: World, es: seq<L.Event>, l: L.Life)
    requires L.Run(w.life, es) && L.After(w.life, es) == l
    requires forall i :: 0 <= i < |es| && !es[i].NewSlot? ==> S.IsStill(w.sectors, es[i].t)
    ensures Leads(w, Lives(es), World(l, w.sectors))
    decreases |es|
  {
    hide L.Next;
    if es != [] {
      LiftLife(w.(life := L.Next(w.life, es[0])), es[1..], l);
      RunFromFirst(w, LifeStep(es[0]), Lives(es[1..]), World(l, w.sectors));
    }
  }

  /** Sector actions of a thread that holds the player it moves. */
  lemma {:induction false} LiftActs(w: World, acts: seq<S.Act>, s: S.Sectors)
    requires S.Run(w.sectors, acts) && S.After(w.sectors, acts) == s
    requires forall i :: 0 <= i < |acts| ==>
               && L.In(w.life, acts[i].t) && !acts[i].LeaveTest?
               && (acts[i].Ask? ==> w.life.workers[acts[i].t].phase.Idle? && acts[i].p in w.life.workers[acts[i].t].held)
    ensures Leads(w, Acts(acts), World(w.life, s))
    decreases |acts|
  {
    hide S.Do, S.Can;
    if acts != [] {
      assert Can(w, SectorStep(acts[0]));
      LiftActs(w.(sectors := S.Do(w.sectors, acts[0])), acts[1..], s);
      RunFromFirst(w, SectorStep(acts[0]), Acts(acts[1..]), World(w.life, s));
    }
  }

  /** Player 0 has joined session 0. */
  function OnePlayer(): L.Life {
    L.Start(2, true).(slots := map[0 := L.Slot(1, false, 0, false, 1, 0, 0)], players := map[0 := 0])
  }

  /** And thread 0 has acquired it. */
  function OneHandle(): L.Life {
    C.WithHeld(C.WithSlot(OnePlayer(), 0, L.Slot(2, false, 0, false, 1, 0, 0)), 0, multiset{0})
  }

  lemma OneJoins()
    ensures C.Leads(L.Start(2, true), [L.NewSlot(0)] + C.JoinEvents(1, 0, 0), OnePlayer())
  {
    var l0 := L.Start(2, true);
    var l1 := L.Next(l0, L.NewSlot(0));
    C.RunOfOne(l0, L.NewSlot(0));
    assert l1.pool == multiset{0} && l1.workers == l0.workers && l1.slots == map[0 := L.Slot(1, false, 0, false, 0, 0, 0)];
    C.Join(l1, 1, 0, 0);
    assert C.AfterJoin(l1, 0, 0) == OnePlayer();
    hide L.Next, L.Enabled;
    C.RunsInTurn(l0, [L.NewSlot(0)], C.JoinEvents(1, 0, 0), l1, OnePlayer());
  }

  function AcquireSteps(): seq<L.Event> {
    C.LookUp(0, 0) + [L.AcquireCheck(0)]
  }

  lemma OneAcquires()
    requires L.Inv(OnePlayer())
    ensures C.Leads(OnePlayer(), AcquireSteps(), OneHandle())
  {
    C.Acquire(OnePlayer(), 0, 0);
    assert multiset{} + multiset{0} == multiset{0};
  }

  function JoinSteps(): seq<L.Event> {
    ([L.NewSlot(0)] + C.JoinEvents(1, 0, 0)) + AcquireSteps()
  }

  /** Thread 1 joins player 0 for session 0, and thread 0 acquires it. */
  lemma JoinedAndAcquired()
    ensures C.Leads(L.Start(2, true), JoinSteps(), OneHandle()) && L.Inv(OneHandle())
  {
    OneJoins();
    L.InvStart(2, true);
    L.InvRun(L.Start(2, true), [L.NewSlot(0)] + C.JoinEvents(1, 0, 0));
    OneAcquires();
    hide L.Next, L.Enabled, L.Inv;
    C.RunsInTurn(L.Start(2, true), [L.NewSlot(0)] + C.JoinEvents(1, 0, 0), AcquireSteps(), OnePlayer(), OneHandle());
    L.InvRun(L.Start(2, true), JoinSteps());
  }

  predicate OnlyTwoThreads(es: seq<L.Event>) {
    forall i :: 0 <= i < |es| && !es[i].NewSlot? ==> es[i].t < 2
  }

  lemma JoinThreads()
    ensures OnlyTwoThreads(JoinSteps())
  {
  }

  /** The player has left and the map's reference is given up; one handle is left. */
  function LetGo(l: L.Life): L.Life
    requires 0 in l.slots
  {
    C.WithSlot(l, 0, l.slots[0].(ref := 1, closing := true, left := true)).(players := l.players - {0})
  }

  lemma GivesUp(l: L.Life)
    requires l.repaired && C.Quiescent(l, 1) && l.players == map[0 := 0] && 0 in l.slots && l.slots[0].ref == 2
    ensures C.Leads(C.Erased(l, 1, 0), [L.LeaveEnd(1), L.ReleaseCount(1, 0)], LetGo(l))
  {
    var l1 := C.Erased(l, 1, 0);
    C.RunOfTwo(l1, L.LeaveEnd(1), L.ReleaseCount(1, 0));
    var l2 := L.Next(L.Next(l1, L.LeaveEnd(1)), L.ReleaseCount(1, 0));
    assert l.workers[1].held + multiset{0} - multiset{0} == l.workers[1].held;
    assert l2.workers == l.workers;
    assert l2.slots == LetGo(l).slots;
  }

  function LeaveSteps(): seq<L.Event> {
    [L.LockExclusive(1), L.LeaveErase(1, 0), L.UnlockExclusive(1)] + [L.LeaveEnd(1), L.ReleaseCount(1, 0)]
  }

  /** Thread 1 then leaves for the session, by the repaired LeaveProc, and gives up the map's reference. */
  lemma LeftByOther(l: L.Life)
    requires l.repaired && C.Quiescent(l, 1) && l.players == map[0 := 0] && 0 in l.slots && l.slots[0].ref == 2
    ensures C.Leads(l, LeaveSteps(), LetGo(l))
  {
    C.Erase(l, 1, 0);
    GivesUp(l);
    hide L.Next, L.Enabled;
    C.RunsInTurn(l, [L.LockExclusive(1), L.LeaveErase(1, 0), L.UnlockExclusive(1)],
                 [L.LeaveEnd(1), L.ReleaseCount(1, 0)], C.Erased(l, 1, 0), LetGo(l));
  }

  function FirstPlacement(c: S.Cell): seq<S.Act> {
    [S.Ask(0, 0, c), S.Lock(0, c), S.Insert(0), S.Unlock(0, c)]
  }

  /** Thread 0 has placed player 0 in the only cell and not yet written its fields. */
  lemma PlacedUnwritten(c: S.Cell)
    ensures var s0 := S.Start({c}, 2);
            && M.MayAsk(s0, 0, 0, c) && S.Leads(s0, FirstPlacement(c), M.Unwrote(s0, 0, 0, c))
  {
    var s0 := S.Start({c}, 2);
    M.RunUpToUnlock(s0, 0, 0, c, 1);
    assert M.UpToUnlock(s0, 0, 0, c, 1) == FirstPlacement(c);
  }

  /** Where the leave leaves, the request ends with a pooled player in a set. */
  lemma RequestDangles(l: L.Life, s: S.Sectors, c: S.Cell)
    requires l.repaired && C.Quiescent(l, 0) && 0 in l.slots && 0 in l.workers[0].held && L.Inv(LetGo(l))
    requires |s.motion| == 2 && s.motion[0] == S.Inserted(0, None, c, {}) && c in s.sets && 0 in s.sets[c]
    ensures Run(World(LetGo(l), s), LastSteps(0, 0))
    ensures var w := After(World(LetGo(l), s), LastSteps(0, 0)); 0 in w.life.pool && c in w.sectors.sets && 0 in w.sectors.sets[c]
  {
    LastStepsDangle(World(LetGo(l), s), 0, 0);
  }

  lemma LiftLeave(l: L.Life, s: S.Sectors)
    requires l.repaired && C.Quiescent(l, 1) && l.players == map[0 := 0] && 0 in l.slots && l.slots[0].ref == 2
    requires S.IsStill(s, 1)
    ensures Leads(World(l, s), Lives(LeaveSteps()), World(LetGo(l), s))
  {
    hide L.Next, L.Enabled;
    LeftByOther(l);
    LiftLife(World(l, s), LeaveSteps(), LetGo(l));
  }

  /** From the placement on: the leave passes, and the request ends. */
  lemma EndsDangling(l: L.Life, s: S.Sectors, c: S.Cell)
    requires L.Inv(l) && l.repaired && C.Quiescent(l, 0) && C.Quiescent(l, 1)
    requires l.players == map[0 := 0] && 0 in l.slots && l.slots[0].ref == 2 && 0 in l.workers[0].held
    requires |s.motion| == 2 && s.motion[0] == S.Inserted(0, None, c, {}) && S.IsStill(s, 1)
    requires c in s.sets && 0 in s.sets[c]
    ensures var sts := Lives(LeaveSteps()) + LastSteps(0, 0);
            && Run(World(l, s), sts)
            && var w := After(World(l, s), sts); 0 in w.life.pool && c in w.sectors.sets && 0 in w.sectors.sets[c]
  {
    hide L.Next, L.Enabled, L.Inv, S.Do, S.Can, Can, Next, LeaveSteps, LastSteps;
    LeftByOther(l);
    L.InvRun(l, LeaveSteps());
    RequestDangles(l, s, c);
    LiftLeave(l, s);
    var w := World(LetGo(l), s);
    RunsInTurn(World(l, s), Lives(LeaveSteps()), LastSteps(0, 0), w, After(w, LastSteps(0, 0)));
  }

  /** Life events alone, of two threads that are not in the middle of anything, as steps of the whole. */
  lemma LiftFromStart(c: S.Cell, es: seq<L.Event>, l: L.Life)
    requires C.Leads(L.Start(2, true), es, l) && OnlyTwoThreads(es)
    ensures Leads(Start({c}, 2, true), Lives(es), World(l, S.Start({c}, 2)))
  {
    hide L.Next, L.Enabled;
    LiftLife(Start({c}, 2, true), es, l);
  }

  /** The placement, as steps of the whole. */
  lemma LiftPlacement(c: S.Cell)
    ensures Leads(World(OneHandle(), S.Start({c}, 2)), Acts(FirstPlacement(c)),
                  World(OneHandle(), M.Unwrote(S.Start({c}, 2), 0, 0, c)))
  {
    PlacedUnwritten(c);
    var s1 := M.Unwrote(S.Start({c}, 2), 0, 0, c);
    hide S.Do, S.Can, L.Next, L.Enabled;
    LiftActs(World(OneHandle(), S.Start({c}, 2)), FirstPlacement(c), s1);
  }

  lemma PlacedEnds(c: S.Cell)
    requires L.Inv(OneHandle())
    ensures var w := World(OneHandle(), M.Unwrote(S.Start({c}, 2), 0, 0, c));
            var sts := Lives(LeaveSteps()) + LastSteps(0, 0);
            && Run(w, sts)
            && 0 in After(w, sts).life.pool && c in After(w, sts).sectors.sets && 0 in After(w, sts).sectors.sets[c]
  {
    hide LeaveSteps, LastSteps, L.Inv;
    EndsDangling(OneHandle(), M.Unwrote(S.Start({c}, 2), 0, 0, c), c);
  }

  /**
   The repaired LeaveProc alone would not do. On this run the player's request has inserted it and not yet
   written the fields when the leave passes, which finds no valid fields and no sector to leave; then the
   request's own release returns to the pool a player that a set lists.
   */
  lemma RepairedWouldDangle(c: S.Cell) returns (sts: seq<Step>)
    ensures Run(Start({c}, 2, true), sts)
    ensures var w := After(Start({c}, 2, true), sts); 0 in w.life.pool && c in w.sectors.sets && 0 in w.sectors.sets[c]
  {
    hide L.Next, L.Enabled, L.Inv, S.Do, S.Can, Can, Next, LeaveSteps, LastSteps, JoinSteps, FirstPlacement, OneHandle, M.Unwrote;
    var (s0, s1) := (S.Start({c}, 2), M.Unwrote(S.Start({c}, 2), 0, 0, c));
    JoinedAndAcquired();
    PlacedEnds(c);
    JoinThreads();
    LiftFromStart(c, JoinSteps(), OneHandle());
    LiftPlacement(c);
    var (w1, w2) := (World(OneHandle(), s0), World(OneHandle(), s1));
    var last := Lives(LeaveSteps()) + LastSteps(0, 0);
    RunsInTurn(w1, Acts(FirstPlacement(c)), last, w2, After(w2, last));
    RunsInTurn(Start({c}, 2, true), Lives(JoinSteps()), Acts(FirstPlacement(c)) + last, w1, After(w2, last));
    sts := Lives(JoinSteps()) + (Acts(FirstPlacement(c)) + last);
  }
}
