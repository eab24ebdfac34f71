/**
 The sector map: `sector[y][x].set` against the `sectorX`/`sectorY` fields of the players, under any
 number of threads that handle sector-move requests, leaves and chat messages. Req_SectorMove reads
 the fields, locks the cells, erases and inserts, unlocks, and only then writes the fields. LeaveProc
 reads the fields anew for its test, its lock, its erase and its unlock, and never writes them.
 */
module SectorIndex {
  import opened Options

  type Pid = nat
  type Tid = nat

  datatype Cell = Cell(x: nat, y: nat)

  /** A shared lock: reader `t` of cell `c`. */
  datatype Reader = Reader(c: Cell, t: Tid)

  /**
   What a thread is in the middle of. `origin` is what the fields said when the request read them,
   `got` the locks it has taken and not given back, `c` the cell that a leave read for its lock.
   */
  datatype Motion =
    | Still
    | Wanting(p: Pid, origin: Option<Cell>, to: Cell, got: set<Cell>)   // fields read
    | Cleared(p: Pid, origin: Option<Cell>, to: Cell, got: set<Cell>)   // erased from the old set
    | Inserted(p: Pid, origin: Option<Cell>, to: Cell, got: set<Cell>)  // in the new set, fields not written yet
    | Testing(p: Pid)          // a leave that has found the fields valid
    | Wiping(p: Pid, c: Cell)  // that has read them for its lock
    | Locked(p: Pid, c: Cell)  // that has taken the lock
    | Wiped(p: Pid, c: Cell)   // that has erased

  /**
   `place` is the players' sector fields, absent for the invalid pair that Reset stores. `asking` is
   the thread that handles a player's request, one at a time. `wiped` records the players that a leave
   took out of a set and no request has put back.
   */
  datatype Sectors = Sectors(
    sets: map<Cell, set<Pid>>,
    lock: map<Cell, Tid>,
    readers: set<Reader>,
    place: map<Pid, Cell>,
    asking: map<Pid, Tid>,
    wiped: set<Pid>,
    motion: seq<Motion>)

  datatype Act =
    | LockShared(t: Tid, c: Cell)
    | UnlockShared(t: Tid, c: Cell)
    | Ask(t: Tid, p: Pid, to: Cell)
    | Lock(t: Tid, c: Cell)
    | Erase(t: Tid)
    | Insert(t: Tid)
    | Unlock(t: Tid, c: Cell)
    | Store(t: Tid)
    | LeaveTest(t: Tid, p: Pid)
    | LeaveRead(t: Tid)
    | LeaveLock(t: Tid)
    | LeaveErase(t: Tid)
    | LeaveUnlock(t: Tid)

  predicate Holds(s: Sectors, t: Tid, c: Cell) {
    c in s.lock && s.lock[c] == t
  }

  predicate IsStill(s: Sectors, t: Tid) {
    t < |s.motion| && s.motion[t].Still?
  }

  predicate IsRequest(m: Motion) {
    m.Wanting? || m.Cleared? || m.Inserted?
  }

  predicate IsLeave(m: Motion) {
    m.Testing? || m.Wiping? || m.Locked? || m.Wiped?
  }

  function Field(s: Sectors, p: Pid): Option<Cell> {
    if p in s.place then Some(s.place[p]) else None
  }

  /** The cells whose locks a request takes. */
  predicate Needs(m: Motion, c: Cell) {
    IsRequest(m) && (c == m.to || m.origin == Some(c))
  }

  predicate Unshared(s: Sectors, c: Cell) {
    forall r :: r in s.readers ==> r.c != c
  }

  /** Nobody has the lock, exclusively or shared. */
  predicate Free(s: Sectors, c: Cell) {
    c in s.sets && c !in s.lock && Unshared(s, c)
  }

  /** No step looks at who holds a lock, except one that waits for it to be free. */
  predicate Can(s: Sectors, a: Act) {
    && a.t < |s.motion|
    && var m := s.motion[a.t];
       match a
       case LockShared(t, c) => c in s.sets && c !in s.lock
       case UnlockShared(t, c) => Reader(c, t) in s.readers
       case Ask(t, p, to) => m.Still? && p !in s.asking && to in s.sets
       case Lock(t, c) => m.Wanting? && Needs(m, c) && c !in m.got && Free(s, c)
       case Erase(t) => m.Wanting? && m.origin.Some? && m.origin.value in s.sets && m.origin.value in m.got && m.to in m.got
       case Insert(t) => (m.Cleared? || (m.Wanting? && m.origin.None?)) && m.to in s.sets && m.to in m.got
       case Unlock(t, c) => m.Inserted? && c in m.got
       case Store(t) => m.Inserted? && m.got == {}
       case LeaveTest(t, p) => m.Still? && p in s.place
       case LeaveRead(t) => m.Testing? && m.p in s.place
       case LeaveLock(t) => m.Wiping? && Free(s, m.c)
       case LeaveErase(t) => m.Locked? && m.p in s.place && s.place[m.p] in s.sets
       case LeaveUnlock(t) => m.Wiped? && m.p in s.place
  }

  function With(s: Sectors, t: Tid, m: Motion): Sectors
    requires t < |s.motion|
  {
    s.(motion := s.motion[t := m])
  }

  function Do(s: Sectors, a: Act): Sectors
    requires Can(s, a)
  {
    var m := s.motion[a.t];
    match a
    case LockShared(t, c) => s.(readers := s.readers + {Reader(c, t)})
    case UnlockShared(t, c) => s.(readers := s.readers - {Reader(c, t)})
    case Ask(t, p, to) => With(s, t, Wanting(p, Field(s, p), to, {})).(asking := s.asking[p := t])
    case Lock(t, c) => With(s, t, Wanting(m.p, m.origin, m.to, m.got + {c})).(lock := s.lock[c := t])
    case Erase(t) =>
      With(s, t, Cleared(m.p, m.origin, m.to, m.got)).(sets := s.sets[m.origin.value := s.sets[m.origin.value] - {m.p}])
    case Insert(t) =>
      With(s, t, Inserted(m.p, m.origin, m.to, m.got))
        .(sets := s.sets[m.to := s.sets[m.to] + {m.p}], wiped := s.wiped - {m.p})
    case Unlock(t, c) => With(s, t, Inserted(m.p, m.origin, m.to, m.got - {c})).(lock := s.lock - {c})
    case Store(t) => With(s, t, Still).(place := s.place[m.p := m.to], asking := s.asking - {m.p})
    case LeaveTest(t, p) => With(s, t, Testing(p))
    case LeaveRead(t) => With(s, t, Wiping(m.p, s.place[m.p]))
    case LeaveLock(t) => With(s, t, Locked(m.p, m.c)).(lock := s.lock[m.c := t])
    case LeaveErase(t) =>
      var d := s.place[m.p];
      With(s, t, Wiped(m.p, m.c))
        .(sets := s.sets[d := s.sets[d] - {m.p}], wiped := if m.p in s.sets[d] then s.wiped + {m.p} else s.wiped)
    case LeaveUnlock(t) => With(s, t, Still).(lock := s.lock - {s.place[m.p]})
  }

  ghost predicate Run(s: Sectors, acts: seq<Act>)
    decreases |acts|
  {
    acts == [] || (Can(s, acts[0]) && Run(Do(s, acts[0]), acts[1..]))
  }

  ghost function After(s: Sectors, acts: seq<Act>): Sectors
    requires Run(s, acts)
    decreases |acts|
  {
    if acts == [] then s else After(Do(s, acts[0]), acts[1..])
  }

  /** `n` threads over the cells of `grid`, all sets empty, all locks free, all fields invalid. */
  function Start(grid: set<Cell>, n: nat): Sectors {
    Sectors(map c | c in grid :: {}, map[], {}, map[], map[], {}, seq(n, _ => Still))
  }

  // ----- sets and fields: what every run keeps -------------------------------------------------

  /** A request's player is its own, its fields are as it read them, and between erase and insert it has taken both locks. */
  predicate MotionOk(s: Sectors, t: Tid)
    requires t < |s.motion|
  {
    var m := s.motion[t];
    && (IsRequest(m) ==> m.p in s.asking && s.asking[m.p] == t && m.to in s.sets && m.origin == Field(s, m.p))
    && (m.Cleared? ==> m.origin.Some? && m.origin.value in m.got && m.to in m.got)
    && (IsLeave(m) ==> m.p in s.place)
  }

  /** The request that has `p` in hand, if any. */
  function Moving(s: Sectors, p: Pid): Motion {
    if p in s.asking && s.asking[p] < |s.motion| && IsRequest(s.motion[s.asking[p]]) && s.motion[s.asking[p]].p == p
    then s.motion[s.asking[p]] else Still
  }

  /** The players whose fields name the cell. */
  predicate Names(s: Sectors, p: Pid, c: Cell) {
    p in s.place && s.place[p] == c
  }

  /** Which set `p` belongs to: where its request has put it, else the one its fields name, unless a leave wiped it. */
  predicate Listed(s: Sectors, p: Pid, c: Cell) {
    var m := Moving(s, p);
    if m.Cleared? then false
    else p !in s.wiped && (if m.Inserted? then c == m.to else Names(s, p, c))
  }

  predicate ListOk(s: Sectors, p: Pid, c: Cell) {
    c in s.sets ==> (p in s.sets[c] <==> Listed(s, p, c))
  }

  predicate PlaceOk(s: Sectors, p: Pid) {
    && (p in s.place ==> s.place[p] in s.sets)
    && (p in s.wiped ==> p in s.place)
    && (p in s.asking ==> s.asking[p] < |s.motion|)
  }

  ghost predicate Inv(s: Sectors) {
    && (forall t :: 0 <= t < |s.motion| ==> MotionOk(s, t))
    && (forall p :: PlaceOk(s, p))
    && (forall c, p :: ListOk(s, p, c))
    && (forall r :: r in s.readers ==> r.c !in s.lock)
  }

  lemma MotionsAfter(s: Sectors, a: Act)
    requires Can(s, a) && Inv(s)
    ensures var s' := Do(s, a); forall t :: 0 <= t < |s'.motion| ==> MotionOk(s', t)
  {
    var s' := Do(s, a);
    forall t | 0 <= t < |s'.motion| ensures MotionOk(s', t) {
      assert MotionOk(s, t) && MotionOk(s, a.t);
      MotionAfter(s, a, t);
    }
  }

  /** The acts by which a request takes and gives up a player. */
  predicate ChangesAsking(a: Act) {
    a.Ask? || a.Store?
  }

  lemma MotionAfterAsking(s: Sectors, a: Act, t: Tid)
    requires Can(s, a) && t < |s.motion| && MotionOk(s, t) && MotionOk(s, a.t) && ChangesAsking(a)
    ensures |Do(s, a).motion| == |s.motion| && MotionOk(Do(s, a), t)
  {
  }

  lemma OtherMotionAfter(s: Sectors, a: Act, t: Tid)
    requires Can(s, a) && t < |s.motion| && MotionOk(s, t) && t != a.t && !ChangesAsking(a)
    ensures |Do(s, a).motion| == |s.motion| && MotionOk(Do(s, a), t)
  {
  }

  lemma OwnMotionAfter(s: Sectors, a: Act)
    requires Can(s, a) && MotionOk(s, a.t) && !ChangesAsking(a)
    ensures |Do(s, a).motion| == |s.motion| && MotionOk(Do(s, a), a.t)
  {
  }

  lemma MotionAfter(s: Sectors, a: Act, t: Tid)
    requires Can(s, a) && t < |s.motion| && MotionOk(s, t) && MotionOk(s, a.t)
    ensures |Do(s, a).motion| == |s.motion| && MotionOk(Do(s, a), t)
  {
    if ChangesAsking(a) {
      MotionAfterAsking(s, a, t);
    } else if t == a.t {
      OwnMotionAfter(s, a);
    } else {
      OtherMotionAfter(s, a, t);
    }
  }

  predicate ChangesSets(a: Act) {
    a.Erase? || a.Insert? || a.LeaveErase?
  }

  lemma ListsAfterChange(s: Sectors, a: Act, p: Pid, c: Cell)
    requires Can(s, a) && MotionOk(s, a.t) && ListOk(s, p, c) && PlaceOk(s, p) && ChangesSets(a)
    requires p in s.asking ==> MotionOk(s, s.asking[p])
    requires a.LeaveErase? ==> ListOk(s, p, s.place[s.motion[a.t].p])
    ensures ListOk(Do(s, a), p, c)
  {
  }

  lemma ListsAfterOther(s: Sectors, a: Act, p: Pid, c: Cell)
    requires Can(s, a) && MotionOk(s, a.t) && ListOk(s, p, c) && PlaceOk(s, p) && !ChangesSets(a)
    requires p in s.asking ==> MotionOk(s, s.asking[p])
    ensures ListOk(Do(s, a), p, c)
  {
  }

  lemma PlacesAfter(s: Sectors, a: Act, p: Pid)
    requires Can(s, a) && MotionOk(s, a.t) && PlaceOk(s, p)
    ensures PlaceOk(Do(s, a), p)
  {
  }

  lemma ReadersAfter(s: Sectors, a: Act)
    requires Can(s, a) && forall r :: r in s.readers ==> r.c !in s.lock
    ensures forall r :: r in Do(s, a).readers ==> r.c !in Do(s, a).lock
  {
  }

  lemma InvAfter(s: Sectors, a: Act)
    requires Can(s, a) && Inv(s)
    ensures Inv(Do(s, a))
  {
    MotionsAfter(s, a);
    ReadersAfter(s, a);
    assert MotionOk(s, a.t);
    forall p ensures PlaceOk(Do(s, a), p) {
      assert PlaceOk(s, p);
      PlacesAfter(s, a, p);
    }
    forall c, p ensures ListOk(Do(s, a), p, c) {
      assert PlaceOk(s, p) && ListOk(s, p, c);
      if ChangesSets(a) { ListsAfterChange(s, a, p, c); } else { ListsAfterOther(s, a, p, c); }
    }
  }

  lemma {:induction false} InvRun(s: Sectors, acts: seq<Act>)
    requires Inv(s) && Run(s, acts)
    ensures Inv(After(s, acts)) && |After(s, acts).motion| == |s.motion|
    ensures After(s, acts).sets.Keys == s.sets.Keys
    decreases |acts|
  {
    if acts != [] {
      InvAfter(s, acts[0]);
      InvRun(Do(s, acts[0]), acts[1..]);
    }
  }

  /** Not even in the middle of a move is a player in two sets. */
  lemma NeverInTwoSets(grid: set<Cell>, n: nat, acts: seq<Act>, p: Pid, c: Cell, d: Cell)
    requires Run(Start(grid, n), acts)
    requires var s := After(Start(grid, n), acts); c in s.sets && d in s.sets && p in s.sets[c] && p in s.sets[d]
    ensures c == d
  {
    InvRun(Start(grid, n), acts);
    var s := After(Start(grid, n), acts);
    assert ListOk(s, p, c) && ListOk(s, p, d);
  }

  /** `p` was put into a set by a request that has not written the fields yet. */
  predicate Unwritten(s: Sectors, p: Pid) {
    Moving(s, p).Inserted?
  }

  // ----- when sets and fields agree ------------------------------------------------------------

  /** `p` is in the set of the cell its fields name, and in no other. */
  ghost predicate Agrees(s: Sectors, p: Pid) {
    forall c :: c in s.sets ==> (p in s.sets[c] <==> Names(s, p, c))
  }

  /** No leave has wiped `p`, and no request of it is between its erase and the writing of the fields, unless it moves to the cell it is in. */
  predicate Settled(s: Sectors, p: Pid) {
    && p !in s.wiped
    && !Moving(s, p).Cleared?
    && (Unwritten(s, p) ==> Moving(s, p).origin == Some(Moving(s, p).to))
  }

  /** On every run a player's fields agree with the sets exactly when it is settled. */
  lemma AgreesExactly(grid: set<Cell>, n: nat, acts: seq<Act>, p: Pid)
    requires Run(Start(grid, n), acts)
    ensures var s := After(Start(grid, n), acts); Agrees(s, p) <==> Settled(s, p)
  {
    InvRun(Start(grid, n), acts);
    SettledAgrees(After(Start(grid, n), acts), p);
  }

  lemma SettledAgrees(s: Sectors, p: Pid)
    requires Inv(s)
    ensures Agrees(s, p) <==> Settled(s, p)
  {
    if Settled(s, p) {
      forall c | c in s.sets ensures p in s.sets[c] <==> Names(s, p, c) {
        SettledHere(s, p, c);
      }
    } else {
      var c := Disagreement(s, p);
    }
  }

  lemma SettledHere(s: Sectors, p: Pid, c: Cell)
    requires Inv(s) && Settled(s, p) && c in s.sets
    ensures p in s.sets[c] <==> Names(s, p, c)
  {
    assert ListOk(s, p, c);
    if p in s.asking {
      assert PlaceOk(s, p) && MotionOk(s, s.asking[p]);
    }
  }

  /** A cell where fields and set of an unsettled player differ. */
  lemma Disagreement(s: Sectors, p: Pid) returns (c: Cell)
    requires Inv(s) && !Settled(s, p)
    ensures c in s.sets && !(p in s.sets[c] <==> Names(s, p, c))
  {
    assert PlaceOk(s, p);
    if p in s.asking {
      assert MotionOk(s, s.asking[p]);
    }
    c := if p in s.wiped || Moving(s, p).Cleared? then s.place[p] else Moving(s, p).to;
    assert ListOk(s, p, c);
  }

  // ----- locks: when each leave keeps them -----------------------------------------------------

  /** The locks that a thread is in the middle of using. */
  function Owned(m: Motion): set<Cell> {
    if IsRequest(m) then m.got else if m.Locked? || m.Wiped? then {m.c} else {}
  }

  predicate OwnsOk(s: Sectors, t: Tid)
    requires t < |s.motion|
  {
    forall c :: c in Owned(s.motion[t]) ==> Holds(s, t, c)
  }

  predicate OwnerOk(s: Sectors, c: Cell) {
    c in s.lock ==> s.lock[c] < |s.motion| && c in Owned(s.motion[s.lock[c]])
  }

  /** A lock is held by exactly the thread that is using it. */
  ghost predicate LocksOk(s: Sectors) {
    && (forall t :: 0 <= t < |s.motion| ==> OwnsOk(s, t))
    && (forall c :: OwnerOk(s, c))
  }

  predicate ReadsAgain(a: Act) {
    a.LeaveErase? || a.LeaveUnlock?
  }

  /** A leave that reads the fields again finds in them the cell whose lock it took. */
  predicate Steady(s: Sectors, a: Act)
    requires Can(s, a)
  {
    ReadsAgain(a) ==> s.place[s.motion[a.t].p] == s.motion[a.t].c
  }

  /** A leave erases from a cell whose lock it holds, and holds no lock once it has unlocked. */
  ghost predicate Keeps(s: Sectors, a: Act)
    requires Can(s, a)
  {
    && (a.LeaveErase? ==> Holds(s, a.t, s.place[s.motion[a.t].p]))
    && (a.LeaveUnlock? ==> forall c :: !Holds(Do(s, a), a.t, c))
  }

  lemma OwnsAfter(s: Sectors, a: Act, t: Tid)
    requires Can(s, a) && LocksOk(s) && Steady(s, a) && t < |s.motion|
    ensures |Do(s, a).motion| == |s.motion| && OwnsOk(Do(s, a), t)
  {
    assert OwnsOk(s, t) && OwnsOk(s, a.t);
    forall c | c in Owned(Do(s, a).motion[t]) ensures Holds(Do(s, a), t, c) {
      OwnsCellAfter(s, a, t, c);
    }
  }

  lemma OwnsCellAfter(s: Sectors, a: Act, t: Tid, c: Cell)
    requires Can(s, a) && Steady(s, a) && t < |s.motion| && |Do(s, a).motion| == |s.motion|
    requires OwnsOk(s, t) && OwnsOk(s, a.t) && c in Owned(Do(s, a).motion[t])
    ensures Holds(Do(s, a), t, c)
  {
    assert a.Unlock? ==> Holds(s, a.t, a.c);
    assert a.LeaveUnlock? ==> Holds(s, a.t, s.motion[a.t].c);
    assert c in Owned(s.motion[t]) ==> Holds(s, t, c);
  }

  lemma OwnerAfter(s: Sectors, a: Act, c: Cell)
    requires Can(s, a) && LocksOk(s) && Steady(s, a)
    ensures OwnerOk(Do(s, a), c)
  {
    assert OwnerOk(s, c) && OwnsOk(s, a.t);
  }

  lemma LocksAfter(s: Sectors, a: Act)
    requires Can(s, a) && LocksOk(s) && Steady(s, a)
    ensures LocksOk(Do(s, a))
  {
    forall t | 0 <= t < |Do(s, a).motion| ensures OwnsOk(Do(s, a), t) {
      OwnsAfter(s, a, t);
    }
    forall c ensures OwnerOk(Do(s, a), c) {
      OwnerAfter(s, a, c);
    }
  }

  /** A leave that has taken its lock holds no other. */
  lemma LeaveHoldsOne(s: Sectors, t: Tid, e: Cell)
    requires LocksOk(s) && t < |s.motion| && (s.motion[t].Locked? || s.motion[t].Wiped?)
    ensures Holds(s, t, e) <==> e == s.motion[t].c
  {
    assert OwnsOk(s, t) && OwnerOk(s, e);
    assert s.motion[t].c in Owned(s.motion[t]);
  }

  /** As long as the locks are in order, a leave keeps them exactly if it finds the fields as it read them. */
  lemma KeepsExactly(s: Sectors, a: Act)
    requires Can(s, a) && LocksOk(s)
    ensures Keeps(s, a) <==> Steady(s, a)
  {
    if ReadsAgain(a) {
      var c := s.motion[a.t].c;
      forall e ensures Holds(s, a.t, e) <==> e == c {
        LeaveHoldsOne(s, a.t, e);
      }
      assert Holds(s, a.t, c);
      if a.LeaveUnlock? {
        if Steady(s, a) {
          forall e ensures !Holds(Do(s, a), a.t, e) {
            LeaveHoldsOne(s, a.t, e);
          }
        } else {
          assert Holds(Do(s, a), a.t, c);
        }
      }
    }
  }

  ghost predicate AlwaysKeeps(s: Sectors, acts: seq<Act>)
    requires Run(s, acts)
    decreases |acts|
  {
    acts == [] || (Keeps(s, acts[0]) && AlwaysKeeps(Do(s, acts[0]), acts[1..]))
  }

  ghost predicate AlwaysSteady(s: Sectors, acts: seq<Act>)
    requires Run(s, acts)
    decreases |acts|
  {
    acts == [] || (Steady(s, acts[0]) && AlwaysSteady(Do(s, acts[0]), acts[1..]))
  }

  /**
   All along a run every leave erases under the lock of the cell it erases from and gives back the lock
   it took, exactly when every leave finds in the fields, at its erase and at its unlock, the cell that
   it read for its lock; and then every lock is held by the thread that uses it.
   */
  lemma {:induction false} LocksKeptExactly(s: Sectors, acts: seq<Act>)
    requires LocksOk(s) && Run(s, acts)
    ensures AlwaysKeeps(s, acts) <==> AlwaysSteady(s, acts)
    ensures AlwaysSteady(s, acts) ==> LocksOk(After(s, acts))
    decreases |acts|
  {
    hide Can, Do, Keeps, Steady, LocksOk;
    if acts != [] {
      KeepsExactly(s, acts[0]);
      if Steady(s, acts[0]) {
        LocksAfter(s, acts[0]);
        LocksKeptExactly(Do(s, acts[0]), acts[1..]);
      }
    }
  }

  /** What the run writes into the fields of `p` last, if anything. */
  ghost function LastStored(s: Sectors, acts: seq<Act>, p: Pid): Option<Cell>
    requires Run(s, acts)
    decreases |acts|
  {
    if acts == [] then None
    else
      var later := LastStored(Do(s, acts[0]), acts[1..], p);
      if later.Some? then later
      else if acts[0].Store? && s.motion[acts[0].t].p == p then Some(s.motion[acts[0].t].to) else None
  }

  lemma FieldAfter(s: Sectors, a: Act, p: Pid)
    requires Can(s, a)
    ensures Field(Do(s, a), p) == if a.Store? && s.motion[a.t].p == p then Some(s.motion[a.t].to) else Field(s, p)
  {
  }

  lemma {:induction false} FieldIsLastStored(s: Sectors, acts: seq<Act>, p: Pid)
    requires Run(s, acts)
    ensures Field(After(s, acts), p) == if LastStored(s, acts, p).Some? then LastStored(s, acts, p) else Field(s, p)
    decreases |acts|
  {
    hide Can, Do;
    if acts != [] {
      FieldAfter(s, acts[0], p);
      FieldIsLastStored(Do(s, acts[0]), acts[1..], p);
    }
  }

  /** The leave of thread `t` goes on with the cell it has read until it reads for another lock. */
  lemma {:induction false} LeaveGoesOn(s: Sectors, acts: seq<Act>, t: Tid, p: Pid, c: Cell)
    requires Run(s, acts) && t < |s.motion| && (s.motion[t] == Wiping(p, c) || s.motion[t] == Locked(p, c) || s.motion[t] == Wiped(p, c) || s.motion[t].Still?)
    requires forall i :: 0 <= i < |acts| ==> !(acts[i].t == t && (acts[i].LeaveTest? || acts[i].Ask?))
    ensures t < |After(s, acts).motion|
    ensures var m := After(s, acts).motion[t]; m == Wiping(p, c) || m == Locked(p, c) || m == Wiped(p, c) || m.Still?
    decreases |acts|
  {
    if acts != [] {
      LeaveStep(s, acts[0], t, p, c);
      LeaveGoesOn(Do(s, acts[0]), acts[1..], t, p, c);
    }
  }

  lemma LeaveStep(s: Sectors, a: Act, t: Tid, p: Pid, c: Cell)
    requires Can(s, a) && t < |s.motion| && !(a.t == t && (a.LeaveTest? || a.Ask?))
    requires s.motion[t] == Wiping(p, c) || s.motion[t] == Locked(p, c) || s.motion[t] == Wiped(p, c) || s.motion[t].Still?
    ensures t < |Do(s, a).motion|
    ensures var m := Do(s, a).motion[t]; m == Wiping(p, c) || m == Locked(p, c) || m == Wiped(p, c) || m.Still?
  {
  }

  /**
   In terms of the requests: when a leave reads the fields again it keeps the locks exactly if, of the
   requests that have written the player's fields since it read them for its lock, the last, if there
   is one, wrote the same cell.
   */
  lemma LeaveKeepsExactly(s: Sectors, acts: seq<Act>, t: Tid, a: Act)
    requires LocksOk(s) && Can(s, LeaveRead(t)) && Run(Do(s, LeaveRead(t)), acts) && ReadsAgain(a) && a.t == t
    requires AlwaysSteady(Do(s, LeaveRead(t)), acts) && Can(After(Do(s, LeaveRead(t)), acts), a)
    requires forall i :: 0 <= i < |acts| ==> !(acts[i].t == t && (acts[i].LeaveTest? || acts[i].Ask?))
    ensures var (p, s1) := (s.motion[t].p, Do(s, LeaveRead(t)));
            var last := LastStored(s1, acts, p);
            Keeps(After(s1, acts), a) <==> last == None || last == Some(s.place[p])
  {
    var (p, s1) := (s.motion[t].p, Do(s, LeaveRead(t)));
    LocksAfter(s, LeaveRead(t));
    LocksKeptExactly(s1, acts);
    LeaveGoesOn(s1, acts, t, p, s.place[p]);
    FieldIsLastStored(s1, acts, p);
    KeepsExactly(After(s1, acts), a);
  }

  // ----- what a lock holder sees ---------------------------------------------------------------

  /** The thread has the cell's lock, exclusively or shared. */
  predicate Sees(s: Sectors, t: Tid, c: Cell) {
    Holds(s, t, c) || Reader(c, t) in s.readers
  }

  /**
   Over every run whose leaves find the fields as they read them, a thread that has a cell's lock and is
   not itself between erase and insert finds in the cell's set exactly the players that a request has put
   there and whose fields it has yet to write, and of the others those whose fields name the cell and
   whom no leave has wiped.
   */
  lemma SeenUnderLock(grid: set<Cell>, n: nat, acts: seq<Act>, t: Tid, c: Cell, p: Pid)
    requires Run(Start(grid, n), acts) && AlwaysSteady(Start(grid, n), acts)
    requires var s := After(Start(grid, n), acts);
             t < |s.motion| && !s.motion[t].Cleared? && Sees(s, t, c) && c in grid
    ensures var s := After(Start(grid, n), acts);
            && c in s.sets
            && (p in s.sets[c] <==>
                  p !in s.wiped && if Unwritten(s, p) then Moving(s, p).to == c else Names(s, p, c))
  {
    InvRun(Start(grid, n), acts);
    LocksKeptExactly(Start(grid, n), acts);
    LockedSet(After(Start(grid, n), acts), t, c, p);
  }

  lemma LockedSet(s: Sectors, t: Tid, c: Cell, p: Pid)
    requires Inv(s) && LocksOk(s) && t < |s.motion| && !s.motion[t].Cleared? && Sees(s, t, c) && c in s.sets
    ensures p in s.sets[c] <==>
              p !in s.wiped && if Unwritten(s, p) then Moving(s, p).to == c else Names(s, p, c)
  {
    assert ListOk(s, p, c) && PlaceOk(s, p);
    if Moving(s, p).Cleared? {
      var u := s.asking[p];
      assert MotionOk(s, u) && OwnsOk(s, u);
      assert Holds(s, u, s.motion[u].to) && Holds(s, u, s.motion[u].origin.value);
    }
  }

  // ----- a player that has left ----------------------------------------------------------------

  /** Some set lists the player. */
  ghost predicate Somewhere(s: Sectors, p: Pid) {
    exists c :: c in s.sets && p in s.sets[c]
  }

  ghost predicate PutBack(s: Sectors, acts: seq<Act>, p: Pid)
    requires Run(s, acts)
    decreases |acts|
  {
    acts != [] && ((acts[0].Insert? && s.motion[acts[0].t].p == p) || PutBack(Do(s, acts[0]), acts[1..], p))
  }

  /** No other leave of `p` erases. */
  ghost predicate NoLeaveErases(s: Sectors, acts: seq<Act>, p: Pid)
    requires Run(s, acts)
    decreases |acts|
  {
    acts == [] || (!(acts[0].LeaveErase? && s.motion[acts[0].t].p == p) && NoLeaveErases(Do(s, acts[0]), acts[1..], p))
  }

  lemma WipedAfter(s: Sectors, a: Act, p: Pid)
    requires Can(s, a) && !(a.LeaveErase? && s.motion[a.t].p == p)
    ensures p in Do(s, a).wiped <==> p in s.wiped && !(a.Insert? && s.motion[a.t].p == p)
  {
  }

  lemma {:induction false} WipedSince(s: Sectors, acts: seq<Act>, p: Pid)
    requires Run(s, acts) && NoLeaveErases(s, acts, p)
    ensures p in After(s, acts).wiped <==> p in s.wiped && !PutBack(s, acts, p)
    decreases |acts|
  {
    hide Can, Do;
    if acts != [] {
      WipedAfter(s, acts[0], p);
      WipedSince(Do(s, acts[0]), acts[1..], p);
    }
  }

  /** A player is listed somewhere exactly if it is placed or put, not wiped, and not between two sets. */
  lemma SomewhereExactly(s: Sectors, p: Pid)
    requires Inv(s)
    ensures Somewhere(s, p) <==> !Moving(s, p).Cleared? && p !in s.wiped && (Unwritten(s, p) || p in s.place)
  {
    assert PlaceOk(s, p);
    if p in s.asking {
      assert MotionOk(s, s.asking[p]);
    }
    forall c | c in s.sets ensures p in s.sets[c] <==> Listed(s, p, c) {
      assert ListOk(s, p, c);
    }
    var c := if Unwritten(s, p) then Some(Moving(s, p).to) else Field(s, p);
    assert c.Some? ==> c.value in s.sets;
  }

  /**
   A player whose leave has erased is still listed exactly if, when the leave erased, a request had put it
   into a set that the fields did not name yet, or if a request has put it into a set since; apart from
   the moment between a request's erase and insert.
   */
  lemma LeftIsListedExactly(s: Sectors, t: Tid, acts: seq<Act>)
    requires Inv(s) && Can(s, LeaveErase(t)) && s.motion[t].p !in s.wiped
    requires Run(Do(s, LeaveErase(t)), acts) && NoLeaveErases(Do(s, LeaveErase(t)), acts, s.motion[t].p)
    requires !Moving(After(Do(s, LeaveErase(t)), acts), s.motion[t].p).Cleared?
    ensures var (p, s1) := (s.motion[t].p, Do(s, LeaveErase(t)));
            Somewhere(After(s1, acts), p) <==>
              (Unwritten(s, p) && Moving(s, p).to != s.place[p]) || PutBack(s1, acts, p)
  {
    var (p, s1) := (s.motion[t].p, Do(s, LeaveErase(t)));
    var s2 := After(s1, acts);
    InvAfter(s, LeaveErase(t));
    InvRun(s1, acts);
    WipedSince(s1, acts, p);
    SomewhereExactly(s2, p);
    PlacedKept(s1, acts, p);
    assert ListOk(s, p, s.place[p]);
    if Moving(s, p).Cleared? && !PutBack(s1, acts, p) {
      ClearedKept(s1, acts, p);
    }
  }

  lemma {:induction false} PlacedKept(s: Sectors, acts: seq<Act>, p: Pid)
    requires Run(s, acts) && p in s.place
    ensures p in After(s, acts).place
    decreases |acts|
  {
    hide Can, Do;
    if acts != [] {
      FieldAfter(s, acts[0], p);
      PlacedKept(Do(s, acts[0]), acts[1..], p);
    }
  }

  lemma ClearedAfter(s: Sectors, a: Act, p: Pid)
    requires Inv(s) && Can(s, a) && Moving(s, p).Cleared? && !(a.Insert? && s.motion[a.t].p == p)
    ensures Moving(Do(s, a), p).Cleared?
  {
    assert MotionOk(s, a.t);
  }

  lemma {:induction false} ClearedKept(s: Sectors, acts: seq<Act>, p: Pid)
    requires Inv(s) && Run(s, acts) && Moving(s, p).Cleared? && !PutBack(s, acts, p)
    ensures Moving(After(s, acts), p).Cleared?
    decreases |acts|
  {
    hide Can, Do, Inv;
    if acts != [] {
      InvAfter(s, acts[0]);
      ClearedAfter(s, acts[0], p);
      ClearedKept(Do(s, acts[0]), acts[1..], p);
    }
  }

  // ----- runs ----------------------------------------------------------------------------------

  lemma RunsOn(s: Sectors, a: Act, rest: seq<Act>)
    requires Can(s, a) && Run(Do(s, a), rest)
    ensures Run(s, [a] + rest) && After(s, [a] + rest) == After(Do(s, a), rest)
  {
    assert ([a] + rest)[1..] == rest;
  }

  lemma {:induction false} RunsTogether(s: Sectors, first: seq<Act>, rest: seq<Act>)
    requires Run(s, first) && Run(After(s, first), rest)
    ensures Run(s, first + rest) && After(s, first + rest) == After(After(s, first), rest)
    decreases |first|
  {
    hide Do, Can;
    if first == [] {
      assert first + rest == rest;
    } else {
      RunsTogether(Do(s, first[0]), first[1..], rest);
      RunsOn(s, first[0], first[1..] + rest);
      assert [first[0]] + (first[1..] + rest) == first + rest;
    }
  }

  /** The acts run from `s` and end in `s'`. */
  ghost predicate Leads(s: Sectors, acts: seq<Act>, s': Sectors) {
    Run(s, acts) && After(s, acts) == s'
  }

  lemma RunOfOne(s: Sectors, a: Act)
    requires Can(s, a)
    ensures Leads(s, [a], Do(s, a))
  {
    hide Can, Do;
    RunsOn(s, a, []);
    assert [a] + [] == [a];
  }

  lemma RunOfTwo(s: Sectors, a: Act, b: Act)
    requires Can(s, a) && Can(Do(s, a), b)
    ensures Leads(s, [a, b], Do(Do(s, a), b))
  {
    hide Can, Do;
    RunOfOne(Do(s, a), b);
    RunsOn(s, a, [b]);
    assert [a] + [b] == [a, b];
  }

  lemma RunsInTurn(s: Sectors, first: seq<Act>, rest: seq<Act>, s1: Sectors, s2: Sectors)
    requires Leads(s, first, s1) && Leads(s1, rest, s2)
    ensures Leads(s, first + rest, s2)
  {
    RunsTogether(s, first, rest);
  }

  /** LeaveProc's sector part once it has found the fields valid. */
  function WholeLeave(t: Tid, p: Pid): seq<Act> {
    [LeaveTest(t, p), LeaveRead(t)] + [LeaveLock(t)] + [LeaveErase(t), LeaveUnlock(t)]
  }

  /** `p` out of the set that its fields name. */
  function WipedFrom(s: Sectors, p: Pid, c: Cell): Sectors
    requires c in s.sets
  {
    s.(sets := s.sets[c := s.sets[c] - {p}], wiped := if p in s.sets[c] then s.wiped + {p} else s.wiped)
  }

  /** The leave has the lock. */
  function LockedFor(s: Sectors, t: Tid, p: Pid): Sectors
    requires t < |s.motion| && p in s.place
  {
    With(s, t, Locked(p, s.place[p])).(lock := s.lock[s.place[p] := t])
  }

  lemma RunToLock(s: Sectors, t: Tid, p: Pid)
    requires IsStill(s, t) && p in s.place && Free(s, s.place[p])
    ensures Leads(s, [LeaveTest(t, p), LeaveRead(t)] + [LeaveLock(t)], LockedFor(s, t, p))
  {
    var s1 := With(s, t, Wiping(p, s.place[p]));
    RunOfTwo(s, LeaveTest(t, p), LeaveRead(t));
    RunOfOne(s1, LeaveLock(t));
    RunsInTurn(s, [LeaveTest(t, p), LeaveRead(t)], [LeaveLock(t)], s1, LockedFor(s, t, p));
  }

  lemma RunFromLock(s: Sectors, t: Tid, p: Pid)
    requires IsStill(s, t) && p in s.place && s.place[p] in s.sets && s.place[p] !in s.lock
    ensures Leads(LockedFor(s, t, p), [LeaveErase(t), LeaveUnlock(t)], WipedFrom(s, p, s.place[p]))
  {
    var s1 := LockedFor(s, t, p);
    RunOfTwo(s1, LeaveErase(t), LeaveUnlock(t));
    var s2 := Do(Do(s1, LeaveErase(t)), LeaveUnlock(t));
    assert s.lock[s.place[p] := t] - {s.place[p]} == s.lock;
    assert s2.motion == s.motion;
  }

  lemma RunLeave(s: Sectors, t: Tid, p: Pid)
    requires IsStill(s, t) && p in s.place && Free(s, s.place[p])
    ensures Leads(s, WholeLeave(t, p), WipedFrom(s, p, s.place[p]))
  {
    RunToLock(s, t, p);
    RunFromLock(s, t, p);
    RunsInTurn(s, [LeaveTest(t, p), LeaveRead(t)] + [LeaveLock(t)], [LeaveErase(t), LeaveUnlock(t)],
               LockedFor(s, t, p), WipedFrom(s, p, s.place[p]));
  }

  /**
   After every leave of a settled player the fields go on naming the cell that no longer lists it,
   with nobody in motion: what makes `wiped` part of the condition.
   */
  lemma LeftIsStillNamed(s: Sectors, t: Tid, p: Pid)
    requires Inv(s) && IsStill(s, t) && p in s.place && Free(s, s.place[p]) && Settled(s, p)
    ensures Run(s, WholeLeave(t, p))
    ensures var s' := After(s, WholeLeave(t, p));
            && s'.motion == s.motion && s'.lock == s.lock
            && Names(s', p, s.place[p]) && (forall c :: c in s'.sets ==> p !in s'.sets[c])
            && !Agrees(s', p)
  {
    var c := s.place[p];
    assert PlaceOk(s, p) && ListOk(s, p, c);
    SettledAgrees(s, p);
    RunLeave(s, t, p);
    var s' := WipedFrom(s, p, c);
    forall d | d in s'.sets ensures p !in s'.sets[d] {
      assert ListOk(s, p, d);
      assert p in s.sets[d] <==> Names(s, p, d);
    }
    assert Names(s', p, c) && c in s'.sets;
  }
}
