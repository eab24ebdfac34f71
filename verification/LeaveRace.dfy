/**
 What happens when a request of the player writes the sector fields between two reads of LeaveProc: the
 leave erases from a set whose lock it does not have, unlocks a lock that it never took, and keeps the
 one it took for ever.
 */
module LeaveRace {
  import opened Options
  import opened SectorIndex
  import opened SectorMove

  /** A lock that is held and that nobody is using. */
  ghost predicate Orphan(s: Sectors, c: Cell) {
    c in s.lock && forall u :: 0 <= u < |s.motion| ==> c !in Owned(s.motion[u])
  }

  /** The request of `p` has inserted, unlocked and not yet written; the leave has its lock; then the fields change. */
  function Overtaken(s: Sectors, t: Tid, u: Tid, v: Tid, p: Pid, d: Cell): Sectors
    requires t < |s.motion| && u < |s.motion| && d in s.sets && p in s.place && s.place[p] in s.sets
  {
    var s1 := LockedFor(Unwrote(s, u, p, d), t, p);
    s1.(readers := s1.readers + {Reader(d, v)}, place := s1.place[p := d], asking := s1.asking - {p},
        motion := s1.motion[u := Still])
  }

  function UpToOvertaken(s: Sectors, t: Tid, u: Tid, v: Tid, p: Pid, d: Cell, width: nat): seq<Act> {
    UpToUnlock(s, u, p, d, width) + (([LeaveTest(t, p), LeaveRead(t)] + [LeaveLock(t)]) + [LockShared(v, d), Store(u)])
  }

  lemma Overtakes(s: Sectors, t: Tid, u: Tid, v: Tid, p: Pid, d: Cell)
    requires t < |s.motion| && v < |s.motion| && t != u && IsStill(s, t) && MayAsk(s, u, p, d)
    requires p in s.place && s.place[p] in s.sets && d != s.place[p]
    ensures Leads(LockedFor(Unwrote(s, u, p, d), t, p), [LockShared(v, d), Store(u)], Overtaken(s, t, u, v, p, d))
  {
    var s1 := LockedFor(Unwrote(s, u, p, d), t, p);
    RunOfTwo(s1, LockShared(v, d), Store(u));
    assert Do(Do(s1, LockShared(v, d)), Store(u)) == Overtaken(s, t, u, v, p, d);
  }

  lemma RunToOvertaken(s: Sectors, t: Tid, u: Tid, v: Tid, p: Pid, d: Cell, width: nat)
    requires t < |s.motion| && v < |s.motion| && t != u && IsStill(s, t) && MayAsk(s, u, p, d)
    requires p in s.place && s.place[p] in s.sets && d != s.place[p]
    ensures Leads(s, UpToOvertaken(s, t, u, v, p, d, width), Overtaken(s, t, u, v, p, d))
  {
    var s1 := Unwrote(s, u, p, d);
    RunUpToUnlock(s, u, p, d, width);
    assert Free(s1, s1.place[p]) && IsStill(s1, t);
    RunToLock(s1, t, p);
    Overtakes(s, t, u, v, p, d);
    hide Can, Do;
    var toLock := [LeaveTest(t, p), LeaveRead(t)] + [LeaveLock(t)];
    RunsInTurn(s1, toLock, [LockShared(v, d), Store(u)], LockedFor(s1, t, p), Overtaken(s, t, u, v, p, d));
    RunsInTurn(s, UpToUnlock(s, u, p, d, width), toLock + [LockShared(v, d), Store(u)], s1, Overtaken(s, t, u, v, p, d));
  }

  /** Where the leave ends. */
  function Slipped(s: Sectors, t: Tid, u: Tid, v: Tid, p: Pid, d: Cell): Sectors
    requires t < |s.motion| && u < |s.motion| && d in s.sets && p in s.place && s.place[p] in s.sets
  {
    var s1 := Overtaken(s, t, u, v, p, d);
    With(s1, t, Still).(sets := s1.sets[d := s1.sets[d] - {p}], wiped := s1.wiped + {p}, lock := s1.lock - {d})
  }

  lemma Slips(s: Sectors, t: Tid, u: Tid, v: Tid, p: Pid, d: Cell)
    requires t < |s.motion| && t != u && IsStill(s, t) && MayAsk(s, u, p, d)
    requires p in s.place && s.place[p] in s.sets && d != s.place[p]
    ensures Leads(Overtaken(s, t, u, v, p, d), [LeaveErase(t), LeaveUnlock(t)], Slipped(s, t, u, v, p, d))
  {
    var s1 := Overtaken(s, t, u, v, p, d);
    assert s1.motion[t] == Locked(p, s.place[p]);
    assert p in s1.sets[d];
    var s2 := With(s1, t, Wiped(p, s.place[p])).(sets := s1.sets[d := s1.sets[d] - {p}], wiped := s1.wiped + {p});
    assert Do(s1, LeaveErase(t)) == s2;
    RunOfTwo(s1, LeaveErase(t), LeaveUnlock(t));
    assert s2.motion[t := Still] == s1.motion[t := Still];
  }

  predicate InSet(s: Sectors, p: Pid, c: Cell) {
    c in s.sets && p in s.sets[c]
  }

  /** The leave is about to erase `p` from the set of `d` without its lock, while `v` reads that set. */
  predicate ErasesUnlocked(s: Sectors, t: Tid, v: Tid, p: Pid, d: Cell) {
    && Can(s, LeaveErase(t)) && !Holds(s, t, d) && Reader(d, v) in s.readers
    && InSet(s, p, d) && !InSet(Do(s, LeaveErase(t)), p, d)
  }

  /**
   Every request that changes the cell of a player can be overtaken by the player's leave like this: the
   leave erases from the new cell's set without its lock, while any third thread may be reading that set
   under the shared lock.
   */
  lemma LeaveErasesUnlocked(s: Sectors, t: Tid, u: Tid, v: Tid, p: Pid, d: Cell, width: nat)
    requires Inv(s) && t < |s.motion| && v < |s.motion| && t != u && IsStill(s, t) && MayAsk(s, u, p, d)
    requires p in s.place && d != s.place[p]
    ensures var acts := UpToOvertaken(s, t, u, v, p, d, width);
            Run(s, acts) && ErasesUnlocked(After(s, acts), t, v, p, d)
  {
    assert PlaceOk(s, p);
    RunToOvertaken(s, t, u, v, p, d, width);
    OvertakenErases(s, t, u, v, p, d);
  }

  lemma OvertakenErases(s: Sectors, t: Tid, u: Tid, v: Tid, p: Pid, d: Cell)
    requires t != u && IsStill(s, t) && MayAsk(s, u, p, d)
    requires p in s.place && s.place[p] in s.sets && d != s.place[p]
    ensures ErasesUnlocked(Overtaken(s, t, u, v, p, d), t, v, p, d)
  {
    var s1 := Overtaken(s, t, u, v, p, d);
    assert s1.motion[t] == Locked(p, s.place[p]) && InSet(s1, p, d);
  }

  /** And it ends with the old cell's lock taken and used by nobody. */
  lemma LeaveLosesItsLock(s: Sectors, t: Tid, u: Tid, v: Tid, p: Pid, d: Cell, width: nat)
    requires Inv(s) && LocksOk(s) && v < |s.motion| && t != u && IsStill(s, t) && MayAsk(s, u, p, d)
    requires p in s.place && d != s.place[p]
    ensures var acts := UpToOvertaken(s, t, u, v, p, d, width) + [LeaveErase(t), LeaveUnlock(t)];
            && Run(s, acts)
            && IsStill(After(s, acts), t) && Holds(After(s, acts), t, s.place[p]) && Orphan(After(s, acts), s.place[p])
  {
    assert PlaceOk(s, p);
    RunToOvertaken(s, t, u, v, p, d, width);
    Slips(s, t, u, v, p, d);
    RunsInTurn(s, UpToOvertaken(s, t, u, v, p, d, width), [LeaveErase(t), LeaveUnlock(t)],
               Overtaken(s, t, u, v, p, d), Slipped(s, t, u, v, p, d));
    SlippedOrphans(s, t, u, v, p, d);
  }

  lemma SlippedOrphans(s: Sectors, t: Tid, u: Tid, v: Tid, p: Pid, d: Cell)
    requires LocksOk(s) && t != u && IsStill(s, t) && MayAsk(s, u, p, d)
    requires p in s.place && s.place[p] in s.sets && d != s.place[p]
    ensures var s' := Slipped(s, t, u, v, p, d); IsStill(s', t) && Holds(s', t, s.place[p]) && Orphan(s', s.place[p])
  {
    var s2 := Slipped(s, t, u, v, p, d);
    forall w | 0 <= w < |s2.motion| ensures s.place[p] !in Owned(s2.motion[w]) {
      if w != t && w != u {
        assert s2.motion[w] == s.motion[w];
        assert OwnsOk(s, w);
      }
    }
  }

  lemma OrphanAfter(s: Sectors, a: Act, c: Cell)
    requires Can(s, a) && Steady(s, a) && Orphan(s, c)
    ensures Orphan(Do(s, a), c) && Do(s, a).lock[c] == s.lock[c]
  {
    assert c !in Owned(s.motion[a.t]);
    forall u | 0 <= u < |Do(s, a).motion| ensures c !in Owned(Do(s, a).motion[u]) {
      assert c !in Owned(s.motion[u]);
    }
  }

  /**
   From then on, however the run goes on, as long as no other leave slips in the same way: the lock stays
   held, nobody can lock the cell, exclusively or shared, and no request from or to it comes past its
   locks. The threads of such requests wait for ever.
   */
  lemma {:induction false} OrphanBlocksForEver(s: Sectors, acts: seq<Act>, c: Cell, u: Tid)
    requires Run(s, acts) && AlwaysSteady(s, acts) && Orphan(s, c)
    ensures var s' := After(s, acts);
            && Orphan(s', c) && s'.lock[c] == s.lock[c]
            && !Can(s', Lock(u, c)) && !Can(s', LockShared(u, c))
            && (u < |s'.motion| && s'.motion[u].Wanting? && Needs(s'.motion[u], c) ==>
                  !Can(s', Erase(u)) && !Can(s', Insert(u)))
    decreases |acts|
  {
    if acts == [] {
      if u < |s.motion| {
        assert c !in Owned(s.motion[u]);
      }
    } else {
      OrphanAfter(s, acts[0], c);
      OrphanBlocksForEver(Do(s, acts[0]), acts[1..], c, u);
    }
  }
}
