/**
 JoinProc, AcquirePlayer, ReleasePlayer and LeaveProc as runs of their atomic actions, with no other
 thread in between: what each call leaves behind. And the one race that AcquirePlayer has to lose.
 */
module PlayerCalls {
  import opened Options
  import opened PlayerLife

  /** `t` is between calls and nobody is inside `playerLock`. */
  predicate Quiescent(s: Life, t: Tid) {
    In(s, t) && s.workers[t].phase.Idle? && s.writer.None? && s.readers == {}
  }

  /** The events run from `s` and end in `s'`. */
  predicate Leads(s: Life, es: seq<Event>, s': Life) {
    Run(s, es) && After(s, es) == s'
  }

  lemma RunFromFirst(s: Life, e: Event, rest: seq<Event>, s': Life)
    requires Enabled(s, e) && Leads(Next(s, e), rest, s')
    ensures Leads(s, [e] + rest, s')
  {
    assert ([e] + rest)[1..] == rest;
  }

  lemma RunOfOne(s: Life, e: Event)
    requires Enabled(s, e)
    ensures Leads(s, [e], Next(s, e))
  {
    RunFromFirst(s, e, [], Next(s, e));
    assert [e] + [] == [e];
  }

  lemma RunOfTwo(s: Life, a: Event, b: Event)
    requires Enabled(s, a) && Enabled(Next(s, a), b)
    ensures Leads(s, [a, b], Next(Next(s, a), b))
  {
    hide Next, Enabled;
    RunOfOne(Next(s, a), b);
    RunFromFirst(s, a, [b], Next(Next(s, a), b));
    assert [a] + [b] == [a, b];
  }

  lemma {:induction false} RunsInTurn(s: Life, first: seq<Event>, rest: seq<Event>, s1: Life, s2: Life)
    requires Leads(s, first, s1) && Leads(s1, rest, s2)
    ensures Leads(s, first + rest, s2)
    decreases |first|
  {
    hide Next, Enabled;
    if first == [] {
      assert first + rest == rest;
    } else {
      RunsInTurn(Next(s, first[0]), first[1..], rest, s1, s2);
      RunFromFirst(s, first[0], first[1..] + rest, s2);
      assert [first[0]] + (first[1..] + rest) == first + rest;
    }
  }

  function WithSlot(s: Life, p: Pid, slot: Slot): Life {
    s.(slots := s.slots[p := slot])
  }

  function WithHeld(s: Life, t: Tid, held: multiset<Pid>): Life
    requires In(s, t)
  {
    s.(workers := s.workers[t := Worker(held, Idle)])
  }

  // ----- JoinProc ------------------------------------------------------------------------------

  /** The player taken from the pool and Reset, in the joining thread's hands. */
  function Taken(s: Life, t: Tid, sid: Sid, p: Pid): Life
    requires In(s, t) && p in s.slots
  {
    var slot := s.slots[p];
    WithSlot(s, p, Slot(1, false, sid, false, slot.born + 1, slot.returned, slot.refused))
      .(pool := s.pool - multiset{p}, workers := s.workers[t := Worker(s.workers[t].held + multiset{p}, Fresh(sid, p))])
  }

  lemma Take(s: Life, t: Tid, sid: Sid, p: Pid)
    requires Quiescent(s, t) && p in s.pool && p in s.slots
    ensures Leads(s, [JoinAlloc(t, sid, p), JoinReset(t)], Taken(s, t, sid, p))
  {
    RunOfTwo(s, JoinAlloc(t, sid, p), JoinReset(t));
    assert Next(Next(s, JoinAlloc(t, sid, p)), JoinReset(t)) == Taken(s, t, sid, p);
  }

  /** Three events between the locking and the end. */
  lemma RunOfThree(s: Life, a: Event, b: Event, c: Event)
    requires Enabled(s, a) && Enabled(Next(s, a), b) && Enabled(Next(Next(s, a), b), c)
    ensures Leads(s, [a, b, c], Next(Next(Next(s, a), b), c))
  {
    hide Next, Enabled;
    RunOfTwo(Next(s, a), b, c);
    RunFromFirst(s, a, [b, c], Next(Next(Next(s, a), b), c));
    assert [a] + [b, c] == [a, b, c];
  }

  /** The player in the map, with the map's reference as its only one. */
  function AfterJoin(s: Life, sid: Sid, p: Pid): Life
    requires p in s.slots
  {
    var slot := s.slots[p];
    WithSlot(s, p, Slot(1, false, sid, false, slot.born + 1, slot.returned, slot.refused))
      .(pool := s.pool - multiset{p}, players := s.players[sid := p])
  }

  function JoinEvents(t: Tid, sid: Sid, p: Pid): seq<Event> {
    [JoinAlloc(t, sid, p), JoinReset(t)] + [LockExclusive(t), JoinInsert(t), UnlockExclusive(t)]
  }

  /** JoinProc of a new session. */
  lemma Join(s: Life, t: Tid, sid: Sid, p: Pid)
    requires Quiescent(s, t) && sid !in s.players && p in s.pool && p in s.slots
    ensures Leads(s, JoinEvents(t, sid, p), AfterJoin(s, sid, p))
  {
    Take(s, t, sid, p);
    var s1 := Taken(s, t, sid, p);
    RunOfThree(s1, LockExclusive(t), JoinInsert(t), UnlockExclusive(t));
    var s2 := Next(Next(Next(s1, LockExclusive(t)), JoinInsert(t)), UnlockExclusive(t));
    assert s.workers[t].held + multiset{p} - multiset{p} == s.workers[t].held;
    assert s2.workers == s.workers;
    assert s2 == AfterJoin(s, sid, p);
    RunsInTurn(s, [JoinAlloc(t, sid, p), JoinReset(t)], [LockExclusive(t), JoinInsert(t), UnlockExclusive(t)], s1, s2);
  }

  /** The player back in the pool with its count still at one: JoinProc frees it without a release. */
  function AfterRefusal(s: Life, sid: Sid, p: Pid): Life
    requires p in s.slots
  {
    var slot := s.slots[p];
    WithSlot(s, p, Slot(1, false, sid, false, slot.born + 1, slot.returned + 1, slot.refused + 1))
  }

  function RefusedJoinEvents(t: Tid, sid: Sid, p: Pid): seq<Event> {
    [JoinAlloc(t, sid, p), JoinReset(t)] + ([LockExclusive(t), JoinRefuse(t), UnlockExclusive(t)] + [JoinFree(t)])
  }

  /** The session turned down, the player still in the thread's hands. */
  function TurnedDown(s: Life, t: Tid, sid: Sid, p: Pid): Life
    requires In(s, t) && p in s.slots
  {
    var s1 := Taken(s, t, sid, p);
    s1.(workers := s1.workers[t := s1.workers[t].(phase := Refused(p))])
  }

  lemma Refuse(s: Life, t: Tid, sid: Sid, p: Pid)
    requires Quiescent(s, t) && sid in s.players && p in s.pool && p in s.slots
    ensures Leads(Taken(s, t, sid, p), [LockExclusive(t), JoinRefuse(t), UnlockExclusive(t)], TurnedDown(s, t, sid, p))
  {
    RunOfThree(Taken(s, t, sid, p), LockExclusive(t), JoinRefuse(t), UnlockExclusive(t));
  }

  lemma FreeDirectly(s: Life, t: Tid, sid: Sid, p: Pid)
    requires Quiescent(s, t) && p in s.pool && p in s.slots
    ensures Leads(TurnedDown(s, t, sid, p), [JoinFree(t)], AfterRefusal(s, sid, p))
  {
    RunOfOne(TurnedDown(s, t, sid, p), JoinFree(t));
    assert s.workers[t].held + multiset{p} - multiset{p} == s.workers[t].held;
    assert s.pool - multiset{p} + multiset{p} == s.pool;
    assert Next(TurnedDown(s, t, sid, p), JoinFree(t)) == AfterRefusal(s, sid, p);
  }

  /** JoinProc of a session that is in the map already. */
  lemma JoinTwice(s: Life, t: Tid, sid: Sid, p: Pid)
    requires Quiescent(s, t) && sid in s.players && p in s.pool && p in s.slots
    ensures Leads(s, RefusedJoinEvents(t, sid, p), AfterRefusal(s, sid, p))
  {
    hide Next, Enabled;
    Take(s, t, sid, p);
    Refuse(s, t, sid, p);
    FreeDirectly(s, t, sid, p);
    var (s1, s2) := (Taken(s, t, sid, p), TurnedDown(s, t, sid, p));
    RunsInTurn(s1, [LockExclusive(t), JoinRefuse(t), UnlockExclusive(t)], [JoinFree(t)], s2, AfterRefusal(s, sid, p));
    RunsInTurn(s, [JoinAlloc(t, sid, p), JoinReset(t)],
         [LockExclusive(t), JoinRefuse(t), UnlockExclusive(t)] + [JoinFree(t)], s1, AfterRefusal(s, sid, p));
  }

  // ----- AcquirePlayer and ReleasePlayer -------------------------------------------------------

  /** The session's player found and counted, the lock dropped, `closing` not yet tested. */
  function Counted(s: Life, t: Tid, sid: Sid): Life
    requires In(s, t) && sid in s.players && s.players[sid] in s.slots
  {
    var p := s.players[sid];
    WithSlot(s, p, s.slots[p].(ref := s.slots[p].ref + 1))
      .(workers := s.workers[t := Worker(s.workers[t].held + multiset{p}, Checking(sid, p))])
  }

  function LookUp(t: Tid, sid: Sid): seq<Event> {
    [LockShared(t), AcquireFind(t, sid)] + [AcquireCount(t), UnlockShared(t)]
  }

  lemma FindAndCount(s: Life, t: Tid, sid: Sid)
    requires Quiescent(s, t) && sid in s.players && s.players[sid] in s.slots
    ensures Leads(s, LookUp(t, sid), Counted(s, t, sid))
  {
    RunOfTwo(s, LockShared(t), AcquireFind(t, sid));
    var s1 := Next(Next(s, LockShared(t)), AcquireFind(t, sid));
    RunOfTwo(s1, AcquireCount(t), UnlockShared(t));
    var s2 := Next(Next(s1, AcquireCount(t)), UnlockShared(t));
    assert s2.readers == {};
    assert s2 == Counted(s, t, sid);
    RunsInTurn(s, [LockShared(t), AcquireFind(t, sid)], [AcquireCount(t), UnlockShared(t)], s1, s2);
  }

  lemma MappedIsCounted(s: Life, sid: Sid)
    requires Inv(s) && sid in s.players
    ensures s.players[sid] in s.slots && s.slots[s.players[sid]].ref > 0 && !s.slots[s.players[sid]].closing
  {
    var p := s.players[sid];
    assert Entry(s, sid) && InMap(s, p) && Balanced(s, p);
  }

  /** AcquirePlayer of a session in the map: one more reference, which the thread holds. */
  lemma Acquire(s: Life, t: Tid, sid: Sid)
    requires Inv(s) && Quiescent(s, t) && sid in s.players
    ensures s.players[sid] in s.slots
    ensures var p := s.players[sid];
            Leads(s, LookUp(t, sid) + [AcquireCheck(t)],
                  WithHeld(WithSlot(s, p, s.slots[p].(ref := s.slots[p].ref + 1)), t, s.workers[t].held + multiset{p}))
  {
    var p := s.players[sid];
    MappedIsCounted(s, sid);
    FindAndCount(s, t, sid);
    var s1 := Counted(s, t, sid);
    RunOfOne(s1, AcquireCheck(t));
    assert Next(s1, AcquireCheck(t))
        == WithHeld(WithSlot(s, p, s.slots[p].(ref := s.slots[p].ref + 1)), t, s.workers[t].held + multiset{p});
    RunsInTurn(s, LookUp(t, sid), [AcquireCheck(t)], s1, Next(s1, AcquireCheck(t)));
  }

  /** ReleasePlayer: one reference less, no longer the thread's. Nobody's release returns the player. */
  lemma Release(n: nat, es: seq<Event>, t: Tid, p: Pid)
    requires Run(Start(n, false), es) && Enabled(After(Start(n, false), es), ReleaseCount(t, p))
    ensures var s := After(Start(n, false), es);
            Next(s, ReleaseCount(t, p))
            == WithHeld(WithSlot(s, p, s.slots[p].(ref := s.slots[p].ref - 1)), t, s.workers[t].held - multiset{p})
  {
    ReleaseNeverReachesZero(n, es, t, p);
  }

  // ----- LeaveProc -----------------------------------------------------------------------------

  function LeaveEvents(t: Tid, sid: Sid, p: Pid): seq<Event> {
    [LockExclusive(t), LeaveErase(t, sid), UnlockExclusive(t)] + [LeaveEnd(t), ReleaseCount(t, p)]
  }

  /** LeaveProc as it is: out of the map and closing, the count where it was, nothing returned. */
  function AfterLeave(s: Life, sid: Sid): Life
    requires sid in s.players && s.players[sid] in s.slots
  {
    var p := s.players[sid];
    WithSlot(s, p, s.slots[p].(closing := true, left := true)).(players := s.players - {sid})
  }

  /** The thread has erased the player and holds one handle on it. */
  function Erased(s: Life, t: Tid, sid: Sid): Life
    requires In(s, t) && sid in s.players && s.players[sid] in s.slots
  {
    var p := s.players[sid];
    var slot := s.slots[p];
    WithSlot(s, p, slot.(ref := if s.repaired then slot.ref else slot.ref + 1, closing := true, left := true))
      .(players := s.players - {sid}, workers := s.workers[t := Worker(s.workers[t].held + multiset{p}, Leaving(p))])
  }

  lemma Erase(s: Life, t: Tid, sid: Sid)
    requires Quiescent(s, t) && sid in s.players && s.players[sid] in s.slots
    ensures Leads(s, [LockExclusive(t), LeaveErase(t, sid), UnlockExclusive(t)], Erased(s, t, sid))
  {
    RunOfThree(s, LockExclusive(t), LeaveErase(t, sid), UnlockExclusive(t));
    assert Next(Next(Next(s, LockExclusive(t)), LeaveErase(t, sid)), UnlockExclusive(t)) == Erased(s, t, sid);
  }

  /** LeaveProc's last two actions take back what its AddRefPlayer added. */
  lemma GiveBack(s: Life, t: Tid, sid: Sid)
    requires !s.repaired && Quiescent(s, t) && sid in s.players && s.players[sid] in s.slots
    requires s.slots[s.players[sid]].ref > 0
    ensures Leads(Erased(s, t, sid), [LeaveEnd(t), ReleaseCount(t, s.players[sid])], AfterLeave(s, sid))
  {
    var p := s.players[sid];
    var s1 := Erased(s, t, sid);
    RunOfTwo(s1, LeaveEnd(t), ReleaseCount(t, p));
    assert s.workers[t].held + multiset{p} - multiset{p} == s.workers[t].held;
    assert Next(Next(s1, LeaveEnd(t)), ReleaseCount(t, p)).workers == s.workers;
  }

  lemma Leave(s: Life, t: Tid, sid: Sid)
    requires Inv(s) && !s.repaired && Quiescent(s, t) && sid in s.players
    ensures s.players[sid] in s.slots
    ensures Leads(s, LeaveEvents(t, sid, s.players[sid]), AfterLeave(s, sid))
  {
    hide Next, Enabled;
    MappedIsCounted(s, sid);
    GiveBack(s, t, sid);
    Erase(s, t, sid);
    RunsInTurn(s, [LockExclusive(t), LeaveErase(t, sid), UnlockExclusive(t)], [LeaveEnd(t), ReleaseCount(t, s.players[sid])],
         Erased(s, t, sid), AfterLeave(s, sid));
  }

  /**
   A whole life, joined and left with nobody else ever holding the player, whatever the rest of the
   state: the map is as before, no thread holds the player, and its count stays at one outside the pool.
   */
  lemma WholeLifeLeaks(s: Life, t: Tid, sid: Sid, p: Pid)
    requires Inv(s) && !s.repaired && Quiescent(s, t) && sid !in s.players && p in s.pool && p in s.slots
    ensures var slot := s.slots[p];
            Leads(s, JoinEvents(t, sid, p) + LeaveEvents(t, sid, p),
                  WithSlot(s, p, Slot(1, true, sid, true, slot.born + 1, slot.returned, slot.refused))
                    .(pool := s.pool - multiset{p}))
  {
    hide Next, Enabled, Inv;
    Join(s, t, sid, p);
    InvRun(s, JoinEvents(t, sid, p));
    var s1 := AfterJoin(s, sid, p);
    Leave(s1, t, sid);
    assert s.players[sid := p] - {sid} == s.players;
    RunsInTurn(s, JoinEvents(t, sid, p), LeaveEvents(t, sid, p), s1, AfterLeave(s1, sid));
  }

  /** The repaired LeaveProc's decrement reaches zero. */
  function LetGo(s: Life, t: Tid, sid: Sid, p: Pid): Life
    requires In(s, t) && p in s.slots
  {
    var slot := s.slots[p];
    WithSlot(s, p, Slot(0, true, sid, true, slot.born + 1, slot.returned, slot.refused))
      .(pool := s.pool - multiset{p}, workers := s.workers[t := s.workers[t].(phase := Freeing(p))])
  }

  lemma LastReference(s: Life, t: Tid, sid: Sid, p: Pid)
    requires s.repaired && Quiescent(s, t) && sid !in s.players && p in s.pool && p in s.slots
    ensures Leads(Erased(AfterJoin(s, sid, p), t, sid), [LeaveEnd(t), ReleaseCount(t, p)], LetGo(s, t, sid, p))
  {
    var s1 := Erased(AfterJoin(s, sid, p), t, sid);
    RunOfTwo(s1, LeaveEnd(t), ReleaseCount(t, p));
    var s2 := Next(Next(s1, LeaveEnd(t)), ReleaseCount(t, p));
    assert s.players[sid := p] - {sid} == s.players;
    assert s.workers[t].held + multiset{p} - multiset{p} == s.workers[t].held;
    assert s2.slots == LetGo(s, t, sid, p).slots;
  }

  lemma BackToPool(s: Life, t: Tid, sid: Sid, p: Pid)
    requires Quiescent(s, t) && p in s.pool && p in s.slots
    ensures var slot := s.slots[p];
            Leads(LetGo(s, t, sid, p), [ReleaseFree(t)],
                  WithSlot(s, p, Slot(0, true, sid, true, slot.born + 1, slot.returned + 1, slot.refused)))
  {
    RunOfOne(LetGo(s, t, sid, p), ReleaseFree(t));
    assert s.pool - multiset{p} + multiset{p} == s.pool;
    assert Next(LetGo(s, t, sid, p), ReleaseFree(t)).workers == s.workers;
  }

  /** With the repaired LeaveProc a life ends with one more action, the return, and the pool is as before. */
  lemma WholeLifeRepaired(s: Life, t: Tid, sid: Sid, p: Pid)
    requires s.repaired && Quiescent(s, t) && sid !in s.players && p in s.pool && p in s.slots
    ensures var slot := s.slots[p];
            Leads(s, JoinEvents(t, sid, p) + ([LockExclusive(t), LeaveErase(t, sid), UnlockExclusive(t)]
                                              + ([LeaveEnd(t), ReleaseCount(t, p)] + [ReleaseFree(t)])),
                  WithSlot(s, p, Slot(0, true, sid, true, slot.born + 1, slot.returned + 1, slot.refused)))
  {
    hide Next, Enabled;
    Join(s, t, sid, p);
    var s1 := AfterJoin(s, sid, p);
    var (erase, rest) := ([LockExclusive(t), LeaveErase(t, sid), UnlockExclusive(t)], [LeaveEnd(t), ReleaseCount(t, p)]);
    Erase(s1, t, sid);
    LastReference(s, t, sid, p);
    BackToPool(s, t, sid, p);
    var s3 := WithSlot(s, p, Slot(0, true, sid, true, s.slots[p].born + 1, s.slots[p].returned + 1, s.slots[p].refused));
    RunsInTurn(Erased(s1, t, sid), rest, [ReleaseFree(t)], LetGo(s, t, sid, p), s3);
    RunsInTurn(s1, erase, rest + [ReleaseFree(t)], Erased(s1, t, sid), s3);
    RunsInTurn(s, JoinEvents(t, sid, p), erase + (rest + [ReleaseFree(t)]), s1, s3);
  }

  /** After the leave, the test fails and the reference is given back. */
  lemma LoseAndRelease(s: Life, t: Tid, sid: Sid)
    requires !s.repaired && Quiescent(s, t) && sid in s.players && s.players[sid] in s.slots
    requires s.slots[s.players[sid]].ref > 0
    ensures Leads(AfterLeave(Counted(s, t, sid), sid), [AcquireCheck(t), ReleaseCount(t, s.players[sid])], AfterLeave(s, sid))
  {
    var p := s.players[sid];
    var s2 := AfterLeave(Counted(s, t, sid), sid);
    RunOfTwo(s2, AcquireCheck(t), ReleaseCount(t, p));
    assert s.workers[t].held + multiset{p} - multiset{p} == s.workers[t].held;
    assert Next(Next(s2, AcquireCheck(t)), ReleaseCount(t, p)).workers == s.workers;
  }

  /**
   The race that the test after the unlock is for: `u` leaves between `t`'s increment and `t`'s test.
   AcquirePlayer then gives its reference back and returns null; the count is as after the leave alone.
   */
  lemma AcquireLosesToLeave(s: Life, t: Tid, u: Tid, sid: Sid)
    requires Inv(s) && !s.repaired && Quiescent(s, t) && Quiescent(s, u) && t != u && sid in s.players
    ensures s.players[sid] in s.slots
    ensures var p := s.players[sid];
            Leads(s, LookUp(t, sid) + (LeaveEvents(u, sid, p) + [AcquireCheck(t), ReleaseCount(t, p)]),
                  AfterLeave(s, sid))
  {
    hide Next, Enabled, Inv;
    MappedIsCounted(s, sid);
    LoseAndRelease(s, t, sid);
    var p := s.players[sid];
    FindAndCount(s, t, sid);
    InvRun(s, LookUp(t, sid));
    var s1 := Counted(s, t, sid);
    Leave(s1, u, sid);
    RunsInTurn(s1, LeaveEvents(u, sid, p), [AcquireCheck(t), ReleaseCount(t, p)], AfterLeave(s1, sid), AfterLeave(s, sid));
    RunsInTurn(s, LookUp(t, sid), LeaveEvents(u, sid, p) + [AcquireCheck(t), ReleaseCount(t, p)], s1, AfterLeave(s, sid));
  }
}
