/** Runs that the code has, on which slots are released twice, while free, or without a disconnect. */
module SessionRaces {
  import opened Options
  import opened Sessions
  import opened SessionMarks

  /** The rest of a ReleaseSession with no other thread in between, up to PushIndex. */
  function Rest(k: nat): seq<Step> {
    [ReadIndex(k), Init(k)]
  }

  /** What a slot looks like to the others once call `k` on it has run that far. */
  predicate Reset(s: Server, k: nat, a: Slot, t: Server)
    requires a in s.sess
  {
    && t.stack == s.stack + [s.sess[a].index] && t.sess == s.sess[a := BLANK] && t.count == s.count
    && t.held == s.held && t.marks == s.marks && t.asking == s.asking && t.next == s.next
    && t.calls == s.calls - {k}
  }

  lemma RestResets(s: Server, k: nat, a: Slot)
    requires k in s.calls && s.calls[k].a == a && s.calls[k].read.None? && a in s.sess
    ensures Run(s, Rest(k)) && Reset(s, k, a, After(s, Rest(k)))
  {
    var t := Next(s, ReadIndex(k));
    assert t.calls - {k} == s.calls - {k};
    RunOfTwo(s, ReadIndex(k), Init(k));
    hide Run, After;
  }

  /** A failing SessionLock, or a lock and an unlock, whose decrement is the one that reaches zero. */
  function Touch(a: Slot): seq<Step> {
    [Take(a), Give(a, Releases)]
  }

  function TouchAndRelease(k: nat, a: Slot): seq<Step> {
    Touch(a) + Rest(k)
  }

  /** Nothing has changed but that one more call is under way, on `a`. */
  predicate CallAdded(s: Server, a: Slot, t: Server) {
    && t.stack == s.stack && t.sess == s.sess && t.count == s.count && t.held == s.held
    && t.marks == s.marks && t.asking == s.asking && t.next == s.next + 1
    && t.calls == s.calls[s.next := Call(a, Live(s, a), s.lives[a], None)]
  }

  lemma TakeIs(s: Server, a: Slot)
    requires a in s.sess
    ensures Can(s, Take(a))
    ensures Next(s, Take(a)) == s.(sess := s.sess[a := s.sess[a].(ioCount := s.sess[a].ioCount + 1)],
                                   held := s.held + multiset{a}, late := s.late + multiset{a})
  {
  }

  lemma LastGiveIs(s: Server, a: Slot)
    requires a in s.sess && a in s.held && s.sess[a].ioCount == 1
    ensures Can(s, Give(a, Releases))
    ensures Next(s, Give(a, Releases)) == s.(sess := s.sess[a := s.sess[a].(ioCount := 0)],
                                             held := s.held - multiset{a}, late := s.late[a := 0], next := s.next + 1,
                                             calls := s.calls[s.next := Call(a, Live(s, a), s.lives[a], None)])
  {
    hide Live;
  }

  lemma TakenAndGiven(s: Server, a: Slot)
    requires a in s.sess && s.sess[a].ioCount == 0 && s.held[a] == 0
    ensures Can(s, Take(a)) && Can(Next(s, Take(a)), Give(a, Releases))
    ensures CallAdded(s, a, Next(Next(s, Take(a)), Give(a, Releases)))
  {
    TakeIs(s, a);
    LastGiveIs(Next(s, Take(a)), a);
    hide Next, Can;
    assert s.held + multiset{a} - multiset{a} == s.held;
    assert s.sess[a := s.sess[a].(ioCount := 1)][a := s.sess[a].(ioCount := 0)] == s.sess;
  }

  lemma TouchCalls(s: Server, a: Slot)
    requires a in s.sess && s.sess[a].ioCount == 0 && s.held[a] == 0
    ensures Run(s, Touch(a)) && CallAdded(s, a, After(s, Touch(a)))
  {
    TakenAndGiven(s, a);
    hide Next, Can, Run, After, CallAdded;
    RunOfTwo(s, Take(a), Give(a, Releases));
    assert Touch(a) == [Take(a), Give(a, Releases)];
  }

  /** One call on `a` has come and gone. */
  predicate CallDone(s: Server, a: Slot, t: Server)
    requires a in s.sess
  {
    && t.stack == s.stack + [s.sess[a].index] && t.sess == s.sess[a := BLANK] && t.count == s.count
    && t.held == s.held && t.marks == s.marks && t.asking == s.asking && t.next == s.next + 1
    && t.calls == s.calls - {s.next}
  }

  lemma AddedAndReset(s: Server, a: Slot, t: Server, u: Server)
    requires a in s.sess && CallAdded(s, a, t) && Reset(t, s.next, a, u)
    ensures CallDone(s, a, u)
  {
    hide Live;
    assert u.calls == s.calls - {s.next};
  }

  lemma TouchReleases(s: Server, a: Slot)
    requires a in s.sess && s.sess[a].ioCount == 0 && s.held[a] == 0
    ensures Run(s, TouchAndRelease(s.next, a)) && CallDone(s, a, After(s, TouchAndRelease(s.next, a)))
  {
    var k := s.next;
    TouchCalls(s, a);
    var t := After(s, Touch(a));
    RestResets(t, k, a);
    hide Run, After, Next, Can, Rest, Touch, Live, CallDone, CallAdded, Reset;
    RunsInTurn(s, Touch(a), Rest(k), t, After(t, Rest(k)));
    AddedAndReset(s, a, t, After(t, Rest(k)));
  }

  /**
   A handle kept too long: SessionLock on a slot that is free by now counts it up, turns the handle away,
   counts it down to zero and releases the free slot, which pushes index zero once more.
   */
  lemma StaleHandleBreaksPartition(s: Server, a: Slot)
    requires Safe(s) && a in s.sess && !Live(s, a)
    ensures Run(s, TouchAndRelease(s.next, a))
    ensures var t := After(s, TouchAndRelease(s.next, a)); t.stack == s.stack + [ZERO] && !Partition(t)
  {
    assert Quiet(s, a) && s.sess[a].ioCount == s.held[a];
    TouchReleases(s, a);
    PushedIsTop(s.stack, ZERO);
    var t := After(s, TouchAndRelease(s.next, a));
    assert ZERO in s.sess && (ZERO in s.stack <==> !Live(s, ZERO));
    assert ZERO in t.sess && ZERO in t.stack && (Live(s, ZERO) ==> Live(t, ZERO));
    hide Run, After, TouchAndRelease;
  }

  /** After that, while slot zero has a session, the next connection is given slot zero as well and takes its place. */
  lemma TwoConnectionsShareSlotZero(s: Server, a: Slot, id: Word)
    requires Safe(s) && a in s.sess && !Live(s, a) && Live(s, ZERO) && s.uncounted == 0
    ensures Run(s, TouchAndRelease(s.next, a)) && Can(After(s, TouchAndRelease(s.next, a)), Create(id))
    ensures var t := After(s, TouchAndRelease(s.next, a)); ZERO in t.sess && t.sess[ZERO].sid == s.sess[ZERO].sid
    ensures var t := Next(After(s, TouchAndRelease(s.next, a)), Create(id));
            ZERO in t.sess && t.sess[ZERO].sid == Some(id) && t.stack == s.stack
  {
    assert Quiet(s, a) && a in s.stack && s.sess[a].ioCount == s.held[a] && Sane(s);
    TouchReleases(s, a);
    assert a != ZERO;
    assert (s.stack + [ZERO])[..|s.stack|] == s.stack;
    var t := After(s, TouchAndRelease(s.next, a));
    assert |t.sess| == |s.sess| by { assert t.sess.Keys == s.sess.Keys; assert |t.sess| == |t.sess.Keys| && |s.sess| == |s.sess.Keys|; }
    hide Run, After, TouchAndRelease, Tidy, Counted, Quiet, Sane;
  }

  /**
   A connection is lost before its first receive: a lock and an unlock by another thread between
   OnClientJoin and PostRecv release a session that nobody has disconnected.
   */
  lemma UnlockReleasesNewSession(s: Server, a: Slot)
    requires Safe(s) && Live(s, a) && !s.sess[a].isReleased && s.held[a] == 0
    ensures Run(s, TouchAndRelease(s.next, a)) && !Live(After(s, TouchAndRelease(s.next, a)), a)
    ensures Partition(After(s, TouchAndRelease(s.next, a)))
  {
    assert Quiet(s, a) && s.sess[a].ioCount == s.held[a] && s.sess[a].index == a;
    TouchReleases(s, a);
    PushedIsTop(s.stack, a);
    var t := After(s, TouchAndRelease(s.next, a));
    forall b | b in t.sess ensures b in t.stack <==> !Live(t, b) {
      assert b in s.sess && (b in s.stack <==> !Live(s, b));
    }
    hide Run, After, TouchAndRelease;
  }

  /** The DisConnect of a session that nobody has and nobody has marked. */
  function MarkAndCheck(a: Slot): seq<Step> {
    [Mark(a), Check(a)]
  }

  lemma MarkIs(s: Server, a: Slot)
    requires a in s.sess && !s.sess[a].isReleased
    ensures Can(s, Mark(a))
    ensures Next(s, Mark(a)) == s.(sess := s.sess[a := s.sess[a].(isReleased := true)], marks := s.marks + multiset{a})
  {
  }

  lemma LastCheckIs(s: Server, a: Slot)
    requires a in s.sess && a in s.marks && s.sess[a].ioCount == 0
    ensures Can(s, Check(a))
    ensures Next(s, Check(a)) == s.(marks := s.marks - multiset{a}, late := s.late[a := 0], next := s.next + 1,
                                    calls := s.calls[s.next := Call(a, Live(s, a), s.lives[a], None)])
  {
    hide Live;
  }

  /** `a` is marked, and a new call is under way on it. */
  predicate MarkedCall(s: Server, a: Slot, t: Server)
    requires a in s.sess
  {
    && t.stack == s.stack && t.sess == s.sess[a := s.sess[a].(isReleased := true)]
    && s.next in t.calls && t.calls[s.next].a == a && t.calls[s.next].read.None?
  }

  lemma MarkedAndChecked(s: Server, a: Slot)
    requires a in s.sess && s.sess[a].ioCount == 0 && !s.sess[a].isReleased
    ensures Can(s, Mark(a)) && Can(Next(s, Mark(a)), Check(a)) && MarkedCall(s, a, Next(Next(s, Mark(a)), Check(a)))
  {
    MarkIs(s, a);
    LastCheckIs(Next(s, Mark(a)), a);
    hide Next, Can, Live;
  }

  lemma MarkCalls(s: Server, a: Slot)
    requires a in s.sess && s.sess[a].ioCount == 0 && !s.sess[a].isReleased
    ensures Run(s, MarkAndCheck(a)) && MarkedCall(s, a, After(s, MarkAndCheck(a)))
  {
    MarkedAndChecked(s, a);
    hide Next, Can, Run, After, MarkedCall;
    RunOfTwo(s, Mark(a), Check(a));
    assert MarkAndCheck(a) == [Mark(a), Check(a)];
  }

  /** The slot has been reset and its index pushed. */
  predicate SlotDone(s: Server, a: Slot, t: Server)
    requires a in s.sess
  {
    t.stack == s.stack + [s.sess[a].index] && t.sess == s.sess[a := BLANK]
  }

  lemma MarkedAndReset(s: Server, a: Slot, t: Server, u: Server)
    requires a in s.sess && MarkedCall(s, a, t) && Reset(t, s.next, a, u)
    ensures SlotDone(s, a, u)
  {
  }

  function MarkAndRelease(k: nat, a: Slot): seq<Step> {
    MarkAndCheck(a) + Rest(k)
  }

  lemma MarkReleases(s: Server, a: Slot)
    requires a in s.sess && s.sess[a].ioCount == 0 && !s.sess[a].isReleased
    ensures Run(s, MarkAndRelease(s.next, a)) && SlotDone(s, a, After(s, MarkAndRelease(s.next, a)))
  {
    MarkCalls(s, a);
    var t := After(s, MarkAndCheck(a));
    RestResets(t, s.next, a);
    hide Run, After, Next, Can, Rest, MarkAndCheck, SlotDone, MarkedCall, Reset;
    RunsInTurn(s, MarkAndCheck(a), Rest(s.next), t, After(t, Rest(s.next)));
    MarkedAndReset(s, a, t, After(t, Rest(s.next)));
  }

  /** PostRecv when WSARecv fails on a session that nobody else has: ReleaseSession, and then DisConnect all the same. */
  function FailedReceive(k: nat, a: Slot): seq<Step> {
    TouchAndRelease(k, a) + MarkAndRelease(k + 1, a)
  }

  /** The slot has been reset twice, and its index and zero pushed. */
  predicate SlotDoneTwice(s: Server, a: Slot, t: Server)
    requires a in s.sess
  {
    t.stack == s.stack + [s.sess[a].index] + [ZERO] && t.sess == s.sess[a := BLANK]
  }

  lemma DoneAndDone(s: Server, a: Slot, t: Server, u: Server)
    requires a in s.sess && CallDone(s, a, t) && SlotDone(t, a, u)
    ensures SlotDoneTwice(s, a, u)
  {
  }

  lemma DoneIsBlank(s: Server, a: Slot, t: Server)
    requires a in s.sess && CallDone(s, a, t)
    ensures a in t.sess && t.sess[a] == BLANK && t.next == s.next + 1
  {
  }

  lemma FailedReceiveRuns(s: Server, a: Slot)
    requires a in s.sess && s.sess[a].ioCount == 0 && s.held[a] == 0
    ensures Run(s, FailedReceive(s.next, a)) && SlotDoneTwice(s, a, After(s, FailedReceive(s.next, a)))
  {
    hide Run, After, TouchAndRelease, MarkAndRelease, CallDone, SlotDone, SlotDoneTwice;
    var k := s.next;
    TouchReleases(s, a);
    var t := After(s, TouchAndRelease(k, a));
    DoneIsBlank(s, a, t);
    MarkReleases(t, a);
    RunsInTurn(s, TouchAndRelease(k, a), MarkAndRelease(k + 1, a), t, After(t, MarkAndRelease(k + 1, a)));
    DoneAndDone(s, a, t, After(t, MarkAndRelease(k + 1, a)));
  }

  /** It releases the slot twice: its own index goes on the stack, and then zero. */
  lemma FailedReceiveReleasesTwice(s: Server, a: Slot)
    requires Safe(s) && Live(s, a) && !s.sess[a].isReleased && s.held[a] == 0
    ensures Run(s, FailedReceive(s.next, a))
    ensures var t := After(s, FailedReceive(s.next, a)); t.stack == s.stack + [a] + [ZERO] && !Partition(t)
  {
    assert s.sess[a].ioCount == s.held[a] && s.sess[a].index == a;
    FailedReceiveRuns(s, a);
    var t := After(s, FailedReceive(s.next, a));
    PushedIsTop(s.stack, a);
    PushedIsTop(s.stack + [a], ZERO);
    assert ZERO in s.sess && (ZERO in s.stack <==> !Live(s, ZERO));
    assert ZERO in t.sess && ZERO in t.stack && (Live(s, ZERO) && ZERO != a ==> Live(t, ZERO));
    hide Run, After, FailedReceive;
  }

  /** WorkerThread's decrement to zero of a marked session, up to its call of ReleaseSession. */
  function WorkerReleases(a: Slot): seq<Step> {
    [Give(a, AsksFirst), Ask(a)]
  }

  lemma AskingGiveIs(s: Server, a: Slot)
    requires a in s.sess && a in s.held && s.sess[a].ioCount == 1
    ensures Can(s, Give(a, AsksFirst))
    ensures Next(s, Give(a, AsksFirst)) == s.(sess := s.sess[a := s.sess[a].(ioCount := 0)], held := s.held - multiset{a},
                                              late := s.late[a := 0], asking := s.asking + multiset{a})
  {
  }

  lemma AskIs(s: Server, a: Slot)
    requires a in s.sess && a in s.asking && s.sess[a].isReleased
    ensures Can(s, Ask(a))
    ensures Next(s, Ask(a)) == s.(asking := s.asking - multiset{a}, next := s.next + 1,
                                  calls := s.calls[s.next := Call(a, Live(s, a), s.lives[a], None)])
  {
    hide Live;
  }

  /** The count of `a` is at zero with nobody holding it, and a new call is under way on it. */
  predicate LastCall(s: Server, a: Slot, t: Server)
    requires a in s.sess
  {
    && t.stack == s.stack && t.sess == s.sess[a := s.sess[a].(ioCount := 0)] && t.held == s.held - multiset{a}
    && t.next == s.next + 1 && s.next in t.calls && t.calls[s.next].a == a && t.calls[s.next].read.None?
  }

  lemma GivenAndAsked(s: Server, a: Slot)
    requires a in s.sess && a in s.held && s.sess[a].ioCount == 1 && s.sess[a].isReleased
    ensures Can(s, Give(a, AsksFirst)) && Can(Next(s, Give(a, AsksFirst)), Ask(a))
    ensures LastCall(s, a, Next(Next(s, Give(a, AsksFirst)), Ask(a)))
  {
    AskingGiveIs(s, a);
    AskIs(Next(s, Give(a, AsksFirst)), a);
    hide Next, Can, Live;
  }

  lemma WorkerCalls(s: Server, a: Slot)
    requires a in s.sess && a in s.held && s.sess[a].ioCount == 1 && s.sess[a].isReleased
    ensures Run(s, WorkerReleases(a)) && LastCall(s, a, After(s, WorkerReleases(a)))
  {
    GivenAndAsked(s, a);
    hide Next, Can, Run, After, LastCall;
    RunOfTwo(s, Give(a, AsksFirst), Ask(a));
    assert WorkerReleases(a) == [Give(a, AsksFirst), Ask(a)];
  }

  /** Two calls on `a` are under way that have not read its index. */
  predicate TwoUnread(s: Server, j: nat, k: nat, a: Slot) {
    && j in s.calls && k in s.calls && j != k && a in s.sess
    && s.calls[j].a == s.calls[k].a == a && s.calls[j].read == s.calls[k].read == None
  }

  /** And before the worker's ReleaseSession gets as far as Init, a SessionLock that is turned away. */
  function TwoCalls(a: Slot): seq<Step> {
    WorkerReleases(a) + Touch(a)
  }

  lemma CalledTwice(s: Server, a: Slot, t: Server, u: Server)
    requires a in s.sess && LastCall(s, a, t) && CallAdded(t, a, u)
    ensures TwoUnread(u, s.next, s.next + 1, a) && u.stack == s.stack && u.sess[a].index == s.sess[a].index
  {
    hide Live;
  }

  lemma TwoCallsRun(s: Server, a: Slot)
    requires a in s.sess && s.sess[a].ioCount == s.held[a] == 1 && s.sess[a].isReleased
    ensures Run(s, TwoCalls(a))
    ensures var t := After(s, TwoCalls(a));
            TwoUnread(t, s.next, s.next + 1, a) && t.stack == s.stack && t.sess[a].index == s.sess[a].index
  {
    WorkerCalls(s, a);
    var t := After(s, WorkerReleases(a));
    TouchCalls(t, a);
    var u := After(t, Touch(a));
    CalledTwice(s, a, t, u);
    hide Run, After, Next, Can, Touch, WorkerReleases, LastCall, CallAdded;
    RunsInTurn(s, WorkerReleases(a), Touch(a), t, u);
  }

  function BothRead(k: nat): seq<Step> {
    [ReadIndex(k), ReadIndex(k + 1)]
  }

  function BothInit(k: nat): seq<Step> {
    [Init(k), Init(k + 1)]
  }

  lemma ReadIs(s: Server, k: nat, a: Slot)
    requires k in s.calls && s.calls[k].a == a && a in s.sess && s.calls[k].read.None?
    ensures Can(s, ReadIndex(k))
    ensures Next(s, ReadIndex(k)) == s.(calls := s.calls[k := s.calls[k].(read := Some(s.sess[a].index))])
  {
  }

  /** Two calls on `a` have read index `i`. */
  predicate TwoRead(s: Server, k: nat, a: Slot, i: Slot) {
    && k in s.calls && k + 1 in s.calls && a in s.sess && s.calls[k].a == s.calls[k + 1].a == a
    && s.calls[k].read == s.calls[k + 1].read == Some(i)
  }

  lemma ReadInTurn(s: Server, k: nat, a: Slot)
    requires TwoUnread(s, k, k + 1, a)
    ensures Can(s, ReadIndex(k)) && Can(Next(s, ReadIndex(k)), ReadIndex(k + 1))
    ensures var t := Next(Next(s, ReadIndex(k)), ReadIndex(k + 1));
            TwoRead(t, k, a, s.sess[a].index) && t.stack == s.stack
  {
    ReadIs(s, k, a);
    ReadIs(Next(s, ReadIndex(k)), k + 1, a);
    hide Next, Can;
  }

  lemma BothReadRun(s: Server, k: nat, a: Slot)
    requires TwoUnread(s, k, k + 1, a)
    ensures Run(s, BothRead(k))
    ensures TwoRead(After(s, BothRead(k)), k, a, s.sess[a].index) && After(s, BothRead(k)).stack == s.stack
  {
    ReadInTurn(s, k, a);
    hide Next, Can, Run, After, TwoRead;
    RunOfTwo(s, ReadIndex(k), ReadIndex(k + 1));
    assert BothRead(k) == [ReadIndex(k), ReadIndex(k + 1)];
  }

  lemma BothInitRun(s: Server, k: nat, a: Slot, i: Slot)
    requires TwoRead(s, k, a, i)
    ensures Run(s, BothInit(k)) && After(s, BothInit(k)).stack == s.stack + [i] + [i]
  {
    RunOfTwo(s, Init(k), Init(k + 1));
    assert BothInit(k) == [Init(k), Init(k + 1)];
    hide Run, After;
  }

  /** Both read the index before either resets it. */
  function TwoReleases(k: nat, a: Slot): seq<Step> {
    TwoCalls(a) + (BothRead(k) + BothInit(k))
  }

  lemma TwoReleasesRun(s: Server, a: Slot)
    requires a in s.sess && s.sess[a].ioCount == s.held[a] == 1 && s.sess[a].isReleased
    ensures Run(s, TwoReleases(s.next, a))
    ensures After(s, TwoReleases(s.next, a)).stack == s.stack + [s.sess[a].index] + [s.sess[a].index]
  {
    hide Run, After, Next, Can, TwoCalls, BothRead, BothInit, TwoRead, TwoUnread;
    var (k, i) := (s.next, s.sess[a].index);
    TwoCallsRun(s, a);
    var t := After(s, TwoCalls(a));
    BothReadRun(t, k, a);
    var u := After(t, BothRead(k));
    BothInitRun(u, k, a, i);
    var v := After(u, BothInit(k));
    RunsInTurn(t, BothRead(k), BothInit(k), u, v);
    RunsInTurn(s, TwoCalls(a), BothRead(k) + BothInit(k), t, v);
  }

  /** Both calls are made while the session is live, and its index goes on the stack twice. */
  lemma TwoReleasesBreakPartition(s: Server, a: Slot)
    requires Safe(s) && Live(s, a) && s.sess[a].isReleased && s.held[a] == 1
    ensures Run(s, TwoReleases(s.next, a))
    ensures var t := After(s, TwoReleases(s.next, a)); t.stack == s.stack + [a] + [a] && !Partition(t)
  {
    assert s.sess[a].ioCount == s.held[a] && s.sess[a].index == a;
    TwoReleasesRun(s, a);
    PushedIsTop(s.stack, a);
    PushedIsTop(s.stack + [a], a);
    hide Run, After, TwoReleases;
  }
}
