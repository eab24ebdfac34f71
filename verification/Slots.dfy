/** Session slots and handles: what SessionLock finds, and the server's calls on its slots as an object. */
module Slots {
  import opened Options
  import opened Sessions
  import opened SessionMarks
  import opened SessionRaces
  import Handle

  /** The session's sessionID field. */
  function HandleAt(s: Server, at: Slot): Word
    requires Live(s, at)
  {
    Handle.Combine(s.sess[at].sid.value, at.index)
  }

  /** What SessionLock returns for a handle. */
  function Lookup(s: Server, h: Word): Option<Slot> {
    var at := Slot(Handle.IndexOf(h));
    if Live(s, at) && HandleAt(s, at) == h && !s.sess[at].isReleased then Some(at) else None
  }

  /** sessionArray has `max` entries. */
  ghost predicate Entries(s: Server, max: Word) {
    forall x: Slot :: x in s.sess <==> x.index < max
  }

  /**
   Of two sessions, at one time or at different times of any run, the handles are equal exactly when the slots
   are and the IDs agree modulo 2^16; so sessions of different slots never share one, whatever their IDs.
   */
  lemma HandlesDiffer(s: Server, sts: seq<Step>, max: Word, i: Slot, j: Slot)
    requires Sane(s) && Entries(s, max) && max <= 0x1_0000_0000_0000 && Run(s, sts)
    requires Live(s, i) && Live(After(s, sts), j)
    ensures HandleAt(s, i) == HandleAt(After(s, sts), j) <==>
              i == j && Handle.Alike(s.sess[i].sid.value, After(s, sts).sess[j].sid.value)
  {
    SaneRun(s, sts);
    var t := After(s, sts);
    assert j in t.sess.Keys && j in s.sess && i in s.sess;
    hide Run, After, Sane, Handle.Combine, Handle.Alike;
    Handle.Same(s.sess[i].sid.value, i.index, t.sess[j].sid.value, j.index);
  }

  /** A live session that is not released is found by its handle exactly when its slot number fits the handle's 16 bits. */
  lemma HandleFindsSlot(s: Server, at: Slot)
    requires Live(s, at) && !s.sess[at].isReleased
    ensures Lookup(s, HandleAt(s, at)) == Some(at) <==> at.index < 0x10000
  {
    Handle.Unpack(s.sess[at].sid.value, at.index);
  }

  /** Every live session is found by its handle exactly if it is not released, and else nothing is. */
  ghost predicate AllFound(s: Server) {
    forall i :: Live(s, i) ==> Lookup(s, HandleAt(s, i)) == if s.sess[i].isReleased then None else Some(i)
  }

  /** On every run SessionLock finds those sessions and turns the others away, exactly when there are at most 2^16 slots. */
  lemma EverySessionFound(s: Server, max: Word)
    requires Started(s) && Entries(s, max)
    ensures (forall sts :: Run(s, sts) ==> AllFound(After(s, sts))) <==> max <= 0x10000
  {
    StartedIsSafe(s);
    if max <= 0x10000 {
      forall sts | Run(s, sts) ensures AllFound(After(s, sts)) {
        FoundBelow(s, sts, max);
      }
    } else {
      var sts := FillAll(s, 0);
      NotFoundAbove(s, sts, max);
    }
  }

  lemma FoundBelow(s: Server, sts: seq<Step>, max: Word)
    requires Sane(s) && Entries(s, max) && max <= 0x10000 && Run(s, sts)
    ensures AllFound(After(s, sts))
  {
    SaneRun(s, sts);
    var t := After(s, sts);
    forall i | Live(t, i) ensures Lookup(t, HandleAt(t, i)) == if t.sess[i].isReleased then None else Some(i) {
      assert i in t.sess.Keys && i in s.sess;
      Handle.Unpack(t.sess[i].sid.value, i.index);
    }
  }

  lemma NotFoundAbove(s: Server, sts: seq<Step>, max: Word)
    requires Sane(s) && Entries(s, max) && max > 0x10000 && Run(s, sts)
    requires var t := After(s, sts); Partition(t) && t.stack == [] && NoneReleased(t)
    ensures !AllFound(After(s, sts))
  {
    SaneRun(s, sts);
    var t := After(s, sts);
    var at := Slot(0x10000);
    assert at in s.sess.Keys && at in t.sess;
    assert at in t.stack <==> !Live(t, at);
    HandleFindsSlot(t, at);
  }

  /**
   A handle kept after its session ended: when its slot is live again `k` IDs later and not released, the
   old handle is turned away exactly when `k` is not a multiple of 2^16.
   */
  lemma StaleHandle(s: Server, at: Slot, id: Word, k: Word)
    requires Live(s, at) && s.sess[at].sid == Some(id + k) && !s.sess[at].isReleased && at.index < 0x10000
    ensures Lookup(s, Handle.Combine(id, at.index)) == Some(at) <==> k & 0xffff == 0
  {
    Handle.Unpack(id, at.index);
    Handle.Reuse(id, k, at.index);
  }

  /** No session that the run creates has an ID equal to `id` modulo 2^16. */
  predicate OtherIds(sts: seq<Step>, id: Word) {
    forall i :: 0 <= i < |sts| && sts[i].Create? ==> !Handle.Alike(sts[i].id, id)
  }

  /** The slot has the `n`th of its sessions, or one with another ID modulo 2^16, or none. */
  predicate SameOrOther(s: Server, at: Slot, id: Word, n: nat) {
    Live(s, at) ==> !Handle.Alike(s.sess[at].sid.value, id) || (s.sess[at].sid.value == id && s.lives[at] == n)
  }

  lemma SameOrOtherAfter(s: Server, st: Step, at: Slot, id: Word, n: nat)
    requires Can(s, st) && SameOrOther(s, at, id, n) && (st.Create? ==> !Handle.Alike(st.id, id))
    ensures SameOrOther(Next(s, st), at, id, n)
  {
    hide Handle.Alike, HeldAfter, MarksAfter, AskingAfter, LateAfter, CallsAfter, Target;
    if !st.Create? && !st.Init? {
      LivesKept(s, st, at);
      if Live(s, at) {
        SidKept(s, st, at);
      }
      hide Next;
    }
  }

  lemma SidKept(s: Server, st: Step, at: Slot)
    requires Can(s, st) && !st.Create? && !st.Init? && at in s.sess
    ensures at in Next(s, st).sess && Next(s, st).sess[at].sid == s.sess[at].sid
  {
    hide HeldAfter, MarksAfter, AskingAfter, LateAfter, CallsAfter, Target;
  }

  lemma {:induction false} SameOrOtherRun(s: Server, sts: seq<Step>, at: Slot, id: Word, n: nat)
    requires Run(s, sts) && SameOrOther(s, at, id, n) && OtherIds(sts, id)
    ensures SameOrOther(After(s, sts), at, id, n)
    decreases |sts|
  {
    hide Handle.Alike, Next, Can, SameOrOther;
    if sts != [] {
      assert OtherIds(sts[1..], id);
      SameOrOtherAfter(s, sts[0], at, id, n);
      SameOrOtherRun(Next(s, sts[0]), sts[1..], at, id, n);
    }
  }

  /**
   A handle kept however long: as long as no session is created with its ID modulo 2^16 (and the next 65535
   are not), SessionLock finds by it the session it was made for or nothing, however often the slot is reused.
   */
  lemma OldHandleFindsItsOwn(s: Server, sts: seq<Step>, at: Slot)
    requires Live(s, at) && at.index < 0x10000 && Run(s, sts) && OtherIds(sts, s.sess[at].sid.value)
    ensures var (t, h) := (After(s, sts), HandleAt(s, at));
            Lookup(t, h).Some? ==> Lookup(t, h) == Some(at) && t.sess[at].sid == s.sess[at].sid && t.lives[at] == s.lives[at]
  {
    var (t, id) := (After(s, sts), s.sess[at].sid.value);
    SameOrOtherRun(s, sts, at, id, s.lives[at]);
    Handle.Unpack(id, at.index);
    hide Run, After, Handle.Combine, Handle.IndexOf, Handle.Alike;
    if Live(t, at) {
      Handle.Same(id, at.index, t.sess[at].sid.value, at.index);
    }
  }

  /** When its slot is free, the old handle is turned away too, and turning it away breaks the partition. */
  lemma StaleHandleOnFreeSlot(s: Server, at: Slot, id: Word)
    requires Safe(s) && at in s.sess && !Live(s, at) && at.index < 0x10000
    ensures Lookup(s, Handle.Combine(id, at.index)) == None
    ensures Run(s, TouchAndRelease(s.next, at)) && !Partition(After(s, TouchAndRelease(s.next, at)))
  {
    Handle.Unpack(id, at.index);
    StaleHandleBreaksPartition(s, at);
  }

  // ----- the server's calls, each with no other thread in between ------------------------------

  /** Call `k` of ReleaseSession is under way on `a` and has read nothing yet. */
  predicate Called(s: Server, k: nat, a: Slot) {
    k in s.calls && s.calls[k].a == a && s.calls[k].read.None? && a in s.sess
  }

  /** ReleaseSession from its call to its return. */
  function Released(s: Server, k: nat, a: Slot): (t: Server)
    requires Called(s, k, a)
  {
    Next(Next(Next(s, ReadIndex(k)), Init(k)), CountDown)
  }

  /** What is pushed is what the slot's index field says. */
  lemma ReleasedIs(s: Server, k: nat, a: Slot)
    requires Called(s, k, a)
    ensures Released(s, k, a) == s.(calls := s.calls - {k}, stack := s.stack + [s.sess[a].index],
                                    sess := s.sess[a := BLANK], count := s.count - 1)
  {
    assert s.calls[k := s.calls[k].(read := Some(s.sess[a].index))] - {k} == s.calls - {k};
  }

  /** The decrement of ioCount and, if it reaches zero, ReleaseSession. */
  function GivenBack(s: Server, a: Slot): Server
    requires Can(s, Give(a, Releases))
  {
    var t := Next(s, Give(a, Releases));
    if s.sess[a].ioCount == 1 then Released(t, s.next, a) else t
  }

  /** DisConnect of a session not marked yet, up to the test of ioCount. */
  function Checked(s: Server, a: Slot): Server
    requires a in s.sess && !s.sess[a].isReleased
  {
    Next(Next(s, Mark(a)), Check(a))
  }

  /** DisConnect: the exchange and, if it was the first, the test of ioCount and what follows from it. */
  function Disconnected(s: Server, a: Slot): Server
    requires a in s.sess
  {
    if s.sess[a].isReleased then s
    else
      var t := Checked(s, a);
      if s.sess[a].ioCount == 0 then Released(t, s.next, a) else t
  }

  lemma GiveIs(s: Server, a: Slot)
    requires Can(s, Give(a, Releases))
    ensures var t := Next(s, Give(a, Releases));
            && t.sess == s.sess[a := s.sess[a].(ioCount := s.sess[a].ioCount - 1)]
            && t.stack == s.stack && t.count == s.count && t.held == s.held - multiset{a}
            && if s.sess[a].ioCount == 1 then Called(t, s.next, a) && t.calls.Keys == s.calls.Keys + {s.next} else t.calls == s.calls
  {
    hide Live, MarksAfter, AskingAfter, LateAfter;
  }

  lemma CheckedIs(s: Server, a: Slot)
    requires a in s.sess && !s.sess[a].isReleased
    ensures var t := Checked(s, a);
            && t.sess == s.sess[a := s.sess[a].(isReleased := true)]
            && t.stack == s.stack && t.count == s.count && t.held == s.held
            && if s.sess[a].ioCount == 0 then Called(t, s.next, a) && t.calls.Keys == s.calls.Keys + {s.next} else t.calls == s.calls
  {
    MarkIs(s, a);
    var t := Next(s, Mark(a));
    assert t.marks[a] > 0;
    hide Live, AskingAfter, LateAfter;
  }

  /** The slot is free, its index pushed, the count lowered, and no call is under way that was not before. */
  predicate SlotFreed(s: Server, a: Slot, t: Server)
    requires a in s.sess
  {
    && t.sess == s.sess[a := BLANK] && t.stack == s.stack + [s.sess[a].index] && t.count == s.count - 1
    && t.calls.Keys <= s.calls.Keys
  }

  /** Only the slot's entry has changed, to `x`. */
  predicate OnlyEntry(s: Server, a: Slot, x: Sess, t: Server) {
    t.sess == s.sess[a := x] && t.stack == s.stack && t.count == s.count && t.calls.Keys <= s.calls.Keys
  }

  /** A decrement to zero leaves the slot free with nobody releasing it; any other leaves ioCount one lower. */
  predicate GaveBack(s: Server, a: Slot, t: Server)
    requires a in s.sess
  {
    var x := s.sess[a];
    if x.ioCount == 1 then SlotFreed(s, a, t) else OnlyEntry(s, a, x.(ioCount := x.ioCount - 1), t)
  }

  /** DisConnect of a session that nobody has frees its slot, if it was not marked before; else it is marked. */
  predicate MarkedOnce(s: Server, a: Slot, t: Server)
    requires a in s.sess
  {
    var x := s.sess[a];
    if !x.isReleased && x.ioCount == 0 then SlotFreed(s, a, t) else OnlyEntry(s, a, x.(isReleased := true), t)
  }

  /** A handle that is turned away changes nothing, unless nobody has the slot, which is then freed. */
  predicate TurnedAway(s: Server, a: Slot, t: Server) {
    a in s.sess && if s.sess[a].ioCount == 0 then SlotFreed(s, a, t) else OnlyEntry(s, a, s.sess[a], t)
  }

  /** SessionLock found the session: ioCount is one higher. */
  predicate TakenUp(s: Server, a: Slot, t: Server) {
    a in s.sess && OnlyEntry(s, a, s.sess[a].(ioCount := s.sess[a].ioCount + 1), t)
  }

  lemma Overwritten(m: map<Slot, Sess>, a: Slot, x: Sess, y: Sess)
    ensures m[a := x][a := y] == m[a := y]
  {
  }

  lemma CallsLeft(calls: map<nat, Call>, now: map<nat, Call>, k: nat)
    requires now.Keys <= calls.Keys + {k}
    ensures (now - {k}).Keys <= calls.Keys
  {
  }

  /** ReleaseSession, called in a state that differs from `s` in the slot's entry and in the call only. */
  lemma ReleaseFrees(s: Server, a: Slot, x: Sess, t: Server, k: nat)
    requires a in s.sess && x.index == s.sess[a].index && Called(t, k, a)
    requires t.sess == s.sess[a := x] && t.stack == s.stack && t.count == s.count && t.calls.Keys <= s.calls.Keys + {k}
    ensures SlotFreed(s, a, Released(t, k, a))
  {
    ReleasedIs(t, k, a);
    hide Released;
    CallsLeft(s.calls, t.calls, k);
    Overwritten(s.sess, a, x, BLANK);
    assert t.sess[a] == x;
    assert t.sess[a := BLANK] == s.sess[a := BLANK];
  }

  lemma GivenBackIs(s: Server, a: Slot)
    requires Can(s, Give(a, Releases))
    ensures GaveBack(s, a, GivenBack(s, a))
  {
    GiveIs(s, a);
    hide SlotFreed, OnlyEntry;
    if s.sess[a].ioCount == 1 {
      ReleaseFrees(s, a, s.sess[a].(ioCount := 0), Next(s, Give(a, Releases)), s.next);
    } else {
      GivenOnly(s, a);
    }
    hide Next, Released;
  }

  lemma GivenOnly(s: Server, a: Slot)
    requires Can(s, Give(a, Releases)) && s.sess[a].ioCount != 1
    ensures OnlyEntry(s, a, s.sess[a].(ioCount := s.sess[a].ioCount - 1), Next(s, Give(a, Releases)))
  {
    GiveIs(s, a);
    hide Next;
  }

  /** One change of an entry after another. */
  lemma EntryTwice(s: Server, a: Slot, x: Sess, t: Server, y: Sess, u: Server)
    requires a in s.sess && OnlyEntry(s, a, x, t) && x.index == s.sess[a].index
    ensures OnlyEntry(t, a, y, u) ==> OnlyEntry(s, a, y, u)
    ensures a in t.sess && t.sess[a] == x && (SlotFreed(t, a, u) ==> SlotFreed(s, a, u))
  {
    Overwritten(s.sess, a, x, y);
    Overwritten(s.sess, a, x, BLANK);
  }

  lemma TakeIsEntry(s: Server, a: Slot)
    requires a in s.sess
    ensures TakenUp(s, a, Next(s, Take(a)))
  {
    TakeIs(s, a);
    hide Next;
  }

  lemma TurnedAwayIs(s: Server, a: Slot)
    requires a in s.sess
    ensures Can(Next(s, Take(a)), Give(a, Releases)) && TurnedAway(s, a, GivenBack(Next(s, Take(a)), a))
  {
    TakeIs(s, a);
    TakeIsEntry(s, a);
    var t := Next(s, Take(a));
    var u := GivenBack(t, a);
    GivenBackIs(t, a);
    hide Next, GivenBack, OnlyEntry, SlotFreed;
    EntryTwice(s, a, s.sess[a].(ioCount := s.sess[a].ioCount + 1), t, s.sess[a], u);
    assert s.sess[a].(ioCount := s.sess[a].ioCount + 1).(ioCount := s.sess[a].ioCount) == s.sess[a];
  }

  lemma DisconnectedIs(s: Server, a: Slot)
    requires a in s.sess
    ensures MarkedOnce(s, a, Disconnected(s, a))
  {
    if s.sess[a].isReleased {
      assert s.sess[a].(isReleased := true) == s.sess[a];
      assert s.sess[a := s.sess[a]] == s.sess;
    } else {
      CheckedIs(s, a);
      hide Checked, Released, SlotFreed, OnlyEntry;
      if s.sess[a].ioCount == 0 {
        ReleaseFrees(s, a, s.sess[a].(isReleased := true), Checked(s, a), s.next);
      } else {
        CheckedOnly(s, a);
      }
    }
  }

  lemma CheckedOnly(s: Server, a: Slot)
    requires a in s.sess && !s.sess[a].isReleased && s.sess[a].ioCount != 0
    ensures OnlyEntry(s, a, s.sess[a].(isReleased := true), Checked(s, a))
  {
    CheckedIs(s, a);
    hide Checked;
  }

  /** The array entry at the handle's index has a session, not released, whose handle it is. */
  predicate Answers(sessionArray: map<Slot, Sess>, handle: Word) {
    var a := Slot(Handle.IndexOf(handle));
    a in sessionArray && sessionArray[a].sid.Some? && Handle.Combine(sessionArray[a].sid.value, a.index) == handle
    && !sessionArray[a].isReleased
  }

  /** And that is when SessionLock finds one. */
  lemma AnswersExactly(s: Server, handle: Word)
    ensures Lookup(s, handle) == if Answers(s.sess, handle) then Some(Slot(Handle.IndexOf(handle))) else None
  {
    hide Handle.IndexOf, Handle.Combine;
  }

  lemma DisconnectedKeeps(s: Server, a: Slot)
    requires a in s.sess
    ensures Disconnected(s, a).held == s.held && a in Disconnected(s, a).sess
  {
    if !s.sess[a].isReleased {
      CheckedIs(s, a);
      hide Checked, Released;
      if s.sess[a].ioCount == 0 {
        ReleasedIs(Checked(s, a), s.next, a);
      }
    }
  }

  lemma TopIsSlot(s: Server)
    requires Sane(s) && s.count < |s.sess|
    ensures s.stack != [] && s.stack[|s.stack| - 1] in s.sess
  {
  }

  /** While the slots are partitioned the index on top is that of a free slot. */
  lemma FreshSlot(s: Server, id: Word)
    requires Sane(s) && Partition(s) && Can(s, Create(id))
    ensures !Live(s, s.stack[|s.stack| - 1]) && Partition(Next(s, Create(id)))
  {
    PartitionAfter(s, Create(id));
    assert s.stack[|s.stack| - 1] in s.stack;
  }

  class IOCPServer {
    var sessionArray: map<Slot, Sess>
    var indexStack: seq<Slot>
    var sessionCount: int
    var sessionID: Word

    /** The whole state, with what threads are about to do. */
    ghost var view: Server

    ghost predicate Valid()
      reads this
    {
      view.sess == sessionArray && view.stack == indexStack && view.count == sessionCount
    }

    /** Start: every slot Init'ed, and every index, `free` in the order of its loop, on the stack. */
    constructor (free: seq<Slot>)
      requires Distinct(free) && ZERO in free
      ensures Valid() && Started(view)
      ensures indexStack == free && sessionArray.Keys == (set x | x in free) && sessionID == 0
    {
      sessionCount, sessionID := 0, 0;
      indexStack := free;
      sessionArray := map x | x in free :: BLANK;
      view := Server(map x | x in free :: BLANK, free, 0, multiset{}, multiset{}, multiset{}, map[], 0, 0, multiset{}, multiset{});
      new;
      DistinctCount(free, sessionArray.Keys);
    }

    method PushIndex(index: Slot)
      modifies this`indexStack
      ensures indexStack == old(indexStack) + [index]
    {
      indexStack := indexStack + [index];
    }

    /** `top` of an empty stack has no meaning, so the caller must know that there is an index. */
    method PopIndex() returns (index: Slot)
      requires indexStack != []
      modifies this`indexStack
      ensures old(indexStack) == indexStack + [index]
    {
      index := indexStack[|indexStack| - 1];
      indexStack := indexStack[..|indexStack| - 1];
    }

    /**
     CreateSession, under AcceptThread's test of sessionCount, which is enough for PopIndex: the session
     gets the slot on top of the stack, the next ID and that slot's handle.
     */
    method CreateSession() returns (at: Slot, handle: Word)
      requires Valid() && Sane(view) && sessionCount < |sessionArray|
      modifies this
      ensures Valid() && sessionID == old(sessionID) + 1
      ensures Can(old(view), Create(sessionID)) && view == Next(old(view), Create(sessionID))
      ensures old(indexStack) == indexStack + [at]
      ensures Live(view, at) && handle == HandleAt(view, at)
    {
      TopIsSlot(view);
      at := PopIndex();
      assert at == view.stack[|view.stack| - 1];
      sessionID := sessionID + 1;
      sessionArray := sessionArray[at := sessionArray[at].(sid := Some(sessionID), index := at)];
      sessionCount := sessionCount + 1;
      handle := Handle.Combine(sessionID, at.index);
      view := Next(view, Create(sessionID));
      hide Sane, HeldAfter, MarksAfter, AskingAfter, LateAfter, CallsAfter, Target;
    }

    /** ReleaseSession, apart from the packets in its queues: whatever the slot's index field says is pushed. */
    method ReleaseSession(at: Slot, ghost k: nat)
      requires Valid() && Called(view, k, at)
      modifies this
      ensures Valid() && view == Released(old(view), k, at) && sessionID == old(sessionID)
      ensures indexStack == old(indexStack) + [old(sessionArray[at].index)]
      ensures sessionArray == old(sessionArray)[at := BLANK] && sessionCount == old(sessionCount) - 1
    {
      ReleasedIs(view, k, at);
      view := Released(view, k, at);
      hide Released;
      var idx := sessionArray[at].index;
      sessionArray := sessionArray[at := BLANK];
      PushIndex(idx);
      sessionCount := sessionCount - 1;
    }

    /**
     SessionLock: an increment in hand if the handle is that of a session that is not released; else the
     increment is taken back, and if that reaches zero the slot is released, live or not.
     */
    method SessionLock(handle: Word) returns (session: Option<Slot>)
      requires Valid() && Slot(Handle.IndexOf(handle)) in sessionArray && Sane(view)
      modifies this
      ensures Valid() && sessionID == old(sessionID)
      ensures var (s, a) := (old(view), Slot(Handle.IndexOf(handle)));
              && session == Lookup(s, handle)
              && view == if session.Some? then Next(s, Take(a)) else GivenBack(Next(s, Take(a)), a)
      ensures session.Some? <==> Answers(old(sessionArray), handle)
      ensures session.Some? ==> session == Some(Slot(Handle.IndexOf(handle))) && TakenUp(old(view), session.value, view)
      ensures session.None? ==> TurnedAway(old(view), Slot(Handle.IndexOf(handle)), view)
    {
      var a := Slot(Handle.IndexOf(handle));
      AnswersExactly(view, handle);
      TakeIs(view, a);
      TakeIsEntry(view, a);
      TurnedAwayIs(view, a);
      assert sessionArray[a].sid.Some? ==> sessionArray[a].index == a;
      hide Sane;
      hide Next, GivenBack, Answers, TurnedAway, TakenUp, GaveBack, Handle.IndexOf, Handle.Combine;
      view := Next(view, Take(a));
      sessionArray := sessionArray[a := sessionArray[a].(ioCount := sessionArray[a].ioCount + 1)];
      var sess := sessionArray[a];
      if sess.sid.None? || Handle.Combine(sess.sid.value, sess.index.index) != handle || sess.isReleased {
        SessionUnLock(a);
        return None;
      }
      return Some(a);
    }

    /** SessionUnLock: the decrement, and a release if it reaches zero, whatever isReleased says. */
    method SessionUnLock(a: Slot)
      requires Valid() && Can(view, Give(a, Releases))
      modifies this
      ensures Valid() && view == GivenBack(old(view), a) && sessionID == old(sessionID)
      ensures GaveBack(old(view), a, view)
    {
      ghost var k := view.next;
      GiveIs(view, a);
      GivenBackIs(view, a);
      hide GaveBack;
      view := Next(view, Give(a, Releases));
      hide Next, Released;
      sessionArray := sessionArray[a := sessionArray[a].(ioCount := sessionArray[a].ioCount - 1)];
      if sessionArray[a].ioCount == 0 {
        ReleaseSession(a, k);
      }
    }

    method DisConnect(a: Slot)
      requires Valid() && a in sessionArray
      modifies this
      ensures Valid() && view == Disconnected(old(view), a) && sessionID == old(sessionID)
      ensures MarkedOnce(old(view), a, view)
    {
      DisconnectedIs(view, a);
      hide MarkedOnce;
      if sessionArray[a].isReleased {
        return;
      }
      CheckedIs(view, a);
      hide Checked, Released;
      ghost var k := view.next;
      view := Checked(view, a);
      sessionArray := sessionArray[a := sessionArray[a].(isReleased := true)];
      if sessionArray[a].ioCount == 0 {
        ReleaseSession(a, k);
      }
    }

    /** Disconnect: the session of a handle, if SessionLock finds it, is marked and unlocked. */
    method Disconnect(handle: Word)
      requires Valid() && Slot(Handle.IndexOf(handle)) in sessionArray && Sane(view)
      modifies this
      ensures Valid()
      ensures var (s, a) := (old(view), Slot(Handle.IndexOf(handle)));
              if Lookup(s, handle).None? then view == GivenBack(Next(s, Take(a)), a)
              else
                var t := Disconnected(Next(s, Take(a)), a);
                Can(t, Give(a, Releases)) && view == GivenBack(t, a)
    {
      hide GivenBack, Disconnected;
      ghost var s := view;
      var session := SessionLock(handle);
      if session.Some? {
        TakeIs(s, session.value);
        DisconnectedKeeps(view, session.value);
        DisConnect(session.value);
        SessionUnLock(session.value);
      }
    }
  }

  /** A stack without repetitions is as long as the set of its elements is large. */
  lemma {:induction false} DistinctCount(stack: seq<Slot>, all: set<Slot>)
    requires Distinct(stack) && forall x :: x in all <==> x in stack
    ensures |all| == |stack|
  {
    if stack == [] {
      assert all == {};
    } else {
      var (rest, top) := (stack[..|stack| - 1], stack[|stack| - 1]);
      TopIsUnique(stack);
      DistinctCount(rest, all - {top});
    }
  }
}
