/**
 When sessions are released: only after DisConnect has marked them, and each exactly once. Both are matters
 of how the callers use ioCount and isReleased.
 */
module SessionMarks {
  import opened Options
  import opened Sessions

  /**
   ReleaseSession is called cleanly and finds its slot unused; DisConnect is called with an increment in
   hand; the second test of SessionLock does not give back the last increment.
   */
  predicate Orderly(s: Server, st: Step) {
    && Clean(s, st)
    && (st.Init? && st.k in s.calls ==> var a := s.calls[st.k].a; s.held[a] == 0 && a !in s.asking)
    && (st.Mark? || st.Check? ==> st.a in s.held)
    && (st.Give? && st.a in s.sess && st.zero == Leaves ==> s.sess[st.a].ioCount != 1)
  }

  /** What is released has been marked by DisConnect. */
  predicate Marked(s: Server, st: Step) {
    st.Init? && st.k in s.calls && s.calls[st.k].a in s.sess ==> s.sess[s.calls[st.k].a].isReleased
  }

  /** A decrement to zero that releases without asking finds isReleased set. */
  predicate UnaskedIsMarked(s: Server, st: Step) {
    st.Give? && st.zero == Releases && st.a in s.sess && s.sess[st.a].ioCount == 1 ==> s.sess[st.a].isReleased
  }

  ghost predicate CallsMarked(s: Server) {
    forall k :: k in s.calls && s.calls[k].a in s.sess ==> s.sess[s.calls[k].a].isReleased
  }

  lemma MarkKept(s: Server, st: Step, a: Slot)
    requires Can(s, st) && a in s.sess && s.sess[a].isReleased && (st.Init? ==> s.calls[st.k].a != a)
    ensures a in Next(s, st).sess && Next(s, st).sess[a].isReleased
  {
  }

  lemma CallsMarkedAfter(s: Server, st: Step)
    requires Tidy(s) && Counted(s) && CallsMarked(s) && Can(s, st) && Orderly(s, st) && UnaskedIsMarked(s, st)
    ensures CallsMarked(Next(s, st))
  {
    var t := Next(s, st);
    EntriesKept(s, st);
    forall k | k in t.calls && t.calls[k].a in t.sess ensures t.sess[t.calls[k].a].isReleased {
      CallAfter(s, st, k);
      assert t.calls[k].a in s.sess.Keys;
      MarkKept(s, st, t.calls[k].a);
    }
  }

  /** Call `k` will not find its slot marked and unused, unless another call is made on it. */
  predicate Tainted(s: Server, k: nat) {
    k in s.calls && s.calls[k].a in s.sess &&
    var a := s.calls[k].a;
    !s.sess[a].isReleased || s.held[a] > 0 || a in s.asking
  }

  lemma TaintKept(s: Server, st: Step, a: Slot)
    requires Can(s, st) && a in s.sess && s.sess[a].ioCount == s.held[a]
    requires !s.sess[a].isReleased || s.held[a] > 0 || a in s.asking
    requires Target(s, st) != Some(a) && (st.Init? ==> s.calls[st.k].a != a)
    requires (st == Mark(a) ==> a in s.held) && (st == Give(a, Leaves) ==> s.held[a] != 1)
    ensures var t := Next(s, st);
            a in t.sess && (!t.sess[a].isReleased || t.held[a] > 0 || a in t.asking)
  {
    hide StackAfter, MarksAfter, LateAfter, CallsAfter;
    if st.Give? || st.Take? || st.Ask? {
      assert Next(s, st).sess[a].isReleased == s.sess[a].isReleased;
      hide SessAfter;
    } else {
      assert st.Check? || st == Mark(a) || Written(s, st).None? || Written(s, st).value.0 != a
             || Written(s, st).value.1.isReleased == s.sess[a].isReleased;
    }
  }

  lemma TaintStays(s: Server, st: Step, k: nat)
    requires Tidy(s) && Counted(s) && Can(s, st) && Orderly(s, st) && Marked(s, st) && Tainted(s, k)
    ensures Tainted(Next(s, st), k)
  {
    CallAfter(s, st, k);
    var a := s.calls[k].a;
    assert Target(s, st) != Some(a) && (st.Init? ==> s.calls[st.k].a != a);
    assert s.sess[a].ioCount == s.held[a];
    TaintKept(s, st, a);
    hide Next, Tidy, Counted;
  }

  lemma UnmarkedTaints(s: Server, st: Step)
    requires Sane(s) && Can(s, st) && !UnaskedIsMarked(s, st)
    ensures Tainted(Next(s, st), s.next)
  {
    CallAfter(s, st, s.next);
  }

  lemma {:induction false} TaintedGoesWrong(s: Server, sts: seq<Step>, k: nat)
    requires Tidy(s) && Counted(s) && s.late == s.held && Run(s, sts) && Each(s, sts, Orderly)
    requires Tainted(s, k) && After(s, sts).calls == map[]
    ensures !Each(s, sts, Marked)
    decreases |sts|
  {
    if sts != [] && Marked(s, sts[0]) {
      TidyAfter(s, sts[0]);
      OrderlyIsCounted(s, sts[0]);
      TaintStays(s, sts[0], k);
      TaintedGoesWrong(Next(s, sts[0]), sts[1..], k);
    }
  }

  lemma OrderlyIsCounted(s: Server, st: Step)
    requires Counted(s) && s.late == s.held && Can(s, st) && Orderly(s, st)
    ensures Counted(Next(s, st)) && Next(s, st).late == Next(s, st).held
  {
    CountedAfter(s, st);
  }

  /**
   On every orderly run that ends with no ReleaseSession under way, every session released had been
   disconnected exactly when every decrement to zero that does not ask isReleased finds it set.
   */
  lemma {:induction false} MarkedExactly(s: Server, sts: seq<Step>)
    requires Tidy(s) && Counted(s) && s.late == s.held && CallsMarked(s)
    requires Run(s, sts) && Each(s, sts, Orderly) && After(s, sts).calls == map[]
    ensures Each(s, sts, Marked) <==> Each(s, sts, UnaskedIsMarked)
    decreases |sts|
  {
    if sts != [] {
      var t := Next(s, sts[0]);
      TidyAfter(s, sts[0]);
      OrderlyIsCounted(s, sts[0]);
      if UnaskedIsMarked(s, sts[0]) {
        CallsMarkedAfter(s, sts[0]);
        MarkedExactly(t, sts[1..]);
      } else {
        UnmarkedTaints(s, sts[0]);
        TaintedGoesWrong(t, sts[1..], s.next);
      }
    }
  }

  // ----- when each session is released exactly once --------------------------------------------

  /**
   The discipline under which the counting works, of conditions on the slot's own fields and on what the
   caller holds: nobody increments a slot that is free, or marked with its count at zero; who brings a count
   to zero has isReleased set before, and then releases; DisConnect is called with an increment in hand.
   */
  predicate Disciplined(s: Server, st: Step) {
    match st
    case Take(a) => Live(s, a) && !(s.sess[a].isReleased && s.sess[a].ioCount == 0)
    case Give(a, zero) => a in s.sess && s.sess[a].ioCount == 1 ==> s.sess[a].isReleased && zero != Leaves
    case Mark(a) => a in s.held
    case Check(a) => a in s.held
    case _ => true
  }

  /** A marked session that nobody has is about to be released, by one thread; nothing else is. */
  predicate Quiet(s: Server, a: Slot)
    requires a in s.sess
  {
    if Live(s, a) && s.sess[a].isReleased && s.held[a] == 0 then s.asking[a] == if NoneUnderWay(s, a) then 1 else 0
    else s.asking[a] == 0 && NoneUnderWay(s, a) && (Live(s, a) || (s.held[a] == 0 && !s.sess[a].isReleased))
  }

  ghost predicate Safe(s: Server) {
    && Tidy(s) && Counted(s) && s.late == s.held
    && (forall a :: a in s.sess ==> Quiet(s, a))
    && (forall a :: a in s.held ==> a in s.sess)
  }

  lemma UnderWayAfter(s: Server, st: Step, a: Slot)
    requires Sane(s) && OneEach(s) && Can(s, st)
    ensures NoneUnderWay(Next(s, st), a) <==>
              Target(s, st) != Some(a) && (NoneUnderWay(s, a) || (st.Init? && s.calls[st.k].a == a))
  {
    var t := Next(s, st);
    if Target(s, st) == Some(a) {
      CallAfter(s, st, s.next);
    } else if k :| k in s.calls && s.calls[k].a == a && !(st.Init? && s.calls[st.k].a == a) {
      CallAfter(s, st, k);
      assert CallSane(s, k);
      assert k in t.calls && t.calls[k].a == a by { hide Next, Target, Can, Sane, OneEach; }
    } else {
      forall k | k in t.calls ensures t.calls[k].a != a {
        CallAfter(s, st, k);
        hide Next, Target, Can;
      }
    }
  }

  lemma DisciplinedTarget(s: Server, st: Step)
    requires Safe(s) && Can(s, st) && Disciplined(s, st) && Target(s, st).Some?
    ensures var a := Target(s, st).value;
            Live(s, a) && s.sess[a].isReleased && NoneUnderWay(s, a)
            && ((st.Give? && s.held[a] == 1) || (st.Ask? && s.held[a] == 0 && s.asking[a] == 1))
  {
    hide Tidy, Next;
    var a := Target(s, st).value;
    assert Quiet(s, a) && s.sess[a].ioCount == s.held[a];
  }

  lemma QuietAfterCreate(s: Server, st: Step, a: Slot)
    requires Safe(s) && Can(s, st) && st.Create? && a in s.sess
    ensures a in Next(s, st).sess && Quiet(Next(s, st), a)
  {
    assert Quiet(s, a) && s.stack[|s.stack| - 1] in s.stack;
    UnderWayAfter(s, st, a);
    hide NoneUnderWay, Sane, AllFit, OneEach, Counted;
  }

  /** What Quiet says of one slot, with the calls on it as a bit. */
  predicate Calm(x: Sess, held: nat, asking: nat, none: bool) {
    if x.sid.Some? && x.isReleased && held == 0 then asking == if none then 1 else 0
    else asking == 0 && none && (x.sid.Some? || (held == 0 && !x.isReleased))
  }

  lemma QuietIsCalm(s: Server, a: Slot)
    requires a in s.sess
    ensures Quiet(s, a) <==> Calm(s.sess[a], s.held[a], s.asking[a], NoneUnderWay(s, a))
  {
  }

  lemma CalmAfterInit(s: Server, st: Step, a: Slot, none: bool)
    requires Can(s, st) && st.Init? && a in s.sess && (s.calls[st.k].a == a ==> !none)
    requires Calm(s.sess[a], s.held[a], s.asking[a], none)
    ensures var t := Next(s, st);
            a in t.sess && Calm(t.sess[a], t.held[a], t.asking[a], none || s.calls[st.k].a == a)
  {
    hide StackAfter, MarksAfter, LateAfter, CallsAfter, Target;
  }

  lemma QuietAfterInit(s: Server, st: Step, a: Slot)
    requires Safe(s) && Can(s, st) && st.Init? && a in s.sess
    ensures a in Next(s, st).sess && Quiet(Next(s, st), a)
  {
    assert Quiet(s, a) && CallSane(s, st.k) && Target(s, st).None?;
    assert s.calls[st.k].a == a ==> !NoneUnderWay(s, a);
    UnderWayAfter(s, st, a);
    QuietIsCalm(s, a);
    hide Next, Target, Calm, Quiet, Safe, NoneUnderWay;
    CalmAfterInit(s, st, a, NoneUnderWay(s, a));
    QuietIsCalm(Next(s, st), a);
  }

  lemma CalmAfterGive(s: Server, st: Step, a: Slot, none: bool)
    requires Can(s, st) && Disciplined(s, st) && st.Give? && a in s.sess && s.sess[a].ioCount == s.held[a]
    requires Calm(s.sess[a], s.held[a], s.asking[a], none)
    ensures var t := Next(s, st); a in t.sess && Calm(t.sess[a], t.held[a], t.asking[a], Target(s, st) != Some(a) && none)
  {
    hide StackAfter, MarksAfter, LateAfter, CallsAfter;
  }

  lemma CalmAfterOther(s: Server, st: Step, a: Slot, none: bool)
    requires Can(s, st) && Disciplined(s, st) && !st.Create? && !st.Init? && !st.Give? && a in s.sess
    requires s.sess[a].ioCount == s.held[a] && Calm(s.sess[a], s.held[a], s.asking[a], none)
    ensures var t := Next(s, st); a in t.sess && Calm(t.sess[a], t.held[a], t.asking[a], Target(s, st) != Some(a) && none)
  {
    hide StackAfter, MarksAfter, LateAfter, CallsAfter;
  }

  lemma QuietAfterOther(s: Server, st: Step, a: Slot)
    requires Safe(s) && Can(s, st) && Disciplined(s, st) && !st.Create? && !st.Init? && a in s.sess
    ensures a in Next(s, st).sess && Quiet(Next(s, st), a)
  {
    assert Quiet(s, a) && s.sess[a].ioCount == s.held[a];
    UnderWayAfter(s, st, a);
    QuietIsCalm(s, a);
    if st.Give? {
      CalmAfterGive(s, st, a, NoneUnderWay(s, a));
    } else {
      CalmAfterOther(s, st, a, NoneUnderWay(s, a));
    }
    hide Next, Target, Calm, Quiet, Safe, Can, Disciplined;
    QuietIsCalm(Next(s, st), a);
  }

  lemma QuietAfter(s: Server, st: Step, a: Slot)
    requires Safe(s) && Can(s, st) && Disciplined(s, st) && a in s.sess
    ensures a in Next(s, st).sess && Quiet(Next(s, st), a)
  {
    if st.Create? {
      QuietAfterCreate(s, st, a);
    } else if st.Init? {
      QuietAfterInit(s, st, a);
    } else {
      QuietAfterOther(s, st, a);
    }
  }

  lemma DisciplinedIsUnused(s: Server, st: Step)
    requires Safe(s) && Can(s, st) && Disciplined(s, st) && st.Init?
    ensures var a := s.calls[st.k].a; Live(s, a) && s.sess[a].isReleased && s.held[a] == 0 && s.asking[a] == 0
  {
    assert Quiet(s, s.calls[st.k].a) && !NoneUnderWay(s, s.calls[st.k].a);
    hide Tidy, Counted;
  }

  lemma DisciplinedIsOrderly(s: Server, st: Step)
    requires Safe(s) && Can(s, st) && Disciplined(s, st)
    ensures Orderly(s, st) && Marked(s, st)
  {
    if Target(s, st).Some? {
      DisciplinedTarget(s, st);
    }
    if st.Init? {
      DisciplinedIsUnused(s, st);
    }
    hide Safe, Next, Target;
  }

  lemma AllQuietAfter(s: Server, st: Step)
    requires Safe(s) && Can(s, st) && Disciplined(s, st)
    ensures var t := Next(s, st);
            (forall a :: a in t.sess ==> Quiet(t, a)) && (forall a :: a in t.held ==> a in t.sess)
  {
    var t := Next(s, st);
    EntriesKept(s, st);
    assert t.held == HeldAfter(s, st) && forall a :: a in t.sess.Keys <==> a in s.sess.Keys;
    forall a | a in t.sess ensures Quiet(t, a) {
      QuietAfter(s, st, a);
    }
    hide Next, Tidy, Counted, Quiet;
  }

  /** A disciplined step is orderly, releases only what has been disconnected, and keeps all of it. */
  lemma SafeAfter(s: Server, st: Step)
    requires Safe(s) && Can(s, st) && Disciplined(s, st)
    ensures Safe(Next(s, st)) && Orderly(s, st) && Marked(s, st)
  {
    hide Next, Tidy, Counted, Quiet, Can, Disciplined, Marked;
    DisciplinedIsOrderly(s, st);
    TidyAfter(s, st);
    OrderlyIsCounted(s, st);
    AllQuietAfter(s, st);
  }

  /** How often the run creates a session in slot `a`, less how often it releases one. */
  function Balance(s: Server, sts: seq<Step>, a: Slot): int
    requires Run(s, sts)
    decreases |sts|
  {
    if sts == [] then 0
    else
      (if sts[0].Create? && s.stack[|s.stack| - 1] == a then 1
       else if sts[0].Init? && s.calls[sts[0].k].a == a then -1 else 0)
      + Balance(Next(s, sts[0]), sts[1..], a)
  }

  lemma LiveAfterCreate(s: Server, st: Step, a: Slot)
    requires Partition(s) && Can(s, st) && st.Create?
    ensures !Live(s, s.stack[|s.stack| - 1])
    ensures Live(Next(s, st), a) <==> Live(s, a) || s.stack[|s.stack| - 1] == a
  {
    assert s.stack[|s.stack| - 1] in s.stack;
    hide Distinct, CallsAfter, Target, HeldAfter, MarksAfter, AskingAfter, LateAfter;
  }

  lemma LiveAfterInit(s: Server, st: Step, a: Slot)
    requires Can(s, st) && st.Init?
    ensures Live(Next(s, st), a) <==> Live(s, a) && s.calls[st.k].a != a
  {
    hide CallsAfter, Target, HeldAfter, MarksAfter, AskingAfter, LateAfter, StackAfter;
  }

  lemma LiveAfter(s: Server, st: Step, a: Slot)
    requires Safe(s) && Can(s, st) && Disciplined(s, st)
    ensures (if Live(Next(s, st), a) then 1 else 0) == (if Live(s, a) then 1 else 0)
              + (if st.Create? && s.stack[|s.stack| - 1] == a then 1
                 else if st.Init? && s.calls[st.k].a == a then -1 else 0)
  {
    hide Next, Live, Quiet, Counted, Partition;
    if st.Create? {
      LiveAfterCreate(s, st, a);
    } else if st.Init? {
      DisciplinedIsUnused(s, st);
      LiveAfterInit(s, st, a);
    } else {
      LivesKept(s, st, a);
    }
  }

  /**
   On every disciplined run from Start each session is released exactly once: every release is of the session
   it was called for, disconnected and unused, and in each slot creations exceed releases by one exactly
   while it is live.
   */
  lemma {:induction false} ReleasedExactlyOnce(s: Server, sts: seq<Step>, a: Slot)
    requires Safe(s) && Run(s, sts) && Each(s, sts, Disciplined) && a in s.sess
    ensures Safe(After(s, sts)) && Each(s, sts, Orderly) && Each(s, sts, Right) && Each(s, sts, Marked)
    ensures a in After(s, sts).sess
    ensures (if Live(After(s, sts), a) then 1 else 0) == (if Live(s, a) then 1 else 0) + Balance(s, sts, a)
    decreases |sts|
  {
    if sts != [] {
      SafeAfter(s, sts[0]);
      TidyAfter(s, sts[0]);
      EntriesKept(s, sts[0]);
      assert a in Next(s, sts[0]).sess.Keys;
      LiveAfter(s, sts[0], a);
      ReleasedExactlyOnce(Next(s, sts[0]), sts[1..], a);
    }
    hide Safe, Next, Orderly, Right, Marked, Disciplined, Live;
  }

  lemma StartedIsSafe(s: Server)
    requires Started(s)
    ensures Safe(s)
  {
  }

  predicate NoneReleased(s: Server) {
    forall a :: a in s.sess ==> !s.sess[a].isReleased
  }

  /** Connections until every slot has a session. */
  lemma {:induction false} FillAll(s: Server, id: Word) returns (sts: seq<Step>)
    requires Sane(s) && Partition(s) && NoneReleased(s) && s.uncounted == 0
    ensures Run(s, sts)
    ensures var t := After(s, sts); Partition(t) && t.stack == [] && NoneReleased(t)
    decreases |s.stack|
  {
    if s.stack == [] {
      sts := [];
    } else {
      var s1 := Next(s, Create(id));
      SaneAfter(s, Create(id));
      PartitionAfter(s, Create(id));
      var rest := FillAll(s1, id);
      sts := [Create(id)] + rest;
      RunFromFirst(s, Create(id), rest, After(s1, rest));
    }
  }
}
