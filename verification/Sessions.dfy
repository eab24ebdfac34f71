/**
 The life of the session slots: the index stack, and for each Session its ID, its index, isReleased and
 ioCount. Any number of threads lock, unlock, disconnect, post and complete; a step is one interlocked
 operation, one read that matters, CreateSession, or the reset and push of ReleaseSession.
 */
module Sessions {
  import opened Options

  type Word = bv64

  /** An index of sessionArray. */
  datatype Slot = Slot(index: Word)

  const ZERO := Slot(0)

  datatype Sess = Sess(sid: Option<Word>, index: Slot, isReleased: bool, ioCount: int)

  /** What Init stores. */
  const BLANK := Sess(None, ZERO, false, 0)

  /**
   A call of ReleaseSession under way: its slot, and the index field once it has read it. `live` and `life`
   say whether the slot had a session when the call was made, and which of the slot's sessions.
   */
  datatype Call = Call(a: Slot, live: bool, life: nat, read: Option<Slot>)

  /**
   `sess` is sessionArray and `count` sessionCount. Then what threads are about to do: `held` the increments
   of ioCount not taken back yet, by SessionLock or by I/O; `marks` the threads in DisConnect that have set
   isReleased and not yet read ioCount; `asking` the worker threads that have brought ioCount to zero and not
   yet read isReleased; `calls` the ReleaseSessions under way; `uncounted` those that have pushed the index
   and not yet counted down. And history: `lives` the sessions each slot has had; `late` the increments made
   since the slot's ioCount was last found to be zero, and not taken back.
   */
  datatype Server = Server(
    sess: map<Slot, Sess>,
    stack: seq<Slot>,
    count: int,
    held: multiset<Slot>,
    marks: multiset<Slot>,
    asking: multiset<Slot>,
    calls: map<nat, Call>,
    next: nat,
    uncounted: nat,
    lives: multiset<Slot>,
    late: multiset<Slot>)

  /** What a thread does when its decrement reaches zero. */
  datatype AtZero =
    | Releases    // ReleaseSession, unasked
    | AsksFirst   // WorkerThread: only if isReleased is set
    | Leaves      // the second test of SessionLock: nothing

  datatype Step =
    | Create(id: Word)              // AcceptThread, below the limit: CreateSession
    | Take(a: Slot)                 // ioCount++: SessionLock, PostRecv, PostSend
    | Give(a: Slot, zero: AtZero)   // ioCount--
    | Ask(a: Slot)                  // WorkerThread after its zero: isReleased?
    | Mark(a: Slot)                 // DisConnect: isReleased from FALSE to TRUE
    | Check(a: Slot)                // DisConnect: ioCount zero?
    | ReadIndex(k: nat)             // ReleaseSession: idx = index
    | Init(k: nat)                  // ReleaseSession: Init and PushIndex(idx)
    | CountDown                     // ReleaseSession: sessionCount--

  predicate Live(s: Server, a: Slot) {
    a in s.sess && s.sess[a].sid.Some?
  }

  predicate Can(s: Server, st: Step) {
    match st
    case Create(id) => s.count < |s.sess| && s.stack != [] && s.stack[|s.stack| - 1] in s.sess
    case Take(a) => a in s.sess
    case Give(a, zero) => a in s.held && a in s.sess
    case Ask(a) => a in s.asking && a in s.sess
    case Mark(a) => a in s.sess
    case Check(a) => a in s.marks && a in s.sess
    case ReadIndex(k) => k in s.calls && s.calls[k].a in s.sess && s.calls[k].read.None?
    case Init(k) => k in s.calls && s.calls[k].a in s.sess && s.calls[k].read.Some?
    case CountDown => s.uncounted > 0
  }

  /** The slot that a step calls ReleaseSession on. */
  function Target(s: Server, st: Step): Option<Slot>
    requires Can(s, st)
  {
    match st
    case Give(a, zero) => if s.sess[a].ioCount == 1 && zero == Releases then Some(a) else None
    case Ask(a) => if s.sess[a].isReleased then Some(a) else None
    case Check(a) => if s.sess[a].ioCount == 0 then Some(a) else None
    case _ => None
  }

  /** The entry of sessionArray that a step writes. */
  function Written(s: Server, st: Step): Option<(Slot, Sess)>
    requires Can(s, st)
  {
    match st
    case Create(id) => var i := s.stack[|s.stack| - 1]; Some((i, s.sess[i].(sid := Some(id), index := i)))
    case Take(a) => Some((a, s.sess[a].(ioCount := s.sess[a].ioCount + 1)))
    case Give(a, zero) => Some((a, s.sess[a].(ioCount := s.sess[a].ioCount - 1)))
    case Mark(a) => Some((a, s.sess[a].(isReleased := true)))
    case Init(k) => Some((s.calls[k].a, BLANK))
    case _ => None
  }

  function SessAfter(s: Server, st: Step): map<Slot, Sess>
    requires Can(s, st)
  {
    match Written(s, st)
    case None => s.sess
    case Some((a, x)) => s.sess[a := x]
  }

  function StackAfter(s: Server, st: Step): seq<Slot>
    requires Can(s, st)
  {
    match st
    case Create(id) => s.stack[..|s.stack| - 1]
    case Init(k) => s.stack + [s.calls[k].read.value]
    case _ => s.stack
  }

  function HeldAfter(s: Server, st: Step): multiset<Slot> {
    match st
    case Take(a) => s.held + multiset{a}
    case Give(a, zero) => s.held - multiset{a}
    case _ => s.held
  }

  function MarksAfter(s: Server, st: Step): multiset<Slot>
    requires Can(s, st)
  {
    match st
    case Mark(a) => if s.sess[a].isReleased then s.marks else s.marks + multiset{a}
    case Check(a) => s.marks - multiset{a}
    case _ => s.marks
  }

  function AskingAfter(s: Server, st: Step): multiset<Slot>
    requires Can(s, st)
  {
    match st
    case Give(a, zero) => if s.sess[a].ioCount == 1 && zero == AsksFirst then s.asking + multiset{a} else s.asking
    case Ask(a) => s.asking - multiset{a}
    case _ => s.asking
  }

  function LateAfter(s: Server, st: Step): multiset<Slot>
    requires Can(s, st)
  {
    match st
    case Take(a) => s.late + multiset{a}
    case Give(a, zero) => if s.sess[a].ioCount == 1 then s.late[a := 0] else s.late - multiset{a}
    case Check(a) => if s.sess[a].ioCount == 0 then s.late[a := 0] else s.late
    case _ => s.late
  }

  function CallsAfter(s: Server, st: Step): map<nat, Call>
    requires Can(s, st)
  {
    match st
    case ReadIndex(k) => s.calls[k := s.calls[k].(read := Some(s.sess[s.calls[k].a].index))]
    case Init(k) => s.calls - {k}
    case _ =>
      match Target(s, st)
      case None => s.calls
      case Some(a) => s.calls[s.next := Call(a, Live(s, a), s.lives[a], None)]
  }

  function Next(s: Server, st: Step): Server
    requires Can(s, st)
  {
    Server(
      SessAfter(s, st),
      StackAfter(s, st),
      if st.Create? then s.count + 1 else if st.CountDown? then s.count - 1 else s.count,
      HeldAfter(s, st),
      MarksAfter(s, st),
      AskingAfter(s, st),
      CallsAfter(s, st),
      if Target(s, st).Some? then s.next + 1 else s.next,
      if st.Init? then s.uncounted + 1 else if st.CountDown? then s.uncounted - 1 else s.uncounted,
      if st.Create? then s.lives + multiset{s.stack[|s.stack| - 1]} else s.lives,
      LateAfter(s, st))
  }

  predicate Run(s: Server, sts: seq<Step>)
    decreases |sts|
  {
    sts == [] || (Can(s, sts[0]) && Run(Next(s, sts[0]), sts[1..]))
  }

  function After(s: Server, sts: seq<Step>): Server
    requires Run(s, sts)
    decreases |sts|
  {
    if sts == [] then s else After(Next(s, sts[0]), sts[1..])
  }

  /** Every step of the run is one that `p` allows. */
  predicate Each(s: Server, sts: seq<Step>, p: (Server, Step) -> bool)
    requires Run(s, sts)
    decreases |sts|
  {
    sts == [] || (p(s, sts[0]) && Each(Next(s, sts[0]), sts[1..], p))
  }

  predicate Distinct(stack: seq<Slot>) {
    forall i, j :: 0 <= i < j < |stack| ==> stack[i] != stack[j]
  }

  /** Every slot Init'ed, every index on the stack once, nothing under way: the server once Start has run. */
  ghost predicate Started(s: Server) {
    && ZERO in s.sess && s.count == s.uncounted == s.next == 0
    && s.held == s.marks == s.asking == s.lives == s.late == multiset{} && s.calls == map[]
    && |s.stack| == |s.sess| && Distinct(s.stack)
    && (forall a :: a in s.sess <==> a in s.stack)
    && (forall a :: a in s.sess ==> s.sess[a] == BLANK)
  }

  // ----- the stack and the count ---------------------------------------------------------------

  /** What every run keeps, whatever the threads do. */
  ghost predicate Sane(s: Server) {
    && ZERO in s.sess
    && |s.stack| + s.count == |s.sess| + s.uncounted
    && (forall k :: 0 <= k < |s.stack| ==> s.stack[k] in s.sess)
    && (forall a :: a in s.sess ==> s.sess[a].index == if s.sess[a].sid.Some? then a else ZERO)
    && (forall k :: k in s.calls ==> CallSane(s, k))
  }

  predicate CallSane(s: Server, k: nat)
    requires k in s.calls
  {
    var c := s.calls[k];
    k < s.next && c.a in s.sess && c.life <= s.lives[c.a] && (c.read.Some? ==> c.read.value in s.sess)
  }

  /** The array keeps its entries. */
  lemma EntriesKept(s: Server, st: Step)
    requires Can(s, st)
    ensures Next(s, st).sess.Keys == s.sess.Keys && |Next(s, st).sess| == |s.sess|
  {
    var t := Next(s, st);
    assert t.sess.Keys == s.sess.Keys;
    assert |t.sess| == |t.sess.Keys| && |s.sess| == |s.sess.Keys|;
  }

  lemma StackSaneAfter(s: Server, st: Step)
    requires Sane(s) && Can(s, st)
    ensures var t := Next(s, st);
            && |t.stack| + t.count == |s.sess| + t.uncounted
            && forall k :: 0 <= k < |t.stack| ==> t.stack[k] in s.sess
  {
    if st.Init? {
      assert CallSane(s, st.k);
    }
  }

  lemma IndexAfter(s: Server, st: Step, a: Slot)
    requires Sane(s) && Can(s, st) && a in s.sess
    ensures var t := Next(s, st); a in t.sess && t.sess[a].index == if t.sess[a].sid.Some? then a else ZERO
  {
    hide StackAfter, HeldAfter, MarksAfter, AskingAfter, LateAfter, CallsAfter, Target, CallSane;
  }

  /** Which calls are under way after a step, and what they are. */
  lemma CallAfter(s: Server, st: Step, k: nat)
    requires Can(s, st)
    ensures var made := Target(s, st).Some? && k == s.next;
            && (k in Next(s, st).calls <==> made || (k in s.calls && st != Init(k)))
            && (made ==> Next(s, st).calls[k] == Call(Target(s, st).value, Live(s, Target(s, st).value),
                                                      s.lives[Target(s, st).value], None))
            && (!made && k in Next(s, st).calls ==>
                  Next(s, st).calls[k] == if st == ReadIndex(k) then s.calls[k].(read := Some(s.sess[s.calls[k].a].index))
                                          else s.calls[k])
  {
    hide SessAfter, StackAfter, HeldAfter, MarksAfter, AskingAfter, LateAfter, Live;
  }

  lemma HistoryGrows(s: Server, st: Step)
    requires Can(s, st)
    ensures Next(s, st).next == s.next + (if Target(s, st).Some? then 1 else 0)
    ensures forall a :: Next(s, st).lives[a] >= s.lives[a]
  {
    hide Can, Target, SessAfter, StackAfter, HeldAfter, MarksAfter, AskingAfter, CallsAfter, LateAfter;
  }

  lemma CallSaneAfter(s: Server, st: Step, k: nat)
    requires Sane(s) && Can(s, st) && k in Next(s, st).calls
    ensures CallSane(Next(s, st), k)
  {
    CallAfter(s, st, k);
    HistoryGrows(s, st);
    EntriesKept(s, st);
    if Target(s, st).Some? && k == s.next {
      assert Target(s, st).value in s.sess;
    } else {
      assert CallSane(s, k);
      assert s.sess[s.calls[k].a].index in s.sess.Keys;
    }
    var (c, t) := (Next(s, st).calls[k], Next(s, st));
    assert k < t.next && c.a in s.sess.Keys && c.life <= s.lives[c.a] && (c.read.Some? ==> c.read.value in s.sess.Keys) by {
      hide Next, Live, Sane;
    }
    hide Next, Target, Sane, Live, Can;
  }

  lemma SaneAfter(s: Server, st: Step)
    requires Sane(s) && Can(s, st)
    ensures Sane(Next(s, st)) && Next(s, st).sess.Keys == s.sess.Keys
  {
    EntriesKept(s, st);
    StackSaneAfter(s, st);
    forall a | a in s.sess.Keys
      ensures a in Next(s, st).sess && Next(s, st).sess[a].index == if Next(s, st).sess[a].sid.Some? then a else ZERO
    {
      IndexAfter(s, st, a);
    }
    forall k | k in Next(s, st).calls ensures CallSane(Next(s, st), k) {
      CallSaneAfter(s, st, k);
    }
    hide Next, Can, CallSane;
  }

  lemma {:induction false} SaneRun(s: Server, sts: seq<Step>)
    requires Sane(s) && Run(s, sts)
    ensures Sane(After(s, sts)) && After(s, sts).sess.Keys == s.sess.Keys
    decreases |sts|
  {
    if sts != [] {
      SaneAfter(s, sts[0]);
      SaneRun(Next(s, sts[0]), sts[1..]);
    }
  }

  /** On every run, releases under way included, AcceptThread's test of sessionCount is enough for PopIndex. */
  lemma AcceptFindsAnIndex(s: Server, sts: seq<Step>, id: Word)
    requires Started(s) && Run(s, sts) && After(s, sts).count < |After(s, sts).sess|
    ensures After(s, sts).stack != [] && Can(After(s, sts), Create(id))
  {
    SaneRun(s, sts);
  }

  // ----- the partition -------------------------------------------------------------------------

  /** Every slot is on the stack once or live, never both. */
  ghost predicate Partition(s: Server) {
    Distinct(s.stack) && forall a :: a in s.sess ==> (a in s.stack <==> !Live(s, a))
  }

  lemma TopIsUnique(stack: seq<Slot>)
    requires stack != [] && Distinct(stack)
    ensures var (rest, top) := (stack[..|stack| - 1], stack[|stack| - 1]);
            Distinct(rest) && top !in rest && forall x :: x in stack <==> x in rest || x == top
  {
    assert stack == stack[..|stack| - 1] + [stack[|stack| - 1]];
  }

  lemma PushedIsTop(stack: seq<Slot>, x: Slot)
    ensures Distinct(stack + [x]) <==> Distinct(stack) && x !in stack
    ensures forall y :: y in stack + [x] <==> y in stack || y == x
  {
    var s := stack + [x];
    if x in stack {
      var i :| 0 <= i < |stack| && stack[i] == x;
      assert s[i] == s[|stack|];
    } else if Distinct(s) {
      forall i, j | 0 <= i < j < |stack| ensures stack[i] != stack[j] {
        assert s[i] != s[j];
      }
    }
  }

  /** Only CreateSession and ReleaseSession change which slots are live, and the stack. */
  lemma LivesKept(s: Server, st: Step, b: Slot)
    requires Can(s, st) && !st.Create? && !st.Init?
    ensures Next(s, st).stack == s.stack && (b in Next(s, st).sess <==> b in s.sess)
    ensures Live(Next(s, st), b) <==> Live(s, b)
    ensures Next(s, st).lives == s.lives
  {
    hide HeldAfter, MarksAfter, AskingAfter, LateAfter, CallsAfter, Target;
  }

  lemma PartitionAfterCreate(s: Server, st: Step)
    requires Partition(s) && Can(s, st) && st.Create?
    ensures Partition(Next(s, st))
  {
    TopIsUnique(s.stack);
  }

  /** The slot is live, and what is about to be pushed is its own index. */
  predicate FindsOwn(s: Server, st: Step) {
    st.Init? && st.k in s.calls ==> Live(s, s.calls[st.k].a) && s.calls[st.k].read == Some(s.calls[st.k].a)
  }

  lemma PartitionAfterInit(s: Server, st: Step)
    requires Sane(s) && Partition(s) && Can(s, st) && st.Init?
    ensures Partition(Next(s, st)) <==> FindsOwn(s, st)
  {
    var (s', a, r) := (Next(s, st), s.calls[st.k].a, s.calls[st.k].read.value);
    assert CallSane(s, st.k) && r in s.sess;
    PushedIsTop(s.stack, r);
    assert a in s'.sess && !Live(s', a);
    if FindsOwn(s, st) {
      forall b | b in s'.sess ensures b in s'.stack <==> !Live(s', b) {
        assert b in s.sess && (b in s.stack <==> !Live(s, b));
      }
    } else {
      assert (a in s.stack <==> !Live(s, a)) && (r in s.stack <==> !Live(s, r));
      assert r != a ==> (Live(s', r) <==> Live(s, r)) && r in s'.sess;
    }
  }

  /** One step breaks the partition exactly if it resets a slot that is not live, or pushes another index than its own. */
  lemma PartitionAfter(s: Server, st: Step)
    requires Sane(s) && Partition(s) && Can(s, st)
    ensures Partition(Next(s, st)) <==> FindsOwn(s, st)
  {
    if st.Create? {
      PartitionAfterCreate(s, st);
    } else if st.Init? {
      PartitionAfterInit(s, st);
    } else {
      forall b ensures Next(s, st).stack == s.stack && (b in Next(s, st).sess <==> b in s.sess)
                       && (Live(Next(s, st), b) <==> Live(s, b))
      {
        LivesKept(s, st, b);
      }
    }
  }

  /** At every point of the run the slots are partitioned. */
  ghost predicate AlwaysPartition(s: Server, sts: seq<Step>)
    requires Run(s, sts)
    decreases |sts|
  {
    Partition(s) && (sts == [] || AlwaysPartition(Next(s, sts[0]), sts[1..]))
  }

  /**
   Free and live slots partition the array all along a run exactly when every ReleaseSession in it resets a
   slot that is live then and pushes that slot's index.
   */
  lemma {:induction false} PartitionExactly(s: Server, sts: seq<Step>)
    requires Sane(s) && Partition(s) && Run(s, sts)
    ensures AlwaysPartition(s, sts) <==> Each(s, sts, FindsOwn)
    decreases |sts|
  {
    if sts != [] {
      SaneAfter(s, sts[0]);
      PartitionAfter(s, sts[0]);
      if Partition(Next(s, sts[0])) {
        PartitionExactly(Next(s, sts[0]), sts[1..]);
      }
    }
  }

  // ----- whose session a ReleaseSession releases -----------------------------------------------

  predicate NoneUnderWay(s: Server, a: Slot) {
    forall k :: k in s.calls ==> s.calls[k].a != a
  }

  /** ReleaseSession is called on a live slot, and no other call on it is under way. */
  predicate Clean(s: Server, st: Step) {
    Can(s, st) && Target(s, st).Some? ==> Live(s, Target(s, st).value) && NoneUnderWay(s, Target(s, st).value)
  }

  /** The slot still has the session that the call was made for. */
  predicate Fits(s: Server, k: nat)
    requires k in s.calls
  {
    var c := s.calls[k];
    c.live && Live(s, c.a) && c.life == s.lives[c.a]
  }

  /** What ReleaseSession resets is the session it was called for. */
  predicate Right(s: Server, st: Step) {
    st.Init? && st.k in s.calls ==> Fits(s, st.k)
  }

  /** The slots are partitioned, and there is at most one call on a slot, for the session it has. */
  ghost predicate Tidy(s: Server) {
    Sane(s) && Partition(s) && AllFit(s) && OneEach(s)
  }

  ghost predicate AllFit(s: Server) {
    forall k :: k in s.calls ==> Fits(s, k) && s.calls[k].read in {None, Some(s.calls[k].a)}
  }

  ghost predicate OneEach(s: Server) {
    forall j, k :: j in s.calls && k in s.calls && s.calls[j].a == s.calls[k].a ==> j == k
  }

  lemma LiveSlotKept(s: Server, st: Step, a: Slot)
    requires Partition(s) && Can(s, st) && Live(s, a) && (st.Init? ==> s.calls[st.k].a != a)
    ensures Live(Next(s, st), a) && Next(s, st).lives[a] == s.lives[a]
  {
    if st.Create? {
      assert s.stack[|s.stack| - 1] in s.stack;
    } else if !st.Init? {
      LivesKept(s, st, a);
    }
  }

  lemma FitsAfter(s: Server, st: Step, k: nat)
    requires Tidy(s) && Can(s, st) && Clean(s, st) && k in Next(s, st).calls
    ensures Fits(Next(s, st), k) && Next(s, st).calls[k].read in {None, Some(Next(s, st).calls[k].a)}
  {
    CallAfter(s, st, k);
    var a := Next(s, st).calls[k].a;
    assert Live(s, a) && (st.Init? ==> s.calls[st.k].a != a);
    LiveSlotKept(s, st, a);
    hide Next;
    if k in s.calls {
      assert Fits(s, k) && s.sess[a].index == a;
    }
  }

  lemma AllFitAfter(s: Server, st: Step)
    requires Tidy(s) && Can(s, st) && Clean(s, st)
    ensures AllFit(Next(s, st))
  {
    var t := Next(s, st);
    forall k | k in t.calls ensures Fits(t, k) && t.calls[k].read in {None, Some(t.calls[k].a)} {
      FitsAfter(s, st, k);
    }
  }

  lemma OneEachAfter(s: Server, st: Step)
    requires OneEach(s) && Can(s, st) && Clean(s, st)
    ensures OneEach(Next(s, st))
  {
    var t := Next(s, st);
    forall j, k | j in t.calls && k in t.calls && t.calls[j].a == t.calls[k].a ensures j == k {
      CallAfter(s, st, j);
      CallAfter(s, st, k);
      hide Next, Can, Target;
    }
  }

  /** Clean calls keep the slots tidy, and each resets what it was called for. */
  lemma TidyAfter(s: Server, st: Step)
    requires Tidy(s) && Can(s, st) && Clean(s, st)
    ensures Tidy(Next(s, st)) && Right(s, st) && FindsOwn(s, st)
  {
    assert Right(s, st) && FindsOwn(s, st) by { hide Sane, Partition, Next, Target; }
    hide Next, Sane, Partition, Target, Can, OneEach, Fits, Right, FindsOwn;
    SaneAfter(s, st);
    PartitionAfter(s, st);
    AllFitAfter(s, st);
    OneEachAfter(s, st);
  }

  /** Some call is for a session that is gone, or two are for one. */
  ghost predicate Spoiled(s: Server) {
    || (exists k :: k in s.calls && !Fits(s, k))
    || (exists j, k :: j in s.calls && k in s.calls && j != k && s.calls[j].a == s.calls[k].a)
  }

  /** A session that is gone does not come back. */
  lemma GoneForGood(s: Server, st: Step, k: nat)
    requires Sane(s) && Can(s, st) && k in s.calls && !Fits(s, k) && st != Init(k)
    ensures k in Next(s, st).calls && !Fits(Next(s, st), k)
  {
    CallAfter(s, st, k);
    assert CallSane(s, k);
    if !st.Create? && !st.Init? {
      LivesKept(s, st, s.calls[k].a);
    }
  }

  lemma ResetIsGone(s: Server, st: Step, k: nat)
    requires Can(s, st) && st.Init? && k in s.calls && st.k != k && s.calls[k].a == s.calls[st.k].a
    ensures k in Next(s, st).calls && !Fits(Next(s, st), k)
  {
    CallAfter(s, st, k);
  }

  lemma SpoiledStays(s: Server, st: Step)
    requires Sane(s) && Can(s, st) && Spoiled(s) && Right(s, st)
    ensures Spoiled(Next(s, st))
  {
    if k :| k in s.calls && !Fits(s, k) {
      GoneForGood(s, st, k);
    } else {
      var j, k :| j in s.calls && k in s.calls && j != k && s.calls[j].a == s.calls[k].a;
      CallAfter(s, st, j);
      CallAfter(s, st, k);
      if st == Init(j) {
        ResetIsGone(s, st, k);
      } else if st == Init(k) {
        ResetIsGone(s, st, j);
      } else {
        assert j in Next(s, st).calls && k in Next(s, st).calls && Next(s, st).calls[j].a == Next(s, st).calls[k].a;
      }
    }
  }

  lemma UncleanSpoils(s: Server, st: Step)
    requires Sane(s) && Can(s, st) && !Clean(s, st)
    ensures Spoiled(Next(s, st))
  {
    var (a, t) := (Target(s, st).value, Next(s, st));
    CallAfter(s, st, s.next);
    if !Live(s, a) {
      assert !Fits(t, s.next);
    } else {
      var k :| k in s.calls && s.calls[k].a == a;
      CallAfter(s, st, k);
      assert CallSane(s, k);
      assert s.next in t.calls && k in t.calls && t.calls[k].a == t.calls[s.next].a;
    }
  }

  lemma {:induction false} SpoiledGoesWrong(s: Server, sts: seq<Step>)
    requires Sane(s) && Run(s, sts) && Spoiled(s) && After(s, sts).calls == map[]
    ensures !Each(s, sts, Right)
    decreases |sts|
  {
    if sts != [] && Right(s, sts[0]) {
      SaneAfter(s, sts[0]);
      SpoiledStays(s, sts[0]);
      SpoiledGoesWrong(Next(s, sts[0]), sts[1..]);
    }
  }

  /**
   On every run that ends with no ReleaseSession under way, each ReleaseSession releases the session it was
   called for exactly when each is called on a live slot with no other call on that slot under way. Then the
   slots stay partitioned.
   */
  lemma {:induction false} ReleasesExactly(s: Server, sts: seq<Step>)
    requires Tidy(s) && Run(s, sts) && After(s, sts).calls == map[]
    ensures Each(s, sts, Right) <==> Each(s, sts, Clean)
    ensures Each(s, sts, Clean) ==> Tidy(After(s, sts)) && AlwaysPartition(s, sts)
    decreases |sts|
  {
    if sts != [] {
      var t := Next(s, sts[0]);
      SaneAfter(s, sts[0]);
      if Clean(s, sts[0]) {
        TidyAfter(s, sts[0]);
        ReleasesExactly(t, sts[1..]);
      } else {
        UncleanSpoils(s, sts[0]);
        SpoiledGoesWrong(t, sts[1..]);
      }
    }
  }

  // ----- ioCount -------------------------------------------------------------------------------

  /** ioCount is the number of increments not taken back yet. */
  ghost predicate Counted(s: Server) {
    forall a :: a in s.sess ==> s.sess[a].ioCount == s.held[a]
  }

  ghost predicate AlwaysCounted(s: Server, sts: seq<Step>)
    requires Run(s, sts)
    decreases |sts|
  {
    Counted(s) && (sts == [] || AlwaysCounted(Next(s, sts[0]), sts[1..]))
  }

  /** Every increment made since the zero that led to this ReleaseSession has been taken back. */
  predicate NoneLate(s: Server, st: Step) {
    st.Init? && st.k in s.calls ==> s.late[s.calls[st.k].a] == 0
  }

  lemma CountKept(s: Server, st: Step, b: Slot)
    requires Can(s, st) && b in s.sess && s.sess[b].ioCount == s.held[b]
    ensures var t := Next(s, st);
            && b in t.sess
            && (t.sess[b].ioCount == t.held[b] <==> (st.Init? && s.calls[st.k].a == b ==> s.held[b] == 0))
  {
    hide StackAfter, MarksAfter, AskingAfter, LateAfter, CallsAfter, Target;
    if st.Take? || st.Give? {
      assert Next(s, st).held == HeldAfter(s, st);
    } else {
      assert Next(s, st).held == s.held;
      hide HeldAfter;
    }
  }

  lemma LateKept(s: Server, st: Step)
    requires Counted(s) && s.late == s.held && Can(s, st)
    ensures Next(s, st).late == Next(s, st).held
  {
    hide StackAfter, MarksAfter, AskingAfter, SessAfter, CallsAfter, Target;
  }

  /** While ioCount is right, increments older than the last zero have all been taken back. */
  lemma CountedAfter(s: Server, st: Step)
    requires Counted(s) && s.late == s.held && Can(s, st)
    ensures Counted(Next(s, st)) <==> NoneLate(s, st)
    ensures Counted(Next(s, st)) ==> Next(s, st).late == Next(s, st).held
  {
    var t := Next(s, st);
    EntriesKept(s, st);
    LateKept(s, st);
    if st.Init? {
      CountKept(s, st, s.calls[st.k].a);
    }
    if NoneLate(s, st) {
      forall b | b in t.sess ensures t.sess[b].ioCount == t.held[b] {
        assert b in s.sess.Keys;
        CountKept(s, st, b);
      }
    }
    hide Next;
  }

  /**
   ioCount is right all along a run exactly when every ReleaseSession finds taken back what was incremented
   since ioCount was last found to be zero: only an increment made after that zero can be outstanding.
   */
  lemma {:induction false} CountedExactly(s: Server, sts: seq<Step>)
    requires Counted(s) && s.late == s.held && Run(s, sts)
    ensures AlwaysCounted(s, sts) <==> Each(s, sts, NoneLate)
    decreases |sts|
  {
    if sts != [] {
      CountedAfter(s, sts[0]);
      if Counted(Next(s, sts[0])) {
        CountedExactly(Next(s, sts[0]), sts[1..]);
      }
    }
  }

  /** Nobody increments a slot whose release is due. */
  predicate NotDue(s: Server, st: Step) {
    st.Take? ==> NoneUnderWay(s, st.a) && st.a !in s.asking
  }

  ghost predicate DueUnused(s: Server) {
    && (forall k :: k in s.calls ==> s.held[s.calls[k].a] == 0)
    && (forall a :: a in s.asking ==> s.held[a] == 0)
  }

  lemma DueUnusedAfter(s: Server, st: Step)
    requires Counted(s) && DueUnused(s) && Can(s, st) && NotDue(s, st)
    ensures DueUnused(Next(s, st))
  {
    var t := Next(s, st);
    forall k | k in t.calls ensures t.held[t.calls[k].a] == 0 {
      CallAfter(s, st, k);
    }
  }

  /** So ioCount can only go wrong by an increment of a slot whose release is due. */
  lemma {:induction false} CountedUnlessTakenWhenDue(s: Server, sts: seq<Step>)
    requires Counted(s) && s.late == s.held && DueUnused(s) && Run(s, sts) && Each(s, sts, NotDue)
    ensures AlwaysCounted(s, sts)
    decreases |sts|
  {
    if sts != [] {
      CountedAfter(s, sts[0]);
      DueUnusedAfter(s, sts[0]);
      CountedUnlessTakenWhenDue(Next(s, sts[0]), sts[1..]);
    }
  }

  // ----- putting runs together -----------------------------------------------------------------

  /** The steps run from `s` and end in `t`. */
  ghost predicate Leads(s: Server, sts: seq<Step>, t: Server) {
    Run(s, sts) && After(s, sts) == t
  }

  lemma RunFromFirst(s: Server, st: Step, rest: seq<Step>, t: Server)
    requires Can(s, st) && Leads(Next(s, st), rest, t)
    ensures Leads(s, [st] + rest, t)
  {
    assert ([st] + rest)[1..] == rest;
    hide Next, Can;
  }

  lemma RunOfTwo(s: Server, a: Step, b: Step)
    requires Can(s, a) && Can(Next(s, a), b)
    ensures Leads(s, [a, b], Next(Next(s, a), b))
  {
    hide Next, Can;
    var t := Next(Next(s, a), b);
    RunFromFirst(Next(s, a), b, [], t);
    assert [b] + [] == [b];
    RunFromFirst(s, a, [b], t);
    assert [a] + [b] == [a, b];
  }

  lemma {:induction false} RunsInTurn(s: Server, first: seq<Step>, rest: seq<Step>, t: Server, u: Server)
    requires Leads(s, first, t) && Leads(t, rest, u)
    ensures Leads(s, first + rest, u)
    decreases |first|
  {
    hide Can, Next;
    if first == [] {
      assert first + rest == rest;
    } else {
      RunsInTurn(Next(s, first[0]), first[1..], rest, t, u);
      RunFromFirst(s, first[0], first[1..] + rest, u);
      assert [first[0]] + (first[1..] + rest) == first + rest;
    }
  }
}
