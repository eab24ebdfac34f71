/**
 Packet reference counts across all sessions: any number of threads and of bounded queues. A queue owns
 one reference for each packet it holds; pushing hands a reference over, popping takes it back. No
 caller looks at what push returns, so a push that finds the queue full drops the reference it was given.
 Session i's sendBuf is queue 2i and its completeSendBuf queue 2i+1; the Redis queue is one more.
 */
module PacketRefs {
  import opened Options

  type Pkt = nat
  type Tid = nat
  type Qid = nat

  /** The capacity of a session's send queues. */
  const CAPACITY: nat := 4096

  /** A thread's references, and the packet its last decrement brought to zero. */
  datatype Holder = Holder(held: multiset<Pkt>, freeing: Option<Pkt>)

  /** `lost` are the references dropped by failed pushes. */
  datatype State = State(
    ref: map<Pkt, int>,
    pool: multiset<Pkt>,
    threads: seq<Holder>,
    queues: seq<seq<Pkt>>,
    caps: seq<nat>,
    lost: multiset<Pkt>)

  datatype Step =
    | NewNode(p: Pkt)
    | Alloc(t: Tid, p: Pkt)
    | AddRef(t: Tid, p: Pkt)
    | Push(t: Tid, q: Qid, p: Pkt)
    | Pop(t: Tid, q: Qid)
    | SubRef(t: Tid, p: Pkt)
    | Free(t: Tid)

  predicate Idle(s: State, t: Tid) {
    t < |s.threads| && s.threads[t].freeing.None?
  }

  predicate HasRef(s: State, t: Tid, p: Pkt) {
    Idle(s, t) && p in s.threads[t].held && p in s.ref
  }

  predicate Can(s: State, st: Step) {
    match st
    case NewNode(p) => p !in s.ref
    case Alloc(t, p) => Idle(s, t) && p in s.pool && p in s.ref
    case AddRef(t, p) => HasRef(s, t, p)
    case Push(t, q, p) => HasRef(s, t, p) && q < |s.queues| == |s.caps|
    case Pop(t, q) => Idle(s, t) && q < |s.queues| && s.queues[q] != []
    case SubRef(t, p) => HasRef(s, t, p)
    case Free(t) => t < |s.threads| && s.threads[t].freeing.Some?
  }

  function Gain(h: Holder, p: Pkt): Holder {
    h.(held := h.held + multiset{p})
  }

  function Lose(h: Holder, p: Pkt): Holder {
    h.(held := h.held - multiset{p})
  }

  function Next(s: State, st: Step): State
    requires Can(s, st)
  {
    match st
    case NewNode(p) => s.(ref := s.ref[p := 0], pool := s.pool + multiset{p})
    case Alloc(t, p) =>
      s.(ref := s.ref[p := 1], pool := s.pool - multiset{p}, threads := s.threads[t := Gain(s.threads[t], p)])
    case AddRef(t, p) => s.(ref := s.ref[p := s.ref[p] + 1], threads := s.threads[t := Gain(s.threads[t], p)])
    case Push(t, q, p) =>
      var s' := s.(threads := s.threads[t := Lose(s.threads[t], p)]);
      if |s.queues[q]| < s.caps[q] then s'.(queues := s.queues[q := s.queues[q] + [p]])
      else s'.(lost := s.lost + multiset{p})
    case Pop(t, q) =>
      s.(threads := s.threads[t := Gain(s.threads[t], s.queues[q][0])], queues := s.queues[q := s.queues[q][1..]])
    case SubRef(t, p) =>
      var r := s.ref[p] - 1;
      var h := Lose(s.threads[t], p);
      s.(ref := s.ref[p := r], threads := s.threads[t := if r == 0 then h.(freeing := Some(p)) else h])
    case Free(t) =>
      s.(pool := s.pool + multiset{s.threads[t].freeing.value}, threads := s.threads[t := s.threads[t].(freeing := None)])
  }

  ghost predicate Run(s: State, sts: seq<Step>)
    decreases |sts|
  {
    sts == [] || (Can(s, sts[0]) && Run(Next(s, sts[0]), sts[1..]))
  }

  ghost function After(s: State, sts: seq<Step>): (r: State)
    requires Run(s, sts)
    decreases |sts|
  {
    if sts == [] then s else After(Next(s, sts[0]), sts[1..])
  }

  /** No packets yet; `n` threads and empty queues of the given capacities. */
  function Start(n: nat, caps: seq<nat>): State {
    State(map[], multiset{}, seq(n, _ => Holder(multiset{}, None)), seq(|caps|, _ => []), caps, multiset{})
  }

  // ----- counting ------------------------------------------------------------------------------

  function Held(hs: seq<Holder>, p: Pkt): nat {
    if hs == [] then 0 else Held(hs[..|hs| - 1], p) + hs[|hs| - 1].held[p]
  }

  function Freeing(hs: seq<Holder>, p: Pkt): nat {
    if hs == [] then 0 else Freeing(hs[..|hs| - 1], p) + (if hs[|hs| - 1].freeing == Some(p) then 1 else 0)
  }

  function Queued(qs: seq<seq<Pkt>>, p: Pkt): nat {
    if qs == [] then 0 else Queued(qs[..|qs| - 1], p) + multiset(qs[|qs| - 1])[p]
  }

  lemma {:induction false} HeldUpdate(hs: seq<Holder>, t: Tid, h: Holder, p: Pkt)
    requires t < |hs|
    ensures Held(hs[t := h], p) == Held(hs, p) - hs[t].held[p] + h.held[p]
    ensures Freeing(hs[t := h], p) == Freeing(hs, p) - (if hs[t].freeing == Some(p) then 1 else 0)
                                      + (if h.freeing == Some(p) then 1 else 0)
    ensures Held(hs, p) >= hs[t].held[p]
    ensures hs[t].freeing == Some(p) ==> Freeing(hs, p) > 0
  {
    var n := |hs| - 1;
    if t == n {
      assert hs[t := h][..n] == hs[..n];
    } else {
      assert hs[t := h][..n] == hs[..n][t := h];
      HeldUpdate(hs[..n], t, h, p);
    }
  }

  lemma {:induction false} QueuedUpdate(qs: seq<seq<Pkt>>, q: Qid, items: seq<Pkt>, p: Pkt)
    requires q < |qs|
    ensures Queued(qs[q := items], p) == Queued(qs, p) - multiset(qs[q])[p] + multiset(items)[p]
    ensures Queued(qs, p) >= multiset(qs[q])[p]
  {
    var n := |qs| - 1;
    if q == n {
      assert qs[q := items][..n] == qs[..n];
    } else {
      assert qs[q := items][..n] == qs[..n][q := items];
      QueuedUpdate(qs[..n], q, items, p);
    }
  }

  /** The references that are counted: those of threads, those of queues, and those that were lost. */
  function Refs(s: State, p: Pkt): nat {
    Held(s.threads, p) + Queued(s.queues, p) + s.lost[p]
  }

  /** A packet is pooled, or being freed by one thread, or referenced as often as its count says. */
  predicate Balanced(s: State, p: Pkt) {
    && s.pool[p] + Freeing(s.threads, p) + (if Refs(s, p) > 0 then 1 else 0) == (if p in s.ref then 1 else 0)
    && (p in s.ref ==> s.ref[p] == Refs(s, p))
  }

  ghost predicate Inv(s: State) {
    forall p :: Balanced(s, p)
  }

  /** What the account of packet `p` depends on, before and after one step. */
  ghost predicate Accounted(s: State, st: Step, p: Pkt)
    requires Can(s, st)
  {
    var s' := Next(s, st);
    && Balanced(s, p)
    && (st.NewNode? || (
          && Held(s'.threads, p) == Held(s.threads, p) - s.threads[st.t].held[p] + s'.threads[st.t].held[p]
          && Freeing(s'.threads, p) == Freeing(s.threads, p) - (if s.threads[st.t].freeing == Some(p) then 1 else 0)
                                       + (if s'.threads[st.t].freeing == Some(p) then 1 else 0)
          && Held(s.threads, p) >= s.threads[st.t].held[p]
          && (s.threads[st.t].freeing == Some(p) ==> Freeing(s.threads, p) > 0)))
    && (st.Push? || st.Pop? ==>
          && Queued(s'.queues, p) == Queued(s.queues, p) - multiset(s.queues[st.q])[p] + multiset(s'.queues[st.q])[p]
          && Queued(s.queues, p) >= multiset(s.queues[st.q])[p])
  }

  lemma Account(s: State, st: Step, p: Pkt)
    requires Can(s, st) && Balanced(s, p)
    ensures Accounted(s, st, p)
  {
    var s' := Next(s, st);
    if !st.NewNode? {
      HeldUpdate(s.threads, st.t, s'.threads[st.t], p);
      assert s'.threads == s.threads[st.t := s'.threads[st.t]];
    }
    if st.Push? || st.Pop? {
      QueuedUpdate(s.queues, st.q, s'.queues[st.q], p);
      assert s'.queues == s.queues[st.q := s'.queues[st.q]];
    }
  }

  lemma BalancedTake(s: State, st: Step, p: Pkt)
    requires Can(s, st) && Accounted(s, st, p) && (st.NewNode? || st.Alloc? || st.AddRef?)
    ensures Balanced(Next(s, st), p)
  {
  }

  lemma BalancedDrop(s: State, st: Step, p: Pkt)
    requires Can(s, st) && Accounted(s, st, p) && (st.SubRef? || st.Free?)
    ensures Balanced(Next(s, st), p)
  {
  }

  lemma BalancedPush(s: State, st: Step, p: Pkt)
    requires Can(s, st) && Accounted(s, st, p) && st.Push?
    ensures Balanced(Next(s, st), p)
  {
  }

  lemma BalancedPop(s: State, st: Step, p: Pkt)
    requires Can(s, st) && Accounted(s, st, p) && st.Pop?
    ensures Balanced(Next(s, st), p)
  {
    assert s.queues[st.q] == [s.queues[st.q][0]] + s.queues[st.q][1..];
  }

  lemma BalancedAfter(s: State, st: Step, p: Pkt)
    requires Can(s, st) && Balanced(s, p)
    ensures Balanced(Next(s, st), p)
  {
    Account(s, st, p);
    if st.Push? {
      BalancedPush(s, st, p);
    } else if st.Pop? {
      BalancedPop(s, st, p);
    } else if st.SubRef? || st.Free? {
      BalancedDrop(s, st, p);
    } else {
      BalancedTake(s, st, p);
    }
  }

  lemma InvAfter(s: State, st: Step)
    requires Can(s, st) && Inv(s)
    ensures Inv(Next(s, st))
  {
    forall p ensures Balanced(Next(s, st), p) {
      BalancedAfter(s, st, p);
    }
  }

  lemma {:induction false} InvRun(s: State, sts: seq<Step>)
    requires Inv(s) && Run(s, sts)
    ensures Inv(After(s, sts))
    decreases |sts|
  {
    if sts != [] {
      InvAfter(s, sts[0]);
      InvRun(Next(s, sts[0]), sts[1..]);
    }
  }

  lemma {:induction false} NothingHeld(n: nat, p: Pkt)
    ensures Held(Start(n, []).threads, p) == 0 && Freeing(Start(n, []).threads, p) == 0
  {
    if n > 0 {
      assert Start(n, []).threads[..n - 1] == Start(n - 1, []).threads;
      NothingHeld(n - 1, p);
    }
  }

  lemma {:induction false} NothingQueued(qs: seq<seq<Pkt>>, p: Pkt)
    requires forall i :: 0 <= i < |qs| ==> qs[i] == []
    ensures Queued(qs, p) == 0
  {
    if qs != [] {
      NothingQueued(qs[..|qs| - 1], p);
    }
  }

  lemma InvStart(n: nat, caps: seq<nat>)
    ensures Inv(Start(n, caps))
  {
    var s0 := Start(n, caps);
    forall q ensures Balanced(s0, q) {
      assert s0.threads == Start(n, []).threads;
      NothingHeld(n, q);
      NothingQueued(s0.queues, q);
    }
  }

  /**
   Over every run of allocation, AddRef, pushes, pops, SubRef and returns to the pool: a packet's count is
   the number of references threads hold, plus its occurrences in all queues, plus its failed pushes; and
   it is out of the pool, in no thread's act of freeing it, exactly while that number is positive.
   */
  lemma Conservation(n: nat, caps: seq<nat>, sts: seq<Step>, p: Pkt)
    requires Run(Start(n, caps), sts)
    ensures var s := After(Start(n, caps), sts);
            && (p in s.ref ==> s.ref[p] == Held(s.threads, p) + Queued(s.queues, p) + s.lost[p])
            && (p in s.ref ==> (Refs(s, p) > 0 <==> s.pool[p] == 0 && Freeing(s.threads, p) == 0))
            && s.pool[p] + Freeing(s.threads, p) <= 1
            && (p !in s.ref ==> Refs(s, p) == 0)
  {
    InvStart(n, caps);
    InvRun(Start(n, caps), sts);
    assert Balanced(After(Start(n, caps), sts), p);
  }

  // ----- a session reset is a run --------------------------------------------------------------

  lemma RunsOn(s: State, st: Step, rest: seq<Step>)
    requires Can(s, st) && Run(Next(s, st), rest)
    ensures Run(s, [st] + rest) && After(s, [st] + rest) == After(Next(s, st), rest)
  {
    assert ([st] + rest)[1..] == rest;
  }

  lemma {:induction false} RunsTogether(s: State, first: seq<Step>, rest: seq<Step>)
    requires Run(s, first) && Run(After(s, first), rest)
    ensures Run(s, first + rest) && After(s, first + rest) == After(After(s, first), rest)
    decreases |first|
  {
    hide Next, Can;
    if first == [] {
      assert first + rest == rest;
    } else {
      RunsTogether(Next(s, first[0]), first[1..], rest);
      RunsOn(s, first[0], first[1..] + rest);
      assert [first[0]] + (first[1..] + rest) == first + rest;
    }
  }

  /** How often a packet whose count falls by `n` from `r` reaches zero on the way. */
  function Returned(r: int, n: nat): nat {
    if 0 < r <= n then 1 else 0
  }

  /** `p` has given back its occurrences in `items`, and went to the pool if those were its last references. */
  predicate Settled(s: State, s': State, items: seq<Pkt>, p: Pkt) {
    p in s.ref ==>
      && p in s'.ref
      && s'.ref[p] == s.ref[p] - multiset(items)[p]
      && s'.pool[p] == s.pool[p] + Returned(s.ref[p], multiset(items)[p])
  }

  ghost predicate GaveBack(s: State, s': State, items: seq<Pkt>) {
    && s'.threads == s.threads && s'.lost == s.lost && s'.caps == s.caps
    && s'.ref.Keys == s.ref.Keys
    && (forall p :: Settled(s, s', items, p))
  }

  lemma GaveBackBoth(s: State, s1: State, s2: State, a: seq<Pkt>, b: seq<Pkt>)
    requires GaveBack(s, s1, a) && GaveBack(s1, s2, b)
    ensures GaveBack(s, s2, a + b)
  {
    forall p ensures Settled(s, s2, a + b, p) {
      assert Settled(s, s1, a, p) && Settled(s1, s2, b, p);
    }
  }

  /** A popped packet's reference, given back: SubRef, and the return to the pool if it was the last. */
  lemma GiveBack(s: State, t: Tid, p: Pkt) returns (sts: seq<Step>)
    requires HasRef(s, t, p)
    ensures Run(s, sts)
    ensures var s' := After(s, sts);
            && s'.threads == s.threads[t := Lose(s.threads[t], p)]
            && s'.queues == s.queues && s'.lost == s.lost && s'.caps == s.caps
            && s'.ref == s.ref[p := s.ref[p] - 1]
            && s'.pool == if s.ref[p] == 1 then s.pool + multiset{p} else s.pool
  {
    var s1 := Next(s, SubRef(t, p));
    if s.ref[p] == 1 {
      RunsOn(s1, Free(t), []);
      RunsOn(s, SubRef(t, p), [Free(t)]);
      sts := [SubRef(t, p)] + [Free(t)];
    } else {
      RunsOn(s, SubRef(t, p), []);
      sts := [SubRef(t, p)] + [];
    }
  }

  /** One turn of Init's loop. */
  lemma PopAndSubRef(s: State, t: Tid, q: Qid) returns (sts: seq<Step>)
    requires Inv(s) && Idle(s, t) && q < |s.queues| && s.queues[q] != []
    ensures Run(s, sts) && GaveBack(s, After(s, sts), [s.queues[q][0]])
    ensures After(s, sts).queues == s.queues[q := s.queues[q][1..]]
  {
    var p := s.queues[q][0];
    assert Balanced(s, p);
    QueuedUpdate(s.queues, q, [], p);
    assert p in multiset(s.queues[q]);
    var s1 := Next(s, Pop(t, q));
    var rest := GiveBack(s1, t, p);
    RunsOn(s, Pop(t, q), rest);
    sts := [Pop(t, q)] + rest;
    assert Lose(s1.threads[t], p) == s.threads[t];
    assert After(s1, rest).threads == s.threads;
  }

  /** Two runs that give back, one after the other. */
  lemma GiveBackTogether(s: State, first: seq<Step>, rest: seq<Step>, a: seq<Pkt>, b: seq<Pkt>)
    requires Run(s, first) && Run(After(s, first), rest)
    requires GaveBack(s, After(s, first), a) && GaveBack(After(s, first), After(After(s, first), rest), b)
    ensures Run(s, first + rest) && GaveBack(s, After(s, first + rest), a + b)
    ensures After(s, first + rest).queues == After(After(s, first), rest).queues
  {
    RunsTogether(s, first, rest);
    GaveBackBoth(s, After(s, first), After(After(s, first), rest), a, b);
  }

  /** A whole loop of Init, with no other thread in between. */
  lemma {:induction false} DrainQueue(s: State, t: Tid, q: Qid) returns (sts: seq<Step>)
    requires Inv(s) && Idle(s, t) && q < |s.queues|
    ensures Run(s, sts) && GaveBack(s, After(s, sts), s.queues[q])
    ensures After(s, sts).queues == s.queues[q := []]
    decreases |s.queues[q]|
  {
    var items := s.queues[q];
    if items == [] {
      sts := [];
      assert After(s, sts) == s;
    } else {
      var first := PopAndSubRef(s, t, q);
      InvRun(s, first);
      var s1 := After(s, first);
      assert s1.queues[q] == items[1..];
      var rest := DrainQueue(s1, t, q);
      assert items == [items[0]] + items[1..];
      GiveBackTogether(s, first, rest, [items[0]], items[1..]);
      sts := first + rest;
      assert s1.queues[q := []] == s.queues[q := []];
    }
  }

  /**
   Session::Init on session `i`: both queues end up empty, every packet's count is lower by exactly
   its occurrences in the two, it is returned if those were its last references, and the
   conservation law still holds.
   */
  lemma SessionReset(s: State, t: Tid, i: nat) returns (sts: seq<Step>)
    requires Inv(s) && Idle(s, t) && 2 * i + 1 < |s.queues|
    ensures Run(s, sts) && Inv(After(s, sts))
    ensures GaveBack(s, After(s, sts), s.queues[2 * i] + s.queues[2 * i + 1])
    ensures After(s, sts).queues == s.queues[2 * i := []][2 * i + 1 := []]
  {
    var first := DrainQueue(s, t, 2 * i);
    var s1 := After(s, first);
    InvRun(s, first);
    var second := DrainQueue(s1, t, 2 * i + 1);
    GiveBackTogether(s, first, second, s.queues[2 * i], s.queues[2 * i + 1]);
    sts := first + second;
    InvRun(s, sts);
  }

  // ----- which packets can still return --------------------------------------------------------

  lemma LostKept(s: State, st: Step, p: Pkt)
    requires Can(s, st)
    ensures Next(s, st).lost[p] >= s.lost[p]
  {
  }

  /** A packet with a lost reference never returns to the pool, however the run goes on. */
  lemma {:induction false} LostForGood(s: State, sts: seq<Step>, p: Pkt)
    requires Inv(s) && Run(s, sts) && s.lost[p] > 0
    ensures After(s, sts).lost[p] > 0 && After(s, sts).pool[p] == 0
    decreases |sts|
  {
    if sts == [] {
      assert Balanced(s, p);
    } else {
      InvAfter(s, sts[0]);
      LostKept(s, sts[0], p);
      LostForGood(Next(s, sts[0]), sts[1..], p);
    }
  }

  /** A thread with nothing in its hands. */
  predicate EmptyHanded(h: Holder) {
    h.held == multiset{} && h.freeing.None?
  }

  predicate SameElsewhere(s: State, s': State, t: Tid) {
    && s'.queues == s.queues && s'.lost == s.lost && s'.caps == s.caps
    && |s'.threads| == |s.threads| && (forall u :: 0 <= u < |s.threads| && u != t ==> s'.threads[u] == s.threads[u])
  }

  /** What a thread holds is counted. */
  lemma HeldIsKnown(s: State, t: Tid, p: Pkt)
    requires Inv(s) && t < |s.threads| && p in s.threads[t].held
    ensures p in s.ref
  {
    assert Balanced(s, p);
    HeldUpdate(s.threads, t, s.threads[t], p);
  }

  lemma Append(s: State, first: seq<Step>, rest: seq<Step>, s1: State, s2: State)
    requires Run(s, first) && After(s, first) == s1 && Run(s1, rest) && After(s1, rest) == s2
    ensures Run(s, first + rest) && After(s, first + rest) == s2
  {
    RunsTogether(s, first, rest);
  }

  /** A thread can give back all that it holds. */
  lemma {:induction false} EmptyHands(s: State, t: Tid) returns (sts: seq<Step>)
    requires Inv(s) && Idle(s, t)
    ensures Run(s, sts) && Inv(After(s, sts)) && SameElsewhere(s, After(s, sts), t)
    ensures EmptyHanded(After(s, sts).threads[t])
    decreases |s.threads[t].held|
  {
    hide Next, Can, Inv;
    if s.threads[t].held == multiset{} {
      sts := [];
    } else {
      var p :| p in s.threads[t].held;
      HeldIsKnown(s, t, p);
      var first := GiveBack(s, t, p);
      var s1 := After(s, first);
      InvRun(s, first);
      var rest := EmptyHands(s1, t);
      Append(s, first, rest, s1, After(s1, rest));
      sts := first + rest;
    }
  }

  /** The thread finishes what it is freeing first. */
  lemma Unburden(s: State, t: Tid) returns (sts: seq<Step>)
    requires Inv(s) && t < |s.threads|
    ensures Run(s, sts) && Inv(After(s, sts)) && SameElsewhere(s, After(s, sts), t)
    ensures EmptyHanded(After(s, sts).threads[t])
  {
    if s.threads[t].freeing.None? {
      sts := EmptyHands(s, t);
    } else {
      var s1 := Next(s, Free(t));
      InvAfter(s, Free(t));
      var rest := EmptyHands(s1, t);
      RunsOn(s, Free(t), rest);
      sts := [Free(t)] + rest;
    }
  }

  lemma {:induction false} UnburdenFrom(s: State, k: nat) returns (sts: seq<Step>)
    requires Inv(s) && k <= |s.threads| && forall u :: 0 <= u < k ==> EmptyHanded(s.threads[u])
    ensures Run(s, sts) && Inv(After(s, sts))
    ensures var s' := After(s, sts);
            && s'.queues == s.queues && s'.lost == s.lost && s'.caps == s.caps && |s'.threads| == |s.threads|
            && forall u :: 0 <= u < |s'.threads| ==> EmptyHanded(s'.threads[u])
    decreases |s.threads| - k
  {
    hide Next, Can, Inv;
    if k == |s.threads| {
      sts := [];
    } else {
      var first := Unburden(s, k);
      var s1 := After(s, first);
      var rest := UnburdenFrom(s1, k + 1);
      Append(s, first, rest, s1, After(s1, rest));
      sts := first + rest;
    }
  }

  /** And one thread can drain all the queues. */
  lemma {:induction false} DrainFrom(s: State, t: Tid, k: nat) returns (sts: seq<Step>)
    requires Inv(s) && Idle(s, t) && k <= |s.queues| && forall q :: 0 <= q < k ==> s.queues[q] == []
    ensures Run(s, sts) && Inv(After(s, sts))
    ensures var s' := After(s, sts);
            && s'.threads == s.threads && s'.lost == s.lost && s'.ref.Keys == s.ref.Keys
            && forall q :: 0 <= q < |s'.queues| ==> s'.queues[q] == []
    decreases |s.queues| - k
  {
    hide Next, Can, Inv;
    if k == |s.queues| {
      sts := [];
    } else {
      var first := DrainQueue(s, t, k);
      var s1 := After(s, first);
      InvRun(s, first);
      assert Idle(s1, t);
      var rest := DrainFrom(s1, t, k + 1);
      Append(s, first, rest, s1, After(s1, rest));
      sts := first + rest;
    }
  }

  lemma {:induction false} EmptyHandsHoldNothing(hs: seq<Holder>, p: Pkt)
    requires forall u :: 0 <= u < |hs| ==> EmptyHanded(hs[u])
    ensures Held(hs, p) == 0 && Freeing(hs, p) == 0
  {
    if hs != [] {
      EmptyHandsHoldNothing(hs[..|hs| - 1], p);
    }
  }

  lemma RefsOfLonger(s: State, sts: seq<Step>, p: Pkt)
    requires Run(s, sts) && p in s.ref
    ensures p in After(s, sts).ref
    decreases |sts|
  {
    if sts != [] {
      RefsOfLonger(Next(s, sts[0]), sts[1..], p);
    }
  }

  /** From every reachable state the threads and queues can be emptied, and then every packet without a lost reference is in the pool. */
  lemma EverythingCanReturn(s: State) returns (sts: seq<Step>)
    requires Inv(s) && |s.threads| > 0
    ensures Run(s, sts)
    ensures forall p :: p in s.ref && s.lost[p] == 0 ==> After(s, sts).pool[p] == 1
  {
    var first := UnburdenFrom(s, 0);
    var s1 := After(s, first);
    var rest := DrainFrom(s1, 0, 0);
    var s2 := After(s1, rest);
    Append(s, first, rest, s1, s2);
    sts := first + rest;
    forall p | p in s.ref && s.lost[p] == 0 ensures s2.pool[p] == 1 {
      RefsOfLonger(s, sts, p);
      EmptyHandsHoldNothing(s2.threads, p);
      NothingQueued(s2.queues, p);
      assert Balanced(s2, p);
    }
  }

  /** The packet is in the pool at the end of some continuation of the run. */
  ghost predicate CanReturn(s: State, p: Pkt) {
    exists sts :: Returns(s, sts, p)
  }

  ghost predicate Returns(s: State, sts: seq<Step>, p: Pkt) {
    Run(s, sts) && After(s, sts).pool[p] > 0
  }

  /** In every reachable state a packet can still return to the pool exactly when no push of it has failed. */
  lemma ReturnsExactly(n: nat, caps: seq<nat>, sts: seq<Step>, p: Pkt)
    requires n > 0 && Run(Start(n, caps), sts) && p in After(Start(n, caps), sts).ref
    ensures var s := After(Start(n, caps), sts); CanReturn(s, p) <==> s.lost[p] == 0
  {
    InvStart(n, caps);
    InvRun(Start(n, caps), sts);
    var s := After(Start(n, caps), sts);
    ThreadsKept(Start(n, caps), sts);
    if s.lost[p] == 0 {
      var more := EverythingCanReturn(s);
      assert Returns(s, more, p);
    } else if CanReturn(s, p) {
      var more :| Returns(s, more, p);
      LostForGood(s, more, p);
    }
  }

  lemma {:induction false} ThreadsKept(s: State, sts: seq<Step>)
    requires Run(s, sts)
    ensures |After(s, sts).threads| == |s.threads|
    decreases |sts|
  {
    if sts != [] {
      ThreadsKept(Next(s, sts[0]), sts[1..]);
    }
  }

  // ----- the push that fails -------------------------------------------------------------------

  /** SendPacket of a packet that the thread has: AddRef, and a push whose result nobody looks at. */
  function Send(t: Tid, q: Qid, p: Pkt): seq<Step> {
    [AddRef(t, p), Push(t, q, p)]
  }

  function Sends(t: Tid, q: Qid, p: Pkt, k: nat): seq<Step> {
    if k == 0 then [] else Send(t, q, p) + Sends(t, q, p, k - 1)
  }

  /** `k` occurrences of `p`. */
  function Copies(p: Pkt, k: nat): (c: seq<Pkt>)
    ensures |c| == k
  {
    seq(k, _ => p)
  }

  /** What SendPacket leaves: one more in the queue, or one more lost. */
  function Sent(s: State, q: Qid, p: Pkt): State
    requires p in s.ref && q < |s.queues| == |s.caps|
  {
    var s1 := s.(ref := s.ref[p := s.ref[p] + 1]);
    if |s.queues[q]| < s.caps[q] then s1.(queues := s.queues[q := s.queues[q] + [p]])
    else s1.(lost := s.lost + multiset{p})
  }

  lemma SentInTwo(s: State, t: Tid, q: Qid, p: Pkt)
    requires HasRef(s, t, p) && q < |s.queues| == |s.caps|
    ensures Can(s, AddRef(t, p)) && Can(Next(s, AddRef(t, p)), Push(t, q, p))
    ensures Next(Next(s, AddRef(t, p)), Push(t, q, p)) == Sent(s, q, p)
  {
    assert Lose(Gain(s.threads[t], p), p) == s.threads[t];
    assert Next(Next(s, AddRef(t, p)), Push(t, q, p)).threads == s.threads;
  }

  lemma OneSend(s: State, t: Tid, q: Qid, p: Pkt)
    requires HasRef(s, t, p) && q < |s.queues| == |s.caps|
    ensures Run(s, Send(t, q, p)) && After(s, Send(t, q, p)) == Sent(s, q, p)
  {
    SentInTwo(s, t, q, p);
    hide Next, Can, Sent;
    var s1 := Next(s, AddRef(t, p));
    RunsOn(s1, Push(t, q, p), []);
    assert [Push(t, q, p)] + [] == [Push(t, q, p)];
    RunsOn(s, AddRef(t, p), [Push(t, q, p)]);
    assert [AddRef(t, p)] + [Push(t, q, p)] == Send(t, q, p);
  }

  lemma {:induction false} ManySends(s: State, t: Tid, q: Qid, p: Pkt, k: nat)
    requires HasRef(s, t, p) && q < |s.queues| == |s.caps| && |s.queues[q]| + k <= s.caps[q]
    ensures Run(s, Sends(t, q, p, k))
    ensures After(s, Sends(t, q, p, k))
         == s.(ref := s.ref[p := s.ref[p] + k], queues := s.queues[q := s.queues[q] + Copies(p, k)])
    decreases k
  {
    hide Next, Can;
    if k == 0 {
      assert s.queues[q] + Copies(p, 0) == s.queues[q] && s.queues[q := s.queues[q]] == s.queues;
      assert s.ref[p := s.ref[p]] == s.ref;
    } else {
      OneSend(s, t, q, p);
      var s1 := After(s, Send(t, q, p));
      ManySends(s1, t, q, p, k - 1);
      assert s.queues[q] + [p] + Copies(p, k - 1) == s.queues[q] + Copies(p, k);
      Append(s, Send(t, q, p), Sends(t, q, p, k - 1), s1, After(s1, Sends(t, q, p, k - 1)));
      assert s1.queues[q := s1.queues[q] + Copies(p, k - 1)] == s.queues[q := s.queues[q] + Copies(p, k)];
      assert s1.ref[p := s1.ref[p] + (k - 1)] == s.ref[p := s.ref[p] + k];
    }
  }

  /**
   The failing run: into an empty send queue of 4096 that nobody pops, the 4097th SendPacket of a packet
   loses a reference, and from then on the packet cannot return.
   */
  lemma SendIntoFullQueueLosesPacket(s: State, t: Tid, q: Qid, p: Pkt)
    requires Inv(s) && HasRef(s, t, p) && q < |s.queues| == |s.caps| && s.caps[q] == 4096
    requires s.queues[q] == [] && s.lost[p] == 0
    ensures var sts := Sends(t, q, p, 4096) + Send(t, q, p);
            && Run(s, Sends(t, q, p, 4096)) && After(s, Sends(t, q, p, 4096)).lost[p] == 0
            && Run(s, sts) && After(s, sts).lost[p] == 1 && !CanReturn(After(s, sts), p)
  {
    ManySends(s, t, q, p, CAPACITY);
    var s1 := After(s, Sends(t, q, p, CAPACITY));
    OneSend(s1, t, q, p);
    var s2 := After(s1, Send(t, q, p));
    var sts := Sends(t, q, p, CAPACITY) + Send(t, q, p);
    Append(s, Sends(t, q, p, CAPACITY), Send(t, q, p), s1, s2);
    InvRun(s, sts);
    if CanReturn(s2, p) {
      var more :| Returns(s2, more, p);
      LostForGood(s2, more, p);
    }
  }
}
