/**
 Sector locks: any number of threads, each with any number of requests, each request taking the locks
 of several sectors in increasing `lockIndex` before it releases them in any order. What a request
 releases need not be what it took: LeaveProc reads the cell anew for its unlock.
 */
module LockOrder {
  type Tid = nat
  type Index = nat

  // ----- the order LockTwoSectorsExclusive takes -----------------------------------------------

  /** `lockIndex` of a cell of a grid `width` cells wide, numbered row by row. */
  function LockIndex(x: nat, y: nat, width: nat): Index {
    y * width + x
  }

  /** The numbering in ChatServer's constructor. */
  method NumberSectors(width: nat, height: nat) returns (lockIndex: array2<Index>)
    ensures lockIndex.Length0 == height && lockIndex.Length1 == width
    ensures forall x, y :: 0 <= x < width && 0 <= y < height ==> lockIndex[y, x] == LockIndex(x, y, width)
  {
    lockIndex := new Index[height, width];
    var idx := 0;
    for y := 0 to height
      invariant idx == LockIndex(0, y, width)
      invariant forall u, v :: 0 <= u < width && 0 <= v < y ==> lockIndex[v, u] == LockIndex(u, v, width)
    {
      for x := 0 to width
        invariant idx == LockIndex(x, y, width)
        invariant forall u, v :: 0 <= u < width && 0 <= v < y ==> lockIndex[v, u] == LockIndex(u, v, width)
        invariant forall u :: 0 <= u < x ==> lockIndex[y, u] == LockIndex(u, y, width)
      {
        lockIndex[y, x] := idx;
        idx := idx + 1;
      }
      assert LockIndex(width, y, width) == LockIndex(0, y + 1, width);
    }
  }

  lemma RowsDoNotOverlap(y1: nat, y2: nat, width: nat)
    requires y1 < y2
    ensures y1 * width + width <= y2 * width
  {
    assert y2 * width == (y1 + 1) * width + (y2 - y1 - 1) * width;
    assert (y2 - y1 - 1) * width >= 0;
  }

  lemma LockIndexIsInjective(x1: nat, y1: nat, x2: nat, y2: nat, width: nat)
    requires x1 < width && x2 < width
    ensures LockIndex(x1, y1, width) == LockIndex(x2, y2, width) <==> x1 == x2 && y1 == y2
  {
    if y1 < y2 {
      RowsDoNotOverlap(y1, y2, width);
    } else if y2 < y1 {
      RowsDoNotOverlap(y2, y1, width);
    }
  }

  /** The locks of two sectors, the same sector once, in the order they are taken. */
  function TwoLocks(a: Index, b: Index): seq<Index> {
    if a == b then [a] else if a < b then [a, b] else [b, a]
  }

  predicate Increasing(r: seq<Index>) {
    forall i, j :: 0 <= i < j < |r| ==> r[i] < r[j]
  }

  /** Both callers' argument orders give one increasing request for exactly the two cells. */
  lemma TwoLocksOrdered(x1: nat, y1: nat, x2: nat, y2: nat, width: nat)
    requires x1 < width && x2 < width
    ensures var (a, b) := (LockIndex(x1, y1, width), LockIndex(x2, y2, width));
            var r := TwoLocks(a, b);
            && Increasing(r) && r == TwoLocks(b, a)
            && (forall l :: l in r <==> l == a || l == b)
            && (|r| == 1 <==> x1 == x2 && y1 == y2)
  {
    LockIndexIsInjective(x1, y1, x2, y2, width);
  }

  // ----- the transition system -----------------------------------------------------------------

  /** `held` and `want` split the current request; `rest` are the requests still to come. */
  datatype Task = Task(held: set<Index>, want: seq<Index>, rest: seq<seq<Index>>)

  datatype State = State(owner: map<Index, Tid>, tasks: seq<Task>)

  /** `Release` gives up `took` and unlocks `l`. */
  datatype Step =
    | Take(t: Tid)
    | Release(t: Tid, took: Index, l: Index)
    | Begin(t: Tid)

  /** The lock that is given back is the one that was taken. */
  predicate GivesBack(st: Step) {
    st.Release? ==> st.took == st.l
  }

  predicate AllGiveBack(sts: seq<Step>) {
    forall i :: 0 <= i < |sts| ==> GivesBack(sts[i])
  }

  predicate Can(s: State, st: Step) {
    st.t < |s.tasks| &&
    var k := s.tasks[st.t];
    match st
    case Take(t) => k.want != [] && k.want[0] !in s.owner
    case Release(t, took, l) => k.want == [] && took in k.held
    case Begin(t) => k.want == [] && k.held == {} && k.rest != []
  }

  function Next(s: State, st: Step): State
    requires Can(s, st)
  {
    var k := s.tasks[st.t];
    match st
    case Take(t) =>
      State(s.owner[k.want[0] := t], s.tasks[t := k.(held := k.held + {k.want[0]}, want := k.want[1..])])
    case Release(t, took, l) => State(s.owner - {l}, s.tasks[t := k.(held := k.held - {took})])
    case Begin(t) => s.(tasks := s.tasks[t := k.(want := k.rest[0], rest := k.rest[1..])])
  }

  ghost predicate Run(s: State, sts: seq<Step>)
    decreases |sts|
  {
    sts == [] || (Can(s, sts[0]) && Run(Next(s, sts[0]), sts[1..]))
  }

  ghost function After(s: State, sts: seq<Step>): State
    requires Run(s, sts)
    decreases |sts|
  {
    if sts == [] then s else After(Next(s, sts[0]), sts[1..])
  }

  /** One thread for each list of requests; no lock is taken. */
  function Start(programs: seq<seq<seq<Index>>>): State {
    State(map[], seq(|programs|, i requires 0 <= i < |programs| => Task({}, [], programs[i])))
  }

  ghost predicate Ordered(programs: seq<seq<seq<Index>>>) {
    forall t, i :: 0 <= t < |programs| && 0 <= i < |programs[t]| ==> Increasing(programs[t][i])
  }

  predicate Finished(k: Task) {
    k.held == {} && k.want == [] && k.rest == []
  }

  /** `t` wants a lock that `u` holds. */
  predicate WaitsFor(s: State, t: Tid, u: Tid) {
    t < |s.tasks| && s.tasks[t].want != [] && s.tasks[t].want[0] in s.owner && s.owner[s.tasks[t].want[0]] == u
  }

  // ----- the invariant -------------------------------------------------------------------------

  ghost predicate TaskOk(k: Task) {
    && Increasing(k.want)
    && (forall l, i :: l in k.held && 0 <= i < |k.want| ==> l < k.want[i])
    && (forall i :: 0 <= i < |k.rest| ==> Increasing(k.rest[i]))
  }

  ghost predicate Inv(s: State) {
    (forall t :: 0 <= t < |s.tasks| ==> TaskOk(s.tasks[t])) && OwnersOk(s)
  }

  lemma TaskAfter(s: State, st: Step)
    requires Can(s, st) && TaskOk(s.tasks[st.t])
    ensures TaskOk(Next(s, st).tasks[st.t])
  {
  }

  lemma InvAfter(s: State, st: Step)
    requires Inv(s) && Can(s, st) && GivesBack(st)
    ensures Inv(Next(s, st))
  {
    var s' := Next(s, st);
    forall t | 0 <= t < |s'.tasks| ensures TaskOk(s'.tasks[t]) {
      assert TaskOk(s.tasks[t]);
      TaskAfter(s, st);
    }
    OwnersAfter(s, st);
  }

  ghost predicate OwnersOk(s: State) {
    && (forall t, l :: 0 <= t < |s.tasks| && l in s.tasks[t].held ==> l in s.owner && s.owner[l] == t)
    && (forall l :: l in s.owner ==> s.owner[l] < |s.tasks| && l in s.tasks[s.owner[l]].held)
  }

  lemma OwnersAfter(s: State, st: Step)
    requires OwnersOk(s) && Can(s, st) && GivesBack(st)
    ensures OwnersOk(Next(s, st))
  {
    var s' := Next(s, st);
    forall t, l | 0 <= t < |s'.tasks| && l in s'.tasks[t].held ensures l in s'.owner && s'.owner[l] == t {
      assert t != st.t ==> l in s.tasks[t].held;
    }
    forall l | l in s'.owner ensures s'.owner[l] < |s'.tasks| && l in s'.tasks[s'.owner[l]].held {
      assert l in s.owner ==> l in s.tasks[s.owner[l]].held;
    }
  }

  lemma {:induction false} InvRun(s: State, sts: seq<Step>)
    requires Inv(s) && Run(s, sts) && AllGiveBack(sts)
    ensures Inv(After(s, sts))
    decreases |sts|
  {
    if sts != [] {
      InvAfter(s, sts[0]);
      InvRun(Next(s, sts[0]), sts[1..]);
    }
  }

  // ----- no wait cycle -------------------------------------------------------------------------

  /** Along a chain of waiting threads the wanted index climbs. */
  lemma {:induction false} WantsClimb(s: State, chain: seq<Tid>, i: nat)
    requires Inv(s) && i < |chain|
    requires forall j :: 0 <= j < |chain| ==> chain[j] < |s.tasks| && s.tasks[chain[j]].want != []
    requires forall j :: 0 <= j < |chain| - 1 ==> WaitsFor(s, chain[j], chain[j + 1])
    ensures s.tasks[chain[0]].want[0] + i <= s.tasks[chain[i]].want[0]
  {
    if i > 0 {
      WantsClimb(s, chain, i - 1);
      assert WaitsFor(s, chain[i - 1], chain[i - 1 + 1]);
      assert TaskOk(s.tasks[chain[i]]);
    }
  }

  lemma NoCycle(s: State, cycle: seq<Tid>)
    requires Inv(s) && cycle != []
    requires forall j :: 0 <= j < |cycle| - 1 ==> WaitsFor(s, cycle[j], cycle[j + 1])
    ensures !WaitsFor(s, cycle[|cycle| - 1], cycle[0])
  {
    var n := |cycle| - 1;
    if WaitsFor(s, cycle[n], cycle[0]) {
      forall j | 0 <= j < |cycle| ensures cycle[j] < |s.tasks| && s.tasks[cycle[j]].want != [] {
        if j < n { assert WaitsFor(s, cycle[j], cycle[j + 1]); }
      }
      assert TaskOk(s.tasks[cycle[0]]);
      WantsClimb(s, cycle, n);
    }
  }

  // ----- progress ------------------------------------------------------------------------------

  /** The waiting thread with the highest wanted index, among the first `n`. */
  lemma {:induction false} HighestWaiter(s: State, n: nat) returns (best: Tid)
    requires n <= |s.tasks| && exists t :: 0 <= t < n && s.tasks[t].want != []
    ensures best < n && s.tasks[best].want != []
    ensures forall t :: 0 <= t < n && s.tasks[t].want != [] ==> s.tasks[t].want[0] <= s.tasks[best].want[0]
  {
    if exists t :: 0 <= t < n - 1 && s.tasks[t].want != [] {
      best := HighestWaiter(s, n - 1);
      if s.tasks[n - 1].want != [] && s.tasks[n - 1].want[0] > s.tasks[best].want[0] {
        best := n - 1;
      }
    } else {
      best := n - 1;
    }
  }

  lemma SomeoneCanStep(s: State, t: Tid) returns (st: Step)
    requires Inv(s) && t < |s.tasks| && !Finished(s.tasks[t])
    ensures Can(s, st)
  {
    if s.tasks[t].want == [] {
      if s.tasks[t].held != {} {
        var l :| l in s.tasks[t].held;
        st := Release(t, l, l);
      } else {
        st := Begin(t);
      }
    } else {
      var best := HighestWaiter(s, |s.tasks|);
      var l := s.tasks[best].want[0];
      if l !in s.owner {
        st := Take(best);
      } else {
        // the holder wants nothing below what it holds, and nothing above the highest want
        var u := s.owner[l];
        assert TaskOk(s.tasks[u]);
        st := Release(u, l, l);
      }
    }
  }

  // ----- every step uses up work ---------------------------------------------------------------

  function Size(rs: seq<seq<Index>>): nat {
    if rs == [] then 0 else 1 + 2 * |rs[0]| + Size(rs[1..])
  }

  /** The number of steps a thread still has to make. */
  function Left(k: Task): nat {
    2 * |k.want| + |k.held| + Size(k.rest)
  }

  function Work(ks: seq<Task>): nat {
    if ks == [] then 0 else Work(ks[..|ks| - 1]) + Left(ks[|ks| - 1])
  }

  lemma {:induction false} WorkUpdate(ks: seq<Task>, t: Tid, k: Task)
    requires t < |ks|
    ensures Work(ks[t := k]) == Work(ks) - Left(ks[t]) + Left(k)
  {
    var n := |ks| - 1;
    if t == n {
      assert ks[t := k][..n] == ks[..n];
    } else {
      assert ks[t := k][..n] == ks[..n][t := k];
      WorkUpdate(ks[..n], t, k);
    }
  }

  lemma StepUsesWork(s: State, st: Step)
    requires Inv(s) && Can(s, st)
    ensures Work(Next(s, st).tasks) == Work(s.tasks) - 1
  {
    var k := s.tasks[st.t];
    WorkUpdate(s.tasks, st.t, Next(s, st).tasks[st.t]);
    if st.Take? {
      assert TaskOk(k);
      assert k.want[0] !in k.held;
    }
  }

  lemma {:induction false} RunUsesWork(s: State, sts: seq<Step>)
    requires Inv(s) && Run(s, sts) && AllGiveBack(sts)
    ensures Work(After(s, sts).tasks) == Work(s.tasks) - |sts|
    decreases |sts|
  {
    if sts != [] {
      StepUsesWork(s, sts[0]);
      InvAfter(s, sts[0]);
      RunUsesWork(Next(s, sts[0]), sts[1..]);
    }
  }

  lemma {:induction false} NoWorkMeansFinished(ks: seq<Task>, t: Tid)
    requires t < |ks| && Work(ks) == 0
    ensures Finished(ks[t])
  {
    if t < |ks| - 1 {
      NoWorkMeansFinished(ks[..|ks| - 1], t);
    }
  }

  lemma {:induction false} FinishedMeansNoWork(ks: seq<Task>)
    requires forall t :: 0 <= t < |ks| ==> Finished(ks[t])
    ensures Work(ks) == 0
  {
    if ks != [] {
      FinishedMeansNoWork(ks[..|ks| - 1]);
    }
  }

  /**
   Deadlock freedom. Whatever the threads and whatever the interleaving, if every request is in
   increasing order and every release so far gave back what was taken, then no reachable state has a
   wait cycle, some thread can step while any is unfinished, and a run is complete exactly when it has
   as many steps as there is work.
   */
  lemma DeadlockFree(programs: seq<seq<seq<Index>>>, sts: seq<Step>)
    requires Ordered(programs) && Run(Start(programs), sts) && AllGiveBack(sts)
    ensures var s := After(Start(programs), sts);
            && (forall cycle: seq<Tid> | cycle != []
                  && (forall j :: 0 <= j < |cycle| - 1 ==> WaitsFor(s, cycle[j], cycle[j + 1])) ::
                  !WaitsFor(s, cycle[|cycle| - 1], cycle[0]))
            && ((forall t :: 0 <= t < |s.tasks| ==> Finished(s.tasks[t])) || exists st :: Can(s, st))
            && |sts| <= Work(Start(programs).tasks)
            && ((forall t :: 0 <= t < |s.tasks| ==> Finished(s.tasks[t])) <==> |sts| == Work(Start(programs).tasks))
  {
    InvRun(Start(programs), sts);
    RunUsesWork(Start(programs), sts);
    var s := After(Start(programs), sts);
    forall cycle: seq<Tid> | cycle != []
      && (forall j :: 0 <= j < |cycle| - 1 ==> WaitsFor(s, cycle[j], cycle[j + 1]))
      ensures !WaitsFor(s, cycle[|cycle| - 1], cycle[0])
    {
      NoCycle(s, cycle);
    }
    if t :| 0 <= t < |s.tasks| && !Finished(s.tasks[t]) {
      var st := SomeoneCanStep(s, t);
      if Work(s.tasks) == 0 {
        NoWorkMeansFinished(s.tasks, t);
      }
    } else {
      FinishedMeansNoWork(s.tasks);
    }
  }

  // ----- a release of another lock -------------------------------------------------------------

  /** Locked, and in no thread's hands. */
  ghost predicate Lost(s: State, l: Index) {
    l in s.owner && forall t :: 0 <= t < |s.tasks| ==> l !in s.tasks[t].held
  }

  /** The first release of a lock other than the one that was taken loses the one that was taken, and only then is a lock lost. */
  lemma LostExactly(s: State, st: Step)
    requires Inv(s) && Can(s, st)
    ensures (exists l :: Lost(Next(s, st), l)) <==> !GivesBack(st)
    ensures !GivesBack(st) ==> Lost(Next(s, st), st.took)
  {
    if GivesBack(st) {
      InvAfter(s, st);
    } else {
      assert st.took in s.tasks[st.t].held && s.owner[st.took] == st.t;
      forall t | 0 <= t < |s.tasks| ensures st.took !in Next(s, st).tasks[t].held {
        assert st.took in s.tasks[t].held ==> t == st.t;
      }
      assert Lost(Next(s, st), st.took);
    }
  }

  lemma LostAfter(s: State, st: Step, l: Index)
    requires Can(s, st) && Lost(s, l) && GivesBack(st)
    ensures Lost(Next(s, st), l)
  {
    assert l !in s.tasks[st.t].held;
  }

  /** A thread that still has to take the lost lock. */
  predicate NeedsLock(k: Task, l: Index) {
    l in k.want || exists i :: 0 <= i < |k.rest| && l in k.rest[i]
  }

  lemma NeedsAfter(s: State, st: Step, l: Index, t: Tid)
    requires Can(s, st) && Lost(s, l) && t < |s.tasks| && NeedsLock(s.tasks[t], l)
    ensures t < |Next(s, st).tasks| && NeedsLock(Next(s, st).tasks[t], l)
  {
    var (k, k') := (s.tasks[t], Next(s, st).tasks[t]);
    if st.t == t {
      if l in k.want {
        assert st.Take? ==> k.want[0] != l && k.want == [k.want[0]] + k.want[1..];
      } else {
        var i :| 0 <= i < |k.rest| && l in k.rest[i];
        if st.Begin? && i > 0 {
          assert k'.rest[i - 1] == k.rest[i];
        } else if !st.Begin? {
          assert k'.rest[i] == k.rest[i];
        }
      }
    }
  }

  /** A thread that still needs a lost lock never finishes, as long as every later release gives back what was taken. */
  lemma {:induction false} LostBlocksForEver(s: State, sts: seq<Step>, l: Index, t: Tid)
    requires Run(s, sts) && AllGiveBack(sts) && Lost(s, l) && t < |s.tasks| && NeedsLock(s.tasks[t], l)
    ensures t < |After(s, sts).tasks| && !Finished(After(s, sts).tasks[t]) && Lost(After(s, sts), l)
    decreases |sts|
  {
    if sts != [] {
      assert GivesBack(sts[0]);
      LostAfter(s, sts[0], l);
      NeedsAfter(s, sts[0], l, t);
      LostBlocksForEver(Next(s, sts[0]), sts[1..], l, t);
    }
  }

  /** The order is what does it: two threads that take two locks in opposite orders can block each other. */
  lemma OppositeOrdersDeadlock()
    ensures var programs := [[[0, 1]], [[1, 0]]];
            var sts := [Begin(0), Begin(1), Take(0), Take(1)];
            && Run(Start(programs), sts)
            && var s := After(Start(programs), sts);
               !Finished(s.tasks[0]) && WaitsFor(s, 0, 1) && WaitsFor(s, 1, 0) && forall st :: !Can(s, st)
  {
    var programs: seq<seq<seq<Index>>> := [[[0, 1]], [[1, 0]]];
    var s0 := Start(programs);
    var s1 := Next(s0, Begin(0));
    var s2 := Next(s1, Begin(1));
    var s3 := Next(s2, Take(0));
    RunsOn(s3, Take(1), []);
    RunsOn(s2, Take(0), [Take(1)]);
    RunsOn(s1, Begin(1), [Take(0)] + [Take(1)]);
    RunsOn(s0, Begin(0), [Begin(1)] + ([Take(0)] + [Take(1)]));
    assert [Begin(0)] + ([Begin(1)] + ([Take(0)] + [Take(1)])) == [Begin(0), Begin(1), Take(0), Take(1)];
    var s4 := Next(s3, Take(1));
    assert s4.tasks[0] == Task({0}, [1], []) && s4.tasks[1] == Task({1}, [0], []);
    assert s4.owner == map[0 := 0, 1 := 1];
  }

  lemma RunsOn(s: State, st: Step, rest: seq<Step>)
    requires Can(s, st) && Run(Next(s, st), rest)
    ensures Run(s, [st] + rest) && After(s, [st] + rest) == After(Next(s, st), rest)
  {
    assert ([st] + rest)[1..] == rest;
  }
}
