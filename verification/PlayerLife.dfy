/**
 The life of a `Player` object: pool, map of players, reference count and closing flag, under any
 number of threads. Every event is one atomic action of one thread of JoinProc, AcquirePlayer,
 LeaveProc or ReleasePlayer, in the order in which those functions take them.
 */
module PlayerLife {
  import opened Options

  type Pid = nat   // a Player object
  type Sid = nat   // a session handle
  type Tid = nat   // a thread

  /**
   One Player. `left` says that a leave has taken it out of the map since its last Reset; `born`
   counts its trips out of the pool, `returned` those that ended, `refused` those that JoinProc ended.
   */
  datatype Slot = Slot(ref: int, closing: bool, sid: Sid, left: bool, born: nat, returned: nat, refused: nat)

  /** Where a thread stands inside one of the functions. */
  datatype Phase =
    | Idle
    | Raw(sid: Sid, p: Pid)       // taken from the pool, not yet Reset
    | Fresh(sid: Sid, p: Pid)     // Reset, not yet looked up in the map
    | Refused(p: Pid)             // the session was in the map already
    | Found(sid: Sid, p: Pid)     // seen in the map under the shared lock, not yet counted
    | Checking(sid: Sid, p: Pid)  // counted, `closing` not yet tested
    | Leaving(p: Pid)             // erased from the map
    | Dropping(p: Pid)            // about to release this handle
    | Freeing(p: Pid)             // this thread's decrement reached zero

  datatype Worker = Worker(held: multiset<Pid>, phase: Phase)

  /** `repaired` is false for the code as it is; when true, LeaveProc does not call AddRefPlayer. */
  datatype Life = Life(
    repaired: bool,
    slots: map<Pid, Slot>,
    pool: multiset<Pid>,
    players: map<Sid, Pid>,
    readers: set<Tid>,
    writer: Option<Tid>,
    workers: seq<Worker>)

  datatype Event =
    | NewSlot(p: Pid)
    | LockShared(t: Tid)
    | UnlockShared(t: Tid)
    | LockExclusive(t: Tid)
    | UnlockExclusive(t: Tid)
    | JoinAlloc(t: Tid, sid: Sid, p: Pid)
    | JoinReset(t: Tid)
    | JoinInsert(t: Tid)
    | JoinRefuse(t: Tid)
    | JoinFree(t: Tid)
    | AcquireFind(t: Tid, sid: Sid)
    | AcquireCount(t: Tid)
    | AcquireCheck(t: Tid)
    | LeaveErase(t: Tid, sid: Sid)
    | LeaveEnd(t: Tid)
    | ReleaseCount(t: Tid, p: Pid)
    | ReleaseFree(t: Tid)

  // ----- counting ------------------------------------------------------------------------------

  datatype Kind = Handles | Resets | Joins | Returns

  function One(b: bool): nat {
    if b then 1 else 0
  }

  /** How many handles on `p`, pending resets, joins or returns of `p` a thread has. */
  function Weight(w: Worker, k: Kind, p: Pid): nat {
    match k
    case Handles => w.held[p]
    case Resets => One(w.phase.Raw? && w.phase.p == p)
    case Joins => One((w.phase.Fresh? || w.phase.Refused?) && w.phase.p == p)
    case Returns => One(w.phase.Freeing? && w.phase.p == p)
  }

  function Sum(ws: seq<Worker>, k: Kind, p: Pid): nat {
    if ws == [] then 0 else Sum(ws[..|ws| - 1], k, p) + Weight(ws[|ws| - 1], k, p)
  }

  lemma {:induction false} SumUpdate(ws: seq<Worker>, t: Tid, w: Worker, k: Kind, p: Pid)
    requires t < |ws|
    ensures Sum(ws[t := w], k, p) == Sum(ws, k, p) - Weight(ws[t], k, p) + Weight(w, k, p)
  {
    var n := |ws| - 1;
    if t == n {
      assert ws[t := w][..n] == ws[..n];
    } else {
      assert ws[t := w][..n] == ws[..n][t := w];
      SumUpdate(ws[..n], t, w, k, p);
    }
  }

  lemma {:induction false} SumCovers(ws: seq<Worker>, t: Tid, k: Kind, p: Pid)
    requires t < |ws|
    ensures Sum(ws, k, p) >= Weight(ws[t], k, p)
  {
    if t < |ws| - 1 {
      SumCovers(ws[..|ws| - 1], t, k, p);
    }
  }

  predicate Joining(w: Worker) {
    w.phase.Fresh? || w.phase.Refused?
  }

  /** A joining thread has a handle on its player, so the other threads' joins are among their handles. */
  lemma {:induction false} JoinsAreHeld(ws: seq<Worker>, p: Pid)
    requires forall u :: 0 <= u < |ws| && Joining(ws[u]) ==> ws[u].phase.p in ws[u].held
    ensures Sum(ws, Handles, p) >= Sum(ws, Joins, p)
    ensures forall t | 0 <= t < |ws| ::
              Sum(ws, Handles, p) - ws[t].held[p] >= Sum(ws, Joins, p) - Weight(ws[t], Joins, p)
  {
    if ws != [] {
      JoinsAreHeld(ws[..|ws| - 1], p);
      assert Joining(ws[|ws| - 1]) ==> ws[|ws| - 1].phase.p in ws[|ws| - 1].held;
    }
  }

  // ----- the transition system -----------------------------------------------------------------

  ghost predicate InMap(s: Life, p: Pid) {
    exists sid :: sid in s.players && s.players[sid] == p
  }

  predicate HasLeft(s: Life, p: Pid) {
    p in s.slots && s.slots[p].left
  }

  /** What the count counts: the map's entry, the handles, and the map's reference that a leave never gives back. */
  ghost function Refs(s: Life, p: Pid): nat {
    One(InMap(s, p)) + Sum(s.workers, Handles, p) + One(HasLeft(s, p) && !s.repaired)
  }

  predicate In(s: Life, t: Tid) {
    t < |s.workers|
  }

  predicate MayRelease(w: Worker, p: Pid) {
    p in w.held && (w.phase.Idle? || w.phase == Dropping(p))
  }

  predicate Enabled(s: Life, e: Event) {
    match e
    case NewSlot(p) => p !in s.slots
    case LockShared(t) => In(s, t) && s.writer.None? && t !in s.readers
    case UnlockShared(t) => In(s, t) && t in s.readers && !s.workers[t].phase.Found?
    case LockExclusive(t) => In(s, t) && s.writer.None? && s.readers == {}
    case UnlockExclusive(t) => s.writer == Some(t)
    case JoinAlloc(t, sid, p) => In(s, t) && s.workers[t].phase.Idle? && p in s.pool && p in s.slots
    case JoinReset(t) => In(s, t) && s.workers[t].phase.Raw? && s.workers[t].phase.p in s.slots
    case JoinInsert(t) =>
      In(s, t) && s.writer == Some(t) && s.workers[t].phase.Fresh? && s.workers[t].phase.sid !in s.players
      && s.workers[t].phase.p in s.slots
    case JoinRefuse(t) =>
      In(s, t) && s.writer == Some(t) && s.workers[t].phase.Fresh? && s.workers[t].phase.sid in s.players
    case JoinFree(t) =>
      In(s, t) && s.writer != Some(t) && s.workers[t].phase.Refused? && s.workers[t].phase.p in s.slots
    case AcquireFind(t, sid) => In(s, t) && t in s.readers && s.workers[t].phase.Idle? && sid in s.players
    case AcquireCount(t) => In(s, t) && s.workers[t].phase.Found? && s.workers[t].phase.p in s.slots
    case AcquireCheck(t) =>
      In(s, t) && t !in s.readers && s.workers[t].phase.Checking? && s.workers[t].phase.p in s.slots
    case LeaveErase(t, sid) =>
      In(s, t) && s.writer == Some(t) && s.workers[t].phase.Idle? && sid in s.players && s.players[sid] in s.slots
    case LeaveEnd(t) =>
      In(s, t) && s.writer != Some(t) && s.workers[t].phase.Leaving? && s.workers[t].phase.p in s.slots
    case ReleaseCount(t, p) => In(s, t) && MayRelease(s.workers[t], p) && p in s.slots
    case ReleaseFree(t) => In(s, t) && s.workers[t].phase.Freeing? && s.workers[t].phase.p in s.slots
  }

  /** The thread whose state an event may change. */
  function Actor(e: Event): Tid {
    if e.NewSlot? then 0 else e.t
  }

  /** The player whose record, references or place an event changes. */
  function Subject(s: Life, e: Event): Option<Pid>
    requires Enabled(s, e)
  {
    match e
    case NewSlot(p) => Some(p)
    case JoinAlloc(_, _, p) => Some(p)
    case LeaveErase(_, sid) => Some(s.players[sid])
    case ReleaseCount(_, p) => Some(p)
    case JoinReset(t) => Some(s.workers[t].phase.p)
    case JoinInsert(t) => Some(s.workers[t].phase.p)
    case JoinFree(t) => Some(s.workers[t].phase.p)
    case AcquireCount(t) => Some(s.workers[t].phase.p)
    case LeaveEnd(t) => Some(s.workers[t].phase.p)
    case ReleaseFree(t) => Some(s.workers[t].phase.p)
    case _ => None
  }

  /** What the acting thread holds, and where it stands, after the event. */
  function WorkerAfter(s: Life, e: Event): Worker
    requires Enabled(s, e) && In(s, Actor(e))
  {
    var w := s.workers[Actor(e)];
    match e
    case JoinAlloc(t, sid, p) => w.(phase := Raw(sid, p))
    case JoinReset(t) => Worker(w.held + multiset{w.phase.p}, Fresh(w.phase.sid, w.phase.p))
    case JoinInsert(t) => Worker(w.held - multiset{w.phase.p}, Idle)
    case JoinRefuse(t) => w.(phase := Refused(w.phase.p))
    case JoinFree(t) => Worker(w.held - multiset{w.phase.p}, Idle)
    case AcquireFind(t, sid) => w.(phase := Found(sid, s.players[sid]))
    case AcquireCount(t) => Worker(w.held + multiset{w.phase.p}, Checking(w.phase.sid, w.phase.p))
    case AcquireCheck(t) => w.(phase := if s.slots[w.phase.p].closing then Dropping(w.phase.p) else Idle)
    case LeaveErase(t, sid) => Worker(w.held + multiset{s.players[sid]}, Leaving(s.players[sid]))
    case LeaveEnd(t) => w.(phase := Dropping(w.phase.p))
    case ReleaseCount(t, p) => Worker(w.held - multiset{p}, if s.slots[p].ref == 1 then Freeing(p) else Idle)
    case ReleaseFree(t) => w.(phase := Idle)
    case _ => w
  }

  /** The subject's record after the event. */
  function SlotAfter(s: Life, e: Event): Slot
    requires Enabled(s, e) && Subject(s, e).Some?
  {
    if e.NewSlot? then Slot(1, false, 0, false, 0, 0, 0)
    else
      var slot := s.slots[Subject(s, e).value];
      match e
      case JoinAlloc(t, sid, p) => slot.(born := slot.born + 1)
      case JoinReset(t) => slot.(ref := 1, closing := false, sid := s.workers[t].phase.sid, left := false)
      case JoinFree(t) => slot.(returned := slot.returned + 1, refused := slot.refused + 1)
      case AcquireCount(t) => slot.(ref := slot.ref + 1)
      case LeaveErase(t, sid) =>
        slot.(ref := if s.repaired then slot.ref else slot.ref + 1, closing := true, left := true)
      case LeaveEnd(t) => slot.(closing := true)
      case ReleaseCount(t, p) => slot.(ref := slot.ref - 1)
      case ReleaseFree(t) => slot.(returned := slot.returned + 1)
      case _ => slot
  }

  function PoolAfter(s: Life, e: Event): multiset<Pid>
    requires Enabled(s, e)
  {
    match e
    case NewSlot(p) => s.pool + multiset{p}
    case JoinAlloc(t, sid, p) => s.pool - multiset{p}
    case JoinFree(t) => s.pool + multiset{s.workers[t].phase.p}
    case ReleaseFree(t) => s.pool + multiset{s.workers[t].phase.p}
    case _ => s.pool
  }

  function PlayersAfter(s: Life, e: Event): map<Sid, Pid>
    requires Enabled(s, e)
  {
    match e
    case JoinInsert(t) => s.players[s.workers[t].phase.sid := s.workers[t].phase.p]
    case LeaveErase(t, sid) => s.players - {sid}
    case _ => s.players
  }

  function ReadersAfter(s: Life, e: Event): set<Tid> {
    match e
    case LockShared(t) => s.readers + {t}
    case UnlockShared(t) => s.readers - {t}
    case _ => s.readers
  }

  function WriterAfter(s: Life, e: Event): Option<Tid> {
    match e
    case LockExclusive(t) => Some(t)
    case UnlockExclusive(t) => None
    case _ => s.writer
  }

  function Next(s: Life, e: Event): Life
    requires Enabled(s, e)
  {
    Life(
      s.repaired,
      if Subject(s, e).Some? then s.slots[Subject(s, e).value := SlotAfter(s, e)] else s.slots,
      PoolAfter(s, e),
      PlayersAfter(s, e),
      ReadersAfter(s, e),
      WriterAfter(s, e),
      if In(s, Actor(e)) then s.workers[Actor(e) := WorkerAfter(s, e)] else s.workers)
  }

  predicate Run(s: Life, es: seq<Event>)
    decreases |es|
  {
    es == [] || (Enabled(s, es[0]) && Run(Next(s, es[0]), es[1..]))
  }

  function After(s: Life, es: seq<Event>): Life
    requires Run(s, es)
    decreases |es|
  {
    if es == [] then s else After(Next(s, es[0]), es[1..])
  }

  /** `n` threads, nobody connected, an empty pool. */
  function Start(n: nat, repaired: bool): Life {
    Life(repaired, map[], multiset{}, map[], {}, None, seq(n, _ => Worker(multiset{}, Idle)))
  }

  // ----- the invariant -------------------------------------------------------------------------

  /** The player is pooled, being reset, being returned, or referenced; and its trips add up. */
  ghost predicate PlaceOk(s: Life, p: Pid)
    requires p in s.slots
  {
    var slot := s.slots[p];
    && s.pool[p] + Sum(s.workers, Resets, p) + Sum(s.workers, Returns, p) + One(Refs(s, p) > 0) == 1
    && (s.pool[p] == 0 && Sum(s.workers, Resets, p) == 0 ==> slot.ref == Refs(s, p))
    && slot.born == slot.returned + 1 - s.pool[p]
    && (!s.repaired ==> Sum(s.workers, Returns, p) == 0 && slot.returned == slot.refused)
  }

  /** A referenced player is joining, in the map, or has left; joining, it has its one reference. */
  ghost predicate StageOk(s: Life, p: Pid)
    requires p in s.slots
  {
    var slot := s.slots[p];
    var joins := Sum(s.workers, Joins, p);
    && joins <= Sum(s.workers, Handles, p)
    && (joins > 0 ==> Sum(s.workers, Handles, p) == 1)
    && (Refs(s, p) > 0 ==> joins + One(InMap(s, p)) + One(slot.left) == 1 && (slot.closing <==> slot.left))
  }

  /** A player that does not exist yet is nowhere. */
  ghost predicate Absent(s: Life, p: Pid) {
    && s.pool[p] == 0 && Refs(s, p) == 0
    && Sum(s.workers, Resets, p) == Sum(s.workers, Returns, p) == Sum(s.workers, Joins, p) == 0
  }

  ghost predicate Balanced(s: Life, p: Pid) {
    if p in s.slots then PlaceOk(s, p) && StageOk(s, p) else Absent(s, p)
  }

  ghost predicate Counts(s: Life) {
    forall p :: Balanced(s, p)
  }

  predicate Entry(s: Life, sid: Sid) {
    sid in s.players ==> s.players[sid] in s.slots && s.slots[s.players[sid]].sid == sid
  }

  ghost predicate Map(s: Life) {
    (forall sid :: Entry(s, sid)) && (s.writer.Some? ==> s.readers == {})
  }

  predicate PhaseOk(s: Life, t: Tid)
    requires In(s, t)
  {
    var w := s.workers[t];
    match w.phase
    case Idle => true
    case Raw(_, _) => true
    case Fresh(sid, p) => p in w.held && p in s.slots && s.slots[p].sid == sid
    case Refused(p) => p in w.held
    case Found(sid, p) => t in s.readers && sid in s.players && s.players[sid] == p
    case Checking(sid, p) => p in w.held && p in s.slots && s.slots[p].sid == sid
    case Leaving(p) => p in w.held && HasLeft(s, p)
    case Dropping(p) => p in w.held
    case Freeing(_) => true
  }

  ghost predicate Phases(s: Life) {
    forall t :: In(s, t) ==> PhaseOk(s, t)
  }

  ghost predicate Inv(s: Life) {
    Counts(s) && Map(s) && Phases(s)
  }

  lemma JoinsHeld(s: Life, p: Pid)
    requires Phases(s)
    ensures Sum(s.workers, Handles, p) >= Sum(s.workers, Joins, p)
    ensures forall t | 0 <= t < |s.workers| :: Sum(s.workers, Handles, p) - s.workers[t].held[p]
                                                >= Sum(s.workers, Joins, p) - Weight(s.workers[t], Joins, p)
  {
    forall u | 0 <= u < |s.workers| && Joining(s.workers[u]) ensures s.workers[u].phase.p in s.workers[u].held {
      assert In(s, u) && PhaseOk(s, u);
    }
    JoinsAreHeld(s.workers, p);
  }

  // ----- every event keeps the invariant -------------------------------------------------------

  /** The map changes only when a join inserts and when a leave erases. */
  ghost predicate MappedAfter(s: Life, e: Event, p: Pid)
    requires Enabled(s, e)
  {
    InMap(Next(s, e), p) <==>
      if e.JoinInsert? && p == s.workers[e.t].phase.p then true
      else if e.LeaveErase? && p == s.players[e.sid] then false
      else InMap(s, p)
  }

  lemma MapAfter(s: Life, e: Event, p: Pid)
    requires Enabled(s, e) && Map(s)
    ensures MappedAfter(s, e, p)
  {
    var s' := Next(s, e);
    if e.JoinInsert? && p == s.workers[e.t].phase.p {
      assert s'.players[s.workers[e.t].phase.sid] == p;
    } else if InMap(s, p) && !(e.LeaveErase? && p == s.players[e.sid]) {
      var b :| b in s.players && s.players[b] == p;
      assert s'.players[b] == p;
    } else if e.LeaveErase? {
      forall b | b in s'.players ensures s'.players[b] != s.players[e.sid] {
        assert Entry(s, b) && Entry(s, e.sid);
      }
    }
  }

  /** What an event does to `p`'s sums: only the acting thread's own weights change. */
  ghost predicate Tallied(s: Life, e: Event, p: Pid, k: Kind)
    requires Enabled(s, e)
  {
    var s' := Next(s, e);
    var t := Actor(e);
    && |s'.workers| == |s.workers|
    && (In(s, t) ==>
          && Sum(s.workers, k, p) >= Weight(s.workers[t], k, p)
          && Sum(s'.workers, k, p) == Sum(s.workers, k, p) - Weight(s.workers[t], k, p) + Weight(s'.workers[t], k, p))
    && (!In(s, t) ==> s'.workers == s.workers)
  }

  lemma Tally(s: Life, e: Event, p: Pid, k: Kind)
    requires Enabled(s, e)
    ensures Tallied(s, e, p, k)
  {
    var s' := Next(s, e);
    var t := Actor(e);
    if In(s, t) {
      assert s'.workers == s.workers[t := s'.workers[t]];
      SumUpdate(s.workers, t, s'.workers[t], k, p);
      SumCovers(s.workers, t, k, p);
    }
  }

  /** Everything the account of player `p` depends on, before and after an event. */
  ghost predicate Accounted(s: Life, e: Event, p: Pid)
    requires Enabled(s, e)
  {
    && Balanced(s, p)
    && Tallied(s, e, p, Handles) && Tallied(s, e, p, Resets) && Tallied(s, e, p, Joins) && Tallied(s, e, p, Returns)
    && MappedAfter(s, e, p)
    && (In(s, Actor(e)) ==> PhaseOk(s, Actor(e)))
    && (In(s, Actor(e)) ==> Sum(s.workers, Handles, p) - s.workers[Actor(e)].held[p]
                            >= Sum(s.workers, Joins, p) - Weight(s.workers[Actor(e)], Joins, p))
  }

  lemma Account(s: Life, e: Event, p: Pid)
    requires Enabled(s, e) && Inv(s)
    ensures Accounted(s, e, p)
  {
    Tally(s, e, p, Handles);
    Tally(s, e, p, Resets);
    Tally(s, e, p, Joins);
    Tally(s, e, p, Returns);
    MapAfter(s, e, p);
    JoinsHeld(s, p);
  }

  /** How many handles on `p`, pending resets, joins and returns of it an event adds. */
  function Change(s: Life, e: Event, k: Kind, p: Pid): int
    requires Enabled(s, e)
  {
    if Subject(s, e) != Some(p) then 0
    else
      match k
      case Handles =>
        if e.JoinReset? || e.AcquireCount? || e.LeaveErase? then 1
        else if e.JoinInsert? || e.JoinFree? || e.ReleaseCount? then -1 else 0
      case Resets => if e.JoinAlloc? then 1 else if e.JoinReset? then -1 else 0
      case Joins => if e.JoinReset? then 1 else if e.JoinInsert? || e.JoinFree? then -1 else 0
      case Returns =>
        if e.ReleaseCount? && s.slots[p].ref == 1 then 1 else if e.ReleaseFree? then -1 else 0
  }

  lemma HandlesMove(s: Life, e: Event, p: Pid)
    requires Enabled(s, e) && In(s, Actor(e)) && PhaseOk(s, Actor(e))
    ensures Weight(WorkerAfter(s, e), Handles, p) == Weight(s.workers[Actor(e)], Handles, p) + Change(s, e, Handles, p)
  {
    if Change(s, e, Handles, p) > 0 {
    } else if Change(s, e, Handles, p) < 0 {
    } else {
    }
  }

  lemma ResetsMove(s: Life, e: Event, p: Pid)
    requires Enabled(s, e) && In(s, Actor(e)) && PhaseOk(s, Actor(e))
    ensures Weight(WorkerAfter(s, e), Resets, p) == Weight(s.workers[Actor(e)], Resets, p) + Change(s, e, Resets, p)
  {
  }

  lemma JoinsMove(s: Life, e: Event, p: Pid)
    requires Enabled(s, e) && In(s, Actor(e)) && PhaseOk(s, Actor(e))
    ensures Weight(WorkerAfter(s, e), Joins, p) == Weight(s.workers[Actor(e)], Joins, p) + Change(s, e, Joins, p)
  {
  }

  lemma ReturnsMove(s: Life, e: Event, p: Pid)
    requires Enabled(s, e) && In(s, Actor(e)) && PhaseOk(s, Actor(e))
    ensures Weight(WorkerAfter(s, e), Returns, p) == Weight(s.workers[Actor(e)], Returns, p) + Change(s, e, Returns, p)
  {
  }

  /** The sums of any player change by that much. */
  lemma SumMoves(s: Life, e: Event, k: Kind, p: Pid)
    requires Enabled(s, e) && (In(s, Actor(e)) ==> PhaseOk(s, Actor(e))) && Tallied(s, e, p, k)
    ensures Sum(Next(s, e).workers, k, p) == Sum(s.workers, k, p) + (if In(s, Actor(e)) then Change(s, e, k, p) else 0)
  {
    if In(s, Actor(e)) {
      match k
      case Handles => HandlesMove(s, e, p);
      case Resets => ResetsMove(s, e, p);
      case Joins => JoinsMove(s, e, p);
      case Returns => ReturnsMove(s, e, p);
    }
  }

  lemma SumsMove(s: Life, e: Event, p: Pid)
    requires Enabled(s, e) && Accounted(s, e, p)
    ensures forall k :: Sum(Next(s, e).workers, k, p)
                        == Sum(s.workers, k, p) + (if In(s, Actor(e)) then Change(s, e, k, p) else 0)
  {
    forall k ensures Sum(Next(s, e).workers, k, p)
                     == Sum(s.workers, k, p) + (if In(s, Actor(e)) then Change(s, e, k, p) else 0)
    {
      assert k == Handles || k == Resets || k == Joins || k == Returns;
      SumMoves(s, e, k, p);
    }
  }

  lemma OtherRecord(s: Life, e: Event, p: Pid)
    requires Enabled(s, e) && Subject(s, e) != Some(p)
    ensures var s' := Next(s, e);
            && s'.repaired == s.repaired && s'.pool[p] == s.pool[p]
            && (p in s'.slots <==> p in s.slots) && (p in s.slots ==> s'.slots[p] == s.slots[p])
  {
  }

  lemma BalanceOther(s: Life, e: Event, p: Pid)
    requires Enabled(s, e) && Accounted(s, e, p) && Subject(s, e) != Some(p)
    ensures Balanced(Next(s, e), p)
  {
    OtherRecord(s, e, p);
    SumsMove(s, e, p);
    assert Refs(Next(s, e), p) == Refs(s, p);
  }

  lemma BalanceNewSlot(s: Life, e: Event, p: Pid)
    requires Enabled(s, e) && e.NewSlot? && Accounted(s, e, p) && Subject(s, e) == Some(p)
    ensures Balanced(Next(s, e), p)
  {
  }

  lemma BalanceAlloc(s: Life, e: Event, p: Pid)
    requires Enabled(s, e) && e.JoinAlloc? && Accounted(s, e, p) && Subject(s, e) == Some(p)
    ensures Balanced(Next(s, e), p)
  {
    SumsMove(s, e, p);
  }

  lemma BalanceReset(s: Life, e: Event, p: Pid)
    requires Enabled(s, e) && e.JoinReset? && Accounted(s, e, p) && Subject(s, e) == Some(p)
    ensures Balanced(Next(s, e), p)
  {
    SumsMove(s, e, p);
  }

  lemma BalanceInsert(s: Life, e: Event, p: Pid)
    requires Enabled(s, e) && e.JoinInsert? && Accounted(s, e, p) && Subject(s, e) == Some(p)
    ensures Balanced(Next(s, e), p)
  {
    SumsMove(s, e, p);
  }

  lemma BalanceJoinFree(s: Life, e: Event, p: Pid)
    requires Enabled(s, e) && e.JoinFree? && Accounted(s, e, p) && Subject(s, e) == Some(p)
    ensures Balanced(Next(s, e), p)
  {
    SumsMove(s, e, p);
  }

  lemma BalanceAcquire(s: Life, e: Event, p: Pid)
    requires Enabled(s, e) && e.AcquireCount? && Accounted(s, e, p) && Subject(s, e) == Some(p)
    ensures Balanced(Next(s, e), p)
  {
    assert InMap(s, p);
    SumsMove(s, e, p);
  }

  lemma BalanceLeave(s: Life, e: Event, p: Pid)
    requires Enabled(s, e) && e.LeaveErase? && Accounted(s, e, p) && Subject(s, e) == Some(p)
    ensures Balanced(Next(s, e), p)
  {
    assert InMap(s, p);
    SumsMove(s, e, p);
  }

  lemma BalanceLeaveEnd(s: Life, e: Event, p: Pid)
    requires Enabled(s, e) && e.LeaveEnd? && Accounted(s, e, p) && Subject(s, e) == Some(p)
    ensures Balanced(Next(s, e), p)
  {
    SumsMove(s, e, p);
  }

  lemma BalanceRelease(s: Life, e: Event, p: Pid)
    requires Enabled(s, e) && e.ReleaseCount? && Accounted(s, e, p) && Subject(s, e) == Some(p)
    ensures Balanced(Next(s, e), p)
  {
    SumsMove(s, e, p);
  }

  lemma BalanceFree(s: Life, e: Event, p: Pid)
    requires Enabled(s, e) && e.ReleaseFree? && Accounted(s, e, p) && Subject(s, e) == Some(p)
    ensures Balanced(Next(s, e), p)
  {
    SumsMove(s, e, p);
  }

  lemma BalanceAfter(s: Life, e: Event, p: Pid)
    requires Enabled(s, e) && Accounted(s, e, p)
    ensures Balanced(Next(s, e), p)
  {
    if Subject(s, e) != Some(p) {
      BalanceOther(s, e, p);
    } else {
      match e {
        case NewSlot(_) => BalanceNewSlot(s, e, p);
        case JoinAlloc(_, _, _) => BalanceAlloc(s, e, p);
        case JoinReset(_) => BalanceReset(s, e, p);
        case JoinInsert(_) => BalanceInsert(s, e, p);
        case JoinFree(_) => BalanceJoinFree(s, e, p);
        case AcquireCount(_) => BalanceAcquire(s, e, p);
        case LeaveErase(_, _) => BalanceLeave(s, e, p);
        case LeaveEnd(_) => BalanceLeaveEnd(s, e, p);
        case ReleaseCount(_, _) => BalanceRelease(s, e, p);
        case ReleaseFree(_) => BalanceFree(s, e, p);
      }
    }
  }

  lemma CountsAfter(s: Life, e: Event)
    requires Enabled(s, e) && Inv(s)
    ensures Counts(Next(s, e))
  {
    forall p ensures Balanced(Next(s, e), p) {
      Account(s, e, p);
      BalanceAfter(s, e, p);
    }
  }

  /** A player being reset is in nobody's hands and not in the map. */
  lemma RawIsAlone(s: Life, t: Tid)
    requires Counts(s) && In(s, t) && s.workers[t].phase.Raw?
    ensures var p := s.workers[t].phase.p;
            !InMap(s, p) && forall u | 0 <= u < |s.workers| :: p !in s.workers[u].held
  {
    var p := s.workers[t].phase.p;
    SumCovers(s.workers, t, Resets, p);
    assert Balanced(s, p);
    forall u | 0 <= u < |s.workers| ensures p !in s.workers[u].held {
      SumCovers(s.workers, u, Handles, p);
    }
  }

  /** A record is never dropped, and only Reset changes its session or forgets that it has left. */
  lemma RecordKept(s: Life, e: Event, p: Pid)
    requires Enabled(s, e) && p in s.slots && !(e.JoinReset? && s.workers[e.t].phase.p == p)
    ensures p in Next(s, e).slots && Next(s, e).slots[p].sid == s.slots[p].sid
    ensures s.slots[p].left ==> Next(s, e).slots[p].left
  {
  }

  lemma EntryAfter(s: Life, e: Event, sid: Sid)
    requires Enabled(s, e) && Entry(s, sid) && (In(s, Actor(e)) ==> PhaseOk(s, Actor(e)))
    requires e.JoinReset? && sid in s.players ==> s.workers[e.t].phase.p != s.players[sid]
    ensures Entry(Next(s, e), sid)
  {
    if sid in s.players {
      RecordKept(s, e, s.players[sid]);
    }
  }

  lemma EntriesAfter(s: Life, e: Event)
    requires Enabled(s, e) && Inv(s)
    ensures forall sid :: Entry(Next(s, e), sid)
  {
    if e.JoinReset? {
      RawIsAlone(s, e.t);
    }
    forall sid ensures Entry(Next(s, e), sid) {
      assert Entry(s, sid);
      assert sid in s.players ==> InMap(s, s.players[sid]);
      EntryAfter(s, e, sid);
    }
  }

  lemma LocksAfter(s: Life, e: Event)
    requires Enabled(s, e) && Map(s)
    ensures Next(s, e).writer.Some? ==> Next(s, e).readers == {}
  {
  }

  lemma ActorPhaseAfter(s: Life, e: Event)
    requires Enabled(s, e) && In(s, Actor(e)) && PhaseOk(s, Actor(e)) && Map(s)
    ensures In(Next(s, e), Actor(e)) && PhaseOk(Next(s, e), Actor(e))
  {
    if e.AcquireCount? {
      assert Entry(s, s.workers[e.t].phase.sid);
    }
  }

  lemma OthersKept(s: Life, e: Event, u: Tid)
    requires Enabled(s, e) && In(s, u) && u != Actor(e)
    ensures In(Next(s, e), u) && Next(s, e).workers[u] == s.workers[u]
    ensures u in Next(s, e).readers <==> u in s.readers
  {
  }

  /** The shared lock keeps the map as it is. */
  lemma EntryKept(s: Life, e: Event, u: Tid, sid: Sid)
    requires Enabled(s, e) && (s.writer.Some? ==> s.readers == {}) && u in s.readers && sid in s.players
    ensures sid in Next(s, e).players && Next(s, e).players[sid] == s.players[sid]
  {
  }

  lemma OtherPhaseAfter(s: Life, e: Event, u: Tid)
    requires Enabled(s, e) && In(s, u) && u != Actor(e) && PhaseOk(s, u) && (s.writer.Some? ==> s.readers == {})
    requires e.JoinReset? ==> s.workers[e.t].phase.p !in s.workers[u].held
    ensures In(Next(s, e), u) && PhaseOk(Next(s, e), u)
  {
    OthersKept(s, e, u);
    match s.workers[u].phase {
      case Found(sid, _) => EntryKept(s, e, u, sid);
      case Fresh(_, p) => RecordKept(s, e, p);
      case Checking(_, p) => RecordKept(s, e, p);
      case Leaving(p) => RecordKept(s, e, p);
      case _ =>
    }
  }

  lemma PhasesAfter(s: Life, e: Event)
    requires Enabled(s, e) && Inv(s)
    ensures Phases(Next(s, e))
  {
    var s' := Next(s, e);
    forall u | In(s', u) ensures PhaseOk(s', u) {
      if u == Actor(e) {
        ActorPhaseAfter(s, e);
      } else {
        if e.JoinReset? {
          RawIsAlone(s, e.t);
        }
        OtherPhaseAfter(s, e, u);
      }
    }
  }

  /** Every atomic action of every thread keeps the whole account. */
  lemma InvAfter(s: Life, e: Event)
    requires Enabled(s, e) && Inv(s)
    ensures Inv(Next(s, e))
  {
    CountsAfter(s, e);
    EntriesAfter(s, e);
    LocksAfter(s, e);
    PhasesAfter(s, e);
  }

  lemma {:induction false} SumZero(n: nat, repaired: bool, k: Kind, p: Pid)
    ensures Sum(Start(n, repaired).workers, k, p) == 0
  {
    if n > 0 {
      assert Start(n, repaired).workers[..n - 1] == Start(n - 1, repaired).workers;
      SumZero(n - 1, repaired, k, p);
    }
  }

  lemma InvStart(n: nat, repaired: bool)
    ensures Inv(Start(n, repaired))
  {
    forall p ensures Balanced(Start(n, repaired), p) {
      SumZero(n, repaired, Handles, p);
      SumZero(n, repaired, Resets, p);
      SumZero(n, repaired, Joins, p);
      SumZero(n, repaired, Returns, p);
    }
  }

  lemma {:induction false} InvRun(s: Life, es: seq<Event>)
    requires Inv(s) && Run(s, es)
    ensures Inv(After(s, es)) && After(s, es).repaired == s.repaired
    decreases |es|
  {
    if es != [] {
      InvAfter(s, es[0]);
      InvRun(Next(s, es[0]), es[1..]);
    }
  }

  // ----- the account, over every run -----------------------------------------------------------

  /** `p` can be reached: from the map, from a handle, or by a thread inside one of the functions. */
  ghost predicate Reachable(s: Life, p: Pid) {
    || InMap(s, p)
    || (exists t: Tid :: In(s, t) && (p in s.workers[t].held || (!s.workers[t].phase.Idle? && s.workers[t].phase.p == p)))
  }

  lemma ReachableIsOut(s: Life, p: Pid)
    requires Inv(s) && Reachable(s, p)
    ensures p in s.slots && s.pool[p] == 0
  {
    assert Balanced(s, p);
    if !InMap(s, p) {
      var t: Tid :| In(s, t) && (p in s.workers[t].held || (!s.workers[t].phase.Idle? && s.workers[t].phase.p == p));
      assert PhaseOk(s, t);
      SumCovers(s.workers, t, Handles, p);
      SumCovers(s.workers, t, Resets, p);
      SumCovers(s.workers, t, Returns, p);
    }
  }

  /**
   The count of every player, in every interleaving of any number of threads: its map entry, plus the
   handles held, plus one for ever once LeaveProc has taken it out of the map. What can be reached is
   out of the pool.
   */
  lemma CountOfEveryPlayer(n: nat, es: seq<Event>, p: Pid)
    requires Run(Start(n, false), es) && p in After(Start(n, false), es).slots
    ensures var s := After(Start(n, false), es);
            && s.pool[p] <= 1
            && (Reachable(s, p) ==> s.pool[p] == 0)
            && (s.pool[p] == 0 && Sum(s.workers, Resets, p) == 0 ==>
                  s.slots[p].ref == One(InMap(s, p)) + Sum(s.workers, Handles, p) + One(s.slots[p].left))
  {
    InvStart(n, false);
    InvRun(Start(n, false), es);
    var s := After(Start(n, false), es);
    assert Balanced(s, p);
    if Reachable(s, p) {
      ReachableIsOut(s, p);
    }
  }

  /** ReleasePlayer's test is never true: whoever releases a handle leaves at least one reference behind. */
  lemma ReleaseNeverReachesZero(n: nat, es: seq<Event>, t: Tid, p: Pid)
    requires Run(Start(n, false), es) && Enabled(After(Start(n, false), es), ReleaseCount(t, p))
    ensures var s := After(Start(n, false), es);
            && s.slots[p].ref >= 2
            && !Next(s, ReleaseCount(t, p)).workers[t].phase.Freeing?
  {
    InvStart(n, false);
    InvRun(Start(n, false), es);
    var s := After(Start(n, false), es);
    Account(s, ReleaseCount(t, p), p);
    assert PhaseOk(s, t);
  }

  /** So a player is back in the pool exactly when JoinProc refused the session of each of its trips. */
  lemma PooledExactlyWhenRefused(n: nat, es: seq<Event>, p: Pid)
    requires Run(Start(n, false), es) && p in After(Start(n, false), es).slots
    ensures var s := After(Start(n, false), es);
            && (p in s.pool <==> s.slots[p].born == s.slots[p].refused)
            && s.slots[p].refused <= s.slots[p].born <= s.slots[p].refused + 1
  {
    InvStart(n, false);
    InvRun(Start(n, false), es);
    assert Balanced(After(Start(n, false), es), p);
  }

  /** In the map, or taken out of it by a leave. */
  ghost predicate Joined(s: Life, p: Pid) {
    InMap(s, p) || HasLeft(s, p)
  }

  /** Only a leave marks a player as left. */
  lemma LeftAfter(s: Life, e: Event, p: Pid)
    requires Enabled(s, e) && !(e.JoinReset? && s.workers[e.t].phase.p == p)
    ensures HasLeft(Next(s, e), p) <==> HasLeft(s, p) || (e.LeaveErase? && s.players[e.sid] == p)
  {
  }

  /** A joined player is not being reset. */
  lemma JoinedIsOut(s: Life, p: Pid)
    requires Inv(s) && !s.repaired && Joined(s, p)
    ensures p in s.slots && s.pool[p] == 0 && Sum(s.workers, Resets, p) == 0 && s.slots[p].ref == Refs(s, p) > 0
    ensures InMap(s, p) <==> !s.slots[p].left
  {
    assert Balanced(s, p);
  }

  lemma NotReset(s: Life, e: Event, p: Pid)
    requires Enabled(s, e) && Sum(s.workers, Resets, p) == 0
    ensures !(e.JoinReset? && s.workers[e.t].phase.p == p)
  {
    if e.JoinReset? {
      SumCovers(s.workers, e.t, Resets, p);
    }
  }

  lemma JoinedKept(s: Life, e: Event, p: Pid)
    requires Inv(s) && !s.repaired && Joined(s, p) && Enabled(s, e)
    ensures p in s.slots && p in Next(s, e).slots
    ensures Joined(Next(s, e), p) && Next(s, e).slots[p].sid == s.slots[p].sid
    ensures HasLeft(s, p) ==> HasLeft(Next(s, e), p)
  {
    JoinedIsOut(s, p);
    NotReset(s, e, p);
    MapAfter(s, e, p);
    LeftAfter(s, e, p);
    RecordKept(s, e, p);
  }

  /**
   A player that has been in the map never sees the pool again and keeps its session for ever, so a
   pointer to it that is kept without a reference still points to the player of the same session.
   */
  lemma {:induction false} OnceJoinedForGood(s: Life, es: seq<Event>, p: Pid)
    requires Inv(s) && !s.repaired && Joined(s, p) && Run(s, es)
    ensures var s' := After(s, es);
            && p in s.slots && p in s'.slots && Joined(s', p)
            && s'.pool[p] == 0 && s'.slots[p].sid == s.slots[p].sid && s'.slots[p].ref > 0
            && (HasLeft(s, p) ==> HasLeft(s', p) && !InMap(s', p))
    decreases |es|
  {
    assert Balanced(s, p);
    if es != [] {
      JoinedKept(s, es[0], p);
      InvAfter(s, es[0]);
      OnceJoinedForGood(Next(s, es[0]), es[1..], p);
    } else {
      JoinedIsOut(s, p);
    }
  }

  // ----- the leak ------------------------------------------------------------------------------

  function Inserts(es: seq<Event>): nat {
    if es == [] then 0 else One(es[0].JoinInsert?) + Inserts(es[1..])
  }

  /** The players that have been in the map. */
  ghost function EverJoined(s: Life): set<Pid> {
    set p | p in s.slots && Joined(s, p)
  }

  /** What a thread is about to insert has not joined yet. */
  lemma FreshNotJoined(s: Life, t: Tid)
    requires Inv(s) && In(s, t) && s.workers[t].phase.Fresh?
    ensures s.workers[t].phase.p in s.slots && !Joined(s, s.workers[t].phase.p)
  {
    var p := s.workers[t].phase.p;
    assert PhaseOk(s, t) && Balanced(s, p);
    SumCovers(s.workers, t, Handles, p);
    SumCovers(s.workers, t, Joins, p);
  }

  lemma JoinedStep(s: Life, e: Event, p: Pid)
    requires Inv(s) && !s.repaired && Enabled(s, e)
    ensures p in EverJoined(Next(s, e)) <==>
              p in EverJoined(s) || (e.JoinInsert? && p == s.workers[e.t].phase.p)
  {
    MapAfter(s, e, p);
    if Joined(s, p) {
      JoinedKept(s, e, p);
    } else if e.JoinReset? && s.workers[e.t].phase.p == p {
      assert !HasLeft(Next(s, e), p);
    } else {
      LeftAfter(s, e, p);
      if e.JoinInsert? {
        FreshNotJoined(s, e.t);
        RecordKept(s, e, s.workers[e.t].phase.p);
      } else if e.LeaveErase? {
        assert InMap(s, s.players[e.sid]);
      }
    }
  }

  lemma JoinedBy(s: Life, e: Event)
    requires Inv(s) && !s.repaired && Enabled(s, e)
    ensures |EverJoined(Next(s, e))| == |EverJoined(s)| + One(e.JoinInsert?)
  {
    forall p ensures p in EverJoined(Next(s, e)) <==>
                       p in EverJoined(s) || (e.JoinInsert? && p == s.workers[e.t].phase.p)
    {
      JoinedStep(s, e, p);
    }
    if e.JoinInsert? {
      FreshNotJoined(s, e.t);
      assert EverJoined(Next(s, e)) == EverJoined(s) + {s.workers[e.t].phase.p};
    } else {
      assert EverJoined(Next(s, e)) == EverJoined(s);
    }
  }

  lemma {:induction false} JoinedSince(s: Life, es: seq<Event>)
    requires Inv(s) && !s.repaired && Run(s, es)
    ensures |EverJoined(After(s, es))| == |EverJoined(s)| + Inserts(es)
    decreases |es|
  {
    if es != [] {
      InvAfter(s, es[0]);
      JoinedBy(s, es[0]);
      JoinedSince(Next(s, es[0]), es[1..]);
    }
  }

  /** The leak: after any run there are as many players that never return as sessions ever joined. */
  lemma OnePlayerPerJoinForEver(n: nat, es: seq<Event>)
    requires Run(Start(n, false), es)
    ensures var s := After(Start(n, false), es);
            && |EverJoined(s)| == Inserts(es)
            && (forall p :: p in EverJoined(s) ==> s.pool[p] == 0 && s.slots[p].ref > 0)
  {
    InvStart(n, false);
    InvRun(Start(n, false), es);
    JoinedSince(Start(n, false), es);
    assert EverJoined(Start(n, false)) == {};
    var s := After(Start(n, false), es);
    forall p | p in EverJoined(s) ensures s.pool[p] == 0 && s.slots[p].ref > 0 {
      JoinedIsOut(s, p);
    }
  }

  // ----- AcquirePlayer -------------------------------------------------------------------------

  /**
   What AcquirePlayer returns is decided by the test of `closing` after the unlock: the player, if the
   session is still in the map at that moment, else null; either way the player is the session's own.
   */
  lemma AcquireReturns(n: nat, repaired: bool, es: seq<Event>, t: Tid)
    requires Run(Start(n, repaired), es) && Enabled(After(Start(n, repaired), es), AcquireCheck(t))
    ensures var s := After(Start(n, repaired), es);
            var (sid, p) := (s.workers[t].phase.sid, s.workers[t].phase.p);
            && s.slots[p].sid == sid && s.pool[p] == 0
            && (if sid in s.players && s.players[sid] == p
                then Next(s, AcquireCheck(t)).workers[t].phase.Idle?
                else Next(s, AcquireCheck(t)).workers[t].phase == Dropping(p))
  {
    InvStart(n, repaired);
    InvRun(Start(n, repaired), es);
    var s := After(Start(n, repaired), es);
    var (sid, p) := (s.workers[t].phase.sid, s.workers[t].phase.p);
    assert PhaseOk(s, t) && Balanced(s, p);
    SumCovers(s.workers, t, Handles, p);
    JoinsHeld(s, p);
    if InMap(s, p) {
      var b :| b in s.players && s.players[b] == p;
      assert Entry(s, b);
    }
  }

  /**
   As long as a thread keeps what AcquirePlayer counted, the player's session stays the one it was
   acquired for: CompleteLogin's branch for a different session is never taken.
   */
  lemma AcquiredKeepsSession(s: Life, t: Tid, es: seq<Event>)
    requires Inv(s) && !s.repaired && In(s, t) && s.workers[t].phase.Checking? && Run(s, es)
    ensures var (sid, p) := (s.workers[t].phase.sid, s.workers[t].phase.p);
            p in After(s, es).slots && After(s, es).slots[p].sid == sid
  {
    var p := s.workers[t].phase.p;
    assert PhaseOk(s, t) && Balanced(s, p);
    SumCovers(s.workers, t, Handles, p);
    JoinsHeld(s, p);
    OnceJoinedForGood(s, es, p);
  }

  // ----- leaving -------------------------------------------------------------------------------

  /** Out of the map, closing, and not on its way back. */
  ghost predicate Gone(s: Life, p: Pid) {
    HasLeft(s, p) && s.slots[p].closing && !InMap(s, p) && Sum(s.workers, Resets, p) == 0
  }

  lemma GoneAfter(s: Life, e: Event, p: Pid)
    requires Inv(s) && Gone(s, p) && Enabled(s, e) && !(e.JoinAlloc? && e.p == p)
    ensures Gone(Next(s, e), p)
  {
    Account(s, e, p);
    if Subject(s, e) != Some(p) {
      OtherRecord(s, e, p);
      SumsMove(s, e, p);
    } else {
      SubjectStaysGone(s, e, p);
    }
  }

  lemma SubjectStaysGone(s: Life, e: Event, p: Pid)
    requires Gone(s, p) && Enabled(s, e) && Subject(s, e) == Some(p) && Accounted(s, e, p) && !e.JoinAlloc?
    ensures Gone(Next(s, e), p)
  {
    assert e.LeaveErase? || (e.AcquireCount? && s.workers[e.t].phase.Found?) ==> InMap(s, p);
  }

  /** The leave itself closes the player and takes it out of the map. */
  lemma LeaveCloses(s: Life, t: Tid, sid: Sid)
    requires Inv(s) && Enabled(s, LeaveErase(t, sid))
    ensures Gone(Next(s, LeaveErase(t, sid)), s.players[sid])
  {
    var p := s.players[sid];
    assert InMap(s, p);
    Account(s, LeaveErase(t, sid), p);
  }

  /**
   Until the pool hands it out again, a player that has left stays out of the map and closing: no
   thread finds it there, and a thread that counted it before the leave returns null when it comes to
   the test.
   */
  lemma {:induction false} LeftForGood(s: Life, es: seq<Event>, p: Pid)
    requires Inv(s) && Run(s, es) && Gone(s, p)
    requires forall i :: 0 <= i < |es| ==> !(es[i].JoinAlloc? && es[i].p == p)
    ensures var s' := After(s, es);
            && Gone(s', p)
            && (forall t: Tid, sid :: Enabled(s', AcquireFind(t, sid)) ==> s'.players[sid] != p)
            && (forall t: Tid :: Enabled(s', AcquireCheck(t)) && s'.workers[t].phase.p == p
                  ==> Next(s', AcquireCheck(t)).workers[t].phase == Dropping(p))
    decreases |es|
  {
    if es != [] {
      InvAfter(s, es[0]);
      GoneAfter(s, es[0], p);
      LeftForGood(Next(s, es[0]), es[1..], p);
    }
  }

  // ----- the repaired protocol -----------------------------------------------------------------

  /**
   With LeaveProc repaired, not calling AddRefPlayer, the count is map entry plus handles, and a
   player that nothing refers to and no thread resets or returns is back in the pool.
   */
  lemma RepairedCount(n: nat, es: seq<Event>, p: Pid)
    requires Run(Start(n, true), es) && p in After(Start(n, true), es).slots
    ensures var s := After(Start(n, true), es);
            && (s.pool[p] == 0 && Sum(s.workers, Resets, p) == 0 ==>
                  s.slots[p].ref == One(InMap(s, p)) + Sum(s.workers, Handles, p))
            && (!Reachable(s, p) && Sum(s.workers, Resets, p) + Sum(s.workers, Returns, p) == 0 ==> s.pool[p] == 1)
            && s.slots[p].born == s.slots[p].returned + 1 - s.pool[p]
  {
    InvStart(n, true);
    InvRun(Start(n, true), es);
    var s := After(Start(n, true), es);
    assert Balanced(s, p);
    if !Reachable(s, p) {
      NobodyHolds(s.workers, p);
    }
  }

  lemma {:induction false} NobodyHolds(ws: seq<Worker>, p: Pid)
    requires forall t :: 0 <= t < |ws| ==> p !in ws[t].held
    ensures Sum(ws, Handles, p) == 0
  {
    if ws != [] {
      NobodyHolds(ws[..|ws| - 1], p);
      assert p !in ws[|ws| - 1].held;
    }
  }

  /** And it goes back when nothing else refers to it, by one thread only. */
  lemma RepairedReturn(n: nat, es: seq<Event>, t: Tid, p: Pid)
    requires Run(Start(n, true), es)
    requires var s := After(Start(n, true), es); Enabled(s, ReleaseFree(t)) && s.workers[t].phase == Freeing(p)
    ensures var s := After(Start(n, true), es);
            && s.slots[p].ref == 0 && s.pool[p] == 0 && !InMap(s, p)
            && Sum(s.workers, Handles, p) == 0 && Sum(s.workers, Returns, p) == 1
  {
    InvStart(n, true);
    InvRun(Start(n, true), es);
    var s := After(Start(n, true), es);
    assert Balanced(s, p);
    SumCovers(s.workers, t, Returns, p);
  }
}
