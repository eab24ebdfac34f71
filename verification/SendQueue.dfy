/**
 When a queued packet is sent: sendBuf and isSendFlag of one session, between the threads that push and call
 PostSend, the one that has the flag, and SendComplete. Packets are numbers.
 */
module SendQueue {
  import PacketRefs

  /** One WSASend takes no more packets than this. */
  const BATCH: nat := 100

  /** The thread that has set isSendFlag, and the packets it has moved to completeSendBuf. */
  datatype Sender =
    | Idle                         // isSendFlag is zero
    | Popping(batch: seq<nat>)     // in the loop of PostSend
    | GivingUp                     // has found sendBuf empty, and will reset isSendFlag
    | InFlight(batch: seq<nat>)    // WSASend posted
    | Refused(batch: seq<nat>)     // WSASend failed: isSendFlag is set, and no completion will come

  /**
   `tries` counts the threads about to call PostSend. History: what has been pushed, what sent, and whether
   a thread that found isSendFlag set by one giving up has gone away with packets in the queue, and nobody
   has set the flag since.
   */
  datatype Sending = Sending(
    queue: seq<nat>,
    sender: Sender,
    tries: nat,
    pushed: seq<nat>,
    sent: seq<nat>,
    missed: bool)

  datatype Step =
    | Push(p: nat)   // SendPacket: sendBuf.push, PostSend being next
    | Try            // PostSend: the exchange on isSendFlag
    | Pop            // a turn of PostSend's loop, or what follows the last
    | Reset          // PostSend: isSendFlag to zero, nothing to send
    | Complete       // SendComplete: isSendFlag to zero, PostSend being next
    | Refuse         // WSASend fails, and the session has other I/O

  predicate Can(s: Sending, st: Step) {
    match st
    case Push(p) => true
    case Try => s.tries > 0
    case Pop => s.sender.Popping?
    case Reset => s.sender.GivingUp?
    case Complete => s.sender.InFlight?
    case Refuse => s.sender.InFlight?
  }

  function Popped(s: Sending): Sending
    requires Can(s, Pop)
  {
    var batch := s.sender.batch;
    if |batch| < BATCH && s.queue != [] then s.(queue := s.queue[1..], sender := Popping(batch + [s.queue[0]]))
    else s.(sender := if batch == [] then GivingUp else InFlight(batch))
  }

  function Next(s: Sending, st: Step): Sending
    requires Can(s, st)
  {
    match st
    case Push(p) =>
      // a push into a full queue fails, and nobody looks
      if |s.queue| >= PacketRefs.CAPACITY then s.(tries := s.tries + 1)
      else s.(queue := s.queue + [p], tries := s.tries + 1, pushed := s.pushed + [p])
    case Try =>
      if s.sender.Idle? then s.(tries := s.tries - 1, sender := Popping([]), missed := false)
      else s.(tries := s.tries - 1, missed := s.missed || (s.sender.GivingUp? && s.queue != []))
    case Pop => Popped(s)
    case Reset => s.(sender := Idle)
    case Complete => s.(sender := Idle, tries := s.tries + 1, sent := s.sent + s.sender.batch)
    case Refuse => s.(sender := Refused(s.sender.batch))
  }

  predicate Run(s: Sending, sts: seq<Step>)
    decreases |sts|
  {
    sts == [] || (Can(s, sts[0]) && Run(Next(s, sts[0]), sts[1..]))
  }

  function After(s: Sending, sts: seq<Step>): Sending
    requires Run(s, sts)
    decreases |sts|
  {
    if sts == [] then s else After(Next(s, sts[0]), sts[1..])
  }

  /** A session that has just been created. */
  const START := Sending([], Idle, 0, [], [], false)

  function InHand(s: Sending): seq<nat> {
    if s.sender.Idle? || s.sender.GivingUp? then [] else s.sender.batch
  }

  /** What has been pushed is sent, in hand or queued, in this order; and whoever could send the queue is there, or has missed it. */
  ghost predicate Inv(s: Sending) {
    && s.pushed == s.sent + InHand(s) + s.queue
    && ((s.sender.InFlight? || s.sender.Refused?) ==> s.sender.batch != [])
    && (s.missed ==> s.queue != [] && (s.sender.Idle? || s.sender.GivingUp?))
    && (s.queue != [] && !s.missed ==> s.tries > 0 || !(s.sender.Idle? || s.sender.GivingUp?))
  }

  lemma InvAfter(s: Sending, st: Step)
    requires Inv(s) && Can(s, st)
    ensures Inv(Next(s, st))
  {
    var t := Next(s, st);
    match st {
      case Push(p) =>
        assert s.sent + InHand(s) + (s.queue + [p]) == s.sent + InHand(s) + s.queue + [p];
      case Pop =>
        if |s.sender.batch| < BATCH && s.queue != [] {
          assert s.queue == [s.queue[0]] + s.queue[1..];
          assert s.sent + (s.sender.batch + [s.queue[0]]) + s.queue[1..] == s.sent + s.sender.batch + s.queue;
        }
      case Complete =>
        assert s.sent + s.sender.batch + [] + s.queue == s.sent + s.sender.batch + s.queue;
      case _ =>
    }
  }

  lemma {:induction false} InvRun(s: Sending, sts: seq<Step>)
    requires Inv(s) && Run(s, sts)
    ensures Inv(After(s, sts))
    decreases |sts|
  {
    if sts != [] {
      InvAfter(s, sts[0]);
      InvRun(Next(s, sts[0]), sts[1..]);
    }
  }

  /** On every run the packets go out in the order in which they were pushed, none twice and none dropped. */
  lemma SentInOrder(sts: seq<Step>)
    requires Run(START, sts)
    ensures var s := After(START, sts);
            s.sent <= s.pushed && s.pushed == s.sent + InHand(s) + s.queue
  {
    InvRun(START, sts);
  }

  /** A PostSend takes packet after packet until there are none or it has a hundred, and then posts what it has. */
  lemma PopsUpToHundred(s: Sending)
    requires Can(s, Pop)
    ensures var (t, batch) := (Next(s, Pop), s.sender.batch);
            if |batch| < 100 && s.queue != [] then
              && t.sender.Popping? && t.sender.batch + t.queue == batch + s.queue && |t.sender.batch| == |batch| + 1
            else t.queue == s.queue && t.sender == if batch == [] then GivingUp else InFlight(batch)
  {
    if |s.sender.batch| < 100 && s.queue != [] {
      assert s.queue == [s.queue[0]] + s.queue[1..];
      assert (s.sender.batch + [s.queue[0]]) + s.queue[1..] == s.sender.batch + ([s.queue[0]] + s.queue[1..]);
    }
  }

  /** So its 200 buffers, two for each packet, always suffice. */
  lemma {:induction false} BuffersSuffice(s: Sending, sts: seq<Step>)
    requires 2 * |InHand(s)| <= 200 && Run(s, sts)
    ensures 2 * |InHand(After(s, sts))| <= 200
    decreases |sts|
  {
    if sts != [] {
      BuffersSuffice(Next(s, sts[0]), sts[1..]);
    }
  }

  // ----- when everything is sent ---------------------------------------------------------------

  /** Nobody is about to do anything: only another push, or a ReleaseSession, will change the session. */
  predicate AtRest(s: Sending) {
    s.tries == 0 && (s.sender.Idle? || s.sender.Refused?)
  }

  /**
   On every run that comes to rest, everything pushed has been sent exactly if no WSASend was refused and no
   PostSend was turned away by one that was giving up, with packets in the queue and nobody to follow.
   */
  lemma SentExactly(sts: seq<Step>)
    requires Run(START, sts) && AtRest(After(START, sts))
    ensures var s := After(START, sts); s.sent == s.pushed <==> s.sender.Idle? && !s.missed
  {
    InvRun(START, sts);
    var s := After(START, sts);
    if s.sent == s.pushed {
      assert |s.pushed| == |s.sent| + |InHand(s)| + |s.queue|;
    }
  }

  /** The steps that threads and the system owe, as long as nothing is refused. */
  predicate Owed(st: Step) {
    st.Try? || st.Pop? || st.Reset? || st.Complete?
  }

  /** How many of them there can be. */
  function Work(s: Sending): nat {
    4 * |s.queue| + 3 * s.tries
    + match s.sender
      case Idle => 0
      case GivingUp => 1
      case Popping(batch) => if batch == [] then 2 else 5
      case InFlight(batch) => 4
      case Refused(batch) => 0
  }

  lemma WorkAfter(s: Sending, st: Step)
    requires Inv(s) && Can(s, st) && Owed(st)
    ensures Work(Next(s, st)) < Work(s)
  {
  }

  /**
   Nothing waits for ever: unless at rest somebody can step, and without pushes and refusals there are at
   most `Work` steps to make. So every packet is sent, but for those that `SentExactly` names.
   */
  lemma {:induction false} ComesToRest(s: Sending, sts: seq<Step>)
    requires Inv(s) && Run(s, sts) && forall i :: 0 <= i < |sts| ==> Owed(sts[i])
    ensures |sts| <= Work(s)
    ensures AtRest(After(s, sts)) || exists st :: Owed(st) && Can(After(s, sts), st)
    decreases |sts|
  {
    if sts == [] {
      if !AtRest(s) {
        var st := if s.tries > 0 then Try else if s.sender.Popping? then Pop else if s.sender.GivingUp? then Reset else Complete;
        assert Owed(st) && Can(s, st);
      }
    } else {
      assert Owed(sts[0]);
      InvAfter(s, sts[0]);
      WorkAfter(s, sts[0]);
      ComesToRest(Next(s, sts[0]), sts[1..]);
    }
  }

  // ----- how the code misses packets -----------------------------------------------------------

  ghost predicate Leads(s: Sending, sts: seq<Step>, t: Sending) {
    Run(s, sts) && After(s, sts) == t
  }

  lemma RunFromFirst(s: Sending, st: Step, rest: seq<Step>, t: Sending)
    requires Can(s, st) && Leads(Next(s, st), rest, t)
    ensures Leads(s, [st] + rest, t)
  {
    assert ([st] + rest)[1..] == rest;
    hide Can, Next;
  }

  lemma {:induction false} RunsInTurn(s: Sending, first: seq<Step>, rest: seq<Step>, t: Sending, u: Sending)
    requires Leads(s, first, t) && Leads(t, rest, u)
    ensures Leads(s, first + rest, u)
    decreases |first|
  {
    hide Can, Next;
    if first == [] {
      assert first + rest == rest;
    } else {
      RunsInTurn(Next(s, first[0]), first[1..], rest, t, u);
      RunFromFirst(s, first[0], first[1..] + rest, u);
      assert [first[0]] + (first[1..] + rest) == first + rest;
    }
  }

  /** A packet is sent, and the completion starts the next PostSend, which has nothing to pop. */
  function SendOne(p: nat): seq<Step> {
    [Push(p), Try, Pop, Pop] + [Complete, Try, Pop]
  }

  /** Before that resets isSendFlag, another thread pushes and finds it set. */
  function PushInTheGap(p: nat): seq<Step> {
    [Push(p), Try, Reset]
  }

  lemma SentOne(s: Sending, p: nat)
    requires s.queue == [] && s.tries == 0 && s.sender == Idle
    ensures Leads(s, SendOne(p), s.(sender := GivingUp, pushed := s.pushed + [p], sent := s.sent + [p], missed := false))
  {
    var t := s.(sender := InFlight([p]), pushed := s.pushed + [p], missed := false);
    assert Leads(s, [Push(p), Try, Pop, Pop], t) by {
      var s1 := Next(s, Push(p));
      var s2 := Next(s1, Try);
      var s3 := Next(s2, Pop);
      assert s3.queue == [] && s3.sender.batch == [p];
      RunFromFirst(s3, Pop, [], t);
      RunFromFirst(s2, Pop, [Pop], t);
      RunFromFirst(s1, Try, [Pop, Pop], t);
      RunFromFirst(s, Push(p), [Try, Pop, Pop], t);
      assert [Push(p)] + [Try, Pop, Pop] == [Push(p), Try, Pop, Pop];
    }
    var u := s.(sender := GivingUp, pushed := s.pushed + [p], sent := s.sent + [p], missed := false);
    assert Leads(t, [Complete, Try, Pop], u) by {
      var t1 := Next(t, Complete);
      var t2 := Next(t1, Try);
      RunFromFirst(t2, Pop, [], u);
      RunFromFirst(t1, Try, [Pop], u);
      RunFromFirst(t, Complete, [Try, Pop], u);
      assert [Complete] + [Try, Pop] == [Complete, Try, Pop];
    }
    RunsInTurn(s, [Push(p), Try, Pop, Pop], [Complete, Try, Pop], t, u);
  }

  /** From every session at rest with all sent, such a run leaves a packet in the queue that nobody is going to send. */
  lemma PacketLeftBehind(s: Sending, p: nat, q: nat)
    requires AtRest(s) && s.sender.Idle? && s.queue == []
    ensures Run(s, SendOne(p) + PushInTheGap(q))
    ensures var t := After(s, SendOne(p) + PushInTheGap(q));
            AtRest(t) && t.queue == [q] && t.sent == s.sent + [p] && t.pushed == s.pushed + [p] + [q] && t.missed
  {
    SentOne(s, p);
    var t := s.(sender := GivingUp, pushed := s.pushed + [p], sent := s.sent + [p], missed := false);
    var t1 := Next(t, Push(q));
    var t2 := Next(t1, Try);
    var u := Next(t2, Reset);
    RunFromFirst(t2, Reset, [], u);
    RunFromFirst(t1, Try, [Reset], u);
    RunFromFirst(t, Push(q), [Try, Reset], u);
    assert [Push(q)] + [Try, Reset] == PushInTheGap(q);
    RunsInTurn(s, SendOne(p), PushInTheGap(q), t, u);
  }

  /** After a WSASend that fails while the session has other I/O nothing is sent any more, whatever is pushed. */
  lemma {:induction false} RefusedSendsNoMore(s: Sending, sts: seq<Step>)
    requires s.sender.Refused? && Run(s, sts)
    ensures After(s, sts).sender == s.sender && After(s, sts).sent == s.sent && s.queue <= After(s, sts).queue
    decreases |sts|
  {
    if sts != [] {
      RefusedSendsNoMore(Next(s, sts[0]), sts[1..]);
    }
  }
}
