/**
 CPacket's serialisation buffer: what WriteValue, PutData, ReadValue and GetData do to the bytes and to
 the positions, when a write returns, when it stays inside the payload storage, and what that means for
 the values that pass through.
 */
module Packet {
  import opened Options
  import opened Wire

  const HEADER_SIZE: int := 5

  /**
   `bytes` is the payload up to the write position, the other fields are m_iFront, m_iRear,
   m_iUsingSize and m_iMaxSize. `repaired` is false for the code as it is; when true, the loop of
   IncreaseBufferSize tests the size that it doubles.
   */
  datatype Buffer = Buffer(bytes: seq<byte>, front: int, rear: int, used: int, max: int, repaired: bool)

  predicate Valid(b: Buffer) {
    && 0 <= b.front <= b.rear == |b.bytes|
    && b.used == b.rear - b.front <= b.max
    && (b.front == b.rear ==> b.front == 0)
    && HEADER_SIZE <= b.max
  }

  /** A packet with nothing in it. */
  predicate Empty(b: Buffer) {
    Valid(b) && b.used == 0
  }

  /** The unread bytes. */
  function Unread(b: Buffer): seq<byte>
    requires Valid(b)
  {
    b.bytes[b.front..]
  }

  /** GetFreeSize: what the guard of a write compares, blind to the write position. */
  function FreeSize(b: Buffer): int {
    b.max - b.used
  }

  /** The length of the payload storage: one block of m_iMaxSize bytes, the payload behind the header. */
  function PayloadCapacity(b: Buffer): int {
    b.max - HEADER_SIZE
  }

  // ----- IncreaseBufferSize --------------------------------------------------------------------

  /** The variables of IncreaseBufferSize's loop. */
  datatype Doubling = Doubling(payloadcap: int, size: int, newSize: int)

  /** One turn of the loop. It leaves alone what its condition, payloadcap < size, tests. */
  function Turn(d: Doubling): Doubling {
    d.(newSize := if d.newSize <= 0 then d.size else d.newSize * 2)
  }

  function Turns(d: Doubling, k: nat): Doubling {
    if k == 0 then d else Turn(Turns(d, k - 1))
  }

  /** The loop is left after some number of turns. */
  ghost predicate Ends(d: Doubling) {
    exists k: nat :: Turns(d, k).payloadcap >= Turns(d, k).size
  }

  lemma {:induction false} TurnsKeepCondition(d: Doubling, k: nat)
    ensures Turns(d, k).payloadcap == d.payloadcap && Turns(d, k).size == d.size
  {
    if k > 0 {
      TurnsKeepCondition(d, k - 1);
    }
  }

  /** The loop ends exactly when it is never entered. */
  lemma EndsOnlyIfNotEntered(d: Doubling)
    ensures Ends(d) <==> d.payloadcap >= d.size
  {
    if Ends(d) {
      var k: nat :| Turns(d, k).payloadcap >= Turns(d, k).size;
      TurnsKeepCondition(d, k);
    } else {
      assert Turns(d, 0) == d;
    }
  }

  /** IncreaseBufferSize(addSize) returns. */
  ghost predicate IncreaseReturns(b: Buffer, addSize: int) {
    addSize <= 0 || Ends(Doubling(PayloadCapacity(b), b.used + addSize, PayloadCapacity(b)))
  }

  /** The repaired loop's result: `cap` doubled until it is at least `size`. */
  function Doubled(cap: int, size: int): (r: int)
    requires size > 0
    ensures r >= size && r >= cap
    ensures cap < size ==> r < 2 * size
    ensures cap >= size ==> r == cap
    decreases size - cap
  {
    if cap >= size then cap else if cap <= 0 then size else Doubled(cap * 2, size)
  }

  /** The capacity that the repaired IncreaseBufferSize leaves. */
  function Increased(b: Buffer, addSize: nat): int {
    var (cap, size) := (PayloadCapacity(b), b.used + addSize);
    if addSize == 0 || size <= 0 || cap >= size then b.max else HEADER_SIZE + Doubled(cap, size)
  }

  // ----- reads and writes ----------------------------------------------------------------------

  /** A write of `data` that passes `asks` to IncreaseBufferSize returns. */
  ghost predicate WriteReturns(b: Buffer, need: nat, asks: nat) {
    FreeSize(b) >= need || b.repaired || IncreaseReturns(b, asks)
  }

  /** The capacity once a write has returned. */
  function MaxAfter(b: Buffer, need: nat, asks: nat): int {
    if FreeSize(b) < need && b.repaired then Increased(b, asks) else b.max
  }

  function Write(b: Buffer, data: seq<byte>, asks: nat): Buffer {
    Buffer(b.bytes + data, b.front, b.rear + |data|, b.used + |data|, MaxAfter(b, |data|, asks), b.repaired)
  }

  function Read(b: Buffer, need: nat): (Buffer, Option<seq<byte>>)
    requires Valid(b)
  {
    if b.used < need then (b, None)
    else
      var front := b.front + need;
      var got := Some(b.bytes[b.front..front]);
      if front == b.rear then (b.(bytes := [], front := 0, rear := 0, used := b.used - need), got)
      else (b.(front := front, used := b.used - need), got)
  }

  /** The write ends inside the payload storage. */
  predicate Fits(b: Buffer, need: nat, asks: nat) {
    b.rear + need <= MaxAfter(b, need, asks) - HEADER_SIZE
  }

  /**
   A write of the code returns exactly when the unread bytes and the new ones fit the capacity: where
   growing would be needed, the loop of IncreaseBufferSize never ends.
   */
  lemma ReturnsExactly(b: Buffer, need: nat, asks: nat)
    requires Valid(b) && !b.repaired && need <= asks
    ensures WriteReturns(b, need, asks) <==> b.used + need <= b.max
  {
    EndsOnlyIfNotEntered(Doubling(PayloadCapacity(b), b.used + asks, PayloadCapacity(b)));
  }

  // ----- runs, and the queue they refine -------------------------------------------------------

  /** `asks` is what the write passes to IncreaseBufferSize: its size in PutData, twice that in WriteValue. */
  datatype Op = Put(data: seq<byte>, asks: nat) | Take(need: nat)

  predicate OpOk(op: Op) {
    op.Put? ==> op.asks == |op.data| || op.asks == 2 * |op.data|
  }

  predicate OpsOk(ops: seq<Op>) {
    forall i :: 0 <= i < |ops| ==> OpOk(ops[i])
  }

  ghost predicate Returns(b: Buffer, op: Op) {
    op.Put? ==> WriteReturns(b, |op.data|, op.asks)
  }

  predicate Stays(b: Buffer, op: Op) {
    op.Put? ==> Fits(b, |op.data|, op.asks)
  }

  function Apply(b: Buffer, op: Op): (Buffer, Option<seq<byte>>)
    requires Valid(b)
  {
    match op
    case Put(data, asks) => (Write(b, data, asks), None)
    case Take(need) => Read(b, need)
  }

  lemma ValidAfter(b: Buffer, op: Op)
    requires Valid(b) && OpOk(op) && Returns(b, op)
    ensures Valid(Apply(b, op).0)
  {
    if op.Put? && !b.repaired {
      ReturnsExactly(b, |op.data|, op.asks);
    }
  }

  function Last(ops: seq<Op>): Op
    requires ops != []
  {
    ops[|ops| - 1]
  }

  function Before(ops: seq<Op>): seq<Op>
    requires ops != []
  {
    ops[..|ops| - 1]
  }

  /** Every operation of the run, in turn, returns. */
  ghost predicate Ended(b: Buffer, ops: seq<Op>)
    requires Valid(b)
    decreases |ops|, 0
  {
    ops == [] || (Ended(b, Before(ops)) && OpOk(Last(ops)) && Returns(State(b, Before(ops)), Last(ops)))
  }

  ghost function State(b: Buffer, ops: seq<Op>): (r: Buffer)
    requires Valid(b) && Ended(b, ops)
    ensures Valid(r) && r.repaired == b.repaired
    decreases |ops|, 1
  {
    if ops == [] then b
    else
      var prev := State(b, Before(ops));
      ValidAfter(prev, Last(ops));
      Apply(prev, Last(ops)).0
  }

  /** Every operation of the run, in turn, returns and stays inside the storage. */
  ghost predicate Runs(b: Buffer, ops: seq<Op>)
    requires Valid(b)
  {
    Ended(b, ops) && (ops == [] || (Runs(b, Before(ops)) && Stays(State(b, Before(ops)), Last(ops))))
  }

  /** One more operation. */
  lemma RunOn(b: Buffer, ops: seq<Op>, op: Op)
    requires Valid(b) && Ended(b, ops) && OpOk(op)
    ensures Ended(b, ops + [op]) <==> Returns(State(b, ops), op)
    ensures Ended(b, ops + [op]) ==> State(b, ops + [op]) == Apply(State(b, ops), op).0
    ensures Runs(b, ops + [op]) <==> Ended(b, ops + [op]) && Runs(b, ops) && Stays(State(b, ops), op)
  {
    assert Before(ops + [op]) == ops;
  }

  /** What each operation hands out; a write hands out nothing. */
  ghost function Outputs(b: Buffer, ops: seq<Op>): (o: seq<Option<seq<byte>>>)
    requires Valid(b) && Ended(b, ops)
    ensures |o| == |ops|
  {
    if ops == [] then [] else Outputs(b, Before(ops)) + [Apply(State(b, Before(ops)), Last(ops)).1]
  }

  /** The simple form: a FIFO queue of bytes, with no positions, capacity or growth. */
  function FifoStep(q: seq<byte>, op: Op): (seq<byte>, Option<seq<byte>>) {
    match op
    case Put(data, _) => (q + data, None)
    case Take(need) => if |q| < need then (q, None) else (q[need..], Some(q[..need]))
  }

  function Fifo(q: seq<byte>, ops: seq<Op>): seq<byte> {
    if ops == [] then q else FifoStep(Fifo(q, Before(ops)), Last(ops)).0
  }

  function FifoOutputs(q: seq<byte>, ops: seq<Op>): (o: seq<Option<seq<byte>>>)
    ensures |o| == |ops|
  {
    if ops == [] then [] else FifoOutputs(q, Before(ops)) + [FifoStep(Fifo(q, Before(ops)), Last(ops)).1]
  }

  lemma StepRefinesFifo(b: Buffer, op: Op)
    requires Valid(b) && OpOk(op) && Returns(b, op)
    ensures Valid(Apply(b, op).0)
    ensures (Unread(Apply(b, op).0), Apply(b, op).1) == FifoStep(Unread(b), op)
    ensures b.used == |Unread(b)|
  {
    ValidAfter(b, op);
    if op.Put? {
      assert (b.bytes + op.data)[b.front..] == b.bytes[b.front..] + op.data;
    } else if b.used >= op.need {
      assert b.bytes[b.front..b.front + op.need] == b.bytes[b.front..][..op.need];
      assert b.bytes[b.front..][op.need..] == b.bytes[b.front + op.need..];
    }
  }

  /** The positions alone count like the queue, whether or not the bytes have their storage. */
  lemma {:induction false} CountsLikeFifo(b: Buffer, ops: seq<Op>)
    requires Valid(b) && Ended(b, ops)
    ensures State(b, ops).used == |Fifo(Unread(b), ops)|
    ensures Unread(State(b, ops)) == Fifo(Unread(b), ops) && Outputs(b, ops) == FifoOutputs(Unread(b), ops)
  {
    if ops != [] {
      CountsLikeFifo(b, Before(ops));
      StepRefinesFifo(State(b, Before(ops)), Last(ops));
    }
  }

  /** Growth, read positions and the reset on drain are invisible: the buffer is a FIFO byte queue. */
  lemma RefinesFifo(b: Buffer, ops: seq<Op>)
    requires Valid(b) && Runs(b, ops)
    ensures Unread(State(b, ops)) == Fifo(Unread(b), ops)
    ensures Outputs(b, ops) == FifoOutputs(Unread(b), ops)
  {
    CountsLikeFifo(b, ops);
  }

  // ----- where the positions can be ------------------------------------------------------------

  /** The bounds that every run of returning operations keeps: the write position may pass the capacity, by no more than `front`. */
  lemma PositionBounds(b: Buffer, ops: seq<Op>)
    requires Valid(b) && Ended(b, ops)
    ensures var s := State(b, ops);
            && s.used == s.rear - s.front && 0 <= s.used <= s.max
            && s.rear <= s.max + s.front
            && (s.front == s.rear <==> s.used == 0)
            && (s.used == 0 ==> s.front == s.rear == 0)
  {
  }

  lemma {:induction false} CapacityKept(b: Buffer, ops: seq<Op>)
    requires Valid(b) && Ended(b, ops) && !b.repaired
    ensures State(b, ops).max == b.max
  {
    if ops != [] {
      CapacityKept(b, Before(ops));
    }
  }

  // ----- what the positions count --------------------------------------------------------------

  /** After how many operations the queue was last empty. */
  function LastEmpty(ops: seq<Op>): (k: nat)
    ensures k <= |ops|
  {
    if ops == [] || Fifo([], ops) == [] then |ops| else LastEmpty(Before(ops))
  }

  lemma {:induction false} LastEmptyIsLast(ops: seq<Op>)
    ensures Fifo([], ops[..LastEmpty(ops)]) == []
    ensures forall j :: LastEmpty(ops) < j <= |ops| ==> Fifo([], ops[..j]) != []
  {
    assert ops[..|ops|] == ops;
    if ops != [] && Fifo([], ops) != [] {
      var k := LastEmpty(ops);
      LastEmptyIsLast(Before(ops));
      assert Before(ops)[..k] == ops[..k];
      forall j | k < j <= |ops| ensures Fifo([], ops[..j]) != [] {
        if j < |ops| {
          assert Before(ops)[..j] == ops[..j];
        }
      }
    }
  }

  function BytesPut(ops: seq<Op>): nat {
    if ops == [] then 0 else BytesPut(Before(ops)) + (if Last(ops).Put? then |Last(ops).data| else 0)
  }

  function BytesTaken(outs: seq<Option<seq<byte>>>): nat {
    if outs == [] then 0
    else
      var o := outs[|outs| - 1];
      BytesTaken(outs[..|outs| - 1]) + (if o.Some? then |o.value| else 0)
  }

  lemma LastEmptyOfLonger(ops: seq<Op>)
    requires ops != [] && Fifo([], ops) != []
    ensures LastEmpty(ops) == LastEmpty(Before(ops)) < |ops|
  {
  }

  lemma SuffixOfLonger(ops: seq<Op>, k: nat)
    requires k < |ops|
    ensures Before(ops[k..]) == Before(ops)[k..] && Last(ops[k..]) == Last(ops)
  {
  }

  /** m_iRear is the bytes written, and m_iFront the bytes read, since the packet was last empty. */
  lemma {:induction false} PositionsCountHistory(b: Buffer, ops: seq<Op>)
    requires Empty(b) && Ended(b, ops)
    ensures var k := LastEmpty(ops);
            && Fifo([], ops[..k]) == [] && (forall j :: k < j <= |ops| ==> Fifo([], ops[..j]) != [])
            && State(b, ops).rear == BytesPut(ops[k..])
            && State(b, ops).front == BytesTaken(Outputs(b, ops)[k..])
  {
    CountsLikeFifo(b, ops);
    LastEmptyIsLast(ops);
    if Fifo([], ops) == [] {
      assert ops[|ops|..] == [] && Outputs(b, ops)[|ops|..] == [];
    } else {
      var k := LastEmpty(ops);
      PositionsCountHistory(b, Before(ops));
      LastEmptyOfLonger(ops);
      SuffixOfLonger(ops, k);
      TakenSnoc(Outputs(b, Before(ops)), Apply(State(b, Before(ops)), Last(ops)).1, k);
    }
  }

  lemma TakenSnoc(outs: seq<Option<seq<byte>>>, o: Option<seq<byte>>, k: nat)
    requires k <= |outs|
    ensures BytesTaken((outs + [o])[k..]) == BytesTaken(outs[k..]) + (if o.Some? then |o.value| else 0)
  {
    var all := (outs + [o])[k..];
    assert all[..|all| - 1] == outs[k..];
  }

  // ----- when the writes of a run return, and when they stay in the storage ----------------------

  /** Before its i-th operation the queue has room for what that one writes. */
  predicate UnreadFit(ops: seq<Op>, i: nat, max: int)
    requires i < |ops|
  {
    ops[i].Put? ==> |Fifo([], ops[..i])| + |ops[i].data| <= max
  }

  /** The bytes written since the queue was last empty, and those that the i-th operation writes, have room. */
  predicate WrittenFit(ops: seq<Op>, i: nat, room: int)
    requires i < |ops|
  {
    ops[i].Put? ==> BytesPut(ops[..i][LastEmpty(ops[..i])..]) + |ops[i].data| <= room
  }

  lemma UnreadFitPrefix(ops: seq<Op>, max: int)
    requires ops != []
    ensures (forall i :: 0 <= i < |ops| ==> UnreadFit(ops, i, max)) <==>
              UnreadFit(ops, |ops| - 1, max) && forall i :: 0 <= i < |Before(ops)| ==> UnreadFit(Before(ops), i, max)
  {
    forall i | 0 <= i < |ops| - 1 ensures UnreadFit(ops, i, max) <==> UnreadFit(Before(ops), i, max) {
      assert Before(ops)[..i] == ops[..i];
    }
  }

  lemma WrittenFitPrefix(ops: seq<Op>, room: int)
    requires ops != []
    ensures (forall i :: 0 <= i < |ops| ==> WrittenFit(ops, i, room)) <==>
              WrittenFit(ops, |ops| - 1, room) && forall i :: 0 <= i < |Before(ops)| ==> WrittenFit(Before(ops), i, room)
  {
    forall i | 0 <= i < |ops| - 1 ensures WrittenFit(ops, i, room) <==> WrittenFit(Before(ops), i, room) {
      assert Before(ops)[..i] == ops[..i];
    }
  }

  /**
   From an empty packet every operation of a run returns exactly when each write finds the unread bytes
   and its own within the capacity, header and all.
   */
  lemma {:induction false} ReturnExactly(b: Buffer, ops: seq<Op>)
    requires Empty(b) && !b.repaired && OpsOk(ops)
    ensures Ended(b, ops) <==> forall i :: 0 <= i < |ops| ==> UnreadFit(ops, i, b.max)
  {
    if ops != [] {
      ReturnExactly(b, Before(ops));
      UnreadFitPrefix(ops, b.max);
      assert OpOk(ops[|ops| - 1]);
      if Ended(b, Before(ops)) {
        CountsLikeFifo(b, Before(ops));
        CapacityKept(b, Before(ops));
        if Last(ops).Put? {
          ReturnsExactly(State(b, Before(ops)), |Last(ops).data|, Last(ops).asks);
        }
      }
    }
  }

  /** A write that stays inside the storage returns. */
  lemma StaysReturns(b: Buffer, op: Op)
    requires Valid(b) && !b.repaired && Stays(b, op)
    ensures Returns(b, op)
  {
  }

  /**
   And they all stay inside the payload storage exactly when each write finds the bytes written since
   the packet was last empty and its own within the capacity less the header: read bytes count too.
   */
  lemma {:induction false} StayExactly(b: Buffer, ops: seq<Op>)
    requires Empty(b) && !b.repaired && OpsOk(ops)
    ensures Runs(b, ops) <==> forall i :: 0 <= i < |ops| ==> WrittenFit(ops, i, PayloadCapacity(b))
  {
    if ops != [] {
      StayExactly(b, Before(ops));
      WrittenFitPrefix(ops, PayloadCapacity(b));
      assert OpOk(ops[|ops| - 1]);
      if Runs(b, Before(ops)) {
        PositionsCountHistory(b, Before(ops));
        CapacityKept(b, Before(ops));
        RunOn(b, Before(ops), Last(ops));
        assert Before(ops) + [Last(ops)] == ops;
        if Stays(State(b, Before(ops)), Last(ops)) {
          StaysReturns(State(b, Before(ops)), Last(ops));
        }
      }
    }
  }

  /**
   The gap between the two: behind a run inside the storage the next write returns and yet leaves the
   storage exactly when the unread bytes leave it room in the block and the written ones do not leave it
   room behind the header.
   */
  lemma OverrunExactly(b: Buffer, ops: seq<Op>, op: Op)
    requires Empty(b) && !b.repaired && Runs(b, ops) && OpOk(op) && op.Put?
    ensures Ended(b, ops + [op]) && !Runs(b, ops + [op]) <==>
              && |Fifo([], ops)| + |op.data| <= b.max
              && BytesPut(ops[LastEmpty(ops)..]) + |op.data| > PayloadCapacity(b)
  {
    RunOn(b, ops, op);
    CapacityKept(b, ops);
    CountsLikeFifo(b, ops);
    PositionsCountHistory(b, ops);
    ReturnsExactly(State(b, ops), |op.data|, op.asks);
  }

  predicate PutsOnly(ops: seq<Op>) {
    forall i :: 0 <= i < |ops| ==> ops[i].Put?
  }

  lemma {:induction false} PutsPositions(b: Buffer, ops: seq<Op>)
    requires Empty(b) && Ended(b, ops) && PutsOnly(ops)
    ensures var s := State(b, ops); s.front == 0 && s.rear == s.used == BytesPut(ops)
  {
    if ops != [] {
      assert Last(ops) == ops[|ops| - 1] && PutsOnly(Before(ops));
      PutsPositions(b, Before(ops));
    }
  }

  /** For a packet that is only written, both conditions come down to the total. */
  lemma {:induction false} WritesOnly(b: Buffer, ops: seq<Op>)
    requires Empty(b) && !b.repaired && OpsOk(ops) && PutsOnly(ops)
    ensures Ended(b, ops) <==> BytesPut(ops) <= b.max
    ensures Runs(b, ops) <==> BytesPut(ops) <= PayloadCapacity(b)
  {
    if ops != [] {
      var (init, last) := (Before(ops), Last(ops));
      assert last == ops[|ops| - 1] && OpOk(last) && OpsOk(init) && PutsOnly(init);
      assert init + [last] == ops;
      WritesOnly(b, init);
      if Ended(b, init) {
        PutsPositions(b, init);
        CapacityKept(b, init);
        RunOn(b, init, last);
        ReturnsExactly(State(b, init), |last.data|, last.asks);
      }
    }
  }

  lemma FirstWrite(b: Buffer, data: seq<byte>)
    requires Empty(b) && !b.repaired && |data| <= PayloadCapacity(b)
    ensures Runs(b, [Put(data, |data|)])
    ensures State(b, [Put(data, |data|)]) == b.(bytes := data, rear := |data|, used := |data|)
  {
    assert Ended(b, []) && Runs(b, []) && State(b, []) == b;
    RunOn(b, [], Put(data, |data|));
    assert [] + [Put(data, |data|)] == [Put(data, |data|)];
    assert b.bytes == [];
  }

  /**
   The overrun: an empty packet takes as many bytes as its payload storage has, 507 of 512 in a new one,
   and then lets up to five more through its guard, all of them behind the end of the block.
   */
  lemma LastFiveBytesOverrun(b: Buffer, first: seq<byte>, more: seq<byte>)
    requires Empty(b) && !b.repaired && |first| == PayloadCapacity(b) && 1 <= |more| <= HEADER_SIZE
    ensures var ops := [Put(first, |first|)] + [Put(more, |more|)];
            && Runs(b, [Put(first, |first|)])
            && Ended(b, ops) && !Runs(b, ops)
            && State(b, ops).rear == PayloadCapacity(State(b, ops)) + |more|
  {
    FirstWrite(b, first);
    RunOn(b, [Put(first, |first|)], Put(more, |more|));
  }

  /** The endless write: a value wider than what the capacity has left, for which IncreaseBufferSize does not return. */
  lemma GrowingWriteNeverReturns(b: Buffer, first: seq<byte>, value: seq<byte>)
    requires Empty(b) && !b.repaired && |first| <= PayloadCapacity(b) && |first| + |value| > b.max
    ensures Runs(b, [Put(first, |first|)])
    ensures !Ended(b, [Put(first, |first|)] + [Put(value, 2 * |value|)])
  {
    FirstWrite(b, first);
    RunOn(b, [Put(first, |first|)], Put(value, 2 * |value|));
    ReturnsExactly(State(b, [Put(first, |first|)]), |value|, 2 * |value|);
  }

  // ----- how far the repaired buffer grows -----------------------------------------------------

  function Max(a: int, b: int): int {
    if a > b then a else b
  }

  /** The most unread bytes at any point of the run. */
  function Peak(q: seq<byte>, ops: seq<Op>): int {
    if ops == [] then |q| else Max(Peak(q, Before(ops)), |Fifo(q, ops)|)
  }

  predicate WritesAtMost(ops: seq<Op>, w: nat) {
    forall i :: 0 <= i < |ops| && ops[i].Put? ==> |ops[i].data| <= w
  }

  /** One growth of the repaired loop makes payload room for all unread bytes and the pending write. */
  lemma OneGrowthSuffices(b: Buffer, need: nat, asks: nat)
    requires Valid(b) && b.repaired && need <= asks && FreeSize(b) < need
    ensures b.used + need <= MaxAfter(b, need, asks) - HEADER_SIZE
    ensures b.max <= MaxAfter(b, need, asks) < HEADER_SIZE + 2 * (b.used + asks)
  {
  }

  /** Writes of at most `w` bytes keep the repaired capacity below twice the peak of unread bytes plus 2w, and the header. */
  lemma {:induction false} RepairedGrowthBound(b: Buffer, ops: seq<Op>, w: nat)
    requires Valid(b) && b.repaired && Ended(b, ops) && WritesAtMost(ops, w)
    ensures b.max <= State(b, ops).max <= Max(b.max, HEADER_SIZE + 2 * (Peak(Unread(b), ops) + w) - 1)
  {
    if ops != [] {
      var prev := State(b, Before(ops));
      RepairedGrowthBound(b, Before(ops), w);
      CountsLikeFifo(b, Before(ops));
      CountsLikeFifo(b, ops);
      assert ops[|ops| - 1] == Last(ops);
      if Last(ops).Put? && FreeSize(prev) < |Last(ops).data| {
        OneGrowthSuffices(prev, |Last(ops).data|, Last(ops).asks);
      }
    }
  }

  // ----- typed values --------------------------------------------------------------------------

  /** operator<< of a value, operator>> into a variable of a type. */
  datatype Stream = In(x: Value) | Out(t: WireType)

  function OpOf(d: Stream): Op {
    match d
    case In(x) => Put(Bytes(x), 2 * Size(x.t))
    case Out(t) => Take(Size(t))
  }

  function Ops(ds: seq<Stream>): (ops: seq<Op>)
    ensures |ops| == |ds|
  {
    if ds == [] then [] else Ops(ds[..|ds| - 1]) + [OpOf(ds[|ds| - 1])]
  }

  function Encoded(q: seq<Value>): seq<byte> {
    if q == [] then [] else Bytes(q[0]) + Encoded(q[1..])
  }

  lemma {:induction false} EncodedSnoc(q: seq<Value>, x: Value)
    ensures Encoded(q + [x]) == Encoded(q) + Bytes(x)
  {
    if q == [] {
      assert q + [x] == [x];
    } else {
      EncodedSnoc(q[1..], x);
      assert (q + [x])[1..] == q[1..] + [x];
      assert Bytes(q[0]) + (Encoded(q[1..]) + Bytes(x)) == (Bytes(q[0]) + Encoded(q[1..])) + Bytes(x);
    }
  }

  /** The simple form: a FIFO queue of typed values, empty at first. */
  function Queue(ds: seq<Stream>): seq<Value> {
    if ds == [] then [] else QueueStep(Queue(ds[..|ds| - 1]), ds[|ds| - 1])
  }

  function QueueStep(q: seq<Value>, d: Stream): seq<Value> {
    match d
    case In(x) => q + [x]
    case Out(t) => if q == [] then [] else q[1..]
  }

  /** Each read that finds something asks for the type that was written. */
  predicate SameTypes(ds: seq<Stream>) {
    ds == [] ||
    var (before, d) := (Queue(ds[..|ds| - 1]), ds[|ds| - 1]);
    SameTypes(ds[..|ds| - 1]) && (d.Out? ==> before == [] || before[0].t == d.t)
  }

  function Written(ds: seq<Stream>): seq<Value> {
    if ds == [] then []
    else
      var d := ds[|ds| - 1];
      Written(ds[..|ds| - 1]) + (if d.In? then [d.x] else [])
  }

  /** What one stream operator puts into its variable; a short read leaves the variable alone. */
  function Got(b: Buffer, d: Stream): seq<Value>
    requires Valid(b)
  {
    match d
    case In(_) => []
    case Out(t) => var out := Read(b, Size(t)).1; if out.Some? then [Parse(t, out.value)] else []
  }

  ghost function Received(b: Buffer, ds: seq<Stream>): seq<Value>
    requires Valid(b) && Ended(b, Ops(ds))
  {
    if ds == [] then []
    else
      assert Before(Ops(ds)) == Ops(ds[..|ds| - 1]);
      Received(b, ds[..|ds| - 1]) + Got(State(b, Ops(ds[..|ds| - 1])), ds[|ds| - 1])
  }

  lemma WriteAppends(b: Buffer, q: seq<Value>, x: Value)
    requires Valid(b) && Unread(b) == Encoded(q) && Returns(b, OpOf(In(x)))
    ensures var b' := Apply(b, OpOf(In(x))).0; Valid(b') && Unread(b') == Encoded(q + [x])
  {
    StepRefinesFifo(b, OpOf(In(x)));
    EncodedSnoc(q, x);
  }

  /** A read of the type that comes next takes the first value; a read that comes too early changes nothing. */
  lemma ReadTakesFirst(b: Buffer, q: seq<Value>, t: WireType)
    requires Valid(b) && Unread(b) == Encoded(q)
    requires q == [] || q[0].t == t
    ensures var b' := Apply(b, OpOf(Out(t))).0;
            && Valid(b')
            && (if q == [] then Got(b, Out(t)) == [] && b' == b
                else Got(b, Out(t)) == [q[0]] && Unread(b') == Encoded(q[1..]))
  {
    StepRefinesFifo(b, Take(Size(t)));
    if q != [] {
      ValueRoundTrip(q[0]);
      assert Encoded(q)[..Size(t)] == Bytes(q[0]);
      assert Encoded(q)[Size(t)..] == Encoded(q[1..]);
    }
  }

  /** The unread bytes are those of the values that have not been read yet. */
  lemma {:induction false} TypedContents(b: Buffer, ds: seq<Stream>)
    requires Empty(b) && SameTypes(ds) && Runs(b, Ops(ds))
    ensures Unread(State(b, Ops(ds))) == Encoded(Queue(ds))
  {
    if ds != [] {
      var (ds0, d) := (ds[..|ds| - 1], ds[|ds| - 1]);
      assert Before(Ops(ds)) == Ops(ds0) && Last(Ops(ds)) == OpOf(d);
      TypedContents(b, ds0);
      if d.In? {
        WriteAppends(State(b, Ops(ds0)), Queue(ds0), d.x);
      } else {
        ReadTakesFirst(State(b, Ops(ds0)), Queue(ds0), d.t);
      }
    }
  }

  /** What one operator hands out, in step with the typed queue. */
  lemma GotInOrder(b: Buffer, q: seq<Value>, d: Stream, received: seq<Value>, written: seq<Value>)
    requires Valid(b) && Unread(b) == Encoded(q) && (d.Out? ==> q == [] || q[0].t == d.t)
    requires received + q == written
    ensures (received + Got(b, d)) + QueueStep(q, d) == written + (if d.In? then [d.x] else [])
  {
    if d.Out? {
      ReadTakesFirst(b, q, d.t);
      assert q != [] ==> q == [q[0]] + q[1..];
    }
  }

  /**
   The typed round trip: values of any types written to an empty packet come back, in order and
   unchanged, to reads of the same types, however reads and writes interleave and however many reads
   come too early and are retried; what has not been read yet is still queued.
   */
  lemma {:induction false} TypedRoundTrip(b: Buffer, ds: seq<Stream>)
    requires Empty(b) && SameTypes(ds) && Runs(b, Ops(ds))
    ensures Received(b, ds) + Queue(ds) == Written(ds)
    ensures Unread(State(b, Ops(ds))) == Encoded(Queue(ds))
  {
    TypedContents(b, ds);
    if ds != [] {
      var (ds0, d) := (ds[..|ds| - 1], ds[|ds| - 1]);
      assert Before(Ops(ds)) == Ops(ds0);
      TypedRoundTrip(b, ds0);
      GotInOrder(State(b, Ops(ds0)), Queue(ds0), d, Received(b, ds0), Written(ds0));
    }
  }
}
