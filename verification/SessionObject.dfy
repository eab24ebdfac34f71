/** Session::Init: resets a session slot and gives back the references its send queues still hold. */
module SessionObject {
  import opened PacketObject
  import opened Wire
  import Cipher
  import Handle
  import PacketRefs

  /** boost::lockfree::queue with a fixed capacity. */
  class PacketQueue {
    var items: seq<CPacket>

    constructor ()
      ensures items == []
    {
      items := [];
    }

    method Push(packet: CPacket) returns (ok: bool)
      modifies this
      ensures ok <==> old(|items|) < PacketRefs.CAPACITY
      ensures items == if ok then old(items) + [packet] else old(items)
    {
      ok := |items| < PacketRefs.CAPACITY;
      if ok {
        items := items + [packet];
      }
    }

    method Pop() returns (ok: bool, packet: CPacket?)
      modifies this
      ensures ok <==> old(items) != []
      ensures ok ==> packet == old(items)[0] && items == old(items)[1..]
      ensures !ok ==> items == []
    {
      ok, packet := items != [], null;
      if ok {
        packet := items[0];
        items := items[1..];
      }
    }
  }

  /** How often `p` occurs. */
  ghost function Occurs(q: seq<CPacket>, p: CPacket): nat {
    if q == [] then 0 else (if q[0] == p then 1 else 0) + Occurs(q[1..], p)
  }

  lemma {:induction false} OccursSnoc(q: seq<CPacket>, x: CPacket, p: CPacket)
    ensures Occurs(q + [x], p) == Occurs(q, p) + (if x == p then 1 else 0)
  {
    if q != [] {
      OccursSnoc(q[1..], x, p);
      assert (q + [x])[1..] == q[1..] + [x];
    }
  }

  /** `n` references to `p` have been given back since its count was `r` and the pool held `freed`. */
  ghost predicate Settled(p: CPacket, pool: PacketPool, r: int, freed: seq<CPacket>, n: nat)
    reads p, pool
  {
    p.refCount == r - n && Occurs(pool.freed, p) == Occurs(freed, p) + PacketRefs.Returned(r, n)
  }

  /** One of Init's two loops. */
  method Drain(queue: PacketQueue, pool: PacketPool)
    modifies queue, pool, (set p: CPacket | p in queue.items)`refCount
    ensures queue.items == []
    ensures forall p: CPacket | old(allocated(p)) ::
              Settled(p, pool, old(p.refCount), old(pool.freed), Occurs(old(queue.items), p))
  {
    ghost var all := queue.items;
    ghost var popped := 0;
    var ok, packet := queue.Pop();
    while ok
      invariant popped <= |all|
      invariant ok ==> popped < |all| && packet == all[popped] && queue.items == all[popped + 1..]
      invariant !ok ==> popped == |all| && queue.items == []
      invariant forall p: CPacket | old(allocated(p)) ::
                  Settled(p, pool, old(p.refCount), old(pool.freed), Occurs(all[..popped], p))
      decreases ok, |queue.items|
    {
      label before:
      packet.SubRef(pool);
      forall p: CPacket | old(allocated(p))
        ensures Settled(p, pool, old(p.refCount), old(pool.freed), Occurs(all[..popped + 1], p))
      {
        assert all[..popped + 1] == all[..popped] + [packet];
        OccursSnoc(all[..popped], packet, p);
        if pool.freed != old@before(pool.freed) {
          OccursSnoc(old@before(pool.freed), packet, p);
        }
      }
      popped := popped + 1;
      assert queue.items == all[popped..];
      ok, packet := queue.Pop();
      assert ok ==> packet == all[popped..][0] && queue.items == all[popped..][1..];
    }
    assert all[..popped] == all;
  }

  class Session {
    var sessionID: bv64
    var index: int
    var isSendFlag: bool
    var sendCount: int
    var isReleased: bool
    var ioCount: int
    var lastRecvTime: int
    const sendBuf: PacketQueue
    const completeSendBuf: PacketQueue
    var recvPacketList: seq<CPacket>

    constructor ()
      ensures fresh(sendBuf) && fresh(completeSendBuf) && sendBuf != completeSendBuf
      ensures sendBuf.items == completeSendBuf.items == []
      ensures sessionID == Handle.SENTINEL
    {
      sessionID, index, isSendFlag, sendCount, isReleased, ioCount, lastRecvTime := Handle.SENTINEL, 0, false, 0, false, 0, 0;
      sendBuf := new PacketQueue();
      completeSendBuf := new PacketQueue();
      recvPacketList := [];
    }

    /**
     SendPacket, up to its PostSend: one reference more, the cipher applied once, and a push whose result
     is not looked at, so that a full queue leaves the reference with nobody.
     */
    method SendPacket(packet: CPacket, randKey: byte)
      requires packet.Valid() && packet.usingSize < 0x10000
      modifies sendBuf, packet`refCount, packet`isEncoded, packet.header, packet.payload
      ensures packet.Valid() && packet.isEncoded && packet.refCount == old(packet.refCount) + 1
      ensures sendBuf.items == if old(|sendBuf.items|) < 4096 then old(sendBuf.items) + [packet] else old(sendBuf.items)
      ensures old(packet.isEncoded) ==>
                packet.header[..] == old(packet.header[..]) && packet.payload[..] == old(packet.payload[..])
      ensures !old(packet.isEncoded) ==>
                && packet.header[..] == [Cipher.PACKET_CODE, packet.usingSize % 256, packet.usingSize / 256, randKey,
                                         Cipher.SentChecksum(old(packet.payload[..packet.usingSize]))]
                && packet.payload[..packet.usingSize] == Cipher.Encode(old(packet.payload[..packet.usingSize]), randKey, 0, 0, 0)
                && packet.payload[packet.usingSize..] == old(packet.payload[packet.usingSize..])
    {
      packet.AddRef();
      packet.SetEncodingCode(randKey);
      var ok := sendBuf.Push(packet);
    }

    /**
     Empties both send queues and lowers the count of every packet by exactly its occurrences in
     them, a packet in both or queued repeatedly included; a packet goes back to the pool once, if
     and only if that takes its count to zero. recvPacketList is cleared without a SubRef.
     */
    method Init(pool: PacketPool)
      requires sendBuf != completeSendBuf
      modifies this, pool, sendBuf, completeSendBuf
      modifies (set p: CPacket | p in sendBuf.items || p in completeSendBuf.items)`refCount
      ensures sendBuf.items == [] && completeSendBuf.items == [] && recvPacketList == []
      ensures sessionID == Handle.SENTINEL && index == 0 && !isSendFlag && sendCount == 0 && lastRecvTime == 0
      ensures !isReleased && ioCount == 0
      ensures forall p: CPacket | old(allocated(p)) ::
                Settled(p, pool, old(p.refCount), old(pool.freed),
                        old(Occurs(sendBuf.items, p)) + old(Occurs(completeSendBuf.items, p)))
    {
      sessionID, index := Handle.SENTINEL, 0;
      isSendFlag, sendCount, lastRecvTime := false, 0, 0;
      recvPacketList := [];
      Drain(sendBuf, pool);
      label between:
      Drain(completeSendBuf, pool);
      forall p: CPacket | old(allocated(p))
        ensures Settled(p, pool, old(p.refCount), old(pool.freed),
                        old(Occurs(sendBuf.items, p)) + old(Occurs(completeSendBuf.items, p)))
      {
        assert Settled(p, pool, old@between(p.refCount), old@between(pool.freed), old(Occurs(completeSendBuf.items, p)));
      }
      isReleased, ioCount := false, 0;
    }
  }
}
