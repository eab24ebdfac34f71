/**
 RecvComplete on its objects: the receive ring, a packet per message, the pool the packets go back to.
 And what SetEncodingCode and PostSend make of a packet at the other end.
 */
module Receiver {
  import opened Wire
  import opened PacketObject
  import opened RingBuffer
  import Cipher
  import Framing
  import Memory
  import Packet

  /** What PostSend puts on the wire: the header, and as many bytes from the start of the payload as are unread. */
  method Transmit(packet: CPacket, randKey: byte) returns (bytes: seq<byte>)
    requires packet.Valid() && packet.usingSize < 0x10000 && !packet.isEncoded
    modifies packet`isEncoded, packet.header, packet.payload
    ensures packet.Valid() && packet.isEncoded
    ensures bytes == Framing.Frame(Framing.Message(old(packet.payload[..packet.usingSize]), randKey))
    ensures packet.front == 0 ==> old(packet.payload[..packet.usingSize]) == old(Packet.Unread(packet.View()))
  {
    hide Cipher.Ciphers, Cipher.Encode, Cipher.SentChecksum;
    packet.SetEncodingCode(randKey);
    bytes := packet.header[..] + packet.payload[..packet.usingSize];
  }

  /** A packet as RecvComplete has it from Alloc, with the storage of a new one. */
  method NewPacket() returns (packet: CPacket)
    ensures fresh(packet) && fresh(packet.header) && fresh(packet.payload)
    ensures packet.Valid() && packet.rear == packet.usingSize == packet.front == 0 && packet.refCount == 1
    ensures packet.payload.Length == Framing.STORAGE && packet.maxSize == DEFAULT_SIZE
  {
    packet := new CPacket();
    hide Packet.Valid;
    packet.Renew();
  }

  /** The header, copied from the ring into the packet; the ring keeps it. */
  method PeekHeader(ring: CRingBuffer, header: array<byte>)
    requires ring.Ok() && header != ring.data && header.Length == Framing.HEADER_LEN <= |Contents(ring.View())|
    modifies header
    ensures ring.Ok() && ring.View() == old(ring.View())
    ensures header[..] == Contents(ring.View())[..Framing.HEADER_LEN]
  {
    var n := ring.Peek(header, Framing.HEADER_LEN);
  }

  /** Header and body leave the ring and are in the packet, the body unread. */
  method Fill(ring: CRingBuffer, packet: CPacket, header: array<byte>, len: nat)
    requires ring.Ok() && packet.Valid() && packet.rear == packet.usingSize == packet.front == 0
    requires packet.payload.Length == Framing.STORAGE
    requires packet.header != ring.data && packet.payload != ring.data && header != ring.data
    requires header != packet.header && header != packet.payload && header.Length == Framing.HEADER_LEN
    requires 0 < len <= Framing.STORAGE && Framing.HEADER_LEN + len <= |Contents(ring.View())|
    modifies ring`iFrontPos, packet`rear, packet`usingSize, packet.header, packet.payload
    ensures ring.Ok() && Contents(ring.View()) == old(Contents(ring.View()))[Framing.HEADER_LEN + len..]
    ensures packet.Valid() && packet.usingSize == len
    ensures packet.payload[..len] == old(Contents(ring.View()))[Framing.HEADER_LEN..Framing.HEADER_LEN + len]
    ensures packet.header[..] == header[..]
  {
    ghost var c := Contents(ring.View());
    var pos := ring.MoveFront(Framing.HEADER_LEN);
    assert Contents(ring.View()) == c[Framing.HEADER_LEN..];
    Memory.CopyOut(packet.header, header, 0);
    var n := ring.Dequeue(packet.payload, len);
    assert n == len;
    assert packet.payload[..len] == c[Framing.HEADER_LEN..Framing.HEADER_LEN + len];
    assert Contents(ring.View()) == c[Framing.HEADER_LEN + len..];
    var moved := packet.MoveWritePos(len);
  }

  /**
   The part of a turn of the loop behind its tests: header and body leave the ring, the body is
   deciphered in a packet of its own, and the packet is given back.
   */
  method TakeMessage(ring: CRingBuffer, header: array<byte>, len: nat, pool: PacketPool)
    returns (ok: bool, plain: seq<byte>)
    requires ring.Ok() && header != ring.data && header.Length == Framing.HEADER_LEN
    requires 0 < len <= Framing.STORAGE && Framing.HEADER_LEN + len <= |Contents(ring.View())|
    requires header[0] == Cipher.PACKET_CODE
    modifies ring`iFrontPos, pool
    ensures ring.Ok() && Contents(ring.View()) == old(Contents(ring.View()))[Framing.HEADER_LEN + len..]
    ensures plain == Cipher.Decode(old(Contents(ring.View()))[Framing.HEADER_LEN..Framing.HEADER_LEN + len],
                                   header[3], 0, 0, 0)
    ensures ok <==> Cipher.ReceivedChecksum(plain) == header[4]
    ensures |pool.freed| == |old(pool.freed)| + 1
  {
    hide Contents, Cipher.Deciphers, Cipher.Decode, Cipher.ReceivedChecksum;
    var packet := NewPacket();
    Fill(ring, packet, header, len);
    assert packet.header[0] == header[0] && packet.header[3] == header[3] && packet.header[4] == header[4];
    ok := packet.SetDecodingCode();
    plain := packet.payload[..len];
    packet.SubRef(pool);
  }

  /** How a turn of the loop ends. */
  datatype Result = Waits | Refuses | Overruns | Fails | Delivers

  /**
   One turn of the loop, as `Framing.Take` says. A message longer than its packet is reported before
   the copy that would leave the block.
   */
  method TakeTurn(ring: CRingBuffer, pool: PacketPool) returns (result: Result, plain: seq<byte>)
    requires ring.Ok()
    modifies ring`iFrontPos, pool
    ensures ring.Ok()
    ensures Framing.Take(old(Contents(ring.View()))) ==
              match result
              case Waits => Framing.Wait
              case Refuses => Framing.Bad
              case Overruns => Framing.TooLong
              case Fails => Framing.Corrupt(Contents(ring.View()))
              case Delivers => Framing.Whole(plain, Contents(ring.View()))
    ensures !result.Fails? && !result.Delivers? ==> Contents(ring.View()) == old(Contents(ring.View()))
    ensures |pool.freed| == |old(pool.freed)| + (if result.Fails? || result.Delivers? then 1 else 0)
  {
    ghost var c := Contents(ring.View());
    plain := [];
    var qSize := ring.GetUseSize();
    if Framing.HEADER_LEN > qSize {
      return Waits, plain;
    }
    var stHeader := new byte[Framing.HEADER_LEN](_ => 0);
    PeekHeader(ring, stHeader);
    assert stHeader[0] == c[0] && stHeader[1] == c[1] && stHeader[2] == c[2] && stHeader[3] == c[3] && stHeader[4] == c[4];
    var high: int := stHeader[2];
    var len := stHeader[1] + 256 * high;
    if stHeader[0] != Cipher.PACKET_CODE || len == 0 {
      return Refuses, plain;
    }
    if Framing.HEADER_LEN + len > qSize {
      return Waits, plain;
    }
    if len > Framing.STORAGE {
      return Overruns, plain;
    }
    var ok;
    ok, plain := TakeMessage(ring, stHeader, len, pool);
    result := if ok then Delivers else Fails;
  }

  /**
   One receive. The bytes that came are behind those left over; the loop hands out every message that is
   whole, as `Framing.Parse` says; a receive of no bytes closes the connection. Every packet that the
   loop took is given back. Overrun is reported before the copy that would leave the packet's block.
   */
  method RecvComplete(ring: CRingBuffer, bytes: seq<byte>, pool: PacketPool)
    returns (messages: seq<seq<byte>>, status: Framing.Status)
    requires ring.Ok() && |bytes| <= Free(ring.View())
    modifies ring, ring.data, pool
    ensures ring.Ok()
    ensures Framing.Outcome(messages, Contents(ring.View()), status)
            == Framing.Receive(Framing.Outcome([], old(Contents(ring.View())), Framing.Open), bytes)
    ensures |messages| <= |pool.freed| - |old(pool.freed)| <= |messages| + 1
  {
    hide Framing.Take, Contents;
    messages, status := [], Framing.Closed;
    if bytes == [] {
      return;
    }
    ring.Arrive(bytes);
    ghost var all := Contents(ring.View());
    while true
      invariant ring.Ok()
      invariant Framing.Parse(all) == Prepend(messages, Framing.Parse(Contents(ring.View())))
      invariant |messages| == |pool.freed| - |old(pool.freed)|
      decreases |Contents(ring.View())|
    {
      var result, plain := TakeTurn(ring, pool);
      match result {
        case Waits => status := Framing.Open; return;
        case Overruns => status := Framing.Overrun; return;
        case Refuses => return;
        case Fails => return;
        case Delivers =>
          PrependSnoc(messages, plain, Framing.Parse(Contents(ring.View())));
          messages := messages + [plain];
      }
    }
  }

  /** An outcome with these messages handed out before it. */
  ghost function Prepend(ms: seq<seq<byte>>, o: Framing.Outcome): Framing.Outcome {
    Framing.Outcome(ms + o.messages, o.rest, o.status)
  }

  lemma PrependSnoc(ms: seq<seq<byte>>, m: seq<byte>, o: Framing.Outcome)
    ensures Prepend(ms + [m], o) == Prepend(ms, Prepend([m], o))
  {
    assert (ms + [m]) + o.messages == ms + ([m] + o.messages);
  }
}
