/** CPacket as an object: its block of memory, its positions, its cipher and its reference count. */
module PacketObject {
  import opened Options
  import opened Wire
  import Memory
  import Packet
  import Cipher

  const DEFAULT_SIZE: nat := 512
  const HEADER_LEN: nat := 5

  /** g_PacketPool, as far as a packet's release is concerned: what has been handed back. */
  class PacketPool {
    var freed: seq<CPacket>

    constructor ()
      ensures freed == []
    {
      freed := [];
    }
  }

  class CPacket {
    var maxSize: int
    var front: int
    var rear: int
    var usingSize: int
    var refCount: int
    var isEncoded: bool
    var header: array<byte>   // the first five bytes of the block
    var payload: array<byte>  // the rest of it

    /** The block has m_iMaxSize bytes and the positions lie in its payload part. */
    ghost predicate InBlock()
      reads this
    {
      header.Length == HEADER_LEN && payload.Length == maxSize - HEADER_LEN && 0 <= rear <= payload.Length
    }

    /** The state the fields describe; storage past the write position holds nothing. */
    ghost function View(): Packet.Buffer
      requires InBlock()
      reads this, payload
    {
      Packet.Buffer(payload[..rear], front, rear, usingSize, maxSize, false)
    }

    ghost predicate Valid()
      reads this, payload
    {
      InBlock() && header != payload && Packet.Valid(View())
    }

    constructor ()
      ensures Valid() && fresh(payload) && fresh(header) && refCount == 0 && !isEncoded
      ensures View() == Packet.Buffer([], 0, 0, 0, DEFAULT_SIZE, false)
    {
      maxSize, front, rear, usingSize, refCount, isEncoded := DEFAULT_SIZE, 0, 0, 0, 0, false;
      header := new byte[HEADER_LEN](_ => 0);
      payload := new byte[DEFAULT_SIZE - HEADER_LEN](_ => 0);
    }

    method Clear()
      requires Valid()
      modifies this`front, this`rear, this`usingSize, this`isEncoded, header, payload
      ensures Valid() && View() == Packet.Buffer([], 0, 0, 0, maxSize, false) && !isEncoded
      ensures forall i :: 0 <= i < payload.Length ==> payload[i] == 0
    {
      front, rear, usingSize, isEncoded := 0, 0, 0, false;
      forall i | 0 <= i < header.Length {
        header[i] := 0;
      }
      forall i | 0 <= i < payload.Length {
        payload[i] := 0;
      }
    }

    /** What Alloc does to the packet it has from the pool. */
    method Renew()
      requires Valid()
      modifies this`front, this`rear, this`usingSize, this`isEncoded, this`refCount, header, payload
      ensures Valid() && View() == Packet.Buffer([], 0, 0, 0, maxSize, false) && !isEncoded && refCount == 1
    {
      Clear();
      refCount := 1;
    }

    method GetFreeSize() returns (n: int)
      requires InBlock()
      ensures n == Packet.FreeSize(View())
    {
      n := maxSize - usingSize;
    }

    /**
     WriteValue, of a value given as the bytes memcpy takes from it. Its callers must not need growth,
     which would not return, nor the storage behind the block; either would break the run.
     */
    method WriteValue(val: seq<byte>)
      requires Valid() && Packet.Stays(View(), Packet.Put(val, 2 * |val|))
      modifies this`rear, this`usingSize, payload
      ensures Valid() && View() == Packet.Apply(old(View()), Packet.Put(val, 2 * |val|)).0
    {
      var need := |val|;
      var free := GetFreeSize();
      if free < need {
        assert false;
      }
      label copying:
      Memory.CopyIn(payload, rear, val);
      assert payload[..][..rear + need] == old@copying(payload[..rear]) + val;
      rear := rear + need;
      usingSize := usingSize + need;
    }

    /** PutData: the same with a size of the caller's. */
    method PutData(data: seq<byte>)
      requires Valid() && Packet.Stays(View(), Packet.Put(data, |data|))
      modifies this`rear, this`usingSize, payload
      ensures Valid() && View() == Packet.Apply(old(View()), Packet.Put(data, |data|)).0
    {
      var free := GetFreeSize();
      if free < |data| {
        assert false;
      }
      label copying:
      Memory.CopyIn(payload, rear, data);
      assert payload[..][..rear + |data|] == old@copying(payload[..rear]) + data;
      rear := rear + |data|;
      usingSize := usingSize + |data|;
    }

    /** ReadValue and GetData into `target`; a short read changes neither the packet nor the target. */
    method ReadValue(target: array<byte>)
      requires Valid() && target != payload
      modifies this`front, this`rear, this`usingSize, target
      ensures Valid() && View() == Packet.Read(old(View()), target.Length).0
      ensures var got := Packet.Read(old(View()), target.Length).1;
              target[..] == if got.Some? then got.value else old(target[..])
    {
      var need := target.Length;
      if usingSize < need {
        return;
      }
      Memory.CopyOut(target, payload, front);
      assert payload[..rear][front..front + need] == payload[front..front + need];
      front := front + need;
      usingSize := usingSize - need;
      if front == rear {
        front := 0;
        rear := 0;
      }
    }

    /**
     MoveWritePos: takes in bytes already copied behind the write position, as a write of them would, but no
     more than GetFreeSize, which is five more than there is storage for. The packet is still one exactly if
     the new position is in the block.
     */
    method MoveWritePos(size: int) returns (move: int)
      requires Valid()
      modifies this`rear, this`usingSize
      ensures move == if size <= 0 then 0 else if size > maxSize - old(usingSize) then maxSize - old(usingSize) else size
      ensures rear == old(rear) + move && usingSize == old(usingSize) + move
      ensures Valid() <==> old(rear) + move <= payload.Length
      ensures Valid() ==> View() == Packet.Write(old(View()), payload[old(rear)..old(rear) + move], move)
    {
      if size <= 0 {
        return 0;
      }
      var canWrite := GetFreeSize();
      move := if size > canWrite then canWrite else size;
      rear := rear + move;
      usingSize := usingSize + move;
      assert rear <= payload.Length ==> payload[..rear] == payload[..old(rear)] + payload[old(rear)..rear];
    }

    /** MoveReadPos: drops unread bytes, as a read of them would, no more than there are. */
    method MoveReadPos(size: int) returns (move: int)
      requires Valid()
      modifies this`front, this`rear, this`usingSize
      ensures Valid() && 0 <= move <= old(usingSize)
      ensures move == if size <= 0 then 0 else if size > old(usingSize) then old(usingSize) else size
      ensures View() == Packet.Read(old(View()), move).0
    {
      if size <= 0 {
        return 0;
      }
      move := if size > usingSize then usingSize else size;
      front := front + move;
      usingSize := usingSize - move;
      if front == rear {
        front := 0;
        rear := 0;
      }
    }

    /** The repaired loop. */
    static method DoubleUntil(payloadcap: int, size: int) returns (newSize: int)
      requires 0 <= payloadcap && 0 < size
      ensures newSize == Packet.Doubled(payloadcap, size)
    {
      newSize := payloadcap;
      while newSize < size
        invariant 0 <= newSize
        invariant Packet.Doubled(newSize, size) == Packet.Doubled(payloadcap, size)
        decreases size - newSize
      {
        newSize := if newSize <= 0 then size else newSize * 2;
      }
    }

    /** A block with a payload part of `newSize` bytes, and the old block's contents in it. */
    method Reallocate(newSize: nat)
      requires Valid() && payload.Length <= newSize
      modifies this`maxSize, this`header, this`payload
      ensures Valid() && fresh(payload) && fresh(header) && View() == old(View()).(max := HEADER_LEN + newSize)
    {
      var newHeader := new byte[HEADER_LEN](_ => 0);
      Memory.CopyOut(newHeader, header, 0);
      var bigger := new byte[newSize](_ => 0);
      Memory.CopyIn(bigger, 0, payload[..]);
      assert bigger[..rear] == payload[..rear];
      header, payload, maxSize := newHeader, bigger, HEADER_LEN + newSize;
    }

    /**
     IncreaseBufferSize in its repaired form, the loop testing what it doubles: capacity for the unread
     bytes and the new ones, less than twice that, and the same contents and positions.
     */
    method IncreaseBufferSizeRepaired(addSize: int)
      requires Valid()
      modifies this`maxSize, this`header, this`payload
      ensures Valid()
      ensures addSize > 0 ==> maxSize == Packet.Increased(old(View()), addSize)
      ensures addSize > 0 ==> usingSize + addSize <= maxSize - HEADER_LEN
      ensures View() == old(View()).(max := maxSize)
      ensures addSize <= 0 ==> maxSize == old(maxSize)
    {
      if addSize <= 0 {
        return;
      }
      var payloadcap := maxSize - HEADER_LEN;
      var size := usingSize + addSize;
      if payloadcap >= size {
        return;
      }
      var newSize := DoubleUntil(payloadcap, size);
      Reallocate(newSize);
    }

    // ----- the cipher --------------------------------------------------------------------------

    /** Adds the characters of `payload[..len]`, one by one. */
    method CheckSum(len: nat) returns (sum: int)
      requires len <= payload.Length
      ensures sum == Cipher.CharSum(payload[..len])
    {
      sum := 0;
      for i := 0 to len
        invariant sum == Cipher.CharSum(payload[..i])
      {
        assert payload[..i + 1][..i] == payload[..i];
        sum := sum + Cipher.AsChar(payload[i]);
      }
    }

    /** SetEncodingCode, `randKey` being what rand() gave: header and payload are ciphered in place, once. */
    method SetEncodingCode(randKey: byte)
      requires Valid() && usingSize < 0x10000
      modifies this`isEncoded, header, payload
      ensures Valid() && isEncoded
      ensures old(isEncoded) ==> header[..] == old(header[..]) && payload[..] == old(payload[..])
      ensures !old(isEncoded) ==>
                && header[..] == [Cipher.PACKET_CODE, usingSize % 256, usingSize / 256, randKey,
                                  Cipher.SentChecksum(old(payload[..usingSize]))]
                && payload[..usingSize] == Cipher.Encode(old(payload[..usingSize]), randKey, 0, 0, 0)
                && (exists e :: Cipher.Ciphers(old(payload[..usingSize]), e, payload[..usingSize], randKey))
                && payload[usingSize..] == old(payload[usingSize..])
    {
      hide Cipher.Ciphers;
      if isEncoded {
        return;
      }
      var len := usingSize;
      ghost var p := payload[..len];
      var checkSum := CheckSum(len);
      header[0], header[1], header[2] := Cipher.PACKET_CODE, len % 256, len / 256;
      header[3], header[4] := randKey, Cipher.Remainder(checkSum, 256) % 256;
      assert header[..] == [Cipher.PACKET_CODE, len % 256, len / 256, randKey, Cipher.SentChecksum(p)];
      Cipher.EncodeInPlace(payload, len, randKey);
      isEncoded := true;
    }

    /** SetDecodingCode: deciphers in place and tells whether the checksum is the header's. */
    method SetDecodingCode() returns (ok: bool)
      requires Valid()
      modifies payload
      ensures Valid() && header[..] == old(header[..])
      ensures header[0] != Cipher.PACKET_CODE ==> !ok && payload[..] == old(payload[..])
      ensures header[0] == Cipher.PACKET_CODE ==>
                && payload[..usingSize] == Cipher.Decode(old(payload[..usingSize]), header[3], 0, 0, 0)
                && (exists e :: Cipher.Deciphers(old(payload[..usingSize]), e, payload[..usingSize], header[3]))
                && payload[usingSize..] == old(payload[usingSize..])
                && (ok <==> header[4] == Cipher.ReceivedChecksum(payload[..usingSize]))
    {
      hide Cipher.Deciphers;
      if header[0] != Cipher.PACKET_CODE {
        return false;
      }
      var dataSize := usingSize;
      Cipher.DecodeInPlace(payload, dataSize, header[3]);
      var sum := CheckSum(dataSize);
      ok := header[4] == (sum % 0x1_0000_0000) % 256;
    }

    // ----- the reference count -----------------------------------------------------------------

    method AddRef()
      modifies this`refCount
      ensures refCount == old(refCount) + 1
    {
      refCount := refCount + 1;
    }

    /** The decrement that reaches zero hands the packet back. */
    method SubRef(pool: PacketPool)
      modifies this`refCount, pool
      ensures refCount == old(refCount) - 1
      ensures pool.freed == old(pool.freed) + (if refCount == 0 then [this] else [])
    {
      refCount := refCount - 1;
      if refCount == 0 {
        pool.freed := pool.freed + [this];
      }
    }
  }
}
