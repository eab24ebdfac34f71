/** CRingBuffer: a byte ring that keeps one slot empty, because only front and rear are stored. */
module RingBuffer {
  import opened Wire
  import Memory

  // ----- the ring as a value -------------------------------------------------------------------

  datatype Ring = Ring(front: nat, rear: nat, data: seq<byte>)

  predicate Valid(r: Ring) {
    r.front < |r.data| && r.rear < |r.data|
  }

  function Min(a: nat, b: nat): nat {
    if a < b then a else b
  }

  /** The position `k` slots after `at`, for k no larger than the ring. */
  function Wrap(at: nat, k: nat, size: nat): nat
    requires at < size && k <= size
  {
    if at + k < size then at + k else at + k - size
  }

  function Used(r: Ring): nat
    requires Valid(r)
  {
    if r.front <= r.rear then r.rear - r.front else |r.data| - r.front + r.rear
  }

  function Free(r: Ring): nat
    requires Valid(r)
  {
    |r.data| - 1 - Used(r)
  }

  /** The queued bytes, oldest first. */
  function Contents(r: Ring): (c: seq<byte>)
    requires Valid(r)
    ensures |c| == Used(r)
  {
    if r.front <= r.rear then r.data[r.front..r.rear] else r.data[r.front..] + r.data[..r.rear]
  }

  lemma ContentsAt(r: Ring, k: nat)
    requires Valid(r) && k < Used(r)
    ensures Contents(r)[k] == r.data[Wrap(r.front, k, |r.data|)]
  {
  }

  /** `data` with `b` copied in at `at`, wrapping round the end. */
  function Stored(data: seq<byte>, at: nat, b: seq<byte>): (d: seq<byte>)
    requires at < |data| && |b| <= |data|
    ensures |d| == |data|
  {
    if at + |b| <= |data| then data[..at] + b + data[at + |b|..]
    else
      var first := |data| - at;
      b[first..] + data[|b| - first..at] + b[..first]
  }

  lemma StoredAt(data: seq<byte>, at: nat, b: seq<byte>, k: nat)
    requires at < |data| && |b| <= |data| && k < |data|
    ensures Stored(data, at, b)[Wrap(at, k, |data|)] == if k < |b| then b[k] else data[Wrap(at, k, |data|)]
  {
  }

  /** The wrap-around costs a second copy at the start of the storage. */
  lemma StoredInTwo(data: seq<byte>, at: nat, b: seq<byte>)
    requires at < |data| && |b| <= |data|
    ensures var first := Min(|b|, |data| - at);
            Stored(data, at, b) == Memory.Copied(Memory.Copied(data, at, b[..first]), 0, b[first..])
  {
    if at + |b| <= |data| {
      assert b[..|b|] == b;
    }
  }

  lemma ContentsInTwo(r: Ring, n: nat)
    requires Valid(r) && n <= Used(r)
    ensures var first := Min(n, |r.data| - r.front);
            Contents(r)[..n] == r.data[r.front..r.front + first] + r.data[..n - first]
  {
  }

  /** Copying bytes in at the rear and moving it past them appends them, across the wrap-around too. */
  lemma StoreAppends(r: Ring, b: seq<byte>)
    requires Valid(r) && |b| <= Free(r)
    ensures var r' := Ring(r.front, Wrap(r.rear, |b|, |r.data|), Stored(r.data, r.rear, b));
            Valid(r') && Contents(r') == Contents(r) + b
  {
    var n := |r.data|;
    var r' := Ring(r.front, Wrap(r.rear, |b|, n), Stored(r.data, r.rear, b));
    assert Used(r') == Used(r) + |b|;
    forall k | 0 <= k < Used(r') ensures Contents(r')[k] == (Contents(r) + b)[k] {
      ContentsAt(r', k);
      if k < Used(r) {
        ContentsAt(r, k);
        assert Wrap(r.front, k, n) == Wrap(r.rear, n - Used(r) + k, n);
        StoredAt(r.data, r.rear, b, n - Used(r) + k);
      } else {
        assert Wrap(r.front, k, n) == Wrap(r.rear, k - Used(r), n);
        StoredAt(r.data, r.rear, b, k - Used(r));
      }
    }
  }

  /** Moving the front drops the oldest bytes. */
  lemma FrontDrops(r: Ring, k: nat)
    requires Valid(r) && k <= Used(r)
    ensures var r' := r.(front := Wrap(r.front, k, |r.data|));
            Valid(r') && Contents(r') == Contents(r)[k..]
  {
    var r' := r.(front := Wrap(r.front, k, |r.data|));
    forall j | 0 <= j < Used(r') ensures Contents(r')[j] == Contents(r)[k..][j] {
      ContentsAt(r', j);
      ContentsAt(r, k + j);
    }
  }

  lemma InPieces(c: seq<byte>, d: seq<byte>, a: nat, b: nat)
    requires a + b <= |d|
    ensures c + d[..a] + d[a..][..b] == c + d[..a + b]
  {
  }

  /** Two pieces that do not wrap make up what fits. */
  lemma TwoPieces(wanted: nat, room: nat, at: nat, size: nat)
    requires at < size && room < size
    ensures var first := Min(wanted, Min(room, size - at));
            first + Min(wanted - first, Min(room - first, size - Wrap(at, first, size))) == Min(wanted, room)
  {
  }

  // ----- the ring as an object -----------------------------------------------------------------

  class CRingBuffer {
    var iFrontPos: nat
    var iRearPos: nat
    const data: array<byte>

    ghost function View(): Ring
      reads this, data
    {
      Ring(iFrontPos, iRearPos, data[..])
    }

    ghost predicate Ok()
      reads this, data
    {
      Valid(View())
    }

    constructor (iBuffSize: nat)
      requires iBuffSize > 0
      ensures Ok() && fresh(data) && data.Length == iBuffSize && Contents(View()) == []
    {
      iFrontPos, iRearPos := 0, 0;
      data := new byte[iBuffSize](_ => 0);
    }

    method GetUseSize() returns (n: nat)
      requires Ok()
      ensures n == |Contents(View())| && n < data.Length
    {
      n := if iRearPos >= iFrontPos then iRearPos - iFrontPos else data.Length - iFrontPos + iRearPos;
    }

    /** Used and free bytes always add up to one less than the size. */
    method GetFreeSize() returns (n: nat)
      requires Ok()
      ensures n + |Contents(View())| == data.Length - 1
    {
      var used := GetUseSize();
      n := data.Length - 1 - used;
    }

    /** How many bytes can be copied in at the rear without wrapping. */
    method DirectEnqueueSize() returns (n: nat)
      requires Ok()
      ensures n <= Free(View()) && iRearPos + n <= data.Length
      ensures n == Min(Free(View()), data.Length - iRearPos)
    {
      if iRearPos < iFrontPos {
        n := iFrontPos - iRearPos - 1;
      } else if iFrontPos == 0 {
        n := data.Length - iRearPos - 1;
      } else {
        n := data.Length - iRearPos;
      }
    }

    /** How many bytes can be copied out at the front without wrapping. */
    method DirectDequeueSize() returns (n: nat)
      requires Ok()
      ensures n == Min(|Contents(View())|, data.Length - iFrontPos)
    {
      n := if iRearPos >= iFrontPos then iRearPos - iFrontPos else data.Length - iFrontPos;
    }

    /** Moves the rear past bytes already copied in, by no more than is free; hands out the new position. */
    method MoveRear(iSize: nat) returns (pos: nat)
      requires Ok()
      modifies this`iRearPos
      ensures Ok() && pos == iRearPos
      ensures iRearPos == old(Wrap(iRearPos, Min(iSize, Free(View())), data.Length))
    {
      var free := GetFreeSize();
      iRearPos := Wrap(iRearPos, Min(iSize, free), data.Length);
      pos := iRearPos;
    }

    /** Drops the oldest bytes, no more than there are; hands out the new position. */
    method MoveFront(iSize: nat) returns (pos: nat)
      requires Ok()
      modifies this`iFrontPos
      ensures Ok() && pos == iFrontPos
      ensures iFrontPos == old(Wrap(iFrontPos, Min(iSize, |Contents(View())|), data.Length))
      ensures Contents(View()) == old(Contents(View()))[Min(iSize, |old(Contents(View()))|)..]
    {
      var used := GetUseSize();
      FrontDrops(View(), Min(iSize, used));
      iFrontPos := Wrap(iFrontPos, Min(iSize, used), data.Length);
      pos := iFrontPos;
    }

    /** Appends as many of the bytes as there is room for, in two copies if they wrap. */
    method Enqueue(chpData: seq<byte>) returns (n: nat)
      requires Ok()
      modifies this`iRearPos, data
      ensures Ok() && n == Min(|chpData|, old(Free(View())))
      ensures Contents(View()) == old(Contents(View())) + chpData[..n]
    {
      var free := GetFreeSize();
      n := Min(|chpData|, free);
      var first := Min(n, data.Length - iRearPos);
      var b := chpData[..n];
      StoreAppends(View(), b);
      StoredInTwo(data[..], iRearPos, b);
      Memory.CopyIn(data, iRearPos, b[..first]);
      Memory.CopyIn(data, 0, b[first..]);
      iRearPos := Wrap(iRearPos, n, data.Length);
    }

    /** Copies the oldest bytes out and leaves them in the ring. */
    method Peek(chpDest: array<byte>, iSize: nat) returns (n: nat)
      requires Ok() && chpDest != data && iSize <= chpDest.Length
      modifies chpDest
      ensures Ok() && n == Min(iSize, |old(Contents(View()))|)
      ensures View() == old(View())
      ensures chpDest[..] == old(Contents(View()))[..n] + old(chpDest[..])[n..]
    {
      var used := GetUseSize();
      n := Min(iSize, used);
      var first := Min(n, data.Length - iFrontPos);
      var bytes := data[..];
      var head, tail := bytes[iFrontPos..iFrontPos + first], bytes[..n - first];
      ghost var oldest := Contents(View())[..n];
      assert head + tail == oldest by {
        ContentsInTwo(View(), n);
      }
      Memory.CopyBoth(chpDest, head, tail);
      assert View() == old(View());
      assert chpDest[..] == oldest + old(chpDest[..])[n..];
    }

    /** Copies the oldest bytes out and drops them. */
    method Dequeue(chpDest: array<byte>, iSize: nat) returns (n: nat)
      requires Ok() && chpDest != data && iSize <= chpDest.Length
      modifies this`iFrontPos, chpDest
      ensures Ok() && n == Min(iSize, |old(Contents(View()))|)
      ensures chpDest[..] == old(Contents(View()))[..n] + old(chpDest[..])[n..]
      ensures Contents(View()) == old(Contents(View()))[n..]
    {
      n := Peek(chpDest, iSize);
      var pos := MoveFront(n);
    }

    /** One direct write: copy in at the rear what fits without wrapping, then MoveRear. */
    method WriteDirect(chpData: seq<byte>) returns (n: nat)
      requires Ok()
      modifies this`iRearPos, data
      ensures Ok() && n == Min(|chpData|, old(Min(Free(View()), data.Length - iRearPos)))
      ensures iRearPos == old(Wrap(iRearPos, Min(|chpData|, Min(Free(View()), data.Length - iRearPos)), data.Length))
      ensures Contents(View()) == old(Contents(View())) + chpData[..n]
    {
      var direct := DirectEnqueueSize();
      n := Min(|chpData|, direct);
      StoreAppends(View(), chpData[..n]);
      Memory.CopyIn(data, iRearPos, chpData[..n]);
      assert data[..] == old(Stored(data[..], iRearPos, chpData[..n]));
      var pos := MoveRear(n);
    }

    /** Two direct writes do what one Enqueue of the same bytes does. */
    method EnqueueDirect(chpData: seq<byte>) returns (n: nat)
      requires Ok()
      modifies this`iRearPos, data
      ensures Ok() && n == Min(|chpData|, old(Free(View())))
      ensures Contents(View()) == old(Contents(View())) + chpData[..n]
    {
      TwoPieces(|chpData|, Free(View()), iRearPos, data.Length);
      var first := WriteDirect(chpData);
      assert Free(View()) == old(Free(View())) - first;
      var second := WriteDirect(chpData[first..]);
      n := first + second;
      InPieces(old(Contents(View())), chpData, first, second);
    }

    /**
     One receive: the bytes go into the piece at the rear and, if that is not enough, into the piece at
     the start, the two buffers that PostRecv posts; RecvComplete then moves the rear once.
     */
    method Arrive(bytes: seq<byte>)
      requires Ok() && |bytes| <= Free(View())
      modifies this`iRearPos, data
      ensures Ok() && Contents(View()) == old(Contents(View())) + bytes
    {
      var direct := DirectEnqueueSize();
      var first := Min(|bytes|, direct);
      StoreAppends(View(), bytes);
      StoredInTwo(data[..], iRearPos, bytes);
      Memory.CopyIn(data, iRearPos, bytes[..first]);
      Memory.CopyIn(data, 0, bytes[first..]);
      assert data[..] == old(Stored(data[..], iRearPos, bytes));
      var pos := MoveRear(|bytes|);
    }

    /** One direct read: copy out at the front what lies there without wrapping, then MoveFront. */
    method ReadDirect(iSize: nat) returns (got: seq<byte>)
      requires Ok()
      modifies this`iFrontPos
      ensures Ok() && |got| == Min(iSize, old(Min(|Contents(View())|, data.Length - iFrontPos)))
      ensures got == old(Contents(View()))[..|got|]
      ensures Contents(View()) == old(Contents(View()))[|got|..]
      ensures old(data.Length - iFrontPos) <= |got| ==> iFrontPos == 0
    {
      var direct := DirectDequeueSize();
      var n := Min(iSize, direct);
      var bytes := data[..];
      got := bytes[iFrontPos..iFrontPos + n];
      ContentsInTwo(View(), n);
      FrontDrops(View(), n);
      var pos := MoveFront(n);
    }

    /** Two direct reads do what one Dequeue of the same size does. */
    method DequeueDirect(iSize: nat) returns (got: seq<byte>)
      requires Ok()
      modifies this`iFrontPos
      ensures Ok() && |got| == Min(iSize, |old(Contents(View()))|)
      ensures got == old(Contents(View()))[..|got|]
      ensures Contents(View()) == old(Contents(View()))[|got|..]
    {
      var first := ReadDirect(iSize);
      var second := ReadDirect(iSize - |first|);
      got := first + second;
    }
  }
}
