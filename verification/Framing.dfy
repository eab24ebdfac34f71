/**
 Messages in the byte stream of a connection: what a sender's packet puts on the wire, and how
 RecvComplete takes the stream, cut into receives of any size, apart again.
 */
module Framing {
  import opened Wire
  import Cipher

  const HEADER_LEN: nat := 5

  /** The payload storage of the packet that a message is received into. */
  const STORAGE: nat := 507

  /** A payload and the random key it is sent under. */
  datatype Message = Message(data: seq<byte>, key: byte)

  /** `Overrun`: a complete message that its packet has no storage for, where the code writes past the block. */
  datatype Status = Open | Closed | Overrun

  /** The payloads handed to OnRecv, what is left in the ring, and whether the connection is still open. */
  datatype Outcome = Outcome(messages: seq<seq<byte>>, rest: seq<byte>, status: Status)

  /** The header's len: a WORD behind the code byte, low byte first. */
  function Announced(c: seq<byte>): nat
    requires |c| >= HEADER_LEN
  {
    var high: int := c[2];
    c[1] + 256 * high
  }

  /** What one turn of RecvComplete's loop makes of the bytes in the ring. */
  datatype Turn =
    | Wait                                      // not all of a message is there yet
    | Bad                                       // a wrong code byte or an empty message
    | TooLong                                   // a whole message, longer than the packet's storage
    | Corrupt(rest: seq<byte>)                  // the checksum does not match
    | Whole(plain: seq<byte>, rest: seq<byte>)

  function Take(c: seq<byte>): (r: Turn)
    ensures r.Whole? ==> |r.rest| < |c|
  {
    if |c| < HEADER_LEN then Wait
    else if c[0] != Cipher.PACKET_CODE || Announced(c) == 0 then Bad
    else if |c| < HEADER_LEN + Announced(c) then Wait
    else if Announced(c) > STORAGE then TooLong
    else
      var end := HEADER_LEN + Announced(c);
      var plain := Cipher.Decode(c[HEADER_LEN..end], c[3], 0, 0, 0);
      if Cipher.ReceivedChecksum(plain) != c[4] then Corrupt(c[end..]) else Whole(plain, c[end..])
  }

  /** The loop of RecvComplete. */
  function Parse(c: seq<byte>): Outcome
    decreases |c|
  {
    match Take(c)
    case Wait => Outcome([], c, Open)
    case Bad => Outcome([], c, Closed)
    case TooLong => Outcome([], c, Overrun)
    case Corrupt(rest) => Outcome([], rest, Closed)
    case Whole(plain, rest) =>
      var more := Parse(rest);
      Outcome([plain] + more.messages, more.rest, more.status)
  }

  /** More bytes: an open connection parses what it had left and what came. */
  function GoOn(o: Outcome, bytes: seq<byte>): Outcome {
    if !o.status.Open? then o
    else
      var more := Parse(o.rest + bytes);
      Outcome(o.messages + more.messages, more.rest, more.status)
  }

  /** One more receive. A receive of no bytes is the end of the stream, and closes the connection. */
  function Receive(o: Outcome, chunk: seq<byte>): Outcome {
    if chunk == [] && o.status.Open? then Outcome(o.messages, o.rest, Closed) else GoOn(o, chunk)
  }

  function ReceiveAll(chunks: seq<seq<byte>>): Outcome {
    if chunks == [] then Outcome([], [], Open)
    else Receive(ReceiveAll(chunks[..|chunks| - 1]), chunks[|chunks| - 1])
  }

  function Concat(chunks: seq<seq<byte>>): seq<byte> {
    if chunks == [] then [] else Concat(chunks[..|chunks| - 1]) + chunks[|chunks| - 1]
  }

  // ----- what is handed out, in terms of the bytes ---------------------------------------------

  lemma TakenExactly(c: seq<byte>, n: nat, e: seq<byte>, plain: seq<byte>)
    requires |c| >= 5 && c[0] == 0x77 && n == c[1] + 256 * (c[2] as int) && 1 <= n <= 507 && |c| >= 5 + n
    requires Cipher.Deciphers(c[5..5 + n], e, plain, c[3])
    ensures Take(c) == if Cipher.ByteSum(plain) % 256 == c[4] then Whole(plain, c[5 + n..]) else Corrupt(c[5 + n..])
  {
    hide Cipher.Deciphers, Cipher.Decode, Cipher.Undone, Cipher.ReceivedChecksum, Cipher.SentChecksum, Cipher.ByteSum;
    var q := c[5..5 + n];
    Cipher.DecodeLaw(q, c[3]);
    Cipher.DecipheredOnce(q, e, plain, Cipher.Undone(q, 0, 0), Cipher.Decode(q, c[3], 0, 0, 0), c[3]);
    Cipher.ChecksumsAgree(plain);
  }

  /**
   A whole message of 1 to 507 bytes is deciphered and handed out exactly if its byte sum modulo 256 is the
   fifth byte of its header; else nothing is, the message is gone from the ring, and the connection closed.
   */
  lemma HandedOutExactly(c: seq<byte>, n: nat, e: seq<byte>, plain: seq<byte>)
    requires |c| >= 5 && c[0] == 0x77 && n == c[1] + 256 * (c[2] as int) && 1 <= n <= 507 && |c| >= 5 + n
    requires Cipher.Deciphers(c[5..5 + n], e, plain, c[3])
    ensures var (rest, more) := (c[5 + n..], Parse(c[5 + n..]));
            Parse(c) == if Cipher.ByteSum(plain) % 256 == c[4] then Outcome([plain] + more.messages, more.rest, more.status)
                        else Outcome([], rest, Closed)
  {
    hide Cipher.Deciphers, Cipher.Decode, Cipher.Undone, Cipher.ReceivedChecksum, Cipher.SentChecksum, Cipher.ByteSum;
    TakenExactly(c, n, e, plain);
    hide Take;
  }

  /**
   Before that: a wrong code byte or an announced length of zero closes the connection with nothing taken; a
   header or a message that is not all there waits; a whole one of more than 507 bytes has no storage.
   */
  lemma NothingHandedOut(c: seq<byte>)
    ensures |c| < 5 ==> Parse(c) == Outcome([], c, Open)
    ensures |c| >= 5 ==>
              var len := c[1] + 256 * (c[2] as int);
              && (c[0] != 0x77 || len == 0 ==> Parse(c) == Outcome([], c, Closed))
              && (c[0] == 0x77 && len > 0 && |c| < 5 + len ==> Parse(c) == Outcome([], c, Open))
              && (c[0] == 0x77 && len > 507 && |c| >= 5 + len ==> Parse(c) == Outcome([], c, Overrun))
  {
    hide Cipher.Decode, Cipher.ReceivedChecksum;
  }

  // ----- cutting the stream makes no difference ------------------------------------------------

  /** Once a turn can be made, bytes that come later do not change it. */
  lemma TakeExtends(a: seq<byte>, b: seq<byte>)
    requires !Take(a).Wait?
    ensures Take(a + b) == match Take(a)
                           case Corrupt(rest) => Corrupt(rest + b)
                           case Whole(plain, rest) => Whole(plain, rest + b)
                           case t => t
  {
    var c := a + b;
    assert c[0] == a[0] && c[1] == a[1] && c[2] == a[2] && c[3] == a[3] && c[4] == a[4];
    if HEADER_LEN + Announced(a) <= |a| {
      var end := HEADER_LEN + Announced(a);
      assert c[HEADER_LEN..end] == a[HEADER_LEN..end];
      assert c[end..] == a[end..] + b;
    }
  }

  /** Parsing a first part and going on with the rest is parsing the whole, whatever the bytes are. */
  lemma {:induction false} ParseInParts(a: seq<byte>, b: seq<byte>)
    ensures var (o, all) := (Parse(a), Parse(a + b));
            && all.messages == GoOn(o, b).messages && all.status == GoOn(o, b).status
            && (if o.status.Open? then all.rest == GoOn(o, b).rest else all.rest == o.rest + b)
    decreases |a|
  {
    hide Take;
    match Take(a) {
      case Wait => assert [] + Parse(a + b).messages == Parse(a + b).messages;
      case Whole(plain, rest) =>
        TakeExtends(a, b);
        ParseInParts(rest, b);
        var (more, after) := (Parse(rest), Parse(Parse(rest).rest + b));
        assert [plain] + (more.messages + after.messages) == ([plain] + more.messages) + after.messages;
      case _ => TakeExtends(a, b);
    }
  }

  predicate NoneEmpty(chunks: seq<seq<byte>>) {
    forall i :: 0 <= i < |chunks| ==> chunks[i] != []
  }

  /** The bytes of the receives before the first that brings none. */
  function Arrived(chunks: seq<seq<byte>>): seq<byte> {
    if NoneEmpty(chunks) then Concat(chunks) else Arrived(chunks[..|chunks| - 1])
  }

  /**
   However the stream is cut into receives, the messages handed out are those of the bytes that arrived
   before the first empty receive; so is the state of the connection, except that the empty receive closes
   an open one; and while the bytes leave it open, so is what is left over.
   */
  lemma {:induction false} SegmentationIsInvisible(chunks: seq<seq<byte>>)
    ensures var (o, whole) := (ReceiveAll(chunks), Parse(Arrived(chunks)));
            && o.messages == whole.messages
            && o.status == (if whole.status.Open? && !NoneEmpty(chunks) then Closed else whole.status)
            && (whole.status.Open? ==> o.rest == whole.rest)
  {
    if chunks != [] {
      var (init, last) := (chunks[..|chunks| - 1], chunks[|chunks| - 1]);
      SegmentationIsInvisible(init);
      assert NoneEmpty(chunks) <==> NoneEmpty(init) && last != [] by {
        assert chunks == init + [last];
      }
      if NoneEmpty(chunks) {
        ParseInParts(Concat(init), last);
      }
    }
  }

  // ----- what is sent arrives ------------------------------------------------------------------

  /** SetEncodingCode's header and payload, as PostSend puts them on the wire. */
  function Frame(m: Message): seq<byte>
    requires |m.data| < 0x10000
  {
    [Cipher.PACKET_CODE, |m.data| % 256, |m.data| / 256, m.key, Cipher.SentChecksum(m.data)]
    + Cipher.Encode(m.data, m.key, 0, 0, 0)
  }

  predicate Sendable(m: Message) {
    1 <= |m.data| <= STORAGE
  }

  predicate AllSendable(ms: seq<Message>) {
    forall i :: 0 <= i < |ms| ==> Sendable(ms[i])
  }

  function Frames(ms: seq<Message>): seq<byte>
    requires AllSendable(ms)
  {
    if ms == [] then [] else Frame(ms[0]) + Frames(ms[1..])
  }

  function Payloads(ms: seq<Message>): (ps: seq<seq<byte>>)
    ensures |ps| == |ms|
  {
    if ms == [] then [] else [ms[0].data] + Payloads(ms[1..])
  }

  lemma FrameHeader(m: Message)
    requires |m.data| < 0x10000
    ensures var f := Frame(m);
            && |f| == HEADER_LEN + |m.data| && Announced(f) == |m.data|
            && f[0] == Cipher.PACKET_CODE && f[3] == m.key && f[4] == Cipher.SentChecksum(m.data)
            && f[HEADER_LEN..] == Cipher.Encode(m.data, m.key, 0, 0, 0)
  {
  }

  /** A whole frame at the front is taken off, deciphered and handed out. */
  lemma ParseFrame(m: Message, tail: seq<byte>)
    requires Sendable(m)
    ensures var more := Parse(tail);
            Parse(Frame(m) + tail) == Outcome([m.data] + more.messages, more.rest, more.status)
  {
    var (f, end) := (Frame(m), HEADER_LEN + |m.data|);
    var c := f + tail;
    FrameHeader(m);
    assert c[..end] == f && c[end..] == tail;
    assert c[HEADER_LEN..end] == f[HEADER_LEN..];
    Cipher.CipherRoundTrip(m.data, f[HEADER_LEN..], m.key);
    Cipher.ChecksumsAgree(m.data);
    assert Announced(c) == Announced(f);
    assert Take(c) == Whole(m.data, tail);
  }

  /** Part of a frame is left for the next receive. */
  lemma ParsePart(m: Message, part: seq<byte>)
    requires Sendable(m) && |part| < HEADER_LEN + |m.data| && part <= Frame(m)
    ensures Parse(part) == Outcome([], part, Open)
  {
    FrameHeader(m);
  }

  /** The frames and a part of the next one. */
  lemma {:induction false} ParseFrames(ms: seq<Message>, part: seq<byte>)
    requires AllSendable(ms) && Parse(part) == Outcome([], part, Open)
    ensures Parse(Frames(ms) + part) == Outcome(Payloads(ms), part, Open)
  {
    if ms == [] {
      assert [] + part == part;
    } else {
      ParseFrames(ms[1..], part);
      ParseFrame(ms[0], Frames(ms[1..]) + part);
      assert Frame(ms[0]) + (Frames(ms[1..]) + part) == Frames(ms) + part;
    }
  }

  lemma FirstFrameOf(ms: seq<Message>, c: seq<byte>)
    requires AllSendable(ms) && ms != [] && c <= Frames(ms)
    ensures var n := |Frame(ms[0])|;
            if |c| < n then c < Frame(ms[0]) else c[..n] == Frame(ms[0]) && c[n..] <= Frames(ms[1..])
  {
    hide Frame;
    var n := |Frame(ms[0])|;
    assert Frames(ms)[..n] == Frame(ms[0]) && Frames(ms)[n..] == Frames(ms[1..]);
    if |c| < n {
      assert c == Frames(ms)[..n][..|c|];
    } else {
      assert c[..n] == Frames(ms)[..n];
      assert c[n..] == Frames(ms)[n..][..|c| - n];
    }
  }

  lemma FramesOfPrefix(ms: seq<Message>, j: nat)
    requires AllSendable(ms) && j < |ms|
    ensures AllSendable(ms[..j + 1]) && AllSendable(ms[1..][..j])
    ensures Frames(ms[..j + 1]) == Frame(ms[0]) + Frames(ms[1..][..j])
  {
    assert ms[..j + 1][1..] == ms[1..][..j];
  }

  /** A prefix of a stream of frames: whole frames and a proper part of the next. */
  lemma {:induction false} SplitPrefix(ms: seq<Message>, c: seq<byte>) returns (k: nat, part: seq<byte>)
    requires AllSendable(ms) && c <= Frames(ms)
    ensures k <= |ms| && AllSendable(ms[..k]) && c == Frames(ms[..k]) + part
    ensures if k == |ms| then part == [] else part < Frame(ms[k])
  {
    k, part := 0, c;
    if ms != [] {
      FirstFrameOf(ms, c);
      var n := |Frame(ms[0])|;
      if n <= |c| {
        var j;
        j, part := SplitPrefix(ms[1..], c[n..]);
        k := j + 1;
        FramesOfPrefix(ms, j);
        assert c == Frame(ms[0]) + (Frames(ms[1..][..j]) + part);
      }
    }
  }

  /**
   What is sent arrives: of a stream of messages of 1 to 507 bytes, each under any key, whatever part has
   been received, in receives of any sizes, exactly the messages whose last byte is in have been handed
   out, in order and unchanged, and the part of the next one is kept; the connection is open until a
   receive brings nothing.
   */
  lemma WhatIsSentArrives(ms: seq<Message>, chunks: seq<seq<byte>>) returns (k: nat)
    requires AllSendable(ms) && Arrived(chunks) <= Frames(ms)
    ensures k <= |ms| && AllSendable(ms[..k])
    ensures var o := ReceiveAll(chunks);
            && o.messages == Payloads(ms[..k]) && o.status == (if NoneEmpty(chunks) then Open else Closed)
            && Arrived(chunks) == Frames(ms[..k]) + o.rest
            && (if k == |ms| then o.rest == [] else o.rest < Frame(ms[k]))
  {
    var part;
    k, part := SplitPrefix(ms, Arrived(chunks));
    if k < |ms| {
      assert Sendable(ms[k]);
      FrameHeader(ms[k]);
      ParsePart(ms[k], part);
    }
    ParseFrames(ms[..k], part);
    SegmentationIsInvisible(chunks);
  }

  /** Exactly the messages of 1 to 507 bytes arrive: an empty one closes the connection, a longer one has no storage. */
  lemma ArrivesExactly(m: Message)
    requires |m.data| < 0x10000
    ensures Parse(Frame(m)).messages == [m.data] <==> Sendable(m)
    ensures |m.data| == 0 ==> Parse(Frame(m)).status == Closed
    ensures |m.data| > STORAGE ==> Parse(Frame(m)).status == Overrun
  {
    FrameHeader(m);
    if Sendable(m) {
      ParseFrame(m, []);
      assert Frame(m) + [] == Frame(m);
    }
  }

  // ----- the ring never fills up ---------------------------------------------------------------

  /** What an open connection leaves in the ring is less than the message it waits for. */
  lemma {:induction false} RestIsPart(c: seq<byte>)
    ensures var o := Parse(c);
            o.status.Open? ==> |o.rest| < HEADER_LEN || |o.rest| < HEADER_LEN + Announced(o.rest)
    decreases |c|
  {
    if Take(c).Whole? {
      RestIsPart(Take(c).rest);
    }
  }

  /** A receive ring of `room` usable bytes is full, with nothing to parse, only if a message is announced that it can never hold. */
  lemma RingFillsOnlyForGiants(chunks: seq<seq<byte>>, room: nat)
    requires ReceiveAll(chunks).status.Open? && |ReceiveAll(chunks).rest| >= room >= HEADER_LEN
    ensures HEADER_LEN + Announced(ReceiveAll(chunks).rest) > room
  {
    SegmentationIsInvisible(chunks);
    RestIsPart(Arrived(chunks));
  }
}
