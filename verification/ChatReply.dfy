/**
 The packets around a chat message: what Req_Chat reads from the request, and what Res_Chat and the
 other responses write into a packet from the pool.
 */
module ChatReply {
  import opened Options
  import opened Wire
  import opened Packet

  // ----- the response --------------------------------------------------------------------------

  const RES_LOGIN: int := 2
  const RES_SECTOR_MOVE: int := 4
  const RES_MESSAGE: int := 6

  /** What a response says about the player that spoke. */
  datatype Speaker = Speaker(account: seq<byte>, id: seq<byte>, nick: seq<byte>)

  predicate SpeakerOk(who: Speaker) {
    |who.account| == 8 && |who.id| == 40 && |who.nick| == 40
  }

  /** operator<< of a value given as its bytes. */
  function Shift(bytes: seq<byte>): Op {
    Put(bytes, 2 * |bytes|)
  }

  function Block(bytes: seq<byte>): Op {
    Put(bytes, |bytes|)
  }

  function WordBytes(v: int): (b: seq<byte>)
    requires 0 <= v < 0x10000
    ensures |b| == 2
  {
    LittleEndian(v, 2)
  }

  /** Res_Chat: type, account, name, nickname, length and text. */
  function Reply(who: Speaker, text: seq<byte>): (ops: seq<Op>)
    requires |text| < 0x10000
  {
    [Shift(WordBytes(RES_MESSAGE)), Shift(who.account), Block(who.id), Block(who.nick), Shift(WordBytes(|text|)), Block(text)]
  }

  function LoginReply(account: seq<byte>, status: byte): seq<Op> {
    [Shift(WordBytes(RES_LOGIN)), Shift([status]), Shift(account)]
  }

  function SectorMoveReply(account: seq<byte>, x: int, y: int): seq<Op>
    requires 0 <= x < 0x10000 && 0 <= y < 0x10000
  {
    [Shift(WordBytes(RES_SECTOR_MOVE)), Shift(account), Shift(WordBytes(x)), Shift(WordBytes(y))]
  }

  function LoginResult(who: Speaker): seq<Op> {
    [Shift(who.account), Block(who.id), Block(who.nick)]
  }

  /** What is only written is queued. */
  lemma {:induction false} WrittenIsQueued(ops: seq<Op>)
    requires PutsOnly(ops)
    ensures BytesPut(ops) == |Fifo([], ops)|
  {
    if ops != [] {
      assert Last(ops) == ops[|ops| - 1] && PutsOnly(Before(ops));
      WrittenIsQueued(Before(ops));
    }
  }

  lemma QueuedSnoc(ops: seq<Op>, op: Op)
    requires op.Put?
    ensures Fifo([], ops + [op]) == Fifo([], ops) + op.data
  {
    assert Before(ops + [op]) == ops;
  }

  /** A packet from the pool. */
  predicate FromPool(b: Buffer) {
    Empty(b) && b.max == 512 && !b.repaired
  }

  /** The response as it goes on the wire, before the cipher. */
  function ReplyBytes(who: Speaker, text: seq<byte>): (all: seq<byte>)
    requires |text| < 0x10000
    ensures SpeakerOk(who) ==> |all| == 92 + |text|
  {
    WordBytes(RES_MESSAGE) + who.account + who.id + who.nick + WordBytes(|text|) + text
  }

  lemma WordBytesAre(v: int)
    requires 0 <= v < 0x10000
    ensures var b := WordBytes(v); b[0] == v % 256 && b[1] == v / 256
  {
    assert LittleEndian(v, 2)[1..] == LittleEndian(v / 256, 1);
  }

  lemma ReplyParts(who: Speaker, text: seq<byte>)
    requires SpeakerOk(who) && |text| < 0x10000
    ensures var all := ReplyBytes(who, text);
            && |all| == 92 + |text|
            && all[0] == 6 && all[1] == 0 && all[2..10] == who.account && all[10..50] == who.id && all[50..90] == who.nick
            && all[90] + 256 * (all[91] as int) == |text| && all[92..] == text
  {
    WordBytesAre(6);
    WordBytesAre(|text|);
    hide WordBytes;
  }

  lemma ReplyIsQueued(who: Speaker, text: seq<byte>)
    requires |text| < 0x10000
    ensures Fifo([], Reply(who, text)) == ReplyBytes(who, text)
  {
    var ops := Reply(who, text);
    assert ops[..1] == [] + [ops[0]] && ops[..2] == ops[..1] + [ops[1]] && ops[..3] == ops[..2] + [ops[2]];
    assert ops[..4] == ops[..3] + [ops[3]] && ops[..5] == ops[..4] + [ops[4]] && ops == ops[..5] + [ops[5]];
    QueuedSnoc([], ops[0]);
    QueuedSnoc(ops[..1], ops[1]);
    QueuedSnoc(ops[..2], ops[2]);
    QueuedSnoc(ops[..3], ops[3]);
    QueuedSnoc(ops[..4], ops[4]);
    QueuedSnoc(ops[..5], ops[5]);
  }

  /**
   Res_Chat returns exactly if the text has at most 420 bytes, and stays in its packet's block exactly if
   it has at most 415; then the packet holds the response and nothing else.
   */
  lemma ReplyExactly(b: Buffer, who: Speaker, text: seq<byte>)
    requires FromPool(b) && SpeakerOk(who) && |text| < 0x10000
    ensures Ended(b, Reply(who, text)) <==> |text| <= 420
    ensures Runs(b, Reply(who, text)) <==> |text| <= 415
    ensures |text| <= 415 ==>
              var all := Unread(State(b, Reply(who, text)));
              && all == ReplyBytes(who, text) && |all| == 92 + |text|
              && all[0] == 6 && all[1] == 0 && all[2..10] == who.account && all[10..50] == who.id && all[50..90] == who.nick
              && all[90] + 256 * (all[91] as int) == |text| && all[92..] == text
  {
    ReplyParts(who, text);
    ReplyIsQueued(who, text);
    WrittenIsQueued(Reply(who, text));
    WritesOnly(b, Reply(who, text));
    if |text| <= 415 {
      RefinesFifo(b, Reply(who, text));
      assert Unread(b) == [];
    }
  }

  /** The failing input: the shortest text for which Res_Chat does not return, and the shortest that leaves the block. */
  lemma LongTextNeverReturns(b: Buffer, who: Speaker, text: seq<byte>)
    requires FromPool(b) && SpeakerOk(who)
    ensures |text| == 421 ==> !Ended(b, Reply(who, text))
    ensures |text| == 416 ==> Ended(b, Reply(who, text)) && !Runs(b, Reply(who, text))
  {
    if |text| == 421 || |text| == 416 {
      ReplyExactly(b, who, text);
    }
  }

  lemma SumOfFour(a: Op, b: Op, c: Op, d: Op)
    requires a.Put? && b.Put? && c.Put? && d.Put?
    ensures BytesPut([a, b, c]) == |a.data| + |b.data| + |c.data|
    ensures BytesPut([a, b, c, d]) == |a.data| + |b.data| + |c.data| + |d.data|
  {
    assert Before([a]) == [] && Before([a, b]) == [a] && Before([a, b, c]) == [a, b] && Before([a, b, c, d]) == [a, b, c];
    assert BytesPut([a]) == |a.data|;
    assert BytesPut([a, b]) == |a.data| + |b.data|;
  }

  lemma FifoOfNone()
    ensures Fifo([], []) == []
  {
  }

  lemma FifoOfFour(a: Op, b: Op, c: Op, d: Op)
    requires a.Put? && b.Put? && c.Put? && d.Put?
    ensures Fifo([], [a, b, c]) == a.data + b.data + c.data
    ensures Fifo([], [a, b, c, d]) == a.data + b.data + c.data + d.data
  {
    hide Fifo;
    assert Fifo([], []) == [] by { FifoOfNone(); }
    assert [a] == [] + [a] && [a, b] == [a] + [b] && [a, b, c] == [a, b] + [c] && [a, b, c, d] == [a, b, c] + [d];
    QueuedSnoc([], a);
    QueuedSnoc([a], b);
    QueuedSnoc([a, b], c);
    QueuedSnoc([a, b, c], d);
  }

  /** What a packet from the pool holds after writes that stay in the block. */
  lemma Written(b: Buffer, ops: seq<Op>)
    requires FromPool(b) && Runs(b, ops)
    ensures Unread(State(b, ops)) == Fifo([], ops)
  {
    RefinesFifo(b, ops);
    assert Unread(b) == [];
  }

  /** The other responses always return and stay in their packet's block, and this is what they say. */
  lemma OtherRepliesFit(b: Buffer, who: Speaker, status: byte, x: int, y: int)
    requires FromPool(b) && SpeakerOk(who) && 0 <= x < 0x10000 && 0 <= y < 0x10000
    ensures Runs(b, LoginReply(who.account, status))
    ensures Runs(b, SectorMoveReply(who.account, x, y))
    ensures Runs(b, LoginResult(who))
    ensures Unread(State(b, LoginReply(who.account, status))) == [2, 0] + [status] + who.account
    ensures Unread(State(b, SectorMoveReply(who.account, x, y))) == [4, 0] + who.account + [x % 256, x / 256] + [y % 256, y / 256]
    ensures Unread(State(b, LoginResult(who))) == who.account + who.id + who.nick
  {
    RepliesRun(b, who, status, x, y);
    var account := Shift(who.account);
    FifoOfFour(Shift(WordBytes(RES_LOGIN)), Shift([status]), account, account);
    FifoOfFour(Shift(WordBytes(RES_SECTOR_MOVE)), account, Shift(WordBytes(x)), Shift(WordBytes(y)));
    FifoOfFour(account, Block(who.id), Block(who.nick), account);
    Written(b, LoginReply(who.account, status));
    Written(b, SectorMoveReply(who.account, x, y));
    Written(b, LoginResult(who));
    WordIs(RES_LOGIN);
    WordIs(RES_SECTOR_MOVE);
    WordIs(x);
    WordIs(y);
    hide Runs, State, Fifo, WordBytes, FromPool, Unread;
  }

  lemma WordIs(v: int)
    requires 0 <= v < 0x10000
    ensures WordBytes(v) == [v % 256, v / 256]
  {
    WordBytesAre(v);
  }

  lemma RepliesRun(b: Buffer, who: Speaker, status: byte, x: int, y: int)
    requires FromPool(b) && SpeakerOk(who) && 0 <= x < 0x10000 && 0 <= y < 0x10000
    ensures Runs(b, LoginReply(who.account, status))
    ensures Runs(b, SectorMoveReply(who.account, x, y))
    ensures Runs(b, LoginResult(who))
  {
    var account := Shift(who.account);
    SumOfFour(Shift(WordBytes(RES_LOGIN)), Shift([status]), account, account);
    SumOfFour(Shift(WordBytes(RES_SECTOR_MOVE)), account, Shift(WordBytes(x)), Shift(WordBytes(y)));
    SumOfFour(account, Block(who.id), Block(who.nick), account);
    WritesOnly(b, LoginReply(who.account, status));
    WritesOnly(b, SectorMoveReply(who.account, x, y));
    WritesOnly(b, LoginResult(who));
  }

  // ----- the request ---------------------------------------------------------------------------

  /** A read into a variable; a short read leaves what was in it. */
  function ReadInto(b: Buffer, initial: seq<byte>): (r: (Buffer, seq<byte>))
    requires Valid(b)
    ensures Valid(r.0) && |r.1| == |initial|
  {
    var (b', got) := Read(b, |initial|);
    (b', if got.Some? then got.value else initial)
  }

  /** The request behind its account and length fields, and the length that Req_Chat has read. */
  function Header(request: Buffer): (r: (Buffer, nat))
    requires Valid(request)
    ensures Valid(r.0) && r.1 < 0x10000
  {
    var behindAccount := ReadInto(request, [0, 0, 0, 0, 0, 0, 0, 0]).0;
    var (rest, len) := ReadInto(behindAccount, [0, 0]);
    assert Pow256(2) == 0x10000;
    (rest, FromLittleEndian(len))
  }

  /** The text that is sent on: `scratch` is what the memory from `msg` on holds before the GetData. */
  function Text(request: Buffer, scratch: seq<byte>): (text: seq<byte>)
    requires Valid(request) && |scratch| >= 0x10000
    ensures |text| == Header(request).1
  {
    var (rest, len) := Header(request);
    ReadInto(rest, scratch[..len]).1
  }

  lemma TwoBytes(b: seq<byte>)
    requires |b| == 2
    ensures FromLittleEndian(b) == b[0] + 256 * (b[1] as int)
  {
    assert b[1..] == [b[1]] && b[1..][1..] == [];
    assert FromLittleEndian(b[1..]) == b[1];
  }

  lemma ReadIs(b: Buffer, initial: seq<byte>)
    requires Valid(b)
    ensures var (r, n) := (ReadInto(b, initial), |initial|);
            if n <= |Unread(b)| then Unread(r.0) == Unread(b)[n..] && r.1 == Unread(b)[..n]
            else Unread(r.0) == Unread(b) && r.1 == initial
  {
  }

  /**
   The length is in the two bytes behind the eight of the account, low byte first, and the rest is behind
   them. A request without eight bytes skips no account, and one without two more has length zero.
   */
  lemma HeaderExactly(request: Buffer)
    requires Valid(request)
    ensures var (u, rest, len) := (Unread(request), Unread(Header(request).0), Header(request).1);
            && (|u| >= 10 ==> len == u[8] + 256 * (u[9] as int) && rest == u[10..])
            && (8 <= |u| < 10 ==> len == 0 && rest == u[8..])
            && (2 <= |u| < 8 ==> len == u[0] + 256 * (u[1] as int) && rest == u[2..])
            && (|u| < 2 ==> len == 0 && rest == u)
  {
    var u := Unread(request);
    ReadIs(request, [0, 0, 0, 0, 0, 0, 0, 0]);
    var behind := ReadInto(request, [0, 0, 0, 0, 0, 0, 0, 0]).0;
    ReadIs(behind, [0, 0]);
    TwoBytes(ReadInto(behind, [0, 0]).1);
  }

  /** And the text is the bytes behind the length, if there are as many. */
  lemma TextExactly(request: Buffer, scratch: seq<byte>)
    requires Valid(request) && |scratch| >= 0x10000
    ensures var (u, text, len) := (Unread(request), Text(request, scratch), Header(request).1);
            && (|u| >= 10 ==> text == if len <= |u| - 10 then u[10..10 + len] else scratch[..len])
            && (2 <= |u| < 8 ==> text == if len <= |u| - 2 then u[2..2 + len] else scratch[..len])
            && (|u| < 2 || 8 <= |u| < 10 ==> text == [])
  {
    HeaderExactly(request);
    var (rest, len) := Header(request);
    ReadIs(rest, scratch[..len]);
    hide Header, ReadInto, Unread;
  }

  /**
   The text sent on is the text received exactly if the request has as many bytes left as its length
   field says; else it is what the uninitialised array happens to hold.
   */
  lemma TextIsReceivedExactly(request: Buffer)
    requires Valid(request)
    ensures var (rest, len) := Header(request);
            && (len <= |Unread(rest)| ==>
                  forall scratch: seq<byte> :: |scratch| >= 0x10000 ==> Text(request, scratch) == Unread(rest)[..len])
            && (len > |Unread(rest)| ==>
                  forall scratch: seq<byte> :: |scratch| >= 0x10000 ==> Text(request, scratch) == scratch[..len])
            && (len > 0 ==>
                  ((forall s1: seq<byte>, s2: seq<byte> :: |s1| == |s2| == 0x10000 ==> Text(request, s1) == Text(request, s2))
                   <==> len <= |Unread(rest)|))
  {
    var (rest, len) := Header(request);
    if 0 < len && |Unread(rest)| < len {
      var zeros: seq<byte> := seq(0x10000, _ => 0);
      var ones: seq<byte> := seq(0x10000, _ => 1);
      assert Text(request, zeros) == zeros[..len] && Text(request, ones) == ones[..len];
      assert zeros[..len][0] != ones[..len][0];
    }
  }
}
