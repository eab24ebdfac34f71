/**
 Req_Chat: it builds the response, then visits the cells around the sender one after the other, each
 under its shared lock, and collects the session IDs of the logged-in players in its set.
 */
module Chat {
  import opened Options
  import opened SectorIndex
  import opened Around
  import opened Wire
  import ChatReply
  import Packet
  import SectorMove

  /** The moment of a visit: the sector map, and the players whose isLogined is set. */
  datatype Moment = Moment(s: Sectors, logined: set<Pid>)

  /** The moment at which each cell is visited; between two visits other threads may do anything. */
  type Visits = map<Cell, Moment>

  predicate Visited(v: Visits, c: Cell) {
    c in v && c in v[c].s.sets
  }

  predicate AllVisited(v: Visits, cells: seq<Cell>) {
    forall c :: c in cells ==> Visited(v, c)
  }

  /** The visit of `c` finds `p` there and logged in. */
  predicate Seen(v: Visits, c: Cell, p: Pid)
    requires Visited(v, c)
  {
    p in v[c].s.sets[c] && p in v[c].logined
  }

  /** How many of the visits find `p`. */
  function Sightings(v: Visits, cells: seq<Cell>, p: Pid): nat
    requires AllVisited(v, cells)
  {
    if cells == [] then 0
    else Sightings(v, cells[..|cells| - 1], p) + (if Seen(v, cells[|cells| - 1], p) then 1 else 0)
  }

  /** The logged-in players among `found` whose session ID is `x`. */
  function Bearers(found: set<Pid>, logined: set<Pid>, sid: map<Pid, nat>, x: nat): set<Pid> {
    set p | p in found && p in logined && p in sid && sid[p] == x
  }

  lemma OneMoreBearer(found: set<Pid>, p: Pid, logined: set<Pid>, sid: map<Pid, nat>, x: nat)
    requires p !in found && p in sid
    ensures |Bearers(found + {p}, logined, sid, x)|
            == |Bearers(found, logined, sid, x)| + (if p in logined && sid[p] == x then 1 else 0)
  {
    var (b, b') := (Bearers(found, logined, sid, x), Bearers(found + {p}, logined, sid, x));
    assert b' == if p in logined && sid[p] == x then b + {p} else b;
  }

  function BearersAt(v: Visits, c: Cell, sid: map<Pid, nat>, x: nat): set<Pid>
    requires Visited(v, c)
  {
    Bearers(v[c].s.sets[c], v[c].logined, sid, x)
  }

  /** How often the visits collect the session ID `x`. */
  function Addressed(v: Visits, cells: seq<Cell>, sid: map<Pid, nat>, x: nat): nat
    requires AllVisited(v, cells)
  {
    if cells == [] then 0
    else Addressed(v, cells[..|cells| - 1], sid, x) + |BearersAt(v, cells[|cells| - 1], sid, x)|
  }

  /** Every player in a visited set has a session ID. */
  predicate Known(v: Visits, sid: map<Pid, nat>) {
    forall c, p :: c in v && c in v[c].s.sets && p in v[c].s.sets[c] ==> p in sid
  }

  /** One visit: the loop over the cell's set. */
  method Collect(found: set<Pid>, logined: set<Pid>, sid: map<Pid, nat>) returns (to: seq<nat>)
    requires forall p :: p in found ==> p in sid
    ensures forall x :: multiset(to)[x] == |Bearers(found, logined, sid, x)|
  {
    to := [];
    var rest := found;
    ghost var done: set<Pid> := {};
    while rest != {}
      invariant rest + done == found && rest !! done
      invariant forall x :: multiset(to)[x] == |Bearers(done, logined, sid, x)|
      decreases rest
    {
      var p :| p in rest;
      forall x ensures |Bearers(done + {p}, logined, sid, x)|
                       == |Bearers(done, logined, sid, x)| + (if p in logined && sid[p] == x then 1 else 0)
      {
        OneMoreBearer(done, p, logined, sid, x);
      }
      rest, done := rest - {p}, done + {p};
      if p in logined {
        to := to + [sid[p]];
      }
    }
    assert done == found;
  }

  /**
   `Refused` returns false. `Hangs`: Res_Chat does not return. `Overruns`: it writes behind the block of
   its packet. `Sends` returns true, once the response has gone to the collected sessions.
   */
  datatype Outcome = Refused | Hangs | Overruns | Sends

  /** The length in a request: two bytes behind the eight of the account, low byte first, or in their place. */
  function LengthIn(u: seq<byte>): nat {
    if |u| >= 10 then u[8] + 256 * (u[9] as int) else if 2 <= |u| < 8 then u[0] + 256 * (u[1] as int) else 0
  }

  /** The bytes behind it. */
  function BodyIn(u: seq<byte>): seq<byte> {
    if |u| >= 10 then u[10..] else if 2 <= |u| < 8 then u[2..] else []
  }

  /** The text that is sent on. */
  function TextIn(u: seq<byte>, scratch: seq<byte>): (text: seq<byte>)
    requires |scratch| >= 0x10000
    ensures |text| == LengthIn(u) < 0x10000
  {
    if LengthIn(u) <= |BodyIn(u)| then BodyIn(u)[..LengthIn(u)] else scratch[..LengthIn(u)]
  }

  /**
   How Req_Chat ends on a request with the unread bytes `u`: it hangs exactly for a logged-in sender and a
   length above 420, overruns its packet exactly from 416 on, and sends exactly up to that, if the message is
   not empty and the sender in a valid sector; then the response holds the text.
   */
  ghost predicate Answers(outcome: Outcome, isLogined: bool, placed: bool, u: seq<byte>, scratch: seq<byte>,
                          who: ChatReply.Speaker, packet: Packet.Buffer)
    requires |scratch| >= 0x10000 && ChatReply.SpeakerOk(who) && ChatReply.FromPool(packet)
  {
    var (len, reply) := (LengthIn(u), ChatReply.Reply(who, TextIn(u, scratch)));
    && (outcome.Hangs? <==> isLogined && len > 420)
    && (outcome.Overruns? <==> isLogined && 415 < len <= 420)
    && (outcome.Sends? <==> isLogined && 0 < len <= 415 && placed)
    && (outcome.Hangs? ==> !Packet.Ended(packet, reply))
    && (outcome.Overruns? ==> Packet.Ended(packet, reply) && !Packet.Runs(packet, reply))
    && (outcome.Sends? ==>
          && Packet.Runs(packet, reply)
          && Packet.Unread(Packet.State(packet, reply)) == ChatReply.ReplyBytes(who, TextIn(u, scratch)))
  }

  lemma LengthFromBytes(request: Packet.Buffer)
    requires Packet.Valid(request)
    ensures ChatReply.Header(request).1 == LengthIn(Packet.Unread(request))
  {
    ChatReply.HeaderExactly(request);
    hide ChatReply.Header, Packet.Unread;
  }

  lemma TextFromBytes(request: Packet.Buffer, scratch: seq<byte>)
    requires Packet.Valid(request) && |scratch| >= 0x10000
    ensures ChatReply.Text(request, scratch) == TextIn(Packet.Unread(request), scratch)
  {
    LengthFromBytes(request);
    ChatReply.TextExactly(request, scratch);
    hide ChatReply.Header, ChatReply.Text, Packet.Unread;
  }

  /** In the order of the tests: the response is built before the sector is looked at. */
  function Decided(isLogined: bool, placed: bool, len: nat): Outcome {
    if !isLogined || len == 0 then Refused
    else if len > 420 then Hangs
    else if len > 415 then Overruns
    else if !placed then Refused
    else Sends
  }

  lemma DecidedAnswers(isLogined: bool, placed: bool, u: seq<byte>, scratch: seq<byte>,
                       who: ChatReply.Speaker, packet: Packet.Buffer)
    requires |scratch| >= 0x10000 && ChatReply.SpeakerOk(who) && ChatReply.FromPool(packet)
    ensures Answers(Decided(isLogined, placed, LengthIn(u)), isLogined, placed, u, scratch, who, packet)
  {
    ChatReply.ReplyExactly(packet, who, TextIn(u, scratch));
    hide Packet.Ended, Packet.Runs, Packet.State, Packet.Unread, ChatReply.Reply, ChatReply.ReplyBytes, TextIn, LengthIn;
  }

  /**
   Req_Chat. It does not return exactly if the sender is logged in and the length field of the request
   is above 420, and from 416 on it leaves the block of the response, whatever the sender's sector; it
   refuses a sender that is not logged in, an empty message, and a sender in no valid sector; else each
   session ID is collected once for each visit, of each cell within one of the sender's, that finds a
   logged-in player of that session, and the response holds the text.
   */
  method ReqChat(isLogined: bool, who: ChatReply.Speaker, request: Packet.Buffer, ghost scratch: seq<byte>,
                 ghost packet: Packet.Buffer, cx: nat, cy: nat, width: nat, height: nat,
                 v: Visits, sid: map<Pid, nat>)
    returns (outcome: Outcome, to: seq<nat>, a: Area)
    requires Packet.Valid(request) && |scratch| >= 0x10000
    requires ChatReply.SpeakerOk(who) && ChatReply.FromPool(packet)
    requires Known(v, sid) && forall c :: InGrid(c, width, height) ==> Visited(v, c)
    ensures Answers(outcome, isLogined, cx < width && cy < height, Packet.Unread(request), scratch, who, packet)
    ensures !outcome.Sends? ==> to == []
    ensures outcome.Sends? ==>
              && Covers(a, cx, cy, width, height) && AllVisited(v, a.map9[..a.count])
              && forall x :: multiset(to)[x] == Addressed(v, a.map9[..a.count], sid, x)
  {
    outcome, to, a := Refused, [], Area(0, []);
    var len := ChatReply.Header(request).1;
    LengthFromBytes(request);
    DecidedAnswers(isLogined, cx < width && cy < height, Packet.Unread(request), scratch, who, packet);
    hide Answers, LengthIn, Packet.Unread, ChatReply.Header;
    if !isLogined || len == 0 {
      return;
    }
    if len > 420 {
      return Hangs, to, a;
    }
    if len > 415 {
      return Overruns, to, a;
    }
    if !IsValidSector(cx, cy, width, height) {
      return;
    }
    outcome := Sends;
    to, a := Targets(cx, cy, width, height, v, sid);
  }

  /** The visits of Req_Chat. */
  method Targets(cx: nat, cy: nat, width: nat, height: nat, v: Visits, sid: map<Pid, nat>)
    returns (to: seq<nat>, a: Area)
    requires Known(v, sid) && forall c :: InGrid(c, width, height) ==> Visited(v, c)
    ensures Covers(a, cx, cy, width, height) && AllVisited(v, a.map9[..a.count])
    ensures forall x :: multiset(to)[x] == Addressed(v, a.map9[..a.count], sid, x)
  {
    to := [];
    a := MakeAround(cx, cy, width, height);
    ghost var cells := a.map9[..a.count];
    for k := 0 to a.count
      invariant AllVisited(v, cells)
      invariant forall x :: multiset(to)[x] == Addressed(v, cells[..k], sid, x)
    {
      assert cells[..k + 1][..k] == cells[..k] && a.map9[k] == cells[k] && cells[k] in cells;
      var more := Collect(v[a.map9[k]].s.sets[a.map9[k]], v[a.map9[k]].logined, sid);
      to := to + more;
    }
    assert cells[..a.count] == cells;
  }

  // ----- the simple form -----------------------------------------------------------------------

  /** A session whose players seen in the visits are one player is addressed once per sighting of it. */
  lemma {:induction false} AddressedIsSighted(v: Visits, cells: seq<Cell>, sid: map<Pid, nat>, p: Pid)
    requires AllVisited(v, cells) && p in sid
    requires forall c, q :: c in cells && q in v[c].s.sets[c] && q in sid && sid[q] == sid[p] ==> q == p
    ensures Addressed(v, cells, sid, sid[p]) == Sightings(v, cells, p)
  {
    if cells != [] {
      var c := cells[|cells| - 1];
      AddressedIsSighted(v, cells[..|cells| - 1], sid, p);
      assert c in cells;
      assert BearersAt(v, c, sid, sid[p]) == if Seen(v, c, p) then {p} else {};
    }
  }

  /** At every visit `p` is settled, its fields say `at`, and it is logged in or not as `on` says. */
  ghost predicate StaysPut(v: Visits, cells: seq<Cell>, p: Pid, at: Option<Cell>, on: bool)
    requires AllVisited(v, cells)
  {
    forall c :: c in cells ==>
      Inv(v[c].s) && Settled(v[c].s, p) && Field(v[c].s, p) == at && (p in v[c].logined <==> on)
  }

  lemma {:induction false} SightingsOfUnmoved(v: Visits, cells: seq<Cell>, p: Pid, at: Option<Cell>, on: bool)
    requires AllVisited(v, cells) && Distinct(cells) && StaysPut(v, cells, p, at, on)
    ensures Sightings(v, cells, p) == if on && at.Some? && at.value in cells then 1 else 0
  {
    if cells != [] {
      var (init, c) := (cells[..|cells| - 1], cells[|cells| - 1]);
      assert cells == init + [c] && c in cells;
      SightingsOfUnmoved(v, init, p, at, on);
      SettledHere(v[c].s, p, c);
    }
  }

  /**
   The fast form refines the simple one: whatever the others do during the visits, a player that stays
   where it is is collected exactly once if it is logged in and within one of the sender, else never.
   */
  lemma UnmovedHearExactlyOnce(v: Visits, a: Area, p: Pid, at: Option<Cell>, on: bool,
                               cx: nat, cy: nat, width: nat, height: nat, sid: map<Pid, nat>)
    requires Covers(a, cx, cy, width, height) && AllVisited(v, a.map9[..a.count])
    requires at.Some? ==> InGrid(at.value, width, height)
    requires StaysPut(v, a.map9[..a.count], p, at, on)
    requires p in sid && forall c, q :: c in a.map9[..a.count] && q in v[c].s.sets[c] && q in sid && sid[q] == sid[p] ==> q == p
    ensures Addressed(v, a.map9[..a.count], sid, sid[p]) == if on && at.Some? && Near(at.value, cx, cy) then 1 else 0
  {
    SightingsOfUnmoved(v, a.map9[..a.count], p, at, on);
    AddressedIsSighted(v, a.map9[..a.count], sid, p);
  }

  // ----- a player that moves during the collection ---------------------------------------------

  /** Not erased yet by the request that takes `p` from `c` to another cell. */
  predicate StillIn(s: Sectors, p: Pid, c: Cell) {
    !Moving(s, p).Cleared? && !Unwritten(s, p) && Names(s, p, c)
  }

  /** Inserted by the request that brings `p` to `d`. */
  predicate AlreadyIn(s: Sectors, p: Pid, d: Cell) {
    if Unwritten(s, p) then Moving(s, p).to == d else !Moving(s, p).Cleared? && Names(s, p, d)
  }

  /** At the moment of every visit `p` is before, between or after the erase and the insert of one move from `c` to `d`. */
  ghost predicate MovesOnce(v: Visits, cells: seq<Cell>, p: Pid, c: Cell, d: Cell)
    requires AllVisited(v, cells)
  {
    forall x :: x in cells ==>
      Inv(v[x].s) && p !in v[x].s.wiped && (StillIn(v[x].s, p, c) || Moving(v[x].s, p).Cleared? || AlreadyIn(v[x].s, p, d))
  }

  function One(b: bool): nat {
    if b then 1 else 0
  }

  /**
   The count for one move during the collection: a player that moves from `c` to `d` is seen once if `c` is
   visited before the erase, and once more if `d` is visited after the insert, each time if it is logged
   in at that moment; so it may hear once, twice or not at all.
   */
  lemma {:induction false} MoverHearsExactly(v: Visits, cells: seq<Cell>, p: Pid, c: Cell, d: Cell)
    requires AllVisited(v, cells) && Distinct(cells) && c != d && MovesOnce(v, cells, p, c, d)
    ensures Sightings(v, cells, p) == One(c in cells && p in v[c].logined && StillIn(v[c].s, p, c))
                                      + One(d in cells && p in v[d].logined && AlreadyIn(v[d].s, p, d))
  {
    if cells != [] {
      var (init, x) := (cells[..|cells| - 1], cells[|cells| - 1]);
      assert cells == init + [x] && x in cells && x !in init;
      MoverHearsExactly(v, init, p, c, d);
      assert ListOk(v[x].s, p, x);
    }
  }

  /** And twice it may be: `t` has the shared lock of `c`; `u` moves `p` before `t` comes to `d`. */
  lemma MovedHearTwice(s: Sectors, t: Tid, u: Tid, p: Pid, c: Cell, d: Cell, width: nat) returns (acts: seq<Act>)
    requires Inv(s) && t != u && t < |s.motion| && c != d && Names(s, p, c) && Settled(s, p)
    requires Reader(c, t) in s.readers && SectorMove.MayAsk(Do(s, UnlockShared(t, c)), u, p, d)
    ensures Run(s, acts)
    ensures var s' := After(s, acts);
            && Reader(d, t) in s'.readers
            && var v := map[c := Moment(s, {p}), d := Moment(s', {p})];
               AllVisited(v, [c, d]) && Sightings(v, [c, d], p) == 2
  {
    assert PlaceOk(s, p);
    SettledHere(s, p, c);
    var s1 := Do(s, UnlockShared(t, c));
    RunOfOne(s, UnlockShared(t, c));
    InvAfter(s, UnlockShared(t, c));
    var request := SectorMove.WholeRequest(s1, u, p, d, width);
    SectorMove.RunRequest(s1, u, p, d, width);
    var s2 := SectorMove.Moved(s1, p, d);
    RunOfOne(s2, LockShared(t, d));
    var s3 := Do(s2, LockShared(t, d));
    RunsInTurn(s1, request, [LockShared(t, d)], s2, s3);
    RunsInTurn(s, [UnlockShared(t, c)], request + [LockShared(t, d)], s1, s3);
    acts := [UnlockShared(t, c)] + (request + [LockShared(t, d)]);
    var v := map[c := Moment(s, {p}), d := Moment(s3, {p})];
    assert [c, d][..1] == [c] && [c][..0] == [];
    assert Sightings(v, [c], p) == 1;
  }

  /** A player that a leave has wiped from the cell its fields name is never collected. */
  lemma LeftHearNothing(v: Visits, cells: seq<Cell>, p: Pid)
    requires AllVisited(v, cells)
    requires forall c :: c in cells ==> Inv(v[c].s) && p in v[c].s.wiped
    ensures Sightings(v, cells, p) == 0
  {
    if cells != [] {
      var c := cells[|cells| - 1];
      LeftHearNothing(v, cells[..|cells| - 1], p);
      assert c in cells && ListOk(v[c].s, p, c);
    }
  }
}
