# Verified model of the IOCP chat server

A Dafny model of the sector-based chat server in `ConsoleApplication2`: how a `Player` lives and dies
under concurrent threads, how the sector sets follow the players' fields, when the sector locks can and
cannot block for ever, who hears a chat message, how packets are filled, ciphered, framed, counted and
sent, and how session slots are created, locked and released. `dafny verify dfyconfig.toml` checks it.

The model follows the function bodies, in the order in which they act. Threads interleave freely: a
protocol is a transition system, each step one atomic action of one thread, and the results hold for
every run. Code that works in place is a class or a method over arrays, proved against a function.

Several rules that the repository's own README states are not what the code does. There the model keeps
the code, a lemma exhibits a run on which the rule fails, and another says exactly when it holds.
Members with `Repaired` in their name, or under `repaired`, speak of the code with one line changed, and
of nothing that is in the repository.

| file | models |
|---|---|
| `PlayerLife.dfy` | pool, player map, reference count and closing flag, under any number of threads |
| `PlayerCalls.dfy` | JoinProc, AcquirePlayer, ReleasePlayer and LeaveProc as whole runs |
| `SectorIndex.dfy` | the sector sets against the players' sector fields, with split moves under locks |
| `World.dfy` | the two together: the raw `Player*` in the sets |
| `SectorMove.dfy` | `Player`, the locks of two sectors, Req_SectorMove and the sector part of LeaveProc as objects |
| `LeaveRace.dfy` | a leave overtaken by a request that writes the fields |
| `LockOrder.dfy` | taking several sector locks in `lockIndex` order |
| `Around.dfy`, `Chat.dfy`, `ChatReply.dfy` | `MakeAround`; Req_Chat, its response, and the recipients of a message |
| `Wire.dfy`, `Memory.dfy` | object representations of the operators' types, `memcpy` |
| `Packet.dfy`, `PacketObject.dfy` | the serialisation buffer, as a value and as the object |
| `Cipher.dfy`, `Bits.dfy` | SetEncodingCode, SetDecodingCode and their checksums; bytes as bit vectors |
| `Framing.dfy`, `Receiver.dfy` | messages in the byte stream; RecvComplete over ring, packet and pool |
| `RingBuffer.dfy` | `CRingBuffer` |
| `PacketRefs.dfy` | packet references of all threads and all queues |
| `SessionObject.dfy` | `Session::Init` and SendPacket's queueing |
| `SendQueue.dfy` | `isSendFlag`, PostSend and SendComplete: which queued packets are sent |
| `Handle.dfy` | the handle macros on 64-bit words |
| `Sessions.dfy` | index stack, `ioCount`, `isReleased` and ReleaseSession, under any number of threads |
| `SessionMarks.dfy` | when a released session had been disconnected, and is released once |
| `SessionRaces.dfy` | the runs on which that fails |
| `Slots.dfy` | which session a handle finds; the calls that create, lock, disconnect and release, as an object |

## What is proved, in short

- **Player lifetimes.** LeaveProc takes a reference of its own and gives back one, so the reference that
  JoinProc stored stays for ever. In every interleaving a player's count is its map entry, plus the
  handles held, plus one once it has left. No release ever reaches zero; a player is back in the pool
  exactly when JoinProc refused the session of each of its trips; and the players that never return are
  as many as sessions ever joined. Without LeaveProc's AddRefPlayer the count would balance
  (`RepairedCount`), but sector sets could then list pooled players (`World.RepairedWouldDangle`).
- **Sector pointers.** Because of that leak no pointer in a sector set ever dangles, however long a run
  goes on, and it keeps its session.
- **Sectors.** A player is never in two sets. Fields and sets agree exactly when no leave has wiped the
  player and no request of it is between its erase and the writing of its fields; every request that
  changes the cell passes through such a moment with all locks free, and after every leave the fields go
  on naming a cell that no longer lists the player.
- **Locks.** LeaveProc reads the fields again for its erase and its unlock. It erases under the lock of the
  set it erases from, and gives back the lock it took, exactly when the last request to write the fields in
  between, if any, wrote the same cell. Otherwise it erases unlocked, its own lock stays held for ever, and
  every later move from or to that cell waits for ever (`LeaveRace`). As long as releases give back what was
  taken, and requests are in increasing order, no reachable state has a wait cycle, some thread can always
  step, and every run that goes on long enough finishes all threads.
- **Chat.** The response is built first. Res_Chat never returns for a text of more than 420 bytes, and
  leaves its packet's block from 416 bytes on. Up to that a player that stays put during the collection
  gets the message exactly once if it is logged in and within one cell of the sender, else never; one that
  moves gets it once for its old cell, if that was visited before the erase, plus once for its new one, if
  that was visited after the insert.
- **Packet buffer.** It is a FIFO byte queue and typed values come back in order, on runs whose writes
  return and stay in the block. A write returns exactly when the unread bytes and its own fit
  `m_iMaxSize`: the loop of IncreaseBufferSize never ends once it is entered. It stays in the block exactly
  when the bytes written since the last drain and its own fit `m_iMaxSize - 5`. Between the two lie the
  writes that overrun, such as the last five bytes of a new packet.
- **Cipher and framing.** The two passes of the cipher obey a byte law, deciphering undoes ciphering, and both
  checksums are the byte sum modulo 256. Of any bytes that came, a whole message is handed out exactly if its
  checksum is right; a wrong checksum, code byte or length zero closes the connection. And a
  stream of messages of 1 to 507 bytes arrives unchanged and in order however it is cut into receives, up to
  the first receive that brings nothing, which closes the connection.
- **References.** A packet's count is the threads' references, plus its occurrences in all queues, plus
  its failed pushes. It can still return to the pool exactly when no push of it has failed.
- **Sending.** Packets go out in the order in which they were pushed. A session at rest has sent all of them
  exactly if no WSASend was refused and no PostSend was turned away by one that had found the queue empty and
  not yet reset the flag; a push in that gap waits for another send.
- **Session slots.** Free and live slots partition the array all along a run exactly when every ReleaseSession
  resets a slot that is live then and pushes that slot's index. Each releases the session it was called for
  exactly when each is called on a live slot with no other call on it under way. `ioCount` is right exactly
  when what was incremented since the zero that led to a ReleaseSession has been taken back. A released
  session had been disconnected exactly when every decrement to zero that does not ask finds `isReleased`
  set. A handle used after its slot was freed, a receive that fails at once, and two threads that both
  release break this; then two connections can share a slot. Under a discipline on the callers, which the
  slot's own fields and the increments in hand can decide, each session is released exactly once.

## Assumptions

- Interlocked and atomic operations, lock operations, and single reads and writes of fields are
  sequentially consistent steps.
- The requests of one player are handled one at a time: RecvComplete handles the messages of a receive in
  turn and posts the next receive last (IOCPServer.cpp:520-593). A leave may overlap them.
- Some guards of the transition systems also say that a player or packet named in a step has a record
  (`p in s.slots`, `p in s.ref`). The invariants show that this is so wherever the rest of the guard
  holds, as in `PlayerLife.ReachableIsOut`.
- `repaired: bool` in `PlayerLife.Life` and `Packet.Buffer` is false for the code; the results named as
  the code's require or start from that.

## Model

The source column names the declaration. Where that is not the body, the body is cited at the end of the
last column, by file and line in `ConsoleApplication2`.

| member | source | states |
|---|---|---|
| `PlayerLife.CountOfEveryPlayer` | ConsoleApplication2/ChatServer.h:134 | over every run the count is the map entry, plus handles held, plus one for a player that has left; what can be reached is out of the pool (body: ChatServer.cpp:667-773) |
| `PlayerLife.ReleaseNeverReachesZero` | ConsoleApplication2/ChatServer.h:135 | whoever calls ReleasePlayer leaves at least one reference behind, so its Free is never reached (body: ChatServer.cpp:672-679) |
| `PlayerLife.PooledExactlyWhenRefused` | ConsoleApplication2/ChatServer.h:184 | a player is in the pool exactly when JoinProc refused the session of every trip it made (body: ChatServer.cpp:702-725) |
| `PlayerLife.OnceJoinedForGood` | ConsoleApplication2/ChatServer.h:185 | a player that has been in the map never sees the pool again and keeps its session (body: ChatServer.cpp:728-773) |
| `PlayerLife.OnePlayerPerJoinForEver` | ConsoleApplication2/ChatServer.h:184 | after any run the players that never return are as many as the joins that succeeded (body: ChatServer.cpp:702-773) |
| `PlayerLife.ReachableIsOut` | ConsoleApplication2/ChatServer.h:133 | a player in the map, held, or in the hands of a thread inside one of the calls is out of the pool (body: ChatServer.cpp:681-773) |
| `PlayerLife.InvAfter` | ConsoleApplication2/ChatServer.h:134 | every atomic action of the calls keeps counts, places, map entries and thread phases consistent (body: ChatServer.cpp:667-773) |
| `PlayerLife.AcquireReturns` | ConsoleApplication2/ChatServer.h:133 | AcquirePlayer returns the session's own player exactly if the session is still in the map when closing is tested (body: ChatServer.cpp:681-700) |
| `PlayerLife.AcquiredKeepsSession` | ConsoleApplication2/ChatServer.h:177 | while a handle is kept the player's session stays the one acquired, so CompleteLogin's mismatch branch is never taken (body: ChatServer.cpp:355-366) |
| `PlayerLife.FreshNotJoined` | ConsoleApplication2/ChatServer.h:184 | what a thread is about to insert is in no map entry and has not left (body: ChatServer.cpp:702-722) |
| `PlayerLife.LeaveCloses` | ConsoleApplication2/ChatServer.h:185 | the erase under the exclusive lock takes the player out of the map, closing, with no join bringing it back (body: ChatServer.cpp:732-747) |
| `PlayerLife.LeftForGood` | ConsoleApplication2/ChatServer.h:133 | until the pool hands it out again nobody finds a player that has left, and earlier counters return null (body: ChatServer.cpp:694-698) |
| `PlayerLife.RepairedCount` | ConsoleApplication2/ChatServer.h:185 | without LeaveProc's AddRefPlayer the count is map entry plus handles and what nothing refers to is pooled (body: ChatServer.cpp:742-746) |
| `PlayerLife.RepairedReturn` | ConsoleApplication2/ChatServer.h:135 | in that form a player goes back with count zero, unreferenced, by one thread only (body: ChatServer.cpp:672-679) |
| `PlayerCalls.Join` | ConsoleApplication2/ChatServer.h:184 | JoinProc of a new session takes one player from the pool into the map with one reference (body: ChatServer.cpp:702-725) |
| `PlayerCalls.JoinTwice` | ConsoleApplication2/ChatServer.h:184 | JoinProc of a session already in the map frees its player directly, with the count at one (body: ChatServer.cpp:715-720) |
| `PlayerCalls.Acquire` | ConsoleApplication2/ChatServer.h:133 | AcquirePlayer of a session in the map adds one reference, held by the thread, and changes nothing else (body: ChatServer.cpp:681-700) |
| `PlayerCalls.Release` | ConsoleApplication2/ChatServer.h:135 | ReleasePlayer takes away one reference and the handle, and never returns the player (body: ChatServer.cpp:672-679) |
| `PlayerCalls.Leave` | ConsoleApplication2/ChatServer.h:185 | LeaveProc takes the player out of the map, closing, and leaves the count where it was (body: ChatServer.cpp:728-773) |
| `PlayerCalls.WholeLifeLeaks` | ConsoleApplication2/ChatServer.h:184 | from every state, join and leave leave the player outside the pool with count one and nobody holding it (body: ChatServer.cpp:702-773) |
| `PlayerCalls.WholeLifeRepaired` | ConsoleApplication2/ChatServer.h:185 | without LeaveProc's AddRefPlayer the same life restores the pool (body: ChatServer.cpp:742-746) |
| `PlayerCalls.AcquireLosesToLeave` | ConsoleApplication2/ChatServer.h:133 | a leave between the increment and the test makes AcquirePlayer give its reference back and return null (body: ChatServer.cpp:694-698) |
| `World.SectorPointersAreLive` | ConsoleApplication2/ChatServer.h:157 | on every run a player listed in a set is in use, and stays so with the same session however the run goes on (body: ChatServer.cpp:547-561) |
| `World.LockHolderSees` | ConsoleApplication2/ChatServer.h:157 | what a lock holder finds in a set, on the combined runs whose leaves find the fields as they read them (body: ChatServer.cpp:552-562) |
| `World.ProjectsToLife` | ConsoleApplication2/ChatServer.h:186 | every run of the whole server state is a run of the lifetime protocol (body: ChatServer.cpp:775-809) |
| `World.ProjectsToSectors` | ConsoleApplication2/ChatServer.h:156 | every run of the whole server state is a run of the sector map (body: ChatServer.cpp:457-499) |
| `World.RepairedWouldDangle` | ConsoleApplication2/ChatServer.h:185 | with the repaired leave alone, a run from the start ends with a player in the pool that a set lists (body: ChatServer.cpp:742-770) |
| `SectorIndex.SeenUnderLock` | ConsoleApplication2/ChatServer.h:156 | over every run whose leaves find the fields as they read them, a lock holder finds exactly the players put there with fields unwritten, or named there, and not wiped (body: ChatServer.cpp:457-499) |
| `SectorIndex.AgreesExactly` | ConsoleApplication2/ChatServer.h:156 | fields and sets agree about a player exactly when it is not wiped and no request of it is between erase and field write (body: ChatServer.cpp:472-490) |
| `SectorIndex.NeverInTwoSets` | ConsoleApplication2/ChatServer.h:156 | not even in mid-move is a player in two sets (body: ChatServer.cpp:474-480) |
| `SectorIndex.LeftIsStillNamed` | ConsoleApplication2/ChatServer.h:185 | after every leave of a settled player its fields name a cell whose set lacks it (body: ChatServer.cpp:762-767) |
| `SectorIndex.LocksKeptExactly` | ConsoleApplication2/ChatServer.h:185 | all along a run every leave erases under the lock of the cell it erases from and gives back the lock it took, exactly when it finds in the fields, at both, the cell it read for its lock (body: ChatServer.cpp:760-767) |
| `SectorIndex.LeaveKeepsExactly` | ConsoleApplication2/ChatServer.h:185 | a leave does so exactly when, of the requests that wrote the fields since it read them for its lock, the last, if any, wrote the same cell (body: ChatServer.cpp:762-766) |
| `SectorIndex.LeftIsListedExactly` | ConsoleApplication2/ChatServer.h:185 | a player whose leave has erased is listed exactly when a request had put it where the fields did not point yet, or has put it somewhere since (body: ChatServer.cpp:476-490, 762-767) |
| `LeaveRace.LeaveErasesUnlocked` | ConsoleApplication2/ChatServer.h:185 | every request that changes the cell can be overtaken so that the leave erases from a set without its lock, while a third thread reads that set (body: ChatServer.cpp:488-489, 762-766) |
| `LeaveRace.LeaveLosesItsLock` | ConsoleApplication2/ChatServer.h:185 | and so that the leave ends with the lock it took held and used by nobody (body: ChatServer.cpp:762-766) |
| `LeaveRace.OrphanBlocksForEver` | ConsoleApplication2/ChatServer.h:153 | such a lock stays held on every further run, nobody can lock the cell, and requests from or to it wait for ever (body: ChatServer.cpp:820-840) |
| `SectorMove.EveryMoveIsSeenEarly` | ConsoleApplication2/ChatServer.h:156 | every move has a moment with the locks free, the player in the new set, and the fields naming another cell (body: ChatServer.cpp:474-489) |
| `SectorMove.RunRequest` | ConsoleApplication2/ChatServer.h:156 | the whole request, first placement included, is a run of the sector map and gives back its locks (body: ChatServer.cpp:457-499) |
| `SectorMove.SectorMap.SectorMove` | ConsoleApplication2/ChatServer.h:156 | an invalid target is refused; else this player alone moves, fields and sets agree, and the whole is that run; its locks are taken in increasing index with the old sets, and given back with the new sets and the old fields (body: ChatServer.cpp:457-499) |
| `SectorMove.SectorMap.LeaveSector` | ConsoleApplication2/ChatServer.h:185 | the player leaves the set its fields name, between the lock and the unlock of that cell, and the fields stay (body: ChatServer.cpp:762-767) |
| `SectorMove.SectorMap.LockTwoSectorsExclusive` | ConsoleApplication2/ChatServer.h:153 | the locks taken by the call are those of the two cells, in strictly increasing lockIndex, the same cell once (body: ChatServer.cpp:820-840) |
| `SectorMove.SectorMap.UnlockTwoSectorsExclusive` | ConsoleApplication2/ChatServer.h:154 | the locks given back by the call are those of the two cells, each once (body: ChatServer.cpp:842-851) |
| `SectorMove.TwoCellsFollowLockOrder` | ConsoleApplication2/ChatServer.h:153 | the order in which a move locks its cells is the deadlock-free one (body: ChatServer.cpp:820-840) |
| `SectorMove.Player.Reset` | ConsoleApplication2/ChatServer.h:72-90 | one reference, not closing, and in no valid sector of any grid up to 65535 wide or high |
| `SectorMove.Player.SetSector` | ConsoleApplication2/ChatServer.h:106-110 | the fields name the cell |
| `LockOrder.DeadlockFree` | ConsoleApplication2/ChatServer.h:153 | with increasing requests, and releases that give back what was taken: no wait cycle, progress, and completion after exactly the work there is (body: ChatServer.cpp:820-840) |
| `LockOrder.LostExactly` | ConsoleApplication2/ChatServer.h:185 | a lock is held with no thread having it exactly after a release of another lock than the one taken (body: ChatServer.cpp:762-766) |
| `LockOrder.LostBlocksForEver` | ConsoleApplication2/ChatServer.h:153 | a thread that still needs a lost lock never finishes (body: ChatServer.cpp:820-840) |
| `LockOrder.TwoLocksOrdered` | ConsoleApplication2/ChatServer.h:113-118 | two sectors give one increasing request for exactly the two locks, the same sector once, in either argument order (body: ChatServer.cpp:11-19) |
| `LockOrder.NumberSectors` | ConsoleApplication2/ChatServer.h:115 | the constructor numbers the sectors row by row (body: ChatServer.cpp:11-19) |
| `LockOrder.OppositeOrdersDeadlock` | ConsoleApplication2/ChatServer.h:153 | without the common order two threads reach a state where nothing can step (body: ChatServer.cpp:830-839) |
| `Around.MakeAround` | ConsoleApplication2/ChatServer.h:149 | exactly the cells of the clipped 3x3 neighbourhood, each once; the count is the product of the clipped extents (body: ChatServer.cpp:260-286) |
| `Chat.ReqChat` | ConsoleApplication2/ChatServer.h:157 | in terms of the request's bytes: for a logged-in sender it does not return exactly from length 421 on and leaves the block exactly from 416 to 420; else it refuses the three bad senders, or sends the text, once per visit that finds a logged-in player (body: ChatServer.cpp:513-570) |
| `ChatReply.ReplyExactly` | ConsoleApplication2/ChatServer.h:162 | Res_Chat returns exactly for texts of at most 420 bytes, stays in the block exactly up to 415, and then the packet holds exactly type, account, names, length and text at their places (body: ChatServer.cpp:573-581) |
| `ChatReply.LongTextNeverReturns` | ConsoleApplication2/ChatServer.h:162 | the shortest failing texts: 421 bytes never return, 416 leave the block (body: ChatServer.cpp:573-581) |
| `ChatReply.OtherRepliesFit` | ConsoleApplication2/ChatServer.h:160-161 | the other responses always return and stay in the block, and these are their bytes (body: ChatServer.cpp:244-258, 444-455, 501-511) |
| `ChatReply.HeaderExactly` | ConsoleApplication2/ChatServer.h:157 | the length is in the two bytes behind the eight of the account, low byte first; what shorter requests give (body: ChatServer.cpp:518-522) |
| `ChatReply.TextExactly` | ConsoleApplication2/ChatServer.h:157 | the text is as many of the bytes behind the length, or what the array held if there are fewer (body: ChatServer.cpp:528-529) |
| `ChatReply.TextIsReceivedExactly` | ConsoleApplication2/ChatServer.h:157 | the text sent on is the text received exactly if the request holds as many bytes as its length field says, else whatever the array held (body: ChatServer.cpp:521-531) |
| `Chat.UnmovedHearExactlyOnce` | ConsoleApplication2/ChatServer.h:157 | a player that stays put is addressed once if logged in and within one of the sender, else never (body: ChatServer.cpp:545-562) |
| `Chat.MovedHearTwice` | ConsoleApplication2/ChatServer.h:157 | a run in which a moving player is collected twice (body: ChatServer.cpp:547-562) |
| `Chat.MoverHearsExactly` | ConsoleApplication2/ChatServer.h:157 | a player that moves once during the collection is found once if its old cell is visited before the erase, plus once if its new one is visited after the insert, if logged in then (body: ChatServer.cpp:474-480, 547-562) |
| `Chat.LeftHearNothing` | ConsoleApplication2/ChatServer.h:185 | a player that a leave wiped is never collected, whatever its fields name (body: ChatServer.cpp:762-767) |
| `Packet.ReturnsExactly` | ConsoleApplication2/CPacket.h:48 | a write returns exactly when unread bytes and its own fit m_iMaxSize (body: CPacket.cpp:103-131) |
| `Packet.EndsOnlyIfNotEntered` | ConsoleApplication2/CPacket.h:48 | the loop of IncreaseBufferSize ends exactly when it is not entered (body: CPacket.cpp:114-116) |
| `Packet.ReturnExactly` | ConsoleApplication2/CPacket.h:109-119 | all operations of a run return exactly when each write finds room for the unread bytes and its own |
| `Packet.StayExactly` | ConsoleApplication2/CPacket.h:51 | all of them stay in the block exactly when bytes written since the last drain and each write's own fit m_iMaxSize - 5 (body: CPacket.cpp:6-17) |
| `Packet.OverrunExactly` | ConsoleApplication2/CPacket.h:113-116 | the next write of a run returns and ends behind the block exactly when unread bytes leave it room and written ones do not |
| `Packet.WritesOnly` | ConsoleApplication2/CPacket.h:109-119 | a packet only written to returns exactly if all writes together fit m_iMaxSize, and stays in the block exactly if they fit m_iMaxSize - 5 |
| `Packet.LastFiveBytesOverrun` | ConsoleApplication2/CPacket.h:51 | an empty packet filled to m_iMaxSize - 5 lets one to five more bytes through, all behind the block (body: CPacket.cpp:8-15) |
| `Packet.GrowingWriteNeverReturns` | ConsoleApplication2/CPacket.h:48 | a run whose second write needs growth does not return (body: CPacket.cpp:110-116) |
| `Packet.RefinesFifo` | ConsoleApplication2/CPacket.h:109-137 | every run of writes and reads that return and stay in the block is a run of a FIFO byte queue, outputs included |
| `Packet.TypedRoundTrip` | ConsoleApplication2/CPacket.h:83-105 | values of any types come back in order to reads of the same types, early reads retried; the rest is still queued |
| `Packet.PositionBounds` | ConsoleApplication2/CPacket.h:62-64 | using is rear minus front, between 0 and max; rear is at most max plus front; both are 0 when drained |
| `Packet.PositionsCountHistory` | ConsoleApplication2/CPacket.h:128-136 | rear is the bytes written and front the bytes read since the packet was last empty |
| `Packet.RepairedGrowthBound` | ConsoleApplication2/CPacket.h:48 | with the loop testing newSize, capacity stays below twice peak unread plus 2w, and the header (body: CPacket.cpp:114-130) |
| `Packet.OneGrowthSuffices` | ConsoleApplication2/CPacket.h:48 | with the loop testing newSize, one growth makes payload room for unread bytes and the write (body: CPacket.cpp:114-130) |
| `PacketObject.CPacket.WriteValue` | ConsoleApplication2/CPacket.h:109-119 | the object's new state is the value-level write of the old one |
| `PacketObject.CPacket.PutData` | ConsoleApplication2/CPacket.h:75 | the same for a block of bytes (body: CPacket.cpp:133-141) |
| `PacketObject.CPacket.ReadValue` | ConsoleApplication2/CPacket.h:76 | the object's new state and the target are the value-level read; a short read changes neither (body: CPacket.cpp:143-160) |
| `PacketObject.CPacket.MoveWritePos` | ConsoleApplication2/CPacket.h:72 | takes in bytes copied behind the write position as a write of them would, at most GetFreeSize; the position stays in the block exactly if they were copied into it (body: CPacket.cpp:71-82) |
| `PacketObject.CPacket.MoveReadPos` | ConsoleApplication2/CPacket.h:73 | drops unread bytes as a read of them would, no more than there are (body: CPacket.cpp:84-101) |
| `PacketObject.CPacket.IncreaseBufferSizeRepaired` | ConsoleApplication2/CPacket.h:48 | with the loop testing newSize: room for the request, the same contents and positions (body: CPacket.cpp:103-131) |
| `PacketObject.CPacket.SetEncodingCode` | ConsoleApplication2/CPacket.h:80 | header and payload are ciphered in place by that law, the first time only (body: CPacket.cpp:167-194) |
| `PacketObject.CPacket.SetDecodingCode` | ConsoleApplication2/CPacket.h:81 | the payload is deciphered in place by that law; accepted exactly if the checksum is the header's (body: CPacket.cpp:196-224) |
| `PacketObject.CPacket.SubRef` | ConsoleApplication2/CPacket.h:55 | the decrement that reaches zero, and no other, hands the packet back (body: CPacket.cpp:65-69) |
| `Wire.ValueRoundTrip` | ConsoleApplication2/CPacket.h:83-105 | reading the bytes of a value gives the value |
| `Wire.ReadRoundTrip` | ConsoleApplication2/CPacket.h:95-105 | every byte string of a type's size is the representation of the value read from it |
| `Wire.RangesExactly` | ConsoleApplication2/CPacket.h:83-105 | the ranges of the types the operators carry |
| `Cipher.CipherRoundTrip` | ConsoleApplication2/CPacket.h:80 | ciphering and deciphering with one key are inverse to each other, on payloads of any length (body: CPacket.cpp:184-214) |
| `Cipher.EncodeLaw` | ConsoleApplication2/CPacket.h:80 | each ciphered byte is the plain one XORed with previous byte, key and position, and that XORed with previous result, 0x32 and position, modulo 256 (body: CPacket.cpp:184-191) |
| `Cipher.DecodeLaw` | ConsoleApplication2/CPacket.h:81 | the same law for the two passes of SetDecodingCode (body: CPacket.cpp:206-215) |
| `Cipher.ChecksumsAgree` | ConsoleApplication2/CPacket.h:80 | signed sum with C remainder and wrapping sum both are the byte sum modulo 256 (body: CPacket.cpp:177-223) |
| `Cipher.EncodeInPlace` | ConsoleApplication2/CPacket.h:80 | the loop ciphers its prefix of the array, as that law says, and leaves the rest (body: CPacket.cpp:185-191) |
| `Cipher.DecodeInPlace` | ConsoleApplication2/CPacket.h:81 | the loop deciphers its prefix of the array, as that law says, and leaves the rest (body: CPacket.cpp:208-215) |
| `Framing.HandedOutExactly` | ConsoleApplication2/IOCPServer.h:120 | of any bytes that are a whole message of 1 to 507 bytes the deciphered payload is handed out exactly if its byte sum modulo 256 is the fifth byte; else the message is gone and the connection closed (body: IOCPServer.cpp:557-582) |
| `Framing.NothingHandedOut` | ConsoleApplication2/IOCPServer.h:120 | a wrong code byte or length zero closes with nothing taken, a part waits, and a longer message has no storage (body: IOCPServer.cpp:534-566) |
| `Framing.SegmentationIsInvisible` | ConsoleApplication2/IOCPServer.h:120 | for any bytes, messages and connection state are those of the bytes before the first empty receive, however cut, and that receive closes (body: IOCPServer.cpp:520-593) |
| `Framing.WhatIsSentArrives` | ConsoleApplication2/IOCPServer.h:120 | of a stream of messages exactly those whose last byte is in have been handed out, in order and unchanged; open until a receive brings nothing (body: IOCPServer.cpp:520-581) |
| `Framing.ArrivesExactly` | ConsoleApplication2/IOCPServer.h:120 | exactly the messages of 1 to 507 bytes arrive; an empty one closes, a longer one has no storage (body: IOCPServer.cpp:542-572) |
| `Framing.RingFillsOnlyForGiants` | ConsoleApplication2/IOCPServer.h:120 | the ring is full with nothing to parse only for a message it can never hold (body: IOCPServer.cpp:551-552) |
| `Receiver.RecvComplete` | ConsoleApplication2/IOCPServer.h:120 | over ring, packets and pool it hands out what the stream parses to, keeps the rest, and gives every packet back (body: IOCPServer.cpp:520-593) |
| `Receiver.TakeMessage` | ConsoleApplication2/IOCPServer.h:120 | one message leaves the ring, deciphered and checked, and its packet goes back (body: IOCPServer.cpp:554-581) |
| `Receiver.Transmit` | ConsoleApplication2/IOCPServer.h:117 | what goes on the wire is the frame of the payload (body: IOCPServer.cpp:401-408) |
| `SessionObject.Session.Init` | ConsoleApplication2/IOCPServer.h:47-77 | both queues end empty, each count falls by the packet's occurrences in both, and a packet returns once exactly if that takes it to zero |
| `SessionObject.Session.SendPacket` | ConsoleApplication2/IOCPServer.h:150 | one reference more, ciphered once as the cipher says, queued if there is room, and otherwise in nobody's hands (body: IOCPServer.cpp:601-604) |
| `SessionObject.Drain` | ConsoleApplication2/IOCPServer.h:65-68 | one loop of Init, with the same account for one queue |
| `PacketRefs.Conservation` | ConsoleApplication2/IOCPServer.h:150 | over every run a packet's count is threads' references, occurrences in all queues and failed pushes; it is out of the pool exactly while that is positive (body: IOCPServer.cpp:595-611) |
| `PacketRefs.ReturnsExactly` | ConsoleApplication2/ChatServer.h:174-176 | in every reachable state a packet can return to the pool exactly when no push of it has failed (body: ChatServer.cpp:430-442) |
| `PacketRefs.EverythingCanReturn` | ConsoleApplication2/CPacket.h:54 | threads and queues can be emptied, and then every packet without a failed push is in the pool (body: CPacket.cpp:60-69) |
| `PacketRefs.SendIntoFullQueueLosesPacket` | ConsoleApplication2/IOCPServer.h:150 | the 4097th send into an unpopped queue loses a reference and with it the packet (body: IOCPServer.cpp:601-604) |
| `PacketRefs.SessionReset` | ConsoleApplication2/IOCPServer.h:115 | emptying both queues as pops and SubRefs: counts down by multiplicity, conservation kept (body: IOCPServer.cpp:326-335) |
| `PacketRefs.InvAfter` | ConsoleApplication2/IOCPServer.h:117 | each step, a push that finds the queue full included, keeps the conservation law (body: IOCPServer.cpp:381-440) |
| `SendQueue.SentInOrder` | ConsoleApplication2/IOCPServer.h:117 | on every run what was pushed is what was sent, what is in flight and what is queued, in this order (body: IOCPServer.cpp:381-440, 489-518) |
| `SendQueue.PopsUpToHundred` | ConsoleApplication2/IOCPServer.h:117 | a PostSend takes packets until there are none or it has a hundred (body: IOCPServer.cpp:395-412) |
| `SendQueue.BuffersSuffice` | ConsoleApplication2/IOCPServer.h:117 | on every run two buffers for each packet in hand fit into its 200 (body: IOCPServer.cpp:386-408) |
| `SendQueue.SentExactly` | ConsoleApplication2/IOCPServer.h:121 | on every run that comes to rest everything pushed was sent exactly if no WSASend was refused and no PostSend was turned away by one giving up, with packets queued and nobody to follow (body: IOCPServer.cpp:383-418, 512-517) |
| `SendQueue.ComesToRest` | ConsoleApplication2/IOCPServer.h:117 | without further pushes and refusals a session comes to rest after at most its work, and somebody can step until then (body: IOCPServer.cpp:381-440) |
| `SendQueue.PacketLeftBehind` | ConsoleApplication2/IOCPServer.h:117 | from every rest with all sent, a push between the failed pop and the reset of the flag leaves its packet queued with nobody to send it (body: IOCPServer.cpp:395-418) |
| `SendQueue.RefusedSendsNoMore` | ConsoleApplication2/IOCPServer.h:117 | after a WSASend that fails while the session has other I/O nothing is sent any more (body: IOCPServer.cpp:423-438) |
| `Handle.Unpack` | ConsoleApplication2/IOCPServer.h:12-14 | the index comes back exactly when it is below 2^16, and then so does the ID modulo 2^16 |
| `Handle.Same` | ConsoleApplication2/IOCPServer.h:12 | handles are equal exactly when slots are equal and IDs agree modulo 2^16 |
| `Handle.Reuse` | ConsoleApplication2/IOCPServer.h:12 | one slot's handles k IDs apart are equal exactly when k is a multiple of 2^16 |
| `Handle.Window` | ConsoleApplication2/IOCPServer.h:12 | the handles of 65536 consecutive IDs are distinct |
| `Handle.NotSentinel` | ConsoleApplication2/IOCPServer.h:50 | no handle of a 16-bit slot is the value Init stores |
| `Sessions.AcceptFindsAnIndex` | ConsoleApplication2/IOCPServer.h:124 | on every run AcceptThread's test of sessionCount is enough for PopIndex (body: IOCPServer.cpp:231-246) |
| `Sessions.PartitionExactly` | ConsoleApplication2/IOCPServer.h:115 | free and live slots partition the array all along a run exactly when every ReleaseSession resets a slot that is live then and pushes the index of that slot (body: IOCPServer.cpp:320-346) |
| `Sessions.ReleasesExactly` | ConsoleApplication2/IOCPServer.h:115 | on runs that end with none under way, each ReleaseSession releases the session it was called for exactly when each is called on a live slot with no other call on it under way (body: IOCPServer.cpp:320-346) |
| `Sessions.CountedExactly` | ConsoleApplication2/IOCPServer.h:132 | ioCount is the outstanding increments all along a run exactly when every ReleaseSession finds taken back whatever was incremented since the zero that led to it (body: IOCPServer.cpp:320-346, 613-653) |
| `Sessions.CountedUnlessTakenWhenDue` | ConsoleApplication2/IOCPServer.h:132 | ioCount stays right unless somebody increments a slot whose release is due (body: IOCPServer.cpp:618, 421, 466) |
| `SessionMarks.MarkedExactly` | ConsoleApplication2/IOCPServer.h:152 | on orderly runs every released session had been disconnected exactly when every decrement to zero that does not ask isReleased finds it set (body: IOCPServer.cpp:429, 474, 622, 651) |
| `SessionMarks.ReleasedExactlyOnce` | ConsoleApplication2/IOCPServer.h:123 | on runs of callers that test the slot's own fields so, each session is released exactly once, as the session meant, disconnected and unused (body: IOCPServer.cpp:191-210, 348-369, 613-653) |
| `SessionRaces.StaleHandleBreaksPartition` | ConsoleApplication2/IOCPServer.h:132 | turning away a handle of a free slot pushes index zero once more (body: IOCPServer.cpp:613-626) |
| `SessionRaces.TwoConnectionsShareSlotZero` | ConsoleApplication2/IOCPServer.h:114 | the next connection then takes the slot of the one that lives in slot zero (body: IOCPServer.cpp:290-318) |
| `SessionRaces.UnlockReleasesNewSession` | ConsoleApplication2/IOCPServer.h:133 | a lock and unlock before the first receive release a session nobody disconnected (body: IOCPServer.cpp:649-653) |
| `SessionRaces.FailedReceiveReleasesTwice` | ConsoleApplication2/IOCPServer.h:118 | a receive that fails on a session nobody else has releases the slot twice (body: IOCPServer.cpp:469-482) |
| `SessionRaces.TwoReleasesBreakPartition` | ConsoleApplication2/IOCPServer.h:123 | a worker's ReleaseSession and that of a SessionLock turned away meanwhile, both called on the live session, push its index twice (body: IOCPServer.cpp:204-207, 320-346, 618-623) |
| `Slots.HandlesDiffer` | ConsoleApplication2/IOCPServer.h:114 | of two sessions, at the same or at different times of a run, the handles are equal exactly when the slots are and the IDs agree modulo 2^16 (body: IOCPServer.cpp:303-306) |
| `Slots.EverySessionFound` | ConsoleApplication2/IOCPServer.h:132 | on every run a live session is found by its handle exactly if it is not released, and else nothing is, exactly when there are at most 2^16 slots (body: IOCPServer.cpp:613-645) |
| `Slots.StaleHandle` | ConsoleApplication2/IOCPServer.h:132 | a handle kept too long is turned away exactly unless the slot is live again a multiple of 2^16 IDs later (body: IOCPServer.cpp:620) |
| `Slots.OldHandleFindsItsOwn` | ConsoleApplication2/IOCPServer.h:132 | over every run without a new ID equal modulo 2^16, an old handle finds the session it was made for or nothing, however often slots are reused (body: IOCPServer.cpp:613-645) |
| `Slots.StaleHandleOnFreeSlot` | ConsoleApplication2/IOCPServer.h:132 | it is turned away from a free slot too, and that breaks the partition (body: IOCPServer.cpp:618-626) |
| `Slots.FreshSlot` | ConsoleApplication2/IOCPServer.h:114 | while the slots are partitioned the index on top is of a free slot (body: IOCPServer.cpp:290-318) |
| `Slots.IOCPServer.CreateSession` | ConsoleApplication2/IOCPServer.h:114 | takes the slot on top and the next ID and hands out that slot's handle (body: IOCPServer.cpp:290-318) |
| `Slots.IOCPServer.ReleaseSession` | ConsoleApplication2/IOCPServer.h:115 | pushes whatever the slot's index field says, resets the slot, counts down (body: IOCPServer.cpp:320-346) |
| `Slots.IOCPServer.SessionLock` | ConsoleApplication2/IOCPServer.h:132 | finds a session exactly if the array entry at the low 16 bits has one, not released, with this handle; then ioCount is one higher; else nothing changes, unless ioCount was zero, when the slot is freed and its index pushed (body: IOCPServer.cpp:613-647) |
| `Slots.IOCPServer.SessionUnLock` | ConsoleApplication2/IOCPServer.h:133 | ioCount is one lower; from one the slot ends free, its index pushed, and no call under way (body: IOCPServer.cpp:649-653) |
| `Slots.IOCPServer.DisConnect` | ConsoleApplication2/IOCPServer.h:152 | isReleased is set; of a session not marked before that nobody has the slot ends free, its index pushed, and no call under way (body: IOCPServer.cpp:348-369) |
| `Slots.IOCPServer.Disconnect` | ConsoleApplication2/IOCPServer.h:153 | lock, mark, unlock, with the release that falls to it (body: IOCPServer.cpp:371-379) |
| `RingBuffer.CRingBuffer.Enqueue` | ConsoleApplication2/CRingBuffer.h:20 | appends exactly the first n bytes, n being what fits, across the wrap-around (body: CRingBuffer.cpp:102-132) |
| `RingBuffer.CRingBuffer.Dequeue` | ConsoleApplication2/CRingBuffer.h:21 | copies out and removes exactly the first n bytes (body: CRingBuffer.cpp:134-162) |
| `RingBuffer.CRingBuffer.Peek` | ConsoleApplication2/CRingBuffer.h:23 | copies out the first n bytes and changes nothing (body: CRingBuffer.cpp:164-190) |
| `RingBuffer.CRingBuffer.GetFreeSize` | ConsoleApplication2/CRingBuffer.h:15 | used and free always add up to one less than the size (body: CRingBuffer.cpp:73-76) |
| `RingBuffer.CRingBuffer.DirectEnqueueSize` | ConsoleApplication2/CRingBuffer.h:17 | the free bytes that lie in one piece at the rear (body: CRingBuffer.cpp:78-88) |
| `RingBuffer.CRingBuffer.DirectDequeueSize` | ConsoleApplication2/CRingBuffer.h:18 | the used bytes that lie in one piece at the front (body: CRingBuffer.cpp:90-100) |
| `RingBuffer.CRingBuffer.MoveRear` | ConsoleApplication2/CRingBuffer.h:25 | moves the rear by at most the free bytes and hands out the new position (body: CRingBuffer.cpp:201-207) |
| `RingBuffer.CRingBuffer.MoveFront` | ConsoleApplication2/CRingBuffer.h:26 | drops at most the used bytes, oldest first, and hands out the new position (body: CRingBuffer.cpp:192-198) |
| `RingBuffer.CRingBuffer.Arrive` | ConsoleApplication2/IOCPServer.h:118 | bytes received into the two posted pieces and one MoveRear are appended (body: IOCPServer.cpp:447-464) |
| `RingBuffer.CRingBuffer.EnqueueDirect` | ConsoleApplication2/CRingBuffer.h:17 | two direct copies with MoveRear do what one Enqueue does (body: CRingBuffer.cpp:78-88) |
| `RingBuffer.CRingBuffer.DequeueDirect` | ConsoleApplication2/CRingBuffer.h:18 | two direct copies with MoveFront do what one Dequeue does (body: CRingBuffer.cpp:90-100) |
| `RingBuffer.StoreAppends` | ConsoleApplication2/CRingBuffer.h:20 | copying in at the rear and moving it appends, whatever the positions (body: CRingBuffer.cpp:117-129) |

## Left out

- Login, Redis offload and the `accounts` map: only their packet references and AcquirePlayer are modelled.
- The order between `playerLock`, `accountLock` and sector locks: no thread holds two kinds at once, and deadlock freedom is claimed for sector locks.
- LockOrder.DeadlockFree: treats Req_Chat's shared locks as exclusive, which only adds waiting.
- The insides of `CLFFreeList`, `boost::lockfree::queue` and SRWLOCK: a pool, a bounded queue whose push may fail, and locks that are held or not.
- Memory ordering, and torn or racing plain accesses: fields are read and written in single steps.
- The destructor of ChatServer, which releases the players still in the map: the runs are those of a running server.
- Sockets, completion ports, heartbeat, monitoring, profiler, crash dump and `main`: input and output or no logic.
- 32-bit overflow of packet positions, counts and ring sizes: `int` and `LONG` fields are unbounded integers here; the BYTE and DWORD arithmetic of the cipher is modelled.
- `CRingBuffer::ReSize`, which nothing calls.
- `SetLogin`, names and session keys: plain field copies.
- What OnRecv does with a message: `Receiver.RecvComplete` only hands it out.
- SectorIndex.SeenUnderLock: both sector fields are read and written together; a read that gets one coordinate from before a write and one from after it is not modelled.
- SectorMove.SectorMap.SectorMove: asks for both locks to be free, because one call runs here without other threads; waiting is modelled in `LockOrder` and `SectorIndex`.
- SectorMove.SectorMap.LeaveSector: asks for the cell's lock to be free, for the same reason.
- SectorMove.SectorMap.LockTwoSectorsExclusive: asks for both locks to be free, for the same reason.
- PacketObject.CPacket.WriteValue: asks that the write return and stay in the block, because the code has no defined outcome otherwise; `Packet.ReturnExactly` and `Packet.StayExactly` say exactly when that is so.
- PacketObject.CPacket.PutData: asks the same.
- PacketObject.CPacket.IncreaseBufferSizeRepaired: is not the code's loop, which `Packet.EndsOnlyIfNotEntered` shows not to end.
- Slots.IOCPServer.ReleaseSession: does not include OnClientLeave and the queues, which are in `PlayerCalls`, `SessionObject` and `PacketRefs`.
- SessionMarks.ReleasedExactlyOnce: its discipline is sufficient; the conditions that are exact are those of `Sessions.ReleasesExactly`, `Sessions.CountedExactly` and `SessionMarks.MarkedExactly`.
- SessionMarks.MarkedExactly: asks that DisConnect be called with an increment in hand, which AcceptThread's PostRecv and Stop do not have, and that the second test of SessionLock not give back the last increment.
- Sessions.PartitionExactly: CreateSession is one step, and so are Init and PushIndex together; what a stale handle does between two of their assignments is not modelled.
- SendQueue.SentExactly: speaks of a session that is not disconnected meanwhile, and that ReleaseSession has not reset.
- RingBuffer.CRingBuffer.MoveRear: takes no negative sizes.
- RingBuffer.CRingBuffer.MoveFront: takes no negative sizes.
- Chat.UnmovedHearExactlyOnce: speaks of players that stay put during the collection; `Chat.MoverHearsExactly` says what a move during it changes, for one move.
- SessionObject.Session.Init: does not model the socket, address and overlapped fields it clears, which nothing here reads.
