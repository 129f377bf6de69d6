# svc: a verified model of the voice-chat core

svc is a voice-chat system: a jitter buffer, a bounded queue and a mixer in `libsvc`, and a
client and a server that replicate state over a text protocol. This project models those
parts in Dafny and proves what they keep over whole runs. `dafny verify dfyconfig.toml`
checks all of it.

## How the parts are modelled

| file | models | form |
|---|---|---|
| `SerialTime.dfy` | the wrapping 16-bit packet clock | functions, as in the source |
| `CageModel.dfy`, `PacketCage.dfy` | the jitter buffer | operations on values; a class over the ring array, each method proved equal to its operation |
| `CageRefinement.dfy`, `CageTail.dfy` | the buffer as a sliding window from unwrapped times to frames; what `tail_time` is | simulation over runs |
| `CageAlignment.dfy` | when slots and stamps stay aligned | an exact condition, for one put and over runs |
| `CageLedger.dfy` | where every frame ends up; starvation and overwriting | invariants over runs |
| `PacketQueue.dfy` | the two-mutex queue | one move per statement, arbitrary schedules; a class whose calls are uninterrupted moves |
| `Audio.dfy`, `Incoming.dfy` | mixing and the heap list of peers | arrays, loops, a doubly linked list |
| `Dstr.dfy`, `Split.dfy`, `Lexer.dfy` | dynamic strings, split and join, lexer and escaper | loops over buffers proved against functions |
| `Protocol.dfy` | printing, framing and reading the commands of channel 0 | functions and round trips |
| `Dictionary.dfy`, `ServerModel.dfy`, `ClientModel.dfy` | dictionaries with dirty flags, the server's operations, the client's handlers | operations on values |
| `DsDict.dfy` | the string dictionaries of the client | a class over its list of nodes, with a map view |
| `Client.dfy` | the client's handlers run in place on the peer table and its dictionaries | a class over an array of dictionary objects, each method proved equal to its operation |
| `Server.dfy` | the server's handlers run in place on the peer table and the text buffers, with the packets they send | a class over an array of slots, each method proved equal to its operation |
| `Streams.dfy`, `Replication.dfy`, `Privacy.dfy` | the server with all clients and their packet queues | a state machine under every sequence of actions |
| `AudioPacket.dfy` | the binary audio packet | byte sequences |
| `GuiState.dfy` | the state and the event list of the graphical client | a class |

Conventions. A byte of text is the character with its code, and every statement about text
holds for all strings. Sizes and counters are unbounded unless a wrap is written out: 16-bit
stamps, unsigned 32-bit sums, signed remainders and the conversion of `atoi` to unsigned are.
Samples are real numbers. A method under a mutex is one step, except in the queue, whose
subject is the mutexes. Scripts appear as arbitrary sequences of `serverset` and `peerset`
calls. The cage, the queue, the list of peers, string buffers, the client's table and
dictionaries and the server's table are objects on the heap; the nodes of one dictionary are a
sequence that is reassigned, and the server's slots hold their dictionaries as values. The
server's peer table is its first table of ten slots, empty before it is allocated.
Channel 0 is an ordered reliable queue of packets for each client.

## Where the code does not do what it seems to promise

- Slots and stamps of a cage do not stay aligned in every run. A put that drains the cage
  finishes with `new_cage` raised, and its frame waits behind the head; `CageTail.PutRaisesExactly`
  says exactly which puts do. The next put takes its own stamp as head time while that frame
  stays where it is. `CageAlignment.PutAlignsExactly` is the exact condition: a put breaks the
  alignment if and only if `new_cage` is raised, some slot behind the head is occupied, and its
  stamp is not the head time. `RunAlignsExactly` and `RunRefinesExactly` lift that to runs, and
  `GapMisplaces` is a run in the cage of five slots that the program uses: when the two packets
  after four lost ones arrive back to back, they end up in the wrong order.
- `tail_time` is the newest stamp stored, while nothing was overwritten, except after a put
  stamped with the very head time of such a cage (`CageTail.PutKeepsTail`).
- An overwritten frame stays in `elements_count` for ever, so a cage that overwrote one frame and
  plays never starves again, whatever is put and got (`CageLedger.OverwrittenNeverStarves`).
  `PutOverwritesExactly` says which puts overwrite, and `OverwrittenAt1` is such a run.
- `src/network/svcenet/README` calls the newline behind the last command of a packet optional.
  The client handles only lines ended by a newline (`Protocol.LastLineIsLost`), and the server
  sends PDEL without one, so no client ever handles a PDEL (`Replication.DepartedPeerIsKept`).
  Replication is nevertheless exact for the peers that are present, reused slots included,
  because PADD starts an empty dictionary.
- The server relays audio packets of nine bytes, in which the client's header arithmetic leaves
  the packet; it stays inside exactly the relayed packets of ten bytes or more
  (`AudioPacket.RelayedStaysInside`, `NineBytesAreRelayed`).
- `dsplit` without limit undoes joining at one byte except for three or more empty pieces
  (`Split.PiecesOfJoin`).

## Model

| member | source | states |
|---|---|---|
| SerialTime.SubTimeExact | src/libsvc/packet_cage.c:6-28 | `sub_time` is the one signed 16-bit distance congruent to the difference; it is positive exactly when `is_newer` holds, which is the comparison of section 3.2 of RFC 1982; adding it back gives the first stamp |
| SerialTime.UnwrappedDistance | src/libsvc/packet_cage.c:15-28 | on the stamps of times less than half a period apart, distance and comparison are those of the times |
| SerialTime.Approach | src/libsvc/packet_cage.c:11-28 | moving ahead i ticks shortens the distance by i, and decides the drop test |
| SerialTime.SentStampWraps | src/libsvc/libsvc.c:30-38 | the k-th packet of a sender carries k modulo 65536 |
| SerialTime.SentDistance | src/libsvc/libsvc.c:30-53 | the distance between the j-th and k-th packets is computed exactly if and only if it fits 16 signed bits |
| CageModel.DropLoopGuard | src/libsvc/packet_cage.c:114-118 | after i pops the distance to the stamp is i smaller and the loop goes on exactly while pops are left |
| CageModel.DropLoopEnds | src/libsvc/packet_cage.c:112-122 | the drop loop of an accepted put ends after exactly max(0, d-(size-1)) pops, and the frame is stored min(d, size-1) places from the head |
| CageModel.PutStarving | src/libsvc/packet_cage.c:95-118 | a put starts no starvation and ends it exactly when it does not anchor the cage and its stamp lies past the last slot |
| PacketCage.NextPointInCage | src/libsvc/packet_cage.c:67-70 | the next slot modulo the size |
| PacketCage.DeltaPointWithinRing | src/libsvc/packet_cage.c:73-75 | for the offsets a put computes, the unsigned wrap never shows and the slot is the one that many places on |
| PacketCage.RotatedUpdate | src/libsvc/packet_cage.c:120-123 | writing the computed ring slot writes that place in playing order |
| PacketCage.PacketCage.constructor | src/libsvc/packet_cage.c:30-50 | a new cage is empty, starving and waiting for an anchor |
| PacketCage.PacketCage.Pop | src/libsvc/packet_cage.c:85-100 | in playing order: the first slot goes, an empty one comes last, time moves on, and an empty cage starves |
| PacketCage.PacketCage.PutData | src/libsvc/packet_cage.c:102-130 | the whole new state: acceptance, anchor, closed form of the drop loop, store, tail time |
| PacketCage.PacketCage.GetData | src/libsvc/packet_cage.c:132-159 | the returned frame and the whole new state, starving or not |
| CageRefinement.DropManyAdvances | src/libsvc/packet_cage.c:85-118 | n drops slide the window from times to frames by n |
| CageRefinement.PutRefines | src/libsvc/packet_cage.c:102-130 | a put that misplaces no frame is a put on the window |
| CageRefinement.GetRefines | src/libsvc/packet_cage.c:132-159 | a get is a get on the window and returns the same frame |
| CageRefinement.RunRefines | src/libsvc/packet_cage.c:85-159 | every run in which no put misplaces a frame is, call by call, a run of the window, with the same returns |
| CageRefinement.InOrderPlayout | src/libsvc/packet_cage.c:102-159 | until a put moves the head time, the frames played are those accepted for strictly increasing unwrapped times, NULL exactly where none was accepted |
| CageRefinement.AcceptedStamps | src/libsvc/packet_cage.c:102-124 | every accepted time carries the stamp its frame was put with |
| CageRefinement.ConsecutivePlayout | src/libsvc/packet_cage.c:132-159 | while nothing is dropped playout advances one tick per non-starving get |
| CageRefinement.PlayoutFromAnchor | src/libsvc/packet_cage.c:102-159 | from the put that anchors an empty cage on, every frame played was put with the stamp of the time it is played at, in strictly increasing order across wraps |
| CageTail.PutRaisesExactly | src/libsvc/packet_cage.c:95-125 | a put drains the cage exactly when it is accepted, the cage is anchored, nothing was overwritten, and its stamp is `size` or more ahead of `tail_time` |
| CageTail.PutKeepsTail | src/libsvc/packet_cage.c:107-125 | while nothing was overwritten, a put leaves `tail_time` the stamp of the newest frame exactly when it does not anchor the cage on a frame waiting behind the head |
| CageTail.RunKeepsTail | src/libsvc/packet_cage.c:85-159 | so it is over every run without such a put |
| CageAlignment.PutAlignsExactly | src/libsvc/packet_cage.c:106-124 | a put keeps an aligned cage aligned if and only if it does not move the head time of a raised cage in which a frame waits behind the head |
| CageAlignment.RunAlignsExactly | src/libsvc/packet_cage.c:85-159 | every call of a run leaves the cage aligned if and only if no put of the run does that |
| CageAlignment.RunRefinesExactly | src/libsvc/packet_cage.c:85-159 | a run is a run of the timestamp window throughout if and only if no put does that |
| CageAlignment.NewCageRefinesExactly | src/libsvc/packet_cage.c:30-159 | the same for every run of a new cage |
| CageAlignment.AlignedPutOverwrites | src/libsvc/packet_cage.c:106-124 | in an aligned cage an accepted put overwrites the frame the window still holds for the same time, and none if there is none |
| CageAlignment.RaisedPutLeaves | src/libsvc/packet_cage.c:95-124 | a put that drains the cage leaves its frame alone in the last slot, with `new_cage` raised |
| CageAlignment.RaisedPutMisplaces | src/libsvc/packet_cage.c:106-159 | a put any number of gets later, before that frame has reached the head, misplaces it unless its stamp is the one the head has come to |
| CageAlignment.GapMisplaces | src/libsvc/packet_cage.c:95-142 | in a cage of five slots, stamps t, t+5 and t+6 leave t+5 in the slot of t+10, and the next get returns t+6 |
| CageLedger.PutBalances | src/libsvc/packet_cage.c:102-130 | a put accounts for its frame and for all it drops and overwrites |
| CageLedger.RunBalances | src/libsvc/packet_cage.c:85-159 | conservation and the meaning of `elements_count` are kept by every run |
| CageLedger.FrameConservation | src/libsvc/packet_cage.c:30-159 | in every run every frame the puts were given is in exactly one of rejected, stored, delivered, dropped, overwritten, those delivered are those the gets returned, the count is stored plus overwritten, and it is zero exactly when all slots are NULL and nothing was overwritten, and then the cage starves unanchored |
| CageLedger.StarvationEnds | src/libsvc/packet_cage.c:95-150 | starvation ends exactly in an accepted put that dropped a slot |
| CageLedger.EmptyAlwaysStarves | src/libsvc/packet_cage.c:80-159 | between calls a count of zero means starving and waiting for an anchor |
| CageLedger.DrainStarves | src/libsvc/packet_cage.c:132-159 | without overwrites a playing cage starves with the get that takes its last frame and not before |
| CageLedger.DrainReturnsAll | src/libsvc/packet_cage.c:132-159 | those gets return the slots in order |
| CageLedger.PutOverwritesExactly | src/libsvc/packet_cage.c:106-130 | a put rejects its frame exactly when it is not accepted, and otherwise overwrites exactly the frame in the slot at the distance of its stamp, if that is within the cage; the anchoring put, the one in slot 0 |
| CageLedger.PutEffect | src/libsvc/packet_cage.c:85-130 | every field after an accepted put in closed form: slots, head time, tail time, count, starvation, `new_cage` |
| CageLedger.PutRejected | src/libsvc/packet_cage.c:106-126 | any other put changes nothing |
| CageLedger.GetEffect | src/libsvc/packet_cage.c:132-159 | every field after a get |
| CageLedger.OverwrittenNeverStarves | src/libsvc/packet_cage.c:102-159 | after one overwrite a cage that plays never starves again, in any run of puts and gets |
| CageLedger.OverwrittenAt1 | src/libsvc/packet_cage.c:102-130 | stamps 0, 1 and 1 overwrite one frame, and two stored frames count as three |
| PacketQueue.PosDiffer | src/libsvc/packet_queue.c:32-35 | positions fewer than `size` steps apart are different slots |
| PacketQueue.FullMeansOutstanding | src/libsvc/packet_queue.c:49-53 | the refusal test holds exactly with size-1 frames outstanding |
| PacketQueue.PushKeepsInv | src/libsvc/packet_queue.c:44-60 | every statement of a push keeps the invariant of the queue |
| PacketQueue.PopKeepsInv | src/libsvc/packet_queue.c:62-74 | every statement of a pop keeps it |
| PacketQueue.RunKeepsInv | src/libsvc/packet_queue.c:44-74 | every schedule of producer and consumer keeps it |
| PacketQueue.GuardedAccess | src/libsvc/packet_queue.c:44-74 | head, tail and slots change only in moves of the thread that holds `queue_mutex`, and the consumer copies only while holding it |
| PacketQueue.NeverStuck | src/libsvc/packet_queue.c:44-74 | the consumer never pops an empty queue, the inner lock never blocks, both unlocks of `queue_empty_mutex` find it locked, a waiting consumer has popped everything, and both threads are never stuck |
| PacketQueue.DelayedFifo | src/libsvc/packet_queue.c:44-74 | the popped frames are a prefix of slot 0's first content followed by the accepted frames |
| PacketQueue.AcceptedAndPopped | src/libsvc/packet_queue.c:44-74 | over every schedule the frames accepted are exactly those handed to push and not refused, in order, the frames popped are exactly those copied, and the consumer's buffer holds the last of them |
| PacketQueue.BlockedExactly | src/libsvc/packet_queue.c:44-74 | a thread waits exactly for a mutex that is taken, and a full queue never makes the producer wait |
| Audio.CopyKeepsSize | src/libsvc/audio.c:26-30 | a copy takes place exactly between buffers of one size |
| PacketQueue.RefusedExactlyWhenFull | src/libsvc/packet_queue.c:49-56 | a push is refused exactly with size-1 accepted frames outstanding and never overwrites the slot to be read next |
| PacketQueue.WholePushIs | src/libsvc/packet_queue.c:44-60 | what the moves of one uninterrupted push amount to |
| PacketQueue.WholePopIs | src/libsvc/packet_queue.c:62-74 | what the moves of one uninterrupted pop amount to |
| PacketQueue.PacketQueue.constructor | src/libsvc/packet_queue.c:3-19 | a new queue is empty with its gate locked |
| PacketQueue.PacketQueue.PushData | src/libsvc/packet_queue.c:44-60 | an uninterrupted push is its moves in a row and returns 1 exactly when refused |
| PacketQueue.PacketQueue.PopData | src/libsvc/packet_queue.c:62-74 | an uninterrupted pop is its moves in a row and copies what they copy |
| Audio.ClearAudioData | src/libsvc/audio.c:32-35 | every sample becomes zero |
| Audio.MixAudioStreams | src/libsvc/audio.c:37-56 | each sample is the exact sum of the streams before the first one of another size; -1 exactly when there is one |
| Incoming.PutHoldsSize | src/libsvc/libsvc_incoming.c:72-76 | frames of one size stay the only ones in a cage |
| Incoming.MixedIsHeard | src/libsvc/libsvc_incoming.c:25-33 | the sum with silence for missing frames is the sum of the frames that came |
| Incoming.PeerList.Join | src/libsvc/libsvc_incoming.c:41-59 | the list stays well-formed with the new peer in front and a new cage |
| Incoming.PeerList.Leave | src/libsvc/libsvc_incoming.c:61-70 | the list stays well-formed without that peer, the others in order |
| Incoming.PeerList.Receive | src/libsvc/libsvc_incoming.c:72-76 | exactly one put on that peer's cage, no other cage touched |
| Incoming.PeerList.CollectFrames | src/libsvc/libsvc_incoming.c:25-32 | exactly one get on each listed cage, in order, and what each returned |
| Incoming.PeerList.RequestIncomingAudio | src/libsvc/libsvc_incoming.c:25-39 | each sample is the exact sum over the peers of the returned frames, missing ones as zero |
| Dstr.CmpOrders | src/common/dstr.c:228-271 | the comparison is a total order, equal only on equal strings |
| Dstr.CmpIsShortlex | src/common/dstr.c:228-271 | shorter strings come first, and of one length the one with the lesser byte where they first differ |
| Dstr.FindFirst | src/common/dstr.c:355-373 | the position searched for is the first occurrence from the start on, and -1 exactly when there is none |
| Dstr.Pos | src/common/dstr.c:355-373 | the search loop returns that position |
| Dstr.DString.AddSize | src/common/dstr.c:51-64 | room is made, the text kept, and the buffer moved only when too small |
| Dstr.DString.Cat | src/common/dstr.c:179-200 | the text is appended |
| Dstr.DString.CatMem | src/common/dstr.c:202-208 | the bytes are appended |
| Dstr.DString.CatC | src/common/dstr.c:186-192 | the byte is appended |
| Dstr.DString.Cpy | src/common/dstr.c:128-158 | the text is replaced |
| Split.DSplit | src/common/dstrutils.c:359-386 | the loop computes the pieces |
| Split.DJoin | src/common/dstrutils.c:244-257 | the loop computes the joined text |
| Split.JoinOfPieces | src/common/dstrutils.c:244-386 | joining the pieces gives the text back, for every non-empty separator and limit |
| Split.PiecesRespectLimit | src/common/dstrutils.c:359-386 | only the last piece may contain the separator, and only when the limit was reached, which is never exceeded |
| Split.PiecesEndLeftmost | src/common/dstrutils.c:359-386 | every piece but the last ends where the separator first occurs |
| Split.PiecesOfJoin | src/common/dstrutils.c:244-386 | splitting at a byte without limit undoes joining pieces free of it, except exactly for three or more empty ones |
| Lexer.Parse | src/common/dstrutils.c:441-529 | the lexer loop computes the tokens or the error |
| Lexer.EscapeMem | src/common/dstrutils.c:539-575 | the escape loop computes the escaped text |
| Lexer.LexInvertsQuoting | src/common/dstrutils.c:441-575 | every list of strings, each escaped and quoted, joined with spaces, lexes to that list |
| Lexer.LexInvertsEscape | src/common/dstrutils.c:441-575 | unquoted, the escaped text lexes to itself exactly when it is not empty and has no space |
| Lexer.LexInvertsRender | src/common/dstrutils.c:441-529 | any mixture of raw and escaped characters, quoted strings and blanks is read as meant: touching characters are one token, a quote or any of the four blanks ends one, a quoted string is a token of its own, four letters behind a backslash are control characters |
| Lexer.LexUnterminated | src/common/dstrutils.c:515-529 | after any such mixture, an open string is DSTRLEX_STRING, and a final backslash, in a string or not, is DSTRLEX_ESCAPE |
| Lexer.EscapeIsPlain | src/common/dstrutils.c:539-575 | escaped text has no raw newline, return, tab or NUL |
| Lexer.EscapeSequences | src/common/dstrutils.c:539-575 | the six escape sequences, and no others |
| Lexer.EscapeInjective | src/common/dstrutils.c:539-575 | different texts have different escaped forms |
| Protocol.AtoiOfDecimal | src/network/svcenet/client/main.c:545-547 | `atoi` reads back every `int` that `%i` printed |
| Protocol.AtoiReads | src/network/svcenet/client/main.c:545-547 | blanks before an `int` are skipped, its sign is heeded, and what follows the last digit is ignored |
| Protocol.DecimalDigits | src/network/svcenet/server/main.c:582 | `%i` prints the digits in the usual order without leading zeros |
| Protocol.DecodeOfLine | src/network/svcenet/client/main.c:666-699 | every printed YARE, SSET, PADD and PSET line is read back as that command |
| Protocol.WordsOfLine | src/network/svcenet/server/main.c:581-669 | the words of every printed line, PDEL included |
| Protocol.ExampleLines | src/network/svcenet/server/main.c:581-669 | the five lines as they go over the wire |
| Protocol.DecodeOfWords | src/network/svcenet/client/main.c:549-699 | six first words, each with its number of words, are accepted with their arguments, and nothing else |
| Protocol.DecodeOfPdel | src/network/svcenet/client/main.c:619-628 | a PDEL would be read back if it came on a line |
| Protocol.LineIsOneLine | src/network/svcenet/server/main.c:581-643 | a printed command has no newline inside |
| Protocol.ReceiveText | src/network/svcenet/client/main.c:701-717 | a text of lines, empty ones included, is cut into exactly those lines, and what follows the last newline is lost |
| Protocol.ReceiveInvertsPrint | src/network/svcenet/server/main.c:581-643 | the text of any sequence of these commands is handled as exactly that sequence |
| Protocol.LastLineIsLost | src/network/svcenet/client/main.c:701-717 | a last command without newline is never handled, whatever commands come before it |
| Protocol.PdelIsNeverHandled | src/network/svcenet/server/main.c:669-673 | a PDEL packet makes the client handle nothing |
| Dictionary.SetIsMapUpdate | src/network/svcenet/server/main.c:106-139 | `dd_set` updates that entry of the map and no other |
| Dictionary.SetNodes | src/network/svcenet/server/main.c:106-139 | `dd_set` keeps keys unique and every other node as it is, and leaves the node of its key dirty |
| Dictionary.GetIsLookup | src/network/svcenet/server/main.c:141-152 | `dd_get` looks the key up in the map |
| Dictionary.SentInOrder | src/network/svcenet/server/main.c:780-797 | each node is sent once or not at all, in the order of the list |
| Dictionary.ReceiveSnapshot | src/network/svcenet/server/main.c:586-601 | the entries of a snapshot rebuild the dictionary |
| Dictionary.ReceiveUpdate | src/network/svcenet/server/main.c:780-797 | the dirty entries bring every agreeing copy up to date |
| Dictionary.SetAgrees | src/network/svcenet/server/main.c:106-139 | a set leaves every agreeing copy in agreement |
| Dictionary.AgreesWhenClean | src/network/svcenet/server/main.c:780-797 | with no dirty entry left, agreeing is being equal |
| ServerModel.ServerSetStores | src/network/svcenet/server/main.c:417-463 | `serverset` updates one entry, which `serverget` reads, and touches no peer |
| ServerModel.PeerSetStores | src/network/svcenet/server/main.c:348-410 | `peerset` updates one entry of the chosen dictionary of a present peer, which `peerget` reads, and nothing else; for an absent peer it changes nothing |
| ServerModel.FirstEmpty | src/network/svcenet/server/main.c:245-250 | a new peer gets the first empty slot |
| ServerModel.RoomExactly | src/network/svcenet/server/main.c:245-250 | there is room exactly while some slot is empty |
| ServerModel.SentToExactly | src/network/svcenet/server/main.c:645-649 | every peer present but the excepted one gets the text once, and nobody else gets it |
| Server.DdSet | src/network/svcenet/server/main.c:106-139 | the loop over the nodes sets the key |
| Server.AppendEntries | src/network/svcenet/server/main.c:780-797 | the loop prints exactly the entries to be sent and clears exactly their flags |
| Server.Server.CmdPeerSet | src/network/svcenet/server/main.c:305-361 | sets the key of a present peer, fails for an absent one |
| Server.Server.GetNewPeer | src/network/svcenet/server/main.c:221-262 | the first empty slot, with empty dictionaries |
| Server.Server.HandlePeerConnect | src/network/svcenet/server/main.c:543-652 | the new state, and the packets sent: the snapshot to the new peer and the PADD to every other peer present |
| Server.Server.HandlePeerDisconnect | src/network/svcenet/server/main.c:655-678 | the new state, and the PDEL to every other peer present |
| Server.Server.SendModifiedData | src/network/svcenet/server/main.c:770-834 | all dirty entries to every peer present, and the flags cleared |
| Client.FindByte | src/network/svcenet/client/main.c:532-543 | the first position of the byte, or -1 |
| ClientModel.HandleByIds | src/network/svcenet/client/main.c:549-655 | what each command does to the dictionary of each id, to the server data and to the own id |
| ClientModel.BreaksExactly | src/network/svcenet/client/main.c:572-655 | which commands follow a null or freed dictionary or overflow the table size |
| DsDict.DsDict.Set | src/common/dstrutils.c:609-620 | the node list with one key set, as a map update, keys unique |
| DsDict.DsDict.Get | src/common/dstrutils.c:635-643 | the value of the key in the map, or NULL |
| DsDict.DsDict.Remove | src/common/dstrutils.c:645-654 | the map without the key |
| DsDict.DsDict.Iter | src/common/dstrutils.c:692-709 | the first node with the key, or none |
| Client.Client.ScmdPadd | src/network/svcenet/client/main.c:572-617 | the table object is replaced by one large enough with the old entries, and the slot holds a new empty dictionary |
| Client.Client.ScmdPset | src/network/svcenet/client/main.c:640-655 | the dictionary object of that peer has one entry set, no other dictionary and no slot changes, ids past the table are ignored, and a slot without dictionary is the failure |
| Client.Client.StartOver | src/network/svcenet/client/main.c:223-249 | nothing is left of the old connection |
| Client.Client.HandleServerDecodedMsg | src/network/svcenet/client/main.c:666-699 | a line is handled as the command it decodes to |
| Client.Client.HandleServerMsg | src/network/svcenet/client/main.c:701-717 | a packet is handled as its commands in order |
| Streams.TrackedIsWellFormed | src/network/svcenet/server/main.c:581-675 | a stream is tracked to the end exactly when it has one leading YARE and, for each id, a prefix of (PADD PSET* PDEL)* |
| Replication.ExecuteInStep | src/network/svcenet/server/main.c:305-442 | script commands keep every client in step |
| Replication.SnapshotInStep | src/network/svcenet/server/main.c:581-636 | the snapshot puts a new client in step |
| Replication.UpdateHandled | src/network/svcenet/server/main.c:770-834 | an update makes every client in step equal to the server |
| Replication.PaddInStep | src/network/svcenet/server/main.c:639-649 | a client told of a new peer, in a reused slot or not, stays in step |
| Replication.StepKeeps | src/network/svcenet/server/main.c:543-834 | every action keeps the replication invariant |
| Replication.EveryRun | src/network/svcenet/server/main.c:543-834 | it holds in every reachable state |
| Replication.StepSends | src/network/svcenet/server/main.c:543-834 | every queue gets exactly the packets the handlers send to that peer, in order |
| Replication.StepRecords | src/network/svcenet/server/main.c:543-834 | the recorded commands of a peer are the text of the packets sent to it since its connect |
| Replication.StepClients | src/network/svcenet/client/main.c:796-804 | a delivery hands one client its oldest packet; nothing else touches a client |
| Replication.ConnectRunsScript | src/network/svcenet/server/main.c:551-558 | the script of a connect runs command by command in order with the new peer in its slot |
| Replication.DisconnectRunsScript | src/network/svcenet/server/main.c:655-675 | the script of a disconnect runs in order before the slot is freed |
| Replication.SlotsComeAndGo | src/network/svcenet/server/main.c:221-262 | apart from scripts, connects and disconnects change one slot and no other data |
| Replication.UpdateKeepsData | src/network/svcenet/server/main.c:770-834 | an update changes no data, public or private |
| Replication.SnapshotContents | src/network/svcenet/server/main.c:581-631 | a snapshot is one YARE, every server entry once, and for each peer one PADD and every public entry once |
| Replication.UpdateContents | src/network/svcenet/server/main.c:778-824 | an update is every dirty entry once and nothing else |
| Replication.ClientsStaySound | src/network/svcenet/client/main.c:572-655 | no reachable client ever follows a null or freed dictionary |
| Replication.StreamsAreWellFormed | src/network/svcenet/server/main.c:581-834 | the stream to every client is well-formed and its open ids are the peers present |
| Replication.UpdateConverges | src/network/svcenet/server/main.c:770-834 | after an update nothing is dirty, and what a client knows once its queue is drained equals the server's public data |
| Replication.DeliverAll | src/network/svcenet/client/main.c:796-804 | delivering all packets drains the queue and changes nothing else |
| Replication.DeliveredUpdateConverges | src/network/svcenet/server/main.c:770-834 | after any run, an update and its delivery make the client's dictionaries equal to the server's |
| Replication.DepartedPeerIsKept | src/network/svcenet/server/main.c:655-678 | the other clients keep all they know of a peer that leaves, although a PDEL is sent |
| Privacy.PrivateDataIsNeverSent | src/network/svcenet/server/main.c:305-361 | leaving out every `peerset priv` changes no packet and no client |
| AudioPacket.Header | src/network/svcenet/client/main.c:132-141 | the header fields read back, for every payload length |
| AudioPacket.NetworkOrder | src/network/svcenet/client/main.c:132-135 | the bytes of 16- and 32-bit fields, most significant first |
| AudioPacket.SendsUnlessMuted | src/network/svcenet/client/main.c:125-130 | nothing is sent exactly by a muted client or one without an id |
| AudioPacket.HearsUnlessDeafened | src/network/svcenet/client/main.c:719-734 | a packet is ignored exactly when deafened or from outside the table |
| AudioPacket.RoundTrip | src/network/svcenet/server/main.c:680-705 | a packet passes the server for its own source only, and the client recovers source, payload and 16-bit time |
| AudioPacket.RelayedIsBuilt | src/network/svcenet/server/main.c:680-705 | from the length of a header on, the server passes a packet exactly when it is one that client can build |
| AudioPacket.RelayedExactly | src/network/svcenet/server/main.c:680-705 | the server passes on exactly what starts with the sender's id and the length of a rest of at least one byte |
| AudioPacket.RelayedStaysInside | src/network/svcenet/client/main.c:728-739 | in a relayed packet the client's header arithmetic stays inside exactly when it has ten bytes or more |
| AudioPacket.NineBytesAreRelayed | src/network/svcenet/server/main.c:680-705 | for every id there are relayed packets of nine bytes |
| GuiState.SuccessiveEventsDiffer | src/network/svcenet/wx/svcstate.cpp:114-164 | mute and deafen events alternate and successive connection events differ |
| GuiState.LastEventHolds | src/network/svcenet/wx/svcstate.cpp:114-164 | until the next event of its kind, an event tells the state |
| GuiState.LineEvents | src/network/svcenet/wx/svcstate.cpp:33-181 | what each kind of line is reported as, by its words |
| GuiState.SVCState.HandleStateMuted | src/network/svcenet/wx/svcstate.cpp:114-127 | the flag becomes what the word says, reported exactly when it changes |
| GuiState.SVCState.HandleStateDeafen | src/network/svcenet/wx/svcstate.cpp:129-142 | the same for the deafen flag |
| GuiState.SVCState.HandleStateConnection | src/network/svcenet/wx/svcstate.cpp:144-164 | the state becomes the named one, reported exactly when it changes; a disconnect empties the server map; anything else is logged |
| GuiState.SVCState.HandleCommandSSET | src/network/svcenet/wx/svcstate.cpp:74-82 | the entry is set and reported |
| GuiState.SVCState.HandleWords | src/network/svcenet/wx/svcstate.cpp:33-72 | every line is reported as its kind says, and replaying all events gives the state |
| GuiState.SVCState.GetNextEvent | src/network/svcenet/wx/svcstate.hpp:230-237 | events come out oldest first and none is lost |

## Left out

- Audio back ends, the CELT codec, ENet, the script interpreter, sockets, signals, standard input and output, and windows: foreign calls. Decoded sound and script effects are parameters.
- `sendmsg` and MESG texts: script output outside the replicated state; a MESG line is read but has no effect.
- A rejected connect and the growth of the server's peer table: the model connects only into a table with room.
- Memory: allocation failure, frees, leaks, the lifetime of packet buffers and the terminating NUL of a string. `dncat` and `dncatcs`, which reserve no room, are not modelled.
- PacketCage.PacketCage.constructor: does not model cages of more than 32768 slots, for which the comparison of stamps loses its meaning.
- PacketQueue.PacketQueue.constructor: does not model queues of one slot, which refuse every push.
- Incoming.PeerList.CollectFrames: does not model lists of more than 1000 peers, for which the mixer buffer is too small.
- Incoming.PeerList.RequestIncomingAudio: the same bound, and the output buffer is taken to have the size of the frames.
- `atoi` of a number beyond `int`, which C leaves undefined; the server prints none.
- Client.Client.HandleServerDecodedMsg: a line of nothing but blanks gives an empty argument vector, whose first element the client reads; the model takes it as no command. The server never sends one.
- Client.Client.ScmdPadd: the mixer peer joined for another client's id is not part of the client model; `Incoming` models the peers by themselves.
- PacketQueue.PacketQueue.PopData: the call on a queue that makes its caller wait is covered by the interleaving model only.
- Dstr.DString.Cat: the source is a text, so appending a string to itself is not distinguished from appending a copy.
- The handlers of YARE, PADD, PDEL, PSET and MESG in the graphical client: nothing calls them, so its map of peers stays empty.
- The host, address and port the graphical client keeps of its server: they are modelled as reported, not as kept.
- GuiState.SVCState.HandleWords: the words are given; the second copy of the lexer that produces them is not modelled, nor is the conversion of the port.
- `src/common/basedir.c`, the peer-to-peer client, the command line of the client and list searches: they would only add easy members.
