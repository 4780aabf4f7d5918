# Netplay, live streaming and replay: a verified model

A Dafny model of the protocols and data paths of the Kaillera client: the two reliable-UDP message
links, live streaming from a host through a server log to a spectator's player, the peer-to-peer
lockstep, the replay file, the game-data cache and the updater. `dafny verify dfyconfig.toml` checks all
of it.

How it is built: code that updates fields, arrays or buffers is a class whose methods and loops are
proved equal to functions on values; runs of several parties (threads, peers, a network, a server) are
state machines over those functions, and the main results hold in every reachable state of every run. For
each link and stream a method `Perform` carries out the steps of a run with the classes and shows that they
follow it; `LockstepCalls` does so for the calls of the lockstep.
Sockets, clocks, allocation and the file system appear as arbitrary inputs.

| part | modules |
|---|---|
| shared bytes, bundles of messages | `Bytes`, `Bundles` |
| Kaillera message link | `KMessage`, `KMessageRuns` |
| peer-to-peer message link | `P2PMessage`, `P2PMessageRuns` |
| live stream: host, server log | `Stream`, `StreamRuns` |
| live stream: spectator | `Watch`, `WatchRecords`, `WatchPlayer` |
| live stream, end to end | `LivePath` |
| lockstep, and over the link | `FrameCache`, `Lockstep`, `LockstepCalls`, `LinkedLockstep` |
| replay file | `KrecReader`, `Replay`, `RetryConnect` |
| instructions on the wire | `KInstruction`, `P2PInstruction` |
| game-data cache, and over the link | `GameData`, `LinkedGame` |
| updater | `Manifest`, `ManifestText`, `PackageSwap`, `MarkerSearch`, `Crc32` |

What the proofs found, each stated exactly:

- A late Kaillera bundle is taken for a new one if and only if its lateness, modulo 2^16, is more than 2^15
  serials, and a late peer-to-peer bundle if and only if its lateness, modulo 2^8, is more than 241
  (`KMessageRuns.TooLateIsRedelivered`, `P2PMessageRuns.TooLateIsTakenForNew`); what is queued again is
  handed over again (`KMessageRuns.QueuedIsHandedOver`).
- The comment in common/n02_watch.cpp:284-285 says that the offset only advances by what was buffered;
  lines 313-316 advance it by every chunk. So the pulled bytes are the log if and only if no chunk was
  lost for want of memory (`Watch.PullsAreTheLog`). The model follows the code.
- A state's byte offset is exact if and only if no record queued at the capture is dropped afterwards
  (`StreamRuns.OffsetIsExactUnlessADropHitsIt`).
- A recorded frame with a negative result (kailleraclient.cpp:812-818) swallows the records behind it on
  reading (`Replay.EntryIsReadBack`, `Replay.ErrorFrameSwallowsWhatFollows`).
- A streamed chat is misread unless nick and text fit the player's arrays of 100 and 500 bytes, or the
  nick is long enough to cut the text short in time (`LivePath.Aligned`, `LivePath.PushIsTakenWhole`).
- A game-data payload is cut losslessly if and only if len/conset divides len (`GameData.PiecesAreThePayload`).
- A peer-to-peer instruction of 255 body bytes arrives empty (`P2PInstruction.ReadUndoesWrite`).
- A peer-to-peer bundle of 15 messages or more, as a retransmission of throughput + 2 messages can be, is ignored
  as a whole (`P2PMessageRuns.WhatIsTaken`).
- The lockstep agrees over the link as long as no DATA is lost; from one handed over as an empty message on,
  each result pairs an input with a later one of the other side (`LinkedLockstep.PeersAgreeOverTheLink`,
  `LinkedLockstep.LostDataShiftsAllThatFollows`).
- A game-data literal that the link gave up shifts the list of literals, so that later indices name the wrong
  ones until 256 more literals have come (`LinkedGame.LostLiteralShiftsTheList`).
- `count_total_frames` leaves the last chat and drop as they were if and only if the file has no chat and no
  drop record (`KrecReader.CountKeepsTextsOfPlainFiles`; a failing file: `KrecReader.CountLeavesTheDrop`).
- The player demands 700 bytes behind the type byte of a chat or drop, so the end of a stream is served
  only up to the first chat or drop that has fewer (`WatchRecords.InputIsServedUpToTheMargin`,
  `LivePath.EveryFrameUpToTheMarginIsServed`).
- A peer that downloads the host's state, after any calls and local seeks of the host, is left the host's inputs
  (`RetryConnect.PeerIsLeftTheHostsInputs`), but it is served the same call by call if and only if no byte
  of unknown type lies between the last input the host was served and the host's place, or no input is
  left (`RetryConnect.PeerServesTheHostsRemainingInputs`); else it lags by as many calls
  (`RetryConnect.PeerLagsByTheUnknownBytes`; a failing input: `RetryConnect.UnknownByteIsRepeatedByBoth`).

## Model

| member | source | states |
|---|---|---|
| `KMessage.Endpoint.Send` | kcore/k_message.h:75-93 | the message is queued under the next 16-bit serial, the oldest of 15 kept ones making room, and a bundle of the newest is sent |
| `KMessage.Endpoint.SendMessage` | kcore/k_message.h:95-119 | the datagram is exactly the bundle that `Transmission` specifies: newest first, up to the limit and the 4096-byte buffer |
| `Bundles.PackNewest` | kcore/k_message.h:95-118 | the packing loop of both links computes count and bytes of the newest messages that fit |
| `Bundles.PackedTakesAllThatFits` | kcore/k_message.h:95-118 | a transmission leaves a message out only at the limit, or when it would no longer fit the 4096 bytes |
| `KMessage.Endpoint.OpenWindow` | kcore/k_message.h:178-210 | ten or more serials ahead the window restarts, fewer ahead it grows by holes, otherwise it stays |
| `KMessage.Endpoint.FillFrom` | kcore/k_message.h:215-230 | the in-place parsing loop fills the slots exactly as the parsed message list does |
| `KMessage.Endpoint.FillSlot` | kcore/k_message.h:287-301 | only an empty slot of that serial is filled |
| `KMessage.Endpoint.FreeInCache` | kcore/k_message.h:303-312 | the queue is emptied and no hole is pending |
| `KMessage.Endpoint.Digest` | kcore/k_message.h:161-232 | one datagram from the peer: window, then messages, as the runs take it; what a sent one does is `KMessageRuns.TransmissionIsQueued` |
| `KMessageRuns.TransmissionIsQueued` | kcore/k_message.h:161-232 | after a transmission that is ahead by any distance its newest serial ends the window, the new slots hold what it packed, and what was queued stays unless the window is full or restarts |
| `KMessageRuns.OldestIsHandedOver` | kcore/k_message.h:133-272 | with nothing queued, the call that reads a transmission reaching back far enough hands over its oldest new message at once |
| `KMessageRuns.Perform` | kcore/k_message.h:75-283 | two endpoints that do what a step says are afterwards in its state: the datagram sent is the one now in the network, and what the caller gets is what was delivered |
| `KMessage.Endpoint.SkipStaleHoles` | kcore/k_message.h:316-335 | holes at the head are dropped together, once the first has stood for 250 ms by a wrapping tick |
| `KMessage.Endpoint.CheckRecv` | kcore/k_message.h:133-272 | digest, sweep, then hand over the head; what the caller gets and the whole new window |
| `KMessage.Endpoint.HasData` | kcore/k_message.h:274-283 | true exactly when a message can be handed over or a datagram waits |
| `KMessageRuns.TransmissionParses` | kcore/k_message.h:95-119 | parsing a transmission gives back the packed messages (wire round trip) |
| `KMessageRuns.SkipStaleLaw` | kcore/k_message.h:316-335 | a sweep removes only holes, only once the head hole has expired, and then all leading ones; no arrived message is discarded |
| `KMessageRuns.FillKeepsWindow` | kcore/k_message.h:287-301 | across the wrap, a message can only fill the slot that stands for its own serial |
| `KMessageRuns.OpenMovesWindow` | kcore/k_message.h:178-210 | the contiguous slot-serial window moves forward, never back; the branch taken is the one the unwrapped serials call for |
| `KMessageRuns.StepKeepsInv` | kcore/k_message.h:75-335 | every step of sender, receiver, clock and network keeps slot-serial contiguity, the ledger of fates and the hole timer |
| `KMessageRuns.DeliveryIsOrderedAndFaithful` | kcore/k_message.h:133-272 | in every run with loss, duplication and reordering inside the window, delivered serials strictly increase and each body is the one sent under its serial |
| `KMessageRuns.EverySerialIsAccountedFor` | kcore/k_message.h:236-335 | every serial up to last_cached_instruction has exactly one fate or is queued; delivered means handed over |
| `KMessageRuns.HoleIsGivenUpAfterTheWait` | kcore/k_message.h:309-335 | in every step of every run, a message is given up only after 250 ms at the head, and a poll after that removes the hole |
| `KMessageRuns.TooLateIsRedelivered` | kcore/k_message.h:178-230 | for every window and bundle: one that is late is taken for a jump ahead if and only if its lateness modulo 2^16 is more than 2^15; its messages then fill new slots at the end, else at most holes are filled |
| `KMessageRuns.QueuedIsHandedOver` | kcore/k_message.h:236-335 | every message in the window is handed over by some polls, whatever holes stand before it |
| `KMessageRuns.GaplessDeliveryIsAPrefix` | kcore/k_message.h:178-230 | when bundles reach back far enough the window never has a hole and the delivered messages are a prefix of those sent |
| `KMessageRuns.ReceiveAll` | kcore/kaillera_core.cpp:618-626 | the receive loop ends, hands over in order all that arrived in the slots it deals with, holes passed over, and leaves a hole or nothing at the head |
| `P2PMessage.P2PEndpoint.Send` | core/p2p_message.h:113-128 | the message is queued under the next 8-bit serial, dropping the oldest of 31; one of 256 bytes is sent as an empty one |
| `P2PMessage.P2PEndpoint.SendMessage` | core/p2p_message.h:130-158 | the datagram is the bundle that `Transmission` specifies |
| `P2PMessage.P2PEndpoint.Digest` | core/p2p_message.h:192-242 | what a datagram does to the window; bundles of 15 or more messages are ignored |
| `P2PMessage.P2PEndpoint.FillFrom` | core/p2p_message.h:215-240 | the parsing loop fills the new slots and stops at the serial it already has |
| `P2PMessage.P2PEndpoint.CheckRecv` | core/p2p_message.h:261-359 | digest, or keep a datagram with count byte 0 aside, then hand over the head of the queue, hole or not |
| `P2PMessage.P2PEndpoint.CheckRecvX` | core/p2p_message.h:184-259 | the same for the peer alone: digest, then hand over the head |
| `P2PMessage.P2PEndpoint.ReceiveSideNote` | core/p2p_message.h:100-111 | what was kept aside comes back oldest first |
| `P2PMessage.P2PEndpoint.HasData` | core/p2p_message.h:361-366 | true exactly when a datagram waits or a caller with room would be handed something |
| `P2PMessage.SideNoteComesBack` | core/p2p_message.h:74-111 | what the meeting server sent, from five bytes on, is set aside with its exact payload and never taken for messages |
| `P2PMessageRuns.WhatIsTaken` | core/p2p_message.h:192-242 | a transmission is taken if and only if it has 1 to 14 messages and is 1 to 14 serials ahead; then its messages fill the new slots from the end |
| `P2PMessageRuns.HeadIsHandedOver` | core/p2p_message.h:343-358 | a call hands over the head of the queue if and only if it fits the buffer, else it changes nothing |
| `P2PMessageRuns.QueueIsHandedOver` | core/p2p_message.h:243-257 | as many calls as messages are queued hand over all of them, in order |
| `P2PMessageRuns.Perform` | core/p2p_message.h:113-359 | two endpoints that do what a step says are afterwards in its state, through check_recv or check_recvx |
| `P2PMessageRuns.BundleReads` | core/p2p_message.h:215-240 | parsing a bundle gives back its messages up to the one already held (wire round trip) |
| `P2PMessageRuns.FillsFromTheEnd` | core/p2p_message.h:215-240 | the j-th message of a bundle lands j slots from the end |
| `P2PMessageRuns.StepKeepsInv` | core/p2p_message.h:113-359 | every step keeps the contiguous window and the ledger of fates |
| `P2PMessageRuns.HandedInOrder` | core/p2p_message.h:184-359 | what is handed over has strictly increasing serials and is the message sent, or empty for a lost one |
| `P2PMessageRuns.CoveredDeliveryIsTheSentSequence` | core/p2p_message.h:195-242 | if every bundle taken reaches back far enough and fits, what is handed over is exactly the sent sequence, across the 8-bit wrap |
| `P2PMessageRuns.TooLateIsTakenForNew` | core/p2p_message.h:198-242 | for every window and bundle: a late one is recognised as old if and only if its lateness modulo 2^8 is at most 241; else its messages fill 1 to 14 new slots |
| `Stream.RecordQueue.Enqueue` | common/n02_stream.cpp:126-144 | the ring array behind the drop-oldest queue holds exactly the list that results, and the byte counter moves by the bytes gained and lost |
| `Stream.RecordQueue.Drain` | common/n02_stream.cpp:149-167 | whole records, oldest first, as many as fit, leave the ring |
| `Stream.DrainTakesAllThatFits` | common/n02_stream.cpp:149-167 | a drain takes the longest run of whole records that fits; all of it if and only if the queue fits |
| `Stream.RingWrite` | common/n02_stream.cpp:126-144 | one write at the ring's head appends the record, over the oldest when full |
| `Stream.StreamSession.Push` | common/n02_stream.cpp:815-852 | records are queued only while the session is active and not ended |
| `Stream.StreamSession.Compose` | common/n02_stream.cpp:403-436 | with nothing pending, the drained bytes become the next batch, the header leading the first |
| `Stream.StreamSession.Settle` | common/n02_stream.cpp:437-461 | a retry keeps batch and sequence number, a delivery or refusal moves on; `StreamRuns.ReplySettles` says to where |
| `StreamRuns.ReplySettles` | common/n02_stream.cpp:437-461 | in every reachable state an answer keeps everything for a retry, or settles the batch under its number; behind the last batch, and only there, the session is over |
| `StreamRuns.BatchIsMadeWhenDue` | common/n02_stream.cpp:423-436 | a turn of the sender makes a batch if and only if there is a header, a record or the end to send |
| `StreamRuns.EndedSessionCanFinish` | common/n02_stream.cpp:398-461 | from every state in which the session was ended some continuation settles its last batch and leaves the loop |
| `StreamRuns.EverySessionCanFinish` | common/n02_stream.cpp:398-461 | every reachable session can be ended and finished |
| `StreamRuns.Perform` | common/n02_stream.cpp:126-461 | the session that does what a step says is afterwards in its state, and tags a captured state with the run's offset |
| `StreamRuns.StepKeepsInv` | common/n02_stream.cpp:398-461 | every interleaved step of recorder, sender, network and server keeps counter, batches and log consistent |
| `StreamRuns.CounterIsExact` | common/n02_stream.cpp:103-167 | the counter is 400 plus bytes drained plus bytes queued in every interleaving, drop-oldest included |
| `StreamRuns.LogIsHeaderAndWholeRecords` | common/n02_stream.cpp:398-461 | with requests and replies lost, delayed and repeated, the log is the header and a run of whole records, each once |
| `StreamRuns.RefusedBatchesAreWhatIsMissing` | common/n02_stream.cpp:437-461 | in general the log is the batches not refused, in order; only refused ones are missing |
| `StreamRuns.FinishedLogIsComplete` | common/n02_stream.cpp:423-461 | a finished session with an empty queue has every record not dropped in the log |
| `StreamRuns.LastDrainTakesAllThatFits` | common/n02_stream.cpp:423-436 | the last batch empties the queue if and only if it fits 64 KB |
| `StreamRuns.OffsetIsExactUnlessADropHitsIt` | common/n02_stream.cpp:871-897 | a captured offset splits the stream exactly at the capture if and only if no record then kept is dropped later |
| `StreamRuns.SpectatorStartsWithTheNextRecord` | common/n02_stream.cpp:871-897 | the log from that offset on is the records pushed after the capture |
| `Watch.PrefetchBuffer.Append` | common/n02_watch.cpp:266-287 | a chunk is appended, or lost if the buffer cannot grow |
| `Watch.PrefetchBuffer.Pull` | common/n02_watch.cpp:397-414 | bytes leave the front in order; the end is reported exactly when finished and empty |
| `Watch.PrefetchBuffer.FetchTurn` | common/n02_watch.cpp:305-326 | one turn of the fetching thread: the chunk is appended or lost, the offset moves past it all the same, and an empty answer of a finished session ends the fetching |
| `Watch.PrefetchBuffer.Restart` | common/n02_watch.cpp:333-368 | the buffer is emptied and fetching starts over at the offset |
| `Watch.Perform` | common/n02_watch.cpp:266-414 | buffer and thread that do what a step says are afterwards in its state; a pull yields what the run lists as pulled |
| `Watch.PullsAreTheLog` | common/n02_watch.cpp:266-414 | for any chunking and any restart, also ahead of the log, pulled plus buffered bytes are the log from the last start on, if and only if no chunk was lost |
| `WatchRecords.CStrIsStrlen` | player.cpp:1281-1288 | the bounded string length is what the strlen-based load consumes |
| `WatchRecords.RecordInStretch` | player.cpp:1290-1319 | a record is complete in the buffer exactly when it is the complete record of the stream |
| `WatchRecords.BoundariesAreOnOneChain` | player.cpp:1293-1319 | two record boundaries of one reading lie on one chain, ordered by their frame numbers |
| `WatchRecords.NextInputIsNth` | player.cpp:1148-1220 | at a boundary with n inputs before it the next input is the n-th |
| `WatchRecords.ServedIsNth` | player.cpp:1148-1220 | on the unbuffered stream, a call serves the n-th input and leaves a boundary |
| `WatchRecords.InputIsServedUpToTheMargin` | player.cpp:1163-1214 | the next input is served if and only if only plain records stand before it and 700 bytes follow the type byte of each chat and drop among them; a chat or drop without them ends the playback |
| `WatchRecords.MarginBefore` | player.cpp:1185-1214 | an input that starts 700 bytes or more before the end always has that margin |
| `WatchPlayer.Player.Append` | player.cpp:167-210 | new bytes, trimming of old history and the shift of the snapshots |
| `WatchPlayer.HistoryIsKept` | player.cpp:167-210 | a refill keeps every byte and every snapshot of the last 16 MB before the reader, and no more |
| `WatchPlayer.Player.SnapshotRecord` | player.cpp:144-156 | afterwards a snapshot is fewer than 600 frames back; one that was due stands at this frame and place, behind all earlier ones but the oldest of 100 |
| `WatchPlayer.Player.DropSnapshots` | player.cpp:190-202 | the loop keeps exactly the snapshots whose bytes survive, shifted |
| `WatchPlayer.Player.EnsureBuffered` | player.cpp:212-248 | refills only add and trim; it fails exactly when the stream ends first |
| `WatchPlayer.Player.LoadStr` | player.cpp:83-88 | skips a C string, bounded by the array and the buffer |
| `WatchPlayer.Player.TakeInput` | player.cpp:1169-1184 | an input is served if all of it can be buffered, else the playback ends |
| `WatchPlayer.Player.TakeText` | player.cpp:1185-1214 | a chat or drop is passed if 700 bytes can be buffered behind its type byte, else the playback ends |
| `WatchPlayer.Player.ModifyPlayValues` | player.cpp:1148-1220 | a call comes to exactly what it would with the whole stream buffered, for any chunking, refill and trimming; and an input served has a snapshot fewer than 600 frames back, unless so few take up more than 16 MB |
| `WatchPlayer.AppendKeepsView` | player.cpp:167-210 | trimming keeps buffer and snapshots on the stream |
| `WatchPlayer.SurvivorsKeep` | player.cpp:178-202 | snapshots that survive trimming still point at boundaries with exact frame numbers, still at least 600 apart |
| `WatchPlayer.SnapKeepsView` | player.cpp:144-156 | a new snapshot points at a boundary with exactly its number of inputs before it, and eviction keeps the others |
| `WatchPlayer.ServedPayloadIsNthInput` | player.cpp:1148-1220 | a payload served while the frame count goes from n to n+1 is the n-th input of the stream |
| `WatchPlayer.Player.WalkForward` | player.cpp:1336-1348 | the re-walk loop computes the walk over complete records |
| `WatchPlayer.Player.BestSnapshot` | player.cpp:1325-1331 | the loop finds the latest snapshot not after the frame, else the oldest |
| `WatchPlayer.BestFromLaw` | player.cpp:1325-1331 | all snapshots behind the chosen one are later than the frame |
| `WatchPlayer.Player.SeekToFrame` | player.cpp:1321-1348 | a rewind keeps every invariant and lands where `Sought` says |
| `WatchPlayer.SoughtIsValid` | player.cpp:1321-1348 | wherever a rewind stops there is a boundary with exactly that many inputs before it |
| `WatchPlayer.SeekLandsOnTheFrame` | player.cpp:1290-1348 | a rewind lands on the frame if and only if the chosen snapshot is of that frame, or of an earlier one from which on all records up to the input before the frame are buffered and plain |
| `WatchPlayer.Player.JumpToLive` | player.cpp:431-450 | reading starts over, valid, at the offset and frame of the downloaded state |
| `LivePath.PushIsTakenWhole` | common/n02_stream.cpp:815-852 | the player takes a pushed record whole if and only if nick and text fit its arrays (with the one exception that a nick fills the record) |
| `LivePath.ChatComesBack` | common/n02_stream.cpp:829-838 | nick and text can be read off a chat record: the strings given, cut to what the record holds |
| `LivePath.DropComesBack` | common/n02_stream.cpp:840-852 | nick and player number can be read off a drop record, the number if and only if the nick leaves it room |
| `LivePath.InputsAreTheFrames` | player.cpp:1148-1220 | the inputs found in a stretch of pushed records are the pushed frames, in order |
| `LivePath.EveryFrameIsFound` | player.cpp:1148-1220 | and all of them are found when the stretch is complete |
| `LivePath.LaterExists` | common/n02_stream.cpp:126-144 | unless a record kept at the capture was dropped, what is kept later is that and the records of pushes made after it |
| `LivePath.FinishedLogHoldsEveryFrame` | common/n02_stream.cpp:423-461 | a finished session's log holds every frame pushed after the capture and not dropped |
| `LivePath.SpectatorSeesTheStream` | common/n02_watch.cpp:266-414 | the player that jumped to live sees the stream as far as the fetching thread has come, whatever chunks the pulls yield |
| `LivePath.SpectatorPlaysWhatTheHostPushed` | player.cpp:422-450 | end to end, from push to fetch to playback: the frames a spectator is served after jumping to a captured state are, one by one, the frames the host pushed after capturing it and did not drop |
| `LivePath.EveryFrameUpToTheMarginIsServed` | player.cpp:1148-1220 | end to end, completeness: with the finished log fetched, the next kept frame is served if and only if every chat and drop before it has its 700 bytes; else the playback is over |
| `FrameCache.FrameFifo.EnsureSized` | common/k_framecache.h:47-58 | growing the buffer keeps the contents |
| `FrameCache.FrameFifo.PutData` | common/k_framecache.h:32-38 | bytes are appended at the back |
| `FrameCache.FrameFifo.GetData` | common/k_framecache.h:59-68 | bytes leave the front in order, as many as asked for or there are |
| `Lockstep.P2PCore.ProcessGameStuff` | core/p2p_core.cpp:846-874 | every arrived DATA is queued; a DROP ends the playing |
| `Lockstep.P2PCore.WaitForPeer` | core/p2p_core.cpp:886-908 | with no frame held the wait ends with the first poll that finds a frame or a drop: with that poll's frames, or with the end of the game if it found a drop or none did |
| `Lockstep.P2PCore.CombineFrames` | core/p2p_core.cpp:921-930 | one frame leaves each FIFO; the host's comes first |
| `Lockstep.P2PCore.ModifyPlayValues` | core/p2p_core.cpp:876-937 | the call is delayed, or answers the oldest own frame paired with the oldest of the peer, or ends the game: exactly when, by what its polls find |
| `LockstepCalls.CallIsSteps` | core/p2p_core.cpp:876-937 | whatever the other peer does between its polls, a call is a sequence of steps of the run: the same answer, the same state, and reachable |
| `Lockstep.StepKeepsInv` | core/p2p_core.cpp:846-937 | every interleaved step keeps each FIFO equal to the inputs in flight on its side |
| `Lockstep.PeersAgree` | core/p2p_core.cpp:886-930 | the k-th result on both peers is host_input[k] followed by guest_input[k] |
| `Lockstep.DriftIsBounded` | core/p2p_core.cpp:876-937 | call counts differ by at most T+1; USERDATA holds at most T+1 and PEERDATA at most 2T+2 frames |
| `Lockstep.NeverBothStuck` | core/p2p_core.cpp:886-908 | the two peers are never both waiting with empty channels and nothing to combine |
| `Lockstep.WaitingPeerLeavesWithOneFrame` | core/p2p_core.cpp:886-930 | one frame from the other side is enough for a waiting peer to go on |
| `LinkedLockstep.StepKeepsInv` | core/p2p_core.cpp:846-937 | over the lossy link, every step keeps the DATA sent equal to the inputs and each FIFO equal to the frames handed over |
| `LinkedLockstep.ResultsPairInputs` | core/p2p_core.cpp:846-937 | in every run over the link, each result pairs an own input with one of the other side, of numbers that only grow |
| `LinkedLockstep.LostDataShiftsAllThatFollows` | core/p2p_core.cpp:846-937 | before the first DATA that is not handed over the pairs are those of one number; every result from it on pairs an input with a later one |
| `LinkedLockstep.EmptyDataIsMissing` | core/p2p_core.cpp:846-853 | a DATA handed over as an empty message is passed over, so its number is missing |
| `LinkedLockstep.PeersAgreeOnTheSameInputs` | core/p2p_core.cpp:921-930 | the k-th results agree if and only if the inputs given as the other side's k-th equal the other side's k-th |
| `LinkedLockstep.PeersAgreeOverTheLink` | core/p2p_core.cpp:876-937 | if every bundle taken reaches back far enough, all results of both peers agree, with datagrams lost, repeated and reordered |
| `LinkedLockstep.SendInput` | core/p2p_core.cpp:879-885 | an input is queued as the DATA instruction that carries it |
| `LinkedLockstep.PerformTake` | core/p2p_core.cpp:846-874 | a turn of the loop with the real endpoint and peer - read off the link, decode, act - does what the step of a run says |
| `LinkedLockstep.LinkedStepIsOwnStep` | core/p2p_core.cpp:846-937 | entering, leaving and dropping do to a side what they do in the in-order lockstep, and to the link what its sender does |
| `KrecReader.KrecFile.LoadBytes` | common/krec_reader.h:180-186 | nothing once 10 or fewer bytes remain, else as many as there are |
| `KrecReader.KrecFile.LoadStr` | common/krec_reader.h:187-192 | the string through its NUL, bounded by the array and the file |
| `KrecReader.KrecFile.LoadShort` | common/krec_reader.h:203-207 | a little-endian field, zero if it cannot be loaded |
| `KrecReader.KrecFile.NextInput` | common/krec_reader.h:403-431 | copies at most the room offered and skips the rest of the payload |
| `KrecReader.KrecFile.Next` | common/krec_reader.h:396-448 | the in-place record loop computes `NextRecord` |
| `KrecReader.KrecFile.SeekToFrame` | common/krec_reader.h:290-299 | rewinds and skips until the frame or the end |
| `KrecReader.KrecFile.CountTotalFrames` | common/krec_reader.h:308-325 | counts to the end and restores the position; the last texts are those of a full reading |
| `KrecReader.RoomDoesNotMatter` | common/krec_reader.h:396-448 | skipping and copying reads of one record agree in type, length and frame count and stay together |
| `KrecReader.TailIsNotLoaded` | common/krec_reader.h:180-186 | the last ten bytes of a file are never loaded: exactly what an input record there loses |
| `KrecReader.ReadingsAgree` | common/krec_reader.h:396-448 | whole readings with any room at each record report the same types and lengths |
| `KrecReader.SeekEqualsPlaying` | common/krec_reader.h:290-299 | a seek from anywhere ends where playing from the start ends after that many frames |
| `KrecReader.CountEqualsFullPlayback` | common/krec_reader.h:308-325 | the count is that of a full playback, and a seek reaches a frame exactly when it is at most the count |
| `KrecReader.CountKeepsTextsOfPlainFiles` | common/krec_reader.h:308-325 | counting leaves the last chat and drop as they were, whatever they were, if and only if the file has no chat and no drop record |
| `KrecReader.CountLeavesTheDrop` | common/krec_reader.h:308-325 | a file with one drop record: counting right after opening leaves its player name |
| `RetryConnect.RetrySession.ModifyPlayValues` | kcore/kaillera_retryconnect.cpp:229-265 | reads past chats and drops, serves an input into the caller's buffer and keeps it, or at the end or an unknown byte repeats the one kept |
| `RetryConnect.RetrySession.DownloadState` | kcore/kaillera_retryconnect.cpp:291-304 | the peer seeks to the host's frame |
| `RetryConnect.RetrySession.SeekLocal` | kcore/kaillera_retryconnect.cpp:333-337 | the host alone rewinds or skips its reader to a frame |
| `RetryConnect.Perform` | kcore/kaillera_retryconnect.cpp:229-337 | a session that is called and rewound in any order reads where the steps of the model lead |
| `RetryConnect.ServedAndLeft` | kcore/kaillera_retryconnect.cpp:229-265 | what was served from the recording and what is left make up the recording |
| `RetryConnect.PeerIsLeftTheHostsInputs` | kcore/kaillera_retryconnect.cpp:273-337 | after any calls and local seeks of the host, a peer that downloads its state has exactly the host's remaining inputs left, at the same frame |
| `RetryConnect.PeerLagsByTheUnknownBytes` | kcore/kaillera_retryconnect.cpp:229-337 | it lags by exactly as many calls as bytes of unknown type lie between its place and the host's: so often it repeats a frame, then it is served, call by call, what the host is |
| `RetryConnect.PeerServesTheHostsRemainingInputs` | kcore/kaillera_retryconnect.cpp:229-337 | host and peer are served the same call by call if and only if no byte of unknown type lies between their places or no input is left |
| `RetryConnect.UnknownByteIsRepeatedByBoth` | kcore/kaillera_retryconnect.cpp:229-304 | the failing input: behind an unknown byte, host and joining peer each repeat a frame for it |
| `Replay.Recorder.PutShort` | kailleraclient.cpp:147-150 | the two bytes of a C short, little end first |
| `Replay.Recorder.PutBytes` | kailleraclient.cpp:152-156 | the byte loop appends the first len bytes, none if negative |
| `Replay.Recorder.Write` | kailleraclient.cpp:157-161 | the buffered bytes go to the file |
| `Replay.Recorder.Close` | kailleraclient.cpp:164-171 | nothing that was recorded is lost on closing |
| `Replay.Recorder.RecordFrame` | kailleraclient.cpp:804-819 | type, result, payload, then all that was buffered goes to the file |
| `Replay.Recorder.RecordChat` | kailleraclient.cpp:452-463 | a chat is buffered until the next frame |
| `Replay.Recorder.RecordDrop` | kailleraclient.cpp:468-481 | a drop is buffered until the next frame |
| `Replay.EntryIsReadBack` | kailleraclient.cpp:452-481 | a record ending 10 bytes or more before the end leaves the reader exactly behind it, read back unchanged, if and only if its result is not negative and its strings fit |
| `Replay.RecordingIsReadBackUpToItsTail` | common/krec_reader.h:180-238 | every entry of a recording that ends 10 bytes or more before the end of the file is played back in order |
| `Replay.ErrorFrameSwallowsWhatFollows` | kailleraclient.cpp:812-818 | an error result is written as a length of 65536 plus the result without payload and swallows the records behind it |
| `Replay.HeaderIsReadBack` | common/krec_reader.h:213-238 | titles that are terminated, player number and count are read back from the header |
| `GameData.GameQueue.Process` | kcore/kaillera_core.cpp:955-1009 | a literal payload is remembered and cut, an index cuts the remembered one |
| `GameData.GameQueue.Cut` | kcore/kaillera_core.cpp:978-988 | the loop queues the pieces of the payload |
| `GameData.GameQueue.Play` | kcore/kaillera_core.cpp:1102-1109 | the oldest piece is the next frame |
| `GameData.PiecesAreThePayload` | kcore/kaillera_core.cpp:978-988 | the pieces put together are the payload if and only if len/conset divides len |
| `GameData.PiecesAreFrames` | kcore/kaillera_core.cpp:978-988 | every piece has len/conset bytes, the i-th those from i times that on, and there are as many as cover the payload |
| `GameData.CachingIsLossless` | kcore/kaillera_core.cpp:955-1009 | whatever mixture of literals and indices is sent, the queued pieces put together are the payloads put together |
| `LinkedGame.SendGameData` | kcore/kaillera_core.cpp:1060-1064 | an input is queued as the GAMEDATA instruction that carries it |
| `LinkedGame.DecodeUndoesEncode` | kcore/kaillera_core.cpp:955-996 | a game-data instruction that fits a message is processed as it was sent |
| `LinkedGame.GameIsSent` | kcore/kaillera_core.cpp:955-1009 | the game data among written messages are the instructions that were written, none lost or added |
| `LinkedGame.PiecesAreThePayloadsSent` | kcore/kaillera_core.cpp:955-1009 | over a link whose bundles reach back far enough, the pieces queued are the first of the payloads sent, whatever mixture of literals and indices was chosen |
| `LinkedGame.LostLiteralShiftsTheList` | kcore/kaillera_core.cpp:955-996 | a literal that was given up shifts the list: which indices then name another literal, and that it is over after 256 more literals |
| `Manifest.SafePackagePath` | common/n02_update.cpp:606-627 | the loops accept exactly the relative paths of binaries, no segment of which is empty or dots |
| `Manifest.SegmentsLeadDown` | common/n02_update.cpp:616-625 | walking from slash to slash decides that for every segment of the path |
| `Manifest.PlainPathIsSafe` | common/n02_update.cpp:606-627 | every plain name of a binary, in a plain folder, in any case, is accepted |
| `Manifest.ParseManifest` | common/n02_update.cpp:639-690 | accepted if and only if the file lines are acceptable, there is one, and a version is given; the package is what the lines say |
| `ManifestText.ManifestIsReadBack` | common/n02_update.cpp:639-690 | the manifest that says a publishable package is accepted, and the package read off it is that one (round trip) |
| `ManifestText.SizesAccepted` | common/n02_update.cpp:672-685 | a decimal size is accepted if and only if it is at most 64 MB, whatever blanks and sign stand before it |
| `ManifestText.UnknownLinesDoNotMatter` | common/n02_update.cpp:655-690 | lines of other kinds, wherever they stand in a manifest, change nothing |
| `Manifest.AddFile` | common/n02_update.cpp:672-685 | a line is accepted exactly when hash, size, path and distinctness check out |
| `Manifest.TouchedNamesDiffer` | common/n02_update.cpp:606-690 | no file name is touched on account of two different accepted paths |
| `Manifest.OwnNamesDiffer` | common/n02_update.cpp:788-796 | the file, its .new and its .old names are all different |
| `PackageSwap.Disk.FreeOldName` | common/n02_update.cpp:1160-1167 | the first of nine old names that is free or can be freed, and nothing but that name is deleted |
| `PackageSwap.Disk.SwapOne` | common/n02_update.cpp:1148-1183 | a file is swapped if and only if its download is there and, if there is a file to replace, an old name is free or can be freed and no rename is refused; else it and its download are as before |
| `PackageSwap.Disk.UndoOne` | common/n02_update.cpp:1187-1195 | an undone swap leaves file and download as before |
| `PackageSwap.Disk.SwapPackage` | common/n02_update.cpp:1143-1197 | all or nothing: the package is in place if and only if every download can be swapped; else all is as before and the first that cannot be is named |
| `PackageSwap.SwapStaysMidway` | common/n02_update.cpp:1148-1183 | swapping one more file leaves every other file of the package and all foreign files alone |
| `PackageSwap.UndoStaysMidway` | common/n02_update.cpp:1187-1195 | undoing one swap leaves the others swapped and the rest as before |
| `MarkerSearch.CarryFindsStraddlers` | common/n02_update.cpp:737-755 | a marker is in what has been read exactly when it was before or is in carry plus chunk |
| `MarkerSearch.Search` | common/n02_update.cpp:740-750 | the memchr/memcmp loop finds the marker exactly when it occurs in the buffer |
| `MarkerSearch.KeepLast` | common/n02_update.cpp:751-755 | the end of the buffer is moved to its front |
| `MarkerSearch.TakeChunk` | common/n02_update.cpp:737-755 | carry, search and memmove keep the end of the file in the buffer |
| `MarkerSearch.HashLocalFile` | common/n02_update.cpp:707-766 | for every way the reads split it, found means the marker occurs in the file, and the hashed bytes are the file |
| `Crc32.PolyIsTheConstant` | common/n02_update.cpp:51 | the polynomial of RFC 1952 is the constant of the code |
| `Crc32.MakeTable` | common/n02_update.cpp:44-55 | the table holds eight shifts of every byte |
| `Crc32.ShiftsAreLinear` | common/n02_update.cpp:50-51 | shifting is linear over xor |
| `Crc32.TableStepIsFeeding` | common/n02_update.cpp:58 | one table step does what feeding the eight bits of the byte does |
| `Crc32.Crc32` | common/n02_update.cpp:44-60 | the table-driven loop computes the bit-at-a-time CRC-32 of every byte sequence |
| `Crc32.BurstsAreNoticed` | common/n02_update.cpp:38-60 | two messages that differ in at most four neighbouring bytes never have the same CRC |
| `Crc32.CheckedMessagesLeaveOneState` | common/n02_update.cpp:44-60 | a message followed by its CRC leaves one and the same register state |
| `KInstruction.Instruction.EnsureSized` | kcore/k_instruction.h:121-126 | doubling the buffer keeps its contents |
| `KInstruction.Instruction.StoreBytes` | kcore/k_instruction.h:134-138 | bytes are appended |
| `KInstruction.Instruction.LoadBytes` | kcore/k_instruction.h:140-147 | bytes leave the front in order and the rest moves down |
| `KInstruction.Instruction.LoadStr` | kcore/k_instruction.h:153-194 | exactly one string through its NUL is consumed, whatever the destination's size |
| `KInstruction.Instruction.ReadFromMessage` | kcore/k_instruction.h:235-273 | the inverse; a message without a NUL is malformed |
| `KInstruction.ReadUndoesWrite` | kcore/k_instruction.h:226-273 | reading undoes writing if and only if the body fits |
| `KInstruction.FieldsComeBackInOrder` | kcore/k_instruction.h:134-224 | any list of stored fields is loaded back in order, strings shortened only in the destination |
| `P2PInstruction.Instruction.StoreBytes` | core/p2p_instruction.cpp:48-53 | bytes are appended up to 255 |
| `P2PInstruction.Instruction.StoreVString` | core/p2p_instruction.cpp:60-74 | at most 250 bytes of a string and a NUL |
| `P2PInstruction.Instruction.LoadBytes` | core/p2p_instruction.cpp:97-102 | all bytes asked for, or none |
| `P2PInstruction.Instruction.LoadVString` | core/p2p_instruction.cpp:115-141 | one string through its NUL is consumed |
| `P2PInstruction.Instruction.ReadFromMessage` | core/p2p_instruction.cpp:179-197 | the inverse |
| `P2PInstruction.ReadUndoesWrite` | core/p2p_message.h:113-125 | an instruction arrives as sent if and only if its body has at most 254 bytes; one of 255 arrives empty |
| `P2PInstruction.VStringComesBack` | core/p2p_instruction.cpp:60-141 | a string that fits comes back and the loading ends behind its NUL |

## Left out

- KMessageRuns.DeliveryIsOrderedAndFaithful: assumes that each datagram read is at most 2^15 serials behind the newest one seen and less than a turn of the counter ahead; `TooLateIsRedelivered` shows the limit behind is exact.
- KMessageRuns.HoleIsGivenUpAfterTheWait: the 32-bit tick is modelled modulo 2^32, so a hole left unpolled for 49 days may wait longer.
- P2PMessageRuns.HandedInOrder: a lost message is handed over as an empty instruction, as the code does; datagrams are assumed at most 241 serials late and 256 ahead.
- P2PMessageRuns.WhatIsTaken: a datagram longer than the receive buffer of 2024 bytes, which the socket reports as an error, counts as one that is never received.
- StreamRuns.SpectatorStartsWithTheNextRecord: pushes, state captures and the end of the session come from one thread, as common/n02_stream.cpp:871-880 demands; the server is the one its comments describe.
- StreamRuns.CounterIsExact: the counter is unbounded here, so streams of 2^31 bytes and more are not covered; nor are sequence numbers past 2^32.
- StreamRuns.FinishedLogIsComplete: the end is that of a sent last batch; a stream thread told to stop (common/n02_stream.cpp:463-471) leaves its loop before the next batch, or is destroyed after a second, and what is queued or pending then is lost.
- Watch.PrefetchBuffer.Pull: the blocking wait is one attempt at a time; a fetching thread that is destroyed instead of stopping is not modelled.
- Lockstep.PeersAgree: starts in the playing state with an agreed throughput and frame length over an in-order channel (`LinkedLockstep` puts the real link under it); pings, clock synchronisation and loading are left out; a time-out is the end of the polls.
- Replay.Recorder.RecordFrame: the 500-byte recording buffer is assumed to have room, since the code writes past its end unchecked; `Replay.EntryIsReadBack` holds without that.
- Replay.Recorder.RecordChat: the same assumption, for nick and text.
- Replay.Recorder.RecordDrop: the same assumption, for the nick.
- KrecReader.KrecFile.LoadStr: the terminator behind a full array is written into one byte more than the code's array has.
- GameData.GameQueue.Process: the unused result of `realloc` and the 256-entry limit of the piece queue are not modelled; with a payload shorter than conset the code's loop does not end, so it is excluded, as is an index past the cache, which the code reads unchecked.
- GameData.GameQueue.Cut: the same exclusion of payloads shorter than conset.
- LinkedGame.PiecesAreThePayloadsSent: game data whose length field exceeds its body, which the code fills up with whatever the allocated block holds, is passed over.
- PackageSwap.Disk.SwapPackage: undo renames are assumed to succeed; directories, path lengths at the MAX_PATH limit and names that Windows equates beyond case (blanks and dots at the end of a folder) are left out.
- MarkerSearch.HashLocalFile: SHA-256 itself is a foreign call; the model gives the bytes it is fed.
- KInstruction.Instruction.LoadBytes: integer loads from a body that is too short return indeterminate bytes in the code and are not given a value by the class.
- Packet-loss and retry statistics, dialogs, sockets, HTTP, DNS, tickets, voice and disc locks.
- Marker detection in the first records of a replay, the choice table for memory cards, the ordered list template and the one-slot retry-connect mailbox: they would only add easy members.
