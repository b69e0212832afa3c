# cpp-CAN protocol engines, verified

A Dafny model of the parts of cpp-CAN in which correctness spans more than one function: the
ISO-TP segmentation engine, the J1939-21 broadcast transport, end-to-end protection, the bounded
channel, the virtual bus, and the codecs between a CAN frame, a relay.Message and JSON text. Each
module names the source file it follows. Where the source is a loop or an object that changes its
fields, so is the model: a method or a class whose contract ties it to a function, a step machine
or a relation, about which the lemmas are then proved.

`dafny verify dfyconfig.toml` checks everything.

| module | follows | what it is about |
|---|---|---|
| BitMath, Crc16, CrcBits, CrcBurst, CrcMeaning, E2E | src/safety/e2e.cpp | the CRC as polynomial division, burst detection, the remainder by numbers, the sequence-counter receiver over an unreliable channel |
| IsoTp, IsoTpConn | src/isotp/transport.cpp | sender and receiver as step machines; the Conn methods as runs of them |
| IsoTpLink, IsoTpRuns | src/isotp/transport.cpp | both machines joined by two FIFO links, every interleaving; how runs end, and those whose First Frame is overtaken |
| IsoTpSend, IsoTpRecv | src/isotp/transport.cpp | send and recv against an arbitrary stream of events, by the octets heard |
| IsoTpStream | src/isotp/transport.cpp | recv against an arbitrary stream of frames; lost frames |
| J1939, Bam | src/j1939/pgn.cpp | identifiers, send_tp, the session table with its sweep |
| BamReassembly, BamHistory, BamTransfer | src/j1939/pgn.cpp | any arrival order of one transfer; every message the table ever offers; from send_tp to subscribe_tp |
| Channel, ChannelWaiting | include/can/channel.hpp | the FIFO history; sleeping, notifying and closing under every interleaving |
| VirtualBus, VirtualBusRuns, VirtualBusReach, VirtualBusMetrics | src/virtual/bus.cpp | the bus as interleaved regions; order and closing; what becomes of every accepted frame; conservation of the counters |
| VirtualBusRegions, VirtualBusObject | src/virtual/bus.cpp | the bus object, whose calls go on with a run of that model |
| Base64, Base64Meaning, Decimal, JsonText, JsonExtract, MessageJson, MessageJsonPieces, MessageJsonRoundTrip | cli/json.hpp | base64, decimal reading, the key search, the extractors, printing and parsing a relay.Message |
| Frames, FrameBridge, AdapterBridge | src/can.cpp | frame rules, frame to message and back, the bridge loop |
| Dbc | src/dbc/parser.cpp | bit extraction in both byte orders and the sign step |
| Composition | src/safety/e2e.cpp, src/isotp/transport.cpp | a protected payload over ISO-TP |
| Bytes, Division, Sequences | | octets, Option and Result, facts about division and sequences |

Conventions. An octet is an integer below 256 and every fixed-width wrap-around, truncation or cast
is written out. Exceptions and error codes are `Result` or `Option` values. A timeout, the end of the
receive channel and a failing bus are inputs: `Event` lists what a receive channel yields, silence
after the last event is a timeout, and `credit` is how many more frames a bus takes before it fails.
BAM time is a logical clock in nanoseconds. A mutex-held region and an atomic operation are one step.

## What the proofs found

- E2E: whatever the channel does short of undetectable damage, the receiver delivers a contiguous,
  in-order, repeat-free stretch of the protected payloads if and only if there are fewer than 2^32
  of them. At 2^32 the frame with counter 0 is taken as the successor of the frame with counter
  2^32 - 1 (`E2E.DeliversStretchesExactly`, `E2E.CounterWrapReplays`).
- E2E: the checksum sees every burst of 16 bits and not every one of 17: `CrcBurst.SeventeenBitsEscape`
  gives one, and `E2E.SeventeenBitsPass` a frame so struck that unwrap accepts.
- ISO-TP: when the number of consecutive frames is a positive multiple of the receiver's BlockSize,
  `recv` returns the payload but `send` waits for a flow control that never comes and times out
  (src/isotp/transport.cpp:111 against :179; `IsoTpLink.EveryRunDelivers`, and at 8 to 13 bytes with
  BlockSize 1 `IsoTpRuns.OneFrameBlockTimesOut`).
- ISO-TP: an unrelated frame is skipped anywhere but ahead of the First Frame: there `recv` ends with
  bad_message (src/isotp/transport.cpp:189). A transfer at rest has delivered its payload if and only
  if its First Frame got to the receiver first (`IsoTpRuns.DeliversExactly`).
- BAM: an announcement's packet count is not checked against its size. Every octet of an offered
  message was carried by a packet if and only if the announcement asked for at least the packets its
  size takes (`BamHistory.EveryOfferCoveredExactly`); `BamHistory.ShortTransferIsPadded` is, for every
  size from 9 to 255, a run that offers 7 received octets and zeros.
- J1939: `encode_id` keeps 17 bits of the group number and drops the low octet of a peer-to-peer one
  (`J1939.PgnSurvivesExactly`); BAM carries 24.
- Virtual bus: a delivery under DropOldest or Block to a channel its subscriber has closed is credited
  in deliver_count_ though nothing is taken in (`VirtualBusMetrics.ClosedSubscriberIsCredited` is such
  a run). With no send under way deliver_count_ is what the channels took in if and only if there was
  no such delivery (`VirtualBusMetrics.CountersTrueExactly`).
- JSON: printing and parsing loses a message exactly when its id or a meta string holds a double
  quote or its protocol number is negative (`MessageJsonRoundTrip.RoundTripExactly`).
- DBC: with the top bit set, the sign step of a signed signal of up to 63 bits stays within int64_t if
  and only if the length is not 63 (`Dbc.SignStepOverflowsExactly`); there the value is right only if
  the overflowing subtraction wraps around. At length 64 the source shifts by the width of the word
  and has no value (`Dbc.DecodeInteger`).

## Model

| member | source | states |
|---|---|---|
| Crc16.AbsorbByte | src/safety/e2e.cpp:17-21 | the eight shift-and-fold turns of one octet are eight steps of the division register |
| Crc16.Compute | src/safety/e2e.cpp:13-24 | the loop over any octets computes the function Crc, whose meaning the next three rows state |
| CrcMeaning.CrcIsRemainder | src/safety/e2e.cpp:13-24 | for every octet string c is its CRC if and only if c is the 16-bit remainder modulo x^16 + x^12 + x^5 + 1 of the octets times x^16 plus 0xFFFF times x^(8n), all by numbers |
| CrcMeaning.OctetStep | src/safety/e2e.cpp:17-21 | one octet more, in plain arithmetic: doubled bit by bit, flipped at bits 0, 5 and 12 if what falls out differs from the data bit |
| CrcMeaning.KnownVector | src/safety/e2e.cpp:11-24 | the octets of "123456789" give 0x29B1 |
| BitMath.XorBit | src/safety/e2e.cpp:17-20 | a bit of the exclusive-or is 1 exactly where the two operands differ |
| CrcBits.FoldIsSerial | src/safety/e2e.cpp:16-22 | the byte-wise loop equals the serial one-bit-at-a-time division register |
| Crc16.ShiftInjective | src/safety/e2e.cpp:19-20 | the zero-input bit step is injective |
| CrcBits.WindowAtOnce | src/safety/e2e.cpp:17-21 | feeding up to 16 bits serially is adding them to the register at once and shifting |
| CrcBurst.BurstChangesCrc | src/safety/e2e.cpp:13-24 | two different streams that agree outside 16 consecutive bits never have the same CRC, at any length and position |
| CrcBurst.SeventeenBitsCancel | src/safety/e2e.cpp:17-21 | a 17-bit change shaped like the generator leaves the register as it was |
| CrcBurst.SeventeenBitsEscape | src/safety/e2e.cpp:13-24 | the bound is sharp: two octet streams that differ in 17 consecutive bits and have the same CRC, anywhere in a message |
| E2E.BuildHeader | src/safety/e2e.cpp:27-68 | the two inline CRC loops give crc16 over bytes 0-7 followed by the payload, little-endian in bytes 8-9 |
| E2E.HeaderCrc | src/safety/e2e.cpp:42-52 | the inline loop over bytes 0-7 is the fold of the register over them |
| E2E.PayloadCrc | src/safety/e2e.cpp:53-62 | and the second loop goes on over the payload |
| E2E.Protector.Protect | src/safety/e2e.cpp:75-83 | the octets that go out, one by one: two identifiers and the counter, low octet first, the remainder just said of them and the payload, and the payload; the counter goes up by one, from 0xFFFFFFFF to 0 |
| E2E.Receiver.Unwrap | src/safety/e2e.cpp:89-127 | for any octets and state: shorter than 10 is header too short, else octets 8 and 9 other than the remainder over own identifiers, octets 4 to 7 and payload is CRC mismatch, else a counter other than the successor of the last one taken is a sequence gap; anything else is taken; refusals keep the state |
| E2E.ChecksumJudges | src/safety/e2e.cpp:95-109 | the comparison with the rebuilt header holds if and only if octets 8 and 9 are that remainder |
| E2E.FrameFields | src/safety/e2e.cpp:27-83 | counter, checksum and payload are read back from a protected frame |
| E2E.UnwrapOfFrame | src/safety/e2e.cpp:75-127 | unwrap(protect(p)) is p for a fresh or in-step receiver, including across the 2^32 wrap, and SequenceGap with unchanged state otherwise |
| E2E.DamageDetected | src/safety/e2e.cpp:95-109 | every nonzero burst of at most 16 consecutive covered bits, and every change of the CRC bytes alone, is reported as CRCMismatch and changes no state |
| E2E.SeventeenBitsPass | src/safety/e2e.cpp:95-126 | a frame whose payload is struck by a certain 17-bit burst is accepted, for every payload around it |
| E2E.DeliveredIsTaken | src/safety/e2e.cpp:89-127 | over any loss, duplication, reordering and detectable damage, what is delivered is the unaltered payloads of the frames taken, in that order |
| E2E.EstablishedTakes | src/safety/e2e.cpp:111-126 | after frame n-1 nothing is accepted until frame n itself, then n+1, and so on |
| E2E.CounterWrapReplays | src/safety/e2e.cpp:112-125 | a concrete channel on which 2^32 frames deliver out of order |
| E2E.DeliversRunsExactly | src/safety/e2e.cpp:75-127 | the counters taken are a contiguous, in-order, repeat-free run on every channel if and only if fewer than 2^32 frames were protected |
| E2E.DeliversStretch | src/safety/e2e.cpp:75-127 | what unwrap returns over any such channel is a contiguous, in-order, repeat-free stretch of the payloads, if there are fewer than 2^32 |
| E2E.DeliversStretchesExactly | src/safety/e2e.cpp:75-127 | and n payloads come out as such a stretch over every channel if and only if n is below 2^32 |
| IsoTpConn.Conn.Send | src/isotp/transport.cpp:55-122 | for every payload, stream of events and bus, by the octets heard: each of the two argument errors; one frame up to 7 octets; no_buffer_space after the First Frame alone if and only if the first flow control says 2; otherwise as many consecutive frames as the flow controls let out, none between a 1 and the next one, then success, bus error, or the error the silence, timeout or close calls for; every frame put out by its octets |
| IsoTpConn.Conn.SendSingleFrame | src/isotp/transport.cpp:65-70 | one frame with the length nibble, or the bus error |
| IsoTpConn.Conn.SendMultiFrame | src/isotp/transport.cpp:72-122 | the segmentation loop is the sender machine from its First Frame on |
| IsoTpConn.Conn.SendFirstFrame | src/isotp/transport.cpp:73-85 | the First Frame and its flow control, where alone overflow is an error |
| IsoTpConn.Conn.SendConsecutive | src/isotp/transport.cpp:93-117 | one turn of the loop: one re-wait after WAIT, the frame, a wait after every full block |
| IsoTpConn.Conn.Recv | src/isotp/transport.cpp:129-190 | for every stream of events and bus, by the octets heard: a single frame gives as many octets as its nibble says, padding left out; a first frame the octets gathered from the frames numbered modulo 16 behind it; anything else bad_message; the flow controls 0x30, BlockSize, STmin go out at the start and after every full block |
| IsoTpConn.Conn.Collect | src/isotp/transport.cpp:149-187 | the reassembly loop, its remaining length shrinking with every accepted frame |
| IsoTpConn.Conn.WaitFc | src/isotp/transport.cpp:197-212 | the next flow control of at least three bytes, skipping everything else, or the error that ends the wait |
| IsoTpConn.Conn.RecvCf | src/isotp/transport.cpp:216-230 | the next consecutive frame, likewise |
| IsoTp.SenderAwaits | src/isotp/transport.cpp:197-212 | a waiting sender is moved by nothing but a flow control |
| IsoTp.ReceiverAwaits | src/isotp/transport.cpp:216-230 | a collecting receiver is moved by nothing but a consecutive frame |
| IsoTpLink.StepKeeps | src/isotp/transport.cpp:72-187 | every step of either side, and unrelated traffic that does not overtake the First Frame, keeps the joint invariant: offsets, sequence numbers, both block counters, and the flow controls in flight |
| IsoTpLink.StepShrinks | src/isotp/transport.cpp:72-187 | and every step leaves less to do |
| IsoTpLink.GrantMeetsBlock | src/isotp/transport.cpp:109-116 | when a flow control meets a sender at a block boundary, both sides have counted the same block and the counters restart in step |
| IsoTpLink.EveryRunDelivers | src/isotp/transport.cpp:72-187 | for every payload of 8-4095 bytes, every BlockSize and every interleaving on lossless links in which the First Frame gets to the receiver ahead of unrelated frames: runs are bounded, recv returns nothing but the payload, a finished run has returned it, and send succeeds exactly when the last frame does not end a block, else times out |
| IsoTpRuns.EveryRunCanFinish | src/isotp/transport.cpp:72-187 | every such run can be carried on until both sides are at rest |
| IsoTpRuns.OneFrameBlockTimesOut | src/isotp/transport.cpp:109-120 | with BlockSize 1 a run of any 8 to 13 bytes exists that delivers them and times out in send |
| IsoTpRuns.OvertakenRunFails | src/isotp/transport.cpp:129-190 | if an unrelated frame gets to the receiver first, recv ends with bad_message and send gets no flow control and times out |
| IsoTpRuns.EveryOvertakenRunCanFinish | src/isotp/transport.cpp:72-190 | such a run, too, can be carried on until both sides are at rest |
| IsoTpRuns.OvertakenRunExists | src/isotp/transport.cpp:129-190 | and there is one for every unrelated frame that may come first |
| IsoTpRuns.DeliversExactly | src/isotp/transport.cpp:72-190 | a run at rest has delivered the payload if and only if its First Frame got to the receiver first |
| IsoTpRuns.StrayFirstFails | src/isotp/transport.cpp:129-190 | an idle recv that hears a frame that is neither single nor first ends with bad_message and consumes nothing more |
| IsoTpLink.SingleFrameCrosses | src/isotp/transport.cpp:65-147 | payloads of 1-7 bytes cross in one frame |
| IsoTpSend.SendsInOrder | src/isotp/transport.cpp:55-122 | for every stream of events and every bus, send puts out a beginning of the First Frame and the numbered consecutive frames of its payload, none skipped or repeated whatever WAIT, overflow and stray frames it hears, and all of them if it succeeds |
| IsoTpSend.SendExactly | src/isotp/transport.cpp:55-122 | the same of the sender machine: outcome, number of frames and the octets of each |
| IsoTpSend.WaitLetsNothingOut | src/isotp/transport.cpp:93-98 | what the plan says after a first answer of 1: nothing, until one more has come |
| IsoTpRecv.RecvDoesExactly | src/isotp/transport.cpp:129-190 | the same of the receiver machine: how it ends, with which message, and every frame it puts out |
| IsoTpStream.CompletionMeaning | src/isotp/transport.cpp:161-175 | what it means for m frames to complete a message: numbered modulo 16, none empty, the m-th the first to reach the length |
| IsoTpStream.RecvExactly | src/isotp/transport.cpp:149-187 | after a First Frame recv succeeds if and only if some m heard consecutive frames complete the message and the flow controls go out; the result is the first data and theirs, of length max(L, first data) |
| IsoTpStream.JunkChangesNothing | src/isotp/transport.cpp:216-230 | frames that are not consecutive frames may be inserted anywhere without changing the outcome |
| IsoTpStream.LossNeverDelivers | src/isotp/transport.cpp:161-175 | recv succeeds with a transfer's own frames if and only if none is missing, even when 16 in a row are lost and the numbers alias, and then returns the payload |
| J1939.DecodeLayout | src/j1939/pgn.cpp:15-29 | priority, data page, format, specific octet and source by their places in the identifier, whatever the bit between priority and data page |
| J1939.EncodeLayout | src/j1939/pgn.cpp:32-43 | encode_id puts them there, and or-ing in a destination fills the octet it left clear |
| J1939.DecodesEncoded | src/j1939/pgn.cpp:15-43 | decode_id after encode_id gives priority modulo 8, the carried part of the group and the source |
| J1939.PgnSurvivesExactly | src/j1939/pgn.cpp:15-43 | the group number comes back if and only if it has 17 bits and, peer-to-peer, a clear low octet |
| J1939.DecodesAddressed | src/j1939/pgn.cpp:58-59 | a destination octet leaves the other fields alone |
| J1939.ReceivedIs | src/j1939/pgn.cpp:80-91 | for any frame: nothing of a standard one or of a group not asked for, else the fields of the identifier, with the specific octet as destination below format 240 |
| J1939.SingleFrameCrosses | src/j1939/pgn.cpp:54-94 | what a subscriber gets of a message of at most 8 bytes, filter included |
| J1939.CheckPgns | src/j1939/pgn.cpp:65-69 | the filter loop finds the group or the filter is empty |
| Bam.Bus.Send | src/j1939/pgn.cpp:54-61 | messages of up to 8 octets go out in one frame, its identifier by numbers, or not at all with the bus error; longer ones as SendTp states |
| Bam.Bus.FillPacket | src/j1939/pgn.cpp:151-157 | packet q carries its number and octets 7(q-1) on, 0xFF past the end |
| Bam.Bus.SendTp | src/j1939/pgn.cpp:123-161 | under 9 and over 1785 octets the two size errors and nothing sent; otherwise 1 + ceil(n/7) frames, cut where the bus fails: identifier and octets of the announcement and of every packet, by numbers |
| Bam.Bus.SendAnnouncement | src/j1939/pgn.cpp:130-143 | the TP.CM frame with size, packet count and group number, or the bus error |
| Bam.Bus.SendPackets | src/j1939/pgn.cpp:146-160 | the TP.DT frames in order, cut where the bus fails |
| Bam.Subscriber.SweepExpired | src/j1939/pgn.cpp:184-191 | erasing while iterating leaves exactly the sessions silent for at most 750 ms, in whatever order they are visited |
| Bam.Subscriber.CopyOctets | src/j1939/pgn.cpp:234-238 | seven octets land at 7(q-1), those past the size are dropped |
| Bam.Subscriber.OnFrame | src/j1939/pgn.cpp:193-247 | new table and offered message are those of the turn function, and the table invariant is kept |
| Bam.TurnKeepsTable | src/j1939/pgn.cpp:193-247 | over any frames: received counts the seen bits and is below num_packets, sizes are as announced, octets of unseen segments are zero |
| Bam.CapNeverRejects | src/j1939/pgn.cpp:220-221 | the 256-session cap never turns an announcement away |
| BamReassembly.AnnouncementTurn | src/j1939/pgn.cpp:203-224 | whatever the table held, an announcement opens an empty session for its message |
| BamReassembly.TurnFollows | src/j1939/pgn.cpp:225-246 | one turn of the table is one step of a session's status, whatever else is in the table |
| BamReassembly.StatusIsWhatWasHeard | src/j1939/pgn.cpp:225-246 | the status of a session that is not swept depends only on the set of segments heard |
| BamReassembly.EveryArrivalOrderReassembles | src/j1939/pgn.cpp:123-247 | for 9-1785 bytes, any order, repetition and interleaving with other sources and with harmless frames of the same one: exactly one message from the source is offered, equal to the data with group modulo 2^24 and priority modulo 8, when the last distinct segment arrives, and none if one never does |
| BamReassembly.CompletesOnce | src/j1939/pgn.cpp:225-246 | no run completes a transfer twice |
| BamReassembly.CompletesIfAllHeard | src/j1939/pgn.cpp:225-246 | a run completes it if and only if it brings every segment |
| BamReassembly.SweptTransferIsSilent | src/j1939/pgn.cpp:184-201 | once swept, a transfer offers nothing however many late packets follow |
| BamTransfer.TransferArrives | src/j1939/pgn.cpp:123-250 | whatever the table holds, the frames of one send_tp call arriving in order and never more than 750 ms apart make subscribe_tp offer exactly one message from their source, with the last of them, and it is the one sent, filter permitting |
| BamTransfer.SessionLimits | src/j1939/pgn.cpp:105-121 | what opens a session and when one has expired, by numbers |
| BamHistory.TurnExplained | src/j1939/pgn.cpp:193-247 | every turn keeps the log of accepted packets an exact account of every session: a segment is marked seen if and only if its packet is in the log, and its octets are in place |
| BamHistory.EveryOfferExplained | src/j1939/pgn.cpp:193-247 | in every run, every offered message consists of the announced number of distinct packets, each at most 750 ms after the one before: every octet they have room for was carried by one of them, in its place, and those beyond are zero |
| BamHistory.EveryOfferCoveredExactly | src/j1939/pgn.cpp:203-246 | in every run, all of an offered message was carried by packets if and only if the announced count covers the announced size |
| BamHistory.ShortTransferIsPadded | src/j1939/pgn.cpp:203-246 | any size from 9 to 255 announced with one packet is offered as its seven octets and zeros |
| Channel.Chan.Send | include/can/channel.hpp:37-44 | appends, or reports closed and changes nothing |
| Channel.Chan.TrySend | include/can/channel.hpp:51-58 | Ok, Full or Closed, and the state each leaves |
| Channel.Chan.SendDropOldest | include/can/channel.hpp:62-69 | evicts the oldest item of a full open channel |
| Channel.Chan.Take | include/can/channel.hpp:72-105 | the oldest item or none |
| Channel.Chan.Close | include/can/channel.hpp:108-113 | sets the flag and keeps the items |
| Channel.Conservation | include/can/channel.hpp:37-105 | accepted = received + evicted + buffered, received items in order, the buffer the latest |
| Channel.ClosedDrains | include/can/channel.hpp:71-80 | a closed channel yields its remainder in order, then none |
| ChannelWaiting.StepKeeps | include/can/channel.hpp:37-113 | every mutex region, stray wake-up, timeout and close keeps: notified receivers cover the buffered items while one sleeps, notified senders the free slots, nobody sleeps once closed |
| ChannelWaiting.NoLostWakeup | include/can/channel.hpp:37-113 | in every run, once all woken threads have run, receivers sleep only on an empty open channel and senders only on a full open one |
| ChannelWaiting.EveryRunIsFifo | include/can/channel.hpp:37-113 | in every run the channel is a bounded FIFO of what it accepted |
| ChannelWaiting.ClosedForGood | include/can/channel.hpp:107-113 | after close nothing is accepted and nobody sleeps, in every continuation |
| VirtualBus.DeliverySound | src/virtual/bus.cpp:49-72 | what each policy makes of an item: taken in at the end, dropped exactly by DropNewest on a full open channel, passed over exactly by DropNewest on a closed one; only DropOldest lets an item go, the oldest of a full open channel |
| VirtualBus.StepOrderly | src/virtual/bus.cpp:29-101 | every region keeps: no send is past its closed_ check while or after close works, closed channels were closed by close in order or by their subscriber |
| VirtualBusRuns.ClosedByWhom | src/virtual/bus.cpp:94-101 | in every run a channel still subscribed has not been closed by the bus, and close leaves every channel closed |
| VirtualBusRuns.SenderOrderKept | src/virtual/bus.cpp:37-74 | in every run each channel holds only valid matching frames really sent, those of one sender in sending order and none twice, and its receiver gets them in that order |
| VirtualBusRuns.NothingAfterClose | src/virtual/bus.cpp:37-41 | after close, in every continuation, no channel accepts a frame, no counter but error_count_ moves, and every completing send is turned away, with ErrClosed exactly for valid frames |
| VirtualBusReach.EveryMatchSettled | src/virtual/bus.cpp:46-74 | in every run, for every successful send and every subscriber there was: one the frame does not match has not got it, one it matches has got it exactly when its channel has not refused it |
| VirtualBusReach.RefusedForAReason | src/virtual/bus.cpp:49-72 | in every run a refusal is by a channel as full as it can be, under DropNewest, or by one its own subscriber closed |
| VirtualBusReach.PatientSubscriberMissesNothing | src/virtual/bus.cpp:62-72 | in every run a subscriber under DropOldest or Block that has not closed its own channel has been given every frame it matches |
| VirtualBusMetrics.DeliveryOwes | src/virtual/bus.cpp:49-72 | a delivery adds to the channel's history or to the refusals what its send then owes the counters |
| VirtualBusMetrics.CountSettles | src/virtual/bus.cpp:33-72 | every other region settles such a debt or, at the return, adds to what the counters count |
| VirtualBusMetrics.AlwaysBalanced | src/virtual/bus.cpp:29-75 | at every moment of every run each counter differs from what it counts by what the sends under way owe it |
| VirtualBusMetrics.MetricsConserved | src/virtual/bus.cpp:29-75 | at rest: writes and errors are the successful and failed sends and bytes_written_ the data of the successful ones; delivers + drops are the subscribers they matched, less those that had closed their channels under DropNewest; drops are the refusals by full channels; delivers and bytes_delivered_ are the items in the channels' histories and their data, plus what was credited for channels closed by their subscribers |
| VirtualBusMetrics.CountersTrueExactly | src/virtual/bus.cpp:49-72 | at rest deliver_count_ is the number of items taken in if and only if nothing was credited for a channel closed by its subscriber, bytes_delivered_ their data if and only if what was so credited was empty, and delivers + drops the matching subscribers if and only if none was passed over |
| VirtualBusMetrics.ClosedSubscriberIsCredited | src/virtual/bus.cpp:62-72 | a run of one subscriber that closes its channel and one send ends with deliver_count_ 1 and nothing taken in |
| VirtualBusMetrics.ObjectCountersConserved | src/virtual/bus.cpp:127-136 | the sums of MetricsConserved hold of the bus object's own counters between any two of its calls |
| VirtualBusObject.BusObject.Send | src/virtual/bus.cpp:29-75 | the outcome the state asks for; on success each subscriber's channel has taken the frame in, at its end, if and only if it has no filters or one with the same identifier bit wherever its mask has a 1, and its channel is open and not full under DropNewest, only a full channel having let its oldest go, and every counter has moved by what was done; otherwise only error_count_ moves; and the run of the interleaving model has gone on from where it was |
| VirtualBusObject.BusObject.Offer | src/virtual/bus.cpp:46-73 | one turn of the delivery loop: queue and counters after each policy |
| VirtualBusObject.BusObject.OfferAll | src/virtual/bus.cpp:46-73 | the delivery loop serves every subscriber, as just said, and charges each |
| VirtualBusObject.BusObject.Subscribe | src/virtual/bus.cpp:80-92 | a fresh empty channel last in line, or nothing once closed |
| VirtualBusObject.BusObject.Close | src/virtual/bus.cpp:94-101 | shuts every channel, keeping its items, and drops the subscribers; a second close does nothing |
| Base64.Encode | cli/json.hpp:38-53 | the three-byte loop writes the text that EncodedMeans is about |
| Base64.Decode | cli/json.hpp:55-72 | the accumulator loop gives the octets that DecodedMeans is about |
| Base64Meaning.EncodedMeans | cli/json.hpp:38-53 | for every byte string the letters carry its bits, six each, the highest first, zeros filling the last; each letter is the one at its value's place in the alphabet; the rest up to a multiple of four characters is '=' |
| Base64Meaning.DecodedMeans | cli/json.hpp:55-72 | for every text the octets are the bits of its letters up to the first '=', foreign characters left out, as far as they make whole octets |
| Base64Meaning.ValueIs | cli/json.hpp:29-36 | a character has value v if and only if it stands at place v of the alphabet |
| Base64.WrapNeverShows | cli/json.hpp:58-68 | the never-masked, wrapping uint32_t accumulator decodes like unbounded arithmetic on the bits in hand, on every text |
| Base64.RoundTrip | cli/json.hpp:38-72 | decoding what was encoded gives the bytes back, for every byte string |
| Base64.EncodedShape | cli/json.hpp:42-51 | 4 * ceil(n / 3) characters, none a double quote |
| Decimal.PrintedIsDecimal | cli/json.hpp:227-234 | a number is printed as its decimal digits, each in its place, without a leading zero |
| Decimal.PrintedReads | cli/json.hpp:92 | strtoull reads a printed number back, up to whatever follows |
| Decimal.ReadingMeans | cli/json.hpp:92 | what strtoull and stoull make of white space, a sign, digits and whatever follows: 2^64 - 1 and stoull's refusal from 2^64 on, minus modulo 2^64, nothing without digits |
| JsonText.FindMeans | cli/json.hpp:75-76 | the search result is the first occurrence, or there is none |
| JsonText.BlanksSkipped | cli/json.hpp:90 | exactly the spaces and tabs are passed over |
| JsonText.WhiteSkipped | cli/json.hpp:118 | in arrays and objects line ends as well |
| JsonText.FirstKey | cli/json.hpp:86-89 | in a text cut at its quotes the key search lands on the first piece that reads like the key and has a colon after it |
| JsonText.NoKey | cli/json.hpp:86-88 | and finds nothing where no piece does |
| JsonExtract.ExtractU32 | cli/json.hpp:85-97 | the number after the key if it fits 32 bits |
| JsonExtract.ExtractU64 | cli/json.hpp:146-157 | the number after the key |
| JsonExtract.NumberLimits | cli/json.hpp:91-96 | a number above 0xFFFFFFFF reads as none in 32 bits, one of 2^64 or more as 2^64 - 1 in 64 |
| JsonExtract.ExtractString | cli/json.hpp:132-144 | the quoted text after the key |
| JsonExtract.ExtractBytes | cli/json.hpp:99-130 | quoted base64 or an array of numbers up to the first that is no byte |
| JsonExtract.BytesForms | cli/json.hpp:107-129 | the array of a byte string and its base64 in quotes read as that byte string |
| JsonExtract.ElementReads | cli/json.hpp:117-128 | an element with any white space around it, if below 256 |
| JsonExtract.ExtractStringMap | cli/json.hpp:161-194 | the entries of an object up to the first thing that is none, a later value of a key winning |
| JsonExtract.EntryReadsLoosely | cli/json.hpp:171-192 | an entry with any white space around its parts |
| MessageJson.SortedEntries | cli/json.hpp:237-238 | every meta entry once, in ascending order of the keys |
| MessageJson.OneListing | cli/json.hpp:237-238 | and there is only one such list of a map's entries |
| MessageJson.LessMeans | cli/json.hpp:238 | that order is by the first differing character, or by length |
| MessageJson.Print | cli/json.hpp:224-247 | the printed text of the message, for its meta entries in sorted order |
| MessageJson.TextIs | cli/json.hpp:226-245 | that text, character for character |
| MessageJson.EntriesAre | cli/json.hpp:239-242 | its entries, a comma before each but the first |
| MessageJson.Parse | cli/json.hpp:253-266 | the message parsed from any text, or which of the two required fields is missing |
| MessageJson.WithoutFields | cli/json.hpp:253-266 | a text parses if and only if protocol and id read; a field whose key does not occur keeps its default |
| MessageJsonPieces.TextIsPieces | cli/json.hpp:224-247 | the printed text is its pieces with a quote before each |
| MessageJsonPieces.EntriesRead | cli/json.hpp:171-192 | reading the printed entries assigns each pair |
| MessageJsonRoundTrip.NoNumberReads | cli/json.hpp:234-263 | with no sequence number printed, a meta key "seq" is found instead and reads as no number |
| MessageJsonRoundTrip.ParsedIsClean | cli/json.hpp:132-194 | no string of a parsed message holds a double quote, whatever the text |
| MessageJsonRoundTrip.RoundTripExactly | cli/json.hpp:224-266 | protocol, id, payload, sequence number and the whole meta map come back if and only if no id or meta string holds a double quote and the protocol number is not negative |
| Frames.Validate | src/can.cpp:38-74 | the first rule the frame breaks, in the order they are checked, each rule by numbers; none if and only if it breaks none |
| Frames.ValidBreaksNothing | src/can.cpp:22-74 | a frame is valid if and only if it breaks none of the fifteen rules |
| Frames.CheckFilters | src/virtual/bus.cpp:15-20 | the filter loop says yes if and only if there is no filter or one with the frame's identifier bit wherever its mask has a 1 |
| Frames.AndBit | include/can/can.hpp:81-83 | a bit of the bitwise and is 1 exactly where it is 1 in both operands |
| Frames.MatchesBits | include/can/can.hpp:81-83 | a filter matches if and only if the identifiers agree wherever the mask has a 1 |
| Frames.MasksAtTheEnds | include/can/can.hpp:81-83 | mask 0 matches every frame, mask 0x7FF exactly the equal one of 11-bit identifiers |
| FrameBridge.ToMessage | src/can.cpp:79-96 | protocol 1, id in decimal, data, and the meta entries by name: four flags always, the other six only when set |
| FrameBridge.FromMessage | src/can.cpp:102-152 | for any message: the first complaint that applies, exactly where it does, or the frame whose twelve fields are in the message under their names and which breaks no rule |
| FrameBridge.FrameComesBackExactly | src/can.cpp:79-152 | from_message(to_message(f)) is f on all twelve fields if and only if validate_frame accepts f; otherwise it is refused |
| FrameBridge.FromMessageIsStable | src/can.cpp:102-152 | a frame made from any message is valid and survives the bridge from then on |
| FrameBridge.FrameThroughJson | src/can.cpp:79-152 | frame to JSON text to frame is the identity on valid frames, under any sequence number |
| AdapterBridge.CanAdapter.Pass | src/can.cpp:195-208 | one frame takes the next number and its message goes out under the policy; under Block the bridge waits for room, and a close of the output ends the wait with nothing sent |
| AdapterBridge.CanAdapter.Drain | src/can.cpp:191-210 | whatever the bus, the output's receivers and a closer do between its steps and while it waits to receive or to send, the bridge loop numbers every frame the channel has held; what is passed on is in order, each the message of its frame; and unless somebody closes the output only DropNewest loses any |
| AdapterBridge.NumbersCountOn | src/can.cpp:195-208 | the numbers count on from the last one modulo 2^64 |
| Dbc.ExtractLittle | src/dbc/parser.cpp:27-34 | the little-endian loop, early break included, cuts the number |
| Dbc.ExtractBig | src/dbc/parser.cpp:35-44 | the big-endian loop takes the slice of the bit string |
| Dbc.ExtractRaw | src/dbc/parser.cpp:20-46 | both orders, and zero for a length outside 1 to 64 or a negative start; the next three rows say what it reads |
| Dbc.RawIsArithmetic | src/dbc/parser.cpp:20-46 | a signal of 1 to 64 bits from bit k of octet b on: little-endian floor(LE / 2^start) mod 2^length; big-endian floor(BE / 2^(8m - (8b + 7 - k) - length)) mod 2^length, BE the big-endian number of the payload with zeros behind it up to m octets |
| Dbc.RawBits | src/dbc/parser.cpp:27-45 | in both orders every bit of the value by the octet and the bit in it that it comes from, 0 beyond the payload; the top big-endian bit is bit k of octet b |
| Dbc.WholeOctet | src/dbc/parser.cpp:27-45 | 7|8 big-endian and 0|8 little-endian read the first octet |
| Dbc.SignStepOverflowsExactly | src/dbc/parser.cpp:53-54 | the subtraction of the sign step leaves int64_t exactly at length 63 |
| Dbc.DecodeInteger | src/dbc/parser.cpp:48-58 | the integer that is scaled: raw, or the two's complement of its length, marked as right only by wrap-around exactly at signed length 63 with the top bit set and as undefined exactly at length 64 with it |
| Dbc.MeansIsUnique | src/dbc/parser.cpp:51-56 | that value is the only one in range congruent to raw modulo 2^length |
| Composition.ProtectedPayloadArrives | src/isotp/transport.cpp:55-190 | for payloads up to 4085 bytes, a lossless run at rest has the payload unwrapped at the other end if and only if the First Frame got there ahead of unrelated frames; nothing else is ever delivered |
| Composition.LongerIsRefused | src/isotp/transport.cpp:55-63 | and longer payloads are refused, exactly |

## Left out

- AdapterBridge.CanAdapter.Drain: one bridge thread at a time; several sharing the counter only interleave Pass, which increments it atomically. Once others make no more moves the bus closes and receivers take what a full output holds; otherwise the bridge waits for ever in recv or send.
- IsoTpLink.EveryRunDelivers: unrelated frames are those of no type the other side waits for; none that opens a message of its own comes ahead of the First Frame.
- Bam.Bus.SendTp: the delay between packets is not modelled.
- IsoTpConn.Conn.SendMultiFrame: STmin sleeps and CAN identifiers are not modelled; the deadline of a wait is the TimedOut event.
- E2E.Protector.Protect: one call at a time, which the source leaves to its callers: the counter is a plain field without a lock.
- E2E.Receiver.Unwrap: its mutex is one region; calls from several threads are some order of such calls.
- ChannelWaiting.StepKeeps: that a woken thread eventually gets the mutex; capacity 0, which the bus never asks for.
- VirtualBusRuns.ClosedByWhom: liveness of close against a sender that blocks with the shared lock in hand.
- VirtualBusObject.BusObject.Send: other threads' calls do not overlap it, but for a receiver that makes room under Block; overlapping calls are the business of VirtualBus and VirtualBusRuns.
- Decimal.PrintedReads: strtoull and stoull are modelled after the C standard, not after a library's code; texts end where the string does.
- MessageJson.Parse: the version and the timestamp are not parsed, as in the source.
- VirtualBusMetrics.MetricsConserved: the 64-bit counters do not wrap around here.
- Loaned frames, health reports, close_with_drain and option factories of the bus.
- extract_bool and parse_frame_json, which read a frame and are printed by nothing.
- Floating-point scaling and labels of DBC signals, and the parsing of DBC text.
- src/socketcan, interop, the command line, error texts and version strings.
- The C++ memory model below the level of a mutex region or an atomic operation.
