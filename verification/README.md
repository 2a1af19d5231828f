# Verification of libnemesi's stateful kernels

libnemesi is an RTSP/RTP client. This project models the parts of it that carry state across
calls, proves each imperative model against a specification, and proves what the specification
promises over every input or every run:

- **Receive path** (`Chains`, `PlayoutOrder`, `PlayoutRuns`, `Bufferpool`, `Ledger`, `RtpSessions`,
  `SeqTracker`, `ReceiveRuns`, `RtpRecv`, `ReceiverReports`, `ReportBlocks`). The slot pool with its
  free list threaded through an int vector, the playout lists linked by array index, the sequence
  tracker of Appendix A.1 of RFC 3550, `rtp_recv` on top of them, and the loss accounting of
  Appendix A.3. `Ledger` is the ownership of slots as a value: the methods of
  `RtpSessions.RtpSession` that move a slot refine its steps, and `GetPkt` and `Drain` repeat
  `RmPkt`. `PlayoutRuns` is the order of one list over whole runs, `ReceiveRuns` the tracker and the
  list together, `ReportBlocks` what each field of a report block says about the run before it.
- **RTSP client** (`RtspMachine`, `RtspRuns`, `RtspRequests`, `RtspProgress`, `RtspThread`). The
  client as a step system (user commands, server replies, loss of the connection), refined by the
  imperative class `RtspThread`. `RtspRuns` proves an invariant that ties the state to the log of
  accepted replies; `RtspRequests` numbers the requests sent and ties the replies accepted to them;
  `RtspProgress` proves that waiting ends, whatever the server answers. `Interleaved` is the receive
  buffer with the deframing of section 10.12 of RFC 2326.
- **Depacketizers and codecs** (`H264`, `H264Streams`, `Aac`, `AacFrames`, `Codecs`,
  `TransportHeader`, `TransportReplies`). Round trips against small specification encoders, for single payloads and for
  whole queues.
- **MD5** (`Md5`), against the operations and the padding of RFC 1321.
- **Source table** (`SsrcTable`) and **compound RTCP** (`RtcpPackets`).

`Words` holds the fixed-width integers, `Sequences` facts used in several places. Numbers of
the C code that wrap are wrapped explicitly; a region guarded by a mutex is one atomic method.

## Where the code departs from its intent

The models follow the code. Where that breaks the property the code is for, the property is
stated with the exact condition under which it holds.

- `poadd` subtracts 0x1000 per wrap (`SEQ_MAX_NUMBER`) although cycle counts advance by 2^16. The
  value is a parameter of the model: `PlayoutOrder.VerdictRightIff` gives the exact condition for
  every value and every list, `AsWrittenWrongAcrossWrap` a failing input and
  `ReceiveRuns.AsWrittenDeliversOutOfOrder` the tracked run that leads to it.
- With the intended step of 2^16 the walk still goes wrong across gaps wider than 0x1000
  (`FullStepWrongOnWideGap`). Runs inside the tracker's window and in the cycle of the highest number
  never have them (`ReceiveRuns.TimelySeenRightly`); a restart of the tracker makes them (`RestartMisorders`).
- A packet from before a wrap is handed the new cycle count: `SeqTracker.CycleHandedIsTrueIff`,
  `LatePacketHandedNextCycle`.
- In probation 65535 followed by 0 does not count as in sequence: `SeqTracker.ProbationLastsIff`,
  `WrapKeepsProbation`.
- The report counter is a 5-bit field: `ReceiverReports.WriteHeader`. The fraction compares an
  unsigned number with zero: `ReceiverReports.FractionOnSurplusIff`, `FractionWrongOnDuplicate`.
  Its shift overflows from 2^24 lost packets on: `FractionRightIff`, `FractionWrongOnHugeLoss`.
- A command given while another is under way clears `busy` although a reply is outstanding:
  `RtspProgress.BusyCommandIff`, `LostWakeUp`.
- CSeq is counted per session and not per connection, as section 12.17 of RFC 2326 would have it:
  `RtspRequests.EachSessionStartsAtTwo`.
- Channel numbers are bytes and repeat after 128 media: `Interleaved.SinkIs`, `FirstOf129Lost`.
- A frame header that reads as an empty line is taken for text if a read ends inside it:
  `Interleaved.MisreadIff`, `MisreadHeader`.
- A final empty unit of an aggregate is lost: `H264.AggregateRoundTrip`. Pending parameter sets,
  or the rest of a unit whose last fragment was lost, make a fragmented unit lose at least its
  start: `H264.FragmentsRightIff`, `FragmentsOutcome`.
- The conflict list of `rtp_ssrc_check` receives the session's own address instead of the
  sender's, so a foreign sender is never recognised: `SsrcTable.LoopNeverRecognised`.
- The padding test of a single RTCP packet reads the length in host order:
  `RtcpPackets.PaddingTestWrongIff`, `ExcessPaddingPasses`. A single packet is accepted even when
  part of it is missing: `SingleTiledIff`, `TruncatedPacketPasses`.
- The padding loop of `av_md5_final` stops at any length of 56 or more modulo 64:
  `Md5.FedRightIff`, `OneBlockShort`. For these messages one block too few is compressed.

## Model

| member | source | states |
|---|---|---|
| Chains.PopFree | src/bufferpool/bpget.c:49-55 | Popping the head of a free chain leaves the chain of the remaining slots, in order |
| Chains.PushFree | src/bufferpool/bpfree.c:39-44 | Pushing an unlinked slot makes it the head of the chain and keeps the rest |
| Chains.SpliceLinks | src/bufferpool/poadd.c:68-91 | If only the links around position p change as poadd changes them, the array encodes the old list with the slot inserted at p, `prev` mirroring `next` |
| Chains.BridgeLinks | src/bufferpool/bprmv.c:44-60 | If the neighbours of position p are linked to each other, the array encodes the old list without that slot |
| PlayoutOrder.WrapSeen | src/bufferpool/poadd.c:57-61 | Inside a cycle, and between neighbours at most 0x1000 apart across a wrap, the SEQ_MAX_JUMP test fires exactly at a wrap |
| PlayoutOrder.JumpSeen | src/bufferpool/poadd.c:57-62 | For every list the walk takes its cycle count from one member to the next, error included |
| PlayoutOrder.CyclesBounded | src/bufferpool/poadd.c:53-63 | The cycle count held at each position is that of the member plus the accumulated error, which is never negative, and never underflows 32 bits |
| PlayoutOrder.WalkStops | src/bufferpool/poadd.c:53-67 | The walk stops at the first member it sees at or below the new number, and reports a duplicate exactly if it sees that number there |
| PlayoutOrder.VerdictRightIff | src/bufferpool/poadd.c:53-67 | For every list and every wrap step up to 2^16: position and duplicate verdict are right for the true extended numbers if and only if the first member not above the new number is seen at its true value, or too high but still below |
| PlayoutOrder.FullStepRightWhenClose | src/bufferpool/poadd.c:53-67 | With a wrap step of 2^16 the walk is right for every arrival in a list whose neighbours across a wrap are at most 0x1000 apart |
| PlayoutOrder.FullStepWrongOnWideGap | src/bufferpool/poadd.c:53-67 | On a wider gap that step fails too: 0x10003 is put behind 0x10005 and 0xE000 |
| PlayoutOrder.AsWrittenRightInOneCycle | src/bufferpool/poadd.c:28-67 | With the constant as written, every list inside one cycle is handled rightly |
| PlayoutOrder.AsWrittenWrongAcrossWrap | src/bufferpool/poadd.c:28-67 | With the constant as written, 65536 is put behind 65537 and 65535 although it belongs between them |
| PlayoutOrder.FitIsRight | src/bufferpool/poadd.c:53-67 | On a fit list (close across wraps with a step of 2^16, or inside one cycle with any smaller one) the walk is right for every arrival |
| PlayoutOrder.InsertKeepsDecreasing | src/bufferpool/poadd.c:68-99 | Insertion at the found position keeps the list strictly decreasing; the new packet becomes the head exactly when it is a new maximum |
| PlayoutOrder.InsertKeepsKeyed | src/bufferpool/poadd.c:68-91 | Insertion keeps sequence numbers, true numbers and the recorded cycle count in agreement |
| PlayoutRuns.StepRefines | src/bufferpool/poadd.c:45-107 | On an ordered list, an arrival whose place is seen rightly adds its number to the set of numbers held (nothing changes exactly for a duplicate), a delivery takes the least away; the list stays ordered |
| PlayoutRuns.NewPacketRightIff | src/bufferpool/poadd.c:45-107 | A packet not yet held is taken in, with the list staying ordered, if and only if its place is seen rightly |
| PlayoutRuns.RunRefines | src/bufferpool/poadd.c:45-107 | Over every run, with any step up to 2^16, in which every arrival is seen rightly, the list is ordered by true number and holds exactly what a plain set machine holds |
| PlayoutRuns.RunDeliversInOrder | src/rtp/rtp_buffer.c:211-243 | If besides no packet is later than what was already delivered, such a run delivers strictly increasing true numbers |
| PlayoutRuns.FromEmpty | src/bufferpool/poinit.c:35-66 | Both hold for such runs from an empty list |
| Bufferpool.BufferPool.constructor | src/bufferpool/bpinit.c:41-70 | A fresh pool: 150 slots, all free, in order |
| Bufferpool.ThreadFresh | src/bufferpool/bpinit.c:54-55 | The loop threads every new slot onto the chain that ends in -1 |
| Bufferpool.BufferPool.Enlarge | src/bufferpool/bpinit.c:72-92 | A full free list grows by 150 slots until 7500; packets in the old slots are unchanged |
| Bufferpool.BufferPool.Get | src/bufferpool/bpget.c:38-58 | Takes the head of the free list, growing the pool if it is empty; sleeps exactly when the pool is empty and at its maximum; changes no linked slot |
| Bufferpool.BufferPool.Free | src/bufferpool/bpfree.c:37-47 | Puts a slot that is not free at the head of the free list and clears it; counters follow |
| Bufferpool.BufferPool.Push | src/bufferpool/bpfree.c:39-41 | The link and counter updates of the free list in isolation |
| Bufferpool.PlayoutBuffer.constructor | src/bufferpool/poinit.c:35-66 | An empty playout list bound to the pool |
| Bufferpool.PlayoutBuffer.Walk | src/bufferpool/poadd.c:53-67 | The loop over array indices computes the position and duplicate verdict of the specified walk, whatever lies before the pool |
| Bufferpool.PlayoutBuffer.LinkHead | src/bufferpool/poadd.c:68-77 | Head insertion: the array encodes the list with the slot in front, all packet lengths unchanged |
| Bufferpool.PlayoutBuffer.LinkTail | src/bufferpool/poadd.c:79-84 | Tail insertion: the slot is last |
| Bufferpool.PlayoutBuffer.LinkBefore | src/bufferpool/poadd.c:85-90 | Insertion in between: the slot is at the position walked to |
| Bufferpool.PlayoutBuffer.Insert | src/bufferpool/poadd.c:45-107 | poadd as a whole: Duplicated changes nothing, otherwise the slot is inserted at the position of the walk; 0 is returned exactly for the head |
| Bufferpool.PlayoutBuffer.Add | src/bufferpool/poadd.c:45-107 | Besides, handed under number n the packet is one arrival of n in the list as poadd knows it, whatever the list; if the list is ordered and its place seen rightly, the list stays ordered, the packet is at its rank, and duplicates are exactly the numbers present |
| Bufferpool.AddedInOrder | src/bufferpool/poadd.c:53-107 | For a place seen rightly: the position is the rank, the verdict is exact, the list stays ordered and the head is a new maximum |
| Bufferpool.AddIsStep | src/bufferpool/poadd.c:68-93 | The insertion made in the slots is the arrival step of the runs |
| Bufferpool.PlayoutBuffer.Unlink | src/bufferpool/bprmv.c:39-64 | Removes the slot at its position from both directions of the list and lowers the count |
| Ledger.StepConserves | src/rtp/rtp_buffer.c:285-310 | Every operation (get, free, add, remove, clear all, new source) keeps each slot below size in exactly one place and the counter equal to the slots not free |
| Ledger.RunConserves | src/rtp/rtp_recv.c:186-326 | The same after every run of enabled operations, for any number of sources |
| Ledger.ExactlyOnePlace | src/bufferpool/bpget.c:42-55 | A slot is below size exactly if it is free, held or linked, and only one of these, in one list only |
| Ledger.ListsHaveNoDuplicates | src/bufferpool/bprmv.c:44-67 | Free list and playout lists are acyclic: no slot occurs twice |
| Ledger.CountersAgree | src/bufferpool/bpget.c:49-53 | `flcount` is the sum of all list lengths plus the slots held by receivers |
| Ledger.ClearedEnds | src/rtp/rtp_buffer.c:285-310 | Removing tail after tail until the list is empty is the one-step clearing of the ledger |
| RtpSessions.RtpSession.Get | src/bufferpool/bpget.c:38-58 | bpget on a session refines the ledger step and keeps every list, every stored packet and every order |
| RtpSessions.RtpSession.Free | src/bufferpool/bpfree.c:37-47 | bpfree of a held slot refines the ledger step; only that slot is cleared, every source's queue and order stay |
| RtpSessions.RtpSession.NewSource | src/bufferpool/poinit.c:35-66 | Adds an empty, ordered list for a new source |
| RtpSessions.RtpSession.Add | src/bufferpool/poadd.c:45-107 | poadd into one of several lists on the pool refines the ledger step, keeps the other sources' queues and orders, and is one arrival in its own list, which stays ordered if the place is seen rightly |
| RtpSessions.RtpSession.Rmv | src/bufferpool/bprmv.c:39-70 | bprmv unlinks a slot and frees it in one ledger step; other sources' queues and orders stay |
| RtpSessions.RtpSession.KeepsOthers | src/bufferpool/bprmv.c:39-70 | An operation that changes one list and writes one slot in no other list leaves every other source its packets, numbers and order |
| RtpSessions.RtpSession.RmPkt | src/rtp/rtp_buffer.c:239-243 | Drops the packet the consumer would get next, one delivery of the list; the rest of the queue with its lengths, its order and all other sources stay |
| RtpSessions.RtpSession.GetPkt | src/rtp/rtp_buffer.c:211-232 | Drops exactly the leading packets of unknown payload type and returns the first other one in place with the length recorded for it; other sources' queues and orders, held slots and size untouched; terminates |
| RtpSessions.RtpSession.Drain | src/rtp/rtp_buffer.c:211-243 | Alternating rtp_get_pkt and rtp_rm_pkt terminates and yields exactly the packets of known type, in order; other sources' queues and orders, held slots and size untouched |
| RtpSessions.DeliveredInOrder | src/rtp/rtp_buffer.c:211-243 | What an ordered list delivers has strictly increasing true numbers |
| RtpSessions.RtpSession.DropTail | src/rtp/rtp_buffer.c:287-306 | One round of rtp_rm_all_pkts is one removal at the tail |
| RtpSessions.RtpSession.RmAll | src/rtp/rtp_buffer.c:276-311 | Empties one list onto the free list in one ledger step; terminates; other sources' queues and orders stay |
| SeqTracker.SsrcStats.InitSeq | src/rtp/rtp_recv.c:90-108 | Start of tracking at a number, all counters reset |
| SeqTracker.SsrcStats.UpdateSeq | src/rtp/rtp_recv.c:119-159 | One packet: refines the specified update in all branches (probation, in order, jump, restart, misorder) |
| SeqTracker.SsrcStats.StartProbation | src/rtp/rtp_recv.c:281-282 | A new source starts on probation one number back |
| SeqTracker.SsrcStats.ResetForSeek | src/rtp/rtp_recv.c:237-251 | A seek restarts tracking without probation |
| SeqTracker.TrackStep | src/rtp/rtp_recv.c:119-159 | A packet less than 3000 ahead or less than 100 behind keeps the statistics equal to those of the true numbers |
| SeqTracker.UnwrapsWholeRun | src/rtp/rtp_recv.c:119-159 | Over every such run cycles + max_seq is the highest true number, modulo 2^32, and received the number of arrivals |
| SeqTracker.ProbationEndStarts | src/rtp/rtp_recv.c:123-135 | Leaving probation starts such a run |
| SeqTracker.SeekStarts | src/rtp/rtp_recv.c:237-253 | So does a seek |
| SeqTracker.CycleHandedIsTrueIff | src/rtp/rtp_recv.c:119-159 | The cycle count poadd then gets is the packet's own exactly if the packet is not from before the latest wrap |
| SeqTracker.LatePacketHandedNextCycle | src/rtp/rtp_recv.c:138-158 | 65535 after 65536 is handed on as 131071 |
| SeqTracker.WrapKeepsProbation | src/rtp/rtp_recv.c:124-137 | 65535 followed by 0 leaves a new source on probation |
| SeqTracker.ProbationLastsIff | src/rtp/rtp_recv.c:123-135 | A source leaves probation exactly if two successive packets differ by one as integers; until then no packet counts, and the first that follows its predecessor starts tracking |
| SeqTracker.BadSeqRemembers | src/rtp/rtp_recv.c:144-156 | Over every run bad_seq stands for the last jump since tracking started |
| SeqTracker.JumpRestartsIff | src/rtp/rtp_recv.c:144-156 | A packet outside the window restarts tracking if and only if it follows the last such packet; otherwise only bad_seq changes |
| SeqTracker.JumpIff | src/rtp/rtp_recv.c:121-146 | The numbers taken for a jump are exactly those that no packet less than 3000 ahead or less than 100 behind bears |
| SeqTracker.OutsideWindow | src/rtp/rtp_recv.c:144-156 | A packet 3000 to 65436 numbers ahead starts tracking over if bad_seq is its number, and otherwise changes bad_seq alone |
| SeqTracker.RestartedSenderTracked | src/rtp/rtp_recv.c:144-156 | A sender that starts over anywhere in that range is tracked from its second packet in sequence on, with nothing left of the old figures |
| RtpRecv.Track | src/rtp/rtp_recv.c:234-309 | The statistics after the switch over the source check |
| RtpRecv.Queue | src/rtp/rtp_recv.c:311-326 | poadd, and bpfree of a duplicate: the slot ends in the list with its length recorded, or on the free list; one arrival of the number handed; where its place is seen rightly the list stays ordered and exactly duplicates are dropped; other sources stay |
| RtpRecv.Obtain | src/rtp/rtp_recv.c:186-223 | A slot is taken and filled; no list, no queue and no order of any source changes |
| RtpRecv.StartTrueNumber | src/rtp/rtp_recv.c:237-251 | The first packet of a new source and the first after a seek are handed their own number too |
| RtpRecv.FollowsTrueNumber | src/rtp/rtp_recv.c:119-159 | For a packet that follows the tracked numbers, the updated cycles give its true number |
| RtpRecv.NewSourceOnProbation | src/rtp/rtp_recv.c:277-297 | A new source stays on probation, with nothing counted, exactly as long as no packet follows its predecessor by one; the first that does starts tracking |
| RtpRecv.SeekTracksAtOnce | src/rtp/rtp_recv.c:236-253 | After a seek the first packet is tracked at once, whatever came before |
| RtpRecv.Accept | src/rtp/rtp_recv.c:234-326 | Statistics and playout list together, for every kind of arrival: one arrival of the number handed to poadd; where its place is seen rightly the list stays ordered and exactly duplicates are dropped; other sources stay |
| RtpRecv.Receive | src/rtp/rtp_recv.c:170-329 | One datagram of any kind: no slot is lost or kept; the list takes one arrival of the number handed, or no source changes; where its place is seen rightly the list stays ordered; other sources stay |
| RtpRecv.ReceiveKnown | src/rtp/rtp_recv.c:236-326 | For a known source the statistics and the list together take one step of the joint runs |
| ReceiveRuns.HandedTrueNumber | src/rtp/rtp_recv.c:311 | A packet in the window and in the cycle of the highest number is handed to poadd under its true number |
| ReceiveRuns.ListSeesTrueNumbers | src/rtp/rtp_recv.c:253-311 | Over every run of such packets and removals the list fed by the tracker is the list told the true numbers |
| ReceiveRuns.TimelySeenRightly | src/bufferpool/poadd.c:53-67 | From an ordered list that is close across wraps and whose newest packet is within 99 of the highest number, with a step of 2^16, every packet of such a run is seen rightly: the lists stay close across wraps by themselves |
| ReceiveRuns.TimelyRunsInOrder | src/rtp/rtp_recv.c:253-311 | With that step such runs, from a list that is ordered, close across wraps and headed within 99 of the highest number, hold exactly the true numbers that came and were not taken, in order, and without late packets deliver them increasing |
| ReceiveRuns.RestartMisorders | src/rtp/rtp_recv.c:146-156 | After a restart of the tracker the list mixes cycles: 30001 is put behind 30000 and delivered first, even with a step of 2^16 |
| ReceiveRuns.AsWrittenDeliversOutOfOrder | src/bufferpool/poadd.c:28-67 | With the constant as written, after 65535 the packets 65537 and 65536, both handed their true numbers, lead to 65536 being delivered before 65535 |
| ReceiverReports.BuildBlock | src/rtcp/rtcp_report.c:59-90 | One report block and the new priors, as specified by Appendix A.3 with the unsigned comparison |
| ReceiverReports.BuildBlocks | src/rtcp/rtcp_report.c:50-112 | One block for each source with news, in order; each source's priors are updated |
| ReceiverReports.WriteHeader | src/rtcp/rtcp_report.c:56-120 | Counter and returned length are right if and only if fewer than 32 blocks are written; with 32 they are 0 and 2 |
| ReceiverReports.LossTelescopes | src/rtcp/rtcp_report.c:59-71 | For any interleaving of packets and reports between restarts the lost intervals sum to the change of expected minus received, modulo 2^32 |
| ReceiverReports.SumIsCumulativeLoss | src/rtcp/rtcp_report.c:59-83 | From a start of tracking to a report they sum to its unclamped cumulative loss |
| ReceiverReports.PlayTracks | src/rtcp/rtcp_report.c:50-112 | Over every interleaving of packets in the window with reports the statistics track the true numbers and nothing restarts |
| ReceiverReports.SumCountsMissing | src/rtcp/rtcp_report.c:59-83 | Over every such run from the start of tracking to a report with news, without duplicates or arrivals from before the start, the lost intervals reported sum to the number of sequence numbers that never came |
| ReceiverReports.LossCountsMissing | src/rtcp/rtcp_report.c:59-83 | For tracked statistics and that many distinct numbers in range, the cumulative loss is the number of the missing ones, despite base_seq = seq - 1 |
| ReceiverReports.FractionRightIff | src/rtcp/rtcp_report.c:73-78 | In an interval in which packets arrived, no more than expected, the fraction is that of section 6.4.1 of RFC 3550 if and only if fewer than 2^24 packets were lost |
| ReceiverReports.NewsArrived | src/rtcp/rtcp_report.c:54-55 | A block is written exactly if packets arrived in the interval |
| ReceiverReports.BlocksForPackets | src/rtcp/rtcp_report.c:50-55 | A report holds one block for each source that sent packets since the last one, in order, and no other |
| ReceiverReports.FractionWrongOnHugeLoss | src/rtcp/rtcp_report.c:76-78 | Half of 2^25 packets lost is reported as none |
| ReceiverReports.FractionOnSurplusIff | src/rtcp/rtcp_report.c:73-78 | With a surplus of d it is right if and only if the remainder of -d modulo 2^24 by the expected number is below 1/256 of that number |
| ReceiverReports.FractionWrongOnDuplicate | src/rtcp/rtcp_report.c:73-78 | One duplicate among ten expected packets is reported as half of them lost |
| ReceiverReports.LostSurvivesTheWire | src/rtcp/rtcp_report.c:80-86 | A clamped loss is read back by a peer from the three bytes, sign included |
| ReportBlocks.PriorsKept | src/rtcp/rtcp_report.c:59-71 | Over every interleaving of packets and reports the priors are the figures of the last report that wrote a block |
| ReportBlocks.BlockOfRun | src/rtcp/rtcp_report.c:59-90 | Every field of the block after such a run from the start of tracking: the highest number; expected less received, between the limits of 24 signed bits; the fraction of section 6.4.1 of RFC 3550 of the true interval, exactly under the conditions on loss and surplus |
| ReportBlocks.BlockCountsMissing | src/rtcp/rtcp_report.c:80-86 | Without packets from before the start, the loss written is the number of sequence numbers that never came less the packets that repeated one, between those limits |
| RtspThread.RtspThread.NxtSess | src/rtsp/rtsp_sessions.c:27-74 | Moves the cursor to the next session, or to NULL after the last |
| RtspThread.RtspThread.NxtMed | src/rtsp/rtsp_sessions.c:27-74 | Moves the cursor to the next medium, then to the next session |
| RtspThread.RtspThread.SendSetup | src/rtsp/rtsp_send.c:245-451 | Uses up a sequence number and a channel pair and awaits the reply if the write succeeds |
| RtspThread.RtspThread.SendSessionRequest | src/rtsp/rtsp_send.c:85-201 | PLAY, PAUSE and TEARDOWN carry the session's next number and its identifier, and await the reply to them |
| RtspThread.RtspThread.ReinitAll | src/rtsp/rtsp_state_machine.c:113-190 | Back to INIT with an empty queue, nothing awaited and not busy |
| RtspThread.RtspThread.CheckResponse | src/rtsp/rtsp_internals.c:44-96 | Yields the awaited opcode exactly for a reply accepted by the specified check, which `AcceptedIff` ties to the request sent |
| RtspThread.RtspThread.AllocateChannels | src/rtsp/rtsp_send.c:245-451 | The next two channel numbers, as bytes, at the front of the list |
| RtspThread.RtspThread.InitState | src/rtsp/rtsp_state_machine.c:299-359 | DESCRIBE and SETUP replies refine the specified handler |
| RtspThread.RtspThread.ReadyState | src/rtsp/rtsp_state_machine.c:367-419 | PLAY and TEARDOWN replies in READY refine the specified handler |
| RtspThread.RtspThread.PlayingState | src/rtsp/rtsp_state_machine.c:427-480 | PAUSE and TEARDOWN replies in PLAYING refine the specified handler |
| RtspThread.RtspThread.HandlePkt | src/rtsp/rtsp_handlers.c:250-264 | A message from the server, with the reset of the main loop if it is not handled, refines one step |
| RtspThread.RtspThread.RtspOpen | src/rtsp/rtsp.c:507-549 | rtsp_open refines one step; it succeeds exactly if the client is then busy |
| RtspThread.RtspThread.RtspPlay | src/rtsp/rtsp.c:595-634 | rtsp_play refines one step |
| RtspThread.RtspThread.RtspPause | src/rtsp/rtsp.c:556-586 | rtsp_pause refines one step |
| RtspThread.RtspThread.RtspClose | src/rtsp/rtsp.c:203-228 | rtsp_close refines one step |
| RtspThread.RtspThread.ServerGone | src/rtsp/rtsp_state_machine.c:239-244 | The end of the connection resets the client |
| RtspRuns.StartGood | src/rtsp/rtsp.c:53-196 | The initial client satisfies the invariant with an empty log |
| RtspRuns.StepGood | src/rtsp/rtsp_state_machine.c:299-480 | Every step keeps: the log of accepted replies is that of the phase, the cursor is at the medium or session asked for, busy exactly while one reply is awaited |
| RtspRuns.RunGood | src/rtsp/rtsp_state_machine.c:199-291 | The same after every run, whose only premise is that commands are given only while not busy |
| RtspRuns.StatusChanges | src/rtsp/rtsp_state_machine.c:341-480 | READY only after exactly one accepted SETUP per medium in order, or one PAUSE per session; PLAYING only after one PLAY per session; RECORDING never |
| RtspRuns.EachMediumOnce | src/rtsp/rtsp_sessions.c:27-74 | The SETUPs so accepted name every medium once, in session-then-medium order |
| RtspRuns.UnmatchedResets | src/rtsp/rtsp_internals.c:69-95 | A reply that is not the awaited one leads to INIT with an empty queue, nothing awaited, not busy |
| RtspRuns.StepsDefined | src/rtsp/rtsp_state_machine.c:489-499 | No step of such a run reaches RECORDING or refers to a missing session |
| RtspRequests.AcceptedIff | src/rtsp/rtsp_internals.c:44-96 | A reply is accepted if and only if it carries the CSeq of the latest request sent and, on PLAY, PAUSE and TEARDOWN, no Session header or the Session of that request |
| RtspRequests.RunKept | src/rtsp/rtsp_send.c:422-440 | Over every run in which commands wait: the reply awaited is that to the latest request, which was written; the requests of each session carry 2, 3, 4, ... without gap or repetition, failed writes included |
| RtspRequests.NumbersRise | src/rtsp/rtsp_send.c:422-423 | Two requests of one session never carry the same number |
| RtspRequests.EachSessionStartsAtTwo | src/rtsp/rtsp_sessions.c:121 | The first request of every session carries 2, so the numbers repeat between sessions |
| RtspRequests.OtherReplyResets | src/rtsp/rtsp_internals.c:44-96 | Any other reply leads to INIT with an empty queue, nothing awaited, not busy |
| RtspRequests.RefusalReported | src/rtsp/rtsp_handlers.c:30-80 | A reply with a code outside 200 to 299 resets the client, and its code is what rtsp_wait reports |
| RtspRequests.SessionsNamed | src/rtsp/rtsp_handlers.c:50-80 | The identifier of a session is the last one the server named in a reply to its SETUPs; nothing else changes it |
| RtspRequests.RequestCarriesId | src/rtsp/rtsp_send.c:85-201 | PLAY, PAUSE and TEARDOWN go out under the identifier of their session |
| RtspRequests.ResetIsStart | src/rtsp/rtsp_state_machine.c:113-190 | A reset leaves what rtsp_init leaves, but for the cursor and the code reported, which becomes -1 exactly after 0 and 200 |
| RtspRequests.CursorAdvances | src/rtsp/rtsp_sessions.c:27-74 | The cursor runs through the media of each session, session after session, and ends at NULL |
| RtspProgress.ServedAdvances | src/rtsp/rtsp_state_machine.c:299-480 | Each reply of a server that echoes the CSeq of the request sent, with any success code and no Session header or that of the request, lowers the number of replies still needed by one, keeps the command's target and reports its code |
| RtspProgress.WaitReturns | src/rtsp/rtsp.c:238-256 | While the server so answers every request, the client is busy for exactly the number of replies needed and takes no more; then it has the target status and reports the last code |
| RtspProgress.GrantsOrEnds | src/rtsp/rtsp_state_machine.c:237-252 | While a request is outstanding, any message (a reply of whatever kind, the end of the connection) either grants what is asked and advances, or ends the wait in INIT |
| RtspProgress.WaitEnds | src/rtsp/rtsp.c:238-256 | Whatever the server sends, waiting ends within the number of replies the command needs, in INIT or with the target status |
| RtspProgress.BusyCommandIff | src/rtsp/rtsp.c:556-634 | A command given while busy keeps "busy exactly while waiting" if and only if its guard does not refuse it |
| RtspProgress.LostWakeUp | src/rtsp/rtsp.c:556-586 | PAUSE during the SETUPs makes the client not busy with a reply outstanding |
| Interleaved.InBuffer.FindHeaderEnd | src/rtsp/rtsp_internals.c:186-194 | The walk over line ends finds the first empty line |
| Interleaved.InBuffer.FullMsgRcvd | src/rtsp/rtsp_internals.c:166-194 | Classifies the buffer as a complete frame, a text header or incomplete |
| Interleaved.InBuffer.RemovePkt | src/rtsp/rtsp_internals.c:221-244 | Removes exactly the first message |
| Interleaved.InBuffer.Pump | src/rtsp/rtsp_state_machine.c:246-250 | On any buffer the loop delivers exactly the complete frames at its front, in order, leaves the rest, and terminates; it stops early exactly at a text message |
| Interleaved.InBuffer.OnReadable | src/rtsp/rtsp_internals.c:246-319 | One read followed by the loop |
| Interleaved.FirstFrameStays | src/rtsp/rtsp_internals.c:172-182 | A complete first frame is not changed by further bytes |
| Interleaved.TwoSteps | src/rtsp/rtsp_state_machine.c:246-250 | Deframing in two steps is deframing at once |
| Interleaved.ChunkingIndependent | src/rtsp/rtsp_internals.c:246-319 | For every well-framed stream and every split into reads, the frames delivered and the bytes left depend on the stream only |
| Interleaved.FramesRoundTrip | src/rtsp/rtsp_internals.c:166-182 | Frames encoded by section 10.12 of RFC 2326 come back, with an incomplete rest left over |
| Interleaved.ShortFramesArrive | src/rtsp/rtsp_state_machine.c:246-250 | All frames of 1 to 2559 payload bytes arrive in order and complete for every split, with any beginning of a next frame left |
| Interleaved.MisreadIff | src/rtsp/rtsp_internals.c:172-194 | A frame is taken for text at some cut if and only if its header reads as an empty line |
| Interleaved.MisreadHeader | src/rtsp/rtsp_internals.c:186-194 | The first three bytes of a 2560-byte frame on channel 10 are taken for text |
| Interleaved.TextHeaderFound | src/rtsp/rtsp_internals.c:186-194 | The header of a text message of any lines, ended by CR LF or LF, ends at the newline of its empty line, whatever follows |
| Interleaved.TextHeaderIncomplete | src/rtsp/rtsp_internals.c:186-194 | Cut anywhere before that newline the message is incomplete |
| Interleaved.NewlineInFront | src/rtsp/rtsp_internals.c:186-194 | A newline in front of the message is passed over |
| Interleaved.FirstOf129Lost | src/rtsp/rtsp_handlers.c:228-244 | With 129 media data of the first goes to the last |
| Interleaved.SinkIs | src/rtsp/rtsp_handlers.c:228-244 | After n SETUPs data reaches its own medium if and only if fewer than 128 media were set up later |
| H264.H264Parser.AllocData | src/parsers/rtp_utils.c:192-200 | Grows the buffer to the size asked for and keeps its contents |
| H264.H264Parser.AppendIncr | src/parsers/rtp_utils.c:206-209 | Appends within the allocated size |
| H264.StapLength | src/parsers/rtp_h264.c:247-276 | Pass 0 measures the length of the accepted units with start codes |
| H264.H264Parser.StapAppend | src/parsers/rtp_h264.c:247-276 | Pass 1 appends exactly those units, and exactly the measured length |
| H264.H264Parser.Aggregate | src/parsers/rtp_h264.c:238-289 | A STAP-A yields the buffer plus its units behind start codes, for any payload of two bytes or more |
| H264.H264Parser.Fragment | src/parsers/rtp_h264.c:305-354 | An FU-A refines the specified step in all branches |
| H264.H264Parser.Parse | src/parsers/rtp_h264.c:157-365 | h264_parse refines the specified step, keeps the buffer inside its allocation, takes one packet off the list and hands out the configuration |
| H264.AggregateRoundTrip | src/parsers/rtp_h264.c:239-288 | A packed aggregate yields its units, in order, each behind a start code; all of them exactly if it does not end in an empty unit after others |
| H264.FragmentsRoundTrip | src/parsers/rtp_h264.c:305-354 | For any split of a NAL unit into fragments: EAGAIN until the last, then start code and exact unit |
| H264.FragmentsRightIff | src/parsers/rtp_h264.c:305-354 | Whatever the parser holds, a fragmented unit comes out whole, behind pending parameter sets if any, if and only if the buffer is empty with none pending, or holds by accident exactly the bytes that belong before the fragments under their timestamp |
| H264.FragmentsOutcome | src/parsers/rtp_h264.c:322-353 | What a fragmented unit comes to in every state: the whole unit on an empty buffer; appended without its start to what the buffer holds under the same timestamp; otherwise every fragment is dropped |
| H264.OtherTypesRefused | src/parsers/rtp_h264.c:192-194 | The other unit types are refused; the buffer, with pending parameter sets, is kept for the next unit |
| H264Streams.PieceOut | src/parsers/rtp_h264.c:189-362 | From a clean state a single unit, an aggregate or a fragmented unit comes out as one frame with its last packet and leaves the state clean |
| H264Streams.ParseOn | src/parsers/rtp_h264.c:157-365 | Calls on one list of packets, then on another, are the calls on both |
| H264Streams.StreamRoundTrip | src/parsers/rtp_h264.c:157-365 | For every mix of single, aggregated and fragmented units from a clean state: one frame per piece, no failing call, and the frames end to end are the byte stream of exactly the units sent, in order |
| H264Streams.FirstOut | src/parsers/rtp_h264.c:174-289 | In any state a single unit or an aggregate comes out behind what the buffer held and the parameter sets not sent before |
| H264Streams.StreamFromAnyState | src/parsers/rtp_h264.c:157-365 | So every mixed stream that does not begin with a fragmented unit comes out whole from any state, behind what was held and is pending |
| H264Streams.StreamFromStart | src/parsers/rtp_h264.c:174-182 | From the first state the frames end to end are the parameter sets and the byte stream of the units |
| Aac.AacParser.ReadHeaders | src/parsers/rtp_aac.c:193-226 | The list built is the list of the packet's access units |
| Aac.AacParser.MakeRoom | src/parsers/rtp_aac.c:228-233 | After growing, the unit fits both the recorded and the real size; contents kept |
| Aac.AacParser.Parse | src/parsers/rtp_aac.c:167-264 | aac_parse refines the specified step |
| Aac.StaysSound | src/parsers/rtp_aac.c:167-264 | Every step keeps the pending units the last units of the packet at the front |
| Aac.PacketUnitsInOrder | src/parsers/rtp_aac.c:185-263 | n calls return exactly the n units of a marked packet in order; the packet leaves the list on the last |
| Aac.UnitsRoundTrip | src/parsers/rtp_aac.c:193-225 | Unpacking undoes the packing of sections 3.2.1 and 3.3.6 of RFC 3640 for every list of units, each with its own AU-Index or AU-Index-delta |
| AacFrames.QueueRoundTrip | src/parsers/rtp_aac.c:185-263 | For every queue of marked packets the sender packs its units into, one call per unit returns all units of all packets in order and empties the queue |
| AacFrames.CallsMore | src/parsers/rtp_aac.c:167-264 | Successive calls compose: those that return one list of outcomes, then those that return another |
| AacFrames.GroupCollected | src/parsers/rtp_aac.c:236-259 | Unmarked packets of one time: every call asks for more, and all their units are collected in order |
| AacFrames.MarkCompletes | src/parsers/rtp_aac.c:236-263 | The first unit of a marked packet of that time completes the frame, which is all the units end to end |
| AacFrames.TimeChangeCompletes | src/parsers/rtp_aac.c:176-191 | Before a packet of another time the collected units come out as a frame, and the packet stays |
| Codecs.TableRight | src/parsers/rtp_utils.c:29-41 | The table inverts the base64 alphabet and marks everything else |
| Codecs.Accumulate | src/parsers/rtp_utils.c:59 | However many bits wrapped away, the low bits of the accumulator are the last two sextets |
| Codecs.Base64Decode | src/parsers/rtp_utils.c:49-68 | Returns -1 exactly for an illegal character before the padding, else the whole bytes of the sextets as far as they fit |
| Codecs.Base64RoundTrip | src/parsers/rtp_utils.c:49-68 | Decoding undoes the encoder of section 4 of RFC 4648 for every byte string |
| Codecs.HexDecode | src/parsers/rtp_utils.c:75-97 | Returns -1 exactly for an illegal digit, else one byte per pair as far as they fit |
| Codecs.HexValueIff | src/parsers/rtp_utils.c:79-91 | The digits are exactly 0 to 9, A to F and a to f, with the values printed by them |
| Codecs.HexRoundTrip | src/parsers/rtp_utils.c:75-97 | Decoding undoes printing for every byte string, each digit in either letter case |
| TransportHeader.RtpTransport.SetTransportStrTcp | src/rtsp/rtsp_transport.c:403-413 | Appends the TCP items |
| TransportHeader.RtpTransport.SetTransportStr | src/rtsp/rtsp_transport.c:415-467 | Prints the items separated by semicolons, without a final one |
| TransportHeader.RtpTransport.ParseToken | src/rtsp/rtsp_transport.c:99-162 | One token changes channels, ssrc or nothing |
| TransportHeader.RtpTransport.GetTransportStr | src/rtsp/rtsp_transport.c:314-354 | The loop over the tokens refines the specified parse |
| TransportHeader.TokensOfItems | src/rtsp/rtsp_transport.c:332-333 | Splitting the printed header gives back its items |
| TransportHeader.ChannelsParsed | src/rtsp/rtsp_transport.c:99-140 | The printed channels item sets exactly the two channels |
| TransportHeader.SsrcParsed | src/rtsp/rtsp_transport.c:142-162 | The printed ssrc item sets exactly the ssrc, for all 32-bit values |
| TransportHeader.HeaderRoundTrip | src/rtsp/rtsp_transport.c:96-165 | Parsing the printed header recovers both channels and any non-zero ssrc, for every mode, append flag and previous state |
| TransportHeader.HeaderSays | src/rtsp/rtsp_transport.c:415-467 | The printed header names the transport, the mode of the session and no other, and append and an identifier exactly if they are set |
| TransportReplies.TokensEquations | src/rtsp/rtsp_transport.c:332-333 | Three equations that determine the tokens of every string: separators in front are dropped, a text without separators is one token, and so on after it |
| TransportReplies.AtoiReads | src/rtsp/rtsp_transport.c:109-139 | Numbers are read past blanks and a sign up to the first character that is no digit |
| TransportReplies.ChannelsRead | src/rtsp/rtsp_transport.c:102-140 | A channels parameter in any letter case, blanks before the numbers: both are stored up to 255, otherwise the header is rejected before the number is |
| TransportReplies.SsrcRead | src/rtsp/rtsp_transport.c:142-161 | An ssrc parameter in any letter case, in any number of digits of either case, with or without 0x |
| TransportReplies.SeparatorMissing | src/rtsp/rtsp_transport.c:103 | A name without its equals sign: the scan runs past the token |
| TransportReplies.DashMissing | src/rtsp/rtsp_transport.c:104-105 | Channels without a dash: likewise |
| TransportReplies.HeaderRead | src/rtsp/rtsp_transport.c:314-354 | With any blanks and colons in front, the parameters of a TCP header take effect one after the other |
| TransportReplies.ReplyTakenOver | src/rtsp/rtsp_transport.c:96-165 | A reply that names the transport, both channels and an identifier among any other parameters, in any spelling: exactly these are taken over |
| SsrcTable.SourceTable.SsrcInit | src/rtp/rtp_ssrc_queue.c:125-201 | A new source is at the front of the table with its first address, even when that address is unreadable |
| SsrcTable.SourceTable.SsrcCheck | src/rtp/rtp_ssrc_queue.c:214-374 | rtp_ssrc_check refines the specified step in all branches |
| SsrcTable.CheckKeepsIff | src/rtp/rtp_ssrc_queue.c:214-373 | A check keeps identifiers distinct and the own one out of the table if and only if a newly drawn identifier is neither listed nor the one just lost |
| SsrcTable.RunSound | src/rtp/rtp_ssrc_queue.c:214-373 | The same over every run in which drawn identifiers are fresh |
| SsrcTable.OneAddressPerSource | src/rtp/rtp_ssrc_queue.c:263-319 | Over every run on UDP all packets accepted under one identifier and protocol come from one address |
| SsrcTable.BoundDecides | src/rtp/rtp_ssrc_queue.c:263-319 | A source with a recorded address accepts no other |
| SsrcTable.ConflictsAreOwn | src/rtp/rtp_ssrc_queue.c:361-366 | The conflict list only ever holds the session's own addresses |
| SsrcTable.LoopNeverRecognised | src/rtp/rtp_ssrc_queue.c:321-366 | In every run each packet of a foreign sender bearing the own identifier costs a new identifier |
| SsrcTable.VerdictIff | src/rtp/rtp_ssrc_queue.c:232-319 | On UDP, under another identifier than the own: new exactly if not listed; first packet of its protocol exactly if listed without an address for it; known exactly from the recorded address; a collision exactly from another |
| SsrcTable.FailedIff | src/rtp/rtp_ssrc_queue.c:125-201 | Failed exactly if the sender's address is unreadable and needed; the source is listed afterwards in any case |
| SsrcTable.ReturnPathIff | src/rtp/rtp_ssrc_queue.c:150-201 | A source has a return path for RTCP exactly if it had one or this packet gives one |
| SsrcTable.OwnIdentifier | src/rtp/rtp_ssrc_queue.c:321-373 | A packet under the own identifier: nothing changes if it is the own or a known conflict; otherwise another identifier is taken, the sender is listed and the own address of the protocol joins the conflicts |
| RtcpPackets.MaskRight | src/nemesi/rtcp.h:77-87 | The 16-bit mask test means version 2, no padding, SR or RR |
| RtcpPackets.HdrValChk | src/rtcp/rtcp_recv.c:37-95 | The check, with its loop, accepts exactly the specified headers |
| RtcpPackets.CompoundAcceptedIff | src/rtcp/rtcp_recv.c:46-69 | A compound packet is accepted if and only if its words are tiled exactly by packets of version 2 and the first is an unpadded report |
| RtcpPackets.TilingUnique | src/rtcp/rtcp_recv.c:58-63 | There is at most one such tiling |
| RtcpPackets.ParsePkt | src/rtcp/rtcp_recv.c:187-219 | The dispatch loop terminates on every input and hands out the specified packets |
| RtcpPackets.DispatchEnds | src/rtcp/rtcp_recv.c:187-219 | Only the handler of an SDES packet fails, the last packet handed out then; all packets handed out are of types 200 to 204 |
| RtcpPackets.BothWalksAgree | src/rtcp/rtcp_recv.c:46-219 | On an accepted compound packet the dispatch visits the boundaries of the tiling, and all of them exactly if no unknown type or failed handler stops it |
| RtcpPackets.SingleTiledIff | src/rtcp/rtcp_recv.c:70-88 | A packet accepted as single is dispatched once; it is complete exactly if its length field says so |
| RtcpPackets.SingleAcceptedIff | src/rtcp/rtcp_recv.c:70-88 | A single packet that passes the version and padding tests is accepted if and only if the dispatch has a handler for it, which is so for types 200 to 204 |
| RtcpPackets.TruncatedPacketPasses | src/rtcp/rtcp_recv.c:70-88 | Four bytes that announce six words are accepted |
| RtcpPackets.ExcessPaddingPasses | src/rtcp/rtcp_recv.c:84-85 | Five bytes of padding in one word after the header are accepted |
| RtcpPackets.PaddingTestWrongIff | src/rtcp/rtcp_recv.c:84-85 | The padding test on a little-endian host decides differently from the length in network order exactly for the given length bytes |
| Md5.FRewritten | src/utils/random32.c:110 | The rewritten function of round 1 is F of RFC 1321, for all words |
| Md5.GRewritten | src/utils/random32.c:111 | The rewritten function of round 2 is G |
| Md5.Index2 | src/utils/random32.c:111 | The index formula of round 2 lists the words of the RFC |
| Md5.Index3 | src/utils/random32.c:113 | The same for round 3 |
| Md5.Index4 | src/utils/random32.c:114 | The same for round 4 |
| Md5.RotateBit | src/utils/random32.c:116 | The two shifts and the or move every bit up by the amount given, those at the top to the bottom |
| Md5.Core | src/utils/random32.c:105-116 | The macro computes one operation of the RFC |
| Md5.Core2 | src/utils/random32.c:134 | Four macro calls with rotated registers are one row of the RFC's listing |
| Md5.Body | src/utils/random32.c:118-142 | body on registers kept in reverse order is the compression of RFC 1321 |
| Md5.Context.constructor | src/utils/random32.c:144-151 | The initial context is that of the empty message |
| Md5.Context.Update | src/utils/random32.c:153-166 | After any sequence of updates the context is that of the concatenated bytes, so every split gives the same one |
| Md5.Context.Final | src/utils/random32.c:168-180 | The digest words are those of the message followed by the bytes the code pads with |
| Md5.Md5Sum | src/utils/random32.c:182-188 | The result is the MD5 digest of RFC 1321 for every message that does not end 56 to 62 bytes into a block |
| Md5.FedRightIff | src/utils/random32.c:168-175 | The padding is the RFC's, and fills whole blocks, if and only if the message does not end 56 to 62 bytes into a block; otherwise one block too few is compressed |
| Md5.OneBlockShort | src/utils/random32.c:168-175 | A message of 56 bytes is one block short |

## Left out

- Sockets, `select`, threads, cancellation, logging: input and output. Conditions wait as a result `Blocked`; results of system calls are parameters. Allocation does not fail.
- Exits of `rtp_recv` that break slot ownership (failed receive, collision calling `bprmv` on an unlinked slot, fatal source error): `Receive` covers the others.
- `podel.c` and `bpkill.c`: not part of this model. `rtp_get_n_pkt`: it walks the wrong way from the tail.
- Receive: the packet is handed to a known source whose check has already been made (`SsrcTable` models the check); header check, jitter, timestamps and frame rate are not modelled.
- SeqTracker.SsrcStats.InitSeq: does not enqueue the source on the queue of active sources, which after a resync holds it twice.
- ReceiverReports.BuildBlock: does not state jitter, last SR and delay, which are clocks and floating point.
- ReceiverReports.BuildBlocks: the same for every block.
- PlayoutRuns.RunRefines: takes arrivals under the number they are handed; `SeqTracker.CycleHandedIsTrueIff` says when that is the true one. Removals are at the tail only.
- RTCP scheduling and intervals; the contents of SR, RR, SDES, BYE and APP packets.
- RtcpPackets.ParsePkt: the handlers are named by the word they are called at; a failed SDES handler is a parameter.
- RTSP text: the length of a message body, the parsing of status lines and header fields, redirects, `rtsp_seek`, a reply with a Session header while nothing is awaited (taken as unmatched). A reply is a value with its CSeq, session, code and description.
- RtspProgress.WaitEnds: does not cover a failed read of the socket, on which the RTSP thread exits with `busy` still set, nor commands given meanwhile (`BusyCommandIff`).
- RtspThread.RtspThread.RtspPause: requires a status other than RECORDING, which `StepsDefined` proves unreachable; PLAY while PLAYING leads to a reset and is covered by the runs.
- Interleaved.InBuffer.FullMsgRcvd: for a TCP connection on which at least one medium has been set up (before that the code treats a `$` as text). The string functions see the buffer's own length as its end.
- Interleaved.InBuffer.Pump: stops at a text message, whose body and handling are not modelled; `OnReadable` likewise.
- Interleaved.ChunkingIndependent: requires frames with a payload and headers that do not read as an empty line; `MisreadIff` says which those are, and a frame without payload is not recognised until more bytes arrive.
- H264: types 25 to 27, and FU-A packets shorter than two bytes, which the code does not check.
- Aac.AacParser.Parse: requires packets of complete access units; fragments are not modelled, and neither are packets that arrive between the calls for one packet.
- The parsers for MPEG-4 video, Vorbis, Theora and MPEG audio; CSRC lists and RTP padding.
- TransportHeader.RtpTransport.GetTransportStr: the branches for UDP and SCTP, tokens longer than the 255 characters of the local buffer, numbers beyond the range of `int`, a sign or blanks before a hexadecimal number, and separators missing from a token (the code then reads past it; the model returns `Overrun`).
- SsrcTable.SourceTable.SsrcCheck: allocation failure; the times of conflicts, which are only written.
- Md5.Body: for little-endian hosts. `random32` gathers system data and is not modelled. That a wrong block sequence also gives a wrong digest is not claimed: it would be a statement about collisions.
- SDP, Creative Commons and payload-type tables: strings and constants.
