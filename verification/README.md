# nperf: packet, buffer and request accounting

nperf measures UDP throughput. A sender stamps consecutive packet ids into the datagrams it sends
over `sendmsg`, `sendmmsg` or io_uring; a receiver derives losses, duplicates and reordering from
the ids that arrive. This project models the parts of the program whose answers depend on long runs:

- **The wire format and the packet buffer** (`Wire`, `Datagrams`, `PacketBuffers`): headers of three
  little-endian 64-bit words, stamping of ids into buffers that hold several datagrams, cutting
  a received buffer into datagrams, and the pool of buffer indexes with the capacity of its vector.
- **The sender's id stream** (`SenderStream`): ids are stamped before the call and taken back when
  the socket accepts fewer messages.
- **The receiver's accounting** (`Accounting`, `IntervalAccounting`, `Receivers`, `Batching`,
  `Sessions`, `UringSessions`): one expected id and a few counters stand in for the set of ids seen, within an
  interval and across interval ends, which set the counters back; single receives, batches and
  coalesced buffers; the measurement vector with its lifecycle flags; whole measurements.
- **The io_uring loops** (`FillMode`, `RecvRing`, `UringReceivers`, `SendRing`, `UringSenders`,
  `SendWire`, `NormalSends`, `ProvidedRing`, `RecvRuns`, `SendRuns`, `RingLimits`): who owns which buffer, which ids a
  request carries and the wire gets, and what the loop's counter of requests in flight means,
  whatever the kernel does and whenever it does it.
- **Statistics** (`Counters`, `Statistics`, `Executor`): merging, intervals, thread totals.
- **Core allocation** (`CoreAffinity`), and **both ends together** (`EndToEnd`).

`Wrappers` and `Arithmetic` hold the option and result types and facts about quotients.

Code that changes things in place is a class or a method with loops (`PacketBuffer`, `Sender`,
`Receiver`, `IoUringNormal`, `IoUringSend`, the three io_uring loops, `StatisticInterval`, the merge
of the executor, `CoreAffinityManager`). Each is proved against a specification function, and the
results about whole runs are lemmas about those functions. The io_uring loops are proved to be
steps of state machines (`RecvRing.Step`, `SendRing.Step`, `ProvidedRing.Step`) in which the
kernel's own steps may come between any two steps of the program.

The socket and the kernel are nondeterministic. A receive request gets one completion. A zero-copy
send request gets a result and then a notification, or only a result that says "try again" or
reports a fatal error. A Normal send request gets one result. What is claimed of all runs holds
whatever a fill reads off the queues and however many pushes succeed, as with a polling kernel
thread. What is claimed of some run is shown on runs in the order of the loop: fills and reaps take
turns, a fill reads both queues truly, and a push fails only if the queue is full (`LoopRun`).

## Where the code does not do what one might expect

Each of these is a lemma that states the exact condition, or the exact amount.

- An interval end sets the receiver's counters back but keeps the expected id. A datagram that
  arrives late in the next interval is then taken for a duplicate, and the loss reported for it
  stays reported. Losses less duplicates are still right; each interval adds as many made-up losses
  as duplicates, in number exactly its largest excess of arrivals over the advance of the expected
  id. Nothing is made up exactly if every interval keeps ahead of its arrivals. The smallest case is
  datagram 1, an interval end, datagram 0 (`TotalsInClosedForm`, `NothingIsMadeUpExactly`,
  `IntervalEndMakesUpLossAndDuplicate`, `IntervalEndMakesReceiverReportLoss`).
- `sendmsg` stamps the ids of every buffer and sends only the first. Its id stream is free of gaps
  exactly if there is a single buffer (or the messages are empty), but the combination of a socket
  I/O model with the zero-copy ring mode is accepted and allocates `4 * ring size` buffers. The
  receiver then reports `n - 1` buffers' worth of losses per call although nothing was lost
  (`SendmsgIsGapFreeExactlyWithOneBuffer`, `SelectWithZerocopyIsAccepted`,
  `SeveralBuffersFakeLosses`).
- `recvmmsg` looks at the type and test id of the first message of a batch only. A batch that starts
  with a MEASUREMENT message is handled as its messages would be one by one exactly if all of them
  are MEASUREMENT messages of that test; one that starts with INIT or LAST, exactly if the messages
  behind it, as far as the receive loop would get, change nothing; one that ends the loop, always. A
  coalesced buffer behaves like a batch of its segments (`BatchRefinesSingleExactly`,
  `BatchHidesLast`, `CoalescedIsBatch`).
- In Normal mode the io_uring sender stamps and pushes buffers 0, 1, 2, ... whether or not the
  kernel still holds them. A fill leaves a held buffer as it is exactly if it does not reach it, or
  the buffer carries the new ids already. Two rounds before the first answer send the ids of the
  second twice, and the only configurations without such a run are those that send nothing. A run in
  which every fill finds nothing queued or in work is right (`FillKeepsHeldBufferExactly`,
  `NormalModeSendsTwice`, `NormalModeIdsDifferExactly`, `DrainedFillsSendDifferentIds`).
- A reaping pass that stops early (LAST, nothing to receive) drops the indexes it has collected;
  nothing leaks exactly until a pass meets such a completion. The indexes are lost for the rest of
  the run. In Syscall mode nothing is ever submitted again, and every ring that submits anything has
  a run that gets there (`PartitionWithoutEarlyStop`, `SyscallStarvesAfterLeak`, `SomeRunLeaks`,
  `FirstMessageCanStopThePass`). In Topup mode every wait is owed exactly while at most
  `buffers - 2 * burst + 1` indexes are lost, and every ring that waits at all has a run in which it
  waits with no request outstanding (`TopupWaitIsAlwaysOwedExactly`, `TopupCanWaitForTheImpossible`).
- A zero-copy push that fails loses its buffer, and nothing else does before a fatal error
  (`PartitionWithoutPushFailure`).
- The send loop's counter of requests in flight never under-counts, but stays one too high for good
  after every request turned down for lack of room (`CounterNeverUnderCounts`).
- The zero-copy sender's completion queue is sized to one entry per buffer. Outside Syscall mode
  twice as many completions can wait (`CqSizeSufficesExactly`).
- The utilization arrays: completion queue lengths are in range in all runs exactly with at most
  1024 ring entries or in Syscall mode; the receivers' counters always are; the zero-copy sender's
  counter is exactly if nothing is ever submitted, since refused requests drive it up without bound
  (`ReceiverCqIndexInRangeExactly`, `SenderCqIndexInRangeExactly`, `SenderInflightIndexInRangeExactly`).
- A datagram size that leaves no room for the last header of a buffer is accepted
  (`UnfitDatagramSizeIsAccepted`, `PacketsFitExactly`).
- Counts made after the last planned interval are in no total. For a receiver this is always so
  for what follows the last interval end it saw (`NothingIsDroppedExactly`, `ReportedPlusDropped`).
- Threads without any interval count in the final total but in no interval
  (`IntervalTotalsAgreeWithThreadTotals`).
- The loss counter is a signed word: a gap of 2^63 ids makes it negative
  (`WordsAgreeExactlyInRange`, `WordsWrapAtSignBit`).
- A LAST message panics the receiver exactly if no earlier message had a test id as high
  (`PanicsExactly`).
- The receiver's core ids do not start over: after all cores of all nodes were used the next id is
  2^64 - 1, if there is more than one core. With NUMA its lookup fails, without it is what the
  thread is to be bound to (`ReceiverRunsOut`).
- In Syscall mode the wait is for a whole burst whatever is still out: with fewer than a burst
  outstanding and the pool not full, the fill asks the kernel to wait for more completions than are
  owed (`SyscallWaitIsOwedExactly`, `SyscallWaitsForTheOwedExactly`).
- `sendmsg` also counts the datagrams of every buffer as sent (`CountersInClosedForm`).
- Over provided buffers the INIT message that opens a measurement stops the pass, over the index pool
  it does not (`FateExactly` of both receivers).
- The merged data rate depends on the order of merging (`MergedRatesAgreeExactly`).

## Model

| member | source | states |
|---|---|---|
| Wire.SerializeRoundTrip | src/net/mod.rs:29-71 | the three header words read back from a message are the type, test id and packet id it was built with, whatever payload follows |
| Wire.HeaderOnWire | src/net/mod.rs:8-46 | the bytes of a header: the first is 0, 1 or 2 for INIT, MEASUREMENT and LAST with seven zero bytes behind it, then test id and packet id with their lowest bytes first |
| Wire.BytesRoundTrip | src/net/mod.rs:35-50 | reading a word and writing it again gives the same bytes, so no byte pattern is lost |
| Wire.SetPacketIdRaw | src/net/mod.rs:52-57 | the in-place store of an id changes the third header word and nothing else of the buffer |
| Datagrams.ChunkCount | src/util/msghdr.rs:17-29 | the packet count, mss over datagram size rounded up, is the number of datagrams the buffer is cut into, and each of them holds a header |
| Datagrams.PacketsFitExactly | src/util/msghdr.rs:17-29 | stamping stays inside the buffer if and only if every datagram, the shorter last one included, has room for a header |
| Datagrams.StampTouchesIdsOnly | src/util/packet_buffer.rs:76-80 | stamping leaves every byte outside the id words alone: type, test id and payload |
| Datagrams.StampIsNoOpExactly | src/util/packet_buffer.rs:76-80 | stamping leaves the bytes as they are if and only if the id words hold those ids already |
| Datagrams.StampThenChunk | src/util/packet_buffer.rs:88-102 | cutting a stamped buffer by the datagram size yields the stamped ids in order, with the types and test ids it had |
| Datagrams.SenderBufferOnWire | src/util/msghdr.rs:61-76 | a freshly created buffer, stamped and cut, is a row of MEASUREMENT datagrams of the test with consecutive ids |
| Datagrams.ChunksOfCoalesced | src/util/mod.rs:123-127 | a coalesced buffer is cut into exactly the segments it was made of |
| PacketBuffers.StampedBuffersOnWire | src/util/packet_buffer.rs:68-86 | sending the first buffers of a stamped vector puts one gap-free id range on the wire, across buffer boundaries |
| PacketBuffers.PacketBuffer.AddPacketIds | src/util/packet_buffer.rs:68-86 | the in-place loops stamp consecutive ids into the first `amount` buffers, leave the others alone, and return the number of ids used |
| PacketBuffers.PacketBuffer.StampBuffer | src/util/packet_buffer.rs:88-102 | the same for one buffer |
| PacketBuffers.PacketBuffer.GetBufferIndex | src/util/packet_buffer.rs:112-117 | takes the last index off the pool, or fails if there is none |
| PacketBuffers.PacketBuffer.ReturnBufferIndex | src/util/packet_buffer.rs:123-125 | appends the indexes; the capacity grows only if they do not fit, then to twice its size or to the length, at least 4 |
| PacketBuffers.PacketBuffer.GetPoolInflight | src/util/packet_buffer.rs:119-121 | capacity minus length of the pool |
| PacketBuffers.NewSenderBuffer | src/util/msghdr.rs:61-76 | writes a MEASUREMENT header with ids 0, 1, ... at the start of every packet and nothing else |
| SenderStream.SendmmsgIsGapFree | src/node/sender.rs:141-169 | over every run of full, partial and blocked sends and interval ends, the accepted ids are 0, 1, 2, ... without gap or repeat, and the datagram counters summed over the intervals equal the next id |
| SenderStream.SendmsgIsGapFreeExactlyWithOneBuffer | src/node/sender.rs:116-139 | the same holds of all sendmsg runs if and only if the vector has one buffer (or empty messages) |
| SenderStream.SendmsgLeavesGap | src/node/sender.rs:116-139 | with several buffers the first call spends the ids of all and delivers those of one |
| SenderStream.CountersInClosedForm | src/node/sender.rs:116-169 | over every run, with m accepted messages of p datagrams: m * p ids accepted; sendmmsg spends and counts as many, sendmsg m * n * p; a call that fails leaves the ids it stamped spent |
| SenderStream.BytesAreThoseAccepted | src/node/sender.rs:163-166 | over every run whose answers report message lengths, full and partial sends and interval ends alike, the bytes counted over all intervals are the message length times the messages accepted before a call failed |
| SenderStream.TotalBytesAreTheMessages | src/util/mod.rs:133-143 | for messages of any lengths, the bytes added up are the summed length of the messages accepted, none besides |
| SenderStream.Sender.Sendmmsg | src/node/sender.rs:141-169 | the method on the real buffers moves the state as the specification says; the ids read from the bytes put on the wire are the accepted ones, and the wire grows by the message length per accepted message |
| SenderStream.Sender.Sendmsg | src/node/sender.rs:116-139 | the same for sendmsg |
| SenderStream.Sender.Run | src/node/sender.rs:363-383 | a whole run of the sending loop is the run of the specification, so its results hold of the bytes on the wire; if the answers report message lengths, the bytes counted over all intervals are the summed length of the datagrams on the wire |
| SenderStream.GetTotalBytes | src/util/mod.rs:133-143 | the loop adds up the lengths of the first `count` messages; what that means is `SenderStream.TotalBytesAreTheMessages` |
| Accounting.CountersMatchSet | src/util/mod.rs:56-79 | on every stream of different ids, from 0: expected id = 1 + highest id, omitted = number of ids missing below it, duplicated = 0, reordered = number of late arrivals |
| Accounting.OrderDoesNotMatter | src/util/mod.rs:56-79 | two orders of the same different ids give the same expected id, omitted and received counts |
| Accounting.ArbitraryStream | src/util/mod.rs:56-79 | on every stream, duplicates included, the expected id is 1 + highest id and 0 <= omitted <= number of missing ids |
| Accounting.Conservation | src/util/mod.rs:101-130 | from every state and on every stream, advance + duplicated = received + omitted |
| Accounting.RunTouchesLossesOnly | src/util/mod.rs:101-130 | from every state and on every stream, one datagram is counted per id, and besides it only omitted, reordered and duplicated change, the latter two never downwards |
| Accounting.ConservationAcrossResets | src/node/receiver.rs:615-623 | the same with counters summed over any number of interval resets |
| IntervalAccounting.CountersFromZero | src/util/mod.rs:56-79 | every counter after an interval that began with zero counters, from the ids alone: duplicated is the largest excess of arrivals over the advance of the expected id |
| IntervalAccounting.TotalsInClosedForm | src/node/receiver.rs:615-623 | every stream, cut anywhere: expected id, received, omitted, duplicated and reordered summed over the intervals, as for the uncut stream plus the shortfalls of the intervals |
| IntervalAccounting.CutsKeepTheDifference | src/node/receiver.rs:615-623 | cutting changes neither the expected id nor omitted - duplicated, which for different ids is the number truly missing |
| IntervalAccounting.NothingIsMadeUpExactly | src/node/receiver.rs:615-623 | no duplicate and no loss is made up if and only if in every interval the expected id has advanced by at least j after every j arrivals |
| IntervalAccounting.UncutStreamKeepsAhead | src/util/mod.rs:56-79 | within one interval a stream of different ids makes up nothing, in whatever order |
| IntervalAccounting.IntervalEndMakesUpLossAndDuplicate | src/node/receiver.rs:615-623 | ids b and a < b with an interval end in between report one loss too many and a duplicate, and without it a reordered datagram |
| Accounting.WordsAgreeExactlyInRange | src/util/mod.rs:56-79 | on 64-bit words one packet is counted correctly if and only if neither the expected id nor the signed loss counter leaves its range |
| Accounting.WordsSuffice | src/util/mod.rs:56-79 | streams of ids below 2^63 are counted as with unbounded numbers |
| Accounting.WordsWrapAtSignBit | src/util/mod.rs:61-63 | a first packet with id 2^63 makes the loss counter negative |
| Accounting.ProcessPacketMsghdr | src/util/mod.rs:101-130 | the loop over the datagrams of a message computes the one-at-a-time run over their ids |
| Accounting.CoalescingIsTransparent | src/util/mod.rs:101-130 | the sequence accounting of a coalesced buffer is that of its segments one by one; the receiver as a whole is in `Batching.CoalescedRefinesSegmentsExactly` |
| Accounting.StampParseRoundTrip | src/util/mod.rs:101-130 | a buffer stamped from p, received by a receiver expecting p, advances it by the packet count and touches no loss counter |
| Receivers.LifecycleIsMonotone | src/node/receiver.rs:175-222 | over every run the vector never shrinks, flags are never cleared and the start time is set once |
| Receivers.FlagsTellHistory | src/node/receiver.rs:175-222 | in every run without a panic the flags of each entry tell whether its test was started and ended, the start time is that of its first MEASUREMENT message, and the vector length is that of the highest id announced |
| Receivers.PanicsExactly | src/node/receiver.rs:209-212 | the lookup of a LAST message panics if and only if no earlier INIT or MEASUREMENT message had an id at least as high |
| Receivers.FinishesExactlyWhenAllEnded | src/node/receiver.rs:570-579 | the loop's finish test holds if and only if every started test has ended |
| Receivers.HandlingIsLifeSteps | src/node/receiver.rs:98-128 | handling a message is one lifecycle step and an update of counters, so the three results above hold of the receiver; the lookup after a MEASUREMENT message never fails |
| Receivers.TypeIsOnWire | src/net/mod.rs:59-71 | the type and test id a receiver dispatches on are those the sender serialised |
| Receivers.AnswersExactly | src/node/receiver.rs:175-222 | the answer to every message: too big if and only if the test id is 1024 or more, otherwise by the type, a LAST message of an unknown test panics |
| Receivers.LoopEndsExactly | src/node/receiver.rs:639-650 | the receive loop ends with a message if and only if its test id is too big, or it is a LAST message of an unknown test, or one whose test is the last started one to end |
| Batching.BatchRefinesSingle | src/node/receiver.rs:131-173 | a batch of MEASUREMENT messages of one test leaves the same expected id, counters, bytes and flags as single receives |
| Batching.BatchRefinesSingleExactly | src/node/receiver.rs:131-173 | every batch: it leaves the receiver as single receives until the loop ends would, if and only if its first message ends the loop, or all are MEASUREMENT of one test, or the first is INIT or LAST and the rest changes nothing |
| Batching.NothingHappensExactly | src/node/receiver.rs:175-222 | messages handled one by one leave the receiver as it was if and only if each, up to one that ends the loop, is idle by its type, id, the vector length and LAST flags |
| Batching.BatchHidesLast | src/node/receiver.rs:139-143 | a LAST message behind a MEASUREMENT message ends its test when received alone and not when received in the batch |
| Batching.CoalescedIsBatch | src/util/mod.rs:101-130 | a coalesced buffer, with type dispatch, counters and bytes, is handled as a batch of its segments |
| Batching.CoalescedRefinesSegmentsExactly | src/node/receiver.rs:98-128 | it is handled as its segments one by one if and only if the condition for batches holds |
| Receivers.Receiver.RecvMsg | src/node/receiver.rs:98-128 | the method does what the specification of one receive says |
| Receivers.Receiver.RecvMmsg | src/node/receiver.rs:131-173 | the method's loop, with its totals added at the end, does what the specification of a batch says |
| Receivers.Receiver.ParseType | src/node/receiver.rs:175-222 | the measurement vector after a message of each type, and the answer |
| Receivers.Receiver.AllMeasurementsFinished | src/node/receiver.rs:570-579 | the loop decides whether every started entry has ended |
| Receivers.Receiver.EndInterval | src/node/receiver.rs:615-623 | an interval end adds up the counters of all tests and sets them back, and changes nothing else |
| Receivers.Receiver.Measure | src/node/receiver.rs:611-652 | the measurement loop over messages and interval ends, until it ends, is the session of the specification |
| Sessions.SessionIsRunWithResets | src/node/receiver.rs:611-652 | over every measurement of one test, with interval ends and control messages anywhere, expected id and reported counters are those of the accounting with resets |
| Sessions.SegmentsHoldThePackets | src/util/mod.rs:101-130 | the ids of that accounting are those of the datagrams counted, in order |
| Sessions.SessionConserves | src/node/receiver.rs:611-652 | every measurement, with messages of any tests interleaved and interval ends anywhere: expected id + duplicated = received + omitted, over all tests and intervals |
| Sessions.ReportedVolume | src/node/receiver.rs:113-124 | every measurement, of any tests, with interval ends anywhere: the datagrams and bytes reported over all tests and intervals are the number and the summed length of the datagrams of the counted messages |
| Sessions.SessionIsLife | src/node/receiver.rs:611-652 | the vector of every measurement is that of a lifecycle run, so the lifecycle results hold of every measurement |
| Sessions.SessionEndsExactly | src/node/receiver.rs:639-650 | a measurement ends with the next message if and only if the id is too big or, for LAST, nothing as high was announced or all other tests that any earlier message started have ended |
| FillMode.AcceptedParametersAreSound | src/command_parser.rs:215-225 | every accepted argument list has burst size <= ring size <= 2048, a buffer count (and completion queue size) of four times the ring size that is a power of two, and one packet buffer per ring buffer in the index-pool modes |
| FillMode.AcceptedExactly | src/command_parser.rs:255-310 | on the arguments alone, accepted if and only if: datagrams fit UDP, the ring size is one of 1, 2, 4, ..., 2048, the burst size is the default or at most the ring size, the interval fits, no zero copy on a receiving ring |
| FillMode.AcceptedParameters | src/command_parser.rs:215-225 | what becomes of accepted arguments: the default burst is a quarter of the ring rounded up, sharing the polling thread turns polling on, four buffers per ring entry in the pooled modes, everything else as given |
| FillMode.SingleBufferExactlyWithoutZerocopy | src/command_parser.rs:332-335 | a socket-based sendmsg run gets one buffer if and only if the ring mode is not zero copy |
| FillMode.SelectWithZerocopyIsAccepted | src/command_parser.rs:255-345 | the defaults with the zero-copy ring mode are accepted and get 64 buffers |
| FillMode.UnfitDatagramSizeIsAccepted | src/command_parser.rs:255-345 | the defaults with datagrams one byte shorter are accepted, and the second datagram of a buffer has no room for its header |
| FillMode.NeverOversubscribes | src/io_uring/mod.rs:151-205 | the decision never asks for more than the free buffers nor the free queue entries, and in Syscall mode only from zero in flight and at most a burst |
| FillMode.WaitsForABurstExactly | src/io_uring/mod.rs:151-205 | a fill waits for a whole burst or for nothing, and when, exactly; Topup fills up as far as entries or buffers go, Syscall submits a burst from zero in flight or nothing, an exhausted pool submits nothing |
| FillMode.OverfullPoolWaitsForAQuarter | src/io_uring/mod.rs:158-166 | without a burst size, the wait of a pool with more in flight than there are buffers is a quarter of the ring |
| FillMode.SyscallWaitIsOwedExactly | src/io_uring/mod.rs:173-202 | Syscall mode, at most a burst out: the completions waited for are owed if and only if nothing is out or a whole unleaked burst is; from zero it waits for what it submits |
| FillMode.TopupWaitIsOwedExactly | src/io_uring/mod.rs:158-202 | the completions waited for are owed by outstanding or new requests, except under an exactly stated condition that needs leaked indexes |
| FillMode.TopupWaitIsAlwaysOwedExactly | src/io_uring/mod.rs:158-202 | the completions waited for are owed whatever is outstanding, if and only if at most bufferSize - 2 * burstSize + 1 buffers have leaked |
| FillMode.IdleRoundExactly | src/io_uring/mod.rs:158-204 | when a round neither submits nor waits, exactly; never with an empty completion queue, a positive burst, no polling thread and waiting enabled; how much the others wait for is `FillMode.WaitsForABurstExactly` |
| RecvRing.EveryBufferHasOneOwner | src/io_uring/normal.rs:15-41 | in every state of every run the pool has no repeats and is in range, and pool, kernel side and leaked indexes are disjoint and together all indexes |
| RecvRing.PartitionWithoutEarlyStop | src/node/receiver.rs:226-264 | every run: nothing has leaked, and pool and kernel side partition the indexes, if and only if no pass has met a completion that stops it |
| RecvRing.NoFaultEver | src/node/receiver.rs:543-549 | no run takes from an empty pool, underflows the counter or overflows the completion queue, and the counter is never below the outstanding requests |
| RecvRing.PushNeverFailsOnFreshReads | src/io_uring/normal.rs:28-36 | with a true reading of the queue every push succeeds |
| RecvRing.SyscallMimicsSyscall | src/io_uring/mod.rs:173-181 | over every run in Syscall mode at most a burst is in flight, submission happens only from zero, and the exhausted-pool branch is never entered |
| RecvRing.SyscallStarvesAfterLeak | src/io_uring/mod.rs:173-181 | once an index has leaked, nothing is ever submitted again in Syscall mode |
| RecvRing.SyscallSubmitsExactly | src/io_uring/mod.rs:173-181 | Syscall mode submits if and only if nothing is held and nothing has leaked, and then a whole burst as far as the queue has room |
| RecvRing.SyscallWaitsForTheOwedExactly | src/io_uring/mod.rs:173-202 | every reachable state in Syscall mode: the completions waited for are owed if and only if the pool is full or a whole burst is outstanding; from a full pool the fill waits for as many as it asks to submit |
| RecvRing.FillMovesExactly | src/io_uring/normal.rs:15-63 | in every reachable state a fill moves the lesser of the amount decided on and the room from the top of the pool, in that order, to the submission queue, and changes nothing else |
| RecvRuns.SomeRunLeaks | src/node/receiver.rs:226-264 | every ring that submits anything has a run in the order of the loop with a leak and nothing outstanding, in Syscall mode one after which no fill does anything |
| RecvRing.LeakIsPermanent | src/node/receiver.rs:247-260 | leaked indexes never come back |
| RecvRing.TopupNeverWaitsForTheImpossible | src/io_uring/mod.rs:182-203 | in every reachable state with an empty submission queue the completions waited for are owed, if and only if leaks have not eaten up the pool |
| RecvRuns.TopupCanWaitForTheImpossible | src/io_uring/mod.rs:158-166 | every Topup ring that waits has a run in the order of the loop after which a fill waits for a burst of completions with no request outstanding |
| UringReceivers.IoUringNormal.SubmitRequests | src/io_uring/normal.rs:15-41 | the submit loop, with the index handed back when a push fails, does what the state machine's submission does |
| UringReceivers.UringReceiver.FillHalf | src/node/receiver.rs:543-543 | the first half of a loop round is a step of the state machine and never fails; queue, pool and counter move by the lesser of the amount decided on and the room |
| UringReceivers.FateExactly | src/node/receiver.rs:240-260 | a completion hands its buffer back if and only if bytes arrived and the message is counted or an INIT message; -11, LAST and a panic stop the pass, other errors and too big ids end the run |
| UringReceivers.PassInClosedForm | src/node/receiver.rs:226-264 | a pass of completions with INIT and MEASUREMENT messages of ids below 1024 only empties the queue, hands every buffer back in order, leaks none and lowers the counter by their number; any other takes the queue up to the first other completion, leaks exactly those buffers and leaves pool and counter alone |
| UringReceivers.UringReceiver.CompleteNormal | src/node/receiver.rs:226-264 | draining the completion queue, with its early returns, does what the state machine's reaping does, leaves the receiver as its messages up to the first stop say, and returns the number of completions or the kind of error, as read off the completions |
| UringReceivers.RingRefinesSingleReceives | src/node/receiver.rs:240-257 | a pass whose completions all hand their buffers back leaves the expected id, counters and measurements as one recvmsg call per message would |
| UringReceivers.UringReceiver.ReapHalf | src/node/receiver.rs:545-560 | the second half of a loop round is a step of the state machine and keeps its invariant; queue, pool, leaked buffers and counter afterwards, read off the results and messages of the completions |
| UringSessions.RingSessionIsSession | src/node/receiver.rs:523-561 | a whole measurement on the ring, across passes, early stops and interval ends, leaves expected id, measurements and reports as receiving the same messages one by one does, and ends if and only if that does or a pass takes an error other than -11 off the queue |
| SendRing.EveryBufferHasOneOwner | src/io_uring/send.rs:50-83 | zero copy: ownership of every buffer, in every state of every run, as for the receive ring |
| SendRing.PartitionWithoutPushFailure | src/io_uring/send.rs:72-79 | zero copy, every run: nothing has leaked, and pool and kernel side partition the indexes, if and only if no fill had room for fewer requests than it decided to submit and no fatal error ended the run |
| SendRing.InFlightBuffersAreImmutable | src/io_uring/send.rs:56-69 | zero copy: while the kernel holds a buffer, from its push until its notification is reaped, its bytes stay those of the push |
| SendRing.HeldBuffersCarryTheirIds | src/util/packet_buffer.rs:88-102 | those bytes, cut into datagrams, carry exactly the ids assigned by the push |
| SendWire.HeldBuffersCarryDifferentIds | src/io_uring/send.rs:56-69 | zero copy: different held buffers carry different ids |
| SendRing.StepLeavesHeldBuffers | src/node/sender.rs:228-294 | no step of any kind touches a buffer the kernel holds |
| SendRing.NormalModeRestampsHeldBuffers | src/io_uring/send.rs:25-47 | a Normal-mode submission stamps exactly the first `amount` buffers anew, with the ids from the next one on, without regard to who holds them |
| NormalSends.FillKeepsHeldBufferExactly | src/io_uring/send.rs:25-47 | Normal mode: a fill leaves the bytes of a held buffer unchanged if and only if it does not reach it, or there are no packets, or the buffer carries those ids already |
| NormalSends.SecondFillRestampsHeldBuffer | src/io_uring/send.rs:25-47 | a run in the order of the loop: the buffer of a request in work carries ids from 0 before the second fill, and those of its second request after it |
| NormalSends.NormalModeSendsTwice | src/io_uring/send.rs:25-47 | a run in the order of the loop that sends two messages for buffer 0, both with the ids of the second request |
| NormalSends.NormalModeIdsDifferExactly | src/io_uring/send.rs:25-47 | Normal mode: no run, and no run in the order of the loop, sends an id twice if and only if no run sends anything |
| NormalSends.DrainedFillsSendDifferentIds | src/io_uring/send.rs:25-47 | Normal mode: in every run whose fills find nothing queued and nothing in work, all ids on the wire are different |
| SendRing.SendConservation | src/node/sender.rs:318-320 | both modes, every run: pushed requests start at ids 0, p, 2p, ..., and until a fatal error next id = datagrams + omitted + p times the requests without a reaped result, over all intervals |
| SendWire.TransmittedIdsDiffer | src/io_uring/send.rs:56-79 | zero copy, every run, read off the bytes sent: all ids on the wire are different and below the next one, p per message |
| SendWire.DatagramsSentAreCounted | src/node/sender.rs:281-285 | both modes, every run: the datagrams on the wire are those counted as sent plus those of results not reaped yet |
| SendWire.BytesSentAreCounted | src/node/sender.rs:213-216 | both modes, every run whose results report whole messages: the bytes counted over all intervals and those of results not reaped yet are the message length times the messages sent |
| SendRing.CounterNeverUnderCounts | src/node/sender.rs:322-333 | both modes, every run: no lookup fails, the loop's counter is the outstanding requests plus the requests ever turned down, and in zero copy outstanding, pool and leaked add up to all buffers |
| RingLimits.CqHoldsAtMostTwiceTheBuffers | src/io_uring/mod.rs:86-87 | zero copy, every run: at most two completions per buffer wait, and more than the queue was sized for exactly under the stated census |
| RingLimits.CqSizeSufficesExactly | src/io_uring/mod.rs:86-87 | the completion queue size suffices in all zero-copy runs, and in all in the order of the loop, if and only if in Syscall mode; otherwise twice the size is reached while a fill is in the kernel |
| RingLimits.ReceiverCqIndexInRangeExactly | src/io_uring/normal.rs:59-62 | completion queue lengths read after a fill index the utilization array in all runs, and in all in the order of the loop, if and only if the ring has at most 1024 entries or in Syscall mode |
| RingLimits.SenderCqIndexInRangeExactly | src/io_uring/send.rs:107-110 | the same for the zero-copy sender |
| RingLimits.ReceiverInflightIndexInRange | src/node/receiver.rs:481-483 | the receivers' counters of requests in flight always index the array |
| RingLimits.SenderInflightIndexInRangeExactly | src/node/sender.rs:307-309 | the sender's counter does while few enough requests were turned down, and at the start of every round in all runs if and only if nothing is ever submitted |
| SendRing.SyscallMimicsSyscall | src/io_uring/mod.rs:173-181 | zero copy in Syscall mode: at most a burst is out, and submission happens only when nothing is |
| SendRing.SyscallWaitsForTheOwedExactly | src/io_uring/mod.rs:173-202 | zero copy, every reachable state in Syscall mode: the completions waited for are owed if and only if the pool is full or a whole burst is outstanding; from a full pool the fill waits for as many as it asks to submit |
| SendRing.FillMovesExactly | src/io_uring/send.rs:50-83 | zero copy, every reachable state: a fill moves the lesser of the amount decided on and the room from the top of the pool to the queue, uses up the ids of as many messages, and loses one more buffer if and only if the room fell short |
| SendRing.TopupNeverWaitsForTheImpossible | src/io_uring/mod.rs:182-203 | zero copy in Topup mode: the completions waited for are owed, under the exact condition |
| UringSenders.IoUringSend.Submit | src/io_uring/send.rs:19-48 | Normal mode: stamping in one go and pushing in order does what the state machine's submission does |
| UringSenders.IoUringSend.SubmitZerocopy | src/io_uring/send.rs:50-83 | zero copy: take, stamp and push, with the index lost when a push fails, does what the state machine's submission does |
| UringSenders.UringSender.FillHalf | src/node/sender.rs:318-320 | the first half of a loop round is a step of the state machine and never fails, and submits the lesser of the amount decided on and the room |
| UringSenders.CqeMeans | src/node/sender.rs:201-222 | what one completion does, read off its result and flags: fatal if and only if negative, not -11 and not, in zero copy, -2^31; which count, which hand back the buffer, which complete a request |
| UringSenders.PassInClosedForm | src/node/sender.rs:228-294 | a pass ends the run if and only if some result is fatal; up to it omitted grows by p per -11, datagrams by p and bytes by the result per message, copied by the notifications that say so; without one, the buffers of the -11 and the notifications go back in order and the counter falls by the notifications (zero copy) or messages (Normal) |
| UringSenders.UringSender.CompleteSend | src/node/sender.rs:183-226 | Normal mode: draining the completion queue does what the state machine's reaping does, takes the queue up to the first fatal result, and fails with the text for that result; what is counted is `UringSenders.PassInClosedForm` |
| UringSenders.UringSender.CompleteSendZc | src/node/sender.rs:228-294 | zero copy: the same, with both completions of a request told apart by result and flags |
| UringSenders.UringSender.ReapHalf | src/node/sender.rs:322-333 | the second half of a loop round is a step of the state machine, and fails if and only if a completion was fatal; statistic, queue, pool and counter afterwards, read off the results and flags of the completions |
| UringSenders.UringSender.EndInterval | src/node/sender.rs:312-316 | an interval end hands the counters over and resets them, and is a step of the state machine |
| ProvidedRing.CounterNeverUnderCounts | src/node/receiver.rs:500-506 | over every run the counter is the outstanding requests plus those reaped by passes that stopped early, never underflows and never exceeds the buffer count, so the completion queue does not overflow |
| ProvidedRing.CounterIsExactUntilEarlyStop | src/node/receiver.rs:502-517 | it is the number of outstanding requests if and only if no pass has stopped early |
| ProvidedRing.SyscallStarvesAfterEarlyStop | src/io_uring/mod.rs:173-181 | after an early stop nothing is ever submitted again in Syscall mode |
| ProvidedRing.FirstMessageCanStopThePass | src/node/receiver.rs:500-517 | every ring that submits anything has a first round that stops early, in Syscall mode one after which no fill does anything |
| ProvidedRing.SyscallSubmitsExactly | src/io_uring/mod.rs:173-181 | Syscall mode submits if and only if nothing is outstanding and no pass has stopped early, and then a whole burst as far as the queue has room |
| ProvidedRing.SyscallWaitsForTheOwedExactly | src/io_uring/mod.rs:173-202 | Syscall mode waits only for owed completions if and only if nothing is counted in flight or a whole burst is outstanding |
| ProvidedRing.UringReceiver.Submit | src/io_uring/provided_buffer.rs:20-43 | pushes as many requests as asked for or as fit |
| ProvidedRing.UringReceiver.FillHalf | src/io_uring/provided_buffer.rs:46-69 | the first half of a loop round is a step of the state machine; queue and counter grow by the lesser of the amount decided on and the room |
| ProvidedRing.FateExactly | src/node/receiver.rs:285-314 | a completion is counted if and only if it brings a counted message, or is -105 or -90; -11, INIT, LAST and a panic stop the pass, other errors and too big ids end the run |
| ProvidedRing.PassInClosedForm | src/node/receiver.rs:267-318 | a pass of counted completions lowers the counter by all of them; any other ends at the first other one, and none of those taken off the queue is ever counted |
| ProvidedRing.UringReceiver.CompleteProvidedBuffers | src/node/receiver.rs:267-318 | draining the completion queue, with skipped and early-ending completions, does what the state machine's reaping does, leaves the receiver as its messages up to the first stop say, and counts the skipped ones |
| ProvidedRing.UringReceiver.ReapHalf | src/node/receiver.rs:502-517 | the second half of a loop round is a step of the state machine; queue, counter, skipped ones and the answer, read off the completions |
| Statistics.AddCommutes | src/util/statistic.rs:342-422 | merging commutes on counters, timestamps, interval ids and utilization arrays; what the sum is says `Statistics.FoldCombines` |
| Statistics.AddCombines | src/util/statistic.rs:342-422 | one more statistic: the start stays the earliest and the end the latest of all, duration and interval id the greatest, each counter and each slot of the three utilization arrays the sum |
| Statistics.FoldCombines | src/util/statistic.rs:342-422 | the same of any number of statistics added one by one |
| Counters.PlusAddsEachCounter | src/util/statistic.rs:401-418 | counters are the sum of two others if and only if each of the twelve is the sum of its counterparts |
| Statistics.AddAssociates | src/util/statistic.rs:342-422 | merging is associative on them |
| Statistics.MergeIsOrderIndependent | src/executor.rs:77-83 | any permutation of the merged statistics yields the same total |
| Statistics.MergedRatesAgreeExactly | src/util/statistic.rs:347-353 | the averaged data rate of three merges is independent of grouping if and only if one rate is zero or the outer two agree |
| Statistics.AddArrays | src/util/statistic.rs:368-373 | the loop over a utilization array computes the pointwise sum |
| Statistics.StatisticInterval.CalculateInterval | src/util/statistic.rs:66-87 | appends the next interval unless all have been put out; intervals stay numbered 1, 2, ..., within the planned number, each starting where the one before ended |
| Statistics.RunThread | src/node/sender.rs:386-410 | the first min(n, planned) pieces of a sender, min(n - 1, planned) of a receiver, become intervals, each with its counters, arrays and times; the total sums and spans these, or is the last piece from the start of the interval clock to the end; its duration is its end less its start |
| Statistics.ReportedPlusDropped | src/node/receiver.rs:667-675 | what is reported plus exactly the pieces behind the last interval is what was counted |
| Statistics.NothingIsDroppedExactly | src/node/receiver.rs:667-675 | nothing is dropped whatever was counted, if and only if no interval end was seen or every piece became an interval; never for a receiver that saw an interval end |
| Executor.RunThreadToResult | src/node/sender.rs:386-410 | what a thread returns satisfies all that the merge relies on |
| Executor.Merge | src/executor.rs:70-93 | the index read off an interval is always in range; the total starts with the earliest and ends with the latest thread, and sums each counter and each slot over all threads; so does each merged interval, numbered from 1, over all threads that have one of its number |
| Executor.EveryThreadTakesPart | src/executor.rs:77-82 | the total is taken over exactly the threads that returned, each once |
| Executor.EveryIntervalTakesPart | src/executor.rs:83-88 | an interval total is taken over exactly the intervals of that number of the threads that returned |
| Executor.IntervalTotalsAgreeWithThreadTotals | src/executor.rs:77-93 | thread totals = all interval totals + totals of the threads without intervals |
| Executor.MergedTotalsAgree | src/executor.rs:66-93 | hence the merged intervals add up to the merged total if and only if the threads without intervals counted nothing |
| CoreAffinity.CoreAffinityManager.GetCoreId | src/util/core_affinity_manager.rs:93-107 | returns the current core and moves node and core on, in machine arithmetic |
| CoreAffinity.CoreAffinityManager.SetAffinity | src/util/core_affinity_manager.rs:65-91 | call k binds to the core that choice k stands for, or fails as the lookups do; for a sender always, for a receiver in the first pass, that is core k / N (counted from the first, or the last) of node (k + 1) mod N |
| CoreAffinity.ChoiceInClosedForm | src/util/core_affinity_manager.rs:93-114 | the choice of every call, by round and position in the round |
| CoreAffinity.FirstPass | src/util/core_affinity_manager.rs:93-114 | call k of the first N*C uses node (k+1) mod N and core k / N, counted from the first core (sender) or the last (receiver), with and without NUMA |
| CoreAffinity.BoundTo | src/util/core_affinity_manager.rs:65-91 | the absolute core of every sender thread and of every receiver thread of the first pass, in closed form, with the exact case in which the lookup fails |
| CoreAffinity.ChoicesAreDistinct | src/util/core_affinity_manager.rs:93-114 | the first N*C choices are pairwise different |
| CoreAffinity.ChoicesCoverEverything | src/util/core_affinity_manager.rs:93-114 | and cover every core of every node |
| CoreAffinity.SenderRepeats | src/util/core_affinity_manager.rs:93-114 | the sender's choices repeat with period N*C, for ever |
| CoreAffinity.ReceiverRunsOut | src/util/core_affinity_manager.rs:100-103 | the receiver's core id after the first pass is 2^64 - 1 if and only if there is more than one core; with NUMA its lookup fails, without it is what the thread is to be bound to |
| CoreAffinity.ThreadsGetDifferentCores | src/util/core_affinity_manager.rs:68-82 | with disjoint nodes of equal size the first N*C threads are bound to pairwise different absolute cores |
| EndToEnd.ReportInClosedForm | src/node/receiver.rs:667-675 | everything a measurement reports, from the delivered datagrams and the places of the interval ends |
| EndToEnd.LossesAreAccountedFor | src/node/sender.rs:141-169 | every sender run, every loss and reordering, all interval ends: losses less duplicates are the datagrams sent below the highest arrival that did not arrive, and with those sent behind it they are all that was lost |
| EndToEnd.ReportIsRightExactly | src/util/mod.rs:56-79 | the report is right, without duplicates, if and only if the last datagram sent arrived and every interval kept ahead; the loss alone, if and only if made-up losses equal the trailing ones |
| EndToEnd.FullDelivery | src/util/mod.rs:56-79 | full delivery in any order: both ends at the same id, as many losses as duplicates reported, none if and only if every interval kept ahead |
| EndToEnd.LossIsOverstatedExactly | src/util/mod.rs:56-79 | with duplication as well: more losses than there are get reported if and only if the made-up ones outweigh trailing losses and extra copies; never within one interval |
| EndToEnd.IntervalEndMakesReceiverReportLoss | src/node/receiver.rs:615-623 | a receiver that gets two datagrams once each, with an interval end in between, reports a loss and a duplicate |
| EndToEnd.ZerocopyLossesAreAccountedFor | src/node/sender.rs:318-320 | zero-copy sender, every run, loss, reordering and interval end: losses less duplicates are the ids below the highest arrival never sent or lost on the way, and the ids never sent are those the sender omitted or has unanswered |
| EndToEnd.BytesCarryTheIds | src/util/mod.rs:101-130 | a receiver that parses the delivered bytes ends where the delivered ids lead |
| EndToEnd.SeveralBuffersFakeLosses | src/node/sender.rs:116-139 | after k calls of sendmsg with n buffers and full delivery the receiver reports (k-1)*(n-1)*p losses |
| EndToEnd.FakeLossesWhateverTheIntervals | src/node/sender.rs:116-139 | the same with interval ends anywhere |

## Left out

- Sockets, polling, ring creation, feature probing and `io_uring_enter`: replaced by nondeterministic answers under the contracts named above.
- `io_uring_enter` failing with a fatal error: it ends the run like a fatal completion does, after the submission.
- Wire.SetPacketIdRaw: requires the 24 header bytes; for 3 to 23 bytes the program's index test passes and it writes outside the slice, for fewer it panics.
- PacketBuffers.PacketBuffer.StampBuffer: requires room for every header; `Datagrams.PacketsFitExactly` says when that is. Otherwise creating the sender's buffers panics in `add_message_header`, before any stamping.
- PacketBuffers.PacketBuffer.AddPacketIds: requires room for every header, for the same reason.
- Receivers.Receiver.ParseType: does not model the test duration, the derived rates and the end timestamp that a LAST message sets.
- SenderStream.Sender.Run: requires the ids of the run to fit 64 bits, since the sender's id arithmetic is on unbounded numbers; the receiver's wrap-around is modelled.
- SenderStream.Sender.Sendmsg: requires the ids of one call to fit 64 bits.
- SenderStream.Sender.Sendmmsg: requires the ids of one call to fit 64 bits.
- Multishot receive, and the memory of the provided-buffer ring.
- The `send`/`recv` exchange function, which sends one datagram of a buffer that may hold several.
- Message type codes above 2, which the program reinterprets without a check, and messages shorter than a header or cut into segments shorter than a header.
- Completion results -105 and -90 in Normal receive: these errors belong to provided buffers and to truncation.
- The contents of receive buffers: a completion carries the message the kernel wrote into its buffer.
- The user data of Normal send requests, which is only logged; requests are identified by the buffer pushed.
- The bytes of a message are not tied to the packets it holds when a result reports a partial message: `SendWire.BytesSentAreCounted` and `SenderStream.BytesAreThoseAccepted` are about whole ones.
- Byte order: the program writes words in the order of the host; the model is that of a little-endian host.
- The intervals a session reports include those behind the last planned one; which of them are put out is the subject of `Statistics`.
- With several tests interleaved on one receiver thread, the results about sets of ids are left out: the expected id is shared by all tests. The lifecycle results and `Sessions.SessionConserves` hold for any tests.
- Arbitrary first core ids, which no caller passes: `CoreAffinityManager` accepts one, the closed form is about the default.
- Rates and averages other than the grouping result, CPU utilization, printing, JSON and CSV output, command-line texts and the payload pattern.
- Rounding: `ceil` on floating-point quotients of 32-bit numbers is integer division rounded up; timestamps are reals.
- The three checks of the output interval against the run time are one boolean input of `ParseParameter`.
- The vector capacity after collecting a range is taken to be its length, as the standard library allocates it; growth beyond it is doubled.
- Counters of system calls, model calls and EAGAIN answers are summed by `Add` but not advanced by the modelled loops.
