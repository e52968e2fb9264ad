# Verified model of the RS-422 / Ethernet gateway and its remote node

This project models, in Dafny 4.11, the three connected parts of the system and proves what they promise together:
bytes in, bytes out.

1. **The framed protocol** (`common/`): the bitwise CRC-16/CCITT-FALSE, the big-endian encoder and decoder, and the
   byte-stream parser that hunts for `AA 55`, rejects bad headers and resynchronises. Its generator
   x^16+x^12+x^5+1 is that of ITU-T Recommendation V.41, section 2. The CRC is tied to polynomial division over GF(2);
   the parser to a recursive reading of byte strings.
2. **The gateway** (`firmware/g474_gateway`): UART interrupts, RS422Task, EthernetTask and HealthTask, which share a
   lock-free ring, bounded queues, latched thread flags and session variables; and the recovery of its TCP server.
3. **The remote node** (`firmware/f429_remote_node`): an arbitrary byte stream in, replies and statistics out, with its
   interrupt-to-task port and ring.

The code changes state in place, and so do the models of it: `StreamParser`, `PacketBuffer`, `RemoteNode`,
`RemoteNodePort`, the two rings, `HealthMonitor`, `SharedState` and `TcpServer` are classes, and the CRC, the copy, drain
and catch-up loops are loops. Each such method is proved equal to a function of the old state; the theorems are about
those functions. What is concurrent (the rings, the port, the gateway's tasks) is also a step system on values, whose
runs interleave arbitrarily within what the scheduler allows.

| module | part |
|---|---|
| Bits, Crc16, CrcAlgebra | words and bits; the CRC loop; remainder, residue, syndrome, parity, bursts |
| Protocol | packet, encoder, decoder |
| StreamParsing, ParserRuns, ParserSpec, ParserTheorems, ErrorDetection | the parser; invariants over runs; the recursive reading; delivery, stabilisation; corrupted frames |
| RemoteNodes, RemoteNodeTheorems, RemoteNodeRequests, RemoteNodePeriodic, Quiescence | the node; its answers and statistics; duplicates; periods; two nodes wired together |
| RxRings, RemoteNodePorts, RemoteNodePass | both receive rings under interleaving; the node's port; an uninterrupted pass |
| Ticks, HealthMonitoring | wrapping deadlines; the health task |
| GatewayParts, Gateway, GatewayRuns, GatewayTasks | transmitter, session, telemetry; the step system; its runs; the tasks' loops in place |
| GatewayForwarding, GatewayCommands, GatewayTurns | which frames and commands are forwarded, and in which order; whole turns of the tasks |
| GatewayWire, GatewayOrigins, GatewayCarryOver, EndToEnd | from received bytes to datagrams; in which session a PING came; a PING that outlives its session; gateway and node together |
| TcpRecovery, TcpRuns, TcpProgress, TcpService | link and TCP server state; every run; bounded recovery; what each pass does |

## Conventions

- Bytes and words are integers with their range in the type; every counter and tick wraps where the C type wraps.
- Packets are equal when version, MSG_ID, SEQ and `payload[0..LENGTH]` are.
- Clocks, HAL results, SPI results, socket statuses and the peer are inputs of the steps that read them, and quantified
  over. A transmission of the node succeeds or fails; the frame handed over is the same either way.
- Some values carry history that the program does not store (for instance the session number of a forwarded PING, or
  deadlines without their wrap-around); no decision depends on it.
- The gateway's priorities are strict: EthernetTask moves only while RS422Task is blocked without a flag to wake it, and
  interrupts fall between any two steps.

## Where a promise needs a condition

- The CRC does not see every corruption: exactly the multiples of the generator pass (`CorruptionIsSeenUnlessMultiple`).
- HealthTask judges by the last frame's age modulo 2^32 (`VerdictExactly`). It reads the clock before the frame's tick,
  so a frame in between looks like a silence of nearly 2^32 ticks (`FreshFrameCanLookLikeTimeout`), and a silence of
  2^32 ticks looks like none (`LongSilenceCanLookLikeRecovery`).
- Inside a transmission, RS422Task may sleep with bytes in the ring and no flag set: `TransmitWaitHoldsBytesIff` says
  exactly when, `TxWaitMayHoldBytesWithoutFlag` is a run, and `OnlyTheTransmitWaitHoldsBytes` that neither its wait
  forever nor the bring-up's wait for a PONG does, and that the end of the transmission wakes it.
- A TCP restart is tried only when the 32-bit test calls it due (`DueExactly`); overdue by 2^31 ticks up to 2^32 it looks
  ahead instead. `ServerComesBack` has that guard, `OverdueRestartCanBeMissed` is a run into it,
  `NothingIsTriedBeforeDue` says what it costs, and `OutageIsBounded` bounds the outage without it.
- A response answers a PING *forwarded* in its own session. The command queue is not flushed when a session ends, so the
  PING may have been received in an earlier one (`PingMayOutliveItsSession`), namely when it was still queued as a later
  session began, and only then (`ResponsesComeFromNoLaterSession`).
- Resynchronisation looks at the end of a rejected header only: a frame that begins inside one is found if and only if
  it begins in its last two bytes (`FrameInRejectedHeader`).
- Two nodes fall silent (`PairFallsSilent`) if each transmission goes out whole or not at all. A UART transmission that
  times out midway leaves a prefix of its frame on the line (`remote_node_port.c:23-37`), and what the peer makes of
  such a prefix and the frames after it is not covered.

Where documents and code differ, the code is followed: `docs/protocol_v1.md:346-369` sketches a status payload with
`device_state` and `seq_gap_count`; the node sends uptime, valid, parser-error and CRC-error counts, the last SEQ and the
communication status (`remote_node.c:138-150`), and counts duplicates rather than gaps.

## Model

| member | source | states |
|---|---|---|
| `Crc16.Crc16CcittFalse` | common/crc16.c:3-30 | The two loops return the CRC of exactly the bytes given, and that value, as bits, is what a 16-bit shift register preset to ones holds after dividing the message |
| `Crc16.CrcDivides` | common/crc16.c:12-27 | For every byte string the CRC is the register after long division, bit by bit, by x^16+x^12+x^5+1 |
| `Crc16.DivideLinear` | common/crc16.c:12-27 | The division is linear over GF(2): registers and messages may be added before or after it |
| `Crc16.DivideConcat` | common/crc16.c:12-27 | Dividing a concatenation is dividing its parts one after the other |
| `Crc16.DivideZerosInjective` | common/crc16.c:16-26 | Shifting in any number of zero bits loses nothing: different registers stay different |
| `CrcAlgebra.RemainderIsUnique` | common/crc16.c:12-27 | Quotient and remainder of a polynomial division over GF(2) are determined by the dividend, for any monic divisor |
| `CrcAlgebra.CrcIsTheRemainder` | common/crc16.c:3-30 | A 16-bit word is the CRC of a message if and only if it is the polynomial remainder of the message times x^16, with the preset added to its front, modulo the generator |
| `CrcAlgebra.CrcOfThree` | common/crc16.c:3-30 | CRCs of equally long strings add: the CRC of a+b+c is the sum of the three CRCs (a constant preset cancels only in odd sums) |
| `CrcAlgebra.ZeroResidue` | common/crc16.c:3-30 | A message followed by a big-endian word has CRC 0 if and only if the word is the message's CRC |
| `CrcAlgebra.CheckPassesIff` | common/protocol.c:129-139 | After any corruption of message and check word, the check passes if and only if the syndrome of the error alone is zero |
| `CrcAlgebra.DivideKeepsParity` | common/crc16.c:12-27 | The register's parity is the parity of what was fed: the generator has an even number of terms |
| `CrcAlgebra.OddErrorIsCaught` | common/crc16.c:12-27 | An error of an odd number of bits has a syndrome other than zero |
| `CrcAlgebra.BurstIsCaught` | common/crc16.c:12-27 | An error confined to 16 consecutive bits has a syndrome other than zero |
| `Protocol.Encode` | common/protocol.c:24-85 | Exactly when each error is returned; on success the frame is written over the front of the buffer and nothing else changes; on failure nothing changes and the length is 0 |
| `Protocol.Decode` | common/protocol.c:87-152 | The verdict is that of DecodeResult on the given bytes; on success the packet holds the decoded fields and the payload array beyond LENGTH is untouched; on failure the packet is unchanged |
| `Protocol.WriteFields` | common/protocol.c:57-70 | Header and payload land in wire order in front of what the buffer held |
| `Protocol.CheckFrame` | common/protocol.c:97-139 | The checks come in the source's order and each error names the first that fails |
| `Protocol.WriteU16Be` | common/protocol.c:13-17 | Two bytes, high byte first, the rest of the array unchanged |
| `Protocol.ReadU16Be` | common/protocol.c:19-22 | Reads what WriteU16Be writes |
| `Protocol.EncodedLayout` | common/protocol.c:57-81 | Where each field of a frame is found, and that the CRC covers everything between MAGIC and itself |
| `Protocol.DecodeAcceptsExactlyEncoded` | common/protocol.c:24-152 | Bytes are accepted and decode to p if and only if they are the encoding of p |
| `Protocol.RoundTrip` | common/protocol.c:24-152 | Decoding an encoded packet succeeds and gives the packet back |
| `Protocol.EncodedInjective` | common/protocol.c:24-85 | Different packets have different frames |
| `Protocol.Be16IsBigEndian` | common/protocol.c:13-22 | The two bytes of a word, read back most significant first, give the word; so does reading it in the model |
| `Protocol.Be32IsBigEndian` | firmware/f429_remote_node/App/Src/remote_node.c:11-17 | The four bytes of a 32-bit word, summed with weights 2^24, 2^16, 2^8 and 1, give the word |
| `Protocol.DecodeErrorsExactly` | common/protocol.c:97-139 | Each error is reported exactly when its own check fails and every check before it passes |
| `StreamParsing.StreamParser.constructor` | common/stream_parser.c:56-66 | A new parser hunts, with nothing buffered and all counters zero |
| `StreamParsing.StreamParser.Reinitialize` | common/stream_parser.c:56-66 | Initialising again gives the state of a new parser |
| `StreamParsing.StreamParser.Reset` | common/stream_parser.c:68-79 | Back to hunting; counters are kept |
| `StreamParsing.StreamParser.Resync` | common/stream_parser.c:26-54 | Keeps AA 55 or AA from the end of the rejected bytes and continues in the matching state |
| `StreamParsing.StreamParser.Feed` | common/stream_parser.c:81-259 | One byte moves the structure, array and counters as the value-level parser moves; the event, the packet and the last error agree, and the packet is written only for a frame |
| `StreamParsing.StreamParser.FeedHeaderByte` | common/stream_parser.c:137-190 | The header state, including its defensive branch |
| `StreamParsing.StreamParser.FeedRestByte` | common/stream_parser.c:192-251 | The payload-and-CRC state, including its defensive branches |
| `StreamParsing.StreamParser.Finish` | common/stream_parser.c:215-250 | A complete candidate is decoded; success, CRC error and any other error are counted apart and the parser hunts again |
| `ParserRuns.StepFromInv` | common/stream_parser.c:81-259 | From every consistent state one byte leads to a consistent state, by one of the steps a sound parser may take: the defensive branches are never entered and a complete candidate gives a frame or a CRC error |
| `ParserRuns.KeptTailIsLongest` | common/stream_parser.c:26-54 | What resynchronisation keeps is the longest suffix of the rejected bytes that is a prefix of AA 55 |
| `ParserRuns.RunConcat` | common/stream_parser.c:81-259 | Feeding two strings one after the other is feeding their concatenation |
| `ParserRuns.RunKeepsInv` | common/stream_parser.c:81-259 | Every reachable state is consistent: the buffer holds the last bytes fed and the expected length is that of the buffered LENGTH |
| `ParserRuns.BytesAreConserved` | common/stream_parser.c:93-251 | For every byte string: bytes fed = discarded + buffered + in accepted frames + in CRC-rejected frames + (8 - kept) per rejected header; the four counters are these numbers modulo 2^32 |
| `ParserRuns.ErrorsAreCounted` | common/stream_parser.c:137-251 | For every byte string the parser's CRC-error and format-error counters add up to the number of ERROR events reported, modulo 2^32 |
| `ParserRuns.FramesAreDisjointImages` | common/stream_parser.c:192-251 | Each FRAME's packet p stands for the last 10+LENGTH bytes fed, which equal the encoding of p, and the ranges of different FRAMEs do not overlap |
| `ParserSpec.HuntFindsTheFirst` | common/stream_parser.c:93-135 | Hunting skips to the first AA 55, or the trailing AA, and not past it |
| `ParserSpec.ReadResumes` | common/stream_parser.c:26-54 | Reading a string in two parts, carrying over only what is open, is reading it whole |
| `ParserSpec.ParserReads` | common/stream_parser.c:81-259 | From every consistent state and for every byte string, the byte-wise parser reports what the recursive reading of (buffered + fed) reports, and holds what that reading leaves open |
| `ParserTheorems.DeliveryThroughNoise` | common/stream_parser.c:93-251 | Frames between gaps free of AA 55 (a gap may end in AA), however chunked, give exactly their packets in order and no ERROR |
| `ParserTheorems.NoiseIsReadThrough` | common/stream_parser.c:93-135 | The same for the recursive reading; at most a trailing AA stays open |
| `ParserTheorems.ChunkingIsInvisible` | firmware/g474_gateway/Core/Src/main.c:1334-1348 | How a stream is cut into chunks changes neither state nor events |
| `ParserTheorems.DistanceFalls` | common/stream_parser.c:91-251 | A byte other than AA brings every consistent parser one step nearer to hunting |
| `ParserTheorems.Stabilises` | common/stream_parser.c:91-251 | From every consistent state, any 265 or more bytes other than AA leave the parser hunting, and the next encoded frame is then delivered |
| `ParserTheorems.NoSmallerBoundStabilises` | common/stream_parser.c:91-251 | 265 is the least such bound: for every smaller number, that many bytes other than AA after which a parser fed AA before is still inside a candidate |
| `ParserTheorems.FrameInRejectedHeader` | common/stream_parser.c:26-54 | A frame, of any payload, that begins inside a header rejected for its VERSION or its LENGTH is reported if and only if it begins in the last two of the eight bytes |
| `ErrorDetection.CorruptedFrame` | common/protocol.c:129-139 | A frame corrupted outside MAGIC, VERSION and LENGTH is still framed, and is accepted if and only if the error's syndrome is zero |
| `ErrorDetection.CorruptionIsReportedAndSurvived` | common/stream_parser.c:190-251 | Such corruption by an odd number of bit flips, or by a burst of at most 16 bits, gives exactly one CRC error and no frame, and the next clean frame is delivered |
| `ErrorDetection.CorruptionIsSeenUnlessMultiple` | common/stream_parser.c:190-251 | Exactly which corruptions pass: those that, as polynomials, are multiples of the generator |
| `RemoteNodes.RemoteNode.Send` | firmware/f429_remote_node/App/Src/remote_node.c:29-56 | The frame handed over is the packet's encoding; a failure is counted and shows in comm_status |
| `RemoteNodes.RemoteNode.SendError` | firmware/f429_remote_node/App/Src/remote_node.c:58-75 | An ERROR with the request's SEQ, the code and the offending MSG_ID |
| `RemoteNodes.RemoteNode.Remember` | firmware/f429_remote_node/App/Src/remote_node.c:77-91 | A request equal in MSG_ID and SEQ to the one remembered is counted; the request is remembered |
| `RemoteNodes.RemoteNode.SendPong` | firmware/f429_remote_node/App/Src/remote_node.c:111-117 | A PONG with the request's SEQ and no payload |
| `RemoteNodes.RemoteNode.SendStatus` | firmware/f429_remote_node/App/Src/remote_node.c:138-152 | A STATUS_RESP that carries the statistics of that moment |
| `RemoteNodes.WriteStatus` | firmware/f429_remote_node/App/Src/remote_node.c:144-150 | The twenty status bytes, field by field in wire order |
| `RemoteNodes.RemoteNode.Handle` | firmware/f429_remote_node/App/Src/remote_node.c:155-201 | Dispatch of one packet: the statistics, the remembered request and the frames handed over |
| `RemoteNodes.RemoteNode.Process` | firmware/f429_remote_node/App/Src/remote_node.c:228-255 | One byte through parser, dispatch and error statistics |
| `RemoteNodes.RemoteNode.ProcessAll` | firmware/f429_remote_node/App/Src/remote_node.c:257-273 | The byte loop handles every byte, in order |
| `RemoteNodes.RemoteNode.Periodic` | firmware/f429_remote_node/App/Src/remote_node.c:275-317 | TELEMETRY, then HEARTBEAT, each if its period has elapsed by unsigned subtraction |
| `RemoteNodes.RemoteNode.NoteOverflow` | firmware/f429_remote_node/App/Src/remote_node.c:327-334 | An overflow is counted and shows in comm_status |
| `RemoteNodes.RemoteNode.NoteError` | firmware/f429_remote_node/App/Src/remote_node.c:336-343 | A UART error is counted and shows in comm_status |
| `RemoteNodes.RemoteNode.SetStatusFlags` | firmware/f429_remote_node/App/Src/remote_node.c:319-325 | Only the flags change |
| `RemoteNodes.RemoteNode.constructor` | firmware/f429_remote_node/App/Src/remote_node.c:203-226 | Counters zero, timers at the present, nothing remembered |
| `RemoteNodeTheorems.NodeAnswersStream` | firmware/f429_remote_node/App/Src/remote_node.c:155-273 | For every byte stream, the frames handed over are the answers, stated independently of the dispatch, to the packets parsed, in order; valid, CRC and format counts are those of the parser's events |
| `RemoteNodeTheorems.EachPacketIsAnsweredOnce` | firmware/f429_remote_node/App/Src/remote_node.c:93-201 | Exactly one valid frame per parsed packet other than ERROR, with that packet's SEQ and the reply type it calls for; none for ERROR |
| `RemoteNodeTheorems.StatisticsAgree` | firmware/f429_remote_node/App/Src/remote_node.c:29-56 | In every reachable state, under any mix of bytes, periodic passes, overflows and UART errors: valid, CRC and format counts equal the parser's own, the fault counters count the faults modulo 2^32, and comm_status is COMM_ERROR exactly when a fault has occurred |
| `RemoteNodeTheorems.StatusFrameFields` | firmware/f429_remote_node/App/Src/remote_node.c:138-152 | The fields of a status response, read back from its frame: MSG_ID 0x90, the request's SEQ, the time, the counts of valid frames, format and CRC errors, the SEQ last received, the communication status, and a zero |
| `RemoteNodeTheorems.ErrorStatusIsVisible` | firmware/f429_remote_node/App/Src/remote_node.c:327-343 | Until a counter wraps, COMM_ERROR is reported exactly when a fault counter is not zero |
| `RemoteNodeRequests.DuplicatesAreCounted` | firmware/f429_remote_node/App/Src/remote_node.c:77-201 | After any bytes, the duplicate counter is the number of valid requests that repeat the request directly before them, and the unknown counter the number of frames with an unassigned MSG_ID, modulo 2^32 |
| `RemoteNodePeriodic.PeriodsAreKept` | firmware/f429_remote_node/App/Src/remote_node.c:275-325 | With passes at most `gap` ms apart, whatever is received in between and however the clock wraps: TELEMETRY frames are 100 to 100+gap ms apart and HEARTBEATs 500 to 500+gap, none is owed after a pass, and the k-th carries SEQ k, its time and, for TELEMETRY, the flags last set |
| `RemoteNodePeriodic.TelemetryFields` | firmware/f429_remote_node/App/Src/remote_node.c:293-300 | Those fields read back from the k-th TELEMETRY frame, byte offsets and order included |
| `RemoteNodePeriodic.HeartbeatFields` | firmware/f429_remote_node/App/Src/remote_node.c:309-315 | Likewise for the k-th HEARTBEAT |
| `Quiescence.HandleRepliesBelow` | firmware/f429_remote_node/App/Src/remote_node.c:93-201 | The reply to a packet ranks strictly below it (valid request 2, ERROR 0, all else 1) |
| `Quiescence.ChainsAreShort` | firmware/f429_remote_node/App/Src/remote_node.c:155-201 | A chain of replies to replies has at most three frames |
| `Quiescence.DeliveryLowersPotential` | firmware/f429_remote_node/App/Src/remote_node.c:228-255 | Two nodes back to back: delivering any byte, on either side, lowers a potential by at least one |
| `Quiescence.PairFallsSilent` | firmware/f429_remote_node/App/Src/remote_node.c:228-273 | Two nodes back to back with only whole frames in flight: under every interleaving, each transmission going out whole or not at all, the number of bytes ever delivered is bounded, and the line ends silent |
| `RxRings.PushAppends` | firmware/g474_gateway/Core/Src/main.c:2123-2137 | A push appends to the contents, or leaves the ring as it is when full, across index wrap-around, for both ring forms |
| `RxRings.PopTakesFirst` | firmware/g474_gateway/Core/Src/main.c:2139-2153 | A pop takes the first of the contents, across index wrap-around, for both ring forms |
| `RxRings.StepRefinesFifo` | firmware/f429_remote_node/App/Src/uart_rx_ring.c:14-58 | With pushes falling between the sub-steps of a pop, each step of either ring is a step of one bounded FIFO (capacity 512 free-running, 511 compare-wrapped) or none |
| `RxRings.RingsNeverLoseCount` | firmware/g474_gateway/Core/Src/main.c:2123-2153 | In every interleaving, what comes out is a prefix of what went in, and attempts = popped + occupancy + dropped |
| `RxRings.GatewayRxRing.PushFromIsr` | firmware/g474_gateway/Core/Src/main.c:2123-2137 | 512 slots and free-running 16-bit indices: the byte is appended or the overflow counted |
| `RxRings.GatewayRxRing.Pop` | firmware/g474_gateway/Core/Src/main.c:2139-2153 | The oldest byte, if there is one |
| `RxRings.UartRxRing.PushFromIsr` | firmware/f429_remote_node/App/Src/uart_rx_ring.c:14-37 | 512 slots, one kept empty: the byte is appended or refused |
| `RxRings.UartRxRing.Pop` | firmware/f429_remote_node/App/Src/uart_rx_ring.c:39-58 | The oldest byte, if there is one |
| `RxRings.UninterruptedPop` | firmware/f429_remote_node/App/Src/uart_rx_ring.c:39-58 | A pop that nothing interrupts takes the oldest byte in three steps, and takes nothing from an empty ring, for both rings |
| `RemoteNodePorts.PortStepKeepsConsistent` | firmware/f429_remote_node/App/Src/remote_node_port.c:61-122 | Every interrupt and every step of the task, in any interleaving, keeps bytes, overflows and UART errors accounted for |
| `RemoteNodePorts.NothingIsLostUncounted` | firmware/f429_remote_node/App/Src/remote_node_port.c:68-122 | In every run: the receptions that happened = bytes processed + in hand + in the ring + dropped; the drops, and the UART faults that happened, = counted + in hand + pending, modulo 2^32; the parser is where the processed bytes put it |
| `RemoteNodePorts.HistoryIsTrue` | firmware/f429_remote_node/App/Src/remote_node_port.c:99-122 | The receptions and UART faults in those accounts are the completion and error callbacks that occurred, counted from the sequence of events itself |
| `RemoteNodePass.PassProcessesEverything` | firmware/f429_remote_node/App/Src/remote_node_port.c:61-97 | From the start of a pass that nothing interrupts the task comes back to the start, with every pending overflow and error noted, every byte in the ring put through the node in order, and the periodic work done |
| `RemoteNodePorts.PortAnswersBytes` | firmware/f429_remote_node/App/Src/remote_node_port.c:91-94 | In every run, the frames handed over for bytes are the answers, one each and in order, to the packets parsed from the bytes processed |
| `RemoteNodePorts.RemoteNodePort.RxComplete` | firmware/f429_remote_node/App/Src/remote_node_port.c:99-113 | The callback stores the byte or notes the overflow, and notes a failed re-arm |
| `RemoteNodePorts.RemoteNodePort.Process` | firmware/f429_remote_node/App/Src/remote_node_port.c:61-97 | Without interruption: the pending counts are transferred, the ring is drained through the node in order, then the periodic work is done |
| `RemoteNodePorts.RemoteNodePort.NoteAll` | firmware/f429_remote_node/App/Src/remote_node_port.c:80-89 | The two loops note each overflow and each error once |
| `RemoteNodePorts.RemoteNodePort.Drain` | firmware/f429_remote_node/App/Src/remote_node_port.c:91-94 | The loop empties the ring through the node in order |
| `Ticks.MsAreTicks` | firmware/g474_gateway/Core/Src/main.c:2155-2167 | At 1000 Hz the rounding-up conversion is the identity, except that 0 ms is one tick |
| `Ticks.TicksRoundUp` | firmware/g474_gateway/Core/Src/main.c:2155-2167 | At any tick frequency the conversion gives the fewest ticks that last as long, and at least one, as long as they fit in 32 bits |
| `Ticks.CatchUp` | firmware/g474_gateway/Core/Src/main.c:3744-3749 | For any tick values with an overdue deadline and a period of 1 to 2^31 the do-while loop ends with 0 < next - now <= period, having advanced by the least whole number of periods that suffices |
| `Ticks.WaitEndsAtEarlierDeadline` | firmware/g474_gateway/Core/Src/main.c:3922-3932 | The wait ends exactly at the earlier of two deadlines ahead, and is zero when one is due |
| `HealthMonitoring.HealthMonitor.OnWake` | firmware/g474_gateway/Core/Src/main.c:3979-4037 | One wake moves state and counters as the value-level rule says |
| `HealthMonitoring.TimeoutsMatchRecoveries` | firmware/g474_gateway/Core/Src/main.c:3984-4037 | In every run timeouts = recoveries + 1 while in TIMEOUT, modulo 2^32 |
| `HealthMonitoring.TransitionsAreCounted` | firmware/g474_gateway/Core/Src/main.c:3984-4037 | In every run, modulo 2^32, the timeouts are the wakes that enter TIMEOUT and the recoveries those that go from TIMEOUT to OK, counted from the states before and after each wake |
| `HealthMonitoring.InitIsNeverReentered` | firmware/g474_gateway/Core/Src/main.c:3984-4037 | INIT, once left, is left for good |
| `HealthMonitoring.VerdictExactly` | firmware/g474_gateway/Core/Src/main.c:3979-4020 | For all times: TIMEOUT if and only if the age of the last frame modulo 2^32 is at least 1500, OK if and only if it is less |
| `HealthMonitoring.FreshFrameCanLookLikeTimeout` | firmware/g474_gateway/Core/Src/main.c:3979-3982 | A frame that arrives between the two readings makes a healthy link look timed out: the concrete case |
| `HealthMonitoring.LongSilenceCanLookLikeRecovery` | firmware/g474_gateway/Core/Src/main.c:3984-4020 | A silence of 2^32 + 100 ticks ends a timeout and is counted as a recovery: the concrete case |
| `HealthMonitoring.NoFrameIsJudgedByUptime` | firmware/g474_gateway/Core/Src/main.c:4022-4034 | Without any frame since start-up, every wake reports INIT before 1500 ticks and TIMEOUT from then on, for ever |
| `HealthMonitoring.SilenceIsJudgedByAge` | firmware/g474_gateway/Core/Src/main.c:3979-4037 | During a silence shorter than 2^32 ticks each wake reports by the age of the last frame |
| `HealthMonitoring.LossIsDetectedInTime` | firmware/g474_gateway/Core/Src/main.c:3966-4037 | With wakes every 100 ticks, a lasting silence is detected 1500 to 1599 ticks after the last frame: OK before that wake, TIMEOUT from it on |
| `GatewayRuns.NoLostWakeUp` | firmware/g474_gateway/Core/Src/main.c:2515-2584 | In every run, while RS422Task is in its wait forever: bytes in the ring imply that the RX flag is set, queued commands that CMD_READY is set or that EthernetTask is between put and set, although flags are also consumed inside the transmit wait |
| `GatewayRuns.AlwaysWakeful` | firmware/g474_gateway/Core/Src/main.c:3295-3325 | The invariant behind it, in every reachable state |
| `GatewayRuns.OnlyTheTransmitWaitHoldsBytes` | firmware/g474_gateway/Core/Src/main.c:2515-2584 | In every run, a task asleep with bytes in the ring and the RX flag clear is in the wait inside a transmission, and that transmission is still going out or its completion is flagged; the wait forever and the bring-up's wait for a PONG never hold bytes so |
| `GatewayRuns.TransmitWaitHoldsBytesIff` | firmware/g474_gateway/Core/Src/main.c:2534-2580 | Exactly when, in every run: the last poll of that wait took the flags while the ring was not empty, and neither a byte nor a UART error has come since |
| `GatewayRuns.TxWaitMayHoldBytesWithoutFlag` | firmware/g474_gateway/Core/Src/main.c:2536-2570 | It does happen, with no flag at all: a run |
| `GatewayRuns.LineCarriesWholeFrames` | firmware/g474_gateway/Core/Src/main.c:2596-2642 | In every run, timeouts and errors included, the bytes on RS-422 are whole encoded frames plus at most one prefix of the frame in the buffer; started = completed + busy; no completion is noticed for nothing |
| `GatewayRuns.BufferIsNotWrittenInFlight` | firmware/g474_gateway/Core/Src/main.c:2756-2813 | While the peripheral is sending, no step of any run writes the transmit buffer |
| `GatewayRuns.ClosedSessionIsClean` | firmware/g474_gateway/Core/Src/main.c:1453-1512 | In every run, between EthernetTask's sequences, no active session means no PING pending and an empty response queue |
| `GatewayRuns.EveryPongAnswersItsOwnSession` | firmware/g474_gateway/Core/Src/main.c:2441-2483 | In every run, each response given to TCP is a PONG with the SEQ of a PING forwarded to RS-422 in that same session, and no two answer the same forwarded PING |
| `GatewayRuns.SessionAlwaysSound` | firmware/g474_gateway/Core/Src/main.c:3799-3836 | The invariant behind both, in every reachable state |
| `GatewayRuns.DatagramsAreReceivedFrames` | firmware/g474_gateway/Core/Src/main.c:2078-2121 | In every run, each datagram equals one of the frames noted as received, in order and without repetition; encoding never fails; enqueued - dequeued = queue length <= 4 |
| `GatewayForwarding.ForwardingFollowsBringUp` | firmware/g474_gateway/Core/Src/main.c:3282-3292 | In every run, telemetry is forwarded if and only if the bring-up test is over or was never begun |
| `GatewayForwarding.TelemetryIsForwarded` | firmware/g474_gateway/Core/Src/main.c:2412-2432 | In every run: the frames taken from the telemetry queue followed by those in it are, in order, exactly the TELEMETRY frames completed after the bring-up with fewer than four queued; and the datagrams are, in order, exactly the frames taken that the socket accepted |
| `GatewayTurns.TelemetryTurn` | firmware/g474_gateway/Core/Src/main.c:3857-3876 | From any state, a telemetry turn of EthernetTask takes the two oldest frames queued (one, if the socket refuses the first), and touches nothing else |
| `GatewayCommands.CommandsKeepTheirOrder` | firmware/g474_gateway/Core/Src/main.c:3299-3307 | In every run, the commands taken up for forwarding, followed by those queued, are those accepted from TCP, in order |
| `GatewayCommands.TransmissionsAreInOrder` | firmware/g474_gateway/Core/Src/main.c:2745-2845 | In every run, each frame started on RS-422 is a bring-up PING, whose SEQ is its number from 1 to 100, or a command accepted from TCP; no two come from the same test or command; tests come first and in order, then commands in the order accepted |
| `GatewayCommands.EveryTestIsBegun` | firmware/g474_gateway/Core/Src/main.c:2711-2735 | In every run, each bring-up test up to the one under way was begun, and all 100 were once the bring-up is over |
| `GatewayTurns.AlwaysAttended` | firmware/g474_gateway/Core/Src/main.c:2815-2845 | In every run: while the line is busy, a PONG is awaited only with RS422Task waiting for a command's transmission to end; once the transmission is given up, for whatever reason, no PONG is awaited; and none is during the bring-up |
| `GatewayTurns.LineWaitEndsIff` | firmware/g474_gateway/Core/Src/main.c:2525-2583 | A wait for the line is left exactly when the completion has been noticed or the wait was given up, and given up exactly on a kernel error or when its time is up with the line busy and no flag to take |
| `GatewayTurns.PongWaitEndsIff` | firmware/g474_gateway/Core/Src/main.c:2659-2696 | The bring-up's wait for a PONG is left exactly when it is over or the kernel fails, and a flag that is set is taken first |
| `GatewayTurns.EthSparesPending` | firmware/g474_gateway/Core/Src/main.c:1499-1512 | No step of EthernetTask changes whether a PONG is awaited, or which: a session that ends asks RS422Task to |
| `GatewayTurns.SessionTurn` | firmware/g474_gateway/Core/Src/main.c:3799-3809 | From any state without a session, beginning one drops every response queued, up to eight, then activates it, and touches nothing else |
| `GatewayTurns.ResponseTurn` | firmware/g474_gateway/Core/Src/main.c:1475-1497 | From any state, a response turn serves every response queued, in order, and leaves the queue empty |
| `GatewayForwarding.ResponseServed` | firmware/g474_gateway/Core/Src/main.c:1484-1495 | Each operation of that turn takes the oldest response, which is given to TCP if and only if TCP accepts it |
| `GatewayWire.AlwaysWired` | firmware/g474_gateway/Core/Src/main.c:2376-2432 | In every run, the parser is where the bytes taken from the ring put it, and the frames noted as received are the encodings of the TELEMETRY packets it reported, in order |
| `GatewayWire.PoppedThenWaiting` | firmware/g474_gateway/Core/Src/main.c:2123-2153 | In every run, the bytes taken from the ring followed by those still in it are the bytes the ring took |
| `GatewayWire.DatagramsAreWireFrames` | firmware/g474_gateway/Core/Src/main.c:2078-2121 | In every run, each datagram is a valid TELEMETRY frame and a stretch of the bytes taken from the ring; stretches of different datagrams do not overlap and come in the order of the datagrams |
| `GatewayOrigins.ResponsesComeFromNoLaterSession` | firmware/g474_gateway/Core/Src/main.c:1227-1272 | In every run, the PING behind each response is a command accepted from TCP with the response's SEQ, received in the response's session or an earlier one; in an earlier one if and only if it was still queued when a later session began, and never if the queue was empty whenever a session began |
| `GatewayCarryOver.PingMayOutliveItsSession` | firmware/g474_gateway/Core/Src/main.c:3799-3836 | It does happen: a run in which a response given to TCP in the second session answers a PING received in the first |
| `GatewayRuns.TelemetryAlwaysSound` | firmware/g474_gateway/Core/Src/main.c:3857-3876 | The invariant behind it, in every reachable state |
| `GatewayParts.StartKeeps` | firmware/g474_gateway/Core/Src/main.c:2622-2642 | Starting a transmission with the frame in the buffer and the line idle keeps the line's account |
| `GatewayParts.NoticeKeeps` | firmware/g474_gateway/Core/Src/main.c:2499-2513 | Noticing a completion keeps it |
| `GatewayParts.OfferKeepsTraceable` | firmware/g474_gateway/Core/Src/main.c:2441-2483 | A PONG offered to the session keeps every queued response traceable to its own PING |
| `GatewayParts.NewSessionKeepsTraceable` | firmware/g474_gateway/Core/Src/main.c:3799-3809 | A session may begin when nothing of the old one is left |
| `GatewayParts.ForwardKeepsTransparent` | firmware/g474_gateway/Core/Src/main.c:2078-2121 | Forwarding a queued packet keeps datagrams copies of received frames, in order |
| `GatewayTasks.SharedState.ProcessRxBuffer` | firmware/g474_gateway/Core/Src/main.c:2376-2488 | The loop empties the ring, in order, through parser, telemetry queue and PONG matching |
| `GatewayTasks.SharedState.HandleValidFrame` | firmware/g474_gateway/Core/Src/main.c:2412-2483 | What a valid frame does to the two queues and the pending PING |
| `GatewayTasks.SharedState.HandleFlags` | firmware/g474_gateway/Core/Src/main.c:2490-2513 | The two flag handlers |
| `GatewayTasks.SharedState.DiscardStaleResponses` | firmware/g474_gateway/Core/Src/main.c:1453-1473 | The loop drops at most eight responses, and so empties the queue |
| `GatewayTasks.SharedState.ServeResponses` | firmware/g474_gateway/Core/Src/main.c:1475-1497 | The loop gives at most eight responses to TCP, in order |
| `GatewayTasks.SharedState.ForwardPacket` | firmware/g474_gateway/Core/Src/main.c:2756-2813 | A command is refused while busy or without a frame, or the transmit buffer is filled and the UART started; a PING in an active session becomes the pending one, and is forgotten again when the start fails |
| `GatewayTasks.CommandIsForwarded` | firmware/g474_gateway/Core/Src/main.c:2756-2813 | Left alone by interrupts, the step system forwards a command with exactly that effect and then waits or goes on |
| `GatewayTasks.DrainEmptiesRing` | firmware/g474_gateway/Core/Src/main.c:2376-2488 | Left alone by interrupts, the step system drains the ring with the effect of that loop and goes on |
| `EndToEnd.NodeAnswersPing` | firmware/f429_remote_node/App/Src/remote_node.c:93-118 | Whatever a node's state, an intact PING without payload makes it hand over exactly that PING's PONG |
| `EndToEnd.ReceiverTakesFrame` | firmware/g474_gateway/Core/Src/main.c:2376-2488 | An intact frame reaches the telemetry queue and the session as its packet, and nothing else does |
| `EndToEnd.WaitEndsIffAnswerHeard` | firmware/g474_gateway/Core/Src/main.c:2441-2483 | In every run along which the session stands, from any state with a PING pending: the wait ends if and only if a PONG with its SEQ is among the frames parsed from the bytes taken; one such PONG is then offered to the session as it was, and until then the session is kept |
| `EndToEnd.PingComesBack` | firmware/g474_gateway/Core/Src/main.c:2745-2845 | A forwarded PING goes out as its frame; any node that receives it intact hands over exactly its PONG; and in every run of the gateway from there, however bytes arrive and the task is woken and interrupted, while the session stands and that PONG's frame is on the line between gaps and other frames, some step queues it (or drops it, the queue being full) as the answer to that PING in that session, which then waits no more |
| `TcpRecovery.TcpServer.constructor` | firmware/g474_gateway/Core/Src/main.c:3443-3450 | The state in which the loop is entered, after the first start of the server |
| `TcpRecovery.TcpServer.WaitForStatus` | firmware/g474_gateway/Core/Src/main.c:1353-1387 | The polling loop: it stops at the first failed read, expected status or elapsed timeout, leaving the last status read and whether the wait succeeded |
| `TcpRecovery.WaitReachesIff` | firmware/g474_gateway/Core/Src/main.c:1362-1386 | A wait succeeds if and only if some poll reads the expected status and every poll before it read another one before the timeout |
| `TcpRecovery.TcpServer.Listen` | firmware/g474_gateway/Core/Src/main.c:1389-1409 | LISTEN, then the wait |
| `TcpRecovery.TcpServer.Start` | firmware/g474_gateway/Core/Src/main.c:1411-1451 | Mode, port, OPEN, wait, LISTEN, wait; stops at the first failure |
| `TcpRecovery.TcpServer.Restart` | firmware/g474_gateway/Core/Src/main.c:1514-1537 | CLOSE, wait, then a start; stops at the first failure |
| `TcpRecovery.TcpServer.ReadLink` | firmware/g474_gateway/Core/Src/main.c:3520-3573 | The link part of a control pass: first sample, loss, return |
| `TcpRecovery.TcpServer.Serve` | firmware/g474_gateway/Core/Src/main.c:3575-3742 | The server part: a pending restart when due, otherwise by the sampled status |
| `TcpRecovery.TcpServer.Follow` | firmware/g474_gateway/Core/Src/main.c:3634-3739 | What each sampled status leads to when no restart is pending |
| `TcpRecovery.TcpServer.ReadSocket` | firmware/g474_gateway/Core/Src/main.c:3775-3801 | The data service's reading, which restarts the state's clock when the state has changed |
| `TcpRuns.LossesMatchRecoveries` | firmware/g474_gateway/Core/Src/main.c:3529-3570 | In every run link losses = link recoveries + 1 while a link once up is down, modulo 2^32, and then a recovery is pending |
| `TcpService.EdgesAreCounted` | firmware/g474_gateway/Core/Src/main.c:3520-3571 | In every run the two link counters count, modulo 2^32, the losses read and the returns of a link that had been up before, and the link is taken to be as last read |
| `TcpService.LossOfLinkLeavesRecovery` | firmware/g474_gateway/Core/Src/main.c:3540-3554 | A loss leaves a recovery pending, withdraws every other plan, and makes the state's clock start anew |
| `TcpService.ReturnOfLinkRestartsAtOnce` | firmware/g474_gateway/Core/Src/main.c:3555-3601 | When the link returns, or comes up for the first time with a restart waiting, the restart is tried in the same pass, and the server listens if every operation succeeds |
| `TcpRuns.RestartsEndListening` | firmware/g474_gateway/Core/Src/main.c:3584-3630 | A pending restart is only ever cleared by one that was due and has seen the socket listen |
| `TcpRuns.RestartIsNeverFarOff` | firmware/g474_gateway/Core/Src/main.c:3584-3738 | In every run the next restart is at most 500 ticks ahead |
| `TcpRuns.DueExactly` | firmware/g474_gateway/Core/Src/main.c:3586 | For all times, a deadline is called due if and only if the lag behind it, modulo 2^32, is less than 2^31; and how long it otherwise takes until it is |
| `TcpProgress.RoundMakesProgress` | firmware/g474_gateway/Core/Src/main.c:3575-3801 | With the link up, transfers succeeding and an obedient socket, every control pass with its readings sees the server in service or uses up at least its own length of a bounded time |
| `TcpProgress.OutageIsBounded` | firmware/g474_gateway/Core/Src/main.c:3514-3801 | From any state whatever, under those conditions and passes at most `gap` apart, the server is seen listening or connected within 2*gap ticks of a pending restart falling due, or 15000 + 12*gap without one, and always within 2^31 + 15000 + 12*gap |
| `TcpProgress.ServerComesBack` | firmware/g474_gateway/Core/Src/main.c:3514-3801 | From any moment of any run at which a pending restart is ahead or called due, the same within 15000 + 12*gap ticks |
| `TcpProgress.NothingIsTriedBeforeDue` | firmware/g474_gateway/Core/Src/main.c:3584-3613 | Until a pending restart is called due nothing is tried, whatever the chip answers: it stays pending for the same time, and the status is the one last read |
| `TcpProgress.OverdueRestartCanBeMissed` | firmware/g474_gateway/Core/Src/main.c:3584-3613 | A run after which a restart is overdue and not called due, and a closed, obedient socket is left closed for another 2^31 ticks |
| `TcpProgress.OneReadingObserves` | firmware/g474_gateway/Core/Src/main.c:3775-3797 | One reading of the socket with the link up is enough for the bound to apply |
| `TcpService.ServiceIsLeftAlone` | firmware/g474_gateway/Core/Src/main.c:3636-3640 | In every run with the link up, nothing pending and every reading LISTEN or ESTABLISHED: nothing becomes pending, the restart deadline stays, the status is the one last read, whatever any socket operation would have answered |
| `TcpService.DueRestart` | firmware/g474_gateway/Core/Src/main.c:3584-3633 | A due restart succeeds if and only if CLOSE, mode, port, OPEN and LISTEN and the three waits do, each wait judged by its polls; the server then listens with nothing pending, and otherwise is put off by 500 ticks with its state's clock to start anew |
| `TcpService.ClosedIsStarted` | firmware/g474_gateway/Core/Src/main.c:3675-3691 | A closed socket is started, without CLOSE, with the same two outcomes |
| `TcpService.OpenedIsMadeToListen` | firmware/g474_gateway/Core/Src/main.c:3693-3711 | An opened one is only made to listen, with the same two outcomes |
| `TcpService.ClosingIsWaitedFor` | firmware/g474_gateway/Core/Src/main.c:3642-3673 | CLOSE_WAIT gets DISCON once; it and each transient state are then waited for up to 3000 ticks, counted modulo 2^32, and then the server is restarted at once |
| `TcpService.EachCloseIsAnswered` | firmware/g474_gateway/Core/Src/main.c:3799-3801 | Each connection that its peer closes gets a DISCON of its own, even if the disconnect before it was still going on |
| `TcpService.StrangeStateIsLeft` | firmware/g474_gateway/Core/Src/main.c:3719-3727 | Any other status leads to a restart at once |
| `TcpService.FailedReadingStopsServer` | firmware/g474_gateway/Core/Src/main.c:3775-3786 | After a failed reading of the socket, in every run with the link up, nothing at all is done until the next valid one |
| `TcpService.DownLinkStopsServer` | firmware/g474_gateway/Core/Src/main.c:3775-3778 | While the link is down nothing at all is done, and the socket is not read |
| `TcpService.UnconfiguredServerStaysIdle` | firmware/g474_gateway/Core/Src/main.c:3575-3577 | Without a configured network the socket is never used, in any run |
| `TcpService.FailedAttemptIsNotRepeatedSoon` | firmware/g474_gateway/Core/Src/main.c:3602-3608 | After a failed attempt nothing is tried for 500 ticks, in every run with the link up |
| `TcpService.WaitLeavesLastRead` | firmware/g474_gateway/Core/Src/main.c:1362-1386 | A polling wait leaves the last status it read, expected or not, and calls it valid only if it is the expected one |

## Left out

- The host programs (`host/`): sockets, options, CSV and round-trip statistics around the same protocol.
- SPI register access, chip select, clock, GPIO and UART set-up, HAL, RTOS and generated code: present as results the steps take, as bounded queues and as latched flags.
- NULL arguments and absent queues: parameters are never null, so `PROTO_ERR_NULL` cannot occur, and a missing queue is not distinguished from a full one.
- The copies of `common/` inside the two firmware trees: modelled once.
- Memory barriers and weak memory: steps are sequentially consistent.
- Diagnostic timestamps, cycle counters and link-recovery timing in the gateway: observed only, nothing depends on them. HealthTask is not part of the step system: the valid-frame flag and tick it samples are inputs of HealthMonitoring.
- `tcp_init_ok` and `tcp_listen_ok`, recovery attempt, success and failure counts, and the UDP socket's own status: reported only.
- WaitForStatus: a wait whose given polls run out counts as timed out; the delay between polls is not modelled.
- The bring-up test's verdict: which of its PINGs passed is reported only; its use of buffer, busy flag and flags is modelled, its matching PONG being a choice of the environment.
- The second length test in the header state (`stream_parser.c:178-184`): a LENGTH that passed the first makes the sum fit, so the branch cannot be taken; likewise the parser's default branch.
- Corruption of MAGIC, VERSION or LENGTH: framing itself then changes, and no bound on lost frames is claimed beyond `Stabilises`.
- The gateway's receive ring inside the step system is its bounded FIFO; that the ring refines this FIFO under interleaving is proved in RxRings.
- RS422Task and EthernetTask as whole infinite loops: their steps are a step system on values, because interrupts fall between statements; their inner loops, the flag handlers and the forwarding of a command are also modelled in place; the loop that waits for the transmission is not.
- The TCP byte stream into the gateway: a valid frame from TCP is an input of the step system; the parser between is the one of StreamParsing.
- The effect of a TCP restart on the session (invalidate, discard) is in the Gateway modules, not repeated in TcpRecovery.
- The disabled local telemetry generator.
- RestartsEndListening: speaks of the server part of a control pass; a loss of the link also clears an ordinary restart, in favour of a recovery.
- ServerComesBack: assumes that of its own accord the socket only moves towards CLOSED through the TCP closing states, or into service; a peer that keeps reopening half-finished connections forever is outside it.
- PairFallsSilent: starts with whole frames in flight and both parsers between frames, as at power-up with a clean line, and takes a failed transmission to put nothing on the line.
