# ristgo, verified core

A Dafny model of the deterministic core of ristgo, a RIST (Reliable Internet Stream
Transport) stack, with proofs of what that core promises. Time enters the core as
arguments and effects leave as values, so it is modelled as written: step machines
over rings, queues, windows and caches. `dafny verify dfyconfig.toml` checks all of it.

Each component is in two layers. A pure layer states every operation as a function
from state to state, and the theorems are about runs of those functions. An imperative
layer keeps the source's own form (arrays, a linked list, maps, counters updated in
place by loops) and proves each method equal to its function.

| component | pure layer | imperative layer |
|---|---|---|
| flow receiver | PlayoutBuffer, Recovery, ReceiverSpec, ReceiverProps, ReceiverFeed, ReceiverRequests, ReceiverTimers, ReceiverDelivery, ReceiverOrder, SourceClock | PlayoutRing, MissingQueue, LossTracker, Receiver |
| flow sender | SenderSpec, SenderRuns, SenderAnswers, Bitrate | Sender, Bitrate |
| sender and receiver over a network | FlowSystem, FlowMerge, FlowRecovery, RoundTrips | |
| LZ4 block codec | Lz4Format | Lz4Codec |
| SMPTE ST 2022-1 / 2022-5 FEC | FecCode, FecDecoder, FecPeeling, FecRun, FecComplete, FecBounds, FecEncoder, FecWire | FecMachines |
| DTLS reassembly and replay window | Handshake, Replay | HandshakeMachine, Replay |
| NACK packing | RtcpNack, AdvNack | RtcpNack, AdvNack |
| weighted path rotation | Bonding | Bonding |
| pre-shared-key encryption | Psk | PskMachine |

Serial holds 32-bit circular arithmetic (internal/seq), Bits the bit operations on
machine words, Arith products and remainders, FlowTypes the values that cross the flow
core's boundary.

How the model reads the source:

- The window assumption of the receiver theorems is stated where it is used
  (`ReceiverProps.InWindow`): a packet about to be accepted lies within one ring span of
  the playout cursor. The end-to-end theorem does not need it.
- `seq.Distance` pins an exact antipode to +2^31. Because of that, one media jump of
  exactly 2^31 defeats the FEC decoder's floor test, although internal/fec/fec.go
  documents the media window without exception. `FecBounds.MediaWindow` gives the exact
  condition and `FecBounds.AntipodeEscapes` a concrete case.
- The FEC run theorems read each sequence number as the position nearest the newest
  packet. They assume media arrives within 2^31 of the newest packet, a genuine FEC
  packet within half the span of its truncated base, payloads within the matrix payload
  size and payload types of seven bits. The matrix bounds are those of the public
  configuration (fec.go:111-134).
- `FecComplete.EveryLossRebuilt` further assumes that FEC packets come after some media and
  do not start ahead of the newest; without that, what is remembered is stated exactly by
  `FecComplete.RunComplete`, displacement included.
- Two LZ4 results are stronger than promised: the size bound is n + n/255 + 2, and the
  decoder is shown to accept nothing but well-formed blocks.
- The NACK packers ask for exactly the numbers given for any list; order, and the least
  number of records, need the ascending lists the source asks for.
- Randomness, key derivation and the block cipher are parameters. No statement about
  secrecy is made.
- The check for a zero nonce comes before the marker bit is cleared, so a draw of
  80 00 00 00 for the even passphrase gives a zero nonce, which every receiver refuses.
  `Psk.NonceIs` gives the exact condition.
- The source clock is a count of microseconds that wraps with the 32-bit 90 kHz counter.
  A packet that the wrap overtakes is misread by one lap (`SourceClock.TrackFollows`).
- The advanced range packer is minimal among entries within its own cap of 9999; a
  receiver would take 10000 (`AdvNack.OverCapIsFewer`).
- XOR, shifts and bitmaps are functions on natural numbers; instants, durations,
  counters and rates are unbounded integers.

## Model

| member | source | states |
|---|---|---|
| `FlowSystem.EndToEnd` | internal/flow/receiver.go:369-996 | End to end: over every interleaving of up to 2^31 auto-sequenced pushes, losses, duplications, reorderings, NACKs, timers and ticks, the delivered events are a strictly increasing selection of the pushed items, each with exactly the pushed source time, payload and fragment role, and each flagged as a discontinuity exactly when it does not follow the one before it |
| `FlowSystem.AnchorFixed` | internal/flow/receiver.go:962-996 | Once the receiver is anchored, delivered plus lost is at every moment of every run the distance from the anchor to the cursor, and the cursor never passes the pushed stream |
| `FlowSystem.ActOk` | internal/flow/sender.go:95-261 | Whatever one action of the system does, the history ring, everything ever sent and everything buffered still match what was pushed |
| `FlowSystem.NewSystemInitial` | internal/flow/flow.go:344-379 | A new sender and receiver meet what the end-to-end theorem asks of its first state |
| `FlowMerge.CopyStutters` | internal/flow/receiver.go:492-550 | Feeding a further copy of an accepted packet, buffered or already delivered, leaves everything that can influence a delivery, a request or a timer exactly as it was |
| `FlowMerge.MergeIsStuttering` | internal/flow/receiver.go:492-550 | Deleting every further copy of an accepted packet from a run that respects the window, whatever path it came on, leaves the whole system as it was, so every delivery, request and timer |
| `FlowMerge.SeenKept` | internal/flow/receiver.go:525-586 | In such a run every accepted packet stays buffered until the cursor passes it |
| `FlowMerge.NewMerging` | internal/flow/flow.go:344-379 | A new system meets what the merge theorem asks of its first state |
| `FlowRecovery.ArrivalIsDelivered` | internal/flow/receiver.go:446-996 | Recovery end to end: any copy of an emitted packet, the original or a retransmission, on any path, that arrives in time (not past its instant by more than the buffer and a tenth, not behind the cursor) is delivered with the pushed source time, payload and fragment role by the tick or playout timer that finds everything due, whatever admissible run of pushes, losses, copies, requests and timers lies between |
| `FlowRecovery.RequestIsAnswered` | internal/flow/sender.go:204-261 | After any run of a new system a request of distinct sequences that reaches the sender: each one still kept, not re-sent too recently, with retries left and the gate open is emitted again as a retransmission with exactly the pushed item, until the budget of one request is spent |
| `FlowRecovery.RunIsSenderRun` | internal/flow/flow.go:463-574 | The sender of a system after a run is the sender alone after the calls made on it, so its theorems apply to the system |
| `ReceiverTimers.NoLostWakeUp` | internal/flow/receiver.go:902-1019 | From an idle start, after any run: while losses are queued the host holds a NACK timer; and, if the run respects the window, while packets are buffered the host holds a playout timer due no later than the lowest buffered sequence |
| `ReceiverTimers.HostAgrees` | internal/flow/flow.go:544-586 | What a host that honours the emitted timer effects holds is what the receiver believes is armed, after any run |
| `ReceiverTimers.DeliverExact` | internal/flow/receiver.go:902-1019 | In the window delivery leaves the playout timer exactly as the packets left ask for: kept if it is due no later than the first of them, otherwise set for that one, and cleared if there is none |
| `ReceiverTimers.PlayoutTimerExact` | internal/flow/flow.go:544-574 | The playout timer delivers the due prefix and is set again for exactly the first packet left, if any |
| `ReceiverTimers.RunWithinBudget` | internal/flow/receiver.go:711-891 | Over any run: NACKs sent are at most MaxRetries per detected loss, the missing queue never exceeds missingCounterMax + 1, and no request carries more than 200 sequences |
| `ReceiverTimers.RequestRateBounded` | internal/flow/receiver.go:807-866 | For non-decreasing time, the sequences requested in any interval are at most one burst plus the configured rate times the elapsed time |
| `ReceiverFeed.FeedExact` | internal/flow/receiver.go:369-586 | A packet of the flow in progress is stored, due one buffer after its instant, if and only if it is in time, not behind the cursor and not there already, retransmission or not; otherwise the buffer is as it was. Which losses are queued, which counters move and which timers are set is stated outright, in terms of the packet and the state it meets |
| `ReceiverFeed.FlowBegins` | internal/flow/receiver.go:387-429 | A packet that does not continue the flow begins one, unless it is a retransmission, which is ignored: the whole new state is given |
| `ReceiverFeed.MarkIs` | internal/flow/receiver.go:653-730 | The missing queue grows by exactly the sequences between the last one found and the new packet, first to last, if the gap is within half the ring (32768 for short sequences) and there is a return channel, cut only by the room in the queue and the ring; each entry dated by even steps and first due half a round trip later but no sooner than the reorder buffer |
| `ReceiverFeed.WalkIs` | internal/flow/receiver.go:702-770 | The walk over the gap queues exactly as many entries as there are losses, room and slots |
| `ReceiverFeed.GaugesExact` | internal/flow/receiver.go:432-586 | What the gauges say of any arriving packet: late, duplicate, retransmitted, which path, and the spacing of arrivals with its extremes |
| `ReceiverFeed.ArrivalCounted` | internal/flow/receiver.go:492-586 | Each packet handed in is counted once as accepted, late or duplicate; only a retransmission before any flow is not |
| `ReceiverRequests.PassExact` | internal/flow/receiver.go:798-891 | A pass adds one request, back along the path the media last came on and to its source, for exactly the open losses that are due, from the front, as many as a batch and the tokens allow; none if there are none |
| `ReceiverRequests.NackTimerExact` | internal/flow/flow.go:544-574 | The NACK timer does that and is set again five milliseconds on exactly while losses are open |
| `ReceiverRequests.TickExact` | internal/flow/flow.go:580-586 | A tick delivers what is due and then asks for what is due |
| `ReceiverRequests.RunRequests` | internal/flow/receiver.go:798-891 | Over any run the sequences in the requests among the outputs are, in order, exactly those the passes found due, and each is counted once |
| `ReceiverRequests.RunStray` | internal/flow/flow.go:463-492 | Over any run the feedback counted as ignored is exactly that which is no echo |
| `ReceiverRequests.SentRateBounded` | internal/flow/receiver.go:807-866 | For non-decreasing time the sequences in the requests sent in any interval are at most one burst plus the configured rate times the elapsed time |
| `ReceiverRequests.SentWithinRetries` | internal/flow/receiver.go:711-891 | From a new receiver the sequences in the requests sent are at most MaxRetries for each loss detected |
| `ReceiverProps.RunWakes` | internal/flow/receiver.go:538-586 | Over any run in the window the playout wake-up is never late, and while one flow lasts received = delivered + overwritten + buffered |
| `ReceiverDelivery.RunConserves` | internal/flow/receiver.go:525-586 | Over any run in the window no accepted packet is lost, altered or repeated: what was accepted is, packet for packet and content for content, what was delivered, what is still buffered, what a packet of the same sequence and another source time replaced, and what a change of flow discarded |
| `ReceiverDelivery.AcceptedIsDelivered` | internal/flow/receiver.go:902-996 | From a new receiver, once a tick or the playout timer finds every buffered packet due, the deliveries are exactly the accepted packets apart from those discarded |
| `ReceiverDelivery.DrainConserves` | internal/flow/receiver.go:902-978 | Delivery moves packets from the buffer to the events and loses none |
| `ReceiverDelivery.InsertConserves` | internal/flow/receiver.go:538-566 | Inserting a packet adds it, and drops nothing but a packet of its own sequence |
| `ReceiverProps.RunAccounts` | internal/flow/receiver.go:962-996 | Over any run at all without re-anchoring, delivered plus lost grows by exactly what the cursor moves, modulo the sequence space |
| `ReceiverOrder.RunInOrder` | internal/flow/receiver.go:902-996 | Over any run in the window, from any state and whatever the stream, through changes of flow: each event after the first comes after the one before it, and is flagged as a discontinuity if and only if it is not its successor, apart from the first event of a flow, which is never flagged |
| `ReceiverOrder.NoNewFlow` | internal/flow/receiver.go:387-429 | A started receiver that meets no other flow opens none, so there the flag is exactly the gap |
| `SourceClock.RunFollows` | internal/flow/receiver.go:446-502 | Over any run whose laps are read right, through any number of wraps of the source clock, a packet is taken if and only if it is in time by its true source time, not behind the cursor and not there already, and every packet taken is played at its true source time plus the one constant fixed at the anchor plus the recovery buffer |
| `SourceClock.StartFollows` | internal/flow/receiver.go:612-648 | The first packet fixes that constant: the clock follows the source from it on, and the packet is played one recovery buffer after its arrival |
| `SourceClock.TrackFollows` | internal/flow/receiver.go:446-502 | A packet is given its true source time plus that constant if and only if its lap is the newest one's, or the next and the wrap test fires; then the clock goes on following |
| `SourceClock.SteadyIsRead` | internal/flow/receiver.go:452-490 | The lap is read right for any packet within half a lap of the newest and of no earlier lap, if a packet of the next lap is an original and comes at least the dwell time after the last wrap |
| `SourceClock.StampsCompare` | internal/flow/receiver.go:31-35 | The wrap test on NTP timestamps fires for exactly the falls of 23860929417 microseconds or more |
| `SourceClock.StragglerMisread` | internal/flow/receiver.go:474-484 | A packet overtaken by the wrap is placed one whole lap too late |
| `SourceClock.NtpRoundTrip` | internal/clock/ntp.go:49-66 | Microseconds survive the NTP-64 format exactly |
| `ReceiverProps.StepValid` | internal/flow/flow.go:436-586 | For any input whatever, every entry point keeps each buffered packet in its own slot and between the cursor and the newest sequence, and the queue and budgets sound |
| `ReceiverProps.NewWakes` | internal/flow/flow.go:344-379 | A new receiver meets what the run theorems ask of their first state |
| `PlayoutBuffer.DrainPlaysDuePrefix` | internal/flow/receiver.go:902-996 | Under the window assumption delivery plays exactly the due prefix of the ordered queue, in order and with the right discontinuity flags, keeps the rest, and asks to be woken at the first packet left |
| `PlayoutBuffer.DrainOnlyDue` | internal/flow/receiver.go:902-978 | With no assumption, delivery only appends events, and each is a buffered packet whose own output time had come |
| `PlayoutBuffer.QueueAfterInsert` | internal/flow/receiver.go:538-566 | Under the window assumption inserting into the ring is a sorted insert into the ordered queue |
| `PlayoutBuffer.QueueListsRing` | internal/flow/receiver.go:540-566 | The ordered queue lists every buffered packet, once, in sequence order |
| `PlayoutBuffer.DrainAccounts` | internal/flow/receiver.go:962-996 | Every sequence the cursor passes is counted delivered or lost, once |
| `PlayoutBuffer.Drain` | internal/flow/receiver.go:902-958 | Delivery terminates, keeps the ring valid, and changes neither the newest sequence nor the received and overwritten counts |
| `PlayoutBuffer.Find` | internal/flow/receiver.go:929-938 | The search for the next buffered packet returns the first one ahead of the cursor, or none within the limit |
| `Recovery.MarkWalkAppends` | internal/flow/receiver.go:702-729 | Gap detection appends consecutive sequences from lastFound + 1, never past the new packet, and leaves what was queued untouched |
| `Recovery.ProcessNacksValid` | internal/flow/receiver.go:798-891 | A NACK pass keeps count and budget, requests at most 200 sequences, never grows the queue, and pays one token for each sequence when rate-limited |
| `Recovery.PassSelects` | internal/flow/receiver.go:798-891 | A NACK pass keeps exactly the losses still open (slot empty, retries left, not too old), in queue order, and requests exactly the due ones among them from the front, as many as a batch and whole tokens allow; each one requested is put off by the retry interval and counted, the others are untouched |
| `Recovery.PassTallies` | internal/flow/receiver.go:818-880 | A pass counts each queued loss that leaves the queue: as recovered under the number of requests it took, if any, when its packet is there, as given up if its retries or its time ran out, and not at all if another packet has its slot |
| `Receiver.FlowReceiver.Feed` | internal/flow/receiver.go:369-586 | Ingesting a packet takes the object exactly where the receiver step and its gauges go, so where FeedExact, FlowBegins and GaugesExact say |
| `Receiver.FlowReceiver.HandleTimer` | internal/flow/flow.go:544-574 | A fired timer takes the object where the step goes, so where PlayoutTimerExact, NackTimerExact and AskingNeverStops say |
| `Receiver.FlowReceiver.Tick` | internal/flow/flow.go:580-586 | A tick takes the object where the step goes, so where TickExact says |
| `Receiver.FlowReceiver.FeedFeedback` | internal/flow/flow.go:463-492 | Echoes are answered and measured as ReceiverMeasures says, the rest is counted |
| `PlayoutRing.Ring.DeliverDue` | internal/flow/receiver.go:902-958 | The delivery loop over the array computes the drain of the abstract buffer |
| `PlayoutRing.Ring.PassHole` | internal/flow/receiver.go:917-956 | At a hole: wait for the next packet, skip to it, or skip a lapped ring, strictly nearing the newest sequence |
| `PlayoutRing.Ring.SkipTo` | internal/flow/receiver.go:983-996 | Abandoning the sequences up to a target and clearing their slots |
| `LossTracker.Tracker.Mark` | internal/flow/receiver.go:653-730 | Gap detection on the linked queue agrees with the abstract one, so with MarkIs |
| `LossTracker.Tracker.Process` | internal/flow/receiver.go:798-891 | The NACK pass on the linked queue agrees with the abstract one |
| `MissingQueue.Fifo.Pass` | internal/flow/receiver.go:818-880 | One walk of the linked list removes and keeps exactly the entries the abstract sweep does, in order, with head, tail and count intact |
| `MissingQueue.Fifo.Append` | internal/flow/receiver.go:758-769 | Appending to the linked list appends to its contents |
| `MissingQueue.Fifo.Unlink` | internal/flow/receiver.go:866-877 | Unlinking a node removes exactly it, at the head, in the middle or at the tail |
| `SenderSpec.RetransmitsBounded` | internal/flow/sender.go:219-260 | Over any run of a new sender, whatever is requested and whenever, at most MaxRetries re-sends happen for each packet pushed |
| `SenderSpec.NackWithinBudget` | internal/flow/sender.go:204-261 | Serving one request keeps the retransmit budget and emits at most the per-pass cap |
| `SenderSpec.PushWithinBudget` | internal/flow/sender.go:95-160 | A push keeps the retransmit budget, also when it overwrites an older packet |
| `Sender.FlowSender.PushApp` | internal/flow/sender.go:95-160 | A push assigns the sequence, stamps the source time, keeps the packet in the history array and sends it |
| `Sender.FlowSender.FeedFeedback` | internal/flow/flow.go:463-492 | The sender takes the object where the step goes, so requests are answered as RequestAnswered says and echoes as SenderMeasures says |
| `SenderAnswers.RequestAnswered` | internal/flow/sender.go:204-261 | After any run of a new sender a request is answered exactly as the events so far demand: the fate of each sequence named follows from what was kept and re-sent before, the outputs are exactly the replies, each the packet as kept, and each fate is counted |
| `SenderAnswers.AnswerIs` | internal/flow/sender.go:219-260 | Each sequence of a request is skipped if it is not retained, held back if re-sent within the spacing, refused if the gate is shut or its retries are used up, and otherwise re-sent, the re-sends of this very request counted in |
| `SenderAnswers.AnswerDistinct` | internal/flow/sender.go:219-260 | In a request that names nothing twice every sequence has the fate demanded by the events before the request |
| `SenderAnswers.AnswerStops` | internal/flow/sender.go:255-259 | A request is cut short only once its budget has been re-sent, and never re-sends more |
| `SenderAnswers.OneRequest` | internal/flow/sender.go:204-261 | A request for one packet makes the sender re-send it, exactly as pushed, if and only if it is retained, was not re-sent too recently, the gate is open and it has retries left; otherwise nothing is sent |
| `SenderAnswers.PushesLeave` | internal/flow/sender.go:95-160 | Over any run each push leaves exactly once, at once and in order, with its sequence, source time and payload |
| `SenderAnswers.PushesKept` | internal/flow/sender.go:120-150 | Unless the transport is one-way, what is kept for re-sending is exactly what was pushed |
| `SenderAnswers.RunObserves` | internal/flow/sender.go:95-217 | Over any run the average of the first transmissions is that of exactly the pushes, with their size on the wire |
| `SenderAnswers.StepRetries` | internal/flow/sender.go:204-261 | The average of the re-sends is refreshed by each request and then fed exactly what that request made the sender re-send; nothing else touches it |
| `SenderAnswers.RunStray` | internal/flow/flow.go:463-492 | Over any run the feedback counted as ignored is exactly that which is neither an echo nor a request |
| `SenderAnswers.PushesShutGate` | internal/flow/sender.go:204-261 | Once the pushes of a run have filled enough windows above the ceiling, a request is answered with nothing, whatever it asks for |
| `RoundTrips.SenderMeasures` | internal/flow/flow.go:463-492 | An echo of the sender asked at t1, answered by a receiver whenever it gets there and heard back at t2, adds exactly one sample, t2 - t1 within one era of the clock, and changes nothing else |
| `RoundTrips.ReceiverMeasures` | internal/flow/flow.go:463-492 | The same from the receiver's side |
| `RoundTrips.NtpEra` | internal/clock/ntp.go:49-66 | An instant in microseconds comes back from the NTP-64 format exactly, within one era of 2^32 seconds |
| `RoundTrips.EstimateSettles` | internal/rtt/rtt.go:114-131 | Samples between two values bring the smoothed round trip between them, from wherever it was, within as many samples as it was units of an eighth away, and keep it there |
| `RoundTrips.ClampNearest` | internal/rtt/rtt.go:142-172 | The round trip acted on is the one nearest to the measured one that is within the configured bounds and at least three milliseconds |
| `RoundTrips.TenthMore` | internal/rtt/rtt.go:187-189 | The retry interval and the lateness allowance are the duration plus a tenth of it, truncated toward zero |
| `RoundTrips.AskingNeverStops` | internal/flow/flow.go:544-574 | After any run of a receiver, while a flow with a return channel is in progress, the host holds the echo timer, due one interval after the last echo request or the start of the flow |
| `Bitrate.RateWithinSamples` | internal/flow/congestion.go:125-143 | The smoothed rate never exceeds the largest window sample so far (eight times it is at most 8S + 7) |
| `Bitrate.RateReachesSamples` | internal/flow/congestion.go:125-143 | Enough windows whose samples are at least some rate bring the smoothed rate to it, from wherever it was, and the number needed depends on that rate alone |
| `Bitrate.SteadyRate` | internal/flow/congestion.go:125-143 | From rest a steady stream is measured, in the end, at exactly its rate |
| `Bitrate.GateShuts` | internal/flow/congestion.go:154-163 | Once enough windows of first transmissions sample above the ceiling the gate is shut |
| `Bitrate.IdleReachesZero` | internal/flow/congestion.go:125-147 | Enough window closings drive a rate to exactly zero, however high it was, at whatever instants and however often it is refreshed in between |
| `Bitrate.GateReopens` | internal/flow/congestion.go:154-163 | Refreshes at any instants that close the windows the mode reads often enough leave the bandwidth gate open for every ceiling |
| `Bitrate.ClosingsInTime` | internal/flow/congestion.go:125-143 | Refreshes at most a gap apart close a window at least once in every window length plus gap |
| `SenderRuns.GateReopens` | internal/flow/sender.go:204-261 | Over any run of requests, echoes and timers with nothing pushed, whatever is asked and whenever, if the requests close the averaging windows often enough one of them finds the gate open |
| `SenderRuns.GateReopensInTime` | internal/flow/sender.go:204-261 | So a receiver that keeps asking, at most any given gap apart, is heard within a time that depends only on the rates at the start |
| `SenderRuns.ResendsPaced` | internal/flow/sender.go:219-259 | Over any run of a new sender two successive re-sends of a retained packet are at least the spacing apart that the later one asked for, and a retained packet is re-sent at most MaxRetries times |
| `SenderRuns.TraceIsOutputs` | internal/flow/sender.go:238-258 | The re-sends so paced are, in order, exactly the retransmissions among the outputs |
| `SenderRuns.EchoNeverStops` | internal/flow/sender.go:266-280 | After any run of a new sender with a return channel, from the first push on the host holds the echo timer, due one interval after the last echo request or the first push |
| `Lz4Format.DecodeIff` | internal/lpc/lpc.go:291-391 | The decoder accepts exactly the well-formed blocks whose meaning fits the bound (and the empty input), and its output is exactly what the block means |
| `Lz4Format.BlockDecodes` | internal/lpc/lpc.go:309-391 | A well-formed block decodes to its meaning if that fits, and otherwise to the too-large error |
| `Lz4Format.DecodedIsBlock` | internal/lpc/lpc.go:309-391 | Whatever decodes is some sequences and a literal tail, each back-reference inside what was produced |
| `Lz4Format.RunRoundTrip` | internal/lpc/lpc.go:270-276 | A length is read back from its nibble and continuation bytes, and only from them |
| `Lz4Codec.Compress` | internal/lpc/lpc.go:134-212 | Round trip: for every input the block decodes to it under every bound that admits it, its size is within CompressBound, and n equal bytes take at most n/255 + 11 |
| `Lz4Codec.CompressWith` | internal/lpc/lpc.go:145-211 | For any hash function the sequences written, with the trailing literals, mean exactly the input; offsets are 1 to 65535 and no match ends in the last five bytes; equal bytes are written as one literal, one match and the closing five literals |
| `Lz4Codec.BlockSize` | internal/lpc/lpc.go:115-124 | A block for n bytes is at most n + n/255 + 2 bytes, within the promised n + n/255 + 16 |
| `Lz4Codec.RunSize` | internal/lpc/lpc.go:134-212 | A block that is one literal, one match and the closing literals takes at most n/255 + 11 bytes for n bytes |
| `Lz4Codec.OneSize` | internal/lpc/lpc.go:218-249 | A sequence costs at most one byte in 255 more than it produces |
| `Lz4Codec.MatchReplays` | internal/lpc/lpc.go:372-377 | Copying byte by byte from a matching place reproduces the input, also when the match overlaps itself |
| `Lz4Codec.ExtendMatch` | internal/lpc/lpc.go:182-189 | A match is extended as far as the data and the limit allow, and no further |
| `Lz4Codec.AppendLength` | internal/lpc/lpc.go:270-276 | Continuation bytes for a length, a final byte below 255 included |
| `Lz4Codec.TakeLength` | internal/lpc/lpc.go:397-411 | Reading a continuation field, or finding it cut short |
| `Lz4Codec.Decompress` | internal/lpc/lpc.go:291-391 | On success the destination is extended by the decoded bytes, on any error it is handed back as it was; a negative bound counts as zero |
| `FecRun.RunIsSafe` | internal/fec/fec.go:256-336 | Over every run of media and genuine FEC packets, in any order, repeated or lost: each packet rebuilt, also from earlier recoveries, equals the one sent in sequence, timestamp, payload type, source and payload with its length, at a position never received or rebuilt before; and window, group cap and peeling hold after every arrival |
| `FecComplete.EveryLossRebuilt` | internal/fec/fec.go:256-466 | Nothing is missed: from a new decoder, over every run of media and of FEC packets of an encoder's groups that are not ahead of the newest media, a group whose FEC packet arrived at any time never has, while it is in the window, exactly one member neither received nor rebuilt |
| `FecComplete.NeverOneMissing` | internal/fec/fec.go:384-466 | For any remembered group that is not ahead of the newest packet, the members neither received nor rebuilt are never exactly one |
| `FecComplete.LossRebuilt` | internal/fec/fec.go:256-466 | An arrival, media or FEC, that leaves a remembered group with one missing member puts that member out, as it was sent |
| `FecComplete.RunComplete` | internal/fec/fec.go:256-336 | Over every run of genuine arrivals the stored groups are exactly, in order, a queue of the groups heard, of bounded length, oldest displaced first, dropped when below the window; and the window holds exactly the recent positions received or rebuilt |
| `FecComplete.FecStored` | internal/fec/fec.go:270-336 | An FEC packet of either geometry that arrives for a group in the window is stored |
| `FecComplete.Uncrowded` | internal/fec/fec.go:317-336 | Distinct whole rows and columns that start within one window are fewer than the queue's places, so none of them is displaced |
| `FecComplete.RunKeeps` | internal/fec/fec.go:317-336 | Over such a run every group heard that starts in the window is remembered |
| `FecComplete.EncoderAligned` | internal/fec/fec.go:123-192 | The FEC packets an encoder puts out are of such rows and columns |
| `FecRun.MediaTracked` | internal/fec/fec.go:256-266 | After a media packet everything held is genuine, in the window, and peeled |
| `FecRun.DuplicateIsOld` | internal/fec/fec.go:256-261 | A media packet already held is not new, and changes nothing |
| `FecRun.WidenNearest` | internal/fec/fec.go:366-379 | Widening picks a base congruent to the truncated one and no farther than half the span from the newest packet |
| `FecRun.WidenInverts` | internal/fec/fec.go:366-379 | A base less than half the truncation span from the newest packet is recovered exactly, in both variants |
| `FecRun.NewLinked` | internal/fec/fec.go:239-251 | A new decoder meets what the run theorem asks, wherever its anchor starts |
| `FecPeeling.PeelingIsClosure` | internal/fec/fec.go:384-466 | Peeling genuine input ends with the least set that holds what was received and is closed under the one-missing rule, each packet added being the one sent and put out once |
| `FecPeeling.PeelingOrderFree` | internal/fec/fec.go:384-396 | The order in which groups are stored does not matter to what is recovered |
| `FecPeeling.SolvesForOriginal` | internal/fec/fec.go:438-461 | A genuine group with one absent member solves for exactly that packet |
| `FecPeeling.RebuildIs` | internal/fec/fec.go:444-456 | Taking the held members out of a group's sums leaves the sum of the absent ones |
| `FecDecoder.Pass` | internal/fec/fec.go:384-396 | A pass that recovers anything leaves strictly fewer unfinished groups, so peeling terminates |
| `FecBounds.GroupsBounded` | internal/fec/fec.go:317-336 | Whatever arrives, the stored groups have the configured geometry and never exceed their cap |
| `FecBounds.MediaWindow` | internal/fec/fec.go:355-483 | For any media packet whatever, media stays in [lastSeq - window, lastSeq] if and only if the packet is not a jump of exactly 2^31 while the last packet of the old window is still held |
| `FecBounds.AntipodeEscapes` | internal/fec/fec.go:469-475 | A new decoder that hears packets 0, 60 and 60 + 2^31 does not keep the window |
| `FecBounds.FecWindow` | internal/fec/fec.go:270-336 | For any FEC packet whatever, also before any media, the window is kept |
| `FecEncoder.EmitsOnSchedule` | internal/fec/fec.go:123-158 | Packet n of a contiguous stream puts out its column's FEC packet exactly when it is the last of D in its column, and its row's exactly when it is the last of L in its row |
| `FecEncoder.EmitsGenuine` | internal/fec/fec.go:123-192 | Every FEC packet put out is the sum of one whole group of the stream, ending with the packet just pushed, of a geometry the decoder accepts |
| `FecEncoder.PushStep` | internal/fec/fec.go:123-158 | After every push the accumulators hold exactly the sums of their groups so far |
| `FecCode.PackRoundTrip` | internal/fec/fec.go:81-90 | Unpacking a padded packet gives it back, length included |
| `FecWire.WireRoundTrip` | internal/fec/header.go:79-121 | Parsing inverts encoding, for ST 2022-1 and ST 2022-5 headers, in both directions; the direction bit of ST 2022-1 is read back and the flag fields of ST 2022-5 are zero |
| `FecWire.EmittedSurvives` | internal/fec/header2022_5.go:56-89 | Every FEC packet the encoder puts out survives the wire |
| `FecMachines.EncoderMachine.PushPacket` | internal/fec/fec.go:123-158 | Pushing a packet through the accumulators in place is the encoder step |
| `FecMachines.Accumulator.Add` | internal/fec/fec.go:83-90 | XOR in place adds one packet to the group's sum |
| `FecMachines.DecoderMachine.PushMedia` | internal/fec/fec.go:256-266 | Storing, peeling and evicting in place is the decoder step, and returns what was rebuilt |
| `FecMachines.DecoderMachine.PushFec` | internal/fec/fec.go:270-336 | Parsing, checking, deduplicating, making room, storing, peeling and evicting is the decoder step, so what FecStored, RunComplete and LossRebuilt say; malformed packets change nothing |
| `FecMachines.DecoderMachine.TryRecover` | internal/fec/fec.go:401-466 | One attempt on one group, its two loops included, is the abstract attempt |
| `FecMachines.DecoderMachine.RecoverAll` | internal/fec/fec.go:384-396 | The peeling loops terminate at the abstract fixed point |
| `FecMachines.DecoderMachine.Evict` | internal/fec/fec.go:469-483 | Eviction drops exactly what is below the window, in whatever order the map is walked |
| `Handshake.HandsOverInOrder` | internal/dtls/handshake.go:157-203 | Over any run of genuine fragments and polls, with fewer than 65536 messages, what is handed over is exactly the first messages sent, in order, each once, unaltered |
| `Handshake.PollReady` | internal/dtls/handshake.go:194-203 | The next message is handed over exactly when a fragment of it was taken in and together they cover every byte |
| `Handshake.PollsHandOver` | internal/dtls/handshake.go:194-203 | Messages that have arrived are handed over by as many polls |
| `Handshake.TakeAssembles` | internal/dtls/handshake.go:157-189 | Taking in a genuine fragment never errs and keeps coverage, count and contents exact |
| `Handshake.MarkIs` | internal/dtls/handshake.go:182-187 | Marking covers exactly the fragment's range, and the running count is the number of covered bytes |
| `Handshake.CutPartitions` | internal/dtls/handshake.go:74-91 | A message is cut into pieces laid end to end that make up its body, each within the limit; an empty body makes one empty piece |
| `Handshake.CutArrives` | internal/dtls/handshake.go:74-91 | Taking in all pieces of any one cut makes the message arrive |
| `Handshake.WireRoundTrip` | internal/dtls/handshake.go:61-131 | Parsing a fragment inverts its encoding, whatever follows it in the datagram |
| `Handshake.Parse` | internal/dtls/handshake.go:107-131 | Whatever parses lies inside its message, is within the size limit, and consumed exactly its own bytes |
| `Handshake.PendingBounded` | internal/dtls/handshake.go:161-177 | For any fragments at all at most eight messages are pending |
| `Handshake.AcceptWindowed` | internal/dtls/handshake.go:157-189 | Any fragment keeps pending messages inside the window |
| `Handshake.PollWindowed` | internal/dtls/handshake.go:194-203 | A poll keeps pending messages inside the window, also where the cursor wraps |
| `Handshake.FragmentMessage` | internal/dtls/handshake.go:74-91 | The loop writes the encodings of the pieces |
| `HandshakeMachine.ReassemblerMachine.Accept` | internal/dtls/handshake.go:157-189 | Filling bodies and coverage in place is the abstract step, error included |
| `HandshakeMachine.ReassemblerMachine.NextMessage` | internal/dtls/handshake.go:194-203 | Handing over in place is the abstract step |
| `HandshakeMachine.PartialMessage.Lay` | internal/dtls/handshake.go:181-187 | Copying a fragment and counting its new bytes, in place |
| `Replay.NoReplay` | internal/dtls/replay.go:18-51 | Over every check-then-mark run the window stands for the set of accepted numbers, and no number is accepted twice |
| `Replay.CheckIsExact` | internal/dtls/replay.go:18-27 | A number is accepted exactly if it never was before and is above the right edge or fewer than 64 below it |
| `Replay.MarkAdds` | internal/dtls/replay.go:31-51 | Marking any number, old or new, adds it: bit i is set exactly when right - i was accepted |
| `Replay.MarkFits` | internal/dtls/replay.go:31-51 | The bitmap stays a 64-bit word |
| `Replay.ReplayWindow.CheckSeq` | internal/dtls/replay.go:18-27 | The check on the fields is the abstract check |
| `Replay.ReplayWindow.MarkSeq` | internal/dtls/replay.go:31-51 | Marking the fields is the abstract mark |
| `RtcpNack.EncodeRange` | internal/rtcp/nack.go:256-290 | Range records stand for exactly the list given, in order, whatever it is; packets hold 1 to 16 records, all but the last full; no record could have been joined to the one before |
| `RtcpNack.RangeDecodes` | internal/rtcp/nack.go:88-108 | Decoding every packet of an encoded list of up to 2^16 numbers gives the list |
| `RtcpNack.RangeMinimal` | internal/rtcp/nack.go:244-290 | For an ascending list within half the circle no list of ranges asking for the same numbers is shorter |
| `RtcpNack.AppendMissing` | internal/rtcp/nack.go:94-108 | A packet appends its numbers in order to whatever was there, at most 65536 of them |
| `RtcpNack.EncodePairs` | internal/rtcp/nack.go:320-336 | Bitmask pairs ask for exactly the numbers given; if these ascend they come back in order |
| `RtcpNack.EncodeBitmask` | internal/rtcp/nack.go:300-313 | The same, split into packets of 1 to 16 pairs, all but the last full |
| `RtcpNack.BitmaskMinimal` | internal/rtcp/nack.go:292-336 | For an ascending list within half the circle no list of pairs asking for the same numbers is shorter |
| `RtcpNack.AppendPairs` | internal/rtcp/nack.go:200-221 | A packet appends its numbers to whatever was there, stopping exactly when the whole has reached the cap |
| `RtcpNack.FilledTwice` | internal/rtcp/nack.go:200-221 | Packets appended one after another share the cap |
| `RtcpNack.PacketUncapped` | internal/rtcp/nack.go:200-221 | The sixteen pairs of a packet expand below the cap |
| `AdvNack.EncodeBitmask` | internal/adv/adv_ctrl.go:208-237 | For any list, in any order, with repeats, the entries ask for exactly its numbers; within half the sequence space they start more than 32 apart, across the wrap |
| `AdvNack.BitmaskFewest` | internal/adv/adv_ctrl.go:204-237 | No entries asking for the same numbers are fewer |
| `AdvNack.EncodeRange` | internal/adv/adv_ctrl.go:244-281 | For any list the entries ask for exactly its numbers, every NALP is at most 9999, and no entry could have been joined to the one before; within half the sequence space they lie one after the other |
| `AdvNack.RangeFewest` | internal/adv/adv_ctrl.go:239-281 | No range entries with NALP at most 9999 that ask for the same numbers are fewer |
| `AdvNack.OverCapIsFewer` | internal/adv/adv_ctrl.go:180-190 | The receiving cap is one higher than the sending one, so an entry over the sender's cap could replace two |
| `AdvNack.Missing` | internal/adv/adv_ctrl.go:133-142 | A bitmask entry expands to exactly what it asks for |
| `AdvNack.MissingRange` | internal/adv/adv_ctrl.go:180-190 | A range entry expands to exactly what it asks for, up to the cap, in order |
| `AdvNack.SortedByPosition` | internal/adv/adv_ctrl.go:283-295 | Within half the sequence space sorting by signed distance from the first is sorting by position, across the wrap |
| `Bonding.ExactShares` | internal/bonding/bonding.go:397-432 | From a fresh round with the same paths live: after k whole rounds each path was chosen exactly k * weight times, in between never less and never more than one weight above; other paths are never chosen |
| `Bonding.RoundsStartFresh` | internal/bonding/bonding.go:134-143 | A group built by adding paths, or just re-weighted, is at the start of a round |
| `Bonding.SelectKeeps` | internal/bonding/bonding.go:397-417 | Whatever the clock says and whichever paths have died, an election keeps every credit between 0 and its weight, elects only a live weighted path, and elects none only if none is live |
| `Bonding.BestIs` | internal/bonding/bonding.go:421-432 | The path elected is live, no live path has more credit, and none before it has as much |
| `Bonding.OthersKeep` | internal/bonding/bonding.go:134-448 | Adding, observing and re-weighting paths keep credits in range and indices distinct |
| `Bonding.LiveUntilTimeout` | internal/bonding/bonding.go:134-187 | Over every run of registrations, weights, sightings and elections a registered path may carry traffic exactly when the weight last given is positive and it was never heard from, or last heard no longer ago than the timeout |
| `Bonding.RunDescribed` | internal/bonding/bonding.go:134-448 | Over every run a group holds exactly the paths registered, each with the weight last given and the instant last heard |
| `Bonding.ElectInRound` | internal/bonding/bonding.go:397-417 | One election keeps the account of rounds, credits and choices |
| `Bonding.PathGroup.SelectWeighted` | internal/bonding/bonding.go:397-417 | Electing in place is the abstract election |
| `Bonding.PathGroup.BestWeighted` | internal/bonding/bonding.go:421-432 | The scan finds the abstract best |
| `Bonding.PathGroup.RefillAll` | internal/bonding/bonding.go:405-412 | A new round refills exactly the live weighted paths |
| `Bonding.PathGroup.ChangeWeight` | internal/bonding/bonding.go:439-448 | Re-weighting restarts the round; an unknown index changes nothing |
| `Bonding.PathGroup.RegisterPath` | internal/bonding/bonding.go:134-143 | A path is added, or updated in place if its index is known |
| `Bonding.PathGroup.ObservePath` | internal/bonding/bonding.go:179-187 | Hearing from a path refreshes it |
| `Psk.RoundTrip` | internal/crypto/psk.go:328-489 | Whatever the sender encrypts, through every rotation, a receiver with the same passphrase reads back in whatever order and however often it arrives, with true announcements in between; it refuses exactly the packets of a zero nonce and those past the reuse limit |
| `Psk.Transparent` | internal/crypto/psk.go:449-489 | After any such run any packet decrypts to the plaintext it carries, except exactly when its nonce is zero, or is the live one and has passed the reuse limit |
| `Psk.DecryptIgnoresCache` | internal/crypto/psk.go:449-489 | Decryption depends on passphrase, packet and key size alone; live and pre-derived keys never show |
| `Psk.CachesStayTrue` | internal/crypto/psk.go:404-489 | Whatever is cached is what would be derived, after every operation |
| `Psk.EncryptKeeps` | internal/crypto/psk.go:293-337 | Encryption keeps nonce, marker bit and key together, and yields a packet exactly unless a new nonce was due and the random source gave none; then nothing changes |
| `Psk.NonceCovers` | internal/crypto/psk.go:307-337 | Packets made with no rotation due in between share one nonce, and are never more than the rotation threshold or the reuse limit |
| `Psk.NonceSchedule` | internal/crypto/psk.go:307-337 | From an unused nonce, if the random source gives one whenever one is due: every nonce covers exactly its number of packets, the rotation threshold or without one the reuse limit, and the next is the draw made at that packet, with its marker bit set |
| `Psk.RotatesWhenSpent` | internal/crypto/psk.go:307-337 | A new nonce is drawn exactly when the one in force has covered its packets; if none can be drawn nothing is sent and nothing changes |
| `Psk.NonceIs` | internal/crypto/psk.go:608-632 | A drawn nonce carries its passphrase's marker bit, and is zero if and only if it is for the even passphrase and the draw was nothing but the marker bit |
| `Psk.EvenMarkerIsZero` | internal/crypto/psk.go:608-632 | The one draw that makes a zero nonce |
| `PskMachine.DrawNonce` | internal/crypto/psk.go:608-632 | The loop of eight draws computes the abstract nonce |
| `Psk.AllCarry` | internal/crypto/psk.go:328-337 | Across any number of rotations each packet carries what was handed in |
| `Psk.CryptTwice` | internal/crypto/psk.go:562-579 | Counter mode undoes itself |
| `Psk.CounterValue` | internal/crypto/psk.go:199-203 | Block j of packet s runs under counter s * 2^96 + j |
| `Psk.CountersDistinct` | internal/crypto/psk.go:194-203 | No two blocks, of one packet or of packets with different sequence numbers, share a counter |
| `Psk.IncrementAdds` | internal/crypto/psk.go:583-590 | The carry loop adds one to the big-endian counter, modulo its size |
| `PskMachine.CtrState.Apply` | internal/crypto/psk.go:562-579 | The block loop computes counter mode |
| `PskMachine.IncrementCounter` | internal/crypto/psk.go:583-590 | The in-place carry is the abstract increment |
| `PskMachine.SendKey.EncryptPacket` | internal/crypto/psk.go:328-337 | Rotating if due and encrypting in place is the abstract step; if no nonce can be drawn the destination is handed back with the error |
| `PskMachine.ReceiveKey.DecryptPacket` | internal/crypto/psk.go:449-489 | Keeping, promoting or deriving a key and decrypting in place is the abstract step; on any error the destination is handed back as it was |
| `PskMachine.ReceiveKey.PrecomputeKey` | internal/crypto/psk.go:419-441 | Deriving ahead in place is the abstract step |
| `PskMachine.ReceiveKey.ChangeKeyBits` | internal/crypto/psk.go:404-411 | A changed key size forgets the cached keys |
| `PskMachine.NewKey` | internal/crypto/psk.go:258-279 | A key is made exactly for a valid size, a non-empty passphrase, a non-negative rotation and a working random source, each refusal names its reason, and the rotation is kept modulo 2^32 |
| `Psk.NewInStep` | internal/crypto/psk.go:383-395 | A new decryptor meets what the round trip asks of its first state |
| `PskMachine.NewReceiveKey` | internal/crypto/psk.go:383-395 | A decryptor is made exactly for a valid size and a non-empty passphrase |

## Left out

- Public API, URL and configuration parsing, statistics export, tunnels, command-line tools and examples: plumbing and range checks.
- Goroutines, sockets and real clocks: the model drives the core with an arbitrary network and arbitrary instants.
- Overflow of 64-bit instants, durations, rates and counters: integers are unbounded.
- Byte counters and the per-path media counters: only written, never read by the core.
- The heuristic constants of the recovery-buffer auto-scaling (internal/flow/receiver.go:293-357) and of internal/adapt: the buffer it settles on is an arbitrary value in the model.
- The wire identity of a path (PathID) and per-path round trips: paths are integers; NACK path selection and duplicate targets (internal/bonding/bonding.go:272-369) would only add single-branch members.
- Draining the output and event queues (internal/flow/flow.go:588-638): the model keeps every output and event in order.
- Slice capacity, buffer reuse and aliasing of destination and source buffers in the codecs and the cipher: destinations are values.
- FEC and media headers beyond the FEC header: fixed-layout packing. The RTCP and control-message framing around NACK records is left out for the same reason.
- DTLS and EAP handshakes, certificates and the cryptographic primitives themselves.
- "A delivered packet is never requested again" is not claimed: delivery empties the slot, so a queued loss may still be requested.
- FlowSystem.EndToEnd: does not cover pushes with an explicit sequence number, which may reuse a sequence for other data; and it stops at 2^31 pushes, where a receiver can no longer tell ahead from behind.
- Receiver.FlowReceiver.HandleTimer: the auto-scaled buffer enters as a parameter, because its heuristics are floating point.
- AdvNack.SortedByPosition: the library sort is modelled on values, as the list in order of signed distance; that it works in place is not captured.
- Bonding.PathGroup.SelectWeighted: returns the elected path's position, not its index; positions and indices correspond one to one.
- Bonding.PathGroup.RegisterPath: leaves out the path's round-trip estimator and its counters, which the rotation does not read.
- Bonding.RunDescribed: leaves out removing a path (internal/bonding/bonding.go:148-158), which only takes an element out of the list.
- Bonding.PathGroup.ObservePath: leaves out the flag that makes a path's death reported once, which the rotation does not read.
- FecWire.WireRoundTrip: the padding, extension, CSRC and marker recovery fields of ST 2022-5 are written as the encoder writes them, zero.
- Handshake.HandsOverInOrder: stops short of 65536 messages, where message numbers would repeat.
- Lz4Codec.CompressWith: how much is saved is stated for equal bytes only; on other data it depends on which positions collide in the hash table.
