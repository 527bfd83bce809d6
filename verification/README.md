# UTCP, a user-space TCP: model and proofs

This project models the core of UTCP, a TCP that runs in user space over UDP, and proves what its
handlers keep over whole runs. Two descriptions of one endpoint are tied together:

- **Functions on stream positions** (`Reassembly`, `Congestion`, `RttEstimator`, `WindowScale`, `Endpoint`):
  every lock-held handler (`utcp_send`, `utcp_read`, segment arrival, timer tick) is a function on an
  `Endpoint` value. Positions are unbounded integers; the wire number of position `p` is
  `iss + 1 + p` modulo 2^32. The functions carry the history (segments sent, fast retransmissions, bytes
  read) that the theorems speak about.
- **Classes that update fields in place** (`ReceivePath.ReceiveSide`, `SendPath.SendSide`,
  `CongestionControl.Controller`, `RttEstimator.Estimator`, `TimerBlock.Block`, `Tcb.Tcb`,
  `Predictor.BinRing`): 32-bit counters, rings in arrays, `SEQ_*` tests, loops as in the source. Each
  method is proved to turn the value its object represents into the function's result. The fields of
  the C struct are grouped by what uses them; the linked reassembly list is a sequence of entries.

Main results:

- **End to end** (`Connection`, `Exchange`): over a network that loses, repeats and reorders segments, in every state
  of every run the bytes read are a prefix of the bytes sent, `snd_una` never passes the peer's
  `rcv_nxt`, and once `utcp_drain` can return the peer holds everything.
- **Flow control** (`FlowControl`, `Acceptance`, `PastMax`): the sender never sends past the peer's buffer
  except by fast retransmission, how far the peer can have accepted, which segments it must accept, and
  the stall that a fast retransmission past `snd_max` can cause.
- **One endpoint, any input** (`EndpointInvariant`, `Run`, `Recovery`): sender order and buffer bounds, genuineness
  of every payload sent or retransmitted, the retransmission timer running exactly when data is
  unacknowledged, the delayed-ACK equivalence, and NewReno's recovery discipline over whole runs.
- **Delayed ACK in time** (`DelayedAck`): whatever arrives and whatever the application does, a pending
  ACK leaves by the twentieth tick, and covers everything received in order when the count began.
- **Reassembly** (`Reassembly`, `Arrival`, `ReceivePath`): exact coverage after each insertion and each drain, shared
  space never overrun, 32-bit wrap-around handled throughout.
- **Windows, backoff and RTT samples over runs** (`WindowFloor`, `WindowRuns`, `Backoff`, `Karn`,
  `TickSample`): how long
  `cwnd` keeps its floor, LSTM-Reno against NewReno in every reachable state, `t_rxtshift` against its
  table, what the tick counter measures and which samples are of data sent exactly once.
- **Output** (`Burst`, `WorkConserving`): closed form of everything `utcp_output` does, and that data that
  may be sent never waits.
- **Loss** (`Retransmission`, `FastRetransmit`, `LossResponse`): what a timeout and a third duplicate send, how
  the timer is set, and that recovery ends at half the flight it began with.
- **Congestion windows, RTT estimator, rings, wire form, bin ring and cooldown**: see the table.

Some expected statements turn out false; the code is kept as it is, a concrete run or input shows the
failure, and the exact condition is proved: plain union coverage of the reassembly queue
(`InsertIsUnionIff`), the sender's backlog and retransmission length past 2^31 - 1 and 2^32 bytes
(`BufferedExactIff`, `ResendableExactIff`), the one-segment floor of `cwnd` (`FloorIff`, `FloorSafeIff`,
failing run `CwndCollapses`), the comparison of stored LSTM-Reno and NewReno windows
(`LstmNeverMoreAggressive`; in runs it always holds, `LstmBelowInRuns`), the bounds of the backoff table
(`OverrunsIff`, failing run `OneByteOverruns`), the peer's `rcv_nxt` staying at or below `snd_max`
(`AcceptedWithin` gives the bound that does hold, failing run `AcceptedPastMax`) and Karn's rule (`SampleIsCleanIff`, failing runs
`ClassicSampleSpoiled` and `ModernSampleSpoiled`). `OverlapRefused` is a concrete in-window segment that is
refused, so the disjointness asked for by `InWindowAccepted` is needed.
Where comments and code differ the code is followed: the comment above the
reassembly insertion says overlapping bytes are only trimmed, the code also drops the held bytes below
the new segment's start; `tcp.h` speaks of 500 ms ticks, the code uses 10 ms.

Dafny's `hide` statement keeps proofs about compositions from unfolding the composed functions; it only
removes facts from the solver.

## Model

| member | source | states |
|---|---|---|
| Serial.SerialOrder | include/utcp/utcp_utils.h:15-18 | the four SEQ macros order any two positions less than 2^31 apart, across wrap-around |
| Serial.UnwrapWrap | include/utcp/utcp_utils.h:15-18 | a position within 2^31 of a reference is recovered from its wire number |
| Ring.WrapClean | include/utcp/net/tcp.h:72-78 | wrapping a counter modulo 2^32 never changes its ring cell if and only if the ring size divides 2^32 |
| Ring.Read | src/utcp/utcp_utils.c:20-37 | the bytes found cell by cell from the counter on, across the split copy |
| Ring.Write | src/utcp/utcp_utils.c:39-56 | every cell holds the source byte at its distance from the counter, or its old byte past the source |
| Ring.Append | src/utcp/api.c:145-150 | a write of at most the free space at a wrapped tail counter appends to the FIFO and alters no unread byte |
| Ring.Slice | src/utcp/utcp_output.c:323-329 | a read at a wrapped counter inside the held range is that slice of the FIFO |
| Ring.HoldsSuffix | src/utcp/api.c:185-187 | moving the head counter drops exactly that many bytes from the front |
| Reassembly.CountIsCoverage | include/utcp/net/tcp.h:252-256 | `ooo_bytes` is the number of stream positions the queue covers |
| Reassembly.TrimFrontExact | src/utcp/utcp_input.c:266-285 | absorbing and trimming leaves exactly the coverage at or past the segment's end, still sorted |
| Reassembly.InsertSorted | src/utcp/utcp_input.c:211-297 | each insertion keeps the queue ascending, disjoint and without empty entries, and adds at most the segment's bytes |
| Reassembly.InsertCoverage | src/utcp/utcp_input.c:211-297 | position by position: the segment, plus the old coverage minus the part below the segment's start of an entry straddling it |
| Reassembly.InsertIsUnionIff | src/utcp/utcp_input.c:224-247 | coverage below the segment survives if and only if no entry straddles its start |
| Reassembly.InsertLosesPrefix | src/utcp/utcp_input.c:224-247 | a concrete queue on which held bytes are dropped |
| Reassembly.DrainExact | src/utcp/utcp_input.c:309-364 | the covered run at `rcv_nxt` up to the first gap is delivered in order, the rest is kept, the queue then lies strictly past `rcv_nxt`, and the space test in the loop never fails |
| Reassembly.ArriveConsistent | src/utcp/utcp_input.c:557-671 | unread plus queued bytes never exceed the buffer after any arrival; no accepted byte is withdrawn; `rcv_nxt` moves exactly on acceptance |
| Reassembly.InWindowAccepted | src/utcp/utcp_input.c:593-607 | with queued bytes and a disjoint in-order segment within one buffer length of the read position, the segment is accepted |
| Reassembly.OverlapRefused | src/utcp/utcp_input.c:593-607 | an in-window segment overlapping a queued byte can be refused |
| Reassembly.DrainFaithful | src/utcp/utcp_input.c:309-364 | draining keeps everything held equal to the peer's stream |
| Reassembly.ArriveFaithful | src/utcp/utcp_input.c:557-671 | a genuine segment, old, new, overlapping or early, keeps everything held equal to the peer's stream |
| Reassembly.TakeFaithful | src/utcp/api.c:180-193 | a read hands over the next stream bytes, keeps the rest and frees that much window |
| Arrival.ArriveOutcome | src/utcp/utcp_input.c:573-668 | which of the four outcomes a segment has, by its place and whether its new bytes fit, each if and only if; refused and old segments change nothing |
| Arrival.EarlyQueued | src/utcp/utcp_input.c:211-297 | an early segment that fits is queued: coverage is overlaid, `rcv_nxt` and the unread bytes stay |
| Arrival.InOrderAccepted | src/utcp/utcp_input.c:593-658 | an in-order segment takes `rcv_nxt` to the first position past it that is not queued, and reports a filled gap exactly if the next position was queued |
| Arrival.ArriveHolds | src/utcp/utcp_input.c:557-671 | for every position the byte held, unread or queued, after any arrival |
| Arrival.GapFilled | src/utcp/utcp_input.c:659-666 | a segment that arrives before the one it follows is not lost: once the missing bytes arrive, all of it has been received in order |
| Arrival.TakeExact | src/utcp/api.c:180-187 | a read takes as many bytes as asked for and available |
| ReceivePath.NumberOrder | include/utcp/utcp_utils.h:15-18 | serial comparison of two numbers of one stream is comparison of their positions |
| ReceivePath.FindSlot | src/utcp/utcp_input.c:224-247 | the walk stops at the first entry reaching past the segment's start; the start-trim block after it never runs |
| ReceivePath.Absorb | src/utcp/utcp_input.c:266-285 | the absorb loop leaves the trimmed queue and gives back exactly its bytes |
| ReceivePath.InsertStored | src/utcp/utcp_input.c:222-294 | the stored queue and `ooo_bytes` after both loops are those of the position-based insertion |
| ReceivePath.Classify | src/utcp/utcp_input.c:311-345 | the three tests of the drain loop decide where the head entry lies relative to `rcv_nxt` |
| ReceivePath.ReceiveSide.FreeSpace | src/utcp/utcp_input.c:595-597 | the 32-bit expression is the true free space |
| ReceivePath.ReceiveSide.InsertOoo | src/utcp/utcp_input.c:211-297 | the whole insertion, including the out-of-space drop, follows the position-based one across wrap-around |
| ReceivePath.ReceiveSide.DropHead | src/utcp/utcp_input.c:314-326 | discarding a redundant head entry does not change what the drain will do |
| ReceivePath.ReceiveSide.TrimHead | src/utcp/utcp_input.c:328-340 | trimming a partly redundant head entry does not change what the drain will do |
| ReceivePath.ReceiveSide.ConsumeHead | src/utcp/utcp_input.c:342-362 | moving the head entry into the ring; the full-buffer branch is unreachable |
| ReceivePath.ReceiveSide.DrainOoo | src/utcp/utcp_input.c:309-364 | the loop terminates and performs the position-based drain |
| ReceivePath.ReceiveSide.AcceptInOrder | src/utcp/utcp_input.c:593-658 | acceptance or refusal of an in-order segment, and whether a gap was filled |
| ReceivePath.ReceiveSide.Arrives | src/utcp/utcp_input.c:564-668 | the receive half of segment arrival on 32-bit numbers follows the position-based one |
| ReceivePath.ReceiveSide.Take | src/utcp/api.c:180-187 | the read counter and ring refine taking bytes off the front of the unread sequence |
| RttEstimator.SampleBounded | src/utcp/net/timer.c:184-245 | one sample keeps the bounds on `t_srtt`, `t_rttvar` and `t_rxtcur` |
| RttEstimator.EstimateBounded | src/utcp/net/timer.c:184-245 | for every sample sequence: 8 min <= `t_srtt` <= 8 max, `t_rttvar` < 4 max, `t_rxtcur` in 20..6400 |
| RttEstimator.NeverReinitialised | src/utcp/net/timer.c:194-208 | `t_srtt` is 0 only before the first sample |
| RttEstimator.TicksExact | src/utcp/net/timer.c:184-192 | a sample is counted in whole ticks, at least one |
| RttEstimator.FirstSample | src/utcp/net/timer.c:194-208 | rule 2.2 of RFC 6298: SRTT = R, RTTVAR = R/2, timeout 3 R within its range |
| RttEstimator.SampleWeights | src/utcp/net/timer.c:210-232 | rule 2.3: weights of one eighth and one quarter, rounded by less than one unit |
| RttEstimator.RtoExact | src/utcp/net/timer.c:234-245 | the timeout is SRTT + 4 RTTVAR, kept within 20..6400 ticks |
| RttEstimator.RtoCovers | src/utcp/net/timer.c:234-245 | the timeout is never below the sample just taken, up to the cap |
| RttEstimator.ConstantSamples | src/utcp/net/timer.c:184-245 | for a constant round trip R, SRTT stays at R and the timeout comes down to at most R + 3 ticks within 2 R samples |
| RttEstimator.Estimator.XmitTimer | src/utcp/net/timer.c:184-245 | the 32-bit updates equal the integer ones |
| RttEstimator.BackedOff | src/utcp/net/timer.c:41-51 | a backed-off timeout stays within 20..6400 ticks |
| RttEstimator.BackoffDoubles | src/utcp/net/timer.c:14-14 | each of the first six expirations doubles the timeout up to the cap, later ones keep it |
| Congestion.Halve | src/utcp/cc/core.c:42-45 | half the flight, rounded down, and never below two segments |
| Congestion.GrowthBound | src/utcp/cc/core.c:25-38 | an ACK adds at most one segment and at most the bytes it acknowledges |
| Congestion.ControlInRange | src/utcp/cc/core.c:10-64 | every event keeps the 32-bit ranges and `ssthresh` at two segments or more |
| Congestion.FloorIff | src/utcp/cc/core.c:18-64 | an event keeps `cwnd` at one segment or more if and only if what it adds to the present `cwnd`, guard by guard, stays below 2^32 |
| WindowFloor.RunFloors | src/utcp/cc/core.c:10-64 | after INIT, n ACKs and duplicates with at most f bytes in flight leave `cwnd` between one segment and a ceiling linear in n, under all four algorithms, timeouts not counted |
| WindowFloor.PumpReaches | src/utcp/cc/new_reno.c:58-88 | the ceiling is attained by n acknowledgements |
| WindowFloor.PumpCollapses | src/utcp/cc/new_reno.c:83-87 | past 2^32 such a sequence takes `cwnd` below one segment |
| WindowFloor.FloorSafeIff | src/utcp/cc/core.c:10-64 | all sequences with at most n acknowledgements keep the floor if and only if the ceiling is below 2^32 |
| Congestion.AvoidanceIsLinear | src/utcp/cc/core.c:30-38 | in congestion avoidance n ACKs for at most one window add at most MSS + n bytes |
| Congestion.LstmRefinesNewReno | src/utcp/cc/lstm_reno.c:11-113 | with a silent predictor LSTM-Reno is NewReno on every event sequence |
| Congestion.LstmNeverMoreAggressive | src/utcp/cc/lstm_reno.c:51-70 | with any predictor the stored `ssthresh` is at most NewReno's and at least two segments, all else is equal, and the stored `cwnd` is at most NewReno's if and only if it is not the case that NewReno's addition alone carries out of 32 bits |
| Congestion.LstmOvertakes | src/utcp/cc/core.c:25-38 | a concrete state at the top of the range where NewReno's addition carries and LSTM-Reno's does not |
| Congestion.TimeoutNeverRaises | src/utcp/cc/core.c:47-64 | a timeout restarts from one segment under every algorithm, and in recovery or loss never raises `ssthresh` |
| LossResponse.InitWindows | src/utcp/cc/core.c:10-16 | three segments of `cwnd`, the highest `ssthresh`, and the recovery point before the first byte |
| LossResponse.LossHalves | src/utcp/cc/new_reno.c:58-82 | the third duplicate halves the flight into `ssthresh` under all four algorithms, sets `cwnd`, the state and the recovery point, and asks for the retransmission |
| LossResponse.EarlyDuplicate | src/utcp/cc/new_reno.c:58-88 | a duplicate that does not count changes nothing |
| LossResponse.TimeoutHalves | src/utcp/cc/core.c:47-64 | a timeout halves the smaller of flight and `cwnd`, or keeps a lower `ssthresh` during recovery and loss |
| LossResponse.PredictionHalves | src/utcp/cc/lstm_reno.c:51-70 | a fired prediction halves the flight into `ssthresh` exactly if that lowers it |
| LossResponse.DuplicateInflates | src/utcp/cc/new_reno.c:83-87 | a further duplicate adds one segment and asks for output, or changes nothing |
| LossResponse.PartialAckDeflates | src/utcp/cc/new_reno.c:36-51 | a partial ACK takes its bytes out of `cwnd`, adds one segment and asks for a retransmission |
| LossResponse.RecoveryHalves | src/utcp/cc/new_reno.c:17-99 | whatever happens in between, recovery ends with `cwnd` at half the flight it began with |
| LossResponse.AckGrows | src/utcp/cc/core.c:18-40 | an ACK outside recovery adds its growth to `cwnd`, modulo 2^32, and ends a loss state |
| LossResponse.GrowthExact | src/utcp/cc/core.c:25-38 | slow start adds the bytes acknowledged up to one segment; avoidance the whole bytes of MSS acked / cwnd, at least one, exactly one segment for a whole window |
| LossResponse.AvoidanceGrows | src/utcp/cc/core.c:30-38 | the lower bound that goes with `AvoidanceIsLinear` |
| CongestionControl.Controller.CcInit | src/utcp/cc/core.c:10-16 | the INIT values |
| CongestionControl.Controller.CcAimd | src/utcp/cc/core.c:18-40 | the 32-bit update follows the integer growth, stored modulo 2^32 |
| CongestionControl.Controller.CcTimeout | src/utcp/cc/core.c:47-64 | the cut, never raising `ssthresh` during recovery or loss |
| CongestionControl.Controller.OnTahoe | src/utcp/cc/tahoe.c:9-46 | the event switch follows the Tahoe function |
| CongestionControl.Controller.OnReno | src/utcp/cc/reno.c:12-65 | the event switch follows the Reno function |
| CongestionControl.Controller.RecoveryAck | src/utcp/cc/new_reno.c:17-53 | full and partial ACK in recovery, with the serial test on `recover` |
| CongestionControl.Controller.RecoveryDup | src/utcp/cc/new_reno.c:58-88 | entry guard, recorded `recover`, inflation |
| CongestionControl.Controller.OnNewReno | src/utcp/cc/new_reno.c:10-100 | the event switch follows the NewReno function |
| CongestionControl.Controller.OnLstmReno | src/utcp/cc/lstm_reno.c:11-113 | the event switch follows the LSTM-Reno function, for either answer of the predictor |
| WindowScale.ChooseScale | src/utcp/api.c:105-110 | the loop finds the least scale, up to 14, at which the size fits 16 bits |
| WindowScale.RcvScaleIsChosen | src/utcp/api.c:105-110 | for the receive buffer that scale is 5 |
| WindowScale.AdvertisedWindow | include/utcp/utcp_utils.h:25-40 | the decoded window is at most the free space and less than one scale unit below it |
| Burst.BurstBytes | src/utcp/utcp_output.c:89-134 | within the quota; a multiple of MSS, or the whole quota when the pipe is empty and the quota below MSS; nothing only if nothing is allowed or Nagle holds it |
| Burst.PiecesTile | src/utcp/utcp_output.c:108-112 | a burst is cut into full segments one after the other, and at most the last is shorter |
| Burst.ChunkIsFirstPiece | src/utcp/utcp_output.c:83-145 | each pass sends the first piece of the closed form and leaves the rest of it |
| Burst.LoopClosedForm | src/utcp/utcp_output.c:80-229 | the loop terminates having sent exactly those segments and left every field as stated, RTT tracking included |
| Burst.FirstNewLeast | src/utcp/utcp_output.c:189-203 | the segment a burst times starts at the first segment boundary not below `snd_max` |
| Burst.TimersStep | src/utcp/utcp_output.c:189-213 | one pass and the rest of the burst set the timers as the closed form does, which times that segment if the burst reaches it and nothing is timed yet |
| Burst.OutputClosedForm | src/utcp/utcp_output.c:59-237 | closed form of a whole call, with the forced ACK |
| Burst.WindowRespected | src/utcp/utcp_output.c:85-119 | sending never takes the flight above `min(snd_wnd, cwnd)`; exactly `BurstBytes` are sent; less than MSS of quota remains |
| Burst.OutputIdempotent | src/utcp/utcp_output.c:59-237 | an immediate second call sends nothing and changes nothing |
| WorkConserving.OutputIdles | src/utcp/utcp_output.c:80-229 | after an output call nothing more may be sent |
| WorkConserving.IdleMeans | src/utcp/utcp_output.c:85-134 | that is: nothing is buffered, a window is used up, or Nagle holds less than one MSS |
| WorkConserving.ReactIdles | src/utcp/utcp_input.c:405-671 | every handler keeps it, unless it refused a payload for lack of space |
| WorkConserving.IdleInRuns | src/utcp/utcp_input.c:653-658 | in every run without such a refusal the sender never sits on data it may send |
| EndpointInvariant.EstablishedInv | src/utcp/utcp_input.c:142-161 | a connection straight after the handshake satisfies the invariant |
| EndpointInvariant.OutputKeeps | src/utcp/utcp_output.c:59-237 | output keeps the invariant, leaves no forced ACK pending, and sends only genuine slices from the send buffer |
| EndpointInvariant.RetransmitKeeps | src/utcp/utcp_output.c:25-53 | a fast retransmission is a genuine slice at `snd_una` and larger than every earlier one |
| EndpointInvariant.NextCcKeeps | src/utcp/cc/new_reno.c:17-99 | every event keeps una < recover <= max in recovery and retransmits only new sequence numbers |
| EndpointInvariant.CongestKeeps | src/utcp/utcp_input.c:505-551 | a congestion event with its retransmission or burst keeps the invariant and moves only what it may |
| EndpointInvariant.SlideKeeps | src/utcp/utcp_input.c:413-503 | a new ACK moves una, measures and re-arms: timer positive exactly when data is outstanding |
| EndpointInvariant.HandleAckKeeps | src/utcp/utcp_input.c:411-555 | for any ACK number una moves to it exactly if it lies in (una, max], and everything is kept |
| EndpointInvariant.HandleDataKeeps | src/utcp/utcp_input.c:557-671 | for any payload the delayed-ACK rules and the receive space are kept |
| EndpointInvariant.OnSegmentKeeps | src/utcp/utcp_input.c:405-671 | a whole arrival of any segment keeps the invariant |
| EndpointInvariant.OnSendKeeps | src/utcp/api.c:121-163 | a send pass keeps the invariant and every earlier segment genuine |
| EndpointInvariant.OnReadKeeps | src/utcp/api.c:165-209 | a read keeps the invariant and appends exactly the bytes handed over |
| EndpointInvariant.RexmtExpiredKeeps | src/utcp/net/timer.c:38-85 | expiry, rollback, cut and burst keep the invariant |
| Retransmission.ExpiryResends | src/utcp/net/timer.c:53-85 | an expiration sends exactly one segment if the window is open: the bytes at `snd_una`, as many as one segment and the window allow; `snd_nxt` is then right behind them |
| Retransmission.EveryExpiryResends | src/utcp/net/timer.c:53-85 | in every run every expiration with an open window sends the byte at `snd_una` again |
| Retransmission.OutstandingIsResent | src/utcp/net/timer.c:147-156 | with data outstanding and nothing arriving, that happens by the time the timer has run out |
| Retransmission.BackedOffExact | src/utcp/net/timer.c:14-51 | the backed-off timeout is the estimate doubled once per expiration, six times at most, up to the cap |
| Retransmission.ExpiryBacksOff | src/utcp/net/timer.c:38-51 | an expiration sets the timer to the timeout doubled once more and keeps the estimate |
| Retransmission.DataArmsTimer | src/utcp/utcp_output.c:207-213 | sending data starts a stopped timer with the estimate and leaves a running one alone |
| Retransmission.AckRearms | src/utcp/utcp_input.c:475-503 | a new ACK stops the timer or sets it to the backed-off value of the newest estimate |
| EndpointInvariant.TickDelackKeeps | src/utcp/net/timer.c:103-108 | the delayed-ACK timer forces the ACK out when it expires |
| EndpointInvariant.OnTickKeeps | src/utcp/net/timer.c:138-156 | a whole tick keeps the invariant |
| Connection.DeliverLinked | src/utcp/utcp_input.c:405-671 | delivering any segment the peer ever sent keeps both streams faithful and both releases covered |
| Connection.ReactLinked | src/utcp/utcp_input.c:405-671 | every handler of either side keeps the two-endpoint invariant |
| Connection.RunGrows | src/utcp/utcp_input.c:405-671 | streams, histories, acknowledgements and reads never go backwards along a run |
| Connection.EndToEnd | src/utcp/api.c:121-209 | in every state of every run, bytes read are a prefix of bytes sent, both ways |
| Connection.NoEarlyRelease | src/utcp/utcp_input.c:411-441 | in every state of every run, una <= peer's rcv_nxt <= tail |
| Connection.DrainedMeansDelivered | src/utcp/api.c:291-301 | when the drain condition holds on either side, everything it sent by then is held or read by the peer, then and later |
| Connection.PayloadsFromBuffer | src/utcp/utcp_output.c:325-329 | whatever a step of either side sends lies in [head, tail) and is the slice its number names |
| Connection.WireReach | src/utcp/utcp_input.c:659-666 | every deliverable segment, in either direction, lies within the reach of serial arithmetic, so its numbers decode exactly |
| Exchange.Deliver | src/utcp/utcp_input.c:405-671 | handing any packet the peer's block ever sent to the other block is the delivery step of the two-endpoint runs on what the blocks represent, and keeps both directions linked |
| Exchange.PacketRoundTrip | src/utcp/utcp_output.c:247-329 | the bytes written for a packet parse back to it, with the echoed timestamp, whatever the buffer held before |
| Exchange.ReceiveBytes | src/utcp/utcp_input.c:683-709 | any datagram of at least a header is parsed and handled as the packet it holds |
| Exchange.DeliverBytes | src/utcp/utcp_output.c:242-336 | writing a sent packet into bytes, then parsing and handling them at the other block, is that delivery step too |
| FlowControl.OutputEmits | src/utcp/utcp_output.c:85-119 | output advertises the present window and never takes `snd_max` past `snd_una` + `snd_wnd` |
| FlowControl.ReactMoves | src/utcp/utcp_input.c:411-555 | on any stimulus `snd_una` and `snd_wnd` change together and only as one segment offers, `snd_max` stays within that offer, and no window past the receive buffer is ever advertised |
| FlowControl.EmitsAnnounce | src/utcp/utcp_output.c:303-321 | every segment sent announces all the free space, up to one unit of the scale or 65535 |
| FlowControl.ReadAnnounces | src/utcp/api.c:189-203 | a read announces the freed space at once if an MSS is free or the buffer had been full, and otherwise sends nothing |
| FlowControl.StalledForGood | src/utcp/utcp_input.c:413-415 | with the window used up, over any run whose acknowledgements all lie past `snd_max`, `snd_una`, `snd_max` and `snd_wnd` never change |
| Acceptance.PastMaxIsResent | src/utcp/utcp_output.c:34-43 | a byte at or past `snd_max` that has been sent was sent by a fast retransmission |
| Acceptance.RunHoldsSent | src/utcp/utcp_input.c:557-671 | in every run the receiver holds only bytes that have been sent |
| Acceptance.AcceptedWithin | src/utcp/utcp_output.c:34-43 | in every run the peer's `rcv_nxt` is at most the larger of `snd_max` and the end of the furthest fast retransmission |
| Acceptance.AcceptedBelowMax | src/utcp/utcp_input.c:413-415 | it is at most `snd_max` unless a fast retransmission reached past it |
| Acceptance.FlowControlled | src/utcp/utcp_output.c:85-119 | after a handshake with matching scales, in every run the offered window and everything output sends lie within the peer's receive buffer |
| Acceptance.OnlyResentPassEdge | src/utcp/utcp_output.c:34-43 | only a fast retransmission carries a byte past the end of the peer's buffer |
| Acceptance.HonestAccepted | src/utcp/utcp_input.c:593-607 | unless one has, the peer accepts every sent segment that brings its next byte and overlaps nothing queued |
| PastMax.ProbeStalls | src/utcp/utcp_input.c:413-415 | a run from the handshake after which the sender never moves again if only acknowledgements past `snd_max` arrive |
| PastMax.AcceptedPastMax | src/utcp/utcp_output.c:34-43 | a run of two endpoints in which the peer's `rcv_nxt` passes the sender's `snd_max` |
| Connection.LockReleaseFacts | src/utcp/net/timer.c:138-156 | sender order, timer equivalence and range, delayed-ACK equivalence and receive space in every state of every run |
| Run.ReactKeeps | src/utcp/utcp_input.c:405-671 | every handler keeps the invariant on any stimulus, and moves `snd_una` and the stream exactly as stated |
| Run.FinalKeeps | src/utcp/utcp_input.c:405-671 | so does every sequence of handlers, and what it sends acknowledges all that had been received in order at its start |
| Run.CcFollows | src/utcp/utcp_input.c:505-551 | the congestion state moves by the one event a handler raises and by nothing else |
| WindowRuns.CcIsAfter | src/utcp/utcp_input.c:505-551 | the congestion state of a run is the algorithm applied to its event sequence, with no more acknowledgements than arrivals |
| WindowRuns.FloorInRuns | src/utcp/cc/core.c:10-64 | a run keeps both window floors while too few segments arrive to build `cwnd` up to 2^32 |
| WindowRuns.FloorStepIff | src/utcp/cc/core.c:18-64 | one handler keeps the floor if and only if the event it raises adds too little to carry |
| WindowRuns.SettledInRuns | src/utcp/cc/new_reno.c:17-99 | over runs of any length of every algorithm but Reno, outside recovery `cwnd` lies between one segment and the acknowledged bytes plus half a send buffer |
| WindowRuns.TahoeFloor | src/utcp/cc/tahoe.c:9-46 | Tahoe keeps the one-segment floor over every run |
| WindowRuns.LstmBelowInRuns | src/utcp/cc/lstm_reno.c:11-113 | in every state of every run and for every event and prediction, the windows LSTM-Reno stores are at most NewReno's |
| WindowRuns.CwndCollapses | src/utcp/cc/new_reno.c:83-87 | a run from the handshake: one byte, then 3067832 duplicate ACKs, and `cwnd` is 304 |
| Recovery.EventDisciplined | src/utcp/cc/new_reno.c:17-99 | what one congestion event may do to recovery |
| Recovery.ReactDisciplined | src/utcp/cc/new_reno.c:10-100 | every handler keeps the recovery discipline on any stimulus |
| Recovery.RecoveryBracket | src/utcp/cc/new_reno.c:17-99 | in recovery, una < recover <= max, over whole runs |
| Recovery.EntriesSeparated | src/utcp/cc/new_reno.c:58-82 | between two fast-retransmit entries una passes the max recorded at the earlier one |
| Recovery.RetransmissionsIncrease | src/utcp/cc/new_reno.c:36-50 | fast-retransmitted sequence numbers strictly increase over a run |
| Recovery.EpisodeMeasure | src/utcp/cc/new_reno.c:29-51 | within an episode recover is fixed and recover - una bounds the partial-ACK retransmissions |
| FastRetransmit.DupacksStep | src/utcp/utcp_input.c:426-541 | only acknowledgements move `t_dupacks`: a new one clears it, a repeated one adds one up to 255 |
| FastRetransmit.DupacksCount | src/utcp/utcp_input.c:526-541 | over runs it is the number of repeated acknowledgements since `snd_una` last moved |
| FastRetransmit.RetransmitsIff | src/utcp/cc/new_reno.c:17-82 | a handler fast-retransmits if and only if the third duplicate counts or a partial ACK arrives in recovery, and then one segment at `snd_una` |
| FastRetransmit.RetransmitExact | src/utcp/utcp_output.c:25-53 | the segment it puts on the wire |
| Backoff.ShiftStep | src/utcp/net/timer.c:39-42 | only an expiration raises `t_rxtshift`, only acknowledging everything clears it |
| Backoff.LastAllAcked | src/utcp/utcp_input.c:475-479 | every run has a last point at which everything was acknowledged, or its start |
| Backoff.ShiftCountsExpirations | src/utcp/net/timer.c:39-42 | in every state of every run `t_rxtshift` is the number of expirations since that point |
| Backoff.OverrunsIff | src/utcp/net/timer.c:14-42 | the next tick reads past the 13-entry table if and only if the timer is at 1 and exactly 12 expirations have happened since that point |
| Backoff.SilenceOverruns | src/utcp/net/timer.c:38-51 | from any state with data outstanding, ticks alone lead to such a tick within a stated number |
| Backoff.OneByteOverruns | src/utcp/net/timer.c:38-51 | the run from the handshake: one byte, then ticks only |
| DelayedAck.SilentOutput | src/utcp/utcp_output.c:59-237 | an output call that sends nothing changed nothing and had no forced ACK to send |
| DelayedAck.SentCancelsPending | src/utcp/utcp_output.c:168-172 | whatever output sends takes a pending ACK along |
| DelayedAck.SilentData | src/utcp/utcp_input.c:573-670 | a payload that is answered by nothing was refused for lack of space, or was accepted without filling a gap, outside duplicate ACKs and with nothing pending, and now waits 20 ticks |
| DelayedAck.WaitingForcesNothing | src/utcp/utcp_input.c:639-651 | such a payload forces no ACK: only new data takes it along |
| DelayedAck.AnsweredAtOnce | src/utcp/utcp_input.c:621-651 | old segments, early ones, ones that fill a gap and ones amid duplicate ACKs are acknowledged before the lock is released, with everything received in order |
| DelayedAck.SilentArrival | src/utcp/utcp_input.c:405-671 | with an ACK pending, an arrival that sends nothing keeps it pending and its payload was refused |
| DelayedAck.SilentStep | src/utcp/net/timer.c:103-108 | a handler that sends nothing keeps a pending ACK pending; only the tick moves its timer |
| DelayedAck.PendingCountsDown | src/utcp/net/timer.c:147-156 | over any silent sequence of handlers the delayed-ACK timer falls by exactly the number of ticks |
| DelayedAck.AckWithinTwentyTicks | src/utcp/net/timer.c:103-108 | over any sequence with 20 ticks a segment leaves, acknowledging all that had been received in order at its start |
| SendPath.BufferedExactIff | src/utcp/utcp_output.c:97-106 | for any stream length, the computed backlog is the true one if and only if `snd_nxt` is fewer than 2^31 - 1 bytes into its current 2^32 |
| SendPath.BufferedFailsAtLimit | src/utcp/utcp_output.c:97-106 | at the limit the whole history looks unsent |
| SendPath.ResendableExactIff | src/utcp/utcp_output.c:34-40 | on retransmission the computed amount is the true one if and only if neither the number of `snd_una` nor the buffer behind it reaches 2^32 |
| SendPath.ResendableFailsAtWrap | src/utcp/utcp_output.c:34-40 | a buffer straddling 2^32 has nothing to retransmit |
| SendPath.AckTest | src/utcp/utcp_input.c:413-415 | the two serial tests accept exactly (una, max] among all 32-bit numbers |
| SendPath.SendSide.Payload | src/utcp/utcp_output.c:323-329 | the ring read is the stream slice the sequence number names |
| SendPath.SendSide.Backlog | src/utcp/utcp_output.c:97-106 | the unsent byte count |
| SendPath.SendSide.RetransmitLength | src/utcp/utcp_output.c:34-43 | up to one MSS of what is buffered from `snd_una` on, possibly past `snd_max` |
| SendPath.SendSide.AdvanceNxt | src/utcp/utcp_output.c:205-219 | `snd_nxt` and `snd_max` after sending |
| SendPath.SendSide.Slide | src/utcp/utcp_input.c:416-434 | release of acknowledged bytes, `snd_nxt` never behind `snd_una`, new window |
| SendPath.SendSide.RollBack | src/utcp/net/timer.c:53-63 | the rollback and the flight size before it |
| SendPath.SendSide.Store | src/utcp/api.c:145-152 | a chunk appended to the stream and the ring |
| TimerBlock.Block.DataSent | src/utcp/utcp_output.c:189-213 | RTT tracking of new data only, arming of a stopped timer |
| TimerBlock.Block.OnNewAck | src/utcp/utcp_input.c:443-473 | timestamp or tick sample handed to the estimator, and the timing ended |
| Karn.OutputKarn | src/utcp/utcp_output.c:189-203 | output times only bytes it has not sent before and never resends the timed byte |
| Karn.ReactKarn | src/utcp/net/timer.c:71-77 | every handler keeps it that the timed byte was sent once, fast retransmissions aside |
| Karn.SampleIsCleanIff | src/utcp/utcp_input.c:460-473 | in every state of every run a tick sample measures a byte sent exactly once if and only if no fast retransmission carried it |
| Karn.ModernSampleIsCleanIff | src/utcp/cc/new_reno.c:38-39 | under NewReno and LSTM-Reno only a fast retransmission past the `snd_max` of its time can spoil a sample |
| Karn.ClassicSampleSpoiled | src/utcp/cc/reno.c:26-45 | a run under Tahoe or Reno whose sample is of a byte sent twice |
| Karn.ModernSampleSpoiled | src/utcp/utcp_output.c:34-43 | a run under NewReno whose sample is of a byte first sent past `snd_max` |
| TickSample.ReactTimed | src/utcp/net/timer.c:138-146 | a tick adds one to a running count; otherwise it goes on, is given up, or begins at one with a byte that is sent |
| TickSample.CountIsElapsed | src/utcp/net/timer.c:138-146 | in every run the count is one more than the ticks since the timed byte was put on the wire |
| TickSample.SampleIsElapsed | src/utcp/utcp_input.c:460-473 | a tick sample is that number of ticks in steps of 10 ms |
| TickSample.AckEstimates | src/utcp/utcp_input.c:443-473 | the estimate moves exactly by the sample a new ACK takes: the echoed timestamp, or the count if the timed byte is acknowledged |
| TimerBlock.Block.RearmRexmt | src/utcp/utcp_input.c:475-503 | disarm when all is acknowledged, else the backed-off timeout |
| TimerBlock.Block.OnExpiry | src/utcp/net/timer.c:39-51 | backoff and cap after one more expiration |
| Tcb.PacketDecodes | src/utcp/utcp_input.c:683-709 | a packet within reach of `rcv_nxt` decodes to the segment it carries |
| Tcb.EchoSample | src/utcp/utcp_input.c:446-450 | the sample is the time from the echoed timestamp to now modulo 2^32; 0 means none was echoed |
| Tcb.Tcb.SendSegment | src/utcp/utcp_output.c:242-336 | the packet handed to UDP carries the slice, the current acknowledgement and window |
| Tcb.Tcb.RetransmitSegment | src/utcp/utcp_output.c:25-53 | one segment at `snd_una`, recorded as a fast retransmission |
| Tcb.Tcb.ChunkLength | src/utcp/utcp_output.c:83-145 | the length of one pass: windows, MSS, Nagle |
| Tcb.Tcb.OutputPass | src/utcp/utcp_output.c:80-229 | one pass is one unfolding of the loop |
| Tcb.Tcb.Transmit | src/utcp/utcp_output.c:59-237 | the loop terminates with the output function's result |
| Tcb.Tcb.CongControl | src/utcp/utcp_input.c:505-510 | the algorithm's update, then the retransmission or burst it asks for |
| Tcb.Tcb.ProcessAck | src/utcp/utcp_input.c:411-555 | the acknowledgement half on 32-bit numbers |
| Tcb.Tcb.DecideAck | src/utcp/utcp_input.c:621-651 | the delayed-ACK decision |
| Tcb.Tcb.ProcessData | src/utcp/utcp_input.c:557-671 | the data half with its four outcomes |
| Tcb.Tcb.HandlePacket | src/utcp/utcp_input.c:405-671 | a whole arrival keeps the block valid and follows the arrival function |
| Tcb.Tcb.SendData | src/utcp/api.c:121-163 | takes what fits, stores it, outputs; the rest waits |
| Tcb.Tcb.ReadData | src/utcp/api.c:165-209 | returns the next bytes and opens the window when worthwhile |
| Tcb.Tcb.RexmtTimeout | src/utcp/net/timer.c:38-85 | the expiry handler follows its function |
| Tcb.Tcb.SlowTick | src/utcp/net/timer.c:138-156 | the per-TCB tick body follows the tick function |
| Wire.FillHeader | src/utcp/utcp_output.c:299-321 | the header fields in network byte order, nothing else touched |
| Wire.Build | src/utcp/utcp_output.c:247-329 | the buffer holds header, options and payload |
| Wire.Deserialise | src/utcp/utcp_input.c:683-709 | fields and payload by the data offset; too short a packet is an error |
| Wire.ProcessOptions | src/utcp/utcp_input.c:33-77 | the option loop terminates on any bytes and performs the walk |
| Wire.ExtractEcho | src/utcp/utcp_input.c:372-403 | the TSecr search terminates on any bytes and performs the walk |
| Wire.RoundTrip | src/utcp/utcp_output.c:247-329 | every header, scale, TSval, TSecr and payload written is recovered exactly, whatever the buffer held before |
| Wire.HeaderLayout | src/utcp/utcp_output.c:299-321 | where each header field stands, in network byte order |
| Wire.TimestampLayout | src/utcp/utcp_output.c:270-297 | the timestamp option byte by byte |
| Wire.SegmentLayout | src/utcp/utcp_output.c:247-329 | header, window scale option on a SYN, timestamp option, payload |
| Wire.PayloadExact | src/utcp/utcp_input.c:683-709 | the payload of any datagram is what is left past the header length it states, at least 20 |
| Wire.OptionsParsed | src/utcp/utcp_input.c:33-77 | both option parsers understand every well-formed option list with unknown options in between |
| Wire.WindowOverTheWire | include/utcp/utcp_utils.h:25-40 | the window decoded from a written segment against the true free space |
| Predictor.WindowPush | data_analytics/lstm_server.py:201-204 | completing a bin slides the window by one |
| Predictor.GapCapIsExact | data_analytics/lstm_server.py:113-120 | capping a gap at the window length leaves the same window as the whole gap |
| Predictor.PushGrows | data_analytics/lstm_server.py:90-124 | a push reports no more bins than the history gained, and readiness agrees with the uncapped history |
| Predictor.RowKeeps | data_analytics/lstm_server.py:293-339 | every row keeps the firing spacing |
| Predictor.FiresIff | data_analytics/lstm_server.py:325-339 | a row fires if and only if it completes a bin, the cooldown is over, the window is full and free of congestion and the verdict is high |
| Predictor.RowCools | data_analytics/lstm_server.py:328-335 | the cooldown left is what the bins completed since the last firing have not used up |
| Predictor.HistoryMatchesRows | data_analytics/lstm_server.py:90-124 | for rows in the order of time there is one bin per identifier, marked exactly if one of its rows reports congestion, zero if none falls in it |
| Predictor.FiringsSpaced | data_analytics/lstm_server.py:293-339 | over every row sequence two firings are more than the cooldown length of bins the server completed apart, skipped bins past the cap not counted |
| Predictor.BinRing.Put | data_analytics/lstm_server.py:201-204 | one ring write is one slide of the window |
| Predictor.BinRing.CloseBin | data_analytics/lstm_server.py:111-124 | after a close with any gap the ring holds the last bins of the uncapped history |
| Predictor.BinRing.GetSequence | data_analytics/lstm_server.py:130-133 | the window's vectors in chronological order |
| Predictor.BinRing.HasCongestion | data_analytics/lstm_server.py:135-137 | true exactly if some bin of the window is marked |
| Predictor.PredictionServer.PushRow | data_analytics/lstm_server.py:90-124 | push follows its function |
| Predictor.PredictionServer.OnRowArrived | data_analytics/lstm_server.py:293-339 | one row of the loop follows its function and keeps the server valid |

## Left out

- Handshake, its loss recovery and teardown: runs start in ESTABLISHED after a loss-free handshake; a timed-out SYN is not resent by this code, and SYN_RECV handles data even without a matching ACK.
- Sockets, threads, locks and condition variables: each lock-held handler is one atomic step, a blocked call is a disabled step.
- Failed sends and failed allocations: `utcp_send_segment` is taken to succeed.
- Clocks and timestamps inside a run: the RTT sample of an arrival is an input; the option bytes themselves are in `Wire`.
- Window options on segments without SYN: an established segment leaves the negotiated scale alone.
- PERSIST, KEEP and 2MSL timers: empty cases in the source; no liveness is claimed under a zero window.
- Streams of 2^31 - 1 bytes or more: the sender's offsets are not modular there, as `BufferedExactIff` and `ResendableExactIff` show; receive-side wrap-around is covered.
- Segments ending 2^31 or more past `rcv_nxt`: the code makes no upper window check; `WireReach` shows a UTCP peer never sends one.
- A thirteenth expiration without everything acknowledged: it reads past the backoff table (`OverrunsIff`), so that tick is not a step of the model.
- Congestion callbacks run after the algorithm's own updates instead of between them; the retransmission does not read those variables and the burst comes last in the source.
- `find_tcb`, the fd table, bind and listen checks, logging, the Unix socket to the predictor, TensorFlow inference, feature normalisation and the shell scripts.
- Predictor.BinRing.CloseBin: the feature vector of a closed bin is an input, since its floating-point computation is not modelled.
