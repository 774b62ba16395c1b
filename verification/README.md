# State synchronization, verified

A model in Dafny of the mosh client's State Synchronization Protocol, and proofs of what it
promises. Two endpoints exchange numbered states as diffs over a channel that drops, duplicates
and reorders datagrams; the project follows one state from the keystroke to the peer's queue.

`dafny verify dfyconfig.toml` checks everything.

| modules | what they hold |
|---|---|
| `Basics`, `Queues` | machine widths, options and results, the numbered queues and their culls |
| `Wire`, `WireLaws`, `WireCodec`, `Layouts`, `Tolerance` | the Protocol Buffers subset as functions, its laws, the loops that implement it, the bytes of every message and datagram, and what becomes of bytes that cannot be read |
| `Streams` | the user stream: coalescing diffs, applying, subtracting |
| `Fragments`, `FragmentLaws`, `Arrivals`, `Framing` | datagram layout, slicing, the id rule, reassembly of honest and of arbitrary fragments; the two classes |
| `Sender`, `SenderLaws` | the sending half as functions on its fields; the invariant against its history |
| `Outbound`, `Sending`, `Timing`, `Shutdown`, `Trimming` | runs of a sender with its fragmenter and the theorems over them |
| `Deadlines`, `Promptness`, `InstructionIds` | exactly when a sender acts and what it then sends, how long typing waits, when an id moves |
| `Receiver`, `ReceiverLaws`, `Receiving` | the receiving half, its invariant for arbitrary input, and runs |
| `Engine`, `Session` | `SspSender`, `SspReceiver` and a whole endpoint as objects, equal to those functions |
| `Protocol`, `ProtocolInv`, `EndToEnd` | two endpoints and a channel, the invariant, the end-to-end theorems |
| `Recovery`, `Convergence`, `Latency` | what a stale sender's tick does, how two rounds bring both sides together, how long an ack waits |
| `EventLogs`, `Display` | the persistent log compared by identity and the display that follows it |
| `Predictions`, `PredictionLaws` | the predicted cells, and what an echo ack retires |
| `Sealing` | nonces, the sequence counter and the block budget |

How the parts fit. The code changes fields in place, so every component is a class whose methods
are proved equal to a function of the old state; the long theorems are then about those functions.
`History` (in `SenderLaws`) is what an observer knows besides the sender's fields: everything typed,
the prefix trimmed away so far, and the absolute stream recorded under each number. The channel of
`Protocol` is everything ever emitted: a delivery picks any fragment of any earlier emission, as
often as it likes, so loss, duplication and reordering are all covered, and it goes through the
datagram bytes, the parser, the reassembly and the decoder.

What the runs assume, in `Outbound.Enabled` and `Protocol.Act`: each endpoint's clock never goes
back (the two clocks are unrelated), typing stops at shutdown, fewer than 2^64 - 1 state numbers and
fragment ids are used, and a stream has fewer than 2^56 events. A step whose guard fails leaves the
state alone. zlib enters only through its inverse law (`Fragments.Lawful`), and is otherwise arbitrary.

Where code and comments differ, the model follows the code:

- The receiver accepts a number again after a cull if an instruction goes backward (`oldNum > newNum`);
  `Receiving.BackwardInstructionsRepeat` shows such a run, `Receiving.EachNumberOnce` the condition.
- `tostring` and `parse` are inverse exactly for fragment numbers up to 0x7FFF; the field is 16 bits wide.
- The block counter is a 64-bit sum that refused seals also raise, so an exhausted sealer stays
  exhausted only until that sum wraps (`Sealing.ExhaustedUntilWrap`), and 2^64 attempts would exceed
  the budget (`Sealing.WrapExceedsBudget`). A session never gets there: it ends after the tick of the
  first refusal (`Sealing.SessionWithinBudget`).
- After ten seconds without hearing the peer no send is scheduled for data already queued; the periodic
  ack then carries it, from the head (`Recovery.StalledResends`, `Recovery.AckDue`).
- The third branch of `compute_timers`, a resend of unacked data after the retransmission timeout, only
  shortens `wait_time`: a tick takes the freshness walk first, and what is stale by then falls under the
  second branch, one frame after the newest state (`Deadlines.EveryTickDecides`).
- `counterparty_shutdown_acknowledged` reads the last header the fragmenter stamped, and stamping
  happens before the fragment count is checked; `EndToEnd.ShutdownAckIsEarned` covers the stamp itself.
- The endpoint loop of `src/loop_tests.rs` refreshes the retry window on an out-of-order state;
  `src/session.rs` does not, and neither does `Protocol.Handle`.

## Model

| member | source | states |
|---|---|---|
| `EndToEnd.DeliveredIsRecorded` | src/ssp.rs:804-864 | in every two-party run, in both directions, each state held under a number is the stream the sender recorded under that number, and a prefix of everything typed |
| `EndToEnd.NewestNeverShrinks` | src/ssp.rs:846-864 | over any continuation of a reachable state the newest number never falls, the newest stream only extends, and stays a prefix of what was typed |
| `EndToEnd.KnownHeadIsHeld` | src/ssp.rs:458-465 | the receiver always holds the state at the front of the sender's queue; an instruction sent from the head is refused for a missing base only after an ack moved the head past it |
| `EndToEnd.HonestRunsNeverFail` | src/ssp.rs:804-844 | in every run an instruction of the peer, whenever it arrives, is never a version or diff error, and is a missing reference if and only if neither its new nor its old number is held |
| `EndToEnd.DeliveryCatchesUp` | src/ssp.rs:804-864 | in every reachable state, delivering the newest instruction to a receiver that holds its base and is not quenching leaves it with the sender's newest number and recorded stream, and with that number as the ack it will send |
| `EndToEnd.AckClearsQueue` | src/ssp.rs:458-465 | in every reachable state, an ack of the newest number leaves the queue starting at that number; if it is the shutdown number, shutdown is acknowledged |
| `Convergence.Converges` | src/session.rs:804-816 | from every reachable state in which both sides have a number and an id left and a short backlog, some run of two ticks and of deliveries of their fragments ends with each side holding everything the other typed and the queue starting at its newest number; if shutdown had begun, it ends acknowledged |
| `Convergence.RoundDelivers` | src/session.rs:989-1032 | one tick and the delivery of all its fragments, through bytes, parser, reassembly and decoder, bring the receiver to the newest number and, if the ack named it, the other queue down to it |
| `Convergence.DeliverRest` | src/fragment.rs:202-246 | delivering the remaining fragments of an emission in order gets its instruction handled, whatever the assembly held before |
| `Recovery.OneDeliveryRecovers` | src/ssp.rs:488-609 | from every reachable state in which something is unacked, every sent state is stale and an ack or a send is due: the next tick emits an instruction whose delivery leaves the peer with everything typed and with the ack that says so |
| `Recovery.StalledResends` | src/ssp.rs:488-609 | with something unacked and every sent state stale, a tick sends if and only if the ack deadline has passed or a send is due (a frame since the newest state, the batching delay over, and the stream new or the peer heard within ten seconds), and it sends from the head |
| `Deadlines.EveryTickDecides` | src/ssp.rs:572-609 | in every reachable state, stale, fresh or mixed: a tick whose instruction can be framed emits if and only if the ack is due, or a frame has passed since the newest state and the batching delay is over and either something is typed beyond that state, or something is unacked, the second queued state is stale and the peer was heard within ten seconds; it emits exactly one instruction, given field by field, and what an emitting and an idle tick leave |
| `Deadlines.TickDecides` | src/ssp.rs:526-623 | the same for every sender that satisfies the invariant: the base is the head, unless the newest state may be assumed and the bet is too dear; the number is the next one, unless the newest state is everything typed; the diff is the one between the recorded streams |
| `Deadlines.TickLeaves` | src/ssp.rs:572-669 | after an emission the newest state carries its number and the time of the tick, the ack is due in three seconds and the batching clock is cleared; an idle tick leaves the queue's numbers and times, the deadline of its pass, and a batching clock that starts if something is new |
| `Deadlines.BetExact` | src/ssp.rs:611-623 | from the newest state the head is bet on unless its diff is longer by 100 bytes, or longer at all from 1000 bytes on; the diff is then the one against the chosen stream |
| `Deadlines.PassExact` | src/ssp.rs:526-563 | at any later moment the pass's ack deadline is past, or its send deadline is, exactly when the stated conditions on the fields hold by then |
| `Deadlines.WaitEndsWhenDue` | src/ssp.rs:513-519 | a moment is at or past the end of the answered wait if and only if an ack or a send is due by it |
| `Deadlines.WaitIsBounded` | src/ssp.rs:513-534 | the wait is zero exactly when something is due at once, never passes the ack deadline, and is at most 100 ms with a data ack pending outside shutdown |
| `Deadlines.WaitChanges` | src/ssp.rs:521-563 | asking for the wait changes the ack deadline and starts the batching clock when something is new, and nothing else |
| `Deadlines.StartsQuiet` | src/ssp.rs:373-393 | a new sender owes an ack after three seconds, has nothing to send, and counts the peer as heard for ten seconds |
| `Promptness.TypedGoesOut` | src/ssp.rs:526-609 | over runs: once a timer pass sees something typed beyond the newest state, any tick that is the batching delay later and a frame after that state finds it sent or sends it, whatever was acked, typed or shut down meanwhile; every instruction since rebuilds at least what was typed |
| `EndToEnd.CleanShutdownIsFullDelivery` | src/ssp.rs:419-421 | when shutdown is acknowledged, the peer's newest state is numbered MAX and is the whole typed stream, now and in every continuation |
| `EndToEnd.ShutdownAckIsEarned` | src/ssp.rs:426-428 | an ack of MAX, emitted or remembered by the fragmenter, comes from a side whose newest state is numbered MAX and equals what the peer typed |
| `EndToEnd.ReachedKeeps` | src/session.rs:996-1111 | every reachable pair of endpoints satisfies the invariant in both directions: mirrored states, held head, earned acks, honest assembly |
| `ProtocolInv.AddHonest` | src/fragment.rs:202-246 | fed any fragment the peer emitted, in any order, the assembly yields that fragment's own instruction or nothing, and goes on holding pieces of a single packet |
| `ProtocolInv.HandledByReceiver` | src/ssp.rs:804-864 | handling an honest instruction keeps the receiving direction: mirrored states, held head, acks and framer |
| `ProtocolInv.HandledBySender` | src/ssp.rs:458-465 | handling the instruction's ack moves the head only to a state the peer still holds |
| `Sending.EveryInstructionCoherent` | src/ssp.rs:703-742 | in every run each emitted diff, applied to the stream recorded as old_num, yields the one recorded as new_num; throwaway <= old <= new; the diff is empty exactly when the two are equal |
| `Sending.EmittedIsCurrent` | src/ssp.rs:572-609 | at the tick that emits it, an instruction rebuilds everything typed so far |
| `SenderLaws.TickKeeps` | src/ssp.rs:572-743 | a tick keeps the sender's invariant across trimming, culls, bets, empty acks and shutdown, leaves the head's number alone, and records a number anew only for the current stream |
| `SenderLaws.AckKeeps` | src/ssp.rs:458-465 | an ack cuts a prefix off the queue down to the acked state, never loses the newest, and an unknown ack changes nothing |
| `SenderLaws.AckClampsIndex` | src/ssp.rs:458-465 | an ack leaves the assumed index where it is unless the queue became too short, and then at its end |
| `SenderLaws.RationalizeShifts` | src/ssp.rs:500-509 | trimming moves the head's stream from every entry into the common base, so each absolute stream is unchanged |
| `SenderLaws.WalkLands` | src/ssp.rs:488-498 | with sorted timestamps the freshness walk stops at the head or at the newest state, and at which |
| `SenderLaws.AddSentQueue` | src/ssp.rs:625-647 | an append keeps the cap of 32, the head, the newest 15 and the order of the rest |
| `SenderLaws.CullSparesAssumed` | src/ssp.rs:633-645 | from the head or the newest state the cull never takes the assumed entry, and the index follows it |
| `Sending.AssumedReceiverSafe` | src/ssp.rs:488-498 | in every run timestamps are sorted, the index is in bounds, the queue within its cap, the walk ends at an end of the queue, and an append there keeps the assumed entry |
| `Sending.TickSendsFromAnEnd` | src/ssp.rs:611-623 | the base a tick sends from, bet or not, is the head or the newest state |
| `Sending.SameIdSamePayload` | src/fragment.rs:132-144 | two emissions under one id have the same diff and the same fragments, though the id rule ignores the diff |
| `Sending.InstructionIdsNameOnePayload` | src/fragment.rs:132-144 | the same over every run from the start |
| `InstructionIds.IdMovesWithHeader` | src/fragment.rs:132-144 | in every run of framed instructions an emission keeps the id of the one before it if and only if they agree in everything but the diff and in the budget, and takes the next id otherwise |
| `Sending.FrameSeparatesBurst` | src/session.rs:1117-1126 | no state numbered below a burst's frame contains the burst and every state numbered from it on does, in every continuation |
| `Outbound.ReachedKeeps` | src/ssp.rs:396-743 | every reachable sender satisfies the invariant with its fragmenter: faithful queue, monotone record, sorted times, coherent emissions, one header and budget per id |
| `Outbound.ApplyKeeps` | src/ssp.rs:396-743 | every operation keeps the outgoing invariant, only appends to the history and the emissions, and freezes the stream in shutdown |
| `Trimming.TrimmingIsInvisible` | src/ssp.rs:500-509 | in every run a sender that never trims emits the same instructions and fragments at the same ticks and answers the same wait times |
| `Timing.SendInterval` | src/ssp.rs:39-41 | between 20 and 250 ms, and the rounded-up half of the round trip in between |
| `Timing.EmissionsAtLeastAFrameApart` | src/ssp.rs:526-609 | in every run two emissions are at least 20 ms apart |
| `Timing.PassSetsDeadline` | src/ssp.rs:532-534 | outside shutdown a timer pass that sees a pending data ack persists a deadline within 100 ms |
| `Timing.DataAckGoesOut` | src/ssp.rs:526-609 | in every reachable state outside shutdown, once a timer pass, in wait_time or in a tick, sees a data ack of number n pending, any tick 100 ms or more later finds an instruction sent or sends one, and all that were sent since ack n or more |
| `Latency.DataAckAnswered` | src/session.rs:638-658 | over two-party runs: after a delivery that raises the newest number by an instruction with data, and a timer pass at any time later, by the end of any tick 100 ms or more after that pass an instruction has been emitted since the delivery, and every one acks that number or more |
| `Latency.ReceiptIsNoted` | src/session.rs:638-658 | in every reachable state: a delivery that raises the newest number leaves it as the ack number, the arrival as the time the peer was last heard, and an ack pending if it carried data; any other delivery leaves all three alone |
| `Latency.HandleNotes` | src/session.rs:996-1037 | the same for an arbitrary instruction at any receiver whose queue is in order; a wrong version changes nothing, and for the right one the peer's ack is processed whatever the receiver makes of the rest |
| `ReceiverLaws.ProcessKeeps` | src/ssp.rs:804-864 | for arbitrary input: never empty, strictly sorted, newest number never falls, entries leave only below the throwaway number and arrive only by the diff rule |
| `ReceiverLaws.OutcomeTells` | src/ssp.rs:744-761 | each outcome is true of the queue: what is newest, what was added, what was refused |
| `Receiving.QueueAlwaysSorted` | src/ssp.rs:792-864 | the same over every run of arbitrary instructions |
| `Receiving.EachNumberOnce` | src/ssp.rs:812-826 | if every instruction has old_num <= new_num, each number is accepted at most once over the whole run, culls included |
| `Receiving.BackwardInstructionsRepeat` | src/ssp.rs:812-826 | a four-instruction run with one backward instruction accepts a number twice |
| `Receiving.QuenchBound` | src/ssp.rs:828-832 | for every input the queue stays within 1025 + quench_until / 15000 |
| `Receiving.QuenchBoundByClock` | src/ssp.rs:828-832 | with a rising clock it stays within 1026 + now / 15000 |
| `Receiving.OverCapAdmissionsSpaced` | src/ssp.rs:828-832 | two admissions made over the cap are at least 15 s apart, whatever lies between |
| `FragmentLaws.FragmentRoundTrip` | src/fragment.rs:55-76 | parse(tostring(f)) is f if and only if the fragment number fits 15 bits |
| `Layouts.FragmentShape` | src/fragment.rs:55-62 | eight bytes of id, highest first, then the final flag over the 15-bit number, then the contents |
| `FragmentLaws.DatagramRoundTrip` | src/fragment.rs:55-76 | every datagram of ten bytes or more parses, and is written back byte for byte |
| `FragmentLaws.FlattenSlices` | src/fragment.rs:146-173 | the slices are the payload, none longer than the budget |
| `FragmentLaws.CountedAlways` | src/fragment.rs:202-246 | for arbitrary fragments the arrival counter equals the number of filled slots |
| `FragmentLaws.HonestEntered` | src/fragment.rs:202-246 | an honest fragment adds exactly its index, and the completion test is true exactly when all indices are in |
| `FragmentLaws.ReassemblyRefinesCollector` | src/fragment.rs:202-275 | for any order and repetition of honest fragments within the caps, outputs are those of a set of indices: the sent instruction when its last missing index arrives, nothing otherwise |
| `Arrivals.OutputsAreFounded` | src/fragment.rs:202-275 | whatever fragments arrive, from anyone and in any order: an instruction that comes out stands for fragments that all arrived, under one id, one for each number from the first to a final one, at most 8 MiB that inflate to at most 4 MiB |
| `Arrivals.AddExact` | src/fragment.rs:202-275 | for any fragment after any others: dropped if it contradicts its slot, else put there with the slots of another id forgotten and those behind a final one cut; then opened when full, forgotten when as many came as the total but one is missing or the 8 MiB are used up, and kept otherwise |
| `Arrivals.MakeExact` | src/fragment.rs:122-174 | cutting succeeds if and only if the MTU exceeds ten bytes and 32768 fragments hold the payload, and else which error it is; every datagram fits the MTU, all but the last fill it, and the contents are the payload |
| `Framing.Fragmenter.Make` | src/fragment.rs:122-174 | the new id, header, budget and the fragments, or the error, equal the specification |
| `Framing.Fragmenter.Slice` | src/fragment.rs:146-173 | the slicing loop cuts exactly the packet of the payload's slices, or reports too many |
| `Framing.FragmentAssembly.Add` | src/fragment.rs:202-246 | the new slots, counters and output equal the specification for every fragment |
| `Framing.FragmentAssembly.Recount` | src/fragment.rs:231-236 | the counter is the number of filled slots |
| `Framing.FragmentAssembly.Take` | src/fragment.rs:248-275 | gathers, inflates and decodes, and resets or stays stuck exactly as specified |
| `WireLaws.VarintRoundTrip` | src/wire.rs:83-131 | every u64 written is read back, using exactly its own bytes |
| `Layouts.VarintDigits` | src/wire.rs:83-93 | a written varint is the base-128 digits, lowest first, the top bit on all but the last |
| `Layouts.VarintOutcome` | src/wire.rs:118-131 | a varint is read if and only if one of the first ten bytes ends it; ten that do not are malformed, fewer are truncated |
| `Layouts.InstructionShape` | src/wire.rs:190-200 | the bytes of an instruction, tag by tag |
| `Layouts.UserShape` | src/wire.rs:225-243 | the bytes of a keystroke and of a resize |
| `Layouts.HostShape` | src/wire.rs:333-356 | the bytes of host output, of a resize and of an echo ack |
| `Layouts.LengthOutcome` | src/wire.rs:138-147 | a length-delimited field is read if and only if its length is and that many bytes follow |
| `Layouts.SkipOutcome` | src/wire.rs:150-184 | fixed-width fields are skipped if and only if their bytes are there, and wire types 4, 6 and 7 never |
| `Tolerance.VarintIsCut` | src/wire.rs:118-131 | whatever bytes a varint has, its value is the number they denote modulo 2^64 |
| `Tolerance.FieldNumbersAlias` | src/wire.rs:133-136 | field numbers that agree modulo 2^32 are the same field |
| `Tolerance.VersionIsCut` | src/wire.rs:206-208 | the protocol version is the low 32 bits of its varint |
| `Tolerance.SizeIsCut` | src/wire.rs:292-316 | a size is the signed number that agrees with its varint modulo 2^32 |
| `Tolerance.BodySkipped` | src/wire.rs:150-184 | every well-formed body is skipped whole, groups within groups included, whatever follows |
| `Tolerance.GroupSkipped` | src/wire.rs:173-180 | a group is skipped up to the end marker of its own depth, whatever field number that bears |
| `Tolerance.ItemIsUnlisted` | src/wire.rs:150-184 | so any well-formed field, whatever it nests, is one the decoders pass over unless they list it |
| `Tolerance.StrictLength` | src/wire.rs:202-262 | in an instruction or an envelope a listed length beyond the end fails the message |
| `Tolerance.StrictVarint` | src/wire.rs:202-262 | and so does a number or a tag that ten bytes do not end |
| `Tolerance.StrictWireType` | src/wire.rs:202-262 | and so does an end of a group not begun, or a wire type that does not exist |
| `Tolerance.TolerantLength` | src/wire.rs:265-456 | in an embedded instruction, reading goes on right behind a listed length beyond the end |
| `Tolerance.TolerantBytes` | src/wire.rs:275-287 | the same in a block of bytes |
| `Tolerance.TolerantVarint` | src/wire.rs:292-440 | in a resize or echo-ack block, reading goes on behind a listed number that ten bytes do not end |
| `Tolerance.TolerantEnd` | src/wire.rs:265-456 | a tag that cannot be read, or a wire type that cannot be skipped, ends an embedded instruction or a block with what was found |
| `Tolerance.Defaults` | src/wire.rs:272-447 | a size that was not sent is zero, and a block without its field leaves the instruction as it was |
| `WireLaws.SizeRoundTrip` | src/wire.rs:234-237 | every i32 survives sign extension and truncation |
| `WireLaws.InstructionRoundTrip` | src/wire.rs:190-219 | decode(encode(m)) is m for every instruction |
| `WireLaws.UserMessageRoundTrip` | src/wire.rs:225-328 | decode(encode(m)) is m for every user message, empty keystrokes included |
| `WireLaws.HostMessageRoundTrip` | src/wire.rs:333-456 | decode(encode(m)) is m for every host message |
| `WireLaws.FieldsDecoded` | src/wire.rs:202-219 | known fields in any order and number are applied one after the other, the last winning |
| `WireLaws.InstructionConcat` | src/wire.rs:202-219 | when a decodes, a followed by b decodes as b over what a set, b's error included |
| `WireLaws.UserMessageConcat` | src/wire.rs:245-262 | when a decodes, a followed by b appends b's instructions, or fails as b does |
| `WireLaws.HostMessageConcat` | src/wire.rs:358-373 | the same for host messages |
| `WireLaws.InstructionIgnores` | src/wire.rs:202-219 | between two fields, a well-formed field the instruction decoder does not list, by number or by wire type, changes nothing |
| `WireLaws.EnvelopesIgnore` | src/wire.rs:245-262 | the same for both message envelopes, which list only length-delimited field 1 |
| `WireLaws.UserInstructionConcat` | src/wire.rs:265-328 | an embedded user instruction cut between two fields is read over what the first half made of it |
| `WireLaws.HostInstructionConcat` | src/wire.rs:376-456 | the same for an embedded host instruction |
| `WireLaws.EmbeddedIgnore` | src/wire.rs:320-325 | between two fields of an embedded instruction, a field its decoder does not list changes nothing |
| `WireLaws.BytesBlockSkips` | src/wire.rs:284-286 | a keystroke or hostbytes block passes over every well-formed field but (4, 2) |
| `WireLaws.ResizeBlockSkips` | src/wire.rs:310-314 | a resize block passes over every well-formed field but (5, 0) and (6, 0) |
| `WireLaws.EchoBlockSkips` | src/wire.rs:437-439 | an echo-ack block passes over every well-formed field but (8, 0) |
| `WireCodec.AppendVarint` | src/wire.rs:83-93 | the loop appends exactly the varint |
| `WireCodec.AppendVarintField` | src/wire.rs:105-108 | appends tag and varint |
| `WireCodec.AppendBytesField` | src/wire.rs:99-103 | appends tag, length and bytes |
| `WireCodec.EncodeInstructionBuffer` | src/wire.rs:190-200 | seven fields in order |
| `WireCodec.EncodeUser` | src/wire.rs:225-243 | the loop over instructions builds the encoded message |
| `WireCodec.EncodeHost` | src/wire.rs:333-356 | the loop over instructions builds the encoded message |
| `WireCodec.EncodeUserInner` | src/wire.rs:228-240 | the nested message of one user instruction, whose length a varint can hold |
| `WireCodec.EncodeHostInner` | src/wire.rs:336-353 | the nested message of one host instruction, whose length a varint can hold |
| `WireCodec.ReadVarintAt` | src/wire.rs:118-131 | value, error and final position, for every buffer, with the bits shifted past 64 lost |
| `WireCodec.ReadTagAt` | src/wire.rs:133-136 | the field number cut to 32 bits and the wire type, or the varint's error |
| `WireCodec.ReadLengthDelimitedAt` | src/wire.rs:138-147 | the bytes, or the error, with the position where the code leaves it |
| `WireCodec.SkipFieldAt` | src/wire.rs:150-184 | terminates on every input through recursive groups, with the position never past the end |
| `WireCodec.SkipGroupAt` | src/wire.rs:173-180 | the group loop stops at its own end marker or at the first error |
| `WireCodec.DecodeInstructionBuffer` | src/wire.rs:202-219 | the decoding loop computes the specified result for every byte string |
| `WireCodec.ReadInstructionField` | src/wire.rs:206-216 | one field: set, or skipped when its number or wire type is unknown |
| `WireCodec.DecodeUser` | src/wire.rs:245-262 | the decoding loop computes the specified result for every byte string |
| `WireCodec.DecodeHost` | src/wire.rs:358-373 | the decoding loop computes the specified result for every byte string |
| `WireCodec.ReadEnvelopeField` | src/wire.rs:249-259 | one field: an embedded instruction, or something skipped |
| `WireCodec.DecodeUserInner` | src/wire.rs:265-328 | the tolerant inner loop: later blocks win, errors end or are passed over as in the code |
| `WireCodec.DecodeHostInner` | src/wire.rs:376-456 | the tolerant inner loop: later blocks win, errors end or are passed over as in the code |
| `WireCodec.ReadUserBlock` | src/wire.rs:272-319 | what one keystroke or resize block makes of the instruction so far |
| `WireCodec.ReadHostBlock` | src/wire.rs:383-447 | what one bytes, resize or echo-ack block makes of the instruction so far |
| `WireCodec.ReadBytesBlock` | src/wire.rs:275-287 | the last field 4 wins, an unreadable one is passed over, a bad tag or skip ends the block |
| `WireCodec.ReadResizeBlock` | src/wire.rs:292-316 | sizes default to zero, the last field wins, a bad tag or skip ends the block |
| `WireCodec.ReadEchoBlock` | src/wire.rs:426-440 | the last field 8 wins, a bad tag or skip ends the block |
| `WireLaws.UserInstructionRoundTrip` | src/wire.rs:265-328 | one embedded user instruction is read back as written |
| `WireLaws.HostInstructionRoundTrip` | src/wire.rs:376-456 | one embedded host instruction is read back as written |
| `Streams.CoalesceExpands` | src/ssp.rs:111-127 | coalesced keystrokes expand to the events they came from |
| `Streams.CoalesceIsMaximal` | src/ssp.rs:111-127 | no keystroke instruction is empty and no two are adjacent, so every run of bytes is one |
| `Streams.DiffRestores` | src/ssp.rs:138-168 | where the base is a prefix, applying the diff to it restores the stream exactly |
| `Streams.DiffEmptyIff` | src/ssp.rs:138-141 | where the base is a prefix, the diff is empty exactly when nothing was typed since |
| `Streams.DiffShift` | src/ssp.rs:138-150 | a common prefix on both sides does not change the diff |
| `Streams.SubtractPrefix` | src/ssp.rs:143-150 | subtracting a known prefix leaves what follows it |
| `Streams.UserStream.EncodeSuffix` | src/ssp.rs:111-127 | the coalescing loop encodes exactly the suffix |
| `Streams.UserStream.PushBytes` | src/ssp.rs:90-93 | appends one event per byte |
| `Streams.UserStream.PushResize` | src/ssp.rs:95-97 | appends a resize |
| `Streams.UserStream.CommonPrefixLen` | src/ssp.rs:129-135 | the loop finds the longest common prefix |
| `Streams.UserStream.SubtractKnown` | src/ssp.rs:143-150 | drops the common prefix in place |
| `Streams.UserStream.Apply` | src/ssp.rs:153-168 | appends the decoded events, or leaves the stream alone on an error |
| `Queues.RetainIsSuffix` | src/ssp.rs:458-465 | in an ascending queue a cull cuts off a prefix |
| `Queues.RetainFrom` | src/ssp.rs:800-801 | the retain loop keeps exactly the entries at or above the number |
| `Queues.FindNum` | src/ssp.rs:812-826 | the first entry with the number, or the end exactly when there is none |
| `Engine.SspSender.constructor` | src/ssp.rs:373-393 | the initial fields, for any initial stream |
| `Engine.SspSender.BeginShutdown` | src/ssp.rs:406-411 | sets flag and start time once |
| `Engine.SspSender.ShutdownAckTimedOut` | src/ssp.rs:430-440 | whether the retries or the time are used up, in shutdown only |
| `Shutdown.TriesCountShutdowns` | src/ssp.rs:722-724 | in every run the retry counter covers the emitted instructions numbered MAX, and equals their number if every tick was framed |
| `Shutdown.ShutdownTimesOut` | src/ssp.rs:430-440 | for a shutdown begun at start in any reachable state, in every continuation the wait is over if and only if sixteen tries were counted or ten seconds have passed since start |
| `Engine.SspSender.ProcessAcknowledgmentThrough` | src/ssp.rs:458-465 | the new queue and the clamped index, nothing else |
| `Engine.SspSender.UpdateAssumedReceiverState` | src/ssp.rs:488-498 | the loop ends at the last entry before the first stale one |
| `Engine.SspSender.RationalizeStates` | src/ssp.rs:500-509 | the in-place loop trims the current stream and every entry, and leaves the rest |
| `Engine.SspSender.ComputeTimers` | src/ssp.rs:526-563 | the persisted deadlines and the next send time |
| `Engine.SspSender.WaitTime` | src/ssp.rs:513-519 | the wait and the persisted deadlines |
| `Engine.SspSender.AttemptProspectiveResend` | src/ssp.rs:611-623 | the diff to send and the moved index |
| `Engine.SspSender.AddSentState` | src/ssp.rs:625-647 | the queue after the append and the middle cull, and the adjusted index |
| `Engine.SspSender.SendInFragments` | src/ssp.rs:703-742 | retries, pending ack, fragmenter and output, on success and on failure |
| `Engine.SspSender.SendEmptyAck` | src/ssp.rs:649-669 | the whole new state of sender and fragmenter, and what went out |
| `Engine.SspSender.RecordSent` | src/ssp.rs:690-695 | a known number is touched, a new one appended |
| `Engine.SspSender.SendToReceiver` | src/ssp.rs:671-701 | the whole new state of sender and fragmenter, and what went out |
| `Engine.SspSender.SendDue` | src/ssp.rs:591-608 | bet, then a diff, an empty ack, or only a cleared clock |
| `Engine.SspSender.Tick` | src/ssp.rs:572-609 | the whole new state of sender and fragmenter, and what went out |
| `Engine.SspReceiver.ProcessThrowawayUntil` | src/ssp.rs:792-802 | culls below the number exactly when something stays |
| `Engine.SspReceiver.AdmitInstruction` | src/ssp.rs:804-832 | the refusals in the code's order, with the cull a late refusal may leave behind |
| `Engine.SspReceiver.CommitState` | src/ssp.rs:846-864 | the sorted insert and its outcome |
| `Engine.SspReceiver.ProcessInstruction` | src/ssp.rs:804-864 | the new queue, quench timer and result for every instruction |
| `ReceiverLaws.AdmitKeeps` | src/ssp.rs:804-832 | whatever is refused, the queue keeps its newest entry and loses at most what lies below the throwaway number; what is admitted is new and has its base |
| `ReceiverLaws.AdmitExact` | src/ssp.rs:804-832 | each refusal if and only if: wrong version, number held, reference not held or below the throwaway number, over the cap before the quench time; a refusal after the cull leaves the culled queue, an earlier one the old; what is admitted restarts the quench window exactly over the cap |
| `ReceiverLaws.CommitKeeps` | src/ssp.rs:846-864 | exactly one entry is added, in its place |
| `Session.Peer.Tick` | src/session.rs:805-816 | an endpoint's tick is the step of the two-party system, and hands out the fragments it records |
| `Session.Peer.HandleDatagram` | src/session.rs:996-1037 | parse, reassemble, version gate, ack, receive and ack back, in that order, equal the system's delivery step |
| `Session.Peer.Input` | src/session.rs:869-879 | typing appends before shutdown and is ignored after |
| `Session.Peer.Shutdown` | src/ssp.rs:406-411 | equals the system's shutdown step |
| `Session.Peer.WaitTime` | src/ssp.rs:513-519 | equals the system's timer step, with its answer |
| `EventLogs.AncestorIsUp` | src/ssp.rs:237-256 | a log is an ancestor exactly when it is the node at the difference of the lengths |
| `EventLogs.TrailPrefix` | src/ssp.rs:223-232 | the log of an ancestor is a prefix |
| `EventLogs.EventLog.Push` | src/ssp.rs:214-220 | one event longer, with the old log as ancestor |
| `EventLogs.EventLog.Iter` | src/ssp.rs:223-232 | the events from the root, in order |
| `EventLogs.EventLog.SuffixOver` | src/ssp.rs:237-266 | a suffix exactly when the base is an ancestor by identity, and then this log is the base's followed by it |
| `Display.AppliedGrows` | src/ssp.rs:331-349 | a host diff only appends events and never lowers the echo ack |
| `Display.HostDiffRestores` | src/ssp.rs:331-349 | the encoded message for any events, bytes or sizes, and an echo ack, applied to any state, appends exactly those events and leaves the higher echo ack |
| `Display.HostDiffsCompose` | src/ssp.rs:331-349 | one message applied after another is their concatenation applied at once |
| `Display.EmptyBytesAddNothing` | src/ssp.rs:336-340 | an empty byte string is not logged |
| `Display.ApplyString` | src/ssp.rs:331-349 | empty byte strings dropped, echo ack the maximum, the old log an ancestor of the new, or an error |
| `Display.HostSession.ProcessInstruction` | src/ssp.rs:804-864 | the receiver over shared logs does what the receiver over plain event lists does |
| `Display.HostSession.AdvanceDisplay` | src/session.rs:1042-1074 | by suffix or rebuild, the display ends up fed exactly the newest log; a rebuild happens only off the branch |
| `Display.HostSession.HandleInstruction` | src/session.rs:1033-1089 | after every instruction the display equals a full replay of the newest state; predictions retire with a newest state, and a change is reported if and only if the display moved to another log or a cell retired |
| `Predictions.KeptIsSuffix` | src/session.rs:176-183 | on sorted frames the cells above an ack are exactly a suffix |
| `Predictions.PrintableRun` | src/session.rs:156-167 | printable bytes become cells side by side in their order, each with the burst's frame, up to the last column, which takes none, and the cursor ends behind them |
| `Predictions.PredictedInPlace` | src/session.rs:1108-1127 | a typed burst starts where the last guess ended, or at the display's cursor |
| `Predictions.TypeAndErase` | src/session.rs:149-167 | printable bytes and as many backspaces restore cells, frames and cursor |
| `Predictions.ErasesTakeBack` | src/session.rs:149-155 | backspaces take the last cells, and the cursor goes to where the first of them was |
| `Predictions.ReturnMoves` | src/session.rs:145-148 | a carriage return goes to the start of the next row, or of the last, and adds no cell |
| `Predictions.BurstStops` | src/session.rs:168-170 | nothing behind the first unpredictable byte is looked at |
| `Predictions.NotPredicted` | src/session.rs:1108-1121 | a paste of more than 100 bytes, or input while prediction is off, changes nothing |
| `Predictions.PredictionState.FeedBurst` | src/session.rs:142-168 | the loop over a burst keeps cells and frames parallel and sorted and computes the specified overlay |
| `Predictions.PredictionState.Predict` | src/session.rs:1108-1127 | no guess for pastes or when off, a fresh run starts at the display's cursor |
| `Predictions.PredictionState.ConfirmedPrefixLen` | src/session.rs:181-183 | the binary search finds the point where frames pass the ack |
| `Predictions.PredictionState.Retire` | src/session.rs:1134-1147 | drains exactly the cells at or below the ack, and reports whether there were any |
| `Predictions.PredictionState.SetEnabled` | src/session.rs:588-594 | switching off clears the overlay, switching on keeps it |
| `PredictionLaws.RetirementIsExact` | src/session.rs:1108-1147 | over every run of typing, retractions, sends and acks, an echo ack of a recorded state retires a cell if and only if that state contains the cell's keystroke |
| `Sealing.NonceIsInjective` | src/crypto.rs:91-155 | direction and sequence number are read back, and equal twelve-byte nonces mean both are equal |
| `Layouts.NonceShape` | src/crypto.rs:82-123 | four zero bytes, then the direction bit over the sequence number, highest byte first |
| `Layouts.PacketShape` | src/crypto.rs:174-190 | two timestamps of two bytes before the fragment, and a block count that is the number of 16-byte blocks |
| `Sealing.NoncesNeverRepeat` | src/crypto.rs:248-284 | over any interleaving of both sealers no nonce repeats and each side's numbers rise below 2^63, as section 5.1 of RFC 7253 requires of nonces |
| `Sealing.SessionWithinBudget` | src/session.rs:904-910 | a side that stops after the tick of its first budget refusal, as the session does, never seals 2^47 blocks, whatever it tried before |
| `Sealing.BlockBudgetHolds` | src/crypto.rs:257-276 | a side that goes on after a refusal still seals fewer than 2^47 blocks as long as its attempts stay below 2^64 |
| `Sealing.WrapExceedsBudget` | src/crypto.rs:267-270 | 2^64 one-block attempts by one sealer seal 2^47 blocks: without the stop the budget fails |
| `Sealing.ExhaustedUntilWrap` | src/crypto.rs:267-270 | for a packet of at most 2^47 blocks, an exhausted sealer refuses it if and only if the counter does not wrap |
| `Sealing.SealedOpens` | src/crypto.rs:257-331 | a sealed datagram opens to what was sealed, with its number, and is refused when reflected |
| `Sealing.AcceptedExactly` | src/crypto.rs:314-331 | a datagram is accepted as number, header and fragment if and only if it has 24 bytes or more, begins with the nonce of the peer's direction and that number, and the rest deciphers under exactly that nonce to header and fragment |
| `Sealing.MoshSealer.NextNonce` | src/crypto.rs:248-255 | one number per nonce, and an error at 2^63 |
| `Sealing.MoshSealer.SealPacket` | src/crypto.rs:257-284 | counter, sequence number and datagram for every outcome |

## Left out

- AES-OCB3, key parsing and zeroizing: foreign libraries; the cipher is any function pair with the inverse law.
- zlib: any pair with the inverse law, plus the two size caps of the code.
- Sockets, port hopping, threads, mutexes, the packet timestamps and the replay window of `src/session.rs`: input and output plumbing.
- Round-trip smoothing and the retransmission timeout in floating point: both reach the model as numbers given to each tick; the send interval is modelled over the reals.
- `src/bootstrap.rs`: line parsing with shallow properties.
- `EventLog`'s hand-written drop, trace output and debug assertions: memory and diagnostics, not results.
- `set_current_state`: an arbitrary replacement breaks append-only use, and the session never calls it.
- `next_send_time`: the code writes it and never reads it.
- The server's own outgoing state: not part of the repository; in `Protocol` both directions carry user streams, while `Display` models the host state on the receiving side for arbitrary instructions.
- Overflow of times, of the 32-bit retry counter and of prediction coordinates: these are unbounded here.
- Guards on runs: 2^64 - 1 state numbers, 2^64 fragment ids and streams of 2^56 events are taken as unreachable; `Sender.NextNum` and the fragment id still wrap as 64-bit numbers do.
- `Vec` aliasing: queues and buffers that the code mutates are fields or variables of sequence type.
- UserMessageRoundTrip: keystrokes of 2^63 bytes or more are excluded, as no buffer holds them.
- HostMessageRoundTrip: host strings of 2^63 bytes or more are excluded, as no buffer holds them.
- SkipFieldAt: the recursion of nested groups terminates, but the stack it needs is not modelled.
- DataAckGoesOut: a tick whose framing fails (an MTU within the header, or more than 32768 fragments) sends nothing and is excluded.
- DataAckAnswered: the same, and runs in which this side shuts down or acks a shutdown, where the ack is paced by frames instead.
- BlockBudgetHolds: attempts of 2^64 blocks or more are excluded; `Sealing.WrapExceedsBudget` shows why, and `Sealing.SessionWithinBudget` needs no such bound.
- SessionWithinBudget: packets of 2^62 bytes or more, and more than 2^63 blocks left in the tick of the refusal, are excluded, as no memory holds them.
- EveryTickDecides: ticks whose framing fails are excluded; `Deadlines.TickDecides` says what they tried to send.
- TypedGoesOut: ticks whose framing fails are excluded.
- IdMovesWithHeader: a framing that fails stamps its header without an emission, and such runs are excluded.
- OutputsAreFounded: how much memory unfinished fragments may hold is not bounded, as the code bounds it only when a packet is complete.
- OneDeliveryRecovers: framing is assumed to succeed and the receiver not to quench at the arrival.
- Converges: a backlog of more than 50000 events could exceed the decompression cap in one diff and is excluded, as is a compression that blows small messages up; that the channel delivers at some time is the continuation's choice, not a promise.
