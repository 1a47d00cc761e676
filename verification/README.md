# Verified models of a userspace tunnel

This project models the self-contained engines of a userspace tunnel and proves
what they promise, for all inputs and all runs. Nothing here performs I/O: sockets,
clocks, hashes and random sources are parameters.

Bytes are `bv8` in the erasure code and octets (`0 <= b < 256`) elsewhere. Integers
are unbounded; every wrap-around of the program that can be observed is written out
(sequence numbers modulo 2^32, block numbers modulo 2^32, 64-bit carry chains, 16-bit
length fields). Functions and datatypes give each engine's meaning; classes and
methods follow the program where it updates fields, buffers and arrays in place, and
each is proved against those functions.

## The engines and their main results

**Erasure code** (`Gf256`, `GfSum`, `GaussJordan`, `Cauchy`, `Generator`, `FecCodec`).
The exp/log tables of polynomial 0x11d are shown to be a field: x has order exactly 255,
so its powers are all the non-zero bytes; distributivity follows because multiplying by
a power of x repeats the linear step "times x". In-place Gauss-Jordan keeps the augmented
matrix row-equivalent to the input, returns a left inverse, and fails exactly on singular
input. A Cauchy combination that vanishes at as many points as it has non-zero
coefficients is zero; hence any n rows of identity-over-Cauchy are independent, so
reconstruction never fails and returns the data that was encoded.

**Block encoder and decoder** (`FecHeader`, `FecDecoder`, `FecDelivery`, `FecStream`).
For a flushed block, any `count` distinct packets of those emitted, in any order, with
repetitions and among packets of other blocks, make a decoder that keeps the block
deliver every frame exactly once and unchanged; a fresh decoder keeps the block whenever the run
has no reset and names at most sixteen block numbers. A block carries the least number of parity
packets that keeps the ratio of the code, so it survives the loss of that many, whichever they are. Over every run of packets and resets the
byte counter is the sum over the blocks held, at most 64 MiB and 64 blocks are held, and
a block just created survives the eviction it triggers.

**Segmentation and coalescing** (`Csum`, `Wire`, `Pseudo`, `Segment`, `SegmentChecks`, `Gro`, `Packets`). The 64-bit carry chain
computes the sum of section 1 of RFC 1071 and its last addition cannot overflow. Cutting a
super-packet conserves payload, counts and numbering, and a receiver accepts every segment: the
RFC 1071 sums over the IP header and over the pseudo header, octet by octet, with the transport
segment are all ones, and so they are for a super-packet whose seeded field a device has finished. Coalescing an accepted run and cutting it again yields the original packets
except for the IPv4 identification and the checksums; a packet next in its flow is never left out
of a run that still has room for it.

**Striping** (`Reseq`, `StripeRecord`, `Stripe`, `StripePool`, `StripeComplete`, `StripeRead`,
`StripeWritten`, `StripeSender`). A state machine
whose steps are the single accesses to shared state: writes, opening of streams, takes, gathers,
complete and partial writes, requeues, keepalives, shutdown; a reader's look at `nextDue` without
the lock, the end of its stream, its later `deliver`, and each access of the drain loop. After any
interleaving the bytes handed on are a prefix of what was accepted, and every accepted record that
is not empty was written in full, waits in the queue, is in a server's hands, or was dropped after
shutdown. No pending record is in a pooled buffer while the lock is free, and every pooled buffer
ever taken is in exactly one reader's hands or was given back exactly once. Nothing is held back:
while the lock is free and the pipe is open the output is everything before the first number never
stored. A reader returns exactly for one of four reasons, and while none has returned everything
written in full is stored or in a stream, and the readers can go on until all of it has come out.
An empty write, or one over 1 MiB, takes a number that no reader delivers; nothing accepted
after it ever comes out (`Stripe.UnreadableStalls`).

**Port permutation and walk** (`Bits`, `Arith`, `RotPerm`, `PortWalk`). The Feistel network
is injective for any round function, so the walk from inside the span returns to it; the
landing map is a bijection from indices modulo the span onto the band. A rotating client
meets each pair of source port and destination exactly once in span times D steps.

**Replay window** (`Replay`). The ring bitmap agrees with the set of accepted numbers: over any
sequence of calls, a number is accepted exactly when, since the last change of session, it is
inside the window and was not accepted. A change of session opens the window again by design (`Replay.SessionReopens`).

**BPF generator** (`BpfFilter`). The emitted program is correct against an interpreter of the
kernel's opcodes: it lets exactly the wanted packets through, and lets them through whole.

**Failure ladder** (`Health`, `Ladder`, `Rotation`). From a fresh lap, whatever the times of
the verdicts are, the trace of (tries + 2) * D verdicts is exactly: per walk, `tries` redraws,
one re-handshake, one walk; the walks burn each destination once in ring order; the last one
hands over to a healthy source and restores every destination. No bound on time is needed:
a destination that falls due during the lap still comes after the healthy ones.

**WebSocket framing** (`WsMask`, `WsFrame`, `WsConn`). Word-wise masking is octet-wise
masking (section 5.3 of RFC 6455) and undoes itself; frames (section 5.2) round-trip; what
one side writes is what the other reads, for any write sizes, read sizes and control frames
between.

**Rule lifetimes** (`AntiLeak`, `AntiLeakRules`, `AntiLeaker`). In every run each remover is held in exactly
one place until it is called, exactly once; after a teardown of a closed engine all have
been called. Each is held under the address whose rule it removes, so the current address and
the known ones taken care of have their rules in place.

`Counting`, `Sequences`, `Octets` and `Options` hold shared definitions.

## Model

| member | source | states |
|---|---|---|
| `Gf256.Order` | internal/packet/fec.go:11-23 | x has order exactly 255 modulo 0x11d, so the exp table has no repetition below 255 |
| `Gf256.XtimeIs` | internal/packet/fec.go:17-22 | the step the powers are made of: a shift, and 0x11d taken off when bit 8 appears |
| `Gf256.ExpSurjective` | internal/packet/fec.go:11-23 | every non-zero byte is a power of x, so the log table is total on them |
| `Gf256.Log` | internal/packet/fec.go:15 | the logarithm is the exponent below 255 of its argument |
| `Gf256.MulNonzero` | internal/packet/fec.go:24-30 | a product is zero exactly when a factor is |
| `Gf256.MulComm` | internal/packet/fec.go:24-30 | the product table is symmetric |
| `Gf256.MulAssoc` | internal/packet/fec.go:24-30 | the product table is associative |
| `Gf256.MulOne` | internal/packet/fec.go:24-30 | one is the unit of the product table |
| `Gf256.MulDistr` | internal/packet/fec.go:24-30 | products distribute over exclusive or on both sides |
| `Gf256.MulDiv` | internal/packet/fec.go:33-38 | division by a non-zero byte undoes multiplication |
| `Gf256.MulIsPolyMul` | internal/packet/fec.go:24-30 | the table product is the carry-less product reduced by 0x11d |
| `GaussJordan.SwapEquivalent` | internal/packet/fec.go:155 | a row swap keeps the matrix row-equivalent |
| `GaussJordan.EliminateEquivalent` | internal/packet/fec.go:158-168 | normalising the pivot row and clearing its column keeps the matrix row-equivalent |
| `GaussJordan.EliminateUnit` | internal/packet/fec.go:158-168 | after the column is cleared one more column is a unit column |
| `GaussJordan.ReduceKeeps` | internal/packet/fec.go:143-169 | the whole elimination keeps row equivalence; it ends with unit columns or at a column with no pivot |
| `GaussJordan.ReducedIsInverse` | internal/packet/fec.go:170-174 | the right half of the reduced augmented matrix times the input is the identity |
| `GaussJordan.StuckIsSingular` | internal/packet/fec.go:152-154 | a column without a pivot exhibits a non-zero vector that the input maps to zero |
| `GaussJordan.InvertCorrect` | internal/packet/fec.go:135-175 | inversion returns a left inverse of a non-singular matrix and fails exactly on singular ones |
| `GaussJordan.LeftInverseRecovers` | internal/packet/fec.go:109-124 | applying the returned inverse recovers the vector the matrix was applied to |
| `Cauchy.PartialFractions` | internal/packet/fec.go:45-55 | the partial-fraction identity of reciprocals of differences that drives the root count |
| `Cauchy.ContractSum` | internal/packet/fec.go:45-55 | a combination that vanishes at one point contracts to one with a smaller support and the same other roots |
| `Cauchy.CauchyInjective` | internal/packet/fec.go:45-55 | coefficients whose Cauchy sum vanishes at as many points as they have non-zero entries are all zero |
| `Generator.Systematic` | internal/packet/fec.go:57-72 | the first n shards of a code word are the data itself |
| `Generator.ParityEntry` | internal/packet/fec.go:45-55 | a parity coefficient is the inverse of (n + i) xor j |
| `Generator.AnyRowsIndependent` | internal/packet/fec.go:89-104 | any n rows of identity-over-Cauchy form a non-singular matrix, for every n, k with n + k <= 255 |
| `Generator.ReconstructNeverFails` | internal/packet/fec.go:74-126 | with at least n shards present reconstruction never reports a singular matrix |
| `Generator.ReconstructRecovers` | internal/packet/fec.go:74-126 | reconstruction of any n or more shards of an encoded block returns the original data |
| `FecCodec.Tables.constructor` | internal/packet/fec.go:11-31 | the three table loops fill exp, log and the product table with the field operations |
| `FecCodec.Tables.Gdiv` | internal/packet/fec.go:33-38 | division through the doubled exp table is field division |
| `FecCodec.FillExpLog` | internal/packet/fec.go:12-23 | the shift-and-reduce loop writes the powers of x and their logarithms |
| `FecCodec.RepeatExp` | internal/packet/fec.go:21-23 | the second half of the exp table continues the powers |
| `FecCodec.FillMul` | internal/packet/fec.go:24-30 | the double loop writes the whole product table |
| `FecCodec.AddMultiple` | internal/packet/fec.go:128-133 | xors coef times src into dst in place |
| `FecCodec.Scale` | internal/packet/fec.go:158-161 | divides a row by its pivot in place |
| `FecCodec.AugmentedRows` | internal/packet/fec.go:136-142 | fresh rows that hold the input beside the identity |
| `FecCodec.PivotSearch` | internal/packet/fec.go:144-151 | finds the first row at or below the diagonal with a non-zero entry |
| `FecCodec.ClearColumn` | internal/packet/fec.go:163-168 | subtracts the pivot row from every other row in place |
| `FecCodec.Round` | internal/packet/fec.go:143-169 | one column: search, swap, normalise, clear, as the elimination step prescribes |
| `FecCodec.GfInvert` | internal/packet/fec.go:135-175 | the in-place algorithm computes the inverse of the specification |
| `FecCodec.CombineRows` | internal/packet/fec.go:115-122 | the accumulation loop computes the linear combination of the rows |
| `FecCodec.Codec.constructor` | internal/packet/fec.go:45-55 | the parity matrix is 1 over (n + i) xor j |
| `FecCodec.Codec.Encode` | internal/packet/fec.go:57-72 | the parity shards of the code word |
| `FecCodec.Codec.Survey` | internal/packet/fec.go:75-84 | whether all data is present, and the shard size |
| `FecCodec.Codec.SelectRows` | internal/packet/fec.go:89-103 | the first n present shards with their generator rows |
| `FecCodec.Codec.Solve` | internal/packet/fec.go:109-125 | keeps present data shards and computes the others from the inverse |
| `FecCodec.Codec.Rebuild` | internal/packet/fec.go:74-126 | computes the reconstruction of the specification and always succeeds with n shards |
| `FecHeader.HeaderRoundTrip` | internal/packet/fec_stream.go:54-85 | a header written under any mask is read back, with its body |
| `FecHeader.HeaderLayout` | internal/packet/fec_stream.go:35-66 | each of the eleven header bytes, unmasked with the cipher's answer to the first sixteen body bytes, is the field the wire format puts there |
| `FecHeader.FramedLayout` | internal/packet/fec_stream.go:134-140 | a shard is two big-endian length bytes and the frame |
| `FecHeader.PaddedFrame` | internal/packet/fec_stream.go:360-368 | a framed packet is recovered from its shard, padded or not |
| `FecDecoder.Classify` | internal/packet/fec_stream.go:236-275 | an item it accepts has consistent counts, lengths and slot |
| `FecDecoder.ClassifyIs` | internal/packet/fec_stream.go:236-269 | exactly the data and parity packets whose header fits the code and whose length fits the header are taken, each for its slot; a pass packet needs every other field zero; all else is ignored |
| `FecDecoder.PassThrough` | internal/packet/fec_stream.go:241-246 | an uncoded frame is handed out as it is and leaves the decoder alone |
| `FecDecoder.EvictsLeast` | internal/packet/fec_stream.go:286-290 | only the oldest blocks go to make room, and the last of them only because it was needed |
| `FecDecoder.NewestSurvives` | internal/packet/fec_stream.go:370-392 | eviction of the surplus never removes the block that arrived last |
| `FecDecoder.Create` | internal/packet/fec_stream.go:283-311 | a new block is held afterwards with its padding slots filled, room for a shard is left, other blocks are unchanged or evicted |
| `FecDecoder.RunAccounts` | internal/packet/fec_stream.go:277-336 | over every run the byte counter is the sum over the blocks, within 64 MiB and 64 blocks, and present counts the filled slots |
| `FecDecoder.NewBlockStored` | internal/packet/fec_stream.go:282-336 | the packet that creates a block is stored in it, whatever was evicted |
| `FecDecoder.ResetForgets` | internal/packet/fec_stream.go:224-275 | after a reset the next packet finds an empty decoder: its block alone is held, with its shard, and the bytes are that block's |
| `FecDecoder.MismatchDelivers` | internal/packet/fec_stream.go:311-316 | a packet that contradicts its block changes nothing, and a data frame is handed out at once |
| `FecDecoder.OverBudget` | internal/packet/fec_stream.go:320-329 | a shard for which the budget has no room is not kept; a data frame is handed out and remembered as given out |
| `FecDecoder.OverBudgetRepeats` | internal/packet/fec_stream.go:320-329 | such a data packet is handed out again whenever it comes again, so frames are handed out at most once only while there is room |
| `FecDecoder.LeftoverLess` | internal/packet/fec_stream.go:347-357 | what was given out early is exactly what the finished block leaves out |
| `FecDelivery.EmittedParses` | internal/packet/fec_stream.go:182-194 | every emitted packet parses to its slot and its code-word shard |
| `FecDelivery.EmittedLayout` | internal/packet/fec_stream.go:181-194 | frame p leaves as type 1 with index p behind its length; parity row i as type 2 with index i; block number, code, count and width are in every header |
| `FecDelivery.WidthAttained` | internal/packet/fec_stream.go:163-168 | shards are no wider than the longest frame needs |
| `FecDelivery.KEffLeast` | internal/packet/fec_stream.go:186 | the number of parity packets is the least e with e * n >= k * count; at least one when k is, and all k for a full block |
| `FecDelivery.EmittedApart` | internal/packet/fec_stream.go:181-194 | the packets of a block are all different |
| `FecDelivery.SurvivesLoss` | internal/packet/fec_stream.go:186 | a block the decoder keeps survives the loss of any k * count / n of its packets, rounded up: every frame is handed out exactly once |
| `FecDelivery.RunDelivers` | internal/packet/fec_stream.go:236-358 | after any part of a run, what was delivered is exactly what the slots received so far entitle to |
| `FecDelivery.BlockDelivered` | internal/packet/fec_stream.go:152-195 | never more than the block's frames, and all of them exactly once when count distinct packets arrived at a decoder that keeps the block |
| `FecDelivery.FewBlocksDelivered` | internal/packet/fec_stream.go:236-358 | on a fresh decoder without resets, packets that name few enough block numbers to be held at once: count distinct packets of the block deliver it |
| `FecDelivery.LoneBlockDelivered` | internal/packet/fec_stream.go:236-358 | in particular when only this block's packets arrive |
| `FecStream.Encoder.constructor` | internal/packet/fec_stream.go:120-122 | an encoder with nothing queued |
| `FecStream.Encoder.AddData` | internal/packet/fec_stream.go:134-150 | accepted frames are queued in order, and a full queue is flushed as one block |
| `FecStream.Encoder.FlushLocked` | internal/packet/fec_stream.go:152-195 | the queue leaves as the next block's packets; nothing is lost or repeated |
| `FecStream.Encoder.Close` | internal/packet/fec_stream.go:124-132 | nothing is emitted after closing |
| `FecStream.BuildBatch` | internal/packet/fec_stream.go:160-194 | the packets are those of the block's specification, as many parity packets as the least that keep the ratio of the code |
| `FecStream.Decoder.constructor` | internal/packet/fec_stream.go:220-222 | an empty decoder |
| `FecStream.Decoder.Receive` | internal/packet/fec_stream.go:236-358 | the new blocks, counters and deliveries are those of the step function |
| `FecStream.Decoder.RequestReset` | internal/packet/fec_stream.go:224-229 | a reset is applied by the next packet |
| `FecStream.Decoder.CreateBlock` | internal/packet/fec_stream.go:283-311 | makes room, fills the padding slots, evicts the surplus |
| `FecStream.Decoder.MakeRoom` | internal/packet/fec_stream.go:289-293 | evicts the oldest blocks until the bytes fit |
| `FecStream.Decoder.EvictLocked` | internal/packet/fec_stream.go:370-376 | evicts the oldest blocks until at most 64 are left |
| `FecStream.Decoder.EarliestID` | internal/packet/fec_stream.go:379-385 | the scan finds a block with the smallest arrival number |
| `FecStream.Decoder.EvictOldestLocked` | internal/packet/fec_stream.go:378-392 | removes the block that arrived first and its bytes |
| `FecStream.Decoder.StoreLocked` | internal/packet/fec_stream.go:318-357 | stores, accounts, delivers and reconstructs as the specification does |
| `FecStream.Decoder.StoreShard` | internal/packet/fec_stream.go:318-357 | the same for the block alone, with the over-budget branch |
| `FecStream.Decoder.DeliverRest` | internal/packet/fec_stream.go:349-357 | delivers exactly the slots that were neither received nor given out |
| `Csum.OnesSumIsNorm` | internal/csum/csum.go:29-36 | the word-by-word sum of RFC 1071 is the residue of the plain sum with zero kept apart |
| `Csum.Fold` | internal/csum/csum.go:29-34 | folding computes that residue of any 64-bit accumulator |
| `Csum.Chain` | internal/csum/csum.go:11-14 | one step of the chain keeps the sum and never reaches all ones with a carry |
| `Csum.Add` | internal/csum/csum.go:8-27 | the unrolled chain stands for the sum of the words and its final addition does not overflow |
| `Csum.Checksum` | internal/csum/csum.go:36 | the complement of the RFC 1071 sum; all ones exactly for all-zero input |
| `Wire.SealedVerifies` | internal/tun/offload_linux.go:239-246 | a region with its checksum filled in sums to all ones, with the UDP rule for zero as well |
| `Segment.V6L4Prefix` | internal/tun/offload_linux.go:202-229 | the walk over extension headers depends only on the octets before the transport header |
| `Segment.LoadIsCuttable` | internal/tun/offload_linux.go:67-106 | a packet that load agrees to split has consistent header sizes and payload |
| `Segment.SegContents` | internal/tun/offload_linux.go:117-160 | a segment carries its share of the payload, the copied header octets, its lengths, its sequence number modulo 2^32, and FIN and PSH on the last one only |
| `SegmentChecks.FlagsCleared` | internal/tun/offload_linux.go:108-161 | a segment before the last loses FIN and PSH and keeps the other six flags |
| `SegmentChecks.SegVerifies` | internal/tun/offload_linux.go:108-170 | a receiver accepts every segment: the RFC 1071 sum is all ones over the IPv4 header and over the pseudo header, octet by octet, with the transport segment; a UDP checksum is never zero |
| `Pseudo.PseudoSums` | internal/tun/offload_linux.go:231-237 | the sum that starts with addresses, protocol and length is the RFC 1071 sum over the pseudo header of RFC 9293, RFC 768 and RFC 8200 |
| `Pseudo.FinishedSeals` | internal/tun/gro_linux.go:221-228 | finishing a field that holds a seed seals it over that seed |
| `Packets.ChainWalk` | internal/tun/offload_linux.go:202-229 | the walk over any chain of IPv6 extension headers comes out behind it at the transport protocol |
| `Packets.LoadSeams` | internal/tun/offload_linux.go:67-106 | load finds the header sizes, sequence number, flags and identification of any packet put together from headers and payload, and gives up exactly when nothing is to be cut |
| `Packets.LoadDispatch` | internal/tun/offload_linux.go:50-65 | types 1 and 4 are TCP, 5 is UDP, others are not cut; the ECN bit makes no difference |
| `Segment.CutJoins` | internal/tun/offload_linux.go:108-161 | the payloads of the segments concatenate to the payload of the super-packet |
| `Segment.CutCount` | internal/tun/offload_linux.go:64 | there are as many segments as load announces |
| `Segment.CutAt` | internal/tun/offload_linux.go:117-125 | the j-th segment starts at j times the segment size |
| `Segment.Cursor.LoadPacket` | internal/tun/offload_linux.go:50-65 | announces the number of segments that next will yield |
| `Segment.Cursor.Next` | internal/tun/offload_linux.go:108-161 | writes the next segment into the buffer and nothing beyond it, or consumes it when it does not fit |
| `Segment.Cursor.WriteSegment` | internal/tun/offload_linux.go:135-160 | the buffer holds the segment of the specification |
| `Segment.Cursor.WriteIpHeader` | internal/tun/offload_linux.go:139-146 | length, identification and header checksum in place |
| `Segment.SealFront` | internal/tun/offload_linux.go:144-145 | the IPv4 header checksum in place, nothing else touched |
| `Segment.Cursor.WriteL4Csum` | internal/tun/offload_linux.go:163-170 | the transport checksum in place |
| `Gro.Parse` | internal/tun/gro_linux.go:69-126 | a parsed packet is exactly header and payload, the payload not empty |
| `Packets.ParseSeams` | internal/tun/gro_linux.go:33-126 | a packet sent whole with exact length fields is parsed at its seams, and refused when it has no payload |
| `Gro.FindRun` | internal/tun/gro_linux.go:136-194 | the longest run of packets that may leave as one, or none when not even two may |
| `Packets.MustStart` | internal/tun/gro_linux.go:165-172 | any packet with payload leads a run, a TCP one exactly when ACK is its only flag |
| `Packets.MustJoin` | internal/tun/gro_linux.go:136-194 | a packet next in the flow, with the same headers but for length, identification, sequence, PSH and checksums, joins a run of full packets short of 64 packets and 60000 octets |
| `Gro.SuperLength` | internal/tun/gro_linux.go:196-205 | the super-packet is as long as the run's total, at most 60000 bytes |
| `Gro.SuperHeader` | internal/tun/gro_linux.go:207-221 | its length fields are exact and its IPv4 header checksum verifies |
| `Gro.PshTaken` | internal/tun/gro_linux.go:207-222 | the super-packet has PSH when the lead or the last packet has it, and the other flags of the lead |
| `Gro.SuperFinishes` | internal/tun/gro_linux.go:207-238 | once a device has finished the seeded field, with either treatment of a zero, receivers accept the super-packet: the RFC 1071 sums over IPv4 header, pseudo header and transport are all ones |
| `Gro.RoundTrip` | internal/tun/gro_linux.go:136-238 | cutting the super-packet of a run with the run's segment size yields the packets of the run, equal in every octet but IPv4 identification and checksums |
| `Gro.WriteSuper` | internal/tun/gro_linux.go:196-238 | the lead rewritten in place and the bodies of the others form the super-packet; the vnet header makes the cursor plan the same cut, and the device finish a checksum that receivers accept |
| `Gro.RewriteLead` | internal/tun/gro_linux.go:207-228 | lengths, flags and checksum seeds of the lead in place, as in the packet that `Gro.SuperFinishes` is about |
| `Gro.NextWrite` | internal/tun/gro_linux.go:263-283 | the next write is the longest run at the front or one packet, TCP before UDP |
| `Gro.WriteBatch` | internal/tun/gro_linux.go:249-286 | the writes cover the batch in order, without loss or repetition; with offload each takes the longest run there is, without it each is one packet |
| `Reseq.Deliver` | internal/packet/stripe.go:288-325 | keeps the byte count equal to what is pending and no pending record below next |
| `Reseq.DeliverKeepsUnpooled` | internal/packet/stripe.go:288-325 | delivering a pooled record whose number is at most next leaves nothing pooled behind |
| `Reseq.Resequencer.constructor` | internal/packet/stripe.go:259-263 | an empty resequencer |
| `Reseq.Resequencer.SetMax` | internal/packet/stripe.go:279-284 | both limits take their new values and nothing else changes |
| `Reseq.Resequencer.Due` | internal/packet/stripe.go:286 | whether the number is nextDue, at any moment, and so the next to go out while the lock is free |
| `Reseq.Resequencer.DeliverRecord` | internal/packet/stripe.go:288-325 | the new state is that of the specification, and a pooled buffer is released exactly once |
| `Reseq.Resequencer.StoreRecord` | internal/packet/stripe.go:299-303 | storing replaces a pending record of the same number without counting it twice |
| `Reseq.Resequencer.DrainLocked` | internal/packet/stripe.go:304-325 | drains every record that is next in turn |
| `Reseq.Resequencer.DrainOne` | internal/packet/stripe.go:305-317 | takes one record out, advances next and nextDue together, and writes it |
| `StripeRecord.RecordParses` | internal/packet/stripe.go:86-92 | a record is read back with its number and payload |
| `StripeRecord.RecordGenuine` | internal/packet/stripe.go:85-92 | the record of an accepted write is the payload accepted under its number |
| `Stripe.StoreOk` | internal/packet/stripe.go:299-303 | storing an accepted record keeps the queue true to what was accepted |
| `Stripe.PopOk` | internal/packet/stripe.go:305-313 | the record taken out is the accepted one that is next |
| `Stripe.EmitOk` | internal/packet/stripe.go:314-317 | writing it, in full or until the pipe breaks, extends the output in order |
| `Stripe.ReadGenuine` | internal/packet/stripe.go:211-239 | what a reader parses is a keepalive or an accepted payload under its own number |
| `StripeRead.StepEnds` | internal/packet/stripe.go:211-244 | a reader returns exactly when its stream is cut, its record is over the limit, deliver refuses it for want of room, or the pipe breaks under its write |
| `StripeRead.RunEnds` | internal/packet/stripe.go:211-244 | over every run, a reader that has returned did so at a step of the run for one of these reasons |
| `StripeRead.ReadOn` | internal/packet/stripe.go:211-244 | a reader between records can read on until no whole record is left, past keepalives, and every number it passes was stored |
| `StripeRead.ReadsToEnd` | internal/packet/stripe.go:211-244 | a stream of whole records and keepalives within the limits is read to its very end |
| `Stripe.StepKeeps` | internal/packet/stripe.go:136-244 | every step of every server and reader keeps the invariant of the protocol |
| `Stripe.RunKeeps` | internal/packet/stripe.go:136-244 | so does every run |
| `Stripe.OutputIsPrefix` | internal/packet/stripe.go:85-325 | after any run the output is a prefix of the accepted writes, and while the pipe is open exactly the records taken out of the queue and written |
| `Stripe.UnreadableStalls` | internal/packet/stripe.go:219-226 | nothing from an empty or oversized write on ever comes out |
| `Stripe.BooksBalance` | internal/packet/stripe.go:299-313 | over every run the byte count is what is pending, and nextDue is next while the lock is free |
| `StripeComplete.StepCompletes` | internal/packet/stripe.go:288-325 | every step keeps what was stored before next or pending, and the drain loop ends only when the record due next is not there or the pipe is broken |
| `StripeComplete.OutputIsComplete` | internal/packet/stripe.go:288-325 | over every run, with the lock free and the pipe open, next is the first number never stored and the output is everything before it |
| `StripeComplete.AllOut` | internal/packet/stripe.go:288-325 | once every accepted write was stored, all of it is out |
| `StripeWritten.StepReaches` | internal/packet/stripe.go:136-209 | no step loses a record that was written in full: it is stored or in a stream until some reader returns |
| `StripeWritten.WrittenSomewhere` | internal/packet/stripe.go:136-244 | over every run in which no reader has returned, what was written in full was stored or waits in a stream |
| `StripeWritten.AllWrittenComesOut` | internal/packet/stripe.go:211-325 | from any such moment of any run, when every accepted write was written in full to some stream, the readers can go on until all of it has come out in order |
| `StripeWritten.PendingBounded` | internal/packet/stripe.go:295-303 | over every run, what waits out of order stays within the limits on records and on octets |
| `Stripe.StepLocates` | internal/packet/stripe.go:136-198 | no step loses a record: it is written in full, queued, in a server's hands, or dropped at shutdown |
| `Stripe.RunLocates` | internal/packet/stripe.go:136-198 | the same after any run, and nothing is dropped before shutdown |
| `StripePool.StepKeepsPool` | internal/packet/stripe.go:227-243 | every step keeps the books of pooled buffers: found due, pending only with the holder of the lock, in one place |
| `StripePool.NeverLeftPending` | internal/packet/stripe.go:227-243 | over every run no pending record is in a pooled buffer while the lock is free |
| `StripePool.ReleasedOnce` | internal/packet/stripe.go:227-239 | over every run a pooled buffer is in exactly one reader's hands or was given back exactly once |
| `StripePool.AllReleased` | internal/packet/stripe.go:211-244 | once every reader has returned, every pooled buffer was given back exactly once |
| `StripePool.MayDeliver` | internal/packet/stripe.go:229-239 | over every run a reader about to deliver a pooled record has a number that is at most next, and finds the queue in order |
| `StripePool.DeliverIsSteps` | internal/packet/stripe.go:288-325 | deliver run to its end is the function the resequencer object computes, with the buffer given back |
| `StripeSender.Sender.constructor` | internal/packet/stripe.go:81-83 | an empty queue with number zero next |
| `StripeSender.Sender.Offer` | internal/packet/stripe.go:85-103 | the write step of the protocol when the queue takes the record, and otherwise nothing: a refused record does not consume its number |
| `StripeSender.Sender.TakeRun` | internal/packet/stripe.go:147 | the take step |
| `StripeSender.Sender.Gather` | internal/packet/stripe.go:169-188 | gather steps: queued records in order until the run is large enough or the queue is empty |
| `StripeSender.Sender.PutBack` | internal/packet/stripe.go:190-198 | the requeue step, or the drop once the sender is done |
| `RotPerm.RoundInjective` | internal/packet/rawprofile.go:169-183 | one round loses nothing, for any round function |
| `RotPerm.PiInjective` | internal/packet/rawprofile.go:180-184 | the four rounds permute the domain |
| `RotPerm.Recurs` | internal/packet/rawprofile.go:179-188 | the walk from any value comes back to it |
| `RotPerm.LandInjective` | internal/packet/rawprofile.go:177-189 | distinct starts inside the span land on distinct values |
| `RotPerm.LandOnto` | internal/packet/rawprofile.go:177-189 | every value of the span is landed on |
| `RotPerm.PortBijection` | internal/packet/rawprofile.go:177-189 | two indices share a port exactly when they agree modulo the span, and the ports served are exactly the band |
| `RotPerm.Network` | internal/packet/rawprofile.go:180-184 | the inner loop computes the permutation |
| `RotPerm.At` | internal/packet/rawprofile.go:177-189 | terminates for every index with that index's port |
| `RotPerm.RotPermFrom` | internal/packet/rawprofile.go:150-167 | the smallest half width whose domain holds the span, and keys from the hash |
| `PortWalk.ShuffleKeeps` | internal/packet/rawprofile.go:213-217 | the shuffle repeats nothing and loses nothing |
| `PortWalk.ShuffleIsDrawn` | internal/packet/rawprofile.go:213-218 | the swaps of the shuffle are draws without replacement, the last place first |
| `PortWalk.OthersInOrder` | internal/packet/rawprofile.go:219-226 | the destinations after the base are the first of the shuffled pool in order, the base left out wherever it stands |
| `PortWalk.DportsDistinct` | internal/packet/rawprofile.go:208-228 | n distinct ports beginning with the base, the others from the pool |
| `PortWalk.ShuffleInPlace` | internal/packet/rawprofile.go:214-217 | the array ends as the shuffle of its old contents |
| `PortWalk.AppendOthers` | internal/packet/rawprofile.go:218-226 | appends in order, skipping the base, up to the count |
| `PortWalk.DportSet` | internal/packet/rawprofile.go:208-228 | returns the set whose distinctness is proved |
| `PortWalk.StepServes` | internal/packet/raw_linux.go:830-835 | a step serves exactly sportEvery consecutive packets |
| `PortWalk.PairOnce` | internal/packet/raw_linux.go:852-867 | span times D consecutive steps meet no pair of ports twice |
| `PortWalk.PairMet` | internal/packet/raw_linux.go:852-867 | and meet every pair |
| `PortWalk.Raw.PortStep` | internal/packet/raw_linux.go:837-842 | takes the next packet number, on a rotating socket only |
| `PortWalk.Raw.DportAt` | internal/packet/raw_linux.go:852-857 | the destination of a step, the fixed port with fewer than two |
| `PortWalk.Raw.PortsAt` | internal/packet/raw_linux.go:859-867 | the pair of a step on a client, the rotated port on a server |
| `Replay.PutMarks` | internal/packet/replay.go:21-32 | marking a number changes the answer for exactly the numbers of its slot |
| `Replay.OpenCovers` | internal/packet/replay.go:34-39 | after a jump past the window the cleared bitmap is still right about everything inside it |
| `Replay.PutExtends` | internal/packet/replay.go:49-53 | unmarking the skipped numbers one by one moves the window |
| `Replay.Guard.Mark` | internal/packet/replay.go:21-28 | sets or clears one bit of one word |
| `Replay.Guard.Seen` | internal/packet/replay.go:30-32 | reads that bit |
| `Replay.Guard.OpenAt` | internal/packet/replay.go:34-39 | starts over with one accepted number |
| `Replay.Guard.Advance` | internal/packet/replay.go:49-54 | moves the window up by less than its size |
| `Replay.Guard.Ok` | internal/packet/replay.go:41-67 | verdict and window agree with the set specification for every call |
| `Replay.VerdictIff` | internal/packet/replay.go:41-67 | in any sequence of calls a number is accepted exactly when, since the last change of session, it is within the window of all earlier ones and was not accepted |
| `Replay.NeverTwice` | internal/packet/replay.go:41-67 | nothing is accepted twice in a stretch of one session |
| `BpfFilter.LaidJumpsFit` | internal/packet/rawfilter_linux.go:27-40 | every jump fits eight bits and stays in the program |
| `BpfFilter.ChainRuns` | internal/packet/rawfilter_linux.go:28-31 | the comparisons reach the tail exactly for a key of the list |
| `BpfFilter.TailRuns` | internal/packet/rawfilter_linux.go:32-40 | the tail accepts exactly when the port field matches or no port is asked for |
| `BpfFilter.LaidAccepts` | internal/packet/rawfilter_linux.go:26-40 | the program accepts exactly the packets from the set with the port |
| `BpfFilter.SortedKeys` | internal/packet/rawfilter_linux.go:16-25 | the four-byte keys of the set in ascending order, each once |
| `BpfFilter.Emit` | internal/packet/rawfilter_linux.go:25-40 | the emitted instructions are laid out as proved |
| `BpfFilter.SrcFilter` | internal/packet/rawfilter_linux.go:15-41 | a program exists exactly for 1 to 255 addresses; it never faults, its jumps fit, and it lets a packet of any size through whole exactly when it is wanted |
| `Health.Climb` | internal/packet/health_set.go:57-70 | over burns at any times the c-th condemnation waits the c-th back-off step and the address is dead once they run out; it is eligible again exactly after its wait, and no other record changes |
| `Health.NextFromIs` | internal/packet/health_set.go:95-121 | the next address is the nearest healthy one, else the nearest due one, else a suspect before a dead one and the earliest retest among equals, the cursor and then the first listed on a tie |
| `Health.AllEligible` | internal/packet/health_set.go:123-131 | the count reaches the number of addresses exactly when all are eligible |
| `Ladder.WalkOn` | internal/packet/peer_pool.go:546-574 | a walk inside a lap burns its destination, moves to the neighbour and refills the rungs |
| `Ladder.WalkRefills` | internal/packet/peer_pool.go:716-749 | a verdict spends a port rung, else the session rung, else walks; the rungs are refilled by a walk that moved or by the revive clock, and otherwise stay spent |
| `Ladder.WalkDestinationOnly` | internal/packet/peer_pool.go:546-573 | with destinations alone a walk takes the current one out and goes to its healthy neighbour |
| `Ladder.WalkSourceOnly` | internal/packet/peer_pool.go:546-573 | with sources alone every walk burns the current one and hands over to a healthy one |
| `Ladder.WalkNowhere` | internal/packet/peer_pool.go:546-573 | with neither axis a walk changes nothing |
| `Ladder.LapAlone` | internal/packet/peer_pool.go:556-565 | a lap that finds no other source restores no destination |
| `Ladder.OdoRun` | internal/packet/odometer.go:12-35 | a lap takes as many failures as addresses were eligible at its first one |
| `Ladder.LapWant` | internal/packet/odometer.go:12-23 | the odometer laps exactly on the walk over the last destination |
| `Ladder.WalkLast` | internal/packet/peer_pool.go:562-569 | the last walk moves to a healthy source and restores every destination |
| `Ladder.Lap` | internal/packet/peer_pool.go:735-754 | the trace of a whole lap is the schedule, and it ends in a fresh lap on another source |
| `Ladder.ScheduleLength` | internal/packet/peer_pool.go:735-754 | a lap takes (tries + 2) verdicts per destination |
| `Ladder.LapBurnsEachOnce` | internal/packet/peer_pool.go:546-574 | the schedule burns every destination exactly once |
| `Ladder.LapAfterLap` | internal/packet/peer_pool.go:562-569 | lap after lap uses up exactly one healthy source each, until none is in reserve |
| `Rotation.RungCell.Try` | internal/packet/portrung.go:40-57 | a unit is spent exactly when the action succeeds within the budget |
| `Rotation.RungCell.Restart` | internal/packet/portrung.go:59-63 | the whole budget is available again |
| `Rotation.OdometerCell.Failed` | internal/packet/odometer.go:12-23 | counts a failure against the number fixed at the start of the lap |
| `Rotation.PeerPool.constructor` | internal/packet/peer_pool.go:77-89 | all addresses healthy, cursor at the first |
| `Rotation.PeerPool.BurnKey` | internal/packet/health_set.go:57-70 | the record becomes that of the specification; true exactly when the address was eligible |
| `Rotation.PeerPool.Next` | internal/packet/health_set.go:95-121 | the three scans compute the next address |
| `Rotation.PeerPool.Best` | internal/packet/health_set.go:110-120 | the last scan finds the best tier |
| `Rotation.PeerPool.EligibleCount` | internal/packet/health_set.go:123-131 | the loop counts the eligible addresses |
| `Rotation.PeerPool.Fail` | internal/packet/peer_pool.go:308-319 | burns, counts and moves as the specification does |
| `Rotation.PeerPool.RestoreAll` | internal/packet/peer_pool.go:399-406 | no address is burned any more |
| `Rotation.Retest` | internal/packet/peer_pool.go:273-285 | the back-off of a failed retest |
| `Rotation.Scan` | internal/packet/health_set.go:100-109 | the number of steps to the first flagged position |
| `Rotation.Controller.constructor` | internal/packet/peer_pool.go:593-619 | full rungs and a fresh odometer over either or both axes |
| `Rotation.Controller.SpendFreeRungs` | internal/packet/peer_pool.go:716-723 | the port rung first, the session rung only when that did not act |
| `Rotation.Controller.WalkAxes` | internal/packet/peer_pool.go:546-574 | the objects move as the walk of the specification, with either axis absent too |
| `Rotation.Controller.Fail` | internal/packet/peer_pool.go:735-754 | one verdict takes the objects through one step of the ladder |
| `WsMask.MaskTwice` | internal/packet/wsconn.go:120-130 | masking undoes itself |
| `WsMask.WordXor` | internal/packet/wsconn.go:124-126 | an exclusive or of little-endian words is the exclusive or of their octets |
| `WsMask.WordMasks` | internal/packet/wsconn.go:121-126 | eight octets masked at once equal octet-wise masking |
| `WsMask.MaskCopy` | internal/packet/wsconn.go:120-130 | dst holds the masked octets of src and nothing behind them changes, also when dst is src |
| `WsFrame.FrameRoundTrip` | internal/packet/wsconn.go:87-118 | a frame is read back exactly, unless it is longer than twice the frame limit, and then it is refused |
| `WsFrame.FrameLayout` | internal/packet/wsconn.go:87-118 | every frame is final, has no reserved bits, the shortest length field, and the key and masked payload where section 5.2 of RFC 6455 puts them |
| `WsFrame.EndsAt` | internal/packet/wsconn.go:35-60 | a close frame ends the stream in good order; a frame over the limits or of an unknown kind ends it in error |
| `WsFrame.EndsInside` | internal/packet/wsconn.go:132-174 | input that stops inside a frame ends the stream there, cut off |
| `WsFrame.StreamIsData` | internal/packet/wsconn.go:35-61 | the data of any frames, pings and pongs among them, comes out whole and in order, and then what follows them |
| `WsFrame.WriteFramesCarry` | internal/packet/wsconn.go:63-78 | the frames of a write carry exactly its bytes |
| `WsFrame.WriteFramesFull` | internal/packet/wsconn.go:63-78 | a write is cut into binary frames of 65535 bytes, the last one with what is left, an empty write into one empty frame |
| `WsFrame.StreamIdentity` | internal/packet/wsconn.go:35-130 | for either role, any keys and any acts, the stream is what was written |
| `WsFrame.FetchTakes` | internal/packet/wsconn.go:36-57 | the loop of Read takes the stream from the front and gives up only when none is left |
| `WsFrame.ReadTakes` | internal/packet/wsconn.go:35-61 | a Read returns the next bytes of the stream, some if there is room, and fails exactly at its end, for the reason the input ends |
| `WsFrame.ReadAllPrefix` | internal/packet/wsconn.go:35-61 | Reads of any sizes return a prefix, and everything once there are enough |
| `WsFrame.EndToEnd` | internal/packet/wsconn.go:35-175 | what one side writes is what the other side reads |
| `WsConn.Conn.SendFrame` | internal/packet/wsconn.go:87-118 | one encoded frame is appended to what was sent |
| `WsConn.Conn.Write` | internal/packet/wsconn.go:63-78 | the frames of the write, of at most 65535 bytes each, one empty frame for an empty write |
| `WsConn.ReadHead` | internal/packet/wsconn.go:133-162 | finds the payload of the frame, or tells whether the input is cut off or malformed |
| `WsConn.Conn.ReadFrame` | internal/packet/wsconn.go:132-175 | the store holds the payload of the frame parsed |
| `WsConn.Conn.LoadPayload` | internal/packet/wsconn.go:163-173 | the store is reused when it is large enough and unmasked in place |
| `WsConn.Conn.TakeFrame` | internal/packet/wsconn.go:37-56 | data is kept, a ping is answered with its own payload, anything else ends the reading with its reason |
| `WsConn.Conn.Refill` | internal/packet/wsconn.go:36-57 | the loop takes what the specification takes, answers every ping it meets, and overwrites only read bytes |
| `WsConn.Conn.CopyOut` | internal/packet/wsconn.go:58-60 | hands over the front of the unread bytes |
| `WsConn.Conn.Read` | internal/packet/wsconn.go:35-61 | the bytes returned and what stays unread are those of the specification |
| `AntiLeak.Find` | internal/packet/antileak_linux.go:183-192 | the first lingering rule of an address |
| `AntiLeak.DropKeeps` | internal/packet/antileak_linux.go:194-199 | dropping a rule moves its remover from held to called |
| `AntiLeak.ClaimKeeps` | internal/packet/antileak_linux.go:86-98 | a claim leaves its remover with the caller, a failed one calls it |
| `AntiLeak.LingerKeeps` | internal/packet/antileak_linux.go:165-181 | a replaced rule lingers, and at most four do |
| `AntiLeak.ApplyKeeps` | internal/packet/antileak_linux.go:130-163 | pointing the current rule elsewhere leaves every remover in one place uncalled, or called once; whose rules they are is `AntiLeakRules.RunRight` and `AntiLeakRules.ApplyCovers` |
| `AntiLeak.FixAllKeeps` | internal/packet/antileak_linux.go:62-84 | so does installing the rules of known addresses |
| `AntiLeak.StepKeeps` | internal/packet/antileak_linux.go:50-250 | every operation and every timer keeps the invariant |
| `AntiLeak.RunKeeps` | internal/packet/antileak_linux.go:50-250 | it holds in every run |
| `AntiLeak.ExactlyOnePlace` | internal/packet/antileak_linux.go:26-37 | each remover handed out is held in exactly one place and uncalled, or called once and held nowhere |
| `AntiLeak.StaysEmpty` | internal/packet/antileak_linux.go:229-250 | once closed and torn down nothing is held again |
| `AntiLeak.AllCalledOnce` | internal/packet/antileak_linux.go:229-250 | and every remover ever handed out was called exactly once |
| `AntiLeakRules.ClaimRight` | internal/packet/antileak_linux.go:86-98 | a claim that succeeds yields a rule of its own address, a lingering one without asking again; one that fails arms the retry |
| `AntiLeakRules.StepRight` | internal/packet/antileak_linux.go:50-250 | every operation and timer keeps each remover under the address whose rule it removes |
| `AntiLeakRules.RunRight` | internal/packet/antileak_linux.go:50-250 | the same over every run: the current rule, every lingering one and every kept one came from an attempt for the address it is held under |
| `AntiLeakRules.RunInPlace` | internal/packet/antileak_linux.go:62-163 | over every run the current address and every known one taken care of have their rules in: an attempt for it succeeded and its remover was not called |
| `AntiLeakRules.ApplyCovers` | internal/packet/antileak_linux.go:130-163 | after an apply the wanted address has its rule in, or the attempt failed, the rule in use is untouched and a retry is armed; the replaced rule lingers under its own address |
| `AntiLeakRules.ApplyOutcome` | internal/packet/antileak_linux.go:130-181 | of four rules that linger already the oldest alone is removed to make room |
| `AntiLeakRules.KnownCovered` | internal/packet/antileak_linux.go:62-84 | afterwards every known address has a rule kept until teardown, or a retry is armed; rules kept before stay |
| `AntiLeakRules.WaitDoubles` | internal/packet/antileak_linux.go:201-227 | the waits of retries in a row are 2, 4, 8, 16, 32 and then 60 seconds |
| `AntiLeakRules.FailureArms` | internal/packet/antileak_linux.go:201-227 | a failed claim with no retry pending arms the next retry of the row |
| `AntiLeaker.Leaker.TakeLingering` | internal/packet/antileak_linux.go:183-192 | takes the first lingering rule of the address out of the list |
| `AntiLeaker.Leaker.DropLingering` | internal/packet/antileak_linux.go:194-199 | takes one out and calls its remover |
| `AntiLeaker.Leaker.ArmRetryTimer` | internal/packet/antileak_linux.go:201-227 | the wait doubles from 2 up to 60 seconds, unless a retry is armed or the engine is closed |
| `AntiLeaker.Leaker.ClaimRule` | internal/packet/antileak_linux.go:86-98 | takes over or installs, and arms the retry on failure |
| `AntiLeaker.Leaker.LingerRule` | internal/packet/antileak_linux.go:165-181 | drops the oldest until there is room, then appends |
| `AntiLeaker.Leaker.ApplyWanted` | internal/packet/antileak_linux.go:130-163 | the new state is that of the specification; removers stay balanced and under their addresses, and the wanted address has its rule in or a retry is armed |
| `AntiLeaker.Leaker.ApplyKnownRules` | internal/packet/antileak_linux.go:62-84 | the same for the known addresses |
| `AntiLeaker.Leaker.FixRule` | internal/packet/antileak_linux.go:74-83 | one known address, skipped when it has a rule |
| `AntiLeaker.Leaker.ScopeAll` | internal/packet/antileak_linux.go:50-60 | replaces the known addresses and applies them |
| `AntiLeaker.Leaker.RetryFires` | internal/packet/antileak_linux.go:220-224 | the retry timer disarms itself and applies the known addresses |
| `AntiLeaker.Leaker.Expire` | internal/packet/antileak_linux.go:170-179 | a linger timer drops its rule |
| `AntiLeaker.Leaker.Teardown` | internal/packet/antileak_linux.go:229-250 | every remover held is called exactly once, in any order of the known addresses, and none is held |
| `AntiLeaker.Leaker.DropAll` | internal/packet/antileak_linux.go:236-238 | calls the remover of every lingering rule once |
| `AntiLeaker.Leaker.CallCurrent` | internal/packet/antileak_linux.go:246-249 | calls the remover of the current rule, if there is one |

## Left out

- Sockets, TUN and netlink access, iptables, TLS, HTTP, handshakes, key derivation and ciphers, configuration parsing, status reports, event rings and logging: I/O or library code without invariants of their own.
- The AES header mask: an arbitrary function of the first 16 body bytes, so the results hold for any mask.
- Hashes, random bytes, clocks and firewall answers: parameters.
- FEC block slots: values in the decoder's map rather than shared pointers; the decoder's 64-bit arrival counter does not wrap.
- FecStream.Encoder.AddData: frames are at most 16382 bytes, so that a shard fits the decoder's limit of 16384.
- FecDelivery.BlockDelivered: asks that the block is kept and that there is room for each shard, which few enough block numbers ensure; of a run that meets the over-budget branch, which may repeat a data frame (`FecDecoder.OverBudgetRepeats`), or the mismatched-header branch, only single steps and the accounting are described.
- FecCodec.Codec.Rebuild: asks for at least n shards of equal length, as its only caller ensures.
- Segment.Cursor.LoadPacket: asks for a non-empty packet and an IPv4 header length of at least 20; load itself does not look at either.
- SegmentChecks.SegVerifies: asks that the transport length fits the field of the pseudo header, 16 bits for IPv4 and 32 for IPv6.
- Gro.WriteSuper: the vnet header is a record of its fields; its byte layout and the write itself are left out.
- Finalising the checksum of an unsegmented packet (finalizeCsum): one more use of the same checksum member.
- StripeSender.Sender.Offer: payloads of 4 GiB and more, whose length the record's 32-bit field would truncate, are left out.
- Stripe.RunLocates: loss of bytes that a stream accepted but did not carry is left out, and so are empty records, which no reader delivers.
- StripeWritten.AllWrittenComesOut: shows a continuation that brings everything out; that the scheduler takes one is left out, as are readers inside deliver at the start.
- Channel capacities, deadlines and tickers of the stripe sender; attach and its limit; size classes of the buffer pool, where a buffer taken again counts as a new one.
- PortWalk.Raw.PortStep: the 64-bit packet counter does not wrap.
- Server-side port learning and the random source port mode of the raw socket.
- BpfFilter.SrcFilter: negative load offsets, which the kernel gives a meaning of its own, are not modelled; the program's callers use port offsets 0 and 2.
- Replay drop statistics.
- Ladder.Lap: asks that both rungs act whenever they are tried and that a healthy source is in reserve; success, proactive moves, operator commands, verdict screening, pool views and unbindable sources are left out, and one time stands for all clock reads of a verdict.
- The revive clock: whether it fires is a parameter of each verdict.
- Rotation.PeerPool.Fail: the live and chosen addresses that follow the cursor, events and status flushes are left out.
- WsConn.Conn.SendFrame: a failing write and a failing random source are left out.
- WsConn.Conn.Write: failing writes and failing random sources are left out.
- WsConn.Conn.Read: after an error nothing is promised.
- The HTTP upgrade before the first frame.
- AntiLeaker.Leaker.ApplyWanted: addresses are already in IPv4 form and an installer is set.
