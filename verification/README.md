# RMAP over SpaceWire-in-TCP: a verified model

The library speaks RMAP (ECSS-E-ST-50-52C) over TCP. A client node starts reads and writes of a remote memory; each
becomes a command packet with a CRC, framed by a twelve-byte header, and carries a transaction ID by which the reply is
matched. A server node parses commands, calls the user's callbacks and answers. This project models the four layers of
that stack and proves what they promise, from the CRC register up to whole client-server runs.

| layer | files | what is proved |
|---|---|---|
| CRC | `Crc.dfy`, `CrcErrorDetection.dfy` | the table loop is the bit-serial register; composition, linearity, residue; detection of odd, burst and few-bit damage for any length, and exactly which double flips escape |
| Packets | `Bytes.dfy`, `Packets.dfy`, `InstructionBytes.dfy`, `PacketBuilder.dfy`, `PacketParser.dfy`, `PacketLanguage.dfy`, `Statuses.dfy`, `RoundTrip.dfy`, `Layout.dfy` | builders write exactly the encoding, byte for byte the format; the parser accepts exactly a grammar, and every status has its exact condition; both round trips, each with its exact condition |
| Frames | `Transport.dfy`, `Framing.dfy`, `Streams.dfy`, `Receiver.dfy`, `Sender.dfy` | reassembly refines a pure decoder under every chunking; what that decoder makes of every stream of frames under either buffer policy; what is sent is what is decoded |
| Transactions | `TransactionTable.dfy`, `Expiry.dfy`, `Transactions.dfy`, `Settlement.dfy`, `Slots.dfy`, `Fates.dfy` | table invariant over every run; allocation, cancellation and retry; exactly when an operation times out; under every interleaving of lock-held sections, handlers are claimed at most once, and exactly when a promise is set twice, an expiry settles what it finds, and an operation is lost; no schedule leaks an ID or blocks |
| System | `Node.dfy`, `TwoNodes.dfy`, `Wires.dfy`, `EndToEnd.dfy`, `Progress.dfy` | starting an operation and `poll`; two nodes joined by FIFO byte streams, with cancellation and expiry: what is served, exactly which operation each reply completes, and that polling finishes them all |

Code that updates state in place is modelled by classes and methods over arrays and fields, each proved against a pure
function; the laws are proved about those functions, for all inputs and all runs.

## Assumptions

- `TransactionTable` takes each operation as one atomic step. The wait that ends a synchronous call and the
  cancellation after it are one step, so a caller cancels only while its operation is pending, and only its own.
- `Settlement` and `Fates` take one step per mutex-held section; registering handlers and sending the command are
  separate steps, as in the code, and so are the end of a wait and the cancellation after it. Expiry and cancellation
  may strike any slot at any moment, and any free slot may be allocated, so they cover more runs than the code has. A
  thread that cancels an operation it started itself gives it up. No claim is made for finer interleavings.
- `TwoNodes` takes a start, a cancellation and a poll as one step each. Addresses are well-formed (routing bytes below
  0x20, logical address at least 0x20, reply address of at most 12 bytes without a leading zero) and data shorter than
  2^24 bytes; user callbacks return or throw; sends succeed or fail whole.
- Clocks and callbacks are parameters; the backend says whether it will take the next bytes, and a send succeeds exactly if it
  does and there was room.

## Observations

- `sendReadPacket_` leaves the frame header out of its size estimate, so under AutoResize it can still report
  `no_buffer_space`; `Sender.SendReadPacket` states exactly when (a buffer smaller than the frame, under either policy).
  Its second size check can never fire. A read that failed so fails again when tried again (`ReadFailsAgain`).
- A promise can be set twice: the command is sent after its handlers are registered and without the slot's lock, so a
  reply or an expiry can settle the operation while it is being sent, and a failing send then settles it again
  (`SplitSendSetsTwice`). `SetTwiceExactly` says that this is the only way: over all schedules a promise is set twice if
  and only if the operation's command fails to go out after a reply or an expiry has claimed its handlers.
- An expiry does not always settle the operation it finds. The tail of an earlier expiry clears the slot's error handler
  after giving the ID back and without the lock; an operation that has registered there meanwhile is later dropped
  unsettled (`StrayClearLosesOperation`). `ExpirySettlesExactly`: an expiry settles what it finds if and only if no such
  tail cleared the slot while the operation was registered in it.
- An operation can be lost in three more ways, all by steps that act on an ID given away meanwhile: a starter that stalls
  between taking its ID and registering overwrites the new owner (`OverwritingLosesOperation`); a failing send empties
  the new owner's slot (`EvictionLosesOperation`); and a caller that stopped waiting cancels the new owner, because
  `cancelTransaction_` does not ask whose operation it finds (`ForeignCancelLosesOperation`). `LostExactly`: over all
  schedules every operation is settled, about to be, still able to be, or given up by its own caller, if and only if it
  failed to start or none of the four happened to it.
- In spite of all this no transaction ID is leaked and no lock is left behind: after any schedule, once sends go through and
  replies come in, every ID is free again (`EveryIdComesBack`).
- A late reply can complete a newer operation that was given the same ID (`LateReplyCompletesNewer`). `OwnReplyExactly`:
  in every run a reply completes the operation whose command it answers if and only if that operation was not given up,
  did not time out and was not completed by an earlier reply.
- Reply status is not looked at on delivery, and the server fills the reply's two logical addresses crosswise. The model
  does both as the code does; correlation rests on the transaction ID alone.

## Model

| member | source | states |
|---|---|---|
| RmapCrc.TableEntry | src/crc.cc:10-43 | every one of the 256 table entries is its index clocked eight times through the register x^8+x^2+x+1 (reflected constant 0xE0) |
| RmapCrc.CalcCrc | src/crc.cc:45-53 | the table loop returns the bit-serial CRC for every message and seed |
| RmapCrc.CrcIsRegister | src/crc.cc:45-53 | the CRC is the shift register run over all message bits, least significant bit of each byte first |
| RmapCrc.CrcConcat | src/crc.cc:45-53 | the CRC of a concatenation continues from the CRC of its first part |
| RmapCrc.Residue | src/crc.cc:45-53 | appending a byte leaves residue 0 if and only if the byte is the CRC |
| RmapCrc.CrcOfZeros | src/crc.cc:45-53 | the CRC starts from zero: any number of zero bytes has CRC 0 |
| RmapCrc.CrcOfByte | src/crc.cc:45-53 | the CRC of one byte is its table entry |
| RmapCrc.ByteStep | src/crc.cc:50-50 | eight serial clocks with input equal one table step on the XORed byte |
| CrcErrorDetection.SerialLinear | src/crc.cc:45-53 | the register is XOR-linear in message and seed |
| CrcErrorDetection.Syndrome | src/crc.cc:45-53 | two messages of one length share a CRC exactly when their difference has syndrome zero |
| CrcErrorDetection.OddFlipsChangeCrc | src/crc.cc:10-53 | flipping any odd number of bits of a message of any length changes the CRC |
| CrcErrorDetection.BurstChangesCrc | src/crc.cc:10-53 | any non-zero flips within 8 consecutive bits, across byte boundaries too, change the CRC |
| CrcErrorDetection.Order | src/crc.cc:10-43 | a single register bit returns to itself exactly after multiples of 127 clocks |
| CrcErrorDetection.TwoFlips | src/crc.cc:10-53 | two flips go unnoticed if and only if their distance is a multiple of 127 bits |
| CrcErrorDetection.FewFlipsChangeCrc | src/crc.cc:10-53 | one, two or three flips in up to 15 bytes change the CRC |
| Packets.PaddingAgrees | src/packet_builder.cc:41-45 | the builder's masked padding expression equals rounding up to whole words, for 1 to 12 bytes |
| InstructionBytes.MaskIsBits | src/packet_builder.cc:41-45 | `((n - 1) & 0x0C) + 0x04` and its shift by two are the arithmetic of the model, for 1 to 12 bytes |
| InstructionBytes.InstructionIsOr | src/packet_builder.cc:95-115 | ORing the flags together gives the sum that is the format's instruction byte, for all four kinds |
| InstructionBytes.FlagTests | src/packet_parser.cc:196-200 | the five flag tests and `(instruction & 3) * 4` are the divisions and remainders of the model |
| PacketBuilding.TotalSizeExact | src/packet_builder.cc:14-19 | the announced size is the length of the encoding, for all four kinds |
| PacketBuilding.CommandInstruction | src/packet_builder.cc:95-115 | the instruction byte, ORed together flag by flag, and the masked size are those of the format |
| PacketBuilding.Build | src/packet_builder.cc:21-241 | build writes exactly the encoding at the front of its span and nothing elsewhere, returns the total size, and fails exactly when the span is smaller |
| Layout.PacketBytes | src/packet_builder.cc:21-241 | where every byte stands, in numbers, for all four kinds: path, protocol identifier 1, instruction bits, padded reply address, big-endian fields, header CRC, data, data CRC |
| PacketParsing.StripField | src/packet_parser.cc:33-45 | the de-padding loop ends just after the field and finds the field without its leading zeros |
| PacketParsing.PacketParser.ParseReadPacket | src/packet_parser.cc:11-62 | status and every field written, on failing paths too, in bounds on every input |
| PacketParsing.PacketParser.ParseReadReplyPacket | src/packet_parser.cc:64-98 | the same for read replies |
| PacketParsing.PacketParser.ParseWritePacket | src/packet_parser.cc:99-158 | the same for write commands |
| PacketParsing.PacketParser.ParseWriteReplyPacket | src/packet_parser.cc:159-179 | the same for write replies |
| PacketParsing.PacketParser.Parse | src/packet_parser.cc:180-224 | on every non-empty input: path skipping, dispatch, status and record after the call |
| PacketLanguage.DerivedIsAccepted | src/packet_parser.cc:11-224 | every packet of the grammar is accepted and the record then holds its meaning, whatever it held before |
| PacketLanguage.AcceptedIsDerived | src/packet_parser.cc:11-224 | every accepted input splits into path, sealed legal header and sealed data of the announced length |
| PacketLanguage.AcceptedLanguage | src/packet_parser.cc:180-224 | parse succeeds if and only if the grammar derives the input |
| PacketLanguage.HistoryIndependence | src/packet_parser.cc:26-60 | after any two histories of parses, failed ones included, a success leaves the same fields of the packet's kind |
| Statuses.StatusExactly | src/packet_parser.cc:11-224 | for every input and all four kinds, each status if and only if: header CRC error when the header is complete and its CRC wrong, unknown protocol when that is right and the second byte is not 1, data CRC error when the data have the announced length and a wrong CRC, success when all is right, incomplete otherwise |
| Statuses.DamagedData | src/packet_parser.cc:146-152 | any odd number of flips, or any burst within 8 bits, in the data part of an accepted packet of any length is reported as DataCRCError |
| Statuses.RefusedLeaves | src/packet_parser.cc:180-224 | a packet refused for its size or header CRC changes only instruction, kind and routing bytes of the record; no refused packet changes its data |
| RoundTrip.StripPad | src/packet_builder.cc:41-55 | de-padding inverts padding if and only if the address has no leading zero |
| RoundTrip.BuildParse | src/packet_parser.cc:11-224 | parsing what was built from a well-formed configuration succeeds and recovers kind and every field |
| RoundTrip.RoundTripExact | src/packet_builder.cc:21-241 | a configuration survives building and parsing if and only if it is well-formed |
| RoundTrip.EncodeInjective | src/packet_builder.cc:21-241 | well-formed configurations, even of different kinds, never build the same bytes |
| RoundTrip.ParseBuildExact | src/packet_parser.cc:11-224 | rebuilding an accepted packet gives back its bytes if and only if its header is canonical (builder's instruction bits, minimal padding, zero reserved byte) |
| RoundTrip.DamagedReadReply | src/packet_parser.cc:64-72 | one to three flips in the 12 header bytes of a valid read reply are reported as HeaderCRCError, whatever data follows |
| RoundTrip.DamagedWriteReply | src/packet_parser.cc:159-167 | the same for the 8 bytes of a write reply |
| Transport.Backend.RecvExact | include/spw_rmap/internal/spw_rmap_tcp_node_impl.hh:160-178 | the span is filled with exactly the next bytes however the backend chunks them, or the stream is used up |
| Transport.Backend.IgnoreBytes | include/spw_rmap/internal/spw_rmap_tcp_node_impl.hh:475-504 | exactly n bytes are dropped however they are chunked |
| Framing.SendHeaderLength | include/spw_rmap/internal/spw_rmap_tcp_node_impl.hh:180-198 | the length decoded from a sent header is the packet size |
| Framing.NextPacket | include/spw_rmap/internal/spw_rmap_tcp_node_impl.hh:358-473 | under AutoResize, for any aborted packets, then segments with time codes anywhere between, then an end frame: the next packet is the payloads of the last group and exactly those frames are consumed |
| Framing.CapacityIrrelevant | include/spw_rmap/internal/spw_rmap_tcp_node_impl.hh:397-407 | under AutoResize the outcome does not depend on the buffer size, no frame is refused for space and the buffer never shrinks |
| Streams.PacketTaken | include/spw_rmap/internal/spw_rmap_tcp_node_impl.hh:358-473 | under either policy, for every list of frames without an end, then an end frame: if every frame has room behind the bytes accumulated before it, or the buffer may grow, the packet is what was kept plus the last payload, exactly those frames are consumed, and the buffer has grown just as far as needed (not at all when there was room) |
| Streams.PeakExactly | include/spw_rmap/internal/spw_rmap_tcp_node_impl.hh:397-407 | the grown buffer has room for every frame and is no larger than some frame needs |
| Streams.KeptGroup | include/spw_rmap/internal/spw_rmap_tcp_node_impl.hh:408-436 | what is kept after aborted packets and the segments of a group is the payloads of that group |
| Streams.PacketRefused | include/spw_rmap/internal/spw_rmap_tcp_node_impl.hh:397-402 | under Fixed the first frame without room is refused with no_buffer_space at its header, whatever follows |
| Streams.HeaderRefused | include/spw_rmap/internal/spw_rmap_tcp_node_impl.hh:376-396 | a header with a type other than 0, 1, 2, 0x30, 0x31, a non-zero second byte or a zero length is bad_message, with only its twelve bytes read |
| Streams.TimeCodeRefused | include/spw_rmap/internal/spw_rmap_tcp_node_impl.hh:437-461 | a time code whose header or second data byte is wrong is bad_message, read up to there |
| Streams.StreamStarves | include/spw_rmap/internal/spw_rmap_tcp_node_impl.hh:366-375 | a stream that ends inside a frame starves |
| Streams.FrameBytes | include/spw_rmap/internal/spw_rmap_tcp_node_impl.hh:378-466 | the bytes of a frame and of a time code, in numbers |
| Streams.FrameTypes | include/spw_rmap/internal/spw_rmap_tcp_node_impl.hh:376-436 | type 0 alone ends a packet, type 1 alone aborts one, the third data type is 2 |
| Reception.Receiver.MakeRoom | include/spw_rmap/internal/spw_rmap_tcp_node_impl.hh:397-407 | growing keeps the accumulated prefix; under Fixed the buffer is never replaced |
| Reception.Receiver.ReceiveFrame | include/spw_rmap/internal/spw_rmap_tcp_node_impl.hh:366-466 | under either policy one frame takes the decoder one step; the working span is the suffix behind the accumulated bytes; a refused frame leaves what was not read |
| Reception.Receiver.ReceivePacket | include/spw_rmap/internal/spw_rmap_tcp_node_impl.hh:358-473 | for every chunking and under either policy the bytes parsed, the bytes consumed, the new buffer size and the result are those of the pure decoder; refused frames leave the parsed packet alone and the stream where reading stopped; a stream shorter than a header gives 0 or an error |
| Sending.FramedIsFrame | include/spw_rmap/internal/spw_rmap_tcp_node_impl.hh:506-522 | a sent packet is one end-of-packet frame of the receiver's format |
| Sending.CommandSizeExact | include/spw_rmap/internal/spw_rmap_tcp_node_impl.hh:526-553 | the size a send must make room for, counted from the request, is the built command's |
| Sending.FitsExactly | include/spw_rmap/internal/spw_rmap_tcp_node_impl.hh:761-788 | there is room for a reply if and only if the buffer may grow or holds the whole frame |
| Sending.ReadFailsAgain | include/spw_rmap/internal/spw_rmap_tcp_node_impl.hh:532-546 | a read that ran out of buffer space runs out again with the buffer it left |
| Sending.Sender.Send | include/spw_rmap/internal/spw_rmap_tcp_node_impl.hh:506-522 | header and packet go out as one piece if and only if the backend takes them; otherwise nothing does |
| Sending.Sender.SendWritePacket | include/spw_rmap/internal/spw_rmap_tcp_node_impl.hh:578-621 | no buffer space exactly under Fixed with too small a buffer, never under AutoResize; else an I/O error exactly if the backend refuses; else exactly the framed command is sent; the buffer's new size |
| Sending.Sender.SendReadPacket | include/spw_rmap/internal/spw_rmap_tcp_node_impl.hh:524-576 | no buffer space exactly when the initial buffer is smaller than the frame, under either policy; else an I/O error exactly if the backend refuses; else exactly the framed command is sent; the buffer's new size |
| Sending.Sender.SendReply | include/spw_rmap/internal/spw_rmap_tcp_node_impl.hh:761-788 | no buffer space exactly under Fixed with too small a buffer; else an I/O error exactly if the backend refuses; else exactly the framed reply is sent; the buffer's new size |
| Sending.Sender.EmitTimeCode | include/spw_rmap/internal/spw_rmap_tcp_node_impl.hh:952-968 | the bytes sent are one time-code frame of the receiver's format; success exactly if the backend takes them |
| TransactionTable.InitialInv | include/spw_rmap/internal/spw_rmap_tcp_node_impl.hh:95-112 | the constructed table satisfies the invariant |
| TransactionTable.AllocateExact | include/spw_rmap/internal/spw_rmap_tcp_node_impl.hh:623-651 | fails if and only if all IDs are busy and none is expired; takes the lowest free ID, else settles exactly the first expired operation with timed_out and reuses its ID |
| Expiry.RunStamped | include/spw_rmap/internal/spw_rmap_tcp_node_impl.hh:629-647 | over every run the busy slot of an in-flight operation carries the clock reading of the round that allocated it, and no other event changes it |
| Expiry.TimesOutExactly | include/spw_rmap/internal/spw_rmap_tcp_node_impl.hh:632-648 | after every run, a start times out an operation in flight if and only if no ID is free, the operation began longer ago than the timeout, and no operation with a lower ID did |
| Expiry.StartExactly | include/spw_rmap/internal/spw_rmap_tcp_node_impl.hh:224-290 | a start without an ID settles its promise with try_again and touches nothing else; with a failed send, with that error; otherwise it is in flight since the reading of its round |
| Expiry.EndsExactly | include/spw_rmap/internal/spw_rmap_tcp_node_impl.hh:210-290 | an operation in flight succeeds if and only if a reply under its ID comes, is cancelled if and only if that reply's callback throws, is given up only by its own caller, and else ends only by timing out in a start |
| TransactionTable.StartInv | include/spw_rmap/internal/spw_rmap_tcp_node_impl.hh:224-290 | a start keeps the invariant on every path: sent, failed send, expiry, no ID |
| TransactionTable.DeliverInv | include/spw_rmap/internal/spw_rmap_tcp_node_impl.hh:721-731 | a reply keeps the invariant, with a throwing callback too |
| TransactionTable.CancelInv | include/spw_rmap/internal/spw_rmap_tcp_node_impl.hh:210-222 | a cancellation keeps the invariant |
| TransactionTable.SettleInv | include/spw_rmap/internal/spw_rmap_tcp_node_impl.hh:666-681 | a forced release keeps the invariant |
| TransactionTable.Run | include/spw_rmap/internal/spw_rmap_tcp_node_impl.hh:210-356 | over every run: a slot is free exactly when both handlers are empty and its time is the sentinel, and busy slots and in-flight operations are in bijection |
| TransactionTable.RunLater | include/spw_rmap/internal/spw_rmap_tcp_node_impl.hh:224-290 | over every run a set promise keeps its value and a settled or cancelled operation never comes back |
| TransactionTable.CancelOnlyOwn | include/spw_rmap/internal/spw_rmap_tcp_node_impl.hh:897-899 | the ID a caller cancels is still its own: no other operation is touched |
| TransactionTable.LateReplyCompletesNewer | include/spw_rmap/internal/spw_rmap_tcp_node_impl.hh:721-731 | from any table with a free ID: an operation is given up, the next one gets its ID, and the first one's reply settles the second as a success |
| TransactionTable.DistinctIds | include/spw_rmap/internal/spw_rmap_tcp_node_impl.hh:239-241 | no operation sits in two slots |
| TransactionTable.Conservation | include/spw_rmap/internal/spw_rmap_tcp_node_impl.hh:210-356 | after every run free IDs plus in-flight operations equal max - min |
| Transactions.Transactions.constructor | include/spw_rmap/internal/spw_rmap_tcp_node_impl.hh:95-112 | builds the initial table, one slot per ID from min up to, not including, max |
| Transactions.Transactions.ReleaseTransactionId | include/spw_rmap/internal/spw_rmap_tcp_node_impl.hh:653-664 | frees exactly the named ID and resets its time; IDs out of range change nothing |
| Transactions.Transactions.ForceReleaseTransaction | include/spw_rmap/internal/spw_rmap_tcp_node_impl.hh:666-681 | settles the slot's operation with timed_out and vacates the slot |
| Transactions.Transactions.TakeFree | include/spw_rmap/internal/spw_rmap_tcp_node_impl.hh:629-648 | one scan finds the lowest free slot, else the first expired; an age is never computed from the sentinel |
| Transactions.Transactions.GetAvailableTransactionId | include/spw_rmap/internal/spw_rmap_tcp_node_impl.hh:623-651 | run alone the loop ends, within two rounds, with the result of the specified allocation |
| TransactionTable.WithdrawnIsFailed | include/spw_rmap/internal/spw_rmap_tcp_node_impl.hh:279-288 | taking the handlers of a start back out and settling its promise leaves the table of a failed start |
| Transactions.Transactions.Open | include/spw_rmap/internal/spw_rmap_tcp_node_impl.hh:229-275 | allocates and registers both handlers, or settles the promise with the allocation's error |
| Transactions.Transactions.Withdraw | include/spw_rmap/internal/spw_rmap_tcp_node_impl.hh:279-288 | takes the handlers back out, settles the promise with the send's error, gives the ID back |
| Transactions.Transactions.StartOperation | include/spw_rmap/internal/spw_rmap_tcp_node_impl.hh:224-290 | for writes and reads alike (lines 292-356), the send's outcome being given: takes the specified start step; the caller is told an ID exactly when the command went out |
| Transactions.Transactions.DeliverReply | include/spw_rmap/internal/spw_rmap_tcp_node_impl.hh:711-733 | out of range is bad_message without effect; otherwise the slot's operation completes, or is cancelled by a throwing callback |
| Transactions.Transactions.CancelTransaction | include/spw_rmap/internal/spw_rmap_tcp_node_impl.hh:210-222 | vacates the slot without settling; out of range is ignored |
| Transactions.Transactions.Perform | include/spw_rmap/internal/spw_rmap_tcp_node_impl.hh:210-290 | the code takes exactly the step of the atomic model, for every event |
| Transactions.Transactions.Synchronous | include/spw_rmap/internal/spw_rmap_tcp_node_impl.hh:879-903 | for write and read alike (lines 914-940): starts exactly one operation when retry_count is 0, else between one and retry_count, whatever other threads do; none is in flight on return; all but the last were cancelled; the result is the last one's, or timed_out only when every one of the retry_count attempts was cancelled |
| Settlement.ApplyInv | include/spw_rmap/internal/spw_rmap_tcp_node_impl.hh:210-290 | every lock-held section and every handler tail keeps the claim invariant |
| Settlement.ClaimedAtMostOnce | include/spw_rmap/internal/spw_rmap_tcp_node_impl.hh:666-681 | under every interleaving a handler pair is claimed at most once, and its promise set through it at most once and only after a reply or an expiry |
| Slots.ApplyKept | include/spw_rmap/internal/spw_rmap_tcp_node_impl.hh:210-290 | every lock-held section and every tail keeps: a busy ID has a reply handler or a thread on its way to register one or to give it back; a locked slot has a thread that will unlock it |
| Slots.BusyIsHeld | include/spw_rmap/internal/spw_rmap_tcp_node_impl.hh:653-664 | so under every schedule, after a cancellation or a failed send too, a busy ID without a handler has such a thread |
| Slots.HolderStays | include/spw_rmap/internal/spw_rmap_tcp_node_impl.hh:279-288 | whatever step is taken, such a thread stays responsible until the ID is free or handlers are registered |
| Slots.TailEnds | include/spw_rmap/internal/spw_rmap_tcp_node_impl.hh:245-273 | a thread that is neither starting nor sending finishes its tail by itself, whatever is locked, and the ID is free |
| Slots.EveryIdComesBack | include/spw_rmap/internal/spw_rmap_tcp_node_impl.hh:210-290 | after any schedule whatever, sends that go through, replies that come in and the remaining tails bring everything back to the initial state: every ID free, every slot empty and unlocked, every thread idle |
| Fates.FateApply | include/spw_rmap/internal/spw_rmap_tcp_node_impl.hh:210-290 | every lock-held section and every tail keeps the three histories of an operation in step with where it stands |
| Fates.BothSidesExactly | include/spw_rmap/internal/spw_rmap_tcp_node_impl.hh:242-289 | over all schedules: the starter and a claimant have both set a promise, or are about to, if and only if the command failed to go out after a reply or an expiry had claimed the handlers |
| Fates.SetTwiceExactly | include/spw_rmap/internal/spw_rmap_tcp_node_impl.hh:242-289 | over all schedules: once everybody has set what they owe, a promise is set twice if and only if that happened, and otherwise at most once |
| Fates.SetAtMostOnce | include/spw_rmap/internal/spw_rmap_tcp_node_impl.hh:242-289 | so no schedule that registers and sends in one step sets a promise twice |
| Fates.SplitSendSetsTwice | include/spw_rmap/internal/spw_rmap_tcp_node_impl.hh:277-288 | from any state with a free slot and two idle threads, expiry during the send and a failed send set a promise twice |
| Fates.ExpirySettlesExactly | include/spw_rmap/internal/spw_rmap_tcp_node_impl.hh:666-681 | over all schedules: an expiry settles the operation it finds if and only if no stray tail cleared the slot while the operation was registered there |
| Fates.StrayClearLosesOperation | include/spw_rmap/internal/spw_rmap_tcp_node_impl.hh:245-250 | the unlocked clear of an expiry tail can leave a newer operation claimed by the next expiry, which nobody then settles |
| Fates.QuietExpirySettles | include/spw_rmap/internal/spw_rmap_tcp_node_impl.hh:666-681 | so if no registration overtakes an expiry, every operation an expiry finds is taken to be settled |
| Fates.LostExactly | include/spw_rmap/internal/spw_rmap_tcp_node_impl.hh:210-290 | over all schedules and operations: settled, about to be, still able to be, or given up by its own caller, if and only if it failed to start or was never dropped (expired without its error handler, overwritten, evicted by another's failed send, cancelled by another's caller) |
| Fates.OverwritingLosesOperation | include/spw_rmap/internal/spw_rmap_tcp_node_impl.hh:239-275 | a starter that stalls before registering can overwrite the newer owner of its ID, which nobody then settles |
| Fates.EvictionLosesOperation | include/spw_rmap/internal/spw_rmap_tcp_node_impl.hh:279-284 | a send that fails after its operation has expired can take the handlers of the ID's newer owner out, which nobody then settles |
| Fates.ForeignCancelLosesOperation | include/spw_rmap/internal/spw_rmap_tcp_node_impl.hh:890-899 | a caller whose operation completes between the end of its wait and its cancellation can cancel the ID's newer owner, which nobody then settles |
| Polling.Node.Complete | include/spw_rmap/internal/spw_rmap_tcp_node_impl.hh:712-733 | the reply branch completes the operation in the slot of the packet's ID |
| Polling.Node.Serve | include/spw_rmap/internal/spw_rmap_tcp_node_impl.hh:734-841 | a command whose callback returns fails with no_buffer_space exactly if a fixed send buffer has no room for the reply, else with an I/O error exactly if the backend refuses, and else is answered with exactly one framed reply; when it fails or the callback throws, nothing is sent |
| Polling.Node.Poll | include/spw_rmap/internal/spw_rmap_tcp_node_impl.hh:689-846 | whatever the chunking, the packet the pure decoder finds is dispatched by its kind; a refused frame or bad packet touches no operation, sends nothing, leaves the stream where reading stopped, and gives false on a closed node, else exactly its error (bad_message, no_buffer_space, or the parse status) |
| Polling.Node.Start | include/spw_rmap/internal/spw_rmap_tcp_node_impl.hh:224-290 | for writes and reads alike (lines 292-356): takes the specified start step with the outcome of actually sending: no buffer space exactly without room, else an I/O error exactly if the backend refuses, else success; the framed command, under the ID the caller is told, goes out exactly when there is one, and nothing else does |
| TwoNodes.ServerStepIsPoll | include/spw_rmap/internal/spw_rmap_tcp_node_impl.hh:689-846 | the contract of poll determines the server's whole step: stream, parser record, log and what is sent back |
| TwoNodes.ClientStepIsPoll | include/spw_rmap/internal/spw_rmap_tcp_node_impl.hh:689-733 | the contract of poll determines the client's whole step: stream, parser record, table and deliveries |
| TwoNodes.BeginIsStart | include/spw_rmap/internal/spw_rmap_tcp_node_impl.hh:224-290 | the contract of a start determines the whole step: table, requests, commands sent and the stream |
| Wires.PollWire | include/spw_rmap/internal/spw_rmap_tcp_node_impl.hh:358-473 | a poll takes exactly the first message on a wire and the time codes before it |
| EndToEnd.OwnSlot | include/spw_rmap/internal/spw_rmap_tcp_node_impl.hh:721-727 | a reply under an operation's ID finds that operation in the slot if and only if it is still in flight |
| EndToEnd.StepKeeps | include/spw_rmap/internal/spw_rmap_tcp_node_impl.hh:224-356 | every step, cancellation and expiring starts included, keeps the two-node invariant: each wire carries exactly the commands not served and the replies not taken in, and every reply taken in completed its own operation unless that had missed it |
| EndToEnd.ServedInOrder | include/spw_rmap/internal/spw_rmap_tcp_node_impl.hh:734-811 | in every run the k-th callback is given exactly the k-th command sent, and each operation sends at most one, built from its own request and ID |
| EndToEnd.RequestsServed | include/spw_rmap/internal/spw_rmap_tcp_node_impl.hh:548-612 | in every run the k-th callback is given its operation's request, every field in numbers: path, reply address, logical addresses, instruction bits, key and extended address 0, address, data or length, and the ID issued |
| EndToEnd.RepliesAnswer | include/spw_rmap/internal/spw_rmap_tcp_node_impl.hh:751-811 | in every run the j-th packet taken in answers its operation's request: the reply address of its target as path, status 0, the ID issued, the target's logical address first and the initiator's second, increment (and for writes verify) set, and the bytes its callback returned |
| EndToEnd.OwnReplyExactly | include/spw_rmap/internal/spw_rmap_tcp_node_impl.hh:689-733 | in every run replies arrive in order and unaltered, and each completes the operation whose command it answers if and only if that was not given up, timed out or completed by an earlier reply; whatever else it completes is a newer operation with the same ID |
| EndToEnd.CompletedOnce | include/spw_rmap/internal/spw_rmap_tcp_node_impl.hh:721-731 | in every run no operation completes twice, and success is reported only for operations completed by a reply |
| EndToEnd.CalmRunsAreUndisturbed | include/spw_rmap/internal/spw_rmap_tcp_node_impl.hh:689-846 | in a run without cancellation or expiry every reply completes its own operation |
| EndToEnd.SuccessMeansReply | include/spw_rmap/internal/spw_rmap_tcp_node_impl.hh:224-356 | in every run, an operation that succeeded was served exactly once (a write's data reached on_write, a read's completion got exactly the bytes on_read returned for its address and length), or was completed by the reply to an older operation with the same ID that had missed it |
| EndToEnd.SuccessMeansDone | include/spw_rmap/internal/spw_rmap_tcp_node_impl.hh:224-356 | so where no operation sent was given up or timed out, one that succeeded was served exactly once |
| Progress.ServerServes | include/spw_rmap/internal/spw_rmap_tcp_node_impl.hh:734-841 | a poll of the server whose callback returns and whose reply goes out serves and answers the next command, if there is one |
| Progress.ClientTakesIn | include/spw_rmap/internal/spw_rmap_tcp_node_impl.hh:711-733 | a poll of the client takes in the next reply, if there is one |
| Progress.NothingInFlight | include/spw_rmap/internal/spw_rmap_tcp_node_impl.hh:711-733 | once every command is served and answered and every reply taken in, no operation is in flight and every ID is free |
| Progress.CanFinish | include/spw_rmap/internal/spw_rmap_tcp_node_impl.hh:689-846 | after every run in which each command served was answered, polling the two nodes finishes every operation and frees every ID |

## Left out

- Transactions.Transactions.constructor: does not cover max below min, where the code's unsigned comparison would make it
  add some four billion slots.
- Sockets, connecting, accepting and shutting down, and the null checks of the backend pointer.
- End of stream inside a packet: the decoder calls it starved and nothing is promised; where the code would hand its
  parser an empty span, the model reports an aborted connection.
- Memory exhaustion and `size_t` wrap-around when a buffer is resized, and packets too large for the builder's `int` index.
- The parsed packet's spans into the receive buffer: they are values here, so nothing is said about how long they stay valid.
- The part of a frame that a failing `sendAll` may already have sent: a failed send leaves the stream unchanged.
- Exceptions from user callbacks of the server that are not `std::exception`, re-entrant use of a node from a callback,
  and unregistered callbacks.
- The copy of a read reply into the caller's buffer by the synchronous `read`.
- Parse statuses that the code never produces; reply status codes and read-modify-write, which it does not act on.
- Changing the timeout, the initiator address or the verify mode while operations are running.
- Command-line applications, Python bindings, logging and error messages.
