# The eg4-bridge data path, verified

eg4-bridge talks to EG4 inverters over TCP, turns what they send into database rows and MQTT
messages, and writes settings back. This project models that path in Dafny and proves what it
promises:

* **Bytes to packets.** A reader appends what the socket delivers to a buffer and drains it through
  a decoder that cuts length-prefixed frames, checks a CRC-16/MODBUS and hands each frame to a
  parser. However the stream is cut into reads, the packets, the verdict and the leftover are the
  same; what is consumed plus what is left is what came in; and every packet pins down the frame it
  came from.
* **The checksum.** The CRC is affine, its one-bit step is injective, and a frame is accepted iff
  the residue over payload and trailer is zero. Every burst of up to 16 bits, every odd number of bit
  errors, and every error of up to three bits within 4095 bytes is noticed. The last claim rests on the
  period of the shift register, which is computed by repeated squaring. Carried through the
  decoder: a frame damaged in its payload or trailer is refused, and nothing behind it gets through.
* **Blocks to rows.** Per datalog, six blocks of input registers are collected in any order and
  interleaving; a row is emitted when all six are there and valid. The in-place store refines a plain
  history of readings; as long as none takes the coordinator down, inverters do not show in each
  other's rows; no reading counts twice.
* **Requests and replies.** Waiting for a reply on a channel full of other traffic returns the first
  match; switching a bit by reading, changing and writing back a register touches that bit only.
* **Around it.** The register cache, the outgoing envelope, the register schema, the command topics,
  and the sweep that asks for all input registers.

Bytes are 8-bit vectors and register values 16-bit vectors. Lengths, register numbers and counts are
bounded integers; where the program casts or wraps, the model has the `%` written out. Energies,
frequencies and voltages are integers in the unit in which they travel. Arithmetic is that of a release
build: a debug build would abort where 16-bit sums wrap.

`dafny verify dfyconfig.toml` checks everything, with the options the file sets.

## Files

| file | contents |
|---|---|
| `Bytes.dfy`, `Wrappers.dfy`, `Texts.dfy`, `Numbers.dfy` | bytes and words, options and results, splitting and joining, numbers in text |
| `ModbusCrc.dfy`, `CrcDetection.dfy`, `CrcPeriod.dfy` | the CRC, which errors it notices, the period of its register |
| `Packets.dfy`, `Codec.dfy` | packets as values, the parser and the request encoder |
| `PacketDecoder.dfy`, `Stream.dfy`, `Reader.dfy`, `Damage.dfy` | one decoding step, draining a stream, the reader loop, damaged streams |
| `GoldenFrames.dfy` | captured frames and what they decode to |
| `Envelope.dfy` | outgoing frames |
| `Inputs.dfy`, `Aggregation.dfy`, `AggregationRuns.dfy` | blocks and rows, the store, whole runs of the store |
| `Coordinator.dfy` | the packet handler, and the path from bytes to rows as a whole |
| `Replies.dfy`, `UpdateHold.dfy`, `RegisterCache.dfy` | waiting for replies, switching bits, cached registers |
| `Schema.dfy`, `Topics.dfy`, `Sweep.dfy` | the register schema, command topics, reading by blocks |
| `Commands.dfy` | from a command topic to the packet it sends |
| `SweepToRow.dfy` | a sweep from the bytes of its answers to its row |

## What the proofs brought to light

* `Parser::parse` truncates lengths to eight bits, so it refuses every frame whose length field is
  not between 12 and 249 modulo 256, although the decoder lets lengths up to 1024 through
  (`Codec.FramedLength`). Behind the decoder the subtraction `input[4] - 6` never wraps; called
  directly it can (`Codec.UnframedUnderflow`).
* A `ReadParam` reply decodes only under protocol 2; under any other protocol the announced length is
  two while at least four bytes must follow (`Codec.ReadParamIff`).
* A heartbeat of 19 bytes is what `Heartbeat::decode` expects, and below the decoder's minimum of 20.
  RELEASE_NOTES.md:5 says so too. Only a longer one gets through, whose surplus is ignored
  (`Codec.HeartbeatIff`).
* The length in front of a request counts itself but not the checksum; `create_frame` puts yet another
  header before it. Both are modelled as the code has them.
* No `WriteMulti` request is ever accepted by the inverter-side decoder (`Codec.WriteMultiRejected`).
* A reply to an input request at register 200 with an odd number of bytes (3 to 79) takes the
  coordinator down, and with it every other inverter's rows. With MQTT on, so does any hold reply with an
  odd number of bytes, and when registers are published one by one any other reply with an odd number
  (`Coordinator.Handled`). What every inverter keeps is a prefix of its rows (`Coordinator.InvertersApart`);
  `Coordinator.OneInverterStopsAnother` is a run that loses one, and `Coordinator.ApartIff` the condition.
* A packet with a register of 512 or more takes down the register cache, setter and getter alike
  (`RegisterCache.SurvivesIff`).
* Switching a bit is not atomic. The bridge runs one switch at a time, so this shows when something else
  writes the register between read and write, or when a switch timed out and its write lands during a
  later one. `UpdateHold.AtomicIff` says exactly which writes get lost, and
  `UpdateHold.InterleavedRunsLoseUpdate` when two overlapping switches both hold.
* `cmd/.../read/inputs/n` asks from register 40 n on, which is block n + 1, and for n = 6 nothing that
  can be read as a block (`Sweep.ReadInputsCommandIsOffByOne`).
* Read-only stops the commands that set a number, but not the three that switch a bit
  (`Commands.BlockedIff`), and a count of registers to read is cut to eight bits (`Commands.ReadAsks`).
* A topic with a number written `+5` or `007` is accepted and answered on a topic that does not mirror
  it (`Topics.ResultMirrorsCommand`).
* Raw register keys that spell one number in two ways end up in one field, whichever comes last
  (`Schema.LosslessIff`).
* The sum in `validate_register_block_boundary` can wrap and `count` may be 0; its second check
  catches every wrapped range, but a read of no registers passes unless it starts a block
  (`Sweep.BoundaryIff`).

## Model

| member | source | states |
|---|---|---|
| ModbusCrc.CalculateCrc16 | python/backup_inverter_config.py:64-75 | the two nested loops compute the checksum of the data, low byte first |
| ModbusCrc.FeedBitLinear | python/backup_inverter_config.py:69-73 | one step of the shift register is linear over exclusive or |
| ModbusCrc.FeedBitInjective | python/backup_inverter_config.py:69-73 | two registers that agree after one step agreed before it |
| ModbusCrc.ShiftNInjective | python/backup_inverter_config.py:68-73 | the same for any number of steps |
| ModbusCrc.RunLinear | python/backup_inverter_config.py:64-75 | running the CRC over the exclusive or of two equally long messages gives the exclusive or of the two runs |
| ModbusCrc.RunAppend | python/backup_inverter_config.py:64-75 | running over a concatenation is running over one part after the other |
| ModbusCrc.ChecksumAffine | python/backup_inverter_config.py:64-75 | the difference of two checksums depends only on the difference of the messages, not on the start value |
| CrcDetection.FeedIsRun | python/backup_inverter_config.py:67-73 | absorbing whole bytes is the same as shifting in their bits one at a time, lowest first |
| CrcDetection.SameRemainder | python/backup_inverter_config.py:64-75 | two equally long messages share a remainder iff their difference, fed from zero, gives zero |
| CrcDetection.OddErrorDetected | python/backup_inverter_config.py:64-75 | an odd number of wrong bits always changes the remainder, whatever the length and start value |
| CrcDetection.BurstDetected | python/backup_inverter_config.py:64-75 | wrong bits that all lie within sixteen neighbouring ones always change the remainder |
| CrcDetection.TrailerIff | src/eg4/packet_decoder.rs:52-56 | feeding two more bytes empties the register iff they are its own contents, low byte first |
| CrcDetection.ResidueIffChecksum | src/eg4/packet_decoder.rs:52-56 | payload and trailer together leave residue zero iff the trailer is the payload's checksum |
| CrcDetection.OnesEmptyIff | python/backup_inverter_config.py:66-73 | two bytes of ones empty the register iff it starts as all ones |
| CrcDetection.StartsWithOnes | python/backup_inverter_config.py:66-75 | for every message: behind two bytes of ones the checksum is that of an empty start, so the start value is 0xFFFF |
| CrcPeriod.PowDouble | python/backup_inverter_config.py:68-73 | squaring the register's polynomial doubles the number of steps it stands for |
| CrcPeriod.CommonPeriod | python/backup_inverter_config.py:68-73 | if the register returns to its start after a and after b steps, it does so after a common divisor |
| CrcPeriod.NoEarlyReturn | python/backup_inverter_config.py:68-73 | a register holding a single one does not return to it within 32766 steps |
| CrcPeriod.TwoBitErrorDetected | python/backup_inverter_config.py:64-75 | two wrong bits anywhere in up to 4095 bytes change the remainder |
| CrcPeriod.FewBitErrorsDetected | python/backup_inverter_config.py:64-75 | so do one, two or three wrong bits |
| Packets.FunctionOf | src/eg4/packet.rs:1821-1821 | a code is decoded to the device function that has it, and refused iff none does |
| Packets.FlattenRestores | src/eg4/packet.rs:1567-1573 | the words of the pairs, written out low byte first, are the values again: no byte is lost or moved |
| Packets.Codes | src/eg4/packet.rs:1181-1215 | the MODBUS codes of reads and writes, the three of the firmware update in a row, and error codes as their requests' with the top bit set |
| Packets.ComputePairs | src/eg4/packet.rs:1567-1573 | the walk over two bytes at a time computes the pairs, and aborts iff the number of bytes is odd |
| Packets.PairsNumbered | src/eg4/packet.rs:1567-1573 | pairs are numbered on from the first register, and from 0 behind the last |
| Bytes.WordIsSum | src/utils.rs:16-18 | a word is its low byte plus 256 times its high byte |
| Codec.FramedLength | src/eg4/packet.rs:2152-2168 | on a frame as the decoder cuts it, the 8-bit subtraction does not wrap, and both length guards pass iff the length field is between 12 and 249 modulo 256 |
| Codec.UnframedUnderflow | src/eg4/packet.rs:2163-2163 | an input that no decoder cut makes the subtraction wrap |
| Codec.ReplyFrameDecodes | src/eg4/packet.rs:1791-1847 | every reply laid out for td decodes to td |
| Codec.DecodedIsReplyFrame | src/eg4/packet.rs:1791-1847 | whatever decodes to td is td's layout, byte for byte, up to eight header bytes, the inner length and the address |
| Codec.CountedReplyDecodes | src/eg4/packet.rs:1820-1863 | under every protocol but 1, a reply with code 3 or 4 and a count byte in front of its values, laid out byte by byte, decodes to its packet iff the count is right and not zero |
| Codec.PlainReplyDecodes | src/eg4/packet.rs:1820-1863 | under protocol 1 or with any other code, the layout without that byte decodes iff there are two bytes of values |
| Codec.TranslatedIff | src/eg4/packet.rs:1791-1863 | a framed input parses to td iff it is long enough, its length survives truncation, its function is 194 and it is td's layout |
| Codec.FrameDetermined | src/eg4/packet.rs:1791-1847 | two frames with the same free bytes and the same packet are the same frame |
| Codec.HeartbeatIff | src/eg4/packet.rs:1510-1524 | exactly which framed inputs parse to a heartbeat; bytes past the nineteenth are ignored |
| Codec.ReadParamIff | src/eg4/packet.rs:1966-2006 | exactly which framed inputs parse to a parameter reply; protocol 2 is the only one that works |
| Codec.WriteParamIff | src/eg4/packet.rs:2062-2101 | exactly which framed inputs parse to a parameter write: 21 bytes with a one-byte register and one word |
| Codec.RefusalSays | src/eg4/packet.rs:1510-2178 | what the parser's refusals say about a framed input: the unknown code, the byte that should be zero, the actual and the announced number of values |
| Codec.TranslatedRefusalSays | src/eg4/packet.rs:1791-1847 | the same for TranslatedData, the checksum included |
| Codec.EncodeRequest | src/eg4/packet.rs:1897-1934 | filling the vector in place yields inner length, address, function, inverter, register, count and length for WriteMulti, values, checksum |
| Codec.RequestReadsBack | src/eg4/packet.rs:1897-1934 | every field of a request can be read from its bytes: its length without the checksum, address 0, function, inverter, register, for WriteMulti the numbers of words and bytes, values, checksum |
| Codec.RequestRoundTrip | src/eg4/packet.rs:1897-1934 | a framed request reads back as itself iff it is not WriteMulti and carries one register |
| Codec.WriteMultiRejected | src/eg4/packet.rs:1791-1863 | every WriteMulti request is refused when read back |
| PacketDecoder.BytesMut.SplitTo | src/eg4/packet_decoder.rs:142-143 | cutting the front off loses no byte and reorders none |
| PacketDecoder.Decoder.Decode | src/eg4/packet_decoder.rs:80-158 | in place: waits and keeps the buffer (with room for the whole frame reserved), fails, or hands over one packet and leaves what follows its frame |
| PacketDecoder.Decoder.DecodeEof | src/eg4/inverter.rs:616-616 | at the end of a stream: as Decode, but bytes that make no frame are an error |
| PacketDecoder.GotFrame | src/eg4/packet_decoder.rs:84-157 | handing over a packet consumes exactly one complete frame of 20 to 1030 bytes, which alone gives the same packet |
| PacketDecoder.StepStable | src/eg4/packet_decoder.rs:80-158 | once a step hands over or fails, later bytes change neither the outcome nor the order of what is left |
| PacketDecoder.WaitingIsShort | src/eg4/packet_decoder.rs:99-128 | waiting means holding less than 1030 bytes |
| PacketDecoder.WaitsIff | src/eg4/packet_decoder.rs:84-128 | exactly when a step waits, and that all that is wrong with a header is noticed with its sixth byte |
| PacketDecoder.ChecksumVerdict | src/eg4/packet_decoder.rs:30-73 | what the checksum test says for every length, and that a frame passes iff it ends with the checksum of its bytes 20 to length minus 2 |
| PacketDecoder.DecoderAgreesWithParser | src/eg4/packet_decoder.rs:131-157 | on every frame and any suffix: the decoder hands over a packet iff the parser does, then the same one, and leaves the suffix; a bad checksum leaves the frame too, other failures carry the parser's reason |
| PacketDecoder.HandedOverIsFramed | src/eg4/packet_decoder.rs:99-142 | the parser only ever sees frames on which its subtraction cannot wrap |
| PacketDecoder.ParserChecksumUnreachable | src/eg4/packet.rs:1811-1818 | behind the decoder the parser's own checksum test never fails |
| PacketDecoder.RequestThroughDecoder | src/eg4/packet_decoder.rs:80-158 | a framed request in front of any bytes comes out of the decoder as itself iff it is not WriteMulti and carries one register |
| GoldenFrames.HeartbeatIsTooSmall | tests/test_packet_tcp_frames/golden.rs:3-5 | the captured heartbeat parses, and is too small for the decoder |
| GoldenFrames.ReadHoldReplyDecodes | tests/test_packet_tcp_frames/golden.rs:7-10 | the captured hold reply, checksum computed byte by byte, comes out of the decoder as the packet the tests expect |
| GoldenFrames.WriteSingleReplyDecodes | tests/test_packet_tcp_frames/golden.rs:34-37 | so does the captured reply to a single write |
| GoldenFrames.WriteMultiReplyDecodes | tests/test_packet_tcp_frames/golden.rs:39-42 | and the one to a multiple write |
| GoldenFrames.ReadParamReplyDecodes | tests/test_packet_tcp_frames/golden.rs:44-46 | and the captured parameter reply |
| GoldenFrames.WriteParamReplyDecodes | tests/test_packet_tcp_frames/golden.rs:48-50 | and the captured reply to a parameter write |
| Stream.DrainAppend | src/eg4/inverter.rs:593-735 | draining, then appending and draining again, is draining the whole |
| Stream.ChunkIndependence | src/eg4/inverter.rs:593-735 | however a stream is cut into reads, packets, verdict and leftover are those of one read |
| Stream.CompleteFramesDelivered | src/eg4/inverter.rs:659-732 | complete frames in front of a stream are delivered in order, whatever follows |
| Stream.DrainConserves | src/eg4/inverter.rs:593-735 | the consumed frames, concatenated, and what is left are what came in; each gave its packet; if nothing failed, less than 1030 bytes are left |
| Stream.UniqueReading | src/eg4/inverter.rs:593-735 | any split of a stream into complete frames and a rest to wait on is the split that draining finds |
| Reader.InverterReader.Turn | src/eg4/inverter.rs:593-735 | one turn of the loop, whatever ends its wait: only a read brings bytes, everything sent on so far is what draining all bytes received gives, the turn ends as each branch says, and the overflow exit is dead code |
| Reader.InverterReader.OnRead | src/eg4/inverter.rs:642-732 | a read of some bytes drains them; an empty one ends the session, with a complaint iff bytes are left |
| Reader.InverterReader.DecodeRest | src/eg4/inverter.rs:613-622 | the last loop over the buffer hands over what draining gives and complains iff bytes are left |
| Reader.InverterReader.DrainBuffer | src/eg4/inverter.rs:658-732 | the inner loop terminates and appends exactly the packets that draining the buffer gives |
| Reader.NothingAtEof | src/eg4/inverter.rs:648-655 | at the end of the stream there is never a packet left to hand over |
| Damage.ChecksumIsResidue | src/eg4/packet_decoder.rs:30-73 | the decoder's comparison accepts a frame iff the residue from byte 20 on is zero |
| Damage.DamageRefused | src/eg4/packet_decoder.rs:30-139 | a sound frame damaged from byte 20 on by a burst of up to 16 bits, an odd number of bits or up to three bits is refused with a checksum mismatch, whatever follows |
| Damage.AdjacentBytesRefused | src/eg4/packet_decoder.rs:30-139 | so is any change confined to two adjacent bytes of payload, trailer or both |
| Damage.StreamStopsAtDamage | src/eg4/inverter.rs:593-735 | over a whole stream, cut into reads anyhow: the frames before the damage are delivered and nothing from it on |
| Envelope.TcpFrameFactory.CreateFrame | src/eg4/packet.rs:1458-1481 | builds datalog, type byte, big-endian 16-bit length and body |
| Envelope.FrameReadsBack | src/eg4/packet.rs:1458-1481 | in a frame stand the datalog, a type from 1 to 4, the big-endian length and the body |
| Envelope.BodyReadsBack | src/eg4/packet.rs:2124-2139 | the bodies of the four packets, field by field; a parameter read keeps the low byte of its register only |
| Envelope.UnframeSent | src/eg4/packet.rs:1458-1481 | frames with bodies below 65536 bytes, sent one after the other, can be taken apart again |
| Envelope.UniquelyDecodable | src/eg4/packet.rs:1458-1481 | two runs of packets that look the same on the wire have the same types and bodies |
| Inputs.ReadInput6 | src/eg4/packet.rs:1735-1789 | the loop over the pairs fills the twenty registers in order; missing ones stay zero, surplus ones are dropped; without pairs it aborts |
| Inputs.ParseInput | src/eg4/packet.rs:1575-1602 | reading aborts iff block 6 has an odd number of bytes, and otherwise reads or refuses |
| Inputs.ReadInputIff | src/eg4/packet.rs:1575-1733 | exactly which bytes make which reading: first register, number of bytes, a layout that takes them, no overflow; everything but derived fields and datalog is as the layout has it |
| Inputs.ReadInputAccepted | src/eg4/packet.rs:1575-1733 | whatever is read bears the packet's datalog, and its derived fields are the sums and differences of their parts |
| Inputs.DerivationIsIdle | src/eg4/packet.rs:346-418 | on accepted blocks the recomputation cannot fail and changes nothing, so six blocks without a row mean that validation refused them; a row's power is the sum of its three parts and at most 30000 |
| Inputs.ValidInUnits | src/eg4/packet.rs:373-418 | validation accepts a row iff every reading, in hertz, volts, watts and percent, is within its bounds |
| Inputs.AssembledReadsBack | src/eg4/packet.rs:957-1145 | from a row assembled of one datalog's blocks each block can be read back by name; what no block supplies is zero |
| Aggregation.ReadInputs.SetReadInput | src/eg4/packet.rs:938-955 | a setter replaces its own slot and no other |
| Aggregation.InputsStore.UpdateInputsStore | src/coordinator/mod.rs:956-967 | makes the entry when needed, updates only that datalog, and returns the row its slots make |
| Aggregation.InputsStore.SendToDatabase | src/coordinator/mod.rs:969-1006 | one delivery in place: emit and clear, or keep |
| Aggregation.PutLatest | src/eg4/packet.rs:938-955 | storing a block is the same as remembering the latest reading of each kind |
| Aggregation.YieldIsRowFor | src/coordinator/mod.rs:956-1006 | the row the store makes from its slots is the row of the latest readings since the last one |
| Aggregation.StoreRefinesHistory | src/coordinator/mod.rs:956-1006 | after any history the store holds, per datalog, the latest reading of each kind since its last row, and the database has got exactly the rows of the history |
| AggregationRuns.LatestFinds | src/eg4/packet.rs:938-955 | the latest of a kind is found iff there is one, and none of its kind comes after it |
| AggregationRuns.YieldIff | src/coordinator/mod.rs:979-1002 | a reading completes a row iff it is a whole row, or with it all six kinds are there and the row they make is valid |
| AggregationRuns.EmissionIff | src/coordinator/mod.rs:969-1006 | the last reading of a run adds a row iff that holds since the datalog's last row; then the entry is gone, otherwise everything stays for the next try |
| AggregationRuns.NonInterference | src/coordinator/mod.rs:956-1006 | the rows of one datalog are those of running its own readings alone, for any interleaving |
| AggregationRuns.WindowIsSinceStart | src/coordinator/mod.rs:956-1006 | what a datalog has pending is what came for it since its last row |
| AggregationRuns.RowIsMadeOfSources | src/coordinator/mod.rs:956-1002 | a row assembled from blocks has exactly one source reading of each of the six kinds, the latest since the datalog's last row, and is made of those |
| AggregationRuns.RowReadsBack | src/coordinator/mod.rs:956-1002 | the block of each kind read from an emitted row is its source reading, unaltered, and the row is valid |
| AggregationRuns.NoReuse | src/coordinator/mod.rs:992-997 | the source readings of two rows are disjoint, whosever the rows are |
| AggregationRuns.RowsBoundedByBlocks | src/coordinator/mod.rs:956-1006 | assembled rows never outnumber the blocks of any of the six kinds, with one more block accounted for while it waits |
| Coordinator.WhatTakesDown | src/coordinator/mod.rs:573-613 | exactly which packets take the coordinator down, by the settings for publishing |
| Coordinator.Handled | src/coordinator/mod.rs:573-613 | all packets are handled unless one takes the coordinator down, at once or after having been handled itself |
| Coordinator.Coordinator.SendToDatabase | src/coordinator/mod.rs:969-1006 | nothing reaches the store without a database, for another device function, or without a parsed reading |
| Coordinator.Coordinator.Publish | src/coordinator/mod.rs:936-954 | publishing aborts iff pairs are due and the number of bytes is odd |
| Coordinator.ArrivalIff | src/coordinator/mod.rs:573-606 | a packet feeds the store iff there is a database and it is an input reply that can be read, under its own datalog |
| Coordinator.CachedArePairs | src/coordinator/mod.rs:598-629 | a packet feeds the cache with its pairs, unless it is a heartbeat or a write to a read-only inverter |
| Coordinator.Coordinator.Dispatch | src/coordinator/mod.rs:573-633 | which packet feeds the store, which the cache, and which neither; parameter writes to a read-only inverter are not cached |
| Coordinator.Coordinator.ProcessPacket | src/coordinator/mod.rs:506-636 | keeps the invariant: the store has the readings of all handled packets and the cache channel their registers, in order and nothing else |
| Coordinator.Coordinator.Start | src/coordinator/mod.rs:416-424 | the loop over the channel keeps it for whole runs |
| Coordinator.RowsSent | src/coordinator/mod.rs:992-1002 | the rows sent to the database are those the handled packets give rise to |
| Coordinator.ArrivalsAuthentic | src/eg4/packet.rs:1575-1733 | every reading that reaches the store bears its packet's datalog and has its derived fields in order |
| Coordinator.InvertersApart | src/coordinator/mod.rs:506-636 | in every run one inverter's rows are those of its own handled packets, hence a prefix of those that all its packets would give, and all of them as long as no packet but the last takes the coordinator down |
| Coordinator.OneInverterStopsAnother | src/coordinator/mod.rs:576-586 | an input that shows why not always: an odd block 6 from one inverter, then a whole row from another, whose row is lost |
| Coordinator.ApartIff | src/coordinator/mod.rs:506-636 | the exact condition: with a database and a layout that accepts some whole row, an inverter with harmless packets keeps all its rows under every harmless continuation iff nobody has taken the coordinator down |
| Coordinator.RowsFromOwnBytes | src/coordinator/mod.rs:506-636 | from bytes to rows, in every run: however its stream was cut and whatever others send, an inverter's rows are a prefix of those its stream gives alone, and all of them as long as no packet but the last takes the coordinator down |
| Coordinator.NoRowFromDamage | src/coordinator/mod.rs:506-636 | and in no run does a part of a row come from a damaged frame or from anything behind it |
| Replies.WaitForReply | src/eg4/inverter.rs:44-98 | the polling loop returns what the first poll that settles the matter says |
| Replies.FirstMatch | src/eg4/inverter.rs:44-98 | a reply is returned iff it is the first to match on kind, datalog, register and function, with no shutdown, channel error, disconnect of the same datalog or deadline before it |
| Replies.WaitIsFirstRelevant | src/eg4/inverter.rs:44-98 | before the deadline the outcome is that of the first event that concerns the request |
| Replies.UnrelatedTrafficIgnored | src/eg4/inverter.rs:44-98 | unrelated events can be added or removed anywhere without changing the outcome |
| Replies.VerdictIff | src/eg4/inverter.rs:53-95 | exactly which events are waited through, and which end the wait as what |
| Replies.AnswersIff | src/eg4/inverter.rs:53-79 | a packet answers a request iff both have the same kind, datalog, register and device function, as far as their kind has these |
| Replies.ThirtySeconds | src/eg4/inverter.rs:35-51 | an answer is taken before thirty seconds have passed, and none from then on |
| UpdateHold.Updater.Run | src/coordinator/commands/update_hold.rs:33-83 | sends a read and, once it is answered, a write of the value with one bit changed; success iff the value comes back |
| UpdateHold.RequestsSay | src/coordinator/commands/update_hold.rs:37-67 | an inverter that serves the write request stores exactly the new value; the read request asks for that one register and changes nothing |
| UpdateHold.SwitchShows | src/eg4/packet.rs:1345-1403 | switching a bit shows in the published field of its name and in none of the other fifteen |
| UpdateHold.ReadsTheRegister | src/coordinator/commands/update_hold.rs:49-50 | with a truthful inverter the value read amid any traffic is the register's |
| UpdateHold.SuccessIsEffect | src/coordinator/commands/update_hold.rs:72-82 | a run that reports success has reached the register |
| UpdateHold.ReadsIff | src/coordinator/commands/update_hold.rs:49-50 | against a truthful inverter a run reads a value iff the read is answered in time |
| UpdateHold.SuccessIff | src/coordinator/commands/update_hold.rs:33-83 | and it succeeds iff its write has got there and is answered in time |
| UpdateHold.EndsWith | src/coordinator/commands/update_hold.rs:49-80 | otherwise it ends with what ended a wait, or with an answer that brings another value than the wanted one |
| UpdateHold.BitsAreDigits | src/eg4/packet.rs:1373-1403 | the sixteen published fields are the binary digits of the register |
| UpdateHold.ChangesOneBit | src/coordinator/commands/update_hold.rs:51-55 | the new value has the asked bit as asked and every other bit as it was |
| UpdateHold.TogglesArePrecise | src/coordinator/commands/update_hold.rs:33-83 | after any sequence of runs on any registers of any inverters, failed ones included, each of the three bits of each register is what its last effective request asked for and the other thirteen are unchanged |
| UpdateHold.OtherRegistersUntouched | src/coordinator/commands/update_hold.rs:61-67 | a register that no run names stays as it was |
| UpdateHold.SuccessfulRuns | src/coordinator/commands/update_hold.rs:33-83 | if all runs succeed, that is simply the last request for each bit |
| UpdateHold.AtomicIff | src/coordinator/commands/update_hold.rs:33-83 | with any writes landing between a run's read and its own: its bit ends up as asked, and the run counts as done after all those writes iff they left the other fifteen bits as it read them |
| UpdateHold.InterleavedRunsLoseUpdate | src/coordinator/commands/update_hold.rs:33-83 | two runs on one register that both read before either write lands: both requests hold afterwards iff they agree on the same bit, or the bit overwritten was as requested from the start |
| RegisterCache.Cache.CacheSetter | src/register_cache.rs:73-90 | in place: the cells after any messages, up to a shutdown or a register that is too large |
| RegisterCache.Cache.CacheGetter | src/register_cache.rs:47-71 | answers with the cell, or not at all when the register is too large or the cache is down |
| RegisterCache.CacheRegister | src/coordinator/mod.rs:915-934 | the two passes send one message per word, in order, with wrapping register numbers; a last odd byte stands for itself |
| RegisterCache.MessagesArePairs | src/coordinator/mod.rs:915-934 | for values of even length the messages are the pairs of the packet |
| RegisterCache.CacheAgreesWithPairs | src/register_cache.rs:73-90 | after any run of such loads each cell holds the last value that the pairs give its register, or zero |
| RegisterCache.SurvivesIff | src/register_cache.rs:83-84 | the setter is still running iff every register so far was below 512 |
| RegisterCache.FiveHundredTwelve | src/register_cache.rs:5-5 | registers 0 to 511 can be stored, and no other |
| RegisterCache.NothingAfterShutdown | src/register_cache.rs:84-86 | what comes behind a shutdown is not stored |
| RegisterCache.OddIsPadded | src/coordinator/mod.rs:917-926 | an odd byte at the end is cached as if a zero byte followed it |
| Schema.CheckType | src/register.rs:90-143 | the inner loop keeps the first definition of each number, collects the names and reports every clash |
| Schema.New | src/register.rs:71-163 | loading fails with all clashes, or builds the merged map |
| Schema.AcceptedIff | src/register.rs:71-163 | loading succeeds iff numbers are distinct within each type and field names across all types |
| Schema.LastTypeWins | src/register.rs:145-148 | the last type that defines a number settles what it means |
| Schema.FieldsApart | src/register.rs:71-163 | in an accepted schema no two known registers share a field |
| Schema.DecodeRegisters | src/register.rs:169-191 | in whatever order the entries come: every field has an entry that feeds it, and every kept entry has its field |
| Schema.SeparateEntriesKept | src/register.rs:169-191 | entries that go to separate fields all keep their own value, so the order does not matter |
| Schema.LosslessIff | src/register.rs:169-191 | as many fields come out as entries went in iff every entry is kept and no two go to the same field |
| Schema.PlainKeysSeparate | src/register.rs:169-191 | in an accepted schema, entries with plain decimal keys meet that condition iff unknown registers are shown where there are any and none takes the field of a known entry |
| Schema.KnownRegistersDecoded | src/register.rs:71-191 | loading and decoding together: n known registers with plain keys give exactly n fields, each with its own entry's value |
| Schema.RawValueDecoded | src/register.rs:195-204 | a value written in four hexadecimal digits decodes to itself, scaled for floats; anything else to zero |
| Schema.UnknownDecoded | src/register.rs:183-187 | an unknown register is stored, if at all, unscaled and under its number |
| Schema.ShortnamesFirst | src/register.rs:122-126 | where all registers have shortnames only those must differ, and where none has only the names |
| Numbers.PrintParse | src/mqtt.rs:264-264 | printing a number that was read gives its text back iff that has neither sign nor needless zeros |
| Numbers.ParseU8Print | src/mqtt.rs:347-352 | numbers up to 255 are read back as bytes, others refused |
| Numbers.HexRoundTrip | src/coordinator/mod.rs:893-897 | what is written in hexadecimal is read back, in small and capital letters |
| Numbers.SignIsTaken | src/mqtt.rs:264-264 | one plus sign in front makes no difference, and alone it is no number |
| Numbers.ZeroIsTaken | src/mqtt.rs:264-264 | nor does a zero in front |
| Topics.WhomFor | src/mqtt.rs:309-328 | a topic is for all inverters or for a datalog of ten characters, whatever its first part; without a second part it is for nobody |
| Topics.PathMirrors | src/command.rs:30-59 | a command's path is the one it was read from iff its number is plain |
| Topics.ResultMirrorsCommand | src/mqtt.rs:251-328 | an accepted topic head/target/rest is answered on result/datalog/rest iff the number in rest, if any, is plain |
| Topics.PayloadDecides | src/mqtt.rs:256-303 | value, count, times and switch of a command are those of its payload; the count is 1 if that is no number |
| Topics.TimesRoundTrip | src/mqtt.rs:331-353 | start and end written as hours and minutes come out in order |
| Topics.SwitchIgnoresCase | src/mqtt.rs:365-370 | capitals make no difference to a switch |
| Topics.SixWords | src/mqtt.rs:365-370 | six words switch on, everything else off |
| Commands.SetHoldStores | src/coordinator/commands/set_hold.rs:28-42 | from topic to register: setting a holding register stores the payload's number there and nowhere else, unless the inverter is read-only |
| Commands.ReadAsks | src/coordinator/mod.rs:728-729 | reading asks for the topic's register with the topic's function, and for the payload's number of registers modulo 256 |
| Commands.ParamsAsk | src/coordinator/mod.rs:730-730 | parameters are asked for by number and set to the payload's number |
| Commands.SwitchesItsBit | src/coordinator/mod.rs:737-760 | a switch topic changes the bit of register 21 that is published under its name, as the payload says |
| Commands.BlockedIff | src/coordinator/commands/write_inverter.rs:26-37 | read-only stops setting numbers, but not switching bits |
| Commands.ReadInputsSends | src/coordinator/mod.rs:727-727 | the command for a block of inputs sends the request that is off by one |
| Texts.SplitJoin | src/mqtt.rs:310-310 | parts without separator survive joining and splitting |
| Texts.JoinSplit | src/mqtt.rs:310-310 | splitting and joining gives the text back |
| Sweep.BoundaryIff | src/coordinator/commands/validation.rs:27-59 | for all 16-bit arguments, wrapping included: a read of at least one register passes iff all its registers exist and lie in the block of the first |
| Sweep.ReadInputRegisters | src/scheduler.rs:15-42 | asks for the blocks in order and stops at the first that is not answered |
| Sweep.SweepCoversOnce | src/scheduler.rs:25-34 | registers 0 to 239 are each asked for exactly once, no others are, and no request crosses a block |
| Sweep.KindOfAnswer | src/eg4/packet.rs:1575-1602 | a full answer to the k-th request of a sweep is read as block k + 1 or not at all |
| Sweep.ReadInputsCommandIsOffByOne | src/coordinator/mod.rs:727-727 | an answer to the command for block n is never read as block n |
| Sweep.SweepMakesRow | src/coordinator/mod.rs:956-1006 | six blocks in order with nothing pending make exactly one row from those very blocks, or none if validation refuses it, and then they all stay |
| SweepToRow.SweepAddsRow | src/coordinator/mod.rs:506-636 | the same for six full answers among the packets, none of which does harm |
| SweepToRow.SweepReachesDatabase | src/eg4/inverter.rs:593-735 | from bytes to row: six full answers in a stream cut anyhow, among whatever other inverters send, add exactly the row made of them |

## Left out

- Sockets, tasks, clocks, logging, the MQTT broker, InfluxDB, SQL and Home Assistant discovery: channels
  are sequences of events without lag, and time is the elapsed milliseconds that come with each poll.
- The byte layouts of blocks 1 to 5 and of the whole row: they are generated by a parser macro and appear
  as partial functions from bytes (`Inputs.Layouts`). Block 6 is read by hand and modelled.
- Rounding of floating-point numbers: energies, frequencies and voltages stay in their wire units, and
  the scaling of schema values is over the reals.
- Inputs.DerivationIsIdle: keeps only the fields that derivation and validation look at; all others are
  carried along as one number per block.
- Topics.ResultMirrorsCommand: the JSON of a time slot is taken as already parsed, and a target is ten
  characters where the program counts ten bytes.
- Schema.New: the text and line numbers of the complaints, the access field and the reading of the JSON file.
- Reader.InverterReader.Turn: statistics, the clocks behind the two time limits, and the configuration
  updates after a packet, whose failure would end the session too.
- Coordinator.Coordinator.ProcessPacket: what is published over MQTT and to InfluxDB, statistics, datalog and serial updates of the configuration,
  failing sends and the check for closed channels.
- UpdateHold.TogglesArePrecise: assumes that nothing else writes the registers; UpdateHold.AtomicIff says
  what holds when something does.
- Codec.EncodeRequest: a WriteMulti with an odd number of bytes aborts in the program and is excluded.
- Equality of the raw values for InfluxDB and the datalog writer with the pairs: the code orders them
  differently.
- Commands.BlockedIff: the percentages, the time slots and their reads are commands that go elsewhere here.
- Writes of time slots, the time synchronisation, the single-register writers, fault, warning and status
  texts, and the other Python readers: branches and tables without interplay.
