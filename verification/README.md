# avl-receiver: verified model

avl-receiver is a TCP server for GPS trackers. It finds out which wire protocol a new connection
speaks, logs the device in, decodes its unbounded byte stream, checks checksums, answers the device,
and hands records to an asynchronous store. This project models that logic in Dafny and proves what
it guarantees.

All decoders share one abstraction (`Streams.dfy`): a `Source` is the bytes that will arrive and the
error a read past the last of them reports. `XAt(s, p)` functions say what a decoder makes of the
bytes at position `p`; classes (`Reader`, `Writer`, `Store` and one per protocol) do the same step by
step, and their methods are proved against those functions.

| file | what it holds |
|---|---|
| `Bytes`, `Streams`, `HexText` | bytes, big-endian integers, sources, readers, hexadecimal text |
| `Formats` | wire formats as a parser, an encoding and a range; `Correct` says the parser accepts exactly the encodings, and every combinator keeps it |
| `Runs` | stream loops over abstract messages: chains, whole runs, frames back to back |
| `CrcDivision`, `CrcTables`, `Crc`, `CrcBurst`, `CrcLimit`, `CrcCases` | both table-driven CRC loops against bit-serial division; burst detection and its limit |
| `Fm1200Wire`, `Fm1200Frames`, `Fm1200Parser`, `Fm1200Values`, `Fm1200Ends`, `Fm1200`, `Fm1200Laws` | Teltonika FM1200: format, frames, running parser, what decoded records say, data that ends too early, protocol object, laws |
| `WanwayInfo`, `WanwayPackets`, `Wanway`, `WanwayWire` | GT06 and TR06: information, packets and acks, protocol object, packets and answers byte for byte |
| `IntellitracWire`, `IntellitracPosition`, `Intellitrac` | IntelliTrac: device ids and binary messages, positions, protocol object |
| `Obdii2g` | Aquila OBDII2G: login by commas, lines |
| `IButton` | the text form of iButton and RFID numbers |
| `Dispatch` | the order of login attempts and device verification |
| `Registry` | the three connection maps under all interleavings of handlers |
| `AsyncStore` | channels, consumer loops and the close handshake under all schedules |

Some definitions are large enough that a loop over them is best verified without looking inside.
There the loop takes the definition as a ghost argument (a `Format`, a `Link`, a `Device`, a
`Messages` value) and knows it through an `IsX` predicate; a lemma beside it says that the real one
meets the predicate (`Fm1200Laws.TheMessages`, `Wanway.TheDeviceIsDevice`, `Wanway.TheMessages`,
`Intellitrac.TheMessages`), and the `Serve` method of each protocol states the loop for the real one.

## What the code does that one might not expect

Each of these is a statement proved about the model, not a change to it.

- A clean end of an FM1200 stream is reported as an error: the EOF in the preamble of the next frame
  is wrapped, and only a bare EOF ends the loop without one (`Fm1200Laws.WholeRun`).
- An FM1200 reply to a command goes to the store before its checksum is read, so a frame rejected for
  a missing or wrong checksum leaves its reply behind (`Fm1200Laws.LeakIff`,
  `Fm1200Laws.LeakExample`); records never stay behind (`Fm1200Laws.RecordsNeverLeak`).
- An FM1200 loop ends without an error exactly where a stream stops right behind a preamble, or the
  data of a whole frame runs out in front of a codec, a count, a field of a reply, or a field of a
  record up to its number of properties (`Fm1200Laws.QuietEndIff`, on the bytes:
  `Fm1200Ends.BodyEndsIff`); frames that follow are then not read. A frame that announces no data is
  one such case (`Fm1200Laws.EmptyFrameEndsTheRun`). Data that ends inside a field or among the groups
  of properties is an error.
- A command whose length plus 8 exceeds 32 bits gets a wrapped length field and does not read back
  (`Fm1200Laws.CommandRoundTrip`).
- GT06 accepts any checksum (`WanwayPackets.GT06IgnoresChecksum`), TR06 checks it
  (`WanwayPackets.MismatchRejected`).
- TR06 can never be chosen for a connection, because GT06 comes first and settles every header the
  two share (`Dispatch.TR06NeverChosen`). GT06 and TR06 report each other's protocol type, so with
  local storage a GT06 device gets the type WANWAY (`Dispatch.LocalAnswer`).
- When two live connections share an id and the newer one ends, the older one can no longer be found
  (`Registry.OlderConnectionLost`; `Registry.LostInARun` is a run in which it happens).
- At shutdown every schedule saves all statuses exactly if none is queued when the stream ends, and
  likewise for responses (`AsyncStore.NoStatusLostIff`, `AsyncStore.NoResponseLostIff`); and from the
  start there are runs in which any chosen prefixes of the pushed statuses and responses are all that
  is saved (`AsyncStore.AnyPrefixMayBeAll`).
- The Response loop of a JSON store waits on the close channel of the other loop, so it may return
  after the first of the handler's two close sends; the Process loop then has to wait until the
  channel is closed (`AsyncStore.ReturnedEarlyIff`, `AsyncStore.TakenByTheOther`).
- The acks of GT06 and TR06 have the envelope of a packet, but no receiver of this kind would accept
  one (`Wanway.AckRoundTrip`, `Wanway.AckRejected`).
- A GT06 or TR06 report whose data ends between two fields is reported with a plain EOF, one that ends
  inside a field as a bad packet (`WanwayInfo.PositionErrors`, `WanwayInfo.AlarmErrors`).
- The eight short inputs at `internal/crc/crc_test.go:22-29` have other checksums in the code than
  expected there (`CrcCases.ShortInputs`); the model follows the code.

## Model

| member | source | states |
|---|---|---|
| Runs.RunStops | internal/protocols/fm1200/fm1200.go:63-113 | every run of a stream loop goes through accepted messages, answering all of them, to one that is rejected or whose acks exceed the writes left, and its error, deliveries, acks and replies are fixed by that |
| Crc.CrcTeltonika | internal/crc/crc.go:36-44 | the table loop equals bit-serial division by the reflected polynomial 0xA001 from 0, for every buffer |
| Crc.CrcWanway | internal/crc/crc.go:81-92 | the table loop equals the FCS of RFC 1662, Appendix C.2: bit-serial division by 0x8408 from 0xFFFF, complemented |
| CrcTables.TeltonikaTable | internal/crc/crc.go:3-34 | every one of the 256 table entries is eight division steps of its index |
| CrcTables.WanwayTable | internal/crc/crc.go:46-79 | the same for the second table |
| CrcDivision.BitLinear | internal/crc/crc.go:39-41 | a division step is linear over XOR |
| CrcDivision.TableStep | internal/crc/crc.go:40 | one table lookup and shift is eight division steps that take in the byte's bits, low bit first |
| CrcBurst.BurstDetected | internal/crc/crc.go:36-92 | two different buffers of one length that differ only inside 16 consecutive bits have different checksums, for both CRCs and any length |
| CrcBurst.BitSerialDetects | internal/crc/crc.go:36-92 | the same for bit strings, for any polynomial with an invertible step and any start value |
| CrcLimit.SeventeenBitsUndetected | internal/crc/crc.go:36-92 | 16 is the limit: flipping the generator's own 17 bits, wherever in a bit string of any length, goes unseen |
| CrcLimit.SeventeenBitsIff | internal/crc/crc.go:36-92 | of all changes confined to 17 consecutive bits, division by an invertible polynomial misses its own generator and no other |
| CrcLimit.MissedIff | internal/crc/crc.go:36-92 | the same for buffers: two that agree outside 17 wire bits have equal checksums exactly if they are equal or differ by the generator |
| CrcLimit.ThreeBytesUndetected | internal/crc/crc.go:36-92 | in any buffer, at any place, 03 40 01 and 00 00 00 have the same Teltonika checksum, 11 08 01 and 00 00 00 the same Wanway checksum |
| CrcCases.CheckValue | internal/crc/crc.go:36-44 | CRC-16/ARC: the digits 1 to 9 have the checksum BB3D, which fixes polynomial, start value and bit order |
| Fm1200Wire.PacketIff | internal/protocols/fm1200/fm1200.go:274-309 | data parses to these records exactly if it starts with codec, count, the records spelled out and the same count, there are at most 255 of them, and every field is within its width |
| Fm1200Wire.RecordLayout | internal/protocols/fm1200/fm1200.go:311-412 | the format of a record, composed in reading order, is this byte layout in both codecs |
| Fm1200Wire.RecordFits | internal/protocols/fm1200/fm1200.go:311-412 | which records can be encoded, field by field |
| Fm1200Wire.IOLayout | internal/protocols/fm1200/fm1200.go:344-412 | event id, announced number, four fixed groups and, in Codec 8E only, the variable group |
| Fm1200Wire.RecordCorrect | internal/protocols/fm1200/fm1200.go:311-342 | the record parser accepts exactly the encodings of records that fit |
| Fm1200Wire.BodyIff | internal/protocols/fm1200/fm1200.go:190-235 | data parses to a body exactly if the body fits and its encoding is a prefix of the data; the rest is ignored |
| Fm1200Wire.BodyComplete | internal/protocols/fm1200/fm1200.go:190-235 | a body that fits is read back, with the position after it |
| Fm1200Wire.ReplyLayout | internal/protocols/fm1200/fm1200.go:732-778 | the Codec 12 body byte by byte, and which ones fit |
| Fm1200Parser.LastWinsMeans | internal/protocols/fm1200/fm1200.go:506-542 | an id is in a property map exactly if some property has it, with the value of the last one |
| Fm1200Values.MeansIff | internal/protocols/fm1200/fm1200.go:311-587 | a decoded record is the one value that has the record's timestamp, priority, GPS, event id and announced number and whose five maps hold, for exactly the ids sent in their own group, the number of 1, 2, 4 or 8 bytes, or the raw bytes, of the last property with that id |
| Fm1200Parser.ReadFixedLoop | internal/protocols/fm1200/fm1200.go:506-544 | the loop reads as many properties as announced and fills the last-wins map of them, or stops at the first error; what that map holds is Fm1200Values.MeansIff |
| Fm1200Parser.ReadFixedProperties | internal/protocols/fm1200/fm1200.go:488-545 | count and properties are what the counted format says |
| Fm1200Parser.ReadVariableProperties | internal/protocols/fm1200/fm1200.go:547-587 | the same for properties with a length of their own |
| Fm1200Parser.ReadGroups | internal/protocols/fm1200/fm1200.go:378-409 | all groups are read even after one fails, and any failure fails the element |
| Fm1200Parser.ParseIOElements | internal/protocols/fm1200/fm1200.go:344-412 | the element is exactly what its format gives, a failed group being a bad packet |
| Fm1200Parser.ParseGpsElement | internal/protocols/fm1200/fm1200.go:589-630 | the raw signed coordinates and the other fields in order |
| Fm1200Parser.ReadSingleRecord | internal/protocols/fm1200/fm1200.go:311-342 | one record is exactly what its format gives |
| Fm1200Parser.RecordSteps | internal/protocols/fm1200/fm1200.go:311-342 | the source's reading order of a record is the composed format |
| Fm1200Parser.ParseDataToRecord | internal/protocols/fm1200/fm1200.go:274-309 | the loop returns the announced number and exactly the records of the format, or its error |
| Fm1200Parser.ParseDeviceResponse | internal/protocols/fm1200/fm1200.go:732-778 | the reply text of a Codec 12 body, or the error of the field that is missing |
| Fm1200Parser.ParseData | internal/protocols/fm1200/fm1200.go:187-235 | the data of one frame decodes to what its codec's format gives |
| Fm1200Frames.AcceptedIff | internal/protocols/fm1200/fm1200.go:152-246 | a message is accepted exactly where a frame is read, its data parses and its checksum field matches |
| Fm1200Frames.FrameAccepted | internal/protocols/fm1200/fm1200.go:152-246 | such a frame is accepted and exactly dataLen + 12 bytes are taken, whatever the codec |
| Fm1200Frames.AcceptedIsFrame | internal/protocols/fm1200/fm1200.go:152-246 | nothing else is accepted |
| Fm1200Frames.CorruptionRejected | internal/protocols/fm1200/fm1200.go:237-246 | data whose checksum differs from the frame's is rejected |
| Fm1200.SortByTimestamp | internal/protocols/fm1200/fm1200.go:248-250 | the records end up sorted by timestamp and are a permutation of what they were |
| Fm1200.AckCountsBatch | internal/protocols/fm1200/fm1200.go:252-271 | the pushed batch holds every record of the packet and nothing else, and the ack is its size |
| Fm1200Laws.BatchMeans | internal/protocols/fm1200/fm1200.go:248-271 | the batch stored for accepted records holds what the bytes of each record mean, as often as it was sent and nothing else, ordered by timestamp |
| Fm1200.ValidateCrc | internal/protocols/fm1200/fm1200.go:662-665 | valid exactly if the field equals the checksum of the data |
| Fm1200.FM1200Protocol.ConsumeMessage | internal/protocols/fm1200/fm1200.go:152-272 | an accepted packet pushes exactly its sorted records and one ack; a rejected message pushes no record and no ack, and at most one reply, which is there exactly when Fm1200Laws.LeakIff says |
| Fm1200.FM1200Protocol.ConsumeStream | internal/protocols/fm1200/fm1200.go:63-113 | the store gets one sorted batch per packet in frame order, the device one ack per packet, and the result is nil only for a bare EOF |
| Fm1200.FM1200Protocol.PeekImei | internal/protocols/fm1200/fm1200.go:632-655 | the IMEI is read without taking anything; any length but 15 is an unknown protocol |
| Fm1200.FM1200Protocol.Login | internal/protocols/fm1200/fm1200.go:48-61 | ack 01 and 17 bytes to skip |
| Fm1200.FM1200Protocol.SendCommandToDevice | internal/protocols/fm1200/fm1200.go:669-730 | exactly one frame of the Codec 12 command is written, with its checksum |
| Fm1200Laws.RecordsAcceptedIff | internal/protocols/fm1200/fm1200.go:152-309 | records are accepted exactly where a frame with the right checksum stands whose data starts with them between two equal counts |
| Fm1200Laws.LoginIff | internal/protocols/fm1200/fm1200.go:48-61 | a device logs in exactly by 00 0F and fifteen bytes, which are its id; the ack is 01 and 17 bytes are skipped |
| Fm1200Laws.AnswerOnWire | internal/protocols/fm1200/fm1200.go:198-271 | by the bytes of a frame's data: first byte 0C means no ack and the text behind the seven-byte head for the store, any other the second byte, the number of records, as the four-byte ack and nothing for the store |
| Fm1200Laws.FrameErrors | internal/protocols/fm1200/fm1200.go:152-246 | the error of a message by where its bytes go wrong first: preamble, length, data, checksum |
| Fm1200Laws.BurstRejected | internal/protocols/fm1200/fm1200.go:237-246 | a frame whose data was hit by a burst of at most 16 bits is rejected, whatever it parses to |
| Fm1200Laws.LeakIff | internal/protocols/fm1200/fm1200.go:198-230 | a rejected message leaves a reply in the store exactly if the frame's data starts with a Codec 12 body with that text and the checksum behind the data is missing or wrong |
| Fm1200Laws.RecordsNeverLeak | internal/protocols/fm1200/fm1200.go:232-246 | a rejected message leaves at most one reply, and nothing at all unless its codec is 12 |
| Fm1200Laws.WrongChecksumLeaks | internal/protocols/fm1200/fm1200.go:218-230 | every frame around a reply with any wrong checksum is rejected as such and leaves its reply |
| Fm1200Laws.LeakExample | internal/protocols/fm1200/fm1200.go:218-230 | one such frame byte by byte |
| Fm1200Laws.WholeRun | internal/protocols/fm1200/fm1200.go:63-272 | any concatenation of well-formed frames is delivered whole and in order, with one ack per packet and none per reply, and ends in the wrapped EOF |
| Fm1200Laws.RunComesFromFrames | internal/protocols/fm1200/fm1200.go:63-272 | on any stream and from any position, what a run delivers came out of consecutive frames from there on |
| Fm1200Laws.Serve | internal/protocols/fm1200/fm1200.go:63-272 | on any stream the decoder takes consecutive frames with right checksums and stops at the first message that is rejected, returning its error or nil for a bare EOF, or whose ack cannot be written; store and device have got exactly the sorted batches, the replies with the one that leaked, and the acks, in order; what these are on the wire say Fm1200Laws.BatchMeans and Fm1200Laws.AnswerOnWire |
| Fm1200Ends.RecordEnds | internal/protocols/fm1200/fm1200.go:311-376 | reading a record reports a bare EOF exactly if 0, 8, 9, 13, 17, 19, 21, 22, 24 or 25 bytes of it are left, 26 instead of 25 in Codec 8E |
| Fm1200Ends.RecordErrors | internal/protocols/fm1200/fm1200.go:311-376 | a record that is not read is a bad packet once its number of properties is there, and before that an EOF between two fields and an unexpected one inside a field |
| Fm1200Ends.CountMismatch | internal/protocols/fm1200/fm1200.go:299-307 | records between two counts that differ are a bad packet |
| Fm1200Ends.BodyEndsIff | internal/protocols/fm1200/fm1200.go:190-309 | data is reported with a bare EOF exactly if it has fewer than two bytes, is a reply cut in front of one of its fields, or holds fewer whole records than announced and then one of these remainders, or all of them and no second count |
| Fm1200Laws.QuietEndIff | internal/protocols/fm1200/fm1200.go:91-100 | a message ends the loop with nil exactly if the stream stops right behind a preamble or a whole frame has such data |
| Fm1200Laws.EmptyFrameEndsTheRun | internal/protocols/fm1200/fm1200.go:168-194 | a frame with data length 0 ends the loop with nil, whatever follows it |
| Fm1200Laws.CommandRoundTrip | internal/protocols/fm1200/fm1200.go:669-778 | a sent command reads back as a reply with its text and its frame is consumed whole if length + 8 fits 32 bits; otherwise the frame is rejected |
| WanwayInfo.InfoAcceptedIff | internal/protocols/gt06/gt06.go:256-549 | which data is accepted, by message type, size and forbidden values; a GT06 device reads no time before its login |
| WanwayInfo.InfoMeans | internal/protocols/gt06/gt06.go:300-362 | accepted data of type 01 is a login with bytes 1 to 8 in lower-case hexadecimal but for the first digit, any other a report of its type and content |
| WanwayInfo.HeartbeatErrors | internal/protocols/gt06/gt06.go:425-483 | the error of heartbeat data: where it ends, the first invalid level, or what is too much |
| WanwayInfo.PositionErrors | internal/protocols/gt06/gt06.go:364-400 | a position that is too short is an EOF exactly if it ends between two fields, and a bad packet otherwise |
| WanwayInfo.AlarmErrors | internal/protocols/tr06/tr06.go:436-457 | the same for alarms, whose two invalid levels are bad packets as well |
| WanwayInfo.NoZone | internal/protocols/gt06/gt06.go:595-623 | a GT06 device that has not logged in gets a bad packet for every report whose time can be read |
| WanwayInfo.OtherErrors | internal/protocols/tr06/tr06.go:269-355 | the errors of empty data, short logins, transmissions, unknown types and the invalid type |
| WanwayInfo.FieldsFit | internal/protocols/tr06/tr06.go:357-423 | consecutive fields are read exactly if their widths fit what is left |
| WanwayPackets.PacketFraming | internal/protocols/gt06/gt06.go:165-235 | every accepted packet takes exactly the bytes its length announces in eight-bit arithmetic, L + 5 for a short packet with L of at least 4, and ends on 0D0A |
| WanwayPackets.PacketAccepted | internal/protocols/tr06/tr06.go:167-266 | a packet of either start, with any length field of its dialect, acceptable data and for TR06 the right checksum, is accepted and taken whole |
| WanwayPackets.PacketOnly | internal/protocols/tr06/tr06.go:167-266 | nothing else is accepted; for TR06 that includes the checksum over length, data and serial number |
| WanwayPackets.MismatchRejected | internal/protocols/tr06/tr06.go:250-264 | TR06 rejects a checksum that does not belong to what it covers as a bad checksum, unless the data is refused before |
| WanwayPackets.GT06IgnoresChecksum | internal/protocols/gt06/gt06.go:237-253 | GT06 accepts any checksum |
| WanwayWire.PacketLayout | internal/protocols/tr06/tr06.go:151-267 | a packet byte by byte: 7878 and one length byte, 7979 and two (GT06) or none (TR06), data, serial number, checksum, 0D0A |
| WanwayWire.SendableIff | internal/protocols/tr06/tr06.go:151-267 | which packets are received from a logged-in device, by literal ranges, types, sizes and, for TR06, the checksum over length byte, data and serial number |
| WanwayWire.ReceivedAs | internal/protocols/tr06/tr06.go:151-297 | each field of a received packet is the one that was sent, its type the first byte of its data |
| WanwayWire.RejectedBy | internal/protocols/tr06/tr06.go:151-267 | a packet that stands written out is refused for its data, with that error, then for its checksum, and otherwise accepted and taken whole |
| WanwayWire.HeadCutOff | internal/protocols/gt06/gt06.go:165-201 | the error of a packet that ends in its start bits, its length or its data |
| WanwayWire.AckedIff | internal/protocols/gt06/gt06.go:107-113 | in both dialects a received packet is answered exactly if its type is 13, by one ack of ten bytes spelled out, which reads as the head of a packet of that type with its serial number |
| WanwayWire.LoginIff | internal/protocols/gt06/gt06.go:55-98 | a device logs in exactly by a packet of type 01 with its bytes in place; who it is and which ten bytes answer it follow from these |
| WanwayWire.LoginAcked | internal/protocols/gt06/gt06.go:122-145 | the ack of a login reads as the head of a packet of type 01 with the login's serial number |
| WanwayWire.ReportIsNoLogin | internal/protocols/tr06/tr06.go:97-100 | an acceptable packet of another type is an invalid login |
| WanwayWire.HeartbeatAnswered | internal/protocols/gt06/gt06_test.go:111 | the test's heartbeat is received and answered 78 78 05 13 00 0F 00 8F 0D 0A |
| Wanway.AckRoundTrip | internal/protocols/gt06/gt06.go:122-145 | ten bytes are the ack of a message type and serial number exactly if, in both dialects, they read as the head of a packet with that type as its data and a trailer with that serial number, the checksum over these and the stop bits |
| Wanway.AckRejected | internal/protocols/tr06/tr06.go:125-149 | no ack is accepted as a packet: its one byte of data parses for no message type |
| Wanway.BurstRejected | internal/protocols/tr06/tr06.go:250-264 | TR06 rejects a packet of either form whose data or serial number was hit by a burst of at most 16 bits |
| Wanway.StreamStaysAligned | internal/protocols/gt06/gt06.go:100-120 | a stream of acceptable packets of any types and of both starts, with one or two length bytes or none, is delivered in order, each heartbeat acked with its serial number as WanwayWire.AckedIff spells out, and nothing is left over |
| Wanway.RunComesFromPackets | internal/protocols/tr06/tr06.go:103-123 | on any stream, what a run delivers came out of consecutive acceptable packets from its start on |
| Wanway.Serve | internal/protocols/gt06/gt06.go:100-120 | on any stream the decoder takes consecutive acceptable packets and stops at the first that is rejected, with its error, or whose ack cannot be written; store and device have got exactly their statuses and the acks of their heartbeats, in order; which packets these are and which bytes answer them say WanwayWire.SendableIff, ReceivedAs and AckedIff |
| Wanway.LoginErrors | internal/protocols/gt06/gt06.go:55-98 | past its header a login never reports an unknown protocol, and an id has 15 characters |
| Wanway.WanwayProtocol.ParseHead | internal/protocols/gt06/gt06.go:165-201 | start bits, the two length forms of each dialect, and the data |
| Wanway.WanwayProtocol.ParseTail | internal/protocols/tr06/tr06.go:220-266 | serial number, checksum and stop bits, with the checksum compared by TR06 only |
| Wanway.WanwayProtocol.ConsumePacket | internal/protocols/gt06/gt06.go:283-298 | the loop over an invalid packet ends well exactly if the stop bits follow, and in an EOF otherwise |
| Wanway.WanwayProtocol.ParseGPSInformation | internal/protocols/gt06/gt06.go:551-623 | six bytes of time, which a GT06 device without a login cannot read, then satellites, coordinates, speed and course; every error but EOF becomes a bad packet |
| Wanway.WanwayProtocol.ParsePositioningData | internal/protocols/gt06/gt06.go:364-400 | GPS and cell information, and for GT06 four fields more, are read one after another or the first error is reported |
| Wanway.WanwayProtocol.ParseStatusInformation | internal/protocols/tr06/tr06.go:666-698 | six bytes are read, the signal strength twice, and the two invalid values are refused |
| Wanway.WanwayProtocol.ParseHeartbeatData | internal/protocols/gt06/gt06.go:425-483 | five bytes with two valid levels and nothing behind them, or the error of the first that is wrong |
| Wanway.WanwayProtocol.ParseLoginInformation | internal/protocols/gt06/gt06.go:324-362 | the id is the hexadecimal of eight bytes without its first digit; GT06 reads type and zone as well |
| Wanway.WanwayProtocol.ParsePacketData | internal/protocols/gt06/gt06.go:256-322 | reading type and information through one advancing reader gives the information whose acceptance WanwayInfo.InfoAcceptedIff decides by size and values, or its error |
| Wanway.WanwayProtocol.ParsePacket | internal/protocols/tr06/tr06.go:151-267 | the packet is what the specification says, and the reader stands after it |
| Wanway.WanwayProtocol.SendResponse | internal/protocols/gt06/gt06.go:122-145 | exactly the ten bytes of the ack are written |
| Wanway.WanwayProtocol.AckAndStore | internal/protocols/tr06/tr06.go:111-121 | the ack, where WanwayWire.AckedIff asks for one, comes first; a packet whose ack fails is not stored |
| Wanway.WanwayProtocol.ConsumeStream | internal/protocols/tr06/tr06.go:103-123 | acks, pushes and final error are those of the run, in order |
| Wanway.WanwayProtocol.Login | internal/protocols/tr06/tr06.go:55-101 | a foreign header leaves the stream alone; a login packet is taken whole and acked |
| IntellitracWire.ImeiFaithful | internal/protocols/intellitrac_a/intellitrac.go:486-491 | a device id has at least 15 digits and reads back as the modem's number |
| IntellitracWire.ImeiIff | internal/protocols/intellitrac_a/intellitrac.go:486-491 | a device id is the one string of decimal digits for its modem's number with fifteen digits, or more and no zero in front |
| IntellitracWire.ImeiInjective | internal/protocols/intellitrac_a/intellitrac.go:105 | different modems never share an id |
| IntellitracWire.MessageSound | internal/protocols/intellitrac_a/intellitrac.go:136-177 | an accepted message stands written out and all its bytes are taken |
| IntellitracWire.MessageComplete | internal/protocols/intellitrac_a/intellitrac.go:136-177 | a message that stands written out is accepted |
| IntellitracWire.MessageLayout | internal/protocols/intellitrac_a/intellitrac.go:136-177 | every field at its place |
| IntellitracWire.MessageLength | internal/protocols/intellitrac_a/intellitrac.go:159-484 | positions take 16 + n bytes, texts 26 + n, responses 6 + n |
| IntellitracWire.AnswerOnWire | internal/protocols/intellitrac_a/intellitrac.go:159-197 | by the bytes of a message: a position or a text is answered with its own first three bytes, which hold its transaction, and 03 00 00; a response with nothing, and what follows its six-byte head goes to the store |
| IntellitracWire.StoredOnWire | internal/protocols/intellitrac_a/intellitrac.go:179-187 | a message is stored exactly if it is of type 00 02, its message id is not 00 AB and 46 bytes of data follow |
| IntellitracWire.UnsupportedIff | internal/protocols/intellitrac_a/intellitrac.go:146-156 | a message is unsupported exactly if its third and fourth byte are none of the three kinds |
| IntellitracWire.CutOff | internal/protocols/intellitrac_a/intellitrac.go:136-177 | the error of a message that is cut off, by its kind and where |
| IntellitracPosition.AltitudeIsSigned | internal/protocols/intellitrac_a/intellitrac.go:221-227 | widening the three altitude bytes gives the 24-bit two's complement number |
| IntellitracPosition.PositionIff | internal/protocols/intellitrac_a/intellitrac.go:199-278 | data of at least 46 bytes decodes to given fields exactly if its first 46 bytes spell them out one after another, each within its width |
| IntellitracPosition.StatusMeans | internal/protocols/intellitrac_a/types.go:93-118 | the status has those fields, the ignition bit and the odometer in thousands, which fits 32 signed bits |
| IntellitracWire.StreamStaysAligned | internal/protocols/intellitrac_a/intellitrac.go:120-157 | a stream of messages is delivered in order, each position and text acked once with its own transaction as AnswerOnWire spells out, one response per AT response |
| Intellitrac.IntelliTracAProtocol.Login | internal/protocols/intellitrac_a/intellitrac.go:45-118 | a heartbeat of 22 or 8 bytes is taken and acked; anything else is left alone |
| Intellitrac.LoginOnWire | internal/protocols/intellitrac_a/intellitrac.go:45-118 | a device logs in exactly by 22 bytes with 00 02 at the third, or else 8 bytes starting FA F8; its id is the modem in eight or four bytes behind these, and the ack repeats the two bytes of its transaction before 00 03 00 00 |
| Intellitrac.InvalidIff | internal/protocols/intellitrac_a/intellitrac.go:56-93 | a heartbeat is invalid exactly if it starts like one of the two and is too short |
| Intellitrac.PushedOnWire | internal/protocols/intellitrac_a/intellitrac.go:179-187 | the status that a message pushes, under which condition on its bytes |
| Intellitrac.IntelliTracAProtocol.ReadPosition | internal/protocols/intellitrac_a/intellitrac.go:159-177 | twelve bytes at once for modem, message id and length, then the data, or the first read error |
| Intellitrac.IntelliTracAProtocol.ReadText | internal/protocols/intellitrac_a/intellitrac.go:412-437 | length, modem, text and twelve bytes of time, or the first read error |
| Intellitrac.IntelliTracAProtocol.ReadMessage | internal/protocols/intellitrac_a/intellitrac.go:136-157 | the message is what the specification says, and the reader stands after it |
| Intellitrac.IntelliTracAProtocol.HandlePositionalData | internal/protocols/intellitrac_a/intellitrac.go:199-308 | with 46 bytes every index is in range, and exactly one status is pushed, with the fields at their offsets |
| Intellitrac.IntelliTracAProtocol.HandleMessage | internal/protocols/intellitrac_a/intellitrac.go:179-196 | a decoded status is pushed exactly for positions with id other than 0xAB and at least 46 bytes, then one ack; responses are passed on without one |
| Intellitrac.IntelliTracAProtocol.ConsumeStream | internal/protocols/intellitrac_a/intellitrac.go:120-134 | statuses, responses, acks and final error are those of the run, in order |
| Intellitrac.Serve | internal/protocols/intellitrac_a/intellitrac.go:120-134 | on any stream the decoder takes consecutive messages and stops at the first that is rejected, with its error, or whose ack cannot be written; store and device have got exactly their statuses, responses and acks, in order; what these are on the wire say PushedOnWire and IntellitracWire.AnswerOnWire |
| Obdii2g.SplitJoin | internal/protocols/obdii2g/types.go:262 | splitting a line loses nothing |
| Obdii2g.SplitParts | internal/protocols/obdii2g/types.go:262 | no field has a comma in it |
| Obdii2g.JoinSplit | internal/protocols/obdii2g/types.go:262 | fields without commas are what their join splits into |
| Obdii2g.IdentityAgrees | internal/protocols/obdii2g/obdii2g.go:48-88 | whenever login succeeds and the first line is accepted, the line's IMEI is the one logged in with |
| Obdii2g.LoginIff | internal/protocols/obdii2g/obdii2g.go:48-88 | a stream of at least 40 bytes logs in exactly if it starts with $$, text without commas, a comma, fifteen bytes without commas and a comma, all within 40 bytes; the id is the fifteen bytes, the ack is empty and nothing is skipped |
| Obdii2g.LoginErrors | internal/protocols/obdii2g/obdii2g.go:50-83 | the error of every other stream |
| Obdii2g.ParseIff | internal/protocols/obdii2g/types.go:262-279 | a line is accepted exactly if it is at least 22 fields without commas, joined, with a time as the sixth, and its IMEI is the second |
| Obdii2g.LineIff | internal/protocols/obdii2g/obdii2g.go:101 | a line is everything up to and with the next 0A |
| Obdii2g.LinesCoverStream | internal/protocols/obdii2g/obdii2g.go:101-108 | the lines read are all of the stream but a last piece without a newline |
| Obdii2g.AquilaOBDII2GProtocol.Login | internal/protocols/obdii2g/obdii2g.go:48-88 | the search over peeked bytes takes nothing, slices stay in range, and every failure has its error; which streams log in is Obdii2g.LoginIff |
| Obdii2g.AquilaOBDII2GProtocol.ReadLine | internal/protocols/obdii2g/obdii2g.go:101-108 | up to and with the next newline |
| Obdii2g.DeliveredAre | internal/protocols/obdii2g/obdii2g.go:90-139 | whatever the full channel drops, what is stored is a subsequence of the packets of the accepted lines; with room it is all of them, and without any it is none |
| Obdii2g.AquilaOBDII2GProtocol.ConsumeStream | internal/protocols/obdii2g/obdii2g.go:90-139 | the store gets the packets of the accepted lines in order, but for those whose channel stayed full; EOF and timeouts end without an error |
| IButton.ReverseInPlace | internal/protocols/fm1200/types.go:283-285 | the bytes end up in reverse order |
| IButton.ConvertDecimalToHexAndReverse | internal/protocols/fm1200/types.go:266-291 | print, decode, reverse and encode give the text of the number |
| IButton.TextReadsBack | internal/protocols/fm1200/types.go:266-291 | zero has no text; that of any other number has 16 digits and, least significant byte first, reads back as the number |
| IButton.TextDigits | internal/protocols/fm1200/types.go:266-291 | each pair of lower-case digits is one byte of the number, the least significant first |
| IButton.TextInjective | internal/protocols/fm1200/types.go:266-291 | different numbers have different texts |
| HexText.DecodeEncode | internal/protocols/fm1200/types.go:276-288 | decoding what was encoded gives the bytes back |
| Dispatch.ChosenIff | internal/handlers/tcpHandler.go:237-290 | a protocol is chosen exactly if it logs the device in and every earlier one calls the stream unknown |
| Dispatch.HeaderDecides | internal/handlers/tcpHandler.go:237-293 | the first four bytes decide who takes the stream, and then only that protocol's login counts |
| Dispatch.UnknownIff | internal/handlers/handlers.go:12 | each of the five protocols calls a stream unknown exactly if its own header is missing |
| Dispatch.IdNotEmpty | internal/handlers/tcpHandler.go:261-267 | a device that logs in has an id of at least 15 characters |
| Dispatch.TR06NeverChosen | internal/handlers/handlers.go:12 | TR06 never wins |
| Dispatch.TryLogin | internal/handlers/tcpHandler.go:247-258 | a login that is moved past has taken nothing; after a success and the skip the reader stands where the protocol's stream begins |
| Dispatch.StartAfterLogin | internal/handlers/tcpHandler.go:261-272 | the stream begins 22 or 8 bytes behind a heartbeat, 17 behind an FM1200 id, and where an OBDII2G login was peeked |
| Dispatch.StartAfterPacket | internal/handlers/tcpHandler.go:261-272 | the stream of a GT06 or TR06 device begins right behind its login packet |
| Dispatch.AttemptDeviceLogin | internal/handlers/tcpHandler.go:229-294 | every attempt sees the original stream, the first match in order wins, and its device is verified as Dispatch.RemoteIff and Dispatch.LocalAnswer say |
| Dispatch.VerifiedType | internal/handlers/tcpHandler.go:192-209 | a verified device has one of its own protocol's types, and a remote answer named this id and type |
| Dispatch.RemoteIff | internal/handlers/tcpHandler.go:195-208 | a remote answer admits a device with a type exactly if it names the device's id and that type and the type may speak the protocol, for each protocol by name; a remote error is passed on, any other answer is unauthorised |
| Dispatch.LocalAnswer | internal/protocols/protocol.go:63-80 | the type that local storage gives a device of each protocol; GT06 and TR06 get each other's |
| Registry.TcpHandler.Register | internal/handlers/tcpHandler.go:67-79 | both maps get the connection's entry, the second only under a non-empty id |
| Registry.TcpHandler.AttachStore | internal/handlers/tcpHandler.go:128-131 | the store map gets the connection's entry |
| Registry.TcpHandler.DeleteFirst | internal/handlers/tcpHandler.go:119-125 | in whatever order the map is walked, at most one entry goes, and it is the connection's |
| Registry.TcpHandler.CleanUp | internal/handlers/tcpHandler.go:106-126 | no entry of the connection is left in any map and no other is touched |
| Registry.InvGivesOneImeiEach | internal/handlers/tcpHandler.go:119-125 | each connection appears under its own id only, so the break after the first deletion loses nothing |
| Registry.NextKeepsInv | internal/handlers/tcpHandler.go:67-131 | every critical section of every handler keeps the registry right |
| Registry.AlwaysRight | internal/handlers/tcpHandler.go:67-131 | every state of every interleaving is right |
| Registry.LookupIff | internal/handlers/tcpHandler.go:298-301 | an id leads to a connection exactly if that one is its latest registrant and has not cleaned up; the protocol found is the connection's own, has this id, and agrees with the protocol map |
| Registry.NothingLeaks | internal/handlers/tcpHandler.go:106-126 | once every handler has ended all three maps are empty |
| Registry.OlderConnectionLost | internal/handlers/tcpHandler.go:119-125 | when the newer of two live connections with one id ends, the older one can no longer be found |
| Registry.LostInARun | internal/handlers/tcpHandler.go:67-126 | for every id, a run of two connections that log in with it ends with the first one served and not found |
| AsyncStore.StepKeepsInv | internal/store/remoteRpcStore.go:34-76 | every step of every goroutine keeps queues, histories and close channels right, and none of the handler's sends or closes panics |
| AsyncStore.SavesArePrefix | internal/store/remoteRpcStore.go:34-53 | saved, in flight and queued together are what was pushed, in order and each once |
| AsyncStore.CloseSendsNeverBlock | internal/handlers/tcpHandler.go:106-110 | the handler's close sends never wait and never meet a closed channel, for both stores |
| AsyncStore.ReturnedEarlyIff | internal/store/jsonLinesStore.go:55-69 | the Response loop may have returned after the first close send alone in a JSON store, and in no other |
| AsyncStore.TakenByTheOther | internal/store/jsonLinesStore.go:39-69 | a reachable state in which it has, and the Process loop cannot return yet |
| AsyncStore.CancelAddsNothing | internal/store/remoteRpcStore.go:34-76 | the context stops a loop only after the handler's end, when its close channel would stop it, too |
| AsyncStore.PushesAreDrained | internal/store/jsonLinesStore.go:39-53 | while the decoder pushes, a push waits exactly for a queue of 200, and a full queue always has a consumer step that can be taken |
| AsyncStore.NoDeadlock | internal/store/jsonLinesStore.go:55-69 | after the stream has ended some goroutine can always go on until all have returned, although both JSON loops share one close channel |
| AsyncStore.EveryStepCounts | internal/store/jsonLinesStore.go:39-69 | after the stream has ended every step of any goroutine lowers the measure |
| AsyncStore.ShutdownTerminates | internal/handlers/tcpHandler.go:106-126 | in every schedule the shutdown takes at most as many steps as the measure of the remaining queues, and then all three goroutines have returned |
| AsyncStore.AtTheEnd | internal/store/remoteRpcStore.go:44-50 | in the end only the last pushes, at most a queue's worth, can be missing from what was saved |
| AsyncStore.StopsAnywhere | internal/store/remoteRpcStore.go:36-51 | the loop may return with any number of the queued statuses saved, from none to all |
| AsyncStore.NoStatusLostIff | internal/store/remoteRpcStore.go:34-51 | once the stream has ended, every schedule saves every pushed status exactly if none is queued then, for both stores |
| AsyncStore.NoResponseLostIff | internal/store/jsonLinesStore.go:55-69 | the same for responses |
| AsyncStore.AnyPrefixMayBeAll | internal/store/jsonLinesStore.go:39-69 | from the start, for both stores: for any statuses and responses that fit the queues and any number of each, some whole run pushes all and saves just that many of each |

## Left out

- Sockets, deadlines, tickers, sleeps, gRPC, WebSocket, HTTP, file writes and logging: reads fail with
  the source's error, and writes fail once a writer's budget is used up.
- Failures of setting a deadline, which end a connection before or inside the FM1200 loop.
- Field conversion to protobuf statuses, coordinates and speeds as floating point, dates and time
  zones: statuses carry raw integers and bytes.
- Terminal-information flags, GPS fields and other decoded contents of GT06 and TR06 reports: only
  the bytes they take and the values they refuse are modelled.
- OBD parameter values (scaling of PIDs) and the fields of an OBDII2G line other than the IMEI; the
  time check of a line, and whether the channel takes its packet within 100 ms, are parameters.
- The IntelliTrac ASCII stream and the command methods of the protocols other than FM1200.
- Howen, whose content is JSON decoding.
- Data races: `GetConnInfoByIMEI` reads without the lock; here every map access is one atomic step.
- Panics inside a save call, which the goroutine recovers from by ending.
- Sizes of real memory: `io.ReadFull` into a buffer of the announced length always has one.
- Registry: connections that are open at one time are assumed to have different remote addresses, and
  a store is assumed to be made for each.
- Fm1200.SortByTimestamp: the library's sort is modelled by an insertion sort; only what both promise,
  a sorted permutation, is used.
- Reads through a buffered reader never fail for lack of buffer space; the largest peek is 40 bytes.
- IntellitracPosition.StatusMeans: the record's other fields (fix quality, inputs, clocks) are decoded,
  but the source only logs them; their scaling is not modelled.
