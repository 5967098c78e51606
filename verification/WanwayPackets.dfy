/**
 GT06 and TR06 packets.

 `PacketAt` is what parsePacket makes of the bytes at a position. It takes the parser of the data and
 the checksum as parameters; nothing here depends on them.
 */
module WanwayPackets {
  import opened Bytes
  import opened Streams
  import opened WanwayInfo

  const STOP_BITS := 0x0D0A

  datatype Packet = Packet(start: nat, length: nat, messageType: byte, info: Info, serial: nat, crc: nat)

  /** A device as far as its packets go: dialect, data parser, checksum. */
  datatype Device = Device(kind: Kind, parse: seq<byte> -> Result<Info>, crc: seq<byte> -> nat)

  /** What the checksum of a packet covers: its length byte, its data and its serial number. */
  function Covered(length: nat, data: seq<byte>, serial: nat): seq<byte> {
    ToBE(length, 1) + data + ToBE(serial, 2)
  }

  /**
   The length byte. After 0x7979 a GT06 packet has two bytes, of which the low one is kept, and a
   TR06 packet has none, which leaves the length at 0.
   */
  function LengthAt(kind: Kind, start: nat, s: Source, p: nat): Parsed<nat> {
    if start == 0x7878 then ReadUint(s, p, 1)
    else if start != 0x7979 then Fail(Wrapped(BadDataPacket))
    else if kind.TR06? then Ok(0, p)
    else match ReadUint(s, p, 2) case Fail(e) => Fail(e) case Ok(length, next) => Ok(length % 256, next)
  }

  /** How many bytes hold the length. */
  function LengthSize(kind: Kind, start: nat): nat {
    if start == 0x7878 then 1 else if kind.GT06? then 2 else 0
  }

  /** The size of the data, in the eight-bit arithmetic of the source. */
  function DataSize(length: nat): nat {
    (length + 252) % 256
  }

  datatype Head = Head(start: nat, length: nat, data: seq<byte>)

  /** Start bits, length and data. */
  function HeadAt(kind: Kind, s: Source, p: nat): (r: Parsed<Head>)
    ensures r.Ok? ==>
      && p + 2 + LengthSize(kind, r.value.start) + DataSize(r.value.length) == r.next <= |s.data|
      && |r.value.data| == DataSize(r.value.length)
      && r.value.start in {0x7878, 0x7979}
  {
    match ReadUint(s, p, 2) case Fail(e) => Fail(e) case Ok(start, p1) =>
    match LengthAt(kind, start, s, p1) case Fail(e) => Fail(e) case Ok(length, p2) =>
    match ReadBytes(s, p2, DataSize(length)) case Fail(e) => Fail(e) case Ok(data, p3) =>
    Ok(Head(start, length, data), p3)
  }

  /** Serial number, checksum and stop bits. */
  function TrailerAt(s: Source, p: nat): (r: Parsed<(nat, nat)>)
    ensures r.Ok? ==> p + 6 == r.next <= |s.data| && At(s, p + 4, [0x0d, 0x0a])
  {
    TrailerEnds(s, p);
    match ReadUint(s, p, 2) case Fail(e) => Fail(e) case Ok(serial, p1) =>
    match ReadUint(s, p1, 2) case Fail(e) => Fail(e) case Ok(crc, p2) =>
    match ReadUint(s, p2, 2) case Fail(e) => Fail(e) case Ok(stop, p3) =>
    if stop == STOP_BITS then Ok((serial, crc), p3) else Fail(Wrapped(BadDataPacket))
  }

  lemma TrailerEnds(s: Source, p: nat)
    ensures ReadUint(s, p + 4, 2).Ok? && ReadUint(s, p + 4, 2).value == STOP_BITS ==> At(s, p + 4, [0x0d, 0x0a])
  {
    if ReadUint(s, p + 4, 2).Ok? {
      StopIff(s, p + 4, ReadUint(s, p + 4, 2).next);
    }
  }

  lemma StopIff(s: Source, p: nat, next: nat)
    ensures ReadUint(s, p, 2) == Ok(STOP_BITS, next) <==> At(s, p, [0x0d, 0x0a]) && next == p + 2
  {
    BEWidths();
    ReadUintAt(s, p, 2, STOP_BITS, next);
    assert ToBE(STOP_BITS, 2) == [0x0d, 0x0a];
  }

  /** Only TR06 compares the checksum. */
  predicate ChecksumPasses(device: Device, length: nat, data: seq<byte>, serial: nat, crc: nat) {
    device.kind.TR06? ==> crc == device.crc(Covered(length, data, serial))
  }

  function FirstByte(data: seq<byte>): byte {
    if data == [] then 0 else data[0]
  }

  function TailAt(device: Device, head: Head, info: Info, s: Source, p: nat): Parsed<Packet> {
    match TrailerAt(s, p) case Fail(e) => Fail(e) case Ok((serial, crc), next) =>
    if ChecksumPasses(device, head.length, head.data, serial, crc)
    then Ok(Packet(head.start, head.length, FirstByte(head.data), info, serial, crc), next)
    else Fail(BadCrc)
  }

  function PacketAt(device: Device, s: Source, p: nat): (r: Parsed<Packet>)
    ensures r.Ok? ==> p + 8 <= r.next <= |s.data|
  {
    match HeadAt(device.kind, s, p) case Fail(e) => Fail(e) case Ok(head, p1) =>
    match device.parse(head.data) case Failure(e) => Fail(e) case Success(info) =>
    TailAt(device, head, info, s, p1)
  }

  lemma ShortLength(kind: Kind, s: Source, p: nat)
    requires HeadAt(kind, s, p).Ok? && HeadAt(kind, s, p).value.start == 0x7878
    ensures HeadAt(kind, s, p).value.length < 256
  {
    BEWidths();
    FromBEBound(s.data[p + 2..p + 3]);
  }

  /** Every accepted packet takes exactly the bytes its length announces, and ends on the stop bits. */
  lemma PacketFraming(device: Device, s: Source, p: nat)
    requires PacketAt(device, s, p).Ok?
    ensures var r := PacketAt(device, s, p);
      && r.next == p + 2 + LengthSize(device.kind, r.value.start) + DataSize(r.value.length) + 6
      && At(s, r.next - 2, [0x0d, 0x0a])
    ensures var r := PacketAt(device, s, p);
      r.value.start == 0x7878 && r.value.length >= 4 ==> r.next == p + r.value.length + 5
  {
    if HeadAt(device.kind, s, p).value.start == 0x7878 {
      ShortLength(device.kind, s, p);
    }
  }

  // ----- Packets as bytes -----

  /** A packet as it is written: `length` fills the bytes that this start has for it. */
  datatype Written = Written(start: nat, length: nat, data: seq<byte>, serial: nat, crc: nat)

  /** The length says how much data there is; its low byte alone counts. */
  predicate Framed(kind: Kind, start: nat, length: nat, data: seq<byte>) {
    start in {0x7878, 0x7979} && length < Pow256(LengthSize(kind, start)) && |data| == DataSize(length % 256)
  }

  function HeadBytes(kind: Kind, start: nat, length: nat, data: seq<byte>): (b: seq<byte>)
    ensures |b| == 2 + LengthSize(kind, start) + |data|
  {
    ToBE(start, 2) + (ToBE(length, LengthSize(kind, start)) + data)
  }

  function TrailerBytes(serial: nat, crc: nat): (b: seq<byte>)
    ensures |b| == 6
  {
    ToBE(serial, 2) + (ToBE(crc, 2) + [0x0d, 0x0a])
  }

  /** Start bits, length, data, serial number, checksum, stop bits. */
  function Encode(kind: Kind, w: Written): (b: seq<byte>)
    ensures |b| == 8 + LengthSize(kind, w.start) + |w.data|
  {
    HeadBytes(kind, w.start, w.length, w.data) + TrailerBytes(w.serial, w.crc)
  }

  /** The short form that devices send and acks have: one length byte, which counts four more than the data. */
  function Short(data: seq<byte>, serial: nat, crc: nat): Written {
    Written(0x7878, |data| + 4, data, serial, crc)
  }

  lemma ShortFramed(kind: Kind, data: seq<byte>)
    requires |data| <= 251
    ensures Framed(kind, 0x7878, |data| + 4, data)
  {
    BEWidths();
  }

  lemma LengthRead(kind: Kind, start: nat, length: nat, s: Source, p: nat)
    requires start in {0x7878, 0x7979} && length < Pow256(LengthSize(kind, start))
    requires At(s, p, ToBE(length, LengthSize(kind, start)))
    ensures LengthAt(kind, start, s, p) == Ok(length % 256, p + LengthSize(kind, start))
  {
    BEWidths();
    ReadUintFrom(s, p, LengthSize(kind, start), length);
  }

  lemma LengthOnly(kind: Kind, start: nat, s: Source, p: nat) returns (length: nat)
    requires p <= |s.data| && LengthAt(kind, start, s, p).Ok?
    ensures start in {0x7878, 0x7979} && length < Pow256(LengthSize(kind, start))
    ensures At(s, p, ToBE(length, LengthSize(kind, start)))
    ensures LengthAt(kind, start, s, p) == Ok(length % 256, p + LengthSize(kind, start))
  {
    BEWidths();
    var n := LengthSize(kind, start);
    if n == 0 {
      length := 0;
    } else {
      length := ReadUint(s, p, n).value;
      ReadUintGives(s, p, n);
    }
  }

  lemma JoinHead(s: Source, p: nat, start: seq<byte>, length: seq<byte>, data: seq<byte>)
    ensures At(s, p, start + (length + data))
       <==> At(s, p, start) && At(s, p + |start|, length) && At(s, p + |start| + |length|, data)
  {
    AtSplit(s, p, start, length + data);
    AtSplit(s, p + |start|, length, data);
  }

  lemma HeadRead(kind: Kind, s: Source, p: nat, start: nat, length: nat, data: seq<byte>)
    requires Framed(kind, start, length, data) && At(s, p, HeadBytes(kind, start, length, data))
    ensures HeadAt(kind, s, p) == Ok(Head(start, length % 256, data), p + 2 + LengthSize(kind, start) + |data|)
  {
    BEWidths();
    JoinHead(s, p, ToBE(start, 2), ToBE(length, LengthSize(kind, start)), data);
    ReadUintFrom(s, p, 2, start);
    LengthRead(kind, start, length, s, p + 2);
    ReadBytesAt(s, p + 2 + LengthSize(kind, start), data);
  }

  lemma HeadOnly(kind: Kind, s: Source, p: nat) returns (length: nat)
    requires HeadAt(kind, s, p).Ok?
    ensures var h := HeadAt(kind, s, p).value;
      && Framed(kind, h.start, length, h.data) && h.length == length % 256
      && At(s, p, HeadBytes(kind, h.start, length, h.data))
      && HeadAt(kind, s, p).next == p + 2 + LengthSize(kind, h.start) + |h.data|
  {
    var h := HeadAt(kind, s, p).value;
    ReadUintGives(s, p, 2);
    length := LengthOnly(kind, h.start, s, p + 2);
    ReadBytesAt(s, p + 2 + LengthSize(kind, h.start), h.data);
    JoinHead(s, p, ToBE(h.start, 2), ToBE(length, LengthSize(kind, h.start)), h.data);
  }

  lemma ShortHeadIff(kind: Kind, s: Source, p: nat, data: seq<byte>)
    requires |data| <= 251
    ensures At(s, p, HeadBytes(kind, 0x7878, |data| + 4, data))
       <==> HeadAt(kind, s, p) == Ok(Head(0x7878, |data| + 4, data), p + 3 + |data|)
  {
    ShortFramed(kind, data);
    if At(s, p, HeadBytes(kind, 0x7878, |data| + 4, data)) {
      HeadRead(kind, s, p, 0x7878, |data| + 4, data);
    }
    if HeadAt(kind, s, p) == Ok(Head(0x7878, |data| + 4, data), p + 3 + |data|) {
      BEWidths();
      var length := HeadOnly(kind, s, p);
      assert length == |data| + 4;
    }
  }

  lemma TrailerIff(s: Source, p: nat, serial: nat, crc: nat)
    ensures TrailerAt(s, p) == Ok((serial, crc), p + 6)
       <==> serial < 0x1_0000 && crc < 0x1_0000 && At(s, p, TrailerBytes(serial, crc))
  {
    BEWidths();
    AtSplit(s, p, ToBE(serial, 2), ToBE(crc, 2) + [0x0d, 0x0a]);
    AtSplit(s, p + 2, ToBE(crc, 2), [0x0d, 0x0a]);
    ReadUintAt(s, p, 2, serial, p + 2);
    ReadUintAt(s, p + 2, 2, crc, p + 4);
    StopIff(s, p + 4, p + 6);
  }

  /** What fits a written packet's bytes. */
  predicate Fits(kind: Kind, w: Written) {
    Framed(kind, w.start, w.length, w.data) && w.serial < 0x1_0000 && w.crc < 0x1_0000
  }

  /** The pieces of a written packet are read one after the other. */
  lemma PacketParts(kind: Kind, s: Source, p: nat, w: Written)
    requires Fits(kind, w) && At(s, p, Encode(kind, w))
    ensures HeadAt(kind, s, p) == Ok(Head(w.start, w.length % 256, w.data), p + |Encode(kind, w)| - 6)
    ensures TrailerAt(s, p + |Encode(kind, w)| - 6) == Ok((w.serial, w.crc), p + |Encode(kind, w)|)
  {
    AtSplit(s, p, HeadBytes(kind, w.start, w.length, w.data), TrailerBytes(w.serial, w.crc));
    HeadRead(kind, s, p, w.start, w.length, w.data);
    TrailerIff(s, p + |Encode(kind, w)| - 6, w.serial, w.crc);
  }

  /** A packet that may be accepted: parsable data, and for TR06 the checksum that belongs to it. */
  predicate Acceptable(device: Device, w: Written, info: Info) {
    && Fits(device.kind, w) && device.parse(w.data) == Success(info)
    && ChecksumPasses(device, w.length % 256, w.data, w.serial, w.crc)
  }

  function Received(w: Written, info: Info): Packet {
    Packet(w.start, w.length % 256, FirstByte(w.data), info, w.serial, w.crc)
  }

  lemma PacketAccepted(device: Device, s: Source, p: nat, w: Written, info: Info)
    requires Acceptable(device, w, info) && At(s, p, Encode(device.kind, w))
    ensures PacketAt(device, s, p) == Ok(Received(w, info), p + |Encode(device.kind, w)|)
  {
    PacketParts(device.kind, s, p, w);
  }

  lemma TrailerOnly(s: Source, p: nat)
    requires TrailerAt(s, p).Ok?
    ensures var (serial, crc) := TrailerAt(s, p).value;
      serial < 0x1_0000 && crc < 0x1_0000 && At(s, p, TrailerBytes(serial, crc))
  {
    var (serial, crc) := TrailerAt(s, p).value;
    TrailerIff(s, p, serial, crc);
  }

  /** Nothing else is accepted. */
  lemma PacketOnly(device: Device, s: Source, p: nat) returns (w: Written)
    requires PacketAt(device, s, p).Ok?
    ensures var r := PacketAt(device, s, p);
      && Acceptable(device, w, r.value.info) && At(s, p, Encode(device.kind, w))
      && r.value == Received(w, r.value.info) && r.next == p + |Encode(device.kind, w)|
  {
    var x := PacketAt(device, s, p).value;
    var length := HeadOnly(device.kind, s, p);
    w := Written(x.start, length, HeadAt(device.kind, s, p).value.data, x.serial, x.crc);
    TrailerOnly(s, HeadAt(device.kind, s, p).next);
    AtSplit(s, p, HeadBytes(device.kind, w.start, w.length, w.data), TrailerBytes(x.serial, x.crc));
  }

  // ----- Acks -----

  /** The answer to a packet: its message type and serial number in a short packet of its own. */
  function AckBytes(crc: seq<byte> -> nat, messageType: byte, serial: nat): (b: seq<byte>)
    ensures |b| == 10
  {
    Encode(GT06, Short([messageType], serial, crc(Covered(5, [messageType], serial))))
  }

  lemma AckLayout(kind: Kind, crc: seq<byte> -> nat, messageType: byte, serial: nat)
    ensures AckBytes(crc, messageType, serial)
         == HeadBytes(kind, 0x7878, 5, [messageType]) + TrailerBytes(serial, crc(Covered(5, [messageType], serial)))
  {}

  /** What a packet that stands written out comes to, given what its data says. */
  function Outcome(device: Device, w: Written, info: Result<Info>, next: nat): Parsed<Packet> {
    match info
    case Failure(e) => Fail(e)
    case Success(i) =>
      if ChecksumPasses(device, w.length % 256, w.data, w.serial, w.crc) then Ok(Received(w, i), next) else Fail(BadCrc)
  }

  lemma PacketFrom(device: Device, s: Source, p: nat, q: nat, w: Written)
    requires HeadAt(device.kind, s, p) == Ok(Head(w.start, w.length % 256, w.data), q)
    requires TrailerAt(s, q) == Ok((w.serial, w.crc), q + 6)
    ensures PacketAt(device, s, p) == Outcome(device, w, device.parse(w.data), q + 6)
  {}

  lemma PacketOutcome(device: Device, s: Source, p: nat, w: Written)
    requires Fits(device.kind, w) && At(s, p, Encode(device.kind, w))
    ensures PacketAt(device, s, p) == Outcome(device, w, device.parse(w.data), p + |Encode(device.kind, w)|)
  {
    PacketParts(device.kind, s, p, w);
    PacketFrom(device, s, p, p + |Encode(device.kind, w)| - 6, w);
  }

  // ----- Corruption -----

  /** A TR06 packet whose checksum does not belong to what it covers is rejected, if not for its data then for that. */
  lemma MismatchRejected(device: Device, s: Source, p: nat, w: Written)
    requires device.kind.TR06? && Fits(TR06, w) && At(s, p, Encode(TR06, w))
    requires w.crc != device.crc(Covered(w.length % 256, w.data, w.serial))
    ensures PacketAt(device, s, p) == Fail(match device.parse(w.data) case Failure(e) => e case Success(_) => BadCrc)
  {
    PacketOutcome(device, s, p, w);
  }

  /** A GT06 packet is accepted with any checksum at all. */
  lemma GT06IgnoresChecksum(device: Device, s: Source, p: nat, w: Written, info: Info)
    requires device.kind.GT06? && Fits(GT06, w) && At(s, p, Encode(GT06, w)) && device.parse(w.data) == Success(info)
    ensures PacketAt(device, s, p) == Ok(Received(w, info), p + |Encode(GT06, w)|)
  {
    PacketAccepted(device, s, p, w, info);
  }
}
