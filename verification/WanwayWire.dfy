/** What GT06 and TR06 devices send and are answered, byte for byte. */
module WanwayWire {
  import opened Bytes
  import opened Streams
  import opened WanwayInfo
  import opened WanwayPackets
  import opened Wanway
  import CrcCases
  import CrcDivision
  import HexText

  // ----- Packets -----

  /** Serial number, checksum, stop bits. */
  function Tail(serial: nat, crc: nat): seq<byte>
    requires serial < 0x1_0000 && crc < 0x1_0000
  {
    [serial / 256, serial % 256, crc / 256, crc % 256, 0x0d, 0x0a]
  }

  /** The fields are in range and the length says how much data there is: four bytes less, modulo 256. */
  predicate InRange(kind: Kind, w: Written) {
    && w.serial < 0x1_0000 && w.crc < 0x1_0000 && |w.data| == (w.length % 256 + 252) % 256
    && ((w.start == 0x7878 && w.length < 0x100)
        || (w.start == 0x7979 && w.length < (if kind.GT06? then 0x1_0000 else 1)))
  }

  /** Start bits, the length in one byte, in two or in none, data, tail. */
  function PacketBytes(kind: Kind, w: Written): seq<byte>
    requires InRange(kind, w)
  {
    (if w.start == 0x7878 then [0x78, 0x78, w.length]
     else if kind.GT06? then [0x79, 0x79, w.length / 256, w.length % 256]
     else [0x79, 0x79])
    + w.data + Tail(w.serial, w.crc)
  }

  lemma FitsIff(kind: Kind, w: Written)
    ensures Fits(kind, w) <==> InRange(kind, w)
  {
    BEWidths();
  }

  lemma TailLayout(serial: nat, crc: nat)
    requires serial < 0x1_0000 && crc < 0x1_0000
    ensures TrailerBytes(serial, crc) == Tail(serial, crc)
  {
    TwoBytesOf(serial);
    TwoBytesOf(crc);
  }

  lemma HeadLayout(kind: Kind, w: Written)
    requires InRange(kind, w)
    ensures HeadBytes(kind, w.start, w.length, w.data) + Tail(w.serial, w.crc) == PacketBytes(kind, w)
  {
    TwoBytesOf(w.start);
    if w.start == 0x7878 {
      OneByte(w.length);
    } else if kind.GT06? {
      TwoBytesOf(w.length);
    }
  }

  /** How a packet is written. */
  lemma PacketLayout(kind: Kind, w: Written)
    requires InRange(kind, w)
    ensures Encode(kind, w) == PacketBytes(kind, w)
  {
    TailLayout(w.serial, w.crc);
    HeadLayout(kind, w);
  }

  // ----- Checksums -----

  /** The checksum of a packet: over its length byte, its data and its serial number. */
  function CheckOf(length: byte, data: seq<byte>, serial: nat): nat
    requires serial < 0x1_0000
  {
    CrcDivision.Wanway([length] + data + [serial / 256, serial % 256]) as nat
  }

  lemma CheckIs(length: byte, data: seq<byte>, serial: nat)
    requires serial < 0x1_0000
    ensures WanwayField(Covered(length, data, serial)) == CheckOf(length, data, serial) < 0x1_0000
  {
    OneByte(length);
    TwoBytesOf(serial);
  }

  /** A TR06 packet has the checksum that belongs to it; in a GT06 packet any will do. */
  predicate Checked(kind: Kind, w: Written) {
    kind.TR06? ==> w.serial < 0x1_0000 && w.crc == CheckOf(w.length % 256, w.data, w.serial)
  }

  lemma CheckedIff(device: Device, loggedIn: bool, w: Written)
    requires IsDevice(device, device.kind, loggedIn) && w.serial < 0x1_0000
    ensures ChecksumPasses(device, w.length % 256, w.data, w.serial, w.crc) <==> Checked(device.kind, w)
  {
    var covered := Covered(w.length % 256, w.data, w.serial);
    CheckIs(w.length % 256, w.data, w.serial);
    assert device.crc(covered) == WanwayField(covered);
  }

  /** Which packets a logged-in device can send: by their bytes alone. */
  lemma SendableIff(device: Device, w: Written)
    requires IsDevice(device, device.kind, true)
    ensures Sendable(device, w) <==> InRange(device.kind, w) && AcceptableData(device.kind, w.data) && Checked(device.kind, w)
  {
    FitsIff(device.kind, w);
    InfoAcceptedIff(device.kind, true, w.data);
    assert device.parse(w.data) == ParseInfo(device.kind, true, w.data);
    if w.serial < 0x1_0000 {
      CheckedIff(device, true, w);
    }
  }

  /** What is received of it: every field as it was sent, and what its data says. */
  lemma ReceivedAs(device: Device, w: Written)
    requires IsDevice(device, device.kind, true) && Sendable(device, w)
    ensures w.data != [] && (w.data[0] == 0x01 ==> |w.data| >= 9)
    ensures PacketOf(device, w)
         == Packet(w.start, w.length % 256, w.data[0],
                   if w.data[0] == 0x01 then LoginInfo(HexText.Encode(w.data[1..9], HexText.Lower)[1..])
                   else Report(w.data[0], w.data[1..]),
                   w.serial, w.crc)
  {
    assert device.parse(w.data) == ParseInfo(device.kind, true, w.data);
    InfoMeans(device.kind, true, w.data);
  }

  // ----- Acks -----

  /** Ten bytes: start bits, length 5, the message type and serial number answered, their checksum, stop bits. */
  function AckTo(messageType: byte, serial: nat): seq<byte>
    requires serial < 0x1_0000
  {
    [0x78, 0x78, 0x05, messageType] + Tail(serial, CheckOf(0x05, [messageType], serial))
  }

  lemma AckIs(device: Device, loggedIn: bool, messageType: byte, serial: nat)
    requires IsDevice(device, device.kind, loggedIn) && serial < 0x1_0000
    ensures AckBytes(device.crc, messageType, serial) == AckTo(messageType, serial)
  {
    var data := [messageType];
    var crc := CheckOf(0x05, data, serial);
    CheckIs(0x05, data, serial);
    assert device.crc(Covered(5, data, serial)) == WanwayField(Covered(5, data, serial)) == crc;
    AckWritten(Written(0x7878, 5, data, serial, crc), messageType);
  }

  lemma AckWritten(w: Written, messageType: byte)
    requires w.start == 0x7878 && w.length == 5 && w.data == [messageType] && w.serial < 0x1_0000 && w.crc < 0x1_0000
    ensures InRange(GT06, w) && Encode(GT06, w) == [0x78, 0x78, 0x05, messageType] + Tail(w.serial, w.crc)
  {
    PacketLayout(GT06, w);
    assert [0x78, 0x78, 0x05] + [messageType] == [0x78, 0x78, 0x05, messageType];
  }

  /**
   A packet that is received is answered exactly if its message type is 13: with one ack, which holds its type
   and its serial number and which either dialect reads as the envelope of a packet.
   */
  lemma AckedIff(device: Device, w: Written)
    requires IsDevice(device, device.kind, true) && Sendable(device, w)
    ensures w.data != [] && w.serial < 0x1_0000
    ensures |Acks(device, PacketOf(device, w))| == if w.data[0] == 0x13 then 1 else 0
    ensures w.data[0] == 0x13 ==> Acks(device, PacketOf(device, w)) == [AckTo(0x13, w.serial)]
    ensures w.data[0] == 0x13 ==> AnswersTo(device.kind, AckTo(0x13, w.serial), 0x13, w.serial)
  {
    ReceivedAs(device, w);
    if w.data[0] == 0x13 {
      AckIs(device, true, 0x13, w.serial);
      AckReads(device, true, 0x13, w.serial, AckTo(0x13, w.serial));
    }
  }

  /** The bytes of an ack, read as those of a packet. */
  predicate AnswersTo(kind: Kind, ack: seq<byte>, messageType: byte, serial: nat) {
    var s := Source(ack, EOF);
    && |ack| == 10 && HeadAt(kind, s, 0) == Ok(Head(0x7878, 5, [messageType]), 4)
    && TrailerAt(s, 4).Ok? && TrailerAt(s, 4).value.0 == serial
  }

  lemma AckReads(device: Device, loggedIn: bool, messageType: byte, serial: nat, ack: seq<byte>)
    requires IsDevice(device, device.kind, loggedIn) && serial < 0x1_0000 && ack == AckTo(messageType, serial)
    ensures AnswersTo(device.kind, ack, messageType, serial)
  {
    var s := Source(ack, EOF);
    AckIs(device, loggedIn, messageType, serial);
    assert At(s, 0, ack);
    AckRoundTrip(device, loggedIn, messageType, serial, s, 0);
  }

  // ----- Logins -----

  /** A login packet stands at `p`: type 01, at least eight bytes of id, and for GT06 two more fields. */
  predicate LoginPacket(kind: Kind, s: Source, p: nat, w: Written) {
    && InRange(kind, w) && At(s, p, PacketBytes(kind, w)) && Checked(kind, w)
    && |w.data| >= (if kind.GT06? then 13 else 9) && w.data[0] == 0x01
  }

  /** Who logs in by it, and what is answered. */
  predicate LogsIn(w: Written, id: seq<char>, ack: seq<byte>, skip: nat)
    requires |w.data| >= 9 && w.serial < 0x1_0000
  {
    id == HexText.Encode(w.data[1..9], HexText.Lower)[1..] && ack == AckTo(0x01, w.serial) && skip == 0
  }

  lemma LoginFrom(device: Device, s: Source, p: nat, w: Written, id: seq<char>, ack: seq<byte>, skip: nat)
    requires IsDevice(device, device.kind, false) && LoginPacket(device.kind, s, p, w) && LogsIn(w, id, ack, skip)
    ensures LoginAt(device, s, p) == LoggedIn(id, ack, skip)
  {
    var kind := device.kind;
    FitsIff(kind, w);
    PacketLayout(kind, w);
    CheckedIff(device, false, w);
    InfoAcceptedIff(kind, false, w.data);
    InfoMeans(kind, false, w.data);
    assert device.parse(w.data) == ParseInfo(kind, false, w.data);
    PacketAccepted(device, s, p, w, LoginInfo(id));
    AckIs(device, false, 0x01, w.serial);
    HeaderOf(kind, s, p, w, PacketBytes(kind, w));
  }

  lemma HeaderOf(kind: Kind, s: Source, p: nat, w: Written, b: seq<byte>)
    requires InRange(kind, w) && b == PacketBytes(kind, w) && At(s, p, b)
    ensures ValidHeader(s, p)
  {
    assert s.data[p] == s.data[p..p + |b|][0] == b[0] && s.data[p + 1] == s.data[p..p + |b|][1] == b[1];
    assert s.data[p..p + 2] == [s.data[p], s.data[p + 1]];
  }

  lemma LoginOnly(device: Device, s: Source, p: nat) returns (w: Written)
    requires IsDevice(device, device.kind, false) && LoginAt(device, s, p).LoggedIn?
    ensures LoginPacket(device.kind, s, p, w)
    ensures var r := LoginAt(device, s, p); LogsIn(w, r.id, r.ack, r.skip)
  {
    var kind := device.kind;
    w := PacketOnly(device, s, p);
    FitsIff(kind, w);
    PacketLayout(kind, w);
    CheckedIff(device, false, w);
    assert device.parse(w.data) == ParseInfo(kind, false, w.data);
    InfoAcceptedIff(kind, false, w.data);
    InfoMeans(kind, false, w.data);
    AckIs(device, false, 0x01, w.serial);
  }

  /** A device logs in exactly by such a packet. */
  lemma LoginIff(device: Device, s: Source, p: nat, id: seq<char>, ack: seq<byte>, skip: nat)
    requires IsDevice(device, device.kind, false)
    ensures LoginAt(device, s, p) == LoggedIn(id, ack, skip)
       <==> exists w :: LoginPacket(device.kind, s, p, w) && LogsIn(w, id, ack, skip)
  {
    if LoginAt(device, s, p) == LoggedIn(id, ack, skip) {
      var w := LoginOnly(device, s, p);
    }
    if w :| LoginPacket(device.kind, s, p, w) && LogsIn(w, id, ack, skip) {
      LoginFrom(device, s, p, w, id, ack, skip);
    }
  }

  /** The ack of a login is the envelope of a packet, too, with its type and serial number. */
  lemma LoginAcked(device: Device, s: Source, p: nat) returns (w: Written)
    requires IsDevice(device, device.kind, false) && LoginAt(device, s, p).LoggedIn?
    ensures LoginPacket(device.kind, s, p, w) && AnswersTo(device.kind, LoginAt(device, s, p).ack, 0x01, w.serial)
  {
    w := LoginOnly(device, s, p);
    AckReads(device, false, 0x01, w.serial, LoginAt(device, s, p).ack);
  }

  // ----- Rejections -----

  /** Of a packet that stands written out, its data is refused first, then, for TR06, its checksum. */
  lemma RejectedBy(device: Device, loggedIn: bool, s: Source, p: nat, w: Written, info: Result<Info>)
    requires IsDevice(device, device.kind, loggedIn) && InRange(device.kind, w) && At(s, p, PacketBytes(device.kind, w))
    requires info == ParseInfo(device.kind, loggedIn, w.data)
    ensures PacketAt(device, s, p)
         == if info.Failure? then Fail(info.error)
            else if !Checked(device.kind, w) then Fail(BadCrc)
            else Ok(Received(w, info.value), p + |PacketBytes(device.kind, w)|)
  {
    FitsIff(device.kind, w);
    PacketLayout(device.kind, w);
    CheckedIff(device, loggedIn, w);
    assert device.parse(w.data) == info;
    PacketOutcome(device, s, p, w);
  }

  /** An accepted packet that stands written out is taken whole. */
  lemma PacketTaken(device: Device, loggedIn: bool, s: Source, p: nat, w: Written)
    requires IsDevice(device, device.kind, loggedIn) && InRange(device.kind, w) && At(s, p, PacketBytes(device.kind, w))
    requires PacketAt(device, s, p).Ok?
    ensures PacketAt(device, s, p).next == p + |PacketBytes(device.kind, w)|
  {
    RejectedBy(device, loggedIn, s, p, w, ParseInfo(device.kind, loggedIn, w.data));
  }

  /** A packet that would be taken as a report does not log its device in. */
  lemma ReportIsNoLogin(device: Device, s: Source, p: nat, w: Written)
    requires IsDevice(device, device.kind, false) && InRange(device.kind, w) && At(s, p, PacketBytes(device.kind, w))
    requires Checked(device.kind, w) && AcceptableData(device.kind, w.data) && w.data[0] != 0x01
    requires device.kind.GT06? ==> w.data[0] !in {0x22, 0x26}
    ensures LoginAt(device, s, p) == LoginFailed(InvalidLogin)
  {
    InfoAcceptedIff(device.kind, false, w.data);
    InfoMeans(device.kind, false, w.data);
    RejectedBy(device, false, s, p, w, ParseInfo(device.kind, false, w.data));
    HeaderOf(device.kind, s, p, w, PacketBytes(device.kind, w));
  }

  /** Anything that is not one of the two start bits is a bad packet. */
  lemma BadStart(device: Device, s: Source, p: nat)
    requires p + 2 <= |s.data| && s.data[p..p + 2] !in {[0x78, 0x78], [0x79, 0x79]}
    ensures PacketAt(device, s, p) == Fail(Wrapped(BadDataPacket))
  {
    var b := s.data[p..p + 2];
    ToFromBE(b);
    TwoBytesOf(0x7878);
    TwoBytesOf(0x7979);
  }

  /** A head that is cut off: in its start bits, its length or its data. */
  lemma HeadCutOff(kind: Kind, s: Source, p: nat)
    requires p <= |s.data| && HeadAt(kind, s, p).Fail? && (p + 2 <= |s.data| ==> s.data[p..p + 2] in {[0x78, 0x78], [0x79, 0x79]})
    ensures HeadAt(kind, s, p)
         == Fail(Early(s, if p + 2 > |s.data| then p
                          else
                            var q := p + 2 + if s.data[p] == 0x78 then 1 else if kind.GT06? then 2 else 0;
                            if q > |s.data| then p + 2 else q))
  {
    if p + 2 <= |s.data| {
      StartOf(s.data[p..p + 2]);
    }
  }

  lemma StartOf(b: seq<byte>)
    requires b in {[0x78, 0x78], [0x79, 0x79]}
    ensures FromBE(b) == if b[0] == 0x78 then 0x7878 else 0x7979
  {
    assert b[..1] == [b[0]] && FromBE([b[0]]) == b[0];
  }

  /** A tail that is cut off, or does not end on the stop bits. */
  lemma TailCutOff(s: Source, p: nat)
    requires p <= |s.data| && TrailerAt(s, p).Fail?
    ensures TrailerAt(s, p)
         == Fail(if p + 6 <= |s.data| then Wrapped(BadDataPacket)
                 else Early(s, if p + 2 > |s.data| then p else if p + 4 > |s.data| then p + 2 else p + 4))
  {}

  // ----- An example -----

  lemma HeartbeatBytes(kind: Kind, w: Written)
    requires w == Written(0x7878, 0x0A, [0x13, 0x40, 0x04, 0x04, 0x00, 0x01], 0x000F, 0xDCEE)
    ensures InRange(kind, w)
    ensures PacketBytes(kind, w)
         == [0x78, 0x78, 0x0A, 0x13, 0x40, 0x04, 0x04, 0x00, 0x01, 0x00, 0x0F, 0xDC, 0xEE, 0x0D, 0x0A]
  {}

  lemma HeartbeatChecks(data: seq<byte>, serial: nat)
    requires data == [0x13, 0x40, 0x04, 0x04, 0x00, 0x01] && serial == 0x000F
    ensures CheckOf(0x0A, data, serial) == 0xDCEE && AckTo(0x13, serial) == [0x78, 0x78, 0x05, 0x13, 0x00, 0x0F, 0x00, 0x8F, 0x0D, 0x0A]
  {
    var sent, ack := [0x0A] + data + [0x00, 0x0F], [0x05] + [0x13] + [0x00, 0x0F];
    assert sent == [0x0A, 0x13, 0x40, 0x04, 0x04, 0x00, 0x01, 0x00, 0x0F] && ack == [0x05, 0x13, 0x00, 0x0F];
    CrcCases.Heartbeat(sent);
    CrcCases.HeartbeatAck(ack);
  }

  /** The heartbeat of the repository's tests, and the ten bytes that answer it, in both dialects. */
  lemma HeartbeatAnswered(device: Device, w: Written)
    requires IsDevice(device, device.kind, true)
    requires w == Written(0x7878, 0x0A, [0x13, 0x40, 0x04, 0x04, 0x00, 0x01], 0x000F, 0xDCEE)
    ensures Sendable(device, w) && InRange(device.kind, w)
    ensures PacketBytes(device.kind, w)
         == [0x78, 0x78, 0x0A, 0x13, 0x40, 0x04, 0x04, 0x00, 0x01, 0x00, 0x0F, 0xDC, 0xEE, 0x0D, 0x0A]
    ensures Acks(device, PacketOf(device, w)) == [[0x78, 0x78, 0x05, 0x13, 0x00, 0x0F, 0x00, 0x8F, 0x0D, 0x0A]]
  {
    HeartbeatBytes(device.kind, w);
    HeartbeatChecks(w.data, w.serial);
    SendableIff(device, w);
    AckedIff(device, w);
  }
}
