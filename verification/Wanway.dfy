/** The GT06 and TR06 protocol objects, and what their streams guarantee. */
module Wanway {
  import opened Bytes
  import opened Streams
  import opened Runs
  import opened WanwayInfo
  import opened WanwayPackets
  import Crc
  import CrcDivision
  import CrcBurst
  import HexText

  // ----- The device -----

  function WanwayField(covered: seq<byte>): nat {
    CrcDivision.Wanway(covered) as nat
  }

  lemma WanwayFieldBound(covered: seq<byte>)
    ensures WanwayField(covered) < 0x1_0000
  {}

  /** A device of this kind; a GT06 device can report positions only once it is logged in. */
  function TheDevice(kind: Kind, loggedIn: bool): Device {
    Device(kind, (data: seq<byte>) => ParseInfo(kind, loggedIn, data), WanwayField)
  }

  /** `device` is one of this kind; the loops below need not look inside its parser and checksum. */
  ghost predicate IsDevice(device: Device, kind: Kind, loggedIn: bool) {
    && device.kind == kind
    && (forall data {:trigger ParseInfo(kind, loggedIn, data)} :: device.parse(data) == ParseInfo(kind, loggedIn, data))
    && (forall covered {:trigger WanwayField(covered)} :: device.crc(covered) == WanwayField(covered))
  }

  lemma TheDeviceIsDevice(kind: Kind, loggedIn: bool)
    ensures IsDevice(TheDevice(kind, loggedIn), kind, loggedIn)
  {}

  // ----- Acks -----

  /**
   An ack is, byte for byte, the envelope of a packet in both dialects: start bits, length 5 and the
   message type it answers, the serial number it answers, the checksum over these, stop bits.
   */
  lemma AckRoundTrip(device: Device, loggedIn: bool, messageType: byte, serial: nat, s: Source, p: nat)
    requires IsDevice(device, device.kind, loggedIn) && serial < 0x1_0000
    ensures At(s, p, AckBytes(device.crc, messageType, serial))
       <==> && HeadAt(device.kind, s, p) == Ok(Head(0x7878, 5, [messageType]), p + 4)
            && TrailerAt(s, p + 4) == Ok((serial, WanwayField(Covered(5, [messageType], serial))), p + 10)
  {
    var crc := WanwayField(Covered(5, [messageType], serial));
    WanwayFieldBound(Covered(5, [messageType], serial));
    AckLayout(device.kind, device.crc, messageType, serial);
    AtSplit(s, p, HeadBytes(device.kind, 0x7878, 5, [messageType]), TrailerBytes(serial, crc));
    ShortHeadIff(device.kind, s, p, [messageType]);
    TrailerIff(s, p + 4, serial, crc);
  }

  /** The receiver itself would take no ack for a packet: the one byte of data is too little for any type. */
  lemma AckRejected(device: Device, loggedIn: bool, messageType: byte, serial: nat, s: Source, p: nat)
    requires IsDevice(device, device.kind, loggedIn) && serial < 0x1_0000
    requires At(s, p, AckBytes(device.crc, messageType, serial))
    ensures PacketAt(device, s, p).Fail?
  {
    AckRoundTrip(device, loggedIn, messageType, serial, s, p);
    InfoAcceptedIff(device.kind, loggedIn, [messageType]);
  }

  // ----- Messages -----

  function MessageAt(device: Device, s: Source, p: nat): Message<Packet> {
    match PacketAt(device, s, p)
    case Fail(e) => Rejected(e, [])
    case Ok(x, next) => Accepted(x, next)
  }

  /** Heartbeats of the first kind are acked, before they are stored; nothing else is. */
  function Acks(device: Device, x: Packet): seq<seq<byte>> {
    if x.messageType == MSG_HEARTBEAT then [AckBytes(device.crc, x.messageType, x.serial)] else []
  }

  function MannersOf(device: Device): Manners<Packet> {
    Manners((x: Packet) => Acks(device, x), (x: Packet) => [], false, Wrapped(WriteFailed))
  }

  function MessagesOf(device: Device, s: Source): Messages<Packet> {
    Messages((p: nat) => MessageAt(device, s, p), |s.data|, MannersOf(device))
  }

  lemma MessagesProgress(device: Device, s: Source)
    ensures Progress(MessagesOf(device, s))
  {}

  // ----- Streams of packets -----

  predicate Sendable(device: Device, w: Written) {
    device.parse(w.data).Success? && Acceptable(device, w, device.parse(w.data).value)
  }

  function PacketOf(device: Device, w: Written): Packet {
    Received(w, match device.parse(w.data) case Success(info) => info case Failure(_) => LoginInfo([]))
  }

  function FramingOf(device: Device): Framing<Written, Packet> {
    Framing((w: Written) => Encode(device.kind, w), (w: Written) => PacketOf(device, w),
            (w: Written) => Sendable(device, w))
  }

  lemma SentPacketTaken(device: Device, s: Source, p: nat, w: Written)
    requires Sendable(device, w) && At(s, p, Encode(device.kind, w))
    ensures MessageAt(device, s, p) == Accepted(PacketOf(device, w), p + |Encode(device.kind, w)|)
  {
    PacketAccepted(device, s, p, w, device.parse(w.data).value);
  }

  lemma PacketTaken(device: Device, s: Source, w: Written)
    requires Sendable(device, w)
    ensures Takes(MessagesOf(device, s), FramingOf(device), s, w)
  {
    forall p: nat | At(s, p, Encode(device.kind, w))
      ensures MessageAt(device, s, p) == Accepted(PacketOf(device, w), p + |Encode(device.kind, w)|)
    {
      SentPacketTaken(device, s, p, w);
    }
  }

  /**
   A stream of acceptable packets, of whatever message types and in every form the dialect has, stays
   aligned: each is delivered in order and each heartbeat acked with its own serial number. The run
   ends with the EOF after the last.
   */
  lemma StreamStaysAligned(device: Device, ws: seq<Written>, writes: nat)
    requires forall i :: 0 <= i < |ws| ==> Sendable(device, ws[i])
    requires |All(MannersOf(device).acks, Bodies(FramingOf(device), ws))| <= writes
    ensures var s := Source(Frames(FramingOf(device), ws), EOF);
            var bs, ms := Bodies(FramingOf(device), ws), MessagesOf(device, s);
      && Progress(ms)
      && RunFrom(ms, 0, writes) == Run(bs, All(ms.manners.acks, bs), All(ms.manners.replies, bs), EOF)
  {
    var framing := FramingOf(device);
    var s := Source(Frames(framing, ws), EOF);
    var ms := MessagesOf(device, s);
    MessagesProgress(device, s);
    forall i | 0 <= i < |ws|
      ensures Takes(ms, framing, s, ws[i])
    {
      PacketTaken(device, s, ws[i]);
    }
    NothingLeft(device, s);
    WholeStream(ms, framing, s, ws, writes, EOF);
  }

  /** On any stream at all, what a run delivers came out of consecutive acceptable packets from its start on. */
  lemma RunComesFromPackets(device: Device, s: Source, p: nat, writes: nat) returns (ws: seq<Written>)
    requires p <= |s.data|
    ensures Progress(MessagesOf(device, s))
    ensures forall i :: 0 <= i < |ws| ==> Sendable(device, ws[i])
    ensures At(s, p, Frames(FramingOf(device), ws))
    ensures RunFrom(MessagesOf(device, s), p, writes).bodies == Bodies(FramingOf(device), ws)
  {
    MessagesProgress(device, s);
    PacketsOnly(device, s);
    ws := RunIsFrames(MessagesOf(device, s), FramingOf(device), s, p, writes);
  }

  lemma PacketsOnly(device: Device, s: Source)
    ensures OnlyFrames(MessagesOf(device, s), FramingOf(device), s)
  {
    forall p: nat | p <= |s.data| && MessageAt(device, s, p).Accepted?
      ensures exists w :: FrameAt(MessagesOf(device, s), FramingOf(device), s, p, w)
    {
      var w := PacketOnly(device, s, p);
      assert FrameAt(MessagesOf(device, s), FramingOf(device), s, p, w);
    }
  }

  lemma NothingLeft(device: Device, s: Source)
    requires s.end == EOF
    ensures MessageAt(device, s, |s.data|) == Rejected(EOF, [])
  {}

  // ----- Corruption -----

  /**
   TR06 rejects a packet, of either form, whose data or serial number was hit by a burst of at most
   16 bits: `got` stands where `sent`, with its checksum, was written.
   */
  lemma BurstRejected(device: Device, loggedIn: bool, s: Source, p: nat, sent: Written, got: Written, lo: nat)
    requires IsDevice(device, TR06, loggedIn) && Fits(TR06, got) && At(s, p, Encode(TR06, got))
    requires got.start == sent.start && got.length == sent.length && got.crc == sent.crc
    requires sent.crc == WanwayField(Covered(sent.length % 256, sent.data, sent.serial))
    requires CrcBurst.BurstApart(Covered(sent.length % 256, sent.data, sent.serial), Covered(got.length % 256, got.data, got.serial), lo)
    ensures PacketAt(device, s, p).Fail?
  {
    var before, after := Covered(sent.length % 256, sent.data, sent.serial), Covered(got.length % 256, got.data, got.serial);
    CrcBurst.BurstDetected(before, after, lo);
    FieldsDiffer(before, after);
    MismatchRejected(device, s, p, got);
  }

  lemma FieldsDiffer(a: seq<byte>, b: seq<byte>)
    requires CrcDivision.Wanway(a) != CrcDivision.Wanway(b)
    ensures WanwayField(a) != WanwayField(b)
  {
    CrcBurst.WordRoundTrip(CrcDivision.Wanway(a));
    CrcBurst.WordRoundTrip(CrcDivision.Wanway(b));
  }

  // ----- Login -----

  predicate ValidHeader(s: Source, p: nat) {
    p + 2 <= |s.data| && (s.data[p..p + 2] == [0x78, 0x78] || s.data[p..p + 2] == [0x79, 0x79])
  }

  /** A login takes its packet from the stream; anything that does not start like one is left alone. */
  function LoginAt(device: Device, s: Source, p: nat): Login {
    if !ValidHeader(s, p) then LoginFailed(UnknownProtocol) else
      match PacketAt(device, s, p)
      case Fail(e) => LoginFailed(e)
      case Ok(x, _) =>
        if x.info.LoginInfo? then LoggedIn(x.info.terminalId, AckBytes(device.crc, x.messageType, x.serial), 0)
        else LoginFailed(InvalidLogin)
  }

  /** The errors a connection can report. */
  predicate Honest(s: Source) {
    s.end in {EOF, Timeout, Network}
  }

  lemma {:induction false} FieldErrors(widths: seq<nat>, s: Source, p: nat)
    requires Honest(s)
    ensures ReadFields(widths, s, p).Fail? ==> ReadFields(widths, s, p).error in {EOF, Timeout, Network, UnexpectedEOF}
    decreases |widths|
  {
    if widths != [] && ReadBytes(s, p, widths[0]).Ok? {
      FieldErrors(widths[1..], s, p + widths[0]);
    }
  }

  lemma ReportErrors(kind: Kind, loggedIn: bool, messageType: byte, s: Source)
    requires Honest(s)
    ensures ReportAt(kind, loggedIn, messageType, s).Fail? ==> ReportAt(kind, loggedIn, messageType, s).error != UnknownProtocol
  {
    FieldErrors([1, 2], s, 1);
  }

  lemma DataErrors(kind: Kind, loggedIn: bool, data: seq<byte>)
    ensures ParseInfo(kind, loggedIn, data).Failure? ==> ParseInfo(kind, loggedIn, data).error != UnknownProtocol
    ensures ParseInfo(kind, loggedIn, data).Success? && ParseInfo(kind, loggedIn, data).value.LoginInfo? ==>
      |ParseInfo(kind, loggedIn, data).value.terminalId| == 15
  {
    var s := Source(data, EOF);
    if data != [] {
      ReportErrors(kind, loggedIn, data[0], s);
    }
    LoginInfoErrors(kind, s);
    if LoginInfoAt(kind, s, 1).Success? {
      AcceptableLogin(kind, s);
    }
  }

  lemma LoginInfoErrors(kind: Kind, s: Source)
    ensures LoginInfoAt(kind, s, 1).Failure? ==> LoginInfoAt(kind, s, 1).error == InvalidLogin
    ensures LoginInfoAt(kind, s, 1).Success? && 9 <= |s.data| ==>
      LoginInfoAt(kind, s, 1).value.LoginInfo? && |LoginInfoAt(kind, s, 1).value.terminalId| == 15
  {}

  /** A login that gets as far as parsing never reports an unknown protocol, and its id has 15 characters. */
  lemma LoginErrors(device: Device, kind: Kind, s: Source, p: nat)
    requires IsDevice(device, kind, false) && Honest(s)
    ensures ValidHeader(s, p) ==> LoginAt(device, s, p) != LoginFailed(UnknownProtocol)
    ensures LoginAt(device, s, p).LoggedIn? ==> |LoginAt(device, s, p).id| == 15
  {
    var head := HeadAt(kind, s, p);
    if head.Ok? {
      DataErrors(kind, false, head.value.data);
    }
  }

  /** `ms` are the messages of `s`; the loop below need not look inside one. */
  ghost predicate IsMessages(ms: Messages<Packet>, device: Device, s: Source) {
    && ms.end == |s.data| && AcksFirst(ms.manners, device) && Progress(ms)
    && forall p: nat {:trigger MessageAt(device, s, p)} :: ms.at(p) == MessageAt(device, s, p)
  }

  ghost predicate AcksFirst(m: Manners<Packet>, device: Device) {
    && !m.deliverFirst && m.writeError == Wrapped(WriteFailed)
    && forall x {:trigger Acks(device, x)} :: m.acks(x) == Acks(device, x)
  }

  lemma TheMessages(device: Device, s: Source)
    ensures IsMessages(MessagesOf(device, s), device, s)
  {}

  datatype Effects = Effects(processed: seq<Status<Packet>>, sent: seq<seq<byte>>)

  function EffectsOf(store: Store<Status<Packet>>, writer: Writer): Effects
    reads store, writer
  {
    Effects(store.processed, writer.sent)
  }

  /** Once `done` is delivered, `rest` is what is still to come of `run`. */
  ghost predicate OnTrack(id: seq<char>, run: Run<Packet>, start: Effects, done: seq<Packet>, rest: Run<Packet>, now: Effects) {
    && run.bodies == done + rest.bodies && run.error == rest.error
    && now.processed == start.processed + Statuses(id, done)
    && now.sent + rest.acks == start.sent + run.acks
  }

  lemma OnTrackAtStart(id: seq<char>, run: Run<Packet>, start: Effects)
    ensures OnTrack(id, run, start, [], run, start)
  {
    assert [] + run.bodies == run.bodies && start.processed + [] == start.processed;
  }

  lemma OnTrackStep(id: seq<char>, run: Run<Packet>, start: Effects, done: seq<Packet>, m: Manners<Packet>, x: Packet,
                    rest: Run<Packet>, now: Effects)
    requires OnTrack(id, run, start, done, Continue(m, x, rest), now)
    ensures OnTrack(id, run, start, done + [x], rest,
                    Effects(now.processed + [Status(id, x)], now.sent + m.acks(x)))
  {}

  lemma OnTrackAtEnd(id: seq<char>, run: Run<Packet>, start: Effects, done: seq<Packet>, e: Error, now: Effects)
    requires OnTrack(id, run, start, done, Run([], [], [], e), now)
    ensures run.error == e && now.sent == start.sent + run.acks && now.processed == start.processed + Statuses(id, run.bodies)
  {
    assert done + [] == done && now.sent + [] == now.sent;
  }

  class WanwayProtocol {
    const kind: Kind
    var terminalId: Option<seq<char>>

    constructor (kind: Kind)
      ensures this.kind == kind && terminalId == None
    {
      this.kind := kind;
      terminalId := None;
    }

    method ParsePacketLength(reader: Reader, start: nat) returns (r: Parsed<nat>)
      requires reader.Valid()
      modifies reader
      ensures reader.Valid()
      ensures r == LengthAt(kind, start, reader.source, old(reader.pos)) && (r.Ok? ==> reader.pos == r.next)
    {
      if start == 0x7979 {
        if kind.TR06? {
          return Ok(0, reader.pos);
        }
        r := reader.ReadNumber(2);
        if r.Ok? {
          r := Ok(r.value % 256, r.next);
        }
      } else if start == 0x7878 {
        r := reader.ReadNumber(1);
      } else {
        r := Fail(Wrapped(BadDataPacket));
      }
    }

    method ParseHead(reader: Reader) returns (r: Parsed<Head>)
      requires reader.Valid()
      modifies reader
      ensures reader.Valid()
      ensures r == HeadAt(kind, reader.source, old(reader.pos)) && (r.Ok? ==> reader.pos == r.next)
    {
      var start := reader.ReadNumber(2);
      if start.Fail? {
        return Fail(start.error);
      }
      var length := ParsePacketLength(reader, start.value);
      if length.Fail? {
        return Fail(length.error);
      }
      var data := reader.ReadFull(DataSize(length.value));
      if data.Fail? {
        return Fail(data.error);
      }
      return Ok(Head(start.value, length.value, data.value), data.next);
    }

    method ParseTrailer(reader: Reader) returns (r: Parsed<(nat, nat)>)
      requires reader.Valid()
      modifies reader
      ensures reader.Valid()
      ensures r == TrailerAt(reader.source, old(reader.pos)) && (r.Ok? ==> reader.pos == r.next)
    {
      var serial := reader.ReadNumber(2);
      if serial.Fail? {
        return Fail(serial.error);
      }
      var crc := reader.ReadNumber(2);
      if crc.Fail? {
        return Fail(crc.error);
      }
      var stop := reader.ReadNumber(2);
      if stop.Fail? {
        return Fail(stop.error);
      }
      return if stop.value == STOP_BITS then Ok((serial.value, crc.value), stop.next) else Fail(Wrapped(BadDataPacket));
    }

    /** Reads on until the stop bits; an invalid packet without them ends in an EOF. */
    method ConsumePacket(reader: Reader) returns (r: Result<seq<byte>>)
      requires reader.Valid()
      modifies reader
      ensures reader.Valid()
      ensures r.Success? <==> HasStop(reader.source.data[old(reader.pos)..])
      ensures r.Failure? ==> r.error == reader.source.end
    {
      ghost var all := reader.source.data[reader.pos..];
      var data: seq<byte> := [];
      while true
        invariant reader.Valid() && reader.pos == old(reader.pos) + |data| && data == all[..|data|]
        invariant forall i :: 0 <= i < |data| - 1 ==> !(data[i] == 0x0d && data[i + 1] == 0x0a)
        decreases |reader.source.data| - reader.pos
      {
        var b := reader.ReadFull(1);
        if b.Fail? {
          assert data == all;
          return Failure(b.error);
        }
        data := data + b.value;
        if |data| >= 2 && data[|data| - 2..] == [0x0d, 0x0a] {
          assert all[|data| - 2] == data[|data| - 2..][0] && all[|data| - 1] == data[|data| - 2..][1];
          return Success(data);
        }
        assert |data| >= 2 ==> data[|data| - 2..] == [data[|data| - 2], data[|data| - 1]];
      }
    }

    // The information parsers advance one reader over the data of a packet, one field at a time.

    method ReadFour(reader: Reader, a: nat, b: nat, c: nat, d: nat) returns (r: Parsed<()>)
      requires reader.Valid()
      modifies reader
      ensures reader.Valid()
      ensures r == ReadFields([a, b, c, d], reader.source, old(reader.pos)) && (r.Ok? ==> reader.pos == r.next)
    {
      FourFields(a, b, c, d, reader.source, reader.pos);
      var first :- reader.ReadFull(a);
      var second :- reader.ReadFull(b);
      var third :- reader.ReadFull(c);
      var fourth :- reader.ReadFull(d);
      return Ok((), reader.pos);
    }

    method ParseTimestamp(reader: Reader) returns (r: Parsed<()>)
      requires reader.Valid()
      modifies reader
      ensures reader.Valid()
      ensures r == ReadFields(TIMESTAMP, reader.source, old(reader.pos)) && (r.Ok? ==> reader.pos == r.next)
    {
      TimestampReads(reader.source, reader.pos);
      var yearMonthDayHour :- ReadFour(reader, 1, 1, 1, 1);
      var minute :- reader.ReadFull(1);
      var second :- reader.ReadFull(1);
      return Ok((), reader.pos);
    }

    /** Time, satellites, coordinates, speed and course; the time needs the zone of the login. */
    method ParseGPSInformation(reader: Reader) returns (r: Parsed<()>)
      requires reader.Valid()
      modifies reader
      ensures reader.Valid()
      ensures r == TimedAt(kind, terminalId.Some?, GPS, reader.source, old(reader.pos)) && (r.Ok? ==> reader.pos == r.next)
    {
      var timestamp := ParseTimestamp(reader);
      if timestamp.Fail? {
        return Fail(Recovered(timestamp.error));
      }
      if kind.GT06? && terminalId.None? {
        return Fail(Wrapped(BadDataPacket));
      }
      GpsReads(reader.source, reader.pos);
      var satellites := reader.ReadFull(1);
      if satellites.Fail? {
        return Fail(Recovered(satellites.error));
      }
      var fields := ReadFour(reader, 4, 4, 1, 2);
      return match fields case Fail(e) => Fail(Recovered(e)) case Ok(_, next) => Ok((), next);
    }

    /** Country, network, area and cell, after the GPS information. */
    method ParseGPSAndLBS(reader: Reader) returns (r: Parsed<()>)
      requires reader.Valid()
      modifies reader
      ensures reader.Valid()
      ensures r == TimedAt(kind, terminalId.Some?, GPS + LBS, reader.source, old(reader.pos)) && (r.Ok? ==> reader.pos == r.next)
    {
      TimedAppend(kind, terminalId.Some?, GPS, LBS, reader.source, reader.pos);
      var gps :- ParseGPSInformation(reader);
      var lbs := ReadFour(reader, 2, 1, 2, 3);
      return match lbs case Fail(e) => Fail(Recovered(e)) case Ok(_, next) => Ok((), next);
    }

    method ParsePositioningData(reader: Reader) returns (r: Parsed<()>)
      requires reader.Valid()
      modifies reader
      ensures reader.Valid()
      ensures r == TimedAt(kind, terminalId.Some?, PositionWidths(kind), reader.source, old(reader.pos))
      ensures r.Ok? ==> reader.pos == r.next
    {
      TimedAppend(kind, terminalId.Some?, GPS + LBS, MODE, reader.source, reader.pos);
      assert GPS + LBS + [] == GPS + LBS;
      var place :- ParseGPSAndLBS(reader);
      if kind.TR06? {
        return Ok((), reader.pos);
      }
      var mode := ReadFour(reader, 1, 1, 1, 4);
      return match mode case Fail(e) => Fail(Recovered(e)) case Ok(_, next) => Ok((), next);
    }

    method ReadLevel(reader: Reader, invalid: Error) returns (r: Parsed<()>)
      requires reader.Valid()
      modifies reader
      ensures reader.Valid()
      ensures r == LevelAt(reader.source, old(reader.pos), invalid) && (r.Ok? ==> reader.pos == r.next)
    {
      var level :- reader.ReadFull(1);
      return if level.0[0] == NO_VALUE then Fail(invalid) else Ok((), level.1);
    }

    /** Terminal information, voltage, signal strength, which is read twice, alarm and language. */
    method ParseStatusInformation(reader: Reader) returns (r: Parsed<()>)
      requires reader.Valid()
      modifies reader
      ensures reader.Valid()
      ensures r == StatusAt(reader.source, old(reader.pos)) && (r.Ok? ==> reader.pos == r.next)
    {
      var terminal := reader.ReadFull(1);
      if terminal.Fail? {
        return Fail(Recovered(terminal.error));
      }
      var voltage := ReadLevel(reader, BadDataPacket);
      if voltage.Fail? {
        return Fail(Recovered(voltage.error));
      }
      var overwritten := reader.ReadFull(1);
      if overwritten.Fail? {
        return Fail(Recovered(overwritten.error));
      }
      var signal := ReadLevel(reader, BadDataPacket);
      if signal.Fail? {
        return Fail(Recovered(signal.error));
      }
      TwoFields(1, 1, reader.source, reader.pos);
      var alarm := reader.ReadFull(1);
      if alarm.Fail? {
        return Fail(Recovered(alarm.error));
      }
      var language := reader.ReadFull(1);
      if language.Fail? {
        return Fail(Recovered(language.error));
      }
      return Ok((), reader.pos);
    }

    method ParseAlarmData(reader: Reader) returns (r: Parsed<()>)
      requires reader.Valid()
      modifies reader
      ensures reader.Valid()
      ensures r == AlarmAt(kind, terminalId.Some?, reader.source, old(reader.pos))
    {
      var place :- ParseGPSAndLBS(reader);
      r := ParseStatusInformation(reader);
    }

    method ParseHeartbeatData(reader: Reader) returns (r: Parsed<()>)
      requires reader.Valid()
      modifies reader
      ensures reader.Valid()
      ensures r == HeartbeatAt(reader.source, old(reader.pos))
    {
      var terminal :- reader.ReadFull(1);
      var battery :- ReadLevel(reader, InvalidVoltageLevel);
      var signal :- ReadLevel(reader, InvalidSignalStrength);
      var port :- reader.ReadFull(2);
      var extra := reader.Peek(1);
      return if extra.Success? then Fail(Wrapped(BadDataPacket)) else Ok((), reader.pos);
    }

    method ParseInformationTransmissionPacket(reader: Reader) returns (r: Parsed<()>)
      requires reader.Valid()
      modifies reader
      ensures reader.Valid()
      ensures r == TransmissionAt(reader.source, old(reader.pos))
    {
      TwoFields(1, 2, reader.source, reader.pos);
      var informationType :- reader.ReadFull(1);
      var content :- reader.ReadFull(2);
      var extra := reader.Peek(1);
      return if extra.Success? then Fail(InvalidFormat) else Ok((), reader.pos);
    }

    method ParseLoginInformation(reader: Reader) returns (r: Result<Info>)
      requires reader.Valid()
      modifies reader
      ensures reader.Valid()
      ensures r == LoginInfoAt(kind, reader.source, old(reader.pos))
    {
      LoginReads(kind, reader.source, reader.pos);
      var imei := reader.ReadFull(8);
      if imei.Fail? {
        return Failure(InvalidLogin);
      }
      if kind.GT06? {
        var terminalType := reader.ReadFull(2);
        if terminalType.Fail? {
          return Failure(InvalidLogin);
        }
        var timezone := reader.ReadFull(2);
        if timezone.Fail? {
          return Failure(InvalidLogin);
        }
      }
      return Success(LoginInfo(HexText.Encode(imei.value, HexText.Lower)[1..]));
    }

    /** The reports, by message type. */
    method ParseReport(reader: Reader, messageType: byte) returns (r: Parsed<()>)
      requires reader.Valid() && reader.pos == 1
      modifies reader
      ensures reader.Valid()
      ensures r == ReportAt(kind, terminalId.Some?, messageType, reader.source)
    {
      if messageType == MsgPositioning(kind) {
        r := ParsePositioningData(reader);
      } else if messageType == MSG_ALARM {
        r := ParseAlarmData(reader);
      } else if messageType == MSG_HEARTBEAT || messageType == MSG_EG_HEARTBEAT {
        r := ParseHeartbeatData(reader);
      } else if messageType == MsgTransmission(kind) {
        r := ParseInformationTransmissionPacket(reader);
      } else {
        r := Fail(Wrapped(BadDataPacket));
      }
    }

    /** The data of a packet, through a reader of its own; its end is an EOF. */
    method ParsePacketData(data: seq<byte>) returns (r: Result<Info>)
      ensures r == ParseInfo(kind, terminalId.Some?, data)
    {
      var reader := new Reader(Source(data, EOF));
      var first := reader.ReadFull(1);
      if first.Fail? {
        return Failure(Wrapped(BadDataPacket));  // read as type 0, which no message has
      }
      var messageType := first.value[0];
      assert messageType == data[0];
      if messageType == MSG_INVALID {
        var remaining := ConsumePacket(reader);
        return Failure(if remaining.Success? then Wrapped(BadDataPacket) else remaining.error);
      }
      if messageType == MSG_LOGIN {
        r := ParseLoginInformation(reader);
      } else {
        var report := ParseReport(reader, messageType);
        r := match report case Fail(e) => Failure(e) case Ok(_, _) => Success(Report(messageType, data[1..]));
      }
    }

    method ParseTail(reader: Reader, head: Head, info: Info, ghost device: Device) returns (r: Parsed<Packet>)
      requires reader.Valid() && IsDevice(device, kind, terminalId.Some?)
      modifies reader
      ensures reader.Valid()
      ensures r == TailAt(device, head, info, reader.source, old(reader.pos)) && (r.Ok? ==> reader.pos == r.next)
    {
      var trailer := ParseTrailer(reader);
      if trailer.Fail? {
        return Fail(trailer.error);
      }
      var (serial, crc) := trailer.value;
      if kind.TR06? {
        var expected := Crc.CrcWanway(Covered(head.length, head.data, serial));
        assert WanwayField(Covered(head.length, head.data, serial)) == expected as nat;
        if crc != expected as nat {
          return Fail(BadCrc);
        }
      }
      return Ok(Packet(head.start, head.length, FirstByte(head.data), info, serial, crc), trailer.next);
    }

    method ParsePacket(reader: Reader, ghost device: Device, ghost ms: Messages<Packet>) returns (r: Parsed<Packet>)
      requires reader.Valid() && IsDevice(device, kind, terminalId.Some?) && IsMessages(ms, device, reader.source)
      modifies reader
      ensures reader.Valid()
      ensures match ms.at(old(reader.pos))
        case Rejected(e, leaked) => r == Fail(e) && leaked == []
        case Accepted(x, next) => r == Ok(x, next) && reader.pos == next
    {
      assert ms.at(reader.pos) == MessageAt(device, reader.source, reader.pos);
      var head := ParseHead(reader);
      if head.Fail? {
        return Fail(head.error);
      }
      var info := ParsePacketData(head.value.data);
      if info.Failure? {
        return Fail(info.error);
      }
      r := ParseTail(reader, head.value, info.value, device);
    }

    /** The ten bytes that answer a packet. */
    method ResponseBytes(packet: Packet, ghost device: Device) returns (b: seq<byte>)
      requires IsDevice(device, kind, terminalId.Some?)
      ensures b == AckBytes(device.crc, packet.messageType, packet.serial)
    {
      var covered := Covered(5, [packet.messageType], packet.serial);
      var crc := Crc.CrcWanway(covered);
      assert device.crc(covered) == WanwayField(covered) == crc as nat;
      b := Encode(GT06, Short([packet.messageType], packet.serial, crc as nat));
    }

    method SendResponse(packet: Packet, writer: Writer, ghost device: Device) returns (ok: bool)
      requires IsDevice(device, kind, terminalId.Some?)
      modifies writer
      ensures ok == (old(writer.budget) > 0)
      ensures writer.sent == if ok then old(writer.sent) + [AckBytes(device.crc, packet.messageType, packet.serial)] else old(writer.sent)
      ensures writer.budget == if ok then old(writer.budget) - 1 else old(writer.budget)
    {
      var b := ResponseBytes(packet, device);
      ok := writer.Write(b);
    }

    /** The ack, where one is due, and then the push. */
    method AckAndStore(packet: Packet, writer: Writer, store: Store<Status<Packet>>, ghost device: Device, ghost m: Manners<Packet>)
        returns (ok: bool)
      requires terminalId.Some? && IsDevice(device, kind, true) && AcksFirst(m, device)
      modifies writer, store
      ensures ok == (|m.acks(packet)| <= old(writer.budget))
      ensures ok ==> writer.budget == old(writer.budget) - |m.acks(packet)|
      ensures EffectsOf(store, writer)
           == if !ok then old(EffectsOf(store, writer))
              else Effects(old(store.processed) + [Status(terminalId.value, packet)], old(writer.sent) + m.acks(packet))
    {
      assert m.acks(packet) == Acks(device, packet);
      if packet.messageType == MSG_HEARTBEAT {
        ok := SendResponse(packet, writer, device);
        if !ok {
          return;
        }
      }
      store.Process(Status(terminalId.value, packet));
      ok := true;
    }

    /** Packets until one fails, or an ack cannot be written; a packet whose ack fails is not stored. */
    method ConsumeStream(reader: Reader, writer: Writer, store: Store<Status<Packet>>, ghost device: Device,
                         ghost ms: Messages<Packet>) returns (err: Error)
      requires reader.Valid() && terminalId.Some? && IsDevice(device, kind, true) && IsMessages(ms, device, reader.source)
      modifies reader, writer, store
      ensures reader.Valid()
      ensures var run := RunFrom(ms, old(reader.pos), old(writer.budget));
        && err == run.error
        && writer.sent == old(writer.sent) + run.acks
        && store.processed == old(store.processed) + Statuses(terminalId.value, run.bodies)
    {
      ghost var id, start, done := terminalId.value, EffectsOf(store, writer), [];
      ghost var run := RunFrom(ms, reader.pos, writer.budget);
      OnTrackAtStart(id, run, start);
      while true
        invariant reader.Valid()
        invariant OnTrack(id, run, start, done, RunFrom(ms, reader.pos, writer.budget), EffectsOf(store, writer))
        decreases |reader.source.data| - reader.pos
      {
        ghost var now := EffectsOf(store, writer);
        var packet := ParsePacket(reader, device, ms);
        if packet.Fail? {
          OnTrackAtEnd(id, run, start, done, packet.error, now);
          return packet.error;
        }
        var ok := AckAndStore(packet.value, writer, store, device, ms.manners);
        if !ok {
          OnTrackAtEnd(id, run, start, done, Wrapped(WriteFailed), now);
          return Wrapped(WriteFailed);
        }
        OnTrackStep(id, run, start, done, ms.manners, packet.value, RunFrom(ms, packet.next, writer.budget), now);
        done := done + [packet.value];
      }
    }

    method Login(reader: Reader, ghost device: Device, ghost ms: Messages<Packet>) returns (r: Login)
      requires reader.Valid() && terminalId == None
      requires IsDevice(device, kind, false) && IsMessages(ms, device, reader.source)
      modifies this, reader
      ensures reader.Valid()
      ensures r == LoginAt(device, reader.source, old(reader.pos))
      ensures r == LoginFailed(UnknownProtocol) && Honest(reader.source) ==> reader.pos == old(reader.pos)
      ensures r.LoggedIn? ==> terminalId == Some(r.id) && PacketAt(device, reader.source, old(reader.pos)).Ok?
                              && reader.pos == PacketAt(device, reader.source, old(reader.pos)).next
    {
      ghost var honest := Honest(reader.source);
      if honest {
        LoginErrors(device, kind, reader.source, reader.pos);
      }
      assert ms.at(reader.pos) == MessageAt(device, reader.source, reader.pos);
      var header := reader.Peek(2);
      if header.Failure? || (header.value != [0x78, 0x78] && header.value != [0x79, 0x79]) {
        return LoginFailed(UnknownProtocol);
      }
      var packet := ParsePacket(reader, device, ms);
      if packet.Fail? {
        return LoginFailed(packet.error);
      }
      match packet.value.info
      case LoginInfo(id) =>
        var ack := ResponseBytes(packet.value, device);
        terminalId := Some(id);
        return LoggedIn(id, ack, 0);
      case Report(_, _) => return LoginFailed(InvalidLogin);
    }
  }

  // ----- Serving a stream -----

  /**
   What the decoder has left behind and returns when it has come through `packets` to `stop`: each is
   stored, each heartbeat among them acked, in order, and nothing of the message that stopped it.
   */
  ghost predicate Served(id: seq<char>, device: Device, packets: seq<Packet>, stop: Message<Packet>, writes: nat, err: Error,
                         start: Effects, end: Effects) {
    && |All(MannersOf(device).acks, packets)| <= writes
    && end == Effects(start.processed + Statuses(id, packets), start.sent + All(MannersOf(device).acks, packets))
    && match stop
       case Rejected(e, _) => err == e
       case Accepted(x, _) =>
         err == Wrapped(WriteFailed) && |All(MannersOf(device).acks, packets)| + |Acks(device, x)| > writes
  }

  lemma RunServed(id: seq<char>, device: Device, ms: Messages<Packet>, p: nat, writes: nat, packets: seq<Packet>, q: nat,
                  stop: Message<Packet>, run: Run<Packet>, start: Effects, end: Effects)
    requires ms.manners == MannersOf(device) && StopsAt(ms, p, writes, packets, q, run) && stop == ms.at(q)
    requires end == Effects(start.processed + Statuses(id, run.bodies), start.sent + run.acks)
    ensures Served(id, device, packets, stop, writes, run.error, start, end)
  {
    var acks := All(MannersOf(device).acks, packets);
    assert packets + [] == packets && acks + [] == acks;
  }

  /** The decoder, for messages that are not looked into: it goes through `packets` and stops at `stop`. */
  method ServeTo(protocol: WanwayProtocol, reader: Reader, writer: Writer, store: Store<Status<Packet>>, ghost device: Device,
                 ghost ms: Messages<Packet>, ghost packets: seq<Packet>, ghost q: nat, ghost stop: Message<Packet>)
      returns (err: Error)
    requires reader.Valid() && protocol.terminalId.Some? && IsDevice(device, protocol.kind, true)
    requires IsMessages(ms, device, reader.source) && ms.manners == MannersOf(device)
    requires StopsAt(ms, reader.pos, writer.budget, packets, q, RunFrom(ms, reader.pos, writer.budget)) && stop == ms.at(q)
    modifies reader, writer, store
    ensures reader.Valid()
    ensures Served(protocol.terminalId.value, device, packets, stop, old(writer.budget), err,
                   old(EffectsOf(store, writer)), EffectsOf(store, writer))
  {
    ghost var p, writes, start := reader.pos, writer.budget, EffectsOf(store, writer);
    ghost var run := RunFrom(ms, p, writes);
    err := protocol.ConsumeStream(reader, writer, store, device, ms);
    RunServed(protocol.terminalId.value, device, ms, p, writes, packets, q, stop, run, start, EffectsOf(store, writer));
  }

  /** The packets that the decoder goes through from `p` on, and the message where it stops. */
  lemma StopsAtPackets(kind: Kind, s: Source, p: nat, writes: nat)
      returns (device: Device, ms: Messages<Packet>, ws: seq<Written>, packets: seq<Packet>, q: nat, stop: Message<Packet>)
    requires p <= |s.data|
    ensures device == TheDevice(kind, true) && IsDevice(device, kind, true)
    ensures IsMessages(ms, device, s) && ms.manners == MannersOf(device)
    ensures Through(MessagesOf(device, s), FramingOf(device), s, p, ws, packets, stop)
    ensures StopsAt(ms, p, writes, packets, q, RunFrom(ms, p, writes)) && stop == ms.at(q)
  {
    device := TheDevice(kind, true);
    ms := MessagesOf(device, s);
    TheDeviceIsDevice(kind, true);
    TheMessages(device, s);
    PacketsOnly(device, s);
    ws, packets, q, stop := RunThrough(ms, FramingOf(device), s, p, writes);
  }

  /**
   The decoder of a logged-in device on any stream: it takes consecutive acceptable packets, and stops
   at the first message that is rejected, with its error, or whose ack cannot be written. It leaves
   the statuses of the packets and the acks of their heartbeats, in order, and nothing else.
   */
  method Serve(protocol: WanwayProtocol, reader: Reader, writer: Writer, store: Store<Status<Packet>>)
      returns (err: Error, ghost device: Device, ghost ws: seq<Written>, ghost packets: seq<Packet>, ghost stop: Message<Packet>)
    requires reader.Valid() && protocol.terminalId.Some?
    modifies reader, writer, store
    ensures reader.Valid() && device == TheDevice(protocol.kind, true)
    ensures Through(MessagesOf(device, reader.source), FramingOf(device), reader.source, old(reader.pos), ws, packets, stop)
    ensures Served(protocol.terminalId.value, device, packets, stop, old(writer.budget), err,
                   old(EffectsOf(store, writer)), EffectsOf(store, writer))
  {
    ghost var ms, q;
    device, ms, ws, packets, q, stop := StopsAtPackets(protocol.kind, reader.source, reader.pos, writer.budget);
    err := ServeTo(protocol, reader, writer, store, device, ms, packets, q, stop);
  }
}
