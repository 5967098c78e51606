/** The IntelliTrac protocol object: login by heartbeat, and the loop over binary messages. */
module Intellitrac {
  import opened Bytes
  import opened Streams
  import opened Formats
  import opened Runs
  import opened IntellitracWire
  import opened IntellitracPosition

  // ----- Login -----

  /** A binary heartbeat has encoding 0 and type 2. */
  predicate IsBinaryHeartbeat(s: Source, p: nat) {
    p + 4 <= |s.data| && s.data[p + 2] == 0x00 && s.data[p + 3] == 0x02
  }

  /** How many bytes a heartbeat of this encoding has. */
  function HeartbeatSize(binary: bool): nat {
    if binary then 22 else 8
  }

  /** Transaction and modem of a heartbeat. */
  function HeartbeatAt(binary: bool, s: Source, p: nat): Option<(nat, nat)> {
    if p + HeartbeatSize(binary) > |s.data| then None
    else if binary then Some((FromBE(s.data[p..p + 2]), FromBE(s.data[p + 4..p + 12])))
    else Some((FromBE(s.data[p + 2..p + 4]), FromBE(s.data[p + 4..p + 8])))
  }

  function LoggedInBy(heartbeat: Option<(nat, nat)>): Login {
    match heartbeat
    case None => LoginFailed(InvalidHeartbeat)
    case Some((transaction, modem)) => LoggedIn(ImeiOf(modem), AckBytes(transaction, 0x00), 0)
  }

  /**
   A heartbeat in binary or in ASCII logs the device in and is taken from the stream; what starts
   like neither is left alone.
   */
  function LoginAt(s: Source, p: nat): Login {
    if p + 4 > |s.data| then LoginFailed(s.end)
    else if IsBinaryHeartbeat(s, p) then LoggedInBy(HeartbeatAt(true, s, p))
    else if s.data[p] == 0xFA && s.data[p + 1] == 0xF8 then LoggedInBy(HeartbeatAt(false, s, p))
    else LoginFailed(UnknownProtocol)
  }

  /** A binary heartbeat: type and encoding in its third and fourth byte, the modem in eight bytes. */
  predicate BinaryLogin(s: Source, p: nat, id: seq<char>, ack: seq<byte>) {
    && p + 22 <= |s.data| && s.data[p + 2..p + 4] == [0x00, 0x02]
    && id == ImeiOf(FromBE(s.data[p + 4..p + 12])) && ack == s.data[p..p + 2] + [0x00, 0x03, 0x00, 0x00]
  }

  /** An ASCII heartbeat: FA F8, its transaction, the modem in four bytes. */
  predicate AsciiLogin(s: Source, p: nat, id: seq<char>, ack: seq<byte>) {
    && p + 8 <= |s.data| && s.data[p + 2..p + 4] != [0x00, 0x02] && s.data[p..p + 2] == [0xFA, 0xF8]
    && id == ImeiOf(FromBE(s.data[p + 4..p + 8])) && ack == s.data[p + 2..p + 4] + [0x00, 0x03, 0x00, 0x00]
  }

  lemma TwoAt(data: seq<byte>, p: nat)
    requires p + 2 <= |data|
    ensures data[p..p + 2] == [data[p], data[p + 1]]
  {}

  lemma AckOfTwo(b: seq<byte>, encoding: byte)
    requires |b| == 2
    ensures AckBytes(FromBE(b), encoding) == b + [encoding, 0x03, 0x00, 0x00]
  {
    ToFromBE(b);
  }

  /** Which bytes log a device in, as whom, and what it is answered: its own transaction. */
  lemma LoginOnWire(s: Source, p: nat, id: seq<char>, ack: seq<byte>, skip: nat)
    ensures LoginAt(s, p) == LoggedIn(id, ack, skip) <==> skip == 0 && (BinaryLogin(s, p, id, ack) || AsciiLogin(s, p, id, ack))
  {
    if p + 4 <= |s.data| {
      TwoAt(s.data, p);
      TwoAt(s.data, p + 2);
      AckOfTwo(s.data[p..p + 2], 0x00);
      AckOfTwo(s.data[p + 2..p + 4], 0x00);
    }
  }

  /** A heartbeat is invalid exactly if it starts like one and ends too early. */
  lemma InvalidIff(s: Source, p: nat)
    requires s.end != InvalidHeartbeat
    ensures LoginAt(s, p) == LoginFailed(InvalidHeartbeat)
       <==> && p + 4 <= |s.data|
            && if s.data[p + 2..p + 4] == [0x00, 0x02] then p + 22 > |s.data|
               else s.data[p..p + 2] == [0xFA, 0xF8] && p + 8 > |s.data|
  {
    if p + 4 <= |s.data| {
      TwoAt(s.data, p);
      TwoAt(s.data, p + 2);
    }
  }

  // ----- What messages leave behind -----

  datatype Effects = Effects(processed: seq<Status<PositionStatus>>, responses: seq<DeviceResponse>, sent: seq<seq<byte>>)

  function EffectsOf(store: Store<Status<PositionStatus>>, writer: Writer): Effects
    reads store, writer
  {
    Effects(store.processed, store.responses, writer.sent)
  }

  function Pushes(imei: seq<char>, m: Msg): seq<Status<PositionStatus>> {
    if Stored(m) then [Status(imei, StatusOf(m.data))] else []
  }

  /** The status that the message `b` on the wire pushes: that of the data behind its 16 bytes of header. */
  lemma PushedOnWire(imei: seq<char>, m: Msg, b: seq<byte>)
    requires FitsMsg(m) && b == EncodeMsg(m)
    ensures Pushes(imei, m)
         == if |b| >= 62 && b[2..4] == [0x00, 0x02] && b[12..14] != [0x00, 0xAB] then [Status(imei, StatusOf(b[16..]))] else []
  {
    StoredOnWire(m, b);
  }

  /** What one message adds, when `writes` more acks can be written. */
  function AfterMessage(imei: seq<char>, m: Msg, writes: nat, now: Effects): Effects {
    Effects(now.processed + Pushes(imei, m), now.responses + Responses(imei, Replies(m)),
            if |Acks(m)| > writes then now.sent else now.sent + Acks(m))
  }

  /** The statuses that a list of messages pushes. */
  function AllPushes(imei: seq<char>, ms: seq<Msg>): seq<Status<PositionStatus>> {
    if ms == [] then [] else AllPushes(imei, ms[..|ms| - 1]) + Pushes(imei, ms[|ms| - 1])
  }

  /** Once `done` is handled, `rest` is what is still to come of `run`. */
  ghost predicate OnTrack(imei: seq<char>, run: Run<Msg>, start: Effects, done: seq<Msg>, rest: Run<Msg>, now: Effects) {
    && run.bodies == done + rest.bodies && run.error == rest.error
    && now.processed == start.processed + AllPushes(imei, done)
    && now.responses + Responses(imei, rest.replies) == start.responses + Responses(imei, run.replies)
    && now.sent + rest.acks == start.sent + run.acks
  }

  /** All that a run leaves behind. */
  ghost predicate Done(imei: seq<char>, run: Run<Msg>, start: Effects, end: Effects) {
    && end.processed == start.processed + AllPushes(imei, run.bodies)
    && end.responses == start.responses + Responses(imei, run.replies)
    && end.sent == start.sent + run.acks
  }

  lemma OnTrackAtStart(imei: seq<char>, run: Run<Msg>, start: Effects)
    ensures OnTrack(imei, run, start, [], run, start)
  {
    assert [] + run.bodies == run.bodies && start.processed + [] == start.processed;
  }

  lemma PushesPush(imei: seq<char>, start: seq<Status<PositionStatus>>, done: seq<Msg>, m: Msg)
    ensures start + AllPushes(imei, done + [m]) == (start + AllPushes(imei, done)) + Pushes(imei, m)
  {
    assert (done + [m])[..|done|] == done;
  }

  lemma OnTrackStep(imei: seq<char>, run: Run<Msg>, start: Effects, done: seq<Msg>, m: Msg, writes: nat, rest: Run<Msg>, now: Effects)
    requires |Acks(m)| <= writes && OnTrack(imei, run, start, done, Continue(TheManners(), m, rest), now)
    ensures OnTrack(imei, run, start, done + [m], rest, AfterMessage(imei, m, writes, now))
  {
    PushesPush(imei, start.processed, done, m);
    Regroup(done, [m], rest.bodies);
    Regroup(now.sent, Acks(m), rest.acks);
    ResponsesAppend(imei, Replies(m), rest.replies);
    Regroup(now.responses, Responses(imei, Replies(m)), Responses(imei, rest.replies));
  }

  lemma OnTrackAtEnd(imei: seq<char>, run: Run<Msg>, start: Effects, done: seq<Msg>, e: Error, now: Effects)
    requires OnTrack(imei, run, start, done, Run([], [], [], e), now)
    ensures run.error == e && Done(imei, run, start, now)
  {
    assert done + [] == done && now.sent + [] == now.sent && now.responses + [] == now.responses;
  }

  lemma OnTrackUnacked(imei: seq<char>, run: Run<Msg>, start: Effects, done: seq<Msg>, m: Msg, writes: nat, now: Effects)
    requires |Acks(m)| > writes && OnTrack(imei, run, start, done, Run([m], [], [], WriteFailed), now)
    ensures run.error == WriteFailed && Done(imei, run, start, AfterMessage(imei, m, writes, now))
  {
    PushesPush(imei, start.processed, done, m);
    assert now.sent + [] == now.sent && now.responses + [] == now.responses;
  }

  /** What follows a header, by transaction, kind and position. */
  type BodyReader = (nat, nat, nat) -> Message<Msg>

  function BodiesOf(s: Source): BodyReader {
    (transaction: nat, kind: nat, p: nat) => BodyAt(transaction, kind, s, p)
  }

  function FromHeader(body: BodyReader, s: Source, p: nat): Message<Msg> {
    match ReadUint(s, p, 4)
    case Fail(e) => Rejected(e, [])
    case Ok(h, next) => body(h / 0x1_0000, h % 0x1_0000, next)
  }

  /** `body` reads the bodies in `s`; the methods below need not look inside it. */
  ghost predicate IsBody(body: BodyReader, s: Source) {
    forall transaction: nat, kind: nat, p: nat {:trigger BodyAt(transaction, kind, s, p)} ::
      body(transaction, kind, p) == BodyAt(transaction, kind, s, p)
  }

  /** `ms` are the messages of `s`. */
  ghost predicate IsMessages(ms: Messages<Msg>, body: BodyReader, s: Source) {
    && ms.end == |s.data| && ms.manners == TheManners() && Progress(ms)
    && forall p: nat {:trigger FromHeader(body, s, p)} :: ms.at(p) == FromHeader(body, s, p)
  }

  lemma TheMessages(s: Source)
    ensures IsBody(BodiesOf(s), s) && IsMessages(MessagesOf(s), BodiesOf(s), s)
  {
    MessagesProgress(s);
  }

  /** Four header bytes as one number. */
  lemma HeaderNumber(h: seq<byte>)
    requires |h| == 4
    ensures FromBE(h) / 0x1_0000 == FromBE(h[0..2]) && FromBE(h) % 0x1_0000 == h[2] as nat * 0x100 + h[3] as nat
  {
    assert h[..3][..2] == h[0..2] && h[..3][2] == h[2];
    assert FromBE(h[..3]) == FromBE(h[0..2]) * 256 + h[2];
    assert FromBE(h) == FromBE(h[..3]) * 256 + h[3];
  }

  class IntelliTracAProtocol {
    var imei: seq<char>
    var isBinary: bool

    constructor ()
      ensures imei == [] && !isBinary
    {
      imei, isBinary := [], false;
    }

    method ReadHeartbeat(reader: Reader, binary: bool) returns (r: Option<(nat, nat)>)
      requires reader.Valid()
      modifies reader
      ensures reader.Valid()
      ensures r == HeartbeatAt(binary, reader.source, old(reader.pos))
      ensures r.Some? ==> reader.pos == old(reader.pos) + HeartbeatSize(binary)
    {
      ghost var p := reader.pos;
      var data := reader.ReadFull(HeartbeatSize(binary));
      if data.Fail? {
        return None;
      }
      if binary {
        Slices(reader.source.data, p, 22, 0, 2);
        Slices(reader.source.data, p, 22, 4, 12);
        return Some((FromBE(data.value[0..2]), FromBE(data.value[4..12])));
      } else {
        Slices(reader.source.data, p, 8, 2, 4);
        Slices(reader.source.data, p, 8, 4, 8);
        return Some((FromBE(data.value[2..4]), FromBE(data.value[4..8])));
      }
    }

    method Login(reader: Reader) returns (r: Login)
      requires reader.Valid()
      modifies this, reader
      ensures reader.Valid()
      ensures r == LoginAt(reader.source, old(reader.pos))
      ensures r == LoginFailed(UnknownProtocol) && reader.source.end != UnknownProtocol ==> reader.pos == old(reader.pos)
      ensures r.LoggedIn? ==> imei == r.id && isBinary == IsBinaryHeartbeat(reader.source, old(reader.pos))
                              && reader.pos == old(reader.pos) + HeartbeatSize(isBinary)
    {
      var peeked := reader.Peek(4);
      if peeked.Failure? {
        return LoginFailed(peeked.error);
      }
      var binary := peeked.value[2] == 0x00 && peeked.value[3] == 0x02;
      if !binary && (peeked.value[0] != 0xFA || peeked.value[1] != 0xF8) {
        return LoginFailed(UnknownProtocol);
      }
      var heartbeat := ReadHeartbeat(reader, binary);
      if heartbeat.None? {
        return LoginFailed(InvalidHeartbeat);
      }
      var (transaction, modem) := heartbeat.value;
      isBinary := binary;
      imei := ImeiOf(modem);
      return LoggedIn(imei, AckBytes(transaction, 0x00), 0);
    }

    /** The ack of one message. */
    method Acknowledge(writer: Writer, transaction: nat, encoding: byte) returns (err: Option<Error>)
      modifies writer
      ensures err == if old(writer.budget) > 0 then None else Some(WriteFailed)
      ensures writer.sent == if err == None then old(writer.sent) + [AckBytes(transaction, encoding)] else old(writer.sent)
      ensures writer.budget == if err == None then old(writer.budget) - 1 else old(writer.budget)
    {
      var ok := writer.Write(AckBytes(transaction, encoding));
      err := if ok then None else Some(WriteFailed);
    }

    method ReadPosition(reader: Reader) returns (r: Parsed<PositionParts>)
      requires reader.Valid()
      modifies reader
      ensures reader.Valid()
      ensures r == PositionFormat().parse(reader.source, old(reader.pos)) && (r.Ok? ==> reader.pos == r.next)
    {
      var header := reader.ReadFull(12);
      if header.Fail? {
        return Fail(header.error);
      }
      var modem := FromBE(header.value[0..8]);
      var messageId := FromBE(header.value[8..10]);
      var data := reader.ReadFull(FromBE(header.value[10..12]));
      if data.Fail? {
        return Fail(data.error);
      }
      return Ok((modem, (messageId, data.value)), reader.pos);
    }

    method ReadText(reader: Reader) returns (r: Parsed<TextParts>)
      requires reader.Valid()
      modifies reader
      ensures reader.Valid()
      ensures r == TextFormat().parse(reader.source, old(reader.pos)) && (r.Ok? ==> reader.pos == r.next)
    {
      var length := reader.ReadNumber(2);
      if length.Fail? {
        return Fail(length.error);
      }
      var modem := reader.ReadNumber(8);
      if modem.Fail? {
        return Fail(modem.error);
      }
      var text := reader.ReadFull(length.value);
      if text.Fail? {
        return Fail(text.error);
      }
      var timestamp := reader.ReadFull(12);
      if timestamp.Fail? {
        return Fail(timestamp.error);
      }
      return Ok((modem.value, (text.value, timestamp.value)), reader.pos);
    }

    method ReadResponse(reader: Reader) returns (r: Parsed<seq<byte>>)
      requires reader.Valid()
      modifies reader
      ensures reader.Valid()
      ensures r == Blob(2).parse(reader.source, old(reader.pos)) && (r.Ok? ==> reader.pos == r.next)
    {
      var length := reader.ReadNumber(2);
      if length.Fail? {
        return Fail(length.error);
      }
      r := reader.ReadFull(length.value);
    }

    /** Reads what follows a header. */
    method ReadBody(reader: Reader, transaction: nat, encoding: nat, kind: nat, ghost body: BodyReader)
        returns (r: Parsed<Msg>)
      requires reader.Valid() && encoding < 0x100 && kind < 0x100 && IsBody(body, reader.source)
      modifies reader
      ensures reader.Valid()
      ensures match body(transaction, encoding * 0x100 + kind, old(reader.pos))
        case Rejected(e, leaked) => r == Fail(e) && leaked == []
        case Accepted(m, next) => r == Ok(m, next) && reader.pos == next
    {
      assert body(transaction, encoding * 0x100 + kind, reader.pos)
          == BodyAt(transaction, encoding * 0x100 + kind, reader.source, reader.pos);
      if encoding == 0x00 && kind == 0x02 {
        var x := ReadPosition(reader);
        r := match x case Fail(e) => Fail(e) case Ok(v, next) => Ok(Position(transaction, v.0, v.1.0, v.1.1), next);
      } else if encoding == 0x02 && kind == 0x02 {
        var x := ReadText(reader);
        r := match x case Fail(e) => Fail(e) case Ok(v, next) => Ok(Text(transaction, v.0, v.1.0, v.1.1), next);
      } else if encoding == 0x01 && kind == 0x01 {
        var x := ReadResponse(reader);
        r := match x case Fail(e) => Fail(e) case Ok(v, next) => Ok(Response(transaction, v), next);
      } else {
        r := Fail(UnsupportedMessage);
      }
    }

    method ReadMessage(reader: Reader, ghost ms: Messages<Msg>, ghost body: BodyReader) returns (r: Parsed<Msg>)
      requires reader.Valid() && IsBody(body, reader.source) && IsMessages(ms, body, reader.source)
      modifies reader
      ensures reader.Valid()
      ensures match ms.at(old(reader.pos))
        case Rejected(e, leaked) => r == Fail(e) && leaked == []
        case Accepted(m, next) => r == Ok(m, next) && reader.pos == next
    {
      assert ms.at(reader.pos) == FromHeader(body, reader.source, reader.pos);
      var header := reader.ReadFull(4);
      if header.Fail? {
        return Fail(header.error);
      }
      HeaderNumber(header.value);
      r := ReadBody(reader, FromBE(header.value[0..2]), header.value[2], header.value[3], body);
    }

    /** Decodes a position at its fixed offsets and pushes its status. */
    method HandlePositionalData(data: seq<byte>, store: Store<Status<PositionStatus>>)
      requires |data| >= 46
      modifies store
      ensures store.processed == old(store.processed) + [Status(imei, StatusOf(data))] && store.responses == old(store.responses)
    {
      var time := DateTime(2000 + data[3] as int, data[4], data[5], data[0], data[1], data[2]);
      var latitude := Signed32(FromBE(data[6..10]));
      var longitude := Signed32(FromBE(data[10..14]));
      var altBytes: seq<byte> := [0x00];
      if data[14] >= 0x80 {
        altBytes := [0xFF];
      }
      altBytes := altBytes + data[14..17];
      var altitude := Signed32(FromBE(altBytes));
      var speed := FromBE(data[17..19]);
      var direction := FromBE(data[19..21]);
      var odometer := FromBE(data[21..25]) / 1000;
      var satellites := data[26];
      var ioStatus := FromBE(data[27..29]);
      store.Process(Status(imei, PositionStatus(time, latitude, longitude, altitude, speed, direction, satellites,
                                                ioStatus % 2 == 1, odometer, data)));
    }

    /** What a message calls for: a status or a response for the store, and an ack. */
    method HandleMessage(m: Msg, writer: Writer, store: Store<Status<PositionStatus>>) returns (err: Option<Error>)
      modifies writer, store
      ensures EffectsOf(store, writer) == AfterMessage(imei, m, old(writer.budget), old(EffectsOf(store, writer)))
      ensures if |Acks(m)| > old(writer.budget) then err == Some(WriteFailed)
              else err == None && writer.budget == old(writer.budget) - |Acks(m)|
    {
      match m
      case Position(transaction, _, messageId, data) =>
        if messageId != 0xAB && |data| >= 46 {
          HandlePositionalData(data, store);
        }
        err := Acknowledge(writer, transaction, 0x00);
      case Text(transaction, _, _, _) =>
        err := Acknowledge(writer, transaction, 0x02);
      case Response(_, reply) =>
        store.Respond(DeviceResponse(imei, reply));
        err := None;
    }

    /** Binary messages until one fails. */
    method ConsumeStream(reader: Reader, writer: Writer, store: Store<Status<PositionStatus>>, ghost ms: Messages<Msg>, ghost body: BodyReader)
        returns (err: Error)
      requires reader.Valid() && isBinary && IsBody(body, reader.source) && IsMessages(ms, body, reader.source)
      modifies reader, writer, store
      ensures reader.Valid()
      ensures var run := RunFrom(ms, old(reader.pos), old(writer.budget));
        err == run.error && Done(imei, run, old(EffectsOf(store, writer)), EffectsOf(store, writer))
    {
      ghost var start, done := EffectsOf(store, writer), [];
      ghost var run := RunFrom(ms, reader.pos, writer.budget);
      OnTrackAtStart(imei, run, start);
      while true
        invariant reader.Valid()
        invariant OnTrack(imei, run, start, done, RunFrom(ms, reader.pos, writer.budget), EffectsOf(store, writer))
        decreases |reader.source.data| - reader.pos
      {
        ghost var now, writes := EffectsOf(store, writer), writer.budget;
        var m := ReadMessage(reader, ms, body);
        if m.Fail? {
          OnTrackAtEnd(imei, run, start, done, m.error, now);
          return m.error;
        }
        var e := HandleMessage(m.value, writer, store);
        if e.Some? {
          OnTrackUnacked(imei, run, start, done, m.value, writes, now);
          return e.value;
        }
        OnTrackStep(imei, run, start, done, m.value, writes, RunFrom(ms, m.next, writer.budget), now);
        done := done + [m.value];
      }
    }
  }

  // ----- Serving a stream -----

  /**
   What the decoder has left behind and returns when it has come through `xs` to `stop`: the statuses,
   the responses and the acks of each, in order. A message whose ack could not be written is stored.
   */
  ghost predicate Served(imei: seq<char>, xs: seq<Msg>, stop: Message<Msg>, writes: nat, err: Error, start: Effects, end: Effects) {
    && |All(Acks, xs)| <= writes
    && end.sent == start.sent + All(Acks, xs) && end.responses == start.responses + Responses(imei, All(Replies, xs))
    && match stop
       case Rejected(e, _) => err == e && end.processed == start.processed + AllPushes(imei, xs)
       case Accepted(x, _) =>
         && err == WriteFailed && |All(Acks, xs)| + |Acks(x)| > writes
         && end.processed == start.processed + AllPushes(imei, xs + [x])
  }

  lemma RunServed(imei: seq<char>, ms: Messages<Msg>, p: nat, writes: nat, xs: seq<Msg>, q: nat, stop: Message<Msg>,
                  run: Run<Msg>, start: Effects, end: Effects)
    requires ms.manners == TheManners() && StopsAt(ms, p, writes, xs, q, run) && stop == ms.at(q)
    requires Done(imei, run, start, end) && (stop.Rejected? ==> stop.leaked == [])
    ensures Served(imei, xs, stop, writes, run.error, start, end)
  {
    assert xs + [] == xs && All(Acks, xs) + [] == All(Acks, xs) && All(Replies, xs) + [] == All(Replies, xs);
  }

  lemma NothingLeaks(s: Source, p: nat)
    ensures MessageAt(s, p).Rejected? ==> MessageAt(s, p).leaked == []
  {}

  /** The decoder, for messages that are not looked into: it goes through `xs` and stops at `stop`. */
  method ServeTo(protocol: IntelliTracAProtocol, reader: Reader, writer: Writer, store: Store<Status<PositionStatus>>,
                 ghost ms: Messages<Msg>, ghost body: BodyReader, ghost xs: seq<Msg>, ghost q: nat, ghost stop: Message<Msg>)
      returns (err: Error)
    requires reader.Valid() && protocol.isBinary && IsBody(body, reader.source) && IsMessages(ms, body, reader.source)
    requires StopsAt(ms, reader.pos, writer.budget, xs, q, RunFrom(ms, reader.pos, writer.budget)) && stop == ms.at(q)
    requires stop.Rejected? ==> stop.leaked == []
    modifies reader, writer, store
    ensures reader.Valid()
    ensures Served(protocol.imei, xs, stop, old(writer.budget), err, old(EffectsOf(store, writer)), EffectsOf(store, writer))
  {
    ghost var p, writes, start := reader.pos, writer.budget, EffectsOf(store, writer);
    ghost var run := RunFrom(ms, p, writes);
    err := protocol.ConsumeStream(reader, writer, store, ms, body);
    RunServed(protocol.imei, ms, p, writes, xs, q, stop, run, start, EffectsOf(store, writer));
  }

  /** The messages that the decoder goes through from `p` on, and the one where it stops. */
  lemma StopsAtMessages(s: Source, p: nat, writes: nat)
      returns (ms: Messages<Msg>, body: BodyReader, xs: seq<Msg>, q: nat, stop: Message<Msg>)
    requires p <= |s.data|
    ensures IsBody(body, s) && IsMessages(ms, body, s)
    ensures Through(MessagesOf(s), TheFraming(), s, p, xs, xs, stop) && (stop.Rejected? ==> stop.leaked == [])
    ensures StopsAt(ms, p, writes, xs, q, RunFrom(ms, p, writes)) && stop == ms.at(q)
  {
    ms, body := MessagesOf(s), BodiesOf(s);
    TheMessages(s);
    MessagesProgress(s);
    var bodies;
    xs, bodies, q, stop := RunThrough(ms, TheFraming(), s, p, writes);
    SameBodies(xs);
    NothingLeaks(s, q);
  }

  /**
   The binary decoder on any stream: it takes consecutive messages, and stops at the first one that
   is rejected, with its error, or whose ack cannot be written. It leaves the statuses, responses and
   acks of the messages, in order, and nothing else.
   */
  method Serve(protocol: IntelliTracAProtocol, reader: Reader, writer: Writer, store: Store<Status<PositionStatus>>)
      returns (err: Error, ghost xs: seq<Msg>, ghost stop: Message<Msg>)
    requires reader.Valid() && protocol.isBinary
    modifies reader, writer, store
    ensures reader.Valid()
    ensures Through(MessagesOf(reader.source), TheFraming(), reader.source, old(reader.pos), xs, xs, stop)
    ensures Served(protocol.imei, xs, stop, old(writer.budget), err, old(EffectsOf(store, writer)), EffectsOf(store, writer))
  {
    ghost var ms, body, q;
    ms, body, xs, q, stop := StopsAtMessages(reader.source, reader.pos, writer.budget);
    err := ServeTo(protocol, reader, writer, store, ms, body, xs, q, stop);
  }
}
