/** The FM1200 protocol object: login, the message loop and commands. */
module Fm1200 {
  import opened Bytes
  import opened Streams
  import opened Fm1200Wire
  import opened Fm1200Parser
  import opened Runs
  import opened Fm1200Frames
  import Crc
  import CrcDivision

  // ----- Sorting by timestamp -----

  ghost predicate Sorted(rs: seq<AvlRecord>) {
    forall i, j :: 0 <= i < j < |rs| ==> rs[i].timestamp <= rs[j].timestamp
  }

  /** All that a sort which is not stable promises. */
  ghost predicate SortedPermutation(batch: seq<AvlRecord>, rs: seq<AvlRecord>) {
    Sorted(batch) && multiset(batch) == multiset(rs)
  }

  /** The first `n` entries are in order, leaving out the one at `hole`. */
  ghost predicate SortedAround(rs: seq<AvlRecord>, n: nat, hole: int)
    requires n <= |rs|
  {
    forall x, y :: 0 <= x < y < n && x != hole && y != hole ==> rs[x].timestamp <= rs[y].timestamp
  }

  method SwapDown(data: array<AvlRecord>, j: nat)
    requires 0 < j < data.Length
    modifies data
    ensures data[..] == old(data[..])[j - 1 := old(data[j])][j := old(data[j - 1])]
    ensures multiset(data[..]) == multiset(old(data[..]))
  {
    data[j - 1], data[j] := data[j], data[j - 1];
  }

  /** Entry `i` moves down to its place among the sorted entries before it. */
  method Insert(data: array<AvlRecord>, i: nat)
    requires i < data.Length && SortedAround(data[..], i, -1)
    modifies data
    ensures SortedAround(data[..], i + 1, -1) && multiset(data[..]) == multiset(old(data[..]))
  {
    var j := i;
    while j > 0 && data[j].timestamp < data[j - 1].timestamp
      invariant 0 <= j <= i
      invariant multiset(data[..]) == multiset(old(data[..]))
      invariant SortedAround(data[..], i + 1, j)
      invariant forall y :: j < y <= i ==> data[j].timestamp <= data[..][y].timestamp
    {
      SwapDown(data, j);
      j := j - 1;
    }
  }

  method SortByTimestamp(data: array<AvlRecord>)
    modifies data
    ensures SortedPermutation(data[..], old(data[..]))
  {
    var i := 0;
    while i < data.Length
      invariant i <= data.Length
      invariant multiset(data[..]) == multiset(old(data[..]))
      invariant SortedAround(data[..], i, -1)
    {
      Insert(data, i);
      i := i + 1;
    }
  }

  // ----- The link -----

  /** The checksum field of a frame, as a number. */
  function CrcField(data: seq<byte>): nat {
    CrcDivision.Teltonika(data) as nat
  }

  /** The FM1200 link. */
  function TheLink(): Link {
    Link(ParseBody, CrcField)
  }

  ghost predicate IsChecksum(crc: seq<byte> -> nat) {
    forall data {:trigger CrcField(data)} :: crc(data) == CrcField(data)
  }

  method ChecksumOf(data: seq<byte>) returns (c: nat)
    ensures c == CrcField(data) && c < 0x1_0000
  {
    var crc := Crc.CrcTeltonika(data);
    c := crc as nat;
  }

  method ValidateCrc(data: seq<byte>, expected: nat, ghost crc: seq<byte> -> nat) returns (valid: bool)
    requires IsChecksum(crc)
    ensures valid == (expected == crc(data))
  {
    assert crc(data) == CrcField(data);
    var c := ChecksumOf(data);
    valid := c == expected;
  }

  ghost predicate IsLink(link: Link) {
    IsBodyParser(link.parse) && IsChecksum(link.crc)
  }

  lemma TheLinkIsLink()
    ensures IsLink(TheLink())
  {}

  // ----- Consuming messages -----

  /** `batch` is what an accepted body sends to the status channel. */
  ghost predicate BatchOf(b: Body, batch: seq<AvlRecord>) {
    match b
    case Records(_, rs) => SortedPermutation(batch, DecodedRecords(rs))
    case Reply(_, _, _, _) => batch == []
  }

  /** One batch for each body, in the same order. */
  ghost predicate Batches(bs: seq<Body>, batches: seq<seq<AvlRecord>>) {
    if bs == [] || batches == [] then bs == [] && batches == [] else
      && Batches(bs[..|bs| - 1], batches[..|batches| - 1])
      && BatchOf(bs[|bs| - 1], batches[|batches| - 1])
  }

  lemma {:induction false} BatchesMeans(bs: seq<Body>, batches: seq<seq<AvlRecord>>)
    ensures Batches(bs, batches) <==> |bs| == |batches| && forall i :: 0 <= i < |bs| ==> BatchOf(bs[i], batches[i])
  {
    if bs != [] && batches != [] {
      BatchesMeans(bs[..|bs| - 1], batches[..|batches| - 1]);
      assert forall i :: 0 <= i < |bs| - 1 && i < |batches| - 1 ==>
        bs[..|bs| - 1][i] == bs[i] && batches[..|batches| - 1][i] == batches[i];
    }
  }

  /** A packet's batch has every record of the packet once, and the ack is the size of the batch. */
  lemma AckCountsBatch(b: Body, batch: seq<AvlRecord>)
    requires b.Records? && BatchOf(b, batch)
    ensures |batch| == |b.records| && Acks(b) == [ToBE(|batch|, 4)]
    ensures forall r :: r in batch <==> exists i :: 0 <= i < |b.records| && r == DecodedRecord(b.records[i])
  {
    var ds := DecodedRecords(b.records);
    assert |multiset(batch)| == |multiset(ds)|;
    forall r
      ensures r in batch <==> exists i :: 0 <= i < |b.records| && r == DecodedRecord(b.records[i])
    {
      assert r in batch <==> r in multiset(batch);
      assert r in ds <==> r in multiset(ds);
    }
  }

  /** The statuses of one batch after another. */
  function AllStatuses(imei: seq<char>, batches: seq<seq<AvlRecord>>): seq<Status<AvlRecord>> {
    if batches == [] then [] else AllStatuses(imei, batches[..|batches| - 1]) + Statuses(imei, batches[|batches| - 1])
  }

  lemma BatchesPush(imei: seq<char>, bs: seq<Body>, batches: seq<seq<AvlRecord>>, b: Body, batch: seq<AvlRecord>)
    requires Batches(bs, batches) && BatchOf(b, batch)
    ensures Batches(bs + [b], batches + [batch])
    ensures AllStatuses(imei, batches + [batch]) == AllStatuses(imei, batches) + Statuses(imei, batch)
  {
    assert (batches + [batch])[..|batches|] == batches && (bs + [b])[..|bs|] == bs;
  }

  /** The store and the connection, as far as a run changes them. */
  datatype Effects = Effects(processed: seq<Status<AvlRecord>>, responses: seq<DeviceResponse>, sent: seq<seq<byte>>)

  /** After the bodies `done`, `rest` is what is still to come of `run`. */
  ghost predicate OnTrack(imei: seq<char>, run: Run<Body>, start: Effects, done: seq<Body>, batches: seq<seq<AvlRecord>>,
                          rest: Run<Body>, now: Effects) {
    && Batches(done, batches) && now.processed == start.processed + AllStatuses(imei, batches)
    && run.bodies == done + rest.bodies && run.error == rest.error
    && start.sent + run.acks == now.sent + rest.acks
    && start.responses + Responses(imei, run.replies) == now.responses + Responses(imei, rest.replies)
  }

  lemma OnTrackAtStart(imei: seq<char>, run: Run<Body>, start: Effects)
    ensures OnTrack(imei, run, start, [], [], run, start)
  {
    assert [] + run.bodies == run.bodies && start.processed + [] == start.processed;
  }

  function EffectsOf(store: Store<Status<AvlRecord>>, writer: Writer): Effects
    reads store, writer
  {
    Effects(store.processed, store.responses, writer.sent)
  }

  /** What one message adds, when `writes` more acks can be written. */
  function AfterMessage(imei: seq<char>, m: Message<Body>, batch: seq<AvlRecord>, writes: nat, now: Effects): Effects {
    match m
    case Rejected(_, leaked) => Effects(now.processed, now.responses + Responses(imei, leaked), now.sent)
    case Accepted(b, _) =>
      Effects(now.processed + Statuses(imei, batch), now.responses + Responses(imei, Replies(b)),
              if |Acks(b)| > writes then now.sent else now.sent + Acks(b))
  }

  lemma OnTrackStep(imei: seq<char>, run: Run<Body>, start: Effects, done: seq<Body>, batches: seq<seq<AvlRecord>>,
                    m: Message<Body>, batch: seq<AvlRecord>, writes: nat, rest: Run<Body>, now: Effects)
    requires m.Accepted? && |Acks(m.body)| <= writes && BatchOf(m.body, batch)
    requires OnTrack(imei, run, start, done, batches, Continue(TheManners(), m.body, rest), now)
    ensures OnTrack(imei, run, start, done + [m.body], batches + [batch], rest, AfterMessage(imei, m, batch, writes, now))
  {
    var b := m.body;
    BatchesPush(imei, done, batches, b, batch);
    Regroup(start.processed, AllStatuses(imei, batches), Statuses(imei, batch));
    Regroup(done, [b], rest.bodies);
    Regroup(now.sent, Acks(b), rest.acks);
    ResponsesAppend(imei, Replies(b), rest.replies);
    Regroup(now.responses, Responses(imei, Replies(b)), Responses(imei, rest.replies));
  }

  /** All that a run leaves behind: its batches, replies and acks, in order and nothing else. */
  ghost predicate Done(imei: seq<char>, run: Run<Body>, start: Effects, batches: seq<seq<AvlRecord>>, end: Effects) {
    && Batches(run.bodies, batches)
    && end.processed == start.processed + AllStatuses(imei, batches)
    && end.responses == start.responses + Responses(imei, run.replies)
    && end.sent == start.sent + run.acks
  }

  lemma OnTrackRejected(imei: seq<char>, run: Run<Body>, start: Effects, done: seq<Body>, batches: seq<seq<AvlRecord>>,
                        m: Message<Body>, writes: nat, now: Effects)
    requires m.Rejected? && OnTrack(imei, run, start, done, batches, Run([], [], m.leaked, m.error), now)
    ensures Done(imei, run, start, batches, AfterMessage(imei, m, [], writes, now)) && run.error == m.error
  {
    assert done + [] == done && now.sent + [] == now.sent;
  }

  lemma OnTrackUnacked(imei: seq<char>, run: Run<Body>, start: Effects, done: seq<Body>, batches: seq<seq<AvlRecord>>,
                       m: Message<Body>, batch: seq<AvlRecord>, writes: nat, now: Effects)
    requires m.Accepted? && |Acks(m.body)| > writes && BatchOf(m.body, batch)
    requires OnTrack(imei, run, start, done, batches, Run([m.body], [], [], WriteFailed), now)
    ensures Done(imei, run, start, batches + [batch], AfterMessage(imei, m, batch, writes, now)) && run.error == WriteFailed
  {}

  /** `ms` are the messages of `s`; the loop below need not look inside one. */
  ghost predicate IsMessages(ms: Messages<Body>, link: Link, s: Source) {
    && ms.end == |s.data| && ms.manners == TheManners() && Progress(ms)
    && forall p: nat {:trigger MessageAt(link, s, p)} :: ms.at(p) == MessageAt(link, s, p)
  }

  // ----- Login and commands -----

  /** A two-byte length of 15, then the 15 characters of the IMEI. */
  function ImeiAt(s: Source, p: nat): Result<seq<char>> {
    if p + 2 > |s.data| then Failure(s.end)
    else if FromBE(s.data[p..p + 2]) != 15 then Failure(UnknownProtocol)
    else if p + 17 > |s.data| then Failure(s.end)
    else Success(Chars(s.data[p + 2..p + 17]))
  }

  function LoginAt(s: Source, p: nat): Login {
    match ImeiAt(s, p)
    case Failure(e) => LoginFailed(e)
    case Success(imei) => LoggedIn(imei, [0x01], 17)
  }

  /** Codec 12, one command of type 5, its size and text, and the quantity again. */
  function CommandData(command: seq<byte>): seq<byte> {
    [0x0C, 0x01, 0x05] + ToBE(|command|, 4) + command + [0x01]
  }

  lemma CommandSoFar(command: seq<byte>, sofar: seq<byte>)
    requires sofar == [0x00, 0x00, 0x00, 0x00] + ToBE(|command| + 8, 4) + [0x0C, 0x01, 0x05] + ToBE(|command|, 4) + command + [0x01]
    ensures sofar == [0x00, 0x00, 0x00, 0x00] + ToBE(|CommandData(command)|, 4) + CommandData(command)
    ensures sofar[8..] == CommandData(command)
  {}

  lemma CommandComplete(data: seq<byte>, crc: nat, frame: seq<byte>)
    requires crc < 0x1_0000
    requires frame == [0x00, 0x00, 0x00, 0x00] + ToBE(|data|, 4) + data + [0x00, 0x00] + ToBE(crc, 2)
    ensures frame == FrameWith(data, crc)
  {
    ZerosInFront(crc);
  }

  class FM1200Protocol {
    var imei: seq<char>

    constructor ()
      ensures imei == []
    {
      imei := [];
    }

    /** The preamble, the length and the data of one frame. */
    method ReadData(reader: Reader) returns (r: Parsed<seq<byte>>)
      requires reader.Valid()
      modifies reader
      ensures reader.Valid()
      ensures r == DataAt(reader.source, old(reader.pos)) && (r.Ok? ==> reader.pos == r.next)
    {
      var zeros := reader.ReadNumber(4);
      if zeros.Fail? {
        return Fail(if zeros.error.Timeout? then ReadTimeout else Wrapped(zeros.error));
      }
      if zeros.value != 0 {
        return Fail(Wrapped(BadDataPacket));
      }
      var length := reader.ReadNumber(4);
      if length.Fail? {
        return Fail(length.error);
      }
      var data := reader.ReadFull(length.value);
      if data.Fail? {
        return Fail(Wrapped(BadDataPacket));
      }
      return data;
    }

    method PushRecords(batch: seq<AvlRecord>, store: Store<Status<AvlRecord>>)
      modifies store
      ensures store.processed == old(store.processed) + Statuses(imei, batch) && store.responses == old(store.responses)
    {
      var i := 0;
      while i < |batch|
        invariant i <= |batch|
        invariant store.processed == old(store.processed) + Statuses(imei, batch)[..i]
        invariant store.responses == old(store.responses)
      {
        store.Process(Status(imei, batch[i]));
        i := i + 1;
      }
    }

    /** Sorts the records of a packet, pushes them one by one, and answers with their number. */
    method StoreAndAck(packet: AvlDataPacket, store: Store<Status<AvlRecord>>, writer: Writer)
        returns (ok: bool, ghost batch: seq<AvlRecord>)
      modifies store, writer
      ensures SortedPermutation(batch, packet.data)
      ensures store.processed == old(store.processed) + Statuses(imei, batch) && store.responses == old(store.responses)
      ensures ok == (old(writer.budget) > 0)
      ensures writer.sent == if ok then old(writer.sent) + [ToBE(packet.numberOfData, 4)] else old(writer.sent)
      ensures writer.budget == if ok then old(writer.budget) - 1 else old(writer.budget)
    {
      var sorted := new AvlRecord[|packet.data|](i requires 0 <= i < |packet.data| => packet.data[i]);
      assert sorted[..] == packet.data;
      SortByTimestamp(sorted);
      batch := sorted[..];
      PushRecords(sorted[..], store);
      ok := writer.Write(ToBE(packet.numberOfData, 4));
    }

    /** The checksum behind the data, read and compared. */
    method ReadChecksum(reader: Reader, data: seq<byte>, ghost link: Link, ghost body: Body) returns (err: Option<Error>)
      requires reader.Valid() && IsChecksum(link.crc)
      modifies reader
      ensures reader.Valid()
      ensures match ChecksumAt(reader.source, old(reader.pos), body, link.crc(data))
        case Rejected(e, _) => err == Some(e)
        case Accepted(_, next) => err == None && reader.pos == next
    {
      var crc := reader.ReadNumber(4);
      if crc.Fail? {
        return Some(Wrapped(BadDataPacket));
      }
      var valid := ValidateCrc(data, crc.value, link.crc);
      return if valid then None else Some(BadCrc);
    }

    /** Data that decodes: a reply goes to the store, then the checksum is checked, then records follow. */
    method HandleDecoded(reader: Reader, data: seq<byte>, decoded: Decoded, store: Store<Status<AvlRecord>>, writer: Writer,
                         ghost link: Link, ghost body: Body, ghost m: Message<Body>)
        returns (err: Option<Error>, ghost batch: seq<AvlRecord>)
      requires reader.Valid() && IsChecksum(link.crc) && decoded == DecodedBody(body)
      requires m == ChecksumAt(reader.source, reader.pos, body, link.crc(data))
      modifies reader, store, writer
      ensures reader.Valid()
      ensures EffectsOf(store, writer) == AfterMessage(imei, m, batch, old(writer.budget), old(EffectsOf(store, writer)))
      ensures match m
        case Rejected(e, _) => err == Some(e) && batch == []
        case Accepted(b, next) =>
          && reader.pos == next && BatchOf(b, batch)
          && if |Acks(b)| > old(writer.budget) then err == Some(WriteFailed)
             else err == None && writer.budget == old(writer.budget) - |Acks(b)|
    {
      batch := [];
      if decoded.DeviceReply? {
        store.Respond(DeviceResponse(imei, decoded.text));
      }
      err := ReadChecksum(reader, data, link, body);
      if err.Some? || decoded.DeviceReply? {
        return;
      }
      var ok;
      ok, batch := StoreAndAck(decoded.packet, store, writer);
      err := if ok then None else Some(WriteFailed);
    }

    /** One message: what it comes to, and exactly what it sends to the store and the device. */
    method ConsumeMessage(reader: Reader, store: Store<Status<AvlRecord>>, writer: Writer, ghost link: Link, ghost ms: Messages<Body>)
        returns (err: Option<Error>, ghost batch: seq<AvlRecord>)
      requires reader.Valid() && IsLink(link) && IsMessages(ms, link, reader.source)
      modifies reader, store, writer
      ensures reader.Valid()
      ensures EffectsOf(store, writer)
           == AfterMessage(imei, ms.at(old(reader.pos)), batch, old(writer.budget), old(EffectsOf(store, writer)))
      ensures match ms.at(old(reader.pos))
        case Rejected(e, leaked) =>
          && err == Some(e) && batch == [] && |leaked| <= 1
          && store.processed == old(store.processed) && writer.sent == old(writer.sent)
          && store.responses == old(store.responses) + Responses(imei, leaked)
        case Accepted(b, next) =>
          && reader.pos == next && BatchOf(b, batch)
          && if |Acks(b)| > old(writer.budget) then err == Some(WriteFailed)
             else err == None && writer.budget == old(writer.budget) - |Acks(b)|
    {
      ghost var m := ms.at(reader.pos);
      assert m == MessageAt(link, reader.source, reader.pos);
      if m.Rejected? && m.leaked != [] {
        OneLeak(link, reader.source, reader.pos);
      }
      var data := ReadData(reader);
      if data.Fail? {
        return Some(data.error), [];
      }
      var decoded := ParseData(data.value, link.parse);
      if decoded.Failure? {
        return Some(decoded.error), [];
      }
      err, batch := HandleDecoded(reader, data.value, decoded.value, store, writer, link, link.parse(data.value).value, m);
    }

    /** Messages until one fails. Only a bare EOF counts as a good end. */
    method ConsumeStream(reader: Reader, store: Store<Status<AvlRecord>>, writer: Writer, ghost link: Link, ghost ms: Messages<Body>)
        returns (err: Option<Error>, ghost batches: seq<seq<AvlRecord>>)
      requires reader.Valid() && IsLink(link) && IsMessages(ms, link, reader.source)
      modifies reader, store, writer
      ensures reader.Valid()
      ensures var run := RunFrom(ms, old(reader.pos), old(writer.budget));
        && err == (if run.error == EOF then None else Some(run.error))
        && Done(imei, run, old(EffectsOf(store, writer)), batches, EffectsOf(store, writer))
    {
      batches := [];
      ghost var start, done := EffectsOf(store, writer), [];
      ghost var run := RunFrom(ms, reader.pos, writer.budget);
      OnTrackAtStart(imei, run, start);
      while true
        invariant reader.Valid()
        invariant OnTrack(imei, run, start, done, batches, RunFrom(ms, reader.pos, writer.budget), EffectsOf(store, writer))
        decreases |reader.source.data| - reader.pos
      {
        ghost var m, writes, now := ms.at(reader.pos), writer.budget, EffectsOf(store, writer);
        var e, batch := ConsumeMessage(reader, store, writer, link, ms);
        if m.Rejected? {
          OnTrackRejected(imei, run, start, done, batches, m, writes, now);
        } else if |Acks(m.body)| > writes {
          OnTrackUnacked(imei, run, start, done, batches, m, batch, writes, now);
          batches := batches + [batch];
        } else {
          OnTrackStep(imei, run, start, done, batches, m, batch, writes, RunFrom(ms, m.next, writer.budget), now);
          batches, done := batches + [batch], done + [m.body];
        }
        if e.Some? {
          return if e.value.EOF? then None else e, batches;
        }
      }
    }

    /** The IMEI in front of the stream, without taking anything from it. */
    method PeekImei(reader: Reader) returns (r: Result<seq<char>>)
      requires reader.Valid()
      ensures r == ImeiAt(reader.source, reader.pos)
    {
      var length := reader.Peek(2);
      if length.Failure? {
        return Failure(length.error);
      }
      if FromBE(length.value) != 15 {
        return Failure(UnknownProtocol);
      }
      var bytes := reader.Peek(17);
      if bytes.Failure? {
        return Failure(bytes.error);
      }
      return Success(Chars(bytes.value[2..]));
    }

    method Login(reader: Reader) returns (r: Login)
      requires reader.Valid()
      modifies this
      ensures r == LoginAt(reader.source, reader.pos)
      ensures r.LoggedIn? ==> imei == r.id
    {
      var peeked := PeekImei(reader);
      if peeked.Failure? {
        return LoginFailed(peeked.error);
      }
      imei := peeked.value;
      return LoggedIn(peeked.value, [0x01], 17);
    }

    /** Sends one frame; the length field wraps at 32 bits. */
    method SendCommandToDevice(writer: Writer, command: seq<byte>) returns (err: Option<Error>)
      modifies writer
      ensures if |command| > 0xFFFF_FFFF then err == Some(CommandTooLarge) && writer.sent == old(writer.sent)
              else if old(writer.budget) == 0 then err == Some(WriteFailed) && writer.sent == old(writer.sent)
              else err == None && writer.sent == old(writer.sent) + [FrameWith(CommandData(command), CrcField(CommandData(command)))]
    {
      var commandSize := |command|;
      if commandSize > 0xFFFF_FFFF {
        return Some(CommandTooLarge);
      }
      var dataSize := commandSize + 8;
      var commandHex: seq<byte> := [0x00, 0x00, 0x00, 0x00];
      commandHex := commandHex + ToBE(dataSize, 4);
      commandHex := commandHex + [CODEC_12, 0x01, 0x05];
      commandHex := commandHex + ToBE(commandSize, 4);
      commandHex := commandHex + command;
      commandHex := commandHex + [0x01];
      CommandSoFar(command, commandHex);
      var crc := ChecksumOf(commandHex[8..]);
      commandHex := commandHex + [0x00, 0x00];
      commandHex := commandHex + ToBE(crc, 2);
      CommandComplete(CommandData(command), crc, commandHex);
      var ok := writer.Write(commandHex);
      return if ok then None else Some(WriteFailed);
    }
  }
}
