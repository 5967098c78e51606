/** What the FM1200 decoder guarantees: whole runs, acceptance, corruption, and the command round trip. */
module Fm1200Laws {
  import opened Bytes
  import opened Streams
  import opened Fm1200Wire
  import opened Runs
  import opened Fm1200Frames
  import opened Fm1200Parser
  import opened Fm1200Ends
  import opened Fm1200Values
  import opened Fm1200
  import CrcDivision
  import CrcBurst

  lemma CrcFieldBound(data: seq<byte>)
    ensures CrcField(data) < 0x1_0000
  {}

  /** The decoder's own messages meet what its loops ask of them. */
  lemma TheMessages(s: Source)
    ensures IsLink(TheLink()) && IsMessages(MessagesOf(TheLink(), s), TheLink(), s)
  {
    TheLinkIsLink();
    MessagesProgress(TheLink(), s);
  }

  // ----- Acceptance -----

  /** A frame with the right checksum stands between `p` and `next`, and its data starts with these records. */
  predicate PacketStands(s: Source, p: nat, codec: byte, rs: seq<WireRecord>, data: seq<byte>, next: nat) {
    && At(s, p, FrameWith(data, CrcField(data))) && |data| < 0x1_0000_0000 && next == p + |data| + 12
    && PacketBytes(codec, rs) <= data && codec != 0x0C
    && |rs| <= 255 && forall i :: 0 <= i < |rs| ==> FitsRecord(rs[i], codec == 0x8E)
  }

  lemma LinkIff(link: Link, data: seq<byte>, codec: byte, rs: seq<WireRecord>)
    requires IsLink(link)
    ensures link.crc(data) == CrcField(data) < 0x1_0000
    ensures link.parse(data).Ok? && link.parse(data).value == Records(codec, rs)
       <==> && PacketBytes(codec, rs) <= data && codec != 0x0C && |rs| <= 255
            && forall i :: 0 <= i < |rs| ==> FitsRecord(rs[i], codec == 0x8E)
  {
    CrcFieldBound(data);
    PacketIff(data, codec, rs);
  }

  /**
   Records are accepted exactly where a frame stands whose checksum is right and whose data starts
   with those records between two equal counts.
   */
  lemma RecordsAcceptedIff(link: Link, s: Source, p: nat, codec: byte, rs: seq<WireRecord>, next: nat)
    requires IsLink(link) && p <= |s.data|
    ensures MessageAt(link, s, p) == Accepted(Records(codec, rs), next)
       <==> exists data :: PacketStands(s, p, codec, rs, data, next)
  {
    if MessageAt(link, s, p) == Accepted(Records(codec, rs), next) {
      var data := AcceptedIsFrame(link, s, p);
      LinkIff(link, data, codec, rs);
      assert PacketStands(s, p, codec, rs, data, next);
    }
    forall data | PacketStands(s, p, codec, rs, data, next)
      ensures MessageAt(link, s, p) == Accepted(Records(codec, rs), next)
    {
      LinkIff(link, data, codec, rs);
      FrameAccepted(link, s, p, data);
    }
  }

  /**
   The batch that is stored for accepted records holds what each of these records means, as often as it
   was sent and nothing else, in the order of the timestamps.
   */
  lemma BatchMeans(codec: byte, rs: seq<WireRecord>, batch: seq<AvlRecord>) returns (ds: seq<AvlRecord>)
    requires BatchOf(Records(codec, rs), batch) && forall i :: 0 <= i < |rs| ==> FitsRecord(rs[i], codec == 0x8E)
    ensures |ds| == |rs| && forall i :: 0 <= i < |rs| ==> Means(ds[i], rs[i])
    ensures multiset(batch) == multiset(ds)
    ensures forall j, k :: 0 <= j < k < |batch| ==> batch[j].timestamp <= batch[k].timestamp
  {
    ds := DecodedRecords(rs);
    forall i | 0 <= i < |rs|
      ensures Means(ds[i], rs[i])
    {
      RecordMeans(rs[i], codec == 0x8E);
    }
  }

  // ----- Logins and answers on the wire -----

  /** A device logs in exactly by 00 0F and fifteen bytes, which are its id; it is answered 01 and 17 bytes are skipped. */
  lemma LoginIff(s: Source, p: nat, id: seq<char>, ack: seq<byte>, skip: nat)
    ensures LoginAt(s, p) == LoggedIn(id, ack, skip)
       <==> && p + 17 <= |s.data| && s.data[p..p + 2] == [0x00, 0x0F] && id == Chars(s.data[p + 2..p + 17])
            && ack == [0x01] && skip == 17
  {
    if p + 2 <= |s.data| {
      LengthFifteen(s.data[p..p + 2]);
    }
  }

  /** Any other two bytes are another protocol's; what is too short ends as the stream does. */
  lemma LoginErrors(s: Source, p: nat)
    requires LoginAt(s, p).LoginFailed?
    ensures LoginAt(s, p).error == if p + 2 <= |s.data| && s.data[p..p + 2] != [0x00, 0x0F] then UnknownProtocol else s.end
  {
    if p + 2 <= |s.data| {
      LengthFifteen(s.data[p..p + 2]);
    }
  }

  lemma LengthFifteen(b: seq<byte>)
    requires |b| == 2
    ensures FromBE(b) == 15 <==> b == [0x00, 0x0F]
  {
    var front := b[..1];
    assert front == [b[0]] && front[..0] == [];
    assert FromBE(front) == FromBE(front[..0]) * 256 + b[0];
    assert FromBE(b) == FromBE(front) * 256 + b[1];
  }

  /**
   Data that parses is answered by its first byte: Codec 12 with nothing, and its text goes to the store;
   anything else with its second byte, the number of records, in four bytes, and nothing goes to the store
   as a reply.
   */
  lemma AnswerOnWire(link: Link, data: seq<byte>)
    requires IsLink(link) && link.parse(data).Ok?
    ensures |data| >= 2 && (data[0] == 0x0C ==> |data| >= 8)
    ensures var b := link.parse(data).value;
      if data[0] == 0x0C then
        var n := FromBE(data[3..7]);
        |data| >= n + 8 && Acks(b) == [] && Replies(b) == [data[7..7 + n]]
      else Acks(b) == [[0x00, 0x00, 0x00, data[1]]] && Replies(b) == []
  {
    match link.parse(data).value
    case Records(codec, rs) => RecordsAnswered(link, data, codec, rs);
    case Reply(q1, kind, text, q2) => ReplyAnswered(link, data, q1, kind, text, q2);
  }

  lemma RecordsAnswered(link: Link, data: seq<byte>, codec: byte, rs: seq<WireRecord>)
    requires IsLink(link) && link.parse(data).Ok? && link.parse(data).value == Records(codec, rs)
    ensures |data| >= 2 && data[0] == codec != 0x0C && ToBE(|rs|, 4) == [0x00, 0x00, 0x00, data[1]]
  {
    LinkIff(link, data, codec, rs);
    PacketFront(data, codec, |rs|, RecordsBytes(rs, codec == 0x8E));
    SmallNumber(|rs|);
  }

  lemma SmallNumber(n: nat)
    requires n < 256
    ensures ToBE(n, 4) == [0x00, 0x00, 0x00, n]
  {
    ZerosInFront(n);
    TwoBytesOf(n);
  }

  lemma ReplyAnswered(link: Link, data: seq<byte>, q1: nat, kind: nat, text: seq<byte>, q2: nat)
    requires IsLink(link) && link.parse(data).Ok? && link.parse(data).value == Reply(q1, kind, text, q2)
    ensures |data| >= |text| + 8 && data[0] == 0x0C && FromBE(data[3..7]) == |text| && data[7..7 + |text|] == text
  {
    ReplyFits(link, data);
    ReplyParsed(link, data, q1, kind, text, q2);
    ReplyPieces(data, q1, kind, ToBE(|text|, 4), text, q2);
    BEWidths();
    FromToBE(|text|, 4);
  }

  lemma PacketFront(data: seq<byte>, codec: byte, n: byte, records: seq<byte>)
    requires [codec] + (ToBE(n, 1) + records + ToBE(n, 1)) <= data
    ensures |data| >= 3 && data[0] == codec && data[1] == n
  {
    OneByte(n);
    var b := [codec] + ([n] + records + [n]);
    assert data[0] == b[0] && data[1] == b[1];
  }

  lemma ReplyPieces(data: seq<byte>, q1: byte, kind: byte, size: seq<byte>, text: seq<byte>, q2: byte)
    requires |size| == 4 && [0x0C, q1, kind] + size + text + [q2] <= data
    ensures |data| >= |text| + 8 && data[0] == 0x0C && data[3..7] == size && data[7..7 + |text|] == text
  {
    var b := [0x0C, q1, kind] + size + text + [q2];
    assert data[0] == b[0] && data[3..7] == b[3..7] && data[7..7 + |text|] == b[7..7 + |text|];
  }

  // ----- Rejections -----

  /** The error of a frame, by where its bytes go wrong first. */
  lemma FrameErrors(link: Link, s: Source, p: nat, length: nat)
    requires p <= |s.data| && (p + 8 <= |s.data| ==> length == FromBE(s.data[p + 4..p + 8]))
    ensures MessageAt(link, s, p) ==
      if p + 4 > |s.data| then Rejected(if Early(s, p) == Timeout then ReadTimeout else Wrapped(Early(s, p)), [])
      else if s.data[p..p + 4] != [0x00, 0x00, 0x00, 0x00] then Rejected(Wrapped(BadDataPacket), [])
      else if p + 8 > |s.data| then Rejected(Early(s, p + 4), [])
      else if p + 8 + length > |s.data| then Rejected(Wrapped(BadDataPacket), [])
      else AfterData(link, s, p + 8 + length, s.data[p + 8..p + 8 + length], link.parse(s.data[p + 8..p + 8 + length]))
  {
    if p + 4 <= |s.data| {
      ZeroBytes(s.data[p..p + 4]);
    }
  }

  lemma ZeroBytes(b: seq<byte>)
    requires |b| == 4
    ensures FromBE(b) == 0 <==> b == [0x00, 0x00, 0x00, 0x00]
  {
    var zeros := ToBE(0, 4);
    ZeroWord();
    BEWidths();
    FromToBE(0, 4);
    ToFromBE(b);
  }

  /** What whole data comes to: its own error, or that of a checksum that is cut off or wrong; a reply is stored before that. */
  function AfterData(link: Link, s: Source, q: nat, data: seq<byte>, parsed: Parsed<Body>): Message<Body> {
    match parsed
    case Fail(e) => Rejected(e, [])
    case Ok(b, _) =>
      var leaked := if b.Reply? then [b.text] else [];
      if q + 4 > |s.data| then Rejected(Wrapped(BadDataPacket), leaked)
      else if FromBE(s.data[q..q + 4]) != link.crc(data) then Rejected(BadCrc, leaked)
      else Accepted(b, q + 4)
  }

  // ----- Corruption -----

  /** A frame whose data was hit by a burst of at most 16 bits is rejected, whatever its data parses to. */
  lemma BurstRejected(link: Link, s: Source, p: nat, data: seq<byte>, received: seq<byte>, lo: nat)
    requires IsLink(link) && CrcBurst.BurstApart(data, received, lo) && |data| < 0x1_0000_0000
    requires At(s, p, FrameWith(received, CrcField(data)))
    ensures MessageAt(link, s, p).Rejected?
  {
    CrcBurst.BurstDetected(data, received, lo);
    CrcFieldsDiffer(data, received);
    CrcFieldBound(data);
    CorruptionRejected(link, s, p, data, received);
  }

  lemma CrcFieldsDiffer(a: seq<byte>, b: seq<byte>)
    requires CrcDivision.Teltonika(a) != CrcDivision.Teltonika(b)
    ensures CrcField(a) != CrcField(b)
  {
    CrcBurst.WordRoundTrip(CrcDivision.Teltonika(a));
    CrcBurst.WordRoundTrip(CrcDivision.Teltonika(b));
  }

  // ----- Leaked replies -----

  lemma ReplyBytes(q1: byte, kind: byte, size: seq<byte>, text: seq<byte>, q2: byte)
    ensures [0x0C, q1, kind] + size + text + [q2]
         == [0x0C] + ((ToBE(q1, 1) + ToBE(kind, 1)) + ((size + text) + ToBE(q2, 1)))
  {
    OneByte(q1);
    OneByte(kind);
    OneByte(q2);
  }

  /** Data that starts with a Codec 12 body with this text. */
  predicate ReplyStands(data: seq<byte>, q1: byte, kind: byte, text: seq<byte>, q2: byte) {
    |text| < 0x1_0000_0000 && [0x0C, q1, kind] + ToBE(|text|, 4) + text + [q2] <= data
  }

  /** A frame with a reply whose checksum is missing or wrong. */
  predicate UnconfirmedReply(s: Source, p: nat, data: seq<byte>, q1: byte, kind: byte, text: seq<byte>, q2: byte) {
    && At(s, p, Unchecked(data)) && |data| < 0x1_0000_0000 && ReplyStands(data, q1, kind, text, q2)
    && !At(s, p + 8 + |data|, ToBE(CrcField(data), 4))
  }

  lemma ReplyParsed(link: Link, data: seq<byte>, q1: byte, kind: byte, text: seq<byte>, q2: byte)
    requires IsLink(link)
    ensures link.parse(data).Ok? && link.parse(data).value == Reply(q1, kind, text, q2) <==> ReplyStands(data, q1, kind, text, q2)
  {
    ReplyLayout(q1, kind, text, q2);
    ReplyBytes(q1, kind, ToBE(|text|, 4), text, q2);
    BodyIff(data, Reply(q1, kind, text, q2));
  }

  lemma ReplyFits(link: Link, data: seq<byte>)
    requires IsLink(link) && link.parse(data).Ok? && link.parse(data).value.Reply?
    ensures var b := link.parse(data).value;
      b.quantity1 < 0x100 && b.kind < 0x100 && b.quantity2 < 0x100
  {
    var b := link.parse(data).value;
    BodyIff(data, b);
    ReplyLayout(b.quantity1, b.kind, b.text, b.quantity2);
  }

  /**
   A rejected message leaves a reply in the store exactly if its frame has that reply in its data and
   the checksum behind the data is missing or wrong.
   */
  lemma LeakIff(link: Link, s: Source, p: nat, text: seq<byte>)
    requires IsLink(link) && p <= |s.data|
    ensures MessageAt(link, s, p).Rejected? && MessageAt(link, s, p).leaked == [text]
       <==> exists data, q1: byte, kind: byte, q2: byte :: UnconfirmedReply(s, p, data, q1, kind, text, q2)
  {
    FieldsBounded(link);
    if MessageAt(link, s, p).Rejected? && MessageAt(link, s, p).leaked == [text] {
      var data := LeakOnly(link, s, p, text);
      var b := link.parse(data).value;
      ReplyFits(link, data);
      ReplyParsed(link, data, b.quantity1, b.kind, text, b.quantity2);
      assert UnconfirmedReply(s, p, data, b.quantity1, b.kind, text, b.quantity2);
    }
    forall data, q1: byte, kind: byte, q2: byte | UnconfirmedReply(s, p, data, q1, kind, text, q2)
      ensures MessageAt(link, s, p).Rejected? && MessageAt(link, s, p).leaked == [text]
    {
      ReplyParsed(link, data, q1, kind, text, q2);
      LeakFollows(link, s, p, data, text);
    }
  }

  lemma FieldsBounded(link: Link)
    requires IsLink(link)
    ensures forall data :: link.crc(data) == CrcField(data) < 0x1_0000
  {
    forall data
      ensures link.crc(data) == CrcField(data) < 0x1_0000
    {
      CrcFieldBound(data);
    }
  }

  /** Records never leak: a rejected message leaves at most one reply behind, and that only with codec 12. */
  lemma RecordsNeverLeak(link: Link, s: Source, p: nat)
    requires IsLink(link) && p <= |s.data| && MessageAt(link, s, p).Rejected? && MessageAt(link, s, p).leaked != []
    ensures |MessageAt(link, s, p).leaked| == 1
    ensures DataAt(s, p).Ok? && DataAt(s, p).value != [] && DataAt(s, p).value[0] == 0x0C
  {
    FieldsBounded(link);
    OneLeak(link, s, p);
    var data := LeakOnly(link, s, p, MessageAt(link, s, p).leaked[0]);
    DataIff(s, p, data);
    var b := link.parse(data).value;
    ReplyFits(link, data);
    ReplyParsed(link, data, b.quantity1, b.kind, b.text, b.quantity2);
  }

  /** A whole frame around a reply, with any wrong checksum, is rejected and leaves its reply in the store. */
  lemma WrongChecksumLeaks(link: Link, s: Source, p: nat, data: seq<byte>, q1: byte, kind: byte, text: seq<byte>, q2: byte, c: nat)
    requires IsLink(link) && ReplyStands(data, q1, kind, text, q2) && |data| < 0x1_0000_0000
    requires At(s, p, FrameWith(data, c)) && c < 0x1_0000_0000 && c != CrcField(data)
    ensures MessageAt(link, s, p) == Rejected(BadCrc, [text])
  {
    SplitChecksum(s, p, data, c);
    ReplyParsed(link, data, q1, kind, text, q2);
    CrcFieldBound(data);
    DataIff(s, p, data);
    var body := link.parse(data).value;
    MessageWithData(link, s, p, data, body, link.parse(data).next);
    WrongChecksum(s, p + 8 + |data|, body, link.crc(data), c);
  }

  lemma SplitChecksum(s: Source, p: nat, data: seq<byte>, c: nat)
    ensures At(s, p, FrameWith(data, c)) <==> At(s, p, Unchecked(data)) && At(s, p + 8 + |data|, ToBE(c, 4))
  {
    Regroup([0, 0, 0, 0], ToBE(|data|, 4) + data, ToBE(c, 4));
    Regroup(ToBE(|data|, 4), data, ToBE(c, 4));
    AtSplit(s, p, Unchecked(data), ToBE(c, 4));
  }

  /** The reply OK, with a number behind it that is too large for any checksum. */
  lemma LeakExample()
    ensures MessageAt(TheLink(), Source(FrameWith([0x0C, 1, 6, 0, 0, 0, 2, 0x4F, 0x4B, 1], 0x100_0000), EOF), 0)
         == Rejected(BadCrc, [[0x4F, 0x4B]])
  {
    var data: seq<byte> := [0x0C, 1, 6, 0, 0, 0, 2, 0x4F, 0x4B, 1];
    ReplyExample(data);
    TheLinkIsLink();
    CrcFieldBound(data);
    var s := Source(FrameWith(data, 0x100_0000), EOF);
    WrongChecksumLeaks(TheLink(), s, 0, data, 1, 6, [0x4F, 0x4B], 1, 0x100_0000);
  }

  lemma ReplyExample(data: seq<byte>)
    requires data == [0x0C, 1, 6, 0, 0, 0, 2, 0x4F, 0x4B, 1]
    ensures ReplyStands(data, 1, 6, [0x4F, 0x4B], 1)
  {
    ZerosInFront(2);
    assert ToBE(2, 2) == [0, 2];
    assert [0x0C, 1, 6] + [0, 0, 0, 2] + [0x4F, 0x4B] + [1] == data;
  }

  // ----- Whole runs -----

  /**
   On any stream of well-formed frames the run delivers every body in order, answers each AVL packet
   with its number of records and no Codec 12 frame, and ends where the frames end. What ends it is
   the EOF in the preamble of the frame that does not come, which is reported as an error.
   */
  lemma WholeRun(link: Link, datas: seq<seq<byte>>, writes: nat)
    requires forall i :: 0 <= i < |datas| ==> Carries(link, datas[i])
    requires |All(Acks, Bodies(FramingOf(link), datas))| <= writes
    ensures var s := Source(Frames(FramingOf(link), datas), EOF);
            var bs, ms := Bodies(FramingOf(link), datas), MessagesOf(link, s);
      Progress(ms) && RunFrom(ms, 0, writes) == Run(bs, All(Acks, bs), All(Replies, bs), Wrapped(EOF))
  {
    var framing := FramingOf(link);
    var s := Source(Frames(framing, datas), EOF);
    var ms := MessagesOf(link, s);
    MessagesProgress(link, s);
    AllTaken(link, ms, framing, s, datas);
    NothingLeft(link, s);
    WholeStream(ms, framing, s, datas, writes, Wrapped(EOF));
  }

  lemma AllTaken(link: Link, ms: Messages<Body>, framing: Framing<seq<byte>, Body>, s: Source, datas: seq<seq<byte>>)
    requires ms == MessagesOf(link, s) && framing == FramingOf(link)
    requires forall i :: 0 <= i < |datas| ==> Carries(link, datas[i])
    ensures forall i :: 0 <= i < |datas| ==> Takes(ms, framing, s, datas[i])
  {
    forall i | 0 <= i < |datas|
      ensures Takes(ms, framing, s, datas[i])
    {
      FrameTaken(link, s, datas[i]);
    }
  }

  lemma NothingLeft(link: Link, s: Source)
    requires s.end == EOF
    ensures MessageAt(link, s, |s.data|) == Rejected(Wrapped(EOF), [])
  {}

  /** On any stream at all, what a run delivers came out of consecutive frames from its start on. */
  lemma RunComesFromFrames(link: Link, s: Source, p: nat, writes: nat) returns (datas: seq<seq<byte>>)
    requires IsLink(link) && p <= |s.data|
    ensures Progress(MessagesOf(link, s))
    ensures forall i :: 0 <= i < |datas| ==> link.parse(datas[i]).Ok?
    ensures At(s, p, Frames(FramingOf(link), datas))
    ensures RunFrom(MessagesOf(link, s), p, writes).bodies == Bodies(FramingOf(link), datas)
  {
    MessagesProgress(link, s);
    FramesOnly(link, s);
    datas := RunIsFrames(MessagesOf(link, s), FramingOf(link), s, p, writes);
  }

  // ----- Serving a stream -----

  /** All frames up to `m` were answered, and `m` is rejected or its ack is one too many. */
  predicate RightStop(bodies: seq<Body>, m: Message<Body>, writes: nat) {
    |All(Acks, bodies)| <= writes && (m.Accepted? ==> |All(Acks, bodies)| + |Acks(m.body)| > writes)
  }

  /** What the decoder returns when it stops at `m`. */
  function StopError(m: Message<Body>): Option<Error> {
    match m
    case Rejected(e, _) => if e == EOF then None else Some(e)
    case Accepted(_, _) => Some(WriteFailed)
  }

  /** The bodies whose batches are stored: a packet is stored even if its ack cannot be written. */
  function Stored(bodies: seq<Body>, m: Message<Body>): seq<Body> {
    match m
    case Rejected(_, _) => bodies
    case Accepted(b, _) => bodies + [b]
  }

  /** The batches in the store, the replies with the one that `m` may have leaked, and the acks. */
  function LeftBehind(imei: seq<char>, bodies: seq<Body>, m: Message<Body>, batches: seq<seq<AvlRecord>>, start: Effects): Effects {
    Effects(start.processed + AllStatuses(imei, batches),
            start.responses + Responses(imei, All(Replies, bodies) + if m.Rejected? then m.leaked else []),
            start.sent + All(Acks, bodies))
  }

  /** What the decoder leaves behind and returns when it has come through these bodies to `stop`. */
  ghost predicate Served(imei: seq<char>, bodies: seq<Body>, stop: Message<Body>, writes: nat, err: Option<Error>,
                         batches: seq<seq<AvlRecord>>, start: Effects, end: Effects) {
    && RightStop(bodies, stop, writes) && err == StopError(stop) && Batches(Stored(bodies, stop), batches)
    && end == LeftBehind(imei, bodies, stop, batches, start)
  }

  lemma RunServed(imei: seq<char>, ms: Messages<Body>, p: nat, writes: nat, bodies: seq<Body>, q: nat, stop: Message<Body>,
                  run: Run<Body>, err: Option<Error>, batches: seq<seq<AvlRecord>>, start: Effects, end: Effects)
    requires ms.manners == TheManners() && StopsAt(ms, p, writes, bodies, q, run) && stop == ms.at(q)
    requires Done(imei, run, start, batches, end) && err == if run.error == EOF then None else Some(run.error)
    ensures Served(imei, bodies, stop, writes, err, batches, start, end)
  {
    assert bodies + [] == bodies && All(Acks, bodies) + [] == All(Acks, bodies);
  }

  /** The decoder, for messages that are not looked into: it goes through `bodies` and stops at `stop`. */
  method ServeTo(protocol: FM1200Protocol, reader: Reader, store: Store<Status<AvlRecord>>, writer: Writer,
                 ghost link: Link, ghost ms: Messages<Body>, ghost bodies: seq<Body>, ghost q: nat, ghost stop: Message<Body>)
      returns (err: Option<Error>, ghost batches: seq<seq<AvlRecord>>)
    requires reader.Valid() && IsLink(link) && IsMessages(ms, link, reader.source)
    requires StopsAt(ms, reader.pos, writer.budget, bodies, q, RunFrom(ms, reader.pos, writer.budget)) && stop == ms.at(q)
    modifies reader, store, writer
    ensures reader.Valid()
    ensures Served(protocol.imei, bodies, stop, old(writer.budget), err, batches, old(EffectsOf(store, writer)), EffectsOf(store, writer))
  {
    ghost var p, writes, start := reader.pos, writer.budget, EffectsOf(store, writer);
    ghost var run := RunFrom(ms, p, writes);
    err, batches := protocol.ConsumeStream(reader, store, writer, link, ms);
    RunServed(protocol.imei, ms, p, writes, bodies, q, stop, run, err, batches, start, EffectsOf(store, writer));
  }

  /** The frames that the decoder goes through from `p` on, and the message where it stops. */
  lemma StopsAtFrames(s: Source, p: nat, writes: nat)
      returns (link: Link, ms: Messages<Body>, datas: seq<seq<byte>>, bodies: seq<Body>, q: nat, stop: Message<Body>)
    requires p <= |s.data|
    ensures IsLink(link) && IsMessages(ms, link, s)
    ensures Through(MessagesOf(TheLink(), s), FramingOf(TheLink()), s, p, datas, bodies, stop)
    ensures StopsAt(ms, p, writes, bodies, q, RunFrom(ms, p, writes)) && stop == ms.at(q)
  {
    link := TheLink();
    ms := MessagesOf(link, s);
    TheMessages(s);
    FramesOnly(link, s);
    datas, bodies, q, stop := RunThrough(ms, FramingOf(link), s, p, writes);
  }

  /**
   The decoder on any stream: it takes consecutive frames with the right checksums, and stops at the
   first message that is rejected, with its error, or whose ack cannot be written. It leaves one sorted
   batch per frame, the replies and the acks, in order, and nothing else.
   */
  method Serve(protocol: FM1200Protocol, reader: Reader, store: Store<Status<AvlRecord>>, writer: Writer)
      returns (err: Option<Error>, ghost datas: seq<seq<byte>>, ghost stop: Message<Body>, ghost bodies: seq<Body>,
               ghost batches: seq<seq<AvlRecord>>)
    requires reader.Valid()
    modifies reader, store, writer
    ensures reader.Valid()
    ensures Through(MessagesOf(TheLink(), reader.source), FramingOf(TheLink()), reader.source, old(reader.pos), datas, bodies, stop)
    ensures Served(protocol.imei, bodies, stop, old(writer.budget), err, batches, old(EffectsOf(store, writer)), EffectsOf(store, writer))
  {
    ghost var link, ms, q;
    link, ms, datas, bodies, q, stop := StopsAtFrames(reader.source, reader.pos, writer.budget);
    err, batches := ServeTo(protocol, reader, store, writer, link, ms, bodies, q, stop);
  }

  // ----- Ends without an error -----

  /** The stream stops right behind a preamble. */
  predicate StopsAtLength(s: Source, p: nat) {
    s.end == EOF && At(s, p, [0, 0, 0, 0]) && p + 4 == |s.data|
  }

  /** A frame is read whose data runs out in front of a field, as `RunsOut` says byte by byte. */
  ghost predicate DataRunsOut(s: Source, p: nat, data: seq<byte>) {
    At(s, p, Unchecked(data)) && |data| < 0x1_0000_0000 && RunsOut(data)
  }

  lemma LengthEnds(s: Source, p: nat)
    requires p <= |s.data|
    ensures DataAt(s, p) == Fail(EOF) <==> StopsAtLength(s, p)
  {
    BEWidths();
    ZeroWord();
    ReadUintAt(s, p, 4, 0, p + 4);
  }

  lemma ErrorSource(link: Link, s: Source, p: nat)
    ensures MessageAt(link, s, p).Rejected? && MessageAt(link, s, p).error == EOF
       <==> DataAt(s, p) == Fail(EOF) || (DataAt(s, p).Ok? && link.parse(DataAt(s, p).value) == Fail(EOF))
  {}

  /**
   A message ends the loop without an error exactly if the stream stops right behind a preamble, or a
   whole frame has data that runs out: in front of the codec, a count, a field of a reply, or a field
   of a record up to its number of properties. Data that ends inside a field or among the groups of
   properties, and the clean end of a stream, are errors.
   */
  lemma QuietEndIff(link: Link, s: Source, p: nat)
    requires IsLink(link) && p <= |s.data|
    ensures MessageAt(link, s, p).Rejected? && MessageAt(link, s, p).error == EOF
       <==> StopsAtLength(s, p) || exists data :: DataRunsOut(s, p, data)
  {
    ErrorSource(link, s, p);
    LengthEnds(s, p);
    var d := DataAt(s, p);
    if d.Ok? {
      DataEnds(s, p);
      DataIff(s, p, d.value);
      LinkEnds(link, d.value);
      assert DataRunsOut(s, p, d.value) <==> RunsOut(d.value);
    }
    forall data | DataRunsOut(s, p, data)
      ensures d == Ok(data, p + 8 + |data|)
    {
      DataIff(s, p, data);
    }
  }

  lemma LinkEnds(link: Link, data: seq<byte>)
    requires IsLink(link)
    ensures link.parse(data) == Fail(EOF) <==> RunsOut(data)
  {
    BodyEndsIff(data);
    assert link.parse(data) == ParseBody(data);
  }

  /** A frame that announces no data ends the loop without an error, whatever frames follow it. */
  lemma EmptyFrameEndsTheRun(link: Link, s: Source, p: nat)
    requires IsLink(link) && At(s, p, [0, 0, 0, 0, 0, 0, 0, 0])
    ensures MessageAt(link, s, p) == Rejected(EOF, [])
  {
    ZeroWord();
    assert [0, 0, 0, 0] + ([0, 0, 0, 0] + []) == [0, 0, 0, 0, 0, 0, 0, 0];
    DataIff(s, p, []);
    assert link.parse([]) == ParseBody([]);
  }

  // ----- Commands -----

  lemma CommandBody(command: seq<byte>)
    requires |command| < 0x1_0000_0000
    ensures ParseBody(CommandData(command)) == Ok(Reply(1, 5, command, 1), |command| + 8)
  {
    ReplyLayout(1, 5, command, 1);
    ReplyBytes(1, 5, ToBE(|command|, 4), command, 1);
    BodyComplete(CommandData(command), Reply(1, 5, command, 1));
  }

  /** Data that starts like a command but is shorter than 8 bytes does not parse. */
  lemma ShortCommand(data: seq<byte>)
    requires |data| < 8 && (data == [] || data[0] == 0x0C)
    ensures ParseBody(data).Fail?
  {}

  /**
   A command that was sent reads back as a reply with the same text, and its frame is consumed
   whole, exactly if its length plus 8 fits the 32-bit length field; otherwise the frame is rejected.
   */
  lemma CommandRoundTrip(link: Link, command: seq<byte>, end: Error)
    requires IsLink(link) && |command| <= 0xFFFF_FFFF
    ensures var frame := FrameWith(CommandData(command), CrcField(CommandData(command)));
            var m := MessageAt(link, Source(frame, end), 0);
      if |command| + 8 < 0x1_0000_0000 then m == Accepted(Reply(1, 5, command, 1), |frame|) else m.Rejected?
  {
    var data := CommandData(command);
    var s := Source(FrameWith(data, CrcField(data)), end);
    if |command| + 8 < 0x1_0000_0000 {
      CommandCarried(link, command);
      FrameAccepted(link, s, 0, data);
    } else {
      WrappedCommandRejected(link, command, s);
    }
  }

  lemma CommandCarried(link: Link, command: seq<byte>)
    requires IsLink(link) && |command| < 0x1_0000_0000
    ensures var data := CommandData(command);
      link.parse(data) == Ok(Reply(1, 5, command, 1), |command| + 8) && link.crc(data) == CrcField(data) < 0x1_0000
  {
    CommandBody(command);
    CrcFieldBound(CommandData(command));
  }

  /** The length that a receiver reads in the frame of a command. */
  lemma LengthRead(command: seq<byte>, s: Source)
    requires s.data == FrameWith(CommandData(command), CrcField(CommandData(command)))
    ensures ReadUint(s, 4, 4).Ok? && ReadUint(s, 4, 4).value == (|command| + 8) % 0x1_0000_0000
    ensures s.data[8] == 0x0C
  {
    BEWidths();
    FromToBEWraps(|command| + 8, 4);
    assert s.data[4..8] == ToBE(|command| + 8, 4);
  }

  lemma WrappedCommandRejected(link: Link, command: seq<byte>, s: Source)
    requires IsLink(link) && 0x1_0000_0000 <= |command| + 8 < 0x1_0000_0008
    requires s.data == FrameWith(CommandData(command), CrcField(CommandData(command)))
    ensures MessageAt(link, s, 0).Rejected?
  {
    LengthRead(command, s);
    DataStarts(s);
    var d := DataAt(s, 0);
    if d.Ok? {
      assert |d.value| == (|command| + 8) % 0x1_0000_0000 < 8;
      ShortCommand(d.value);
    }
  }

  lemma DataStarts(s: Source)
    requires |s.data| > 8
    ensures DataAt(s, 0).Ok? ==> ReadUint(s, 4, 4).Ok? && |DataAt(s, 0).value| == ReadUint(s, 4, 4).value
    ensures DataAt(s, 0).Ok? && DataAt(s, 0).value != [] ==> DataAt(s, 0).value[0] == s.data[8]
  {}
}
