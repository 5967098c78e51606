/**
 FM1200 frames, and runs over a stream of them.

 `MessageAt` is what consumeMessage makes of the bytes at a position. It takes the parser and the
 checksum of the data as parameters: no result here depends on them, save that the checksum fits
 its field.
 */
module Fm1200Frames {
  import opened Bytes
  import opened Streams
  import opened Formats
  import opened Fm1200Wire
  import opened Runs

  /** What the frame layer needs to know about the data it carries: how it is parsed and checked. */
  datatype Link = Link(parse: seq<byte> -> Parsed<Body>, crc: seq<byte> -> nat)

  /** An AVL packet is answered with its number of records, in four bytes. */
  function Acks(b: Body): seq<seq<byte>> {
    if b.Records? then [ToBE(|b.records|, 4)] else []
  }

  /**
   A reply goes to the store. It does so before its checksum is read, so a rejected message may have
   leaked one.
   */
  function Replies(b: Body): seq<seq<byte>> {
    if b.Reply? then [b.text] else []
  }

  function TheManners(): Manners<Body> {
    Manners(Acks, Replies, true, WriteFailed)
  }

  function HeaderError(e: Error): Error {
    if e.Timeout? then ReadTimeout else Wrapped(e)
  }

  /** The preamble, the length, and that much data. */
  function DataAt(s: Source, p: nat): (r: Parsed<seq<byte>>)
    ensures r.Ok? ==> p + 8 <= r.next <= |s.data|
  {
    match ReadUint(s, p, 4)
    case Fail(e) => Fail(HeaderError(e))
    case Ok(zeros, p1) =>
      if zeros != 0 then Fail(Wrapped(BadDataPacket)) else
        match ReadUint(s, p1, 4)
        case Fail(e) => Fail(e)
        case Ok(length, p2) =>
          match ReadBytes(s, p2, length)
          case Fail(_) => Fail(Wrapped(BadDataPacket))
          case Ok(data, p3) => Ok(data, p3)
  }

  /** The checksum at `p` of data that parses to `body`. */
  function ChecksumAt(s: Source, p: nat, body: Body, crc: nat): (m: Message<Body>)
    ensures m.Accepted? ==> p + 4 == m.next <= |s.data|
  {
    match ReadUint(s, p, 4)
    case Fail(_) => Rejected(Wrapped(BadDataPacket), Replies(body))
    case Ok(c, next) => if c == crc then Accepted(body, next) else Rejected(BadCrc, Replies(body))
  }

  function MessageAt(link: Link, s: Source, p: nat): (m: Message<Body>)
    ensures m.Accepted? ==> p + 12 <= m.next <= |s.data|
  {
    match DataAt(s, p)
    case Fail(e) => Rejected(e, [])
    case Ok(data, p1) =>
      match link.parse(data)
      case Fail(e) => Rejected(e, [])
      case Ok(body, _) => ChecksumAt(s, p1, body, link.crc(data))
  }

  // ----- Frames as a format -----

  function Preamble(): Format<nat> {
    Checked(Uint(4), (zeros: nat) => zeros == 0, Wrapped(BadDataPacket))
  }

  type FrameParts = (nat, (seq<byte>, nat))

  function FrameParser(): Format<FrameParts> {
    Then(Preamble(), Then(Blob(4), Uint(4)))
  }

  lemma FrameParserCorrect()
    ensures Correct(FrameParser())
  {
    UintCorrect(4);
    BlobCorrect(4);
    CheckedCorrect(Uint(4), (zeros: nat) => zeros == 0, Wrapped(BadDataPacket));
    ThenThenCorrect(Preamble(), Blob(4), Uint(4));
  }

  /** Four zero bytes, the length of the data, the data, and a checksum field that holds `c`. */
  function FrameWith(data: seq<byte>, c: nat): (f: seq<byte>)
    ensures |f| == |data| + 12
  {
    [0, 0, 0, 0] + (ToBE(|data|, 4) + (data + ToBE(c, 4)))
  }

  function EncodeFrame(link: Link, data: seq<byte>): (f: seq<byte>)
    ensures |f| == |data| + 12
  {
    FrameWith(data, link.crc(data))
  }

  lemma FrameLayout(data: seq<byte>, c: nat)
    ensures FrameParser().encode((0, (data, c))) == FrameWith(data, c)
  {}

  lemma FrameFits(data: seq<byte>, c: nat)
    ensures FrameParser().fits((0, (data, c))) <==> |data| < 0x1_0000_0000 && c < 0x1_0000_0000
  {
    BEWidths();
  }

  /** A message is accepted exactly where its frame is read, its body parses and its checksum matches. */
  lemma AcceptedIff(link: Link, s: Source, p: nat, body: Body, next: nat)
    ensures MessageAt(link, s, p) == Accepted(body, next)
       <==> && FrameParser().parse(s, p).Ok? && FrameParser().parse(s, p).next == next
            && var (data, c) := FrameParser().parse(s, p).value.1;
               c == link.crc(data) && link.parse(data).Ok? && link.parse(data).value == body
  {
    FrameSteps(s, p);
  }

  lemma FrameSteps(s: Source, p: nat)
    ensures FrameParser().parse(s, p)
         == match ReadUint(s, p, 4)
            case Fail(e) => Fail(e)
            case Ok(zeros, p1) =>
              if zeros != 0 then Fail(Wrapped(BadDataPacket)) else
                match ParseBlob(4, s, p1)
                case Fail(e) => Fail(e)
                case Ok(data, p2) =>
                  match ReadUint(s, p2, 4)
                  case Fail(e) => Fail(e)
                  case Ok(c, next) => Ok((zeros, (data, c)), next)
  {}

  lemma FrameRead(s: Source, p: nat, data: seq<byte>, c: nat)
    requires At(s, p, FrameWith(data, c)) && |data| < 0x1_0000_0000 && c < 0x1_0000_0000
    ensures FrameParser().parse(s, p) == Ok((0, (data, c)), p + |data| + 12)
  {
    FrameParserCorrect();
    FrameLayout(data, c);
    FrameFits(data, c);
  }

  /** A frame whose data parses is accepted, and exactly its bytes are consumed. */
  lemma FrameAccepted(link: Link, s: Source, p: nat, data: seq<byte>)
    requires At(s, p, EncodeFrame(link, data)) && |data| < 0x1_0000_0000 && link.crc(data) < 0x1_0000_0000
    requires link.parse(data).Ok?
    ensures MessageAt(link, s, p) == Accepted(link.parse(data).value, p + |data| + 12)
  {
    FrameRead(s, p, data, link.crc(data));
    AcceptedIff(link, s, p, link.parse(data).value, p + |data| + 12);
  }

  /** Nothing but a frame whose data parses is accepted. */
  lemma AcceptedIsFrame(link: Link, s: Source, p: nat) returns (data: seq<byte>)
    requires p <= |s.data| && MessageAt(link, s, p).Accepted?
    ensures At(s, p, EncodeFrame(link, data)) && |data| < 0x1_0000_0000 && link.parse(data).Ok?
    ensures MessageAt(link, s, p) == Accepted(link.parse(data).value, p + |data| + 12)
  {
    FrameParserCorrect();
    AcceptedIff(link, s, p, MessageAt(link, s, p).body, MessageAt(link, s, p).next);
    var x := FrameParser().parse(s, p).value;
    data := x.1.0;
    FrameSteps(s, p);
    FrameLayout(data, link.crc(data));
    FrameFits(data, link.crc(data));
  }

  /** Data whose checksum differs from the one in the frame is not accepted. */
  lemma CorruptionRejected(link: Link, s: Source, p: nat, data: seq<byte>, received: seq<byte>)
    requires At(s, p, FrameWith(received, link.crc(data)))
    requires |received| < 0x1_0000_0000 && link.crc(data) < 0x1_0000_0000
    requires link.crc(received) != link.crc(data)
    ensures MessageAt(link, s, p).Rejected?
  {
    FrameRead(s, p, received, link.crc(data));
    if MessageAt(link, s, p).Accepted? {
      AcceptedIff(link, s, p, MessageAt(link, s, p).body, MessageAt(link, s, p).next);
    }
  }

  // ----- Leaked replies -----

  /** The part of a frame in front of its checksum. */
  function Unchecked(data: seq<byte>): seq<byte> {
    [0, 0, 0, 0] + (ToBE(|data|, 4) + data)
  }

  /** The data of a message, forwards and backwards. */
  lemma DataIff(s: Source, p: nat, data: seq<byte>)
    requires p <= |s.data|
    ensures DataAt(s, p) == Ok(data, p + 8 + |data|) <==> At(s, p, Unchecked(data)) && |data| < 0x1_0000_0000
  {
    BEWidths();
    AtSplit(s, p, [0, 0, 0, 0], ToBE(|data|, 4) + data);
    AtSplit(s, p + 4, ToBE(|data|, 4), data);
    ReadUintAt(s, p, 4, 0, p + 4);
    ZeroWord();
    ReadUintAt(s, p + 4, 4, |data|, p + 8);
    ReadBytesAt(s, p + 8, data);
    DataSteps(s, p, data);
  }

  lemma ZeroWord()
    ensures ToBE(0, 4) == [0, 0, 0, 0]
  {
    assert ToBE(0, 2) == [0, 0];
    ZerosInFront(0);
  }

  lemma DataSteps(s: Source, p: nat, data: seq<byte>)
    ensures DataAt(s, p) == Ok(data, p + 8 + |data|)
       <==> && ReadUint(s, p, 4) == Ok(0, p + 4) && ReadUint(s, p + 4, 4) == Ok(|data|, p + 8)
            && ReadBytes(s, p + 8, |data|) == Ok(data, p + 8 + |data|)
  {}

  lemma DataEnds(s: Source, p: nat)
    requires DataAt(s, p).Ok?
    ensures DataAt(s, p).next == p + 8 + |DataAt(s, p).value|
  {}

  /** The checksum of `data` does not stand behind it: it is missing or another one. */
  predicate Unconfirmed(link: Link, s: Source, p: nat, data: seq<byte>) {
    At(s, p, Unchecked(data)) && |data| < 0x1_0000_0000 && !At(s, p + 8 + |data|, ToBE(link.crc(data), 4))
  }

  lemma ChecksumIff(s: Source, p: nat, body: Body, crc: nat)
    requires crc < 0x1_0000_0000
    ensures ChecksumAt(s, p, body, crc).Accepted? <==> At(s, p, ToBE(crc, 4))
    ensures ChecksumAt(s, p, body, crc).Rejected? ==> ChecksumAt(s, p, body, crc).leaked == Replies(body)
  {
    BEWidths();
    ReadUintAt(s, p, 4, crc, p + 4);
  }

  lemma WrongChecksum(s: Source, p: nat, body: Body, crc: nat, c: nat)
    requires At(s, p, ToBE(c, 4)) && c < 0x1_0000_0000 && c != crc
    ensures ChecksumAt(s, p, body, crc) == Rejected(BadCrc, Replies(body))
  {
    BEWidths();
    ReadUintFrom(s, p, 4, c);
  }

  /** The reply with this text was read, but nothing confirms it. */
  predicate LeaksFrom(link: Link, s: Source, p: nat, data: seq<byte>, text: seq<byte>) {
    && Unconfirmed(link, s, p, data)
    && link.parse(data).Ok? && link.parse(data).value.Reply? && link.parse(data).value.text == text
  }

  lemma MessageWithData(link: Link, s: Source, p: nat, data: seq<byte>, body: Body, next: nat)
    requires DataAt(s, p) == Ok(data, p + 8 + |data|) && link.parse(data) == Ok(body, next)
    ensures MessageAt(link, s, p) == ChecksumAt(s, p + 8 + |data|, body, link.crc(data))
  {}

  lemma LeakFollows(link: Link, s: Source, p: nat, data: seq<byte>, text: seq<byte>)
    requires p <= |s.data| && link.crc(data) < 0x1_0000_0000 && LeaksFrom(link, s, p, data, text)
    ensures MessageAt(link, s, p).Rejected? && MessageAt(link, s, p).leaked == [text]
  {
    var body := link.parse(data).value;
    DataIff(s, p, data);
    MessageWithData(link, s, p, data, body, link.parse(data).next);
    ChecksumIff(s, p + 8 + |data|, body, link.crc(data));
  }

  lemma NoDataNoLeak(link: Link, s: Source, p: nat)
    requires MessageAt(link, s, p).Rejected? && MessageAt(link, s, p).leaked != []
    ensures DataAt(s, p).Ok? && link.parse(DataAt(s, p).value).Ok?
  {}

  lemma OneLeak(link: Link, s: Source, p: nat)
    requires MessageAt(link, s, p).Rejected? && MessageAt(link, s, p).leaked != []
    ensures |MessageAt(link, s, p).leaked| == 1
  {}

  lemma LeakOnly(link: Link, s: Source, p: nat, text: seq<byte>) returns (data: seq<byte>)
    requires p <= |s.data| && forall data :: link.crc(data) < 0x1_0000_0000
    requires MessageAt(link, s, p).Rejected? && MessageAt(link, s, p).leaked == [text]
    ensures LeaksFrom(link, s, p, data, text)
  {
    NoDataNoLeak(link, s, p);
    data := DataAt(s, p).value;
    DataEnds(s, p);
    DataIff(s, p, data);
    var body := link.parse(data).value;
    MessageWithData(link, s, p, data, body, link.parse(data).next);
    ChecksumIff(s, p + 8 + |data|, body, link.crc(data));
  }

  // ----- Streams of frames -----

  function MessagesOf(link: Link, s: Source): Messages<Body> {
    Messages((p: nat) => MessageAt(link, s, p), |s.data|, TheManners())
  }

  /** Data that a frame can carry and the decoder can parse. */
  predicate Carries(link: Link, data: seq<byte>) {
    |data| < 0x1_0000_0000 && link.crc(data) < 0x1_0000_0000 && link.parse(data).Ok?
  }

  function BodyOf(link: Link, data: seq<byte>): Body {
    match link.parse(data)
    case Ok(b, _) => b
    case Fail(_) => Records(0, [])
  }

  function FramingOf(link: Link): Framing<seq<byte>, Body> {
    Framing((data: seq<byte>) => EncodeFrame(link, data), (data: seq<byte>) => BodyOf(link, data),
            (data: seq<byte>) => link.parse(data).Ok?)
  }

  lemma MessagesProgress(link: Link, s: Source)
    ensures Progress(MessagesOf(link, s))
  {}

  lemma FrameTaken(link: Link, s: Source, data: seq<byte>)
    requires Carries(link, data)
    ensures Takes(MessagesOf(link, s), FramingOf(link), s, data)
  {
    forall p: nat | At(s, p, EncodeFrame(link, data))
      ensures MessageAt(link, s, p) == Accepted(link.parse(data).value, p + |data| + 12)
    {
      FrameAccepted(link, s, p, data);
    }
  }

  lemma FramesOnly(link: Link, s: Source)
    ensures OnlyFrames(MessagesOf(link, s), FramingOf(link), s)
  {
    forall p: nat | p <= |s.data| && MessageAt(link, s, p).Accepted?
      ensures exists data :: FrameAt(MessagesOf(link, s), FramingOf(link), s, p, data)
    {
      var data := AcceptedIsFrame(link, s, p);
      assert FrameAt(MessagesOf(link, s), FramingOf(link), s, p, data);
    }
  }
}
