/** IntelliTrac device ids and binary messages. */
module IntellitracWire {
  import opened Bytes
  import opened Streams
  import opened Formats
  import opened Runs

  // ----- Device ids -----

  function Digit(d: nat): char
    requires d < 10
  {
    ('0' as nat + d) as char
  }

  /** The decimal print of a number. */
  function Decimal(n: nat): (t: seq<char>)
    ensures |t| >= 1
  {
    if n < 10 then [Digit(n)] else Decimal(n / 10) + [Digit(n % 10)]
  }

  function PadImei(t: seq<char>): (r: seq<char>)
    ensures |r| >= 15
  {
    if |t| < 15 then seq(15 - |t|, i => '0') + t else t
  }

  function ImeiOf(modem: nat): seq<char> {
    PadImei(Decimal(modem))
  }

  function DigitValue(c: char): nat {
    if '0' <= c <= '9' then c as nat - '0' as nat else 0
  }

  /** The number that a string of digits spells. */
  function Value(t: seq<char>): nat {
    if t == [] then 0 else 10 * Value(t[..|t| - 1]) + DigitValue(t[|t| - 1])
  }

  lemma ValuePush(t: seq<char>, d: nat)
    requires d < 10
    ensures Value(t + [Digit(d)]) == 10 * Value(t) + d
  {
    assert (t + [Digit(d)])[..|t|] == t;
  }

  lemma {:induction false} DecimalReadsBack(n: nat)
    ensures Value(Decimal(n)) == n
  {
    if n < 10 {
      ValuePush([], n);
      assert [] + [Digit(n)] == [Digit(n)];
    } else {
      DecimalReadsBack(n / 10);
      ValuePush(Decimal(n / 10), n % 10);
    }
  }

  lemma {:induction false} LeadingZeros(zeros: nat, t: seq<char>)
    ensures Value(seq(zeros, i => '0') + t) == Value(t)
    decreases |t|, zeros
  {
    var padded := seq(zeros, i => '0') + t;
    if t != [] {
      LeadingZeros(zeros, t[..|t| - 1]);
      assert padded[..|padded| - 1] == seq(zeros, i => '0') + t[..|t| - 1];
    } else if zeros > 0 {
      LeadingZeros(zeros - 1, []);
      assert padded[..|padded| - 1] == seq(zeros - 1, i => '0') + [];
    } else {
      assert padded == [];
    }
  }

  /** A device id reads back as the modem's number, so different modems never share one. */
  lemma ImeiFaithful(modem: nat)
    ensures Value(ImeiOf(modem)) == modem && |ImeiOf(modem)| >= 15
  {
    DecimalReadsBack(modem);
    LeadingZeros(if |Decimal(modem)| < 15 then 15 - |Decimal(modem)| else 0, Decimal(modem));
  }

  lemma ImeiInjective(a: nat, b: nat)
    ensures ImeiOf(a) == ImeiOf(b) <==> a == b
  {
    ImeiFaithful(a);
    ImeiFaithful(b);
  }

  predicate AllDigits(t: seq<char>) {
    forall i :: 0 <= i < |t| ==> '0' <= t[i] <= '9'
  }

  /** Fifteen decimal digits, or more without a zero in front. */
  predicate IsImei(t: seq<char>) {
    AllDigits(t) && (|t| == 15 || (|t| > 15 && t[0] != '0'))
  }

  function Pow10(n: nat): (r: nat)
    ensures r >= 1
  {
    if n == 0 then 1 else 10 * Pow10(n - 1)
  }

  lemma {:induction false} Pow10Grows(m: nat, n: nat)
    requires m <= n
    ensures Pow10(m) <= Pow10(n)
  {
    if m < n {
      Pow10Grows(m, n - 1);
    }
  }

  lemma {:induction false} DecimalShape(n: nat)
    ensures AllDigits(Decimal(n))
    ensures |Decimal(n)| == 1 || Decimal(n)[0] != '0'
    ensures n >= 1 ==> Decimal(n)[0] != '0'
  {
    if n >= 10 {
      DecimalShape(n / 10);
    }
  }

  /** A string of digits is below the power of ten of its length, and without a zero in front not much. */
  lemma {:induction false} ValueBounds(t: seq<char>)
    ensures Value(t) < Pow10(|t|)
    ensures t != [] && '0' < t[0] <= '9' ==> Value(t) >= Pow10(|t| - 1)
  {
    if |t| > 1 {
      ValueBounds(t[..|t| - 1]);
    } else if |t| == 1 {
      assert t[..0] == [] && Value([]) == 0 && Pow10(1) == 10;
    }
  }

  lemma TensAndOnes(a: nat, x: nat, b: nat, y: nat)
    requires x < 10 && y < 10 && 10 * a + x == 10 * b + y
    ensures a == b && x == y
  {}

  lemma ValueStep(t: seq<char>, front: seq<char>, c: char)
    requires t == front + [c]
    ensures Value(t) == 10 * Value(front) + DigitValue(c)
  {
    assert t[..|t| - 1] == front;
  }

  lemma SameLast(front: seq<char>, c: char, back: seq<char>, d: char, n: nat)
    requires '0' <= c <= '9' && '0' <= d <= '9'
    requires Value(front + [c]) == n && Value(back + [d]) == n
    ensures Value(front) == Value(back) && c == d
  {
    ValueStep(front + [c], front, c);
    ValueStep(back + [d], back, d);
    TensAndOnes(Value(front), DigitValue(c), Value(back), DigitValue(d));
  }

  lemma Pop(t: seq<char>) returns (front: seq<char>, c: char)
    requires t != [] && AllDigits(t)
    ensures t == front + [c] && AllDigits(front) && '0' <= c <= '9'
  {
    front, c := t[..|t| - 1], t[|t| - 1];
  }

  lemma {:induction false} DigitsUnique(t: seq<char>, u: seq<char>, n: nat)
    requires AllDigits(t) && AllDigits(u) && |t| == |u| && Value(t) == n && Value(u) == n
    ensures t == u
    decreases |t|
  {
    if t != [] {
      var front, c := Pop(t);
      var back, d := Pop(u);
      SameLast(front, c, back, d, n);
      DigitsUnique(front, back, Value(front));
    }
  }

  lemma NoLonger(t: seq<char>, u: seq<char>, n: nat)
    requires AllDigits(t) && AllDigits(u) && |t| > |u| && t[0] != '0' && Value(t) == n
    ensures Value(u) < n
  {
    ValueBounds(t);
    ValueBounds(u);
    Pow10Grows(|u|, |t| - 1);
  }

  lemma LengthsAgree(t: seq<char>, u: seq<char>, n: nat)
    requires IsImei(t) && IsImei(u) && Value(t) == n && Value(u) == n
    ensures |t| <= |u|
  {
    if |t| > |u| {
      NoLonger(t, u, n);
    }
  }

  /** A device id is the decimal print of the modem's number, in fifteen digits or, if these do not do, in as many as it takes. */
  lemma ImeiIff(t: seq<char>, modem: nat)
    ensures t == ImeiOf(modem) <==> IsImei(t) && Value(t) == modem
  {
    var u := ImeiOf(modem);
    ImeiFaithful(modem);
    DecimalShape(modem);
    assert IsImei(u);
    if IsImei(t) && Value(t) == modem {
      LengthsAgree(t, u, modem);
      LengthsAgree(u, t, modem);
      DigitsUnique(t, u, modem);
    }
  }

  // ----- Messages -----

  datatype Msg =
    | Position(transaction: nat, modem: nat, messageId: nat, data: seq<byte>)
    | Text(transaction: nat, modem: nat, text: seq<byte>, timestamp: seq<byte>)
    | Response(transaction: nat, reply: seq<byte>)

  type PositionParts = (nat, (nat, seq<byte>))

  /** Modem, message id, length, data, field by field. */
  function PositionFields(): Format<PositionParts> {
    Then(Uint(8), Then(Uint(2), Blob(2)))
  }

  /** As the source reads it: twelve bytes at once, which hold modem, message id and length, and then the data. */
  function PositionAt(s: Source, p: nat): Parsed<PositionParts> {
    match ReadBytes(s, p, 12) case Fail(e) => Fail(e) case Ok(h, p1) =>
    match ReadBytes(s, p1, FromBE(h[10..12])) case Fail(e) => Fail(e) case Ok(data, next) =>
    Ok((FromBE(h[0..8]), (FromBE(h[8..10]), data)), next)
  }

  function PositionFormat(): Format<PositionParts> {
    Format(PositionAt, PositionFields().encode, PositionFields().fits)
  }

  type TextParts = (nat, (seq<byte>, seq<byte>))

  /** Length, modem, text, twelve bytes of time. */
  function TextFormat(): Format<TextParts> {
    Sized(2, TextOfSize, (x: TextParts) => |x.1.0|)
  }

  function TextOfSize(k: nat): Format<TextParts> {
    Then(Uint(8), Then(Raw(k), Raw(12)))
  }

  lemma Slices(data: seq<byte>, p: nat, n: nat, lo: nat, hi: nat)
    requires lo <= hi <= n && p + n <= |data|
    ensures data[p..p + n][lo..hi] == data[p + lo..p + hi]
  {
    var a, b := data[p..p + n][lo..hi], data[p + lo..p + hi];
    assert |a| == |b| && forall i :: 0 <= i < |a| ==> a[i] == b[i];
  }

  lemma PositionFieldsCorrect()
    ensures Correct(PositionFields())
  {
    UintCorrect(8);
    UintCorrect(2);
    BlobCorrect(2);
    ThenCorrect(Uint(2), Blob(2));
    ThenCorrect(Uint(8), Then(Uint(2), Blob(2)));
  }

  lemma FieldsAt(s: Source, p: nat)
    ensures PositionFields().parse(s, p)
         == match ReadUint(s, p, 8) case Fail(e) => Fail(e) case Ok(modem, p1) =>
            match ReadUint(s, p1, 2) case Fail(e) => Fail(e) case Ok(id, p2) =>
            match ReadUint(s, p2, 2) case Fail(e) => Fail(e) case Ok(length, p3) =>
            match ReadBytes(s, p3, length) case Fail(e) => Fail(e) case Ok(data, next) => Ok((modem, (id, data)), next)
  {}

  /** Reading the twelve bytes at once and one by one give the same, unless the stream ends inside them. */
  lemma SamePosition(s: Source, p: nat)
    ensures PositionAt(s, p).Ok? <==> PositionFields().parse(s, p).Ok?
    ensures PositionAt(s, p).Ok? ==> PositionAt(s, p) == PositionFields().parse(s, p)
  {
    FieldsAt(s, p);
    if p + 12 <= |s.data| {
      Slices(s.data, p, 12, 0, 8);
      Slices(s.data, p, 12, 8, 10);
      Slices(s.data, p, 12, 10, 12);
    }
  }

  lemma PositionCorrect()
    ensures Correct(PositionFormat())
  {
    PositionFieldsCorrect();
    SameCorrect(PositionFields(), PositionFormat());
  }

  lemma SameCorrect(f: Format<PositionParts>, g: Format<PositionParts>)
    requires Correct(f) && f == PositionFields() && g == PositionFormat()
    ensures Correct(g)
  {
    forall s: Source, p: nat
      ensures g.parse(s, p).Ok? <==> f.parse(s, p).Ok?
      ensures g.parse(s, p).Ok? ==> g.parse(s, p) == f.parse(s, p)
    {
      SamePosition(s, p);
    }
  }

  lemma TextCorrect()
    ensures Correct(TextFormat())
  {
    forall k: nat
      ensures Correct(TextOfSize(k))
    {
      UintCorrect(8);
      RawCorrect(k);
      RawCorrect(12);
      ThenCorrect(Raw(k), Raw(12));
      ThenCorrect(Uint(8), Then(Raw(k), Raw(12)));
    }
    SizedCorrect(2, TextOfSize, (x: TextParts) => |x.1.0|);
  }

  /** Transaction, encoding and type select what follows; anything else is not supported. */
  function MessageAt(s: Source, p: nat): Message<Msg> {
    match ReadUint(s, p, 4)
    case Fail(e) => Rejected(e, [])
    case Ok(header, p1) => BodyAt(header / 0x1_0000, header % 0x1_0000, s, p1)
  }

  function BodyAt(transaction: nat, kind: nat, s: Source, p: nat): Message<Msg> {
    if kind == 0x0002 then
      match PositionFormat().parse(s, p)
      case Fail(e) => Rejected(e, [])
      case Ok(x, next) => Accepted(Position(transaction, x.0, x.1.0, x.1.1), next)
    else if kind == 0x0202 then
      match TextFormat().parse(s, p)
      case Fail(e) => Rejected(e, [])
      case Ok(x, next) => Accepted(Text(transaction, x.0, x.1.0, x.1.1), next)
    else if kind == 0x0101 then
      match Blob(2).parse(s, p)
      case Fail(e) => Rejected(e, [])
      case Ok(reply, next) => Accepted(Response(transaction, reply), next)
    else Rejected(UnsupportedMessage, [])
  }

  // ----- Messages as bytes -----

  function Kind(m: Msg): nat {
    match m
    case Position(_, _, _, _) => 0x0002
    case Text(_, _, _, _) => 0x0202
    case Response(_, _) => 0x0101
  }

  function EncodeBody(m: Msg): seq<byte> {
    match m
    case Position(_, modem, id, data) => PositionFormat().encode((modem, (id, data)))
    case Text(_, modem, text, timestamp) => TextFormat().encode((modem, (text, timestamp)))
    case Response(_, reply) => Blob(2).encode(reply)
  }

  predicate FitsBody(m: Msg) {
    match m
    case Position(_, modem, id, data) => PositionFormat().fits((modem, (id, data)))
    case Text(_, modem, text, timestamp) => TextFormat().fits((modem, (text, timestamp)))
    case Response(_, reply) => Blob(2).fits(reply)
  }

  function EncodeMsg(m: Msg): seq<byte> {
    ToBE(m.transaction * 0x1_0000 + Kind(m), 4) + EncodeBody(m)
  }

  predicate FitsMsg(m: Msg) {
    m.transaction < 0x1_0000 && FitsBody(m)
  }

  lemma BodySound(transaction: nat, kind: nat, s: Source, p: nat)
    requires p <= |s.data| && BodyAt(transaction, kind, s, p).Accepted?
    ensures var r := BodyAt(transaction, kind, s, p);
      && r.body.transaction == transaction && Kind(r.body) == kind && FitsBody(r.body)
      && At(s, p, EncodeBody(r.body)) && r.next == p + |EncodeBody(r.body)|
  {
    if kind == 0x0002 {
      PositionCorrect();
    } else if kind == 0x0202 {
      TextCorrect();
    } else {
      BlobCorrect(2);
    }
  }

  lemma BodyComplete(m: Msg, s: Source, p: nat)
    requires FitsBody(m) && At(s, p, EncodeBody(m))
    ensures BodyAt(m.transaction, Kind(m), s, p) == Accepted(m, p + |EncodeBody(m)|)
  {
    match m
    case Position(_, _, _, _) => PositionCorrect();
    case Text(_, _, _, _) => TextCorrect();
    case Response(_, _) => BlobCorrect(2);
  }

  lemma EncodedFrom(m: Msg, h: nat)
    requires m.transaction == h / 0x1_0000 && Kind(m) == h % 0x1_0000
    ensures EncodeMsg(m) == ToBE(h, 4) + EncodeBody(m)
  {}

  /** An accepted message stands written out, and all its bytes are taken. */
  lemma MessageSound(s: Source, p: nat)
    requires MessageAt(s, p).Accepted?
    ensures var r := MessageAt(s, p); FitsMsg(r.body) && At(s, p, EncodeMsg(r.body)) && r.next == p + |EncodeMsg(r.body)|
  {
    BEWidths();
    var h, m := ReadUint(s, p, 4).value, MessageAt(s, p).body;
    ReadUintGives(s, p, 4);
    BodySound(h / 0x1_0000, h % 0x1_0000, s, p + 4);
    ThenNumber(s, p, 4, EncodeBody(m));
    EncodedFrom(m, h);
  }

  lemma MessageFrom(s: Source, p: nat, transaction: nat, kind: nat, r: Message<Msg>)
    requires kind < 0x1_0000 && ReadUint(s, p, 4) == Ok(transaction * 0x1_0000 + kind, p + 4)
    requires BodyAt(transaction, kind, s, p + 4) == r
    ensures MessageAt(s, p) == r
  {
    var h := transaction * 0x1_0000 + kind;
    assert h / 0x1_0000 == transaction && h % 0x1_0000 == kind;
  }

  lemma HeaderRead(s: Source, p: nat, h: nat, body: seq<byte>)
    requires h < 0x1_0000_0000 && At(s, p, ToBE(h, 4) + body)
    ensures ReadUint(s, p, 4) == Ok(h, p + 4) && At(s, p + 4, body)
  {
    BEWidths();
    NumberThen(s, p, 4, h, body);
  }

  lemma MessageParts(m: Msg, s: Source, p: nat)
    requires m.transaction < 0x1_0000 && At(s, p, EncodeMsg(m))
    ensures ReadUint(s, p, 4) == Ok(m.transaction * 0x1_0000 + Kind(m), p + 4) && At(s, p + 4, EncodeBody(m))
  {
    HeaderRead(s, p, m.transaction * 0x1_0000 + Kind(m), EncodeBody(m));
  }

  lemma BodyMessage(m: Msg, s: Source, p: nat)
    requires FitsBody(m) && At(s, p + 4, EncodeBody(m))
    requires ReadUint(s, p, 4) == Ok(m.transaction * 0x1_0000 + Kind(m), p + 4)
    ensures MessageAt(s, p) == Accepted(m, p + 4 + |EncodeBody(m)|)
  {
    BodyComplete(m, s, p + 4);
    MessageFrom(s, p, m.transaction, Kind(m), Accepted(m, p + 4 + |EncodeBody(m)|));
  }

  /** A message that stands written out is accepted. */
  lemma MessageComplete(m: Msg, s: Source, p: nat)
    requires FitsMsg(m) && At(s, p, EncodeMsg(m))
    ensures MessageAt(s, p) == Accepted(m, p + |EncodeMsg(m)|)
  {
    MessageParts(m, s, p);
    BodyMessage(m, s, p);
  }

  lemma HeaderLayout(transaction: nat, kind: nat)
    requires transaction < 0x1_0000 && kind < 0x1_0000
    ensures ToBE(transaction * 0x1_0000 + kind, 4) == ToBE(transaction, 2) + ToBE(kind, 2)
  {
    var h := transaction * 0x1_0000 + kind;
    assert h / 256 == transaction * 256 + kind / 256 && h % 256 == kind % 256;
    assert h / 256 / 256 == transaction && h / 256 % 256 == kind / 256;
    FourBytes(h);
    TwoBytes(kind);
  }

  lemma FourBytes(v: nat)
    ensures ToBE(v, 4) == ToBE(v / 256 / 256, 2) + ([v / 256 % 256] + [v % 256])
  {
    assert ToBE(v, 4) == ToBE(v / 256, 3) + [v % 256];
    assert ToBE(v / 256, 3) == ToBE(v / 256 / 256, 2) + [v / 256 % 256];
  }

  lemma TwoBytes(v: nat)
    requires v < 0x1_0000
    ensures ToBE(v, 2) == [v / 256] + [v % 256]
  {
    assert ToBE(v / 256, 1) == [] + [v / 256 % 256];
  }

  lemma PositionLayout(modem: nat, id: nat, data: seq<byte>)
    ensures PositionFormat().encode((modem, (id, data))) == ToBE(modem, 8) + (ToBE(id, 2) + (ToBE(|data|, 2) + data))
  {
    ThenEncode(Uint(8), Then(Uint(2), Blob(2)), modem, (id, data));
    ThenEncode(Uint(2), Blob(2), id, data);
  }

  lemma TextLayout(modem: nat, text: seq<byte>, timestamp: seq<byte>)
    ensures TextFormat().encode((modem, (text, timestamp))) == ToBE(|text|, 2) + (ToBE(modem, 8) + (text + timestamp))
    ensures TextFormat().fits((modem, (text, timestamp))) ==> |timestamp| == 12
  {
    var k := |text|;
    SizedEncode(2, TextOfSize, (x: TextParts) => |x.1.0|, (modem, (text, timestamp)));
    ThenEncode(Uint(8), Then(Raw(k), Raw(12)), modem, (text, timestamp));
    ThenEncode(Raw(k), Raw(12), text, timestamp);
  }

  /** What follows the header, field by field. */
  function BodyBytes(m: Msg): seq<byte> {
    match m
    case Position(_, modem, id, data) => ToBE(modem, 8) + (ToBE(id, 2) + (ToBE(|data|, 2) + data))
    case Text(_, modem, text, timestamp) => ToBE(|text|, 2) + (ToBE(modem, 8) + (text + timestamp))
    case Response(_, reply) => ToBE(|reply|, 2) + reply
  }

  lemma BodyLayout(m: Msg)
    ensures EncodeBody(m) == BodyBytes(m)
  {
    match m
    case Position(_, modem, id, data) => PositionLayout(modem, id, data);
    case Text(_, modem, text, timestamp) => TextLayout(modem, text, timestamp);
    case Response(_, _) =>
  }

  /** A message on the wire: transaction, encoding and type, body. */
  lemma MessageLayout(m: Msg)
    requires m.transaction < 0x1_0000
    ensures EncodeMsg(m) == (ToBE(m.transaction, 2) + ToBE(Kind(m), 2)) + BodyBytes(m)
  {
    HeaderLayout(m.transaction, Kind(m));
    BodyLayout(m);
  }

  /** How long each kind of message is. */
  lemma MessageLength(m: Msg)
    requires FitsMsg(m)
    ensures |EncodeMsg(m)| == match m
      case Position(_, _, _, data) => 16 + |data|
      case Text(_, _, text, _) => 26 + |text|
      case Response(_, reply) => 6 + |reply|
  {
    BodyLayout(m);
    if m.Text? {
      TextLayout(m.modem, m.text, m.timestamp);
    }
  }

  // ----- Runs -----

  function AckBytes(transaction: nat, encoding: byte): seq<byte> {
    ToBE(transaction, 2) + [encoding, 0x03, 0x00, 0x00]
  }

  /** Positions and texts are acked with their own transaction; responses are not. */
  function Acks(m: Msg): seq<seq<byte>> {
    match m
    case Position(t, _, _, _) => [AckBytes(t, 0x00)]
    case Text(t, _, _, _) => [AckBytes(t, 0x02)]
    case Response(_, _) => []
  }

  function Replies(m: Msg): seq<seq<byte>> {
    if m.Response? then [m.reply] else []
  }

  /** Heartbeats and positions that are too short are acked but not stored. */
  predicate Stored(m: Msg) {
    m.Position? && m.messageId != 0xAB && |m.data| >= 46
  }

  function TheManners(): Manners<Msg> {
    Manners(Acks, Replies, true, WriteFailed)
  }

  function MessagesOf(s: Source): Messages<Msg> {
    Messages((p: nat) => MessageAt(s, p), |s.data|, TheManners())
  }

  function TheFraming(): Framing<Msg, Msg> {
    Framing(EncodeMsg, (m: Msg) => m, FitsMsg)
  }

  lemma HeadersTake(m: Msg)
    ensures |EncodeMsg(m)| >= 4
  {}

  lemma MessagesProgress(s: Source)
    ensures Progress(MessagesOf(s)) && OnlyFrames(MessagesOf(s), TheFraming(), s)
  {
    forall p: nat | MessageAt(s, p).Accepted?
      ensures p < MessageAt(s, p).next <= |s.data| && FrameAt(MessagesOf(s), TheFraming(), s, p, MessageAt(s, p).body)
    {
      MessageSound(s, p);
      HeadersTake(MessageAt(s, p).body);
    }
  }

  /**
   On a stream of messages that fit their fields, each step takes exactly its message: all are
   delivered in order, every position and text is acked once with its own transaction, and every
   response reaches the store.
   */
  lemma StreamStaysAligned(xs: seq<Msg>, writes: nat)
    requires forall i :: 0 <= i < |xs| ==> FitsMsg(xs[i])
    requires |All(Acks, xs)| <= writes
    ensures var s := Source(Frames(TheFraming(), xs), EOF);
      && Progress(MessagesOf(s))
      && RunFrom(MessagesOf(s), 0, writes) == Run(xs, All(Acks, xs), All(Replies, xs), EOF)
  {
    var s := Source(Frames(TheFraming(), xs), EOF);
    var ms := MessagesOf(s);
    MessagesProgress(s);
    AllTaken(ms, s, xs);
    NothingLeft(s);
    SameBodies(xs);
    WholeStream(ms, TheFraming(), s, xs, writes, EOF);
  }

  lemma SameBodies(xs: seq<Msg>)
    ensures Bodies(TheFraming(), xs) == xs
  {}

  lemma AllTaken(ms: Messages<Msg>, s: Source, xs: seq<Msg>)
    requires ms == MessagesOf(s) && forall i :: 0 <= i < |xs| ==> FitsMsg(xs[i])
    ensures forall i :: 0 <= i < |xs| ==> Takes(ms, TheFraming(), s, xs[i])
  {
    forall i | 0 <= i < |xs|
      ensures Takes(ms, TheFraming(), s, xs[i])
    {
      forall p: nat | At(s, p, EncodeMsg(xs[i]))
        ensures MessageAt(s, p) == Accepted(xs[i], p + |EncodeMsg(xs[i])|)
      {
        MessageComplete(xs[i], s, p);
      }
    }
  }

  lemma NothingLeft(s: Source)
    ensures MessageAt(s, |s.data|) == Rejected(s.end, [])
  {}

  // ----- Answers on the wire -----

  lemma FrontParts(transaction: seq<byte>, kind: seq<byte>, body: seq<byte>, b: seq<byte>)
    requires |transaction| == 2 && |kind| == 2 && b == (transaction + kind) + body
    ensures b[..2] == transaction && b[2..4] == kind && b[..3] == transaction + kind[..1] && b[4..] == body
  {}

  lemma PositionPieces(front: seq<byte>, modem: seq<byte>, id: seq<byte>, length: seq<byte>, data: seq<byte>, b: seq<byte>)
    requires |front| == 4 && |modem| == 8 && |id| == 2 && |length| == 2
    requires b == front + (modem + (id + (length + data)))
    ensures |b| == 16 + |data| && b[12..14] == id && b[16..] == data
  {}

  lemma KindOnWire(m: Msg)
    ensures ToBE(Kind(m), 2) == match m
      case Position(_, _, _, _) => [0x00, 0x02]
      case Text(_, _, _, _) => [0x02, 0x02]
      case Response(_, _) => [0x01, 0x01]
  {
    TwoBytesOf(Kind(m));
  }

  /** The header of a message that fits: its transaction, and the two bytes of its kind. */
  lemma HeaderOnWire(m: Msg, b: seq<byte>)
    requires FitsMsg(m) && b == EncodeMsg(m)
    ensures |b| >= 6 && b[..2] == ToBE(m.transaction, 2) && b[2..4] == ToBE(Kind(m), 2) && b[4..] == BodyBytes(m)
    ensures b[..3] == ToBE(m.transaction, 2) + ToBE(Kind(m), 2)[..1]
  {
    MessageLayout(m);
    MessageLength(m);
    FrontParts(ToBE(m.transaction, 2), ToBE(Kind(m), 2), BodyBytes(m), b);
  }

  /**
   A position or text is answered with its own first three bytes, which hold its transaction and
   encoding, and the bytes 03 00 00; a response is not answered, but passed on.
   */
  lemma AnswerOnWire(m: Msg, b: seq<byte>)
    requires FitsMsg(m) && b == EncodeMsg(m)
    ensures |b| >= 6 && b[2..4] == if m.Position? then [0x00, 0x02] else if m.Text? then [0x02, 0x02] else [0x01, 0x01]
    ensures if m.Response? then Acks(m) == [] else Acks(m) == [b[..3] + [0x03, 0x00, 0x00]]
    ensures Replies(m) == if m.Response? then [b[6..]] else []
  {
    HeaderOnWire(m, b);
    KindOnWire(m);
    if m.Response? {
      assert b[6..] == b[4..][2..];
    } else {
      AckOf(ToBE(m.transaction, 2), if m.Position? then 0x00 else 0x02, b[..3]);
    }
  }

  lemma AckOf(transaction: seq<byte>, encoding: byte, front: seq<byte>)
    requires front == transaction + [encoding]
    ensures transaction + [encoding, 0x03, 0x00, 0x00] == front + [0x03, 0x00, 0x00]
  {}

  /** A message is stored exactly if it is a position whose id is not 00 AB and that has 46 bytes of data. */
  lemma StoredOnWire(m: Msg, b: seq<byte>)
    requires FitsMsg(m) && b == EncodeMsg(m)
    ensures Stored(m) <==> |b| >= 62 && b[2..4] == [0x00, 0x02] && b[12..14] != [0x00, 0xAB]
    ensures m.Position? ==> |b| >= 16 && m.data == b[16..]
  {
    HeaderOnWire(m, b);
    KindOnWire(m);
    if m.Position? {
      PositionFits(m);
      MessageLayout(m);
      PositionPieces(ToBE(m.transaction, 2) + ToBE(Kind(m), 2), ToBE(m.modem, 8), ToBE(m.messageId, 2), ToBE(|m.data|, 2), m.data, b);
      TwoBytesOf(m.messageId);
    }
  }

  lemma PositionFits(m: Msg)
    requires m.Position? && FitsMsg(m)
    ensures m.messageId < 0x1_0000
  {
    BEWidths();
  }

  /** A message is unsupported exactly by the third and fourth byte of its header. */
  lemma UnsupportedIff(s: Source, p: nat)
    requires s.end in {EOF, Timeout, Network}
    ensures MessageAt(s, p) == Rejected(UnsupportedMessage, [])
       <==> p + 4 <= |s.data| && s.data[p + 2..p + 4] !in {[0x00, 0x02], [0x02, 0x02], [0x01, 0x01]}
  {
    if p + 4 <= |s.data| {
      var h := s.data[p..p + 4];
      KindBytes(h);
      assert h[2..] == s.data[p + 2..p + 4];
      OtherErrors(FromBE(h) / 0x1_0000, FromBE(h) % 0x1_0000, s, p + 4);
    }
  }

  lemma PositionErrors(s: Source, p: nat)
    ensures PositionAt(s, p).Fail? ==> PositionAt(s, p).error in {s.end, UnexpectedEOF}
  {}

  lemma TextErrors(s: Source, p: nat)
    ensures TextFormat().parse(s, p).Fail? ==> TextFormat().parse(s, p).error in {s.end, UnexpectedEOF}
  {}

  lemma BlobErrors(s: Source, p: nat)
    ensures ParseBlob(2, s, p).Fail? ==> ParseBlob(2, s, p).error in {s.end, UnexpectedEOF}
  {}

  lemma OtherErrors(transaction: nat, kind: nat, s: Source, p: nat)
    requires s.end in {EOF, Timeout, Network}
    ensures BodyAt(transaction, kind, s, p) == Rejected(UnsupportedMessage, []) <==> kind !in {0x0002, 0x0202, 0x0101}
  {
    if kind == 0x0002 {
      PositionErrors(s, p);
    } else if kind == 0x0202 {
      TextErrors(s, p);
    } else if kind == 0x0101 {
      BlobErrors(s, p);
    }
  }

  /** The lower half of four bytes as a number. */
  lemma KindBytes(h: seq<byte>)
    requires |h| == 4
    ensures h[2..] == [h[2], h[3]] && FromBE(h) % 0x1_0000 == h[2] as nat * 0x100 + h[3] as nat
  {
    assert h[..3][..2] == h[..2] && h[..3][2] == h[2];
    assert FromBE(h[..3]) == FromBE(h[..2]) * 256 + h[2];
    assert FromBE(h) == FromBE(h[..3]) * 256 + h[3];
  }

  /** Where the read begins that a position, a text or a reply which is cut off fails at; `p` is behind the header. */
  function PositionBreak(s: Source, p: nat): nat {
    if p + 12 > |s.data| then p else p + 12
  }

  function TextBreak(s: Source, p: nat): nat {
    if p + 2 > |s.data| then p
    else if p + 10 > |s.data| then p + 2
    else if p + 10 + FromBE(s.data[p..p + 2]) > |s.data| then p + 10
    else p + 10 + FromBE(s.data[p..p + 2])
  }

  function ReplyBreak(s: Source, p: nat): nat {
    if p + 2 > |s.data| then p else p + 2
  }

  lemma PositionCutOff(s: Source, p: nat, transaction: nat)
    requires p <= |s.data| && BodyAt(transaction, 0x0002, s, p).Rejected?
    ensures BodyAt(transaction, 0x0002, s, p) == Rejected(Early(s, PositionBreak(s, p)), [])
  {}

  lemma TextCutOff(s: Source, p: nat, transaction: nat)
    requires p <= |s.data| && BodyAt(transaction, 0x0202, s, p).Rejected?
    ensures BodyAt(transaction, 0x0202, s, p) == Rejected(Early(s, TextBreak(s, p)), [])
  {}

  lemma ReplyCutOff(s: Source, p: nat, transaction: nat)
    requires p <= |s.data| && BodyAt(transaction, 0x0101, s, p).Rejected?
    ensures BodyAt(transaction, 0x0101, s, p) == Rejected(Early(s, ReplyBreak(s, p)), [])
  {}

  /** The error of a message that is cut off, by its kind and where it is. */
  lemma CutOff(s: Source, p: nat)
    requires p <= |s.data| && (p + 4 <= |s.data| ==> s.data[p + 2..p + 4] in {[0x00, 0x02], [0x02, 0x02], [0x01, 0x01]})
    requires MessageAt(s, p).Rejected?
    ensures MessageAt(s, p)
         == Rejected(Early(s, if p + 4 > |s.data| then p
                              else if s.data[p + 2] == 0x00 then PositionBreak(s, p + 4)
                              else if s.data[p + 2] == 0x02 then TextBreak(s, p + 4)
                              else ReplyBreak(s, p + 4)), [])
  {
    if p + 4 <= |s.data| {
      var h := s.data[p..p + 4];
      KindBytes(h);
      assert h[2..] == s.data[p + 2..p + 4];
      match s.data[p + 2]
      case 0x00 => PositionCutOff(s, p + 4, FromBE(h) / 0x1_0000);
      case 0x02 => TextCutOff(s, p + 4, FromBE(h) / 0x1_0000);
      case _ => ReplyCutOff(s, p + 4, FromBE(h) / 0x1_0000);
    }
  }

  /** The digits of a device id are decimal ones. */
  lemma DigitIs(d: nat)
    requires d < 10
    ensures Digit(d) == "0123456789"[d]
  {}
}
