/** What GT06 and TR06 packets tell: one information format, two dialects. */
module WanwayInfo {
  import opened Bytes
  import opened Streams
  import HexText

  datatype Kind = GT06 | TR06

  const MSG_LOGIN: byte := 0x01
  const MSG_HEARTBEAT: byte := 0x13
  const MSG_EG_HEARTBEAT: byte := 0x23
  const MSG_ALARM: byte := 0x26
  const MSG_INVALID: byte := 0xff
  const NO_VALUE: byte := 0xff

  function MsgPositioning(kind: Kind): byte {
    if kind.GT06? then 0x22 else 0x12
  }

  function MsgTransmission(kind: Kind): byte {
    if kind.GT06? then 0x94 else 0x80
  }

  // ----- Information -----

  /** What a packet tells: the terminal's id, or a report that is passed on as it is. */
  datatype Info = LoginInfo(terminalId: seq<char>) | Report(messageType: byte, content: seq<byte>)

  /** Fields of these widths, one after another. */
  function ReadFields(widths: seq<nat>, s: Source, p: nat): Parsed<()>
    decreases |widths|
  {
    if widths == [] then Ok((), p) else
      match ReadBytes(s, p, widths[0])
      case Fail(e) => Fail(e)
      case Ok(_, next) => ReadFields(widths[1..], s, next)
  }

  /** A panic in the middle of the fields: EOF passes, everything else becomes a bad packet. */
  function Recovered(e: Error): Error {
    if e.EOF? then EOF else Wrapped(BadDataPacket)
  }

  function LoginWidths(kind: Kind): seq<nat> {
    if kind.GT06? then [8, 2, 2] else [8]
  }

  const TIMESTAMP: seq<nat> := [1, 1, 1, 1, 1, 1]
  const GPS: seq<nat> := [1, 4, 4, 1, 2]
  const LBS: seq<nat> := [2, 1, 2, 3]
  const MODE: seq<nat> := [1, 1, 1, 4]

  function PositionWidths(kind: Kind): seq<nat> {
    GPS + LBS + if kind.GT06? then MODE else []
  }

  function LoginInfoAt(kind: Kind, s: Source, p: nat): Result<Info> {
    match ReadFields(LoginWidths(kind), s, p)
    case Fail(_) => Failure(InvalidLogin)
    case Ok(_, _) => Success(LoginInfo(if p + 8 <= |s.data| then HexText.Encode(s.data[p..p + 8], HexText.Lower)[1..] else []))
  }

  /** A time, which a GT06 device can only read after its login, and then the other fields. */
  function TimedAt(kind: Kind, loggedIn: bool, widths: seq<nat>, s: Source, p: nat): Parsed<()> {
    match ReadFields(TIMESTAMP, s, p)
    case Fail(e) => Fail(Recovered(e))
    case Ok(_, p1) =>
      if kind.GT06? && !loggedIn then Fail(Wrapped(BadDataPacket)) else
        match ReadFields(widths, s, p1)
        case Fail(e) => Fail(Recovered(e))
        case Ok(_, p2) => Ok((), p2)
  }

  /** One byte that must not be the mark of an invalid value. */
  function LevelAt(s: Source, p: nat, invalid: Error): Parsed<()> {
    match ReadBytes(s, p, 1)
    case Fail(e) => Fail(e)
    case Ok(b, next) => if b[0] == NO_VALUE then Fail(invalid) else Ok((), next)
  }

  function StatusAt(s: Source, p: nat): Parsed<()> {
    match ReadBytes(s, p, 1) case Fail(e) => Fail(Recovered(e)) case Ok(_, p1) =>
    match LevelAt(s, p1, BadDataPacket) case Fail(e) => Fail(Recovered(e)) case Ok(_, p2) =>
    match ReadBytes(s, p2, 1) case Fail(e) => Fail(Recovered(e)) case Ok(_, p3) =>
    match LevelAt(s, p3, BadDataPacket) case Fail(e) => Fail(Recovered(e)) case Ok(_, p4) =>
    match ReadFields([1, 1], s, p4) case Fail(e) => Fail(Recovered(e)) case Ok(_, p5) => Ok((), p5)
  }

  function AlarmAt(kind: Kind, loggedIn: bool, s: Source, p: nat): Parsed<()> {
    match TimedAt(kind, loggedIn, GPS + LBS, s, p)
    case Fail(e) => Fail(e)
    case Ok(_, next) => StatusAt(s, next)
  }

  function HeartbeatAt(s: Source, p: nat): Parsed<()> {
    match ReadBytes(s, p, 1) case Fail(e) => Fail(e) case Ok(_, p1) =>
    match LevelAt(s, p1, InvalidVoltageLevel) case Fail(e) => Fail(e) case Ok(_, p2) =>
    match LevelAt(s, p2, InvalidSignalStrength) case Fail(e) => Fail(e) case Ok(_, p3) =>
    match ReadBytes(s, p3, 2) case Fail(e) => Fail(e) case Ok(_, p4) =>
    if p4 < |s.data| then Fail(Wrapped(BadDataPacket)) else Ok((), p4)
  }

  function TransmissionAt(s: Source, p: nat): Parsed<()> {
    match ReadFields([1, 2], s, p) case Fail(e) => Fail(e) case Ok(_, next) =>
    if next < |s.data| then Fail(InvalidFormat) else Ok((), next)
  }

  /** Looks for the stop bits; their absence is an EOF. */
  predicate HasStop(b: seq<byte>) {
    exists i :: 0 <= i < |b| - 1 && b[i] == 0x0d && b[i + 1] == 0x0a
  }

  /** The first byte is the message type; none at all reads as type 0. */
  function ParseInfo(kind: Kind, loggedIn: bool, data: seq<byte>): Result<Info> {
    var s := Source(data, EOF);
    if data == [] then Failure(Wrapped(BadDataPacket))
    else if data[0] == MSG_INVALID then Failure(if HasStop(data[1..]) then Wrapped(BadDataPacket) else EOF)
    else if data[0] == MSG_LOGIN then LoginInfoAt(kind, s, 1)
    else
      match ReportAt(kind, loggedIn, data[0], s)
      case Fail(e) => Failure(e)
      case Ok(_, _) => Success(Report(data[0], data[1..]))
  }

  function ReportAt(kind: Kind, loggedIn: bool, messageType: byte, s: Source): Parsed<()> {
    if messageType == MsgPositioning(kind) then TimedAt(kind, loggedIn, PositionWidths(kind), s, 1)
    else if messageType == MSG_ALARM then AlarmAt(kind, loggedIn, s, 1)
    else if messageType == MSG_HEARTBEAT || messageType == MSG_EG_HEARTBEAT then HeartbeatAt(s, 1)
    else if messageType == MsgTransmission(kind) then TransmissionAt(s, 1)
    else Fail(Wrapped(BadDataPacket))
  }

  function Sum(widths: seq<nat>): nat {
    if widths == [] then 0 else widths[0] + Sum(widths[1..])
  }

  lemma {:induction false} FieldsFit(widths: seq<nat>, s: Source, p: nat)
    requires p <= |s.data|
    ensures ReadFields(widths, s, p).Ok? <==> p + Sum(widths) <= |s.data|
    ensures ReadFields(widths, s, p).Ok? ==> ReadFields(widths, s, p).next == p + Sum(widths)
    decreases |widths|
  {
    if widths != [] && p + widths[0] <= |s.data| {
      FieldsFit(widths[1..], s, p + widths[0]);
    }
  }

  lemma {:induction false} SumAppend(a: seq<nat>, b: seq<nat>)
    ensures Sum(a + b) == Sum(a) + Sum(b)
  {
    if a == [] {
      assert [] + b == b;
    } else {
      SumAppend(a[1..], b);
      assert (a + b)[1..] == a[1..] + b;
    }
  }

  /** Fields in groups are the groups one after the other. */
  lemma {:induction false} FieldsAppend(a: seq<nat>, b: seq<nat>, s: Source, p: nat)
    ensures ReadFields(a + b, s, p)
         == match ReadFields(a, s, p) case Fail(e) => Fail(e) case Ok(_, next) => ReadFields(b, s, next)
    decreases |a|
  {
    if a == [] {
      assert [] + b == b;
    } else {
      assert (a + b)[1..] == a[1..] + b;
      if ReadBytes(s, p, a[0]).Ok? {
        FieldsAppend(a[1..], b, s, ReadBytes(s, p, a[0]).next);
      }
    }
  }

  lemma OneField(a: nat, s: Source, p: nat)
    ensures ReadFields([a], s, p) == match ReadBytes(s, p, a) case Fail(e) => Fail(e) case Ok(_, next) => Ok((), next)
  {
    assert [a][1..] == [];
  }

  lemma TwoFields(a: nat, b: nat, s: Source, p: nat)
    ensures ReadFields([a, b], s, p)
         == match ReadBytes(s, p, a) case Fail(e) => Fail(e) case Ok(_, p1) =>
            match ReadBytes(s, p1, b) case Fail(e) => Fail(e) case Ok(_, p2) => Ok((), p2)
  {
    assert [a, b][1..] == [b];
    if ReadBytes(s, p, a).Ok? {
      OneField(b, s, ReadBytes(s, p, a).next);
    }
  }

  /** Four fields as the four reads they are. */
  lemma FourFields(a: nat, b: nat, c: nat, d: nat, s: Source, p: nat)
    ensures ReadFields([a, b, c, d], s, p)
         == match ReadBytes(s, p, a) case Fail(e) => Fail(e) case Ok(_, p1) =>
            match ReadBytes(s, p1, b) case Fail(e) => Fail(e) case Ok(_, p2) =>
            match ReadBytes(s, p2, c) case Fail(e) => Fail(e) case Ok(_, p3) =>
            match ReadBytes(s, p3, d) case Fail(e) => Fail(e) case Ok(_, p4) => Ok((), p4)
  {
    FieldsAppend([a, b], [c, d], s, p);
    assert [a, b] + [c, d] == [a, b, c, d];
    TwoFields(a, b, s, p);
    if ReadFields([a, b], s, p).Ok? {
      TwoFields(c, d, s, ReadFields([a, b], s, p).next);
    }
  }

  lemma TimestampReads(s: Source, p: nat)
    ensures ReadFields(TIMESTAMP, s, p)
         == match ReadFields([1, 1, 1, 1], s, p) case Fail(e) => Fail(e) case Ok(_, p4) =>
            match ReadBytes(s, p4, 1) case Fail(e) => Fail(e) case Ok(_, p5) =>
            match ReadBytes(s, p5, 1) case Fail(e) => Fail(e) case Ok(_, p6) => Ok((), p6)
  {
    assert [1, 1, 1, 1] + [1, 1] == TIMESTAMP;
    FieldsAppend([1, 1, 1, 1], [1, 1], s, p);
    if ReadFields([1, 1, 1, 1], s, p).Ok? {
      TwoFields(1, 1, s, ReadFields([1, 1, 1, 1], s, p).next);
    }
  }

  lemma GpsReads(s: Source, p: nat)
    ensures ReadFields(GPS, s, p)
         == match ReadBytes(s, p, 1) case Fail(e) => Fail(e) case Ok(_, next) => ReadFields([4, 4, 1, 2], s, next)
  {
    assert GPS[1..] == [4, 4, 1, 2];
  }

  lemma LoginReads(kind: Kind, s: Source, p: nat)
    ensures ReadFields(LoginWidths(kind), s, p)
         == match ReadBytes(s, p, 8) case Fail(e) => Fail(e) case Ok(_, p1) =>
            if kind.TR06? then Ok((), p1) else
            match ReadBytes(s, p1, 2) case Fail(e) => Fail(e) case Ok(_, p2) =>
            match ReadBytes(s, p2, 2) case Fail(e) => Fail(e) case Ok(_, p3) => Ok((), p3)
  {
    assert [8, 2, 2][1..] == [2, 2];
    if kind.TR06? {
      OneField(8, s, p);
    } else if ReadBytes(s, p, 8).Ok? {
      TwoFields(2, 2, s, ReadBytes(s, p, 8).next);
    }
  }

  /** A time, fields and more fields are the time and the fields, and then the others. */
  lemma {:induction false} TimedAppend(kind: Kind, loggedIn: bool, a: seq<nat>, b: seq<nat>, s: Source, p: nat)
    ensures TimedAt(kind, loggedIn, a + b, s, p)
         == match TimedAt(kind, loggedIn, a, s, p) case Fail(e) => Fail(e) case Ok(_, next) =>
            match ReadFields(b, s, next) case Fail(e) => Fail(Recovered(e)) case Ok(_, end) => Ok((), end)
  {
    if ReadFields(TIMESTAMP, s, p).Ok? {
      FieldsAppend(a, b, s, ReadFields(TIMESTAMP, s, p).next);
    }
  }

  lemma ShortSums(a: nat, b: nat, c: nat, d: nat, e: nat)
    ensures Sum([a]) == a && Sum([a, b]) == a + b && Sum([a, b, c]) == a + b + c
    ensures Sum([a, b, c, d]) == a + b + c + d && Sum([a, b, c, d, e]) == a + b + c + d + e
  {
    assert [a, b][1..] == [b] && [a, b, c][1..] == [b, c] && [b, c][1..] == [c];
    assert [a, b, c, d][1..] == [b, c, d] && [b, c, d][1..] == [c, d] && [c, d][1..] == [d];
    assert [a, b, c, d, e][1..] == [b, c, d, e] && [b, c, d, e][1..] == [c, d, e] && [c, d, e][1..] == [d, e] && [d, e][1..] == [e];
    assert Sum([c]) == c && Sum([d]) == d && Sum([e]) == e;
    assert Sum([b, c]) == b + c && Sum([c, d]) == c + d && Sum([d, e]) == d + e;
    assert Sum([b, c, d]) == b + c + d && Sum([c, d, e]) == c + d + e;
    assert Sum([b, c, d, e]) == b + c + d + e;
  }

  lemma Sums()
    ensures Sum([8, 2, 2]) == 12 && Sum([8]) == 8 && Sum([1, 1]) == 2 && Sum([1, 2]) == 3
    ensures Sum(TIMESTAMP) == 6 && Sum(GPS + LBS) == 20
    ensures Sum(PositionWidths(GT06)) == 27 && Sum(PositionWidths(TR06)) == 20
  {
    ShortSums(8, 2, 2, 0, 0);
    ShortSums(1, 1, 1, 1, 1);
    ShortSums(1, 2, 0, 0, 0);
    ShortSums(1, 4, 4, 1, 2);
    ShortSums(2, 1, 2, 3, 0);
    ShortSums(1, 1, 1, 4, 0);
    assert TIMESTAMP[1..] == [1, 1, 1, 1, 1];
    SumAppend(GPS, LBS);
    SumAppend(GPS + LBS, MODE);
    assert PositionWidths(TR06) == GPS + LBS;
  }

  /** The data that a logged-in device's packet may hold, by message type. */
  predicate AcceptableData(kind: Kind, data: seq<byte>) {
    data != [] &&
    if data[0] == 0x01 then |data| >= (if kind.GT06? then 13 else 9)
    else if data[0] == (if kind.GT06? then 0x22 else 0x12) then |data| >= (if kind.GT06? then 34 else 27)
    else if data[0] == 0x26 then |data| >= 33 && data[28] != 0xff && data[30] != 0xff
    else if data[0] == 0x13 || data[0] == 0x23 then |data| == 6 && data[2] != 0xff && data[3] != 0xff
    else data[0] == (if kind.GT06? then 0x94 else 0x80) && |data| == 4
  }

  lemma StatusIff(s: Source, p: nat)
    requires p <= |s.data|
    ensures StatusAt(s, p).Ok? <==> p + 6 <= |s.data| && s.data[p + 1] != NO_VALUE && s.data[p + 3] != NO_VALUE
  {}

  lemma AcceptableAlarm(kind: Kind, loggedIn: bool, s: Source)
    requires |s.data| >= 1
    ensures AlarmAt(kind, loggedIn, s, 1).Ok?
       <==> |s.data| >= 33 && s.data[28] != NO_VALUE && s.data[30] != NO_VALUE && (kind.GT06? ==> loggedIn)
  {
    Sums();
    FieldsFit(TIMESTAMP, s, 1);
    if |s.data| >= 7 {
      FieldsFit(GPS + LBS, s, 7);
    }
    if |s.data| >= 27 {
      StatusIff(s, 27);
    }
  }

  lemma AcceptableLogin(kind: Kind, s: Source)
    requires |s.data| >= 1
    ensures LoginInfoAt(kind, s, 1).Success? <==> |s.data| >= (if kind.GT06? then 13 else 9)
  {
    Sums();
    FieldsFit(LoginWidths(kind), s, 1);
  }

  lemma AcceptablePosition(kind: Kind, loggedIn: bool, s: Source)
    requires |s.data| >= 1
    ensures TimedAt(kind, loggedIn, PositionWidths(kind), s, 1).Ok?
       <==> |s.data| >= (if kind.GT06? then 34 else 27) && (kind.GT06? ==> loggedIn)
  {
    Sums();
    FieldsFit(TIMESTAMP, s, 1);
    if |s.data| >= 7 {
      FieldsFit(PositionWidths(kind), s, 7);
    }
  }

  lemma AcceptableTransmission(s: Source)
    requires |s.data| >= 1
    ensures TransmissionAt(s, 1).Ok? <==> |s.data| == 4
  {
    Sums();
    FieldsFit([1, 2], s, 1);
  }

  lemma AcceptableHeartbeat(s: Source)
    requires |s.data| >= 1
    ensures HeartbeatAt(s, 1).Ok? <==> |s.data| == 6 && s.data[2] != NO_VALUE && s.data[3] != NO_VALUE
  {}

  /** Which packets are accepted, by size and forbidden values alone; a GT06 reads no time before its login. */
  lemma InfoAcceptedIff(kind: Kind, loggedIn: bool, data: seq<byte>)
    ensures ParseInfo(kind, loggedIn, data).Success?
       <==> AcceptableData(kind, data) && (kind.GT06? && data[0] in {0x22, 0x26} ==> loggedIn)
  {
    if data != [] {
      var s := Source(data, EOF);
      AcceptableLogin(kind, s);
      AcceptablePosition(kind, loggedIn, s);
      AcceptableAlarm(kind, loggedIn, s);
      AcceptableHeartbeat(s);
      AcceptableTransmission(s);
      InfoAcceptedBy(kind, loggedIn, data, s, LoginInfoAt(kind, s, 1).Success?,
        TimedAt(kind, loggedIn, PositionWidths(kind), s, 1).Ok?, AlarmAt(kind, loggedIn, s, 1).Ok?,
        HeartbeatAt(s, 1).Ok?, TransmissionAt(s, 1).Ok?);
    }
  }

  lemma InfoAcceptedBy(kind: Kind, loggedIn: bool, data: seq<byte>, s: Source,
                       login: bool, position: bool, alarm: bool, heartbeat: bool, transmission: bool)
    requires s == Source(data, EOF) && data != []
    requires login == LoginInfoAt(kind, s, 1).Success? && position == TimedAt(kind, loggedIn, PositionWidths(kind), s, 1).Ok?
    requires alarm == AlarmAt(kind, loggedIn, s, 1).Ok? && heartbeat == HeartbeatAt(s, 1).Ok?
    requires transmission == TransmissionAt(s, 1).Ok?
    ensures ParseInfo(kind, loggedIn, data).Success? <==>
      if data[0] == MSG_LOGIN then login
      else if data[0] == MsgPositioning(kind) then position
      else if data[0] == MSG_ALARM then alarm
      else if data[0] == MSG_HEARTBEAT || data[0] == MSG_EG_HEARTBEAT then heartbeat
      else data[0] == MsgTransmission(kind) && transmission
  {}

  /** What accepted data is taken for: a login with its eight bytes in hexadecimal without the first digit, or a report. */
  lemma InfoMeans(kind: Kind, loggedIn: bool, data: seq<byte>)
    requires ParseInfo(kind, loggedIn, data).Success?
    ensures data != [] && (data[0] == 0x01 ==> |data| >= 9)
    ensures ParseInfo(kind, loggedIn, data).value
         == if data[0] == 0x01 then LoginInfo(HexText.Encode(data[1..9], HexText.Lower)[1..]) else Report(data[0], data[1..])
  {
    InfoAcceptedIff(kind, loggedIn, data);
  }

  /** The error of heartbeat data: where it ends, or the first level that is invalid, or what is too much. */
  lemma HeartbeatErrors(kind: Kind, loggedIn: bool, data: seq<byte>)
    requires data != [] && data[0] in {0x13, 0x23}
    ensures ParseInfo(kind, loggedIn, data) ==
      if |data| <= 2 then Failure(EOF)
      else if data[2] == 0xff then Failure(InvalidVoltageLevel)
      else if |data| == 3 then Failure(EOF)
      else if data[3] == 0xff then Failure(InvalidSignalStrength)
      else if |data| == 4 then Failure(EOF)
      else if |data| == 5 then Failure(UnexpectedEOF)
      else if |data| == 6 then Success(Report(data[0], data[1..]))
      else Failure(Wrapped(BadDataPacket))
  {}

  /** The errors of transmissions, logins, unknown types and the invalid type. */
  lemma OtherErrors(kind: Kind, loggedIn: bool, data: seq<byte>)
    ensures data == [] ==> ParseInfo(kind, loggedIn, data) == Failure(Wrapped(BadDataPacket))
    ensures data != [] && data[0] == 0x01 && |data| < (if kind.GT06? then 13 else 9) ==>
      ParseInfo(kind, loggedIn, data) == Failure(InvalidLogin)
    ensures data != [] && data[0] == (if kind.GT06? then 0x94 else 0x80) && |data| != 4 ==>
      ParseInfo(kind, loggedIn, data) == Failure(if |data| > 4 then InvalidFormat else if |data| == 3 then UnexpectedEOF else EOF)
    ensures data != [] && data[0] == 0xff ==>
      ParseInfo(kind, loggedIn, data) == Failure(if HasStop(data[1..]) then Wrapped(BadDataPacket) else EOF)
    ensures data != [] && data[0] !in {0x01, 0x13, 0x23, 0x26, 0xff} + (if kind.GT06? then {0x22, 0x94} else {0x12, 0x80}) ==>
      ParseInfo(kind, loggedIn, data) == Failure(Wrapped(BadDataPacket))
  {
    if data != [] {
      var s := Source(data, EOF);
      AcceptableLogin(kind, s);
      TwoFields(1, 2, s, 1);
    }
  }

  /** A GT06 device that is not logged in has no time zone: the time of its report is read, and then it is a bad packet. */
  lemma NoZone(data: seq<byte>)
    requires data != [] && data[0] in {0x22, 0x26}
    ensures ParseInfo(GT06, false, data) == Failure(if |data| < 7 then EOF else Wrapped(BadDataPacket))
  {
    var s := Source(data, EOF);
    TimeErrors(s, 1);
  }

  lemma TimeErrors(s: Source, p: nat)
    requires p <= |s.data| && s.end == EOF
    ensures ReadFields(TIMESTAMP, s, p)
         == if p + 6 <= |s.data| then Ok((), p + 6) else Fail(EOF)
  {
    TimestampReads(s, p);
    FourFields(1, 1, 1, 1, s, p);
  }

  lemma GpsErrors(s: Source, p: nat)
    requires p <= |s.data| && s.end == EOF
    ensures ReadFields(GPS, s, p)
         == if p + 12 <= |s.data| then Ok((), p + 12)
            else Fail(if |s.data| - p in {0, 1, 5, 9, 10} then EOF else UnexpectedEOF)
  {
    GpsReads(s, p);
    FourFields(4, 4, 1, 2, s, p + 1);
  }

  lemma LbsErrors(s: Source, p: nat)
    requires p <= |s.data| && s.end == EOF
    ensures ReadFields(LBS, s, p)
         == if p + 8 <= |s.data| then Ok((), p + 8)
            else Fail(if |s.data| - p in {0, 2, 3, 5} then EOF else UnexpectedEOF)
  {
    FourFields(2, 1, 2, 3, s, p);
  }

  lemma ModeErrors(s: Source, p: nat)
    requires p <= |s.data| && s.end == EOF
    ensures ReadFields(MODE, s, p)
         == if p + 7 <= |s.data| then Ok((), p + 7)
            else Fail(if |s.data| - p in {0, 1, 2, 3} then EOF else UnexpectedEOF)
  {
    FourFields(1, 1, 1, 4, s, p);
  }

  /** Where time, coordinates and cell end inside a field; everywhere else the end of the data is a plain EOF. */
  lemma PlaceErrors(kind: Kind, s: Source)
    requires |s.data| >= 1 && s.end == EOF
    ensures TimedAt(kind, true, GPS + LBS, s, 1)
         == if |s.data| >= 27 then Ok((), 27)
            else Fail(if |s.data| in {1, 2, 3, 4, 5, 6, 7, 8, 12, 16, 17, 19, 21, 22, 24} then EOF else Wrapped(BadDataPacket))
  {
    TimeErrors(s, 1);
    if |s.data| >= 7 {
      FieldsAppend(GPS, LBS, s, 7);
      GpsErrors(s, 7);
    }
    if |s.data| >= 19 {
      LbsErrors(s, 19);
    }
  }

  /** The error of a position that is too short: EOF between two fields, a bad packet inside one. */
  lemma PositionErrors(kind: Kind, data: seq<byte>)
    requires data != [] && data[0] == (if kind.GT06? then 0x22 else 0x12) && |data| < (if kind.GT06? then 34 else 27)
    ensures ParseInfo(kind, true, data)
         == Failure(if |data| in {1, 2, 3, 4, 5, 6, 7, 8, 12, 16, 17, 19, 21, 22, 24, 27, 28, 29, 30} then EOF else Wrapped(BadDataPacket))
  {
    var s := Source(data, EOF);
    PlaceErrors(kind, s);
    TimedAppend(kind, true, GPS + LBS, if kind.GT06? then MODE else [], s, 1);
    assert PositionWidths(kind) == GPS + LBS + (if kind.GT06? then MODE else []);
    if |data| >= 27 {
      ModeErrors(s, 27);
    }
  }

  /** The error of an alarm that is too short or has an invalid level. */
  lemma AlarmErrors(kind: Kind, data: seq<byte>)
    requires data != [] && data[0] == 0x26 && !AcceptableData(kind, data)
    ensures ParseInfo(kind, true, data)
         == Failure(if || |data| in {1, 2, 3, 4, 5, 6, 7, 8, 12, 16, 17, 19, 21, 22, 24, 27, 28}
                       || (|data| in {29, 30} && data[28] != 0xff)
                       || (|data| in {31, 32} && data[28] != 0xff && data[30] != 0xff)
                    then EOF else Wrapped(BadDataPacket))
  {
    var s := Source(data, EOF);
    PlaceErrors(kind, s);
    if |data| >= 27 {
      StatusErrors(s, 27);
    }
  }

  lemma StatusErrors(s: Source, p: nat)
    requires p <= |s.data| && s.end == EOF && !StatusAt(s, p).Ok?
    ensures var n := |s.data| - p;
      StatusAt(s, p) == Fail(
        if || n <= 1
           || (n in {2, 3} && s.data[p + 1] != 0xff)
           || (n in {4, 5} && s.data[p + 1] != 0xff && s.data[p + 3] != 0xff)
        then EOF else Wrapped(BadDataPacket))
  {
    if |s.data| - p >= 4 {
      TwoFields(1, 1, s, p + 4);
    }
  }
}
