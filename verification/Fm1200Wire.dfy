/**
 The FM1200 wire format (Codec 8, Codec 8E and Codec 12).

 Formats are composed in the order in which the source reads their parts, so each comes with a
 parser, an encoding and the values that fit; `RecordLayout` spells the encoding of a record out.
 */
module Fm1200Wire {
  import opened Bytes
  import opened Streams
  import opened Formats

  const CODEC_8E: byte := 0x8E
  const CODEC_12: byte := 0x0C

  // ----- Properties -----

  /** One IO property as it stands on the wire. */
  datatype Prop = Prop(id: nat, raw: seq<byte>)

  /** Codec 8E uses two bytes for ids and counts; every other AVL codec one. */
  function IdSize(wide: bool): nat {
    if wide then 2 else 1
  }

  function PropFromParts(x: (nat, seq<byte>)): Prop {
    Prop(x.0, x.1)
  }

  function PropToParts(q: Prop): (nat, seq<byte>) {
    (q.id, q.raw)
  }

  function PropFormat(wide: bool, value: Format<seq<byte>>): Format<Prop> {
    Iso(Then(Uint(IdSize(wide)), value), PropFromParts, PropToParts)
  }

  /** A counted list of properties whose values take `n` bytes each. */
  function FixedGroup(wide: bool, n: nat): Format<seq<Prop>> {
    Counted(IdSize(wide), PropFormat(wide, Raw(n)))
  }

  /** The properties with a length of their own exist in Codec 8E only. */
  function VariableGroup(wide: bool): Format<seq<Prop>> {
    if wide then Counted(2, PropFormat(true, Blob(2))) else Nothing([])
  }

  lemma PropCorrect(wide: bool, value: Format<seq<byte>>)
    requires Correct(value)
    ensures Correct(PropFormat(wide, value))
  {
    UintCorrect(IdSize(wide));
    ThenCorrect(Uint(IdSize(wide)), value);
    IsoCorrect(Then(Uint(IdSize(wide)), value), PropFromParts, PropToParts);
  }

  lemma FixedGroupCorrect(wide: bool, n: nat)
    ensures Correct(FixedGroup(wide, n))
  {
    RawCorrect(n);
    PropCorrect(wide, Raw(n));
    CountedCorrect(IdSize(wide), PropFormat(wide, Raw(n)));
  }

  lemma VariableGroupCorrect(wide: bool)
    ensures Correct(VariableGroup(wide))
  {
    if wide {
      BlobCorrect(2);
      PropCorrect(true, Blob(2));
      CountedCorrect(2, PropFormat(true, Blob(2)));
    } else {
      NothingCorrect<seq<Prop>>([]);
    }
  }

  // ----- IO elements -----

  datatype WireIO = WireIO(
    eventId: nat, numProperties: nat,
    g1: seq<Prop>, g2: seq<Prop>, g4: seq<Prop>, g8: seq<Prop>, nx: seq<Prop>)

  type Groups = (seq<Prop>, (seq<Prop>, (seq<Prop>, (seq<Prop>, seq<Prop>))))

  function GroupsFormat(wide: bool): Format<Groups> {
    Then(FixedGroup(wide, 1), Then(FixedGroup(wide, 2), Then(FixedGroup(wide, 4),
      Then(FixedGroup(wide, 8), VariableGroup(wide)))))
  }

  lemma GroupsCorrect(wide: bool)
    ensures Correct(GroupsFormat(wide))
  {
    FixedGroupCorrect(wide, 1);
    FixedGroupCorrect(wide, 2);
    FixedGroupCorrect(wide, 4);
    FixedGroupCorrect(wide, 8);
    VariableGroupCorrect(wide);
    ChainCorrect(FixedGroup(wide, 1), FixedGroup(wide, 2), FixedGroup(wide, 4), FixedGroup(wide, 8), VariableGroup(wide));
  }

  /** The event id and the announced number of properties; nothing compares the latter with the groups. */
  function IOFormat(wide: bool): Format<WireIO> {
    var n := Uint(IdSize(wide));
    Iso(Then(n, Then(n, Relabel(GroupsFormat(wide), Wrapped(BadDataPacket)))), IOFromParts, IOToParts)
  }

  function IOFromParts(x: (nat, (nat, Groups))): WireIO {
    var (g1, (g2, (g4, (g8, nx)))) := x.1.1;
    WireIO(x.0, x.1.0, g1, g2, g4, g8, nx)
  }

  function IOToParts(io: WireIO): (nat, (nat, Groups)) {
    (io.eventId, (io.numProperties, (io.g1, (io.g2, (io.g4, (io.g8, io.nx))))))
  }

  lemma IOCorrect(wide: bool)
    ensures Correct(IOFormat(wide))
  {
    var n, groups := Uint(IdSize(wide)), Relabel(GroupsFormat(wide), Wrapped(BadDataPacket));
    UintCorrect(IdSize(wide));
    GroupsCorrect(wide);
    RelabelCorrect(GroupsFormat(wide), Wrapped(BadDataPacket));
    ThenThenCorrect(n, n, groups);
    IsoCorrect(Then(n, Then(n, groups)), IOFromParts, IOToParts);
  }

  // ----- GPS elements -----

  /** Raw coordinates are 32-bit two's complement numbers. */
  function Int32(): Format<int> {
    View(Uint(4), Signed32, Unsigned32, (i: int) => -0x8000_0000 <= i < 0x8000_0000)
  }

  lemma Int32Correct()
    ensures Correct(Int32())
  {
    UintCorrect(4);
    BEWidths();
    ViewCorrect(Uint(4), Signed32, Unsigned32, (i: int) => -0x8000_0000 <= i < 0x8000_0000);
  }

  datatype Gps = Gps(longitude: int, latitude: int, altitude: nat, angle: nat, satellites: nat, speed: nat)

  type GpsParts = (int, (int, (nat, (nat, (nat, nat)))))

  function GpsFromParts(x: GpsParts): Gps {
    var (longitude, (latitude, (altitude, (angle, (satellites, speed))))) := x;
    Gps(longitude, latitude, altitude, angle, satellites, speed)
  }

  function GpsToParts(g: Gps): GpsParts {
    (g.longitude, (g.latitude, (g.altitude, (g.angle, (g.satellites, g.speed)))))
  }

  function GpsPartsFormat(): Format<GpsParts> {
    Then(Int32(), Then(Int32(), Then(Uint(2), Then(Uint(2), Then(Uint(1), Uint(2))))))
  }

  function GpsFormat(): Format<Gps> {
    Iso(GpsPartsFormat(), GpsFromParts, GpsToParts)
  }

  lemma GpsPartsCorrect()
    ensures Correct(GpsPartsFormat())
  {
    Int32Correct();
    UintCorrect(1);
    UintCorrect(2);
    ThenCorrect(Uint(1), Uint(2));
    ChainCorrect(Int32(), Int32(), Uint(2), Uint(2), Then(Uint(1), Uint(2)));
  }

  lemma GpsCorrect()
    ensures Correct(GpsFormat())
  {
    GpsPartsCorrect();
    IsoCorrect(GpsPartsFormat(), GpsFromParts, GpsToParts);
  }

  // ----- Records -----

  datatype WireRecord = WireRecord(timestamp: nat, priority: nat, gps: Gps, io: WireIO)

  type RecordParts = ((nat, nat), (Gps, WireIO))

  function RecordFromParts(x: RecordParts): WireRecord {
    WireRecord(x.0.0, x.0.1, x.1.0, x.1.1)
  }

  function RecordToParts(r: WireRecord): RecordParts {
    ((r.timestamp, r.priority), (r.gps, r.io))
  }

  function RecordFormat(wide: bool): Format<WireRecord> {
    Iso(Then(Then(Uint(8), Uint(1)), Then(GpsFormat(), IOFormat(wide))), RecordFromParts, RecordToParts)
  }

  lemma RecordCorrect(wide: bool)
    ensures Correct(RecordFormat(wide))
  {
    UintCorrect(8);
    UintCorrect(1);
    GpsCorrect();
    IOCorrect(wide);
    ThenCorrect(Uint(8), Uint(1));
    ThenThenCorrect(Then(Uint(8), Uint(1)), GpsFormat(), IOFormat(wide));
    IsoCorrect(Then(Then(Uint(8), Uint(1)), Then(GpsFormat(), IOFormat(wide))), RecordFromParts, RecordToParts);
  }

  // ----- Bodies -----

  /** What the data of one frame holds: the records of an AVL packet, or a reply to a command. */
  datatype Body =
    | Records(codec: byte, records: seq<WireRecord>)
    | Reply(quantity1: nat, kind: nat, text: seq<byte>, quantity2: nat)

  function RecordsFormat(codec: byte): Format<seq<WireRecord>> {
    Bracketed(1, RecordFormat(codec == CODEC_8E), Wrapped(BadDataPacket))
  }

  type ReplyParts = ((nat, nat), (seq<byte>, nat))

  function ReplyFormat(): Format<ReplyParts> {
    Then(Then(Uint(1), Uint(1)), Then(Blob(4), Uint(1)))
  }

  lemma RecordsCorrect(codec: byte)
    ensures Correct(RecordsFormat(codec))
  {
    RecordCorrect(codec == CODEC_8E);
    BracketedCorrect(1, RecordFormat(codec == CODEC_8E), Wrapped(BadDataPacket));
  }

  lemma ReplyCorrect()
    ensures Correct(ReplyFormat())
  {
    UintCorrect(1);
    BlobCorrect(4);
    ThenCorrect(Uint(1), Uint(1));
    ThenThenCorrect(Then(Uint(1), Uint(1)), Blob(4), Uint(1));
  }

  /** The codec decides what follows it; bytes after the body are ignored. */
  function ParseBody(data: seq<byte>): Parsed<Body> {
    if data == [] then Fail(EOF)
    else if data[0] == CODEC_12 then
      match ReplyFormat().parse(Source(data, EOF), 1)
      case Fail(e) => Fail(e)
      case Ok(x, next) => Ok(Reply(x.0.0, x.0.1, x.1.0, x.1.1), next)
    else
      match RecordsFormat(data[0]).parse(Source(data, EOF), 1)
      case Fail(e) => Fail(e)
      case Ok(rs, next) => Ok(Records(data[0], rs), next)
  }

  function EncodeBody(b: Body): seq<byte> {
    match b
    case Records(codec, rs) => [codec] + RecordsFormat(codec).encode(rs)
    case Reply(q1, kind, text, q2) => [CODEC_12] + ReplyFormat().encode(((q1, kind), (text, q2)))
  }

  predicate FitsBody(b: Body) {
    match b
    case Records(codec, rs) => codec != CODEC_12 && RecordsFormat(codec).fits(rs)
    case Reply(q1, kind, text, q2) => ReplyFormat().fits(((q1, kind), (text, q2)))
  }

  lemma PrefixAt(data: seq<byte>, first: byte, rest: seq<byte>)
    ensures [first] + rest <= data <==> data != [] && data[0] == first && At(Source(data, EOF), 1, rest)
  {}

  lemma RecordsSound(data: seq<byte>, codec: byte, records: Format<seq<WireRecord>>)
    requires data != [] && data[0] == codec != CODEC_12 && records == RecordsFormat(codec)
    requires records.parse(Source(data, EOF), 1).Ok?
    ensures var r := records.parse(Source(data, EOF), 1);
      records.fits(r.value) && [codec] + records.encode(r.value) <= data && r.next == 1 + |records.encode(r.value)|
  {
    RecordsCorrect(codec);
    PrefixAt(data, codec, records.encode(records.parse(Source(data, EOF), 1).value));
  }

  lemma ReplySound(data: seq<byte>, reply: Format<ReplyParts>)
    requires data != [] && data[0] == CODEC_12 && reply == ReplyFormat() && reply.parse(Source(data, EOF), 1).Ok?
    ensures var r := reply.parse(Source(data, EOF), 1);
      reply.fits(r.value) && [CODEC_12] + reply.encode(r.value) <= data && r.next == 1 + |reply.encode(r.value)|
  {
    ReplyCorrect();
    PrefixAt(data, CODEC_12, reply.encode(reply.parse(Source(data, EOF), 1).value));
  }

  /** What is parsed stands written out at the front of the data. */
  lemma BodySound(data: seq<byte>)
    requires ParseBody(data).Ok?
    ensures var r := ParseBody(data);
      FitsBody(r.value) && EncodeBody(r.value) <= data && r.next == |EncodeBody(r.value)|
  {
    if data[0] == CODEC_12 {
      ReplySound(data, ReplyFormat());
    } else {
      RecordsSound(data, data[0], RecordsFormat(data[0]));
    }
  }

  lemma RecordsComplete(data: seq<byte>, codec: byte, rs: seq<WireRecord>)
    requires FitsBody(Records(codec, rs)) && EncodeBody(Records(codec, rs)) <= data
    ensures ParseBody(data) == Ok(Records(codec, rs), |EncodeBody(Records(codec, rs))|)
  {
    RecordsCorrect(codec);
    PrefixAt(data, codec, RecordsFormat(codec).encode(rs));
  }

  lemma ReplyComplete(data: seq<byte>, q1: nat, kind: nat, text: seq<byte>, q2: nat)
    requires FitsBody(Reply(q1, kind, text, q2)) && EncodeBody(Reply(q1, kind, text, q2)) <= data
    ensures ParseBody(data) == Ok(Reply(q1, kind, text, q2), |EncodeBody(Reply(q1, kind, text, q2))|)
  {
    ReplyCorrect();
    PrefixAt(data, CODEC_12, ReplyFormat().encode(((q1, kind), (text, q2))));
  }

  /** A body that fits its fields is read back, whatever follows it. */
  lemma BodyComplete(data: seq<byte>, b: Body)
    requires FitsBody(b) && EncodeBody(b) <= data
    ensures ParseBody(data) == Ok(b, |EncodeBody(b)|)
  {
    match b
    case Reply(q1, kind, text, q2) => ReplyComplete(data, q1, kind, text, q2);
    case Records(codec, rs) => RecordsComplete(data, codec, rs);
  }

  lemma BodyIff(data: seq<byte>, b: Body)
    ensures ParseBody(data).Ok? && ParseBody(data).value == b <==> FitsBody(b) && EncodeBody(b) <= data
  {
    if ParseBody(data).Ok? {
      BodySound(data);
    }
    if FitsBody(b) && EncodeBody(b) <= data {
      BodyComplete(data, b);
    }
  }

  /** What fits, field by field. */
  predicate FitsGroup(qs: seq<Prop>, wide: bool, lo: nat, hi: nat) {
    |qs| < Limit(wide) && forall i :: 0 <= i < |qs| ==> qs[i].id < Limit(wide) && lo <= |qs[i].raw| <= hi
  }

  /** Counts and ids have one byte, or two in Codec 8E. */
  function Limit(wide: bool): nat {
    if wide then 0x1_0000 else 0x100
  }

  predicate FitsIO(io: WireIO, wide: bool) {
    && io.eventId < Limit(wide) && io.numProperties < Limit(wide)
    && FitsGroup(io.g1, wide, 1, 1) && FitsGroup(io.g2, wide, 2, 2)
    && FitsGroup(io.g4, wide, 4, 4) && FitsGroup(io.g8, wide, 8, 8)
    && if wide then FitsGroup(io.nx, true, 0, 0xFFFF) else io.nx == []
  }

  predicate FitsGps(g: Gps) {
    && -0x8000_0000 <= g.longitude < 0x8000_0000 && -0x8000_0000 <= g.latitude < 0x8000_0000
    && g.altitude < 0x1_0000 && g.angle < 0x1_0000 && g.satellites < 0x100 && g.speed < 0x1_0000
  }

  predicate FitsRecord(r: WireRecord, wide: bool) {
    r.timestamp < 0x1_0000_0000_0000_0000 && r.priority < 0x100 && FitsGps(r.gps) && FitsIO(r.io, wide)
  }

  lemma FixedGroupFits(qs: seq<Prop>, wide: bool, n: nat)
    ensures FixedGroup(wide, n).fits(qs) <==> FitsGroup(qs, wide, n, n)
  {
    BEWidths();
    AllFitMeans(PropFormat(wide, Raw(n)), qs);
    forall i | 0 <= i < |qs|
      ensures PropFormat(wide, Raw(n)).fits(qs[i]) <==> qs[i].id < Pow256(IdSize(wide)) && |qs[i].raw| == n
    {
      PropFits(qs[i], wide, Raw(n));
    }
  }

  lemma PropFits(q: Prop, wide: bool, value: Format<seq<byte>>)
    ensures PropFormat(wide, value).fits(q) <==> q.id < Pow256(IdSize(wide)) && value.fits(q.raw)
  {
    IsoFits(Then(Uint(IdSize(wide)), value), PropFromParts, PropToParts, q);
  }

  lemma VariableGroupFits(qs: seq<Prop>, wide: bool)
    ensures VariableGroup(wide).fits(qs) <==> if wide then FitsGroup(qs, true, 0, 0xFFFF) else qs == []
  {
    BEWidths();
    AllFitMeans(PropFormat(true, Blob(2)), qs);
    forall i | 0 <= i < |qs|
      ensures PropFormat(true, Blob(2)).fits(qs[i]) <==> qs[i].id < Pow256(2) && |qs[i].raw| <= 0xFFFF
    {
      PropFits(qs[i], true, Blob(2));
    }
  }

  lemma IOFits(io: WireIO, wide: bool)
    ensures IOFormat(wide).fits(io) <==> FitsIO(io, wide)
  {
    BEWidths();
    FixedGroupFits(io.g1, wide, 1);
    FixedGroupFits(io.g2, wide, 2);
    FixedGroupFits(io.g4, wide, 4);
    FixedGroupFits(io.g8, wide, 8);
    VariableGroupFits(io.nx, wide);
    var n, groups := Uint(IdSize(wide)), Relabel(GroupsFormat(wide), Wrapped(BadDataPacket));
    IsoFits(Then(n, Then(n, groups)), IOFromParts, IOToParts, io);
    ChainFits(FixedGroup(wide, 1), FixedGroup(wide, 2), FixedGroup(wide, 4), FixedGroup(wide, 8), VariableGroup(wide),
      io.g1, io.g2, io.g4, io.g8, io.nx);
  }

  lemma GpsFits(g: Gps)
    ensures GpsFormat().fits(g) <==> FitsGps(g)
  {
    BEWidths();
    IsoFits(GpsPartsFormat(), GpsFromParts, GpsToParts, g);
    ChainFits(Int32(), Int32(), Uint(2), Uint(2), Then(Uint(1), Uint(2)),
      g.longitude, g.latitude, g.altitude, g.angle, (g.satellites, g.speed));
  }

  lemma RecordFits(r: WireRecord, wide: bool)
    ensures RecordFormat(wide).fits(r) <==> FitsRecord(r, wide)
  {
    BEWidths();
    GpsFits(r.gps);
    IOFits(r.io, wide);
    IsoFits(Then(Then(Uint(8), Uint(1)), Then(GpsFormat(), IOFormat(wide))), RecordFromParts, RecordToParts, r);
  }

  /** A body fits exactly if there are at most 255 records and every field is within its width. */
  lemma BodyFits(codec: byte, rs: seq<WireRecord>)
    ensures FitsBody(Records(codec, rs))
       <==> codec != CODEC_12 && |rs| <= 255 && forall i :: 0 <= i < |rs| ==> FitsRecord(rs[i], codec == CODEC_8E)
  {
    BEWidths();
    var wide := codec == CODEC_8E;
    BracketedFits(1, RecordFormat(wide), Wrapped(BadDataPacket), rs);
    forall i | 0 <= i < |rs|
      ensures RecordFormat(wide).fits(rs[i]) <==> FitsRecord(rs[i], wide)
    {
      RecordFits(rs[i], wide);
    }
  }

  // ----- The format spelled out -----

  /** Properties back to back: id, length where there is one, value. */
  function PropsBytes(qs: seq<Prop>, idSize: nat, lengthSize: nat): seq<byte> {
    if qs == [] then [] else
      ToBE(qs[0].id, idSize) + (LengthBytes(|qs[0].raw|, lengthSize) + qs[0].raw)
      + PropsBytes(qs[1..], idSize, lengthSize)
  }

  function LengthBytes(length: nat, size: nat): seq<byte> {
    if size == 0 then [] else ToBE(length, size)
  }

  lemma PropLayout(q: Prop, wide: bool, value: Format<seq<byte>>)
    ensures PropFormat(wide, value).encode(q) == ToBE(q.id, IdSize(wide)) + value.encode(q.raw)
  {
    var id := Uint(IdSize(wide));
    IsoEncode(Then(id, value), PropFromParts, PropToParts, q);
    ThenEncode(id, value, q.id, q.raw);
  }

  lemma {:induction false} FixedPropsLayout(qs: seq<Prop>, wide: bool, n: nat)
    ensures EncodeMany(PropFormat(wide, Raw(n)), qs) == PropsBytes(qs, IdSize(wide), 0)
  {
    if qs != [] {
      FixedPropsLayout(qs[1..], wide, n);
      PropLayout(qs[0], wide, Raw(n));
      assert LengthBytes(|qs[0].raw|, 0) + qs[0].raw == qs[0].raw;
    }
  }

  lemma {:induction false} VariablePropsLayout(qs: seq<Prop>)
    ensures EncodeMany(PropFormat(true, Blob(2)), qs) == PropsBytes(qs, 2, 2)
  {
    if qs != [] {
      VariablePropsLayout(qs[1..]);
      PropLayout(qs[0], true, Blob(2));
    }
  }

  function GroupBytes(qs: seq<Prop>, wide: bool): seq<byte> {
    if wide then ToBE(|qs|, 2) + PropsBytes(qs, 2, 0) else ToBE(|qs|, 1) + PropsBytes(qs, 1, 0)
  }

  lemma FixedGroupLayout(qs: seq<Prop>, wide: bool, n: nat)
    ensures FixedGroup(wide, n).encode(qs) == GroupBytes(qs, wide)
  {
    FixedPropsLayout(qs, wide, n);
  }

  function VariableGroupBytes(qs: seq<Prop>, wide: bool): seq<byte> {
    if wide then ToBE(|qs|, 2) + PropsBytes(qs, 2, 2) else []
  }

  lemma VariableGroupLayout(qs: seq<Prop>, wide: bool)
    ensures VariableGroup(wide).encode(qs) == VariableGroupBytes(qs, wide)
  {
    if wide {
      VariablePropsLayout(qs);
    }
  }

  function IOBytes(io: WireIO, wide: bool): seq<byte> {
    ToBE(io.eventId, if wide then 2 else 1) + (ToBE(io.numProperties, if wide then 2 else 1)
    + (GroupBytes(io.g1, wide) + (GroupBytes(io.g2, wide) + (GroupBytes(io.g4, wide) + (GroupBytes(io.g8, wide)
    + VariableGroupBytes(io.nx, wide))))))
  }

  lemma IOLayout(io: WireIO, wide: bool)
    ensures IOFormat(wide).encode(io) == IOBytes(io, wide)
  {
    FixedGroupLayout(io.g1, wide, 1);
    FixedGroupLayout(io.g2, wide, 2);
    FixedGroupLayout(io.g4, wide, 4);
    FixedGroupLayout(io.g8, wide, 8);
    VariableGroupLayout(io.nx, wide);
    var n, groups := Uint(IdSize(wide)), Relabel(GroupsFormat(wide), Wrapped(BadDataPacket));
    var parts := (io.g1, (io.g2, (io.g4, (io.g8, io.nx))));
    IsoEncode(Then(n, Then(n, groups)), IOFromParts, IOToParts, io);
    ThenEncode(n, Then(n, groups), io.eventId, (io.numProperties, parts));
    ThenEncode(n, groups, io.numProperties, parts);
    ChainEncode(FixedGroup(wide, 1), FixedGroup(wide, 2), FixedGroup(wide, 4), FixedGroup(wide, 8), VariableGroup(wide),
      io.g1, io.g2, io.g4, io.g8, io.nx);
  }

  function GpsBytes(g: Gps): seq<byte> {
    ToBE(Unsigned32(g.longitude), 4) + (ToBE(Unsigned32(g.latitude), 4) + (ToBE(g.altitude, 2)
    + (ToBE(g.angle, 2) + (ToBE(g.satellites, 1) + ToBE(g.speed, 2)))))
  }

  lemma GpsLayout(g: Gps)
    ensures GpsFormat().encode(g) == GpsBytes(g)
  {
    IsoEncode(GpsPartsFormat(), GpsFromParts, GpsToParts, g);
    ChainEncode(Int32(), Int32(), Uint(2), Uint(2), Then(Uint(1), Uint(2)),
      g.longitude, g.latitude, g.altitude, g.angle, (g.satellites, g.speed));
    ThenEncode(Uint(1), Uint(2), g.satellites, g.speed);
  }

  /** A record on the wire, field by field. */
  function RecordBytes(r: WireRecord, wide: bool): seq<byte> {
    (ToBE(r.timestamp, 8) + ToBE(r.priority, 1)) + (GpsBytes(r.gps) + IOBytes(r.io, wide))
  }

  lemma RecordLayout(r: WireRecord, wide: bool)
    ensures RecordFormat(wide).encode(r) == RecordBytes(r, wide)
  {
    GpsLayout(r.gps);
    IOLayout(r.io, wide);
    var u8, u1, gps, io := Uint(8), Uint(1), GpsFormat(), IOFormat(wide);
    IsoEncode(Then(Then(u8, u1), Then(gps, io)), RecordFromParts, RecordToParts, r);
    ThenEncode(Then(u8, u1), Then(gps, io), (r.timestamp, r.priority), (r.gps, r.io));
    ThenEncode(u8, u1, r.timestamp, r.priority);
    ThenEncode(gps, io, r.gps, r.io);
  }

  function RecordsBytes(rs: seq<WireRecord>, wide: bool): seq<byte> {
    if rs == [] then [] else RecordBytes(rs[0], wide) + RecordsBytes(rs[1..], wide)
  }

  lemma {:induction false} RecordsLayout(rs: seq<WireRecord>, wide: bool)
    ensures EncodeMany(RecordFormat(wide), rs) == RecordsBytes(rs, wide)
  {
    if rs != [] {
      RecordLayout(rs[0], wide);
      RecordsLayout(rs[1..], wide);
    }
  }

  /** An AVL packet: codec, count, records, the same count. */
  function PacketBytes(codec: byte, rs: seq<WireRecord>): seq<byte> {
    [codec] + (ToBE(|rs|, 1) + RecordsBytes(rs, codec == 0x8E) + ToBE(|rs|, 1))
  }

  lemma PacketLayout(codec: byte, rs: seq<WireRecord>)
    ensures EncodeBody(Records(codec, rs)) == PacketBytes(codec, rs)
  {
    RecordsLayout(rs, codec == CODEC_8E);
    BracketedEncode(1, RecordFormat(codec == CODEC_8E), Wrapped(BadDataPacket), rs);
  }

  /**
   Parsing data gives these records exactly if the data starts with the packet that spells them
   out, there are at most 255 of them, and every field is within its width.
   */
  lemma PacketIff(data: seq<byte>, codec: byte, rs: seq<WireRecord>)
    ensures ParseBody(data).Ok? && ParseBody(data).value == Records(codec, rs)
       <==> && PacketBytes(codec, rs) <= data && codec != 0x0C && |rs| <= 255
            && forall i :: 0 <= i < |rs| ==> FitsRecord(rs[i], codec == 0x8E)
  {
    PacketLayout(codec, rs);
    BodyFits(codec, rs);
    BodyIff(data, Records(codec, rs));
  }

  /** A Codec 12 body: quantity, type, size, text, quantity. */
  lemma ReplyLayout(q1: nat, kind: nat, text: seq<byte>, q2: nat)
    ensures EncodeBody(Reply(q1, kind, text, q2))
         == [0x0C] + ((ToBE(q1, 1) + ToBE(kind, 1)) + ((ToBE(|text|, 4) + text) + ToBE(q2, 1)))
    ensures FitsBody(Reply(q1, kind, text, q2))
       <==> q1 < 0x100 && kind < 0x100 && |text| < 0x1_0000_0000 && q2 < 0x100
  {
    BEWidths();
  }
}
