/**
 The FM1200 parser as it runs: loops over a reader that fill maps and lists.

 `XAt` functions spell out the reading order of the source; the `XSteps` lemmas say that it is the
 composed format. Methods know their format through an `IsX` predicate only.
 */
module Fm1200Parser {
  import opened Bytes
  import opened Streams
  import opened Formats
  import opened Fm1200Wire

  // ----- What the decoder hands on -----

  datatype IOElement = IOElement(
    eventId: nat, numProperties: nat,
    properties1B: map<nat, nat>, properties2B: map<nat, nat>, properties4B: map<nat, nat>, properties8B: map<nat, nat>,
    propertiesNXB: map<nat, seq<byte>>)

  datatype AvlRecord = AvlRecord(timestamp: nat, priority: nat, gps: Gps, io: IOElement)

  /** The map a loop over `qs` fills: later properties overwrite earlier ones of the same id. */
  function LastWins<V>(qs: seq<Prop>, value: seq<byte> -> V): map<nat, V> {
    if qs == [] then map[] else
      var q := qs[|qs| - 1];
      LastWins(qs[..|qs| - 1], value)[q.id := value(q.raw)]
  }

  /** An id has a value exactly if some property carries it, and then the last one does. */
  lemma {:induction false} LastWinsMeans<V>(qs: seq<Prop>, value: seq<byte> -> V, id: nat)
    ensures id in LastWins(qs, value) <==> exists i :: 0 <= i < |qs| && qs[i].id == id
    ensures forall i :: 0 <= i < |qs| && qs[i].id == id && (forall j :: i < j < |qs| ==> qs[j].id != id) ==>
      id in LastWins(qs, value) && LastWins(qs, value)[id] == value(qs[i].raw)
  {
    if qs != [] {
      var n := |qs| - 1;
      LastWinsMeans(qs[..n], value, id);
      assert forall i :: 0 <= i < n ==> qs[..n][i] == qs[i];
      if qs[n].id == id {
        assert id in LastWins(qs, value);
      }
    }
  }

  function Number(raw: seq<byte>): nat {
    FromBE(raw)
  }

  function Itself(raw: seq<byte>): seq<byte> {
    raw
  }

  function DecodedIO(io: WireIO): IOElement {
    IOElement(io.eventId, io.numProperties, LastWins(io.g1, Number), LastWins(io.g2, Number),
      LastWins(io.g4, Number), LastWins(io.g8, Number), LastWins(io.nx, Itself))
  }

  function DecodedRecord(r: WireRecord): AvlRecord {
    AvlRecord(r.timestamp, r.priority, r.gps, DecodedIO(r.io))
  }

  function DecodedRecords(rs: seq<WireRecord>): (ds: seq<AvlRecord>)
    ensures |ds| == |rs| && forall i :: 0 <= i < |ds| ==> ds[i] == DecodedRecord(rs[i])
  {
    seq(|rs|, i requires 0 <= i < |rs| => DecodedRecord(rs[i]))
  }

  // ----- Reading properties -----

  lemma LastWinsPush<V>(qs: seq<Prop>, q: Prop, value: seq<byte> -> V)
    ensures LastWins(qs + [q], value) == LastWins(qs, value)[q.id := value(q.raw)]
  {
    assert (qs + [q])[..|qs|] == qs;
  }

  /** One round of a loop over properties: id, then value. */
  function PropertyAt(wide: bool, value: Format<seq<byte>>, s: Source, p: nat): Parsed<Prop> {
    match ReadUint(s, p, IdSize(wide))
    case Fail(e) => Fail(e)
    case Ok(id, p1) =>
      match value.parse(s, p1)
      case Fail(e) => Fail(e)
      case Ok(raw, p2) => Ok(Prop(id, raw), p2)
  }

  /** `item` is the format of one property; the loops below need not look inside it. */
  ghost predicate IsProperty(item: Format<Prop>, wide: bool, value: Format<seq<byte>>) {
    forall s: Source, p: nat {:trigger PropertyAt(wide, value, s, p)} :: item.parse(s, p) == PropertyAt(wide, value, s, p)
  }

  lemma PropertyFormat(wide: bool, value: Format<seq<byte>>)
    ensures IsProperty(PropFormat(wide, value), wide, value)
  {
    forall s: Source, p: nat
      ensures PropFormat(wide, value).parse(s, p) == PropertyAt(wide, value, s, p)
    {
      IsoParse(Then(Uint(IdSize(wide)), value), PropFromParts, PropToParts, s, p);
      ThenParse(Uint(IdSize(wide)), value, s, p);
    }
  }

  method ReadFixedProperty(n: nat, reader: Reader, wide: bool, ghost item: Format<Prop>) returns (r: Parsed<Prop>)
    requires reader.Valid() && IsProperty(item, wide, Raw(n))
    modifies reader
    ensures reader.Valid()
    ensures r == item.parse(reader.source, old(reader.pos)) && (r.Ok? ==> reader.pos == r.next)
  {
    assert item.parse(reader.source, reader.pos) == PropertyAt(wide, Raw(n), reader.source, reader.pos);
    var id := reader.ReadNumber(IdSize(wide));
    if id.Fail? {
      return Fail(id.error);
    }
    var raw := reader.ReadFull(n);
    if raw.Fail? {
      return Fail(raw.error);
    }
    return Ok(Prop(id.value, raw.value), raw.next);
  }

  /** The loop over `count` properties, each overwriting earlier ones of its id. */
  method ReadFixedLoop(n: nat, count: nat, reader: Reader, wide: bool, ghost item: Format<Prop>)
      returns (r: Result<map<nat, nat>>)
    requires reader.Valid() && IsProperty(item, wide, Raw(n))
    modifies reader
    ensures reader.Valid()
    ensures match ParseMany(item, reader.source, old(reader.pos), count)
      case Fail(e) => r == Failure(e)
      case Ok(qs, next) => r == Success(LastWins(qs, Number)) && reader.pos == next
  {
    var properties: map<nat, nat> := map[];
    ghost var start, done := reader.pos, [];
    PrependNone(ParseMany(item, reader.source, start, count));
    var i := 0;
    while i < count
      invariant i <= count && reader.Valid()
      invariant properties == LastWins(done, Number)
      invariant PrependAll(done, ParseMany(item, reader.source, reader.pos, count - i))
             == ParseMany(item, reader.source, start, count)
    {
      ManyPush(item, reader.source, done, reader.pos, count - i);
      var property := ReadFixedProperty(n, reader, wide, item);
      if property.Fail? {
        return Failure(property.error);
      }
      LastWinsPush(done, property.value, Number);
      properties := properties[property.value.id := Number(property.value.raw)];
      done := done + [property.value];
      i := i + 1;
    }
    PrependToNone(done, reader.pos);
    return Success(properties);
  }

  method ReadFixedProperties(n: nat, reader: Reader, wide: bool, ghost item: Format<Prop>)
      returns (r: Result<map<nat, nat>>)
    requires reader.Valid() && IsProperty(item, wide, Raw(n))
    modifies reader
    ensures reader.Valid()
    ensures match ParseCounted(IdSize(wide), item, reader.source, old(reader.pos))
      case Fail(e) => r == Failure(e)
      case Ok(qs, next) => r == Success(LastWins(qs, Number)) && reader.pos == next
  {
    var count := reader.ReadNumber(IdSize(wide));
    if count.Fail? {
      return Failure(count.error);
    }
    r := ReadFixedLoop(n, count.value, reader, wide, item);
  }

  method ReadVariableProperty(reader: Reader, ghost item: Format<Prop>) returns (r: Parsed<Prop>)
    requires reader.Valid() && IsProperty(item, true, Blob(2))
    modifies reader
    ensures reader.Valid()
    ensures r == item.parse(reader.source, old(reader.pos)) && (r.Ok? ==> reader.pos == r.next)
  {
    assert item.parse(reader.source, reader.pos) == PropertyAt(true, Blob(2), reader.source, reader.pos);
    var id := reader.ReadNumber(2);
    if id.Fail? {
      return Fail(id.error);
    }
    var length := reader.ReadNumber(2);
    if length.Fail? {
      return Fail(length.error);
    }
    var raw := reader.ReadFull(length.value);
    if raw.Fail? {
      return Fail(raw.error);
    }
    return Ok(Prop(id.value, raw.value), raw.next);
  }

  method ReadVariableProperties(reader: Reader, ghost item: Format<Prop>) returns (r: Result<map<nat, seq<byte>>>)
    requires reader.Valid() && IsProperty(item, true, Blob(2))
    modifies reader
    ensures reader.Valid()
    ensures match ParseCounted(2, item, reader.source, old(reader.pos))
      case Fail(e) => r == Failure(e)
      case Ok(qs, next) => r == Success(LastWins(qs, Itself)) && reader.pos == next
  {
    var count := reader.ReadNumber(2);
    if count.Fail? {
      return Failure(count.error);
    }
    var properties: map<nat, seq<byte>> := map[];
    ghost var start, done := reader.pos, [];
    PrependNone(ParseMany(item, reader.source, start, count.value));
    var i := 0;
    while i < count.value
      invariant i <= count.value && reader.Valid()
      invariant properties == LastWins(done, Itself)
      invariant PrependAll(done, ParseMany(item, reader.source, reader.pos, count.value - i))
             == ParseMany(item, reader.source, start, count.value)
    {
      ManyPush(item, reader.source, done, reader.pos, count.value - i);
      var property := ReadVariableProperty(reader, item);
      if property.Fail? {
        return Failure(property.error);
      }
      LastWinsPush(done, property.value, Itself);
      properties := properties[property.value.id := property.value.raw];
      done := done + [property.value];
      i := i + 1;
    }
    PrependToNone(done, reader.pos);
    return Success(properties);
  }

  // ----- Reading IO elements -----

  /** A reading of the group in format `group` came out as `r` and left the reader at `pos`. */
  ghost predicate GroupRead<V>(group: Format<seq<Prop>>, value: seq<byte> -> V, s: Source, p: nat,
                               r: Result<map<nat, V>>, pos: nat) {
    match group.parse(s, p)
    case Fail(e) => r == Failure(e)
    case Ok(qs, next) => r == Success(LastWins(qs, value)) && pos == next
  }

  ghost predicate IsFixedGroup(group: Format<seq<Prop>>, wide: bool, n: nat) {
    forall s: Source, p: nat {:trigger ParseCounted(IdSize(wide), PropFormat(wide, Raw(n)), s, p)} ::
      group.parse(s, p) == ParseCounted(IdSize(wide), PropFormat(wide, Raw(n)), s, p)
  }

  ghost predicate IsVariableGroup(group: Format<seq<Prop>>, wide: bool) {
    forall s: Source, p: nat {:trigger ParseCounted(2, PropFormat(true, Blob(2)), s, p)} ::
      group.parse(s, p) == if wide then ParseCounted(2, PropFormat(true, Blob(2)), s, p) else Ok([], p)
  }

  method ReadNByteProperties(n: nat, reader: Reader, wide: bool, ghost group: Format<seq<Prop>>)
      returns (r: Result<map<nat, nat>>)
    requires reader.Valid() && IsFixedGroup(group, wide, n)
    modifies reader
    ensures reader.Valid() && GroupRead(group, Number, reader.source, old(reader.pos), r, reader.pos)
  {
    PropertyFormat(wide, Raw(n));
    r := ReadFixedProperties(n, reader, wide, PropFormat(wide, Raw(n)));
  }

  method ReadNXByteProperties(reader: Reader, wide: bool, ghost group: Format<seq<Prop>>)
      returns (r: Result<map<nat, seq<byte>>>)
    requires reader.Valid() && IsVariableGroup(group, wide)
    modifies reader
    ensures reader.Valid() && GroupRead(group, Itself, reader.source, old(reader.pos), r, reader.pos)
  {
    ghost var expected := ParseCounted(2, PropFormat(true, Blob(2)), reader.source, reader.pos);
    if wide {
      PropertyFormat(true, Blob(2));
      r := ReadVariableProperties(reader, PropFormat(true, Blob(2)));
    } else {
      r := Success(map[]);
    }
  }

  datatype PropertyMaps = PropertyMaps(
    p1: map<nat, nat>, p2: map<nat, nat>, p4: map<nat, nat>, p8: map<nat, nat>, px: map<nat, seq<byte>>)

  function DecodedGroups(g: Groups): PropertyMaps {
    var (g1, (g2, (g4, (g8, nx)))) := g;
    PropertyMaps(LastWins(g1, Number), LastWins(g2, Number), LastWins(g4, Number), LastWins(g8, Number), LastWins(nx, Itself))
  }

  /** All groups are read, even after one of them failed. */
  method ReadGroups(reader: Reader, wide: bool,
      ghost f1: Format<seq<Prop>>, ghost f2: Format<seq<Prop>>, ghost f4: Format<seq<Prop>>, ghost f8: Format<seq<Prop>>,
      ghost fx: Format<seq<Prop>>) returns (r: Option<PropertyMaps>)
    requires reader.Valid()
    requires IsFixedGroup(f1, wide, 1) && IsFixedGroup(f2, wide, 2) && IsFixedGroup(f4, wide, 4) && IsFixedGroup(f8, wide, 8)
    requires IsVariableGroup(fx, wide)
    modifies reader
    ensures reader.Valid()
    ensures match Then(f1, Then(f2, Then(f4, Then(f8, fx)))).parse(reader.source, old(reader.pos))
      case Fail(_) => r == None
      case Ok(g, next) => r == Some(DecodedGroups(g)) && reader.pos == next
  {
    ChainParse(f1, f2, f4, f8, fx, reader.source, reader.pos);
    var r1 := ReadNByteProperties(1, reader, wide, f1);
    var r2 := ReadNByteProperties(2, reader, wide, f2);
    var r4 := ReadNByteProperties(4, reader, wide, f4);
    var r8 := ReadNByteProperties(8, reader, wide, f8);
    var rx := ReadNXByteProperties(reader, wide, fx);
    if r1.Failure? || r2.Failure? || r4.Failure? || r8.Failure? || rx.Failure? {
      return None;
    }
    return Some(PropertyMaps(r1.value, r2.value, r4.value, r8.value, rx.value));
  }

  /** An IO element: event id, announced number, groups. */
  function IOAt(wide: bool, s: Source, p: nat): Parsed<WireIO> {
    match ReadUint(s, p, IdSize(wide))
    case Fail(e) => Fail(e)
    case Ok(eventId, p1) =>
      match ReadUint(s, p1, IdSize(wide))
      case Fail(e) => Fail(e)
      case Ok(number, p2) =>
        match GroupsFormat(wide).parse(s, p2)
        case Fail(_) => Fail(Wrapped(BadDataPacket))
        case Ok(g, next) => Ok(IOFromParts((eventId, (number, g))), next)
  }

  ghost predicate IsIO(item: Format<WireIO>, wide: bool) {
    forall s: Source, p: nat {:trigger IOAt(wide, s, p)} :: item.parse(s, p) == IOAt(wide, s, p)
  }

  lemma IOSteps(wide: bool)
    ensures IsIO(IOFormat(wide), wide)
  {}

  /** `r` is what reading with `item` gave, decoded by `meaning`. */
  ghost predicate ItemRead<T, V>(item: Format<T>, meaning: T -> V, s: Source, p: nat, r: Parsed<V>, pos: nat) {
    match item.parse(s, p)
    case Fail(e) => r == Fail(e)
    case Ok(x, next) => r == Ok(meaning(x), next) && pos == next
  }

  method ParseIOElements(reader: Reader, wide: bool, ghost item: Format<WireIO>) returns (r: Parsed<IOElement>)
    requires reader.Valid() && IsIO(item, wide)
    modifies reader
    ensures reader.Valid() && ItemRead(item, DecodedIO, reader.source, old(reader.pos), r, reader.pos)
  {
    ghost var expected := IOAt(wide, reader.source, reader.pos);
    var eventId := reader.ReadNumber(IdSize(wide));
    if eventId.Fail? {
      return Fail(eventId.error);
    }
    var number := reader.ReadNumber(IdSize(wide));
    if number.Fail? {
      return Fail(number.error);
    }
    var groups := ReadGroups(reader, wide,
      FixedGroup(wide, 1), FixedGroup(wide, 2), FixedGroup(wide, 4), FixedGroup(wide, 8), VariableGroup(wide));
    match groups
    case None => return Fail(Wrapped(BadDataPacket));
    case Some(g) => return Ok(IOElement(eventId.value, number.value, g.p1, g.p2, g.p4, g.p8, g.px), reader.pos);
  }

  // ----- Reading records -----

  function GpsAt(s: Source, p: nat): Parsed<Gps> {
    match ReadUint(s, p, 4) case Fail(e) => Fail(e) case Ok(longitude, p1) =>
    match ReadUint(s, p1, 4) case Fail(e) => Fail(e) case Ok(latitude, p2) =>
    match ReadUint(s, p2, 2) case Fail(e) => Fail(e) case Ok(altitude, p3) =>
    match ReadUint(s, p3, 2) case Fail(e) => Fail(e) case Ok(angle, p4) =>
    match ReadUint(s, p4, 1) case Fail(e) => Fail(e) case Ok(satellites, p5) =>
    match ReadUint(s, p5, 2) case Fail(e) => Fail(e) case Ok(speed, p6) =>
    Ok(Gps(Signed32(longitude), Signed32(latitude), altitude, angle, satellites, speed), p6)
  }

  lemma GpsSteps(s: Source, p: nat)
    ensures GpsFormat().parse(s, p) == GpsAt(s, p)
  {
    IsoParse(GpsPartsFormat(), GpsFromParts, GpsToParts, s, p);
  }

  method ParseGpsElement(reader: Reader) returns (r: Parsed<Gps>)
    requires reader.Valid()
    modifies reader
    ensures reader.Valid()
    ensures r == GpsAt(reader.source, old(reader.pos)) && (r.Ok? ==> reader.pos == r.next)
  {
    var longitude := reader.ReadNumber(4);
    if longitude.Fail? {
      return Fail(longitude.error);
    }
    var latitude := reader.ReadNumber(4);
    if latitude.Fail? {
      return Fail(latitude.error);
    }
    var altitude := reader.ReadNumber(2);
    if altitude.Fail? {
      return Fail(altitude.error);
    }
    var angle := reader.ReadNumber(2);
    if angle.Fail? {
      return Fail(angle.error);
    }
    var satellites := reader.ReadNumber(1);
    if satellites.Fail? {
      return Fail(satellites.error);
    }
    var speed := reader.ReadNumber(2);
    if speed.Fail? {
      return Fail(speed.error);
    }
    return Ok(Gps(Signed32(longitude.value), Signed32(latitude.value), altitude.value, angle.value, satellites.value,
                  speed.value), reader.pos);
  }

  function RecordAt(wide: bool, s: Source, p: nat): Parsed<WireRecord> {
    match ReadUint(s, p, 8) case Fail(e) => Fail(e) case Ok(timestamp, p1) =>
    match ReadUint(s, p1, 1) case Fail(e) => Fail(e) case Ok(priority, p2) =>
    match GpsAt(s, p2) case Fail(e) => Fail(e) case Ok(gps, p3) =>
    match IOFormat(wide).parse(s, p3) case Fail(e) => Fail(e) case Ok(io, p4) =>
    Ok(WireRecord(timestamp, priority, gps, io), p4)
  }

  ghost predicate IsRecord(item: Format<WireRecord>, wide: bool) {
    forall s: Source, p: nat {:trigger RecordAt(wide, s, p)} :: item.parse(s, p) == RecordAt(wide, s, p)
  }

  lemma RecordSteps(wide: bool)
    ensures IsRecord(RecordFormat(wide), wide)
  {
    var u8, u1, gps, io := Uint(8), Uint(1), GpsFormat(), IOFormat(wide);
    forall s: Source, p: nat
      ensures RecordFormat(wide).parse(s, p) == RecordAt(wide, s, p)
    {
      RecordStepsOver(u8, u1, gps, io, s, p);
      IsoParse(Then(Then(u8, u1), Then(gps, io)), RecordFromParts, RecordToParts, s, p);
      if ReadUint(s, p, 8).Ok? && ReadUint(s, ReadUint(s, p, 8).next, 1).Ok? {
        GpsSteps(s, ReadUint(s, ReadUint(s, p, 8).next, 1).next);
      }
    }
  }

  lemma RecordStepsOver(u8: Format<nat>, u1: Format<nat>, gps: Format<Gps>, io: Format<WireIO>, s: Source, p: nat)
    ensures Then(Then(u8, u1), Then(gps, io)).parse(s, p)
         == match u8.parse(s, p) case Fail(e) => Fail(e) case Ok(timestamp, p1) =>
            match u1.parse(s, p1) case Fail(e) => Fail(e) case Ok(priority, p2) =>
            match gps.parse(s, p2) case Fail(e) => Fail(e) case Ok(g, p3) =>
            match io.parse(s, p3) case Fail(e) => Fail(e) case Ok(x, p4) =>
            Ok(((timestamp, priority), (g, x)), p4)
  {}

  method ReadSingleRecord(reader: Reader, wide: bool, ghost item: Format<WireRecord>) returns (r: Parsed<AvlRecord>)
    requires reader.Valid() && IsRecord(item, wide)
    modifies reader
    ensures reader.Valid() && ItemRead(item, DecodedRecord, reader.source, old(reader.pos), r, reader.pos)
  {
    ghost var expected := RecordAt(wide, reader.source, reader.pos);
    var timestamp := reader.ReadNumber(8);
    if timestamp.Fail? {
      return Fail(timestamp.error);
    }
    var priority := reader.ReadNumber(1);
    if priority.Fail? {
      return Fail(priority.error);
    }
    var gps := ParseGpsElement(reader);
    if gps.Fail? {
      return Fail(gps.error);
    }
    IOSteps(wide);
    var io := ParseIOElements(reader, wide, IOFormat(wide));
    if io.Fail? {
      return Fail(io.error);
    }
    return Ok(AvlRecord(timestamp.value, priority.value, gps.value, io.value), reader.pos);
  }

  // ----- Reading packets -----

  /** A packet as the source reads it: count, records, and a count that has to agree. */
  function PacketAt(item: Format<WireRecord>, s: Source, p: nat): Parsed<seq<WireRecord>> {
    match ReadUint(s, p, 1) case Fail(e) => Fail(e) case Ok(k, p1) =>
    match ParseMany(item, s, p1, k) case Fail(e) => Fail(e) case Ok(rs, p2) =>
    match ReadUint(s, p2, 1) case Fail(e) => Fail(e) case Ok(end, p3) =>
    if end == k then Ok(rs, p3) else Fail(Wrapped(BadDataPacket))
  }

  lemma PacketSteps(item: Format<WireRecord>, s: Source, p: nat)
    ensures Bracketed(1, item, Wrapped(BadDataPacket)).parse(s, p) == PacketAt(item, s, p)
  {}

  lemma DecodedPush(rs: seq<WireRecord>, r: WireRecord)
    ensures DecodedRecords(rs + [r]) == DecodedRecords(rs) + [DecodedRecord(r)]
  {}

  /** The number of records announced, and the records. */
  datatype AvlDataPacket = AvlDataPacket(numberOfData: nat, data: seq<AvlRecord>)

  method ParseDataToRecord(reader: Reader, wide: bool, ghost item: Format<WireRecord>) returns (r: Result<AvlDataPacket>)
    requires reader.Valid() && IsRecord(item, wide)
    modifies reader
    ensures reader.Valid()
    ensures match PacketAt(item, reader.source, old(reader.pos))
      case Fail(e) => r == Failure(e)
      case Ok(rs, _) => r == Success(AvlDataPacket(|rs|, DecodedRecords(rs)))
  {
    var count := reader.ReadNumber(1);
    if count.Fail? {
      return Failure(count.error);
    }
    var data: seq<AvlRecord> := [];
    ghost var start, done := reader.pos, [];
    PrependNone(ParseMany(item, reader.source, start, count.value));
    var i := 0;
    while i < count.value
      invariant i <= count.value && reader.Valid()
      invariant data == DecodedRecords(done) && |done| == i
      invariant PrependAll(done, ParseMany(item, reader.source, reader.pos, count.value - i))
             == ParseMany(item, reader.source, start, count.value)
    {
      ManyPush(item, reader.source, done, reader.pos, count.value - i);
      ghost var parsed := item.parse(reader.source, reader.pos);
      var record := ReadSingleRecord(reader, wide, item);
      if record.Fail? {
        return Failure(record.error);
      }
      DecodedPush(done, parsed.value);
      data := data + [record.value];
      done := done + [parsed.value];
      i := i + 1;
    }
    PrependToNone(done, reader.pos);
    var end := reader.ReadNumber(1);
    if end.Fail? {
      return Failure(end.error);
    }
    if end.value != count.value {
      return Failure(Wrapped(BadDataPacket));
    }
    return Success(AvlDataPacket(count.value, data));
  }

  // ----- Reading bodies -----

  /** What the data of a frame decodes to. */
  datatype Decoded = Packet(packet: AvlDataPacket) | DeviceReply(text: seq<byte>)

  function DecodedBody(b: Body): Decoded {
    match b
    case Records(_, rs) => Packet(AvlDataPacket(|rs|, DecodedRecords(rs)))
    case Reply(_, _, text, _) => DeviceReply(text)
  }

  function ReplyAt(s: Source, p: nat): Parsed<ReplyParts> {
    match ReadUint(s, p, 1) case Fail(e) => Fail(e) case Ok(quantity1, p1) =>
    match ReadUint(s, p1, 1) case Fail(e) => Fail(e) case Ok(kind, p2) =>
    match ReadUint(s, p2, 4) case Fail(e) => Fail(e) case Ok(size, p3) =>
    match ReadBytes(s, p3, size) case Fail(e) => Fail(e) case Ok(text, p4) =>
    match ReadUint(s, p4, 1) case Fail(e) => Fail(e) case Ok(quantity2, p5) =>
    Ok(((quantity1, kind), (text, quantity2)), p5)
  }

  lemma ReplySteps(s: Source, p: nat)
    ensures ReplyFormat().parse(s, p) == ReplyAt(s, p)
  {}

  method ParseDeviceResponse(reader: Reader) returns (r: Result<seq<byte>>)
    requires reader.Valid()
    modifies reader
    ensures reader.Valid()
    ensures match ReplyAt(reader.source, old(reader.pos)) case Fail(e) => r == Failure(e) case Ok(x, _) => r == Success(x.1.0)
  {
    var quantity1 := reader.ReadNumber(1);
    if quantity1.Fail? {
      return Failure(quantity1.error);
    }
    var kind := reader.ReadNumber(1);
    if kind.Fail? {
      return Failure(kind.error);
    }
    var size := reader.ReadNumber(4);
    if size.Fail? {
      return Failure(size.error);
    }
    var text := reader.ReadFull(size.value);
    if text.Fail? {
      return Failure(text.error);
    }
    var quantity2 := reader.ReadNumber(1);
    if quantity2.Fail? {
      return Failure(quantity2.error);
    }
    return Success(text.value);
  }

  ghost predicate IsBodyParser(parse: seq<byte> -> Parsed<Body>) {
    forall data {:trigger ParseBody(data)} :: parse(data) == ParseBody(data)
  }

  lemma CodecByte(data: seq<byte>)
    ensures ReadUint(Source(data, EOF), 0, 1) == if data == [] then Fail(EOF) else Ok(data[0], 1)
  {
    if data != [] {
      var b := data[0..1];
      assert b[..0] == [] && b[0] == data[0] && FromBE(b) == FromBE(b[..0]) * 256 + b[0];
    }
  }

  /** The records of an AVL packet, in the format of its codec. */
  method ParsePacket(reader: Reader, codec: byte, ghost records: Format<seq<WireRecord>>) returns (r: Result<AvlDataPacket>)
    requires reader.Valid() && records == RecordsFormat(codec)
    modifies reader
    ensures reader.Valid()
    ensures match records.parse(reader.source, old(reader.pos))
      case Fail(e) => r == Failure(e)
      case Ok(rs, _) => r == Success(AvlDataPacket(|rs|, DecodedRecords(rs)))
  {
    var wide := codec == CODEC_8E;
    RecordSteps(wide);
    PacketSteps(RecordFormat(wide), reader.source, reader.pos);
    r := ParseDataToRecord(reader, wide, RecordFormat(wide));
  }

  /** What ParseBody makes of data that has a codec byte. */
  lemma BodySteps(data: seq<byte>, s: Source, records: Format<seq<WireRecord>>)
    requires data != [] && s == Source(data, EOF) && records == RecordsFormat(data[0])
    ensures ParseBody(data)
         == if data[0] == CODEC_12 then
              match ReplyAt(s, 1) case Fail(e) => Fail(e) case Ok(x, next) => Ok(Reply(x.0.0, x.0.1, x.1.0, x.1.1), next)
            else
              match records.parse(s, 1) case Fail(e) => Fail(e) case Ok(rs, next) => Ok(Records(data[0], rs), next)
  {
    ReplySteps(s, 1);
  }

  /** The data of one frame, read through a reader of its own; its end is an EOF. */
  method ParseData(data: seq<byte>, ghost parse: seq<byte> -> Parsed<Body>) returns (r: Result<Decoded>)
    requires IsBodyParser(parse)
    ensures match parse(data) case Fail(e) => r == Failure(e) case Ok(b, _) => r == Success(DecodedBody(b))
  {
    assert parse(data) == ParseBody(data);
    var reader := new Reader(Source(data, EOF));
    CodecByte(data);
    var codec := reader.ReadNumber(1);
    if codec.Fail? {
      return Failure(codec.error);
    }
    ghost var records := RecordsFormat(codec.value);
    BodySteps(data, reader.source, records);
    if codec.value == CODEC_12 {
      var text := ParseDeviceResponse(reader);
      return match text case Failure(e) => Failure(e) case Success(reply) => Success(DeviceReply(reply));
    }
    var packet := ParsePacket(reader, codec.value, records);
    return match packet case Failure(e) => Failure(e) case Success(p) => Success(Packet(p));
  }
}
