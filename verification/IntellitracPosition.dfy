/** The 46 bytes of an IntelliTrac position, and the status it becomes. */
module IntellitracPosition {
  import opened Bytes
  import opened Streams

  // ----- Altitudes -----

  /** Three bytes widened to four: the sign bit fills the new byte, and the result reads as an int32. */
  function Altitude(b: seq<byte>): int
    requires |b| == 3
  {
    var wide := FromBE([if b[0] >= 0x80 then 0xFF else 0x00] + b);
    if wide < 0x8000_0000 then wide else wide - 0x1_0000_0000
  }

  lemma {:induction false} FromBEPrepend(x: byte, b: seq<byte>)
    ensures FromBE([x] + b) == x * Pow256(|b|) + FromBE(b)
  {
    if b == [] {
      assert [x] + b == [x] && [x][..0] == [];
    } else {
      var n := |b| - 1;
      FromBEPrepend(x, b[..n]);
      assert ([x] + b)[..n + 1] == [x] + b[..n];
      assert (x * Pow256(n)) * 256 == x * Pow256(n + 1);
    }
  }

  /** An altitude is the 24-bit two's complement number that its bytes spell. */
  lemma AltitudeIsSigned(b: seq<byte>)
    requires |b| == 3
    ensures Altitude(b) == if FromBE(b) < 0x80_0000 then FromBE(b) else FromBE(b) - 0x100_0000
    ensures -0x80_0000 <= Altitude(b) < 0x80_0000
  {
    FromBEBound(b);
    assert Pow256(3) == 0x100_0000;
    FromBEPrepend(if b[0] >= 0x80 then 0xFF else 0x00, b);
    FromBEPrepend(b[0], b[1..]);
    FromBEBound(b[1..]);
    BEWidths();
    assert b == [b[0]] + b[1..];
  }

  // ----- Positions -----

  /** A time as the device sends it: hour, minute, second, year, month, day. */
  datatype DateTime = DateTime(year: nat, month: nat, day: nat, hour: nat, minute: nat, second: nat)

  function DateTimeOf(b: seq<byte>): DateTime
    requires |b| == 6
  {
    DateTime(2000 + b[3] as int, b[4], b[5], b[0], b[1], b[2])
  }

  datatype Gps = Gps(time: seq<byte>, latitude: int, longitude: int, altitude: int, speed: nat, direction: nat)

  datatype Sensors = Sensors(
    odometer: nat, hdop: nat, satellites: nat, ioStatus: nat, vehicleStatus: nat, analogInput1: nat, analogInput2: nat)

  /** Everything a position says, in the units of the wire. */
  datatype Fields = Fields(gps: Gps, sensors: Sensors, rtc: seq<byte>, sending: seq<byte>)

  function GpsOf(data: seq<byte>): Gps
    requires |data| >= 46
  {
    Gps(data[0..6], Signed32(FromBE(data[6..10])), Signed32(FromBE(data[10..14])), Altitude(data[14..17]),
        FromBE(data[17..19]), FromBE(data[19..21]))
  }

  function SensorsOf(data: seq<byte>): Sensors
    requires |data| >= 46
  {
    Sensors(FromBE(data[21..25]), data[25], data[26], FromBE(data[27..29]), data[29],
            FromBE(data[30..32]), FromBE(data[32..34]))
  }

  /** The fields at their offsets; every index is in range because the caller has checked for 46 bytes. */
  function FieldsOf(data: seq<byte>): Fields
    requires |data| >= 46
  {
    Fields(GpsOf(data), SensorsOf(data), data[34..40], data[40..46])
  }

  // ----- Positions as bytes -----

  function Unsigned24(i: int): nat {
    if -0x80_0000 <= i < 0 then i + 0x100_0000 else if i < 0 then 0 else i
  }

  predicate FitsGps(g: Gps) {
    && |g.time| == 6 && -0x8000_0000 <= g.latitude < 0x8000_0000 && -0x8000_0000 <= g.longitude < 0x8000_0000
    && -0x80_0000 <= g.altitude < 0x80_0000 && g.speed < 0x1_0000 && g.direction < 0x1_0000
  }

  predicate FitsSensors(x: Sensors) {
    && x.odometer < 0x1_0000_0000 && x.hdop < 0x100 && x.satellites < 0x100 && x.ioStatus < 0x1_0000
    && x.vehicleStatus < 0x100 && x.analogInput1 < 0x1_0000 && x.analogInput2 < 0x1_0000
  }

  predicate FitsFields(f: Fields) {
    FitsGps(f.gps) && FitsSensors(f.sensors) && |f.rtc| == 6 && |f.sending| == 6
  }

  function GpsBytes(g: Gps): seq<byte> {
    g.time + (ToBE(Unsigned32(g.latitude), 4) + (ToBE(Unsigned32(g.longitude), 4) + (ToBE(Unsigned24(g.altitude), 3)
    + (ToBE(g.speed, 2) + ToBE(g.direction, 2)))))
  }

  function SensorBytes(x: Sensors): (b: seq<byte>)
    ensures |b| == 13
  {
    ToBE(x.odometer, 4) + (ToBE(x.hdop, 1) + (ToBE(x.satellites, 1) + (ToBE(x.ioStatus, 2) + (ToBE(x.vehicleStatus, 1)
    + (ToBE(x.analogInput1, 2) + ToBE(x.analogInput2, 2))))))
  }

  function PositionBytes(f: Fields): seq<byte> {
    GpsBytes(f.gps) + (SensorBytes(f.sensors) + (f.rtc + f.sending))
  }

  lemma NumberAt(s: Source, p: nat, n: nat, v: nat)
    requires p + n <= |s.data|
    ensures FromBE(s.data[p..p + n]) == v <==> v < Pow256(n) && At(s, p, ToBE(v, n))
  {
    ReadUintAt(s, p, n, v, p + n);
  }

  lemma ByteAt(s: Source, p: nat, v: nat)
    requires p < |s.data|
    ensures s.data[p] == v <==> v < 0x100 && At(s, p, ToBE(v, 1))
  {
    BEWidths();
    NumberAt(s, p, 1, v);
    assert s.data[p..p + 1] == [s.data[p]];
    assert FromBE([s.data[p]]) == FromBE([]) * 256 + s.data[p];
  }

  lemma WordAt(s: Source, p: nat, v: nat)
    requires p + 2 <= |s.data|
    ensures FromBE(s.data[p..p + 2]) == v <==> v < 0x1_0000 && At(s, p, ToBE(v, 2))
  {
    BEWidths();
    NumberAt(s, p, 2, v);
  }

  lemma LongAt(s: Source, p: nat, v: nat)
    requires p + 4 <= |s.data|
    ensures FromBE(s.data[p..p + 4]) == v <==> v < 0x1_0000_0000 && At(s, p, ToBE(v, 4))
  {
    BEWidths();
    NumberAt(s, p, 4, v);
  }

  lemma SignedAt(s: Source, p: nat, i: int)
    requires p + 4 <= |s.data|
    ensures Signed32(FromBE(s.data[p..p + 4])) == i
       <==> -0x8000_0000 <= i < 0x8000_0000 && At(s, p, ToBE(Unsigned32(i), 4))
  {
    BEWidths();
    FromBEBound(s.data[p..p + 4]);
    NumberAt(s, p, 4, Unsigned32(i));
  }

  lemma TwosComplement24(v: nat, i: int)
    requires v < 0x100_0000
    ensures (if v < 0x80_0000 then v else v - 0x100_0000) == i <==> -0x80_0000 <= i < 0x80_0000 && Unsigned24(i) == v
  {}

  lemma AltitudeAt(s: Source, p: nat, i: int)
    requires p + 3 <= |s.data|
    ensures Altitude(s.data[p..p + 3]) == i <==> -0x80_0000 <= i < 0x80_0000 && At(s, p, ToBE(Unsigned24(i), 3))
  {
    var v := FromBE(s.data[p..p + 3]);
    AltitudeIsSigned(s.data[p..p + 3]);
    FromBEBound(s.data[p..p + 3]);
    assert Pow256(3) == 0x100_0000;
    TwosComplement24(v, i);
    NumberAt(s, p, 3, Unsigned24(i));
  }

  lemma BytesAt(s: Source, p: nat, n: nat, b: seq<byte>)
    requires p + n <= |s.data|
    ensures s.data[p..p + n] == b <==> |b| == n && At(s, p, b)
  {}

  predicate PlaceStands(s: Source, g: Gps) {
    && At(s, 0, g.time) && At(s, 6, ToBE(Unsigned32(g.latitude), 4)) && At(s, 10, ToBE(Unsigned32(g.longitude), 4))
    && |g.time| == 6 && -0x8000_0000 <= g.latitude < 0x8000_0000 && -0x8000_0000 <= g.longitude < 0x8000_0000
  }

  predicate MotionStands(s: Source, g: Gps) {
    && At(s, 14, ToBE(Unsigned24(g.altitude), 3)) && At(s, 17, ToBE(g.speed, 2)) && At(s, 19, ToBE(g.direction, 2))
    && -0x80_0000 <= g.altitude < 0x80_0000 && g.speed < 0x1_0000 && g.direction < 0x1_0000
  }

  lemma PlaceIff(s: Source, g: Gps, x: Gps)
    requires |s.data| >= 46 && x == GpsOf(s.data)
    ensures x.time == g.time && x.latitude == g.latitude && x.longitude == g.longitude <==> PlaceStands(s, g)
  {
    BytesAt(s, 0, 6, g.time);
    SignedAt(s, 6, g.latitude);
    SignedAt(s, 10, g.longitude);
  }

  lemma MotionIff(s: Source, g: Gps, x: Gps)
    requires |s.data| >= 46 && x == GpsOf(s.data)
    ensures x.altitude == g.altitude && x.speed == g.speed && x.direction == g.direction <==> MotionStands(s, g)
  {
    AltitudeAt(s, 14, g.altitude);
    WordAt(s, 17, g.speed);
    WordAt(s, 19, g.direction);
  }

  predicate GpsStands(s: Source, g: Gps) {
    && At(s, 0, g.time) && At(s, 6, ToBE(Unsigned32(g.latitude), 4)) && At(s, 10, ToBE(Unsigned32(g.longitude), 4))
    && At(s, 14, ToBE(Unsigned24(g.altitude), 3)) && At(s, 17, ToBE(g.speed, 2)) && At(s, 19, ToBE(g.direction, 2))
  }

  lemma GpsSplit(s: Source, g: Gps)
    requires |g.time| == 6
    ensures At(s, 0, GpsBytes(g)) <==> GpsStands(s, g)
  {
    var tail := ToBE(Unsigned24(g.altitude), 3) + (ToBE(g.speed, 2) + ToBE(g.direction, 2));
    AtSplit(s, 0, g.time, ToBE(Unsigned32(g.latitude), 4) + (ToBE(Unsigned32(g.longitude), 4) + tail));
    AtSplit(s, 6, ToBE(Unsigned32(g.latitude), 4), ToBE(Unsigned32(g.longitude), 4) + tail);
    AtSplit(s, 10, ToBE(Unsigned32(g.longitude), 4), tail);
    AtSplit(s, 14, ToBE(Unsigned24(g.altitude), 3), ToBE(g.speed, 2) + ToBE(g.direction, 2));
    AtSplit(s, 17, ToBE(g.speed, 2), ToBE(g.direction, 2));
  }

  lemma GpsIff(s: Source, g: Gps)
    requires |s.data| >= 46
    ensures GpsOf(s.data) == g <==> FitsGps(g) && At(s, 0, GpsBytes(g))
  {
    PlaceIff(s, g, GpsOf(s.data));
    MotionIff(s, g, GpsOf(s.data));
    if |g.time| == 6 {
      GpsSplit(s, g);
    }
  }

  lemma SensorsIff(s: Source, x: Sensors)
    requires |s.data| >= 46
    ensures SensorsOf(s.data) == x <==> FitsSensors(x) && At(s, 21, SensorBytes(x))
  {
    LongAt(s, 21, x.odometer);
    ByteAt(s, 25, x.hdop);
    ByteAt(s, 26, x.satellites);
    WordAt(s, 27, x.ioStatus);
    ByteAt(s, 29, x.vehicleStatus);
    WordAt(s, 30, x.analogInput1);
    WordAt(s, 32, x.analogInput2);
    SensorsSplit(s, x);
  }

  lemma SensorsSplit(s: Source, x: Sensors)
    ensures At(s, 21, SensorBytes(x))
       <==> && At(s, 21, ToBE(x.odometer, 4)) && At(s, 25, ToBE(x.hdop, 1)) && At(s, 26, ToBE(x.satellites, 1))
            && At(s, 27, ToBE(x.ioStatus, 2)) && At(s, 29, ToBE(x.vehicleStatus, 1))
            && At(s, 30, ToBE(x.analogInput1, 2)) && At(s, 32, ToBE(x.analogInput2, 2))
  {
    var analog := ToBE(x.analogInput1, 2) + ToBE(x.analogInput2, 2);
    var io := ToBE(x.ioStatus, 2) + (ToBE(x.vehicleStatus, 1) + analog);
    AtSplit(s, 21, ToBE(x.odometer, 4), ToBE(x.hdop, 1) + (ToBE(x.satellites, 1) + io));
    AtSplit(s, 25, ToBE(x.hdop, 1), ToBE(x.satellites, 1) + io);
    AtSplit(s, 26, ToBE(x.satellites, 1), io);
    AtSplit(s, 27, ToBE(x.ioStatus, 2), ToBE(x.vehicleStatus, 1) + analog);
    AtSplit(s, 29, ToBE(x.vehicleStatus, 1), analog);
    AtSplit(s, 30, ToBE(x.analogInput1, 2), ToBE(x.analogInput2, 2));
  }

  lemma TimesIff(s: Source, rtc: seq<byte>, sending: seq<byte>)
    requires |s.data| >= 46
    ensures s.data[34..40] == rtc && s.data[40..46] == sending
       <==> |rtc| == 6 && |sending| == 6 && At(s, 34, rtc + sending)
  {
    BytesAt(s, 34, 6, rtc);
    BytesAt(s, 40, 6, sending);
    AtSplit(s, 34, rtc, sending);
  }

  /**
   Data of at least 46 bytes decodes to these fields exactly if it starts with the bytes that spell
   them out one after another, each within its width; what follows is not looked at.
   */
  lemma PositionIff(data: seq<byte>, f: Fields)
    requires |data| >= 46
    ensures FieldsOf(data) == f <==> FitsFields(f) && PositionBytes(f) <= data
    ensures FitsFields(f) ==> |PositionBytes(f)| == 46
  {
    var s := Source(data, EOF);
    GpsIff(s, f.gps);
    SensorsIff(s, f.sensors);
    TimesIff(s, f.rtc, f.sending);
    if |f.gps.time| == 6 {
      AtSplit(s, 0, GpsBytes(f.gps), SensorBytes(f.sensors) + (f.rtc + f.sending));
      AtSplit(s, 21, SensorBytes(f.sensors), f.rtc + f.sending);
      assert At(s, 0, PositionBytes(f)) <==> PositionBytes(f) <= data;
    }
  }

  // ----- Statuses -----

  /** The status of a position, in raw integers; distances and fix quality are cut down as the source does. */
  datatype PositionStatus = PositionStatus(
    time: DateTime, latitude: int, longitude: int, altitude: int, speed: nat, direction: nat, satellites: nat,
    ignition: bool, odometer: nat, rawData: seq<byte>)

  function StatusOf(data: seq<byte>): PositionStatus
    requires |data| >= 46
  {
    var f := FieldsOf(data);
    PositionStatus(DateTimeOf(f.gps.time), f.gps.latitude, f.gps.longitude, f.gps.altitude, f.gps.speed, f.gps.direction,
                   f.sensors.satellites, f.sensors.ioStatus % 2 == 1, f.sensors.odometer / 1000, data)
  }

  /** The status of a position that spells out these fields; its odometer fits the 32 signed bits it is stored in. */
  lemma StatusMeans(data: seq<byte>, f: Fields)
    requires |data| >= 46 && FitsFields(f) && PositionBytes(f) <= data
    ensures StatusOf(data) == PositionStatus(
      DateTime(2000 + f.gps.time[3] as int, f.gps.time[4], f.gps.time[5], f.gps.time[0], f.gps.time[1], f.gps.time[2]),
      f.gps.latitude, f.gps.longitude, f.gps.altitude, f.gps.speed, f.gps.direction,
      f.sensors.satellites, f.sensors.ioStatus % 2 == 1, f.sensors.odometer / 1000, data)
    ensures StatusOf(data).odometer < 0x8000_0000
  {
    PositionIff(data, f);
  }
}
