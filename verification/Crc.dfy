/** The two table-driven CRC-16 loops. */
module Crc {
  import opened Bytes
  import opened CrcDivision
  import opened CrcTables

  method CrcTeltonika(buf: seq<byte>) returns (crc: bv16)
    ensures crc == Teltonika(buf)
  {
    crc := 0x0000;
    for i := 0 to |buf|
      invariant crc == Teltonika(buf[..i])
    {
      var b16 := buf[i] as bv16;
      TableStep(TELTONIKA_POLY, crc, b16);
      BitSerialPush(TELTONIKA_POLY, 0, buf, i);
      crc := (crc >> 8) ^ TeltonikaEntry(TableIndex(crc, b16));
    }
    assert buf[..|buf|] == buf;
  }

  method CrcWanway(buf: seq<byte>) returns (crc: bv16)
    ensures crc == Wanway(buf)
  {
    var fcs: bv16 := 0xffff;
    for i := 0 to |buf|
      invariant fcs == WanwayRegister(buf[..i])
    {
      var b16 := buf[i] as bv16;
      TableStep(WANWAY_POLY, fcs, b16);
      BitSerialPush(WANWAY_POLY, 0xffff, buf, i);
      fcs := (fcs >> 8) ^ WanwayEntry(TableIndex(fcs, b16));
    }
    assert buf[..|buf|] == buf;
    crc := Complement(fcs);
  }
}
