/** Checksums of known inputs: those that the repository's own test names, and the check value of the Teltonika CRC. */
module CrcCases {
  import opened Bytes
  import opened CrcDivision

  /** Eight division steps in one go. */
  function EightSteps(poly: bv16, c: bv16): bv16 {
    Bit(poly, Bit(poly, Bit(poly, Bit(poly, Bit(poly, Bit(poly, Bit(poly, Bit(poly, c))))))))
  }

  lemma TwoSteps(poly: bv16, c: bv16, n: nat)
    ensures Iterate(poly, c, n + 2) == Iterate(poly, Bit(poly, Bit(poly, c)), n)
  {
    assert Iterate(poly, c, n + 2) == Iterate(poly, Bit(poly, c), n + 1);
  }

  lemma EightAreEight(poly: bv16, c: bv16)
    ensures Iterate(poly, c, 8) == EightSteps(poly, c)
  {
    var c2 := Bit(poly, Bit(poly, c));
    var c4 := Bit(poly, Bit(poly, c2));
    var c6 := Bit(poly, Bit(poly, c4));
    TwoSteps(poly, c, 6);
    TwoSteps(poly, c2, 4);
    TwoSteps(poly, c4, 2);
    TwoSteps(poly, c6, 0);
  }

  /** Taking in one more byte, for a register that is known. */
  lemma NextOf(poly: bv16, init: bv16, buf: seq<byte>, y: byte, y16: bv16, c: bv16, fed: bv16, d: bv16, longer: seq<byte>)
    requires BitSerial(poly, init, WireBits(buf)) == c && y as bv16 == y16 < 256 && c ^ y16 == fed && EightSteps(poly, fed) == d
    requires longer == buf + [y]
    ensures BitSerial(poly, init, WireBits(longer)) == d
  {
    ByteAsWord(y16);
    FeedByte(poly, c, y16, 8);
    EightAreEight(poly, fed);
    assert longer[..|buf|] == buf && longer[..|buf| + 1] == longer;
    BitSerialPush(poly, init, longer, |buf|);
  }

  lemma NextByte(buf: seq<byte>, y: byte, y16: bv16, c: bv16, fed: bv16, d: bv16, longer: seq<byte>)
    requires WanwayRegister(buf) == c && y as bv16 == y16 < 256 && c ^ y16 == fed && EightSteps(WANWAY_POLY, fed) == d
    requires longer == buf + [y]
    ensures WanwayRegister(longer) == d
  {
    NextOf(WANWAY_POLY, 0xffff, buf, y, y16, c, fed, d, longer);
  }

  lemma NextTeltonikaByte(buf: seq<byte>, y: byte, y16: bv16, c: bv16, fed: bv16, d: bv16, longer: seq<byte>)
    requires Teltonika(buf) == c && y as bv16 == y16 < 256 && c ^ y16 == fed && EightSteps(TELTONIKA_POLY, fed) == d
    requires longer == buf + [y]
    ensures Teltonika(longer) == d
  {
    NextOf(TELTONIKA_POLY, 0, buf, y, y16, c, fed, d, longer);
  }

  lemma OneZero(b: seq<byte>)
    requires b == [0x00]
    ensures Wanway(b) == 0xf078
  {
    NextByte(b[..0], 0x00, 0x00, 0xffff, 0xffff, 0x0f87, b[..1]);
    assert b[..1] == b;
  }

  lemma OneFF(b: seq<byte>)
    requires b == [0xFF]
    ensures Wanway(b) == 0xff00
  {
    NextByte(b[..0], 0xFF, 0xFF, 0xffff, 0xff00, 0x00ff, b[..1]);
    assert b[..1] == b;
  }

  lemma TwoBytes(b: seq<byte>)
    requires b == [0x01, 0x02]
    ensures Wanway(b) == 0x358d
  {
    NextByte(b[..0], 0x01, 0x01, 0xffff, 0xfffe, 0x1e0e, b[..1]);
    NextByte(b[..1], 0x02, 0x02, 0x1e0e, 0x1e0c, 0xca72, b[..2]);
    assert b[..2] == b;
  }

  lemma ThreeBytes(b: seq<byte>)
    requires b == [0x01, 0x02, 0x03]
    ensures Wanway(b) == 0x9d3b
  {
    NextByte(b[..0], 0x01, 0x01, 0xffff, 0xfffe, 0x1e0e, b[..1]);
    NextByte(b[..1], 0x02, 0x02, 0x1e0e, 0x1e0c, 0xca72, b[..2]);
    NextByte(b[..2], 0x03, 0x03, 0xca72, 0xca71, 0x62c4, b[..3]);
    assert b[..3] == b;
  }

  lemma FourFF(b: seq<byte>)
    requires b == [0xFF, 0xFF, 0xFF, 0xFF]
    ensures Wanway(b) == 0x0f47
  {
    NextByte(b[..0], 0xFF, 0xFF, 0xffff, 0xff00, 0x00ff, b[..1]);
    NextByte(b[..1], 0xFF, 0xFF, 0x00ff, 0x0000, 0x0000, b[..2]);
    NextByte(b[..2], 0xFF, 0xFF, 0x0000, 0x00ff, 0x0f78, b[..3]);
    NextByte(b[..3], 0xFF, 0xFF, 0x0f78, 0x0f87, 0xf0b8, b[..4]);
    assert b[..4] == b;
  }

  lemma SixBytes(b: seq<byte>)
    requires b == [0xAA, 0xBB, 0xCC, 0xDD, 0xEE, 0xFF]
    ensures Wanway(b) == 0xe747
  {
    NextByte(b[..0], 0xAA, 0xAA, 0xffff, 0xff55, 0x05d7, b[..1]);
    NextByte(b[..1], 0xBB, 0xBB, 0x05d7, 0x056c, 0xa96f, b[..2]);
    NextByte(b[..2], 0xCC, 0xCC, 0xa96f, 0xa9a3, 0x9738, b[..3]);
    NextByte(b[..3], 0xDD, 0xDD, 0x9738, 0x97e5, 0xb034, b[..4]);
    NextByte(b[..4], 0xEE, 0xEE, 0xb034, 0xb0da, 0x7967, b[..5]);
    NextByte(b[..5], 0xFF, 0xFF, 0x7967, 0x7998, 0x18b8, b[..6]);
    assert b[..6] == b;
  }

  lemma Alternating(b: seq<byte>)
    requires b == [0xFF, 0x00, 0xFF, 0x00, 0xFF, 0x00, 0xFF, 0x00]
    ensures Wanway(b) == 0xb662
  {
    NextByte(b[..0], 0xFF, 0xFF, 0xffff, 0xff00, 0x00ff, b[..1]);
    NextByte(b[..1], 0x00, 0x00, 0x00ff, 0x00ff, 0x0f78, b[..2]);
    NextByte(b[..2], 0xFF, 0xFF, 0x0f78, 0x0f87, 0xf0b8, b[..3]);
    NextByte(b[..3], 0x00, 0x00, 0xf0b8, 0xf0b8, 0x3933, b[..4]);
    NextByte(b[..4], 0xFF, 0xFF, 0x3933, 0x39cc, 0x0c59, b[..5]);
    NextByte(b[..5], 0x00, 0x00, 0x0c59, 0x0c59, 0xcf48, b[..6]);
    NextByte(b[..6], 0xFF, 0xFF, 0xcf48, 0xcfb7, 0xc1fb, b[..7]);
    NextByte(b[..7], 0x00, 0x00, 0xc1fb, 0xc1fb, 0x499d, b[..8]);
    assert b[..8] == b;
  }

  /** Not one of the eight short inputs has the checksum that the test expects of it. */
  lemma ShortInputs()
    ensures Wanway([]) == 0x0000 != 0xFFFF
    ensures Wanway([0x00]) != 0x8D02
    ensures Wanway([0xFF]) != 0x81F9
    ensures Wanway([0x01, 0x02]) != 0xE1F1
    ensures Wanway([0x01, 0x02, 0x03]) != 0xCC35
    ensures Wanway([0xFF, 0xFF, 0xFF, 0xFF]) != 0x0BB3
    ensures Wanway([0xAA, 0xBB, 0xCC, 0xDD, 0xEE, 0xFF]) != 0x4B37
    ensures Wanway([0xFF, 0x00, 0xFF, 0x00, 0xFF, 0x00, 0xFF, 0x00]) != 0x2D6F
  {
    OneZero([0x00]);
    OneFF([0xFF]);
    TwoBytes([0x01, 0x02]);
    ThreeBytes([0x01, 0x02, 0x03]);
    FourFF([0xFF, 0xFF, 0xFF, 0xFF]);
    SixBytes([0xAA, 0xBB, 0xCC, 0xDD, 0xEE, 0xFF]);
    Alternating([0xFF, 0x00, 0xFF, 0x00, 0xFF, 0x00, 0xFF, 0x00]);
  }

  /** The heartbeat that the repository's test of the checksum and its test of GT06 share: DC EE. */
  lemma Heartbeat(b: seq<byte>)
    requires b == [0x0A, 0x13, 0x40, 0x04, 0x04, 0x00, 0x01, 0x00, 0x0F]
    ensures Wanway(b) == 0xdcee
  {
    NextByte(b[..0], 0x0A, 0x0A, 0xffff, 0xfff5, 0xa0dd, b[..1]);
    NextByte(b[..1], 0x13, 0x13, 0xa0dd, 0xa0ce, 0x2fd2, b[..2]);
    NextByte(b[..2], 0x40, 0x40, 0x2fd2, 0x2f92, 0xb7b4, b[..3]);
    NextByte(b[..3], 0x04, 0x04, 0xb7b4, 0xb7b0, 0xb53c, b[..4]);
    NextByte(b[..4], 0x04, 0x04, 0xb53c, 0xb538, 0xbd7e, b[..5]);
    NextByte(b[..5], 0x00, 0x00, 0xbd7e, 0xbd7e, 0x9a44, b[..6]);
    NextByte(b[..6], 0x01, 0x01, 0x9a44, 0x9a45, 0x1533, b[..7]);
    NextByte(b[..7], 0x00, 0x00, 0x1533, 0x1533, 0x030d, b[..8]);
    NextByte(b[..8], 0x0F, 0x0F, 0x030d, 0x0302, 0x2311, b[..9]);
    assert b[..9] == b;
  }

  /** And what answers it: 00 8F. */
  lemma HeartbeatAck(b: seq<byte>)
    requires b == [0x05, 0x13, 0x00, 0x0F]
    ensures Wanway(b) == 0x008f
  {
    NextByte(b[..0], 0x05, 0x05, 0xffff, 0xfffa, 0x582a, b[..1]);
    NextByte(b[..1], 0x13, 0x13, 0x582a, 0x5839, 0xac1a, b[..2]);
    NextByte(b[..2], 0x00, 0x00, 0xac1a, 0xac1a, 0xbf77, b[..3]);
    NextByte(b[..3], 0x0F, 0x0F, 0xbf77, 0xbf78, 0xff70, b[..4]);
    assert b[..4] == b;
  }

  /** CRC-16/ARC has the check value BB3D: the checksum of the digits 1 to 9. */
  lemma CheckValue(b: seq<byte>)
    requires b == [0x31, 0x32, 0x33, 0x34, 0x35, 0x36, 0x37, 0x38, 0x39]
    ensures Teltonika(b) == 0xbb3d
  {
    NextTeltonikaByte(b[..0], 0x31, 0x31, 0x0000, 0x0031, 0xd4c1, b[..1]);
    NextTeltonikaByte(b[..1], 0x32, 0x32, 0xd4c1, 0xd4f3, 0x4594, b[..2]);
    NextTeltonikaByte(b[..2], 0x33, 0x33, 0x4594, 0x45a7, 0xba04, b[..3]);
    NextTeltonikaByte(b[..3], 0x34, 0x34, 0xba04, 0xba30, 0x14ba, b[..4]);
    NextTeltonikaByte(b[..4], 0x35, 0x35, 0x14ba, 0x148f, 0xa455, b[..5]);
    NextTeltonikaByte(b[..5], 0x36, 0x36, 0xa455, 0xa463, 0x29e4, b[..6]);
    NextTeltonikaByte(b[..6], 0x37, 0x37, 0x29e4, 0x29d3, 0x9d68, b[..7]);
    NextTeltonikaByte(b[..7], 0x38, 0x38, 0x9d68, 0x9d50, 0x3c9d, b[..8]);
    NextTeltonikaByte(b[..8], 0x39, 0x39, 0x3c9d, 0x3ca4, 0xbb3d, b[..9]);
    assert b[..9] == b;
  }
}
