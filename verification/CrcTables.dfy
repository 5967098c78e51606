/** Both 256-entry tables, and that every entry is eight division steps of its index. */
module CrcTables {
  import opened Bytes
  import opened CrcDivision

  function Sixteen<T>(f: bv16 -> T): seq<T> {
    [f(0), f(1), f(2), f(3), f(4), f(5), f(6), f(7), f(8), f(9), f(10), f(11), f(12), f(13), f(14), f(15)]
  }

  /** The entries at indices `hi` to `hi + 15` as the eight-step recurrence gives them. */
  function ReferenceRow(poly: bv16, hi: bv16, n: nat): seq<bv16> {
    [Iterate(poly, hi | 0, n), Iterate(poly, hi | 1, n), Iterate(poly, hi | 2, n), Iterate(poly, hi | 3, n),
     Iterate(poly, hi | 4, n), Iterate(poly, hi | 5, n), Iterate(poly, hi | 6, n), Iterate(poly, hi | 7, n),
     Iterate(poly, hi | 8, n), Iterate(poly, hi | 9, n), Iterate(poly, hi | 10, n), Iterate(poly, hi | 11, n),
     Iterate(poly, hi | 12, n), Iterate(poly, hi | 13, n), Iterate(poly, hi | 14, n), Iterate(poly, hi | 15, n)]
  }

  /** teltonika_crc_table, laid out as 16 rows of 16 entries. */
  const TELTONIKA_TABLE: seq<seq<bv16>> := [
    [0x0000, 0xc0c1, 0xc181, 0x0140, 0xc301, 0x03c0, 0x0280, 0xc241,
     0xc601, 0x06c0, 0x0780, 0xc741, 0x0500, 0xc5c1, 0xc481, 0x0440],
    [0xcc01, 0x0cc0, 0x0d80, 0xcd41, 0x0f00, 0xcfc1, 0xce81, 0x0e40,
     0x0a00, 0xcac1, 0xcb81, 0x0b40, 0xc901, 0x09c0, 0x0880, 0xc841],
    [0xd801, 0x18c0, 0x1980, 0xd941, 0x1b00, 0xdbc1, 0xda81, 0x1a40,
     0x1e00, 0xdec1, 0xdf81, 0x1f40, 0xdd01, 0x1dc0, 0x1c80, 0xdc41],
    [0x1400, 0xd4c1, 0xd581, 0x1540, 0xd701, 0x17c0, 0x1680, 0xd641,
     0xd201, 0x12c0, 0x1380, 0xd341, 0x1100, 0xd1c1, 0xd081, 0x1040],
    [0xf001, 0x30c0, 0x3180, 0xf141, 0x3300, 0xf3c1, 0xf281, 0x3240,
     0x3600, 0xf6c1, 0xf781, 0x3740, 0xf501, 0x35c0, 0x3480, 0xf441],
    [0x3c00, 0xfcc1, 0xfd81, 0x3d40, 0xff01, 0x3fc0, 0x3e80, 0xfe41,
     0xfa01, 0x3ac0, 0x3b80, 0xfb41, 0x3900, 0xf9c1, 0xf881, 0x3840],
    [0x2800, 0xe8c1, 0xe981, 0x2940, 0xeb01, 0x2bc0, 0x2a80, 0xea41,
     0xee01, 0x2ec0, 0x2f80, 0xef41, 0x2d00, 0xedc1, 0xec81, 0x2c40],
    [0xe401, 0x24c0, 0x2580, 0xe541, 0x2700, 0xe7c1, 0xe681, 0x2640,
     0x2200, 0xe2c1, 0xe381, 0x2340, 0xe101, 0x21c0, 0x2080, 0xe041],
    [0xa001, 0x60c0, 0x6180, 0xa141, 0x6300, 0xa3c1, 0xa281, 0x6240,
     0x6600, 0xa6c1, 0xa781, 0x6740, 0xa501, 0x65c0, 0x6480, 0xa441],
    [0x6c00, 0xacc1, 0xad81, 0x6d40, 0xaf01, 0x6fc0, 0x6e80, 0xae41,
     0xaa01, 0x6ac0, 0x6b80, 0xab41, 0x6900, 0xa9c1, 0xa881, 0x6840],
    [0x7800, 0xb8c1, 0xb981, 0x7940, 0xbb01, 0x7bc0, 0x7a80, 0xba41,
     0xbe01, 0x7ec0, 0x7f80, 0xbf41, 0x7d00, 0xbdc1, 0xbc81, 0x7c40],
    [0xb401, 0x74c0, 0x7580, 0xb541, 0x7700, 0xb7c1, 0xb681, 0x7640,
     0x7200, 0xb2c1, 0xb381, 0x7340, 0xb101, 0x71c0, 0x7080, 0xb041],
    [0x5000, 0x90c1, 0x9181, 0x5140, 0x9301, 0x53c0, 0x5280, 0x9241,
     0x9601, 0x56c0, 0x5780, 0x9741, 0x5500, 0x95c1, 0x9481, 0x5440],
    [0x9c01, 0x5cc0, 0x5d80, 0x9d41, 0x5f00, 0x9fc1, 0x9e81, 0x5e40,
     0x5a00, 0x9ac1, 0x9b81, 0x5b40, 0x9901, 0x59c0, 0x5880, 0x9841],
    [0x8801, 0x48c0, 0x4980, 0x8941, 0x4b00, 0x8bc1, 0x8a81, 0x4a40,
     0x4e00, 0x8ec1, 0x8f81, 0x4f40, 0x8d01, 0x4dc0, 0x4c80, 0x8c41],
    [0x4400, 0x84c1, 0x8581, 0x4540, 0x8701, 0x47c0, 0x4680, 0x8641,
     0x8201, 0x42c0, 0x4380, 0x8341, 0x4100, 0x81c1, 0x8081, 0x4040]
  ]

  /** wanway_crc_table, laid out as 16 rows of 16 entries. */
  const WANWAY_TABLE: seq<seq<bv16>> := [
    [0x0000, 0x1189, 0x2312, 0x329b, 0x4624, 0x57ad, 0x6536, 0x74bf,
     0x8c48, 0x9dc1, 0xaf5a, 0xbed3, 0xca6c, 0xdbe5, 0xe97e, 0xf8f7],
    [0x1081, 0x0108, 0x3393, 0x221a, 0x56a5, 0x472c, 0x75b7, 0x643e,
     0x9cc9, 0x8d40, 0xbfdb, 0xae52, 0xdaed, 0xcb64, 0xf9ff, 0xe876],
    [0x2102, 0x308b, 0x0210, 0x1399, 0x6726, 0x76af, 0x4434, 0x55bd,
     0xad4a, 0xbcc3, 0x8e58, 0x9fd1, 0xeb6e, 0xfae7, 0xc87c, 0xd9f5],
    [0x3183, 0x200a, 0x1291, 0x0318, 0x77a7, 0x662e, 0x54b5, 0x453c,
     0xbdcb, 0xac42, 0x9ed9, 0x8f50, 0xfbef, 0xea66, 0xd8fd, 0xc974],
    [0x4204, 0x538d, 0x6116, 0x709f, 0x0420, 0x15a9, 0x2732, 0x36bb,
     0xce4c, 0xdfc5, 0xed5e, 0xfcd7, 0x8868, 0x99e1, 0xab7a, 0xbaf3],
    [0x5285, 0x430c, 0x7197, 0x601e, 0x14a1, 0x0528, 0x37b3, 0x263a,
     0xdecd, 0xcf44, 0xfddf, 0xec56, 0x98e9, 0x8960, 0xbbfb, 0xaa72],
    [0x6306, 0x728f, 0x4014, 0x519d, 0x2522, 0x34ab, 0x0630, 0x17b9,
     0xef4e, 0xfec7, 0xcc5c, 0xddd5, 0xa96a, 0xb8e3, 0x8a78, 0x9bf1],
    [0x7387, 0x620e, 0x5095, 0x411c, 0x35a3, 0x242a, 0x16b1, 0x0738,
     0xffcf, 0xee46, 0xdcdd, 0xcd54, 0xb9eb, 0xa862, 0x9af9, 0x8b70],
    [0x8408, 0x9581, 0xa71a, 0xb693, 0xc22c, 0xd3a5, 0xe13e, 0xf0b7,
     0x0840, 0x19c9, 0x2b52, 0x3adb, 0x4e64, 0x5fed, 0x6d76, 0x7cff],
    [0x9489, 0x8500, 0xb79b, 0xa612, 0xd2ad, 0xc324, 0xf1bf, 0xe036,
     0x18c1, 0x0948, 0x3bd3, 0x2a5a, 0x5ee5, 0x4f6c, 0x7df7, 0x6c7e],
    [0xa50a, 0xb483, 0x8618, 0x9791, 0xe32e, 0xf2a7, 0xc03c, 0xd1b5,
     0x2942, 0x38cb, 0x0a50, 0x1bd9, 0x6f66, 0x7eef, 0x4c74, 0x5dfd],
    [0xb58b, 0xa402, 0x9699, 0x8710, 0xf3af, 0xe226, 0xd0bd, 0xc134,
     0x39c3, 0x284a, 0x1ad1, 0x0b58, 0x7fe7, 0x6e6e, 0x5cf5, 0x4d7c],
    [0xc60c, 0xd785, 0xe51e, 0xf497, 0x8028, 0x91a1, 0xa33a, 0xb2b3,
     0x4a44, 0x5bcd, 0x6956, 0x78df, 0x0c60, 0x1de9, 0x2f72, 0x3efb],
    [0xd68d, 0xc704, 0xf59f, 0xe416, 0x90a9, 0x8120, 0xb3bb, 0xa232,
     0x5ac5, 0x4b4c, 0x79d7, 0x685e, 0x1ce1, 0x0d68, 0x3ff3, 0x2e7a],
    [0xe70e, 0xf687, 0xc41c, 0xd595, 0xa12a, 0xb0a3, 0x8238, 0x93b1,
     0x6b46, 0x7acf, 0x4854, 0x59dd, 0x2d62, 0x3ceb, 0x0e70, 0x1ff9],
    [0xf78f, 0xe606, 0xd49d, 0xc514, 0xb1ab, 0xa022, 0x92b9, 0x8330,
     0x7bc7, 0x6a4e, 0x58d5, 0x495c, 0x3de3, 0x2c6a, 0x1ef1, 0x0f78]
  ]

  /** The entry a 256-entry table holds at index `x`. */
  function Entry(table: seq<seq<bv16>>, x: bv16): bv16
    requires |table| == 16 && forall k :: 0 <= k < 16 ==> |table[k]| == 16
    requires x < 256
  {
    table[(x >> 4) as int][(x & 15) as int]
  }

  lemma SixteenAt<T>(f: bv16 -> T, x: bv16)
    requires x < 16
    ensures Sixteen(f)[x as int] == f(x)
  {}

  lemma JoinNibbles(x: bv16)
    ensures ((x >> 4) << 4) | (x & 15) == x
  {}

  lemma RowEntry(poly: bv16, hi: bv16, x: bv16, n: nat)
    requires x < 256 && hi == (x >> 4) << 4
    ensures ReferenceRow(poly, hi, n)[(x & 15) as int] == Iterate(poly, x, n)
  {
    var cell: bv16 -> bv16 := lo => Iterate(poly, hi | lo, n);
    assert ReferenceRow(poly, hi, n) == Sixteen(cell);
    SixteenAt(cell, x & 15);
    JoinNibbles(x);
  }

  lemma HighNibble(x: bv16)
    requires x < 256
    ensures var hi := (x >> 4) << 4;
      hi in {0x00, 0x10, 0x20, 0x30, 0x40, 0x50, 0x60, 0x70, 0x80, 0x90, 0xa0, 0xb0, 0xc0, 0xd0, 0xe0, 0xf0}
  {}

  lemma TeltonikaRow0()
    ensures TELTONIKA_TABLE[0] == ReferenceRow(TELTONIKA_POLY, 0x00, 8)
  {}

  lemma TeltonikaRow1()
    ensures TELTONIKA_TABLE[1] == ReferenceRow(TELTONIKA_POLY, 0x10, 8)
  {}

  lemma TeltonikaRow2()
    ensures TELTONIKA_TABLE[2] == ReferenceRow(TELTONIKA_POLY, 0x20, 8)
  {}

  lemma TeltonikaRow3()
    ensures TELTONIKA_TABLE[3] == ReferenceRow(TELTONIKA_POLY, 0x30, 8)
  {}

  lemma TeltonikaRow4()
    ensures TELTONIKA_TABLE[4] == ReferenceRow(TELTONIKA_POLY, 0x40, 8)
  {}

  lemma TeltonikaRow5()
    ensures TELTONIKA_TABLE[5] == ReferenceRow(TELTONIKA_POLY, 0x50, 8)
  {}

  lemma TeltonikaRow6()
    ensures TELTONIKA_TABLE[6] == ReferenceRow(TELTONIKA_POLY, 0x60, 8)
  {}

  lemma TeltonikaRow7()
    ensures TELTONIKA_TABLE[7] == ReferenceRow(TELTONIKA_POLY, 0x70, 8)
  {}

  lemma TeltonikaRow8()
    ensures TELTONIKA_TABLE[8] == ReferenceRow(TELTONIKA_POLY, 0x80, 8)
  {}

  lemma TeltonikaRow9()
    ensures TELTONIKA_TABLE[9] == ReferenceRow(TELTONIKA_POLY, 0x90, 8)
  {}

  lemma TeltonikaRow10()
    ensures TELTONIKA_TABLE[10] == ReferenceRow(TELTONIKA_POLY, 0xa0, 8)
  {}

  lemma TeltonikaRow11()
    ensures TELTONIKA_TABLE[11] == ReferenceRow(TELTONIKA_POLY, 0xb0, 8)
  {}

  lemma TeltonikaRow12()
    ensures TELTONIKA_TABLE[12] == ReferenceRow(TELTONIKA_POLY, 0xc0, 8)
  {}

  lemma TeltonikaRow13()
    ensures TELTONIKA_TABLE[13] == ReferenceRow(TELTONIKA_POLY, 0xd0, 8)
  {}

  lemma TeltonikaRow14()
    ensures TELTONIKA_TABLE[14] == ReferenceRow(TELTONIKA_POLY, 0xe0, 8)
  {}

  lemma TeltonikaRow15()
    ensures TELTONIKA_TABLE[15] == ReferenceRow(TELTONIKA_POLY, 0xf0, 8)
  {}

  /** Every entry of the Teltonika table is the eight-step recurrence of its index. */
  lemma TeltonikaTable(x: bv16)
    requires x < 256
    ensures Entry(TELTONIKA_TABLE, x) == Iterate(TELTONIKA_POLY, x, 8)
  {
    var hi := (x >> 4) << 4;
    HighNibble(x);
    if hi == 0x00 {
      TeltonikaRow0();
    } else if hi == 0x10 {
      TeltonikaRow1();
    } else if hi == 0x20 {
      TeltonikaRow2();
    } else if hi == 0x30 {
      TeltonikaRow3();
    } else if hi == 0x40 {
      TeltonikaRow4();
    } else if hi == 0x50 {
      TeltonikaRow5();
    } else if hi == 0x60 {
      TeltonikaRow6();
    } else if hi == 0x70 {
      TeltonikaRow7();
    } else if hi == 0x80 {
      TeltonikaRow8();
    } else if hi == 0x90 {
      TeltonikaRow9();
    } else if hi == 0xa0 {
      TeltonikaRow10();
    } else if hi == 0xb0 {
      TeltonikaRow11();
    } else if hi == 0xc0 {
      TeltonikaRow12();
    } else if hi == 0xd0 {
      TeltonikaRow13();
    } else if hi == 0xe0 {
      TeltonikaRow14();
    } else {
      TeltonikaRow15();
    }
    RowEntry(TELTONIKA_POLY, hi, x, 8);
  }

  /** The entry the loop looks up: what a zero register holds after byte `x`. */
  function TeltonikaEntry(x: bv16): (entry: bv16)
    requires x < 256
    ensures entry == BitSerial(TELTONIKA_POLY, 0, ByteBits(x))
  {
    TeltonikaTable(x);
    ByteAsWord(x);
    ByteFromZero(TELTONIKA_POLY, x, 8);
    Entry(TELTONIKA_TABLE, x)
  }

  lemma WanwayRow0()
    ensures WANWAY_TABLE[0] == ReferenceRow(WANWAY_POLY, 0x00, 8)
  {}

  lemma WanwayRow1()
    ensures WANWAY_TABLE[1] == ReferenceRow(WANWAY_POLY, 0x10, 8)
  {}

  lemma WanwayRow2()
    ensures WANWAY_TABLE[2] == ReferenceRow(WANWAY_POLY, 0x20, 8)
  {}

  lemma WanwayRow3()
    ensures WANWAY_TABLE[3] == ReferenceRow(WANWAY_POLY, 0x30, 8)
  {}

  lemma WanwayRow4()
    ensures WANWAY_TABLE[4] == ReferenceRow(WANWAY_POLY, 0x40, 8)
  {}

  lemma WanwayRow5()
    ensures WANWAY_TABLE[5] == ReferenceRow(WANWAY_POLY, 0x50, 8)
  {}

  lemma WanwayRow6()
    ensures WANWAY_TABLE[6] == ReferenceRow(WANWAY_POLY, 0x60, 8)
  {}

  lemma WanwayRow7()
    ensures WANWAY_TABLE[7] == ReferenceRow(WANWAY_POLY, 0x70, 8)
  {}

  lemma WanwayRow8()
    ensures WANWAY_TABLE[8] == ReferenceRow(WANWAY_POLY, 0x80, 8)
  {}

  lemma WanwayRow9()
    ensures WANWAY_TABLE[9] == ReferenceRow(WANWAY_POLY, 0x90, 8)
  {}

  lemma WanwayRow10()
    ensures WANWAY_TABLE[10] == ReferenceRow(WANWAY_POLY, 0xa0, 8)
  {}

  lemma WanwayRow11()
    ensures WANWAY_TABLE[11] == ReferenceRow(WANWAY_POLY, 0xb0, 8)
  {}

  lemma WanwayRow12()
    ensures WANWAY_TABLE[12] == ReferenceRow(WANWAY_POLY, 0xc0, 8)
  {}

  lemma WanwayRow13()
    ensures WANWAY_TABLE[13] == ReferenceRow(WANWAY_POLY, 0xd0, 8)
  {}

  lemma WanwayRow14()
    ensures WANWAY_TABLE[14] == ReferenceRow(WANWAY_POLY, 0xe0, 8)
  {}

  lemma WanwayRow15()
    ensures WANWAY_TABLE[15] == ReferenceRow(WANWAY_POLY, 0xf0, 8)
  {}

  /** Every entry of the Wanway table is the eight-step recurrence of its index. */
  lemma WanwayTable(x: bv16)
    requires x < 256
    ensures Entry(WANWAY_TABLE, x) == Iterate(WANWAY_POLY, x, 8)
  {
    var hi := (x >> 4) << 4;
    HighNibble(x);
    if hi == 0x00 {
      WanwayRow0();
    } else if hi == 0x10 {
      WanwayRow1();
    } else if hi == 0x20 {
      WanwayRow2();
    } else if hi == 0x30 {
      WanwayRow3();
    } else if hi == 0x40 {
      WanwayRow4();
    } else if hi == 0x50 {
      WanwayRow5();
    } else if hi == 0x60 {
      WanwayRow6();
    } else if hi == 0x70 {
      WanwayRow7();
    } else if hi == 0x80 {
      WanwayRow8();
    } else if hi == 0x90 {
      WanwayRow9();
    } else if hi == 0xa0 {
      WanwayRow10();
    } else if hi == 0xb0 {
      WanwayRow11();
    } else if hi == 0xc0 {
      WanwayRow12();
    } else if hi == 0xd0 {
      WanwayRow13();
    } else if hi == 0xe0 {
      WanwayRow14();
    } else {
      WanwayRow15();
    }
    RowEntry(WANWAY_POLY, hi, x, 8);
  }

  /** The entry the loop looks up: what a zero register holds after byte `x`. */
  function WanwayEntry(x: bv16): (entry: bv16)
    requires x < 256
    ensures entry == BitSerial(WANWAY_POLY, 0, ByteBits(x))
  {
    WanwayTable(x);
    ByteAsWord(x);
    ByteFromZero(WANWAY_POLY, x, 8);
    Entry(WANWAY_TABLE, x)
  }
}
