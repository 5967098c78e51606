/** Bit-serial CRC-16 division, the two checksums it defines, and its algebra. */
module CrcDivision {
  import opened Bytes

  // ----- Bit-serial reference -----

  /** Polynomials in reflected form; the low coefficient sits in the top bit. */
  const TELTONIKA_POLY: bv16 := 0xa001
  const WANWAY_POLY: bv16 := 0x8408

  /** One division step on the register alone. */
  function Bit(poly: bv16, c: bv16): bv16 {
    if c & 1 == 1 then (c >> 1) ^ poly else c >> 1
  }

  /** One division step that takes in one message bit. */
  function ShiftBit(poly: bv16, c: bv16, bit: bool): bv16 {
    Bit(poly, if bit then c ^ 1 else c)
  }

  /** Division of a whole bit string, one bit at a time, starting from register `c`. */
  function BitSerial(poly: bv16, c: bv16, bits: seq<bool>): bv16
    decreases |bits|
  {
    if bits == [] then c else BitSerial(poly, ShiftBit(poly, c, bits[0]), bits[1..])
  }

  /** The bits of a byte, least significant first. */
  function ByteBits(y0: bv16): (bits: seq<bool>)
    ensures |bits| == 8
  {
    var y1 := y0 >> 1;
    var y2 := y1 >> 1;
    var y3 := y2 >> 1;
    var y4 := y3 >> 1;
    var y5 := y4 >> 1;
    var y6 := y5 >> 1;
    var y7 := y6 >> 1;
    [y0 & 1 == 1] + ([y1 & 1 == 1] + ([y2 & 1 == 1] + ([y3 & 1 == 1]
    + ([y4 & 1 == 1] + ([y5 & 1 == 1] + ([y6 & 1 == 1] + ([y7 & 1 == 1] + [])))))))
  }

  /** The bits of a buffer in the order the division takes them: byte by byte, low bit first. */
  function WireBits(buf: seq<byte>): (bits: seq<bool>)
    ensures |bits| == 8 * |buf|
  {
    if buf == [] then [] else ByteBits(buf[0] as bv16) + WireBits(buf[1..])
  }

  /** The Teltonika checksum: reflected polynomial 0xA001, initial value 0. */
  function Teltonika(buf: seq<byte>): bv16 {
    BitSerial(TELTONIKA_POLY, 0, WireBits(buf))
  }

  /** The FCS of RFC 1662, Appendix C.2: 0x8408, initial value 0xFFFF, complemented at the end. */
  function Wanway(buf: seq<byte>): bv16 {
    Complement(WanwayRegister(buf))
  }

  function Complement(x: bv16): bv16 {
    x ^ 0xffff
  }

  function WanwayRegister(buf: seq<byte>): bv16 {
    BitSerial(WANWAY_POLY, 0xffff, WireBits(buf))
  }

  // ----- Algebra of the division step -----

  lemma LinearOddOdd(poly: bv16, x: bv16, y: bv16)
    requires x & 1 == 1 && y & 1 == 1
    ensures Bit(poly, x ^ y) == Bit(poly, x) ^ Bit(poly, y)
  {
    assert (x ^ y) & 1 != 1 && (x ^ y) >> 1 == ((x >> 1) ^ poly) ^ ((y >> 1) ^ poly);
  }

  lemma LinearOddEven(poly: bv16, x: bv16, y: bv16)
    requires x & 1 == 1 && y & 1 != 1
    ensures Bit(poly, x ^ y) == Bit(poly, x) ^ Bit(poly, y)
  {
    assert (x ^ y) & 1 == 1 && ((x ^ y) >> 1) ^ poly == ((x >> 1) ^ poly) ^ (y >> 1);
  }

  lemma LinearEvenEven(poly: bv16, x: bv16, y: bv16)
    requires x & 1 != 1 && y & 1 != 1
    ensures Bit(poly, x ^ y) == Bit(poly, x) ^ Bit(poly, y)
  {
    assert (x ^ y) & 1 != 1 && (x ^ y) >> 1 == (x >> 1) ^ (y >> 1);
  }

  lemma XorSwap(x: bv16, y: bv16)
    ensures x ^ y == y ^ x
  {}

  /** The step is linear over XOR. */
  lemma BitLinear(poly: bv16, x: bv16, y: bv16)
    ensures Bit(poly, x ^ y) == Bit(poly, x) ^ Bit(poly, y)
  {
    if x & 1 == 1 {
      if y & 1 == 1 {
        LinearOddOdd(poly, x, y);
      } else {
        LinearOddEven(poly, x, y);
      }
    } else {
      if y & 1 == 1 {
        XorSwap(x, y);
        XorSwap(Bit(poly, x), Bit(poly, y));
        LinearOddEven(poly, y, x);
      } else {
        LinearEvenEven(poly, x, y);
      }
    }
  }

  lemma BitOfEven(poly: bv16, x: bv16)
    requires x & 1 == 0
    ensures Bit(poly, x) == x >> 1
  {}

  /** Message bits may be added to the register ahead of time. */
  lemma Preload(poly: bv16, c: bv16, y: bv16)
    ensures Bit(poly, c ^ y) == ShiftBit(poly, c, y & 1 == 1) ^ (y >> 1)
  {}

  /** The low `n` bits of `y`, least significant first. */
  function WordBits(y: bv16, n: nat): (bits: seq<bool>)
    ensures |bits| == n
    decreases n
  {
    if n == 0 then [] else [y & 1 == 1] + WordBits(y >> 1, n - 1)
  }

  function Iterate(poly: bv16, x: bv16, n: nat): bv16
    decreases n
  {
    if n == 0 then x else Iterate(poly, Bit(poly, x), n - 1)
  }

  function Remaining(y: bv16, n: nat): bv16
    decreases n
  {
    if n == 0 then y else Remaining(y >> 1, n - 1)
  }

  lemma XorZero(c: bv16)
    ensures c ^ 0 == c
  {}

  /** Feeding the bits of a word one by one, or adding the word and stepping, is the same. */
  lemma {:induction false} FeedWord(poly: bv16, c: bv16, y: bv16, n: nat)
    requires Remaining(y, n) == 0
    ensures BitSerial(poly, c, WordBits(y, n)) == Iterate(poly, c ^ y, n)
    decreases n
  {
    if n == 0 {
      XorZero(c);
    } else {
      FeedWord(poly, ShiftBit(poly, c, y & 1 == 1), y >> 1, n - 1);
      Preload(poly, c, y);
      assert WordBits(y, n)[1..] == WordBits(y >> 1, n - 1);
    }
  }

  lemma {:induction false} BitSerialAppend(poly: bv16, c: bv16, a: seq<bool>, b: seq<bool>)
    ensures BitSerial(poly, c, a + b) == BitSerial(poly, BitSerial(poly, c, a), b)
    decreases |a|
  {
    if a == [] {
      assert a + b == b;
    } else {
      assert (a + b)[1..] == a[1..] + b;
      BitSerialAppend(poly, ShiftBit(poly, c, a[0]), a[1..], b);
    }
  }

  lemma {:induction false} WireBitsAppend(a: seq<byte>, b: seq<byte>)
    ensures WireBits(a + b) == WireBits(a) + WireBits(b)
  {
    if a == [] {
      assert a + b == b;
    } else {
      assert (a + b)[1..] == a[1..] + b;
      WireBitsAppend(a[1..], b);
      Regroup(ByteBits(a[0] as bv16), WireBits(a[1..]), WireBits(b));
    }
  }

  // ----- Bytes at a time -----

  ghost predicate IsSum(x: bv16, y: bv16, sum: bv16) {
    sum == x ^ y
  }

  lemma PastEven(poly: bv16, x: bv16, y: bv16, sum: bv16)
    requires y & 1 == 0 && IsSum(x, y, sum)
    ensures IsSum(Bit(poly, x), y >> 1, Bit(poly, sum))
  {
    BitLinear(poly, x, y);
    BitOfEven(poly, y);
  }

  predicate LowBitsClear(y: bv16, n: nat)
    decreases n
  {
    n == 0 || (y & 1 == 0 && LowBitsClear(y >> 1, n - 1))
  }

  /** Bits above the next `n` only shift down. */
  lemma {:induction false} ShiftPast(poly: bv16, x: bv16, y: bv16, sum: bv16, n: nat)
    requires LowBitsClear(y, n) && IsSum(x, y, sum)
    ensures IsSum(Iterate(poly, x, n), Remaining(y, n), Iterate(poly, sum, n))
    decreases n
  {
    if n > 0 {
      PastEven(poly, x, y, sum);
      ShiftPast(poly, Bit(poly, x), y >> 1, Bit(poly, sum), n - 1);
    }
  }

  lemma ByteAsWord(y: bv16)
    requires y < 256
    ensures ByteBits(y) == WordBits(y, 8) && Remaining(y, 8) == 0
  {
    WordOfByte(y);
  }

  lemma WordOfByte(y: bv16)
    requires y < 256
    ensures Remaining(y, 8) == 0
  {}

  lemma FeedByte(poly: bv16, c: bv16, y: bv16, n: nat)
    requires ByteBits(y) == WordBits(y, n) && Remaining(y, n) == 0
    ensures BitSerial(poly, c, ByteBits(y)) == Iterate(poly, c ^ y, n)
  {
    FeedWord(poly, c, y, n);
  }

  lemma ByteFromZero(poly: bv16, x: bv16, n: nat)
    requires ByteBits(x) == WordBits(x, n) && Remaining(x, n) == 0
    ensures BitSerial(poly, 0, ByteBits(x)) == Iterate(poly, x, n)
  {
    FeedByte(poly, 0, x, n);
    XorSwap(0, x);
    XorZero(x);
  }

  lemma SplitBytes(x: bv16)
    ensures IsSum(x & 0xff, x & 0xff00, x)
  {}

  lemma HighByteAlone(x: bv16)
    ensures LowBitsClear(x & 0xff00, 8) && Remaining(x & 0xff00, 8) == x >> 8
  {}

  lemma HighByteOfXor(c: bv16, y: bv16)
    requires y < 256
    ensures (c ^ y) >> 8 == c >> 8
  {}

  lemma FeedLowByte(poly: bv16, c: bv16, y: bv16, x: bv16, hi: bv16, n: nat)
    requires ByteBits(y) == WordBits(y, n) && Remaining(y, n) == 0
    requires ByteBits(x) == WordBits(x, n) && Remaining(x, n) == 0
    requires IsSum(x, hi, c ^ y) && LowBitsClear(hi, n)
    ensures IsSum(BitSerial(poly, 0, ByteBits(x)), Remaining(hi, n), BitSerial(poly, c, ByteBits(y)))
  {
    FeedByte(poly, c, y, n);
    ByteFromZero(poly, x, n);
    ShiftPast(poly, x, hi, c ^ y, n);
  }

  /** All that the next lemma needs to know about the number of bits in a byte. */
  lemma ByteWidth(y: bv16, x: bv16, sum: bv16, hi: bv16) returns (n: nat)
    requires y < 256 && x < 256 && hi == sum & 0xff00
    ensures ByteBits(y) == WordBits(y, n) && Remaining(y, n) == 0
    ensures ByteBits(x) == WordBits(x, n) && Remaining(x, n) == 0
    ensures LowBitsClear(hi, n) && Remaining(hi, n) == sum >> 8
  {
    n := 8;
    ByteAsWord(y);
    ByteAsWord(x);
    HighByteAlone(sum);
  }

  /** The byte that selects the table entry. */
  function TableIndex(c: bv16, y: bv16): (x: bv16)
    ensures x < 256
  {
    (c ^ y) & 0xff
  }

  /** The register and the byte, split into the table index and the byte above it. */
  lemma IndexParts(c: bv16, y: bv16) returns (sum: bv16, hi: bv16)
    requires y < 256
    ensures hi == sum & 0xff00 && IsSum(c, y, sum) && IsSum(TableIndex(c, y), hi, sum) && sum >> 8 == c >> 8
  {
    sum, hi := c ^ y, (c ^ y) & 0xff00;
    SplitBytes(sum);
    HighByteOfXor(c, y);
  }

  lemma SumOfParts(poly: bv16, c: bv16, y: bv16, sum: bv16, x: bv16, hi: bv16)
    requires y < 256 && x < 256 && hi == sum & 0xff00 && IsSum(c, y, sum) && IsSum(x, hi, sum)
    ensures IsSum(BitSerial(poly, 0, ByteBits(x)), sum >> 8, BitSerial(poly, c, ByteBits(y)))
  {
    var n := ByteWidth(y, x, sum, hi);
    FeedLowByte(poly, c, y, x, hi, n);
  }

  lemma IndexedSum(poly: bv16, c: bv16, y: bv16)
    requires y < 256
    ensures IsSum(BitSerial(poly, 0, ByteBits(TableIndex(c, y))), c >> 8, BitSerial(poly, c, ByteBits(y)))
  {
    var sum, hi := IndexParts(c, y);
    SumOfParts(poly, c, y, sum, TableIndex(c, y), hi);
  }

  /** One byte is taken in by shifting out a byte and adding the entry it selects. */
  lemma TableStep(poly: bv16, c: bv16, y: bv16)
    requires y < 256
    ensures BitSerial(poly, c, ByteBits(y)) == (c >> 8) ^ BitSerial(poly, 0, ByteBits(TableIndex(c, y)))
  {
    IndexedSum(poly, c, y);
    XorSwap(BitSerial(poly, 0, ByteBits(TableIndex(c, y))), c >> 8);
  }

  lemma {:induction false} BitSerialPush(poly: bv16, c: bv16, buf: seq<byte>, i: nat)
    requires i < |buf|
    ensures BitSerial(poly, c, WireBits(buf[..i + 1]))
         == BitSerial(poly, BitSerial(poly, c, WireBits(buf[..i])), ByteBits(buf[i] as bv16))
  {
    WireBitsPush(buf, i);
    BitSerialAppend(poly, c, WireBits(buf[..i]), ByteBits(buf[i] as bv16));
  }

  lemma WireBitsPush(buf: seq<byte>, i: nat)
    requires i < |buf|
    ensures WireBits(buf[..i + 1]) == WireBits(buf[..i]) + ByteBits(buf[i] as bv16)
  {
    assert buf[..i + 1] == buf[..i] + [buf[i]];
    WireBitsAppend(buf[..i], [buf[i]]);
    assert WireBits([buf[i]]) == ByteBits(buf[i] as bv16) + WireBits([]);
  }
}
