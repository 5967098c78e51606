/** What the two checksums miss: of all changes within 17 wire bits exactly their own generators. */
module CrcLimit {
  import opened Bytes
  import opened CrcDivision
  import opened CrcBurst

  // ----- The generator itself -----

  lemma {:induction false} IterateZero(poly: bv16, n: nat)
    ensures Iterate(poly, 0, n) == 0
    decreases n
  {
    if n > 0 {
      assert Bit(poly, 0) == 0;
      IterateZero(poly, n - 1);
    }
  }

  lemma {:induction false} RemainingSixteen(y: bv16)
    ensures Remaining(y, 16) == 0
  {
    RemainingAdds(y, 8, 8);
    assert Remaining(y, 8) == y >> 8;
    assert Remaining(y >> 8, 8) == 0;
  }

  /** The generator polynomial itself, as a 17-bit burst, leaves the register empty. */
  lemma GeneratorLeavesNoTrace(poly: bv16, n: nat)
    requires n == 16
    ensures BitSerial(poly, 0, [true] + WordBits(poly, n)) == 0
  {
    assert ([true] + WordBits(poly, n))[1..] == WordBits(poly, n);
    assert ShiftBit(poly, 0, true) == poly by { FirstBit(poly); }
    RemainingSixteen(poly);
    FeedWord(poly, poly, poly, n);
    SelfSum(poly);
    IterateZero(poly, n);
  }

  lemma FirstBit(poly: bv16)
    ensures ShiftBit(poly, 0, true) == poly
  {}

  lemma {:induction false} QuietZero(poly: bv16, quiet: seq<bool>)
    requires forall k :: 0 <= k < |quiet| ==> !quiet[k]
    ensures BitSerial(poly, 0, quiet) == 0
    decreases |quiet|
  {
    if quiet != [] {
      assert ShiftBit(poly, 0, false) == 0;
      QuietZero(poly, quiet[1..]);
    }
  }

  /** How many bits the register has; a generator has one more. */
  const WIDTH: nat := 16

  /** The generator, low bit first. */
  function Generator(poly: bv16): (bits: seq<bool>)
    ensures |bits| == 17
  {
    [true] + WordBits(poly, WIDTH)
  }

  /** Two bit strings of one length that differ from `lo` on by the generator's own 17 bits, and nowhere else. */
  ghost predicate GeneratorApart(poly: bv16, a: seq<bool>, b: seq<bool>, lo: nat) {
    && |a| == |b| && lo + 17 <= |a|
    && (forall k :: 0 <= k < |a| && !(lo <= k < lo + 17) ==> a[k] == b[k])
    && XorBits(a, b)[lo..lo + 17] == Generator(poly)
  }

  /** Wherever in a message the generator's 17 bits are flipped, that goes unseen: 16 is the limit. */
  lemma SeventeenBitsUndetected(poly: bv16, c: bv16, a: seq<bool>, b: seq<bool>, lo: nat)
    requires GeneratorApart(poly, a, b, lo)
    ensures BitSerial(poly, c, a) == BitSerial(poly, c, b)
  {
    var d := XorBits(a, b);
    GeneratorLeavesNoTrace(poly, WIDTH);
    QuietOutside(a, b, lo, lo + 17);
    BurstUnseen(poly, d, lo, lo + 17);
    SelfSum(c);
    DifferenceRuns(poly, c, c, 0, a, b);
    ZeroSum(BitSerial(poly, c, a), BitSerial(poly, c, b));
  }

  predicate Quiet(d: seq<bool>) {
    forall k :: 0 <= k < |d| ==> !d[k]
  }

  /** A stretch that leaves no trace on its own leaves none between quiet bits. */
  lemma BurstUnseen(poly: bv16, d: seq<bool>, lo: nat, hi: nat)
    requires lo <= hi <= |d| && BitSerial(poly, 0, d[lo..hi]) == 0 && Quiet(d[..lo]) && Quiet(d[hi..])
    ensures BitSerial(poly, 0, d) == 0
  {
    QuietZero(poly, d[..lo]);
    QuietZero(poly, d[hi..]);
    ThreePieces(d, lo, hi);
    BitSerialAppend(poly, 0, d[..lo], d[lo..hi] + d[hi..]);
    BitSerialAppend(poly, 0, d[lo..hi], d[hi..]);
  }

  /** Where two strings agree their difference is quiet. */
  lemma QuietOutside(a: seq<bool>, b: seq<bool>, lo: nat, hi: nat)
    requires |a| == |b| && lo <= hi <= |a|
    requires forall k :: 0 <= k < |a| && !(lo <= k < hi) ==> a[k] == b[k]
    ensures Quiet(XorBits(a, b)[..lo]) && Quiet(XorBits(a, b)[hi..])
  {}

  lemma ThreePieces(d: seq<bool>, lo: nat, hi: nat)
    requires lo <= hi <= |d|
    ensures d == d[..lo] + (d[lo..hi] + d[hi..])
  {}

  /** The same for buffers, at any bit and in any length. */
  lemma GeneratorUndetected(a: seq<byte>, b: seq<byte>, lo: nat)
    requires |a| == |b|
    ensures GeneratorApart(TELTONIKA_POLY, WireBits(a), WireBits(b), lo) ==> Teltonika(a) == Teltonika(b)
    ensures GeneratorApart(WANWAY_POLY, WireBits(a), WireBits(b), lo) ==> Wanway(a) == Wanway(b)
  {
    if GeneratorApart(TELTONIKA_POLY, WireBits(a), WireBits(b), lo) {
      SeventeenBitsUndetected(TELTONIKA_POLY, 0, WireBits(a), WireBits(b), lo);
    }
    if GeneratorApart(WANWAY_POLY, WireBits(a), WireBits(b), lo) {
      SeventeenBitsUndetected(WANWAY_POLY, 0xffff, WireBits(a), WireBits(b), lo);
    }
  }

  // ----- And nothing else of seventeen bits -----

  lemma XorCancels(x: bv16, y: bv16)
    ensures x ^ y == 0 <==> x == y
  {}

  lemma SumClear(poly: bv16, c: bv16, w: bv16, sum: bv16, n: nat)
    requires Invertible(poly) && Remaining(w, n) == 0 && sum == c ^ w
    ensures BitSerial(poly, c, WordBits(w, n)) == 0 <==> sum == 0
  {
    FeedWord(poly, c, w, n);
    IterateNonzero(poly, sum, n);
  }

  /** A word's bits clear the register exactly if the word is what is in it. */
  lemma WordClear(poly: bv16, c: bv16, w: bv16, n: nat)
    requires Invertible(poly) && Remaining(w, n) == 0
    ensures BitSerial(poly, c, WordBits(w, n)) == 0 <==> c == w
  {
    SumClear(poly, c, w, c ^ w, n);
    XorCancels(c, w);
  }

  lemma SixteenClear(poly: bv16, c: bv16, d: seq<bool>, n: nat)
    requires Invertible(poly) && |d| == n <= 16
    ensures BitSerial(poly, c, d) == 0 <==> c == Pack(d)
  {
    PackFits(d);
    WordClear(poly, c, Pack(d), n);
  }

  /** Seventeen bits leave an empty register empty exactly if they are quiet or the generator. */
  lemma SeventeenClear(poly: bv16, d: seq<bool>)
    requires Invertible(poly) && |d| == WIDTH + 1
    ensures BitSerial(poly, 0, d) == 0 <==> Quiet(d) || d == Generator(poly)
  {
    var rest := d[1..];
    assert d == [d[0]] + rest;
    FirstBit(poly);
    assert ShiftBit(poly, 0, false) == 0;
    SixteenClear(poly, if d[0] then poly else 0, rest, WIDTH);
    PackOfWord(poly, rest, WIDTH);
    PackOfQuiet(rest);
  }

  /** Bits pack into a word exactly if they are the word's bits. */
  lemma PackOfWord(w: bv16, d: seq<bool>, n: nat)
    requires |d| == n == WIDTH
    ensures Pack(d) == w <==> d == WordBits(w, n)
  {
    PackFits(d);
    RemainingSixteen(w);
    if d == WordBits(w, n) {
      WordBitsInjective(w, Pack(d), n);
    }
  }

  lemma PackOfQuiet(d: seq<bool>)
    requires |d| <= 16
    ensures Pack(d) == 0 <==> Quiet(d)
  {
    PackFits(d);
    ZeroWord(|d|);
    if Quiet(d) {
      QuietPacksZero(d);
    }
  }

  lemma {:induction false} QuietPacksZero(d: seq<bool>)
    requires Quiet(d)
    ensures Pack(d) == 0
  {
    if d != [] {
      QuietPacksZero(d[1..]);
      assert Pack(d) == (Pack(d[1..]) << 1) | 0;
    }
  }

  /** A stretch between quiet bits leaves a trace exactly if it does so on its own. */
  lemma WindowAlone(poly: bv16, d: seq<bool>, lo: nat, hi: nat)
    requires Invertible(poly) && lo <= hi <= |d| && Quiet(d[..lo]) && Quiet(d[hi..])
    ensures BitSerial(poly, 0, d) == 0 <==> BitSerial(poly, 0, d[lo..hi]) == 0
  {
    QuietZero(poly, d[..lo]);
    QuietRun(poly, BitSerial(poly, 0, d[lo..hi]), d[hi..]);
    ThreePieces(d, lo, hi);
    BitSerialAppend(poly, 0, d[..lo], d[lo..hi] + d[hi..]);
    BitSerialAppend(poly, 0, d[lo..hi], d[hi..]);
  }

  /** Two bit strings of one length that agree outside the 17 bits from `lo` on. */
  ghost predicate AgreeOutside(a: seq<bool>, b: seq<bool>, lo: nat) {
    && |a| == |b| && lo + WIDTH + 1 <= |a|
    && forall k :: 0 <= k < |a| && !(lo <= k < lo + WIDTH + 1) ==> a[k] == b[k]
  }

  /** Of all changes within 17 bits, division misses the generator and no other. */
  lemma SeventeenBitsIff(poly: bv16, c: bv16, a: seq<bool>, b: seq<bool>, lo: nat)
    requires Invertible(poly) && AgreeOutside(a, b, lo)
    ensures BitSerial(poly, c, a) == BitSerial(poly, c, b) <==> a == b || GeneratorApart(poly, a, b, lo)
  {
    var d, hi := XorBits(a, b), lo + WIDTH + 1;
    SelfSum(c);
    DifferenceRuns(poly, c, c, 0, a, b);
    ZeroSum(BitSerial(poly, c, a), BitSerial(poly, c, b));
    SelfSum(BitSerial(poly, c, a));
    QuietOutside(a, b, lo, hi);
    WindowAlone(poly, d, lo, hi);
    SeventeenClear(poly, d[lo..hi]);
    QuietWindow(a, b, lo, hi);
  }

  lemma QuietWindow(a: seq<bool>, b: seq<bool>, lo: nat, hi: nat)
    requires |a| == |b| && lo <= hi <= |a|
    requires forall k :: 0 <= k < |a| && !(lo <= k < hi) ==> a[k] == b[k]
    ensures Quiet(XorBits(a, b)[lo..hi]) <==> a == b
  {
    var w := XorBits(a, b)[lo..hi];
    if Quiet(w) {
      forall k | 0 <= k < |a|
        ensures a[k] == b[k]
      {
        assert lo <= k < hi ==> !w[k - lo];
      }
    }
  }

  /** The same for buffers: which changes within 17 bits each checksum misses. */
  lemma MissedIff(a: seq<byte>, b: seq<byte>, lo: nat)
    requires |a| == |b| && AgreeOutside(WireBits(a), WireBits(b), lo)
    ensures Teltonika(a) == Teltonika(b) <==> a == b || GeneratorApart(TELTONIKA_POLY, WireBits(a), WireBits(b), lo)
    ensures Wanway(a) == Wanway(b) <==> a == b || GeneratorApart(WANWAY_POLY, WireBits(a), WireBits(b), lo)
  {
    if WireBits(a) == WireBits(b) {
      WireBitsInjective(a, b);
    }
    SeventeenBitsIff(TELTONIKA_POLY, 0, WireBits(a), WireBits(b), lo);
    SeventeenBitsIff(WANWAY_POLY, 0xffff, WireBits(a), WireBits(b), lo);
    ComplementInjective(WanwayRegister(a), WanwayRegister(b));
  }

  /** Three bytes that hold a generator can stand for three zeros in any buffer. */
  lemma ThreeBytesUndetected(before: seq<byte>, after: seq<byte>)
    ensures Teltonika(before + [0x03, 0x40, 0x01] + after) == Teltonika(before + [0x00, 0x00, 0x00] + after)
    ensures Wanway(before + [0x11, 0x08, 0x01] + after) == Wanway(before + [0x00, 0x00, 0x00] + after)
  {
    var zeros: seq<byte> := [0x00, 0x00, 0x00];
    GeneratorBytes([0x03, 0x40, 0x01], [0x11, 0x08, 0x01], zeros);
    SameWithin(TELTONIKA_POLY, 0, before, [0x03, 0x40, 0x01], zeros, after);
    SameWithin(WANWAY_POLY, 0xffff, before, [0x11, 0x08, 0x01], zeros, after);
  }

  lemma SameWithin(poly: bv16, c: bv16, before: seq<byte>, x: seq<byte>, y: seq<byte>, after: seq<byte>)
    requires |x| == |y| && GeneratorApart(poly, WireBits(x), WireBits(y), 0)
    ensures BitSerial(poly, c, WireBits(before + x + after)) == BitSerial(poly, c, WireBits(before + y + after))
  {
    var start := BitSerial(poly, c, WireBits(before));
    SeventeenBitsUndetected(poly, start, WireBits(x), WireBits(y), 0);
    ThroughParts(poly, c, before, x, after);
    ThroughParts(poly, c, before, y, after);
  }

  lemma ThroughParts(poly: bv16, c: bv16, before: seq<byte>, x: seq<byte>, after: seq<byte>)
    ensures BitSerial(poly, c, WireBits(before + x + after))
         == BitSerial(poly, BitSerial(poly, BitSerial(poly, c, WireBits(before)), WireBits(x)), WireBits(after))
  {
    WireBitsAppend(before + x, after);
    WireBitsAppend(before, x);
    BitSerialAppend(poly, c, WireBits(before + x), WireBits(after));
    BitSerialAppend(poly, c, WireBits(before), WireBits(x));
  }

  lemma {:induction false} WordSplit(y: bv16, m: nat, n: nat)
    ensures WordBits(y, m + n) == WordBits(y, m) + WordBits(Remaining(y, m), n)
    decreases m
  {
    if m > 0 {
      WordSplit(y >> 1, m - 1, n);
      Regroup([y & 1 == 1], WordBits(y >> 1, m - 1), WordBits(Remaining(y, m), n));
    } else {
      assert [] + WordBits(y, n) == WordBits(y, n);
    }
  }

  /** The generator polynomials bit by bit, low bit first. */
  const TELTONIKA_LOW: seq<bool> := [true, false, false, false, false, false, false, false]
  const TELTONIKA_HIGH: seq<bool> := [false, false, false, false, false, true, false, true]
  const WANWAY_LOW: seq<bool> := [false, false, false, true, false, false, false, false]
  const WANWAY_HIGH: seq<bool> := [false, false, true, false, false, false, false, true]

  lemma LowHalf(y: bv16, low: bv16, high: bv16)
    requires low < 0x100 && high < 0x100 && y == (high << 8) | low
    ensures ByteBits(y) == ByteBits(low)
  {}

  lemma EightBits(y: bv16)
    ensures WordBits(y, 8) == ByteBits(y)
  {}

  lemma HighHalf(y: bv16, low: bv16, high: bv16)
    requires low < 0x100 && high < 0x100 && y == (high << 8) | low
    ensures Remaining(y, 8) == high
  {}

  /** All that the next lemma needs to know about the number of bits in a byte. */
  lemma HalfWidth(y: bv16, low: bv16, high: bv16) returns (n: nat)
    requires low < 0x100 && high < 0x100 && y == (high << 8) | low
    ensures n + n == WIDTH && WordBits(y, n) == ByteBits(low)
    ensures Remaining(y, n) == high && WordBits(high, n) == ByteBits(high)
  {
    n := 8;
    LowHalf(y, low, high);
    EightBits(y);
    EightBits(high);
    HighHalf(y, low, high);
  }

  lemma WordOfBytes(y: bv16, low: bv16, high: bv16)
    requires low < 0x100 && high < 0x100 && y == (high << 8) | low
    ensures Generator(y) == [true] + (ByteBits(low) + ByteBits(high))
  {
    var n := HalfWidth(y, low, high);
    WordSplit(y, n, n);
  }

  lemma PolynomialBits()
    ensures ByteBits(0x01) == TELTONIKA_LOW && ByteBits(0xa0) == TELTONIKA_HIGH
    ensures ByteBits(0x08) == WANWAY_LOW && ByteBits(0x84) == WANWAY_HIGH
  {}

  lemma GeneratorBits()
    ensures Generator(TELTONIKA_POLY) == [true] + (TELTONIKA_LOW + TELTONIKA_HIGH)
    ensures Generator(WANWAY_POLY) == [true] + (WANWAY_LOW + WANWAY_HIGH)
  {
    PolynomialBits();
    WordOfBytes(TELTONIKA_POLY, 0x01, 0xa0);
    WordOfBytes(WANWAY_POLY, 0x08, 0x84);
  }

  lemma OneByteBits(x: byte)
    ensures WireBits([x]) == ByteBits(x as bv16)
  {
    assert WireBits([x]) == ByteBits(x as bv16) + WireBits([]);
  }

  lemma ThreeBytes(x: byte, y: byte, z: byte)
    ensures WireBits([x, y, z]) == WireBits([x]) + (WireBits([y]) + WireBits([z]))
  {
    assert [x, y, z] == [x] + ([y] + [z]);
    WireBitsAppend([x], [y] + [z]);
    WireBitsAppend([y], [z]);
  }

  const QUIET: seq<bool> := [false, false, false, false, false, false, false, false]
  const FIRST: seq<bool> := [true, false, false, false, false, false, false, false]

  lemma ByteAlone(x: byte, y: bv16, bits: seq<bool>)
    requires x as bv16 == y && ByteBits(y) == bits
    ensures WireBits([x]) == bits
  {
    OneByteBits(x);
  }

  lemma ThreeAlone(a: seq<byte>, low: seq<bool>, middle: seq<bool>, high: seq<bool>)
    requires |a| == 3 && WireBits([a[0]]) == low && WireBits([a[1]]) == middle && WireBits([a[2]]) == high
    ensures WireBits(a) == low + (middle + high)
  {
    ThreeBytes(a[0], a[1], a[2]);
    assert a == [a[0], a[1], a[2]];
  }

  lemma XorQuiet(x: seq<bool>, y: seq<bool>)
    requires |x| == |y| && forall k :: 0 <= k < |y| ==> !y[k]
    ensures XorBits(x, y) == x
  {}

  /** Bits that start with a generator and go on quietly differ from quiet bits by the generator alone. */
  lemma OverZeros(poly: bv16, x: seq<bool>, y: seq<bool>, generator: seq<bool>, rest: seq<bool>)
    requires generator == Generator(poly) && x == generator + rest && |x| == |y|
    requires (forall k :: 0 <= k < |rest| ==> !rest[k]) && (forall k :: 0 <= k < |y| ==> !y[k])
    ensures GeneratorApart(poly, x, y, 0)
  {
    XorQuiet(x, y);
    assert x[0..17] == generator;
  }

  lemma ZeroBytes(zeros: seq<byte>)
    requires zeros == [0x00, 0x00, 0x00]
    ensures forall k :: 0 <= k < 24 ==> !WireBits(zeros)[k]
  {
    NoBits();
    ByteAlone(0x00, 0x00, QUIET);
    ThreeAlone(zeros, QUIET, QUIET, QUIET);
  }

  lemma NoBits()
    ensures ByteBits(0x00) == QUIET
  {}

  lemma TeltonikaBits(a: seq<byte>)
    requires a == [0x03, 0x40, 0x01]
    ensures WireBits(a) == [true, true, false, false, false, false, false, false]
                        + ([false, false, false, false, false, false, true, false] + FIRST)
  {
    var low, middle := [true, true, false, false, false, false, false, false], [false, false, false, false, false, false, true, false];
    assert ByteBits(0x03) == low && ByteBits(0x40) == middle && ByteBits(0x01) == FIRST;
    ByteAlone(0x03, 0x03, low);
    ByteAlone(0x40, 0x40, middle);
    ByteAlone(0x01, 0x01, FIRST);
    ThreeAlone(a, low, middle, FIRST);
  }

  lemma WanwayBits(a: seq<byte>)
    requires a == [0x11, 0x08, 0x01]
    ensures WireBits(a) == [true, false, false, false, true, false, false, false]
                        + ([false, false, false, true, false, false, false, false] + FIRST)
  {
    var low, middle := [true, false, false, false, true, false, false, false], [false, false, false, true, false, false, false, false];
    assert ByteBits(0x11) == low && ByteBits(0x08) == middle && ByteBits(0x01) == FIRST;
    ByteAlone(0x11, 0x11, low);
    ByteAlone(0x08, 0x08, middle);
    ByteAlone(0x01, 0x01, FIRST);
    ThreeAlone(a, low, middle, FIRST);
  }

  /** The same 24 bits, grouped as bytes and as a generator with seven quiet bits behind it. */
  lemma TeltonikaGroups()
    ensures [true, true, false, false, false, false, false, false] + ([false, false, false, false, false, false, true, false] + FIRST)
         == ([true] + (TELTONIKA_LOW + TELTONIKA_HIGH)) + QUIET[1..]
  {}

  lemma WanwayGroups()
    ensures [true, false, false, false, true, false, false, false] + ([false, false, false, true, false, false, false, false] + FIRST)
         == ([true] + (WANWAY_LOW + WANWAY_HIGH)) + QUIET[1..]
  {}

  lemma GeneratorBytes(a: seq<byte>, b: seq<byte>, zeros: seq<byte>)
    requires a == [0x03, 0x40, 0x01] && b == [0x11, 0x08, 0x01] && zeros == [0x00, 0x00, 0x00]
    ensures GeneratorApart(TELTONIKA_POLY, WireBits(a), WireBits(zeros), 0)
    ensures GeneratorApart(WANWAY_POLY, WireBits(b), WireBits(zeros), 0)
  {
    GeneratorBits();
    ZeroBytes(zeros);
    TeltonikaBits(a);
    TeltonikaGroups();
    OverZeros(TELTONIKA_POLY, WireBits(a), WireBits(zeros), Generator(TELTONIKA_POLY), QUIET[1..]);
    WanwayBits(b);
    WanwayGroups();
    OverZeros(WANWAY_POLY, WireBits(b), WireBits(zeros), Generator(WANWAY_POLY), QUIET[1..]);
  }

  lemma ZeroSum(x: bv16, y: bv16)
    ensures IsSum(x, y, 0) ==> x == y
  {}
}
