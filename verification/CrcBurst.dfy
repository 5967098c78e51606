/** What the two checksums detect: every change confined to 16 consecutive wire bits. */
module CrcBurst {
  import opened Bytes
  import opened CrcDivision

  // ----- Differences propagate on their own -----

  function XorBits(a: seq<bool>, b: seq<bool>): (d: seq<bool>)
    requires |a| == |b|
    ensures |d| == |a| && forall k :: 0 <= k < |a| ==> d[k] == (a[k] != b[k])
  {
    if a == [] then [] else [a[0] != b[0]] + XorBits(a[1..], b[1..])
  }

  lemma FlipBoth(c: bv16, e: bv16, sum: bv16)
    requires IsSum(c, e, sum)
    ensures IsSum(c ^ 1, e ^ 1, sum)
  {}

  lemma FlipLeft(c: bv16, e: bv16, sum: bv16)
    requires IsSum(c, e, sum)
    ensures IsSum(c ^ 1, e, sum ^ 1)
  {}

  lemma FlipRight(c: bv16, e: bv16, sum: bv16)
    requires IsSum(c, e, sum)
    ensures IsSum(c, e ^ 1, sum ^ 1)
  {}

  lemma BitSum(poly: bv16, c: bv16, e: bv16, sum: bv16)
    requires IsSum(c, e, sum)
    ensures IsSum(Bit(poly, c), Bit(poly, e), Bit(poly, sum))
  {
    BitLinear(poly, c, e);
  }

  lemma ShiftSum(poly: bv16, c: bv16, e: bv16, sum: bv16, p: bool, q: bool)
    requires IsSum(c, e, sum)
    ensures IsSum(ShiftBit(poly, c, p), ShiftBit(poly, e, q), ShiftBit(poly, sum, p != q))
  {
    if p && q {
      FlipBoth(c, e, sum);
      BitSum(poly, c ^ 1, e ^ 1, sum);
    } else if p {
      FlipLeft(c, e, sum);
      BitSum(poly, c ^ 1, e, sum ^ 1);
    } else if q {
      FlipRight(c, e, sum);
      BitSum(poly, c, e ^ 1, sum ^ 1);
    } else {
      BitSum(poly, c, e, sum);
    }
  }

  /** The difference of two runs is the run of the difference. */
  lemma {:induction false} DifferenceRuns(poly: bv16, c: bv16, e: bv16, sum: bv16, a: seq<bool>, b: seq<bool>)
    requires |a| == |b| && IsSum(c, e, sum)
    ensures IsSum(BitSerial(poly, c, a), BitSerial(poly, e, b), BitSerial(poly, sum, XorBits(a, b)))
    decreases |a|
  {
    if a != [] {
      ShiftSum(poly, c, e, sum, a[0], b[0]);
      DifferenceRuns(poly, ShiftBit(poly, c, a[0]), ShiftBit(poly, e, b[0]), ShiftBit(poly, sum, a[0] != b[0]), a[1..], b[1..]);
    }
  }

  // ----- A nonzero difference never vanishes -----

  /** Polynomials whose step loses no information. */
  predicate Invertible(poly: bv16) {
    poly & 0x8000 != 0
  }

  lemma BitKeepsNonzero(poly: bv16, x: bv16)
    requires Invertible(poly)
    ensures Bit(poly, x) == 0 <==> x == 0
  {}

  lemma {:induction false} QuietRun(poly: bv16, c: bv16, quiet: seq<bool>)
    requires Invertible(poly) && forall k :: 0 <= k < |quiet| ==> !quiet[k]
    ensures BitSerial(poly, c, quiet) == 0 <==> c == 0
    decreases |quiet|
  {
    if quiet != [] {
      BitKeepsNonzero(poly, c);
      QuietRun(poly, Bit(poly, c), quiet[1..]);
    }
  }

  lemma {:induction false} IterateNonzero(poly: bv16, x: bv16, n: nat)
    requires Invertible(poly)
    ensures Iterate(poly, x, n) == 0 <==> x == 0
    decreases n
  {
    if n > 0 {
      BitKeepsNonzero(poly, x);
      IterateNonzero(poly, Bit(poly, x), n - 1);
    }
  }

  // ----- Up to sixteen bits fit the register -----

  /** The word whose low bits, least significant first, are `d`. */
  function Pack(d: seq<bool>): bv16
  {
    if d == [] then 0 else (Pack(d[1..]) << 1) | (if d[0] then 1 else 0)
  }

  ghost predicate Covers(y: bv16, t: bv16) {
    y & t == t
  }

  lemma CoversHalf(y: bv16, t: bv16)
    requires Covers(y, t)
    ensures Covers(y >> 1, t >> 1)
  {}

  lemma {:induction false} CoversRemaining(y: bv16, t: bv16, n: nat)
    requires Covers(y, t)
    ensures Covers(Remaining(y, n), Remaining(t, n))
    decreases n
  {
    if n > 0 {
      CoversHalf(y, t);
      CoversRemaining(y >> 1, t >> 1, n - 1);
    }
  }

  lemma {:induction false} RemainingAdds(y: bv16, m: nat, n: nat)
    ensures Remaining(y, m + n) == Remaining(Remaining(y, m), n)
    decreases m
  {
    if m > 0 {
      RemainingAdds(y >> 1, m - 1, n);
    }
  }

  lemma {:induction false} RemainingOfZero(n: nat)
    ensures Remaining(0, n) == 0
  {
    if n > 0 {
      RemainingOfZero(n - 1);
    }
  }

  lemma TopBitFree(y: bv16, n: nat)
    requires n < 16 && Remaining(y, n) == 0
    ensures y & 0x8000 == 0
  {
    if y & 0x8000 != 0 {
      assert Covers(y, 0x8000);
      CoversRemaining(y, 0x8000, n);
      assert Remaining(0x8000, n) == 0;
      RemainingAdds(0x8000, n, 15 - n);
      RemainingOfZero(15 - n);
      TopBitAfterFifteen();
    }
  }

  lemma TopBitAfterFifteen()
    ensures Remaining(0x8000, 15) == 1
  {
    assert Remaining(0x8000, 8) == 0x80 && Remaining(0x80, 7) == 1;
    RemainingAdds(0x8000, 8, 7);
  }

  lemma PushLow(p: bv16, bit: bool)
    requires p & 0x8000 == 0
    ensures ((p << 1) | (if bit then 1 else 0)) >> 1 == p
    ensures ((p << 1) | (if bit then 1 else 0)) & 1 == 1 <==> bit
  {}

  lemma PackOne(p: bv16, w: bv16, bit: bool, rest: seq<bool>, n: nat)
    requires w >> 1 == p && (w & 1 == 1 <==> bit)
    requires WordBits(p, n) == rest && Remaining(p, n) == 0
    ensures WordBits(w, n + 1) == [bit] + rest && Remaining(w, n + 1) == 0
  {}

  lemma {:induction false} PackFits(d: seq<bool>)
    requires |d| <= 16
    ensures WordBits(Pack(d), |d|) == d && Remaining(Pack(d), |d|) == 0
  {
    if d != [] {
      var p := Pack(d[1..]);
      PackFits(d[1..]);
      TopBitFree(p, |d| - 1);
      PushLow(p, d[0]);
      PackOne(p, Pack(d), d[0], d[1..], |d| - 1);
      assert d == [d[0]] + d[1..];
    }
  }

  lemma {:induction false} ZeroWord(n: nat)
    ensures forall k :: 0 <= k < n ==> !WordBits(0, n)[k]
  {
    if n > 0 {
      ZeroWord(n - 1);
      assert (0 as bv16) >> 1 == 0;
    }
  }

  /** A burst of at most sixteen bits, not all quiet, leaves a trace in an empty register. */
  lemma BurstLeavesTrace(poly: bv16, d: seq<bool>)
    requires Invertible(poly) && |d| <= 16
    requires exists k :: 0 <= k < |d| && d[k]
    ensures BitSerial(poly, 0, d) != 0
  {
    PackFits(d);
    FeedWord(poly, 0, Pack(d), |d|);
    XorSwap(0, Pack(d));
    XorZero(Pack(d));
    if Pack(d) == 0 {
      ZeroWord(|d|);
    }
    IterateNonzero(poly, Pack(d), |d|);
  }

  // ----- Detection -----

  /** Two bit strings of one length that differ, but only at positions `lo` to `lo + 15`. */
  ghost predicate DifferInWindow(a: seq<bool>, b: seq<bool>, lo: nat) {
    && |a| == |b|
    && a != b
    && forall k :: 0 <= k < |a| && !(lo <= k < lo + 16) ==> a[k] == b[k]
  }

  /** The difference of two such strings is a burst between two quiet stretches. */
  lemma WindowParts(a: seq<bool>, b: seq<bool>, lo: nat) returns (hi: nat)
    requires DifferInWindow(a, b, lo)
    ensures lo <= hi <= |a| && hi - lo <= 16
    ensures var d := XorBits(a, b);
      && (forall k :: 0 <= k < lo ==> !d[k]) && (forall k :: hi <= k < |d| ==> !d[k])
      && exists k :: lo <= k < hi && d[k]
  {
    var k :| 0 <= k < |a| && a[k] != b[k];
    hi := if lo + 16 < |a| then lo + 16 else |a|;
    assert lo <= k < hi && XorBits(a, b)[k];
  }

  lemma BitSerialDetects(poly: bv16, c: bv16, a: seq<bool>, b: seq<bool>, lo: nat)
    requires Invertible(poly) && DifferInWindow(a, b, lo)
    ensures BitSerial(poly, c, a) != BitSerial(poly, c, b)
  {
    var d := XorBits(a, b);
    var hi := WindowParts(a, b, lo);
    BurstAlone(poly, d, lo, hi);
    SelfSum(c);
    DifferenceRuns(poly, c, c, 0, a, b);
    SelfSum(BitSerial(poly, c, a));
  }

  lemma BurstAlone(poly: bv16, d: seq<bool>, lo: nat, hi: nat)
    requires Invertible(poly) && lo <= hi <= |d| && hi - lo <= 16 && exists k :: lo <= k < hi && d[k]
    requires (forall k :: 0 <= k < lo ==> !d[k]) && (forall k :: hi <= k < |d| ==> !d[k])
    ensures BitSerial(poly, 0, d) != 0
  {
    var burst := d[lo..hi];
    var k :| lo <= k < hi && d[k];
    assert burst[k - lo];
    BurstLeavesTrace(poly, burst);
    QuietRun(poly, 0, d[..lo]);
    QuietRun(poly, BitSerial(poly, 0, burst), d[hi..]);
    assert d == d[..lo] + (burst + d[hi..]);
    BitSerialAppend(poly, 0, d[..lo], burst + d[hi..]);
    BitSerialAppend(poly, 0, burst, d[hi..]);
  }

  lemma SelfSum(c: bv16)
    ensures IsSum(c, c, 0)
  {}

  lemma EqualLowBits(x: bv16, y: bv16, half: bv16)
    requires x & 1 == 1 <==> y & 1 == 1
    requires x >> 1 == half && y >> 1 == half
    ensures x == y
  {}

  /** The low bit of a word, and the rest of it. */
  lemma WordParts(x: bv16, n: nat)
    requires n > 0
    ensures WordBits(x, n)[0] <==> x & 1 == 1
    ensures WordBits(x, n)[1..] == WordBits(x >> 1, n - 1) && Remaining(x, n) == Remaining(x >> 1, n - 1)
  {}

  lemma {:induction false} WordBitsInjective(x: bv16, y: bv16, n: nat)
    requires WordBits(x, n) == WordBits(y, n)
    requires Remaining(x, n) == 0 && Remaining(y, n) == 0
    ensures x == y
    decreases n
  {
    if n > 0 {
      WordParts(x, n);
      WordParts(y, n);
      var left, right := x >> 1, y >> 1;
      WordBitsInjective(left, right, n - 1);
      EqualLowBits(x, y, left);
    }
  }

  lemma ByteBitsInjective(x: bv16, y: bv16)
    requires x < 256 && y < 256 && ByteBits(x) == ByteBits(y)
    ensures x == y
  {
    ByteAsWord(x);
    ByteAsWord(y);
    WordBitsInjective(x, y, 8);
  }

  lemma NextWord(w: bv16)
    requires w < 0x100
    ensures (w + 1) as int == w as int + 1
  {}

  /** The word that holds `x`, counted up from zero. */
  function CountTo(x: nat): (w: bv16)
    requires x < 256
    ensures w as int == x
  {
    if x == 0 then 0 else NextWord(CountTo(x - 1)); CountTo(x - 1) + 1
  }

  lemma WordRoundTrip(w: bv16)
    ensures (w as int) as bv16 == w
  {}

  lemma ByteValue(x: byte)
    ensures (x as bv16) as int == x
  {
    WordRoundTrip(CountTo(x));
  }

  lemma SameByte(x: byte, y: byte)
    requires x as bv16 == y as bv16
    ensures x == y
  {
    ByteValue(x);
    ByteValue(y);
  }

  lemma {:induction false} WireBitsInjective(a: seq<byte>, b: seq<byte>)
    requires |a| == |b| && WireBits(a) == WireBits(b)
    ensures a == b
  {
    if a != [] {
      assert WireBits(a)[..8] == ByteBits(a[0] as bv16);
      assert WireBits(b)[..8] == ByteBits(b[0] as bv16);
      ByteBitsInjective(a[0] as bv16, b[0] as bv16);
      SameByte(a[0], b[0]);
      assert WireBits(a)[8..] == WireBits(a[1..]);
      assert WireBits(b)[8..] == WireBits(b[1..]);
      WireBitsInjective(a[1..], b[1..]);
    }
  }

  /** Two buffers of one length that differ, but only inside 16 consecutive wire bits. */
  ghost predicate BurstApart(a: seq<byte>, b: seq<byte>, lo: nat) {
    && |a| == |b|
    && a != b
    && forall k :: 0 <= k < 8 * |a| && !(lo <= k < lo + 16) ==> WireBits(a)[k] == WireBits(b)[k]
  }

  /** Both checksums detect every burst of at most 16 bits, in buffers of any length. */
  lemma BurstDetected(a: seq<byte>, b: seq<byte>, lo: nat)
    requires BurstApart(a, b, lo)
    ensures Teltonika(a) != Teltonika(b)
    ensures Wanway(a) != Wanway(b)
  {
    if WireBits(a) == WireBits(b) {
      WireBitsInjective(a, b);
    }
    BitSerialDetects(TELTONIKA_POLY, 0, WireBits(a), WireBits(b), lo);
    BitSerialDetects(WANWAY_POLY, 0xffff, WireBits(a), WireBits(b), lo);
    ComplementInjective(WanwayRegister(a), WanwayRegister(b));
  }

  lemma ComplementInjective(x: bv16, y: bv16)
    ensures Complement(x) == Complement(y) <==> x == y
  {}
}
