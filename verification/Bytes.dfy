/** Bytes, the error values the receiver distinguishes, and big-endian integers. */
module Bytes {

  type byte = x: int | 0 <= x < 256

  /** The error values that decide what a caller does next. */
  datatype Error =
    | EOF                    // io.EOF, exactly
    | UnexpectedEOF          // io.ErrUnexpectedEOF
    | Timeout                // a read that ran into its deadline
    | Network                // any other failed read on the connection
    | ReadTimeout            // the error consumeMessage makes of a Timeout
    | WriteFailed            // a failed write on the connection
    | Wrapped(cause: Error)  // an error wrapped with context; no longer equal to its cause
    | UnknownProtocol
    | UnknownDeviceType
    | UnauthorizedDevice
    | BadCrc
    | BadDataPacket
    | InvalidLogin
    | InvalidVoltageLevel
    | InvalidSignalStrength
    | InvalidHeartbeat
    | UnsupportedMessage
    | InvalidFormat
    | CommandTooLarge

  datatype Option<+T> = None | Some(value: T)

  datatype Result<+T> = Success(value: T) | Failure(error: Error)

  function Pow256(n: nat): (r: nat)
    ensures r >= 1
  {
    if n == 0 then 1 else 256 * Pow256(n - 1)
  }

  /** The unsigned number that `b` spells, most significant byte first. */
  function FromBE(b: seq<byte>): (v: nat)
  {
    if b == [] then 0 else FromBE(b[..|b| - 1]) * 256 + b[|b| - 1]
  }

  /** `v` in `n` bytes, most significant first; higher bytes are cut off. */
  function ToBE(v: nat, n: nat): (b: seq<byte>)
    ensures |b| == n
  {
    if n == 0 then [] else ToBE(v / 256, n - 1) + [v % 256]
  }

  lemma {:induction false} FromBEBound(b: seq<byte>)
    ensures FromBE(b) < Pow256(|b|)
  {
    if b != [] {
      FromBEBound(b[..|b| - 1]);
    }
  }

  /** Reading what was written gives the number back, as long as it fits. */
  lemma {:induction false} FromToBE(v: nat, n: nat)
    requires v < Pow256(n)
    ensures FromBE(ToBE(v, n)) == v
  {
    if n > 0 {
      FromToBE(v / 256, n - 1);
      assert ToBE(v, n)[..n - 1] == ToBE(v / 256, n - 1);
    }
  }

  /** Writing what was read gives the bytes back. */
  lemma {:induction false} ToFromBE(b: seq<byte>)
    ensures ToBE(FromBE(b), |b|) == b
  {
    if b != [] {
      ToFromBE(b[..|b| - 1]);
      assert b == b[..|b| - 1] + [b[|b| - 1]];
    }
  }

  lemma BEWidths()
    ensures Pow256(1) == 0x100 && Pow256(2) == 0x1_0000
    ensures Pow256(4) == 0x1_0000_0000 && Pow256(8) == 0x1_0000_0000_0000_0000
  {
    assert Pow256(3) == 0x100_0000 && Pow256(4) == 0x1_0000_0000;
    assert Pow256(6) == 0x1_0000_0000_0000;
  }

  lemma ModStep(v: nat, m: nat)
    requires m >= 1
    ensures (v / 256 % m) * 256 + v % 256 == v % (256 * m)
  {
    var q, r := v / 256 / m, v / 256 % m;
    assert v / 256 == q * m + r;
    assert v == 256 * (q * m + r) + v % 256;
    assert v == q * (256 * m) + (r * 256 + v % 256);
    assert r * 256 + v % 256 < 256 * m;
    ModUnique(v, 256 * m, q, r * 256 + v % 256);
  }

  lemma MulMonotone(a: nat, b: nat, m: nat)
    requires a <= b
    ensures a * m <= b * m
  {}

  lemma ModUnique(v: nat, m: nat, q: nat, r: nat)
    requires v == q * m + r && r < m
    ensures v % m == r
  {
    var quotient := v / m;
    assert v == quotient * m + v % m;
    if q > quotient {
      MulMonotone(quotient + 1, q, m);
      assert false;
    }
    if q < quotient {
      MulMonotone(q + 1, quotient, m);
      assert false;
    }
  }

  /** Writing a number that does not fit and reading it back gives its remainder. */
  lemma {:induction false} FromToBEWraps(v: nat, n: nat)
    ensures FromBE(ToBE(v, n)) == v % Pow256(n)
  {
    if n > 0 {
      FromToBEWraps(v / 256, n - 1);
      assert ToBE(v, n)[..n - 1] == ToBE(v / 256, n - 1);
      ModStep(v, Pow256(n - 1));
    }
  }

  lemma OneByte(x: byte)
    ensures ToBE(x, 1) == [x]
  {}

  /** Small numbers have zeros in front. */
  lemma {:induction false} ZerosInFront(v: nat)
    requires v < 0x1_0000
    ensures ToBE(v, 4) == [0, 0] + ToBE(v, 2)
  {
    assert v / 256 / 256 == 0;
    assert ToBE(v, 4) == ToBE(v / 256 / 256, 2) + [v / 256 % 256] + [v % 256];
    assert ToBE(0, 2) == [0, 0];
    assert ToBE(v, 2) == ToBE(v / 256, 1) + [v % 256];
    assert ToBE(v / 256, 1) == [v / 256 % 256];
  }

  /** 32 bits as a two's complement number, and the bits of a number that has 32. */
  function Signed32(v: nat): int {
    if v < 0x8000_0000 then v else v - 0x1_0000_0000
  }

  function Unsigned32(i: int): nat {
    if -0x8000_0000 <= i < 0 then i + 0x1_0000_0000 else if i < 0 then 0 else i
  }

  /** The bits of a 32-bit number are the number modulo 2^32. */
  lemma TwosComplement(i: int)
    requires -0x8000_0000 <= i < 0x8000_0000
    ensures Unsigned32(i) == i % 0x1_0000_0000 && Signed32(i % 0x1_0000_0000) == i
  {}

  /** Two bytes of a number that fits them. */
  lemma TwoBytesOf(v: nat)
    requires v < 0x1_0000
    ensures ToBE(v, 2) == [v / 256, v % 256]
  {
    assert ToBE(v / 256, 1) == [] + [v / 256 % 256];
  }

  /** Bytes as the characters of a string. */
  function Chars(b: seq<byte>): (s: seq<char>)
    ensures |s| == |b| && forall i :: 0 <= i < |s| ==> s[i] == b[i] as char
  {
    seq(|b|, i requires 0 <= i < |b| => b[i] as char)
  }

  lemma Regroup<T>(a: seq<T>, b: seq<T>, c: seq<T>)
    ensures (a + b) + c == a + (b + c)
  {}
}
