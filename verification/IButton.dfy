/** The text form of iButton and RFID numbers: hexadecimal, least significant byte first. */
module IButton {
  import opened Bytes
  import opened HexText

  function Reversed(b: seq<byte>): (r: seq<byte>)
    ensures |r| == |b| && forall i :: 0 <= i < |b| ==> r[i] == b[|b| - 1 - i]
  {
    if b == [] then [] else [b[|b| - 1]] + Reversed(b[..|b| - 1])
  }

  /** Swaps from both ends until the two indices meet. */
  method ReverseInPlace(b: array<byte>)
    modifies b
    ensures b[..] == Reversed(old(b[..]))
  {
    var i, j := 0, b.Length - 1;
    while i < j
      invariant 0 <= i <= b.Length && j == b.Length - 1 - i && i <= j + 1
      invariant forall k :: 0 <= k < i ==> b[k] == old(b[b.Length - 1 - k]) && b[b.Length - 1 - k] == old(b[k])
      invariant forall k :: i <= k <= j ==> b[k] == old(b[k])
    {
      b[i], b[j] := b[j], b[i];
      i, j := i + 1, j - 1;
    }
    assert forall k :: 0 <= k < b.Length ==> b[..][k] == old(b[..])[b.Length - 1 - k];
  }

  /** The number that bytes spell, least significant first. */
  function FromLE(b: seq<byte>): nat {
    if b == [] then 0 else b[0] + 256 * FromLE(b[1..])
  }

  lemma {:induction false} ReverseSwitchesOrder(b: seq<byte>)
    ensures FromLE(Reversed(b)) == FromBE(b)
  {
    if b != [] {
      ReverseSwitchesOrder(b[..|b| - 1]);
      assert Reversed(b)[1..] == Reversed(b[..|b| - 1]);
    }
  }

  /** Nothing for zero; otherwise 16 lower-case digits. */
  function Text(v: nat): seq<char> {
    if v == 0 then [] else Encode(Reversed(ToBE(v, 8)), Lower)
  }

  method ConvertDecimalToHexAndReverse(v: nat) returns (t: seq<char>)
    requires v < 0x1_0000_0000_0000_0000
    ensures t == Text(v)
  {
    if v == 0 {
      return [];
    }
    var hexStr := Print(v, 16, Upper);
    PrintIsEncode(v, 8, Upper);
    DecodeEncode(ToBE(v, 8), Upper);
    var decoded := Decode(hexStr);
    var hexBytes := new byte[|decoded.value|](i requires 0 <= i < |decoded.value| => decoded.value[i]);
    assert hexBytes[..] == ToBE(v, 8);
    ReverseInPlace(hexBytes);
    return Encode(hexBytes[..], Lower);
  }

  /** Zero has no text; that of any other number has 16 digits, and read back least significant byte first it is the number. */
  lemma TextReadsBack(v: nat)
    requires v < 0x1_0000_0000_0000_0000
    ensures |Text(v)| == (if v == 0 then 0 else 16) && Decode(Text(v)).Some? && FromLE(Decode(Text(v)).value) == v
  {
    BEWidths();
    DecodeEncode(Reversed(ToBE(v, 8)), Lower);
    ReverseSwitchesOrder(ToBE(v, 8));
    FromToBE(v, 8);
  }

  lemma ByteOfNumber(v: nat, n: nat, k: nat)
    requires k < n
    ensures ToBE(v, n)[n - 1 - k] == v / Pow256(k) % 256
  {
    if k > 0 {
      ByteOfNumber(v / 256, n - 1, k - 1);
      DivideTwice(v, Pow256(k - 1));
    }
  }

  lemma DivideTwice(v: nat, m: nat)
    requires m >= 1
    ensures v / 256 / m == v / (256 * m)
  {
    var q, r := v / 256 / m, v / 256 % m;
    assert v / 256 == q * m + r;
    assert v == q * (256 * m) + (256 * r + v % 256);
    assert 256 * r + v % 256 < 256 * m;
    QuotientIs(v, 256 * m, q, 256 * r + v % 256);
  }

  lemma QuotientIs(v: nat, m: nat, q: nat, r: nat)
    requires v == q * m + r && r < m
    ensures v / m == q
  {
    ModUnique(v, m, q, r);
    assert (v / m) * m == q * m;
  }

  /** Digit by digit: the two digits of each byte, the least significant byte first. */
  lemma TextDigits(v: nat, k: nat)
    requires v != 0 && k < 8
    ensures Text(v)[2 * k] == "0123456789abcdef"[v / Pow256(k) % 256 / 16]
    ensures Text(v)[2 * k + 1] == "0123456789abcdef"[v / Pow256(k) % 256 % 16]
  {
    EncodedByte(Reversed(ToBE(v, 8)), k);
    ByteOfNumber(v, 8, k);
  }

  /** Different numbers have different texts. */
  lemma TextInjective(a: nat, b: nat)
    requires a < 0x1_0000_0000_0000_0000 && b < 0x1_0000_0000_0000_0000
    ensures Text(a) == Text(b) <==> a == b
  {
    TextReadsBack(a);
    TextReadsBack(b);
  }
}
