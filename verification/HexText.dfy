/** Hexadecimal text: printing numbers, encoding and decoding bytes. */
module HexText {
  import opened Bytes

  datatype Case = Lower | Upper

  function Digit(n: nat, letters: Case): char
    requires n < 16
  {
    if n < 10 then ('0' as nat + n) as char
    else if letters.Lower? then ('a' as nat + n - 10) as char
    else ('A' as nat + n - 10) as char
  }

  /** Two digits for each byte. */
  function Encode(b: seq<byte>, letters: Case): (t: seq<char>)
    ensures |t| == 2 * |b|
  {
    if b == [] then [] else [Digit(b[0] / 16, letters), Digit(b[0] % 16, letters)] + Encode(b[1..], letters)
  }

  lemma DigitIs(n: nat, letters: Case)
    requires n < 16
    ensures Digit(n, letters) == (if letters.Lower? then "0123456789abcdef"[n] else "0123456789ABCDEF"[n])
  {}

  /** Each byte in its two digits, the high one first. */
  lemma {:induction false} EncodedByte(b: seq<byte>, k: nat)
    requires k < |b|
    ensures Encode(b, Lower)[2 * k] == "0123456789abcdef"[b[k] / 16]
    ensures Encode(b, Lower)[2 * k + 1] == "0123456789abcdef"[b[k] % 16]
  {
    if k == 0 {
      DigitIs(b[0] / 16, Lower);
      DigitIs(b[0] % 16, Lower);
    } else {
      EncodedByte(b[1..], k - 1);
      assert b[1..][k - 1] == b[k];
    }
  }

  function DigitValue(c: char): (r: Option<nat>)
    ensures r.Some? ==> r.value < 16
  {
    if '0' <= c <= '9' then Some(c as nat - '0' as nat)
    else if 'a' <= c <= 'f' then Some(c as nat - 'a' as nat + 10)
    else if 'A' <= c <= 'F' then Some(c as nat - 'A' as nat + 10)
    else None
  }

  /** hex.DecodeString: both cases of digits, an even number of them, nothing else. */
  function Decode(t: seq<char>): (r: Option<seq<byte>>)
    decreases |t|
  {
    if t == [] then Some([])
    else if |t| == 1 then None
    else
      var hi, lo, rest := DigitValue(t[0]), DigitValue(t[1]), Decode(t[2..]);
      if hi.None? || lo.None? || rest.None? then None
      else Some([16 * hi.value + lo.value] + rest.value)
  }

  lemma DigitReadsBack(n: nat, letters: Case)
    requires n < 16
    ensures DigitValue(Digit(n, letters)) == Some(n)
  {}

  lemma DecodePair(hi: char, lo: char, rest: seq<char>, b: byte, bs: seq<byte>)
    requires DigitValue(hi) == Some(b / 16) && DigitValue(lo) == Some(b % 16) && Decode(rest) == Some(bs)
    ensures Decode([hi, lo] + rest) == Some([b] + bs)
  {
    var t := [hi, lo] + rest;
    assert t[0] == hi && t[1] == lo && t[2..] == rest;
  }

  /** Decoding what was encoded gives the bytes back. */
  lemma {:induction false} DecodeEncode(b: seq<byte>, letters: Case)
    ensures Decode(Encode(b, letters)) == Some(b)
  {
    if b != [] {
      var hi, lo := Digit(b[0] / 16, letters), Digit(b[0] % 16, letters);
      DigitReadsBack(b[0] / 16, letters);
      DigitReadsBack(b[0] % 16, letters);
      DecodeEncode(b[1..], letters);
      DecodePair(hi, lo, Encode(b[1..], letters), b[0], b[1..]);
      assert b == [b[0]] + b[1..];
    }
  }

  /** The last `n` hexadecimal digits of a number. */
  function Print(v: nat, n: nat, letters: Case): (t: seq<char>)
    ensures |t| == n
  {
    if n == 0 then [] else Print(v / 16, n - 1, letters) + [Digit(v % 16, letters)]
  }

  lemma {:induction false} EncodePush(b: seq<byte>, x: byte, letters: Case)
    ensures Encode(b + [x], letters) == Encode(b, letters) + [Digit(x / 16, letters), Digit(x % 16, letters)]
  {
    if b == [] {
      assert [] + [x] == [x] && [x][1..] == [];
    } else {
      EncodePush(b[1..], x, letters);
      assert (b + [x])[1..] == b[1..] + [x];
    }
  }

  lemma PrintTwo(v: nat, n: nat, letters: Case)
    ensures Print(v, n + 2, letters)
         == Print(v / 256, n, letters) + [Digit(v % 256 / 16, letters), Digit(v % 256 % 16, letters)]
  {}

  /** Printing a number is encoding its bytes, most significant first. */
  lemma {:induction false} PrintIsEncode(v: nat, n: nat, letters: Case)
    ensures Print(v, 2 * n, letters) == Encode(ToBE(v, n), letters)
    decreases n
  {
    if n > 0 {
      PrintIsEncode(v / 256, n - 1, letters);
      EncodePush(ToBE(v / 256, n - 1), v % 256, letters);
      PrintTwo(v, 2 * n - 2, letters);
    }
  }
}
