/**
 The Aquila OBDII2G protocol: a login that looks for commas in the first 40 bytes without taking
 them, and a stream of comma-separated lines.
 */
module Obdii2g {
  import opened Bytes
  import opened Streams

  const COMMA: byte := 0x2c
  const NEWLINE: byte := 0x0a
  const DOLLAR: byte := 0x24

  // ----- Searching and splitting -----

  /** The first place of `c` in `b`, or -1. */
  function IndexByte(b: seq<byte>, c: byte): (i: int)
    ensures -1 <= i < |b|
    ensures i >= 0 ==> b[i] == c
    ensures forall j :: 0 <= j < (if i >= 0 then i else |b|) ==> b[j] != c
  {
    if b == [] then -1
    else if b[0] == c then 0
    else
      var rest := IndexByte(b[1..], c);
      assert forall j :: 0 < j < |b| ==> b[j] == b[1..][j - 1];
      if rest < 0 then -1 else rest + 1
  }

  /** strings.Split: the parts between separators; there is always one more part than separators. */
  function Split(b: seq<byte>, c: byte): (fields: seq<seq<byte>>)
    ensures |fields| >= 1
    decreases |b|
  {
    var i := IndexByte(b, c);
    if i < 0 then [b] else [b[..i]] + Split(b[i + 1..], c)
  }

  function Join(fields: seq<seq<byte>>, c: byte): seq<byte>
    requires |fields| >= 1
  {
    if |fields| == 1 then fields[0] else fields[0] + [c] + Join(fields[1..], c)
  }

  predicate NoneIn(b: seq<byte>, c: byte) {
    forall k :: 0 <= k < |b| ==> b[k] != c
  }

  predicate NoneInAny(fields: seq<seq<byte>>, c: byte) {
    forall k :: 0 <= k < |fields| ==> NoneIn(fields[k], c)
  }

  lemma JoinCons(field: seq<byte>, rest: seq<seq<byte>>, c: byte)
    requires rest != []
    ensures Join([field] + rest, c) == field + [c] + Join(rest, c)
  {
    assert ([field] + rest)[1..] == rest;
  }

  /** Splitting loses nothing. */
  lemma {:induction false} SplitJoin(b: seq<byte>, c: byte)
    ensures Join(Split(b, c), c) == b
    decreases |b|
  {
    var i := IndexByte(b, c);
    if i >= 0 {
      SplitJoin(b[i + 1..], c);
      JoinCons(b[..i], Split(b[i + 1..], c), c);
      assert b == b[..i] + [c] + b[i + 1..];
    }
  }

  lemma NoneInCons(field: seq<byte>, rest: seq<seq<byte>>, c: byte)
    requires NoneIn(field, c) && NoneInAny(rest, c)
    ensures NoneInAny([field] + rest, c)
  {
    assert forall k :: 0 < k < |rest| + 1 ==> ([field] + rest)[k] == rest[k - 1];
  }

  /** And no part has a separator in it. */
  lemma {:induction false} SplitParts(b: seq<byte>, c: byte)
    ensures NoneInAny(Split(b, c), c)
    decreases |b|
  {
    var i := IndexByte(b, c);
    if i >= 0 {
      SplitParts(b[i + 1..], c);
      NoneInCons(b[..i], Split(b[i + 1..], c), c);
    } else {
      NoneInCons(b, [], c);
    }
  }

  lemma IndexIs(b: seq<byte>, c: byte, i: int)
    requires 0 <= i < |b| && b[i] == c && forall k :: 0 <= k < i ==> b[k] != c
    ensures IndexByte(b, c) == i
  {}

  lemma SplitCons(field: seq<byte>, rest: seq<byte>, c: byte)
    requires NoneIn(field, c)
    ensures Split(field + [c] + rest, c) == [field] + Split(rest, c)
  {
    var b, i := field + [c] + rest, |field|;
    IndexIs(b, c, i);
    assert b[..i] == field && b[i + 1..] == rest;
  }

  /** Parts without separators are what their join splits into. */
  lemma {:induction false} JoinSplit(fields: seq<seq<byte>>, c: byte)
    requires |fields| >= 1 && NoneInAny(fields, c)
    ensures Split(Join(fields, c), c) == fields
    decreases |fields|
  {
    assert NoneIn(fields[0], c);
    if |fields| > 1 {
      JoinSplit(fields[1..], c);
      SplitCons(fields[0], Join(fields[1..], c), c);
      assert fields == [fields[0]] + fields[1..];
    } else {
      assert fields == [fields[0]];
    }
  }

  // ----- Login -----

  /** What stands between the first two commas is the IMEI, if they are 15 bytes apart. */
  function ImeiIn(peeked: seq<byte>): Login
    requires |peeked| >= 2
  {
    var first := IndexByte(peeked[2..], COMMA) + 2;
    if first < 2 then LoginFailed(InvalidFormat) else
      var second := IndexByte(peeked[first + 1..], COMMA) + first + 1;
      if second <= first || second - first - 1 != 15 then LoginFailed(InvalidFormat)
      else LoggedIn(Chars(peeked[first + 1..second]), [], 0)
  }

  /** The IMEI of a "$$" header is looked for in the first 40 bytes. Nothing is taken from the stream. */
  function LoginAt(s: Source, p: nat): Login {
    if p + 2 > |s.data| then LoginFailed(Wrapped(s.end))
    else if s.data[p..p + 2] != [DOLLAR, DOLLAR] then LoginFailed(UnknownProtocol)
    else if p + 40 > |s.data| then LoginFailed(Wrapped(s.end))
    else ImeiIn(s.data[p..p + 40])
  }

  // ----- Lines -----

  /** ReadString: up to and with the next newline; without one, the rest of the stream is lost. */
  function LineAt(s: Source, p: nat): (r: Parsed<seq<byte>>)
    ensures r.Ok? ==> p < r.next <= |s.data| && r.value == s.data[p..r.next] && r.value[|r.value| - 1] == NEWLINE
    ensures r.Ok? ==> NEWLINE !in r.value[..|r.value| - 1]
  {
    if p > |s.data| then Fail(s.end) else
      var i := IndexByte(s.data[p..], NEWLINE);
      if i < 0 then Fail(s.end)
      else
        assert s.data[p..p + i + 1][..i] == s.data[p..][..i];
        Ok(s.data[p..p + i + 1], p + i + 1)
  }

  /** A parsed line; `Packet.imei` is its second field. */
  datatype Packet = Packet(imei: seq<byte>, fields: seq<seq<byte>>)

  /** At least 22 fields, of which the sixth is a time by `isTime`. */
  function ParsePacket(line: seq<byte>, isTime: seq<byte> -> bool): Result<Packet> {
    var fields := Split(line, COMMA);
    if |fields| < 22 then Failure(InvalidFormat)
    else if !isTime(fields[5]) then Failure(InvalidFormat)
    else Success(Packet(fields[1], fields))
  }

  // ----- The two parsers agree -----

  /** The first two separators of `b`. */
  predicate FirstTwo(b: seq<byte>, c: byte, i: nat, j: nat) {
    i < j < |b| && b[i] == c && b[j] == c && forall k :: 0 <= k < j && k != i ==> b[k] != c
  }

  lemma FirstTwoUnique(b: seq<byte>, c: byte, i: nat, j: nat, k: nat, l: nat)
    requires FirstTwo(b, c, i, j) && FirstTwo(b, c, k, l)
    ensures i == k && j == l
  {}

  lemma FirstTwoOfPrefix(b: seq<byte>, prefix: seq<byte>, c: byte, i: nat, j: nat)
    requires prefix <= b && FirstTwo(prefix, c, i, j)
    ensures FirstTwo(b, c, i, j) && prefix[i + 1..j] == b[i + 1..j]
  {
    assert forall k :: 0 <= k < |prefix| ==> prefix[k] == b[k];
  }

  lemma FoundTwo(b: seq<byte>, c: byte, from: nat) returns (i: nat, j: nat)
    requires from <= |b| && (forall k :: 0 <= k < from ==> b[k] != c)
    requires IndexByte(b[from..], c) >= 0 && IndexByte(b[from + IndexByte(b[from..], c) + 1..], c) >= 0
    ensures i == from + IndexByte(b[from..], c) && j == i + 1 + IndexByte(b[i + 1..], c)
    ensures FirstTwo(b, c, i, j)
  {
    i := from + IndexByte(b[from..], c);
    j := i + 1 + IndexByte(b[i + 1..], c);
    forall k | 0 <= k < j && k != i
      ensures b[k] != c
    {
      if from <= k < i {
        assert b[k] == b[from..][k - from];
      } else if i < k {
        assert b[k] == b[i + 1..][k - i - 1];
      }
    }
  }

  lemma SplitOnce(b: seq<byte>, c: byte)
    requires |Split(b, c)| >= 2
    ensures IndexByte(b, c) >= 0
    ensures Split(b, c)[0] == b[..IndexByte(b, c)] && Split(b, c)[1..] == Split(b[IndexByte(b, c) + 1..], c)
  {}

  /** The second of at least three fields stands between the first two separators. */
  lemma SecondField(b: seq<byte>, c: byte) returns (i: nat, j: nat)
    requires |Split(b, c)| >= 3
    ensures FirstTwo(b, c, i, j) && Split(b, c)[1] == b[i + 1..j]
  {
    SplitOnce(b, c);
    var k := IndexByte(b, c);
    SplitOnce(b[k + 1..], c);
    i, j := TwoFound(b, c, k, IndexByte(b[k + 1..], c));
    Between(b, i, j);
  }

  lemma Between(b: seq<byte>, i: nat, j: nat)
    requires i < j <= |b|
    ensures b[i + 1..][..j - i - 1] == b[i + 1..j]
  {}

  lemma TwoFound(b: seq<byte>, c: byte, k: nat, l: nat) returns (i: nat, j: nat)
    requires k == IndexByte(b, c) && l == IndexByte(b[k + 1..], c)
    ensures i == k && j == k + 1 + l && FirstTwo(b, c, i, j)
  {
    assert b[0..] == b;
    i, j := FoundTwo(b, c, 0);
  }

  /** The first two commas of what a successful login peeked, fifteen bytes apart. */
  lemma CommasIn(peeked: seq<byte>) returns (i: nat, j: nat)
    requires |peeked| >= 2 && ImeiIn(peeked).LoggedIn? && peeked[0] != COMMA && peeked[1] != COMMA
    ensures FirstTwo(peeked, COMMA, i, j) && i >= 2 && j == i + 16
    ensures ImeiIn(peeked) == LoggedIn(Chars(peeked[i + 1..j]), [], 0)
  {
    i, j := FoundTwo(peeked, COMMA, 2);
  }

  lemma Prefixes(data: seq<byte>, p: nat, n: nat, k: nat)
    requires k <= n && p + n <= |data|
    ensures data[p..p + k] == data[p..p + n][..k]
  {}

  lemma LoginCommas(s: Source, p: nat) returns (i: nat, j: nat)
    requires LoginAt(s, p).LoggedIn?
    ensures p + 40 <= |s.data| && s.data[p..p + 40][..2] == [0x24, 0x24]
    ensures FirstTwo(s.data[p..p + 40], COMMA, i, j) && i >= 2 && j == i + 16
    ensures LoginAt(s, p) == LoggedIn(Chars(s.data[p..p + 40][i + 1..j]), [], 0)
  {
    var peeked := s.data[p..p + 40];
    Prefixes(s.data, p, 40, 2);
    assert peeked[0] == peeked[..2][0] && peeked[1] == peeked[..2][1];
    i, j := CommasIn(peeked);
  }

  // ----- Which streams log in -----

  /** "$$", a client, a comma, fifteen bytes, a comma, all within forty bytes, and no other comma. */
  predicate LoginText(s: Source, p: nat, client: seq<byte>, b: seq<byte>) {
    && At(s, p, [0x24, 0x24] + client + [0x2c] + b + [0x2c])
    && NoneIn(client, 0x2c) && NoneIn(b, 0x2c) && |b| == 15 && |client| + 19 <= 40
  }

  lemma TextParts(text: seq<byte>, client: seq<byte>, b: seq<byte>)
    requires text == [0x24, 0x24] + client + [0x2c] + b + [0x2c]
    ensures |text| == |client| + |b| + 4 && text[..2] == [0x24, 0x24] && text[2 + |client|] == 0x2c
    ensures text[2..2 + |client|] == client && text[3 + |client|..3 + |client| + |b|] == b && text[3 + |client| + |b|] == 0x2c
  {}

  lemma FoundAt(b: seq<byte>, part: seq<byte>, c: byte)
    requires |part| < |b| && b[..|part|] == part && b[|part|] == c && NoneIn(part, c)
    ensures IndexByte(b, c) == |part|
  {
    assert forall k :: 0 <= k < |part| ==> b[k] == part[k];
    IndexIs(b, c, |part|);
  }

  lemma InPrefix(b: seq<byte>, text: seq<byte>, lo: nat, hi: nat)
    requires text <= b && lo <= hi < |text|
    ensures b[lo..][..hi - lo] == text[lo..hi] && b[lo..][hi - lo] == text[hi] && b[lo..hi] == text[lo..hi]
  {}

  lemma ImeiFound(peeked: seq<byte>, text: seq<byte>, client: seq<byte>, b: seq<byte>)
    requires text == [0x24, 0x24] + client + [0x2c] + b + [0x2c] && text <= peeked
    requires NoneIn(client, 0x2c) && NoneIn(b, 0x2c) && |b| == 15
    ensures ImeiIn(peeked) == LoggedIn(Chars(b), [], 0)
  {
    var first := 2 + |client|;
    TextParts(text, client, b);
    InPrefix(peeked, text, 2, first);
    FoundAt(peeked[2..], client, COMMA);
    InPrefix(peeked, text, first + 1, first + 16);
    FoundAt(peeked[first + 1..], b, COMMA);
  }

  lemma LoginFrom(s: Source, p: nat, client: seq<byte>, b: seq<byte>, text: seq<byte>)
    requires p + 40 <= |s.data| && LoginText(s, p, client, b) && text == [0x24, 0x24] + client + [0x2c] + b + [0x2c]
    ensures LoginAt(s, p) == LoggedIn(Chars(b), [], 0)
  {
    TextParts(text, client, b);
    Prefixes(s.data, p, 40, |text|);
    Prefixes(s.data, p, |text|, 2);
    ImeiFound(s.data[p..p + 40], text, client, b);
  }

  lemma Pieces(b: seq<byte>, i: nat, j: nat)
    requires 2 <= i < j < |b|
    ensures b[..j + 1] == b[..2] + b[2..i] + [b[i]] + b[i + 1..j] + [b[j]]
  {}

  lemma NoneBetween(b: seq<byte>, c: byte, i: nat, j: nat)
    requires FirstTwo(b, c, i, j) && i >= 2
    ensures NoneIn(b[2..i], c) && NoneIn(b[i + 1..j], c)
  {}

  lemma LoginOnly(s: Source, p: nat) returns (client: seq<byte>, b: seq<byte>)
    requires LoginAt(s, p).LoggedIn?
    ensures p + 40 <= |s.data| && LoginText(s, p, client, b) && LoginAt(s, p) == LoggedIn(Chars(b), [], 0)
  {
    var i, j := LoginCommas(s, p);
    var peeked := s.data[p..p + 40];
    client, b := peeked[2..i], peeked[i + 1..j];
    NoneBetween(peeked, COMMA, i, j);
    Pieces(peeked, i, j);
    Prefixes(s.data, p, 40, j + 1);
  }

  /** A stream logs in exactly if it starts like that; the id is the fifteen bytes, nothing is answered and nothing skipped. */
  lemma LoginIff(s: Source, p: nat, id: seq<char>, ack: seq<byte>, skip: nat)
    ensures LoginAt(s, p) == LoggedIn(id, ack, skip)
       <==> && ack == [] && skip == 0 && p + 40 <= |s.data|
            && exists client, b :: LoginText(s, p, client, b) && id == Chars(b)
  {
    if LoginAt(s, p) == LoggedIn(id, ack, skip) {
      var client, b := LoginOnly(s, p);
    }
    if p + 40 <= |s.data| {
      forall client, b | LoginText(s, p, client, b)
        ensures LoginAt(s, p) == LoggedIn(Chars(b), [], 0)
      {
        LoginFrom(s, p, client, b, [0x24, 0x24] + client + [0x2c] + b + [0x2c]);
      }
    }
  }

  /** Why a stream does not log in. */
  lemma LoginErrors(s: Source, p: nat)
    requires LoginAt(s, p).LoginFailed?
    ensures LoginAt(s, p).error
         == if p + 2 > |s.data| then Wrapped(s.end)
            else if s.data[p..p + 2] != [0x24, 0x24] then UnknownProtocol
            else if p + 40 > |s.data| then Wrapped(s.end)
            else InvalidFormat
  {}

  // ----- One identity -----

  /**
   Whenever a device logs in and its first line is accepted, the line's IMEI is the one it logged in
   with: the search over 40 peeked bytes and the split of the whole line agree.
   */
  lemma IdentityAgrees(s: Source, p: nat, isTime: seq<byte> -> bool)
    requires LoginAt(s, p).LoggedIn? && LineAt(s, p).Ok? && ParsePacket(LineAt(s, p).value, isTime).Success?
    ensures Chars(ParsePacket(LineAt(s, p).value, isTime).value.imei) == LoginAt(s, p).id
  {
    var line := LineAt(s, p).value;
    var i, j := LoginCommas(s, p);
    SameField(s.data[p..], s.data[p..p + 40], line, i, j);
  }

  lemma SameField(b: seq<byte>, peeked: seq<byte>, line: seq<byte>, i: nat, j: nat)
    requires peeked <= b && line <= b && FirstTwo(peeked, COMMA, i, j) && |Split(line, COMMA)| >= 3
    ensures Split(line, COMMA)[1] == peeked[i + 1..j]
  {
    var k, l := SecondField(line, COMMA);
    FirstTwoOfPrefix(b, peeked, COMMA, i, j);
    FirstTwoOfPrefix(b, line, COMMA, k, l);
    FirstTwoUnique(b, COMMA, i, j, k, l);
  }

  // ----- Which lines are accepted -----

  /** A line is accepted exactly if it is at least 22 comma-free fields, joined, with a time as the sixth; the IMEI is the second. */
  lemma ParseIff(line: seq<byte>, isTime: seq<byte> -> bool, x: Packet)
    ensures ParsePacket(line, isTime) == Success(x)
       <==> && |x.fields| >= 22 && NoneInAny(x.fields, 0x2c) && Join(x.fields, 0x2c) == line
            && isTime(x.fields[5]) && x.imei == x.fields[1]
    ensures ParsePacket(line, isTime).Failure? ==> ParsePacket(line, isTime).error == InvalidFormat
  {
    SplitJoin(line, COMMA);
    SplitParts(line, COMMA);
    if |x.fields| >= 22 && NoneInAny(x.fields, 0x2c) && Join(x.fields, 0x2c) == line {
      JoinSplit(x.fields, COMMA);
    }
  }

  /** A line is everything up to and with the next newline. */
  lemma LineIff(s: Source, p: nat, line: seq<byte>, next: nat)
    ensures LineAt(s, p) == Ok(line, next)
       <==> && At(s, p, line) && next == p + |line|
            && line != [] && line[|line| - 1] == 0x0a && NoneIn(line[..|line| - 1], 0x0a)
    ensures LineAt(s, p).Fail? ==> LineAt(s, p).error == s.end
  {
    if At(s, p, line) && line != [] && line[|line| - 1] == 0x0a && NoneIn(line[..|line| - 1], 0x0a) {
      var n := |line| - 1;
      assert s.data[p..][..n] == line[..n] && s.data[p..][n] == line[n];
      FoundAt(s.data[p..], line[..n], NEWLINE);
    }
  }

  // ----- The stream -----

  /** The complete lines from `p` on. */
  function LinesFrom(s: Source, p: nat): seq<seq<byte>>
    decreases |s.data| - p
  {
    match LineAt(s, p)
    case Fail(_) => []
    case Ok(line, next) => [line] + LinesFrom(s, next)
  }

  function Concat(lines: seq<seq<byte>>): seq<byte> {
    if lines == [] then [] else lines[0] + Concat(lines[1..])
  }

  /** The lines are all of the stream but a last piece without a newline. */
  lemma {:induction false} LinesCoverStream(s: Source, p: nat)
    requires p <= |s.data|
    ensures At(s, p, Concat(LinesFrom(s, p)))
    ensures forall k :: p + |Concat(LinesFrom(s, p))| <= k < |s.data| ==> s.data[k] != NEWLINE
    decreases |s.data| - p
  {
    match LineAt(s, p)
    case Fail(_) => NoLineLeft(s, p);
    case Ok(line, next) =>
      LinesCoverStream(s, next);
      LinesStep(s, p);
      CoverStep(s, p, line, next, Concat(LinesFrom(s, next)), Concat(LinesFrom(s, p)));
  }

  lemma CoverStep(s: Source, p: nat, line: seq<byte>, next: nat, rest: seq<byte>, all: seq<byte>)
    requires p <= next <= |s.data| && line == s.data[p..next] && all == line + rest && At(s, next, rest)
    requires forall k :: next + |rest| <= k < |s.data| ==> s.data[k] != NEWLINE
    ensures At(s, p, all)
    ensures forall k :: p + |all| <= k < |s.data| ==> s.data[k] != NEWLINE
  {
    AtSplit(s, p, line, rest);
  }

  lemma NoLineLeft(s: Source, p: nat)
    requires p <= |s.data| && LineAt(s, p).Fail?
    ensures forall k :: p <= k < |s.data| ==> s.data[k] != NEWLINE
  {
    assert forall k :: p <= k < |s.data| ==> s.data[k] == s.data[p..][k - p];
  }

  lemma LinesStep(s: Source, p: nat)
    requires LineAt(s, p).Ok?
    ensures var line, rest := LineAt(s, p).value, LinesFrom(s, LineAt(s, p).next);
      LinesFrom(s, p) == [line] + rest && Concat(LinesFrom(s, p)) == line + Concat(rest)
  {
    assert ([LineAt(s, p).value] + LinesFrom(s, LineAt(s, p).next))[1..] == LinesFrom(s, LineAt(s, p).next);
  }

  /** What one line sends to the store: its packet, if it is accepted. */
  function PacketsOf(line: seq<byte>, isTime: seq<byte> -> bool): seq<Packet> {
    match ParsePacket(line, isTime)
    case Failure(_) => []
    case Success(packet) => [packet]
  }

  function AllPackets(lines: seq<seq<byte>>, isTime: seq<byte> -> bool): seq<Packet> {
    if lines == [] then [] else PacketsOf(lines[0], isTime) + AllPackets(lines[1..], isTime)
  }

  /** One packet at most, and none if the channel stays full: `room` says whether it takes the packet in time. */
  function Taken(packets: seq<Packet>, room: bool): seq<Packet> {
    if room then packets else []
  }

  /** What the lines from `p` on send to the store; `room(q)` belongs to the line that ends at `q`. */
  function DeliveredFrom(s: Source, p: nat, isTime: seq<byte> -> bool, room: nat -> bool): seq<Packet>
    decreases |s.data| - p
  {
    match LineAt(s, p)
    case Fail(_) => []
    case Ok(line, next) => Taken(PacketsOf(line, isTime), room(next)) + DeliveredFrom(s, next, isTime, room)
  }

  predicate Subsequence<T(==)>(a: seq<T>, b: seq<T>) {
    a == [] || (b != [] && ((a[0] == b[0] && Subsequence(a[1..], b[1..])) || Subsequence(a, b[1..])))
  }

  /** Packets may be lost to a full channel, but none is changed, moved or repeated, and with room all arrive. */
  lemma {:induction false} DeliveredAre(s: Source, p: nat, isTime: seq<byte> -> bool, room: nat -> bool)
    ensures Subsequence(DeliveredFrom(s, p, isTime, room), AllPackets(LinesFrom(s, p), isTime))
    ensures (forall q :: room(q)) ==> DeliveredFrom(s, p, isTime, room) == AllPackets(LinesFrom(s, p), isTime)
    ensures (forall q :: !room(q)) ==> DeliveredFrom(s, p, isTime, room) == []
    decreases |s.data| - p
  {
    match LineAt(s, p)
    case Fail(_) =>
    case Ok(line, next) =>
      DeliveredAre(s, next, isTime, room);
      LinesStep(s, p);
      assert LinesFrom(s, p)[1..] == LinesFrom(s, next);
      OneMore(Taken(PacketsOf(line, isTime), room(next)), PacketsOf(line, isTime),
              DeliveredFrom(s, next, isTime, room), AllPackets(LinesFrom(s, next), isTime));
  }

  lemma OneMore<T>(x: seq<T>, y: seq<T>, a: seq<T>, b: seq<T>)
    requires (x == y || x == []) && |y| <= 1 && Subsequence(a, b)
    ensures Subsequence(x + a, y + b)
  {
    if y == [] {
      assert x + a == a && y + b == b;
    } else {
      assert (y + b)[1..] == b;
      if x == [] {
        assert x + a == a;
      } else {
        assert (x + a)[1..] == a;
      }
    }
  }

  lemma DeliveredNext(s: Source, p: nat, line: seq<byte>, next: nat, isTime: seq<byte> -> bool, room: nat -> bool)
    requires LineAt(s, p) == Ok(line, next)
    ensures DeliveredFrom(s, p, isTime, room) == Taken(PacketsOf(line, isTime), room(next)) + DeliveredFrom(s, next, isTime, room)
  {}

  lemma DeliveredStep(s: Source, p: nat, line: seq<byte>, next: nat, isTime: seq<byte> -> bool, room: nat -> bool, sofar: seq<Packet>)
    requires LineAt(s, p) == Ok(line, next)
    ensures sofar + DeliveredFrom(s, p, isTime, room)
         == (sofar + Taken(PacketsOf(line, isTime), room(next))) + DeliveredFrom(s, next, isTime, room)
  {
    DeliveredNext(s, p, line, next, isTime, room);
    Regroup(sofar, Taken(PacketsOf(line, isTime), room(next)), DeliveredFrom(s, next, isTime, room));
  }

  class AquilaOBDII2GProtocol {
    var imei: seq<char>

    constructor ()
      ensures imei == []
    {
      imei := [];
    }

    method Login(reader: Reader) returns (r: Login)
      requires reader.Valid()
      modifies this
      ensures r == LoginAt(reader.source, reader.pos)
      ensures r.LoggedIn? ==> imei == r.id
    {
      var header := reader.Peek(2);
      if header.Failure? {
        return LoginFailed(Wrapped(header.error));
      }
      if header.value != [DOLLAR, DOLLAR] {
        return LoginFailed(UnknownProtocol);
      }
      var peek := reader.Peek(40);
      if peek.Failure? {
        return LoginFailed(Wrapped(peek.error));
      }
      var peeked := peek.value;
      var firstComma := IndexByte(peeked[2..], COMMA) + 2;
      if firstComma < 2 {
        return LoginFailed(InvalidFormat);
      }
      var secondComma := IndexByte(peeked[firstComma + 1..], COMMA) + firstComma + 1;
      if secondComma <= firstComma {
        return LoginFailed(InvalidFormat);
      }
      var imeiBytes := peeked[firstComma + 1..secondComma];
      if |imeiBytes| != 15 {
        return LoginFailed(InvalidFormat);
      }
      imei := Chars(imeiBytes);
      return LoggedIn(imei, [], 0);
    }

    method ReadLine(reader: Reader) returns (r: Parsed<seq<byte>>)
      requires reader.Valid()
      modifies reader
      ensures reader.Valid()
      ensures r == LineAt(reader.source, old(reader.pos))
      ensures reader.pos == if r.Ok? then r.next else |reader.source.data|
    {
      var n := 0;
      var start := reader.pos;
      var data := reader.source.data;
      while start + n < |data| && data[start + n] != NEWLINE
        invariant start + n <= |data| && forall k :: start <= k < start + n ==> data[k] != NEWLINE
      {
        n := n + 1;
      }
      NewlineAt(reader.source, start, n);
      if start + n == |data| {
        reader.pos := |data|;
        return Fail(reader.source.end);
      }
      reader.pos := start + n + 1;
      return Ok(data[start..start + n + 1], start + n + 1);
    }

    /**
     Accepted lines go to the store, in order, if it has room; other lines are skipped. EOF and
     timeouts end well.
     */
    method ConsumeStream(reader: Reader, store: Store<Packet>, isTime: seq<byte> -> bool, room: nat -> bool)
        returns (err: Option<Error>)
      requires reader.Valid()
      modifies reader, store
      ensures reader.Valid() && reader.pos == |reader.source.data|
      ensures store.processed == old(store.processed) + DeliveredFrom(reader.source, old(reader.pos), isTime, room)
      ensures err == if reader.source.end in {EOF, Timeout} then None else Some(Wrapped(reader.source.end))
    {
      ghost var all := DeliveredFrom(reader.source, reader.pos, isTime, room);
      while true
        invariant reader.Valid()
        invariant store.processed + DeliveredFrom(reader.source, reader.pos, isTime, room) == old(store.processed) + all
        decreases |reader.source.data| - reader.pos
      {
        ghost var before, start := store.processed, reader.pos;
        var line := ReadLine(reader);
        if line.Fail? {
          return if line.error == EOF || line.error == Timeout then None else Some(Wrapped(line.error));
        }
        DeliveredStep(reader.source, start, line.value, line.next, isTime, room, before);
        ProcessPacket(line.value, store, isTime, room(reader.pos));
      }
    }

    /** Parses one line and sends its packet, unless the channel stays full for too long. */
    method ProcessPacket(line: seq<byte>, store: Store<Packet>, isTime: seq<byte> -> bool, room: bool)
      modifies store
      ensures store.processed == old(store.processed) + Taken(PacketsOf(line, isTime), room)
    {
      var packet := ParsePacket(line, isTime);
      if packet.Success? && room {
        store.Process(packet.value);
      }
    }
  }

  lemma NewlineAt(s: Source, p: nat, n: nat)
    requires p + n <= |s.data| && forall k :: p <= k < p + n ==> s.data[k] != NEWLINE
    requires p + n < |s.data| ==> s.data[p + n] == NEWLINE
    ensures LineAt(s, p) == if p + n == |s.data| then Fail(s.end) else Ok(s.data[p..p + n + 1], p + n + 1)
  {}
}
