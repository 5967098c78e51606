/**
 Readers over a byte source, and the writer and store a connection feeds.

 Parsing is specified on positions: `ReadBytes(s, p, n)` and everything built on it is what a
 reader standing at `p` returns. `At(s, p, b)` says which bytes stand at `p`; it links parsers
 to encodings.
 */
module Streams {
  import opened Bytes

  /** Bytes that arrive, and the error that a read past the last of them reports. */
  datatype Source = Source(data: seq<byte>, end: Error)

  /** What a read returns: a value and the position after it, or an error. */
  datatype Parsed<+T> = Ok(value: T, next: nat) | Fail(error: Error) {
    predicate IsFailure() {
      Fail?
    }

    function PropagateFailure<U>(): Parsed<U>
      requires Fail?
    {
      Fail(error)
    }

    function Extract(): (T, nat)
      requires Ok?
    {
      (value, next)
    }
  }

  /** io.ReadFull: the next `n` bytes; a partial read at the end of the stream is an UnexpectedEOF. */
  function ReadBytes(s: Source, p: nat, n: nat): Parsed<seq<byte>> {
    if p + n <= |s.data| then Ok(s.data[p..p + n], p + n)
    else if p >= |s.data| || !s.end.EOF? then Fail(s.end)
    else Fail(UnexpectedEOF)
  }

  /** binary.Read of an unsigned big-endian integer of `n` bytes. */
  function ReadUint(s: Source, p: nat, n: nat): Parsed<nat> {
    var (b, next) :- ReadBytes(s, p, n);
    Ok(FromBE(b), next)
  }

  /** A read that ends too early ends as the stream does, but inside a field an EOF is an unexpected one. */
  function Early(s: Source, p: nat): Error {
    if p < |s.data| && s.end == EOF then UnexpectedEOF else s.end
  }

  predicate At(s: Source, p: nat, b: seq<byte>) {
    p + |b| <= |s.data| && s.data[p..p + |b|] == b
  }

  lemma AtSplit(s: Source, p: nat, a: seq<byte>, b: seq<byte>)
    ensures At(s, p, a + b) <==> At(s, p, a) && At(s, p + |a|, b)
  {
    if At(s, p, a + b) {
      assert a == (a + b)[..|a|] && b == (a + b)[|a|..];
      assert s.data[p..p + |a|] == s.data[p..p + |a + b|][..|a|];
      assert s.data[p + |a|..p + |a| + |b|] == s.data[p..p + |a + b|][|a|..];
    }
  }

  /** A number that was read stands encoded in front of the new position. */
  lemma ReadUintGives(s: Source, p: nat, n: nat)
    requires ReadUint(s, p, n).Ok?
    ensures var r := ReadUint(s, p, n); r.value < Pow256(n) && At(s, p, ToBE(r.value, n)) && r.next == p + n
  {
    var b := s.data[p..p + n];
    ToFromBE(b);
    FromBEBound(b);
  }

  /** A number that stands encoded is read. */
  lemma ReadUintFrom(s: Source, p: nat, n: nat, v: nat)
    requires v < Pow256(n) && At(s, p, ToBE(v, n))
    ensures ReadUint(s, p, n) == Ok(v, p + n)
  {
    FromToBE(v, n);
  }

  /** Reading a number succeeds exactly where the number is encoded. */
  lemma ReadUintAt(s: Source, p: nat, n: nat, v: nat, next: nat)
    ensures ReadUint(s, p, n) == Ok(v, next) <==> v < Pow256(n) && At(s, p, ToBE(v, n)) && next == p + n
  {
    if ReadUint(s, p, n) == Ok(v, next) {
      ReadUintGives(s, p, n);
    }
    if v < Pow256(n) && At(s, p, ToBE(v, n)) {
      ReadUintFrom(s, p, n, v);
    }
  }

  /** A number, then something else: forwards and backwards. */
  lemma NumberThen(s: Source, p: nat, n: nat, v: nat, rest: seq<byte>)
    requires v < Pow256(n) && At(s, p, ToBE(v, n) + rest)
    ensures ReadUint(s, p, n) == Ok(v, p + n) && At(s, p + n, rest)
  {
    AtSplit(s, p, ToBE(v, n), rest);
    ReadUintFrom(s, p, n, v);
  }

  lemma ThenNumber(s: Source, p: nat, n: nat, rest: seq<byte>)
    requires ReadUint(s, p, n).Ok? && At(s, p + n, rest)
    ensures var v := ReadUint(s, p, n).value;
      v < Pow256(n) && ReadUint(s, p, n).next == p + n && At(s, p, ToBE(v, n) + rest)
  {
    ReadUintGives(s, p, n);
    AtSplit(s, p, ToBE(ReadUint(s, p, n).value, n), rest);
  }

  /** Reading bytes succeeds exactly where they stand. */
  lemma ReadBytesAt(s: Source, p: nat, b: seq<byte>)
    ensures ReadBytes(s, p, |b|) == Ok(b, p + |b|) <==> At(s, p, b)
  {}

  /** A bufio.Reader: peeking leaves the position alone, reading moves it. */
  class Reader {
    const source: Source
    var pos: nat

    constructor (source: Source)
      ensures this.source == source && pos == 0 && Valid()
    {
      this.source := source;
      pos := 0;
    }

    ghost predicate Valid()
      reads this
    {
      pos <= |source.data|
    }

    method Peek(n: nat) returns (r: Result<seq<byte>>)
      requires Valid()
      ensures r == if pos + n <= |source.data| then Success(source.data[pos..pos + n]) else Failure(source.end)
    {
      if pos + n <= |source.data| {
        r := Success(source.data[pos..pos + n]);
      } else {
        r := Failure(source.end);
      }
    }

    method ReadFull(n: nat) returns (r: Parsed<seq<byte>>)
      requires Valid()
      modifies this
      ensures Valid()
      ensures r == ReadBytes(source, old(pos), n)
      ensures pos == if r.Ok? then r.next else |source.data|
    {
      r := ReadBytes(source, pos, n);
      pos := if r.Ok? then r.next else |source.data|;
    }

    method ReadNumber(n: nat) returns (r: Parsed<nat>)
      requires Valid()
      modifies this
      ensures Valid()
      ensures r == ReadUint(source, old(pos), n)
      ensures r.Ok? ==> pos == r.next
    {
      var b := ReadFull(n);
      r := match b case Ok(bytes, next) => Ok(FromBE(bytes), next) case Fail(e) => Fail(e);
    }

    method Discard(n: nat) returns (r: Result<nat>)
      requires Valid()
      modifies this
      ensures Valid()
      ensures r == if old(pos) + n <= |source.data| then Success(n) else Failure(source.end)
      ensures pos == if r.Success? then old(pos) + n else |source.data|
    {
      if pos + n <= |source.data| {
        pos := pos + n;
        r := Success(n);
      } else {
        pos := |source.data|;
        r := Failure(source.end);
      }
    }
  }

  /** The connection as a writer; every Write either sends its bytes whole or fails. */
  class Writer {
    var sent: seq<seq<byte>>
    var budget: nat  // how many more writes the connection takes

    method Write(b: seq<byte>) returns (ok: bool)
      modifies this
      ensures ok == (old(budget) > 0)
      ensures sent == if ok then old(sent) + [b] else old(sent)
      ensures budget == if ok then old(budget) - 1 else old(budget)
    {
      ok := budget > 0;
      if ok {
        sent := sent + [b];
        budget := budget - 1;
      }
    }
  }

  /**
   How a login attempt ends. After a success the handler discards `skip` more bytes and sends `ack`.
   */
  datatype Login = LoggedIn(id: seq<char>, ack: seq<byte>, skip: nat) | LoginFailed(error: Error)

  /** A status as it is pushed to the store: what was decoded, under the device's id. */
  datatype Status<+T> = Status(id: seq<char>, content: T)

  function Statuses<T>(id: seq<char>, xs: seq<T>): (ss: seq<Status<T>>)
    ensures |ss| == |xs| && forall i :: 0 <= i < |ss| ==> ss[i] == Status(id, xs[i])
  {
    seq(|xs|, i requires 0 <= i < |xs| => Status(id, xs[i]))
  }

  datatype DeviceResponse = DeviceResponse(imei: seq<char>, text: seq<byte>)

  /** The responses that replies of one device become. */
  function Responses(imei: seq<char>, texts: seq<seq<byte>>): (rs: seq<DeviceResponse>)
    ensures |rs| == |texts| && forall i :: 0 <= i < |rs| ==> rs[i] == DeviceResponse(imei, texts[i])
  {
    seq(|texts|, i requires 0 <= i < |texts| => DeviceResponse(imei, texts[i]))
  }

  lemma ResponsesAppend(imei: seq<char>, texts: seq<seq<byte>>, more: seq<seq<byte>>)
    ensures Responses(imei, texts + more) == Responses(imei, texts) + Responses(imei, more)
  {}

  /** Everything pushed to a store's two channels, in order. */
  class Store<S> {
    var processed: seq<S>
    var responses: seq<DeviceResponse>

    method Process(status: S)
      modifies this
      ensures processed == old(processed) + [status] && responses == old(responses)
    {
      processed := processed + [status];
    }

    method Respond(response: DeviceResponse)
      modifies this
      ensures responses == old(responses) + [response] && processed == old(processed)
    {
      responses := responses + [response];
    }
  }
}
