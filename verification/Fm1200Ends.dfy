/** FM1200 data that ends too early: on which bytes the parser reports a bare EOF. */
module Fm1200Ends {
  import opened Bytes
  import opened Streams
  import opened Formats
  import opened Fm1200Wire
  import opened Fm1200Parser

  /** A number is missed with a bare EOF exactly where nothing at all is left. */
  lemma NumberEnds(s: Source, p: nat, n: nat)
    requires s.end == EOF && p <= |s.data| && n > 0
    ensures ReadUint(s, p, n) == Fail(EOF) <==> p == |s.data|
    ensures ReadUint(s, p, n).Ok? <==> p + n <= |s.data|
    ensures ReadUint(s, p, n).Ok? ==> ReadUint(s, p, n).next == p + n
  {}

  // ----- Records -----

  lemma GpsEnds(s: Source, p: nat)
    requires s.end == EOF && p <= |s.data|
    ensures GpsAt(s, p) == Fail(EOF) <==> |s.data| - p in {0, 4, 8, 10, 12, 13}
    ensures GpsAt(s, p).Ok? <==> p + 15 <= |s.data|
    ensures GpsAt(s, p).Ok? ==> GpsAt(s, p).next == p + 15
  {}

  lemma IOEnds(wide: bool, s: Source, p: nat)
    requires s.end == EOF && p <= |s.data|
    ensures IOAt(wide, s, p) == Fail(EOF) <==> |s.data| - p in {0, IdSize(wide)}
  {}

  /** How many bytes of a record there may be for the next field to begin at the end: none, or all up to a field before the groups. */
  predicate BetweenFields(wide: bool, left: int) {
    left in {0, 8, 9, 13, 17, 19, 21, 22, 24, if wide then 26 else 25}
  }

  lemma RecordEnds(wide: bool, s: Source, p: nat)
    requires s.end == EOF && p <= |s.data|
    ensures RecordAt(wide, s, p) == Fail(EOF) <==> BetweenFields(wide, |s.data| - p)
  {
    NumberEnds(s, p, 8);
    if p + 8 <= |s.data| {
      NumberEnds(s, p + 8, 1);
      if p + 9 <= |s.data| {
        GpsEnds(s, p + 9);
        if p + 24 <= |s.data| {
          IOEnds(wide, s, p + 24);
          IOSteps(wide);
        }
      }
    }
  }

  lemma NumberErrors(s: Source, p: nat, n: nat)
    requires s.end == EOF && p <= |s.data|
    ensures ReadUint(s, p, n).Fail? <==> p + n > |s.data|
    ensures ReadUint(s, p, n).Fail? ==> ReadUint(s, p, n).error == Early(s, p)
  {}

  lemma GpsErrors(s: Source, p: nat)
    requires s.end == EOF && p <= |s.data| && GpsAt(s, p).Fail?
    ensures GpsAt(s, p).error == if |s.data| - p in {0, 4, 8, 10, 12, 13} then EOF else UnexpectedEOF
  {}

  lemma IOErrors(wide: bool, s: Source, p: nat)
    requires s.end == EOF && p <= |s.data| && IOAt(wide, s, p).Fail?
    ensures var left, id := |s.data| - p, if wide then 2 else 1;
      IOAt(wide, s, p).error
      == if left >= 2 * id then Wrapped(BadDataPacket) else if left in {0, id} then EOF else UnexpectedEOF
  {}

  /** The error of a record that is not read: once its number of properties is there, a bad packet; before that, how it ends. */
  lemma RecordErrors(wide: bool, s: Source, p: nat)
    requires s.end == EOF && p <= |s.data| && RecordAt(wide, s, p).Fail?
    ensures var left := |s.data| - p;
      RecordAt(wide, s, p).error
      == if left >= (if wide then 28 else 26) then Wrapped(BadDataPacket)
         else if BetweenFields(wide, left) then EOF else UnexpectedEOF
  {
    NumberErrors(s, p, 8);
    if p + 8 <= |s.data| {
      NumberErrors(s, p + 8, 1);
      if p + 9 <= |s.data| {
        GpsEnds(s, p + 9);
        if p + 24 <= |s.data| {
          IOSteps(wide);
          assert IOFormat(wide).parse(s, p + 24) == IOAt(wide, s, p + 24);
          IOErrors(wide, s, p + 24);
        } else {
          GpsErrors(s, p + 9);
        }
      }
    }
  }

  /** Where a record may break off, as a condition on positions. */
  function Breaks(wide: bool, s: Source): nat -> bool {
    (p: nat) => BetweenFields(wide, |s.data| - p)
  }

  lemma RecordsEnd(item: Format<WireRecord>, wide: bool, s: Source)
    requires IsRecord(item, wide) && s.end == EOF
    ensures EndsAt(item, s, EOF, Breaks(wide, s))
  {
    forall p: nat | p <= |s.data|
      ensures item.parse(s, p) == Fail(EOF) <==> BetweenFields(wide, |s.data| - p)
    {
      assert item.parse(s, p) == RecordAt(wide, s, p);
      RecordEnds(wide, s, p);
    }
  }

  predicate AllFitWidths(rs: seq<WireRecord>, wide: bool) {
    forall i :: 0 <= i < |rs| ==> FitsRecord(rs[i], wide)
  }

  /** Behind the codec and count stand the bytes of `n` records, and then too little. */
  predicate TooLittleAfter(data: seq<byte>, n: nat, records: seq<byte>)
    requires |data| >= 2
  {
    && records <= data[2..]
    && var left := |data| - 2 - |records|;
       if n < data[1] then BetweenFields(data[0] == 0x8E, left) else left == 0
  }

  /**
   The packet announces more than it has: behind the records `rs`, which are fewer than announced,
   it ends between two fields of the next one; or they are all there and the second count is missing.
   */
  predicate RecordsRunOut(data: seq<byte>, rs: seq<WireRecord>)
    requires |data| >= 2
  {
    && |rs| <= data[1] && AllFitWidths(rs, data[0] == 0x8E)
    && TooLittleAfter(data, |rs|, RecordsBytes(rs, data[0] == 0x8E))
  }

  lemma AllFitRecords(item: Format<WireRecord>, wide: bool, rs: seq<WireRecord>)
    requires item == RecordFormat(wide)
    ensures AllFit(item, rs) <==> AllFitWidths(rs, wide)
  {
    AllFitMeans(item, rs);
    forall i | 0 <= i < |rs|
      ensures item.fits(rs[i]) <==> FitsRecord(rs[i], wide)
    {
      RecordFits(rs[i], wide);
    }
  }

  /** `item` is the format of records; the lemmas below need not look inside it. */
  ghost predicate IsItem(item: Format<WireRecord>, wide: bool) {
    && Correct(item) && IsRecord(item, wide)
    && forall rs {:trigger EncodeMany(item, rs)} ::
         EncodeMany(item, rs) == RecordsBytes(rs, wide) && (AllFit(item, rs) <==> AllFitWidths(rs, wide))
  }

  lemma TheItem(wide: bool)
    ensures IsItem(RecordFormat(wide), wide)
  {
    var item := RecordFormat(wide);
    RecordCorrect(wide);
    RecordSteps(wide);
    forall rs
      ensures EncodeMany(item, rs) == RecordsBytes(rs, wide)
      ensures AllFit(item, rs) <==> AllFitWidths(rs, wide)
    {
      RecordsLayout(rs, wide);
      AllFitRecords(item, wide, rs);
    }
  }

  /** Announced records that break off, and a second count that is missing, in terms of items. */
  lemma PacketEnds(item: Format<WireRecord>, s: Source, k: nat)
    requires |s.data| >= 2 && s.end == EOF && ReadUint(s, 1, 1) == Ok(k, 2)
    ensures PacketAt(item, s, 1) == Fail(EOF)
       <==> ParseMany(item, s, 2, k) == Fail(EOF)
            || (ParseMany(item, s, 2, k).Ok? && ReadUint(s, ParseMany(item, s, 2, k).next, 1) == Fail(EOF))
  {}

  lemma OneByteRead(s: Source, p: nat)
    requires p < |s.data|
    ensures ReadUint(s, p, 1) == Ok(s.data[p], p + 1)
  {
    var b := s.data[p..p + 1];
    assert b[..0] == [] && b[0] == s.data[p] && FromBE(b) == FromBE(b[..0]) * 256 + b[0];
  }

  predicate NothingAfter(wide: bool, s: Source, k: nat, n: nat, records: seq<byte>) {
    && At(s, 2, records)
    && if n < k then BetweenFields(wide, |s.data| - (2 + |records|)) else 2 + |records| == |s.data|
  }

  lemma OnPositions(data: seq<byte>, n: nat, records: seq<byte>)
    requires |data| >= 2
    ensures TooLittleAfter(data, n, records) <==> NothingAfter(data[0] == CODEC_8E, Source(data, EOF), data[1], n, records)
  {}

  /** The same in terms of the format of a record. */
  predicate ItemsRunOut(item: Format<WireRecord>, wide: bool, s: Source, k: nat, rs: seq<WireRecord>) {
    |rs| <= k && AllFit(item, rs) && NothingAfter(wide, s, k, |rs|, EncodeMany(item, rs))
  }

  lemma SameItems(item: Format<WireRecord>, wide: bool, rs: seq<WireRecord>)
    requires IsItem(item, wide)
    ensures EncodeMany(item, rs) == RecordsBytes(rs, wide) && (AllFit(item, rs) <==> AllFitWidths(rs, wide))
  {}

  lemma ItemsMean(item: Format<WireRecord>, data: seq<byte>, rs: seq<WireRecord>, b: seq<byte>)
    requires |data| >= 2 && EncodeMany(item, rs) == b == RecordsBytes(rs, data[0] == CODEC_8E)
    requires AllFit(item, rs) <==> AllFitWidths(rs, data[0] == CODEC_8E)
    ensures RecordsRunOut(data, rs) <==> ItemsRunOut(item, data[0] == CODEC_8E, Source(data, EOF), data[1], rs)
  {
    OnPositions(data, |rs|, b);
  }

  lemma PacketRunsOut(item: Format<WireRecord>, wide: bool, s: Source, k: nat) returns (rs: seq<WireRecord>)
    requires |s.data| >= 2 && s.end == EOF && Correct(item) && EndsAt(item, s, EOF, Breaks(wide, s))
    requires ReadUint(s, 1, 1) == Ok(k, 2) && PacketAt(item, s, 1) == Fail(EOF)
    ensures ItemsRunOut(item, wide, s, k, rs)
  {
    PacketEnds(item, s, k);
    var many := ParseMany(item, s, 2, k);
    if many.Ok? {
      rs := many.value;
      ManySound(s, 2, item, k);
      NumberEnds(s, many.next, 1);
    } else {
      rs := ManyRunsOut(item, s, 2, k, EOF, Breaks(wide, s));
    }
  }

  lemma RunOutPacket(item: Format<WireRecord>, wide: bool, s: Source, k: nat, rs: seq<WireRecord>)
    requires |s.data| >= 2 && s.end == EOF && Correct(item) && EndsAt(item, s, EOF, Breaks(wide, s))
    requires ReadUint(s, 1, 1) == Ok(k, 2) && ItemsRunOut(item, wide, s, k, rs)
    ensures PacketAt(item, s, 1) == Fail(EOF)
  {
    PacketEnds(item, s, k);
    if |rs| < k {
      RunsOutIsSeen(item, s, 2, k, EOF, Breaks(wide, s), rs);
    } else {
      ManyComplete(s, 2, item, rs);
      NumberEnds(s, |s.data|, 1);
    }
  }

  // ----- Replies -----

  /** A Codec 12 body breaks off in front of one of its five fields. */
  predicate ReplyRunsOut(data: seq<byte>) {
    |data| in {1, 2, 3, 7} || (|data| > 7 && |data| == 7 + FromBE(data[3..7]))
  }

  lemma ReplyEnds(s: Source)
    requires s.end == EOF && |s.data| >= 1
    ensures ReplyAt(s, 1) == Fail(EOF) <==> ReplyRunsOut(s.data)
  {
    NumberEnds(s, 1, 1);
    if |s.data| >= 2 {
      NumberEnds(s, 2, 1);
      if |s.data| >= 3 {
        NumberEnds(s, 3, 4);
        if |s.data| >= 7 {
          var size := FromBE(s.data[3..7]);
          assert ReadUint(s, 3, 4) == Ok(size, 7);
          if 7 + size <= |s.data| {
            NumberEnds(s, 7 + size, 1);
          }
        }
      }
    }
  }

  // ----- Bodies -----

  /** The data ends where the parser is about to read a field whose loss it reports as it is. */
  ghost predicate RunsOut(data: seq<byte>) {
    if |data| < 2 then true
    else if data[0] == 0x0C then ReplyRunsOut(data)
    else exists rs :: RecordsRunOut(data, rs)
  }

  lemma PacketEndsIff(item: Format<WireRecord>, data: seq<byte>)
    requires |data| >= 2 && IsItem(item, data[0] == CODEC_8E)
    ensures PacketAt(item, Source(data, EOF), 1) == Fail(EOF) <==> exists rs :: RecordsRunOut(data, rs)
  {
    var s, wide := Source(data, EOF), data[0] == CODEC_8E;
    OneByteRead(s, 1);
    RecordsEnd(item, wide, s);
    if PacketAt(item, s, 1) == Fail(EOF) {
      var rs := PacketRunsOut(item, wide, s, data[1]);
      SameItems(item, wide, rs);
      ItemsMean(item, data, rs, EncodeMany(item, rs));
    }
    forall rs | RecordsRunOut(data, rs)
      ensures PacketAt(item, s, 1) == Fail(EOF)
    {
      SameItems(item, wide, rs);
      ItemsMean(item, data, rs, EncodeMany(item, rs));
      RunOutPacket(item, wide, s, data[1], rs);
    }
  }

  /** What follows the codec byte, by codec. */
  lemma BodyEnds(data: seq<byte>, s: Source, records: Format<seq<WireRecord>>, item: Format<WireRecord>)
    requires data != [] && s == Source(data, EOF)
    requires records == RecordsFormat(data[0]) && item == RecordFormat(data[0] == CODEC_8E)
    ensures ParseBody(data) == Fail(EOF)
       <==> if data[0] == CODEC_12 then ReplyAt(s, 1) == Fail(EOF) else PacketAt(item, s, 1) == Fail(EOF)
  {
    BodySteps(data, s, records);
    PacketSteps(item, s, 1);
  }

  /** Data is reported with a bare EOF exactly if it runs out in front of such a field. */
  lemma BodyEndsIff(data: seq<byte>)
    ensures ParseBody(data) == Fail(EOF) <==> RunsOut(data)
  {
    if data != [] {
      TheItem(data[0] == CODEC_8E);
      BodyEndsBy(data, RecordsFormat(data[0]), RecordFormat(data[0] == CODEC_8E));
    }
  }

  lemma BodyEndsBy(data: seq<byte>, records: Format<seq<WireRecord>>, item: Format<WireRecord>)
    requires data != [] && records == RecordsFormat(data[0])
    requires item == RecordFormat(data[0] == CODEC_8E) && IsItem(item, data[0] == CODEC_8E)
    ensures ParseBody(data) == Fail(EOF) <==> RunsOut(data)
  {
    BodyEnds(data, Source(data, EOF), records, item);
    RunsOutBy(item, data);
  }

  lemma RunsOutBy(item: Format<WireRecord>, data: seq<byte>)
    requires data != [] && IsItem(item, data[0] == CODEC_8E)
    ensures RunsOut(data)
       <==> if data[0] == CODEC_12 then ReplyAt(Source(data, EOF), 1) == Fail(EOF)
            else PacketAt(item, Source(data, EOF), 1) == Fail(EOF)
  {
    var s := Source(data, EOF);
    if data[0] == CODEC_12 {
      ReplyEnds(s);
    } else if |data| < 2 {
      NumberEnds(s, 1, 1);
    } else {
      PacketEndsIff(item, data);
    }
  }

  // ----- Counts that differ -----

  lemma MismatchAt(item: Format<WireRecord>, s: Source, rs: seq<WireRecord>, m: nat)
    requires Complete(item) && AllFit(item, rs) && ReadUint(s, 1, 1) == Ok(|rs|, 2)
    requires At(s, 2, EncodeMany(item, rs))
    requires ReadUint(s, 2 + |EncodeMany(item, rs)|, 1).Ok? && ReadUint(s, 2 + |EncodeMany(item, rs)|, 1).value == m != |rs|
    ensures PacketAt(item, s, 1) == Fail(Wrapped(BadDataPacket))
  {
    ManyComplete(s, 2, item, rs);
  }

  lemma MismatchedBytes(data: seq<byte>, codec: byte, n: byte, records: seq<byte>, m: byte)
    requires [codec, n] + records + [m] <= data
    ensures |data| >= |records| + 3 && data[0] == codec && data[1] == n && data[2 + |records|] == m && At(Source(data, EOF), 2, records)
  {
    var b := [codec, n] + records + [m];
    assert data[0] == b[0] && data[1] == b[1] && data[2 + |records|] == b[2 + |records|] && data[2..2 + |records|] == b[2..2 + |records|];
  }

  lemma MismatchIn(item: Format<WireRecord>, s: Source, rs: seq<WireRecord>, b: seq<byte>, m: byte)
    requires Complete(item) && AllFit(item, rs) && EncodeMany(item, rs) == b && At(s, 2, b)
    requires |s.data| >= |b| + 3 && s.data[1] == |rs| && s.data[2 + |b|] == m != |rs|
    ensures PacketAt(item, s, 1) == Fail(Wrapped(BadDataPacket))
  {
    OneByteRead(s, 1);
    OneByteRead(s, 2 + |b|);
    MismatchAt(item, s, rs, m);
  }

  lemma MismatchFails(data: seq<byte>, rs: seq<WireRecord>, b: seq<byte>, m: byte, s: Source,
                      records: Format<seq<WireRecord>>, item: Format<WireRecord>)
    requires s == Source(data, EOF) && |data| >= |b| + 3 && data[0] != CODEC_12
    requires data[1] == |rs| && data[2 + |b|] == m != |rs| && At(s, 2, b)
    requires records == RecordsFormat(data[0]) && item == RecordFormat(data[0] == CODEC_8E)
    requires Complete(item) && AllFit(item, rs) && EncodeMany(item, rs) == b
    ensures ParseBody(data) == Fail(Wrapped(BadDataPacket))
  {
    MismatchIn(item, s, rs, b, m);
    BodyFails(data, s, records, item);
  }

  lemma ItemsAre(item: Format<WireRecord>, wide: bool, rs: seq<WireRecord>, b: seq<byte>)
    requires item == RecordFormat(wide) && AllFitWidths(rs, wide) && b == RecordsBytes(rs, wide)
    ensures Complete(item) && AllFit(item, rs) && EncodeMany(item, rs) == b
  {
    RecordCorrect(wide);
    RecordsLayout(rs, wide);
    AllFitRecords(item, wide, rs);
  }

  lemma MismatchOf(data: seq<byte>, wide: bool, rs: seq<WireRecord>, b: seq<byte>, m: byte)
    requires |data| >= |b| + 3 && data[0] != CODEC_12 && wide == (data[0] == CODEC_8E)
    requires data[1] == |rs| && data[2 + |b|] == m != |rs| && At(Source(data, EOF), 2, b)
    requires AllFitWidths(rs, wide) && b == RecordsBytes(rs, wide)
    ensures ParseBody(data) == Fail(Wrapped(BadDataPacket))
  {
    ItemsAre(RecordFormat(wide), wide, rs, b);
    MismatchFails(data, rs, b, m, Source(data, EOF), RecordsFormat(data[0]), RecordFormat(wide));
  }

  /** Records between two counts that differ are a bad packet. */
  lemma CountMismatch(data: seq<byte>, codec: byte, rs: seq<WireRecord>, b: seq<byte>, m: byte)
    requires codec != 0x0C && |rs| <= 255 && AllFitWidths(rs, codec == 0x8E) && m != |rs|
    requires b == RecordsBytes(rs, codec == 0x8E) && [codec, |rs|] + b + [m] <= data
    ensures ParseBody(data) == Fail(Wrapped(BadDataPacket))
  {
    MismatchedBytes(data, codec, |rs|, b, m);
    MismatchOf(data, codec == 0x8E, rs, b, m);
  }

  lemma BodyFails(data: seq<byte>, s: Source, records: Format<seq<WireRecord>>, item: Format<WireRecord>)
    requires data != [] && s == Source(data, EOF) && data[0] != CODEC_12
    requires records == RecordsFormat(data[0]) && item == RecordFormat(data[0] == CODEC_8E)
    requires PacketAt(item, s, 1) == Fail(Wrapped(BadDataPacket))
    ensures ParseBody(data) == Fail(Wrapped(BadDataPacket))
  {
    BodySteps(data, s, records);
    PacketSteps(item, s, 1);
  }
}
