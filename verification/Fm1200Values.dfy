/** What the decoded records say, in terms of the bytes they were read from. */
module Fm1200Values {
  import opened Bytes
  import opened Fm1200Wire
  import opened Fm1200Parser

  /** The property at `k` is the last one with its id. */
  predicate IsLast(qs: seq<Prop>, k: nat) {
    k < |qs| && forall j :: k < j < |qs| ==> qs[j].id != qs[k].id
  }

  /** The ids of a map are those of the properties. */
  ghost predicate SameIds<V>(m: map<nat, V>, qs: seq<Prop>) {
    forall id :: id in m <==> exists k :: 0 <= k < |qs| && qs[k].id == id
  }

  /** Each id has the `n`-byte number of its last property, most significant byte first. */
  ghost predicate Numbers(m: map<nat, nat>, qs: seq<Prop>, n: nat) {
    && SameIds(m, qs)
    && forall k: nat :: IsLast(qs, k) ==> qs[k].id in m && m[qs[k].id] < Pow256(n) && ToBE(m[qs[k].id], n) == qs[k].raw
  }

  /** Each id has the bytes of its last property. */
  ghost predicate RawBytes(m: map<nat, seq<byte>>, qs: seq<Prop>) {
    SameIds(m, qs) && forall k: nat :: IsLast(qs, k) ==> qs[k].id in m && m[qs[k].id] == qs[k].raw
  }

  lemma FilledIds<V>(qs: seq<Prop>, value: seq<byte> -> V)
    ensures SameIds(LastWins(qs, value), qs)
  {
    forall id
      ensures id in LastWins(qs, value) <==> exists k :: 0 <= k < |qs| && qs[k].id == id
    {
      LastWinsMeans(qs, value, id);
    }
  }

  lemma NumberOf(raw: seq<byte>, n: nat, v: nat)
    requires |raw| == n && v == Number(raw)
    ensures v < Pow256(n) && ToBE(v, n) == raw
  {
    FromBEBound(raw);
    ToFromBE(raw);
  }

  lemma FilledNumber(qs: seq<Prop>, n: nat, k: nat, m: map<nat, nat>)
    requires IsLast(qs, k) && |qs[k].raw| == n && m == LastWins(qs, Number)
    ensures qs[k].id in m && m[qs[k].id] < Pow256(n) && ToBE(m[qs[k].id], n) == qs[k].raw
  {
    LastWinsMeans(qs, Number, qs[k].id);
    NumberOf(qs[k].raw, n, m[qs[k].id]);
  }

  lemma FilledNumbers(qs: seq<Prop>, n: nat)
    requires forall i :: 0 <= i < |qs| ==> |qs[i].raw| == n
    ensures Numbers(LastWins(qs, Number), qs, n)
  {
    var m := LastWins(qs, Number);
    FilledIds(qs, Number);
    forall k: nat | IsLast(qs, k)
      ensures qs[k].id in m && m[qs[k].id] < Pow256(n) && ToBE(m[qs[k].id], n) == qs[k].raw
    {
      FilledNumber(qs, n, k, m);
    }
  }

  lemma FilledBytes(qs: seq<Prop>)
    ensures RawBytes(LastWins(qs, Itself), qs)
  {
    FilledIds(qs, Itself);
    forall k: nat | IsLast(qs, k)
      ensures qs[k].id in LastWins(qs, Itself) && LastWins(qs, Itself)[qs[k].id] == qs[k].raw
    {
      LastWinsMeans(qs, Itself, qs[k].id);
    }
  }

  /**
   `d` has the fields of the record `r` on the wire, and in each of its groups exactly the ids that were
   sent, each with the number or the bytes that its last property held.
   */
  ghost predicate Means(d: AvlRecord, r: WireRecord) {
    && d.timestamp == r.timestamp && d.priority == r.priority && d.gps == r.gps
    && d.io.eventId == r.io.eventId && d.io.numProperties == r.io.numProperties
    && Numbers(d.io.properties1B, r.io.g1, 1) && Numbers(d.io.properties2B, r.io.g2, 2)
    && Numbers(d.io.properties4B, r.io.g4, 4) && Numbers(d.io.properties8B, r.io.g8, 8)
    && RawBytes(d.io.propertiesNXB, r.io.nx)
  }

  /** Decoding a record that fits gives what its bytes say. */
  lemma RecordMeans(r: WireRecord, wide: bool)
    requires FitsRecord(r, wide)
    ensures Means(DecodedRecord(r), r)
  {
    FilledNumbers(r.io.g1, 1);
    FilledNumbers(r.io.g2, 2);
    FilledNumbers(r.io.g4, 4);
    FilledNumbers(r.io.g8, 8);
    FilledBytes(r.io.nx);
  }

  /** And nothing else does: the decoded record is the one value that its bytes determine. */
  lemma MeansIff(r: WireRecord, wide: bool, d: AvlRecord)
    requires FitsRecord(r, wide)
    ensures d == DecodedRecord(r) <==> Means(d, r)
  {
    RecordMeans(r, wide);
    var e := DecodedRecord(r);
    if Means(d, r) {
      NumbersUnique(d.io.properties1B, e.io.properties1B, r.io.g1, 1);
      NumbersUnique(d.io.properties2B, e.io.properties2B, r.io.g2, 2);
      NumbersUnique(d.io.properties4B, e.io.properties4B, r.io.g4, 4);
      NumbersUnique(d.io.properties8B, e.io.properties8B, r.io.g8, 8);
      BytesUnique(d.io.propertiesNXB, e.io.propertiesNXB, r.io.nx);
    }
  }

  lemma LastWith(qs: seq<Prop>, id: nat) returns (k: nat)
    requires exists k :: 0 <= k < |qs| && qs[k].id == id
    ensures IsLast(qs, k) && qs[k].id == id
  {
    k := |qs| - 1;
    while qs[k].id != id
      invariant 0 <= k < |qs| && forall j :: k < j < |qs| ==> qs[j].id != id
      decreases k
    {
      k := k - 1;
    }
  }

  lemma NumbersUnique(m: map<nat, nat>, l: map<nat, nat>, qs: seq<Prop>, n: nat)
    requires Numbers(m, qs, n) && Numbers(l, qs, n)
    ensures m == l
  {
    forall id | id in m
      ensures id in l && m[id] == l[id]
    {
      var k := LastWith(qs, id);
      FromToBE(m[id], n);
      FromToBE(l[id], n);
    }
    assert forall id | id in l :: id in m;
  }

  lemma BytesUnique(m: map<nat, seq<byte>>, l: map<nat, seq<byte>>, qs: seq<Prop>)
    requires RawBytes(m, qs) && RawBytes(l, qs)
    ensures m == l
  {
    forall id | id in m
      ensures id in l && m[id] == l[id]
    {
      var k := LastWith(qs, id);
    }
    assert forall id | id in l :: id in m;
  }
}
