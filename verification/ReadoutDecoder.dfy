/**
 The receiving side of a flash read-out (decodeReadFlashMessage in scripts/ttn_decoder.js): a payload
 is taken apart into the records that were packed into it.
 */
module ReadoutDecoder {
  import opened FlashRecord

  /** The port of the read-out itself, whose data is not decoded again. */
  const PORT_FLASH: bv8 := 29

  datatype Entry<D> = Entry(data: D, port: bv8, time: bv32)

  /** Reading past the end gives undefined, which counts as 0 in a shift or an or. */
  function ByteAt(s: seq<bv8>, i: nat): bv8 {
    if i < |s| then s[i] else 0
  }

  /** Array.prototype.slice: a bound past the end counts as the end. */
  function Slice(s: seq<bv8>, from: nat, to: nat): seq<bv8> {
    var a, b := if from < |s| then from else |s|, if to < |s| then to else |s|;
    if a <= b then s[a..b] else []
  }

  /** The entry decoded at byte `i`. */
  function EntryAt<D>(bytes: seq<bv8>, i: nat, decoder: (seq<bv8>, bv8) -> D, empty: D): Entry<D>
    requires i + 2 < |bytes|
  {
    var port, t := bytes[i], i + 3 + bytes[i + 2] as nat;
    Entry(if port != PORT_FLASH then decoder(Slice(bytes, i + 1, t), port) else empty, port,
      TimeOf(ByteAt(bytes, t), ByteAt(bytes, t + 1), ByteAt(bytes, t + 2), ByteAt(bytes, t + 3)))
  }

  function DecodedFrom<D>(bytes: seq<bv8>, i: nat, decoder: (seq<bv8>, bv8) -> D, empty: D): seq<Entry<D>>
    decreases |bytes| - i
  {
    if i < |bytes| - OVERHEAD then
      [EntryAt(bytes, i, decoder, empty)] + DecodedFrom(bytes, i + OVERHEAD + bytes[i + 2] as nat, decoder, empty)
    else
      []
  }

  method Decode<D>(bytes: seq<bv8>, decoder: (seq<bv8>, bv8) -> D, empty: D) returns (entries: seq<Entry<D>>)
    ensures entries == DecodedFrom(bytes, 0, decoder, empty)
  {
    hide TimeOf, Slice, ByteAt;
    entries := [];
    var i: nat := 0;
    while i < |bytes| - OVERHEAD
      invariant entries + DecodedFrom(bytes, i, decoder, empty) == DecodedFrom(bytes, 0, decoder, empty)
    {
      ghost var at := i;
      var port := bytes[i];
      var len := bytes[i + 2] as nat;
      var msg := Slice(bytes, i + 1, i + len + 3);
      i := i + len + 3;
      var time := TimeOf(ByteAt(bytes, i), ByteAt(bytes, i + 1), ByteAt(bytes, i + 2), ByteAt(bytes, i + 3));
      i := i + 4;
      var parsed := empty;
      if port != PORT_FLASH {
        parsed := decoder(msg, port);
      }
      entries := entries + [Entry(parsed, port, time)];
      assert EntryAt(bytes, at, decoder, empty) == Entry(parsed, port, time);
    }
  }

  /** What the decoder should make of a record: its message (id, length, data) decoded for its port, and its time. */
  function EntryOf<D>(r: Record, decoder: (seq<bv8>, bv8) -> D, empty: D): Entry<D> {
    Entry(if r.port != PORT_FLASH then decoder([r.id, r.len] + r.data, r.port) else empty, r.port, r.time)
  }

  function EntriesOf<D>(rs: seq<Record>, decoder: (seq<bv8>, bv8) -> D, empty: D): (es: seq<Entry<D>>)
    ensures |es| == |rs|
  {
    seq(|rs|, k requires 0 <= k < |rs| => EntryOf(rs[k], decoder, empty))
  }

  /** The records the decoder finds in a payload: it stops before a last record without data. */
  function Found(rs: seq<Record>): seq<Record> {
    if rs != [] && rs[|rs| - 1].len == 0 then rs[..|rs| - 1] else rs
  }

  lemma EntryOfBytes<D>(bytes: seq<bv8>, i: nat, e: seq<bv8>, decoder: (seq<bv8>, bv8) -> D, empty: D)
    requires i + |e| <= |bytes| && bytes[i..i + |e|] == e && |e| >= OVERHEAD && |e| == e[2] as nat + OVERHEAD
    ensures
      var t := 3 + e[2] as nat;
      EntryAt(bytes, i, decoder, empty) ==
        Entry(if e[0] != PORT_FLASH then decoder(e[1..t], e[0]) else empty, e[0],
              TimeOf(e[t], e[t + 1], e[t + 2], e[t + 3]))
  {
    hide TimeOf;
    var t := 3 + e[2] as nat;
    assert forall k :: i <= k < i + |e| ==> bytes[k] == bytes[i..i + |e|][k - i];
    assert bytes[i + 2] == e[2];
    assert Slice(bytes, i + 1, i + t) == e[1..t];
  }

  lemma EncodePieces(r: Record)
    requires Storable(r)
    ensures
      var e, t := Encode(r), HEAD_SIZE + |r.data|;
      && e[0] == r.port && e[2] == r.len && e[1..t] == [r.id, r.len] + r.data
      && TimeOf(e[t], e[t + 1], e[t + 2], e[t + 3]) == r.time
  {
    hide TimeByte, TimeOf;
    TimeRoundTrip(r.time);
  }

  lemma EntryAtRecord<D>(rs: seq<Record>, k: nat, decoder: (seq<bv8>, bv8) -> D, empty: D)
    requires AllStorable(rs) && k < |rs|
    ensures Offset(rs, k) + 2 < |EncodeAll(rs)|
    ensures EntryAt(EncodeAll(rs), Offset(rs, k), decoder, empty) == EntryOf(rs[k], decoder, empty)
  {
    hide EncodeAll, Offset, Encode, EntryAt, TimeOf;
    RecordAt(rs, k);
    EncodePieces(rs[k]);
    EntryOfBytes(EncodeAll(rs), Offset(rs, k), Encode(rs[k]), decoder, empty);
  }

  /** The loop goes on at a record exactly if the record is found, and then gets to the next one. */
  lemma LoopGuard(rs: seq<Record>, k: nat)
    requires AllStorable(rs) && k <= |Found(rs)|
    ensures |Found(rs)| <= |rs| && forall j :: 0 <= j < |Found(rs)| ==> Found(rs)[j] == rs[j]
    ensures Offset(rs, k) < |EncodeAll(rs)| - OVERHEAD <==> k < |Found(rs)|
    ensures k < |Found(rs)| ==> Offset(rs, k + 1) == Offset(rs, k) + OVERHEAD + EncodeAll(rs)[Offset(rs, k) + 2] as nat
  {
    hide EncodeAll, Offset, Encode;
    AllEncoded(rs);
    if k < |rs| {
      RecordAt(rs, k);
      if k + 1 < |rs| {
        RecordAt(rs, k + 1);
      }
    }
  }

  lemma LoopStep<D>(bytes: seq<bv8>, i: nat, decoder: (seq<bv8>, bv8) -> D, empty: D)
    ensures i >= |bytes| - OVERHEAD ==> DecodedFrom(bytes, i, decoder, empty) == []
    ensures i < |bytes| - OVERHEAD ==>
      DecodedFrom(bytes, i, decoder, empty) ==
        [EntryAt(bytes, i, decoder, empty)] + DecodedFrom(bytes, i + OVERHEAD + bytes[i + 2] as nat, decoder, empty)
  {
  }

  lemma {:induction false} DecodedFromRecord<D>(rs: seq<Record>, k: nat, decoder: (seq<bv8>, bv8) -> D, empty: D)
    requires AllStorable(rs) && k <= |Found(rs)|
    ensures DecodedFrom(EncodeAll(rs), Offset(rs, k), decoder, empty) == EntriesOf(Found(rs), decoder, empty)[k..]
    decreases |rs| - k
  {
    hide EncodeAll, Offset, EntryAt, EntryOf, Encode, Found, DecodedFrom;
    LoopGuard(rs, k);
    LoopStep(EncodeAll(rs), Offset(rs, k), decoder, empty);
    if k < |Found(rs)| {
      EntryAtRecord(rs, k, decoder, empty);
      DecodedFromRecord(rs, k + 1, decoder, empty);
    }
  }

  lemma AllEncoded(rs: seq<Record>)
    requires AllStorable(rs)
    ensures Offset(rs, |rs|) == |EncodeAll(rs)| && Offset(rs, 0) == 0
  {
    assert rs[..|rs|] == rs;
  }

  /** Decoding a payload recovers its records, except a last one without data. */
  lemma DecodeUndoesPacking<D>(rs: seq<Record>, decoder: (seq<bv8>, bv8) -> D, empty: D)
    requires AllStorable(rs)
    ensures DecodedFrom(EncodeAll(rs), 0, decoder, empty) == EntriesOf(Found(rs), decoder, empty)
    ensures
      var es := DecodedFrom(EncodeAll(rs), 0, decoder, empty);
      && |es| == (if rs != [] && rs[|rs| - 1].len == 0 then |rs| - 1 else |rs|)
      && (forall k :: 0 <= k < |es| ==> es[k].port == rs[k].port && es[k].time == rs[k].time)
      && (forall k :: 0 <= k < |es| ==>
            es[k].data == if rs[k].port == 29 then empty else decoder([rs[k].id, rs[k].len] + rs[k].data, rs[k].port))
    ensures DecodedFrom(EncodeAll(rs), 0, decoder, empty) == EntriesOf(rs, decoder, empty) <==>
      (rs == [] || rs[|rs| - 1].len >= 1)
  {
    AllEncoded(rs);
    DecodedFromRecord(rs, 0, decoder, empty);
    if rs != [] && rs[|rs| - 1].len == 0 {
      assert |EntriesOf(rs, decoder, empty)| != |EntriesOf(Found(rs), decoder, empty)|;
    }
  }

  /** A payload with one record without data decodes to nothing. */
  lemma EmptyMessageIsLost()
    ensures
      var r := Record(1, 0, 0, [], 0);
      Storable(r) && DecodedFrom(EncodeAll([r]), 0, (m, p) => m, []) == []
  {
    assert [Record(1, 0, 0, [], 0)][..0] == [];
  }
}
