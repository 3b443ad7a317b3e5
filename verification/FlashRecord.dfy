/**
 The record format shared by the flash log, its read-out and the satellite buffer:
 port | id | len | data | timestamp (four bytes, least significant first).
 */
module FlashRecord {

  const TIMESTAMP_SIZE: nat := 4
  const HEAD_SIZE: nat := 3
  const OVERHEAD: nat := HEAD_SIZE + TIMESTAMP_SIZE
  const MAX_PORT: bv8 := 32

  datatype Record = Record(port: bv8, id: bv8, len: bv8, data: seq<bv8>, time: bv32)

  /** What every message handed to the log satisfies: a known port, and a length byte that counts its data. */
  predicate Storable(r: Record) {
    r.port <= MAX_PORT && |r.data| == r.len as nat <= 248
  }

  predicate AllStorable(rs: seq<Record>) {
    forall i :: 0 <= i < |rs| ==> Storable(rs[i])
  }

  function TimeByte(t: bv32, shift: bv32): bv8
    requires shift <= 24
  {
    ((t >> shift) & 0xFF) as bv8
  }

  function TimeBytes(t: bv32): (s: seq<bv8>)
    ensures |s| == TIMESTAMP_SIZE
  {
    [TimeByte(t, 0), TimeByte(t, 8), TimeByte(t, 16), TimeByte(t, 24)]
  }

  function TimeOf(b0: bv8, b1: bv8, b2: bv8, b3: bv8): bv32 {
    (b3 as bv32 << 24) | (b2 as bv32 << 16) | (b1 as bv32 << 8) | (b0 as bv32)
  }

  /** The least significant byte comes first. */
  lemma TimeBytesAscend()
    ensures TimeBytes(0x04030201) == [0x01, 0x02, 0x03, 0x04]
  {
  }

  lemma TimeRoundTrip(t: bv32)
    ensures TimeOf(TimeByte(t, 0), TimeByte(t, 8), TimeByte(t, 16), TimeByte(t, 24)) == t
  {
    assert (((t >> 24) & 0xFF) as bv8 as bv32 << 24) | (((t >> 16) & 0xFF) as bv8 as bv32 << 16)
         | (((t >> 8) & 0xFF) as bv8 as bv32 << 8) | (((t >> 0) & 0xFF) as bv8 as bv32) == t;
  }

  /** The bytes of a record. */
  function Encode(r: Record): (s: seq<bv8>)
    requires Storable(r)
    ensures |s| == |r.data| + OVERHEAD
  {
    [r.port, r.id, r.len] + r.data + TimeBytes(r.time)
  }

  /** A message starts with its id and the number of bytes that follow. */
  predicate IsMessage(m: seq<bv8>) {
    2 <= |m| <= 250 && m[1] as nat == |m| - 2
  }

  /** The record for message `m` sent on `port` at time `now`. */
  function Recorded(m: seq<bv8>, port: bv8, now: bv32): (r: Record)
    requires IsMessage(m)
    ensures port <= MAX_PORT ==> Storable(r) && Encode(r) == [port] + m + TimeBytes(now)
  {
    assert m == [m[0], m[1]] + m[2..];
    Record(port, m[0], m[1], m[2..], now)
  }

  function EncodeAll(rs: seq<Record>): seq<bv8>
    requires AllStorable(rs)
  {
    if rs == [] then [] else EncodeAll(rs[..|rs| - 1]) + Encode(rs[|rs| - 1])
  }

  function Flatten<T>(ss: seq<seq<T>>): seq<T> {
    if ss == [] then [] else Flatten(ss[..|ss| - 1]) + ss[|ss| - 1]
  }

  /** Port 0 asks for every record. */
  predicate Selected(r: Record, port: bv8) {
    r.port == port || port == 0
  }

  function Filter(rs: seq<Record>, port: bv8): (s: seq<Record>)
    ensures |s| <= |rs|
  {
    if rs == [] then []
    else
      var init, last := Filter(rs[..|rs| - 1], port), rs[|rs| - 1];
      if Selected(last, port) then init + [last] else init
  }

  // ---- concatenation ----

  lemma EncodeAllAppend(rs: seq<Record>, r: Record)
    requires AllStorable(rs) && Storable(r)
    ensures AllStorable(rs + [r]) && EncodeAll(rs + [r]) == EncodeAll(rs) + Encode(r)
  {
    assert (rs + [r])[..|rs|] == rs;
  }

  lemma Associative<T>(a: seq<T>, b: seq<T>, c: seq<T>)
    ensures (a + b) + c == a + (b + c)
  {
  }

  lemma EncodeAllConcatLast(a: seq<Record>, init: seq<Record>, last: Record)
    requires AllStorable(a) && AllStorable(init) && Storable(last) && AllStorable(a + init)
    requires EncodeAll(a + init) == EncodeAll(a) + EncodeAll(init)
    ensures AllStorable(a + (init + [last]))
    ensures EncodeAll(a + (init + [last])) == EncodeAll(a) + EncodeAll(init + [last])
  {
    hide *;
    Associative(a, init, [last]);
    EncodeAllAppend(a + init, last);
    EncodeAllAppend(init, last);
    Associative(EncodeAll(a), EncodeAll(init), Encode(last));
  }

  lemma {:induction false} EncodeAllConcat(a: seq<Record>, b: seq<Record>)
    requires AllStorable(a) && AllStorable(b)
    ensures AllStorable(a + b) && EncodeAll(a + b) == EncodeAll(a) + EncodeAll(b)
  {
    if b == [] {
      assert a + b == a;
    } else {
      var init, last := b[..|b| - 1], b[|b| - 1];
      hide Encode, EncodeAll;
      assert b == init + [last];
      EncodeAllConcat(a, init);
      EncodeAllConcatLast(a, init, last);
    }
  }

  lemma FlattenAppend<T>(ss: seq<seq<T>>, s: seq<T>)
    ensures Flatten(ss + [s]) == Flatten(ss) + s
  {
    assert (ss + [s])[..|ss|] == ss;
  }

  lemma {:induction false} FlattenConcat<T>(a: seq<seq<T>>, b: seq<seq<T>>)
    ensures Flatten(a + b) == Flatten(a) + Flatten(b)
  {
    if b == [] {
      assert a + b == a;
    } else {
      var init := b[..|b| - 1];
      assert (a + b)[..|a + b| - 1] == a + init;
      FlattenConcat(a, init);
    }
  }

  lemma FlattenSplit<T>(ss: seq<seq<T>>, k: nat)
    requires k <= |ss|
    ensures Flatten(ss) == Flatten(ss[..k]) + Flatten(ss[k..])
  {
    hide Flatten;
    assert ss == ss[..k] + ss[k..];
    FlattenConcat(ss[..k], ss[k..]);
  }

  lemma {:induction false} FilterConcat(a: seq<Record>, b: seq<Record>, port: bv8)
    ensures Filter(a + b, port) == Filter(a, port) + Filter(b, port)
  {
    if b == [] {
      assert a + b == a;
    } else {
      var init := b[..|b| - 1];
      assert (a + b)[..|a + b| - 1] == a + init;
      FilterConcat(a, init, port);
    }
  }

  /** What a port selects, each record as often as it occurs; FilterConcat says that they stay in order. */
  lemma {:induction false} FilterIsExact(rs: seq<Record>, port: bv8, r: Record)
    ensures multiset(Filter(rs, port))[r] == if port == 0 || r.port == port then multiset(rs)[r] else 0
    ensures r in Filter(rs, port) <==> r in rs && (port == 0 || r.port == port)
  {
    if rs != [] {
      var init, last := rs[..|rs| - 1], rs[|rs| - 1];
      assert rs == init + [last];
      FilterIsExact(init, port, r);
    }
    assert r in Filter(rs, port) <==> r in multiset(Filter(rs, port));
    assert r in rs <==> r in multiset(rs);
  }

  /** The places of the records on a port. */
  ghost function Places(rs: seq<Record>, port: bv8): set<nat> {
    set k: nat | k < |rs| && (port == 0 || rs[k].port == port)
  }

  lemma LastPlace(rs: seq<Record>, port: bv8)
    requires rs != []
    ensures
      var n := |rs| - 1;
      n !in Places(rs[..n], port)
      && Places(rs, port) ==
        if port == 0 || rs[n].port == port then Places(rs[..n], port) + {n} else Places(rs[..n], port)
  {
  }

  /** How many a port selects. */
  lemma {:induction false} FilterCount(rs: seq<Record>, port: bv8)
    ensures |Filter(rs, port)| == |Places(rs, port)|
  {
    if rs == [] {
      assert Places(rs, port) == {};
    } else {
      hide Places;
      FilterCount(rs[..|rs| - 1], port);
      LastPlace(rs, port);
    }
  }

  lemma FilterStep(rs: seq<Record>, k: nat, port: bv8)
    requires k < |rs|
    ensures Filter(rs[..k + 1], port) ==
      if Selected(rs[k], port) then Filter(rs[..k], port) + [rs[k]] else Filter(rs[..k], port)
  {
    assert rs[..k + 1][..k] == rs[..k];
  }

  lemma FilterBounds(rs: seq<Record>, port: bv8)
    ensures Filter(rs[..0], port) == [] && Filter(rs[..|rs|], port) == Filter(rs, port)
  {
    assert rs[..|rs|] == rs;
  }

  /** The `k`-th record starts where the first `k` end. */
  function Offset(rs: seq<Record>, k: nat): nat
    requires AllStorable(rs) && k <= |rs|
  {
    |EncodeAll(rs[..k])|
  }

  lemma {:induction false} EncodeAllSplit(rs: seq<Record>, k: nat)
    requires AllStorable(rs) && k < |rs|
    ensures AllStorable(rs[..k]) && AllStorable(rs[k + 1..])
    ensures EncodeAll(rs) == EncodeAll(rs[..k]) + Encode(rs[k]) + EncodeAll(rs[k + 1..])
    ensures Offset(rs, k + 1) == Offset(rs, k) + |Encode(rs[k])| <= |EncodeAll(rs)|
  {
    assert rs[..k + 1][..k] == rs[..k];
    assert rs == rs[..k + 1] + rs[k + 1..];
    EncodeAllConcat(rs[..k + 1], rs[k + 1..]);
  }

  /** The bytes found where the `k`-th record starts. */
  lemma RecordAt(rs: seq<Record>, k: nat)
    requires AllStorable(rs) && k < |rs|
    ensures
      var off, bytes, r := Offset(rs, k), EncodeAll(rs), rs[k];
      && Offset(rs, k + 1) == off + |r.data| + OVERHEAD <= |bytes|
      && bytes[off] == r.port && bytes[off + 1] == r.id && bytes[off + 2] == r.len
      && bytes[off..off + |r.data| + OVERHEAD] == Encode(r)
  {
    hide Encode;
    EncodeAllSplit(rs, k);
    var off, bytes, e := Offset(rs, k), EncodeAll(rs), Encode(rs[k]);
    assert bytes[off..off + |e|] == e;
    EncodeHead(rs[k]);
    assert bytes[off] == e[0] && bytes[off + 1] == e[1] && bytes[off + 2] == e[2];
  }

  lemma EncodeHead(r: Record)
    requires Storable(r)
    ensures Encode(r)[0] == r.port && Encode(r)[1] == r.id && Encode(r)[2] == r.len
    ensures Encode(r)[HEAD_SIZE..HEAD_SIZE + |r.data|] == r.data
    ensures Encode(r)[HEAD_SIZE + |r.data|..] == TimeBytes(r.time)
  {
  }
}
