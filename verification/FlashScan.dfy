/**
 Reading the flash log back as bytes: what a scan of the live blocks from the start offset round to
 the current block, followed by the buffer, finds.
 */
module FlashScan {
  import opened FlashRecord
  import opened FlashLog

  /** The record whose bytes start at `at`. */
  function RecordAtByte(s: seq<bv8>, at: nat): (r: Record)
    requires at + 2 < |s| && at + OVERHEAD + s[at + 2] as nat <= |s|
    ensures |r.data| == s[at + 2] as nat
  {
    var n := s[at + 2] as nat;
    Record(s[at], s[at + 1], s[at + 2], s[at + 3..at + 3 + n],
           TimeOf(s[at + 3 + n], s[at + 4 + n], s[at + 5 + n], s[at + 6 + n]))
  }

  /** The scan loop shared by all readers: stop at `end`, at an invalid port or at a record that does not fit. */
  function Parse(s: seq<bv8>, at: nat, end: nat): seq<Record>
    requires end <= |s|
    decreases end - at
  {
    if at >= end || s[at] > MAX_PORT then []
    else if at + OVERHEAD > end || at + OVERHEAD + s[at + 2] as nat > end then []
    else [RecordAtByte(s, at)] + Parse(s, at + OVERHEAD + s[at + 2] as nat, end)
  }

  /** A record found in a slice is the one found where the slice begins. */
  lemma RecordAtByteOfSlice(s: seq<bv8>, at: nat, w: seq<bv8>)
    requires at + |w| <= |s| && s[at..at + |w|] == w && |w| >= OVERHEAD && |w| == w[2] as nat + OVERHEAD
    ensures s[at + 2] == w[2] && RecordAtByte(s, at) == RecordAtByte(w, 0)
  {
    hide TimeOf;
    var n := |w| - OVERHEAD;
    assert forall i :: at <= i < at + |w| ==> s[i] == s[at..at + |w|][i - at];
    assert s[at + 2] == w[2];
    SliceOfSlice(s, at, n + OVERHEAD, 3, n);
  }

  lemma RecordOfEncode(r: Record)
    requires Storable(r)
    ensures |Encode(r)| == Encode(r)[2] as nat + OVERHEAD && Encode(r)[2] == r.len && RecordAtByte(Encode(r), 0) == r
  {
    hide TimeOf, TimeByte;
    TimeRoundTrip(r.time);
    EncodeHead(r);
  }

  /**
   A message written between a port and a time is found again as its record exactly if the port is
   known and the second byte counts the bytes behind it; nothing in the log checks either.
   */
  lemma FramingIsExact(m: seq<bv8>, port: bv8, now: bv32)
    requires |m| >= 2
    ensures
      var w := [port] + m + TimeBytes(now);
      Parse(w, 0, |w|) == [Record(port, m[0], m[1], m[2..], now)] <==> port <= 32 && m[1] as nat == |m| - 2
  {
    hide RecordAtByte;
    var w, n := [port] + m + TimeBytes(now), m[1] as nat;
    FramedRecord(m, port, now);
    if port <= MAX_PORT && OVERHEAD + n <= |w| {
      assert Parse(w, 0, |w|)[0] == RecordAtByte(w, 0);
    }
  }

  lemma RecordOfPieces(head: seq<bv8>, data: seq<bv8>, t: seq<bv8>)
    requires |head| == HEAD_SIZE && |t| == TIMESTAMP_SIZE && head[2] as nat == |data|
    ensures
      var w := head + data + t;
      w[2] == head[2] && RecordAtByte(w, 0) == Record(head[0], head[1], head[2], data, TimeOf(t[0], t[1], t[2], t[3]))
  {
    hide TimeOf;
    assert (head + data + t)[3..3 + |data|] == data;
  }

  lemma FramedRecord(m: seq<bv8>, port: bv8, now: bv32)
    requires |m| >= 2
    ensures
      var w := [port] + m + TimeBytes(now);
      && |w| == |m| + 5 && w[0] == port && w[2] == m[1]
      && (m[1] as nat == |m| - 2 ==> RecordAtByte(w, 0) == Record(port, m[0], m[1], m[2..], now))
  {
    TimeAt(now);
    hide TimeOf, TimeBytes, RecordAtByte;
    assert [port] + m + TimeBytes(now) == [port, m[0], m[1]] + m[2..] + TimeBytes(now);
    if m[1] as nat == |m| - 2 {
      RecordOfPieces([port, m[0], m[1]], m[2..], TimeBytes(now));
    }
  }

  lemma TimeAt(now: bv32)
    ensures var t := TimeBytes(now); TimeOf(t[0], t[1], t[2], t[3]) == now
  {
    hide TimeOf, TimeByte;
    TimeRoundTrip(now);
  }

  lemma RecordAtByteOfEncode(s: seq<bv8>, at: nat, r: Record)
    requires Storable(r) && at + |r.data| + OVERHEAD <= |s| && s[at..at + |r.data| + OVERHEAD] == Encode(r)
    ensures s[at + 2] == r.len && RecordAtByte(s, at) == r
  {
    hide Encode, RecordAtByte;
    RecordOfEncode(r);
    RecordAtByteOfSlice(s, at, Encode(r));
  }

  lemma {:induction false} ParseFrom(s: seq<bv8>, off: nat, end: nat, rs: seq<Record>, k: nat)
    requires Scannable(s, off, end, rs) && k <= |rs|
    ensures Parse(s, off + Offset(rs, k), end) == rs[k..]
    decreases |rs| - k
  {
    hide Scannable, Encode, EncodeAll, Offset, RecordAtByte;
    ScanBounds(s, off, end, rs);
    if k < |rs| {
      ScannedRecord(s, off, end, rs, k);
      RecordAtByteOfEncode(s, off + Offset(rs, k), rs[k]);
      ParseFrom(s, off, end, rs, k + 1);
      assert rs[k..] == [rs[k]] + rs[k + 1..];
    }
  }

  /** A scan of a region that holds records finds exactly them. */
  lemma ParseScannable(s: seq<bv8>, off: nat, end: nat, rs: seq<Record>)
    requires Scannable(s, off, end, rs)
    ensures Parse(s, off, end) == rs
  {
    ParseFrom(s, off, end, rs, 0);
    ScanBounds(s, off, end, rs);
    assert rs[0..] == rs;
  }

  /**
   Scan block after block from `off` on, wrapping at the end of the flash, up to the block at
   `block`, whose records end at `end`.
   */
  function ScanFrom(s: seq<bv8>, off: nat, block: nat, end: nat, size: nat, steps: nat): seq<Record>
    requires end <= |s|
    decreases steps
  {
    if off == block || steps == 0 then Parse(s, off, end)
    else if off + size > |s| then []
    else Parse(s, off, off + size) + ScanFrom(s, NextOffset(off, size, |s|), block, end, size, steps - 1)
  }

  /** What scanning a log's flash and then its buffer yields. */
  ghost function ScanLog(log: Log): seq<Record>
    requires log.Valid()
    reads log, log.flash, log.buffer
  {
    var end := if log.flashOffset <= log.flashSize then log.flashOffset else 0;
    ScanFrom(log.flash[..], log.startOffset, log.blockOffset, end, log.blockSize, log.blockCount)
    + Parse(log.buffer[..], 0, log.bufferIdx)
  }

  lemma StepForward(p: nat, b: nat, n: nat, size: nat)
    requires p < n && 1 <= b < n && size > 0
    ensures NextOffset(BlockStart(BlockBack(p, b, n), size), size, BlockStart(n, size)) ==
      BlockStart(BlockBack(p, b - 1, n), size)
    ensures BlockStart(BlockBack(p, b, n), size) != BlockStart(p, size)
    ensures BlockStart(BlockBack(p, b, n), size) + size <= BlockStart(n, size)
  {
    hide BlockStart;
    var q := BlockBack(p, b, n);
    NextBlockStart(q, n, size);
    if q < p {
      BlocksDisjoint(q, p, size);
    } else {
      BlocksDisjoint(p, q, size);
    }
  }

  lemma LiveBlockScannable(s: seq<bv8>, blocks: seq<seq<Record>>, p: nat, n: nat, size: nat, b: nat)
    requires p < n && b < n && b < |blocks| && LiveBlocks(s, blocks, p, n, size)
    ensures
      var off, rs := BlockStart(BlockBack(p, b, n), size), blocks[|blocks| - 1 - b];
      Scannable(s, off, off + size, rs) && Scannable(s, off, off + |EncodeAll(rs)|, rs)
  {
    assert LiveBlock(s, blocks, p, n, size, b);
  }

  /** Scanning from `b` blocks back to the current one yields the newest `b + 1` entries of the history. */
  lemma {:induction false} ScanFromBack(s: seq<bv8>, blocks: seq<seq<Record>>, p: nat, n: nat, size: nat, end: nat,
                                        b: nat, steps: nat)
    requires p < n && b < n && b < |blocks| && size > 0 && b <= steps
    requires LiveBlocks(s, blocks, p, n, size) && |s| == BlockStart(n, size) && AllStorable(blocks[|blocks| - 1])
    requires end == BlockStart(p, size) + |EncodeAll(blocks[|blocks| - 1])| <= |s|
    ensures ScanFrom(s, BlockStart(BlockBack(p, b, n), size), BlockStart(p, size), end, size, steps) ==
      Flatten(blocks[|blocks| - 1 - b..])
    decreases b
  {
    hide BlockStart, EncodeAll, LiveBlocks, Scannable, Flatten, Parse;
    var off, rs := BlockStart(BlockBack(p, b, n), size), blocks[|blocks| - 1 - b];
    var tail := blocks[|blocks| - 1 - b..];
    FlattenFirst(tail);
    LiveBlockScannable(s, blocks, p, n, size, b);
    if b == 0 {
      ParseScannable(s, off, end, rs);
      assert tail[1..] == [];
      FlattenNothing();
    } else {
      StepForward(p, b, n, size);
      ParseScannable(s, off, off + size, rs);
      ScanFromBack(s, blocks, p, n, size, end, b - 1, steps - 1);
      assert tail[1..] == blocks[|blocks| - b..];
    }
  }

  lemma FlattenFirst(ss: seq<seq<Record>>)
    requires ss != []
    ensures Flatten(ss) == ss[0] + Flatten(ss[1..])
  {
    assert ss == [ss[0]] + ss[1..];
    FlattenConcat([ss[0]], ss[1..]);
    assert [ss[0]][..0] == [];
  }

  /**
   The refinement to a flat append-only log: scanning finds a suffix of all stored records, in
   order, cut at a block boundary.
   */
  lemma ScanIsSuffixOfStored(log: Log)
    requires log.Valid()
    ensures
      var oldest := Oldest(log.history, log.blockCount);
      && ScanLog(log) == Flatten(log.history[oldest..]) + log.buffered
      && log.Stored() == Flatten(log.history[..oldest]) + ScanLog(log)
  {
    hide ScanFrom, Parse, Flatten, EncodeAll;
    ScanFlash(log);
    BufferScannable(log);
    ParseScannable(log.buffer[..], 0, log.bufferIdx, log.buffered);
    FlattenSplit(log.history, Oldest(log.history, log.blockCount));
  }

  lemma ScanFlash(log: Log)
    requires log.Geometry() && log.Blocks()
    ensures log.flashOffset <= log.flashSize
    ensures ScanFrom(log.flash[..], log.startOffset, log.blockOffset, log.flashOffset, log.blockSize, log.blockCount)
         == Flatten(log.history[Oldest(log.history, log.blockCount)..])
  {
    hide ScanFrom, EncodeAll, LiveBlocks, BlockStart, Flatten;
    var n, blocks := log.blockCount, log.history;
    var live := if |blocks| <= n then |blocks| else n;
    log.RestErased();
    StartIsOldest(log);
    ScanFromBack(log.flash[..], blocks, log.current, n, log.blockSize, log.flashOffset, live - 1, n);
  }

  lemma BufferScannable(log: Log)
    requires log.Valid()
    ensures Scannable(log.buffer[..], 0, log.bufferIdx, log.buffered)
  {
    assert log.buffer[..][0..log.bufferIdx] == log.buffer[..log.bufferIdx];
  }

  /** The start offset is 0 or the block after the current one, and it is the oldest live block. */
  lemma StartIsOldest(log: Log)
    requires log.Geometry() && log.Blocks()
    ensures
      var live := if |log.history| <= log.blockCount then |log.history| else log.blockCount;
      log.startOffset == BlockStart(BlockBack(log.current, live - 1, log.blockCount), log.blockSize)
    ensures log.startOffset == 0 || log.startOffset == NextOffset(log.blockOffset, log.blockSize, log.flashSize)
    ensures log.flashOffset + log.leftBlockSize == log.blockOffset + log.blockSize
  {
    NextBlockStart(log.current, log.blockCount, log.blockSize);
  }

  /**
   The counters: until a block has been erased they count every record stored; after that they are
   off by the difference between the first block and the oldest live one.
   */
  lemma CounterMeaning(log: Log)
    requires log.Valid()
    ensures
      var counted, oldest := log.nMsg + log.nMsgBuffer, Oldest(log.history, log.blockCount);
      && (|log.history| <= log.blockCount ==> counted == |log.Stored()|)
      && counted == |ScanLog(log)| + |log.history[0]| - |log.history[oldest]|
  {
    hide Flatten;
    var blocks, o := log.history, Oldest(log.history, log.blockCount);
    ScanIsSuffixOfStored(log);
    FlattenNothing();
    if o == 0 {
      assert blocks[1..1] == [] && blocks[0..] == blocks;
    } else {
      FlattenAround(blocks, o);
      FlattenFirst(blocks[..1]);
      assert blocks[..1][1..] == [];
      FlattenFirst(blocks[o..]);
      assert blocks[o..][1..] == blocks[o + 1..];
    }
  }

  lemma FlattenNothing()
    ensures Flatten<Record>([]) == []
  {
  }

  /** Every byte the next write will program is still erased, and lies inside the current block. */
  lemma WritesHitErasedBytes(log: Log)
    requires log.Valid()
    ensures log.bufferIdx <= log.leftBlockSize
    ensures log.blockOffset <= log.flashOffset
    ensures log.flashOffset + log.bufferIdx <= log.blockOffset + log.blockSize <= log.flashSize
    ensures forall i :: log.flashOffset <= i < log.blockOffset + log.blockSize ==> log.flash[i] == ERASED
  {
    log.RestErased();
  }
}
