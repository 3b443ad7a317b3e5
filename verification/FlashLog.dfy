/**
 The message log of app/src/flash/flash_interface.c: a ring of erase blocks on a NOR flash, filled
 through a 256-byte buffer.  The ghost history of blocks relates the flash to a flat,
 append-only log of records.
 */
module FlashLog {
  import opened FlashRecord

  const BUFFER_SIZE: nat := 256
  const ERASED: bv8 := 0xFF
  const EIO := -5

  // ---- the ring of blocks ----

  function NextBlock(p: nat, n: nat): nat {
    if p + 1 < n then p + 1 else 0
  }

  /** The block `back` steps before block `p`. */
  function BlockBack(p: nat, back: nat, n: nat): (q: nat)
    requires p < n && back < n
    ensures q < n
  {
    if back <= p then p - back else p + n - back
  }

  /** The offset of block `p`. */
  function BlockStart(p: nat, size: nat): nat {
    p * size
  }

  lemma BlocksDisjoint(p: nat, q: nat, size: nat)
    requires p < q
    ensures BlockStart(p, size) + size <= BlockStart(q, size)
  {
    assert (q - p - 1) * size >= 0;
    assert q * size == p * size + size + (q - p - 1) * size;
  }

  /** The offset arithmetic of the source: the end of a block is the start of the next, or wraps. */
  lemma NextBlockStart(p: nat, n: nat, size: nat)
    requires p < n && size > 0
    ensures BlockStart(0, size) == 0
    ensures BlockStart(p, size) + size <= BlockStart(n, size)
    ensures NextBlock(p, n) < n
    ensures BlockStart(NextBlock(p, n), size) ==
      if BlockStart(p, size) + size >= BlockStart(n, size) then 0 else BlockStart(p, size) + size
  {
    BlocksDisjoint(p, n, size);
    if p + 1 < n {
      BlocksDisjoint(p + 1, n, size);
      assert (p + 1) * size == p * size + size;
    } else {
      assert n * size == p * size + size;
    }
  }

  /** Stepping forward and then back by one more is stepping back, and never ends on the new block. */
  lemma BackFromNext(p: nat, back: nat, n: nat)
    requires p < n && 1 <= back < n
    ensures NextBlock(p, n) < n
    ensures BlockBack(NextBlock(p, n), back, n) == BlockBack(p, back - 1, n)
    ensures BlockBack(NextBlock(p, n), back, n) != NextBlock(p, n)
    ensures NextBlock(NextBlock(p, n), n) == BlockBack(NextBlock(p, n), n - 1, n)
  {
  }

  /**
   After `len` blocks have been opened, block `p` is being filled.  The start offset is 0 until the
   ring wraps; from then on it is the block after the current one.
   */
  ghost predicate Ring(len: nat, p: nat, n: nat, size: nat, start: nat, block: nat) {
    && len >= 1 && p < n && size > 0
    && (len <= n ==> p == len - 1 && start == 0)
    && (len > n ==> start == BlockStart(NextBlock(p, n), size))
    && block == BlockStart(p, size)
  }

  function NextOffset(off: nat, size: nat, flashSize: nat): nat {
    if off + size >= flashSize then 0 else off + size
  }

  /** The start offset moves exactly when the block being opened is the oldest one, and the ring is kept. */
  lemma RingAdvanced(len: nat, p: nat, n: nat, size: nat, start: nat, block: nat)
    requires Ring(len, p, n, size, start, block) && n >= 2
    ensures
      var flashSize := BlockStart(n, size);
      var next := NextOffset(block, size, flashSize);
      var newStart := if start == next then NextOffset(start, size, flashSize) else start;
      && next == BlockStart(NextBlock(p, n), size) && next + size <= flashSize
      && (start == next <==> len >= n)
      && (start == next ==> newStart == BlockStart(NextBlock(NextBlock(p, n), n), size))
      && Ring(len + 1, NextBlock(p, n), n, size, newStart, next)
  {
    hide BlockStart;
    NextBlockStart(p, n, size);
    var c := NextBlock(p, n);
    NextBlockStart(c, n, size);
    if len < n {
      BlocksDisjoint(p, c, size);
    }
  }

  // ---- block contents ----

  /** `size` bytes from `off` on: the records one after the other, the rest erased. */
  ghost predicate HoldsAt(s: seq<bv8>, off: nat, size: nat, rs: seq<Record>) {
    && AllStorable(rs)
    && |EncodeAll(rs)| <= size && off + size <= |s|
    && s[off..off + |EncodeAll(rs)|] == EncodeAll(rs)
    && forall i :: off + |EncodeAll(rs)| <= i < off + size ==> s[i] == ERASED
  }

  lemma HoldsAtFrame(s: seq<bv8>, t: seq<bv8>, off: nat, size: nat, rs: seq<Record>)
    requires HoldsAt(s, off, size, rs)
    requires |t| == |s| && forall i :: off <= i < off + size && i < |s| ==> t[i] == s[i]
    ensures HoldsAt(t, off, size, rs)
  {
    assert t[off..off + |EncodeAll(rs)|] == s[off..off + |EncodeAll(rs)|];
  }

  lemma HoldsAtErased(s: seq<bv8>, off: nat, size: nat)
    requires off + size <= |s| && forall i :: off <= i < off + size ==> s[i] == ERASED
    ensures HoldsAt(s, off, size, [])
  {
  }

  lemma Behind(s: seq<bv8>, t: seq<bv8>, off: nat, a: seq<bv8>, b: seq<bv8>)
    requires off + |a| + |b| <= |t| == |s| && s[off..off + |a|] == a && t[off + |a|..off + |a| + |b|] == b
    requires forall i :: off <= i < off + |a| ==> t[i] == s[i]
    ensures t[off..off + |a| + |b|] == a + b
  {
    assert t[off..off + |a|] == s[off..off + |a|];
    assert t[off..off + |a| + |b|] == t[off..off + |a|] + t[off + |a|..off + |a| + |b|];
  }

  /** Writing the encoding of more records right behind the last one. */
  lemma HoldsAtExtended(s: seq<bv8>, t: seq<bv8>, off: nat, size: nat, rs: seq<Record>, more: seq<Record>)
    requires HoldsAt(s, off, size, rs) && AllStorable(more)
    requires |t| == |s| && |EncodeAll(rs)| + |EncodeAll(more)| <= size
    requires var from := off + |EncodeAll(rs)|;
      && t[from..from + |EncodeAll(more)|] == EncodeAll(more)
      && forall i :: 0 <= i < |s| && !(from <= i < from + |EncodeAll(more)|) ==> t[i] == s[i]
    ensures HoldsAt(t, off, size, rs + more)
  {
    hide EncodeAll;
    EncodeAllConcat(rs, more);
    Behind(s, t, off, EncodeAll(rs), EncodeAll(more));
  }

  /** The block `b` steps back from block `p` holds the records of the b-th newest entry of `blocks`. */
  ghost predicate LiveBlock(s: seq<bv8>, blocks: seq<seq<Record>>, p: nat, n: nat, size: nat, b: nat)
    requires p < n && b < n && b < |blocks|
  {
    HoldsAt(s, BlockStart(BlockBack(p, b, n), size), size, blocks[|blocks| - 1 - b])
  }

  /** The newest `n` entries of `blocks` are on the flash, block `p` being the newest. */
  ghost predicate LiveBlocks(s: seq<bv8>, blocks: seq<seq<Record>>, p: nat, n: nat, size: nat)
    requires p < n
  {
    forall b :: 0 <= b < n && b < |blocks| ==> LiveBlock(s, blocks, p, n, size, b)
  }

  /** Erasing the next block makes it the newest, and at most the oldest is lost. */
  lemma LiveBlocksAdvanced(s: seq<bv8>, t: seq<bv8>, blocks: seq<seq<Record>>, p: nat, n: nat, size: nat)
    requires p < n && size > 0 && n >= 2 && LiveBlocks(s, blocks, p, n, size)
    requires |s| == |t| == BlockStart(n, size)
    requires var off := BlockStart(NextBlock(p, n), size);
      && (forall i :: off <= i < off + size && i < |t| ==> t[i] == ERASED)
      && forall i :: 0 <= i < |t| && !(off <= i < off + size) ==> t[i] == s[i]
    ensures NextBlock(p, n) < n && LiveBlocks(t, blocks + [[]], NextBlock(p, n), n, size)
  {
    hide HoldsAt, BlockStart;
    var c, after := NextBlock(p, n), blocks + [[]];
    NextBlockStart(c, n, size);
    forall b | 0 <= b < n && b < |after|
      ensures LiveBlock(t, after, c, n, size, b)
    {
      if b == 0 {
        HoldsAtErased(t, BlockStart(c, size), size);
      } else {
        BackFromNext(p, b, n);
        var q := BlockBack(p, b - 1, n);
        assert LiveBlock(s, blocks, p, n, size, b - 1);
        NextBlockStart(q, n, size);
        if q < c {
          BlocksDisjoint(q, c, size);
        } else {
          BlocksDisjoint(c, q, size);
        }
        HoldsAtFrame(s, t, BlockStart(q, size), size, blocks[|blocks| - b]);
      }
    }
  }

  /** `blocks` with more records in the block being filled. */
  ghost function Extended(blocks: seq<seq<Record>>, more: seq<Record>): (r: seq<seq<Record>>)
    requires blocks != []
    ensures |r| == |blocks| && r[|r| - 1] == blocks[|blocks| - 1] + more
  {
    blocks[|blocks| - 1 := blocks[|blocks| - 1] + more]
  }

  /** Writing behind the last record touches the block being filled and no other. */
  lemma LiveBlocksExtended(s: seq<bv8>, t: seq<bv8>, blocks: seq<seq<Record>>, p: nat, n: nat, size: nat,
                           more: seq<Record>)
    requires p < n && size > 0 && blocks != [] && LiveBlocks(s, blocks, p, n, size)
    requires AllStorable(more) && AllStorable(blocks[|blocks| - 1])
    requires |EncodeAll(blocks[|blocks| - 1])| + |EncodeAll(more)| <= size && |s| == |t|
    requires var from := BlockStart(p, size) + |EncodeAll(blocks[|blocks| - 1])|;
      && from + |EncodeAll(more)| <= |t| && t[from..from + |EncodeAll(more)|] == EncodeAll(more)
      && forall i :: 0 <= i < |s| && !(from <= i < from + |EncodeAll(more)|) ==> t[i] == s[i]
    ensures LiveBlocks(t, Extended(blocks, more), p, n, size)
  {
    hide HoldsAt, BlockStart, EncodeAll;
    var last, after := blocks[|blocks| - 1], Extended(blocks, more);
    forall b | 0 <= b < n && b < |after|
      ensures LiveBlock(t, after, p, n, size, b)
    {
      assert LiveBlock(s, blocks, p, n, size, b);
      if b == 0 {
        HoldsAtExtended(s, t, BlockStart(p, size), size, last, more);
      } else {
        var q := BlockBack(p, b, n);
        if q < p {
          BlocksDisjoint(q, p, size);
        } else {
          BlocksDisjoint(p, q, size);
        }
        HoldsAtFrame(s, t, BlockStart(q, size), size, blocks[|blocks| - 1 - b]);
      }
    }
  }

  /** Once the ring is full, the block after the one being erased is the oldest that stays. */
  lemma OldestAfterAdvance(s: seq<bv8>, blocks: seq<seq<Record>>, p: nat, n: nat, size: nat)
    requires p < n && size > 0 && n >= 2 && LiveBlocks(s, blocks, p, n, size) && |blocks| >= n
    requires |s| == BlockStart(n, size)
    ensures NextBlock(p, n) < n
    ensures
      var off, rs := BlockStart(NextBlock(NextBlock(p, n), n), size), blocks[|blocks| + 1 - n];
      off != BlockStart(NextBlock(p, n), size) && Scannable(s, off, off + size, rs)
  {
    hide BlockStart;
    var c := NextBlock(p, n);
    BackFromNext(p, n - 1, n);
    assert LiveBlock(s, blocks, p, n, size, n - 2);
    var q := BlockBack(p, n - 2, n);
    if q < c {
      BlocksDisjoint(q, c, size);
    } else {
      BlocksDisjoint(c, q, size);
    }
  }

  /** A region as a scan sees it: the records from `off` on, ending at `end` or at an erased byte. */
  ghost predicate Scannable(s: seq<bv8>, off: nat, end: nat, rs: seq<Record>) {
    && AllStorable(rs)
    && off + |EncodeAll(rs)| <= end <= |s|
    && s[off..off + |EncodeAll(rs)|] == EncodeAll(rs)
    && (off + |EncodeAll(rs)| < end ==> s[off + |EncodeAll(rs)|] == ERASED)
  }

  lemma SliceOfSlice<T>(s: seq<T>, a: nat, length: nat, o: nat, size: nat)
    requires a + length <= |s| && o + size <= length
    ensures s[a..a + length][o..o + size] == s[a + o..a + o + size]
  {
    var x, y := s[a..a + length][o..o + size], s[a + o..a + o + size];
    forall j | 0 <= j < size
      ensures x[j] == y[j]
    {
      assert x[j] == s[a..a + length][o + j] == s[a + (o + j)];
    }
  }

  /** The fields a scan reads at the start of the `k`-th record. */
  lemma ScannedRecord(s: seq<bv8>, off: nat, end: nat, rs: seq<Record>, k: nat)
    requires Scannable(s, off, end, rs) && k < |rs|
    ensures
      var at, r := off + Offset(rs, k), rs[k];
      && off + Offset(rs, k + 1) == at + |r.data| + OVERHEAD <= end
      && s[at] == r.port && s[at + 1] == r.id && s[at + 2] == r.len
      && Storable(r) && s[at..at + |r.data| + OVERHEAD] == Encode(r)
  {
    hide EncodeAll, Encode, Offset;
    RecordAt(rs, k);
    var o, e, size := Offset(rs, k), EncodeAll(rs), |rs[k].data| + OVERHEAD;
    var w := s[off..off + |e|];
    assert w == e;
    assert s[off + o] == w[o] && s[off + o + 1] == w[o + 1] && s[off + o + 2] == w[o + 2];
    SliceOfSlice(s, off, |e|, o, size);
  }

  /** The index of the oldest entry of `blocks` that is still on a ring of `n` blocks. */
  ghost function Oldest(blocks: seq<seq<Record>>, n: nat): nat {
    if |blocks| <= n then 0 else |blocks| - n
  }

  /**
   The records the message counter no longer counts.  The erased blocks are those before `Oldest`,
   but opening a block deducts the block after the erased one.
   */
  ghost function Deducted(blocks: seq<seq<Record>>, n: nat): seq<Record>
    requires blocks != [] && n >= 2
  {
    Flatten(blocks[1..Oldest(blocks, n) + 1])
  }

  /** What the counter loses when the last of `blocks` is opened: the records of the new oldest block, if it can. */
  ghost function Deduction(blocks: seq<seq<Record>>, n: nat, counter: nat): (d: nat)
    requires 1 <= n
    ensures d <= counter
  {
    if |blocks| > n && |blocks[|blocks| - n]| <= counter then |blocks[|blocks| - n]| else 0
  }

  lemma ExtendedAccount(blocks: seq<seq<Record>>, more: seq<Record>, n: nat)
    requires blocks != [] && n >= 2
    ensures Flatten(Extended(blocks, more)) == Flatten(blocks) + more
    ensures Deducted(Extended(blocks, more), n) == Deducted(blocks, n)
  {
    var after := Extended(blocks, more);
    assert after[..|after| - 1] == blocks[..|blocks| - 1];
    assert after[1..Oldest(blocks, n) + 1] == blocks[1..Oldest(blocks, n) + 1];
  }

  /** The deductions reach one block further when a block is opened on a full ring. */
  lemma DeductedFurther(blocks: seq<seq<Record>>, n: nat)
    requires blocks != [] && n >= 2
    ensures |blocks| < n ==> Deducted(blocks + [[]], n) == Deducted(blocks, n)
    ensures |blocks| >= n ==>
      var o := |blocks| + 1 - n;
      |Deducted(blocks + [[]], n)| == |Deducted(blocks, n)| + |blocks[o]| <= |Flatten(blocks)|
  {
    hide Flatten;
    var after, o := blocks + [[]], Oldest(blocks, n);
    if |blocks| < n {
      assert after[1..1] == blocks[1..1];
    } else {
      assert after[1..o + 2] == blocks[1..o + 2];
      FlattenAround(blocks, o + 1);
    }
  }

  /** Opening a block deducts exactly its new `Deduction`, and the counter is large enough for it. */
  lemma AdvancedAccount(blocks: seq<seq<Record>>, n: nat, counter: nat)
    requires blocks != [] && n >= 2 && counter == |Flatten(blocks)| - |Deducted(blocks, n)|
    ensures Flatten(blocks + [[]]) == Flatten(blocks)
    ensures |Deducted(blocks + [[]], n)| == |Deducted(blocks, n)| + Deduction(blocks + [[]], n, counter)
    ensures |blocks| >= n ==> |blocks[|blocks| + 1 - n]| <= counter
  {
    hide Flatten, Deducted;
    FlattenAppend(blocks, []);
    DeductedFurther(blocks, n);
  }

  lemma FlattenAround(blocks: seq<seq<Record>>, k: nat)
    requires 1 <= k < |blocks|
    ensures Flatten(blocks[1..k + 1]) == Flatten(blocks[1..k]) + blocks[k]
    ensures Flatten(blocks) == Flatten(blocks[..1]) + Flatten(blocks[1..k + 1]) + Flatten(blocks[k + 1..])
  {
    hide Flatten;
    FlattenUpTo(blocks, k);
    var front := blocks[..k + 1];
    FlattenSplit(blocks, k + 1);
    FlattenSplit(front, 1);
    assert front[..1] == blocks[..1];
    assert front[1..] == blocks[1..k + 1];
  }

  lemma FlattenUpTo(blocks: seq<seq<Record>>, k: nat)
    requires 1 <= k < |blocks|
    ensures Flatten(blocks[1..k + 1]) == Flatten(blocks[1..k]) + blocks[k]
  {
    assert blocks[1..k + 1][..k - 1] == blocks[1..k];
  }

  lemma {:induction false} AllSelected(rs: seq<Record>)
    ensures Filter(rs, 0) == rs
  {
    if rs != [] {
      AllSelected(rs[..|rs| - 1]);
    }
  }

  lemma ScanBounds(s: seq<bv8>, off: nat, end: nat, rs: seq<Record>)
    requires Scannable(s, off, end, rs)
    ensures AllStorable(rs) && off + Offset(rs, 0) == off && off + Offset(rs, |rs|) <= end <= |s|
    ensures off + Offset(rs, |rs|) < end ==> s[off + Offset(rs, |rs|)] == ERASED
    ensures forall k :: 0 <= k < |rs| ==> Storable(rs[k])
  {
    assert rs[..|rs|] == rs;
  }

  function Programmed(cell: bv8, data: bv8): bv8 {
    cell & data
  }

  /** Programming never sets a bit again: what is written is stored exactly if every bit of it is still set. */
  lemma ProgramClears(cell: bv8, data: bv8)
    ensures Programmed(cell, data) | cell == cell && Programmed(cell, data) | data == data
    ensures Programmed(cell, data) == data <==> data | cell == cell
  {
  }

  lemma ProgrammedErased(data: bv8)
    ensures Programmed(ERASED, data) == data
  {
  }

  /** A ring on its first block: offset 0, nothing deducted. */
  lemma FirstBlock(n: nat, size: nat)
    requires n >= 1 && size > 0
    ensures BlockStart(0, size) == 0 && size <= BlockStart(n, size)
    ensures BlockBack(0, 0, n) == 0
    ensures EncodeAll([]) == [] && Flatten<Record>([[]]) == [] && Flatten<Record>([]) == []
  {
    BlocksDisjoint(0, n, size);
  }

  lemma EncodeAllNothing()
    ensures EncodeAll([]) == []
  {
  }

  lemma SameBytes(a: array<bv8>, from: nat, b: array<bv8>, n: nat)
    requires from + n <= a.Length && n <= b.Length
    requires forall i :: from <= i < from + n ==> a[i] == b[i - from]
    ensures a[from..from + n] == b[..n]
  {
  }

  class Log {
    const blockSize: nat
    const blockCount: nat
    const flashSize: nat
    const flash: array<bv8>
    const buffer: array<bv8>
    var enabled: bool
    var bufferIdx: nat
    var nMsgBuffer: nat
    var flashOffset: nat
    var startOffset: nat
    var blockOffset: nat
    var leftBlockSize: nat
    /** The stored message counter that is reported to users. */
    var nMsg: nat

    /** The records of every block opened since the log was last cleared; the last one is being filled. */
    ghost var history: seq<seq<Record>>
    /** The records in the buffer. */
    ghost var buffered: seq<Record>
    /** The number of the block being filled. */
    ghost var current: nat

    /** First start: no offsets are stored yet, and the first block is erased. */
    constructor (blockSize: nat, blockCount: nat)
      requires blockSize >= BUFFER_SIZE && blockCount >= 2
      ensures Valid() && enabled && Stored() == [] && fresh(flash) && fresh(buffer)
      ensures this.blockSize == blockSize && this.blockCount == blockCount && buffer.Length == 256
    {
      this.blockSize, this.blockCount, flashSize := blockSize, blockCount, BlockStart(blockCount, blockSize);
      flash, buffer := new bv8[BlockStart(blockCount, blockSize)], new bv8[BUFFER_SIZE];
      enabled := true;
      bufferIdx, nMsgBuffer, flashOffset, startOffset, blockOffset := 0, 0, 0, 0, 0;
      leftBlockSize, nMsg := blockSize, 0;
      history, buffered, current := [[]], [], 0;
      new;
      FirstBlock(blockCount, blockSize);
      EraseFirst();
    }

    ghost predicate Geometry() {
      && blockSize >= BUFFER_SIZE && blockCount >= 2 && flashSize == BlockStart(blockCount, blockSize)
      && flash.Length == flashSize && buffer.Length == BUFFER_SIZE && flash != buffer
    }

    ghost predicate Blocks()
      reads this`history, this`current, this`startOffset, this`blockOffset, this`flashOffset, this`leftBlockSize, flash
    {
      && Ring(|history|, current, blockCount, blockSize, startOffset, blockOffset)
      && AllStorable(history[|history| - 1])
      && flashOffset == blockOffset + |EncodeAll(history[|history| - 1])|
      && flashOffset + leftBlockSize == blockOffset + blockSize
      && LiveBlocks(flash[..], history, current, blockCount, blockSize)
    }

    ghost predicate Valid()
      reads this, flash, buffer
    {
      && Geometry() && Blocks()
      && AllStorable(buffered)
      && bufferIdx < BUFFER_SIZE && bufferIdx <= leftBlockSize
      && buffer[..bufferIdx] == EncodeAll(buffered)
      && Counted()
      && nMsgBuffer <= |buffered| + 1
    }

    /** Every record stored since the log was last cleared. */
    ghost function Stored(): seq<Record>
      reads this
    {
      Flatten(history) + buffered
    }

    /** What the flash counter and the buffer counter add up to. */
    ghost predicate Counted()
      reads this
    {
      history != [] && blockCount >= 2 && nMsg + nMsgBuffer == |Stored()| - |Deducted(history, blockCount)|
    }

    // ---- the flash device ----

    method Erase(off: nat)
      requires Geometry() && off + blockSize <= flashSize
      modifies flash
      ensures forall i :: off <= i < off + blockSize ==> flash[i] == ERASED
      ensures forall i :: 0 <= i < flashSize && !(off <= i < off + blockSize) ==> flash[i] == old(flash[i])
    {
      for k := 0 to blockSize
        invariant forall i :: off <= i < off + k ==> flash[i] == ERASED
        invariant forall i :: 0 <= i < flashSize && !(off <= i < off + k) ==> flash[i] == old(flash[i])
      {
        flash[off + k] := ERASED;
      }
    }

    /** Programming can only clear bits. */
    method Program(off: nat, size: nat)
      requires Geometry() && size <= BUFFER_SIZE && off + size <= flashSize
      modifies flash
      ensures forall i :: off <= i < off + size ==> flash[i] == Programmed(old(flash[i]), buffer[i - off])
      ensures forall i :: 0 <= i < flashSize && !(off <= i < off + size) ==> flash[i] == old(flash[i])
    {
      hide Programmed;
      for k := 0 to size
        invariant forall i :: off <= i < off + k ==> flash[i] == Programmed(old(flash[i]), buffer[i - off])
        invariant forall i :: 0 <= i < flashSize && !(off <= i < off + k) ==> flash[i] == old(flash[i])
      {
        flash[off + k] := Programmed(flash[off + k], buffer[k]);
      }
    }

    /** The port and, if it is valid, the length byte of the message at `at`. */
    method ReadHead(at: nat, ghost off: nat, ghost end: nat, ghost rs: seq<Record>, ghost k: nat)
      returns (port: bv8, len: nat)
      requires Scannable(flash[..], off, end, rs) && k <= |rs| && at == off + Offset(rs, k) < end
      ensures k < |rs| ==> port == rs[k].port <= MAX_PORT && off + Offset(rs, k + 1) == at + len + OVERHEAD <= end
      ensures k == |rs| ==> port > MAX_PORT
    {
      hide EncodeAll, Encode, Scannable, Offset;
      ScanBounds(flash[..], off, end, rs);
      if k < |rs| {
        ScannedRecord(flash[..], off, end, rs, k);
      }
      port := flash[at];
      len := 0;
      if port <= MAX_PORT {
        len := flash[at + 2] as nat;
      }
    }

    /** Count the messages of a block on `readPort`; of the block being filled, only the written part. */
    method GetNrMsgInBlock(off: nat, readPort: bv8, ghost rs: seq<Record>) returns (n: int)
      requires Geometry()
      requires Scannable(flash[..], off, if off == blockOffset then flashOffset else off + blockSize, rs)
      ensures n == if enabled then |Filter(rs, readPort)| else EIO
      ensures enabled ==> n == |Places(rs, readPort)|
    {
      if !enabled {
        return EIO;
      }
      hide EncodeAll, Encode, Filter, Scannable, Offset;
      var at := off;
      var blockEnd := if off == blockOffset then flashOffset else off + blockSize;
      ghost var s := flash[..];
      n := 0;
      ghost var k := 0;
      ScanBounds(s, off, blockEnd, rs);
      FilterBounds(rs, readPort);
      FilterCount(rs, readPort);
      while at < blockEnd
        invariant k <= |rs| && at == off + Offset(rs, k)
        invariant n == |Filter(rs[..k], readPort)|
        decreases |rs| - k
      {
        var port, len := ReadHead(at, off, blockEnd, rs, k);
        if port > MAX_PORT {
          break;
        }
        FilterStep(rs, k, readPort);
        at := at + 2;
        at := at + len + TIMESTAMP_SIZE + 1;
        if at <= blockEnd && (port == readPort || readPort == 0) {
          n := n + 1;
        }
        k := k + 1;
      }
      if k < |rs| {
        ScannedRecord(s, off, blockEnd, rs, k);
      }
    }

    /** If the block to be opened is the oldest one, the block after it becomes the oldest. */
    method MoveStart(ghost blocks: seq<seq<Record>>, ghost p: nat, ghost block: nat)
      requires Geometry() && enabled && Ring(|blocks|, p, blockCount, blockSize, startOffset, block)
      requires LiveBlocks(flash[..], blocks, p, blockCount, blockSize)
      requires flashOffset == blockOffset == NextOffset(block, blockSize, flashSize)
      modifies this`startOffset, this`nMsg
      ensures Ring(|blocks| + 1, NextBlock(p, blockCount), blockCount, blockSize, startOffset, blockOffset)
      ensures nMsg == old(nMsg) - Deduction(blocks + [[]], blockCount, old(nMsg))
    {
      RingAdvanced(|blocks|, p, blockCount, blockSize, startOffset, block);
      hide Ring, LiveBlocks, BlockStart, EncodeAll, Scannable;
      if startOffset == flashOffset {
        startOffset := NextOffset(startOffset, blockSize, flashSize);
        OldestAfterAdvance(flash[..], blocks, p, blockCount, blockSize);
        var n := GetNrMsgInBlock(startOffset, 0, blocks[|blocks| + 1 - blockCount]);
        AllSelected(blocks[|blocks| + 1 - blockCount]);
        if n <= nMsg {
          nMsg := nMsg - n;
        }
      }
    }

    /** Erase the block that is being opened. */
    method EraseNewest(ghost blocks: seq<seq<Record>>, ghost p: nat)
      requires Geometry() && p < blockCount && LiveBlocks(flash[..], blocks, p, blockCount, blockSize)
      requires flashOffset + blockSize <= flashSize && flashOffset == BlockStart(NextBlock(p, blockCount), blockSize)
      modifies flash
      ensures NextBlock(p, blockCount) < blockCount
      ensures LiveBlocks(flash[..], blocks + [[]], NextBlock(p, blockCount), blockCount, blockSize)
    {
      hide LiveBlocks, BlockStart, NextBlock;
      ghost var was := flash[..];
      Erase(flashOffset);
      LiveBlocksAdvanced(was, flash[..], blocks, p, blockCount, blockSize);
    }

    /**
     Open the next block.  Once the ring is full this erases the oldest one; the counter then loses
     the records of the block after it, which becomes the oldest.
     */
    method GoToNextBlock() returns (error: int)
      requires Geometry() && Blocks()
      modifies this`flashOffset, this`startOffset, this`blockOffset, this`leftBlockSize, this`nMsg, this`history
      modifies this`current, flash
      ensures Geometry() && Blocks()
      ensures error == if enabled then 0 else EIO
      ensures enabled ==> history == old(history) + [[]] && leftBlockSize == blockSize
      ensures enabled ==> nMsg == old(nMsg) - Deduction(history, blockCount, old(nMsg))
      ensures !enabled ==> history == old(history) && leftBlockSize == old(leftBlockSize) && nMsg == old(nMsg)
      ensures !enabled ==> flash[..] == old(flash[..])
    {
      if !enabled {
        return EIO;
      }
      ghost var blocks, p, block := history, current, blockOffset;
      RingAdvanced(|history|, current, blockCount, blockSize, startOffset, blockOffset);
      hide Ring, LiveBlocks, BlockStart, EncodeAll, Deduction, NextBlock;
      flashOffset := flashOffset + leftBlockSize;
      if flashOffset >= flashSize {
        flashOffset := 0;
      }
      blockOffset := flashOffset;
      MoveStart(blocks, p, block);
      history, current := history + [[]], NextBlock(current, blockCount);
      EraseNewest(blocks, p);
      leftBlockSize := blockSize;
      EncodeAllNothing();
      error := 0;
    }

    /** The rest of the block being filled is still erased, and it lies inside the flash. */
    lemma RestErased()
      requires Geometry() && Blocks()
      ensures flashOffset + leftBlockSize <= flashSize
      ensures forall i :: flashOffset <= i < flashOffset + leftBlockSize ==> flash[i] == ERASED
    {
      assert LiveBlock(flash[..], history, current, blockCount, blockSize, 0);
      NextBlockStart(current, blockCount, blockSize);
    }

    /** A block is always being filled. */
    lemma Opened()
      requires Geometry() && Blocks()
      ensures history != [] && current < blockCount
    {
    }

    /** Program the buffer into the flash behind the last record; nothing is lost to bits already cleared. */
    method ProgramBuffer(ghost records: seq<Record>)
      requires Geometry() && Blocks() && bufferIdx <= BUFFER_SIZE && bufferIdx <= leftBlockSize
      requires AllStorable(records) && buffer[..bufferIdx] == EncodeAll(records)
      modifies flash
      ensures LiveBlocks(flash[..], Extended(history, records), current, blockCount, blockSize)
    {
      ghost var was, from := flash[..], flashOffset;
      RestErased();
      Program(flashOffset, bufferIdx);
      hide LiveBlocks, BlockStart, EncodeAll, Programmed;
      forall i | from <= i < from + bufferIdx
        ensures flash[i] == buffer[i - from]
      {
        ProgrammedErased(buffer[i - from]);
      }
      SameBytes(flash, from, buffer, bufferIdx);
      LiveBlocksExtended(was, flash[..], history, current, blockCount, blockSize, records);
    }

    /** Write the buffer, which holds `records`, to the flash and empty it. */
    method WriteBufferToFlash(ghost records: seq<Record>) returns (error: int)
      requires Geometry() && Blocks() && bufferIdx <= BUFFER_SIZE
      requires AllStorable(records) && buffer[..bufferIdx] == EncodeAll(records)
      modifies this`flashOffset, this`startOffset, this`blockOffset, this`leftBlockSize, this`nMsg, this`history
      modifies this`current, this`bufferIdx, this`nMsgBuffer, flash, buffer
      ensures Geometry() && Blocks()
      ensures error == if enabled then 0 else EIO
      ensures enabled ==> bufferIdx == 0 && nMsgBuffer == 0
      ensures enabled && old(bufferIdx) <= old(leftBlockSize) ==> history == Extended(old(history), records)
      ensures enabled && old(bufferIdx) <= old(leftBlockSize) ==>
        leftBlockSize == old(leftBlockSize) - old(bufferIdx) && nMsg == old(nMsg) + old(nMsgBuffer)
      ensures enabled && old(bufferIdx) > old(leftBlockSize) ==> history == Extended(old(history) + [[]], records)
      ensures !enabled ==> history == old(history) && bufferIdx == old(bufferIdx) && nMsgBuffer == old(nMsgBuffer)
      ensures !enabled ==> leftBlockSize == old(leftBlockSize) && nMsg == old(nMsg) && buffer[..] == old(buffer[..])
    {
      if !enabled {
        return EIO;
      }
      hide Blocks, Deduction, EncodeAll, AllStorable, BlockStart;
      if bufferIdx > leftBlockSize {
        var _ := GoToNextBlock();
      }
      CommitBuffer(records);
      ResetBuffer();
      error := 0;
    }

    /** Program the buffer and account for it. */
    method CommitBuffer(ghost records: seq<Record>)
      requires Geometry() && Blocks() && bufferIdx <= BUFFER_SIZE && bufferIdx <= leftBlockSize
      requires AllStorable(records) && buffer[..bufferIdx] == EncodeAll(records)
      modifies this`flashOffset, this`leftBlockSize, this`nMsg, this`history, flash
      ensures Geometry() && Blocks() && history == Extended(old(history), records)
      ensures leftBlockSize == old(leftBlockSize) - bufferIdx && nMsg == old(nMsg) + nMsgBuffer
    {
      hide Ring, LiveBlocks, EncodeAll, BlockStart;
      Opened();
      ProgramBuffer(records);
      EncodeAllConcat(history[|history| - 1], records);
      flashOffset := flashOffset + bufferIdx;
      leftBlockSize := leftBlockSize - bufferIdx;
      nMsg := nMsg + nMsgBuffer;
      history := Extended(history, records);
    }

    method ResetBuffer()
      requires Geometry()
      modifies this`bufferIdx, this`nMsgBuffer, buffer
      ensures bufferIdx == 0 && nMsgBuffer == 0
    {
      for i := 0 to BUFFER_SIZE
        modifies buffer
      {
        buffer[i] := 0;
      }
      bufferIdx := 0;
      nMsgBuffer := 0;
    }

    /** The buffer holds the records `base` and the first `k` bytes of `r`. */
    ghost predicate Partial(base: seq<Record>, r: Record, k: nat)
      requires Geometry()
      reads this, buffer
    {
      && AllStorable(base) && Storable(r) && k <= |Encode(r)|
      && |EncodeAll(base)| + |Encode(r)| <= BUFFER_SIZE
      && bufferIdx == |EncodeAll(base)| + k < BUFFER_SIZE
      && buffer[..bufferIdx] == EncodeAll(base) + Encode(r)[..k]
    }

    twostate predicate Kept()
      reads this
    {
      && history == old(history) && leftBlockSize == old(leftBlockSize)
      && nMsg == old(nMsg) && nMsgBuffer == old(nMsgBuffer)
    }

    /** The buffer has been emptied into the flash, where it left `records`. */
    twostate predicate WrittenOut(records: seq<Record>)
      reads this
    {
      && bufferIdx == 0 && nMsgBuffer == 0 && nMsg == old(nMsg) + old(nMsgBuffer)
      && old(history) != [] && history == Extended(old(history), records)
    }

    /** Add the next byte of a record.  A full buffer, which can only be full of whole records, is written out. */
    method AddByteToBuffer(data: bv8, ghost base: seq<Record>, ghost r: Record, ghost k: nat) returns (error: int)
      requires Geometry() && Blocks() && Partial(base, r, k) && k < |Encode(r)| && data == Encode(r)[k]
      requires |EncodeAll(base)| + |Encode(r)| <= leftBlockSize && enabled
      modifies this`flashOffset, this`startOffset, this`blockOffset, this`leftBlockSize, this`nMsg, this`history
      modifies this`current, this`bufferIdx, this`nMsgBuffer, flash, buffer
      ensures Geometry() && Blocks() && error == 0
      ensures old(bufferIdx) + 1 < BUFFER_SIZE ==> Partial(base, r, k + 1) && Kept()
      ensures old(bufferIdx) + 1 == BUFFER_SIZE ==> k + 1 == |Encode(r)| && WrittenOut(base + [r])
    {
      hide Ring, LiveBlocks, EncodeAll, Encode, Blocks;
      error := 0;
      PutByte(data, base, r, k);
      if bufferIdx == BUFFER_SIZE {
        assert Encode(r)[..k + 1] == Encode(r);
        EncodeAllAppend(base, r);
        error := WriteBufferToFlash(base + [r]);
      }
    }

    method PutByte(data: bv8, ghost base: seq<Record>, ghost r: Record, ghost k: nat)
      requires Geometry() && Partial(base, r, k) && k < |Encode(r)| && data == Encode(r)[k]
      modifies this`bufferIdx, buffer
      ensures bufferIdx == old(bufferIdx) + 1
      ensures buffer[..bufferIdx] == EncodeAll(base) + Encode(r)[..k + 1]
    {
      hide EncodeAll, Encode;
      ghost var e, was := Encode(r), buffer[..bufferIdx];
      buffer[bufferIdx] := data;
      bufferIdx := bufferIdx + 1;
      assert buffer[..bufferIdx] == was + [data];
      assert e[..k + 1] == e[..k] + [e[k]];
    }

    /** Empty the buffer into the flash; the stored records stay the same. */
    method Flush() returns (error: int)
      requires Valid()
      modifies this`flashOffset, this`startOffset, this`blockOffset, this`leftBlockSize, this`nMsg, this`history
      modifies this`current, this`bufferIdx, this`nMsgBuffer, this`buffered, flash, buffer
      ensures Valid() && Stored() == old(Stored()) && error == if enabled then 0 else EIO
      ensures enabled ==> bufferIdx == 0 && buffered == [] && nMsgBuffer == 0
      ensures enabled ==>
        history == Extended(old(history), old(buffered)) && leftBlockSize == old(leftBlockSize) - old(bufferIdx)
      ensures !enabled ==> history == old(history) && buffered == old(buffered) && bufferIdx == old(bufferIdx)
    {
      ExtendedAccount(history, buffered, blockCount);
      hide Blocks, EncodeAll, Flatten, Deducted, Extended;
      error := WriteBufferToFlash(buffered);
      if enabled {
        buffered := [];
        EncodeAllNothing();
      }
    }

    /** Open the next block while the buffer is empty: the deduction from the counter always goes through. */
    method Advance() returns (error: int)
      requires Valid() && enabled && buffered == [] && bufferIdx == 0 && nMsgBuffer == 0
      modifies this`flashOffset, this`startOffset, this`blockOffset, this`leftBlockSize, this`nMsg, this`history
      modifies this`current, flash
      ensures Valid() && Stored() == old(Stored()) && error == 0
      ensures history == old(history) + [[]] && leftBlockSize == blockSize
    {
      AdvancedAccount(history, blockCount, nMsg);
      hide Blocks, EncodeAll, Flatten, Deducted, Deduction;
      error := GoToNextBlock();
    }

    /** Write a message to the buffer: port, message, timestamp. */
    method AddRecord(message: array<bv8>, messageLength: nat, port: bv8, now: bv32, ghost base: seq<Record>,
                     ghost r: Record)
      requires Geometry() && Blocks() && enabled && message != buffer && message != flash
      requires messageLength <= message.Length
      requires IsMessage(message[..messageLength]) && port <= MAX_PORT
      requires r == Recorded(message[..messageLength], port, now)
      requires Partial(base, r, 0) && |EncodeAll(base)| + |Encode(r)| <= leftBlockSize
      modifies this`flashOffset, this`startOffset, this`blockOffset, this`leftBlockSize, this`nMsg, this`history
      modifies this`current, this`bufferIdx, this`nMsgBuffer, flash, buffer
      ensures Geometry() && Blocks()
      ensures |EncodeAll(base)| + |Encode(r)| < BUFFER_SIZE ==> Partial(base, r, |Encode(r)|) && Kept()
      ensures |EncodeAll(base)| + |Encode(r)| == BUFFER_SIZE ==> WrittenOut(base + [r])
    {
      ghost var e, m := Encode(r), message[..messageLength];
      assert e == [port] + m + TimeBytes(now);
      hide Blocks, EncodeAll, Encode, Recorded, TimeBytes;
      var error := AddByteToBuffer(port, base, r, 0);
      assert e[1..|e| - TIMESTAMP_SIZE] == m;
      AddMessageBytes(message, messageLength, base, r);
      assert e[|e| - TIMESTAMP_SIZE..] == TimeBytes(now);
      AddTimestamp(now, base, r);
    }

    method AddMessageBytes(message: array<bv8>, messageLength: nat, ghost base: seq<Record>, ghost r: Record)
      requires Geometry() && Blocks() && enabled && message != buffer && message != flash
      requires messageLength <= message.Length
      requires Partial(base, r, 1) && |EncodeAll(base)| + |Encode(r)| <= leftBlockSize
      requires messageLength + 1 == |Encode(r)| - TIMESTAMP_SIZE
      requires Encode(r)[1..messageLength + 1] == message[..messageLength]
      modifies this`flashOffset, this`startOffset, this`blockOffset, this`leftBlockSize, this`nMsg, this`history
      modifies this`current, this`bufferIdx, this`nMsgBuffer, flash, buffer
      ensures Geometry() && Blocks() && Partial(base, r, messageLength + 1) && Kept()
    {
      hide Blocks, EncodeAll, Encode;
      ghost var e, m := Encode(r), message[..messageLength];
      for i := 0 to messageLength
        modifies this`flashOffset, this`startOffset, this`blockOffset, this`leftBlockSize, this`nMsg, this`history
        modifies this`current, this`bufferIdx, this`nMsgBuffer, flash, buffer
        invariant Blocks() && message[..messageLength] == m && Partial(base, r, i + 1) && Kept()
      {
        assert message[i] == m[i] == e[1..messageLength + 1][i];
        var error := AddByteToBuffer(message[i], base, r, i + 1);
      }
    }

    /**
     The first `k` bytes of a record are in the buffer behind `base`, or all of it is written out;
     the rest is as it was when these were the history, the room left in the block and the counters.
     */
    ghost predicate Stamped(base: seq<Record>, r: Record, k: nat, blocks: seq<seq<Record>>, room: nat, counted: nat,
                            unwritten: nat)
      requires Geometry() && AllStorable(base) && Storable(r)
      reads this, buffer
    {
      if k < |Encode(r)| || |EncodeAll(base)| + |Encode(r)| < BUFFER_SIZE then
        && Partial(base, r, k) && history == blocks && leftBlockSize == room && nMsg == counted
        && nMsgBuffer == unwritten
      else
        && bufferIdx == 0 && nMsgBuffer == 0 && nMsg == counted + unwritten
        && blocks != [] && history == Extended(blocks, base + [r])
    }

    /** Add one byte of the timestamp. */
    method AddTimeByte(data: bv8, ghost base: seq<Record>, ghost r: Record, ghost k: nat,
                       ghost blocks: seq<seq<Record>>, ghost room: nat, ghost counted: nat, ghost unwritten: nat)
      requires Geometry() && Blocks() && enabled && AllStorable(base) && Storable(r) && k < |Encode(r)|
      requires data == Encode(r)[k]
      requires Stamped(base, r, k, blocks, room, counted, unwritten) && |EncodeAll(base)| + |Encode(r)| <= room
      modifies this`flashOffset, this`startOffset, this`blockOffset, this`leftBlockSize, this`nMsg, this`history
      modifies this`current, this`bufferIdx, this`nMsgBuffer, flash, buffer
      ensures Geometry() && Blocks() && Stamped(base, r, k + 1, blocks, room, counted, unwritten)
    {
      hide Blocks, EncodeAll, Encode;
      var error := AddByteToBuffer(data, base, r, k);
    }

    method AddTimeBytes(timestamp: seq<bv8>, ghost base: seq<Record>, ghost r: Record, ghost from: nat,
                        ghost blocks: seq<seq<Record>>, ghost room: nat, ghost counted: nat, ghost unwritten: nat)
      requires Geometry() && Blocks() && enabled && AllStorable(base) && Storable(r)
      requires from + |timestamp| == |Encode(r)| && Encode(r)[from..] == timestamp
      requires Stamped(base, r, from, blocks, room, counted, unwritten) && |EncodeAll(base)| + |Encode(r)| <= room
      modifies this`flashOffset, this`startOffset, this`blockOffset, this`leftBlockSize, this`nMsg, this`history
      modifies this`current, this`bufferIdx, this`nMsgBuffer, flash, buffer
      ensures Geometry() && Blocks() && Stamped(base, r, |Encode(r)|, blocks, room, counted, unwritten)
    {
      hide *;
      for i := 0 to |timestamp|
        modifies this`flashOffset, this`startOffset, this`blockOffset, this`leftBlockSize, this`nMsg, this`history
        modifies this`current, this`bufferIdx, this`nMsgBuffer, flash, buffer
        invariant Geometry() && Blocks() && Stamped(base, r, from + i, blocks, room, counted, unwritten)
      {
        assert timestamp[i] == Encode(r)[from..][i];
        AddTimeByte(timestamp[i], base, r, from + i, blocks, room, counted, unwritten);
      }
    }

    method AddTimestamp(now: bv32, ghost base: seq<Record>, ghost r: Record)
      requires Geometry() && Blocks() && enabled && Storable(r)
      requires Partial(base, r, |Encode(r)| - TIMESTAMP_SIZE) && |EncodeAll(base)| + |Encode(r)| <= leftBlockSize
      requires Encode(r)[|Encode(r)| - TIMESTAMP_SIZE..] == TimeBytes(now)
      modifies this`flashOffset, this`startOffset, this`blockOffset, this`leftBlockSize, this`nMsg, this`history
      modifies this`current, this`bufferIdx, this`nMsgBuffer, flash, buffer
      ensures Geometry() && Blocks()
      ensures |EncodeAll(base)| + |Encode(r)| < BUFFER_SIZE ==> Partial(base, r, |Encode(r)|) && Kept()
      ensures |EncodeAll(base)| + |Encode(r)| == BUFFER_SIZE ==> WrittenOut(base + [r])
    {
      hide Blocks, EncodeAll, Encode, TimeBytes;
      AddTimeBytes(TimeBytes(now), base, r, |Encode(r)| - TIMESTAMP_SIZE, history, leftBlockSize, nMsg, nMsgBuffer);
    }

    /** Make `size` bytes fit both the buffer and the block: write the buffer out, and change block if need be. */
    method MakeRoom(size: nat)
      requires Valid() && enabled && size < BUFFER_SIZE
      modifies this`flashOffset, this`startOffset, this`blockOffset, this`leftBlockSize, this`nMsg, this`history
      modifies this`current, this`bufferIdx, this`nMsgBuffer, this`buffered, flash, buffer
      ensures Valid() && Stored() == old(Stored())
      ensures bufferIdx + size <= BUFFER_SIZE && bufferIdx + size <= leftBlockSize
      ensures |history| == |old(history)| + if old(bufferIdx) + size > old(leftBlockSize) then 1 else 0
    {
      if bufferIdx + size > leftBlockSize {
        var _ := Flush();
        var _ := Advance();
      } else if bufferIdx + size > BUFFER_SIZE {
        var _ := Flush();
      }
    }

    /** Put a message that fits behind the buffered ones: at the end of the buffer, or into the flash with all of it. */
    method BufferRecord(message: array<bv8>, messageLength: nat, port: bv8, now: bv32, ghost r: Record)
      requires Valid() && enabled && message != buffer && message != flash && messageLength <= message.Length
      requires IsMessage(message[..messageLength]) && port <= MAX_PORT
      requires r == Recorded(message[..messageLength], port, now)
      requires bufferIdx + |Encode(r)| <= BUFFER_SIZE && bufferIdx + |Encode(r)| <= leftBlockSize
      modifies this`flashOffset, this`startOffset, this`blockOffset, this`leftBlockSize, this`nMsg, this`history
      modifies this`current, this`bufferIdx, this`nMsgBuffer, this`buffered, flash, buffer
      ensures Counted() ==> Valid()
      ensures nMsg + nMsgBuffer == old(nMsg + nMsgBuffer) + 1
      ensures
        if old(bufferIdx) + |Encode(r)| < BUFFER_SIZE then history == old(history) && buffered == old(buffered) + [r]
        else old(history) != [] && history == Extended(old(history), old(buffered) + [r]) && buffered == []
    {
      hide Blocks, EncodeAll, Encode, Recorded, Counted;
      ghost var base := buffered;
      assert Encode(r)[..0] == [];
      AddRecord(message, messageLength, port, now, base, r);
      CountRecord(base, r);
    }

    method Append(message: array<bv8>, messageLength: nat, port: bv8, now: bv32)
      requires Valid() && enabled && message != buffer && message != flash && messageLength <= message.Length
      requires IsMessage(message[..messageLength]) && port <= MAX_PORT
      requires bufferIdx + messageLength + TIMESTAMP_SIZE + 1 <= BUFFER_SIZE
      requires bufferIdx + messageLength + TIMESTAMP_SIZE + 1 <= leftBlockSize
      modifies this`flashOffset, this`startOffset, this`blockOffset, this`leftBlockSize, this`nMsg, this`history
      modifies this`current, this`bufferIdx, this`nMsgBuffer, this`buffered, flash, buffer
      ensures Valid() && |history| == |old(history)|
      ensures Stored() == old(Stored()) + [Recorded(old(message[..messageLength]), port, now)]
    {
      ghost var r := Recorded(message[..messageLength], port, now);
      assert |Encode(r)| == messageLength + TIMESTAMP_SIZE + 1;
      ExtendedAccount(history, buffered + [r], blockCount);
      hide Blocks, EncodeAll, Flatten, Deducted, Encode, Recorded;
      BufferRecord(message, messageLength, port, now, r);
      assert Stored() == old(Stored()) + [r];
    }

    /** The record is complete: it is the last in the buffer, or the buffer was full and has been written out. */
    method CountRecord(ghost base: seq<Record>, ghost r: Record)
      requires Geometry() && Blocks() && Storable(r) && AllStorable(base)
      requires |EncodeAll(base)| + |Encode(r)| < BUFFER_SIZE ==>
        Partial(base, r, |Encode(r)|) && bufferIdx <= leftBlockSize && nMsgBuffer <= |base| + 1
      requires |EncodeAll(base)| + |Encode(r)| >= BUFFER_SIZE ==> bufferIdx == 0 && nMsgBuffer == 0
      modifies this`nMsgBuffer, this`buffered
      ensures nMsgBuffer == old(nMsgBuffer) + 1
      ensures Counted() ==> Valid()
      ensures buffered == if |EncodeAll(base)| + |Encode(r)| < BUFFER_SIZE then base + [r] else []
    {
      hide Blocks, EncodeAll, Encode, Counted;
      assert Encode(r)[..|Encode(r)|] == Encode(r);
      EncodeAllAppend(base, r);
      EncodeAllNothing();
      buffered := if |EncodeAll(base)| + |Encode(r)| < BUFFER_SIZE then base + [r] else [];
      nMsgBuffer := nMsgBuffer + 1;
    }

    /** Store a message: the log grows by exactly its record, or nothing changes if the flash is disabled. */
    method StoreMessage(message: array<bv8>, messageLength: nat, port: bv8, now: bv32) returns (error: int)
      requires Valid() && message != buffer && message != flash && messageLength <= message.Length
      requires IsMessage(message[..messageLength]) && port <= MAX_PORT
      modifies this`flashOffset, this`startOffset, this`blockOffset, this`leftBlockSize, this`nMsg, this`history
      modifies this`current, this`bufferIdx, this`nMsgBuffer, this`buffered, flash, buffer
      ensures Valid() && error == if enabled then 0 else EIO
      ensures enabled ==> Stored() == old(Stored()) + [Recorded(old(message[..messageLength]), port, now)]
      ensures enabled ==>
        |history| == |old(history)| +
          if old(bufferIdx) + messageLength + TIMESTAMP_SIZE + 1 > old(leftBlockSize) then 1 else 0
      ensures !enabled ==> Stored() == old(Stored()) && history == old(history)
    {
      if !enabled {
        return EIO;
      }
      hide Valid, Stored, Recorded;
      ghost var m := message[..messageLength];
      MakeRoom(messageLength + TIMESTAMP_SIZE + 1);
      assert message[..messageLength] == m;
      Append(message, messageLength, port, now);
      error := 0;
    }

    /** Forget all messages: start again on the first block, erased. */
    method Clear() returns (error: int)
      requires Valid()
      modifies this`flashOffset, this`startOffset, this`blockOffset, this`leftBlockSize, this`nMsg, this`history
      modifies this`current, this`bufferIdx, this`nMsgBuffer, this`buffered, flash, buffer
      ensures Valid() && error == if enabled then 0 else EIO
      ensures enabled ==> Stored() == [] && nMsg == 0 && nMsgBuffer == 0
      ensures !enabled ==> Stored() == old(Stored()) && history == old(history)
    {
      if !enabled {
        return EIO;
      }
      EraseFirst();
      hide Blocks;
      ResetBuffer();
      FirstBlock(blockCount, blockSize);
      error := 0;
    }

    method EraseFirst()
      requires Geometry()
      modifies this`flashOffset, this`startOffset, this`blockOffset, this`leftBlockSize, this`nMsg, this`history
      modifies this`current, this`buffered, flash
      ensures Blocks() && history == [[]] && buffered == [] && nMsg == 0
    {
      flashOffset, startOffset, leftBlockSize, blockOffset, nMsg := 0, 0, blockSize, 0, 0;
      history, buffered, current := [[]], [], 0;
      FirstBlock(blockCount, blockSize);
      Erase(flashOffset);
      HoldsAtErased(flash[..], 0, blockSize);
    }
  }
}
