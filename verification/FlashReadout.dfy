/**
 Reading messages back out of the flash log (app/src/flash/flash_interface.c): messages are packed
 into payloads no longer than the receiver accepts, and a window counted from the newest message is
 found by walking the blocks backwards.
 */
module FlashReadout {
  import opened FlashRecord
  import opened FlashLog
  import opened FlashWindow
  import opened FlashScan
  import opened ReadoutDecoder

  const MAX_BUF_SIZE: nat := 255

  datatype Sender = Dev | Lora | Sat | Bt

  /** A payload handed to the sender's thread, the records in it, and the length limit in force at the time. */
  datatype Batch = Batch(records: seq<Record>, payload: seq<bv8>, limit: nat)

  ghost predicate GoodBatch(b: Batch) {
    && AllStorable(b.records) && b.payload == EncodeAll(b.records)
    && |b.payload| <= MAX_BUF_SIZE
    && (|b.payload| <= b.limit || |b.records| <= 1)
  }

  ghost function AllRecords(bs: seq<Batch>): seq<Record> {
    if bs == [] then [] else AllRecords(bs[..|bs| - 1]) + bs[|bs| - 1].records
  }

  ghost function Payloads(bs: seq<Batch>): seq<seq<bv8>> {
    seq(|bs|, i requires 0 <= i < |bs| => bs[i].payload)
  }

  /** Nothing is lost or repeated between payloads: joined, they are the encoded records. */
  lemma {:induction false} PayloadsAreRecords(bs: seq<Batch>)
    requires forall i :: 0 <= i < |bs| ==> GoodBatch(bs[i])
    ensures AllStorable(AllRecords(bs)) && Flatten(Payloads(bs)) == EncodeAll(AllRecords(bs))
  {
    if bs != [] {
      var init, last := bs[..|bs| - 1], bs[|bs| - 1];
      PayloadsAreRecords(init);
      hide Flatten, EncodeAll, Encode;
      EncodeAllConcat(AllRecords(init), last.records);
      assert Payloads(bs) == Payloads(init) + [last.payload];
      FlattenAppend(Payloads(init), last.payload);
    }
  }

  lemma BatchAdded(bs: seq<Batch>, b: Batch)
    ensures AllRecords(bs + [b]) == AllRecords(bs) + b.records && Payloads(bs + [b]) == Payloads(bs) + [b.payload]
    ensures EncodeAll([]) == []
  {
    assert (bs + [b])[..|bs|] == bs;
  }

  /** What the receiver decodes from payloads, one after the other. */
  ghost function DecodedAll<D>(payloads: seq<seq<bv8>>, decoder: (seq<bv8>, bv8) -> D, empty: D): seq<Entry<D>> {
    if payloads == [] then []
    else
      var init, last := payloads[..|payloads| - 1], payloads[|payloads| - 1];
      DecodedAll(init, decoder, empty) + DecodedFrom(last, 0, decoder, empty)
  }

  ghost function AllFound(bs: seq<Batch>): seq<Record> {
    if bs == [] then [] else AllFound(bs[..|bs| - 1]) + Found(bs[|bs| - 1].records)
  }

  predicate EndsEmpty(rs: seq<Record>) {
    rs != [] && rs[|rs| - 1].len == 0
  }

  lemma {:induction false} BatchesDecoded<D>(bs: seq<Batch>, decoder: (seq<bv8>, bv8) -> D, empty: D)
    requires forall i :: 0 <= i < |bs| ==> GoodBatch(bs[i])
    ensures DecodedAll(Payloads(bs), decoder, empty) == EntriesOf(AllFound(bs), decoder, empty)
  {
    hide EncodeAll, DecodedFrom, Found;
    if bs == [] {
      assert Payloads(bs) == [];
    } else {
      var init, last := bs[..|bs| - 1], bs[|bs| - 1];
      BatchesDecoded(init, decoder, empty);
      assert Payloads(bs) == Payloads(init) + [last.payload];
      assert Payloads(bs)[..|bs| - 1] == Payloads(init);
      DecodeUndoesPacking(last.records, decoder, empty);
      assert EntriesOf(AllFound(bs), decoder, empty)
          == EntriesOf(AllFound(init), decoder, empty) + EntriesOf(Found(last.records), decoder, empty);
    }
  }

  /** All records are found exactly if none is the empty last record of its payload. */
  lemma {:induction false} FoundInBatches(bs: seq<Batch>)
    ensures |AllFound(bs)| <= |AllRecords(bs)|
    ensures |AllFound(bs)| == |AllRecords(bs)| <==> forall i :: 0 <= i < |bs| ==> !EndsEmpty(bs[i].records)
    ensures |AllFound(bs)| == |AllRecords(bs)| ==> AllFound(bs) == AllRecords(bs)
  {
    if bs != [] {
      var init, last := bs[..|bs| - 1], bs[|bs| - 1];
      FoundInBatches(init);
      assert forall i :: 0 <= i < |init| ==> bs[i] == init[i];
      assert |Found(last.records)| == |last.records| <==> !EndsEmpty(last.records);
    }
  }

  // ---- walking the blocks backwards ----

  function PrevOffset(off: nat, size: nat, flashSize: nat): nat
    requires size <= flashSize
  {
    if off < size then flashSize - size else off - size
  }

  ghost function LiveRecords(log: Log): (r: seq<seq<Record>>)
    requires log.Geometry()
    reads log
    ensures log.history != [] ==> r != []
  {
    log.history[Oldest(log.history, log.blockCount)..]
  }

  /** `off` is the offset of the live block `b` steps before the current one. */
  ghost predicate Position(log: Log, off: nat, b: nat)
    requires log.Geometry()
    reads log
  {
    && log.current < log.blockCount && b < log.blockCount && b < |log.history|
    && off == BlockStart(BlockBack(log.current, b, log.blockCount), log.blockSize)
  }

  lemma StepBack(p: nat, b: nat, n: nat, size: nat)
    requires p < n && b + 1 < n && size > 0
    ensures size <= BlockStart(n, size)
    ensures BlockStart(BlockBack(p, b + 1, n), size) ==
      PrevOffset(BlockStart(BlockBack(p, b, n), size), size, BlockStart(n, size))
  {
    hide BlockStart;
    var q := BlockBack(p, b + 1, n);
    NextBlockStart(q, n, size);
    NextBlockStart(0, n, size);
    assert NextBlock(q, n) == BlockBack(p, b, n);
    if q + 1 < n {
      BlocksDisjoint(q, q + 1, size);
    }
  }

  lemma DifferentOffsets(p: nat, b: nat, c: nat, n: nat, size: nat)
    requires p < n && b < c < n && size > 0
    ensures BlockStart(BlockBack(p, b, n), size) != BlockStart(BlockBack(p, c, n), size)
  {
    hide BlockStart;
    var q, r := BlockBack(p, b, n), BlockBack(p, c, n);
    if q < r {
      BlocksDisjoint(q, r, size);
    } else {
      BlocksDisjoint(r, q, size);
    }
  }

  /** What the walk finds at a position, and where it goes from there. */
  lemma AtPosition(log: Log, off: nat, b: nat)
    requires log.Geometry() && log.Blocks() && Position(log, off, b)
    ensures |LiveRecords(log)| == if |log.history| <= log.blockCount then |log.history| else log.blockCount
    ensures b < |LiveRecords(log)|
    ensures Scannable(log.flash[..], off, if off == log.blockOffset then log.flashOffset else off + log.blockSize,
      LiveRecords(log)[|LiveRecords(log)| - 1 - b])
    ensures log.blockSize <= log.flashSize
    ensures off == log.startOffset <==> b + 1 == |LiveRecords(log)|
    ensures b + 1 < |LiveRecords(log)| ==> Position(log, PrevOffset(off, log.blockSize, log.flashSize), b + 1)
  {
    hide BlockStart, LiveBlocks, EncodeAll, Scannable;
    var p, n, size, live := log.current, log.blockCount, log.blockSize, |LiveRecords(log)|;
    LiveBlockScannable(log.flash[..], log.history, p, n, size, b);
    StartIsOldest(log);
    NextBlockStart(0, n, size);
    if b > 0 {
      StepForward(p, b, n, size);
    }
    if b + 1 < live {
      StepBack(p, b, n, size);
      DifferentOffsets(p, b, live - 1, n, size);
    }
  }

  class Readout {
    const log: Log
    const payload: array<bv8>
    const sender: Sender
    /** The longest message the Bluetooth service takes. */
    const btMax: nat
    /** The payload limit that comes back with the k-th confirmation of a LoRa message. */
    const replies: nat -> bv8
    /** *max_rsp_len. */
    var limit: nat
    var payloadIdx: nat
    /** The messages put into the sender's queue. */
    var sent: seq<seq<bv8>>
    ghost var batches: seq<Batch>
    ghost var pending: seq<Record>

    constructor (log: Log, sender: Sender, btMax: nat, replies: nat -> bv8, limit: nat)
      requires btMax <= MAX_BUF_SIZE && limit <= MAX_BUF_SIZE
      ensures Valid() && sent == [] && Delivered() == [] && fresh(payload)
      ensures this.log == log && this.sender == sender && this.btMax == btMax && this.replies == replies
      ensures this.limit == limit
    {
      this.log, this.sender, this.btMax, this.replies, this.limit := log, sender, btMax, replies, limit;
      payload := new bv8[MAX_BUF_SIZE];
      payloadIdx, sent, batches, pending := 0, [], [], [];
    }

    ghost predicate Valid()
      reads this, payload
    {
      && payload.Length == MAX_BUF_SIZE && btMax <= MAX_BUF_SIZE && limit <= MAX_BUF_SIZE
      && payload != log.flash && payload != log.buffer
      && (forall i :: 0 <= i < |batches| ==> GoodBatch(batches[i]))
      && (forall i :: 0 <= i < |batches| && batches[i].records != [] ==> batches[i].limit == Clamped(batches[i].limit))
      && sent == Payloads(batches)
      && AllStorable(pending) && payloadIdx <= MAX_BUF_SIZE && payload[..payloadIdx] == EncodeAll(pending)
      && (payloadIdx <= limit || |pending| <= 1)
      && (pending != [] ==> limit == Clamped(limit))
    }

    /** The records delivered so far, sent or still in the payload. */
    ghost function Delivered(): seq<Record>
      reads this
    {
      AllRecords(batches) + pending
    }

    function Clamped(n: nat): nat {
      if sender == Bt && n > btMax then btMax else if sender == Lora && n > MAX_BUF_SIZE then MAX_BUF_SIZE else n
    }

    /** prv_send_payload: hand over the payload; the answer may set a new limit. */
    method SendPayload()
      requires Valid()
      modifies this`limit, this`sent, this`batches, this`pending, this`payloadIdx
      ensures Valid() && pending == [] && payloadIdx == 0
      ensures Delivered() == old(Delivered())
      ensures sent == old(sent) + [old(payload[..payloadIdx])]
      ensures limit == match sender case Dev => old(limit) case Lora => replies(|old(sent)|) as nat case _ => btMax
    {
      hide AllRecords, Payloads, EncodeAll;
      ghost var b := Batch(pending, payload[..payloadIdx], limit);
      assert GoodBatch(b);
      BatchAdded(batches, b);
      sent := sent + [payload[..payloadIdx]];
      match sender {
        case Dev =>
        case Lora => limit := replies(|sent| - 1) as nat;
        case _ => limit := btMax;
      }
      batches := batches + [b];
      pending := [];
      payloadIdx := 0;
    }

    /** prv_check_payload_send: send first if the next message does not fit under the limit. */
    method CheckPayloadSend(newLen: nat)
      requires Valid()
      modifies this`limit, this`sent, this`batches, this`pending, this`payloadIdx
      ensures Valid() && Delivered() == old(Delivered())
      ensures payloadIdx + newLen + OVERHEAD <= limit || (payloadIdx == 0 && pending == [])
      ensures limit == Clamped(limit)
      ensures sent ==
        if old(payloadIdx) + newLen + OVERHEAD > Clamped(old(limit)) then old(sent) + [old(payload[..payloadIdx])]
        else old(sent)
    {
      limit := Clamped(limit);
      if payloadIdx + newLen + OVERHEAD > limit {
        SendPayload();
      }
    }

    /** Copy `size` bytes of flash to the payload. */
    method ReadFromFlash(off: nat, at: nat, size: nat)
      requires payload != log.flash && off + size <= log.flash.Length && at + size <= payload.Length
      modifies payload
      ensures payload[..at + size] == old(payload[..at]) + log.flash[off..off + size]
    {
      for i := 0 to size
        invariant payload[..at] == old(payload[..at]) && payload[at..at + i] == log.flash[off..off + i]
      {
        payload[at + i] := log.flash[off + i];
      }
      assert payload[..at + size] == payload[..at] + payload[at..at + size];
    }

    /** Copy the message at `at`: its head, its data, its timestamp. */
    method CopyMessage(at: nat, len: nat)
      requires payload != log.flash && payloadIdx + len + OVERHEAD <= payload.Length
      requires at + len + OVERHEAD <= log.flash.Length
      modifies payload
      ensures payload[..payloadIdx + len + OVERHEAD] == old(payload[..payloadIdx]) + log.flash[at..at + len + OVERHEAD]
    {
      ReadFromFlash(at, payloadIdx, HEAD_SIZE);
      ReadFromFlash(at + HEAD_SIZE, payloadIdx + HEAD_SIZE, len);
      ReadFromFlash(at + HEAD_SIZE + len, payloadIdx + HEAD_SIZE + len, TIMESTAMP_SIZE);
      Pieces(log.flash[..], at, HEAD_SIZE, len, TIMESTAMP_SIZE);
    }

    /** Add the message at `at` to the payload. */
    method PackMessage(at: nat, len: nat, ghost r: Record)
      requires Valid() && Storable(r) && len == |r.data| && at + len + OVERHEAD <= log.flash.Length
      requires log.flash[at..at + len + OVERHEAD] == Encode(r)
      requires payloadIdx + len + OVERHEAD <= limit || (payloadIdx == 0 && pending == [])
      requires limit == Clamped(limit)
      modifies this`payloadIdx, this`pending, payload
      ensures Valid() && Delivered() == old(Delivered()) + [r]
      ensures sent == old(sent)
    {
      hide EncodeAll, Encode, GoodBatch, AllRecords;
      CopyMessage(at, len);
      payloadIdx := payloadIdx + len + OVERHEAD;
      EncodeAllAppend(pending, r);
      pending := pending + [r];
    }

    /**
     One message of the block scan: `n` messages on the port have been met before it.  It is packed
     if it lies in the wanted range and skipped otherwise.
     */
    method VisitMessage(at: nat, port: bv8, len: nat, readPort: bv8, start: nat, n: nat, ghost r: Record)
      returns (n': nat, packed: nat)
      requires Valid() && Storable(r) && port == r.port && len == |r.data| && at + len + OVERHEAD <= log.flash.Length
      requires log.flash[at..at + len + OVERHEAD] == Encode(r)
      modifies this`limit, this`sent, this`batches, this`pending, this`payloadIdx, payload
      ensures Valid()
      ensures n' == if Selected(r, readPort) then n + 1 else n
      ensures packed == if Selected(r, readPort) && n + 1 >= start then 1 else 0
      ensures Delivered() == old(Delivered()) + if packed == 1 then [r] else []
    {
      hide EncodeAll, Encode, GoodBatch, AllRecords;
      n', packed := n + 1, 0;
      if port != readPort && readPort != 0 {
        n' := n' - 1;
      } else if n' >= start {
        CheckPayloadSend(len);
        PackMessage(at, len, r);
        packed := 1;
      }
    }

    /** Read and visit the message at `at`, unless the records of the block end there. */
    method NextMessage(at: nat, off: nat, blockEnd: nat, readPort: bv8, start: nat, n: nat, ghost rs: seq<Record>,
                       ghost k: nat)
      returns (done: bool, at': nat, n': nat, packed: nat, ghost delta: seq<Record>)
      requires Valid() && Scannable(log.flash[..], off, blockEnd, rs) && log.Geometry() && start >= 1
      requires At(rs, readPort, off, k, at, n) && at < blockEnd
      modifies this`limit, this`sent, this`batches, this`pending, this`payloadIdx, payload
      ensures Valid() && (done <==> k == |rs|)
      ensures done ==> Delivered() == old(Delivered())
      ensures !done ==> At(rs, readPort, off, k + 1, at', n') && n' <= n + 1
      ensures !done ==> |delta| == packed && Delivered() == old(Delivered()) + delta
      ensures !done ==> Reached(Filter(rs, readPort), start, n') == Reached(Filter(rs, readPort), start, n) + delta
    {
      hide Valid, EncodeAll, Encode, Filter, Scannable, Offset, Delivered;
      ghost var s, f := log.flash[..], Filter(rs, readPort);
      at', n', packed, delta := at, n, 0, [];
      ScanBounds(s, off, blockEnd, rs);
      FilterBounds(rs, readPort);
      var port, len := log.ReadHead(at, off, blockEnd, rs, k);
      done := port > MAX_PORT;
      if !done {
        ScannedRecord(s, off, blockEnd, rs, k);
        FilterPrefix(rs, k, readPort);
        n', packed := VisitMessage(at, port, len, readPort, start, n, rs[k]);
        at' := at + len + OVERHEAD;
        delta := if packed == 1 then [rs[k]] else [];
        assert Reached(f, start, n') == Reached(f, start, n) + delta;
      }
    }

    /** Send what is left in the payload. */
    method SendRest()
      requires Valid()
      modifies this`limit, this`sent, this`batches, this`pending, this`payloadIdx
      ensures Valid() && pending == [] && payloadIdx == 0 && Delivered() == old(Delivered())
    {
      if payloadIdx > 0 {
        SendPayload();
      } else {
        NothingEncoded(pending);
      }
    }

    /** The scan of a block: stop after message `end` on the port, or where the records end. */
    method PackMessages(off: nat, blockEnd: nat, start: nat, end: nat, readPort: bv8, ghost rs: seq<Record>)
      returns (count: nat)
      requires Valid() && log.Geometry() && Scannable(log.flash[..], off, blockEnd, rs)
      requires 1 <= start <= end <= |Filter(rs, readPort)|
      modifies this`limit, this`sent, this`batches, this`pending, this`payloadIdx, payload
      ensures Valid() && count == end - start + 1
      ensures Delivered() == old(Delivered()) + Filter(rs, readPort)[start - 1..end]
    {
      hide *;
      Apart();
      var at: nat, n: nat := off, 0;
      count := 0;
      ghost var f, before := Filter(rs, readPort), Delivered();
      ReachedEnds(f, start, end);
      ghost var k: nat := 0;
      AtBounds(log.flash[..], off, blockEnd, rs, readPort, 0, at, n);
      while at < blockEnd && n < end
        invariant At(rs, readPort, off, k, at, n) && n <= end
        invariant Valid() && Delivered() == before + Reached(f, start, n) && count == |Reached(f, start, n)|
        decreases |rs| - k
      {
        AtBounds(log.flash[..], off, blockEnd, rs, readPort, k, at, n);
        ghost var delta;
        var done, next, n', packed;
        done, next, n', packed, delta := NextMessage(at, off, blockEnd, readPort, start, n, rs, k);
        if done {
          break;
        }
        at, n, count, k := next, n', count + packed, k + 1;
      }
      AtBounds(log.flash[..], off, blockEnd, rs, readPort, k, at, n);
      assert n == end;
    }

    /** Deliver the messages `start` to `end`, counted from 1, among those of a block that are on `readPort`. */
    method ReadBlockMessages(off: nat, start: nat, end: nat, readPort: bv8, ghost rs: seq<Record>) returns (count: int)
      requires Valid() && pending == [] && payloadIdx == 0 && log.Geometry()
      requires
        var blockEnd := if off == log.blockOffset then log.flashOffset else off + log.blockSize;
        Scannable(log.flash[..], off, blockEnd, rs)
      requires 1 <= start <= end <= |Filter(rs, readPort)|
      modifies this`limit, this`sent, this`batches, this`pending, this`payloadIdx, payload
      ensures Valid() && pending == [] && payloadIdx == 0
      ensures count == if log.enabled then end - start + 1 else EIO
      ensures Delivered() == old(Delivered()) + if log.enabled then Filter(rs, readPort)[start - 1..end] else []
    {
      if !log.enabled {
        return EIO;
      }
      hide Valid, EncodeAll, Filter, Scannable, Delivered;
      var blockEnd := if off == log.blockOffset then log.flashOffset else off + log.blockSize;
      count := PackMessages(off, blockEnd, start, end, readPort, rs);
      SendRest();
    }

    /** prv_get_block_prev_offset. */
    method GetBlockPrevOffset(off: nat, ghost b: nat, ghost readPort: bv8, ghost fb: seq<seq<Record>>)
      returns (prev: int)
      requires log.Geometry() && log.Blocks() && Position(log, off, b) && LiveOnPort(log, readPort, fb)
      ensures prev < 0 <==> b + 1 == |fb|
      ensures prev < 0 ==> prev == EIO
      ensures prev >= 0 ==> Position(log, prev, b + 1) && b + 1 < |fb|
    {
      hide Position, LiveRecords, Scannable, Ring, LiveBlocks;
      AtPosition(log, off, b);
      if off == log.startOffset {
        return EIO;
      }
      return PrevOffset(off, log.blockSize, log.flashSize);
    }

    /** The number of messages on the port in the block at a position. */
    method CountAt(off: nat, ghost b: nat, readPort: bv8, ghost fb: seq<seq<Record>>) returns (count: nat)
      requires log.Geometry() && log.Blocks() && log.enabled && Position(log, off, b) && LiveOnPort(log, readPort, fb)
      ensures b < |fb| && count == |fb[|fb| - 1 - b]|
      ensures Base(fb, |fb| - 1 - b) + count == Base(fb, |fb| - b)
    {
      hide Position, LiveRecords, Scannable, Filter, Ring, LiveBlocks;
      AtPosition(log, off, b);
      BaseNext(fb, |fb| - 1 - b);
      count := log.GetNrMsgInBlock(off, readPort, LiveRecords(log)[|LiveRecords(log)| - 1 - b]);
    }

    /** Walk back to the block that holds the message `start` places before the newest one on the port. */
    method FindFirstBlock(start: nat, readPort: bv8, ghost fb: seq<seq<Record>>)
      returns (error: int, off: nat, nBlock: nat, endRead: nat, ghost b: nat)
      requires log.Geometry() && log.Blocks() && log.enabled && LiveOnPort(log, readPort, fb)
      ensures error == (if start < |Flatten(fb)| then 0 else EIO) <= 0
      ensures error == 0 <==> start < |Flatten(fb)|
      ensures error == 0 ==> Position(log, off, b) && InBlock(fb, b, start, nBlock, endRead)
    {
      hide *;
      NewestPosition(log, readPort, fb);
      off, b, nBlock, endRead := log.blockOffset, 0, 0, 0;
      var skip: nat := 0;
      while true
        invariant Position(log, off, b) && b < |fb|
        invariant skip + Base(fb, |fb| - b) == |Flatten(fb)| && skip <= start
        decreases |fb| - b
      {
        nBlock := CountAt(off, b, readPort, fb);
        if skip + nBlock > start {
          endRead := nBlock - (start - skip);
          FoundInBlock(fb, b, start, nBlock, endRead);
          return 0, off, nBlock, endRead, b;
        }
        skip := skip + nBlock;
        var prev := GetBlockPrevOffset(off, b, readPort, fb);
        if prev < 0 {
          return prev, off, nBlock, endRead, b;
        }
        off, b := prev, b + 1;
      }
    }

    /** The payload is no part of the log. */
    lemma Apart()
      requires Valid()
      ensures payload != log.flash && payload != log.buffer
    {
    }

    /**
     What was sent, and what is left in the payload, are the delivered records, and each payload keeps
     to the limit then in force or holds one record.
     */
    lemma SentIsDelivered()
      requires Valid()
      ensures AllStorable(Delivered()) && Flatten(sent) + payload[..payloadIdx] == EncodeAll(Delivered())
      ensures forall i :: 0 <= i < |sent| ==> |sent[i]| <= batches[i].limit || |batches[i].records| <= 1
      ensures sender == Bt ==> forall i :: 0 <= i < |sent| ==> |sent[i]| <= btMax || |batches[i].records| <= 1
      ensures forall i :: 0 <= i < |sent| ==> |sent[i]| <= 255
      ensures forall i :: 0 <= i < |sent| ==>
        AllStorable(batches[i].records) && sent[i] == EncodeAll(batches[i].records)
    {
      hide EncodeAll, Flatten;
      PayloadsAreRecords(batches);
      EncodeAllConcat(AllRecords(batches), pending);
    }

    /**
     The receiver's decoder finds in each payload its records, except a last one without data, and so
     the delivered records in what was sent exactly if no payload ends in such a record.
     */
    lemma SentIsDecoded<D>(decoder: (seq<bv8>, bv8) -> D, empty: D)
      requires Valid() && pending == []
      ensures forall i :: 0 <= i < |sent| ==>
        DecodedFrom(sent[i], 0, decoder, empty) == EntriesOf(Found(batches[i].records), decoder, empty)
      ensures DecodedAll(sent, decoder, empty) == EntriesOf(Delivered(), decoder, empty) <==>
        forall i :: 0 <= i < |batches| ==> !EndsEmpty(batches[i].records)
    {
      hide EncodeAll, DecodedFrom, EntriesOf, Found, Storable;
      forall i | 0 <= i < |sent|
        ensures DecodedFrom(sent[i], 0, decoder, empty) == EntriesOf(Found(batches[i].records), decoder, empty)
      {
        DecodeUndoesPacking(batches[i].records, decoder, empty);
      }
      BatchesDecoded(batches, decoder, empty);
      FoundInBatches(batches);
      assert Delivered() == AllRecords(batches);
    }

    /** Deliver what the window takes of one block. */
    method DeliverBlock(off: nat, nBlock: nat, endRead: nat, c: nat, readPort: bv8,
                        ghost fb: seq<seq<Record>>, ghost b: nat, ghost to: nat, ghost n: nat)
      returns (left: nat, ghost delta: seq<Record>)
      requires Valid() && pending == [] && payloadIdx == 0 && log.Geometry() && log.Blocks() && log.enabled
      requires Position(log, off, b) && LiveOnPort(log, readPort, fb) && Delivering(fb, b, to, n, c, nBlock, endRead)
      requires c > 0
      modifies this`limit, this`sent, this`batches, this`pending, this`payloadIdx, payload
      ensures Valid() && pending == [] && payloadIdx == 0
      ensures b < |fb| && delta == Segment(fb, |fb| - 1 - b, From(to, n), to)
      ensures Delivered() == old(Delivered()) + delta && left == c - |delta|
    {
      hide *;
      Apart();
      WindowOfBlock(fb, b, to, n, c, nBlock, endRead);
      left, delta := c, [];
      if nBlock > 0 {
        var first := if c < endRead then endRead - c + 1 else 1;
        ghost var rs := RecordsAt(log, off, b, readPort, fb);
        var count := ReadBlockMessages(off, first, endRead, readPort, rs);
        left := c - count;
        delta := fb[|fb| - 1 - b][first - 1..endRead];
      }
    }

    /** Deliver the window, block by block back from the one at `firstOff`, until it or the log ends. */
    method DeliverBlocks(firstOff: nat, firstCount: nat, firstEnd: nat, n: nat, readPort: bv8,
                         ghost fb: seq<seq<Record>>, ghost firstBack: nat, ghost to: nat)
      returns (left: nat)
      requires Valid() && pending == [] && payloadIdx == 0 && log.Geometry() && log.Blocks() && log.enabled
      requires Position(log, firstOff, firstBack) && LiveOnPort(log, readPort, fb)
      requires firstBack < |fb| && Progress(fb, firstBack, to, n, n, firstCount, firstEnd, [])
      modifies this`limit, this`sent, this`batches, this`pending, this`payloadIdx, payload
      ensures Valid() && pending == [] && payloadIdx == 0
      ensures Delivered() == old(Delivered()) + NewestFirst(fb, |fb|, From(to, n), to)
      ensures left == if n <= to then 0 else n - to
    {
      hide *;
      Apart();
      var off: nat, nBlock: nat, endRead: nat := firstOff, firstCount, firstEnd;
      ghost var b: nat, before, done := firstBack, Delivered(), [];
      left := n;
      while left > 0
        invariant Valid() && pending == [] && payloadIdx == 0 && Delivered() == before + done
        invariant log.Blocks() && Position(log, off, b)
        invariant b < |fb| && Progress(fb, b, to, n, left, nBlock, endRead, done)
        decreases |fb| - b, left
      {
        ProgressIsDelivering(fb, b, to, n, left, nBlock, endRead, done);
        ghost var delta;
        var c: nat := left;
        left, delta := DeliverBlock(off, nBlock, endRead, c, readPort, fb, b, to, n);
        ProgressStep(fb, b, to, n, c, nBlock, endRead, left, done);
        done := done + delta;
        if left > 0 {
          var prev := GetBlockPrevOffset(off, b, readPort, fb);
          if prev < 0 {
            break;
          }
          off, b := prev, b + 1;
          nBlock := CountAt(off, b, readPort, fb);
          endRead := nBlock;
        }
      }
      if left == 0 {
        ProgressEnds(fb, b, to, n, nBlock, endRead, done);
      }
    }

    /**
     prv_read_messages_from_head: deliver `n` messages of the port, leaving out the newest `start`.
     Both are first held against the message counter.
     */
    method ReadMessagesFromHead(start: nat, n: nat, readPort: bv8) returns (read: int)
      requires Valid() && log.Valid() && pending == [] && payloadIdx == 0
      modifies log`flashOffset, log`startOffset, log`blockOffset, log`leftBlockSize, log`nMsg, log`history, log`current
      modifies log`bufferIdx, log`nMsgBuffer, log`buffered, log.flash, log.buffer
      modifies this`limit, this`sent, this`batches, this`pending, this`payloadIdx, payload
      ensures Valid() && log.Valid() && pending == [] && payloadIdx == 0 && log.Stored() == old(log.Stored())
      ensures !log.enabled ==> read == EIO && Delivered() == old(Delivered())
      ensures log.enabled ==> log.buffered == []
      ensures log.enabled ==> Answered(log, start, n, readPort, read, old(Delivered()), Delivered())
    {
      hide *;
      if !log.enabled {
        return EIO;
      }
      Apart();
      FlushLog();
      var skip := if start > log.nMsg then log.nMsg else start;
      var wanted := if n > log.nMsg then skip else n;
      ghost var fb := FilterEach(LiveRecords(log), readPort);
      ghost var before := Delivered();
      ghost var b: nat;
      IsLiveOnPort(log, readPort, fb);
      var off: nat, nBlock: nat, endRead: nat;
      read, off, nBlock, endRead, b := FindFirstBlock(skip, readPort, fb);
      if read < 0 {
        AnsweredNothing(log, start, n, readPort, fb, before);
        return;
      }
      ghost var to: nat := |Flatten(fb)| - skip;
      ProgressStarts(fb, b, skip, to, wanted, nBlock, endRead);
      var left := DeliverBlocks(off, nBlock, endRead, wanted, readPort, fb, b, to);
      read := wanted - left;
      AnsweredWindow(log, start, n, readPort, fb, before, read);
    }

    /** Empty the log's buffer. */
    method FlushLog()
      requires Valid() && log.Valid() && log.enabled
      modifies log`flashOffset, log`startOffset, log`blockOffset, log`leftBlockSize, log`nMsg, log`history, log`current
      modifies log`bufferIdx, log`nMsgBuffer, log`buffered, log.flash, log.buffer
      ensures Valid() && log.Valid() && log.Geometry() && log.Blocks()
      ensures log.Stored() == old(log.Stored()) && log.buffered == []
    {
      hide GoodBatch, EncodeAll, Flatten, Clamped, Payloads;
      var error := log.Flush();
    }
  }

  /** `fb` holds, block by block, the live records on the port. */
  ghost predicate LiveOnPort(log: Log, port: bv8, fb: seq<seq<Record>>)
    requires log.Geometry()
    reads log
  {
    fb == FilterEach(LiveRecords(log), port)
  }

  lemma IsLiveOnPort(log: Log, port: bv8, fb: seq<seq<Record>>)
    requires log.Geometry() && fb == FilterEach(LiveRecords(log), port)
    ensures LiveOnPort(log, port, fb)
  {
  }

  /** The records of the block at a position. */
  lemma RecordsAt(log: Log, off: nat, b: nat, port: bv8, fb: seq<seq<Record>>) returns (rs: seq<Record>)
    requires log.Geometry() && log.Blocks() && Position(log, off, b) && LiveOnPort(log, port, fb)
    ensures b < |fb| && Filter(rs, port) == fb[|fb| - 1 - b]
    ensures Scannable(log.flash[..], off, if off == log.blockOffset then log.flashOffset else off + log.blockSize, rs)
  {
    hide Position, LiveRecords, Scannable, Filter, Ring, LiveBlocks;
    AtPosition(log, off, b);
    rs := LiveRecords(log)[|LiveRecords(log)| - 1 - b];
  }

  // ---- the window of a read-out ----

  /** Where a window of `n` records that ends at `to` starts. */
  function From(to: nat, n: nat): nat {
    if n <= to then to - n else 0
  }

  /**
   `c` of the `n` records of the window up to `to` are still to be delivered, and of those the first
   `endRead` of the block `b` before the last come next.
   */
  ghost predicate Delivering(fb: seq<seq<Record>>, b: nat, to: nat, n: nat, c: nat, nBlock: nat, endRead: nat) {
    && b < |fb| && to <= |Flatten(fb)|
    && nBlock == |fb[|fb| - 1 - b]| && endRead <= nBlock && (nBlock > 0 ==> endRead > 0)
    && endRead == Clip(to - Base(fb, |fb| - 1 - b), nBlock)
    && c == n - to + Base(fb, |fb| - 1 - b) + endRead
  }

  ghost predicate Progress(fb: seq<seq<Record>>, b: nat, to: nat, n: nat, c: nat, nBlock: nat, endRead: nat,
                           done: seq<Record>) {
    && b < |fb| && to <= |Flatten(fb)| && |done| == n - c
    && (c > 0 ==> Delivering(fb, b, to, n, c, nBlock, endRead)
                  && done + NewestFirst(fb, |fb| - b, From(to, n), to) == NewestFirst(fb, |fb|, From(to, n), to))
    && (c == 0 ==> done == NewestFirst(fb, |fb|, From(to, n), to))
  }

  lemma WindowOfBlock(fb: seq<seq<Record>>, b: nat, to: nat, n: nat, c: nat, nBlock: nat, endRead: nat)
    requires Delivering(fb, b, to, n, c, nBlock, endRead) && c > 0
    ensures b < |fb|
    ensures nBlock == 0 ==> Segment(fb, |fb| - 1 - b, From(to, n), to) == []
    ensures nBlock > 0 ==>
      var j, first := |fb| - 1 - b, if c < endRead then endRead - c + 1 else 1;
      1 <= first <= endRead <= |fb[j]| && Segment(fb, j, From(to, n), to) == fb[j][first - 1..endRead]
  {
    hide Base, Flatten;
  }

  lemma ProgressIsDelivering(fb: seq<seq<Record>>, b: nat, to: nat, n: nat, c: nat, nBlock: nat, endRead: nat,
                             done: seq<Record>)
    requires Progress(fb, b, to, n, c, nBlock, endRead, done) && c > 0
    ensures Delivering(fb, b, to, n, c, nBlock, endRead)
  {
  }

  /** Delivering one block's part brings the window forward, and ends it at the oldest block. */
  lemma ProgressStep(fb: seq<seq<Record>>, b: nat, to: nat, n: nat, c: nat, nBlock: nat, endRead: nat, left: nat,
                     done: seq<Record>)
    requires Progress(fb, b, to, n, c, nBlock, endRead, done) && c > 0
    requires left == c - |Segment(fb, |fb| - 1 - b, From(to, n), to)|
    ensures
      var done' := done + Segment(fb, |fb| - 1 - b, From(to, n), to);
      && (left == 0 ==> Progress(fb, b, to, n, 0, nBlock, endRead, done'))
      && (left > 0 && b + 1 < |fb| ==>
            Progress(fb, b + 1, to, n, left, |fb[|fb| - 2 - b]|, |fb[|fb| - 2 - b]|, done'))
      && (left > 0 && b + 1 == |fb| ==> left == n - to && done' == NewestFirst(fb, |fb|, From(to, n), to))
  {
    hide Base, Flatten, Segment, NewestFirst;
    var j, from := |fb| - 1 - b, From(to, n);
    var done' := done + Segment(fb, j, from, to);
    WindowOfBlock(fb, b, to, n, c, nBlock, endRead);
    BaseOfAll(fb);
    NewestFirstOfOne(fb, j, from, to);
    assert done + NewestFirst(fb, j + 1, from, to) == done' + NewestFirst(fb, j, from, to);
    if left == 0 {
      NothingBefore(fb, j, from, to);
    } else if b + 1 < |fb| {
      BaseNext(fb, j - 1);
    }
  }

  lemma ProgressStarts(fb: seq<seq<Record>>, b: nat, start: nat, to: nat, n: nat, nBlock: nat, endRead: nat)
    requires InBlock(fb, b, start, nBlock, endRead) && to == |Flatten(fb)| - start
    ensures b < |fb| && Progress(fb, b, to, n, n, nBlock, endRead, [])
  {
    hide Base, Flatten, Segment, NewestFirst;
    BaseNext(fb, |fb| - 1 - b);
    NothingBehind(fb, |fb| - b, |fb|, From(to, n), to);
    WindowLength(fb, From(to, n), to);
  }

  lemma ProgressEnds(fb: seq<seq<Record>>, b: nat, to: nat, n: nat, nBlock: nat, endRead: nat, done: seq<Record>)
    requires Progress(fb, b, to, n, 0, nBlock, endRead, done)
    ensures n <= to && done == NewestFirst(fb, |fb|, From(to, n), to)
  {
    WindowLength(fb, From(to, n), to);
  }

  // ---- the answer ----

  /**
   What a read-out delivers and returns.  With `start` and `n` within the message counter it is the
   `n` records of the port before the newest `start`, or as many of them as there are.
   */
  ghost predicate Answered(log: Log, start: nat, n: nat, port: bv8, read: int, before: seq<Record>, after: seq<Record>)
    requires log.Geometry()
    reads log
  {
    var fb, total := FilterEach(LiveRecords(log), port), |Filter(Flatten(LiveRecords(log)), port)|;
    var skip := if start > log.nMsg then log.nMsg else start;
    var wanted := if n > log.nMsg then skip else n;
    if skip >= total then
      read == EIO && after == before
    else
      && after == before + NewestFirst(fb, |fb|, From(total - skip, wanted), total - skip)
      && read == if wanted <= total - skip then wanted else total - skip
  }

  lemma AnsweredNothing(log: Log, start: nat, n: nat, port: bv8, fb: seq<seq<Record>>, before: seq<Record>)
    requires log.Geometry() && fb == FilterEach(LiveRecords(log), port)
    requires (if start > log.nMsg then log.nMsg else start) >= |Flatten(fb)|
    ensures Answered(log, start, n, port, EIO, before, before)
  {
    FlattenFilterEach(LiveRecords(log), port);
  }

  lemma AnsweredWindow(log: Log, start: nat, n: nat, port: bv8, fb: seq<seq<Record>>, before: seq<Record>, read: int)
    requires log.Geometry() && fb == FilterEach(LiveRecords(log), port)
    requires
      var skip := if start > log.nMsg then log.nMsg else start;
      var wanted := if n > log.nMsg then skip else n;
      skip < |Flatten(fb)| && read == if wanted <= |Flatten(fb)| - skip then wanted else |Flatten(fb)| - skip
    ensures
      var skip := if start > log.nMsg then log.nMsg else start;
      var wanted := if n > log.nMsg then skip else n;
      var to := |Flatten(fb)| - skip;
      Answered(log, start, n, port, read, before, before + NewestFirst(fb, |fb|, From(to, wanted), to))
  {
    FlattenFilterEach(LiveRecords(log), port);
  }

  /**
   Put in order, block by block, a read-out within the message counter has delivered exactly the
   positions max(0, T - start - n) up to T - start of the T live records of the port, and no other.
   */
  lemma AnswerIsWindow(log: Log, start: nat, n: nat, port: bv8, read: int, before: seq<Record>, after: seq<Record>)
    requires log.Geometry() && start <= log.nMsg && n <= log.nMsg
    requires start < |Filter(Flatten(LiveRecords(log)), port)| && Answered(log, start, n, port, read, before, after)
    ensures
      var fb, flat := FilterEach(LiveRecords(log), port), Filter(Flatten(LiveRecords(log)), port);
      var to := |flat| - start;
      var from := if n <= to then to - n else 0;
      && read == to - from
      && after == before + NewestFirst(fb, |fb|, from, to) && |after| == |before| + read
      && OldestFirst(fb, |fb|, from, to) == flat[from..to]
      && multiset(after) == multiset(before) + multiset(flat[from..to])
      && forall i :: |before| <= i < |after| ==> port == 0 || after[i].port == port
  {
    hide Filter, FilterEach, Flatten, LiveRecords, OldestFirst, NewestFirst;
    var fb, flat := FilterEach(LiveRecords(log), port), Filter(Flatten(LiveRecords(log)), port);
    FlattenFilterEach(LiveRecords(log), port);
    var to := |flat| - start;
    var from := if n <= to then to - n else 0;
    WindowLength(fb, from, to);
    OnPort(fb, flat, from, to, Flatten(LiveRecords(log)), port);
  }

  lemma OnPort(fb: seq<seq<Record>>, flat: seq<Record>, from: nat, to: nat, all: seq<Record>, port: bv8)
    requires from <= to <= |flat| && flat == Filter(all, port)
    requires OldestFirst(fb, |fb|, from, to) == flat[from..to]
    ensures
      var w := NewestFirst(fb, |fb|, from, to);
      multiset(w) == multiset(flat[from..to]) && forall i :: 0 <= i < |w| ==> port == 0 || w[i].port == port
  {
    hide Filter, OldestFirst, NewestFirst;
    NewestFirstMembers(fb, |fb|, from, to);
    var w := NewestFirst(fb, |fb|, from, to);
    forall i | 0 <= i < |w|
      ensures port == 0 || w[i].port == port
    {
      assert w[i] in multiset(w);
      assert w[i] in flat[from..to] && w[i] in flat;
      FilterIsExact(all, port, w[i]);
    }
  }

  /** Skipping more than the message counter holds is skipping as many as it holds. */
  lemma TooManySkipped(log: Log, start: nat, n: nat, port: bv8, read: int, before: seq<Record>, after: seq<Record>)
    requires log.Geometry() && start > log.nMsg
    ensures Answered(log, start, n, port, read, before, after) <==>
      Answered(log, log.nMsg, n, port, read, before, after)
  {
    hide Filter, FilterEach, Flatten, LiveRecords, OldestFirst, NewestFirst;
  }

  /** Asked for more than the message counter holds, a read-out delivers as many as it was told to skip. */
  lemma TooManyAsked(log: Log, start: nat, n: nat, port: bv8, read: int, before: seq<Record>, after: seq<Record>)
    requires log.Geometry() && n > log.nMsg >= start
    requires start < |Filter(Flatten(LiveRecords(log)), port)| && Answered(log, start, n, port, read, before, after)
    ensures Answered(log, start, start, port, read, before, after)
    ensures read <= start && (start == 0 ==> after == before)
  {
    hide Filter, FilterEach, Flatten, LiveRecords, OldestFirst, NewestFirst;
    AnswerIsWindow(log, start, start, port, read, before, after);
    assert start == 0 ==> |after| == |before|;
  }

  /**
   Of the `nBlock` records in the block `b` before the last, the first `endRead` are at least `start`
   before the end.
   */
  ghost predicate InBlock(fb: seq<seq<Record>>, b: nat, start: nat, nBlock: nat, endRead: nat) {
    && b < |fb| && nBlock == |fb[|fb| - 1 - b]| && 1 <= endRead <= nBlock
    && Base(fb, |fb| - 1 - b) + endRead + start == |Flatten(fb)|
  }

  /** The walk begins at the current block. */
  lemma NewestPosition(log: Log, port: bv8, fb: seq<seq<Record>>)
    requires log.Geometry() && log.Blocks() && LiveOnPort(log, port, fb)
    ensures Position(log, log.blockOffset, 0) && |fb| > 0
    ensures Base(fb, |fb|) == |Flatten(fb)| && Base(fb, 0) == 0
  {
    BaseOfAll(fb);
  }

  lemma FoundInBlock(fb: seq<seq<Record>>, b: nat, start: nat, nBlock: nat, endRead: nat)
    requires b < |fb| && nBlock == |fb[|fb| - 1 - b]| && 1 <= endRead <= nBlock
    requires Base(fb, |fb| - 1 - b) + endRead + start == |Flatten(fb)|
    ensures InBlock(fb, b, start, nBlock, endRead)
  {
  }

  /** Before the `k`-th record, which is at byte `at`, the scan has met `n` messages on the port. */
  ghost predicate At(rs: seq<Record>, port: bv8, off: nat, k: nat, at: nat, n: nat) {
    AllStorable(rs) && k <= |rs| && at == off + Offset(rs, k) && n == |Filter(rs[..k], port)| <= |Filter(rs, port)|
  }

  lemma AtBounds(s: seq<bv8>, off: nat, end: nat, rs: seq<Record>, port: bv8, k: nat, at: nat, n: nat)
    requires Scannable(s, off, end, rs)
    ensures At(rs, port, off, 0, off, 0)
    ensures At(rs, port, off, k, at, n) ==> k <= |rs| && n <= |Filter(rs, port)|
    ensures At(rs, port, off, k, at, n) && k == |rs| ==> n == |Filter(rs, port)|
    ensures At(rs, port, off, k, at, n) && at >= end ==> k == |rs|
  {
    hide Scannable, Filter;
    ScanBounds(s, off, end, rs);
    FilterBounds(rs, port);
    if k < |rs| {
      ScannedRecord(s, off, end, rs, k);
    }
  }

  /** The delivered part of the selection once `n` of its messages have been met. */
  ghost function Reached(f: seq<Record>, start: nat, n: nat): seq<Record>
    requires 1 <= start && n <= |f|
  {
    if n < start then [] else f[start - 1..n]
  }

  lemma ReachedEnds(f: seq<Record>, start: nat, end: nat)
    requires 1 <= start <= end <= |f|
    ensures Reached(f, start, 0) == [] && Reached(f, start, end) == f[start - 1..end]
  {
  }

  lemma NothingEncoded(rs: seq<Record>)
    requires AllStorable(rs) && EncodeAll(rs) == []
    ensures rs == []
  {
  }

  lemma FilterPrefix(rs: seq<Record>, k: nat, port: bv8)
    requires k < |rs|
    ensures
      var f, n := Filter(rs, port), |Filter(rs[..k], port)|;
      && n <= |f| && (Selected(rs[k], port) ==> n < |f| && f[n] == rs[k])
      && |Filter(rs[..k + 1], port)| == (if Selected(rs[k], port) then n + 1 else n) <= |f|
  {
    FilterStep(rs, k, port);
    assert rs == rs[..k + 1] + rs[k + 1..];
    FilterConcat(rs[..k + 1], rs[k + 1..], port);
  }

  lemma Pieces<T>(s: seq<T>, at: nat, a: nat, b: nat, c: nat)
    requires at + a + b + c <= |s|
    ensures s[at..at + a] + s[at + a..at + a + b] + s[at + a + b..at + a + b + c] == s[at..at + a + b + c]
  {
  }
}
