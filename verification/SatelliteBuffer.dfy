/**
 The satellite send buffer (app/src/satellite/satellite.c): messages framed as in the flash log, in
 340 bytes from which the oldest are dropped to make room.
 */
module SatelliteBuffer {
  import opened FlashRecord

  const SAT_UART_BUF_SIZE: nat := 340
  const MAX_LOOPS: nat := 50
  const MAX_EVICTIONS: nat := 48
  const PORT_STATUS: bv8 := 4
  const MSG_STATUS_ID: bv8 := 0xF4

  /** A framed message: the byte after port and id counts the data, and the timestamp follows. */
  predicate Entry(e: seq<bv8>) {
    OVERHEAD <= |e| <= SAT_UART_BUF_SIZE && e[HEAD_SIZE - 1] as nat == |e| - OVERHEAD
  }

  /** A message starts with its id and the number of bytes that follow. */
  predicate WellFormed(m: seq<bv8>) {
    |m| >= 2 && m[1] as nat == |m| - 2
  }

  function Framed(m: seq<bv8>, port: bv8, now: bv32): (e: seq<bv8>)
    ensures WellFormed(m) ==> Entry(e)
  {
    [port] + m + TimeBytes(now)
  }

  lemma FramedLength(m: seq<bv8>, port: bv8, now: bv32)
    ensures |Framed(m, port, now)| == |m| + TIMESTAMP_SIZE + 1
    ensures 2 <= |m| <= SAT_UART_BUF_SIZE - TIMESTAMP_SIZE - 1 ==> (Entry(Framed(m, port, now)) <==> WellFormed(m))
  {
  }

  /** It is the record of the flash log. */
  lemma FramedIsRecord(m: seq<bv8>, port: bv8, now: bv32)
    requires IsMessage(m) && port <= MAX_PORT
    ensures Framed(m, port, now) == Encode(Recorded(m, port, now))
  {
  }

  predicate AllEntries(es: seq<seq<bv8>>) {
    forall i :: 0 <= i < |es| ==> Entry(es[i])
  }

  /** The messages from `k` on are the longest run of newest ones that fits. */
  predicate LongestFitting(es: seq<seq<bv8>>, k: nat) {
    && k <= |es| && |Flatten(es[k..])| <= SAT_UART_BUF_SIZE
    && (k > 0 ==> |Flatten(es[k - 1..])| > SAT_UART_BUF_SIZE)
  }

  // ---- lengths of suffixes ----

  lemma SuffixStep(es: seq<seq<bv8>>, k: nat)
    requires k < |es|
    ensures Flatten(es[k..]) == es[k] + Flatten(es[k + 1..])
  {
    assert es[k..] == [es[k]] + es[k + 1..];
    FlattenConcat([es[k]], es[k + 1..]);
    assert [es[k]][..0] == [];
    assert Flatten([es[k]]) == es[k];
  }

  lemma {:induction false} SuffixShrinks(es: seq<seq<bv8>>, j: nat, k: nat)
    requires j <= k <= |es|
    ensures |Flatten(es[k..])| <= |Flatten(es[j..])|
    decreases k - j
  {
    if j < k {
      SuffixStep(es, j);
      SuffixShrinks(es, j + 1, k);
    }
  }

  /** Every message takes at least OVERHEAD bytes. */
  lemma {:induction false} SuffixAtLeast(es: seq<seq<bv8>>, k: nat)
    requires AllEntries(es) && k <= |es|
    ensures |Flatten(es[k..])| >= OVERHEAD * (|es| - k)
    decreases |es| - k
  {
    if k < |es| {
      SuffixStep(es, k);
      SuffixAtLeast(es, k + 1);
    }
  }

  lemma NothingFrom(es: seq<seq<bv8>>)
    ensures Flatten(es[|es|..]) == []
  {
    assert es[|es|..] == [];
  }

  /** It really is the longest: a suffix fits exactly if it starts at `k` or later. */
  lemma LongestFittingIsExact(es: seq<seq<bv8>>, k: nat, j: nat)
    requires LongestFitting(es, k) && j <= |es|
    ensures |Flatten(es[j..])| <= SAT_UART_BUF_SIZE <==> k <= j
  {
    if k <= j {
      SuffixShrinks(es, k, j);
    } else {
      SuffixShrinks(es, j, k - 1);
    }
  }

  /** Appending a message after dropping just enough of the oldest keeps the longest suffix. */
  lemma LongestAppended(es: seq<seq<bv8>>, first: nat, k: nat, e: seq<bv8>)
    requires LongestFitting(es, first) && first <= k <= |es|
    requires |Flatten(es[k..])| + |e| <= SAT_UART_BUF_SIZE
    requires k > first ==> |Flatten(es[k - 1..])| + |e| > SAT_UART_BUF_SIZE
    ensures LongestFitting(es + [e], k) && Flatten((es + [e])[k..]) == Flatten(es[k..]) + e
  {
    assert (es + [e])[k..] == es[k..] + [e];
    FlattenAppend(es[k..], e);
    if k > 0 {
      assert (es + [e])[k - 1..] == es[k - 1..] + [e];
      FlattenAppend(es[k - 1..], e);
    }
  }

  lemma OnlyMessage(e: seq<bv8>)
    requires Entry(e)
    ensures LongestFitting([] + [e], 0) && Flatten(([] + [e])[0..]) == e
  {
    hide Entry;
    SuffixStep([e], 0);
    assert [e][1..] == [] && [] + [e] == [e] && [e][0..] == [e];
    assert |e| <= SAT_UART_BUF_SIZE by { EntryFits(e); }
  }

  lemma EntryFits(e: seq<bv8>)
    requires Entry(e)
    ensures |e| <= SAT_UART_BUF_SIZE
  {
  }

  lemma StatusFits(status: seq<bv8>, length: bv8, now: bv32)
    requires length as nat == |status|
    ensures |status| < 256 && Entry(Framed([MSG_STATUS_ID, length] + status, PORT_STATUS, now))
  {
    hide TimeBytes;
    var m := [MSG_STATUS_ID, length] + status;
    assert m[1] == length && |m| == |status| + 2;
    FramedLength(m, PORT_STATUS, now);
  }

  class SatBuffer {
    const satBuf: array<bv8>
    var satBufIdx: nat
    /** The messages added since the buffer was last emptied, and the oldest of them still in it. */
    ghost var added: seq<seq<bv8>>
    ghost var first: nat

    constructor ()
      ensures Valid() && added == [] && fresh(satBuf)
    {
      satBuf := new bv8[SAT_UART_BUF_SIZE];
      satBufIdx, added, first := 0, [], 0;
    }

    ghost predicate Valid()
      reads this, satBuf
    {
      && satBuf.Length == SAT_UART_BUF_SIZE && satBufIdx <= SAT_UART_BUF_SIZE
      && AllEntries(added) && LongestFitting(added, first) && satBuf[..satBufIdx] == Flatten(added[first..])
    }

    /** memmove to the start of the buffer. */
    method MoveDown(from: nat, size: nat)
      requires from + size <= satBuf.Length
      modifies satBuf
      ensures satBuf[..size] == old(satBuf[from..from + size])
    {
      for i := 0 to size
        invariant satBuf[..i] == old(satBuf[from..from + i])
        invariant forall j :: from + i <= j < satBuf.Length ==> satBuf[j] == old(satBuf[j])
      {
        satBuf[i] := satBuf[from + i];
      }
    }

    /** satellite_remove_first_msg_from_buffer. */
    method RemoveFirst(ghost k: nat)
      requires satBuf.Length == SAT_UART_BUF_SIZE && satBufIdx <= SAT_UART_BUF_SIZE
      requires k < |added| && AllEntries(added) && satBuf[..satBufIdx] == Flatten(added[k..])
      modifies this`satBufIdx, satBuf
      ensures satBufIdx <= old(satBufIdx) && satBuf[..satBufIdx] == Flatten(added[k + 1..])
    {
      SuffixStep(added, k);
      ghost var e, rest := added[k], Flatten(added[k + 1..]);
      hide Flatten;
      assert satBuf[..satBufIdx] == e + rest && satBuf[2] == satBuf[..satBufIdx][2] == e[2];
      var firstLen := HEAD_SIZE + satBuf[HEAD_SIZE - 1] as nat + TIMESTAMP_SIZE;
      var otherLen := satBufIdx - firstLen;
      assert satBuf[firstLen..satBufIdx] == satBuf[..satBufIdx][firstLen..] == rest;
      MoveDown(firstLen, otherLen);
      satBufIdx := otherLen;
    }

    /** Copy bytes to the end of the buffer. */
    method Append(bytes: seq<bv8>)
      requires satBufIdx + |bytes| <= satBuf.Length
      modifies this`satBufIdx, satBuf
      ensures satBufIdx == old(satBufIdx) + |bytes| && satBuf[..satBufIdx] == old(satBuf[..satBufIdx]) + bytes
    {
      for i := 0 to |bytes|
        invariant satBufIdx == old(satBufIdx) && satBuf[..satBufIdx + i] == old(satBuf[..satBufIdx]) + bytes[..i]
      {
        satBuf[satBufIdx + i] := bytes[i];
      }
      satBufIdx := satBufIdx + |bytes|;
    }

    /** The messages in the buffer are few enough to be dropped one by one before the emergency clear. */
    lemma AtMostFull()
      requires Valid()
      ensures satBuf.Length == SAT_UART_BUF_SIZE && satBufIdx <= SAT_UART_BUF_SIZE && AllEntries(added)
      ensures first <= |added| <= first + MAX_EVICTIONS < first + MAX_LOOPS
      ensures satBuf[..satBufIdx] == Flatten(added[first..])
    {
      SuffixAtLeast(added, first);
    }

    /** Drop the oldest messages until `size` bytes fit; the emergency clear is never reached. */
    method MakeRoom(size: nat) returns (evictions: nat, ghost k: nat)
      requires Valid() && size <= SAT_UART_BUF_SIZE
      modifies this`satBufIdx, satBuf
      ensures satBufIdx + size <= SAT_UART_BUF_SIZE && evictions <= MAX_EVICTIONS
      ensures first <= k <= |added| && evictions == k - first && satBuf[..satBufIdx] == Flatten(added[k..])
      ensures k > first ==> |Flatten(added[k - 1..])| + size > SAT_UART_BUF_SIZE
    {
      hide *;
      AtMostFull();
      var loopCount := 0;
      evictions, k := 0, first;
      while satBufIdx + size > SAT_UART_BUF_SIZE
        invariant satBufIdx <= SAT_UART_BUF_SIZE && first <= k <= |added| && evictions == loopCount == k - first
        invariant satBuf[..satBufIdx] == Flatten(added[k..])
        invariant k > first ==> |Flatten(added[k - 1..])| + size > SAT_UART_BUF_SIZE
        decreases |added| - k
      {
        NothingFrom(added);
        RemoveFirst(k);
        evictions, k := evictions + 1, k + 1;
        if loopCount > MAX_LOOPS {
          assert false; // the emergency clear
        }
        loopCount := loopCount + 1;
      }
    }

    /** Append the port, the message and the time. */
    method AppendFramed(m: seq<bv8>, port: bv8, now: bv32)
      requires satBufIdx + |m| + TIMESTAMP_SIZE + 1 <= satBuf.Length
      modifies this`satBufIdx, satBuf
      ensures satBufIdx == old(satBufIdx) + |m| + TIMESTAMP_SIZE + 1
      ensures satBuf[..satBufIdx] == old(satBuf[..satBufIdx]) + Framed(m, port, now)
    {
      hide TimeBytes;
      Append([port]);
      Append(m);
      Append(TimeBytes(now));
    }

    /** The bookkeeping after an addition. */
    ghost method Added(e: seq<bv8>, k: nat)
      requires satBuf.Length == SAT_UART_BUF_SIZE && satBufIdx <= SAT_UART_BUF_SIZE
      requires AllEntries(added) && Entry(e) && LongestFitting(added + [e], k)
      requires satBuf[..satBufIdx] == Flatten((added + [e])[k..])
      modifies this`added, this`first
      ensures Valid() && added == old(added) + [e] && first == k
    {
      hide Flatten, Entry, LongestFitting;
      added, first := added + [e], k;
    }

    /**
     satellite_add_message_to_send_buffer.  A message of impossible size is refused; any other is
     framed and added, and the buffer keeps as many of the newest messages as fit.
     */
    method AddMessage(m: seq<bv8>, port: bv8, now: bv32) returns (accepted: bool, evictions: nat)
      requires Valid() && (0 < |m| <= SAT_UART_BUF_SIZE - TIMESTAMP_SIZE - 1 ==> WellFormed(m))
      modifies this, satBuf
      ensures Valid() && evictions <= MAX_EVICTIONS && evictions == first - old(first)
      ensures accepted <==> 0 < |m| && |m| + 5 <= 340
      ensures added == if accepted then old(added) + [Framed(m, port, now)] else old(added)
      ensures !accepted ==> satBufIdx == old(satBufIdx) && satBuf[..] == old(satBuf[..])
    {
      accepted, evictions := false, 0;
      if |m| + TIMESTAMP_SIZE + 1 > SAT_UART_BUF_SIZE || |m| <= 0 {
        return;
      }
      hide Flatten, TimeBytes, LongestFitting, Entry, WellFormed, Framed;
      ghost var k, e := first, Framed(m, port, now);
      FramedLength(m, port, now);
      evictions, k := MakeRoom(|m| + TIMESTAMP_SIZE + 1);
      LongestAppended(added, first, k, e);
      AppendFramed(m, port, now);
      Added(e, k);
      accepted := true;
    }

    /** Put the status message's bytes into the empty buffer. */
    method WriteStatus(status: seq<bv8>, length: bv8, now: bv32)
      requires satBuf.Length == SAT_UART_BUF_SIZE && |status| < 256
      modifies this`satBufIdx, satBuf
      ensures satBufIdx == |status| + OVERHEAD
      ensures satBuf[..satBufIdx] == Framed([MSG_STATUS_ID, length] + status, PORT_STATUS, now)
    {
      hide TimeBytes;
      satBufIdx := HEAD_SIZE;
      Append(status);
      satBuf[0], satBuf[1], satBuf[2] := PORT_STATUS, MSG_STATUS_ID, length;
      assert satBuf[..satBufIdx] == [PORT_STATUS, MSG_STATUS_ID, length] + status;
      Append(TimeBytes(now));
    }

    /** prv_add_status_message, into an empty buffer. */
    method AddStatusMessage(status: seq<bv8>, length: bv8, now: bv32)
      requires Valid() && satBufIdx == 0 && length as nat == |status|
      modifies this, satBuf
      ensures Valid() && added == [Framed([0xF4, length] + status, 4, now)] && first == 0
    {
      ghost var e := Framed([MSG_STATUS_ID, length] + status, PORT_STATUS, now);
      hide Flatten, Entry, LongestFitting, Framed;
      StatusFits(status, length, now);
      OnlyMessage(e);
      WriteStatus(status, length, now);
      added := [];
      Added(e, 0);
    }

    /** What a send hands to the modem; the buffer is emptied if the session succeeds. */
    method Send(success: bool) returns (sent: seq<bv8>)
      requires Valid()
      modifies this
      ensures Valid() && sent == Flatten(old(added[first..]))
      ensures if success then added == [] && satBufIdx == 0 else added == old(added) && first == old(first)
    {
      sent := satBuf[..satBufIdx];
      if success {
        satBufIdx := 0;
        added, first := [], 0;
      }
    }
  }
}
