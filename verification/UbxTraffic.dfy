/**
 Whole sentences through the receiver: NMEA text, RTCM frames and UBX frames leave the packets they
 do not concern alone, and a requested response and its acknowledgement arrive where they belong.
 */
module UbxTraffic {
  import opened UbxReceiver

  /** A UBX frame as it is sent: class, ID, length, payload and the two checksum bytes. */
  datatype Frame = Frame(cls: bv8, id: bv8, len: bv16, payload: seq<bv8>, checksumA: bv8, checksumB: bv8)

  /** The longest payload of a frame that the receiver takes as one. */
  const MAX_FRAME: nat := 250

  predicate Framed(f: Frame) {
    |f.payload| == Count(f.len)
  }

  function Low(n: bv16): bv8 {
    (n & 0xFF) as bv8
  }

  function High(n: bv16): bv8 {
    (n >> 8) as bv8
  }

  /** What the checksum covers. */
  function Body(f: Frame): (s: seq<bv8>)
    ensures |s| == |f.payload| + 4
  {
    [f.cls, f.id, Low(f.len), High(f.len)] + f.payload
  }

  function Bytes(f: Frame): (s: seq<bv8>)
    ensures |s| == |f.payload| + 8
  {
    [SYNC_1, SYNC_2] + Body(f) + [f.checksumA, f.checksumB]
  }

  /**
   Where the receiver gives up a frame: at its end, or when its counter reaches the size of the largest
   payload array.
   */
  function End(f: Frame): (n: nat)
    ensures n <= |Bytes(f)| && (n == |Bytes(f)| <==> |f.payload| <= MAX_FRAME)
  {
    Least(|f.payload|, MAX_FRAME) + 8
  }

  /** Whether one of the first `k` bytes is stored behind the end of packetBuf's payload. */
  predicate Overruns(f: Frame, k: nat) {
    f.cls == CLASS_ACK && |f.payload| > SHORT_PAYLOAD && k > 8
  }

  /**
   What holds between any two bytes: an RTCM length of 1 is never left over, and responses are recorded
   from their start.
   */
  predicate Steady(s: State) {
    Shaped(s) && s.rtcmLen != 1 && s.cfg.startingSpot == 0 && s.ack.startingSpot == 0
  }

  /** The receiver between two sentences. */
  predicate Idle(s: State) {
    Steady(s) && (s.sentence == NoSentence || s.sentence == Nmea)
  }

  function Least(a: int, b: int): int {
    if a < b then a else b
  }

  /** The checksum after the first `k` bytes of a frame. */
  function SumAfter(f: Frame, k: nat): Sum
    requires k >= 2
  {
    Fletcher(Body(f)[..Least(k - 2, |Body(f)|)])
  }

  /** `t` is `s` after the first `k` bytes of a frame that packetBuf collects. */
  predicate InBuf(s: State, t: State, f: Frame, k: nat) {
    && t == s.(sentence := Ubx, frame := k, active := PacketBuf, ignore := k >= 4 && f.cls != CLASS_ACK, sum := t.sum,
      buf := t.buf, fault := s.fault || Overruns(f, k))
    && |t.buf.payload| == SHORT_PAYLOAD
    && (1 <= k <= 2 ==> t.buf.counter == k)
    && (k >= 3 ==> t.buf.counter == k - 2 && t.buf.cls == f.cls && t.buf.startingSpot == 0 && t.sum == SumAfter(f, k))
    && (k >= 4 ==> t.buf.id == f.id)
    && (k == 5 ==> t.buf.len == Wide(Low(f.len)))
    && (k >= 6 ==> t.buf.len == f.len)
    && (k >= 7 && f.cls == CLASS_ACK && f.payload != [] ==> t.buf.payload[0] == f.payload[0])
  }

  /** A frame the caller has not asked for: another class or ID, or an acknowledgement of something else. */
  predicate Unrequested(f: Frame, q: Request) {
    Framed(f) && !(f.cls == q.cls && f.id == q.id) && (f.cls == CLASS_ACK ==> f.payload != [q.cls, q.id])
  }

  // ---- the bytes of a frame ----

  lemma LengthBytes(n: bv16)
    ensures Joined(Wide(Low(n)), High(n)) == n
  {
    assert ((n & 0xFF) as bv8 as bv16) | ((n >> 8) as bv8 as bv16 << 8) == n;
  }

  lemma OrTwice(x: bv16, y: bv16)
    ensures (x | y) | y == x | y
  {
  }

  /** Both `process` and processUBX add the high byte to the length in packetBuf. */
  lemma HighByteTwice(low: bv16, high: bv8)
    ensures Joined(Joined(low, high), high) == Joined(low, high)
  {
    OrTwice(low, high as bv16 << 8);
  }

  lemma FrameByte(f: Frame, k: nat)
    requires k < |Bytes(f)|
    ensures k == 0 ==> Bytes(f)[k] == SYNC_1
    ensures k == 1 ==> Bytes(f)[k] == SYNC_2
    ensures 2 <= k < |f.payload| + 6 ==> Bytes(f)[k] == Body(f)[k - 2]
    ensures 6 <= k < |f.payload| + 6 ==> Bytes(f)[k] == f.payload[k - 6]
    ensures k == |f.payload| + 6 ==> Bytes(f)[k] == f.checksumA
    ensures k == |f.payload| + 7 ==> Bytes(f)[k] == f.checksumB
  {
  }

  lemma HeadBytes(f: Frame)
    ensures Bytes(f)[2] == f.cls && Bytes(f)[3] == f.id && Bytes(f)[4] == Low(f.len) && Bytes(f)[5] == High(f.len)
  {
  }

  /** The checksum takes up every byte of the body and no other. */
  lemma SumStep(f: Frame, k: nat)
    requires 2 <= k < |Bytes(f)|
    ensures SumAfter(f, 2) == Sum(0, 0)
    ensures k < |f.payload| + 6 ==> SumAfter(f, k + 1) == Roll(SumAfter(f, k), Bytes(f)[k])
    ensures k >= |f.payload| + 6 ==> SumAfter(f, k + 1) == SumAfter(f, k) == Fletcher(Body(f))
  {
    hide Roll;
    FrameByte(f, k);
    var body := Body(f);
    if k < |f.payload| + 6 {
      assert body[..k - 1][..k - 2] == body[..k - 2];
    } else {
      assert body[..|body|] == body;
    }
  }

  // ---- a frame that packetBuf collects ----

  lemma FirstSync(s: State, f: Frame, q: Request)
    requires Idle(s)
    ensures InBuf(s, Process(s, SYNC_1, q), f, 1)
  {
    hide Fletcher, Body;
  }

  lemma SecondSync(s: State, t: State, f: Frame, q: Request)
    requires Idle(s) && InBuf(s, t, f, 1)
    ensures InBuf(s, Process(t, SYNC_2, q), f, 2)
  {
    hide Fletcher, Body;
  }

  lemma ClassByte(s: State, t: State, f: Frame, q: Request)
    requires Idle(s) && InBuf(s, t, f, 2)
    ensures InBuf(s, Process(t, f.cls, q), f, 3)
  {
    hide Wide, Joined, Count, Plus, Fletcher, Body, Bytes, SumAfter;
    SumStep(f, 2);
    HeadBytes(f);
  }

  lemma IdByte(s: State, t: State, f: Frame, q: Request)
    requires Idle(s) && InBuf(s, t, f, 3) && !(f.cls == q.cls && f.id == q.id) && q.cls != CLASS_ACK
    ensures InBuf(s, Process(t, f.id, q), f, 4)
  {
    hide Wide, Joined, Count, Plus, Fletcher, Body, Bytes, SumAfter;
    SumStep(f, 3);
    HeadBytes(f);
  }

  lemma LowByte(s: State, t: State, f: Frame, q: Request)
    requires Idle(s) && InBuf(s, t, f, 4)
    ensures InBuf(s, Process(t, Low(f.len), q), f, 5)
  {
    hide Wide, Joined, Count, Plus, Fletcher, Body, Bytes, SumAfter, Low, High;
    SumStep(f, 4);
    HeadBytes(f);
  }

  lemma HighByte(s: State, t: State, f: Frame, q: Request)
    requires Idle(s) && InBuf(s, t, f, 5)
    ensures InBuf(s, Process(t, High(f.len), q), f, 6)
  {
    hide Wide, Joined, Count, Plus, Fletcher, Body, Bytes, SumAfter, Low, High;
    SumStep(f, 5);
    HeadBytes(f);
    LengthBytes(f.len);
    HighByteTwice(Wide(Low(f.len)), High(f.len));
  }

  /** The packets the caller looks at are untouched. */
  predicate Unread(s: State, t: State) {
    t.cfg == s.cfg && t.ack == s.ack
  }

  /** And nothing was stored outside an array. */
  predicate Kept(s: State, t: State) {
    Unread(s, t) && t.fault == s.fault
  }

  /**
   After `k` bytes of a frame the packets are untouched, and a fault is set exactly if the frame
   overran packetBuf.
   */
  predicate Passed(s: State, t: State, f: Frame, k: nat) {
    Unread(s, t) && t.fault == (s.fault || Overruns(f, k))
  }

  /** What packetBuf makes of a byte after the length. */
  lemma CollectedByte(p: Packet, f: Frame, k: nat, b: bv8, sum: Sum, q: Request)
    requires Framed(f) && 6 <= k < End(f)
    requires p.counter == k - 2 && p.len == f.len && p.cls == f.cls && p.startingSpot == 0
    requires |p.payload| == SHORT_PAYLOAD
    ensures
      var g := Filed(p, b, f.cls != CLASS_ACK, sum, q);
      && g.fault == (f.cls == CLASS_ACK && |f.payload| > SHORT_PAYLOAD && 8 <= k < |f.payload| + 6)
      && (g.done <==> k + 1 == End(f)) && |g.packet.payload| == SHORT_PAYLOAD
      && g.sum == (if k < |f.payload| + 6 then Roll(sum, b) else sum)
      && (!g.done ==> g.packet == p.(counter := k - 1, checksumA := g.packet.checksumA, payload := g.packet.payload))
      && (!g.done && f.cls == CLASS_ACK && k == 6 && f.payload != [] ==> g.packet.payload[0] == b)
      && (!g.done && k > 6 ==> g.packet.payload[0] == p.payload[0])
  {
    hide Wide, Joined, Count, Judged, Body, Roll;
  }

  /** Diverting the byte into packetBuf. */
  lemma Collect(s: State, t: State, f: Frame, k: nat, q: Request)
    requires Idle(s) && InBuf(s, t, f, k) && Framed(f) && 6 <= k < End(f)
    requires k == 6 || f.cls != CLASS_ACK || f.payload == [] || t.buf.payload[0] == f.payload[0]
    ensures
      var t' := Diverted(t, Bytes(f)[k], q).(frame := k + 1);
      if k + 1 == End(f) then Idle(t') && Passed(s, t', f, k + 1) else InBuf(s, t', f, k + 1)
  {
    hide Wide, Joined, Count, Plus, Fletcher, Body, Bytes, SumAfter, Filed, Roll;
    SumStep(f, k);
    FrameByte(f, k);
    CollectedByte(t.buf, f, k, Bytes(f)[k], t.sum, q);
    assert Filed(t.buf, Bytes(f)[k], f.cls != CLASS_ACK, t.sum, q) == Filed(t.buf, Bytes(f)[k], t.ignore, t.sum, q);
  }

  /** In the midst of a frame, `process` notes the byte and diverts it. */
  lemma InFrame(t: State, b: bv8, q: Request)
    requires Shaped(t) && t.sentence == Ubx
    ensures Shaped(Noted(t, b, q)) && Process(t, b, q) == Diverted(Noted(t, b, q), b, q).(frame := t.frame + 1)
  {
    hide Diverted, Noted;
  }

  lemma FirstNoted(s: State, t: State, f: Frame, b: bv8, q: Request)
    requires Idle(s) && InBuf(s, t, f, 6)
    ensures InBuf(s, Noted(t, b, q), f, 6)
  {
    hide Wide, Joined, Count, Plus, Fletcher, Body, Bytes, SumAfter, SecondByte, IdSeen;
  }

  /** Two bytes of payload that are not the request's. */
  lemma NotThisAck(f: Frame, q: Request)
    requires Unrequested(f, q) && f.cls == CLASS_ACK && f.len == 2
    ensures |f.payload| == 2 && !(f.payload[0] == q.cls && f.payload[1] == q.id)
  {
    assert f.payload == [f.payload[0], f.payload[1]];
  }

  lemma SecondNoted(s: State, t: State, f: Frame, q: Request)
    requires Idle(s) && InBuf(s, t, f, 7) && Unrequested(f, q)
    ensures InBuf(s, Noted(t, Bytes(f)[7], q), f, 7)
  {
    if f.cls == CLASS_ACK && f.len == 2 {
      NotThisAck(f, q);
    }
    hide Wide, Joined, Count, Plus, Fletcher, Body, Bytes, SumAfter, IdSeen, Unrequested;
    FrameByte(f, 7);
  }

  /** Nothing that `process` notes after the ID matters to a frame that is not asked for. */
  lemma NothingNoted(s: State, t: State, f: Frame, k: nat, q: Request)
    requires Idle(s) && InBuf(s, t, f, k) && 6 <= k < |Bytes(f)|
    requires k == 6 || Unrequested(f, q)
    ensures InBuf(s, Noted(t, Bytes(f)[k], q), f, k)
  {
    hide Wide, Joined, Count, Plus, Fletcher, Body, Bytes, SumAfter, SecondByte, IdSeen;
    if k == 6 {
      FirstNoted(s, t, f, Bytes(f)[k], q);
    } else if k == 7 {
      SecondNoted(s, t, f, q);
    }
  }

  lemma PayloadByte(s: State, t: State, f: Frame, k: nat, q: Request)
    requires Idle(s) && InBuf(s, t, f, k) && 6 <= k < End(f) && Framed(f) && (k == 6 || Unrequested(f, q))
    ensures
      var t' := Process(t, Bytes(f)[k], q);
      if k + 1 == End(f) then Idle(t') && Passed(s, t', f, k + 1) else InBuf(s, t', f, k + 1)
  {
    hide Wide, Joined, Count, Plus, Fletcher, Body, Bytes, SumAfter, Noted, Diverted, Process;
    InFrame(t, Bytes(f)[k], q);
    NothingNoted(s, t, f, k, q);
    Collect(s, Noted(t, Bytes(f)[k], q), f, k, q);
  }

  lemma HeadByte(s: State, t: State, f: Frame, k: nat, q: Request)
    requires Idle(s) && InBuf(s, t, f, k) && 1 <= k < 6
    requires k == 3 ==> !(f.cls == q.cls && f.id == q.id) && q.cls != CLASS_ACK
    ensures InBuf(s, Process(t, Bytes(f)[k], q), f, k + 1)
  {
    hide Process, InBuf, Low, High, Idle;
    HeadBytes(f);
    FrameByte(f, 1);
    if k == 1 { SecondSync(s, t, f, q); }
    if k == 2 { ClassByte(s, t, f, q); }
    if k == 3 { IdByte(s, t, f, q); }
    if k == 4 { LowByte(s, t, f, q); }
    if k == 5 { HighByte(s, t, f, q); }
  }

  lemma SteadyStep(s: State, b: bv8, q: Request)
    requires Steady(s)
    ensures Steady(Process(s, b, q))
  {
    hide Wide, Joined, Diverted, Noted, RtcmByte;
    var t := Started(s, b);
    if t.sentence == Ubx {
      SteadyNoted(t, b, q);
      SteadyDiverted(Noted(t, b, q), b, q);
    } else {
      SteadyRtcm(t, b);
    }
  }

  lemma SteadyNoted(t: State, b: bv8, q: Request)
    requires Steady(t)
    ensures Steady(Noted(t, b, q))
  {
    hide Wide, Joined, IdSeen, SecondByte;
    SteadyId(t, b, q);
    SteadySecond(t, b, q);
  }

  lemma SteadyId(t: State, b: bv8, q: Request)
    requires Steady(t)
    ensures Steady(IdSeen(t, b, q))
  {
  }

  lemma SteadySecond(t: State, b: bv8, q: Request)
    requires Steady(t)
    ensures Steady(SecondByte(t, b, q))
  {
  }

  lemma SteadyDiverted(t: State, b: bv8, q: Request)
    requires Steady(t)
    ensures Steady(Diverted(t, b, q))
  {
    hide Filed;
  }

  lemma SteadyRtcm(t: State, b: bv8)
    requires Steady(t)
    ensures Steady(RtcmByte(t, b))
  {
    assert RtcmHigh(b) != 1 && RtcmTotal(t.rtcmLen, b) != 1;
  }

  /** Whatever comes in. */
  lemma {:induction false} SteadyRun(s: State, bytes: seq<bv8>, q: Request)
    requires Steady(s)
    ensures Steady(Run(s, bytes, q))
  {
    hide Process;
    if bytes != [] {
      SteadyRun(s, bytes[..|bytes| - 1], q);
      SteadyStep(Run(s, bytes[..|bytes| - 1], q), bytes[|bytes| - 1], q);
    }
  }

  lemma RunStep(s: State, bytes: seq<bv8>, k: nat, q: Request)
    requires Shaped(s) && k < |bytes|
    ensures Run(s, bytes[..k + 1], q) == Process(Run(s, bytes[..k], q), bytes[k], q)
  {
    hide Process;
    assert bytes[..k + 1][..k] == bytes[..k];
  }

  /** `t` is what `k` bytes of a frame nobody asked for have made of `s`. */
  predicate Passing(s: State, t: State, f: Frame, k: nat) {
    && Passed(s, t, f, k) && Shaped(t) && (k == 0 ==> t == s)
    && (0 < k < End(f) ==> InBuf(s, t, f, k)) && (k == End(f) ==> Idle(t))
  }

  lemma InBufIsPassed(s: State, t: State, f: Frame, k: nat)
    requires Idle(s) && InBuf(s, t, f, k)
    ensures Passed(s, t, f, k) && Shaped(t)
  {
    hide SumAfter, Low, High;
  }

  lemma PassingStep(s: State, t: State, f: Frame, k: nat, q: Request)
    requires Idle(s) && Unrequested(f, q) && q.cls != CLASS_ACK && k < End(f)
    requires Passing(s, t, f, k)
    ensures Passing(s, Process(t, Bytes(f)[k], q), f, k + 1)
  {
    hide Process, Bytes, InBuf, Passed;
    var t' := Process(t, Bytes(f)[k], q);
    if k == 0 {
      FrameByte(f, 0);
      FirstSync(s, f, q);
    } else if k < 6 {
      HeadByte(s, t, f, k, q);
    } else {
      PayloadByte(s, t, f, k, q);
    }
    if k + 1 < End(f) {
      InBufIsPassed(s, t', f, k + 1);
    }
  }

  /**
   A frame nobody asked for passes, byte by byte, and leaves the packets alone.  An acknowledgement
   longer than two bytes overruns packetBuf, and a frame longer than 250 is given up before its end.
   */
  lemma {:induction false} UnrequestedFrame(s: State, f: Frame, k: nat, q: Request)
    requires Idle(s) && Unrequested(f, q) && q.cls != CLASS_ACK && k <= End(f)
    ensures Passing(s, Run(s, Bytes(f)[..k], q), f, k)
  {
    hide Process, Bytes, InBuf, Unrequested;
    if k > 0 {
      UnrequestedFrame(s, f, k - 1, q);
      RunStep(s, Bytes(f), k - 1, q);
      PassingStep(s, Run(s, Bytes(f)[..k - 1], q), f, k - 1, q);
    }
  }

  // ---- the response that was asked for ----

  /** A frame of the requested class and ID. */
  predicate Requested(f: Frame, q: Request) {
    Framed(f) && |f.payload| <= MAX_FRAME && f.cls == q.cls && f.id == q.id && q.cls != CLASS_ACK
  }

  /** `t` is `s` after the first `k` bytes of the response, which packetCfg collects. */
  predicate InCfg(s: State, t: State, f: Frame, k: nat)
    requires 4 <= k
  {
    && t == s.(sentence := Ubx, frame := k, active := PacketCfg, ignore := false, sum := t.sum,
               buf := t.buf, cfg := t.cfg)
    && t.cfg == s.cfg.(cls := f.cls, id := f.id, len := t.cfg.len, counter := k - 2,
                       payload := t.cfg.payload, checksumA := t.cfg.checksumA)
    && |t.buf.payload| == SHORT_PAYLOAD && |t.cfg.payload| == MAX_PAYLOAD_SIZE && t.sum == SumAfter(f, k)
    && (k == 5 ==> t.cfg.len == Wide(Low(f.len))) && (k >= 6 ==> Collecting(t.cfg, f, k))
    && (k == |f.payload| + 7 ==> t.cfg.checksumA == f.checksumA)
  }

  /** packetCfg while it files the `k`-th byte of the response. */
  predicate Collecting(p: Packet, f: Frame, k: nat) {
    && p.counter == k - 2 && p.len == f.len && p.cls == f.cls && p.id == f.id && p.startingSpot == 0
    && |p.payload| == MAX_PAYLOAD_SIZE && 6 <= k && PayloadSoFar(p, f, Least(k - 6, |f.payload|))
  }

  predicate PayloadSoFar(p: Packet, f: Frame, n: nat) {
    n <= |f.payload| && n <= |p.payload| && p.payload[..n] == f.payload[..n]
  }

  /** What packetCfg holds after the response. */
  predicate Received(p: Packet, f: Frame) {
    && p.cls == f.cls && p.id == f.id && p.len == f.len && PayloadSoFar(p, f, |f.payload|)
    && p.valid == p.classAndId == if Sum(f.checksumA, f.checksumB) == Fletcher(Body(f)) then Valid else NotValid
  }

  lemma RequestedId(s: State, t: State, f: Frame, q: Request)
    requires Idle(s) && InBuf(s, t, f, 3) && Requested(f, q)
    ensures InCfg(s, Process(t, f.id, q), f, 4)
  {
    hide Wide, Joined, Count, Plus, Fletcher, Body, Bytes, SumAfter;
    SumStep(f, 3);
    HeadBytes(f);
  }

  lemma RequestedLow(s: State, t: State, f: Frame, q: Request)
    requires Idle(s) && InCfg(s, t, f, 4)
    ensures InCfg(s, Process(t, Low(f.len), q), f, 5)
  {
    hide Wide, Joined, Count, Plus, Fletcher, Body, Bytes, SumAfter, Low, High, PayloadSoFar;
    SumStep(f, 4);
    HeadBytes(f);
  }

  lemma RequestedHigh(s: State, t: State, f: Frame, q: Request)
    requires Idle(s) && InCfg(s, t, f, 5)
    ensures InCfg(s, Process(t, High(f.len), q), f, 6)
  {
    hide Wide, Joined, Count, Plus, Fletcher, Body, Bytes, SumAfter, Low, High;
    SumStep(f, 5);
    HeadBytes(f);
    LengthBytes(f.len);
    HighByteTwice(Wide(Low(f.len)), High(f.len));
  }

  /** Once packetCfg is in use, what `process` notes touches packetBuf only. */
  lemma NotedBesides(s: State, t: State, f: Frame, k: nat, b: bv8, q: Request)
    requires Idle(s) && 6 <= k && InCfg(s, t, f, k)
    ensures InCfg(s, Noted(t, b, q), f, k)
  {
    hide Wide, Joined, Count, Plus, Fletcher, Body, Bytes, SumAfter, Collecting, IdSeen;
  }

  lemma ResponsePayloadByte(p: Packet, f: Frame, k: nat, sum: Sum, q: Request)
    requires Requested(f, q) && Collecting(p, f, k) && k < |f.payload| + 6
    ensures
      var g := Filed(p, Bytes(f)[k], false, sum, q);
      && g == Filing(p.(counter := k - 1, payload := g.packet.payload), Roll(sum, Bytes(f)[k]), false, false)
      && Collecting(g.packet, f, k + 1)
  {
    hide Wide, Joined, Count, Body, Roll, Fletcher, Bytes, Judged;
    FrameByte(f, k);
    var i := k - 6;
    assert Filed(p, Bytes(f)[k], false, sum, q).packet.payload == p.payload[i := f.payload[i]];
    assert p.payload[i := f.payload[i]][..i + 1] == f.payload[..i + 1];
  }

  lemma ResponseChecksumA(p: Packet, f: Frame, k: nat, sum: Sum, q: Request)
    requires Requested(f, q) && Collecting(p, f, k) && k == |f.payload| + 6
    ensures
      var g := Filed(p, Bytes(f)[k], false, sum, q);
      g == Filing(p.(counter := k - 1, checksumA := f.checksumA), sum, false, false) && Collecting(g.packet, f, k + 1)
  {
    hide Wide, Joined, Count, Body, Roll, Fletcher, Bytes, Judged;
    FrameByte(f, k);
  }

  lemma ResponseChecksumB(p: Packet, f: Frame, k: nat, sum: Sum, q: Request)
    requires Requested(f, q) && Collecting(p, f, k) && k == |f.payload| + 7
    requires p.checksumA == f.checksumA && sum == Fletcher(Body(f))
    ensures
      var g := Filed(p, Bytes(f)[k], false, sum, q);
      && g.done && !g.fault && g.sum == sum && Received(g.packet, f)
      && g.packet.startingSpot == 0 && |g.packet.payload| == MAX_PAYLOAD_SIZE
  {
    hide Wide, Joined, Count, Body, Roll, Fletcher, Bytes;
    FrameByte(f, k);
  }

  /** The response is in packetCfg, and nothing else has changed for the caller. */
  predicate Arrived(s: State, t: State, f: Frame) {
    Idle(t) && t.ack == s.ack && t.fault == s.fault && Received(t.cfg, f)
  }

  /** Diverting the byte into packetCfg. */
  lemma CollectResponse(s: State, t: State, f: Frame, k: nat, q: Request)
    requires Idle(s) && Requested(f, q) && 6 <= k < |Bytes(f)| && InCfg(s, t, f, k)
    ensures
      var t' := Diverted(t, Bytes(f)[k], q).(frame := k + 1);
      if k + 1 == |Bytes(f)| then Arrived(s, t', f) else InCfg(s, t', f, k + 1)
  {
    hide Wide, Joined, Count, Plus, Fletcher, Body, Bytes, SumAfter, Filed, Roll, Collecting, Received;
    SumStep(f, k);
    assert |t.cfg.payload| == MAX_PAYLOAD_SIZE;
    if k < |f.payload| + 6 {
      ResponsePayloadByte(t.cfg, f, k, t.sum, q);
    } else if k == |f.payload| + 6 {
      ResponseChecksumA(t.cfg, f, k, t.sum, q);
    } else {
      ResponseChecksumB(t.cfg, f, k, t.sum, q);
    }
  }

  /** `t` is what `k` bytes of the response have made of `s`. */
  predicate Responding(s: State, t: State, f: Frame, k: nat) {
    && Shaped(t) && t.ack == s.ack && t.fault == s.fault && (k == 0 ==> t == s)
    && (0 < k < 4 ==> InBuf(s, t, f, k)) && (4 <= k < |Bytes(f)| ==> InCfg(s, t, f, k))
    && (k < |Bytes(f)| ==> t.cfg.classAndId == s.cfg.classAndId)
    && (k == |Bytes(f)| ==> Arrived(s, t, f))
  }

  lemma InCfgIsResponding(s: State, t: State, f: Frame, k: nat)
    requires Idle(s) && 4 <= k < |Bytes(f)| && InCfg(s, t, f, k)
    ensures Responding(s, t, f, k)
  {
    hide SumAfter, Low, High, Bytes, Collecting;
  }

  lemma InBufIsResponding(s: State, t: State, f: Frame, k: nat)
    requires Idle(s) && 0 < k < 4 && InBuf(s, t, f, k)
    ensures Responding(s, t, f, k)
  {
    hide SumAfter, Low, High, Bytes, Collecting;
  }

  lemma ArrivedIsResponding(s: State, t: State, f: Frame)
    requires Arrived(s, t, f)
    ensures Responding(s, t, f, |Bytes(f)|)
  {
    hide Bytes, Received;
  }

  lemma InCfgInFrame(s: State, t: State, f: Frame, k: nat)
    requires 4 <= k && InCfg(s, t, f, k)
    ensures t.sentence == Ubx && t.frame == k
  {
  }

  lemma RespondingTail(s: State, t: State, f: Frame, k: nat, q: Request)
    requires Idle(s) && Requested(f, q) && 6 <= k < |Bytes(f)| && InCfg(s, t, f, k) && Shaped(t)
    ensures Responding(s, Process(t, Bytes(f)[k], q), f, k + 1)
  {
    hide *;
    var t', n := Process(t, Bytes(f)[k], q), Noted(t, Bytes(f)[k], q);
    InCfgInFrame(s, t, f, k);
    InFrame(t, Bytes(f)[k], q);
    NotedBesides(s, t, f, k, Bytes(f)[k], q);
    CollectResponse(s, n, f, k, q);
    if k + 1 == |Bytes(f)| {
      ArrivedIsResponding(s, t', f);
    } else {
      InCfgIsResponding(s, t', f, k + 1);
    }
  }

  lemma RespondingStep(s: State, t: State, f: Frame, k: nat, q: Request)
    requires Idle(s) && Requested(f, q) && k < |Bytes(f)| && Responding(s, t, f, k)
    ensures Responding(s, Process(t, Bytes(f)[k], q), f, k + 1)
  {
    hide Process, Bytes, InBuf, InCfg, Arrived, Idle, Requested, Low, High;
    var t' := Process(t, Bytes(f)[k], q);
    HeadBytes(f);
    FrameByte(f, k);
    if k == 0 { FirstSync(s, f, q); }
    if k == 1 { SecondSync(s, t, f, q); }
    if k == 2 { ClassByte(s, t, f, q); }
    if k == 3 { RequestedId(s, t, f, q); }
    if k == 4 { RequestedLow(s, t, f, q); }
    if k == 5 { RequestedHigh(s, t, f, q); }
    if k < 3 {
      InBufIsResponding(s, t', f, k + 1);
    } else if k < 6 {
      InCfgIsResponding(s, t', f, k + 1);
    } else {
      RespondingTail(s, t, f, k, q);
    }
  }

  /** The response arrives in packetCfg, and is valid exactly when its checksum bytes are right. */
  lemma {:induction false} ResponseFrame(s: State, f: Frame, k: nat, q: Request)
    requires Idle(s) && Requested(f, q) && k <= |Bytes(f)|
    ensures Responding(s, Run(s, Bytes(f)[..k], q), f, k)
  {
    hide Process, Bytes, InBuf, InCfg, Arrived, Requested;
    if k > 0 {
      ResponseFrame(s, f, k - 1, q);
      RunStep(s, Bytes(f), k - 1, q);
      RespondingStep(s, Run(s, Bytes(f)[..k - 1], q), f, k - 1, q);
    }
  }

  // ---- its acknowledgement ----

  /** An acknowledgement, positive or negative, of the request. */
  predicate Acknowledgement(f: Frame, q: Request) {
    && Framed(f) && f.cls == CLASS_ACK && (f.id == ACK_ACK || f.id == ACK_NACK)
    && f.len == 2 && f.payload == [q.cls, q.id] && q.cls != CLASS_ACK
  }

  /** `t` is `s` after the payload, and perhaps a checksum byte, of the acknowledgement. */
  predicate InAck(s: State, t: State, f: Frame, k: nat) {
    && 8 <= k <= 9
    && t == s.(sentence := Ubx, frame := k, active := PacketAck, ignore := false, sum := t.sum,
               buf := t.buf, ack := t.ack)
    && t.ack == s.ack.(cls := f.cls, id := f.id, len := f.len, counter := k - 2,
                       payload := f.payload, checksumA := t.ack.checksumA)
    && |t.buf.payload| == SHORT_PAYLOAD && t.sum == SumAfter(f, k)
    && (k == 9 ==> t.ack.checksumA == f.checksumA)
  }

  /** The acknowledgement is in packetAck, and nothing else has changed for the caller. */
  predicate Answered(s: State, t: State, f: Frame) {
    && Idle(t) && t.cfg == s.cfg && t.fault == s.fault
    && t.ack.classAndId ==
       if Sum(f.checksumA, f.checksumB) != Fletcher(Body(f)) then NotValid
       else if f.id == ACK_ACK then Valid
       else NotAcknowledged
  }

  lemma AckMatched(s: State, t: State, f: Frame, q: Request)
    requires Idle(s) && InBuf(s, t, f, 7) && Acknowledgement(f, q)
    ensures Shaped(Noted(t, q.id, q)) && Noted(t, q.id, q) == AckTaken(t.(buf := t.buf.(payload := f.payload)))
  {
    hide Wide, Joined, Count, Plus, Fletcher, Body, Bytes, SumAfter, IdSeen, AckTaken;
    assert t.buf.payload[1 := q.id] == f.payload;
  }

  lemma AckDiverted(s: State, t: State, f: Frame, q: Request)
    requires Idle(s) && InBuf(s, t, f, 7) && Acknowledgement(f, q)
    ensures
      var u := AckTaken(t.(buf := t.buf.(payload := f.payload)));
      Shaped(u) && InAck(s, Diverted(u, q.id, q).(frame := 8), f, 8)
  {
    hide Wide, Joined, Count, Plus, Fletcher, Body, Bytes, SumAfter, Judged;
    SumStep(f, 7);
    FrameByte(f, 7);
    assert [f.payload[0], f.payload[1]] == f.payload;
    assert f.payload[1 := q.id] == f.payload;
  }

  lemma AckLastPayloadByte(s: State, t: State, f: Frame, q: Request)
    requires Idle(s) && InBuf(s, t, f, 7) && Acknowledgement(f, q)
    ensures InAck(s, Process(t, Bytes(f)[7], q), f, 8)
  {
    InBufIsPassed(s, t, f, 7);
    FrameByte(f, 7);
    assert Bytes(f)[7] == q.id;
    hide Process, Noted, Diverted, AckTaken, InAck, Bytes, Fletcher;
    InFrame(t, q.id, q);
    AckMatched(s, t, f, q);
    AckDiverted(s, t, f, q);
  }

  lemma AckChecksumA(s: State, t: State, f: Frame, q: Request)
    requires Idle(s) && InAck(s, t, f, 8) && Acknowledgement(f, q)
    ensures InAck(s, Process(t, f.checksumA, q), f, 9)
  {
    hide Wide, Joined, Count, Plus, Fletcher, Body, Bytes, SumAfter, Judged, IdSeen, SecondByte;
    SumStep(f, 8);
  }

  lemma AckChecksumB(s: State, t: State, f: Frame, q: Request)
    requires Idle(s) && InAck(s, t, f, 9) && Acknowledgement(f, q)
    ensures Answered(s, Process(t, f.checksumB, q), f)
  {
    hide Wide, Joined, Count, Plus, Fletcher, Body, Bytes, SumAfter, IdSeen, SecondByte;
    SumStep(f, 9);
  }

  /** `t` is what `k` bytes of the acknowledgement have made of `s`. */
  predicate Answering(s: State, t: State, f: Frame, k: nat) {
    && Shaped(t) && t.cfg == s.cfg && t.fault == s.fault && (k == 0 ==> t == s)
    && (0 < k < 8 ==> InBuf(s, t, f, k)) && (8 <= k < 10 ==> InAck(s, t, f, k))
    && (k < 10 ==> t.ack.classAndId == s.ack.classAndId)
    && (k == 10 ==> Answered(s, t, f))
  }

  lemma InBufIsAnswering(s: State, t: State, f: Frame, k: nat)
    requires Idle(s) && 0 < k < 8 && InBuf(s, t, f, k)
    ensures Answering(s, t, f, k)
  {
    hide SumAfter, Low, High;
  }

  lemma InAckIsAnswering(s: State, t: State, f: Frame, k: nat)
    requires Idle(s) && InAck(s, t, f, k) && |f.payload| == SHORT_PAYLOAD
    ensures Answering(s, t, f, k)
  {
    hide SumAfter;
  }

  lemma AnsweringStep(s: State, t: State, f: Frame, k: nat, q: Request)
    requires Idle(s) && Acknowledgement(f, q) && k < 10 && Answering(s, t, f, k)
    ensures Answering(s, Process(t, Bytes(f)[k], q), f, k + 1)
  {
    assert |Bytes(f)| == 10;
    FrameByte(f, k);
    hide Process, Bytes, InBuf, InAck, Answered, Idle;
    var t' := Process(t, Bytes(f)[k], q);
    if k == 0 { FirstSync(s, f, q); }
    if 1 <= k < 6 { HeadByte(s, t, f, k, q); }
    if k == 6 { PayloadByte(s, t, f, k, q); }
    if k == 7 { AckLastPayloadByte(s, t, f, q); }
    if k == 8 { AckChecksumA(s, t, f, q); }
    if k == 9 { AckChecksumB(s, t, f, q); }
    if k < 7 {
      InBufIsAnswering(s, t', f, k + 1);
    } else if k < 9 {
      InAckIsAnswering(s, t', f, k + 1);
    } else {
      AnsweredIsAnswering(s, t', f);
    }
  }

  lemma AnsweredIsAnswering(s: State, t: State, f: Frame)
    requires Answered(s, t, f)
    ensures Answering(s, t, f, 10)
  {
  }

  /** The acknowledgement arrives in packetAck. */
  lemma {:induction false} AckFrame(s: State, f: Frame, k: nat, q: Request)
    requires Idle(s) && Acknowledgement(f, q) && k <= |Bytes(f)|
    ensures |Bytes(f)| == 10 && Answering(s, Run(s, Bytes(f)[..k], q), f, k)
  {
    hide Process, InBuf, InAck, Answered;
    if k > 0 {
      AckFrame(s, f, k - 1, q);
      RunStep(s, Bytes(f), k - 1, q);
      AnsweringStep(s, Run(s, Bytes(f)[..k - 1], q), f, k - 1, q);
    }
  }
}
