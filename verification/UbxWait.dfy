/**
 Waiting for a response (app/src/gps_ublox/gps_ublox.cpp): mixed traffic, the verdict read from the
 packet flags after every poll, and what the checksum detects.
 */
module UbxWait {
  import opened UbxReceiver
  import opened UbxTraffic

  // ---- text and RTCM frames ----

  predicate TextByte(b: bv8) {
    b != SYNC_1 && b != RTCM_START
  }

  lemma {:induction false} TextPasses(s: State, text: seq<bv8>, q: Request)
    requires Idle(s) && forall i :: 0 <= i < |text| ==> TextByte(text[i])
    ensures Idle(Run(s, text, q)) && Kept(s, Run(s, text, q))
  {
    if text != [] {
      TextPasses(s, text[..|text| - 1], q);
    }
  }

  /**
   An RTCM frame as the format has it: preamble, six reserved bits and ten bits of length, so many
   bytes, and three bytes of checksum.
   */
  predicate RtcmFrame(s: seq<bv8>) {
    |s| >= 3 && s[0] == 0xD3 && |s| == 3 + (256 * (s[1] as nat % 4) + s[2] as nat) + 3
  }

  /** The length the receiver works out. */
  function RtcmLength(b1: bv8, b2: bv8): nat {
    RtcmTotal(RtcmHigh(b1), b2)
  }

  lemma LowBits(b: bv8)
    ensures (b & 0x03) as nat == b as nat % 4
  {
    assert b == ((b >> 2) << 2) | (b & 0x03);
    assert b == (b >> 2) * 4 + (b & 0x03);
    assert b as nat == (b >> 2) as nat * 4 + (b & 0x03) as nat;
  }

  lemma RtcmPreamble(f: seq<bv8>)
    requires RtcmFrame(f)
    ensures |f| >= 6 && f[0] == RTCM_START
  {
  }

  lemma RtcmLengthOfFrame(f: seq<bv8>)
    requires RtcmFrame(f)
    ensures |f| == RtcmLength(f[1], f[2])
  {
    LowBits(f[1]);
  }

  /** `t` is `s` after `k` bytes of an RTCM frame. */
  predicate InRtcm(s: State, t: State, f: seq<bv8>, k: nat)
    requires |f| >= 3
  {
    && t == s.(sentence := Rtcm, rtcmCount := k, rtcmLen := t.rtcmLen)
    && (k == 1 ==> t.rtcmLen == s.rtcmLen)
    && (k == 2 ==> t.rtcmLen == RtcmHigh(f[1]))
    && (k >= 3 ==> t.rtcmLen == RtcmLength(f[1], f[2]))
  }

  predicate InRtcmOrDone(s: State, t: State, f: seq<bv8>, k: nat)
    requires |f| >= 3
  {
    && Kept(s, t) && Shaped(t) && (k == 0 ==> t == s)
    && (0 < k < |f| ==> InRtcm(s, t, f, k)) && (k == |f| ==> Idle(t))
  }

  lemma ToRtcm(t: State, b: bv8, q: Request)
    requires Shaped(t)
    ensures t.sentence == Rtcm ==> Process(t, b, q) == RtcmByte(t, b)
    ensures t.sentence in {NoSentence, Nmea} && b == RTCM_START ==>
      Process(t, b, q) == RtcmByte(t.(sentence := Rtcm, rtcmCount := 0), b)
  {
    hide Noted, Diverted, RtcmByte;
  }

  lemma RtcmLengths(b1: bv8, b2: bv8)
    ensures RtcmLength(b1, b2) >= 6 && RtcmHigh(b1) != 1 && RtcmHigh(b1) != 2
  {
  }

  lemma RtcmStep(s: State, t: State, f: seq<bv8>, k: nat, q: Request)
    requires Idle(s) && RtcmFrame(f) && k < |f| && InRtcmOrDone(s, t, f, k)
    ensures InRtcmOrDone(s, Process(t, f[k], q), f, k + 1)
  {
    hide Process, RtcmHigh, RtcmTotal, RtcmFrame;
    RtcmLengthOfFrame(f);
    RtcmPreamble(f);
    RtcmLengths(f[1], f[2]);
    ToRtcm(t, f[k], q);
  }

  lemma {:induction false} RtcmPasses(s: State, f: seq<bv8>, k: nat, q: Request)
    requires Idle(s) && RtcmFrame(f) && k <= |f|
    ensures InRtcmOrDone(s, Run(s, f[..k], q), f, k)
  {
    hide Process, InRtcm, RtcmLength;
    if k > 0 {
      RtcmPasses(s, f, k - 1, q);
      RunStep(s, f, k - 1, q);
      RtcmStep(s, Run(s, f[..k - 1], q), f, k - 1, q);
    }
  }

  // ---- mixed traffic ----

  datatype Item = Text(text: seq<bv8>) | RtcmItem(frame: seq<bv8>) | UbxItem(ubx: Frame)

  function ItemBytes(i: Item): seq<bv8> {
    match i case Text(s) => s case RtcmItem(s) => s case UbxItem(f) => Bytes(f)
  }

  /** Traffic that has nothing to do with the request. */
  predicate Foreign(i: Item, q: Request) {
    match i
    case Text(s) => forall k :: 0 <= k < |s| ==> TextByte(s[k])
    case RtcmItem(f) => RtcmFrame(f)
    case UbxItem(f) => Unrequested(f, q) && |f.payload| <= MAX_FRAME && !Overruns(f, |Bytes(f)|)
  }

  function Stream(items: seq<Item>): seq<bv8> {
    if items == [] then [] else Stream(items[..|items| - 1]) + ItemBytes(items[|items| - 1])
  }

  lemma {:induction false} RunConcat(s: State, a: seq<bv8>, b: seq<bv8>, q: Request)
    requires Shaped(s)
    ensures Run(s, a + b, q) == Run(Run(s, a, q), b, q)
    decreases |b|
  {
    hide Process;
    if b == [] {
      assert a + b == a;
    } else {
      var init := b[..|b| - 1];
      assert (a + b)[..|a + b| - 1] == a + init;
      RunConcat(s, a, init, q);
    }
  }

  lemma ForeignItem(s: State, i: Item, k: nat, q: Request)
    requires Idle(s) && Foreign(i, q) && q.cls != CLASS_ACK && k <= |ItemBytes(i)|
    ensures
      var t := Run(s, ItemBytes(i)[..k], q);
      Kept(s, t) && (k == |ItemBytes(i)| ==> Idle(t))
  {
    hide Process, Run, Bytes, InBuf, InRtcm, RtcmFrame, Unrequested;
    match i
    case Text(text) => TextPasses(s, text[..k], q);
    case RtcmItem(f) => RtcmAny(s, f, k, q);
    case UbxItem(f) => UnrequestedFrame(s, f, k, q);
  }

  lemma RtcmAny(s: State, f: seq<bv8>, k: nat, q: Request)
    requires Idle(s) && RtcmFrame(f) && k <= |f|
    ensures Kept(s, Run(s, f[..k], q)) && (k == |f| ==> Idle(Run(s, f[..k], q)))
  {
    RtcmPasses(s, f, k, q);
  }

  /** Foreign traffic, broken off anywhere, leaves no trace. */
  lemma {:induction false} ForeignTraffic(s: State, items: seq<Item>, k: nat, q: Request)
    requires Idle(s) && q.cls != CLASS_ACK && k <= |Stream(items)|
    requires forall i :: 0 <= i < |items| ==> Foreign(items[i], q)
    ensures
      var t := Run(s, Stream(items)[..k], q);
      Kept(s, t) && (k == |Stream(items)| ==> Idle(t))
  {
    hide Process, Foreign, ItemBytes;
    if items != [] {
      var init, last := items[..|items| - 1], items[|items| - 1];
      var front := Stream(init);
      if k < |front| {
        ForeignTraffic(s, init, k, q);
        assert Stream(items)[..k] == front[..k];
      } else {
        ForeignTraffic(s, init, |front|, q);
        assert front[..|front|] == front;
        var u := Run(s, front, q);
        ForeignItem(u, last, k - |front|, q);
        RunConcat(s, front, ItemBytes(last)[..k - |front|], q);
        assert Stream(items)[..k] == front + ItemBytes(last)[..k - |front|];
      }
    }
  }

  // ---- the verdict ----

  datatype Status = DataReceived | DataSent | DataOverwritten | CrcFail | CommandNack | Fail | Timeout

  datatype Verdict = Waiting | Done(status: Status)

  /** What waitForACKResponse concludes after a poll. */
  function VerdictOf(cfg: Packet, ack: Packet, q: Request): Verdict {
    if cfg.classAndId == Valid && ack.classAndId == Valid && cfg.valid == Valid && Matches(cfg, q) then
      Done(DataReceived)
    else if cfg.classAndId == NotDefined && ack.classAndId == Valid then Done(DataSent)
    else if cfg.classAndId == Valid && ack.classAndId == Valid && Matches(cfg, q) then Done(DataOverwritten)
    else if ack.classAndId == Valid && cfg.classAndId == NotValid && cfg.valid == NotValid then Done(CrcFail)
    else if ack.classAndId == NotAcknowledged then Done(CommandNack)
    else if cfg.classAndId == Valid && ack.classAndId == NotValid && cfg.valid == Valid && Matches(cfg, q) then
      Done(DataReceived)
    else if cfg.classAndId == NotValid && ack.classAndId == NotValid then Done(Fail)
    else Waiting
  }

  /** What it concludes when the time is up. */
  function VerdictAtEnd(cfg: Packet, ack: Packet, q: Request): Status {
    if cfg.classAndId == Valid && ack.classAndId == NotDefined && cfg.valid == Valid && Matches(cfg, q) then
      DataReceived
    else Timeout
  }

  /** The flags are reset before the wait. */
  function Cleared(p: Packet): Packet {
    p.(valid := NotDefined, classAndId := NotDefined)
  }

  function WaitStarted(s: State): (t: State)
    ensures Shaped(s) ==> Shaped(t)
  {
    s.(cfg := Cleared(s.cfg), ack := Cleared(s.ack), buf := Cleared(s.buf))
  }

  // ---- a whole exchange ----

  /** The module's answer: data, unless it has none, and an acknowledgement, with anything foreign around them. */
  datatype Exchange = Exchange(before: seq<Item>, data: seq<Frame>, between: seq<Item>, ack: Frame, rest: seq<Item>)

  predicate Proper(x: Exchange, q: Request) {
    && (forall i :: 0 <= i < |x.before| ==> Foreign(x.before[i], q))
    && (forall i :: 0 <= i < |x.between| ==> Foreign(x.between[i], q))
    && (forall i :: 0 <= i < |x.rest| ==> Foreign(x.rest[i], q))
    && |x.data| <= 1 && (|x.data| == 1 ==> Requested(x.data[0], q))
    && Acknowledgement(x.ack, q)
  }

  function DataBytes(x: Exchange): seq<bv8> {
    if x.data == [] then [] else Bytes(x.data[0])
  }

  function UpToData(x: Exchange): seq<bv8> {
    Stream(x.before) + DataBytes(x)
  }

  function UpToAck(x: Exchange): seq<bv8> {
    UpToData(x) + Stream(x.between) + Bytes(x.ack)
  }

  function Wire(x: Exchange): seq<bv8> {
    UpToAck(x) + Stream(x.rest)
  }

  /** The checksum bytes of a frame are right. */
  predicate Intact(f: Frame) {
    Sum(f.checksumA, f.checksumB) == Fletcher(Body(f))
  }

  /** What the caller should be told. */
  function Expected(x: Exchange): Verdict {
    if Intact(x.ack) && x.ack.id == ACK_NACK then Done(CommandNack)
    else if x.data == [] then (if Intact(x.ack) then Done(DataSent) else Waiting)
    else if Intact(x.data[0]) then Done(DataReceived)
    else Done(if Intact(x.ack) then CrcFail else Fail)
  }

  /** What the caller should be told if the time is up after `n` bytes, before the acknowledgement is complete. */
  function ExpectedAtEnd(x: Exchange, n: nat): Status {
    if x.data != [] && n >= |UpToData(x)| && Intact(x.data[0]) then DataReceived else Timeout
  }

  /** The data, if there is any, is in packetCfg; the rest is as it was. */
  predicate DataIn(s: State, t: State, x: Exchange) {
    && t.ack == s.ack && t.fault == s.fault
    && (x.data == [] ==> t.cfg == s.cfg)
    && (x.data != [] ==> Received(t.cfg, x.data[0]))
  }

  lemma RunSplit(s: State, a: seq<bv8>, b: seq<bv8>, n: nat, q: Request)
    requires Shaped(s) && n <= |a + b|
    ensures n <= |a| ==> Run(s, (a + b)[..n], q) == Run(s, a[..n], q)
    ensures n >= |a| ==> Run(s, (a + b)[..n], q) == Run(Run(s, a, q), b[..n - |a|], q)
  {
    hide Run;
    if n <= |a| {
      assert (a + b)[..n] == a[..n];
    }
    if n >= |a| {
      assert (a + b)[..n] == a + b[..n - |a|];
      RunConcat(s, a, b[..n - |a|], q);
    }
  }

  /** Until the data is complete, packetCfg and packetAck show no match. */
  lemma BeforeData(s: State, x: Exchange, n: nat, q: Request)
    requires Idle(s) && Proper(x, q) && n <= |UpToData(x)|
    ensures
      var t := Run(s, UpToData(x)[..n], q);
      && (n < |UpToData(x)| ==> t.cfg.classAndId == s.cfg.classAndId && t.ack == s.ack && t.fault == s.fault)
      && (n == |UpToData(x)| ==> Idle(t) && DataIn(s, t, x))
  {
    hide Process, Run, Foreign, Bytes, Stream, Received, Requested, InBuf, InCfg;
    var front := Stream(x.before);
    RunSplit(s, front, DataBytes(x), n, q);
    ForeignTraffic(s, x.before, if n <= |front| then n else |front|, q);
    assert front[..|front|] == front;
    if n >= |front| && x.data != [] {
      ResponseFrame(Run(s, front, q), x.data[0], n - |front|, q);
    }
  }

  lemma AllOf(s: State, bytes: seq<bv8>, q: Request)
    requires Shaped(s)
    ensures Run(s, bytes[..|bytes|], q) == Run(s, bytes, q)
  {
    assert bytes[..|bytes|] == bytes;
  }

  /** From the data to the acknowledgement packetCfg stays, and packetAck shows no match before its end. */
  lemma BeforeAck(s: State, x: Exchange, n: nat, q: Request)
    requires Idle(s) && Proper(x, q) && n <= |Stream(x.between) + Bytes(x.ack)|
    ensures
      var t := Run(s, (Stream(x.between) + Bytes(x.ack))[..n], q);
      && t.cfg == s.cfg && t.fault == s.fault
      && (n < |Stream(x.between) + Bytes(x.ack)| ==> t.ack.classAndId == s.ack.classAndId)
      && (n == |Stream(x.between) + Bytes(x.ack)| ==> Answered(s, t, x.ack))
  {
    hide Process, Run, Foreign, Bytes, Stream, Received, Requested, InBuf, InAck;
    var front := Stream(x.between);
    RunSplit(s, front, Bytes(x.ack), n, q);
    ForeignTraffic(s, x.between, if n <= |front| then n else |front|, q);
    AllOf(s, front, q);
    if n >= |front| {
      AckFrame(Run(s, front, q), x.ack, n - |front|, q);
    }
  }

  /** From the end of the data on. */
  lemma AfterData(s: State, s1: State, x: Exchange, m: nat, q: Request)
    requires Idle(s1) && DataIn(s, s1, x) && Proper(x, q)
    requires s.cfg.classAndId == NotDefined && s.ack.classAndId == NotDefined
    requires m <= |Stream(x.between) + Bytes(x.ack) + Stream(x.rest)|
    ensures
      var t := Run(s1, (Stream(x.between) + Bytes(x.ack) + Stream(x.rest))[..m], q);
      && t.fault == s.fault && t.cfg == s1.cfg && (m == |Stream(x.between) + Bytes(x.ack) + Stream(x.rest)| ==> Idle(t))
      && (m < |Stream(x.between) + Bytes(x.ack)| ==> t.ack.classAndId == NotDefined)
      && (m >= |Stream(x.between) + Bytes(x.ack)| ==>
            t.ack.classAndId ==
              if !Intact(x.ack) then NotValid else if x.ack.id == ACK_ACK then Valid else NotAcknowledged)
  {
    hide Process, Run, Foreign, Bytes, Stream, Received, Fletcher, Body, Requested;
    var toAck := Stream(x.between) + Bytes(x.ack);
    RunSplit(s1, toAck, Stream(x.rest), m, q);
    BeforeAck(s1, x, if m <= |toAck| then m else |toAck|, q);
    AllOf(s1, toAck, q);
    if m >= |toAck| {
      ForeignTraffic(Run(s1, toAck, q), x.rest, m - |toAck|, q);
    }
  }

  /** The verdicts once the data, if any, is in packetCfg. */
  lemma VerdictsAfterData(cfg: Packet, ack: Packet, x: Exchange, q: Request)
    requires Proper(x, q) && (if x.data == [] then cfg.classAndId == NotDefined else Received(cfg, x.data[0]))
    ensures ack.classAndId == NotDefined ==>
      VerdictOf(cfg, ack, q) == Waiting && VerdictAtEnd(cfg, ack, q) == ExpectedAtEnd(x, |UpToData(x)|)
    ensures
      var answer := if !Intact(x.ack) then NotValid else if x.ack.id == ACK_ACK then Valid else NotAcknowledged;
      ack.classAndId == answer ==> VerdictOf(cfg, ack, q) == Expected(x)
  {
    hide Bytes, Fletcher, Body, Foreign, Stream, UpToData;
  }

  /**
   Fed an exchange, broken off after any number of bytes, the receiver leaves no verdict until the
   acknowledgement is complete and the expected one from then on, with the data in packetCfg.  At the
   end it is idle again.
   */
  lemma ExchangeIsJudged(s0: State, x: Exchange, n: nat, q: Request)
    requires Idle(s0) && Proper(x, q) && n <= |Wire(x)|
    ensures
      var t := Run(WaitStarted(s0), Wire(x)[..n], q);
      && t.fault == s0.fault && (n == |Wire(x)| ==> Idle(t))
      && VerdictOf(t.cfg, t.ack, q) == (if n < |UpToAck(x)| then Waiting else Expected(x))
      && (n >= |UpToAck(x)| && x.data != [] ==> Received(t.cfg, x.data[0]))
      && (n < |UpToAck(x)| ==> VerdictAtEnd(t.cfg, t.ack, q) == ExpectedAtEnd(x, n))
  {
    hide Process, Run, Proper, Bytes, Stream, Received, Fletcher, Body, UpToData, Expected;
    var s := WaitStarted(s0);
    assert Idle(s);
    var toData, tail := UpToData(x), Stream(x.between) + Bytes(x.ack) + Stream(x.rest);
    assert Wire(x) == toData + tail;
    RunSplit(s, toData, tail, n, q);
    BeforeData(s, x, if n <= |toData| then n else |toData|, q);
    AllOf(s, toData, q);
    if n >= |toData| {
      AfterData(s, Run(s, toData, q), x, n - |toData|, q);
      var t := Run(s, Wire(x)[..n], q);
      VerdictsAfterData(t.cfg, t.ack, x, q);
    }
  }

  // ---- the wait ----

  /** The bytes of all polls. */
  function Concat(polls: seq<seq<bv8>>): seq<bv8> {
    if polls == [] then [] else polls[0] + Concat(polls[1..])
  }

  /**
   waitForACKResponse once the flags are reset: process a poll's bytes, look at the flags, and so on
   until the time is up.
   */
  function Waited(s: State, polls: seq<seq<bv8>>, q: Request): (Status, State)
    requires Shaped(s)
    decreases |polls|
  {
    if polls == [] then (VerdictAtEnd(s.cfg, s.ack, q), s)
    else
      var t := Run(s, polls[0], q);
      match VerdictOf(t.cfg, t.ack, q)
      case Done(status) => (status, t)
      case Waiting => Waited(t, polls[1..], q)
  }

  /** The wait stops after some of what comes in, at the first verdict if there is one. */
  lemma {:induction false} WaitedIsRun(s: State, polls: seq<seq<bv8>>, q: Request) returns (k: nat)
    requires Shaped(s)
    ensures k <= |Concat(polls)|
    ensures
      var (status, t) := Waited(s, polls, q);
      && t == Run(s, Concat(polls)[..k], q)
      && match VerdictOf(t.cfg, t.ack, q)
         case Done(v) => status == v || (polls == [] && status == VerdictAtEnd(t.cfg, t.ack, q))
         case Waiting => k == |Concat(polls)| && status == VerdictAtEnd(t.cfg, t.ack, q)
    decreases |polls|
  {
    hide Process, VerdictOf, VerdictAtEnd;
    if polls == [] {
      k := 0;
    } else {
      var t := Run(s, polls[0], q);
      if VerdictOf(t.cfg, t.ack, q).Done? {
        k := |polls[0]|;
        assert Concat(polls)[..k] == polls[0];
      } else {
        var j := WaitedIsRun(t, polls[1..], q);
        k := |polls[0]| + j;
        RunConcat(s, polls[0], Concat(polls[1..])[..j], q);
        assert Concat(polls)[..k] == polls[0] + Concat(polls[1..])[..j];
      }
    }
  }

  lemma {:induction false} WaitedFrom(s0: State, x: Exchange, n: nat, polls: seq<seq<bv8>>, q: Request)
    requires Idle(s0) && Proper(x, q) && n < |UpToAck(x)| && Expected(x).Done?
    requires n + |Concat(polls)| <= |Wire(x)| && Concat(polls) == Wire(x)[n..n + |Concat(polls)|]
    ensures
      var (status, t) := Waited(Run(WaitStarted(s0), Wire(x)[..n], q), polls, q);
      var m := n + |Concat(polls)|;
      && t.fault == s0.fault
      && status == (if m >= |UpToAck(x)| then Expected(x).status else ExpectedAtEnd(x, m))
      && (m >= |UpToAck(x)| && x.data != [] ==> Received(t.cfg, x.data[0]))
    decreases |polls|
  {
    hide Process, Run, Proper, Received, Wire, UpToAck, UpToData, Expected, VerdictOf, VerdictAtEnd;
    ExchangeIsJudged(s0, x, n, q);
    var s := WaitStarted(s0);
    if polls != [] {
      var k := n + |polls[0]|;
      assert polls[0] == Concat(polls)[..|polls[0]|] && Concat(polls[1..]) == Concat(polls)[|polls[0]|..];
      assert Wire(x)[..k] == Wire(x)[..n] + polls[0];
      RunConcat(s, Wire(x)[..n], polls[0], q);
      ExchangeIsJudged(s0, x, k, q);
      if k < |UpToAck(x)| {
        assert Concat(polls[1..]) == Wire(x)[k..k + |Concat(polls[1..])|];
        WaitedFrom(s0, x, k, polls[1..], q);
      }
    }
  }

  /**
   However an exchange is split into polls, the wait ends with the expected status once the
   acknowledgement is in, and the data is then in packetCfg.
   */
  lemma ExchangeIsAnswered(s0: State, x: Exchange, polls: seq<seq<bv8>>, q: Request)
    requires Idle(s0) && Proper(x, q) && Expected(x).Done?
    requires |Concat(polls)| <= |Wire(x)| && Concat(polls) == Wire(x)[..|Concat(polls)|]
    ensures
      var (status, t) := Waited(WaitStarted(s0), polls, q);
      var m := |Concat(polls)|;
      && t.fault == s0.fault
      && status == (if m >= |UpToAck(x)| then Expected(x).status else ExpectedAtEnd(x, m))
      && (m >= |UpToAck(x)| && x.data != [] ==> Received(t.cfg, x.data[0]))
  {
    hide Process, Proper, Received, Expected, VerdictOf, VerdictAtEnd;
    assert Wire(x)[..0] == [];
    assert |UpToAck(x)| > 0 && Wire(x)[0..|Concat(polls)|] == Wire(x)[..|Concat(polls)|];
    WaitedFrom(s0, x, 0, polls, q);
  }

  // ---- what the checksum detects ----

  lemma AddedApart(x: bv8, y: bv8, c: bv8)
    requires x != y
    ensures Plus(x, c) != Plus(y, c) && Plus(c, x) != Plus(c, y)
  {
    assert (x + c) - c == x && (y + c) - c == y;
    assert c + x == x + c && c + y == y + c;
  }

  lemma AddedInAnyOrder(a: bv8, x: bv8, y: bv8)
    ensures Plus(Plus(a, x), y) == Plus(Plus(a, y), x)
  {
    calc {
      Plus(Plus(a, x), y);
    ==
      Plus(a, x) + y;
    ==
      (a + x) + y;
    ==
      (a + y) + x;
    ==
      Plus(a, y) + x;
    ==
      Plus(Plus(a, y), x);
    }
  }

  lemma RollKeepsApart(s: Sum, t: Sum, b: bv8)
    ensures s.a != t.a ==> Roll(s, b).a != Roll(t, b).a
    ensures s.a == t.a ==> Roll(s, b).a == Roll(t, b).a
    ensures s.a == t.a && s.b != t.b ==> Roll(s, b).b != Roll(t, b).b
  {
    hide Plus;
    if s.a != t.a {
      AddedApart(s.a, t.a, b);
    } else if s.b != t.b {
      AddedApart(s.b, t.b, Plus(s.a, b));
    }
  }

  lemma RollSwapped(s: Sum, x: bv8, y: bv8)
    requires x != y
    ensures Roll(Roll(s, x), y).a == Roll(Roll(s, y), x).a
    ensures Roll(Roll(s, x), y).b != Roll(Roll(s, y), x).b
  {
    hide Plus;
    AddedInAnyOrder(s.a, x, y);
    AddedApart(x, y, s.a);
    AddedApart(Plus(s.a, x), Plus(s.a, y), s.b);
    AddedApart(Plus(s.b, Plus(s.a, x)), Plus(s.b, Plus(s.a, y)), Plus(Plus(s.a, x), y));
  }

  lemma {:induction false} FirstSumsStayApart(a: seq<bv8>, b: seq<bv8>, rest: seq<bv8>)
    requires Fletcher(a).a != Fletcher(b).a
    ensures Fletcher(a + rest).a != Fletcher(b + rest).a
    decreases |rest|
  {
    hide Roll;
    if rest == [] {
      assert a + rest == a && b + rest == b;
    } else {
      var init := rest[..|rest| - 1];
      RollKeepsApart(Fletcher(a + init), Fletcher(b + init), rest[|rest| - 1]);
      FirstSumsStayApart(a, b, init);
      assert (a + rest)[..|a + rest| - 1] == a + init;
      assert (b + rest)[..|b + rest| - 1] == b + init;
    }
  }

  lemma {:induction false} SecondSumsStayApart(a: seq<bv8>, b: seq<bv8>, rest: seq<bv8>)
    requires Fletcher(a).a == Fletcher(b).a && Fletcher(a).b != Fletcher(b).b
    ensures Fletcher(a + rest).a == Fletcher(b + rest).a && Fletcher(a + rest).b != Fletcher(b + rest).b
    decreases |rest|
  {
    hide Roll;
    if rest == [] {
      assert a + rest == a && b + rest == b;
    } else {
      var init := rest[..|rest| - 1];
      RollKeepsApart(Fletcher(a + init), Fletcher(b + init), rest[|rest| - 1]);
      SecondSumsStayApart(a, b, init);
      assert (a + rest)[..|a + rest| - 1] == a + init;
      assert (b + rest)[..|b + rest| - 1] == b + init;
    }
  }

  lemma FletcherLast(s: seq<bv8>, b: bv8)
    ensures Fletcher(s + [b]) == Roll(Fletcher(s), b)
  {
    assert (s + [b])[..|s|] == s;
  }

  /** Changing one byte changes the checksum. */
  lemma ChangedByteDetected(front: seq<bv8>, x: bv8, y: bv8, rest: seq<bv8>)
    requires x != y
    ensures Fletcher(front + [x] + rest) != Fletcher(front + [y] + rest)
  {
    FletcherLast(front, x);
    FletcherLast(front, y);
    FirstSumsStayApart(front + [x], front + [y], rest);
  }

  /** Swapping two unequal neighbours changes the checksum. */
  lemma SwapDetected(front: seq<bv8>, x: bv8, y: bv8, rest: seq<bv8>)
    requires x != y
    ensures Fletcher(front + [x, y] + rest) != Fletcher(front + [y, x] + rest)
  {
    hide Fletcher, Roll;
    FletcherLast(front, x);
    FletcherLast(front, y);
    FletcherLast(front + [x], y);
    FletcherLast(front + [y], x);
    RollSwapped(Fletcher(front), x, y);
    assert front + [x] + [y] == front + [x, y] && front + [y] + [x] == front + [y, x];
    SecondSumsStayApart(front + [x, y], front + [y, x], rest);
  }

  /** A frame with one payload byte changed, or with two unequal neighbours swapped. */
  predicate Corrupted(f: Frame, g: Frame) {
    && |g.payload| == |f.payload| && g == f.(payload := g.payload)
    && (|| (exists i :: 0 <= i < |f.payload| && g.payload[i] != f.payload[i]
                        && g.payload == f.payload[i := g.payload[i]])
        || (exists i :: 0 <= i < |f.payload| - 1 && f.payload[i] != f.payload[i + 1]
                        && g.payload == f.payload[i := f.payload[i + 1]][i + 1 := f.payload[i]]))
  }

  lemma ChangeChangesChecksum(f: Frame, i: nat, y: bv8)
    requires i < |f.payload| && y != f.payload[i]
    ensures Fletcher(Body(f.(payload := f.payload[i := y]))) != Fletcher(Body(f))
  {
    hide Fletcher, Low, High;
    var front, x, rest := Body(f)[..4 + i], f.payload[i], f.payload[i + 1..];
    ChangedByteDetected(front, x, y, rest);
    assert Body(f) == front + [x] + rest;
    assert Body(f.(payload := f.payload[i := y])) == front + [y] + rest;
  }

  lemma SwapChangesChecksum(f: Frame, i: nat)
    requires i + 1 < |f.payload| && f.payload[i] != f.payload[i + 1]
    ensures Fletcher(Body(f.(payload := f.payload[i := f.payload[i + 1]][i + 1 := f.payload[i]]))) != Fletcher(Body(f))
  {
    hide Fletcher, Low, High;
    var front, x, y, rest := Body(f)[..4 + i], f.payload[i], f.payload[i + 1], f.payload[i + 2..];
    SwapDetected(front, x, y, rest);
    assert Body(f) == front + [x, y] + rest;
    assert Body(f.(payload := f.payload[i := y][i + 1 := x])) == front + [y, x] + rest;
  }

  lemma CorruptionChangesChecksum(f: Frame, g: Frame)
    requires Corrupted(f, g)
    ensures Fletcher(Body(g)) != Fletcher(Body(f))
  {
    hide Fletcher, Body;
    if i :| 0 <= i < |f.payload| && g.payload[i] != f.payload[i] && g.payload == f.payload[i := g.payload[i]] {
      ChangeChangesChecksum(f, i, g.payload[i]);
    } else {
      var i :| 0 <= i < |f.payload| - 1 && f.payload[i] != f.payload[i + 1]
               && g.payload == f.payload[i := f.payload[i + 1]][i + 1 := f.payload[i]];
      SwapChangesChecksum(f, i);
    }
  }

  /** A response corrupted on the way is never marked valid. */
  lemma CorruptedResponseIsRejected(s: State, f: Frame, g: Frame, q: Request)
    requires Idle(s) && Requested(f, q) && Intact(f) && Corrupted(f, g)
    ensures Run(s, Bytes(g), q).cfg.valid == NotValid && Run(s, Bytes(g), q).cfg.classAndId == NotValid
  {
    hide Process, Run, Bytes, Fletcher, Body, InBuf, InCfg;
    CorruptionChangesChecksum(f, g);
    ResponseFrame(s, g, |Bytes(g)|, q);
    AllOf(s, Bytes(g), q);
  }

  /** And one received as it was sent always is. */
  lemma IntactResponseIsAccepted(s: State, f: Frame, q: Request)
    requires Idle(s) && Requested(f, q) && Intact(f)
    ensures
      var p := Run(s, Bytes(f), q).cfg;
      p.valid == Valid && p.classAndId == Valid && p.len == f.len && p.payload[..|f.payload|] == f.payload
  {
    hide Process, Run, Bytes, Fletcher, Body, InBuf, InCfg;
    ResponseFrame(s, f, |Bytes(f)|, q);
    AllOf(s, Bytes(f), q);
  }
}
