/**
 What the receiver (app/src/gps_ublox/gps_ublox.cpp) keeps on any bytes whatever: when a byte is
 stored outside an array, and which flags and verdicts can be seen.
 */
module UbxNoise {
  import opened UbxReceiver
  import opened UbxTraffic
  import opened UbxWait

  // ---- stores outside an array ----

  /** Inside a UBX frame, the counter of the packet in use follows the frame counter. */
  predicate Tracks(s: State) {
    s.sentence == Ubx ==>
      && s.frame >= 1 && (s.frame <= 3 ==> s.active == PacketBuf && !s.ignore)
      && (s.active == PacketBuf ==> BufTracks(s))
      && (s.active == PacketAck ==> 8 <= s.frame <= 9 && s.ack.counter == s.frame - 2 && s.ack.len == 2)
  }

  predicate BufTracks(s: State) {
    && s.buf.counter == (if s.frame <= 2 then s.frame else s.frame - 2)
    && (s.frame >= 3 ==> s.buf.startingSpot == 0)
    && (s.frame >= 4 ==> (s.ignore <==> s.buf.cls != CLASS_ACK))
    && (s.frame >= 6 ==> s.frame <= Count(s.buf.len) + 7) && s.frame < MAX_PAYLOAD_SIZE + 2
  }

  /** A payload byte of an acknowledgement beyond the two that packetBuf has room for. */
  predicate Overrun(s: State) {
    && s.sentence == Ubx && s.active == PacketBuf && s.buf.cls == CLASS_ACK
    && 8 <= s.frame < Count(s.buf.len) + 6
  }

  lemma TracksStarted(s: State, b: bv8)
    requires Steady(s) && Tracks(s)
    ensures
      var t := Started(s, b);
      && Steady(t) && t.fault == s.fault && (Overrun(t) <==> Overrun(s))
      && (t.sentence == Ubx ==> TracksOrStarts(t))
  {
  }

  predicate TracksOrStarts(s: State) {
    if s.frame == 0 then s.active == PacketBuf && !s.ignore && s.buf.counter == 0 else Tracks(s)
  }

  /** Where the byte is filed once `process` has noted it. */
  predicate Ready(t: State, frame: nat) {
    && t.frame == frame
    && match t.active
       case PacketCfg => frame >= 3
       case PacketAck => 7 <= frame <= 9 && t.ack.counter == frame - 2 && t.ack.len == 2
       case PacketBuf => BufReady(t.buf, t.ignore, frame)
  }

  predicate BufReady(p: Packet, ignore: bool, frame: nat) {
    && p.counter == (if frame < 2 then frame else frame - 2)
    && (frame >= 2 ==> p.startingSpot == 0) && (frame <= 2 ==> !ignore)
    && (frame >= 3 ==> (ignore <==> p.cls != CLASS_ACK))
    && (frame >= 6 ==> frame <= Count(p.len) + 7) && frame < MAX_PAYLOAD_SIZE + 2
  }

  lemma HeadIsReady(s: State, b: bv8, q: Request)
    requires Steady(s) && s.sentence == Ubx && TracksOrStarts(s) && s.frame <= 2
    ensures
      var t := Noted(s, b, q);
      Ready(t, s.frame) && t.fault == s.fault
  {
    hide Wide, Joined, Count, SecondByte, FirstByte, IdSeen;
  }

  lemma IdIsReady(s: State, b: bv8, q: Request)
    requires Steady(s) && s.sentence == Ubx && Tracks(s) && s.frame == 3
    ensures
      var t := Noted(s, b, q);
      Ready(t, s.frame) && t.fault == s.fault
  {
    hide Wide, Joined, Count, SecondByte, FirstByte, ClassSeen;
  }

  /** The length bytes and the first payload byte leave the counters alone. */
  lemma LengthIsReady(s: State, b: bv8, q: Request)
    requires Steady(s) && s.sentence == Ubx && Tracks(s) && 4 <= s.frame <= 6
    ensures
      var t := Noted(s, b, q);
      Ready(t, s.frame) && t.fault == s.fault
  {
    hide Count, Noted;
    LengthCases(s, b, q);
  }

  lemma LengthCases(s: State, b: bv8, q: Request)
    requires Shaped(s) && 4 <= s.frame <= 6
    ensures
      var t := Noted(s, b, q);
      t == s.(buf := s.buf.(len := t.buf.len, checksumA := t.buf.checksumA, payload := t.buf.payload))
  {
    hide Wide, Joined, IdSeen, SecondByte, ClassSeen, FirstByte;
    FirstByteCases(s, b);
  }

  lemma FirstByteCases(s: State, b: bv8)
    requires Shaped(s)
    ensures
      var t := FirstByte(s, b);
      t == s.(buf := s.buf.(checksumA := t.buf.checksumA, payload := t.buf.payload))
  {
  }

  lemma AckIsReady(s: State, b: bv8, q: Request)
    requires Steady(s) && s.sentence == Ubx && Tracks(s) && s.frame == 7
    ensures
      var t := Noted(s, b, q);
      Ready(t, s.frame) && t.fault == s.fault
  {
    hide Wide, Joined, Count, IdSeen, FirstByte, SecondByte, Acknowledges;
    SecondByteCases(s, b, q);
  }

  lemma SecondByteCases(s: State, b: bv8, q: Request)
    requires Shaped(s)
    ensures
      var t := SecondByte(s, b, q);
      && t.fault == s.fault && t.frame == s.frame && t.ignore == s.ignore
      && t.buf.counter == s.buf.counter && t.buf.cls == s.buf.cls && t.buf.len == s.buf.len
      && t.buf.startingSpot == s.buf.startingSpot
      && (|| (t.active == s.active && t.ack == s.ack)
          || (s.active == PacketBuf && t.active == PacketAck && t.ack.len == 2 && t.ack.counter == s.buf.counter))
  {
    hide Count;
  }

  lemma RestIsReady(s: State, b: bv8, q: Request)
    requires Steady(s) && s.sentence == Ubx && Tracks(s) && s.frame >= 8
    ensures Noted(s, b, q) == s && Ready(s, s.frame)
  {
  }

  lemma NotedIsReady(s: State, b: bv8, q: Request)
    requires Steady(s) && s.sentence == Ubx && TracksOrStarts(s)
    ensures
      var t := Noted(s, b, q);
      && Ready(t, s.frame) && Steady(t) && t.fault == s.fault
      && (s.frame >= 8 ==> t == s)
  {
    hide Noted, Ready, Tracks;
    SteadyNoted(s, b, q);
    if s.frame <= 2 {
      HeadIsReady(s, b, q);
    } else if s.frame == 3 {
      IdIsReady(s, b, q);
    } else if s.frame <= 6 {
      LengthIsReady(s, b, q);
    } else if s.frame == 7 {
      AckIsReady(s, b, q);
    } else {
      RestIsReady(s, b, q);
    }
  }

  lemma HeadInBuf(p: Packet, ignore: bool, frame: nat, b: bv8, sum: Sum, q: Request)
    requires BufReady(p, ignore, frame) && |p.payload| == SHORT_PAYLOAD && frame < 6
    ensures
      var f := Filed(p, b, ignore, sum, q);
      && !f.fault && !f.done && f.packet.counter == p.counter + 1
      && (frame >= 3 ==> f.packet.cls == p.cls)
  {
    hide Wide, Joined, Roll, Judged;
  }

  lemma PayloadInBuf(p: Packet, ignore: bool, frame: nat, b: bv8, sum: Sum, q: Request)
    requires BufReady(p, ignore, frame) && |p.payload| == SHORT_PAYLOAD && frame >= 6
    ensures
      var f := Filed(p, b, ignore, sum, q);
      && (f.fault <==> p.cls == CLASS_ACK && 8 <= frame < Count(p.len) + 6)
      && f.packet.counter == p.counter + 1 && f.packet.cls == p.cls && f.packet.len == p.len
      && (!f.done ==> frame <= Count(p.len) + 6 && frame < MAX_PAYLOAD_SIZE + 1)
  {
    hide Wide, Joined, Count, Roll, Judged;
  }

  lemma FiledInBuf(p: Packet, ignore: bool, frame: nat, b: bv8, sum: Sum, q: Request)
    requires BufReady(p, ignore, frame) && |p.payload| == SHORT_PAYLOAD
    ensures
      var f := Filed(p, b, ignore, sum, q);
      && (f.fault <==> p.cls == CLASS_ACK && 8 <= frame < Count(p.len) + 6)
      && f.packet.counter == p.counter + 1
      && (frame >= 3 ==> f.packet.cls == p.cls)
      && (!f.done && frame >= 6 ==> f.packet.len == p.len && frame <= Count(p.len) + 6)
      && (!f.done ==> frame < MAX_PAYLOAD_SIZE + 1)
  {
    hide Filed;
    if frame < 6 {
      HeadInBuf(p, ignore, frame, b, sum, q);
    } else {
      PayloadInBuf(p, ignore, frame, b, sum, q);
    }
  }

  lemma FiledInAck(p: Packet, ignore: bool, frame: nat, b: bv8, sum: Sum, q: Request)
    requires 7 <= frame <= 9 && p.counter == frame - 2 && p.len == 2 && p.startingSpot == 0
    requires |p.payload| == SHORT_PAYLOAD
    ensures
      var f := Filed(p, b, ignore, sum, q);
      && !f.fault && (f.done <==> frame == 9) && (!f.done ==> f.packet.counter == frame - 1 && f.packet.len == 2)
  {
    hide Roll, Judged;
  }

  lemma FiledInCfg(p: Packet, ignore: bool, b: bv8, sum: Sum, q: Request)
    requires |p.payload| == MAX_PAYLOAD_SIZE
    ensures !Filed(p, b, ignore, sum, q).fault
  {
    hide Wide, Joined, Roll, Judged;
  }

  /** Filing the byte faults exactly on an overrun, and keeps the counters in step. */
  lemma FiledTracks(t: State, b: bv8, q: Request)
    requires Steady(t) && Ready(t, t.frame)
    ensures
      var u := Diverted(t, b, q).(frame := t.frame + 1);
      && (u.sentence == Ubx ==> Tracks(u))
      && (u.fault <==>
            t.fault || (t.active == PacketBuf && t.buf.cls == CLASS_ACK && 8 <= t.frame < Count(t.buf.len) + 6))
  {
    hide Filed, Count;
    match t.active
    case PacketBuf => FiledInBuf(t.buf, t.ignore, t.frame, b, t.sum, q);
    case PacketAck => FiledInAck(t.ack, t.ignore, t.frame, b, t.sum, q);
    case PacketCfg => FiledInCfg(t.cfg, t.ignore, b, t.sum, q);
  }

  /** A byte is stored outside an array exactly if it is one too many for packetBuf in an acknowledgement. */
  lemma FaultIff(s: State, b: bv8, q: Request)
    requires Steady(s) && Tracks(s)
    ensures Steady(Process(s, b, q)) && Tracks(Process(s, b, q))
    ensures Process(s, b, q).fault <==> s.fault || Overrun(s)
  {
    hide Started, Noted, Diverted, RtcmByte, Ready;
    SteadyStep(s, b, q);
    TracksStarted(s, b);
    var t := Started(s, b);
    if t.sentence == Ubx {
      NotedIsReady(t, b, q);
      FiledTracks(Noted(t, b, q), b, q);
    } else {
      RtcmKeepsFault(t, b);
    }
  }

  lemma RtcmKeepsFault(t: State, b: bv8)
    ensures RtcmByte(t, b).fault == t.fault && RtcmByte(t, b).sentence in {t.sentence, NoSentence}
  {
  }

  /** Over any bytes, a fault is set exactly if one of them overran packetBuf. */
  lemma {:induction false} FaultOfRun(s: State, bytes: seq<bv8>, q: Request)
    requires Idle(s)
    ensures Steady(Run(s, bytes, q)) && Tracks(Run(s, bytes, q))
    ensures Run(s, bytes, q).fault <==> s.fault || exists k :: 0 <= k < |bytes| && Overrun(Run(s, bytes[..k], q))
  {
    hide Process, Overrun;
    if bytes != [] {
      var n := |bytes| - 1;
      var init := bytes[..n];
      FaultOfRun(s, init, q);
      FaultIff(Run(s, init, q), bytes[n], q);
      assert forall k :: 0 <= k <= n ==> init[..k] == bytes[..k];
    }
  }

  // ---- the flags and the verdict ----

  /** packetCfg is written only by packets of the requested class and ID, and its two flags are set together. */
  predicate Own(s: State, q: Request) {
    && (s.sentence == Ubx && s.active == PacketCfg ==>
          s.frame >= 4 && s.cfg.counter == s.frame - 2 && Matches(s.cfg, q))
    && s.cfg.valid == s.cfg.classAndId && s.cfg.classAndId != NotAcknowledged
    && (s.cfg.classAndId == Valid ==> Matches(s.cfg, q))
  }

  /** The same in the midst of a byte. */
  predicate OwnNoted(t: State, q: Request) {
    && (t.active == PacketCfg ==> t.frame >= 3 && t.cfg.counter == t.frame - 2 && Matches(t.cfg, q))
    && t.cfg.valid == t.cfg.classAndId && t.cfg.classAndId != NotAcknowledged
    && (t.cfg.classAndId == Valid ==> Matches(t.cfg, q))
  }

  lemma OwnIdSeen(s: State, b: bv8, q: Request)
    requires Steady(s) && s.sentence == Ubx && Tracks(s) && Own(s, q) && s.frame == 3
    ensures OwnNoted(Noted(s, b, q), q)
  {
    hide Wide, Joined, SecondByte, FirstByte, ClassSeen;
  }

  lemma IdNoted(s: State, b: bv8, q: Request)
    requires Steady(s) && s.frame == 3 && s.active == PacketBuf
    ensures
      var t := Noted(s, b, q);
      t.buf.id == b && (t.active == PacketCfg ==> Matches(t.buf, q))
  {
    hide Wide, Joined, SecondByte, FirstByte, ClassSeen;
  }

  lemma OwnStarted(s: State, b: bv8, q: Request)
    requires Own(s, q)
    ensures Own(Started(s, b), q)
  {
  }

  lemma OwnRtcm(s: State, b: bv8, q: Request)
    requires Own(s, q)
    ensures Own(RtcmByte(s, b), q)
  {
  }

  lemma CfgNoted(s: State, b: bv8, q: Request)
    requires Shaped(s) && s.frame != 3
    ensures
      var t := Noted(s, b, q);
      t.cfg == s.cfg && (t.active == PacketCfg <==> s.active == PacketCfg)
  {
    hide Wide, Joined, IdSeen, FirstByte, SecondByte;
    FirstByteCases(s, b);
    SecondByteAndCfg(s, b, q);
  }

  lemma SecondByteAndCfg(s: State, b: bv8, q: Request)
    requires Shaped(s)
    ensures
      var t := SecondByte(s, b, q);
      t.cfg == s.cfg && (t.active == PacketCfg <==> s.active == PacketCfg)
  {
  }

  lemma JudgedTogether(p: Packet, sum: Sum, q: Request)
    requires Matches(p, q) && |p.payload| >= SHORT_PAYLOAD
    ensures Judged(p, sum, q).valid == Judged(p, sum, q).classAndId != NotAcknowledged
  {
  }

  lemma FiledInOwn(p: Packet, ignore: bool, b: bv8, sum: Sum, q: Request)
    requires p.counter >= 1 && Matches(p, q) && (p.counter == 1 ==> b == q.id) && |p.payload| >= SHORT_PAYLOAD
    requires p.valid == p.classAndId != NotAcknowledged
    ensures
      var f := Filed(p, b, ignore, sum, q);
      && Matches(f.packet, q) && f.packet.counter == p.counter + 1
      && f.packet.valid == f.packet.classAndId != NotAcknowledged
  {
    hide Wide, Joined, Count, Roll, Judged;
    JudgedTogether(p.(counter := p.counter + 1, checksumB := b), sum, q);
  }

  lemma OwnDiverted(t: State, b: bv8, q: Request)
    requires Shaped(t) && OwnNoted(t, q) && (t.frame == 3 ==> b == t.buf.id)
    requires t.active == PacketCfg && t.frame == 3 ==> Matches(t.buf, q)
    ensures Own(Diverted(t, b, q).(frame := t.frame + 1), q)
  {
    hide Filed;
    if t.active == PacketCfg {
      FiledInOwn(t.cfg, t.ignore, b, t.sum, q);
    }
  }

  lemma OwnStep(s: State, b: bv8, q: Request)
    requires Steady(s) && Tracks(s) && Own(s, q)
    ensures Own(Process(s, b, q), q)
  {
    hide Started, Noted, Diverted, RtcmByte;
    TracksStarted(s, b);
    OwnStarted(s, b, q);
    var t := Started(s, b);
    if t.sentence == Ubx {
      if t.frame == 3 {
        OwnIdSeen(t, b, q);
        IdNoted(t, b, q);
      } else {
        CfgNoted(t, b, q);
      }
      OwnDiverted(Noted(t, b, q), b, q);
    } else {
      OwnRtcm(t, b, q);
    }
  }

  lemma {:induction false} OwnRun(s: State, bytes: seq<bv8>, q: Request)
    requires Idle(s) && Own(s, q)
    ensures Own(Run(s, bytes, q), q)
  {
    hide Process;
    if bytes != [] {
      var init := bytes[..|bytes| - 1];
      OwnRun(s, init, q);
      FaultOfRun(s, init, q);
      OwnStep(Run(s, init, q), bytes[|bytes| - 1], q);
    }
  }

  /**
   Whatever has come in since the flags were reset, the two match flags alone decide the verdict: data
   is never reported as overwritten, and data reported as received has the requested class and ID and
   a right checksum.
   */
  lemma VerdictOfFlags(s: State, bytes: seq<bv8>, q: Request)
    requires Idle(s)
    ensures
      var t := Run(WaitStarted(s), bytes, q);
      var data, answer, v := t.cfg.classAndId, t.ack.classAndId, VerdictOf(t.cfg, t.ack, q);
      && v != Done(DataOverwritten) && v != Done(Timeout)
      && (v == Done(DataReceived) <==> data == Valid && (answer == Valid || answer == NotValid))
      && (v == Done(DataReceived) ==> t.cfg.valid == Valid && Matches(t.cfg, q))
      && (v == Done(DataSent) <==> data == NotDefined && answer == Valid)
      && (v == Done(CrcFail) <==> data == NotValid && answer == Valid)
      && (v == Done(Fail) <==> data == NotValid && answer == NotValid)
      && (v == Done(CommandNack) <==> answer == NotAcknowledged)
      && (v == Waiting <==> answer == NotDefined || (data == NotDefined && answer == NotValid))
  {
    hide Run;
    OwnRun(WaitStarted(s), bytes, q);
  }

  /** However the bytes are split into polls, the wait never ends with data overwritten. */
  lemma NeverOverwritten(s: State, polls: seq<seq<bv8>>, q: Request)
    requires Idle(s)
    ensures
      var (status, t) := Waited(WaitStarted(s), polls, q);
      && status != DataOverwritten
      && (status == DataReceived ==> t.cfg.valid == Valid && Matches(t.cfg, q))
      && (status == CommandNack ==> t.ack.classAndId == NotAcknowledged)
      && (status == Timeout ==> t == Run(WaitStarted(s), Concat(polls), q))
  {
    hide Run, Waited, WaitStarted;
    var k := WaitedIsRun(WaitStarted(s), polls, q);
    VerdictOfFlags(s, Concat(polls)[..k], q);
    AllOf(WaitStarted(s), Concat(polls), q);
  }
}
