/**
 The u-blox driver's methods as they run (app/src/gps_ublox/gps_ublox.cpp), on packets whose payload
 arrays are filled in place, proved to do to them what the receiver's functions say.
 */
module UbxDriver {
  import opened UbxReceiver
  import opened UbxTraffic
  import opened UbxWait
  import opened UbxNoise

  /** The frame a packet is sent as. */
  function FrameOf(p: Packet): Frame
    requires Count(p.len) <= |p.payload|
  {
    Frame(p.cls, p.id, p.len, p.payload[..Count(p.len)], p.checksumA, p.checksumB)
  }

  lemma BodySoFar(f: Frame, i: nat)
    requires i < |f.payload|
    ensures Fletcher(Body(f)[..4 + i + 1]) == Roll(Fletcher(Body(f)[..4 + i]), f.payload[i])
  {
    hide Roll, Low, High;
    assert Body(f)[..4 + i + 1] == Body(f)[..4 + i] + [f.payload[i]];
    FletcherLast(Body(f)[..4 + i], f.payload[i]);
  }

  lemma HeadSum(f: Frame)
    ensures Fletcher(Body(f)[..4]) == Roll(Roll(Roll(Roll(Sum(0, 0), f.cls), f.id), Low(f.len)), High(f.len))
  {
    hide Roll, Low, High;
    assert Body(f)[..4] == [] + [f.cls] + [f.id] + [Low(f.len)] + [High(f.len)];
    FletcherLast([], f.cls);
    FletcherLast([] + [f.cls], f.id);
    FletcherLast([] + [f.cls] + [f.id], Low(f.len));
    FletcherLast([] + [f.cls] + [f.id] + [Low(f.len)], High(f.len));
  }

  /** The flags do not depend on the counter. */
  lemma JudgedApart(p: Packet, sum: Sum, q: Request, c: nat)
    requires |p.payload| >= SHORT_PAYLOAD
    ensures Judged(p.(counter := c), sum, q) == Judged(p, sum, q).(counter := c)
  {
  }

  class UbxPacket {
    var cls: bv8
    var id: bv8
    var len: bv16
    var counter: nat
    var startingSpot: nat
    const payload: array<bv8>
    var checksumA: bv8
    var checksumB: bv8
    var valid: Validity
    var classAndId: Validity

    constructor (size: nat)
      requires size >= SHORT_PAYLOAD
      ensures fresh(payload) && payload.Length == size
      ensures counter == 0 && startingSpot == 0 && valid == NotDefined && classAndId == NotDefined
    {
      cls, id, len, counter, startingSpot := 0, 0, 0, 0, 0;
      payload := new bv8[size];
      checksumA, checksumB, valid, classAndId := 0, 0, NotDefined, NotDefined;
    }

    ghost function Value(): Packet
      reads this, payload
    {
      Packet(cls, id, len, counter, startingSpot, payload[..], checksumA, checksumB, valid, classAndId)
    }

    /** Take over the head and the two payload bytes of another packet. */
    method CopyFrom(p: UbxPacket)
      requires payload.Length == p.payload.Length == SHORT_PAYLOAD && p != this && p.payload != payload
      modifies this`cls, this`id, this`len, this`counter, payload
      ensures Value() ==
        old(Value()).(cls := p.cls, id := p.id, len := p.len, counter := p.counter,
                      payload := [p.payload[0], p.payload[1]])
    {
      cls := p.cls;
      id := p.id;
      len := p.len;
      counter := p.counter;
      payload[0] := p.payload[0];
      payload[1] := p.payload[1];
      assert payload[..] == [p.payload[0], p.payload[1]];
    }

    /** The flags of a completely received packet. */
    method Judge(sum: Sum, q: Request)
      requires payload.Length >= SHORT_PAYLOAD
      modifies this`valid, this`classAndId
      ensures Value() == Judged(old(Value()), sum, q)
    {
      ghost var p := Value();
      var matched := classAndId;
      var right := checksumA == sum.a && checksumB == sum.b;
      if cls == q.cls && id == q.id {
        matched := if right then Valid else NotValid;
      } else if cls == CLASS_ACK && payload[0] == q.cls && payload[1] == q.id {
        if !right {
          matched := NotValid;
        } else if id == ACK_ACK {
          matched := Valid;
        } else if id == ACK_NACK {
          matched := NotAcknowledged;
        }
      }
      assert Judged(p, sum, q) == p.(valid := if right then Valid else NotValid, classAndId := matched);
      valid := if right then Valid else NotValid;
      classAndId := matched;
    }

    /** Load a byte into the payload; `fault` when the array ends before its place. */
    method Load(b: bv8, ignore: bool) returns (fault: bool)
      modifies payload
      ensures
        var p := old(Value());
        if 0 <= Spot(p) < MAX_PAYLOAD_SIZE && !ignore then
          fault == (Spot(p) >= |p.payload|) && payload[..] == if fault then p.payload else p.payload[Spot(p) := b]
        else
          !fault && payload[..] == p.payload
    {
      fault := false;
      var spot := startingSpot;
      if cls == CLASS_NAV && id == NAV_PVT {
        spot := 0;
      }
      if counter - 4 >= spot {
        if counter - 4 - spot < MAX_PAYLOAD_SIZE {
          if !ignore {
            if counter - 4 - spot < payload.Length {
              payload[counter - 4 - spot] := b;
            } else {
              fault := true;
            }
          }
        }
      }
    }

    /** processUBX; `done` when the sentence ends. */
    method File(b: bv8, ignore: bool, sum: Sum, q: Request) returns (newSum: Sum, done: bool, fault: bool)
      requires payload.Length >= SHORT_PAYLOAD
      modifies this, payload
      ensures Filing(Value(), newSum, done, fault) == Filed(old(Value()), b, ignore, sum, q)
    {
      hide Judged, Plus, Wide, Joined, Count, Spot;
      newSum, done, fault := sum, false, false;
      if counter < Count(len) + 4 {
        newSum := Roll(sum, b);
      }
      if counter == 0 {
        cls := b;
      } else if counter == 1 {
        id := b;
      } else if counter == 2 {
        len := Wide(b);
      } else if counter == 3 {
        len := Joined(len, b);
      } else if counter == Count(len) + 4 {
        checksumA := b;
      } else if counter == Count(len) + 5 {
        checksumB := b;
        done := true;
        JudgedApart(Value(), newSum, q, counter + 1);
        Judge(newSum, q);
      } else {
        fault := Load(b, ignore);
      }
      counter := counter + 1;
      if counter == MAX_PAYLOAD_SIZE {
        done := true;
      }
    }

    ghost function Check(): Sum
      reads this`checksumA, this`checksumB
    {
      Sum(checksumA, checksumB)
    }

    method AddToCheck(b: bv8)
      modifies this`checksumA, this`checksumB
      ensures Check() == Roll(old(Check()), b)
    {
      checksumA := Plus(checksumA, b);
      checksumB := Plus(checksumB, checksumA);
    }

    method CheckHead()
      modifies this`checksumA, this`checksumB
      ensures Check() == Roll(Roll(Roll(Roll(Sum(0, 0), cls), id), Low(len)), High(len))
    {
      hide Roll, Low, High;
      checksumA := 0;
      checksumB := 0;
      AddToCheck(cls);
      AddToCheck(id);
      AddToCheck(Low(len));
      AddToCheck(High(len));
    }

    /** calcChecksum: the checksum of the packet, computed over what will be sent. */
    method CalcChecksum()
      requires Count(len) <= payload.Length
      modifies this`checksumA, this`checksumB
      ensures Intact(FrameOf(Value())) && FrameOf(Value()).payload == payload[..Count(len)]
    {
      hide Fletcher, Roll, Body, Low, High, Count;
      ghost var f := FrameOf(Value());
      var n := Count(len);
      HeadSum(f);
      CheckHead();
      for i := 0 to n
        invariant Check() == Fletcher(Body(f)[..4 + i])
      {
        BodySoFar(f, i);
        AddToCheck(payload[i]);
      }
      IntactIfChecked(f, FrameOf(Value()), Check());
    }
  }

  class Receiver {
    var sentence: Sentence
    var frame: nat
    var active: Buffer
    var ignore: bool
    var rolling: Sum
    var rtcmCount: nat
    var rtcmLen: nat
    const packetBuf: UbxPacket
    const packetCfg: UbxPacket
    const packetAck: UbxPacket
    /** A store outside a payload array. */
    var fault: bool
    /** The bytes written to the serial port. */
    var output: seq<bv8>

    constructor ()
      ensures Apart() && Idle(Now()) && !fault && output == []
      ensures fresh(packetBuf) && fresh(packetCfg) && fresh(packetAck)
      ensures fresh(packetBuf.payload) && fresh(packetCfg.payload) && fresh(packetAck.payload)
    {
      sentence, frame, active, ignore := NoSentence, 0, PacketBuf, false;
      rolling, rtcmCount, rtcmLen, fault, output := Sum(0, 0), 0, 0, false, [];
      packetBuf := new UbxPacket(SHORT_PAYLOAD);
      packetCfg := new UbxPacket(MAX_PAYLOAD_SIZE);
      packetAck := new UbxPacket(SHORT_PAYLOAD);
    }

    /** The packets are three, each with its own array. */
    ghost predicate Apart() {
      && packetBuf != packetCfg && packetBuf != packetAck && packetCfg != packetAck
      && packetBuf.payload != packetCfg.payload && packetBuf.payload != packetAck.payload
      && packetCfg.payload != packetAck.payload
      && packetBuf.payload.Length == SHORT_PAYLOAD && packetAck.payload.Length == SHORT_PAYLOAD
      && packetCfg.payload.Length == MAX_PAYLOAD_SIZE
    }

    ghost function Now(): State
      reads this, packetBuf, packetCfg, packetAck, packetBuf.payload, packetCfg.payload, packetAck.payload
    {
      State(sentence, frame, active, ignore, rolling, rtcmCount, rtcmLen,
            packetBuf.Value(), packetCfg.Value(), packetAck.Value(), fault)
    }

    lemma ApartIsShaped()
      requires Apart()
      ensures Shaped(Now())
    {
    }

    /** The start of a sentence. */
    method StartSentence(b: bv8)
      requires Apart()
      modifies this`sentence, this`frame, this`ignore, this`active, this`rtcmCount, packetBuf`counter
      ensures Now() == Started(old(Now()), b)
    {
      if sentence == NoSentence || sentence == Nmea {
        if b == SYNC_1 {
          frame := 0;
          sentence := Ubx;
          packetBuf.counter := 0;
          ignore := false;
          active := PacketBuf;
        } else if b == NMEA_START {
          sentence := Nmea;
        } else if b == RTCM_START {
          rtcmCount := 0;
          sentence := Rtcm;
        }
      }
    }

    method SeeClass(b: bv8)
      requires Apart()
      modifies this`rolling, packetBuf`cls, packetBuf`counter, packetBuf`valid, packetBuf`startingSpot
      ensures Now() == ClassSeen(old(Now()), b)
    {
      packetBuf.cls := b;
      rolling := Sum(0, 0);
      packetBuf.counter := 0;
      packetBuf.valid := NotDefined;
      packetBuf.startingSpot := packetCfg.startingSpot;
    }

    method SeeId(b: bv8, q: Request)
      requires Apart()
      modifies this`active, this`ignore, packetBuf`id, packetCfg`cls, packetCfg`id, packetCfg`counter
      ensures Now() == IdSeen(old(Now()), b, q)
    {
      packetBuf.id := b;
      if packetBuf.cls != CLASS_ACK {
        if packetBuf.cls == q.cls && packetBuf.id == q.id {
          active := PacketCfg;
          packetCfg.cls := packetBuf.cls;
          packetCfg.id := packetBuf.id;
          packetCfg.counter := packetBuf.counter;
        } else {
          ignore := true;
        }
      }
      assert packetBuf.Value() == old(packetBuf.Value()).(id := b) && packetAck.Value() == old(packetAck.Value());
    }

    method SeeFirst(b: bv8)
      requires Apart()
      modifies packetBuf`checksumA, packetBuf.payload
      ensures Apart() && Shaped(old(Now())) && Now() == FirstByte(old(Now()), b)
    {
      if packetBuf.len == 0 {
        packetBuf.checksumA := b;
      } else {
        packetBuf.payload[0] := b;
      }
    }

    /** Copy a matching acknowledgement to packetAck. */
    method TakeAck()
      requires Apart()
      modifies this`active, packetAck`cls, packetAck`id, packetAck`len, packetAck`counter, packetAck.payload
      ensures Shaped(old(Now())) && Now() == AckTaken(old(Now()))
    {
      active := PacketAck;
      packetAck.CopyFrom(packetBuf);
    }

    /** Where the second byte after the length goes in packetBuf. */
    method PutSecond(b: bv8)
      requires Apart()
      modifies packetBuf`checksumA, packetBuf`checksumB, packetBuf.payload
      ensures Shaped(old(Now())) && Now() == SecondPut(old(Now()), b)
    {
      if packetBuf.len == 0 {
        packetBuf.checksumB := b;
      } else if packetBuf.len == 1 {
        packetBuf.checksumA := b;
      } else {
        packetBuf.payload[1] := b;
      }
    }

    method SeeSecond(b: bv8, q: Request)
      requires Apart()
      modifies this`active, packetBuf`checksumA, packetBuf`checksumB, packetBuf.payload
      modifies packetAck`cls, packetAck`id, packetAck`len, packetAck`counter, packetAck.payload
      ensures Shaped(old(Now())) && Now() == SecondByte(old(Now()), b, q)
    {
      hide AckTaken, SecondPut;
      PutSecond(b);
      if active == PacketBuf && packetBuf.cls == CLASS_ACK
        && packetBuf.payload[0] == q.cls && packetBuf.payload[1] == q.id {
        if packetBuf.len == 2 {
          TakeAck();
        }
      }
    }

    /** The part of `process` that looks at the frame counter. */
    method NoteByte(b: bv8, q: Request)
      requires Apart()
      modifies this`sentence, this`rolling, this`active, this`ignore
      modifies packetBuf, packetBuf.payload, packetCfg`cls, packetCfg`id, packetCfg`counter
      modifies packetAck`cls, packetAck`id, packetAck`len, packetAck`counter, packetAck.payload
      ensures Shaped(old(Now())) && Now() == Noted(old(Now()), b, q)
    {
      ApartIsShaped();
      hide ClassSeen, IdSeen, FirstByte, SecondByte, Wide, Joined;
      if frame == 0 && b != SYNC_1 {
        sentence := NoSentence;
      } else if frame == 1 && b != SYNC_2 {
        sentence := NoSentence;
      } else if frame == 2 {
        SeeClass(b);
      } else if frame == 3 {
        SeeId(b, q);
      } else if frame == 4 {
        packetBuf.len := Wide(b);
      } else if frame == 5 {
        packetBuf.len := Joined(packetBuf.len, b);
      } else if frame == 6 {
        SeeFirst(b);
      } else if frame == 7 {
        SeeSecond(b, q);
      }
    }

    /** processUBX on the packet in use. */
    method Divert(b: bv8, q: Request)
      requires Apart()
      modifies this`rolling, this`fault, this`sentence
      modifies packetBuf, packetCfg, packetAck, packetBuf.payload, packetCfg.payload, packetAck.payload
      ensures Shaped(old(Now())) && Now() == Diverted(old(Now()), b, q)
    {
      ApartIsShaped();
      hide Filed;
      var done, bad;
      match active {
        case PacketAck => rolling, done, bad := packetAck.File(b, ignore, rolling, q);
        case PacketCfg => rolling, done, bad := packetCfg.File(b, ignore, rolling, q);
        case PacketBuf => rolling, done, bad := packetBuf.File(b, ignore, rolling, q);
      }
      if done {
        sentence := NoSentence;
      }
      fault := fault || bad;
    }

    /** processRTCMframe. */
    method ProcessRtcm(b: bv8)
      modifies this`rtcmLen, this`rtcmCount, this`sentence
      ensures Now() == RtcmByte(old(Now()), b)
    {
      hide RtcmHigh, RtcmTotal;
      if rtcmCount == 1 {
        rtcmLen := RtcmHigh(b);
      } else if rtcmCount == 2 {
        rtcmLen := RtcmTotal(rtcmLen, b);
      }
      rtcmCount := rtcmCount + 1;
      if rtcmCount == rtcmLen {
        sentence := NoSentence;
      }
    }

    /** A byte of a UBX frame. */
    method ProcessFrame(b: bv8, q: Request)
      requires Apart()
      modifies this, packetBuf, packetCfg, packetAck, packetBuf.payload, packetCfg.payload, packetAck.payload
      ensures Shaped(old(Now()))
      ensures Now() == Diverted(Noted(old(Now()), b, q), b, q).(frame := old(frame) + 1) && output == old(output)
    {
      ApartIsShaped();
      hide Noted, Diverted;
      NoteByte(b, q);
      Divert(b, q);
      frame := frame + 1;
    }

    /** process: one byte, whatever it belongs to; it is stored outside an array exactly if it overruns packetBuf. */
    method Process(b: bv8, q: Request)
      requires Apart()
      modifies this, packetBuf, packetCfg, packetAck, packetBuf.payload, packetCfg.payload, packetAck.payload
      ensures Shaped(old(Now())) && Now() == UbxReceiver.Process(old(Now()), b, q) && output == old(output)
      ensures old(Steady(Now()) && Tracks(Now())) ==>
        Steady(Now()) && Tracks(Now()) && (fault <==> old(fault) || Overrun(old(Now())))
    {
      ghost var s0 := Now();
      StepByte(b, q);
      if Steady(s0) && Tracks(s0) {
        FaultIff(s0, b, q);
      }
    }

    method StepByte(b: bv8, q: Request)
      requires Apart()
      modifies this, packetBuf, packetCfg, packetAck, packetBuf.payload, packetCfg.payload, packetAck.payload
      ensures Shaped(old(Now())) && Now() == UbxReceiver.Process(old(Now()), b, q) && output == old(output)
    {
      ApartIsShaped();
      hide Started, Noted, Diverted, RtcmByte;
      StartSentence(b);
      ghost var s := Now();
      if sentence == Ubx {
        ProcessFrame(b, q);
      } else if sentence == Rtcm {
        ProcessRtcm(b);
      }
    }

    /** checkUbloxSerial: process the bytes that have come in since the last poll. */
    method Poll(bytes: seq<bv8>, q: Request)
      requires Apart()
      modifies this, packetBuf, packetCfg, packetAck, packetBuf.payload, packetCfg.payload, packetAck.payload
      ensures Shaped(old(Now())) && Now() == Run(old(Now()), bytes, q) && output == old(output)
    {
      hide UbxReceiver.Process;
      ApartIsShaped();
      ghost var s := Now();
      for i := 0 to |bytes|
        invariant Shaped(s) && Now() == Run(s, bytes[..i], q) && output == old(output)
      {
        RunStep(s, bytes, i, q);
        Process(bytes[i], q);
      }
      AllOf(s, bytes, q);
    }

    method ClearFlags()
      requires Apart()
      modifies packetBuf`valid, packetBuf`classAndId, packetCfg`valid, packetCfg`classAndId, packetAck`valid
      modifies packetAck`classAndId
      ensures Now() == WaitStarted(old(Now()))
    {
      packetCfg.valid := NotDefined;
      packetAck.valid := NotDefined;
      packetBuf.valid := NotDefined;
      packetCfg.classAndId := NotDefined;
      packetAck.classAndId := NotDefined;
      packetBuf.classAndId := NotDefined;
    }

    /** The flags after a poll. */
    method LookAtFlags(q: Request) returns (v: Verdict)
      ensures v == VerdictOf(packetCfg.Value(), packetAck.Value(), q)
    {
      var c, a := packetCfg.classAndId, packetAck.classAndId;
      if c == Valid && a == Valid && packetCfg.valid == Valid && packetCfg.cls == q.cls && packetCfg.id == q.id {
        return Done(DataReceived);
      } else if c == NotDefined && a == Valid {
        return Done(DataSent);
      } else if c == Valid && a == Valid && !(packetCfg.cls != q.cls || packetCfg.id != q.id) {
        return Done(DataOverwritten);
      } else if a == Valid && c == NotValid && packetCfg.valid == NotValid {
        return Done(CrcFail);
      } else if a == NotAcknowledged {
        return Done(CommandNack);
      } else if c == Valid && a == NotValid && packetCfg.valid == Valid
        && packetCfg.cls == q.cls && packetCfg.id == q.id {
        return Done(DataReceived);
      } else if c == NotValid && a == NotValid {
        return Done(Fail);
      }
      return Waiting;
    }

    /** The polls of waitForACKResponse; `polls` is what comes in at each until the time is up. */
    method PollForResponse(polls: seq<seq<bv8>>, q: Request) returns (status: Status)
      requires Apart()
      modifies this, packetBuf, packetCfg, packetAck, packetBuf.payload, packetCfg.payload, packetAck.payload
      ensures Shaped(old(Now())) && (status, Now()) == Waited(old(Now()), polls, q) && output == old(output)
    {
      hide Run, VerdictOf;
      ApartIsShaped();
      ghost var s := Now();
      var i := 0;
      while i < |polls|
        invariant 0 <= i <= |polls| && Shaped(s) && Shaped(Now()) && output == old(output)
        invariant Waited(s, polls, q) == Waited(Now(), polls[i..], q)
      {
        assert polls[i..][1..] == polls[i + 1..];
        Poll(polls[i], q);
        ApartIsShaped();
        var v := LookAtFlags(q);
        if v.Done? {
          return v.status;
        }
        i := i + 1;
      }
      assert polls[i..] == [];
      if packetCfg.classAndId == Valid && packetAck.classAndId == NotDefined && packetCfg.valid == Valid
        && packetCfg.cls == q.cls && packetCfg.id == q.id {
        return DataReceived;
      }
      return Timeout;
    }

    /**
     waitForACKResponse, which processes the first `k` of the bytes that come in.  When these are the
     beginning of an exchange, the status is the expected one and the data is in packetCfg, no byte is
     stored outside an array, and at the end of the exchange the receiver is ready for the next one.
     */
    method WaitForAckResponse(polls: seq<seq<bv8>>, q: Request, ghost x: Exchange)
      returns (status: Status, ghost k: nat)
      requires Apart()
      modifies this, packetBuf, packetCfg, packetAck, packetBuf.payload, packetCfg.payload, packetAck.payload
      ensures Shaped(old(Now())) && (status, Now()) == Waited(WaitStarted(old(Now())), polls, q)
      ensures output == old(output)
      ensures k <= |Concat(polls)| && Now() == Run(WaitStarted(old(Now())), Concat(polls)[..k], q)
      ensures Idle(old(Now())) ==> Steady(Now()) && status != DataOverwritten
      ensures
        var m := |Concat(polls)|;
        Idle(old(Now())) && Proper(x, q) && Expected(x).Done? && m <= |Wire(x)| && Concat(polls) == Wire(x)[..m] ==>
          && fault == old(fault)
          && status == (if m >= |UpToAck(x)| then Expected(x).status else ExpectedAtEnd(x, m))
          && (m >= |UpToAck(x)| && x.data != [] ==> Received(packetCfg.Value(), x.data[0]))
          && (if m >= |UpToAck(x)| then k >= |UpToAck(x)| else k == m) && (k == |Wire(x)| ==> Idle(Now()))
    {
      hide Waited, Proper, Expected, Wire, UpToAck, Received, WaitStarted, Idle, Run, Concat, VerdictOf, VerdictAtEnd;
      hide Steady, Shaped, ExpectedAtEnd, Apart;
      ghost var s0, m := Now(), |Concat(polls)|;
      ApartIsShaped();
      ClearFlags();
      ApartIsShaped();
      status := PollForResponse(polls, q);
      k := WaitedIsRun(WaitStarted(s0), polls, q);
      if Idle(s0) {
        IdleWait(s0, polls, k, q);
      }
      if Idle(s0) && Proper(x, q) && Expected(x).Done? && m <= |Wire(x)| && Concat(polls) == Wire(x)[..m] {
        ExchangeIsAnswered(s0, x, polls, q);
        ExchangeIsOver(s0, x, polls, k, q);
      }
    }

    /** uart_poll_out. */
    method PutOut(b: bv8)
      modifies this`output
      ensures output == old(output) + [b]
    {
      output := output + [b];
    }

    method PutHead(p: UbxPacket)
      modifies this`output
      ensures output == old(output) + [SYNC_1, SYNC_2, p.cls, p.id, Low(p.len), High(p.len)]
    {
      hide Low, High;
      PutOut(SYNC_1);
      PutOut(SYNC_2);
      PutOut(p.cls);
      PutOut(p.id);
      PutOut(Low(p.len));
      PutOut(High(p.len));
    }

    /** sendSerialCommand. */
    method SendSerialCommand(p: UbxPacket)
      requires Count(p.len) <= p.payload.Length
      modifies this`output
      ensures output == old(output) + Bytes(FrameOf(p.Value()))
    {
      hide Low, High, Count, Bytes;
      var n := Count(p.len);
      ghost var f := FrameOf(p.Value());
      PutHead(p);
      for i := 0 to n
        invariant output == old(output) + [SYNC_1, SYNC_2, f.cls, f.id, Low(f.len), High(f.len)] + f.payload[..i]
      {
        PutOut(p.payload[i]);
      }
      PutOut(p.checksumA);
      PutOut(p.checksumB);
      FramePieces(f);
    }

    /** sendCommand: what is written to the serial port is the packet as an intact frame. */
    method SendCommand(p: UbxPacket)
      requires Count(p.len) <= p.payload.Length
      modifies this`output, p`checksumA, p`checksumB
      ensures Intact(FrameOf(p.Value())) && output == old(output) + Bytes(FrameOf(p.Value()))
      ensures FrameOf(p.Value()) == old(FrameOf(p.Value())).(checksumA := p.checksumA, checksumB := p.checksumB)
    {
      hide Bytes, Body, Fletcher, Count;
      p.CalcChecksum();
      SendSerialCommand(p);
    }
  }

  lemma IdleWait(s0: State, polls: seq<seq<bv8>>, k: nat, q: Request)
    requires Idle(s0) && k <= |Concat(polls)|
    ensures Steady(Run(WaitStarted(s0), Concat(polls)[..k], q))
    ensures Waited(WaitStarted(s0), polls, q).0 != DataOverwritten
  {
    hide Run, Waited, Concat;
    SteadyRun(WaitStarted(s0), Concat(polls)[..k], q);
    NeverOverwritten(s0, polls, q);
  }

  /** Where the wait for an exchange stops. */
  lemma ExchangeIsOver(s0: State, x: Exchange, polls: seq<seq<bv8>>, k: nat, q: Request)
    requires Idle(s0) && Proper(x, q) && Expected(x).Done? && k <= |Concat(polls)| <= |Wire(x)|
    requires Concat(polls) == Wire(x)[..|Concat(polls)|]
    requires
      var t := Run(WaitStarted(s0), Concat(polls)[..k], q);
      VerdictOf(t.cfg, t.ack, q) == Waiting ==> k == |Concat(polls)|
    ensures if |Concat(polls)| >= |UpToAck(x)| then k >= |UpToAck(x)| else k == |Concat(polls)|
    ensures k == |Wire(x)| ==> Idle(Run(WaitStarted(s0), Concat(polls)[..k], q))
  {
    hide Run, Proper, Expected, UpToAck, Wire, VerdictOf, VerdictAtEnd;
    ExchangeIsJudged(s0, x, k, q);
    assert Concat(polls)[..k] == Wire(x)[..k];
  }

  lemma FramePieces(f: Frame)
    ensures
      var head := [SYNC_1, SYNC_2, f.cls, f.id, Low(f.len), High(f.len)];
      head + f.payload[..|f.payload|] + [f.checksumA] + [f.checksumB] == Bytes(f)
  {
  }

  lemma IntactIfChecked(f: Frame, g: Frame, t: Sum)
    requires t == Fletcher(Body(f)[..|Body(f)|])
    ensures g == f.(checksumA := t.a, checksumB := t.b) ==> Intact(g)
  {
    hide Fletcher, Low, High;
    assert Body(f)[..|Body(f)|] == Body(f);
    if g == f.(checksumA := t.a, checksumB := t.b) {
      assert Body(g) == Body(f);
    }
  }
}
