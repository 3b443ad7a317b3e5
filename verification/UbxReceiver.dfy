/**
 The UBX byte receiver of the u-blox driver (app/src/gps_ublox/gps_ublox.cpp): what every incoming
 byte does to the three packet buffers, and the verdict read from their flags.
 */
module UbxReceiver {

  const MAX_PAYLOAD_SIZE: nat := 256
  const SHORT_PAYLOAD: nat := 2
  const SYNC_1: bv8 := 0xB5
  const SYNC_2: bv8 := 0x62
  const RTCM_START: bv8 := 0xD3
  const NMEA_START: bv8 := 0x24
  const CLASS_NAV: bv8 := 0x01
  const CLASS_ACK: bv8 := 0x05
  const NAV_PVT: bv8 := 0x07
  const ACK_ACK: bv8 := 0x01
  const ACK_NACK: bv8 := 0x00

  datatype Sentence = NoSentence | Nmea | Ubx | Rtcm
  datatype Buffer = PacketCfg | PacketAck | PacketBuf
  datatype Validity = NotValid | Valid | NotDefined | NotAcknowledged

  datatype Sum = Sum(a: bv8, b: bv8)

  /** ubxPacket, with the array that holds its payload. */
  datatype Packet = Packet(
    cls: bv8, id: bv8, len: bv16, counter: nat, startingSpot: nat, payload: seq<bv8>,
    checksumA: bv8, checksumB: bv8, valid: Validity, classAndId: Validity)

  datatype Request = Request(cls: bv8, id: bv8)

  /** `fault` is set by a store outside a payload array. */
  datatype State = State(
    sentence: Sentence, frame: nat, active: Buffer, ignore: bool, sum: Sum,
    rtcmCount: nat, rtcmLen: nat, buf: Packet, cfg: Packet, ack: Packet, fault: bool)

  // ---- the checksum ----

  /** Addition of uint8_t, which wraps around. */
  function Plus(x: bv8, y: bv8): bv8 {
    x + y
  }

  /** addToChecksum. */
  function Roll(s: Sum, b: bv8): Sum {
    Sum(Plus(s.a, b), Plus(s.b, Plus(s.a, b)))
  }

  /** The 8-bit Fletcher checksum of section 3.4 of the u-blox protocol specification. */
  function Fletcher(bytes: seq<bv8>): Sum {
    if bytes == [] then Sum(0, 0) else Roll(Fletcher(bytes[..|bytes| - 1]), bytes[|bytes| - 1])
  }

  // ---- the length field ----

  function Wide(b: bv8): bv16 {
    b as bv16
  }

  function Joined(low: bv16, high: bv8): bv16 {
    low | (high as bv16 << 8)
  }

  function Count(len: bv16): nat {
    len as nat
  }

  // ---- processUBX ----

  datatype Filing = Filing(packet: Packet, sum: Sum, done: bool, fault: bool)

  predicate Matches(p: Packet, q: Request) {
    p.cls == q.cls && p.id == q.id
  }

  predicate Acknowledges(p: Packet, q: Request)
    requires |p.payload| >= SHORT_PAYLOAD
  {
    p.cls == CLASS_ACK && p.payload[0] == q.cls && p.payload[1] == q.id
  }

  /** Whether a completely received packet, with right or wrong checksum, is what was asked for. */
  function MatchOf(p: Packet, right: bool, q: Request): Validity
    requires |p.payload| >= SHORT_PAYLOAD
  {
    if Matches(p, q) then (if right then Valid else NotValid)
    else if !Acknowledges(p, q) then p.classAndId
    else if !right then NotValid
    else if p.id == ACK_ACK then Valid
    else if p.id == ACK_NACK then NotAcknowledged
    else p.classAndId
  }

  /** The flags of a completely received packet. */
  function Judged(p: Packet, sum: Sum, q: Request): (r: Packet)
    requires |p.payload| >= SHORT_PAYLOAD
    ensures r == p.(valid := r.valid, classAndId := r.classAndId)
  {
    var right := p.checksumA == sum.a && p.checksumB == sum.b;
    p.(valid := if right then Valid else NotValid, classAndId := MatchOf(p, right, q))
  }

  /** Where a payload byte goes, counted from the starting spot; negative before it. */
  function Spot(p: Packet): int {
    p.counter - 4 - if p.cls == CLASS_NAV && p.id == NAV_PVT then 0 else p.startingSpot
  }

  /** File one byte in a packet. */
  function Filed(p: Packet, b: bv8, ignore: bool, sum: Sum, q: Request): (f: Filing)
    requires |p.payload| >= SHORT_PAYLOAD
    ensures |f.packet.payload| == |p.payload| && f.packet.startingSpot == p.startingSpot
  {
    var n := Count(p.len);
    var sum' := if p.counter < n + 4 then Roll(sum, b) else sum;
    var next := p.(counter := p.counter + 1);
    var full := p.counter + 1 == MAX_PAYLOAD_SIZE;
    if p.counter == 0 then Filing(next.(cls := b), sum', full, false)
    else if p.counter == 1 then Filing(next.(id := b), sum', full, false)
    else if p.counter == 2 then Filing(next.(len := Wide(b)), sum', full, false)
    else if p.counter == 3 then Filing(next.(len := Joined(p.len, b)), sum', full, false)
    else if p.counter == n + 4 then Filing(next.(checksumA := b), sum', full, false)
    else if p.counter == n + 5 then Filing(Judged(next.(checksumB := b), sum', q), sum', true, false)
    else if 0 <= Spot(p) < MAX_PAYLOAD_SIZE && !ignore then
      if Spot(p) < |p.payload| then Filing(next.(payload := p.payload[Spot(p) := b]), sum', full, false)
      else Filing(next, sum', full, true)
    else Filing(next, sum', full, false)
  }

  // ---- process ----

  predicate Shaped(s: State) {
    |s.buf.payload| == SHORT_PAYLOAD && |s.ack.payload| == SHORT_PAYLOAD && |s.cfg.payload| == MAX_PAYLOAD_SIZE
  }

  /** The start of a sentence. */
  function Started(s: State, b: bv8): State {
    if s.sentence != NoSentence && s.sentence != Nmea then s
    else if b == SYNC_1 then
      s.(sentence := Ubx, frame := 0, buf := s.buf.(counter := 0), ignore := false, active := PacketBuf)
    else if b == NMEA_START then s.(sentence := Nmea)
    else if b == RTCM_START then s.(sentence := Rtcm, rtcmCount := 0)
    else s
  }

  /** The matching acknowledgement moves from packetBuf to packetAck. */
  function AckTaken(s: State): State
    requires Shaped(s)
  {
    s.(active := PacketAck, ack := s.ack.(cls := s.buf.cls, id := s.buf.id, len := s.buf.len, counter := s.buf.counter,
      payload := [s.buf.payload[0], s.buf.payload[1]]))
  }

  /** The ID decides where the packet goes. */
  function IdSeen(s: State, b: bv8, q: Request): State {
    var t := s.(buf := s.buf.(id := b));
    if t.buf.cls == CLASS_ACK then t
    else if Matches(t.buf, q) then
      t.(active := PacketCfg, cfg := t.cfg.(cls := t.buf.cls, id := t.buf.id, counter := t.buf.counter))
    else t.(ignore := true)
  }

  function SecondPut(s: State, b: bv8): (t: State)
    requires Shaped(s)
    ensures Shaped(t)
  {
    s.(buf :=
      if s.buf.len == 0 then s.buf.(checksumB := b)
      else if s.buf.len == 1 then s.buf.(checksumA := b)
      else s.buf.(payload := s.buf.payload[1 := b]))
  }

  /** The second byte after the length. */
  function SecondByte(s: State, b: bv8, q: Request): State
    requires Shaped(s)
  {
    var t := SecondPut(s, b);
    if t.active == PacketBuf && Acknowledges(t.buf, q) && t.buf.len == 2 then AckTaken(t) else t
  }

  /** The class starts the checksum and the packet over. */
  function ClassSeen(s: State, b: bv8): State {
    s.(buf := s.buf.(cls := b, counter := 0, valid := NotDefined, startingSpot := s.cfg.startingSpot), sum := Sum(0, 0))
  }

  /** The first byte after the length. */
  function FirstByte(s: State, b: bv8): State
    requires Shaped(s)
  {
    s.(buf := if s.buf.len == 0 then s.buf.(checksumA := b) else s.buf.(payload := s.buf.payload[0 := b]))
  }

  /** What `process` itself notes about a byte of a UBX frame. */
  function Noted(s: State, b: bv8, q: Request): (t: State)
    requires Shaped(s)
    ensures Shaped(t) && t.frame == s.frame
  {
    if s.frame == 0 then (if b != SYNC_1 then s.(sentence := NoSentence) else s)
    else if s.frame == 1 then (if b != SYNC_2 then s.(sentence := NoSentence) else s)
    else if s.frame == 2 then ClassSeen(s, b)
    else if s.frame == 3 then IdSeen(s, b, q)
    else if s.frame == 4 then s.(buf := s.buf.(len := Wide(b)))
    else if s.frame == 5 then s.(buf := s.buf.(len := Joined(s.buf.len, b)))
    else if s.frame == 6 then FirstByte(s, b)
    else if s.frame == 7 then SecondByte(s, b, q)
    else s
  }

  /** Divert the byte into the packet in use. */
  function Diverted(s: State, b: bv8, q: Request): (t: State)
    requires Shaped(s)
    ensures Shaped(t)
  {
    var p := match s.active case PacketCfg => s.cfg case PacketAck => s.ack case PacketBuf => s.buf;
    var f := Filed(p, b, s.ignore, s.sum, q);
    var t := s.(sum := f.sum, fault := s.fault || f.fault, sentence := if f.done then NoSentence else s.sentence);
    match s.active
    case PacketCfg => t.(cfg := f.packet)
    case PacketAck => t.(ack := f.packet)
    case PacketBuf => t.(buf := f.packet)
  }

  /** Bits 8 and 9 of the length, from the second byte of an RTCM frame. */
  function RtcmHigh(b: bv8): nat {
    256 * (b & 0x03) as nat
  }

  /** The third byte completes the length, whose low byte was zero; six more bytes surround what it counts. */
  function RtcmTotal(high: nat, b: bv8): nat {
    high + b as nat + 6
  }

  /** processRTCMframe. */
  function RtcmByte(s: State, b: bv8): State {
    var len :=
      if s.rtcmCount == 1 then RtcmHigh(b)
      else if s.rtcmCount == 2 then RtcmTotal(s.rtcmLen, b)
      else s.rtcmLen;
    s.(rtcmLen := len, rtcmCount := s.rtcmCount + 1,
      sentence := if s.rtcmCount + 1 == len then NoSentence else s.sentence)
  }

  /** process, with packetCfg as the packet the caller waits for. */
  function Process(s: State, b: bv8, q: Request): (t: State)
    requires Shaped(s)
    ensures Shaped(t)
  {
    var s1 := Started(s, b);
    if s1.sentence == Ubx then
      var s2 := Noted(s1, b, q);
      Diverted(s2, b, q).(frame := s2.frame + 1)
    else if s1.sentence == Rtcm then RtcmByte(s1, b)
    else s1
  }

  function Run(s: State, bytes: seq<bv8>, q: Request): (t: State)
    requires Shaped(s)
    ensures Shaped(t)
  {
    if bytes == [] then s else Process(Run(s, bytes[..|bytes| - 1], q), bytes[|bytes| - 1], q)
  }
}
