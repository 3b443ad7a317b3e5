/**
 Building and parsing LoRaWAN data frames (lib/lorawan_tools/lorawan_tools.c):
 MHDR | DevAddr | FCtrl | FCnt | FPort | encrypted payload | MIC.
 */
module LorawanFrame {
  import opened Encrypt
  import Fips197
  import Aes

  const FIXED_OFFSET: nat := 8
  const MIC_SIZE: nat := 4
  const EINVAL := -22
  const ENOMEM := -12

  function MacHeader(direction: Direction, confirmed: bool): bv8 {
    if direction.Uplink? then (if confirmed then 0x80 else 0x40)
    else (if confirmed then 0xA0 else 0x60)
  }

  /** Everything before the MIC. */
  function FrameBody(payload: seq<bv8>, port: bv8, session: Session, frameCounter: bv32, confirmed: bool,
                     direction: Direction): seq<bv8> {
    [MacHeader(direction, confirmed), session.addr3, session.addr2, session.addr1, session.addr0, 0x00,
     CounterByte(frameCounter, 0), CounterByte(frameCounter, 8), port]
    + Encrypted(payload, session, direction, CounterWord(frameCounter, false), port == 0)
  }

  function Frame(payload: seq<bv8>, port: bv8, session: Session, frameCounter: bv32, confirmed: bool,
                 direction: Direction): seq<bv8> {
    var body := FrameBody(payload, port, session, frameCounter, confirmed, direction);
    body + Mic(body, direction, session, frameCounter, false)
  }

  /** MHDR: the message type of section 4.2.1 in the three highest bits. */
  lemma MessageType(direction: Direction, confirmed: bool)
    ensures MacHeader(direction, confirmed) as nat ==
      32 * (2 + (if confirmed then 2 else 0) + (if direction.Downlink? then 1 else 0))
  {
  }

  /**
   Of the eight message types with the other bits clear, the even ones go up and the odd ones down; the
   last type, and every header with another bit set, is handed over as it is.
   */
  lemma KindOfType(mhdr: bv8)
    ensures Kind(mhdr) ==
      if mhdr as nat % 32 != 0 || mhdr as nat / 32 == 7 then Proprietary
      else Data(if mhdr as nat / 32 % 2 == 0 then Uplink else Downlink)
  {
  }

  /** A frame on any port but 0 shows nothing of the network key except its MIC. */
  lemma BodyWithoutNetworkKey(payload: seq<bv8>, port: bv8, s: Session, t: Session, frameCounter: bv32, confirmed: bool,
                              direction: Direction)
    requires t == s.(nwkSKey := t.nwkSKey) && port != 0
    ensures FrameBody(payload, port, s, frameCounter, confirmed, direction) ==
      FrameBody(payload, port, t, frameCounter, confirmed, direction)
  {
    hide Encrypted, CounterByte, CounterWord, MacHeader;
    KeysAreApart(payload, s, t, direction, CounterWord(frameCounter, false));
  }

  datatype ParseResult =
    | TooShort
    | NoRoom
    | Raw(frame: seq<bv8>)
    | NoPayload
    | Payload(data: seq<bv8>, port: bv8, counter: bv32)

  datatype FrameKind = Data(direction: Direction) | Proprietary

  function Kind(mhdr: bv8): FrameKind {
    if mhdr == 0x00 || mhdr == 0x40 || mhdr == 0x80 || mhdr == 0xC0 then Data(Uplink)
    else if mhdr == 0x20 || mhdr == 0x60 || mhdr == 0xA0 then Data(Downlink)
    else Proprietary
  }

  /** The 16-bit counter of the header. */
  function HeaderCounter(low: bv8, high: bv8): bv32 {
    ((low as bv16) | (high as bv16 << 8)) as bv32
  }

  function OptionsLength(fctrl: bv8): nat {
    (fctrl & 0x0F) as nat
  }

  /** Encryption takes an 8-bit length, so of a longer payload only the remainder modulo 256 is decrypted. */
  function Deciphered(cipher: seq<bv8>, session: Session, direction: Direction, counter: Fips197.Word,
                      useNetworkKey: bool): seq<bv8> {
    var n := |cipher| % 256;
    Encrypted(cipher[..n], session, direction, counter, useNetworkKey) + cipher[n..]
  }

  /** What parsing a frame yields when the target has `room` bytes. */
  function Parsed(frame: seq<bv8>, session: Session, wide: bool, room: nat): ParseResult {
    if |frame| < 12 then TooShort
    else if Kind(frame[0]).Proprietary? then
      (if room < |frame| then NoRoom else Raw(frame))
    else
      var options := OptionsLength(frame[5]);
      var length := |frame| - FIXED_OFFSET - options - MIC_SIZE - 1;
      if length <= 0 then NoPayload
      else
        var port := frame[FIXED_OFFSET + options];
        var counter := HeaderCounter(frame[6], frame[7]);
        var start := FIXED_OFFSET + options + 1;
        if room < length then NoRoom
        else
          var word := CounterWord(counter, wide);
          var data := Deciphered(frame[start..start + length], session, Kind(frame[0]).direction, word, port == 0);
          Payload(data, port, counter)
  }

  // ---- parsing undoes building ----

  lemma HeaderCounterLow(counter: bv32)
    ensures HeaderCounter(CounterByte(counter, 0), CounterByte(counter, 8)) == counter & 0xFFFF
  {
    assert ((((counter >> 0) & 0xFF) as bv8 as bv16) | (((counter >> 8) & 0xFF) as bv8 as bv16 << 8)) as bv32
        == counter & 0xFFFF;
  }

  lemma CounterByteOfLow0(counter: bv32)
    ensures CounterByte(counter & 0xFFFF, 0) == CounterByte(counter, 0)
  {
    assert (((counter & 0xFFFF) >> 0) & 0xFF) as bv8 == ((counter >> 0) & 0xFF) as bv8;
  }

  lemma CounterByteOfLow8(counter: bv32)
    ensures CounterByte(counter & 0xFFFF, 8) == CounterByte(counter, 8)
  {
    assert (((counter & 0xFFFF) >> 8) & 0xFF) as bv8 == ((counter >> 8) & 0xFF) as bv8;
  }

  lemma CounterByteOfLow16(counter: bv32)
    ensures CounterByte(counter & 0xFFFF, 16) == 0
  {
    assert (((counter & 0xFFFF) >> 16) & 0xFF) as bv8 == 0;
  }

  lemma CounterByteOfLow24(counter: bv32)
    ensures CounterByte(counter & 0xFFFF, 24) == 0
  {
    assert (((counter & 0xFFFF) >> 24) & 0xFF) as bv8 == 0;
  }

  /** The receiver's counter block is the sender's, with either counter width. */
  lemma CounterWordAgrees(counter: bv32, wide: bool)
    ensures CounterWord(counter & 0xFFFF, wide) == CounterWord(counter, false)
  {
    hide CounterByte;
    CounterByteOfLow0(counter);
    CounterByteOfLow8(counter);
    CounterByteOfLow16(counter);
    CounterByteOfLow24(counter);
  }

  lemma NoOptions()
    ensures OptionsLength(0x00) == 0
  {
  }

  /**
   For every payload that leaves something to parse, every port, counter, direction and counter
   width, the receiver gets back the payload, the port and the counter modulo 2^16.
   */
  lemma ParseUndoesBuild(payload: seq<bv8>, port: bv8, session: Session, frameCounter: bv32, confirmed: bool,
                         direction: Direction, wide: bool, room: nat)
    requires 1 <= |payload| <= room && |payload| < 256
    ensures Parsed(Frame(payload, port, session, frameCounter, confirmed, direction), session, wide, room)
         == Payload(payload, port, frameCounter & 0xFFFF)
  {
    hide HeaderCounter, CounterByte, CounterWord, Encrypted, Mic, OptionsLength;
    var frame := Frame(payload, port, session, frameCounter, confirmed, direction);
    var word := CounterWord(frameCounter, false);
    var cipher := Encrypted(payload, session, direction, word, port == 0);
    EncryptedLength(payload, session, direction, word, port == 0);
    var body := FrameBody(payload, port, session, frameCounter, confirmed, direction);
    MicLength(body, direction, session, frameCounter, false);
    NoOptions();
    HeaderCounterLow(frameCounter);
    CounterWordAgrees(frameCounter, wide);
    assert frame[9..9 + |payload|] == cipher;
    assert cipher[..|payload|] == cipher;
    EncryptedTwice(payload, session, direction, word, port == 0);
  }

  lemma LowNibble(b: bv8)
    ensures OptionsLength(b) == b as nat % 16
  {
    assert b == (b >> 4) * 16 + (b & 0x0F);
    assert b as nat == (b >> 4) as nat * 16 + (b & 0x0F) as nat;
  }

  /** Options between the counter and the port are skipped, whatever else FCtrl says and whatever the MIC. */
  lemma OptionsAreSkipped(payload: seq<bv8>, port: bv8, session: Session, frameCounter: bv32, confirmed: bool,
                          direction: Direction, wide: bool, room: nat, control: bv8, options: seq<bv8>, mic: seq<bv8>)
    requires 1 <= |payload| <= room && |payload| < 256 && control as nat % 16 == |options| && |mic| == 4
    ensures
      var head := [MacHeader(direction, confirmed), session.addr3, session.addr2, session.addr1, session.addr0, control,
                   CounterByte(frameCounter, 0), CounterByte(frameCounter, 8)];
      var cipher := Encrypted(payload, session, direction, CounterWord(frameCounter, false), port == 0);
      Parsed(head + options + [port] + cipher + mic, session, wide, room) ==
        Payload(payload, port, frameCounter & 0xFFFF)
  {
    hide HeaderCounter, CounterByte, CounterWord, Encrypted, OptionsLength;
    var word := CounterWord(frameCounter, false);
    var cipher := Encrypted(payload, session, direction, word, port == 0);
    EncryptedLength(payload, session, direction, word, port == 0);
    var head := [MacHeader(direction, confirmed), session.addr3, session.addr2, session.addr1, session.addr0, control,
                 CounterByte(frameCounter, 0), CounterByte(frameCounter, 8)];
    var frame := head + options + [port] + cipher + mic;
    LowNibble(control);
    HeaderCounterLow(frameCounter);
    CounterWordAgrees(frameCounter, wide);
    var start := 9 + |options|;
    assert frame[..8] == head;
    assert frame[0] == frame[..8][0] && frame[5] == frame[..8][5];
    assert frame[6] == frame[..8][6] && frame[7] == frame[..8][7];
    assert frame[start - 1] == port;
    assert frame[start..start + |payload|] == cipher;
    assert cipher[..|payload|] == cipher;
    EncryptedTwice(payload, session, direction, word, port == 0);
  }

  lemma EncryptedLength(payload: seq<bv8>, session: Session, direction: Direction, counter: Fips197.Word,
                        useNetworkKey: bool)
    ensures |Encrypted(payload, session, direction, counter, useNetworkKey)| == |payload|
  {
  }

  lemma MicLength(message: seq<bv8>, direction: Direction, session: Session, counter: bv32, wide: bool)
    ensures |Mic(message, direction, session, counter, wide)| == 4
  {
  }

  // ---- the room check of lorawan_tools_build ----

  /** The check subtracts in 32-bit unsigned arithmetic. */
  function AcceptsLength(payloadLength: nat, targetLength: nat): bool {
    payloadLength <= (targetLength - FIXED_OFFSET - MIC_SIZE - 1) % 0x1_0000_0000
  }

  /**
   Accepting is the same as fitting exactly for targets of at least 13 bytes; below that the
   subtraction wraps and every payload is accepted although no frame fits.
   */
  lemma AcceptsIffFits(payloadLength: nat, targetLength: nat)
    requires payloadLength < 0x100 && targetLength < 0x1_0000_0000
    ensures AcceptsLength(payloadLength, targetLength) <==> targetLength < 13 || payloadLength + 13 <= targetLength
    ensures (AcceptsLength(payloadLength, targetLength) <==> payloadLength + 13 <= targetLength) <==> targetLength >= 13
  {
  }

  // ---- the methods ----

  method WriteAddress(target: array<bv8>, header: bv8, auth: AuthInfo)
    requires auth.Valid() && target.Length >= 9 && target != auth.DevAddr
    modifies target
    ensures target[..5] == [header, auth.DevAddr[3], auth.DevAddr[2], auth.DevAddr[1], auth.DevAddr[0]]
    ensures target[9..] == old(target[9..])
  {
    var addr0, addr1, addr2, addr3 := auth.DevAddr[0], auth.DevAddr[1], auth.DevAddr[2], auth.DevAddr[3];
    target[0] := header;
    target[1] := addr3;
    target[2] := addr2;
    target[3] := addr1;
    target[4] := addr0;
  }

  method WriteHeader(target: array<bv8>, direction: Direction, confirmed: bool, auth: AuthInfo, frameCounter: bv32,
                     port: bv8)
    requires auth.Valid() && target.Length >= 9 && target != auth.NwkSKey && target != auth.AppSKey
    requires target != auth.DevAddr
    modifies target
    ensures target[..9] ==
      [MacHeader(direction, confirmed), auth.DevAddr[3], auth.DevAddr[2], auth.DevAddr[1], auth.DevAddr[0],
      0x00, CounterByte(frameCounter, 0), CounterByte(frameCounter, 8), port]
    ensures target[9..] == old(target[9..])
  {
    hide CounterByte, MacHeader;
    WriteAddress(target, MacHeader(direction, confirmed), auth);
    ghost var address := target[..5];
    target[5] := 0x00;
    target[6] := CounterByte(frameCounter, 0);
    target[7] := CounterByte(frameCounter, 8);
    target[8] := port;
    assert target[..9] == address + [0x00, CounterByte(frameCounter, 0), CounterByte(frameCounter, 8), port];
  }

  /** Copy `size` bytes to `target` from `offset` on. */
  method CopyInto(source: array<bv8>, size: nat, target: array<bv8>, offset: nat)
    requires size <= source.Length && offset + size <= target.Length && source != target
    modifies target
    ensures target[..offset] == old(target[..offset])
    ensures target[offset..offset + size] == source[..size]
    ensures target[offset + size..] == old(target[offset + size..])
  {
    for i := 0 to size
      invariant target[..offset] == old(target[..offset])
      invariant target[offset..offset + i] == source[..i]
      invariant target[offset + size..] == old(target[offset + size..])
    {
      target[offset + i] := source[i];
    }
  }

  lemma WholeArray(a: array<bv8>, n: nat)
    requires n == a.Length
    ensures a[..n] == a[..]
  {
  }

  /** Mac_Length, an 8-bit sum. */
  function MacLength(payloadLength: nat): nat {
    (payloadLength + 9) % 0x100
  }

  /** The length returned is the frame's exactly for payloads of at most 246 bytes. */
  lemma LengthIsRightIff(payloadLength: nat)
    requires payloadLength < 0x100
    ensures MacLength(payloadLength) + 4 == payloadLength + 13 <==> payloadLength <= 246
  {
  }

  /** Header and encrypted payload, in the target. */
  method WriteBody(engine: Aes.Engine, payload: array<bv8>, payloadLength: nat, port: bv8, frameCounter: bv32,
                   target: array<bv8>, confirmed: bool, direction: Direction, auth: AuthInfo)
    requires engine.Valid() && auth.Valid() && payload != target
    requires payloadLength <= 255 && payloadLength <= payload.Length && payloadLength + 13 <= target.Length
    requires payload != auth.NwkSKey && payload != auth.AppSKey && payload != auth.DevAddr
    requires target != auth.NwkSKey && target != auth.AppSKey && target != auth.DevAddr
    modifies engine.State, payload, target
    ensures target[..payloadLength + 9] ==
      FrameBody(old(payload[..payloadLength]), port, auth.Session(), frameCounter, confirmed, direction)
    ensures target[payloadLength + 9..] == old(target[payloadLength + 9..])
    ensures payload[..payloadLength] ==
      Encrypted(old(payload[..payloadLength]), auth.Session(), direction, CounterWord(frameCounter, false), port == 0)
    ensures payload[payloadLength..] == old(payload[payloadLength..])
  {
    hide Encrypted, CounterWord, CounterByte, Aes.BlockAt, MacHeader;
    ghost var session, plain := auth.Session(), payload[..payloadLength];
    ghost var rest := target[payloadLength + 9..];
    EncryptPayload(engine, payload, payloadLength, frameCounter, false, port == 0, direction, auth);
    WriteHeader(target, direction, confirmed, auth, frameCounter, port);
    ghost var header := target[..9];
    CopyInto(payload, payloadLength, target, 9);
    assert target[..payloadLength + 9] == header + payload[..payloadLength];
    assert auth.Session() == session;
    assert target[payloadLength + 9..] == rest;
  }

  /** Bytes behind `from` that are unchanged as a whole are unchanged in part. */
  lemma KeptBytes(after: seq<bv8>, before: seq<bv8>, n: nat, from: nat)
    requires |after| == |before| && n <= |before| && from <= |before| && after[from..] == before[from..]
    ensures from <= n ==> after[from..n] == before[..n][from..n] && after[n..] == before[n..]
  {
    if from <= n {
      assert after[from..n] == after[from..][..n - from];
      assert after[n..] == after[from..][n - from..] && before[n..] == before[from..][n - from..];
    }
  }

  /** The MIC of the first `length` bytes, written behind them. */
  method WriteMac(engine: Aes.Engine, target: array<bv8>, length: nat, frameCounter: bv32, direction: Direction,
                  auth: AuthInfo)
    requires engine.Valid() && auth.Valid() && length <= 255 && Covered(length) <= target.Length
    requires length + 4 <= target.Length
    requires target != auth.NwkSKey && target != auth.AppSKey && target != auth.DevAddr
    modifies engine.State, target
    ensures length > 0 ==>
      target[..length + 4] ==
        old(target[..length]) + Mic(old(target[..length]), direction, auth.Session(), frameCounter, false)
    ensures target[..length] == old(target[..length]) && target[length + 4..] == old(target[length + 4..])
  {
    hide Mic, CounterWord, Aes.BlockAt;
    ghost var session := auth.Session();
    var mic := new bv8[4];
    CalculateMic(engine, target, mic, length, frameCounter, false, direction, auth);
    CopyInto(mic, 4, target, length);
    WholeArray(mic, 4);
    assert auth.Session() == session;
    assert target[..length + 4] == target[..length] + target[length..length + 4];
  }

  /**
   prv_build_lorawan.  For payloads of more than 246 bytes the 8-bit length wraps: the MIC is written
   over the header, and the length returned is 256 too short.
   */
  method BuildLorawan(engine: Aes.Engine, payload: array<bv8>, payloadLength: nat, port: bv8, frameCounter: bv32,
                      target: array<bv8>, confirmed: bool, direction: Direction, auth: AuthInfo)
    returns (length: nat)
    requires engine.Valid() && auth.Valid() && payload != target
    requires payloadLength <= 255 && payloadLength <= payload.Length && payloadLength + 13 <= target.Length
    requires payload != auth.NwkSKey && payload != auth.AppSKey && payload != auth.DevAddr
    requires target != auth.NwkSKey && target != auth.AppSKey && target != auth.DevAddr
    modifies engine.State, payload, target
    ensures length == MacLength(payloadLength) + 4
    ensures length == payloadLength + 13 <==> payloadLength <= 246
    ensures payloadLength <= 246 ==>
      target[..length] == Frame(old(payload[..payloadLength]), port, auth.Session(), frameCounter, confirmed, direction)
    ensures payloadLength <= 246 ==> target[length..] == old(target[length..])
    ensures
      var body := FrameBody(old(payload[..payloadLength]), port, auth.Session(), frameCounter, confirmed, direction);
      payloadLength > 246 ==>
        && target[..length - 4] == body[..length - 4]
        && target[length..payloadLength + 9] == body[length..payloadLength + 9]
    ensures payload[..payloadLength] ==
      Encrypted(old(payload[..payloadLength]), auth.Session(), direction, CounterWord(frameCounter, false), port == 0)
    ensures payload[payloadLength..] == old(payload[payloadLength..])
  {
    hide Encrypted, CounterWord, Mic, Aes.BlockAt, FrameBody;
    WriteBody(engine, payload, payloadLength, port, frameCounter, target, confirmed, direction, auth);
    ghost var written, body := target[..], target[..payloadLength + 9];
    var macLength := MacLength(payloadLength);
    WriteMac(engine, target, macLength, frameCounter, direction, auth);
    length := macLength + 4;
    assert written[..payloadLength + 9] == body;
    KeptBytes(target[..], written, payloadLength + 9, length);
  }

  /**
   lorawan_tools_build: always LoRaWAN 1.0 with 16-bit frame counters.  An accepted payload is framed
   correctly exactly if it has at most 246 bytes.
   */
  method Build(engine: Aes.Engine, payload: array<bv8>, payloadLength: nat, port: bv8, auth: AuthInfo,
               frameCounter: bv32,
               target: array<bv8>, targetLength: nat, confirmed: bool, direction: Direction)
    returns (error: int, length: nat)
    requires engine.Valid() && auth.Valid() && payload != target
    requires payloadLength <= 255 && payloadLength <= payload.Length
    requires AcceptsLength(payloadLength, targetLength) ==> payloadLength + 13 <= target.Length
    requires payload != auth.NwkSKey && payload != auth.AppSKey && payload != auth.DevAddr
    requires target != auth.NwkSKey && target != auth.AppSKey && target != auth.DevAddr
    modifies engine.State, payload, target
    ensures error == if AcceptsLength(payloadLength, targetLength) then 0 else EINVAL
    ensures error == 0 ==> length == MacLength(payloadLength) + 4
    ensures
      var frame := Frame(old(payload[..payloadLength]), port, auth.Session(), frameCounter, confirmed, direction);
      error == 0 ==> (length <= target.Length && target[..length] == frame <==> payloadLength <= 246)
    ensures error == 0 && payloadLength <= 246 ==> target[length..] == old(target[length..])
    ensures error != 0 ==> length == targetLength && target[..] == old(target[..]) && payload[..] == old(payload[..])
  {
    hide FrameBody, Mic, AcceptsLength;
    if !AcceptsLength(payloadLength, targetLength) {
      return EINVAL, targetLength;
    }
    FrameLength(payload[..payloadLength], port, auth.Session(), frameCounter, confirmed, direction);
    length := BuildLorawan(engine, payload, payloadLength, port, frameCounter, target, confirmed, direction, auth);
    error := 0;
  }

  lemma FrameLength(payload: seq<bv8>, port: bv8, session: Session, frameCounter: bv32, confirmed: bool,
                    direction: Direction)
    ensures |Frame(payload, port, session, frameCounter, confirmed, direction)| == |payload| + 13
  {
    hide Encrypted, CounterWord, CounterByte, Mic;
    EncryptedLength(payload, session, direction, CounterWord(frameCounter, false), port == 0);
    var body := FrameBody(payload, port, session, frameCounter, confirmed, direction);
    MicLength(body, direction, session, frameCounter, false);
  }

  /** A decrypted copy of `size` bytes of the frame: encrypting again decrypts. */
  method Decrypted(engine: Aes.Engine, payload: array<bv8>, start: nat, size: nat, frameCounter: bv32, wide: bool,
                   useNetworkKey: bool, direction: Direction, auth: AuthInfo)
    returns (copy: array<bv8>)
    requires engine.Valid() && auth.Valid() && start + size <= payload.Length
    modifies engine.State
    ensures fresh(copy) && copy.Length == size
    ensures copy[..size] ==
      Deciphered(payload[start..start + size], auth.Session(), direction, CounterWord(frameCounter, wide),
                 useNetworkKey)
  {
    hide Encrypted, CounterWord, Aes.BlockAt;
    ghost var session := auth.Session();
    copy := new bv8[size];
    for i := 0 to size
      invariant forall k :: 0 <= k < i ==> copy[k] == payload[start + k]
    {
      copy[i] := payload[start + i];
    }
    ghost var cipher, n := payload[start..start + size], size % 256;
    assert copy[..] == cipher;
    assert copy[..n] == cipher[..n] && copy[n..] == cipher[n..];
    EncryptPayload(engine, copy, size % 256, frameCounter, wide, useNetworkKey, direction, auth);
    assert auth.Session() == session;
    assert copy[..size] == copy[..n] + copy[n..];
  }

  /** lorawan_tools_parse; the returned length, port and counter are the values left in the out-parameters. */
  method Parse(engine: Aes.Engine, payload: array<bv8>, payloadLength: nat, oldPort: bv8, oldCounter: bv32, wide: bool,
               target: array<bv8>, targetLength: nat, auth: AuthInfo)
    returns (error: int, length: nat, port: bv8, frameCounter: bv32)
    requires engine.Valid() && auth.Valid() && payload != target
    requires payloadLength <= payload.Length && targetLength <= target.Length
    requires target != auth.NwkSKey && target != auth.AppSKey && target != auth.DevAddr
    modifies engine.State, target
    ensures match Parsed(payload[..payloadLength], auth.Session(), wide, targetLength)
      case TooShort => error == EINVAL && length == 0
      case NoRoom => error == ENOMEM && length == targetLength
      case NoPayload => error == 0 && length == 0
      case Raw(frame) => error == 0 && length == |frame| && length <= target.Length && target[..length] == frame
      case Payload(data, p, c) =>
        && error == 0 && length == |data| && length <= target.Length && target[..length] == data
        && port == p && frameCounter == c
    ensures !Parsed(payload[..payloadLength], auth.Session(), wide, targetLength).Payload? ==>
      port == oldPort && frameCounter == oldCounter
  {
    hide Encrypted, Deciphered, CounterWord, HeaderCounter, Aes.BlockAt, OptionsLength;
    port, frameCounter := oldPort, oldCounter;
    ghost var session, frame := auth.Session(), payload[..payloadLength];
    if payloadLength < 12 {
      return EINVAL, 0, port, frameCounter;
    }
    var kind := Kind(payload[0]);
    if kind.Proprietary? {
      if targetLength < payloadLength {
        return ENOMEM, targetLength, port, frameCounter;
      }
      CopyInto(payload, payloadLength, target, 0);
      assert target[..payloadLength] == target[0..0 + payloadLength];
      return 0, payloadLength, port, frameCounter;
    }
    var options := OptionsLength(payload[5]);
    var counter := HeaderCounter(payload[6], payload[7]);
    var payloadSize := payloadLength - FIXED_OFFSET - options - MIC_SIZE;
    if payloadSize > 0 {
      payloadSize := payloadSize - 1;
    }
    if payloadSize <= 0 {
      return 0, 0, port, frameCounter;
    }
    var start := FIXED_OFFSET + options + 1;
    var framePort := payload[FIXED_OFFSET + options];
    var frmPayload :=
      Decrypted(engine, payload, start, payloadSize, counter, wide, framePort == 0, kind.direction, auth);
    assert payload[start..start + payloadSize] == frame[start..start + payloadSize];
    assert auth.Session() == session;
    if targetLength < payloadSize {
      return ENOMEM, targetLength, port, frameCounter;
    }
    CopyInto(frmPayload, payloadSize, target, 0);
    assert auth.Session() == session;
    assert target[..payloadSize] == target[0..0 + payloadSize];
    return 0, payloadSize, framePort, counter;
  }
}
