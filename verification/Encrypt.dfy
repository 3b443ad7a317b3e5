/**
 Payload encryption and message integrity of lib/lorawan_tools/Encrypt_V20.c, in place on byte
 arrays, against RFC 4493 and sections 4.3.3 and 4.4 of the LoRaWAN 1.0 specification.
 */
module Encrypt {
  import opened GaloisField
  import Fips197
  import Aes
  import Rfc4493

  type Block = Fips197.Block

  datatype Direction = Uplink | Downlink {
    /** The Dir field of the cipher blocks. */
    function Code(): bv8 {
      if Uplink? then 0 else 1
    }
  }

  /** Session keys and the device address; the address is stored most significant byte first. */
  class AuthInfo {
    const NwkSKey: array<bv8>
    const AppSKey: array<bv8>
    const DevAddr: array<bv8>

    ghost predicate Valid() {
      NwkSKey.Length == 16 && AppSKey.Length == 16 && DevAddr.Length == 4
    }

    ghost function Session(): Session
      requires Valid()
      reads NwkSKey, AppSKey, DevAddr
    {
      Keys(Aes.BlockAt(NwkSKey[..], 0), Aes.BlockAt(AppSKey[..], 0), DevAddr[0], DevAddr[1], DevAddr[2], DevAddr[3])
    }

    /** Each key and the address where it belongs. */
    lemma SessionHolds()
      requires Valid()
      ensures Aes.Bytes(Session().nwkSKey) == NwkSKey[..] && Aes.Bytes(Session().appSKey) == AppSKey[..]
      ensures [Session().addr0, Session().addr1, Session().addr2, Session().addr3] == DevAddr[..]
    {
    }

    constructor ()
      ensures Valid() && fresh(NwkSKey) && fresh(AppSKey) && fresh(DevAddr)
    {
      NwkSKey, AppSKey, DevAddr := new bv8[16], new bv8[16], new bv8[4];
    }
  }

  /** The values held by an AuthInfo. */
  datatype Session = Keys(nwkSKey: Block, appSKey: Block, addr0: bv8, addr1: bv8, addr2: bv8, addr3: bv8)

  /** The frame counter field of blocks A_i and B_0: two bytes, or four if 32-bit counters are used. */
  function CounterWord(counter: bv32, wide: bool): Fips197.Word {
    Fips197.Word(CounterByte(counter, 0), CounterByte(counter, 8),
                 if wide then CounterByte(counter, 16) else 0, if wide then CounterByte(counter, 24) else 0)
  }

  function CounterByte(counter: bv32, shift: bv32): bv8
    requires shift <= 24
  {
    ((counter >> shift) & 0xFF) as bv8
  }

  /**
   Blocks A_i of section 4.3.3 and B_0 of section 4.4 share their layout: a tag byte, four zero
   bytes, the direction, the address least significant byte first, the counter, a zero byte and a
   final byte.
   */
  function HeaderBlock(tag: bv8, direction: Direction, session: Session, counter: Fips197.Word, last: bv8): Block {
    Fips197.Block(Fips197.Word(tag, 0, 0, 0),
                  Fips197.Word(0, direction.Code(), session.addr3, session.addr2),
                  Fips197.Word(session.addr1, session.addr0, counter.r0, counter.r1),
                  Fips197.Word(counter.r2, counter.r3, 0, last))
  }

  function LengthByte(length: nat): bv8 {
    (length % 256) as bv8
  }

  // ---- section 4.3.3, the key stream ----

  /** Port 0 uses the network key, every other port the application key. */
  function PayloadKey(session: Session, useNetworkKey: bool): Block {
    if useNetworkKey then session.nwkSKey else session.appSKey
  }

  /** S_i: the encryption of A_i, numbered from 1. */
  function KeyStreamBlock(session: Session, direction: Direction, counter: Fips197.Word, useNetworkKey: bool,
                          i: nat): Block {
    Fips197.Cipher(HeaderBlock(0x01, direction, session, counter, LengthByte(i)), PayloadKey(session, useNetworkKey))
  }

  function KeyStream(session: Session, direction: Direction, counter: Fips197.Word, useNetworkKey: bool, n: nat): bv8 {
    Aes.Bytes(KeyStreamBlock(session, direction, counter, useNetworkKey, n / 16 + 1))[n % 16]
  }

  /** The payload xored with S_1 | S_2 | ..., cut to its length. */
  function Encrypted(payload: seq<bv8>, session: Session, direction: Direction, counter: Fips197.Word,
                     useNetworkKey: bool): seq<bv8> {
    seq(|payload|, n requires 0 <= n < |payload| =>
      Add(payload[n], KeyStream(session, direction, counter, useNetworkKey, n)))
  }

  /** Encrypting a second time decrypts, for every length. */
  lemma EncryptedTwice(payload: seq<bv8>, session: Session, direction: Direction, counter: Fips197.Word,
                       useNetworkKey: bool)
    ensures
      var once := Encrypted(payload, session, direction, counter, useNetworkKey);
      Encrypted(once, session, direction, counter, useNetworkKey) == payload
  {
    hide Add, KeyStream;
    forall n | 0 <= n < |payload|
      ensures Add(Add(payload[n], KeyStream(session, direction, counter, useNetworkKey, n)),
                  KeyStream(session, direction, counter, useNetworkKey, n)) == payload[n]
    {
      AddProperties(payload[n], KeyStream(session, direction, counter, useNetworkKey, n));
    }
  }

  /** Application data does not depend on the network key, and data of port 0 not on the application key. */
  lemma KeysAreApart(payload: seq<bv8>, s: Session, t: Session, direction: Direction, counter: Fips197.Word)
    requires t == s.(nwkSKey := t.nwkSKey, appSKey := t.appSKey)
    ensures s.appSKey == t.appSKey ==>
      Encrypted(payload, s, direction, counter, false) == Encrypted(payload, t, direction, counter, false)
    ensures s.nwkSKey == t.nwkSKey ==>
      Encrypted(payload, s, direction, counter, true) == Encrypted(payload, t, direction, counter, true)
  {
    hide Fips197.Cipher, Aes.Bytes, Add;
  }

  /** The fields of the header block: the direction is 0 or 1, the counter least significant byte first. */
  lemma HeaderFields(tag: bv8, session: Session, counter: Fips197.Word, last: bv8)
    ensures HeaderBlock(tag, Uplink, session, counter, last).c1.r1 == 0
    ensures HeaderBlock(tag, Downlink, session, counter, last).c1.r1 == 1
    ensures CounterWord(0x04030201, true) == Fips197.Word(0x01, 0x02, 0x03, 0x04)
    ensures CounterWord(0x04030201, false) == Fips197.Word(0x01, 0x02, 0x00, 0x00)
  {
  }

  lemma NextByte(b: bv8)
    requires b as nat < 255
    ensures (b + 1) as nat == b as nat + 1
  {
  }

  lemma {:induction false} ByteOfValue(n: nat) returns (b: bv8)
    requires n < 256
    ensures b as nat == n
  {
    hide *;
    if n == 0 {
      b := 0;
    } else {
      var a := ByteOfValue(n - 1);
      NextByte(a);
      b := a + 1;
    }
  }

  lemma ValueAndBack(b: bv8)
    ensures (b as nat) as bv8 == b
  {
  }

  lemma ByteValue(n: nat)
    requires n < 256
    ensures (n as bv8) as nat == n
  {
    hide *;
    var b := ByteOfValue(n);
    ValueAndBack(b);
  }

  lemma LengthByteInjective(i: nat, j: nat)
    requires LengthByte(i) == LengthByte(j)
    ensures i % 256 == j % 256
  {
    var m, n := i % 256, j % 256;
    ByteValue(m);
    ByteValue(n);
  }

  /** One key never gives the same block of key stream for two counters, directions, addresses or positions. */
  lemma KeyStreamIsFresh(s: Session, t: Session, d: Direction, e: Direction, c: Fips197.Word, w: Fips197.Word,
                         useNetworkKey: bool, i: nat, j: nat)
    requires if useNetworkKey then s.nwkSKey == t.nwkSKey else s.appSKey == t.appSKey
    requires KeyStreamBlock(s, d, c, useNetworkKey, i) == KeyStreamBlock(t, e, w, useNetworkKey, j)
    ensures d == e && c == w && i % 256 == j % 256
    ensures s.addr0 == t.addr0 && s.addr1 == t.addr1 && s.addr2 == t.addr2 && s.addr3 == t.addr3
  {
    hide Fips197.Cipher, Fips197.InvCipher, LengthByte;
    var a, b := HeaderBlock(0x01, d, s, c, LengthByte(i)), HeaderBlock(0x01, e, t, w, LengthByte(j));
    var key := PayloadKey(s, useNetworkKey);
    Fips197.CipherBijective(a, key);
    Fips197.CipherBijective(b, key);
    assert a == b;
    LengthByteInjective(i, j);
  }

  // ---- section 4.4, the message integrity code ----

  function B0(direction: Direction, session: Session, counter: bv32, wide: bool, length: nat): Block {
    HeaderBlock(0x49, direction, session, CounterWord(counter, wide), LengthByte(length))
  }

  /** The first four bytes of the tag of B_0 followed by the message. */
  function Mic(message: seq<bv8>, direction: Direction, session: Session, counter: bv32, wide: bool): seq<bv8> {
    var tag := Rfc4493.Cmac(session.nwkSKey, Aes.Bytes(B0(direction, session, counter, wide, |message|)) + message);
    FirstFour(tag)
  }

  function FirstFour(tag: Block): seq<bv8> {
    [tag.c0.r0, tag.c0.r1, tag.c0.r2, tag.c0.r3]
  }

  // ---- in-place steps ----

  method ShiftLeft(data: array<bv8>)
    requires data.Length == 16
    modifies data
    ensures Aes.BlockAt(data[..], 0) == Rfc4493.ShiftedBytes(old(Aes.BlockAt(data[..], 0)))
  {
    hide Rfc4493.ShiftedByte;
    for i := 0 to 16
      invariant forall k :: 0 <= k < i ==>
        data[k] == Rfc4493.ShiftedByte(old(data[k]), if k < 15 then old(data[k + 1]) else 0)
      invariant forall k :: i <= k < 16 ==> data[k] == old(data[k])
    {
      var overflow: bv8 := 0;
      if i < 15 {
        if data[i + 1] & 0x80 == 0x80 {
          overflow := 1;
        }
      }
      CarryIn(data[i], if i < 15 then data[i + 1] else 0);
      data[i] := (data[i] << 1) + overflow;
    }
  }

  lemma CarryIn(b: bv8, next: bv8)
    ensures (b << 1) + (if next & 0x80 == 0x80 then 1 else 0) == Rfc4493.ShiftedByte(b, next)
  {
    assert (b << 1) + (if next & 0x80 == 0x80 then 1 else 0) == (b << 1) | (next >> 7);
  }

  method Xor(newData: array<bv8>, oldData: array<bv8>)
    requires newData.Length == 16 && oldData.Length == 16 && newData != oldData
    modifies newData
    ensures Aes.BlockAt(newData[..], 0) ==
      Rfc4493.XorBlock(old(Aes.BlockAt(newData[..], 0)), Aes.BlockAt(oldData[..], 0))
  {
    hide Add;
    for i := 0 to 16
      invariant forall k :: 0 <= k < i ==> newData[k] == Add(old(newData[k]), oldData[k])
      invariant forall k :: i <= k < 16 ==> newData[k] == old(newData[k])
    {
      newData[i] := Add(newData[i], oldData[i]);
    }
  }

  /** Double a block: shift, then mask the last byte if a one was shifted out. */
  method DoubleBlock(k: array<bv8>)
    requires k.Length == 16
    modifies k
    ensures Aes.BlockAt(k[..], 0) == Rfc4493.FromBits(Rfc4493.Doubled(Rfc4493.Bits(old(Aes.BlockAt(k[..], 0)))))
  {
    hide Rfc4493.FromBits, Rfc4493.Doubled, Rfc4493.Bits, Rfc4493.ShiftedBytes;
    ghost var b := Aes.BlockAt(k[..], 0);
    var msb := k[0] & 0x80 == 0x80;
    ShiftLeft(k);
    if msb {
      k[15] := k[15] ^ 0x87;
    }
    Rfc4493.DoubledByBytes(b);
  }

  method GenerateKeys(engine: Aes.Engine, k1: array<bv8>, k2: array<bv8>, key: array<bv8>)
    requires engine.Valid()
    requires k1.Length == 16 && k2.Length == 16 && key.Length == 16 && k1 != k2 && k1 != key && k2 != key
    requires Aes.BlockAt(k1[..], 0) == Rfc4493.ZERO
    modifies engine.State, k1, k2
    ensures Aes.BlockAt(k1[..], 0) == Rfc4493.Subkey1(Aes.BlockAt(key[..], 0))
    ensures Aes.BlockAt(k2[..], 0) == Rfc4493.Subkey2(Aes.BlockAt(key[..], 0))
  {
    hide Rfc4493.FromBits, Rfc4493.Doubled, Rfc4493.Bits, Fips197.Cipher;
    engine.Encrypt(k1, key);
    DoubleBlock(k1);
    for i := 0 to 16
      modifies k2
      invariant k2[..i] == k1[..i]
    {
      k2[i] := k1[i];
    }
    assert k2[..] == k2[..16] == k1[..16] == k1[..];
    DoubleBlock(k2);
  }

  method CopyBlock(source: array<bv8>, offset: nat, target: array<bv8>)
    requires offset + 16 <= source.Length && target.Length == 16 && source != target
    modifies target
    ensures Aes.BlockAt(target[..], 0) == Aes.BlockAt(source[..], offset)
  {
    for i := 0 to 16
      invariant forall k :: 0 <= k < i ==> target[k] == source[offset + k]
    {
      target[i] := source[offset + i];
    }
  }

  /** The incomplete last block: the remaining bytes, a one bit, and zeros. */
  method CopyPadded(source: array<bv8>, offset: nat, size: nat, target: array<bv8>)
    requires size < 16 && offset + size <= source.Length && target.Length == 16 && source != target
    modifies target
    ensures target[..] == Rfc4493.Padded(source[offset..offset + size])
  {
    for i := 0 to 16
      invariant forall k :: 0 <= k < i ==> target[k] == Rfc4493.Padded(source[offset..offset + size])[k]
    {
      if i < size {
        target[i] := source[offset + i];
      }
      if i == size {
        target[i] := 0x80;
      }
      if i > size {
        target[i] := 0x00;
      }
    }
  }

  /** A message of B_0 and `data`: its blocks after the first are the blocks of `data`. */
  lemma SecondBlockOn(header: Block, data: seq<bv8>, length: nat, n: nat)
    requires 16 * n + 16 <= length <= |data|
    ensures Aes.BlockAt(Aes.Bytes(header) + data[..length], 16 * (n + 1)) == Aes.BlockAt(data, 16 * n)
  {
  }

  lemma ZeroBytes(s: seq<bv8>)
    requires |s| == 16 && forall i :: 0 <= i < 16 ==> s[i] == 0
    ensures Aes.BlockAt(s, 0) == Rfc4493.ZERO
  {
  }

  lemma XorCommutes(a: Block, b: Block)
    ensures Rfc4493.XorBlock(a, b) == Rfc4493.XorBlock(b, a)
  {
    hide Add;
    forall x: bv8, y: bv8
      ensures Add(x, y) == Add(y, x)
    {
      AddProperties(x, y);
    }
  }

  method WriteMic(tag: array<bv8>, mic: array<bv8>)
    requires tag.Length == 16 && mic.Length == 4 && tag != mic
    modifies mic
    ensures mic[..] == FirstFour(Aes.BlockAt(tag[..], 0))
  {
    mic[0] := tag[0];
    mic[1] := tag[1];
    mic[2] := tag[2];
    mic[3] := tag[3];
  }

  lemma ChainOfHeader(key: Block, header: Block, data: seq<bv8>)
    ensures Rfc4493.Chain(key, Aes.Bytes(header) + data, 1) == Fips197.Cipher(header, key)
  {
    hide Fips197.Cipher;
    var m := Aes.Bytes(header) + data;
    assert Aes.BlockAt(m, 0) == header;
    assert Rfc4493.XorBlock(Rfc4493.ZERO, header) == header by { XorZero(header); }
    assert Rfc4493.Chain(key, m, 0) == Rfc4493.ZERO;
  }

  lemma XorZero(b: Block)
    ensures Rfc4493.XorBlock(Rfc4493.ZERO, b) == b
  {
    assert forall x: bv8 :: Add(0, x) == x;
  }

  /** The bytes the CMAC covers: with a length of 0 it takes the last block from sixteen bytes all the same. */
  function Covered(dataLength: nat): nat {
    if dataLength == 0 then 16 else dataLength
  }

  /** Where the last block starts. */
  function LastStart(dataLength: nat): (start: nat)
    ensures start % 16 == 0
    ensures start + (if dataLength % 16 == 0 then 16 else dataLength % 16) == Covered(dataLength)
  {
    if dataLength == 0 then 0 else 16 * ((dataLength - 1) / 16)
  }

  /** The last block of a header and `data` is the last block of `data`, whole or padded. */
  lemma LastBlockOfMessage(header: Block, data: seq<bv8>, dataLength: nat, subkeyKey: Block)
    requires Covered(dataLength) <= |data|
    ensures
      var start, rest := LastStart(dataLength), dataLength % 16;
      Rfc4493.LastBlock(subkeyKey, Aes.Bytes(header) + data[..Covered(dataLength)]) ==
        if rest == 0 then Rfc4493.XorBlock(Aes.BlockAt(data, start), Rfc4493.Subkey1(subkeyKey))
        else Rfc4493.XorBlock(Aes.BlockAt(Rfc4493.Padded(data[start..start + rest]), 0), Rfc4493.Subkey2(subkeyKey))
  {
    hide Rfc4493.Subkey1, Rfc4493.Subkey2, Rfc4493.XorBlock, Aes.BlockAt, Rfc4493.Padded;
    var covered, start, rest := Covered(dataLength), LastStart(dataLength), dataLength % 16;
    var m := Aes.Bytes(header) + data[..covered];
    assert 16 * (Rfc4493.BlockCount(m) - 1) == start + 16;
    if rest == 0 {
      SecondBlockOn(header, data, covered, start / 16);
    } else {
      assert m[start + 16..] == data[start..start + rest];
    }
  }

  /** The source's treatment of the last block, complete or padded, before the last encryption. */
  method MaskedLastBlock(data: array<bv8>, dataLength: nat, position: nat, incompleteBlockSize: nat,
                         keyK1: array<bv8>, keyK2: array<bv8>, newData: array<bv8>,
                         ghost header: Block, ghost subkeyKey: Block)
    requires Covered(dataLength) <= data.Length && newData.Length == keyK1.Length == keyK2.Length == 16
    requires incompleteBlockSize == dataLength % 16 && position == LastStart(dataLength)
    requires newData != data && newData != keyK1 && newData != keyK2
    requires Aes.BlockAt(keyK1[..], 0) == Rfc4493.Subkey1(subkeyKey)
    requires Aes.BlockAt(keyK2[..], 0) == Rfc4493.Subkey2(subkeyKey)
    modifies newData
    ensures Aes.BlockAt(newData[..], 0) ==
      Rfc4493.LastBlock(subkeyKey, Aes.Bytes(header) + data[..Covered(dataLength)])
  {
    hide Rfc4493.Subkey1, Rfc4493.Subkey2, Rfc4493.XorBlock, Aes.BlockAt, Rfc4493.Padded, Rfc4493.LastBlock;
    LastBlockOfMessage(header, data[..], dataLength, subkeyKey);
    if incompleteBlockSize == 0 {
      CopyBlock(data, position, newData);
      Xor(newData, keyK1);
    } else {
      CopyPadded(data, position, incompleteBlockSize, newData);
      assert data[position..position + incompleteBlockSize] == data[..][position..position + incompleteBlockSize];
      Xor(newData, keyK2);
    }
  }

  /** Chain all message blocks but the last into `oldData`; the last starts at `position`. */
  method ChainBlocks(engine: Aes.Engine, key: array<bv8>, data: array<bv8>, dataLength: nat, numberOfBlocks: nat,
                     oldData: array<bv8>, newData: array<bv8>, ghost header: Block, ghost covered: nat)
    returns (position: nat)
    requires engine.Valid() && key.Length == oldData.Length == newData.Length == 16
    requires dataLength <= covered <= data.Length && 16 * (numberOfBlocks - 1) <= dataLength
    requires oldData != newData && oldData != key && oldData != data && newData != key && newData != data
    requires Aes.BlockAt(oldData[..], 0) ==
      Rfc4493.Chain(Aes.BlockAt(key[..], 0), Aes.Bytes(header) + data[..covered], 1)
    modifies engine.State, oldData, newData
    ensures position == if numberOfBlocks == 0 then 0 else 16 * (numberOfBlocks - 1)
    ensures Aes.BlockAt(oldData[..], 0) ==
      Rfc4493.Chain(Aes.BlockAt(key[..], 0), Aes.Bytes(header) + data[..covered], 1 + position / 16)
  {
    hide Fips197.Cipher, Rfc4493.XorBlock, Aes.BlockAt;
    ghost var k, m := Aes.BlockAt(key[..], 0), Aes.Bytes(header) + data[..covered];
    var blockCounter := 1;
    position := 0;
    while blockCounter < numberOfBlocks
      modifies engine.State, newData, oldData
      invariant 1 <= blockCounter && (blockCounter <= numberOfBlocks || blockCounter == 1)
      invariant position == 16 * (blockCounter - 1)
      invariant Aes.BlockAt(oldData[..], 0) == Rfc4493.Chain(k, m, blockCounter)
    {
      CopyBlock(data, position, newData);
      SecondBlockOn(header, data[..], covered, blockCounter - 1);
      XorCommutes(Aes.BlockAt(newData[..], 0), Aes.BlockAt(oldData[..], 0));
      Xor(newData, oldData);
      engine.Encrypt(newData, key);
      CopyBlock(newData, 0, oldData);
      position := position + 16;
      blockCounter := blockCounter + 1;
    }
  }

  /** Encrypt the header, and chain all blocks of `data` but the last behind it. */
  method ChainHeaderAndBlocks(engine: Aes.Engine, key: array<bv8>, header: array<bv8>, data: array<bv8>,
                              dataLength: nat, oldData: array<bv8>, newData: array<bv8>, ghost h: Block)
    returns (position: nat)
    requires engine.Valid() && key.Length == header.Length == oldData.Length == newData.Length == 16
    requires dataLength <= Covered(dataLength) <= data.Length && h == Aes.BlockAt(header[..], 0)
    requires header != key && header != data && header != oldData && header != newData
    requires oldData != newData && oldData != key && oldData != data && newData != key && newData != data
    modifies engine.State, header, oldData, newData
    ensures position == LastStart(dataLength)
    ensures Aes.BlockAt(oldData[..], 0) ==
      Rfc4493.Chain(Aes.BlockAt(key[..], 0), Aes.Bytes(h) + data[..Covered(dataLength)], 1 + position / 16)
  {
    hide Fips197.Cipher, Rfc4493.XorBlock, Aes.BlockAt, Rfc4493.Chain;
    var numberOfBlocks := dataLength / 16;
    var incompleteBlockSize := dataLength % 16;
    if incompleteBlockSize != 0 {
      numberOfBlocks := numberOfBlocks + 1;
    }
    engine.Encrypt(header, key);
    CopyBlock(header, 0, oldData);
    ChainOfHeader(Aes.BlockAt(key[..], 0), h, data[..Covered(dataLength)]);
    position := ChainBlocks(engine, key, data, dataLength, numberOfBlocks, oldData, newData, h, Covered(dataLength));
  }

  lemma TagOfLastBlock(key: Block, subkeyKey: Block, m: seq<bv8>, n: nat)
    requires n + 1 == Rfc4493.BlockCount(m)
    ensures n <= |m| / 16
    ensures Rfc4493.Tag(key, subkeyKey, m) ==
      Fips197.Cipher(Rfc4493.XorBlock(Rfc4493.LastBlock(subkeyKey, m), Rfc4493.Chain(key, m, n)), key)
  {
    hide Fips197.Cipher, Rfc4493.LastBlock, Rfc4493.Chain, Rfc4493.XorBlock;
  }

  method CalculateAesCmac(engine: Aes.Engine, key: array<bv8>, header: array<bv8>, data: array<bv8>, dataLength: nat,
                          finalMic: array<bv8>, subkeyKey: array<bv8>)
    requires engine.Valid()
    requires key.Length == 16 && header.Length == 16 && subkeyKey.Length == 16 && finalMic.Length == 4
    requires dataLength <= 255 && Covered(dataLength) <= data.Length
    requires header != key && header != subkeyKey && header != data && header != finalMic
    modifies engine.State, header, finalMic
    ensures
      var tag := Rfc4493.Tag(old(Aes.BlockAt(key[..], 0)), old(Aes.BlockAt(subkeyKey[..], 0)),
                             Aes.Bytes(old(Aes.BlockAt(header[..], 0))) + old(data[..Covered(dataLength)]));
      finalMic[..] == FirstFour(tag)
  {
    hide Fips197.Cipher, Rfc4493.Subkey1, Rfc4493.Subkey2, Rfc4493.XorBlock, Rfc4493.LastBlock, Rfc4493.Chain,
      Rfc4493.Tag, Aes.BlockAt;
    ghost var k, sk, h := Aes.BlockAt(key[..], 0), Aes.BlockAt(subkeyKey[..], 0), Aes.BlockAt(header[..], 0);
    ghost var m := Aes.Bytes(h) + data[..Covered(dataLength)];
    var keyK1, keyK2 := new bv8[16](_ => 0), new bv8[16](_ => 0);
    var oldData, newData := new bv8[16](_ => 0), new bv8[16](_ => 0);
    ZeroBytes(keyK1[..]);
    GenerateKeys(engine, keyK1, keyK2, subkeyKey);
    var position := ChainHeaderAndBlocks(engine, key, header, data, dataLength, oldData, newData, h);
    TagOfLastBlock(k, sk, m, 1 + position / 16);
    MaskedLastBlock(data, dataLength, position, dataLength % 16, keyK1, keyK2, newData, h, sk);
    Xor(newData, oldData);
    engine.Encrypt(newData, key);
    WriteMic(newData, finalMic);
  }

  method FillHeader(block: array<bv8>, tag: bv8, direction: Direction, auth: AuthInfo, frameCounter: bv32, wide: bool,
                    last: bv8)
    requires block.Length == 16 && auth.Valid()
    requires block != auth.NwkSKey && block != auth.AppSKey && block != auth.DevAddr
    modifies block
    ensures Aes.BlockAt(block[..], 0) ==
      HeaderBlock(tag, direction, auth.Session(), CounterWord(frameCounter, wide), last)
  {
    hide CounterWord;
    ghost var session := auth.Session();
    var addr0, addr1, addr2, addr3 := auth.DevAddr[0], auth.DevAddr[1], auth.DevAddr[2], auth.DevAddr[3];
    // The upper counter bytes are used only with 32-bit counters.
    var counter := CounterWord(frameCounter, wide);
    block[0] := tag;
    block[1] := 0x00;
    block[2] := 0x00;
    block[3] := 0x00;
    block[4] := 0x00;
    block[5] := direction.Code();
    block[6] := addr3;
    block[7] := addr2;
    block[8] := addr1;
    block[9] := addr0;
    block[10] := counter.r0;
    block[11] := counter.r1;
    block[12] := counter.r2;
    block[13] := counter.r3;
    block[14] := 0x00;
    block[15] := last;
    assert auth.Session() == session;
  }

  /** The MIC of a LoRaWAN 1.0 frame. */
  method CalculateMic(engine: Aes.Engine, data: array<bv8>, finalMic: array<bv8>, dataLength: nat, frameCounter: bv32,
                      wide: bool, direction: Direction, auth: AuthInfo)
    requires engine.Valid() && auth.Valid() && finalMic.Length == 4
    requires dataLength <= 255 && Covered(dataLength) <= data.Length
    modifies engine.State, finalMic
    ensures dataLength > 0 ==>
      finalMic[..] == Mic(old(data[..dataLength]), direction, old(auth.Session()), frameCounter, wide)
  {
    hide Rfc4493.Tag, HeaderBlock, CounterWord, Aes.BlockAt, FirstFour, LengthByte;
    var blockB := new bv8[16];
    FillHeader(blockB, 0x49, direction, auth, frameCounter, wide, LengthByte(dataLength));
    CalculateAesCmac(engine, auth.NwkSKey, blockB, data, dataLength, finalMic, auth.NwkSKey);
  }

  /** Xor the bytes of the i-th block of `data`, `size` of them, with the key stream block `blockA`. */
  method XorBytes(data: array<bv8>, i: nat, size: nat, blockA: array<bv8>)
    requires i >= 1 && 16 * (i - 1) + size <= data.Length && size <= 16 && blockA.Length == 16 && data != blockA
    modifies data
    ensures forall k :: 16 * (i - 1) <= k < 16 * (i - 1) + size ==>
      data[k] == Add(old(data[k]), Aes.Bytes(Aes.BlockAt(blockA[..], 0))[k % 16])
    ensures forall k :: 0 <= k < data.Length && !(16 * (i - 1) <= k < 16 * (i - 1) + size) ==> data[k] == old(data[k])
  {
    hide Add, Aes.Bytes, Aes.BlockAt;
    var offset := 16 * (i - 1);
    Aes.BytesOfBlockAt(blockA[..]);
    for j := 0 to size
      invariant forall k :: offset <= k < offset + j ==> data[k] == Add(old(data[k]), blockA[k - offset])
      invariant forall k :: 0 <= k < data.Length && !(offset <= k < offset + j) ==> data[k] == old(data[k])
    {
      data[offset + j] := Add(data[offset + j], blockA[j]);
    }
    assert forall k :: offset <= k < offset + size ==> k % 16 == k - offset;
  }

  /** Fill `blockA` with A_i and encrypt it: the next sixteen bytes of the key stream. */
  method NextKeyStream(engine: Aes.Engine, blockA: array<bv8>, i: nat, frameCounter: bv32, wide: bool,
                       useNetworkKey: bool, direction: Direction, auth: AuthInfo)
    requires engine.Valid() && auth.Valid() && blockA.Length == 16 && i >= 1
    requires blockA != auth.NwkSKey && blockA != auth.AppSKey && blockA != auth.DevAddr
    modifies engine.State, blockA
    ensures Aes.BlockAt(blockA[..], 0) ==
      KeyStreamBlock(auth.Session(), direction, CounterWord(frameCounter, wide), useNetworkKey, i)
  {
    hide HeaderBlock, CounterWord, Fips197.Cipher, LengthByte, Aes.BlockAt;
    ghost var session := auth.Session();
    FillHeader(blockA, 0x01, direction, auth, frameCounter, wide, LengthByte(i));
    if useNetworkKey {
      engine.Encrypt(blockA, auth.NwkSKey);
    } else {
      engine.Encrypt(blockA, auth.AppSKey);
    }
    assert auth.Session() == session;
  }

  /** Encrypt the first `dataLength` bytes of `data` in place. */
  method EncryptPayload(engine: Aes.Engine, data: array<bv8>, dataLength: nat, frameCounter: bv32, wide: bool,
                        useNetworkKey: bool, direction: Direction, auth: AuthInfo)
    requires engine.Valid() && auth.Valid() && dataLength <= 255 && dataLength <= data.Length
    requires data != auth.NwkSKey && data != auth.AppSKey && data != auth.DevAddr
    modifies engine.State, data
    ensures data[..dataLength] ==
      Encrypted(old(data[..dataLength]), auth.Session(), direction, CounterWord(frameCounter, wide), useNetworkKey)
    ensures data[dataLength..] == old(data[dataLength..])
  {
    hide Add, CounterWord, KeyStreamBlock, AuthInfo.Session, Aes.Bytes, Aes.BlockAt;
    ghost var session, counter := auth.Session(), CounterWord(frameCounter, wide);
    var numberOfBlocks := dataLength / 16;
    var incompleteBlockSize := dataLength % 16;
    if incompleteBlockSize != 0 {
      numberOfBlocks := numberOfBlocks + 1;
    }
    var blockA := new bv8[16];
    var i := 1;
    var position := 0;
    while i <= numberOfBlocks
      modifies engine.State, data, blockA
      invariant 1 <= i <= numberOfBlocks + 1
      invariant position == if i <= numberOfBlocks then 16 * (i - 1) else dataLength
      invariant forall k :: 0 <= k < position ==>
        data[k] == Add(old(data[k]), KeyStream(session, direction, counter, useNetworkKey, k))
      invariant forall k :: position <= k < data.Length ==> data[k] == old(data[k])
    {
      NextKeyStream(engine, blockA, i, frameCounter, wide, useNetworkKey, direction, auth);
      var size := 16;
      if i == numberOfBlocks && incompleteBlockSize != 0 {
        size := incompleteBlockSize;
      }
      XorBytes(data, i, size, blockA);
      assert forall k :: position <= k < position + size ==> k / 16 + 1 == i;
      position := position + size;
      i := i + 1;
    }
  }
}
