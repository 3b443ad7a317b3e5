/**
 AES-CMAC as RFC 4493 defines it: subkeys in section 2.3 over 128-bit strings, the tag in
 section 2.4 over a message of any length.
 */
module Rfc4493 {
  import Fips197
  import Aes

  type Block = Fips197.Block

  const ZERO := Fips197.Block(ZERO_WORD, ZERO_WORD, ZERO_WORD, ZERO_WORD)
  const ZERO_WORD := Fips197.Word(0, 0, 0, 0)

  function XorBlock(a: Block, b: Block): Block {
    Fips197.AddRoundKey(a, b)
  }

  // ---- section 2.3, subkeys ----

  function JoinBytes(a: bv8, b: bv8, c: bv8, d: bv8): bv32 {
    (a as bv32 << 24) | (b as bv32 << 16) | (c as bv32 << 8) | (d as bv32)
  }

  function JoinWords(a: bv32, b: bv32, c: bv32, d: bv32): bv128 {
    (a as bv128 << 96) | (b as bv128 << 64) | (c as bv128 << 32) | (d as bv128)
  }

  function WordBits(w: Fips197.Word): bv32 {
    JoinBytes(w.r0, w.r1, w.r2, w.r3)
  }

  /** The block as a 128-bit string, first byte most significant. */
  function Bits(b: Block): bv128 {
    JoinWords(WordBits(b.c0), WordBits(b.c1), WordBits(b.c2), WordBits(b.c3))
  }

  function Byte(x: bv32, i: bv32): bv8
    requires i <= 3
  {
    ((x >> (8 * (3 - i))) & 0xFF) as bv8
  }

  function SplitBytes(x: bv32): Fips197.Word {
    Fips197.Word(Byte(x, 0), Byte(x, 1), Byte(x, 2), Byte(x, 3))
  }

  function WordOf(x: bv128, i: bv128): bv32
    requires i <= 3
  {
    ((x >> (32 * (3 - i))) & 0xFFFF_FFFF) as bv32
  }

  /** The block with the given bits; the inverse of `Bits`. */
  function FromBits(x: bv128): Block {
    Fips197.Block(SplitBytes(WordOf(x, 0)), SplitBytes(WordOf(x, 1)),
                  SplitBytes(WordOf(x, 2)), SplitBytes(WordOf(x, 3)))
  }

  function ShiftLeft(x: bv128): bv128 {
    x << 1
  }

  /** Add the constant R_128. */
  function AddConstant(x: bv128): bv128 {
    x ^ 0x87
  }

  /** Shift left by one bit; if a one was shifted out, add the constant R_128. */
  function Doubled(x: bv128): bv128 {
    if x >> 127 == 0 then ShiftLeft(x) else AddConstant(ShiftLeft(x))
  }

  function Subkey1(key: Block): Block {
    FromBits(Doubled(Bits(Fips197.Cipher(ZERO, key))))
  }

  function Subkey2(key: Block): Block {
    FromBits(Doubled(Bits(Subkey1(key))))
  }

  // ---- section 2.4, the tag ----

  function BlockCount(m: seq<bv8>): nat {
    if m == [] then 1 else (|m| + 15) / 16
  }

  /** padding(x): a one bit and then zeros up to sixteen bytes. */
  function Padded(tail: seq<bv8>): seq<bv8>
    requires |tail| < 16
    ensures |Padded(tail)| == 16
  {
    tail + [0x80] + seq(15 - |tail|, _ => 0)
  }

  /** The last block, masked with the first subkey if it is complete and with the second if not. */
  function LastBlock(key: Block, m: seq<bv8>): Block {
    var start := 16 * (BlockCount(m) - 1);
    if m != [] && |m| % 16 == 0 then XorBlock(Aes.BlockAt(m, start), Subkey1(key))
    else XorBlock(Aes.BlockAt(Padded(m[start..]), 0), Subkey2(key))
  }

  /** The chaining value after the first `n` blocks. */
  function Chain(key: Block, m: seq<bv8>, n: nat): Block
    requires 16 * n <= |m|
  {
    if n == 0 then ZERO
    else Fips197.Cipher(XorBlock(Chain(key, m, n - 1), Aes.BlockAt(m, 16 * (n - 1))), key)
  }

  /** The tag with the subkeys taken from `subkeyKey`; CMAC proper uses one key for both. */
  function Tag(key: Block, subkeyKey: Block, m: seq<bv8>): Block {
    Fips197.Cipher(XorBlock(LastBlock(subkeyKey, m), Chain(key, m, BlockCount(m) - 1)), key)
  }

  function Cmac(key: Block, m: seq<bv8>): Block {
    Tag(key, key, m)
  }

  // ---- doubling byte by byte ----
  // The lemmas named Raw are facts about single bit-vector expressions; the others combine them
  // with the expressions hidden.

  function ShiftedByte(b: bv8, next: bv8): bv8 {
    (b << 1) | (next >> 7)
  }

  function ShiftedWord(w: Fips197.Word, next: bv8): Fips197.Word {
    Fips197.Word(ShiftedByte(w.r0, w.r1), ShiftedByte(w.r1, w.r2), ShiftedByte(w.r2, w.r3), ShiftedByte(w.r3, next))
  }

  /** Every byte shifted left, each taking in the top bit of the next one. */
  function ShiftedBytes(b: Block): Block {
    Fips197.Block(ShiftedWord(b.c0, b.c1.r0), ShiftedWord(b.c1, b.c2.r0),
                  ShiftedWord(b.c2, b.c3.r0), ShiftedWord(b.c3, 0))
  }

  function ShiftIn(x: bv32, next: bv32): bv32 {
    (x << 1) | (next >> 31)
  }

  lemma RawShiftBytes(a: bv8, b: bv8, c: bv8, d: bv8, e: bv8, f: bv8, g: bv8, h: bv8)
    ensures JoinBytes(ShiftedByte(a, b), ShiftedByte(b, c), ShiftedByte(c, d), ShiftedByte(d, e))
         == ShiftIn(JoinBytes(a, b, c, d), JoinBytes(e, f, g, h))
  {
    assert (((a << 1) | (b >> 7)) as bv32 << 24) | (((b << 1) | (c >> 7)) as bv32 << 16) |
           (((c << 1) | (d >> 7)) as bv32 << 8) | (((d << 1) | (e >> 7)) as bv32)
        == (((a as bv32 << 24) | (b as bv32 << 16) | (c as bv32 << 8) | (d as bv32)) << 1)
         | (((e as bv32 << 24) | (f as bv32 << 16) | (g as bv32 << 8) | (h as bv32)) >> 31);
  }

  lemma RawShiftWords(a: bv32, b: bv32, c: bv32, d: bv32)
    ensures JoinWords(ShiftIn(a, b), ShiftIn(b, c), ShiftIn(c, d), ShiftIn(d, 0)) == ShiftLeft(JoinWords(a, b, c, d))
  {
    calc {
      JoinWords(ShiftIn(a, b), ShiftIn(b, c), ShiftIn(c, d), ShiftIn(d, 0));
    ==
      JoinWords((a << 1) | (b >> 31), (b << 1) | (c >> 31), (c << 1) | (d >> 31), (d << 1) | ((0 as bv32) >> 31));
    ==
      (((a << 1) | (b >> 31)) as bv128 << 96) | (((b << 1) | (c >> 31)) as bv128 << 64) |
      (((c << 1) | (d >> 31)) as bv128 << 32) | (((d << 1) | ((0 as bv32) >> 31)) as bv128);
    ==
      ((a as bv128 << 96) | (b as bv128 << 64) | (c as bv128 << 32) | (d as bv128)) << 1;
    ==
      ShiftLeft((a as bv128 << 96) | (b as bv128 << 64) | (c as bv128 << 32) | (d as bv128));
    ==
      ShiftLeft(JoinWords(a, b, c, d));
    }
  }

  lemma RawByte0(a: bv8, b: bv8, c: bv8, d: bv8)
    ensures Byte(JoinBytes(a, b, c, d), 0) == a
  {
    assert ((((a as bv32 << 24) | (b as bv32 << 16) | (c as bv32 << 8) | (d as bv32)) >> 24) & 0xFF) as bv8 == a;
  }

  lemma RawByte1(a: bv8, b: bv8, c: bv8, d: bv8)
    ensures Byte(JoinBytes(a, b, c, d), 1) == b
  {
    assert ((((a as bv32 << 24) | (b as bv32 << 16) | (c as bv32 << 8) | (d as bv32)) >> 16) & 0xFF) as bv8 == b;
  }

  lemma RawByte2(a: bv8, b: bv8, c: bv8, d: bv8)
    ensures Byte(JoinBytes(a, b, c, d), 2) == c
  {
    assert ((((a as bv32 << 24) | (b as bv32 << 16) | (c as bv32 << 8) | (d as bv32)) >> 8) & 0xFF) as bv8 == c;
  }

  lemma RawByte3(a: bv8, b: bv8, c: bv8, d: bv8)
    ensures Byte(JoinBytes(a, b, c, d), 3) == d
  {
    assert ((((a as bv32 << 24) | (b as bv32 << 16) | (c as bv32 << 8) | (d as bv32)) >> 0) & 0xFF) as bv8 == d;
  }

  lemma RawWord0(a: bv32, b: bv32, c: bv32, d: bv32)
    ensures WordOf(JoinWords(a, b, c, d), 0) == a
  {
    assert ((((a as bv128 << 96) | (b as bv128 << 64) | (c as bv128 << 32) | (d as bv128)) >> 96) & 0xFFFF_FFFF)
        as bv32 == a;
  }

  lemma RawWord1(a: bv32, b: bv32, c: bv32, d: bv32)
    ensures WordOf(JoinWords(a, b, c, d), 1) == b
  {
    assert ((((a as bv128 << 96) | (b as bv128 << 64) | (c as bv128 << 32) | (d as bv128)) >> 64) & 0xFFFF_FFFF)
        as bv32 == b;
  }

  lemma RawWord2(a: bv32, b: bv32, c: bv32, d: bv32)
    ensures WordOf(JoinWords(a, b, c, d), 2) == c
  {
    assert ((((a as bv128 << 96) | (b as bv128 << 64) | (c as bv128 << 32) | (d as bv128)) >> 32) & 0xFFFF_FFFF)
        as bv32 == c;
  }

  lemma RawWord3(a: bv32, b: bv32, c: bv32, d: bv32)
    ensures WordOf(JoinWords(a, b, c, d), 3) == d
  {
    assert ((((a as bv128 << 96) | (b as bv128 << 64) | (c as bv128 << 32) | (d as bv128)) >> 0) & 0xFFFF_FFFF)
        as bv32 == d;
  }

  function AddConstantWord(x: bv32): bv32 {
    x ^ 0x87
  }

  lemma RawAddConstantWord(a: bv8, b: bv8, c: bv8, d: bv8)
    ensures JoinBytes(a, b, c, d ^ 0x87) == AddConstantWord(JoinBytes(a, b, c, d))
  {
    assert (a as bv32 << 24) | (b as bv32 << 16) | (c as bv32 << 8) | ((d ^ 0x87) as bv32)
        == ((a as bv32 << 24) | (b as bv32 << 16) | (c as bv32 << 8) | (d as bv32)) ^ 0x87;
  }

  lemma RawAddConstant(a: bv32, b: bv32, c: bv32, d: bv32)
    ensures JoinWords(a, b, c, AddConstantWord(d)) == AddConstant(JoinWords(a, b, c, d))
  {
    assert (a as bv128 << 96) | (b as bv128 << 64) | (c as bv128 << 32) | ((d ^ 0x87) as bv128)
        == ((a as bv128 << 96) | (b as bv128 << 64) | (c as bv128 << 32) | (d as bv128)) ^ 0x87;
  }

  lemma RawTopBit(a: bv8, b: bv8, c: bv8, d: bv8, x: bv32, y: bv32, z: bv32)
    ensures JoinWords(JoinBytes(a, b, c, d), x, y, z) >> 127 == 0 <==> a & 0x80 != 0x80
  {
    var bits := (((a as bv32 << 24) | (b as bv32 << 16) | (c as bv32 << 8) | (d as bv32)) as bv128 << 96)
              | (x as bv128 << 64) | (y as bv128 << 32) | (z as bv128);
    assert bits >> 127 == 0 <==> a & 0x80 != 0x80;
  }

  lemma ShiftedWordIsShift(w: Fips197.Word, next: Fips197.Word)
    ensures WordBits(ShiftedWord(w, next.r0)) == ShiftIn(WordBits(w), WordBits(next))
  {
    hide JoinBytes, ShiftedByte, ShiftIn;
    RawShiftBytes(w.r0, w.r1, w.r2, w.r3, next.r0, next.r1, next.r2, next.r3);
  }

  lemma ZeroWordBits()
    ensures WordBits(ZERO_WORD) == 0
  {
  }

  /** Shifting byte by byte is one shift of the 128-bit string. */
  lemma ShiftedBytesIsShift(b: Block)
    ensures Bits(ShiftedBytes(b)) == ShiftLeft(Bits(b))
  {
    hide JoinWords, WordBits, ShiftedWord, ShiftIn, ShiftLeft;
    ShiftedWordIsShift(b.c0, b.c1);
    ShiftedWordIsShift(b.c1, b.c2);
    ShiftedWordIsShift(b.c2, b.c3);
    ShiftedWordIsShift(b.c3, ZERO_WORD);
    ZeroWordBits();
    RawShiftWords(WordBits(b.c0), WordBits(b.c1), WordBits(b.c2), WordBits(b.c3));
  }

  lemma SplitBytesOfWordBits(w: Fips197.Word)
    ensures SplitBytes(WordBits(w)) == w
  {
    hide JoinBytes, Byte;
    RawByte0(w.r0, w.r1, w.r2, w.r3);
    RawByte1(w.r0, w.r1, w.r2, w.r3);
    RawByte2(w.r0, w.r1, w.r2, w.r3);
    RawByte3(w.r0, w.r1, w.r2, w.r3);
  }

  lemma FromBitsOfBits(b: Block)
    ensures FromBits(Bits(b)) == b
  {
    hide JoinWords, WordBits, SplitBytes, WordOf;
    RawWord0(WordBits(b.c0), WordBits(b.c1), WordBits(b.c2), WordBits(b.c3));
    RawWord1(WordBits(b.c0), WordBits(b.c1), WordBits(b.c2), WordBits(b.c3));
    RawWord2(WordBits(b.c0), WordBits(b.c1), WordBits(b.c2), WordBits(b.c3));
    RawWord3(WordBits(b.c0), WordBits(b.c1), WordBits(b.c2), WordBits(b.c3));
    SplitBytesOfWordBits(b.c0);
    SplitBytesOfWordBits(b.c1);
    SplitBytesOfWordBits(b.c2);
    SplitBytesOfWordBits(b.c3);
  }

  function LastByteMasked(b: Block): Block {
    b.(c3 := b.c3.(r3 := b.c3.r3 ^ 0x87))
  }

  lemma LastByteMaskedBits(b: Block)
    ensures Bits(LastByteMasked(b)) == AddConstant(Bits(b))
  {
    hide JoinWords, JoinBytes, AddConstant, AddConstantWord;
    RawAddConstantWord(b.c3.r0, b.c3.r1, b.c3.r2, b.c3.r3);
    RawAddConstant(WordBits(b.c0), WordBits(b.c1), WordBits(b.c2), WordBits(b.c3));
  }

  lemma TopBit(b: Block)
    ensures Bits(b) >> 127 == 0 <==> b.c0.r0 & 0x80 != 0x80
  {
    hide JoinWords, JoinBytes;
    RawTopBit(b.c0.r0, b.c0.r1, b.c0.r2, b.c0.r3, WordBits(b.c1), WordBits(b.c2), WordBits(b.c3));
  }

  /** Shifting the bytes and, if the first bit was set, masking the last byte with 0x87 doubles the block. */
  lemma DoubledByBytes(b: Block)
    ensures FromBits(Doubled(Bits(b))) ==
      (if b.c0.r0 & 0x80 == 0x80 then LastByteMasked(ShiftedBytes(b)) else ShiftedBytes(b))
  {
    hide Bits, FromBits, ShiftLeft, AddConstant, ShiftedBytes, LastByteMasked;
    ShiftedBytesIsShift(b);
    LastByteMaskedBits(ShiftedBytes(b));
    FromBitsOfBits(ShiftedBytes(b));
    FromBitsOfBits(LastByteMasked(ShiftedBytes(b)));
    TopBit(b);
  }
}
