/**
 FIPS 197 for a 128-bit key (Nk = 4, Nr = 10): the cipher of section 5.1, the key expansion of
 section 5.2 and the inverse cipher of section 5.3, over column-structured blocks.  This is the
 reference that the in-place code of module Aes is proved against.
 */
module Fips197 {
  import opened GaloisField
  import opened SBox

  /** A column of the state, and equally a word of the key schedule: byte `r` is row `r`. */
  datatype Word = Word(r0: bv8, r1: bv8, r2: bv8, r3: bv8)

  /** The state: column `c` holds input bytes 4c to 4c + 3. */
  datatype Block = Block(c0: Word, c1: Word, c2: Word, c3: Word)

  const NR: nat := 10

  // ---- section 5.2, key expansion ----

  function XorWord(a: Word, b: Word): Word {
    Word(Add(a.r0, b.r0), Add(a.r1, b.r1), Add(a.r2, b.r2), Add(a.r3, b.r3))
  }

  function SubWord(w: Word): Word {
    Word(SubByte(w.r0), SubByte(w.r1), SubByte(w.r2), SubByte(w.r3))
  }

  function RotWord(w: Word): Word {
    Word(w.r1, w.r2, w.r3, w.r0)
  }

  function Rcon(i: nat): Word
    requires i > 0
  {
    Word(XPower(i - 1), 0, 0, 0)
  }

  /** Word `i` of the expanded key. */
  function KeyWord(key: Block, i: nat): Word {
    if i == 0 then key.c0
    else if i == 1 then key.c1
    else if i == 2 then key.c2
    else if i == 3 then key.c3
    else if i % 4 == 0 then XorWord(KeyWord(key, i - 4), XorWord(SubWord(RotWord(KeyWord(key, i - 1))), Rcon(i / 4)))
    else XorWord(KeyWord(key, i - 4), KeyWord(key, i - 1))
  }

  /** Words 4r to 4r + 3, the key that AddRoundKey uses in round `r`. */
  function RoundKey(key: Block, round: nat): Block {
    Block(KeyWord(key, 4 * round), KeyWord(key, 4 * round + 1),
          KeyWord(key, 4 * round + 2), KeyWord(key, 4 * round + 3))
  }

  /** One round key from the one before it: the recurrence of KeyWord for four words at once. */
  function NextRoundKey(k: Block, round: nat): Block
    requires round >= 1
  {
    var w0 := XorWord(k.c0, XorWord(SubWord(RotWord(k.c3)), Rcon(round)));
    var w1 := XorWord(k.c1, w0);
    var w2 := XorWord(k.c2, w1);
    Block(w0, w1, w2, XorWord(k.c3, w2))
  }

  lemma FirstRoundKey(key: Block)
    ensures RoundKey(key, 0) == key
  {
  }

  /** The round key computed on the fly is the next four words of the expanded key. */
  lemma RoundKeyStep(key: Block, round: nat)
    requires round >= 1
    ensures RoundKey(key, round) == NextRoundKey(RoundKey(key, round - 1), round)
  {
    hide XorWord, SubWord, RotWord, Rcon;
    var i := 4 * round;
    assert i % 4 == 0 && (i + 1) % 4 == 1 && (i + 2) % 4 == 2 && (i + 3) % 4 == 3;
  }

  // ---- section 5.1, the transformations ----

  function AddRoundKey(s: Block, k: Block): Block {
    Block(XorWord(s.c0, k.c0), XorWord(s.c1, k.c1), XorWord(s.c2, k.c2), XorWord(s.c3, k.c3))
  }

  function SubBytes(s: Block): Block {
    Block(SubWord(s.c0), SubWord(s.c1), SubWord(s.c2), SubWord(s.c3))
  }

  /** Row `r` is rotated left by `r` positions. */
  function ShiftRows(s: Block): Block {
    Block(Word(s.c0.r0, s.c1.r1, s.c2.r2, s.c3.r3), Word(s.c1.r0, s.c2.r1, s.c3.r2, s.c0.r3),
          Word(s.c2.r0, s.c3.r1, s.c0.r2, s.c1.r3), Word(s.c3.r0, s.c0.r1, s.c1.r2, s.c2.r3))
  }

  /** A row of the circulant matrix product: coefficients `a`, `b`, `c`, `d` against one column. */
  function Dot(w: Word, a: bv8, b: bv8, c: bv8, d: bv8): bv8 {
    Sum4(Mul(w.r0, a), Mul(w.r1, b), Mul(w.r2, c), Mul(w.r3, d))
  }

  function MixColumn(w: Word): Word {
    Word(Dot(w, 2, 3, 1, 1), Dot(w, 1, 2, 3, 1), Dot(w, 1, 1, 2, 3), Dot(w, 3, 1, 1, 2))
  }

  function MixColumns(s: Block): Block {
    Block(MixColumn(s.c0), MixColumn(s.c1), MixColumn(s.c2), MixColumn(s.c3))
  }

  function FullRound(s: Block, roundKey: Block): Block {
    AddRoundKey(MixColumns(ShiftRows(SubBytes(s))), roundKey)
  }

  /** The state after the initial key addition and `n` full rounds. */
  function Rounds(block: Block, key: Block, n: nat): Block {
    if n == 0 then AddRoundKey(block, RoundKey(key, 0))
    else FullRound(Rounds(block, key, n - 1), RoundKey(key, n))
  }

  function Cipher(block: Block, key: Block): Block {
    AddRoundKey(ShiftRows(SubBytes(Rounds(block, key, NR - 1))), RoundKey(key, NR))
  }

  // ---- section 5.3, the inverse cipher ----

  function InvSubWord(w: Word): Word {
    Word(InvSubByte(w.r0), InvSubByte(w.r1), InvSubByte(w.r2), InvSubByte(w.r3))
  }

  function InvSubBytes(s: Block): Block {
    Block(InvSubWord(s.c0), InvSubWord(s.c1), InvSubWord(s.c2), InvSubWord(s.c3))
  }

  function InvShiftRows(s: Block): Block {
    Block(Word(s.c0.r0, s.c3.r1, s.c2.r2, s.c1.r3), Word(s.c1.r0, s.c0.r1, s.c3.r2, s.c2.r3),
          Word(s.c2.r0, s.c1.r1, s.c0.r2, s.c3.r3), Word(s.c3.r0, s.c2.r1, s.c1.r2, s.c0.r3))
  }

  function InvMixColumn(w: Word): Word {
    Word(Dot(w, 0x0E, 0x0B, 0x0D, 0x09), Dot(w, 0x09, 0x0E, 0x0B, 0x0D),
         Dot(w, 0x0D, 0x09, 0x0E, 0x0B), Dot(w, 0x0B, 0x0D, 0x09, 0x0E))
  }

  function InvMixColumns(s: Block): Block {
    Block(InvMixColumn(s.c0), InvMixColumn(s.c1), InvMixColumn(s.c2), InvMixColumn(s.c3))
  }

  /** Undo `n` full rounds and the initial key addition. */
  function InvRounds(s: Block, key: Block, n: nat): Block
    decreases n
  {
    if n == 0 then AddRoundKey(s, RoundKey(key, 0))
    else
      InvRounds(InvSubBytes(InvShiftRows(InvMixColumns(AddRoundKey(s, RoundKey(key, n))))), key, n - 1)
  }

  function InvCipher(block: Block, key: Block): Block {
    InvRounds(InvSubBytes(InvShiftRows(AddRoundKey(block, RoundKey(key, NR)))), key, NR - 1)
  }

  // ---- each step is undone by its inverse ----

  lemma XorWordTwice(a: Word, b: Word)
    ensures XorWord(XorWord(a, b), b) == a
  {
    hide Add;
    AddProperties(a.r0, b.r0);
    AddProperties(a.r1, b.r1);
    AddProperties(a.r2, b.r2);
    AddProperties(a.r3, b.r3);
  }

  lemma AddRoundKeyTwice(s: Block, k: Block)
    ensures AddRoundKey(AddRoundKey(s, k), k) == s
  {
    hide XorWord;
    XorWordTwice(s.c0, k.c0);
    XorWordTwice(s.c1, k.c1);
    XorWordTwice(s.c2, k.c2);
    XorWordTwice(s.c3, k.c3);
  }

  lemma ShiftRowsRoundTrip(s: Block)
    ensures InvShiftRows(ShiftRows(s)) == s
    ensures ShiftRows(InvShiftRows(s)) == s
  {
  }

  lemma SubWordRoundTrip(w: Word)
    ensures InvSubWord(SubWord(w)) == w
    ensures SubWord(InvSubWord(w)) == w
  {
    hide SubByte, InvSubByte;
    SubByteRoundTrip(w.r0);
    SubByteRoundTrip(w.r1);
    SubByteRoundTrip(w.r2);
    SubByteRoundTrip(w.r3);
  }

  lemma SubBytesRoundTrip(s: Block)
    ensures InvSubBytes(SubBytes(s)) == s
    ensures SubBytes(InvSubBytes(s)) == s
  {
    hide SubWord, InvSubWord;
    SubWordRoundTrip(s.c0);
    SubWordRoundTrip(s.c1);
    SubWordRoundTrip(s.c2);
    SubWordRoundTrip(s.c3);
  }

  lemma Sum4Rotated(a: bv8, b: bv8, c: bv8, d: bv8)
    ensures Sum4(a, b, c, d) == Sum4(b, c, d, a)
  {
    hide Add;
    AddProperties(Add(a, b), Add(c, d));
    AddProperties(a, b);
    AddProperties(d, a);
    MiddleFour(b, a, c, d);
  }

  lemma DotRotated(w: Word, a: bv8, b: bv8, c: bv8, d: bv8)
    ensures Dot(RotWord(w), b, c, d, a) == Dot(w, a, b, c, d)
  {
    hide Mul, Sum4;
    Sum4Rotated(Mul(w.r0, a), Mul(w.r1, b), Mul(w.r2, c), Mul(w.r3, d));
  }

  /** Rotating a column commutes with both column mixes, so one row proves all four. */
  lemma MixColumnRotated(w: Word)
    ensures MixColumn(RotWord(w)) == RotWord(MixColumn(w))
    ensures InvMixColumn(RotWord(w)) == RotWord(InvMixColumn(w))
  {
    hide Dot;
    DotRotated(w, 1, 2, 3, 1);
    DotRotated(w, 1, 1, 2, 3);
    DotRotated(w, 3, 1, 1, 2);
    DotRotated(w, 2, 3, 1, 1);
    DotRotated(w, 0x09, 0x0E, 0x0B, 0x0D);
    DotRotated(w, 0x0D, 0x09, 0x0E, 0x0B);
    DotRotated(w, 0x0B, 0x0D, 0x09, 0x0E);
    DotRotated(w, 0x0E, 0x0B, 0x0D, 0x09);
  }

  lemma MixColumnFirstByte(w: Word)
    ensures InvMixColumn(MixColumn(w)).r0 == w.r0
    ensures MixColumn(InvMixColumn(w)).r0 == w.r0
  {
    hide Mul, Sum4;
    UnmixFirstByte(w.r0, w.r1, w.r2, w.r3);
    RemixFirstByte(w.r0, w.r1, w.r2, w.r3);
  }

  lemma MixColumnRoundTrip(w: Word)
    ensures InvMixColumn(MixColumn(w)) == w
    ensures MixColumn(InvMixColumn(w)) == w
  {
    hide MixColumn, InvMixColumn;
    var w1 := RotWord(w);
    var w2 := RotWord(w1);
    var w3 := RotWord(w2);
    MixColumnFirstByte(w);
    MixColumnFirstByte(w1);
    MixColumnFirstByte(w2);
    MixColumnFirstByte(w3);
    MixColumnRotated(w);
    MixColumnRotated(w1);
    MixColumnRotated(w2);
    MixColumnRotated(MixColumn(w));
    MixColumnRotated(RotWord(MixColumn(w)));
    MixColumnRotated(RotWord(RotWord(MixColumn(w))));
    MixColumnRotated(InvMixColumn(w));
    MixColumnRotated(RotWord(InvMixColumn(w)));
    MixColumnRotated(RotWord(RotWord(InvMixColumn(w))));
  }

  lemma MixColumnsRoundTrip(s: Block)
    ensures InvMixColumns(MixColumns(s)) == s
    ensures MixColumns(InvMixColumns(s)) == s
  {
    hide MixColumn, InvMixColumn;
    MixColumnRoundTrip(s.c0);
    MixColumnRoundTrip(s.c1);
    MixColumnRoundTrip(s.c2);
    MixColumnRoundTrip(s.c3);
  }

  // ---- the ciphers are inverse to each other ----

  lemma FullRoundUndone(s: Block, k: Block)
    ensures InvSubBytes(InvShiftRows(InvMixColumns(AddRoundKey(FullRound(s, k), k)))) == s
  {
    hide AddRoundKey, MixColumns, InvMixColumns, ShiftRows, InvShiftRows, SubBytes, InvSubBytes;
    AddRoundKeyTwice(MixColumns(ShiftRows(SubBytes(s))), k);
    MixColumnsRoundTrip(ShiftRows(SubBytes(s)));
    ShiftRowsRoundTrip(SubBytes(s));
    SubBytesRoundTrip(s);
  }

  lemma FullRoundRedone(s: Block, k: Block)
    ensures FullRound(InvSubBytes(InvShiftRows(InvMixColumns(AddRoundKey(s, k)))), k) == s
  {
    hide AddRoundKey, MixColumns, InvMixColumns, ShiftRows, InvShiftRows, SubBytes, InvSubBytes;
    var mixed := AddRoundKey(s, k);
    SubBytesRoundTrip(InvShiftRows(InvMixColumns(mixed)));
    ShiftRowsRoundTrip(InvMixColumns(mixed));
    MixColumnsRoundTrip(mixed);
    AddRoundKeyTwice(s, k);
  }

  lemma {:induction false} RoundsUndone(block: Block, key: Block, n: nat)
    ensures InvRounds(Rounds(block, key, n), key, n) == block
  {
    hide AddRoundKey, MixColumns, InvMixColumns, ShiftRows, InvShiftRows, SubBytes, InvSubBytes, FullRound, RoundKey;
    if n == 0 {
      AddRoundKeyTwice(block, RoundKey(key, 0));
    } else {
      FullRoundUndone(Rounds(block, key, n - 1), RoundKey(key, n));
      RoundsUndone(block, key, n - 1);
    }
  }

  lemma {:induction false} RoundsRedone(s: Block, key: Block, n: nat)
    ensures Rounds(InvRounds(s, key, n), key, n) == s
    decreases n
  {
    hide AddRoundKey, MixColumns, InvMixColumns, ShiftRows, InvShiftRows, SubBytes, InvSubBytes, FullRound, RoundKey;
    if n == 0 {
      AddRoundKeyTwice(s, RoundKey(key, 0));
    } else {
      FullRoundRedone(s, RoundKey(key, n));
      RoundsRedone(InvSubBytes(InvShiftRows(InvMixColumns(AddRoundKey(s, RoundKey(key, n))))), key, n - 1);
    }
  }

  /** For every key, the cipher is a bijection on blocks, with the inverse cipher as its inverse. */
  lemma CipherBijective(block: Block, key: Block)
    ensures InvCipher(Cipher(block, key), key) == block
    ensures Cipher(InvCipher(block, key), key) == block
  {
    hide AddRoundKey, ShiftRows, InvShiftRows, SubBytes, InvSubBytes, Rounds, InvRounds, RoundKey;
    var k := RoundKey(key, NR);
    var s := Rounds(block, key, NR - 1);
    AddRoundKeyTwice(ShiftRows(SubBytes(s)), k);
    ShiftRowsRoundTrip(SubBytes(s));
    SubBytesRoundTrip(s);
    RoundsUndone(block, key, NR - 1);

    var t := AddRoundKey(block, k);
    RoundsRedone(InvSubBytes(InvShiftRows(t)), key, NR - 1);
    SubBytesRoundTrip(InvShiftRows(t));
    ShiftRowsRoundTrip(t);
    AddRoundKeyTwice(block, k);
  }
}
