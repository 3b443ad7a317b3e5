/**
 An AES-CMAC of RFC 4493 section 4, evaluated.  It ties the definitions of FIPS 197 and RFC 4493 down
 byte by byte.
 */
module KnownAnswers {
  import opened GaloisField
  import opened SBox
  import opened Fips197
  import Aes
  import Rfc4493

  /** A block written as four words of hexadecimal digits. */
  function Hex(a: bv32, b: bv32, c: bv32, d: bv32): Block {
    Block(Rfc4493.SplitBytes(a), Rfc4493.SplitBytes(b), Rfc4493.SplitBytes(c), Rfc4493.SplitBytes(d))
  }

  // ---- steps that are easy to evaluate ----

  lemma SubRows0()
    ensures SubByte(0x00) == 0x63 && SubByte(0x01) == 0x7C && SubByte(0x02) == 0x77 && SubByte(0x03) == 0x7B
    ensures SubByte(0x04) == 0xF2 && SubByte(0x05) == 0x6B && SubByte(0x06) == 0x6F && SubByte(0x07) == 0xC5
    ensures SubByte(0x08) == 0x30 && SubByte(0x09) == 0x01 && SubByte(0x0A) == 0x67 && SubByte(0x0B) == 0x2B
    ensures SubByte(0x0C) == 0xFE && SubByte(0x0D) == 0xD7 && SubByte(0x0E) == 0xAB && SubByte(0x0F) == 0x76
    ensures SubByte(0x10) == 0xCA && SubByte(0x11) == 0x82 && SubByte(0x12) == 0xC9 && SubByte(0x13) == 0x7D
    ensures SubByte(0x14) == 0xFA && SubByte(0x15) == 0x59 && SubByte(0x16) == 0x47 && SubByte(0x17) == 0xF0
    ensures SubByte(0x18) == 0xAD && SubByte(0x19) == 0xD4 && SubByte(0x1A) == 0xA2 && SubByte(0x1B) == 0xAF
    ensures SubByte(0x1C) == 0x9C && SubByte(0x1D) == 0xA4 && SubByte(0x1E) == 0x72 && SubByte(0x1F) == 0xC0
  {
  }

  lemma SubRows1()
    ensures SubByte(0x20) == 0xB7 && SubByte(0x21) == 0xFD && SubByte(0x22) == 0x93 && SubByte(0x23) == 0x26
    ensures SubByte(0x24) == 0x36 && SubByte(0x25) == 0x3F && SubByte(0x26) == 0xF7 && SubByte(0x27) == 0xCC
    ensures SubByte(0x28) == 0x34 && SubByte(0x29) == 0xA5 && SubByte(0x2A) == 0xE5 && SubByte(0x2B) == 0xF1
    ensures SubByte(0x2C) == 0x71 && SubByte(0x2D) == 0xD8 && SubByte(0x2E) == 0x31 && SubByte(0x2F) == 0x15
    ensures SubByte(0x30) == 0x04 && SubByte(0x31) == 0xC7 && SubByte(0x32) == 0x23 && SubByte(0x33) == 0xC3
    ensures SubByte(0x34) == 0x18 && SubByte(0x35) == 0x96 && SubByte(0x36) == 0x05 && SubByte(0x37) == 0x9A
    ensures SubByte(0x38) == 0x07 && SubByte(0x39) == 0x12 && SubByte(0x3A) == 0x80 && SubByte(0x3B) == 0xE2
    ensures SubByte(0x3C) == 0xEB && SubByte(0x3D) == 0x27 && SubByte(0x3E) == 0xB2 && SubByte(0x3F) == 0x75
  {
  }

  lemma SubRows2()
    ensures SubByte(0x40) == 0x09 && SubByte(0x41) == 0x83 && SubByte(0x42) == 0x2C && SubByte(0x43) == 0x1A
    ensures SubByte(0x44) == 0x1B && SubByte(0x45) == 0x6E && SubByte(0x46) == 0x5A && SubByte(0x47) == 0xA0
    ensures SubByte(0x48) == 0x52 && SubByte(0x49) == 0x3B && SubByte(0x4A) == 0xD6 && SubByte(0x4B) == 0xB3
    ensures SubByte(0x4C) == 0x29 && SubByte(0x4D) == 0xE3 && SubByte(0x4E) == 0x2F && SubByte(0x4F) == 0x84
    ensures SubByte(0x50) == 0x53 && SubByte(0x51) == 0xD1 && SubByte(0x52) == 0x00 && SubByte(0x53) == 0xED
    ensures SubByte(0x54) == 0x20 && SubByte(0x55) == 0xFC && SubByte(0x56) == 0xB1 && SubByte(0x57) == 0x5B
    ensures SubByte(0x58) == 0x6A && SubByte(0x59) == 0xCB && SubByte(0x5A) == 0xBE && SubByte(0x5B) == 0x39
    ensures SubByte(0x5C) == 0x4A && SubByte(0x5D) == 0x4C && SubByte(0x5E) == 0x58 && SubByte(0x5F) == 0xCF
  {
  }

  lemma SubRows3()
    ensures SubByte(0x60) == 0xD0 && SubByte(0x61) == 0xEF && SubByte(0x62) == 0xAA && SubByte(0x63) == 0xFB
    ensures SubByte(0x64) == 0x43 && SubByte(0x65) == 0x4D && SubByte(0x66) == 0x33 && SubByte(0x67) == 0x85
    ensures SubByte(0x68) == 0x45 && SubByte(0x69) == 0xF9 && SubByte(0x6A) == 0x02 && SubByte(0x6B) == 0x7F
    ensures SubByte(0x6C) == 0x50 && SubByte(0x6D) == 0x3C && SubByte(0x6E) == 0x9F && SubByte(0x6F) == 0xA8
    ensures SubByte(0x70) == 0x51 && SubByte(0x71) == 0xA3 && SubByte(0x72) == 0x40 && SubByte(0x73) == 0x8F
    ensures SubByte(0x74) == 0x92 && SubByte(0x75) == 0x9D && SubByte(0x76) == 0x38 && SubByte(0x77) == 0xF5
    ensures SubByte(0x78) == 0xBC && SubByte(0x79) == 0xB6 && SubByte(0x7A) == 0xDA && SubByte(0x7B) == 0x21
    ensures SubByte(0x7C) == 0x10 && SubByte(0x7D) == 0xFF && SubByte(0x7E) == 0xF3 && SubByte(0x7F) == 0xD2
  {
  }

  lemma SubRows4()
    ensures SubByte(0x80) == 0xCD && SubByte(0x81) == 0x0C && SubByte(0x82) == 0x13 && SubByte(0x83) == 0xEC
    ensures SubByte(0x84) == 0x5F && SubByte(0x85) == 0x97 && SubByte(0x86) == 0x44 && SubByte(0x87) == 0x17
    ensures SubByte(0x88) == 0xC4 && SubByte(0x89) == 0xA7 && SubByte(0x8A) == 0x7E && SubByte(0x8B) == 0x3D
    ensures SubByte(0x8C) == 0x64 && SubByte(0x8D) == 0x5D && SubByte(0x8E) == 0x19 && SubByte(0x8F) == 0x73
    ensures SubByte(0x90) == 0x60 && SubByte(0x91) == 0x81 && SubByte(0x92) == 0x4F && SubByte(0x93) == 0xDC
    ensures SubByte(0x94) == 0x22 && SubByte(0x95) == 0x2A && SubByte(0x96) == 0x90 && SubByte(0x97) == 0x88
    ensures SubByte(0x98) == 0x46 && SubByte(0x99) == 0xEE && SubByte(0x9A) == 0xB8 && SubByte(0x9B) == 0x14
    ensures SubByte(0x9C) == 0xDE && SubByte(0x9D) == 0x5E && SubByte(0x9E) == 0x0B && SubByte(0x9F) == 0xDB
  {
  }

  lemma SubRows5()
    ensures SubByte(0xA0) == 0xE0 && SubByte(0xA1) == 0x32 && SubByte(0xA2) == 0x3A && SubByte(0xA3) == 0x0A
    ensures SubByte(0xA4) == 0x49 && SubByte(0xA5) == 0x06 && SubByte(0xA6) == 0x24 && SubByte(0xA7) == 0x5C
    ensures SubByte(0xA8) == 0xC2 && SubByte(0xA9) == 0xD3 && SubByte(0xAA) == 0xAC && SubByte(0xAB) == 0x62
    ensures SubByte(0xAC) == 0x91 && SubByte(0xAD) == 0x95 && SubByte(0xAE) == 0xE4 && SubByte(0xAF) == 0x79
    ensures SubByte(0xB0) == 0xE7 && SubByte(0xB1) == 0xC8 && SubByte(0xB2) == 0x37 && SubByte(0xB3) == 0x6D
    ensures SubByte(0xB4) == 0x8D && SubByte(0xB5) == 0xD5 && SubByte(0xB6) == 0x4E && SubByte(0xB7) == 0xA9
    ensures SubByte(0xB8) == 0x6C && SubByte(0xB9) == 0x56 && SubByte(0xBA) == 0xF4 && SubByte(0xBB) == 0xEA
    ensures SubByte(0xBC) == 0x65 && SubByte(0xBD) == 0x7A && SubByte(0xBE) == 0xAE && SubByte(0xBF) == 0x08
  {
  }

  lemma SubRows6()
    ensures SubByte(0xC0) == 0xBA && SubByte(0xC1) == 0x78 && SubByte(0xC2) == 0x25 && SubByte(0xC3) == 0x2E
    ensures SubByte(0xC4) == 0x1C && SubByte(0xC5) == 0xA6 && SubByte(0xC6) == 0xB4 && SubByte(0xC7) == 0xC6
    ensures SubByte(0xC8) == 0xE8 && SubByte(0xC9) == 0xDD && SubByte(0xCA) == 0x74 && SubByte(0xCB) == 0x1F
    ensures SubByte(0xCC) == 0x4B && SubByte(0xCD) == 0xBD && SubByte(0xCE) == 0x8B && SubByte(0xCF) == 0x8A
    ensures SubByte(0xD0) == 0x70 && SubByte(0xD1) == 0x3E && SubByte(0xD2) == 0xB5 && SubByte(0xD3) == 0x66
    ensures SubByte(0xD4) == 0x48 && SubByte(0xD5) == 0x03 && SubByte(0xD6) == 0xF6 && SubByte(0xD7) == 0x0E
    ensures SubByte(0xD8) == 0x61 && SubByte(0xD9) == 0x35 && SubByte(0xDA) == 0x57 && SubByte(0xDB) == 0xB9
    ensures SubByte(0xDC) == 0x86 && SubByte(0xDD) == 0xC1 && SubByte(0xDE) == 0x1D && SubByte(0xDF) == 0x9E
  {
  }

  lemma SubRows7()
    ensures SubByte(0xE0) == 0xE1 && SubByte(0xE1) == 0xF8 && SubByte(0xE2) == 0x98 && SubByte(0xE3) == 0x11
    ensures SubByte(0xE4) == 0x69 && SubByte(0xE5) == 0xD9 && SubByte(0xE6) == 0x8E && SubByte(0xE7) == 0x94
    ensures SubByte(0xE8) == 0x9B && SubByte(0xE9) == 0x1E && SubByte(0xEA) == 0x87 && SubByte(0xEB) == 0xE9
    ensures SubByte(0xEC) == 0xCE && SubByte(0xED) == 0x55 && SubByte(0xEE) == 0x28 && SubByte(0xEF) == 0xDF
    ensures SubByte(0xF0) == 0x8C && SubByte(0xF1) == 0xA1 && SubByte(0xF2) == 0x89 && SubByte(0xF3) == 0x0D
    ensures SubByte(0xF4) == 0xBF && SubByte(0xF5) == 0xE6 && SubByte(0xF6) == 0x42 && SubByte(0xF7) == 0x68
    ensures SubByte(0xF8) == 0x41 && SubByte(0xF9) == 0x99 && SubByte(0xFA) == 0x2D && SubByte(0xFB) == 0x0F
    ensures SubByte(0xFC) == 0xB0 && SubByte(0xFD) == 0x54 && SubByte(0xFE) == 0xBB && SubByte(0xFF) == 0x16
  {
  }

  function MixedByXTime(w: Word): Word {
    Word(Sum4(XTime(w.r0), Add(XTime(w.r1), w.r1), w.r2, w.r3), Sum4(w.r0, XTime(w.r1), Add(XTime(w.r2), w.r2), w.r3),
         Sum4(w.r0, w.r1, XTime(w.r2), Add(XTime(w.r3), w.r3)), Sum4(Add(XTime(w.r0), w.r0), w.r1, w.r2, XTime(w.r3)))
  }

  lemma MixByXTime(w: Word)
    ensures MixColumn(w) == MixedByXTime(w)
  {
    hide Mul, XTime, Add;
    MulByOne(w.r0); MulByTwo(w.r0); MulByThree(w.r0);
    MulByOne(w.r1); MulByTwo(w.r1); MulByThree(w.r1);
    MulByOne(w.r2); MulByTwo(w.r2); MulByThree(w.r2);
    MulByOne(w.r3); MulByTwo(w.r3); MulByThree(w.r3);
  }

  /** What the lemmas below evaluate with. */
  lemma Tables()
    ensures forall w: Word {:trigger MixColumn(w)} :: MixColumn(w) == MixedByXTime(w)
    ensures SubByte(0x00) == 0x63 && SubByte(0x01) == 0x7C && SubByte(0x02) == 0x77 && SubByte(0x03) == 0x7B
    ensures SubByte(0x04) == 0xF2 && SubByte(0x05) == 0x6B && SubByte(0x06) == 0x6F && SubByte(0x07) == 0xC5
    ensures SubByte(0x08) == 0x30 && SubByte(0x09) == 0x01 && SubByte(0x0A) == 0x67 && SubByte(0x0B) == 0x2B
    ensures SubByte(0x0C) == 0xFE && SubByte(0x0D) == 0xD7 && SubByte(0x0E) == 0xAB && SubByte(0x0F) == 0x76
    ensures SubByte(0x10) == 0xCA && SubByte(0x11) == 0x82 && SubByte(0x12) == 0xC9 && SubByte(0x13) == 0x7D
    ensures SubByte(0x14) == 0xFA && SubByte(0x15) == 0x59 && SubByte(0x16) == 0x47 && SubByte(0x17) == 0xF0
    ensures SubByte(0x18) == 0xAD && SubByte(0x19) == 0xD4 && SubByte(0x1A) == 0xA2 && SubByte(0x1B) == 0xAF
    ensures SubByte(0x1C) == 0x9C && SubByte(0x1D) == 0xA4 && SubByte(0x1E) == 0x72 && SubByte(0x1F) == 0xC0
    ensures SubByte(0x20) == 0xB7 && SubByte(0x21) == 0xFD && SubByte(0x22) == 0x93 && SubByte(0x23) == 0x26
    ensures SubByte(0x24) == 0x36 && SubByte(0x25) == 0x3F && SubByte(0x26) == 0xF7 && SubByte(0x27) == 0xCC
    ensures SubByte(0x28) == 0x34 && SubByte(0x29) == 0xA5 && SubByte(0x2A) == 0xE5 && SubByte(0x2B) == 0xF1
    ensures SubByte(0x2C) == 0x71 && SubByte(0x2D) == 0xD8 && SubByte(0x2E) == 0x31 && SubByte(0x2F) == 0x15
    ensures SubByte(0x30) == 0x04 && SubByte(0x31) == 0xC7 && SubByte(0x32) == 0x23 && SubByte(0x33) == 0xC3
    ensures SubByte(0x34) == 0x18 && SubByte(0x35) == 0x96 && SubByte(0x36) == 0x05 && SubByte(0x37) == 0x9A
    ensures SubByte(0x38) == 0x07 && SubByte(0x39) == 0x12 && SubByte(0x3A) == 0x80 && SubByte(0x3B) == 0xE2
    ensures SubByte(0x3C) == 0xEB && SubByte(0x3D) == 0x27 && SubByte(0x3E) == 0xB2 && SubByte(0x3F) == 0x75
    ensures SubByte(0x40) == 0x09 && SubByte(0x41) == 0x83 && SubByte(0x42) == 0x2C && SubByte(0x43) == 0x1A
    ensures SubByte(0x44) == 0x1B && SubByte(0x45) == 0x6E && SubByte(0x46) == 0x5A && SubByte(0x47) == 0xA0
    ensures SubByte(0x48) == 0x52 && SubByte(0x49) == 0x3B && SubByte(0x4A) == 0xD6 && SubByte(0x4B) == 0xB3
    ensures SubByte(0x4C) == 0x29 && SubByte(0x4D) == 0xE3 && SubByte(0x4E) == 0x2F && SubByte(0x4F) == 0x84
    ensures SubByte(0x50) == 0x53 && SubByte(0x51) == 0xD1 && SubByte(0x52) == 0x00 && SubByte(0x53) == 0xED
    ensures SubByte(0x54) == 0x20 && SubByte(0x55) == 0xFC && SubByte(0x56) == 0xB1 && SubByte(0x57) == 0x5B
    ensures SubByte(0x58) == 0x6A && SubByte(0x59) == 0xCB && SubByte(0x5A) == 0xBE && SubByte(0x5B) == 0x39
    ensures SubByte(0x5C) == 0x4A && SubByte(0x5D) == 0x4C && SubByte(0x5E) == 0x58 && SubByte(0x5F) == 0xCF
    ensures SubByte(0x60) == 0xD0 && SubByte(0x61) == 0xEF && SubByte(0x62) == 0xAA && SubByte(0x63) == 0xFB
    ensures SubByte(0x64) == 0x43 && SubByte(0x65) == 0x4D && SubByte(0x66) == 0x33 && SubByte(0x67) == 0x85
    ensures SubByte(0x68) == 0x45 && SubByte(0x69) == 0xF9 && SubByte(0x6A) == 0x02 && SubByte(0x6B) == 0x7F
    ensures SubByte(0x6C) == 0x50 && SubByte(0x6D) == 0x3C && SubByte(0x6E) == 0x9F && SubByte(0x6F) == 0xA8
    ensures SubByte(0x70) == 0x51 && SubByte(0x71) == 0xA3 && SubByte(0x72) == 0x40 && SubByte(0x73) == 0x8F
    ensures SubByte(0x74) == 0x92 && SubByte(0x75) == 0x9D && SubByte(0x76) == 0x38 && SubByte(0x77) == 0xF5
    ensures SubByte(0x78) == 0xBC && SubByte(0x79) == 0xB6 && SubByte(0x7A) == 0xDA && SubByte(0x7B) == 0x21
    ensures SubByte(0x7C) == 0x10 && SubByte(0x7D) == 0xFF && SubByte(0x7E) == 0xF3 && SubByte(0x7F) == 0xD2
    ensures SubByte(0x80) == 0xCD && SubByte(0x81) == 0x0C && SubByte(0x82) == 0x13 && SubByte(0x83) == 0xEC
    ensures SubByte(0x84) == 0x5F && SubByte(0x85) == 0x97 && SubByte(0x86) == 0x44 && SubByte(0x87) == 0x17
    ensures SubByte(0x88) == 0xC4 && SubByte(0x89) == 0xA7 && SubByte(0x8A) == 0x7E && SubByte(0x8B) == 0x3D
    ensures SubByte(0x8C) == 0x64 && SubByte(0x8D) == 0x5D && SubByte(0x8E) == 0x19 && SubByte(0x8F) == 0x73
    ensures SubByte(0x90) == 0x60 && SubByte(0x91) == 0x81 && SubByte(0x92) == 0x4F && SubByte(0x93) == 0xDC
    ensures SubByte(0x94) == 0x22 && SubByte(0x95) == 0x2A && SubByte(0x96) == 0x90 && SubByte(0x97) == 0x88
    ensures SubByte(0x98) == 0x46 && SubByte(0x99) == 0xEE && SubByte(0x9A) == 0xB8 && SubByte(0x9B) == 0x14
    ensures SubByte(0x9C) == 0xDE && SubByte(0x9D) == 0x5E && SubByte(0x9E) == 0x0B && SubByte(0x9F) == 0xDB
    ensures SubByte(0xA0) == 0xE0 && SubByte(0xA1) == 0x32 && SubByte(0xA2) == 0x3A && SubByte(0xA3) == 0x0A
    ensures SubByte(0xA4) == 0x49 && SubByte(0xA5) == 0x06 && SubByte(0xA6) == 0x24 && SubByte(0xA7) == 0x5C
    ensures SubByte(0xA8) == 0xC2 && SubByte(0xA9) == 0xD3 && SubByte(0xAA) == 0xAC && SubByte(0xAB) == 0x62
    ensures SubByte(0xAC) == 0x91 && SubByte(0xAD) == 0x95 && SubByte(0xAE) == 0xE4 && SubByte(0xAF) == 0x79
    ensures SubByte(0xB0) == 0xE7 && SubByte(0xB1) == 0xC8 && SubByte(0xB2) == 0x37 && SubByte(0xB3) == 0x6D
    ensures SubByte(0xB4) == 0x8D && SubByte(0xB5) == 0xD5 && SubByte(0xB6) == 0x4E && SubByte(0xB7) == 0xA9
    ensures SubByte(0xB8) == 0x6C && SubByte(0xB9) == 0x56 && SubByte(0xBA) == 0xF4 && SubByte(0xBB) == 0xEA
    ensures SubByte(0xBC) == 0x65 && SubByte(0xBD) == 0x7A && SubByte(0xBE) == 0xAE && SubByte(0xBF) == 0x08
    ensures SubByte(0xC0) == 0xBA && SubByte(0xC1) == 0x78 && SubByte(0xC2) == 0x25 && SubByte(0xC3) == 0x2E
    ensures SubByte(0xC4) == 0x1C && SubByte(0xC5) == 0xA6 && SubByte(0xC6) == 0xB4 && SubByte(0xC7) == 0xC6
    ensures SubByte(0xC8) == 0xE8 && SubByte(0xC9) == 0xDD && SubByte(0xCA) == 0x74 && SubByte(0xCB) == 0x1F
    ensures SubByte(0xCC) == 0x4B && SubByte(0xCD) == 0xBD && SubByte(0xCE) == 0x8B && SubByte(0xCF) == 0x8A
    ensures SubByte(0xD0) == 0x70 && SubByte(0xD1) == 0x3E && SubByte(0xD2) == 0xB5 && SubByte(0xD3) == 0x66
    ensures SubByte(0xD4) == 0x48 && SubByte(0xD5) == 0x03 && SubByte(0xD6) == 0xF6 && SubByte(0xD7) == 0x0E
    ensures SubByte(0xD8) == 0x61 && SubByte(0xD9) == 0x35 && SubByte(0xDA) == 0x57 && SubByte(0xDB) == 0xB9
    ensures SubByte(0xDC) == 0x86 && SubByte(0xDD) == 0xC1 && SubByte(0xDE) == 0x1D && SubByte(0xDF) == 0x9E
    ensures SubByte(0xE0) == 0xE1 && SubByte(0xE1) == 0xF8 && SubByte(0xE2) == 0x98 && SubByte(0xE3) == 0x11
    ensures SubByte(0xE4) == 0x69 && SubByte(0xE5) == 0xD9 && SubByte(0xE6) == 0x8E && SubByte(0xE7) == 0x94
    ensures SubByte(0xE8) == 0x9B && SubByte(0xE9) == 0x1E && SubByte(0xEA) == 0x87 && SubByte(0xEB) == 0xE9
    ensures SubByte(0xEC) == 0xCE && SubByte(0xED) == 0x55 && SubByte(0xEE) == 0x28 && SubByte(0xEF) == 0xDF
    ensures SubByte(0xF0) == 0x8C && SubByte(0xF1) == 0xA1 && SubByte(0xF2) == 0x89 && SubByte(0xF3) == 0x0D
    ensures SubByte(0xF4) == 0xBF && SubByte(0xF5) == 0xE6 && SubByte(0xF6) == 0x42 && SubByte(0xF7) == 0x68
    ensures SubByte(0xF8) == 0x41 && SubByte(0xF9) == 0x99 && SubByte(0xFA) == 0x2D && SubByte(0xFB) == 0x0F
    ensures SubByte(0xFC) == 0xB0 && SubByte(0xFD) == 0x54 && SubByte(0xFE) == 0xBB && SubByte(0xFF) == 0x16
  {
    hide SubByte, MixColumn;
    SubRows0();
    SubRows1();
    SubRows2();
    SubRows3();
    SubRows4();
    SubRows5();
    SubRows6();
    SubRows7();
    forall w: Word
      ensures MixColumn(w) == MixedByXTime(w)
    {
      MixByXTime(w);
    }
  }

  lemma RoundConstants()
    ensures XPower(0) == 0x01 && XPower(1) == 0x02 && XPower(2) == 0x04 && XPower(3) == 0x08 && XPower(4) == 0x10
    ensures XPower(5) == 0x20 && XPower(6) == 0x40 && XPower(7) == 0x80 && XPower(8) == 0x1B && XPower(9) == 0x36
  {
    hide Mul;
    MulByTwo(0x01);
    MulByTwo(0x02);
    MulByTwo(0x04);
    MulByTwo(0x08);
    MulByTwo(0x10);
    MulByTwo(0x20);
    MulByTwo(0x40);
    MulByTwo(0x80);
    MulByTwo(0x1B);
  }

  lemma FirstRound(block: Block, key: Block)
    ensures Rounds(block, key, 0) == AddRoundKey(block, RoundKey(key, 0))
  {
  }

  lemma NextRound(block: Block, key: Block, n: nat)
    ensures Rounds(block, key, n + 1) == FullRound(Rounds(block, key, n), RoundKey(key, n + 1))
  {
  }

  lemma LastRound(block: Block, key: Block)
    ensures Cipher(block, key) == AddRoundKey(ShiftRows(SubBytes(Rounds(block, key, 9))), RoundKey(key, 10))
  {
  }

  // ---- RFC 4493 section 4 ----

  lemma ZeroHex()
    ensures Hex(0x00000000, 0x00000000, 0x00000000, 0x00000000) == Rfc4493.ZERO
  {
  }

  /** The key of the examples. */
  function Key(): Block {
    Hex(0x2B7E1516, 0x28AED2A6, 0xABF71588, 0x09CF4F3C)
  }

  lemma KeySchedule()
    ensures RoundKey(Key(), 0) == Hex(0x2B7E1516, 0x28AED2A6, 0xABF71588, 0x09CF4F3C)
    ensures RoundKey(Key(), 1) == Hex(0xA0FAFE17, 0x88542CB1, 0x23A33939, 0x2A6C7605)
    ensures RoundKey(Key(), 2) == Hex(0xF2C295F2, 0x7A96B943, 0x5935807A, 0x7359F67F)
    ensures RoundKey(Key(), 3) == Hex(0x3D80477D, 0x4716FE3E, 0x1E237E44, 0x6D7A883B)
    ensures RoundKey(Key(), 4) == Hex(0xEF44A541, 0xA8525B7F, 0xB671253B, 0xDB0BAD00)
    ensures RoundKey(Key(), 5) == Hex(0xD4D1C6F8, 0x7C839D87, 0xCAF2B8BC, 0x11F915BC)
    ensures RoundKey(Key(), 6) == Hex(0x6D88A37A, 0x110B3EFD, 0xDBF98641, 0xCA0093FD)
    ensures RoundKey(Key(), 7) == Hex(0x4E54F70E, 0x5F5FC9F3, 0x84A64FB2, 0x4EA6DC4F)
    ensures RoundKey(Key(), 8) == Hex(0xEAD27321, 0xB58DBAD2, 0x312BF560, 0x7F8D292F)
    ensures RoundKey(Key(), 9) == Hex(0xAC7766F3, 0x19FADC21, 0x28D12941, 0x575C006E)
    ensures RoundKey(Key(), 10) == Hex(0xD014F9A8, 0xC9EE2589, 0xE13F0CC8, 0xB6630CA6)
  {
    Tables();
    RoundConstants();
    hide SubByte, XPower, RoundKey, MixColumn;
    FirstRoundKey(Key());
    RoundKeyStep(Key(), 1);
    RoundKeyStep(Key(), 2);
    RoundKeyStep(Key(), 3);
    RoundKeyStep(Key(), 4);
    RoundKeyStep(Key(), 5);
    RoundKeyStep(Key(), 6);
    RoundKeyStep(Key(), 7);
    RoundKeyStep(Key(), 8);
    RoundKeyStep(Key(), 9);
    RoundKeyStep(Key(), 10);
  }

  lemma KeyZeroTo5()
    ensures Rounds(Hex(0x00000000, 0x00000000, 0x00000000, 0x00000000), Key(), 5) ==
      Hex(0x9195B7F8, 0x90139A53, 0x047E9748, 0x7C11E4CB)
  {
    var block := Hex(0x00000000, 0x00000000, 0x00000000, 0x00000000);
    KeySchedule();
    Tables();
    hide SubByte, MixColumn, Mul, Rounds, RoundKey, Key;
    FirstRound(block, Key());
    assert Rounds(block, Key(), 0) == Hex(0x2B7E1516, 0x28AED2A6, 0xABF71588, 0x09CF4F3C);
    NextRound(block, Key(), 0);
    assert Rounds(block, Key(), 1) ==
      Hex(0xDCD87F6F, 0x9B60AA8F, 0x1F010F04, 0x5790A2D3);
    NextRound(block, Key(), 1);
    assert Rounds(block, Key(), 2) ==
      Hex(0x9E038509, 0x449C4672, 0xC32B0A75, 0x38DD82A0);
    NextRound(block, Key(), 2);
    assert Rounds(block, Key(), 3) ==
      Hex(0xD5656702, 0x6BC031F3, 0xCD7664E0, 0x29F8FC32);
    NextRound(block, Key(), 3);
    assert Rounds(block, Key(), 4) ==
      Hex(0x5CCEFFFB, 0xD9E1FE98, 0x9CD7DF39, 0x7B87E8A7);
    NextRound(block, Key(), 4);
    assert Rounds(block, Key(), 5) ==
      Hex(0x9195B7F8, 0x90139A53, 0x047E9748, 0x7C11E4CB);
  }

  lemma KeyZeroTo9()
    ensures Rounds(Hex(0x00000000, 0x00000000, 0x00000000, 0x00000000), Key(), 9) ==
      Hex(0x18C155A2, 0xA94D5E73, 0xEFB97412, 0xFB13781D)
  {
    var block := Hex(0x00000000, 0x00000000, 0x00000000, 0x00000000);
    KeyZeroTo5();
    KeySchedule();
    Tables();
    hide SubByte, MixColumn, Mul, Rounds, RoundKey, Key;
    NextRound(block, Key(), 5);
    assert Rounds(block, Key(), 6) ==
      Hex(0x646F7529, 0xF76CBC45, 0xFD1993A6, 0x7EC534FB);
    NextRound(block, Key(), 6);
    assert Rounds(block, Key(), 7) ==
      Hex(0xEBC75659, 0x5509B1D6, 0x2E772EA9, 0x119521C4);
    NextRound(block, Key(), 7);
    assert Rounds(block, Key(), 8) ==
      Hex(0x0D76DD09, 0x64571448, 0x6A70965F, 0x2A088801);
    NextRound(block, Key(), 8);
    assert Rounds(block, Key(), 9) ==
      Hex(0x18C155A2, 0xA94D5E73, 0xEFB97412, 0xFB13781D);
  }

  lemma KeyZero()
    ensures Cipher(Hex(0x00000000, 0x00000000, 0x00000000, 0x00000000), Key()) ==
      Hex(0x7DF76B0C, 0x1AB899B3, 0x3E42F047, 0xB91B546F)
  {
    KeyZeroTo9();
    KeySchedule();
    Tables();
    hide SubByte, MixColumn, Mul, Rounds, RoundKey, Key, Cipher;
    LastRound(Hex(0x00000000, 0x00000000, 0x00000000, 0x00000000), Key());
  }

  lemma Subkeys()
    ensures Rfc4493.Subkey1(Key()) == Hex(0xFBEED618, 0x35713366, 0x7C85E08F, 0x7236A8DE)
    ensures Rfc4493.Subkey2(Key()) == Hex(0xF7DDAC30, 0x6AE266CC, 0xF90BC11E, 0xE46D513B)
  {
    SubkeysBits();
    KeyZero();
    hide Cipher, Key, Rfc4493.Bits, Rfc4493.FromBits, Rfc4493.Doubled, Hex;
    ZeroHex();
  }

  lemma SubkeysBits()
    ensures Rfc4493.FromBits(Rfc4493.Doubled(Rfc4493.Bits(Hex(0x7DF76B0C, 0x1AB899B3, 0x3E42F047, 0xB91B546F)))) ==
      Hex(0xFBEED618, 0x35713366, 0x7C85E08F, 0x7236A8DE)
    ensures Rfc4493.FromBits(Rfc4493.Doubled(Rfc4493.Bits(Hex(0xFBEED618, 0x35713366, 0x7C85E08F, 0x7236A8DE)))) ==
      Hex(0xF7DDAC30, 0x6AE266CC, 0xF90BC11E, 0xE46D513B)
  {
  }

  lemma KeyFullTo5()
    ensures Rounds(Hex(0x902F68FA, 0x1B31ACF0, 0x95B89E9E, 0x01A5BFF4), Key(), 5) ==
      Hex(0xC546BF30, 0xA22CF534, 0x02E78A80, 0x710980F0)
  {
    var block := Hex(0x902F68FA, 0x1B31ACF0, 0x95B89E9E, 0x01A5BFF4);
    KeySchedule();
    Tables();
    hide SubByte, MixColumn, Mul, Rounds, RoundKey, Key;
    FirstRound(block, Key());
    assert Rounds(block, Key(), 0) == Hex(0xBB517DEC, 0x339F7E56, 0x3E4F8B16, 0x086AF0C8);
    NextRound(block, Key(), 0);
    assert Rounds(block, Key(), 1) ==
      Hex(0xCC12961F, 0xC0C52160, 0x14BEA470, 0x96ACA3F9);
    NextRound(block, Key(), 1);
    assert Rounds(block, Key(), 2) ==
      Hex(0x459C5AE9, 0x36B5E2A9, 0x5E8DBBD5, 0xA40DBD42);
    NextRound(block, Key(), 2);
    assert Rounds(block, Key(), 3) ==
      Hex(0x435647A8, 0xCE39702A, 0xA1C4F878, 0x1D2431A0);
    NextRound(block, Key(), 3);
    assert Rounds(block, Key(), 4) ==
      Hex(0x4C5914E7, 0x847104BD, 0xCD314E2A, 0xAD99C574);
    NextRound(block, Key(), 4);
    assert Rounds(block, Key(), 5) ==
      Hex(0xC546BF30, 0xA22CF534, 0x02E78A80, 0x710980F0);
  }

  lemma KeyFullTo9()
    ensures Rounds(Hex(0x902F68FA, 0x1B31ACF0, 0x95B89E9E, 0x01A5BFF4), Key(), 9) ==
      Hex(0x0D4C5180, 0x1AE9A6ED, 0xFF71617A, 0xD31D8CC4)
  {
    var block := Hex(0x902F68FA, 0x1B31ACF0, 0x95B89E9E, 0x01A5BFF4);
    KeyFullTo5();
    KeySchedule();
    Tables();
    hide SubByte, MixColumn, Mul, Rounds, RoundKey, Key;
    NextRound(block, Key(), 5);
    assert Rounds(block, Key(), 6) ==
      Hex(0x5BC20787, 0x0B4A1DE2, 0x268CC8E1, 0x52EBF13E);
    NextRound(block, Key(), 6);
    assert Rounds(block, Key(), 7) ==
      Hex(0x074B1E04, 0x1353E665, 0x0C5473B7, 0x7DE3B925);
    NextRound(block, Key(), 7);
    assert Rounds(block, Key(), 8) ==
      Hex(0xE7631F69, 0x8BB846DC, 0xDA2C2980, 0x732F8241);
    NextRound(block, Key(), 8);
    assert Rounds(block, Key(), 9) ==
      Hex(0x0D4C5180, 0x1AE9A6ED, 0xFF71617A, 0xD31D8CC4);
  }

  lemma KeyFull()
    ensures Cipher(Hex(0x902F68FA, 0x1B31ACF0, 0x95B89E9E, 0x01A5BFF4), Key()) ==
      Hex(0x070A16B4, 0x6B4D4144, 0xF79BDD9D, 0xD04A287C)
  {
    KeyFullTo9();
    KeySchedule();
    Tables();
    hide SubByte, MixColumn, Mul, Rounds, RoundKey, Key, Cipher;
    LastRound(Hex(0x902F68FA, 0x1B31ACF0, 0x95B89E9E, 0x01A5BFF4), Key());
  }

  /** Example 2: a message of one block. */
  lemma FullBlock()
    ensures
      var m := [0x6B, 0xC1, 0xBE, 0xE2, 0x2E, 0x40, 0x9F, 0x96, 0xE9, 0x3D, 0x7E, 0x11, 0x73, 0x93, 0x17, 0x2A];
      Rfc4493.Cmac(Key(), m) == Hex(0x070A16B4, 0x6B4D4144, 0xF79BDD9D, 0xD04A287C)
  {
    Subkeys();
    KeyFull();
    ZeroHex();
    hide Cipher, Key, Rfc4493.Subkey1, Rfc4493.Subkey2, Rfc4493.Padded;
  }
}
