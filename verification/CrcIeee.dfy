/** crc32_ieee of Zephyr, by which the firmware compares application keys (app/src/lorawan/lorawan.c). */
module CrcIeee {

  const POLYNOMIAL: bv32 := 0xEDB88320

  function Xor(a: bv32, b: bv32): bv32 {
    a ^ b
  }

  predicate Odd(c: bv32) {
    c & 1 == 1
  }

  function Half(c: bv32): bv32 {
    c >> 1
  }

  function CrcBit(c: bv32): bv32 {
    if Odd(c) then Xor(Half(c), POLYNOMIAL) else Half(c)
  }

  function CrcBits(c: bv32, n: nat): bv32
    decreases n
  {
    if n == 0 then c else CrcBits(CrcBit(c), n - 1)
  }

  function CrcByte(c: bv32, b: bv8): bv32 {
    CrcBits(Xor(c, b as bv32), 8)
  }

  function CrcFrom(c: bv32, s: seq<bv8>): bv32
    decreases |s|
  {
    if s == [] then c else CrcFrom(CrcByte(c, s[0]), s[1..])
  }

  function Crc32(s: seq<bv8>): bv32 {
    Xor(CrcFrom(0xFFFFFFFF, s), 0xFFFFFFFF)
  }

  // ---- the check value of the polynomial ----

  lemma CrcOfTwo(c: bv32, x: bv8, y: bv8)
    ensures CrcFrom(c, [x, y]) == CrcByte(CrcByte(c, x), y)
  {
    hide CrcByte;
    var c1 := CrcByte(c, x);
    assert [x, y][1..] == [y] && [y][1..] == [];
    assert CrcFrom(c1, [y]) == CrcByte(c1, y);
  }

  lemma CrcOfThree(c: bv32, x: bv8, y: bv8, z: bv8)
    ensures CrcFrom(c, [x, y, z]) == CrcByte(CrcByte(CrcByte(c, x), y), z)
  {
    hide CrcByte;
    var c1 := CrcByte(c, x);
    var c2 := CrcByte(c1, y);
    assert [x, y, z][1..] == [y, z] && [y, z][1..] == [z] && [z][1..] == [];
    assert CrcFrom(c2, [z]) == CrcByte(c2, z);
    assert CrcFrom(c1, [y, z]) == CrcFrom(c2, [z]);
  }

  /** The check value of CRC-32/ISO-HDLC, for the digits 1 to 9 in ASCII. */
  lemma CheckValue()
    ensures var digits := [0x31, 0x32, 0x33, 0x34, 0x35, 0x36, 0x37, 0x38, 0x39]; Crc32(digits) == 0xCBF43926
  {
    CheckValueSteps();
    hide CrcByte, CrcFrom, Crc32;
    var a, b, d: seq<bv8> := [0x31, 0x32, 0x33], [0x34, 0x35, 0x36], [0x37, 0x38, 0x39];
    assert [0x31, 0x32, 0x33, 0x34, 0x35, 0x36, 0x37, 0x38, 0x39] == a + (b + d);
    CrcFromConcat(0xFFFFFFFF, a, b + d);
    CrcOfThree(0xFFFFFFFF, 0x31, 0x32, 0x33);
    CrcFromConcat(0x77B79C2D, b, d);
    CrcOfThree(0x77B79C2D, 0x34, 0x35, 0x36);
    CrcOfThree(0xF68D2C9E, 0x37, 0x38, 0x39);
    assert CrcFrom(0xFFFFFFFF, a + (b + d)) == 0x340BC6D9;
    Crc32From(a + (b + d));
    assert Xor(0x340BC6D9, 0xFFFFFFFF) == 0xCBF43926;
    assert Crc32(a + (b + d)) == 0xCBF43926;
  }

  lemma Crc32From(s: seq<bv8>)
    ensures Crc32(s) == Xor(CrcFrom(0xFFFFFFFF, s), 0xFFFFFFFF)
  {
  }

  lemma CheckValueSteps()
    ensures CrcByte(0xFFFFFFFF, 0x31) == 0x7C231048
    ensures CrcByte(0x7C231048, 0x32) == 0xB0ACBB32
    ensures CrcByte(0xB0ACBB32, 0x33) == 0x77B79C2D
    ensures CrcByte(0x77B79C2D, 0x34) == 0x641C1F5C
    ensures CrcByte(0x641C1F5C, 0x35) == 0x340AC5E3
    ensures CrcByte(0x340AC5E3, 0x36) == 0xF68D2C9E
    ensures CrcByte(0xF68D2C9E, 0x37) == 0xAFFC9660
    ensures CrcByte(0xAFFC9660, 0x38) == 0x651F2550
    ensures CrcByte(0x651F2550, 0x39) == 0x340BC6D9
  {
  }

  // ---- what the checksum tells apart ----

  /** Only an odd state has its highest bit set by the polynomial. */
  lemma HighestBit(c: bv32)
    ensures Half(c) < 0x8000_0000 && Xor(Half(c), POLYNOMIAL) >= 0x8000_0000
  {
    assert (c >> 1) & 0x8000_0000 == 0;
    assert ((c >> 1) ^ 0xEDB88320) & 0x8000_0000 == 0x8000_0000;
  }

  lemma HalvesApart(c: bv32, d: bv32)
    requires c != d && (Odd(c) <==> Odd(d))
    ensures Half(c) != Half(d)
  {
  }

  lemma CrcBitInjective(c: bv32, d: bv32)
    requires c != d
    ensures CrcBit(c) != CrcBit(d)
  {
    HighestBit(c);
    HighestBit(d);
    hide Xor, Odd, Half;
    if Odd(c) <==> Odd(d) {
      HalvesApart(c, d);
      XorApart(Half(c), Half(d), POLYNOMIAL);
    }
  }

  lemma {:induction false} CrcBitsInjective(c: bv32, d: bv32, n: nat)
    requires c != d
    ensures CrcBits(c, n) != CrcBits(d, n)
    decreases n
  {
    hide CrcBit;
    if n > 0 {
      CrcBitInjective(c, d);
      CrcBitsInjective(CrcBit(c), CrcBit(d), n - 1);
    }
  }

  lemma XorApart(c: bv32, d: bv32, x: bv32)
    requires c != d
    ensures Xor(c, x) != Xor(d, x) && Xor(x, c) != Xor(x, d)
  {
  }

  /** Different states stay different whatever follows. */
  lemma {:induction false} CrcFromInjective(c: bv32, d: bv32, s: seq<bv8>)
    requires c != d
    ensures CrcFrom(c, s) != CrcFrom(d, s)
    decreases |s|
  {
    hide Xor;
    if s != [] {
      XorApart(c, d, s[0] as bv32);
      CrcBitsInjective(Xor(c, s[0] as bv32), Xor(d, s[0] as bv32), 8);
      CrcFromInjective(CrcByte(c, s[0]), CrcByte(d, s[0]), s[1..]);
    }
  }

  lemma {:induction false} CrcFromConcat(c: bv32, s: seq<bv8>, t: seq<bv8>)
    ensures CrcFrom(c, s + t) == CrcFrom(CrcFrom(c, s), t)
    decreases |s|
  {
    hide CrcByte;
    if s == [] {
      assert s + t == t;
    } else {
      assert (s + t)[1..] == s[1..] + t;
      CrcFromConcat(CrcByte(c, s[0]), s[1..], t);
    }
  }

  lemma {:induction false} CrcBitsTwice(c: bv32, m: nat, n: nat)
    ensures CrcBits(CrcBits(c, m), n) == CrcBits(c, m + n)
    decreases m
  {
    hide CrcBit;
    if m > 0 {
      CrcBitsTwice(CrcBit(c), m - 1, n);
    }
  }

  // Up to four bytes are one word that is mixed into the state at once.

  function Up(d: bv32): bv32 {
    d << 1
  }

  lemma SumShifted(c: bv32, d: bv32)
    requires d < 0x8000_0000
    ensures (Odd(Xor(c, Up(d))) <==> Odd(c)) && Half(Xor(c, Up(d))) == Xor(Half(c), d)
  {
  }

  lemma SumWithPolynomial(c: bv32, d: bv32)
    ensures Xor(Xor(c, d), POLYNOMIAL) == Xor(Xor(c, POLYNOMIAL), d)
  {
  }

  lemma CrcBitOfSum(c: bv32, d: bv32)
    requires d < 0x8000_0000
    ensures CrcBit(Xor(c, Up(d))) == Xor(CrcBit(c), d)
  {
    hide Odd, Half, Xor, Up;
    SumShifted(c, d);
    SumWithPolynomial(Half(c), d);
  }

  function UpBy(d: bv32, n: nat): bv32
    decreases n
  {
    if n == 0 then d else Up(UpBy(d, n - 1))
  }

  /** What is still above the bits shifted out is added unchanged. */
  lemma {:induction false} CrcBitsOfSum(c: bv32, d: bv32, n: nat)
    requires forall k :: 0 <= k < n ==> UpBy(d, k) < 0x8000_0000
    ensures CrcBits(Xor(c, UpBy(d, n)), n) == Xor(CrcBits(c, n), d)
    decreases n
  {
    hide CrcBit, Xor, Up;
    if n > 0 {
      CrcBitOfSum(c, UpBy(d, n - 1));
      CrcBitsOfSum(CrcBit(c), d, n - 1);
    }
  }

  /** The word that up to four bytes form, the first lowest. */
  function WordOf(s: seq<bv8>): bv32
    decreases |s|
  {
    if s == [] then 0 else Xor(s[0] as bv32, UpBy(WordOf(s[1..]), 8))
  }

  /** 256 to the power of `n`. */
  function Limit(n: nat): bv32
    requires n <= 3
  {
    if n == 0 then 1 else if n == 1 then 0x100 else if n == 2 then 0x1_0000 else 0x100_0000
  }

  lemma UpByStep(d: bv32, n: nat)
    ensures UpBy(d, 0) == d && UpBy(d, n + 1) == Up(UpBy(d, n))
  {
  }

  lemma EightUps(d: bv32)
    ensures Up(Up(Up(Up(Up(Up(Up(Up(d)))))))) == d << 8
  {
  }

  lemma UpByIsShift(d: bv32)
    ensures UpBy(d, 8) == d << 8
  {
    hide UpBy, Up;
    EightUps(d);
    UpByStep(d, 0);
    UpByStep(d, 1);
    UpByStep(d, 2);
    UpByStep(d, 3);
    UpByStep(d, 4);
    UpByStep(d, 5);
    UpByStep(d, 6);
    UpByStep(d, 7);
  }

  lemma UpByEight(d: bv32)
    requires d < 0x100_0000
    ensures forall k :: 0 <= k < 8 ==> UpBy(d, k) < 0x8000_0000
  {
    hide UpBy;
    UpByStep(d, 0);
    UpByStep(d, 1);
    UpByStep(d, 2);
    UpByStep(d, 3);
    UpByStep(d, 4);
    UpByStep(d, 5);
    UpByStep(d, 6);
    forall k | 0 <= k < 8
      ensures UpBy(d, k) < 0x8000_0000
    {
      assert k == 0 || k == 1 || k == 2 || k == 3 || k == 4 || k == 5 || k == 6 || k == 7;
    }
  }

  lemma SumBelow(b: bv8, d: bv32, e: bv32, m: bv32)
    requires (m == 1 || m == 0x100 || m == 0x1_0000) && d < m && e == d << 8
    ensures Xor(b as bv32, e) < m << 8
  {
  }

  lemma ByteBelow(b: bv8, d: bv32, n: nat)
    requires n <= 2 && d < Limit(n)
    ensures Xor(b as bv32, UpBy(d, 8)) < Limit(n + 1)
  {
    UpByIsShift(d);
    hide UpBy, Xor;
    SumBelow(b, d, UpBy(d, 8), Limit(n));
  }

  /** The lowest byte is the first, and the others can be read off above it. */
  lemma FirstAndRest(b: bv8, d: bv32)
    requires d < 0x100_0000
    ensures (Xor(b as bv32, UpBy(d, 8)) & 0xFF) as bv8 == b && Xor(b as bv32, UpBy(d, 8)) >> 8 == d
  {
    UpByIsShift(d);
    hide UpBy;
  }

  lemma {:induction false} WordBelow(s: seq<bv8>)
    requires |s| <= 3
    ensures WordOf(s) < Limit(|s|) <= 0x100_0000
    decreases |s|
  {
    if s != [] {
      hide Xor, UpBy;
      WordBelow(s[1..]);
      ByteBelow(s[0], WordOf(s[1..]), |s| - 1);
    }
  }

  lemma XorInAnyOrder(a: bv32, b: bv32, c: bv32)
    ensures Xor(Xor(a, b), c) == Xor(a, Xor(b, c)) && Xor(a, 0) == a
  {
  }

  lemma {:induction false} CrcOfWord(c: bv32, s: seq<bv8>)
    requires |s| <= 4
    ensures CrcFrom(c, s) == CrcBits(Xor(c, WordOf(s)), 8 * |s|)
    decreases |s|
  {
    hide Xor, UpBy;
    if s == [] {
      XorInAnyOrder(c, 0, 0);
    } else {
      var x, w := Xor(c, s[0] as bv32), WordOf(s[1..]);
      WordBelow(s[1..]);
      UpByEight(w);
      CrcBitsOfSum(x, w, 8);
      CrcBitsTwice(Xor(x, UpBy(w, 8)), 8, 8 * (|s| - 1));
      XorInAnyOrder(c, s[0] as bv32, UpBy(w, 8));
      CrcOfWord(CrcByte(c, s[0]), s[1..]);
    }
  }

  lemma WordParts(s: seq<bv8>)
    requires 0 < |s| <= 4
    ensures (WordOf(s) & 0xFF) as bv8 == s[0] && WordOf(s) >> 8 == WordOf(s[1..])
  {
    WordUnfolded(s);
    hide Xor, UpBy, WordOf;
    WordBelow(s[1..]);
    FirstAndRest(s[0], WordOf(s[1..]));
  }

  lemma WordUnfolded(s: seq<bv8>)
    requires s != []
    ensures WordOf(s) == Xor(s[0] as bv32, UpBy(WordOf(s[1..]), 8))
  {
  }

  lemma {:induction false} WordsApart(s: seq<bv8>, t: seq<bv8>)
    requires |s| == |t| <= 4 && s != t
    ensures WordOf(s) != WordOf(t)
    decreases |s|
  {
    hide Xor, UpBy, WordOf;
    WordParts(s);
    WordParts(t);
    if s[1..] != t[1..] {
      WordsApart(s[1..], t[1..]);
    } else {
      assert s == [s[0]] + s[1..] && t == [t[0]] + t[1..];
    }
  }

  /** Two strings that differ within four consecutive bytes have different checksums. */
  lemma BurstDetected(front: seq<bv8>, x: seq<bv8>, y: seq<bv8>, rest: seq<bv8>)
    requires |x| == |y| <= 4 && x != y
    ensures Crc32(front + x + rest) != Crc32(front + y + rest)
  {
    hide CrcFrom, Xor, WordOf, CrcBits;
    var c := CrcFrom(0xFFFFFFFF, front);
    CrcFromConcat(0xFFFFFFFF, front + x, rest);
    CrcFromConcat(0xFFFFFFFF, front, x);
    CrcFromConcat(0xFFFFFFFF, front + y, rest);
    CrcFromConcat(0xFFFFFFFF, front, y);
    WordsApart(x, y);
    XorApart(WordOf(x), WordOf(y), c);
    CrcOfWord(c, x);
    CrcOfWord(c, y);
    CrcBitsInjective(Xor(c, WordOf(x)), Xor(c, WordOf(y)), 8 * |x|);
    CrcFromInjective(CrcFrom(c, x), CrcFrom(c, y), rest);
    XorApart(CrcFrom(CrcFrom(c, x), rest), CrcFrom(CrcFrom(c, y), rest), 0xFFFFFFFF);
  }

  // ---- what it does not ----

  /** Five consecutive bytes are enough for the checksum not to change, whatever follows. */
  lemma CollisionExists(rest: seq<bv8>)
    ensures Crc32([0x00, 0x00, 0x00, 0x00, 0x00] + rest) == Crc32([0x41, 0x06, 0x71, 0xDB, 0x01] + rest)
  {
    var a, b: seq<bv8> := [0x00, 0x00, 0x00], [0x41, 0x06, 0x71];
    var c, d: seq<bv8> := [0x00, 0x00], [0xDB, 0x01];
    CollisionSteps();
    hide CrcByte, CrcFrom, Xor;
    assert [0x00, 0x00, 0x00, 0x00, 0x00] + rest == a + (c + rest);
    assert [0x41, 0x06, 0x71, 0xDB, 0x01] + rest == b + (d + rest);
    CrcFromConcat(0xFFFFFFFF, a, c + rest);
    CrcFromConcat(0xFFFFFFFF, b, d + rest);
    CrcOfThree(0xFFFFFFFF, 0x00, 0x00, 0x00);
    CrcOfThree(0xFFFFFFFF, 0x41, 0x06, 0x71);
    CrcFromConcat(0x00BE26ED, c, rest);
    CrcFromConcat(0x00BE2736, d, rest);
    CrcOfTwo(0x00BE26ED, 0x00, 0x00);
    CrcOfTwo(0x00BE2736, 0xDB, 0x01);
  }

  lemma CollisionSteps()
    ensures CrcByte(0xFFFFFFFF, 0x00) == 0x2DFD1072
    ensures CrcByte(0x2DFD1072, 0x00) == 0xBE26ED00
    ensures CrcByte(0xBE26ED00, 0x00) == 0x00BE26ED
    ensures CrcByte(0x00BE26ED, 0x00) == 0xDEBB20E3
    ensures CrcByte(0xDEBB20E3, 0x00) == 0x39DD08E2
    ensures CrcByte(0xFFFFFFFF, 0x41) == 0x2C266174
    ensures CrcByte(0x2C266174, 0x06) == 0xBE273671
    ensures CrcByte(0xBE273671, 0x71) == 0x00BE2736
    ensures CrcByte(0x00BE2736, 0xDB) == 0xDEBB20E2
    ensures CrcByte(0xDEBB20E2, 0x01) == 0x39DD08E2
  {
  }
}
