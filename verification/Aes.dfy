/**
 The in-place AES-128 of lib/lorawan_tools/AES-128_V10.c.  Every method states the FIPS 197
 transformation that it carries out on the state array or on the round key.
 */
module Aes {
  import opened GaloisField
  import opened SBox
  import Fips197

  type Word = Fips197.Word
  type Block = Fips197.Block

  /** The sixteen bytes from `offset` on, as a block. */
  function BlockAt(s: seq<bv8>, offset: nat): Block
    requires offset + 16 <= |s|
  {
    Fips197.Block(Fips197.Word(s[offset], s[offset + 1], s[offset + 2], s[offset + 3]),
                  Fips197.Word(s[offset + 4], s[offset + 5], s[offset + 6], s[offset + 7]),
                  Fips197.Word(s[offset + 8], s[offset + 9], s[offset + 10], s[offset + 11]),
                  Fips197.Word(s[offset + 12], s[offset + 13], s[offset + 14], s[offset + 15]))
  }

  function Bytes(b: Block): (s: seq<bv8>)
    ensures |s| == 16 && BlockAt(s, 0) == b
  {
    [b.c0.r0, b.c0.r1, b.c0.r2, b.c0.r3, b.c1.r0, b.c1.r1, b.c1.r2, b.c1.r3,
     b.c2.r0, b.c2.r1, b.c2.r2, b.c2.r3, b.c3.r0, b.c3.r1, b.c3.r2, b.c3.r3]
  }

  lemma BytesOfBlockAt(s: seq<bv8>)
    requires |s| == 16
    ensures Bytes(BlockAt(s, 0)) == s
  {
  }

  class Engine {
    const State: array2<bv8>

    ghost predicate Valid() {
      State.Length0 == 4 && State.Length1 == 4
    }

    ghost function Column(c: nat): Word
      requires Valid() && c < 4
      reads State
    {
      Fips197.Word(State[0, c], State[1, c], State[2, c], State[3, c])
    }

    ghost function Contents(): Block
      requires Valid()
      reads State
    {
      Fips197.Block(Column(0), Column(1), Column(2), Column(3))
    }

    constructor ()
      ensures Valid() && fresh(State)
    {
      State := new bv8[4, 4];
    }

    method AddRoundKey(roundKey: array<bv8>)
      requires Valid() && roundKey.Length == 16
      modifies State
      ensures Contents() == Fips197.AddRoundKey(old(Contents()), BlockAt(roundKey[..], 0))
    {
      hide Add;
      for column := 0 to 4
        invariant forall c, r :: 0 <= c < column && 0 <= r < 4 ==>
          State[r, c] == Add(old(State[r, c]), roundKey[r + 4 * c])
        invariant forall c, r :: column <= c < 4 && 0 <= r < 4 ==> State[r, c] == old(State[r, c])
      {
        for row := 0 to 4
          invariant forall c, r :: 0 <= r < 4 && (0 <= c < column || (c == column && r < row)) ==>
            State[r, c] == Add(old(State[r, c]), roundKey[r + 4 * c])
          invariant forall c, r :: 0 <= r < 4 && (column < c < 4 || (c == column && row <= r)) ==>
            State[r, c] == old(State[r, c])
        {
          State[row, column] := Add(State[row, column], roundKey[row + 4 * column]);
        }
      }
    }

    method SubBytes()
      requires Valid()
      modifies State
      ensures Contents() == Fips197.SubBytes(old(Contents()))
    {
      hide SubByte;
      for column := 0 to 4
        invariant forall c, r :: 0 <= c < column && 0 <= r < 4 ==> State[r, c] == SubByte(old(State[r, c]))
        invariant forall c, r :: column <= c < 4 && 0 <= r < 4 ==> State[r, c] == old(State[r, c])
      {
        for row := 0 to 4
          invariant forall c, r :: 0 <= r < 4 && (0 <= c < column || (c == column && r < row)) ==>
            State[r, c] == SubByte(old(State[r, c]))
          invariant forall c, r :: 0 <= r < 4 && (column < c < 4 || (c == column && row <= r)) ==>
            State[r, c] == old(State[r, c])
        {
          State[row, column] := SubByte(State[row, column]);
        }
      }
    }

    // The source shifts the three rows one after the other in one function body.

    method ShiftRowOne()
      requires Valid()
      modifies State
      ensures State[1, 0] == old(State[1, 1]) && State[1, 1] == old(State[1, 2])
           && State[1, 2] == old(State[1, 3]) && State[1, 3] == old(State[1, 0])
      ensures forall r, c :: 0 <= r < 4 && 0 <= c < 4 && r != 1 ==> State[r, c] == old(State[r, c])
    {
      var buffer := State[1, 0];
      State[1, 0] := State[1, 1];
      State[1, 1] := State[1, 2];
      State[1, 2] := State[1, 3];
      State[1, 3] := buffer;
    }

    method ShiftRowTwo()
      requires Valid()
      modifies State
      ensures State[2, 0] == old(State[2, 2]) && State[2, 1] == old(State[2, 3])
           && State[2, 2] == old(State[2, 0]) && State[2, 3] == old(State[2, 1])
      ensures forall r, c :: 0 <= r < 4 && 0 <= c < 4 && r != 2 ==> State[r, c] == old(State[r, c])
    {
      var buffer := State[2, 0];
      State[2, 0] := State[2, 2];
      State[2, 2] := buffer;
      buffer := State[2, 1];
      State[2, 1] := State[2, 3];
      State[2, 3] := buffer;
    }

    method ShiftRowThree()
      requires Valid()
      modifies State
      ensures State[3, 0] == old(State[3, 3]) && State[3, 1] == old(State[3, 0])
           && State[3, 2] == old(State[3, 1]) && State[3, 3] == old(State[3, 2])
      ensures forall r, c :: 0 <= r < 4 && 0 <= c < 4 && r != 3 ==> State[r, c] == old(State[r, c])
    {
      var buffer := State[3, 3];
      State[3, 3] := State[3, 2];
      State[3, 2] := State[3, 1];
      State[3, 1] := State[3, 0];
      State[3, 0] := buffer;
    }

    method ShiftRows()
      requires Valid()
      modifies State
      ensures Contents() == Fips197.ShiftRows(old(Contents()))
    {
      ShiftRowOne();
      ShiftRowTwo();
      ShiftRowThree();
    }

    method Doubled(x: bv8) returns (d: bv8)
      ensures d == XTime(x)
    {
      d := x << 1;
      if x & 0x80 == 0x80 {
        d := d ^ 0x1B;
      }
    }

    /** The body of the source's column loop: no field product, only shifts and exclusive ors. */
    method MixOneColumn(column: nat)
      requires Valid() && column < 4
      modifies State
      ensures Column(column) == Fips197.MixColumn(old(Column(column)))
      ensures forall r, c :: 0 <= r < 4 && 0 <= c < 4 && c != column ==> State[r, c] == old(State[r, c])
    {
      hide Fips197.MixColumn, XTime, Sum5;
      var a, b := new bv8[4], new bv8[4];
      for row := 0 to 4
        modifies a, b
        invariant forall r :: 0 <= r < row ==> a[r] == State[r, column] && b[r] == XTime(State[r, column])
      {
        a[row] := State[row, column];
        var double := Doubled(State[row, column]);
        b[row] := double;
      }
      ghost var w := Column(column);
      MixColumnByShifts(w);
      State[0, column] := Sum5(b[0], a[1], b[1], a[2], a[3]);
      State[1, column] := Sum5(a[0], b[1], a[2], b[2], a[3]);
      State[2, column] := Sum5(a[0], a[1], b[2], a[3], b[3]);
      State[3, column] := Sum5(a[0], b[0], a[1], a[2], b[3]);
    }

    method MixColumns()
      requires Valid()
      modifies State
      ensures Contents() == Fips197.MixColumns(old(Contents()))
    {
      hide Fips197.MixColumn;
      for column := 0 to 4
        invariant forall c :: 0 <= c < column ==> Column(c) == Fips197.MixColumn(old(Column(c)))
        invariant forall c :: column <= c < 4 ==> Column(c) == old(Column(c))
      {
        MixOneColumn(column);
      }
    }

    /** The round constant is doubled once for every round after the first. */
    method RoundConstant(round: nat) returns (rcon: bv8)
      requires round >= 1
      ensures rcon == XPower(round - 1)
    {
      hide Mul;
      rcon := 0x01;
      var remaining := round;
      while remaining != 1
        invariant 1 <= remaining <= round
        invariant rcon == XPower(round - remaining)
      {
        MulByTwo(rcon);
        rcon := Doubled(rcon);
        remaining := remaining - 1;
      }
    }

    /** The last word of the key, rotated, substituted and given the round constant. */
    method FirstChainWord(round: nat, roundKey: array<bv8>) returns (temp: array<bv8>)
      requires round >= 1 && roundKey.Length == 16
      ensures fresh(temp) && temp.Length == 4
      ensures WordAt(temp, 0) == ChainWord(BlockAt(roundKey[..], 0), round, 0)
    {
      hide SubByte, XPower, Add;
      temp := new bv8[4];
      for i := 0 to 4
        invariant forall k :: 0 <= k < i ==> temp[k] == roundKey[k + 12]
      {
        temp[i] := roundKey[i + 12];
      }

      var buffer := temp[0];
      temp[0] := temp[1];
      temp[1] := temp[2];
      temp[2] := temp[3];
      temp[3] := buffer;
      ghost var rotated := temp[..];

      for i := 0 to 4
        invariant forall k :: 0 <= k < i ==> temp[k] == SubByte(rotated[k])
        invariant forall k :: i <= k < 4 ==> temp[k] == rotated[k]
      {
        temp[i] := SubByte(temp[i]);
      }

      var rcon := RoundConstant(round);
      temp[0] := Add(temp[0], rcon);
      AddProperties(temp[1], 0);
      AddProperties(temp[2], 0);
      AddProperties(temp[3], 0);
    }

    /** Overwrite one round key with the next. */
    method CalculateRoundKey(round: nat, roundKey: array<bv8>)
      requires round >= 1 && roundKey.Length == 16
      modifies roundKey
      ensures BlockAt(roundKey[..], 0) == Fips197.NextRoundKey(old(BlockAt(roundKey[..], 0)), round)
    {
      hide Fips197.XorWord, Fips197.SubWord, Fips197.Rcon;
      var temp := FirstChainWord(round, roundKey);
      ghost var was := BlockAt(roundKey[..], 0);
      for i := 0 to 4
        invariant WordAt(temp, 0) == ChainWord(was, round, i)
        invariant forall c :: 0 <= c < i ==> ColumnOf(roundKey, c) == ChainWord(was, round, c + 1)
        invariant forall c :: i <= c < 4 ==> ColumnOf(roundKey, c) == KeyColumn(was, c)
      {
        ChainColumn(roundKey, temp, i);
      }
      assert BlockAt(roundKey[..], 0) ==
        Fips197.Block(ColumnOf(roundKey, 0), ColumnOf(roundKey, 1), ColumnOf(roundKey, 2), ColumnOf(roundKey, 3));
    }

    /** The source's inner loop: word `i` is added to the running word, which replaces both. */
    method ChainColumn(roundKey: array<bv8>, temp: array<bv8>, i: nat)
      requires roundKey.Length == 16 && temp.Length == 4 && roundKey != temp && i < 4
      modifies roundKey, temp
      ensures ColumnOf(roundKey, i) == WordAt(temp, 0) ==
        Fips197.XorWord(old(ColumnOf(roundKey, i)), old(WordAt(temp, 0)))
      ensures forall c :: 0 <= c < 4 && c != i ==> ColumnOf(roundKey, c) == old(ColumnOf(roundKey, c))
    {
      hide Add;
      for j := 0 to 4
        invariant forall n :: 0 <= n < 16 && !(4 * i <= n < 4 * i + j) ==> roundKey[n] == old(roundKey[n])
        invariant forall k :: 0 <= k < j ==>
          roundKey[4 * i + k] == temp[k] == Add(old(roundKey[4 * i + k]), old(temp[k]))
        invariant forall k :: j <= k < 4 ==> temp[k] == old(temp[k])
      {
        roundKey[j + 4 * i] := Add(roundKey[j + 4 * i], temp[j]);
        temp[j] := roundKey[j + 4 * i];
      }
    }

    /** Encrypt `data` in place.  `key` may be the same array: it is copied before `data` is written. */
    method Encrypt(data: array<bv8>, key: array<bv8>)
      requires Valid() && data.Length == 16 && key.Length == 16
      modifies State, data
      ensures BlockAt(data[..], 0) == Fips197.Cipher(old(BlockAt(data[..], 0)), old(BlockAt(key[..], 0)))
    {
      hide Fips197.AddRoundKey, Fips197.SubBytes, Fips197.ShiftRows, Fips197.MixColumns, Fips197.RoundKey;
      hide Contents, BlockAt, Fips197.NextRoundKey;
      ghost var k := BlockAt(key[..], 0);
      ghost var block := BlockAt(data[..], 0);
      Load(data);
      var roundKey := new bv8[16];
      for i := 0 to 16
        modifies roundKey
        invariant forall n :: 0 <= n < i ==> roundKey[n] == key[n]
      {
        roundKey[i] := key[i];
      }
      assert key[..] == old(key[..]);
      assert roundKey[..] == key[..];
      Fips197.FirstRoundKey(k);
      AddRoundKey(roundKey);
      var round := 1;
      while round < 10
        modifies State, roundKey
        invariant 1 <= round <= 10
        invariant Contents() == Fips197.Rounds(block, k, round - 1)
        invariant BlockAt(roundKey[..], 0) == Fips197.RoundKey(k, round - 1)
      {
        SubBytes();
        ShiftRows();
        MixColumns();
        CalculateRoundKey(round, roundKey);
        Fips197.RoundKeyStep(k, round);
        AddRoundKey(roundKey);
        round := round + 1;
      }
      SubBytes();
      ShiftRows();
      CalculateRoundKey(round, roundKey);
      Fips197.RoundKeyStep(k, round);
      AddRoundKey(roundKey);
      Store(data);
    }

    /** Input byte r + 4c goes to row r of column c. */
    method Load(data: array<bv8>)
      requires Valid() && data.Length == 16
      modifies State
      ensures Contents() == BlockAt(data[..], 0)
    {
      for column := 0 to 4
        invariant forall r, c :: 0 <= r < 4 && 0 <= c < column ==> State[r, c] == data[r + 4 * c]
      {
        for row := 0 to 4
          invariant forall r, c :: 0 <= r < 4 && (0 <= c < column || (c == column && r < row)) ==>
            State[r, c] == data[r + 4 * c]
        {
          State[row, column] := data[row + 4 * column];
        }
      }
    }

    method Store(data: array<bv8>)
      requires Valid() && data.Length == 16
      modifies data
      ensures BlockAt(data[..], 0) == Contents()
    {
      for column := 0 to 4
        invariant forall r, c :: 0 <= r < 4 && 0 <= c < column ==> data[r + 4 * c] == State[r, c]
      {
        for row := 0 to 4
          invariant forall r, c :: 0 <= r < 4 && (0 <= c < column || (c == column && r < row)) ==>
            data[r + 4 * c] == State[r, c]
        {
          data[row + 4 * column] := State[row, column];
        }
      }
    }
  }

  ghost function WordAt(a: array<bv8>, offset: nat): Word
    requires offset + 4 <= a.Length
    reads a
  {
    Fips197.Word(a[offset], a[offset + 1], a[offset + 2], a[offset + 3])
  }

  ghost function ColumnOf(roundKey: array<bv8>, c: nat): Word
    requires roundKey.Length == 16 && c < 4
    reads roundKey
  {
    WordAt(roundKey, 4 * c)
  }

  function KeyColumn(k: Block, c: nat): Word
    requires c < 4
  {
    if c == 0 then k.c0 else if c == 1 then k.c1 else if c == 2 then k.c2 else k.c3
  }

  /** The running word of the key update after `i` columns. */
  function ChainWord(k: Block, round: nat, i: nat): Word
    requires round >= 1 && i <= 4
  {
    if i == 0 then Fips197.XorWord(Fips197.SubWord(Fips197.RotWord(k.c3)), Fips197.Rcon(round))
    else Fips197.XorWord(KeyColumn(k, i - 1), ChainWord(k, round, i - 1))
  }

  /** A five-way exclusive or, as each line of the column mix computes it. */
  function Sum5(a: bv8, b: bv8, c: bv8, d: bv8, e: bv8): bv8 {
    a ^ b ^ c ^ d ^ e
  }

  // The rows of sums, with x a doubled byte, in the order in which the code adds them.

  lemma SumReordered0(w1: bv8, w2: bv8, w3: bv8, x0: bv8, x1: bv8)
    ensures Sum4(x0, Add(x1, w1), w2, w3) == Sum5(x0, w1, x1, w2, w3)
  {
    assert (x0 ^ (x1 ^ w1)) ^ (w2 ^ w3) == x0 ^ w1 ^ x1 ^ w2 ^ w3;
  }

  lemma SumReordered1(w0: bv8, w2: bv8, w3: bv8, x1: bv8, x2: bv8)
    ensures Sum4(w0, x1, Add(x2, w2), w3) == Sum5(w0, x1, w2, x2, w3)
  {
    assert (w0 ^ x1) ^ ((x2 ^ w2) ^ w3) == w0 ^ x1 ^ w2 ^ x2 ^ w3;
  }

  lemma SumReordered2(w0: bv8, w1: bv8, w3: bv8, x2: bv8, x3: bv8)
    ensures Sum4(w0, w1, x2, Add(x3, w3)) == Sum5(w0, w1, x2, w3, x3)
  {
    assert (w0 ^ w1) ^ (x2 ^ (x3 ^ w3)) == w0 ^ w1 ^ x2 ^ w3 ^ x3;
  }

  lemma SumReordered3(w0: bv8, w1: bv8, w2: bv8, x0: bv8, x3: bv8)
    ensures Sum4(Add(x0, w0), w1, w2, x3) == Sum5(w0, x0, w1, w2, x3)
  {
    assert ((x0 ^ w0) ^ w1) ^ (w2 ^ x3) == w0 ^ x0 ^ w1 ^ w2 ^ x3;
  }

  /** The matrix product of section 5.1.3 written with shifted bytes instead of field products. */
  lemma MixColumnByShifts(w: Word)
    ensures
      var x0, x1, x2, x3 := XTime(w.r0), XTime(w.r1), XTime(w.r2), XTime(w.r3);
      Fips197.MixColumn(w) == Fips197.Word(Sum5(x0, w.r1, x1, w.r2, w.r3), Sum5(w.r0, x1, w.r2, x2, w.r3),
                                           Sum5(w.r0, w.r1, x2, w.r3, x3), Sum5(w.r0, x0, w.r1, w.r2, x3))
  {
    hide Mul, XTime, Sum4, Sum5, Add;
    var x0, x1, x2, x3 := XTime(w.r0), XTime(w.r1), XTime(w.r2), XTime(w.r3);
    SumReordered0(w.r1, w.r2, w.r3, x0, x1);
    SumReordered1(w.r0, w.r2, w.r3, x1, x2);
    SumReordered2(w.r0, w.r1, w.r3, x2, x3);
    SumReordered3(w.r0, w.r1, w.r2, x0, x3);
    MulByOne(w.r0); MulByOne(w.r1); MulByOne(w.r2); MulByOne(w.r3);
    MulByTwo(w.r0); MulByTwo(w.r1); MulByTwo(w.r2); MulByTwo(w.r3);
    MulByThree(w.r0); MulByThree(w.r1); MulByThree(w.r2); MulByThree(w.r3);
  }
}
