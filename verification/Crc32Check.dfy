/** The checksum on machine words, and its check value (src/geekos/crc32.c). */
module Crc32Check {
  import opened Crc32

  /** The word with bit i set alone. */
  function Mask(i: int): bv32 {
    if i == 0 then 0x1 else if i == 1 then 0x2 else if i == 2 then 0x4
    else if i == 3 then 0x8 else if i == 4 then 0x10 else if i == 5 then 0x20
    else if i == 6 then 0x40 else if i == 7 then 0x80 else if i == 8 then 0x100
    else if i == 9 then 0x200 else if i == 10 then 0x400 else if i == 11 then 0x800
    else if i == 12 then 0x1000 else if i == 13 then 0x2000 else if i == 14 then 0x4000
    else if i == 15 then 0x8000 else if i == 16 then 0x10000 else if i == 17 then 0x20000
    else if i == 18 then 0x40000 else if i == 19 then 0x80000 else if i == 20 then 0x100000
    else if i == 21 then 0x200000 else if i == 22 then 0x400000 else if i == 23 then 0x800000
    else if i == 24 then 0x1000000 else if i == 25 then 0x2000000 else if i == 26 then 0x4000000
    else if i == 27 then 0x8000000 else if i == 28 then 0x10000000 else if i == 29 then 0x20000000
    else if i == 30 then 0x40000000 else if i == 31 then 0x80000000
    else 0
  }

  predicate Meets(x: bv32, m: bv32) {
    x & m != 0
  }

  /** Bit i of a word. */
  predicate Bit(x: bv32, i: int) {
    Meets(x, Mask(i))
  }

  function BitsOf(x: bv32): Word {
    seq(32, i => Bit(x, i))
  }

  /** One step of the register, as the table is computed. */
  function ShiftWord(x: bv32): bv32 {
    if x & 1 == 1 then (x >> 1) ^ 0xedb88320 else x >> 1
  }

  /** The register after one byte. */
  function FeedByte(r: bv32, b: bv32): bv32 {
    ShiftWord(ShiftWord(ShiftWord(ShiftWord(ShiftWord(ShiftWord(ShiftWord(ShiftWord(r ^ b))))))))
  }

  function FeedWords(r: bv32, msg: seq<bv32>): bv32
    decreases |msg|
  {
    if msg == [] then r else FeedWords(FeedByte(r, msg[0]), msg[1..])
  }

  /** The checksum of RFC 1952 section 8, on words. */
  function CrcOfWords(msg: seq<bv32>): bv32 {
    FeedWords(0xffffffff, msg) ^ 0xffffffff
  }

  predicate OneBit(m: bv32) {
    m != 0 && m & (m - 1) == 0
  }

  function Double(m: bv32): bv32 {
    m << 1
  }

  lemma MaskOne(i: int)
    requires 0 <= i < 32
    ensures OneBit(Mask(i))
  {
  }

  lemma MaskDoubleLow(i: int)
    requires 0 <= i < 12
    ensures Double(Mask(i)) == Mask(i + 1)
  {
  }

  lemma MaskDoubleMiddle(i: int)
    requires 12 <= i < 22
    ensures Double(Mask(i)) == Mask(i + 1)
  {
  }

  lemma MaskDoubleHigh(i: int)
    requires 22 <= i < 32
    ensures Double(Mask(i)) == Mask(i + 1)
  {
  }

  lemma MaskIs(i: int)
    requires 0 <= i < 32
    ensures OneBit(Mask(i)) && Double(Mask(i)) == Mask(i + 1)
  {
    hide Mask, OneBit, Double;
    MaskOne(i);
    if i < 12 {
      MaskDoubleLow(i);
    } else if i < 22 {
      MaskDoubleMiddle(i);
    } else {
      MaskDoubleHigh(i);
    }
  }

  lemma OneBitMeets(x: bv32, m: bv32)
    requires OneBit(m)
    ensures x & m == 0 || x & m == m
  {
  }

  lemma XorMeets(x: bv32, y: bv32, m: bv32)
    requires OneBit(m)
    ensures Meets(x ^ y, m) == (Meets(x, m) != Meets(y, m))
  {
    OneBitMeets(x, m);
    OneBitMeets(y, m);
    hide OneBit;
  }

  lemma ShiftMeets(x: bv32, m: bv32)
    ensures Meets(x >> 1, m) == Meets(x, Double(m))
    ensures !Meets(x, 0)
  {
  }

  lemma XorBit(x: bv32, y: bv32, i: int)
    requires 0 <= i < 32
    ensures Bit(x ^ y, i) == (Bit(x, i) != Bit(y, i))
  {
    hide Mask, Meets, OneBit, Double;
    MaskIs(i);
    XorMeets(x, y, Mask(i));
  }

  lemma NoMask()
    ensures Mask(32) == 0
  {
  }

  lemma ShiftBit(x: bv32, i: int)
    requires 0 <= i < 32
    ensures Bit(x >> 1, i) == (i < 31 && Bit(x, i + 1))
  {
    hide Mask, Meets, OneBit, Double;
    MaskIs(i);
    ShiftMeets(x, Mask(i));
    NoMask();
  }

  /** The polynomial is the constant of the source. */
  lemma PolynomialBit(i: int)
    requires 0 <= i < 32
    ensures Polynomial()[i] == Bit(0xedb88320, i)
  {
  }

  lemma ZeroBit(x: bv32)
    ensures Bit(x, 0) == (x & 1 == 1)
  {
  }

  lemma ShiftIs(x: bv32)
    ensures Shift(BitsOf(x)) == BitsOf(ShiftWord(x))
  {
    hide Bit, Polynomial, Shift;
    ZeroBit(x);
    forall i | 0 <= i < 32 ensures Shift(BitsOf(x))[i] == BitsOf(ShiftWord(x))[i] {
      ShiftAt(BitsOf(x), i);
      ShiftBit(x, i);
      PolynomialBit(i);
      XorBit(x >> 1, 0xedb88320, i);
    }
  }

  lemma XorIs(x: bv32, y: bv32)
    ensures Xor(BitsOf(x), BitsOf(y)) == BitsOf(x ^ y)
  {
    hide Bit;
    forall i | 0 <= i < 32 ensures Xor(BitsOf(x), BitsOf(y))[i] == BitsOf(x ^ y)[i] { XorBit(x, y, i); }
  }

  lemma OnesBits()
    ensures BitsOf(0xffffffff) == AllOnes() && Invert(Zero()) == AllOnes()
  {
    forall i | 0 <= i < 32 ensures Bit(0xffffffff, i) {}
    assert Invert(Zero()) == AllOnes();
  }

  /** The bits of a byte value, and the message of such bytes. */
  function ByteBits(b: bv32): Byte {
    BitsOf(b)[..8]
  }

  function Message(msg: seq<bv32>): (m: seq<Byte>)
    ensures |m| == |msg|
  {
    if msg == [] then [] else [ByteBits(msg[0])] + Message(msg[1..])
  }

  lemma HighBit(b: bv32, i: int)
    requires b < 256 && 8 <= i
    ensures !Bit(b, i)
  {
  }

  /** Feeding a byte bit by bit is feeding it at once. */
  lemma ByteIs(r: bv32, b: bv32)
    requires b < 256
    ensures FeedBits(BitsOf(r), ByteBits(b)) == BitsOf(FeedByte(r, b))
  {
    hide Bit, Shift, Xor, ShiftWord, FeedBits;
    FeedWindow(BitsOf(r), ByteBits(b));
    forall i | 0 <= i < 32 ensures Window(ByteBits(b))[i] == BitsOf(b)[i] { if i >= 8 { HighBit(b, i); } }
    assert Window(ByteBits(b)) == BitsOf(b);
    XorIs(r, b);
    EightShifts(r ^ b);
  }

  lemma EightShifts(x: bv32)
    ensures Shifts(8, BitsOf(x))
            == BitsOf(ShiftWord(ShiftWord(ShiftWord(ShiftWord(ShiftWord(ShiftWord(ShiftWord(ShiftWord(x)))))))))
  {
    hide Bit, Shift, ShiftWord, BitsOf;
    FourShifts(x);
    FourShifts(ShiftWord(ShiftWord(ShiftWord(ShiftWord(x)))));
    ShiftsCompose(4, 4, BitsOf(x));
  }

  lemma FourShifts(x: bv32)
    ensures Shifts(4, BitsOf(x)) == BitsOf(ShiftWord(ShiftWord(ShiftWord(ShiftWord(x)))))
  {
    hide Bit, Shift, ShiftWord, BitsOf;
    ShiftIs(x);
    ShiftIs(ShiftWord(x));
    ShiftIs(ShiftWord(ShiftWord(x)));
    ShiftIs(ShiftWord(ShiftWord(ShiftWord(x))));
    var h := BitsOf(x);
    assert Shifts(4, h) == Shifts(3, Shift(h)) == Shifts(2, Shift(Shift(h))) == Shifts(1, Shift(Shift(Shift(h))));
    assert Shifts(1, Shift(Shift(Shift(h)))) == Shift(Shift(Shift(Shift(h))));
  }

  ghost predicate AreBytes(msg: seq<bv32>) {
    forall i :: 0 <= i < |msg| ==> msg[i] < 256
  }

  lemma {:induction false} MessageIs(r: bv32, msg: seq<bv32>)
    requires AreBytes(msg)
    ensures FeedBits(BitsOf(r), Bits(Message(msg))) == BitsOf(FeedWords(r, msg))
    decreases |msg|
  {
    hide FeedByte, BitsOf, FeedBits;
    if msg == [] {
      FeedNothing(BitsOf(r));
    } else {
      ByteIs(r, msg[0]);
      MessageIs(FeedByte(r, msg[0]), msg[1..]);
      FeedConcat(BitsOf(r), ByteBits(msg[0]), Bits(Message(msg[1..])));
      assert Message(msg)[1..] == Message(msg[1..]);
    }
  }

  lemma FeedNothing(r: Word)
    ensures FeedBits(r, []) == r
  {
  }

  /** The definition by single bits is the computation on words with the constant of the source. */
  lemma CrcIs(msg: seq<bv32>)
    requires AreBytes(msg)
    ensures Crc(Zero(), Message(msg)) == BitsOf(CrcOfWords(msg))
  {
    hide BitsOf, FeedBits, Bits, FeedWords, Message, AreBytes, Zero, AllOnes, Xor;
    OnesBits();
    MessageIs(0xffffffff, msg);
    XorIs(FeedWords(0xffffffff, msg), 0xffffffff);
  }

  /** "123456789" */
  const DIGITS: seq<bv32> := [0x31, 0x32, 0x33, 0x34, 0x35, 0x36, 0x37, 0x38, 0x39]

  /** The check value of CRC-32. */
  lemma CheckValue()
    ensures Crc(Zero(), Message(DIGITS)) == BitsOf(0xcbf43926)
  {
    hide Crc, Message, BitsOf, FeedByte, FeedWords, Zero;
    CrcIs(DIGITS);
    Empty();
    Value0();
    Digit(0, 0xffffffff, 0x7c231048);
    Value1();
    Digit(1, 0x7c231048, 0xb0acbb32);
    Value2();
    Digit(2, 0xb0acbb32, 0x77b79c2d);
    Value3();
    Digit(3, 0x77b79c2d, 0x641c1f5c);
    Value4();
    Digit(4, 0x641c1f5c, 0x340ac5e3);
    Value5();
    Digit(5, 0x340ac5e3, 0xf68d2c9e);
    Value6();
    Digit(6, 0xf68d2c9e, 0xaffc9660);
    Value7();
    Digit(7, 0xaffc9660, 0x651f2550);
    Value8();
    Digit(8, 0x651f2550, 0x340bc6d9);
    assert DIGITS[..9] == DIGITS;
  }

  lemma Empty()
    ensures FeedWords(0xffffffff, DIGITS[..0]) == 0xffffffff
  {
  }

  lemma Digit(k: nat, r: bv32, s: bv32)
    requires k < 9 && FeedWords(0xffffffff, DIGITS[..k]) == r && FeedByte(r, DIGITS[k]) == s
    ensures FeedWords(0xffffffff, DIGITS[..k + 1]) == s
  {
    hide FeedWords, FeedByte;
    WordsMore(0xffffffff, DIGITS[..k], DIGITS[k]);
    assert DIGITS[..k + 1] == DIGITS[..k] + [DIGITS[k]];
  }

  lemma Value0()
    ensures FeedByte(0xffffffff, 0x31) == 0x7c231048
  {
  }

  lemma Value1()
    ensures FeedByte(0x7c231048, 0x32) == 0xb0acbb32
  {
  }

  lemma Value2()
    ensures FeedByte(0xb0acbb32, 0x33) == 0x77b79c2d
  {
  }

  lemma Value3()
    ensures FeedByte(0x77b79c2d, 0x34) == 0x641c1f5c
  {
  }

  lemma Value4()
    ensures FeedByte(0x641c1f5c, 0x35) == 0x340ac5e3
  {
  }

  lemma Value5()
    ensures FeedByte(0x340ac5e3, 0x36) == 0xf68d2c9e
  {
  }

  lemma Value6()
    ensures FeedByte(0xf68d2c9e, 0x37) == 0xaffc9660
  {
  }

  lemma Value7()
    ensures FeedByte(0xaffc9660, 0x38) == 0x651f2550
  {
  }

  lemma Value8()
    ensures FeedByte(0x651f2550, 0x39) == 0x340bc6d9
  {
  }

  lemma {:induction false} WordsMore(r: bv32, m: seq<bv32>, b: bv32)
    ensures FeedWords(r, m + [b]) == FeedByte(FeedWords(r, m), b)
    decreases |m|
  {
    hide FeedByte;
    if m == [] {
      assert ([] + [b])[0] == b && ([] + [b])[1..] == [];
    } else {
      assert (m + [b])[1..] == m[1..] + [b];
      WordsMore(FeedByte(r, m[0]), m[1..], b);
    }
  }
}
