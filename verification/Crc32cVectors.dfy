/**
 The checksum as software computes it, on a 32-bit word shifted right and, when
 a one falls out, combined with 0x82F63B78. It is the polynomial definition on
 every input, and gives the published check value.
 */
module Crc32cVectors {
  import opened Bytes
  import opened Crc32c

  const REFLECTED: bv32 := 0x82F6_3B78
  const ALL_ONES: bv32 := 0xFFFF_FFFF

  // ---- Words as registers ----------------------------------------------------

  function Low(v: bv32): bool {
    v & 1 == 1
  }

  function Half(v: bv32): bv32 {
    v >> 1
  }

  function Drop4(v: bv32): bv32 {
    v >> 4
  }

  function XorWord(v: bv32, w: bv32): bv32 {
    v ^ w
  }

  lemma FourHalves(v: bv32)
    ensures Half(Half(Half(Half(v)))) == Drop4(v)
  {
  }

  lemma LowBits(v: bv32)
    ensures Low(v) <==> v & 1 == 1
    ensures Low(Half(v)) <==> v & 2 == 2
    ensures Low(Half(Half(v))) <==> v & 4 == 4
    ensures Low(Half(Half(Half(v)))) <==> v & 8 == 8
    ensures Drop4(v) == v >> 4
  {
  }

  /** The low n bits of a word, least significant first. */
  function BitsOf(v: bv32, n: nat): (s: seq<bool>)
    ensures |s| == n
    decreases n
  {
    if n == 0 then [] else [Low(v)] + BitsOf(Half(v), n - 1)
  }

  lemma XorParts(v: bv32, w: bv32)
    ensures Half(XorWord(v, w)) == XorWord(Half(v), Half(w)) && Low(XorWord(v, w)) == (Low(v) != Low(w))
  {
  }

  lemma AddCons(x: bool, s: seq<bool>, y: bool, t: seq<bool>)
    requires |s| == |t|
    ensures AddLeading([x] + s, [y] + t) == [x != y] + AddLeading(s, t)
  {
  }

  lemma {:induction false} XorBits(v: bv32, w: bv32, n: nat)
    ensures BitsOf(XorWord(v, w), n) == AddLeading(BitsOf(v, n), BitsOf(w, n))
    decreases n
  {
    hide Low, Half, XorWord;
    if n > 0 {
      XorParts(v, w);
      XorBits(Half(v), Half(w), n - 1);
      hide AddLeading;
      AddCons(Low(v), BitsOf(Half(v), n - 1), Low(w), BitsOf(Half(w), n - 1));
    }
  }

  /** Bit n of a word. */
  predicate BitAt(v: bv32, n: nat)
    decreases n
  {
    if n == 0 then Low(v) else BitAt(Half(v), n - 1)
  }

  lemma BitAtNibble(v: bv32, n: nat)
    requires n >= 4
    ensures BitAt(v, n) == BitAt(Drop4(v), n - 4)
  {
    hide Half, Drop4;
    FourHalves(v);
    assert BitAt(v, n) == BitAt(Half(v), n - 1) == BitAt(Half(Half(v)), n - 2) == BitAt(Half(Half(Half(v))), n - 3);
  }

  lemma BitAtThree(v: bv32)
    ensures BitAt(v, 3) == Low(Half(Half(Half(v))))
  {
    hide Half, Low;
    assert BitAt(v, 3) == BitAt(Half(v), 2) == BitAt(Half(Half(v)), 1) == BitAt(Half(Half(Half(v))), 0);
  }

  lemma NothingLeft(v: bv32)
    ensures !Low(Half(Half(Half(Drop4(Drop4(Drop4(Drop4(Drop4(Drop4(Drop4(Half(v))))))))))))
  {
  }

  /** Shifting clears the top bit. */
  lemma TopBitClear(v: bv32)
    ensures !BitAt(Half(v), 31)
  {
    hide BitAt, Half, Drop4, Low;
    var w := Half(v);
    BitAtNibble(w, 31);
    BitAtNibble(Drop4(w), 27);
    BitAtNibble(Drop4(Drop4(w)), 23);
    BitAtNibble(Drop4(Drop4(Drop4(w))), 19);
    BitAtNibble(Drop4(Drop4(Drop4(Drop4(w)))), 15);
    BitAtNibble(Drop4(Drop4(Drop4(Drop4(Drop4(w))))), 11);
    BitAtNibble(Drop4(Drop4(Drop4(Drop4(Drop4(Drop4(w)))))), 7);
    BitAtThree(Drop4(Drop4(Drop4(Drop4(Drop4(Drop4(Drop4(w))))))));
    NothingLeft(v);
  }

  lemma {:induction false} OneMoreBit(v: bv32, n: nat)
    ensures BitsOf(v, n + 1) == BitsOf(v, n) + [BitAt(v, n)]
    decreases n
  {
    hide Low, Half;
    if n > 0 {
      OneMoreBit(Half(v), n - 1);
      assert [Low(v)] + (BitsOf(Half(v), n - 1) + [BitAt(v, n)]) == BitsOf(v, n) + [BitAt(v, n)];
    }
  }

  // ---- The generator ---------------------------------------------------------

  /** The low n bits of w are the generator's coefficients of degree e, e + step, and so on. */
  predicate Coefficients(w: bv32, e: int, step: int, n: nat)
    decreases n
  {
    n == 0 || ((e in EXPONENTS <==> Low(w)) && Coefficients(Half(w), e + step, step, n - 1))
  }

  lemma Nibble(w: bv32, rest: bv32, e: int, step: int, n: nat)
    requires n >= 4 && rest == w >> 4 && Coefficients(rest, e + 4 * step, step, n - 4)
    requires e in EXPONENTS <==> w & 1 == 1
    requires e + step in EXPONENTS <==> w & 2 == 2
    requires e + 2 * step in EXPONENTS <==> w & 4 == 4
    requires e + 3 * step in EXPONENTS <==> w & 8 == 8
    ensures Coefficients(w, e, step, n)
  {
    LowBits(w);
    hide Low, Half, Drop4;
    FourHalves(w);
    assert Coefficients(Half(Half(Half(w))), e + 3 * step, step, n - 3);
    assert Coefficients(Half(Half(w)), e + 2 * step, step, n - 2);
    assert Coefficients(Half(w), e + step, step, n - 1);
  }

  lemma NoCoefficients(w: bv32, e: int, step: int)
    ensures Coefficients(w, e, step, 0)
  {
  }

  lemma {:induction false} CoefficientAt(w: bv32, e: int, step: int, n: nat, i: nat)
    requires Coefficients(w, e, step, n) && i < n
    ensures BitsOf(w, n)[i] <==> e + step * i in EXPONENTS
    decreases n
  {
    hide Low, Half;
    if i > 0 {
      CoefficientAt(Half(w), e + step, step, n - 1, i - 1);
      assert e + step + step * (i - 1) == e + step * i;
    }
  }

  lemma GeneratorBits()
    ensures Coefficients(0x1EDC_6F41, 0, 1, 32)
  {
    hide Coefficients;
    NoCoefficients(0, 32, 1);
    Nibble(0x1, 0x0, 28, 1, 4);
    Nibble(0x1E, 0x1, 24, 1, 8);
    Nibble(0x1ED, 0x1E, 20, 1, 12);
    Nibble(0x1EDC, 0x1ED, 16, 1, 16);
    Nibble(0x1_EDC6, 0x1EDC, 12, 1, 20);
    Nibble(0x1E_DC6F, 0x1_EDC6, 8, 1, 24);
    Nibble(0x1ED_C6F4, 0x1E_DC6F, 4, 1, 28);
    Nibble(0x1EDC_6F41, 0x1ED_C6F4, 0, 1, 32);
  }

  lemma ReflectedBits()
    ensures Coefficients(REFLECTED, 31, -1, 32)
  {
    hide Coefficients;
    NoCoefficients(0, -1, -1);
    Nibble(0x8, 0x0, 3, -1, 4);
    Nibble(0x82, 0x8, 7, -1, 8);
    Nibble(0x82F, 0x82, 11, -1, 12);
    Nibble(0x82F6, 0x82F, 15, -1, 16);
    Nibble(0x8_2F63, 0x82F6, 19, -1, 20);
    Nibble(0x82_F63B, 0x8_2F63, 23, -1, 24);
    Nibble(0x82F_63B7, 0x82_F63B, 27, -1, 28);
    Nibble(0x82F6_3B78, 0x82F_63B7, 31, -1, 32);
  }

  /** The generator is x^32 and the bits of 0x1EDC6F41 below it, highest first: 0x11EDC6F41. */
  lemma GeneratorIs()
    ensures Generator()[0]
    ensures forall i :: 0 <= i < 32 ==> BitsOf(0x1EDC_6F41, 32)[i] == Generator()[32 - i]
  {
    hide BitsOf, Coefficients;
    GeneratorBits();
    forall i | 0 <= i < 32 ensures BitsOf(0x1EDC_6F41, 32)[i] == Generator()[32 - i] {
      CoefficientAt(0x1EDC_6F41, 0, 1, 32, i);
    }
  }

  /** Reflected, it is the register 0x82F63B78. */
  lemma GeneratorReflected()
    ensures Generator()[1..] == BitsOf(REFLECTED, 32)
  {
    hide BitsOf, Coefficients;
    ReflectedBits();
    forall i | 0 <= i < 32 ensures Generator()[1..][i] == BitsOf(REFLECTED, 32)[i] {
      CoefficientAt(REFLECTED, 31, -1, 32, i);
    }
  }

  // ---- The software form -----------------------------------------------------

  /** One shift: the bit that falls out, against the input bit, decides about the generator. */
  function Shift(v: bv32, b: bool): bv32 {
    if (v & 1 == 1) != b then (v >> 1) ^ REFLECTED else v >> 1
  }

  /** Eight shifts, one for each bit of a byte. */
  function ShiftByte(v: bv32, b: seq<bool>): bv32
    requires |b| == 8
  {
    Shift(Shift(Shift(Shift(Shift(Shift(Shift(Shift(v, b[0]), b[1]), b[2]), b[3]), b[4]), b[5]), b[6]), b[7])
  }

  function Software(v: bv32, data: seq<byte>): bv32
    decreases |data|
  {
    if data == [] then v else Software(ShiftByte(v, Bits(data[0], 8)), data[1..])
  }

  /** A shift of the word is a clock of the register. */
  lemma ShiftIsClock(v: bv32, b: bool)
    ensures BitsOf(Shift(v, b), 32) == Clock(BitsOf(v, 32), b)
  {
    hide BitsOf, BitAt, Generator, AddLeading, Low, Half, XorWord, Shift;
    ShiftParts(v, b);
    TopBitClear(v);
    ShiftedBits(v, 31);
    XorBits(Half(v), REFLECTED, 32);
    GeneratorReflected();
  }

  lemma ShiftParts(v: bv32, b: bool)
    ensures Shift(v, b) == if Low(v) != b then XorWord(Half(v), REFLECTED) else Half(v)
  {
  }

  lemma ShiftedBits(v: bv32, n: nat)
    requires !BitAt(Half(v), n)
    ensures BitsOf(v, n + 1)[0] == Low(v) && BitsOf(v, n + 1)[1..] + [false] == BitsOf(Half(v), n + 1)
  {
    hide Low, Half;
    OneMoreBit(Half(v), n);
  }

  lemma ByteIsFeed(v: bv32, b: seq<bool>)
    requires |b| == 8
    ensures BitsOf(ShiftByte(v, b), 32) == Feed(BitsOf(v, 32), b)
  {
    hide Shift, BitsOf, Clock;
    var v1 := Shift(v, b[0]);
    var v2 := Shift(v1, b[1]);
    var v3 := Shift(v2, b[2]);
    var v4 := Shift(v3, b[3]);
    var v5 := Shift(v4, b[4]);
    var v6 := Shift(v5, b[5]);
    var v7 := Shift(v6, b[6]);
    var v8 := Shift(v7, b[7]);
    FeedOne(v, b, 0);
    FeedOne(v1, b, 1);
    FeedOne(v2, b, 2);
    FeedOne(v3, b, 3);
    FeedOne(v4, b, 4);
    FeedOne(v5, b, 5);
    FeedOne(v6, b, 6);
    FeedOne(v7, b, 7);
    assert b[0..] == b && b[8..] == [];
  }

  lemma FeedOne(v: bv32, b: seq<bool>, i: nat)
    requires i < |b|
    ensures Feed(BitsOf(v, 32), b[i..]) == Feed(BitsOf(Shift(v, b[i]), 32), b[i + 1..])
  {
    hide Shift, BitsOf, Clock;
    ShiftIsClock(v, b[i]);
    assert b[i..][1..] == b[i + 1..];
  }

  lemma {:induction false} SoftwareIsFeed(v: bv32, data: seq<byte>)
    ensures BitsOf(Software(v, data), 32) == Feed(BitsOf(v, 32), MessageBits(data))
    decreases |data|
  {
    hide ShiftByte, Bits, BitsOf;
    if data != [] {
      ByteIsFeed(v, Bits(data[0], 8));
      SoftwareIsFeed(ShiftByte(v, Bits(data[0], 8)), data[1..]);
      FeedConcat(BitsOf(v, 32), Bits(data[0], 8), MessageBits(data[1..]));
    }
  }

  // ---- Words as numbers --------------------------------------------------------

  lemma SameNibble(v: bv32, rest: bv32, w: nat, n: nat)
    requires n >= 4 && rest == v >> 4 && BitsOf(rest, n - 4) == Bits(w / 16, n - 4)
    requires v & 1 == 1 <==> w % 2 == 1
    requires v & 2 == 2 <==> w / 2 % 2 == 1
    requires v & 4 == 4 <==> w / 4 % 2 == 1
    requires v & 8 == 8 <==> w / 8 % 2 == 1
    ensures BitsOf(v, n) == Bits(w, n)
  {
    LowBits(v);
    hide BitsOf, Bits, Low, Half, Drop4;
    FourHalves(v);
    assert w / 2 / 2 == w / 4 && w / 2 / 2 / 2 == w / 8 && w / 2 / 2 / 2 / 2 == w / 16;
    SameBit(Half(Half(Half(v))), w / 2 / 2 / 2, n - 3);
    SameBit(Half(Half(v)), w / 2 / 2, n - 2);
    SameBit(Half(v), w / 2, n - 1);
    SameBit(v, w, n);
  }

  lemma SameBit(v: bv32, w: nat, n: nat)
    requires n >= 1 && BitsOf(Half(v), n - 1) == Bits(w / 2, n - 1)
    requires Low(v) <==> w % 2 == 1
    ensures BitsOf(v, n) == Bits(w, n)
  {
    hide Low, Half;
  }

  lemma NoBits(v: bv32, w: nat)
    ensures BitsOf(v, 0) == Bits(w, 0)
  {
  }

  lemma {:induction false} BitsRead(v: nat, n: nat)
    requires v < Pow2(n)
    ensures BitsValue(Bits(v, n)) == v
    decreases n, v
  {
    if n > 0 {
      BitsRead(v / 2, n - 1);
      assert Bits(v, n)[1..] == Bits(v / 2, n - 1);
    }
  }

  lemma {:induction false} OnesAre(n: nat)
    ensures Bits(Pow2(n) - 1, n) == Flip(ZeroBits(n))
  {
    if n > 0 {
      OnesAre(n - 1);
      assert (Pow2(n) - 1) / 2 == Pow2(n - 1) - 1 && (Pow2(n) - 1) % 2 == 1;
      assert Flip(ZeroBits(n)) == [true] + Flip(ZeroBits(n - 1));
    }
  }

  /** The word of all ones is the initial register. */
  lemma StartsAtOnes()
    ensures BitsOf(ALL_ONES, 32) == Ones()
  {
    hide BitsOf, Bits;
    NoBits(0, 0);
    SameNibble(0xF, 0x0, 0xF, 4);
    SameNibble(0xFF, 0xF, 0xFF, 8);
    SameNibble(0xFFF, 0xFF, 0xFFF, 12);
    SameNibble(0xFFFF, 0xFFF, 0xFFFF, 16);
    SameNibble(0xF_FFFF, 0xFFFF, 0xF_FFFF, 20);
    SameNibble(0xFF_FFFF, 0xF_FFFF, 0xFF_FFFF, 24);
    SameNibble(0xFFF_FFFF, 0xFF_FFFF, 0xFFF_FFFF, 28);
    SameNibble(0xFFFF_FFFF, 0xFFF_FFFF, 0xFFFF_FFFF, 32);
    Pow2Of32();
    OnesAre(32);
  }

  lemma FlipBits(v: bv32)
    ensures Flip(BitsOf(v, 32)) == BitsOf(XorWord(v, ALL_ONES), 32)
  {
    hide BitsOf;
    StartsAtOnes();
    XorBits(v, ALL_ONES, 32);
  }

  /** On every input the checksum is the software loop from all ones, complemented. */
  lemma SoftwareForm(data: seq<byte>)
    ensures Checksum(data) == BitsValue(BitsOf(XorWord(Software(ALL_ONES, data), ALL_ONES), 32))
  {
    hide Feed, BitsOf, Software, Absorb, MessageBits, BitsValue, Ones;
    StartsAtOnes();
    SoftwareIsFeed(ALL_ONES, data);
    AbsorbIsFeed(Ones(), MessageBits(data));
    FlipBits(Software(ALL_ONES, data));
  }

  // ---- The published check value -----------------------------------------------

  /** The nine bytes "123456789". */
  const DIGITS: seq<byte> := [0x31, 0x32, 0x33, 0x34, 0x35, 0x36, 0x37, 0x38, 0x39]

  /** The bits of a byte, one by one. */
  function ByteBits(w: nat): (s: seq<bool>)
    ensures |s| == 8
  {
    [w % 2 == 1, w / 2 % 2 == 1, w / 4 % 2 == 1, w / 8 % 2 == 1,
     w / 16 % 2 == 1, w / 32 % 2 == 1, w / 64 % 2 == 1, w / 128 % 2 == 1]
  }

  lemma OneBit(w: nat, n: nat)
    ensures Bits(w, n + 1) == [w % 2 == 1] + Bits(w / 2, n)
  {
  }

  lemma FourBits(w: nat, n: nat)
    ensures Bits(w, n + 4) == [w % 2 == 1, w / 2 % 2 == 1, w / 4 % 2 == 1, w / 8 % 2 == 1] + Bits(w / 16, n)
  {
    hide Bits;
    OneBit(w, n + 3);
    OneBit(w / 2, n + 2);
    OneBit(w / 4, n + 1);
    OneBit(w / 8, n);
    assert w / 2 / 2 == w / 4 && w / 4 / 2 == w / 8 && w / 8 / 2 == w / 16;
    var rest := Bits(w / 16, n);
    assert [w % 2 == 1] + ([w / 2 % 2 == 1] + ([w / 4 % 2 == 1] + ([w / 8 % 2 == 1] + rest)))
        == [w % 2 == 1, w / 2 % 2 == 1, w / 4 % 2 == 1, w / 8 % 2 == 1] + rest;
  }

  lemma BitsOfByte(w: nat)
    ensures Bits(w, 8) == ByteBits(w)
  {
    NoBits(0, w / 16 / 16);
    assert BitsOf(0, 0) == [];
    hide Bits, BitsOf;
    FourBits(w, 4);
    FourBits(w / 16, 0);
    assert w / 16 / 2 == w / 32 && w / 16 / 4 == w / 64 && w / 16 / 8 == w / 128;
  }

  /** Digit d takes the word from v to w. */
  lemma DigitStep(v: bv32, d: nat, w: bv32)
    requires 1 <= d <= 9 && w == ShiftByte(v, ByteBits(0x30 + d))
    ensures Software(v, DIGITS[d - 1..]) == Software(w, DIGITS[d..])
  {
    hide ShiftByte, Bits, ByteBits;
    BitsOfByte(0x30 + d);
    assert DIGITS[d - 1] == 0x30 + d && DIGITS[d - 1..][1..] == DIGITS[d..];
  }

  lemma DigitsSoftware()
    ensures Software(ALL_ONES, DIGITS) == 0x1CF9_6D7C
  {
    hide Software;
    assert DIGITS[0..] == DIGITS;
    DigitStep(ALL_ONES, 1, 0x6F0A_661C);
    DigitStep(0x6F0A_661C, 2, 0x8CAA_3B9F);
    DigitStep(0x8CAA_3B9F, 3, 0xEF84_D04D);
    DigitStep(0xEF84_D04D, 4, 0x09C5_0B11);
    DigitStep(0x09C5_0B11, 5, 0xE72E_DCCA);
    DigitStep(0xE72E_DCCA, 6, 0xBECA_8E79);
    DigitStep(0xBECA_8E79, 7, 0xEDBD_6815);
    DigitStep(0xEDBD_6815, 8, 0x9F78_7F65);
    DigitStep(0x9F78_7F65, 9, 0x1CF9_6D7C);
    assert DIGITS[9..] == [];
    SoftwareEnd(0x1CF9_6D7C);
  }

  lemma SoftwareEnd(v: bv32)
    ensures Software(v, []) == v
  {
  }

  /** CRC32C of "123456789" is 0xE3069283. */
  lemma CheckValue()
    ensures Checksum(DIGITS) == 0xE306_9283
  {
    hide BitsOf, Bits, Software, BitsValue, Checksum;
    SoftwareForm(DIGITS);
    DigitsSoftware();
    NoBits(0, 0);
    SameNibble(0xE, 0x0, 0xE, 4);
    SameNibble(0xE3, 0xE, 0xE3, 8);
    SameNibble(0xE30, 0xE3, 0xE30, 12);
    SameNibble(0xE306, 0xE30, 0xE306, 16);
    SameNibble(0xE_3069, 0xE306, 0xE_3069, 20);
    SameNibble(0xE3_0692, 0xE_3069, 0xE3_0692, 24);
    SameNibble(0xE30_6928, 0xE3_0692, 0xE30_6928, 28);
    SameNibble(0xE306_9283, 0xE30_6928, 0xE306_9283, 32);
    Pow2Of32();
    BitsRead(0xE306_9283, 32);
  }
}
