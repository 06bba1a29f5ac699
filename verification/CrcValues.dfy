/** What the checksum is, in numbers: the published check value, and the residue that every stream followed by its own
    checksum leaves. A register is also a 32-bit vector here. */
module CrcValues {
  import opened Bytes
  import opened Crc32

  // ---- Registers as bit vectors ----

  function Half(x: bv32): bv32 {
    x >> 1
  }

  predicate Odd(x: bv32) {
    x & 1 != 0
  }

  function Mixed(x: bv32, y: bv32): bv32 {
    x ^ y
  }

  /** The low bits of a vector, least significant first. */
  function BitsOf(x: bv32, width: nat): (r: seq<bool>)
    ensures |r| == width
  {
    if width == 0 then [] else [Odd(x)] + BitsOf(Half(x), width - 1)
  }

  function Of(x: bv32): (r: Word) {
    BitsOf(x, 32)
  }

  function Dropped(x: bv32, n: nat): bv32 {
    if n == 0 then x else Dropped(Half(x), n - 1)
  }

  lemma {:induction false} BitsOfSplit(x: bv32, k: nat, width: nat)
    requires k <= width
    ensures BitsOf(x, width) == BitsOf(x, k) + BitsOf(Dropped(x, k), width - k)
    decreases k
  {
    hide Half, Odd;
    if k > 0 {
      BitsOfSplit(Half(x), k - 1, width - 1);
    }
  }

  function Octave(x: bv32): bv32 {
    x >> 8
  }

  lemma {:induction false} DroppedOctet(x: bv32)
    ensures Dropped(x, 8) == Octave(x)
  {
    assert Half(Half(Half(Half(Half(Half(Half(Half(x)))))))) == Octave(x);
    EightHalves(x);
  }

  lemma {:induction false} EightHalves(x: bv32)
    ensures Dropped(x, 8) == Half(Half(Half(Half(Half(Half(Half(Half(x))))))))
  {
    hide Half;
    assert Dropped(x, 8) == Dropped(Half(Half(x)), 6);
    var y := Half(Half(x));
    assert Dropped(y, 6) == Dropped(Half(Half(y)), 4);
    var z := Half(Half(y));
    assert Dropped(z, 4) == Dropped(Half(Half(z)), 2);
    var w := Half(Half(z));
    assert Dropped(w, 2) == Dropped(Half(w), 1) == Dropped(Half(Half(w)), 0);
  }

  /** Four octets. */
  lemma {:induction false} Octets(x: bv32)
    ensures Of(x) == BitsOf(x, 8) + BitsOf(Octave(x), 8) + BitsOf(Octave(Octave(x)), 8)
                     + BitsOf(Octave(Octave(Octave(x))), 8)
  {
    hide BitsOf, Dropped, Octave;
    var y := Octave(x);
    var z := Octave(y);
    DroppedOctet(x);
    DroppedOctet(y);
    DroppedOctet(z);
    BitsOfSplit(x, 8, 32);
    BitsOfSplit(y, 8, 24);
    BitsOfSplit(z, 8, 16);
  }

  lemma XorHalves(x: bv32, y: bv32)
    ensures Half(Mixed(x, y)) == Mixed(Half(x), Half(y)) && (Odd(Mixed(x, y)) <==> Odd(x) != Odd(y))
  {}

  lemma {:induction false} XorBits(x: bv32, y: bv32, n: nat, i: nat)
    requires i < n
    ensures BitsOf(Mixed(x, y), n)[i] == (BitsOf(x, n)[i] != BitsOf(y, n)[i])
    decreases n
  {
    hide Half, Odd, Mixed, BitsOf;
    XorHalves(x, y);
    BitsFront(x, n);
    BitsFront(y, n);
    BitsFront(Mixed(x, y), n);
    if i > 0 {
      XorBits(Half(x), Half(y), n - 1, i - 1);
    }
  }

  lemma {:induction false} XorOf(x: bv32, y: bv32)
    ensures Xor(Of(x), Of(y)) == Of(Mixed(x, y))
  {
    hide BitsOf, Mixed;
    forall i | 0 <= i < 32 ensures Xor(Of(x), Of(y))[i] == Of(Mixed(x, y))[i] {
      XorBits(x, y, 32, i);
    }
  }

  lemma {:induction false} DroppedTwice(x: bv32, a: nat, b: nat)
    ensures Dropped(x, a + b) == Dropped(Dropped(x, a), b)
    decreases a
  {
    hide Half;
    if a > 0 {
      DroppedTwice(Half(x), a - 1, b);
    }
  }

  lemma FourOctets(x: bv32)
    ensures Octave(Octave(Octave(Octave(x)))) == 0
  {}

  lemma {:induction false} AllDropped(x: bv32)
    ensures Dropped(x, 32) == 0
  {
    hide Dropped, Octave;
    DroppedOctet(x);
    DroppedOctet(Octave(x));
    DroppedOctet(Octave(Octave(x)));
    DroppedOctet(Octave(Octave(Octave(x))));
    DroppedTwice(x, 8, 24);
    DroppedTwice(Octave(x), 8, 16);
    DroppedTwice(Octave(Octave(x)), 8, 8);
    FourOctets(x);
  }

  lemma {:induction false} ShrOf(x: bv32)
    ensures Shr(Of(x), 1) == Of(Half(x))
  {
    hide BitsOf, Dropped, Half, Odd;
    AllDropped(x);
    DroppedTwice(x, 1, 31);
    BitsOfSplit(Half(x), 31, 32);
    BitsOfSplit(x, 1, 32);
    OneDropped(x);
    NoneLeft();
  }

  lemma OneDropped(x: bv32)
    ensures Dropped(x, 1) == Half(x)
  {}

  lemma NoneLeft()
    ensures BitsOf(0, 1) == Fill(1, false)
  {}

  // ---- The division, on vectors ----

  const GENERATOR: bv32 := 0xEDB8_8320

  function Divided(x: bv32): bv32 {
    if Odd(x) then Mixed(GENERATOR, Half(x)) else Half(x)
  }

  lemma {:induction false} GeneratorOf()
    ensures POLYNOMIAL == Of(GENERATOR)
  {
    hide Octave, BitsOf;
    Octets(GENERATOR);
    OctavesOf();
    GeneratorOctets();
  }

  lemma BitsFront(x: bv32, n: nat)
    requires n > 0
    ensures BitsOf(x, n) == [Odd(x)] + BitsOf(Half(x), n - 1)
  {
    hide Odd, Half;
  }

  lemma NoBits(x: bv32)
    ensures BitsOf(x, 0) == []
  {}

  lemma {:induction false} FourBits(x: bv32)
    ensures BitsOf(x, 4) == [Odd(x), Odd(Half(x)), Odd(Half(Half(x))), Odd(Half(Half(Half(x))))]
  {
    hide Odd, Half, BitsOf;
    BitsFront(x, 4);
    BitsFront(Half(x), 3);
    BitsFront(Half(Half(x)), 2);
    BitsFront(Half(Half(Half(x))), 1);
    NoBits(Half(Half(Half(Half(x)))));
  }

  function Nibble(x: bv32): bv32 {
    x >> 4
  }

  lemma FourHalves(x: bv32)
    ensures Half(Half(Half(Half(x)))) == Nibble(x)
  {}

  lemma {:induction false} DroppedNibble(x: bv32)
    ensures Dropped(x, 4) == Nibble(x)
  {
    hide Half, Nibble;
    assert Dropped(x, 4) == Dropped(Half(Half(x)), 2);
    var y := Half(Half(x));
    assert Dropped(y, 2) == Dropped(Half(y), 1) == Dropped(Half(Half(y)), 0);
    FourHalves(x);
  }

  lemma {:induction false} EightBits(x: bv32)
    ensures var y := Nibble(x);
            BitsOf(x, 8) == [Odd(x), Odd(Half(x)), Odd(Half(Half(x))), Odd(Half(Half(Half(x)))),
                             Odd(y), Odd(Half(y)), Odd(Half(Half(y))), Odd(Half(Half(Half(y))))]
  {
    hide Odd, Half, BitsOf, Nibble, Dropped;
    BitsOfSplit(x, 4, 8);
    DroppedNibble(x);
    FourBits(x);
    FourBits(Nibble(x));
  }

  lemma {:induction false} GeneratorOctets()
    ensures BitsOf(GENERATOR, 8) == POLYNOMIAL_20 && BitsOf(0xED_B883, 8) == POLYNOMIAL_83
    ensures BitsOf(0xEDB8, 8) == POLYNOMIAL_B8 && BitsOf(0xED, 8) == POLYNOMIAL_ED
  {
    hide BitsOf;
    EightBits(GENERATOR);
    EightBits(0xED_B883);
    EightBits(0xEDB8);
    EightBits(0xED);
  }

  lemma OctavesOf()
    ensures Octave(GENERATOR) == 0xED_B883 && Octave(0xED_B883) == 0xEDB8 && Octave(0xEDB8) == 0xED
  {}

  lemma {:induction false} ShiftOf(x: bv32)
    ensures Shift(Of(x)) == Of(Divided(x))
  {
    hide BitsOf, Half, Mixed;
    GeneratorOf();
    ShrOf(x);
    XorOf(GENERATOR, Half(x));
    LowestBit(x);
  }

  lemma LowestBit(x: bv32)
    ensures Of(x)[0] == Odd(x)
  {}

  /** Eight shifts: what one byte costs. */
  function Eight(x: bv32): bv32 {
    Divided(Divided(Divided(Divided(Divided(Divided(Divided(Divided(x))))))))
  }

  lemma {:induction false} TwoShifts(w: Word, n: nat)
    requires n >= 2
    ensures Shifts(w, n) == Shift(Shift(Shifts(w, n - 2)))
  {
    hide Shift;
    assert Shifts(w, n - 1) == Shift(Shifts(w, n - 2));
  }

  lemma {:induction false} EightOf(x: bv32)
    ensures Shifts(Of(x), 8) == Of(Eight(x))
  {
    hide Shift, Of, Divided, Shifts;
    TwoShifts(Of(x), 8);
    TwoShifts(Of(x), 6);
    TwoShifts(Of(x), 4);
    TwoShifts(Of(x), 2);
    assert Shifts(Of(x), 0) == Of(x) by { NoShift(Of(x)); }
    ShiftOf(x);
    ShiftOf(Divided(x));
    var y := Divided(Divided(x));
    ShiftOf(y);
    ShiftOf(Divided(y));
    var z := Divided(Divided(y));
    ShiftOf(z);
    ShiftOf(Divided(z));
    var v := Divided(Divided(z));
    ShiftOf(v);
    ShiftOf(Divided(v));
  }

  lemma NoShift(w: Word)
    ensures Shifts(w, 0) == w
  {}

  lemma {:induction false} ShiftsAdd(w: Word, m: nat, n: nat)
    ensures Shifts(w, m + n) == Shifts(Shifts(w, m), n)
    decreases n
  {
    hide Shift;
    if n > 0 {
      ShiftsAdd(w, m, n - 1);
    }
  }

  /** A full register of shifts. */
  lemma {:induction false} ThirtyTwo(x: bv32)
    ensures Shifts(Of(x), 32) == Of(Eight(Eight(Eight(Eight(x)))))
  {
    hide Shifts, Of, Eight;
    ShiftsAdd(Of(x), 8, 24);
    EightOf(x);
    var y := Eight(x);
    ShiftsAdd(Of(y), 8, 16);
    EightOf(y);
    ShiftsAdd(Of(Eight(y)), 8, 8);
    EightOf(Eight(y));
    EightOf(Eight(Eight(y)));
  }

  // ---- Numbers ----

  /** The number a vector denotes, from its octets. */
  lemma {:induction false} NumberOf(x: bv32)
    ensures Value(Of(x)) == Value(BitsOf(x, 8)) + 0x100 * Value(BitsOf(Octave(x), 8))
                            + 0x1_0000 * Value(BitsOf(Octave(Octave(x)), 8))
                            + 0x100_0000 * Value(BitsOf(Octave(Octave(Octave(x))), 8))
  {
    hide Value, BitsOf, Octave, Of;
    var a, b, c, d := BitsOf(x, 8), BitsOf(Octave(x), 8), BitsOf(Octave(Octave(x)), 8),
                      BitsOf(Octave(Octave(Octave(x))), 8);
    Octets(x);
    Powers();
    ValueOfAppend(a, b);
    ValueOfAppend(a + b, c);
    ValueOfAppend(a + b + c, d);
  }

  lemma {:induction false} Powers()
    ensures Pow2(8) == 0x100 && Pow2(16) == 0x1_0000 && Pow2(24) == 0x100_0000
  {
    assert Pow2(8) == 0x100 by { assert Pow2(4) == 16; }
    assert Pow2(16) == 0x1_0000 by { assert Pow2(12) == 4096; }
    assert Pow2(24) == 0x100_0000 by { assert Pow2(20) == 0x10_0000; }
  }

  lemma {:induction false} OctetNumber(x: bv32)
    ensures var y := Nibble(x);
            Value(BitsOf(x, 8)) ==
            Bit(Odd(x)) + 2 * Bit(Odd(Half(x))) + 4 * Bit(Odd(Half(Half(x)))) + 8 * Bit(Odd(Half(Half(Half(x)))))
            + 16 * Bit(Odd(y)) + 32 * Bit(Odd(Half(y))) + 64 * Bit(Odd(Half(Half(y))))
            + 128 * Bit(Odd(Half(Half(Half(y)))))
  {
    hide Value, BitsOf, Odd, Half, Nibble, Bit;
    EightBits(x);
    OctetValue(BitsOf(x, 8));
  }

  lemma {:induction false} ResidueNumber()
    ensures Value(Of(0x2144_DF1C)) == 0x2144_DF1C
  {
    hide Value, BitsOf, Of;
    NumberOf(0x2144_DF1C);
    OctetNumber(0x2144_DF1C);
    OctetNumber(0x21_44DF);
    OctetNumber(0x2144);
    OctetNumber(0x21);
    assert Octave(0x2144_DF1C) == 0x21_44DF && Octave(0x21_44DF) == 0x2144 && Octave(0x2144) == 0x21;
  }

  // ---- Check values ----

  lemma {:induction false} OnesOf()
    ensures ALL_ONES == Of(0xFFFF_FFFF)
  {
    hide BitsOf, Of, Octave;
    Octets(0xFFFF_FFFF);
    OnesOctaves();
    OnesOctets();
  }

  lemma OnesOctaves()
    ensures Octave(0xFFFF_FFFF) == 0xFF_FFFF && Octave(0xFF_FFFF) == 0xFFFF && Octave(0xFFFF) == 0xFF
  {}

  lemma {:induction false} OnesOctets()
    ensures BitsOf(0xFFFF_FFFF, 8) == BitsOf(0xFF_FFFF, 8) == BitsOf(0xFFFF, 8) == BitsOf(0xFF, 8) == Fill(8, true)
  {
    hide BitsOf;
    EightBits(0xFFFF_FFFF);
    EightBits(0xFF_FFFF);
    EightBits(0xFFFF);
    EightBits(0xFF);
  }

  /** A byte is fed. */
  lemma {:induction false} ByteOf(x: bv32, b: byte, y: bv32)
    requires Octet(b) == Of(y)
    ensures FeedBits(Of(x), Bits(b as int, 8)) == Of(Eight(Mixed(x, y)))
  {
    hide Of, Eight, Mixed, Xor, Shifts, FeedBits, Bits, Octet;
    OctetBits(Of(x), b);
    XorOf(x, y);
    EightOf(Mixed(x, y));
  }

  /** A character is its octet. */
  lemma {:induction false} OctetOf(b: byte, y: bv32)
    requires Value(BitsOf(y, 8)) == b as int && Octave(y) == 0
    ensures Octet(b) == Of(y)
  {
    hide BitsOf, Bits, Value;
    BitsOfValue(BitsOf(y, 8));
    Octets(y);
    assert Octave(0) == 0;
    ZeroOctet();
  }

  lemma {:induction false} ZeroOctet()
    ensures BitsOf(0, 8) == Fill(8, false)
  {
    hide BitsOf;
    EightBits(0);
  }

  lemma {:induction false} Residue32()
    ensures Xor(Shifts(ALL_ONES, 32), ALL_ONES) == Of(0x2144_DF1C)
  {
    hide Shifts, Of, Xor;
    OnesOf();
    ThirtyTwo(0xFFFF_FFFF);
    ResidueDivided();
    XorOf(0xDEBB_20E3, 0xFFFF_FFFF);
    assert Mixed(0xDEBB_20E3, 0xFFFF_FFFF) == 0x2144_DF1C;
  }

  lemma ResidueDivided()
    ensures Eight(Eight(Eight(Eight(0xFFFF_FFFF)))) == 0xDEBB_20E3
  {}

  lemma {:induction false} Fed(c: Word, data: Bytes, b: byte, x: bv32, y: bv32, z: bv32)
    requires FeedBytes(c, data) == Of(x) && Value(BitsOf(y, 8)) == b as int && Octave(y) == 0 && Eight(Mixed(x, y)) == z
    ensures FeedBytes(c, data + [b]) == Of(z)
  {
    hide Of, BitsOf, Value, Octave, Eight, Mixed, FeedBits, Bits;
    OctetOf(b, y);
    ByteOf(x, b, y);
    assert (data + [b])[..|data|] == data;
  }

  lemma {:induction false} FirstThree(c: Word, data: Bytes)
    requires FeedBytes(c, data) == Of(0xFFFF_FFFF)
    ensures FeedBytes(c, data + "123") == Of(0x77B7_9C2D)
  {
    hide FeedBytes, Of, BitsOf, Value;
    OctetNumber(0x31);
    OctetNumber(0x32);
    OctetNumber(0x33);
    assert data + "1" + "2" == data + "12" && data + "12" + "3" == data + "123";
    Fed(c, data, '1', 0xFFFF_FFFF, 0x31, 0x7C23_1048);
    Fed(c, data + "1", '2', 0x7C23_1048, 0x32, 0xB0AC_BB32);
    Fed(c, data + "12", '3', 0xB0AC_BB32, 0x33, 0x77B7_9C2D);
  }

  lemma {:induction false} NextThree(c: Word, data: Bytes)
    requires FeedBytes(c, data) == Of(0x77B7_9C2D)
    ensures FeedBytes(c, data + "456") == Of(0xF68D_2C9E)
  {
    hide FeedBytes, Of, BitsOf, Value;
    OctetNumber(0x34);
    OctetNumber(0x35);
    OctetNumber(0x36);
    assert data + "4" + "5" == data + "45" && data + "45" + "6" == data + "456";
    Fed(c, data, '4', 0x77B7_9C2D, 0x34, 0x641C_1F5C);
    Fed(c, data + "4", '5', 0x641C_1F5C, 0x35, 0x340A_C5E3);
    Fed(c, data + "45", '6', 0x340A_C5E3, 0x36, 0xF68D_2C9E);
  }

  lemma {:induction false} LastThree(c: Word, data: Bytes)
    requires FeedBytes(c, data) == Of(0xF68D_2C9E)
    ensures FeedBytes(c, data + "789") == Of(0x340B_C6D9)
  {
    hide FeedBytes, Of, BitsOf, Value;
    OctetNumber(0x37);
    OctetNumber(0x38);
    OctetNumber(0x39);
    assert data + "7" + "8" == data + "78" && data + "78" + "9" == data + "789";
    Fed(c, data, '7', 0xF68D_2C9E, 0x37, 0xAFFC_9660);
    Fed(c, data + "7", '8', 0xAFFC_9660, 0x38, 0x651F_2550);
    Fed(c, data + "78", '9', 0x651F_2550, 0x39, 0x340B_C6D9);
  }

  lemma {:induction false} CheckNumber()
    ensures Value(Of(0xCBF4_3926)) == 0xCBF4_3926
  {
    hide Value, BitsOf, Of;
    NumberOf(0xCBF4_3926);
    OctetNumber(0xCBF4_3926);
    OctetNumber(0xCB_F439);
    OctetNumber(0xCBF4);
    OctetNumber(0xCB);
    assert Octave(0xCBF4_3926) == 0xCB_F439 && Octave(0xCB_F439) == 0xCBF4 && Octave(0xCBF4) == 0xCB;
  }

  /** The published check value of CRC-32. */
  lemma {:induction false} CheckValue()
    ensures Crc("123456789") == 0xCBF4_3926
  {
    hide FeedBytes, Of, Value, Xor;
    OnesOf();
    var c := Xor(ZERO, ALL_ONES);
    assert c == ALL_ONES by { ZeroXor(ALL_ONES); }
    assert FeedBytes(c, []) == c by { FeedNothing(c); }
    FirstThree(c, []);
    assert [] + "123" == "123";
    NextThree(c, "123");
    assert "123" + "456" == "123456";
    LastThree(c, "123456");
    assert "123456" + "789" == "123456789";
    XorOf(0x340B_C6D9, 0xFFFF_FFFF);
    assert Mixed(0x340B_C6D9, 0xFFFF_FFFF) == 0xCBF4_3926;
    CheckNumber();
  }

  lemma ZeroXor(w: Word)
    ensures Xor(ZERO, w) == w
  {}

  lemma FeedNothing(c: Word)
    ensures FeedBytes(c, []) == c
  {}

  // ---- The residue ----

  /** A checksum as it is appended to a stream: least significant byte first. */
  function LittleEndian(n: nat): (r: Bytes) {
    [(n % 256) as char, (n / 0x100 % 256) as char, (n / 0x1_0000 % 256) as char, (n / 0x100_0000 % 256) as char]
  }

  lemma {:induction false} FeedBitsAppend(c: Word, a: seq<bool>, b: seq<bool>)
    ensures FeedBits(c, a + b) == FeedBits(FeedBits(c, a), b)
    decreases |b|
  {
    hide BitStep;
    if b == [] {
      assert a + b == a;
    } else {
      assert (a + b)[..|a + b| - 1] == a + b[..|b| - 1];
      FeedBitsAppend(c, a, b[..|b| - 1]);
    }
  }

  /** The bytes of a register, fed, are its bits, fed. */
  lemma {:induction false} FeedRegister(c: Word, w: Word)
    ensures FeedBytes(c, LittleEndian(Value(w))) == FeedBits(c, w)
  {
    hide FeedBits, Bits, Value;
    var a, b, d, e := w[..8], w[8..16], w[16..24], w[24..];
    RegisterBytes(w);
    BitsOfValue(a);
    BitsOfValue(b);
    BitsOfValue(d);
    BitsOfValue(e);
    var s := LittleEndian(Value(w));
    FeedFour(c, s);
    FeedBitsAppend(c, a, b);
    FeedBitsAppend(c, a + b, d);
    FeedBitsAppend(c, a + b + d, e);
    assert a + b + d + e == w;
  }

  lemma {:induction false} FeedFour(c: Word, s: Bytes)
    requires |s| == 4
    ensures FeedBytes(c, s) ==
            FeedBits(FeedBits(FeedBits(FeedBits(c, Bits(s[0] as int, 8)), Bits(s[1] as int, 8)), Bits(s[2] as int, 8)),
                     Bits(s[3] as int, 8))
  {
    hide FeedBits, Bits;
    assert s[..3][..2] == s[..2] && s[..2][..1] == s[..1] && s[..1][..0] == [];
    assert FeedBytes(c, s[..1]) == FeedBits(c, Bits(s[0] as int, 8));
    assert FeedBytes(c, s[..2]) == FeedBits(FeedBytes(c, s[..1]), Bits(s[1] as int, 8));
    assert FeedBytes(c, s[..3]) == FeedBits(FeedBytes(c, s[..2]), Bits(s[2] as int, 8));
  }

  lemma {:induction false} RegisterBytes(w: Word)
    ensures var n := Value(w);
            && n % 256 == Value(w[..8]) && n / 0x100 % 256 == Value(w[8..16])
            && n / 0x1_0000 % 256 == Value(w[16..24]) && n / 0x100_0000 % 256 == Value(w[24..])
  {
    hide Value, Pow2;
    var a, b, d, e := w[..8], w[8..16], w[16..24], w[24..];
    Powers();
    ValueOfAppend(a, b);
    ValueOfAppend(a + b, d);
    ValueOfAppend(a + b + d, e);
    assert a + b + d + e == w;
    ByteValue(a);
    ByteValue(b);
    ByteValue(d);
    ByteValue(e);
    Places(Value(a), Value(b), Value(d), Value(e));
  }

  lemma Split256(q: nat, r: nat)
    requires r < 256
    ensures (256 * q + r) / 256 == q && (256 * q + r) % 256 == r
  {}

  lemma DividedTwice(n: nat)
    ensures n / 0x1_0000 == n / 256 / 256 && n / 0x100_0000 == n / 256 / 256 / 256
  {}

  lemma {:induction false} Places(a: nat, b: nat, d: nat, e: nat)
    requires a < 256 && b < 256 && d < 256 && e < 256
    ensures var n := a + 0x100 * b + 0x1_0000 * d + 0x100_0000 * e;
            n % 256 == a && n / 0x100 % 256 == b && n / 0x1_0000 % 256 == d && n / 0x100_0000 % 256 == e
  {
    var n := a + 0x100 * b + 0x1_0000 * d + 0x100_0000 * e;
    var m, k := b + 0x100 * d + 0x1_0000 * e, d + 0x100 * e;
    Split256(m, a);
    Split256(k, b);
    Split256(e, d);
    DividedTwice(n);
    assert n == 256 * m + a && m == 256 * k + b && k == 256 * e + d;
  }

  /** Feeding a register the complement of what it holds leaves the same, whatever it held. */
  lemma {:induction false} ComplementFed(c: Word)
    ensures FeedBits(c, Xor(c, ALL_ONES)) == Shifts(ALL_ONES, 32)
  {
    hide FeedBits, Shifts;
    var x := Xor(c, ALL_ONES);
    ShiftsAreFeedBits(c, x, 32);
    assert Xor(c, x) == ALL_ONES && x[..32] == x;
    assert Xor(FeedBits(c, x), Shr(x, 32)) == FeedBits(c, x);
  }

  /** Every stream followed by its own checksum has the checksum 0x2144DF1C. */
  lemma {:induction false} Residue(data: Bytes)
    ensures Crc(data + LittleEndian(Crc(data))) == 0x2144_DF1C
  {
    hide FeedBytes, Value, Xor, LittleEndian, Shifts, Of;
    var c := Xor(ZERO, ALL_ONES);
    var r := FeedBytes(c, data);
    var w := Xor(r, ALL_ONES);
    FeedBytesAppend(c, data, LittleEndian(Value(w)));
    FeedRegister(r, w);
    ComplementFed(r);
    Residue32();
    ResidueNumber();
  }
}
