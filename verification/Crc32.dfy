/** The checksum of common/util/Crc32.cpp: a table-driven loop, proved against a bit-serial reference.
    A 32-bit register is the sequence of its bits, least significant first. */
module Crc32 {
  import opened Bytes

  type Word = s: seq<bool> | |s| == 32 witness Fill(32, false)

  function Fill(n: nat, b: bool): (r: seq<bool>)
    ensures |r| == n && forall i :: 0 <= i < n ==> r[i] == b
  {
    seq(n, i => b)
  }

  const POLYNOMIAL_20 := [false, false, false, false, false, true, false, false]
  const POLYNOMIAL_83 := [true, true, false, false, false, false, false, true]
  const POLYNOMIAL_B8 := [false, false, false, true, true, true, false, true]
  const POLYNOMIAL_ED := [true, false, true, true, false, true, true, true]

  /** The generator polynomial of IEEE 802.3, reflected: 0xEDB88320. */
  const POLYNOMIAL: Word := POLYNOMIAL_20 + POLYNOMIAL_83 + POLYNOMIAL_B8 + POLYNOMIAL_ED

  const ZERO: Word := Fill(32, false)
  const ALL_ONES: Word := Fill(32, true)

  function Xor(a: Word, b: Word): (r: Word) {
    seq(32, i requires 0 <= i < 32 => a[i] != b[i])
  }

  function Shr(a: Word, k: nat): (r: Word)
    requires k <= 32
  {
    a[k..] + Fill(k, false)
  }

  /** Crc32.cpp:16: one shift of the register. */
  function Shift(c: Word): (r: Word) {
    if c[0] then Xor(POLYNOMIAL, Shr(c, 1)) else Shr(c, 1)
  }

  function Shifts(c: Word, n: nat): (r: Word) {
    if n == 0 then c else Shift(Shifts(c, n - 1))
  }

  // ---- Numbers as bits ----

  function Bits(n: nat, width: nat): (r: seq<bool>)
    ensures |r| == width
    decreases width
  {
    if width == 0 then [] else [n % 2 == 1] + Bits(n / 2, width - 1)
  }

  function Value(s: seq<bool>): (r: nat) {
    if s == [] then 0 else (if s[0] then 1 else 0) + 2 * Value(s[1..])
  }

  function Pow2(k: nat): (r: nat)
    ensures r > 0
  {
    if k == 0 then 1 else 2 * Pow2(k - 1)
  }

  lemma {:induction false} ValueOfBits(n: nat, width: nat)
    requires n < Pow2(width)
    ensures Value(Bits(n, width)) == n
    decreases width
  {
    if width > 0 {
      ValueOfBits(n / 2, width - 1);
      assert Bits(n, width)[1..] == Bits(n / 2, width - 1);
    }
  }

  lemma {:induction false} BitsOfValue(s: seq<bool>)
    ensures Value(s) < Pow2(|s|)
    ensures Bits(Value(s), |s|) == s
  {
    if s != [] {
      BitsOfValue(s[1..]);
      var v := Value(s[1..]);
      assert Value(s) / 2 == v && (Value(s) % 2 == 1) == s[0];
      assert s == [s[0]] + s[1..];
    }
  }

  /** The octet `b` in the low bits of a register. */
  function Octet(b: byte): (r: Word)
    ensures forall i :: 8 <= i < 32 ==> !r[i]
  {
    Bits(b as int, 8) + Fill(24, false)
  }

  lemma {:induction false} ByteValue(s: seq<bool>)
    requires |s| == 8
    ensures Value(s) < Pow2(8) == 256
  {
    assert Pow2(8) == 256 by { assert Pow2(4) == 16; }
    BitsOfValue(s);
  }

  /** The table index `(c ^ byte) & 0xFF`. */
  function LowByte(c: Word): (r: nat)
    ensures r < 256
  {
    ByteValue(c[..8]);
    Value(c[..8])
  }

  function Bit(b: bool): int {
    if b then 1 else 0
  }

  lemma ValueFrom(s: seq<bool>, k: nat)
    requires k < |s|
    ensures Value(s[k..]) == Bit(s[k]) + 2 * Value(s[k + 1..])
  {
    assert s[k..][1..] == s[k + 1..];
  }

  lemma {:induction false} OctetValue(s: seq<bool>)
    requires |s| == 8
    ensures Value(s) == Bit(s[0]) + 2 * Bit(s[1]) + 4 * Bit(s[2]) + 8 * Bit(s[3])
                        + 16 * Bit(s[4]) + 32 * Bit(s[5]) + 64 * Bit(s[6]) + 128 * Bit(s[7])
  {
    hide Value, Bit;
    ValueFrom(s, 0); ValueFrom(s, 1); ValueFrom(s, 2); ValueFrom(s, 3);
    ValueFrom(s, 4); ValueFrom(s, 5); ValueFrom(s, 6); ValueFrom(s, 7);
    assert s[0..] == s && Value(s[8..]) == 0 by { ValueOfNothing(s[8..]); }
  }

  lemma ValueOfNothing(s: seq<bool>)
    requires s == []
    ensures Value(s) == 0
  {}

  lemma {:induction false} ValueOfAppend(a: seq<bool>, b: seq<bool>)
    ensures Value(a + b) == Value(a) + Pow2(|a|) * Value(b)
  {
    if a == [] {
      assert a + b == b;
    } else {
      assert (a + b)[1..] == a[1..] + b;
      ValueOfAppend(a[1..], b);
      DoubleProduct(Pow2(|a| - 1), Value(b));
    }
  }

  lemma DoubleProduct(p: nat, v: nat)
    ensures (2 * p) * v == 2 * (p * v)
  {}

  lemma {:induction false} PolynomialValue()
    ensures Value(POLYNOMIAL) == 0xEDB8_8320
  {
    hide Value;
    OctetValue(POLYNOMIAL_20);
    OctetValue(POLYNOMIAL_83);
    OctetValue(POLYNOMIAL_B8);
    OctetValue(POLYNOMIAL_ED);
    assert Pow2(8) == 256 by { assert Pow2(4) == 16; }
    assert Pow2(16) == 65536 by { assert Pow2(12) == 4096; }
    assert Pow2(24) == 0x100_0000 by { assert Pow2(20) == 0x10_0000; }
    ValueOfAppend(POLYNOMIAL_20, POLYNOMIAL_83);
    ValueOfAppend(POLYNOMIAL_20 + POLYNOMIAL_83, POLYNOMIAL_B8);
    ValueOfAppend(POLYNOMIAL_20 + POLYNOMIAL_83 + POLYNOMIAL_B8, POLYNOMIAL_ED);
  }

  // ---- Reference: one message bit at a time through the division register ----

  /** The message bit enters; the generator is subtracted when it differs from the low bit. */
  function BitStep(c: Word, bit: bool): (r: Word) {
    if c[0] != bit then Xor(Shr(c, 1), POLYNOMIAL) else Shr(c, 1)
  }

  function FeedBits(c: Word, bits: seq<bool>): (r: Word) {
    if bits == [] then c else BitStep(FeedBits(c, bits[..|bits| - 1]), bits[|bits| - 1])
  }

  /** All message bits, bytes in order and each byte least significant bit first. */
  function FeedBytes(c: Word, data: Bytes): (r: Word) {
    if data == [] then c else FeedBits(FeedBytes(c, data[..|data| - 1]), Bits(data[|data| - 1] as int, 8))
  }

  /** CRC-32 of `data` continued from the finished checksum `crc` of what came before. */
  function Checksum(crc: Word, data: Bytes): (r: Word) {
    Xor(FeedBytes(Xor(crc, ALL_ONES), data), ALL_ONES)
  }

  /** The 32-bit value that travels on the wire. */
  function Crc(data: Bytes): (r: nat)
    ensures r < 0x1_0000_0000
  {
    U32(Checksum(ZERO, data))
  }

  function U32(w: Word): (r: nat)
    ensures r < 0x1_0000_0000
  {
    WordValue(w);
    Value(w)
  }

  lemma {:induction false} WordValue(w: Word)
    ensures Value(w) < 0x1_0000_0000
  {
    assert Pow2(32) == 0x1_0000_0000 by {
      assert Pow2(16) == 65536 by { assert Pow2(8) == 256; }
      assert Pow2(24) == 0x100_0000;
    }
    BitsOfValue(w);
  }

  // ---- The table step is eight reference steps ----

  lemma ShiftLinear(a: Word, b: Word)
    ensures Shift(Xor(a, b)) == Xor(Shift(a), Shift(b))
  {}

  lemma {:induction false} ShiftsLinear(a: Word, b: Word, n: nat)
    ensures Shifts(Xor(a, b), n) == Xor(Shifts(a, n), Shifts(b, n))
  {
    if n > 0 {
      ShiftsLinear(a, b, n - 1);
      ShiftLinear(Shifts(a, n - 1), Shifts(b, n - 1));
    }
  }

  lemma {:induction false} ZeroBitsOnlyMove(h: Word, n: nat)
    requires n <= 32 && forall i :: 0 <= i < n ==> !h[i]
    ensures Shifts(h, n) == Shr(h, n)
  {
    if n > 0 {
      ZeroBitsOnlyMove(h, n - 1);
    }
  }

  lemma ShiftIsBitStep(r: Word, rest: Word)
    ensures Shift(Xor(r, rest)) == Xor(BitStep(r, rest[0]), Shr(rest, 1))
  {}

  /** Mixing the message bits in first and shifting afterwards is the same division. */
  lemma {:induction false} ShiftsAreFeedBits(c: Word, x: Word, n: nat)
    requires n <= 32
    ensures Shifts(Xor(c, x), n) == Xor(FeedBits(c, x[..n]), Shr(x, n))
  {
    hide Shift, Xor, BitStep;
    if n == 0 {
      assert Shr(x, 0) == x && x[..0] == [];
    } else {
      ShiftsAreFeedBits(c, x, n - 1);
      var r, rest := FeedBits(c, x[..n - 1]), Shr(x, n - 1);
      assert x[..n][..n - 1] == x[..n - 1] && x[..n][n - 1] == rest[0];
      assert Shr(rest, 1) == Shr(x, n);
      ShiftIsBitStep(r, rest);
    }
  }

  lemma {:induction false} OctetBits(c: Word, b: byte)
    ensures Shifts(Xor(c, Octet(b)), 8) == FeedBits(c, Bits(b as int, 8))
  {
    var x := Octet(b);
    ShiftsAreFeedBits(c, x, 8);
    assert x[..8] == Bits(b as int, 8);
    assert Xor(FeedBits(c, x[..8]), Shr(x, 8)) == FeedBits(c, x[..8]);
  }

  function TableEntry(i: nat): (r: Word) {
    Shifts(Bits(i, 32), 8)
  }

  lemma {:induction false} BitsPad(n: nat, k: nat, width: nat)
    requires k <= width && n < Pow2(k)
    ensures Bits(n, width) == Bits(n, k) + Fill(width - k, false)
    decreases width
  {
    if k > 0 {
      BitsPad(n / 2, k - 1, width - 1);
    } else if width > 0 {
      BitsPad(0, 0, width - 1);
    }
  }

  /** `kTable[(c ^ byte) & 0xFF] ^ (c >> 8)` divides by the eight bits of the byte. */
  lemma {:induction false} TableStepIsEightBits(c: Word, b: byte)
    ensures Xor(TableEntry(LowByte(Xor(c, Octet(b)))), Shr(c, 8)) == FeedBits(c, Bits(b as int, 8))
  {
    hide Shift, Shifts, FeedBits, Bits, Value;
    var m := Xor(c, Octet(b));
    var low: Word := m[..8] + Fill(24, false);
    var high: Word := Fill(8, false) + m[8..];
    BitsOfValue(m[..8]);
    BitsPad(LowByte(m), 8, 32);
    assert Bits(LowByte(m), 32) == low;
    assert Xor(low, high) == m;
    ShiftsLinear(low, high, 8);
    ZeroBitsOnlyMove(high, 8);
    assert Shr(high, 8) == Shr(c, 8);
    OctetBits(c, b);
  }

  // ---- The source's loops ----

  ghost predicate IsTable(table: seq<Word>) {
    |table| == 256 && forall i :: 0 <= i < 256 ==> table[i] == TableEntry(i)
  }

  /** Crc32.cpp:11-21. */
  method MakeTable() returns (table: seq<Word>)
    ensures IsTable(table)
  {
    hide Xor, Shr, Bits;
    table := [];
    for i := 0 to 256
      invariant |table| == i
      invariant forall k :: 0 <= k < i ==> table[k] == TableEntry(k)
    {
      var c: Word := Bits(i, 32);
      for bit := 0 to 8
        invariant c == Shifts(Bits(i, 32), bit)
      {
        c := if c[0] then Xor(POLYNOMIAL, Shr(c, 1)) else Shr(c, 1);
      }
      table := table + [c];
    }
  }

  /** Crc32.cpp:27-35: the fast form computes the reference. */
  method Compute(table: seq<Word>, crc: Word, data: Bytes) returns (r: Word)
    requires IsTable(table)
    ensures r == Checksum(crc, data)
  {
    hide Xor, Shr, Bits, FeedBits, TableEntry, LowByte, Octet;
    var c := Xor(crc, ALL_ONES);
    for i := 0 to |data|
      invariant c == FeedBytes(Xor(crc, ALL_ONES), data[..i])
    {
      TableStepIsEightBits(c, data[i]);
      assert data[..i + 1][..i] == data[..i];
      c := Xor(table[LowByte(Xor(c, Octet(data[i])))], Shr(c, 8));
    }
    assert data[..|data|] == data;
    r := Xor(c, ALL_ONES);
  }

  // ---- What the protocol relies on ----

  lemma {:induction false} FeedBytesAppend(c: Word, a: Bytes, b: Bytes)
    ensures FeedBytes(c, a + b) == FeedBytes(FeedBytes(c, a), b)
    decreases |b|
  {
    if b == [] {
      assert a + b == a;
    } else {
      assert (a + b)[..|a + b| - 1] == a + b[..|b| - 1];
      FeedBytesAppend(c, a, b[..|b| - 1]);
    }
  }

  lemma DoubleComplement(c: Word)
    ensures Xor(Xor(c, ALL_ONES), ALL_ONES) == c
  {}

  /** Incremental use: the checksum of a stream does not depend on where it was cut. */
  lemma {:induction false} ChecksumAppend(crc: Word, a: Bytes, b: Bytes)
    ensures Checksum(Checksum(crc, a), b) == Checksum(crc, a + b)
  {
    var c := Xor(crc, ALL_ONES);
    FeedBytesAppend(c, a, b);
    DoubleComplement(FeedBytes(c, a));
  }

  lemma ChecksumNothing(crc: Word)
    ensures Checksum(crc, []) == crc
  {
    DoubleComplement(crc);
  }

  // ---- Error detection ----

  /** The generator has its top bit set, so no shift loses information. */
  lemma {:induction false} ShiftInjective(a: Word, b: Word)
    requires Shift(a) == Shift(b)
    ensures a == b
  {
    assert Shift(a)[31] == a[0] && Shift(b)[31] == b[0];
    forall i | 1 <= i < 32 ensures a[i] == b[i] {
      assert Shift(a)[i - 1] == (a[i] != (a[0] && POLYNOMIAL[i - 1]));
      assert Shift(b)[i - 1] == (b[i] != (b[0] && POLYNOMIAL[i - 1]));
    }
  }

  lemma {:induction false} ShiftsInjective(a: Word, b: Word, n: nat)
    requires Shifts(a, n) == Shifts(b, n)
    ensures a == b
  {
    if n > 0 {
      ShiftInjective(Shifts(a, n - 1), Shifts(b, n - 1));
      ShiftsInjective(a, b, n - 1);
    }
  }

  /** A byte step forgets neither the register nor the byte. */
  lemma {:induction false} ByteStepInjective(c: Word, x: byte, d: Word, y: byte)
    requires FeedBits(c, Bits(x as int, 8)) == FeedBits(d, Bits(y as int, 8))
    ensures Xor(c, Octet(x)) == Xor(d, Octet(y))
  {
    OctetBits(c, x);
    OctetBits(d, y);
    ShiftsInjective(Xor(c, Octet(x)), Xor(d, Octet(y)), 8);
  }

  lemma {:induction false} XorInjective(c: Word, d: Word, x: Word, y: Word)
    ensures Xor(c, x) == Xor(d, x) ==> c == d
    ensures Xor(c, x) == Xor(c, y) ==> x == y
  {
    if Xor(c, x) == Xor(d, x) {
      forall i | 0 <= i < 32 ensures c[i] == d[i] {
        assert Xor(c, x)[i] == Xor(d, x)[i];
      }
    }
    if Xor(c, x) == Xor(c, y) {
      forall i | 0 <= i < 32 ensures x[i] == y[i] {
        assert Xor(c, x)[i] == Xor(c, y)[i];
      }
    }
  }

  lemma {:induction false} FeedBytesInjective(c: Word, d: Word, data: Bytes)
    requires FeedBytes(c, data) == FeedBytes(d, data)
    ensures c == d
  {
    if data != [] {
      var front, x := data[..|data| - 1], data[|data| - 1];
      ByteStepInjective(FeedBytes(c, front), x, FeedBytes(d, front), x);
      XorInjective(FeedBytes(c, front), FeedBytes(d, front), Octet(x), Octet(x));
      FeedBytesInjective(c, d, front);
    }
  }

  lemma {:induction false} OctetInjective(x: byte, y: byte)
    requires Octet(x) == Octet(y)
    ensures x == y
  {
    assert Bits(x as int, 8) == Octet(x)[..8] == Octet(y)[..8] == Bits(y as int, 8);
    assert Pow2(8) == 256 by { assert Pow2(4) == 16; }
    ValueOfBits(x as int, 8);
    ValueOfBits(y as int, 8);
  }

  /** Corrupting one byte of a payload, anywhere and in any way, changes its checksum. */
  lemma {:induction false} OneByteErrorDetected(crc: Word, before: Bytes, x: byte, y: byte, after: Bytes)
    requires x != y
    ensures Checksum(crc, before + [x] + after) != Checksum(crc, before + [y] + after)
  {
    if Checksum(crc, before + [x] + after) == Checksum(crc, before + [y] + after) {
      var c := Xor(crc, ALL_ONES);
      XorInjective(FeedBytes(c, before + [x] + after), FeedBytes(c, before + [y] + after), ALL_ONES, ALL_ONES);
      FeedBytesAppend(c, before + [x], after);
      FeedBytesAppend(c, before + [y], after);
      FeedBytesInjective(FeedBytes(c, before + [x]), FeedBytes(c, before + [y]), after);
      var r := FeedBytes(c, before);
      assert (before + [x])[..|before|] == before && (before + [y])[..|before|] == before;
      ByteStepInjective(r, x, r, y);
      XorInjective(r, r, Octet(x), Octet(y));
      OctetInjective(x, y);
    }
  }
}
