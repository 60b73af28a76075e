/** The CRC-32 that protects the settings page: the byte-wise loop of the firmware is bit-serial division. */
module Crc32 {
  import opened CrcTheory
  import Crc16

  type Byte = bv8

  function MaskAt(i: nat): (m: bv32)
    requires i < 32
    ensures m & (m - 1) == 0
  {
    if i == 0 then 0x1
    else if i == 1 then 0x2
    else if i == 2 then 0x4
    else if i == 3 then 0x8
    else if i == 4 then 0x10
    else if i == 5 then 0x20
    else if i == 6 then 0x40
    else if i == 7 then 0x80
    else if i == 8 then 0x100
    else if i == 9 then 0x200
    else if i == 10 then 0x400
    else if i == 11 then 0x800
    else if i == 12 then 0x1000
    else if i == 13 then 0x2000
    else if i == 14 then 0x4000
    else if i == 15 then 0x8000
    else if i == 16 then 0x10000
    else if i == 17 then 0x20000
    else if i == 18 then 0x40000
    else if i == 19 then 0x80000
    else if i == 20 then 0x100000
    else if i == 21 then 0x200000
    else if i == 22 then 0x400000
    else if i == 23 then 0x800000
    else if i == 24 then 0x1000000
    else if i == 25 then 0x2000000
    else if i == 26 then 0x4000000
    else if i == 27 then 0x8000000
    else if i == 28 then 0x10000000
    else if i == 29 then 0x20000000
    else if i == 30 then 0x40000000
    else 0x80000000
  }

  predicate TestBit(x: bv32, i: nat)
    requires i < 32
  {
    x & MaskAt(i) != 0
  }

  /** The bits of a register, lowest first. */
  function WordBits(x: bv32): (bits: Bits)
    ensures |bits| == 32
  {
    seq(32, i requires 0 <= i < 32 => TestBit(x, i))
  }

  /** The reflected divisor of the CRC-32. */
  function Poly(): (p: Bits)
    ensures IsPoly(p) && |p| == 32
  {
    WordBits(0xEDB88320)
  }

  function Not(a: Bits): (c: Bits)
    ensures |c| == |a| && forall i :: 0 <= i < |a| ==> c[i] == !a[i]
  {
    seq(|a|, i requires 0 <= i < |a| => !a[i])
  }

  /** The check value of some bytes: the complemented remainder, starting from a register of ones. */
  function Check(data: seq<Byte>): (r: Bits)
    ensures |r| == 32
  {
    Not(Divide(WordBits(0xFFFFFFFF), Crc16.FrameBits(data), Poly()))
  }

  lemma ShiftBit0(x: bv32, i: nat)
    requires 0 <= i < 8
    ensures TestBit(x >> 1, i) == (i < 31 && TestBit(x, i + 1))
  {
  }

  lemma ShiftBit8(x: bv32, i: nat)
    requires 8 <= i < 16
    ensures TestBit(x >> 1, i) == (i < 31 && TestBit(x, i + 1))
  {
  }

  lemma ShiftBit16(x: bv32, i: nat)
    requires 16 <= i < 24
    ensures TestBit(x >> 1, i) == (i < 31 && TestBit(x, i + 1))
  {
  }

  lemma ShiftBit24(x: bv32, i: nat)
    requires 24 <= i < 32
    ensures TestBit(x >> 1, i) == (i < 31 && TestBit(x, i + 1))
  {
  }

  lemma ShiftOneBit(x: bv32, y: bv32, i: nat)
    requires i < 32 && y == x >> 1
    ensures TestBit(y, i) == (i < 31 && TestBit(x, i + 1))
  {
    if i < 8 {
      ShiftBit0(x, i);
    } else if i < 16 {
      ShiftBit8(x, i);
    } else if i < 24 {
      ShiftBit16(x, i);
    } else {
      ShiftBit24(x, i);
    }
  }

  lemma ShiftRightBits(x: bv32)
    ensures WordBits(x >> 1) == WordBits(x)[1..] + [false]
    ensures (x & 1 == 1) <==> WordBits(x)[0]
  {
    var y := x >> 1;
    forall i | 0 <= i < 32 ensures TestBit(y, i) == (i < 31 && TestBit(x, i + 1)) {
      ShiftOneBit(x, y, i);
    }
  }

  lemma XorOneBit(x: bv32, y: bv32, m: bv32)
    requires m & (m - 1) == 0
    ensures ((x ^ y) & m != 0) <==> ((x & m != 0) != (y & m != 0))
  {
  }

  lemma XorWordBits(x: bv32, y: bv32)
    ensures WordBits(x ^ y) == Xor(WordBits(x), WordBits(y))
  {
    forall i | 0 <= i < 32 ensures TestBit(x ^ y, i) == (TestBit(x, i) != TestBit(y, i)) {
      XorOneBit(x, y, MaskAt(i));
    }
  }

  lemma NotOneBit(x: bv32, m: bv32)
    requires m & (m - 1) == 0 && m != 0
    ensures (!x & m != 0) <==> (x & m == 0)
  {
  }

  lemma MaskNonzero(i: nat)
    requires i < 32
    ensures MaskAt(i) != 0
  {
  }

  lemma NotAt(x: bv32, y: bv32, i: nat)
    requires i < 32 && y == !x
    ensures TestBit(y, i) == !TestBit(x, i)
  {
    MaskNonzero(i);
    NotOneBit(x, MaskAt(i));
  }

  lemma NotWordBits(x: bv32, y: bv32)
    requires y == !x
    ensures WordBits(y) == Not(WordBits(x))
  {
    forall i | 0 <= i < 32 ensures TestBit(y, i) == !TestBit(x, i) {
      NotAt(x, y, i);
    }
  }

  lemma WidenLow(d: Byte, i: nat)
    requires i < 8
    ensures TestBit(d as bv32, i) == Crc16.TestBit(d as bv16, i)
  {
  }

  lemma WidenHigh(d: Byte, i: nat)
    requires 8 <= i < 32
    ensures !TestBit(d as bv32, i)
  {
  }

  lemma WidenBits(d: Byte)
    ensures WordBits(d as bv32) == Crc16.ByteBits(d) + Zeros(24)
  {
    var y := d as bv32;
    forall i | 0 <= i < 8 ensures TestBit(y, i) == Crc16.ByteBits(d)[i] {
      WidenLow(d, i);
    }
    forall i | 8 <= i < 32 ensures !TestBit(y, i) {
      WidenHigh(d, i);
    }
  }

  /** The branch-free step of settings_crc. */
  function Step(r: bv32): bv32 {
    (r >> 1) ^ (0xEDB88320 & (0 - (r & 1)))
  }

  lemma StepCases(r: bv32)
    ensures r & 1 == 1 ==> Step(r) == (r >> 1) ^ 0xEDB88320
    ensures r & 1 != 1 ==> Step(r) == r >> 1
  {
  }

  lemma ShiftWord(r: bv32, q: bv32)
    requires q == Step(r)
    ensures WordBits(q) == Shift(WordBits(r), Poly())
  {
    StepCases(r);
    ShiftRightBits(r);
    XorWordBits(r >> 1, 0xEDB88320);
  }

  lemma XorByteIntoWord(r: bv32, d: Byte)
    ensures WordBits(r ^ (d as bv32)) == AddLow(WordBits(r), Crc16.ByteBits(d))
  {
    XorWordBits(r, d as bv32);
    WidenBits(d);
  }

  method ShiftOnce(crc: bv32) returns (reg: bv32)
    ensures WordBits(reg) == Shift(WordBits(crc), Poly())
  {
    reg := (crc >> 1) ^ (0xEDB88320 & (0 - (crc & 1)));
    ShiftWord(crc, reg);
  }

  method AddByte(crc: bv32, d: Byte) returns (reg: bv32)
    ensures WordBits(reg) == AddLow(WordBits(crc), Crc16.ByteBits(d))
  {
    reg := crc ^ (d as bv32);
    XorByteIntoWord(crc, d);
  }

  /** The inner loop of settings_crc. */
  method CrcByte(crc: bv32, d: Byte) returns (reg: bv32)
    ensures WordBits(reg) == Divide(WordBits(crc), Crc16.ByteBits(d), Poly())
  {
    reg := AddByte(crc, d);
    ByteStep(WordBits(crc), Crc16.ByteBits(d), Poly());
    ghost var rest := WordBits(reg);
    var j := 0;
    while j < 8
      invariant j <= 8
      invariant rest == WordBits(reg)
      invariant Divide(WordBits(crc), Crc16.ByteBits(d), Poly()) == ShiftBy(rest, 8 - j, Poly())
    {
      rest := Shift(rest, Poly());
      reg := ShiftOnce(reg);
      j := j + 1;
    }
  }

  /** settings_crc over the bytes that precede the stored check value. */
  method SettingsCrc(data: seq<Byte>) returns (crc: bv32)
    ensures WordBits(crc) == Check(data)
  {
    crc := 0xFFFFFFFF;
    var i := 0;
    while i < |data|
      invariant i <= |data|
      invariant WordBits(crc) == Divide(WordBits(0xFFFFFFFF), Crc16.FrameBits(data[..i]), Poly())
    {
      NextByte(data[..i], data[i]);
      crc := CrcByte(crc, data[i]);
      assert data[..i + 1] == data[..i] + [data[i]];
      i := i + 1;
    }
    assert data[..i] == data;
    NotWordBits(crc, !crc);
    crc := !crc;
  }

  lemma NextByte(data: seq<Byte>, d: Byte)
    ensures Divide(WordBits(0xFFFFFFFF), Crc16.FrameBits(data + [d]), Poly())
            == Divide(Divide(WordBits(0xFFFFFFFF), Crc16.FrameBits(data), Poly()), Crc16.ByteBits(d), Poly())
  {
    assert (data + [d])[..|data|] == data;
    DivideConcat(WordBits(0xFFFFFFFF), Crc16.FrameBits(data), Crc16.ByteBits(d), Poly());
  }

  /**
   A record with its check value behind it, damaged within 32 consecutive bits anywhere, the
   check value and its border included, does not carry the check value of its bytes.
   */
  lemma BurstDetected(data: seq<Byte>, crc: Bits, other: seq<Byte>, stored: Bits)
    requires |data| == |other| && |stored| == 32 && crc == Check(data)
    requires IsBurst(Xor(Crc16.FrameBits(data) + crc, Crc16.FrameBits(other) + stored), 32)
    ensures stored != Check(other)
  {
    var init := WordBits(0xFFFFFFFF);
    var whole, damaged := Crc16.FrameBits(data) + Not(crc), Crc16.FrameBits(other) + Not(stored);
    SameDifference(Crc16.FrameBits(data), crc, Crc16.FrameBits(other), stored);
    BurstChangesRemainder(init, whole, damaged, Poly());
    ZeroIffAppended(init, Crc16.FrameBits(data), Not(crc), Poly());
    ZeroIffAppended(init, Crc16.FrameBits(other), Not(stored), Poly());
    NotTwice(Divide(init, Crc16.FrameBits(data), Poly()));
    NotTwice(Divide(init, Crc16.FrameBits(other), Poly()));
    if stored == Check(other) {
      SilentZeros(Divide(init, whole, Poly()));
      SilentZeros(Divide(init, damaged, Poly()));
    }
  }

  lemma NotTwice(a: Bits)
    ensures Not(Not(a)) == a
  {
  }

  lemma SilentZeros(a: Bits)
    requires Silent(a)
    ensures a == Zeros(|a|)
  {
  }

  /** Complementing the check values on both sides does not change where the records differ. */
  lemma SameDifference(a: Bits, c: Bits, b: Bits, d: Bits)
    requires |a| == |b| && |c| == |d|
    ensures Xor(a + c, b + d) == Xor(a + Not(c), b + Not(d))
  {
  }

  /** Bytes that differ only within 32 consecutive bits have different check values. */
  lemma BurstChangesCheck(data: seq<Byte>, other: seq<Byte>)
    requires |data| == |other| && IsBurst(Xor(Crc16.FrameBits(data), Crc16.FrameBits(other)), 32)
    ensures Check(data) != Check(other)
  {
    var init := WordBits(0xFFFFFFFF);
    BurstChangesRemainder(init, Crc16.FrameBits(data), Crc16.FrameBits(other), Poly());
    var r, q := Divide(init, Crc16.FrameBits(data), Poly()), Divide(init, Crc16.FrameBits(other), Poly());
    var i :| 0 <= i < 32 && r[i] != q[i];
    assert Not(r)[i] != Not(q)[i];
  }
}
