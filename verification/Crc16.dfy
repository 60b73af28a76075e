/** The CRC-16 of the Modbus serial line: the byte-wise loop of the firmware is bit-serial division. */
module Crc16 {
  import opened CrcTheory

  type Byte = bv8

  /** The mask of bit `i`. */
  function MaskAt(i: nat): (m: bv16)
    requires i < 16
    ensures m & (m - 1) == 0
  {
    if i == 0 then 0x1
    else if i == 1 then 0x2
    else if i == 2 then 0x4
    else if i == 3 then 0x8
    else if i == 4 then 0x10
    else if i == 5 then 0x20
    else if i == 6 then 0x40
    else if i == 7 then 0x80
    else if i == 8 then 0x100
    else if i == 9 then 0x200
    else if i == 10 then 0x400
    else if i == 11 then 0x800
    else if i == 12 then 0x1000
    else if i == 13 then 0x2000
    else if i == 14 then 0x4000
    else 0x8000
  }

  predicate TestBit(x: bv16, i: nat)
    requires i < 16
  {
    x & MaskAt(i) != 0
  }

  /** The bits of a register, lowest first. */
  function WordBits(x: bv16): (bits: Bits)
    ensures |bits| == 16
  {
    seq(16, i requires 0 <= i < 16 => TestBit(x, i))
  }

  /** The bits of a byte in transmission order. */
  function ByteBits(d: Byte): (bits: Bits)
    ensures |bits| == 8
  {
    WordBits(d as bv16)[..8]
  }

  /** The bits of a frame in transmission order. */
  function FrameBits(frame: seq<Byte>): (bits: Bits)
    ensures |bits| == 8 * |frame|
  {
    if frame == [] then [] else FrameBits(frame[..|frame| - 1]) + ByteBits(frame[|frame| - 1])
  }

  /** The divisor x^16 + x^15 + x^2 + 1 of the Modbus CRC, reflected. */
  function Poly(): (p: Bits)
    ensures IsPoly(p) && |p| == 16
  {
    WordBits(0xA001)
  }

  /** The remainder of a frame, starting from a register of ones. */
  function Remainder(frame: seq<Byte>): (r: Bits)
    ensures |r| == 16
  {
    Divide(WordBits(0xFFFF), FrameBits(frame), Poly())
  }

  // ----- the machine word and its bits -----

  lemma ShiftOneBit(x: bv16, i: nat)
    requires i < 16
    ensures TestBit(x >> 1, i) == (i < 15 && TestBit(x, i + 1))
  {
  }

  lemma ShiftRightBits(x: bv16)
    ensures WordBits(x >> 1) == WordBits(x)[1..] + [false]
    ensures (x & 1 == 1) <==> WordBits(x)[0]
  {
    var y := x >> 1;
    forall i | 0 <= i < 16 ensures TestBit(y, i) == (i < 15 && TestBit(x, i + 1)) {
      ShiftOneBit(x, i);
    }
  }

  lemma XorOneBit(x: bv16, y: bv16, m: bv16)
    requires m & (m - 1) == 0
    ensures ((x ^ y) & m != 0) <==> ((x & m != 0) != (y & m != 0))
  {
  }

  lemma XorWordBits(x: bv16, y: bv16)
    ensures WordBits(x ^ y) == Xor(WordBits(x), WordBits(y))
  {
    forall i | 0 <= i < 16 ensures TestBit(x ^ y, i) == (TestBit(x, i) != TestBit(y, i)) {
      XorOneBit(x, y, MaskAt(i));
    }
  }

  lemma WidenOneBit(d: Byte, i: nat)
    requires 8 <= i < 16
    ensures !TestBit(d as bv16, i)
  {
  }

  lemma WidenBits(d: Byte)
    ensures WordBits(d as bv16) == ByteBits(d) + Zeros(8)
  {
    var y := d as bv16;
    forall i | 8 <= i < 16 ensures !TestBit(y, i) {
      WidenOneBit(d, i);
    }
  }

  lemma ShiftWord(r: bv16)
    ensures r & 1 == 1 ==> WordBits((r >> 1) ^ 0xA001) == Shift(WordBits(r), Poly())
    ensures r & 1 != 1 ==> WordBits(r >> 1) == Shift(WordBits(r), Poly())
  {
    ShiftRightBits(r);
    XorWordBits(r >> 1, 0xA001);
  }

  lemma XorByteIntoWord(r: bv16, d: Byte)
    ensures WordBits(r ^ (d as bv16)) == AddLow(WordBits(r), ByteBits(d))
  {
    XorWordBits(r, d as bv16);
    WidenBits(d);
  }

  method ShiftOnce(crc: bv16) returns (reg: bv16)
    ensures WordBits(reg) == Shift(WordBits(crc), Poly())
  {
    ShiftWord(crc);
    if crc & 1 == 1 {
      reg := (crc >> 1) ^ 0xA001;
    } else {
      reg := crc >> 1;
    }
  }

  method AddByte(crc: bv16, d: Byte) returns (reg: bv16)
    ensures WordBits(reg) == AddLow(WordBits(crc), ByteBits(d))
  {
    reg := crc ^ (d as bv16);
    XorByteIntoWord(crc, d);
  }

  /** The inner loop of crc_chk: one byte xored into the register, then eight shifts. */
  method CrcByte(crc: bv16, d: Byte) returns (regCrc: bv16)
    ensures WordBits(regCrc) == Divide(WordBits(crc), ByteBits(d), Poly())
  {
    regCrc := AddByte(crc, d);
    ByteStep(WordBits(crc), ByteBits(d), Poly());
    ghost var rest := WordBits(regCrc);
    var j := 0;
    while j < 8
      invariant j <= 8
      invariant rest == WordBits(regCrc)
      invariant Divide(WordBits(crc), ByteBits(d), Poly()) == ShiftBy(rest, 8 - j, Poly())
    {
      rest := Shift(rest, Poly());
      regCrc := ShiftOnce(regCrc);
      j := j + 1;
    }
  }

  /** crc_chk. `length` is an unsigned byte in the source. */
  method CrcChk(dat: array<Byte>, length: nat) returns (regCrc: bv16)
    requires length < 256 && length <= dat.Length
    ensures WordBits(regCrc) == Remainder(dat[..length])
  {
    regCrc := 0xFFFF;
    var k := 0;
    while k < length
      invariant k <= length
      invariant WordBits(regCrc) == Remainder(dat[..k])
    {
      RemainderStep(dat[..k], dat[k]);
      regCrc := CrcByte(regCrc, dat[k]);
      assert dat[..k + 1] == dat[..k] + [dat[k]];
      k := k + 1;
    }
  }

  lemma RemainderStep(frame: seq<Byte>, d: Byte)
    ensures Remainder(frame + [d]) == Divide(Remainder(frame), ByteBits(d), Poly())
  {
    assert (frame + [d])[..|frame|] == frame;
    DivideConcat(WordBits(0xFFFF), FrameBits(frame), ByteBits(d), Poly());
  }

  lemma SameOneBit(x: bv16, y: bv16, m: bv16)
    requires m & (m - 1) == 0
    requires (x & m != 0) == (y & m != 0)
    ensures x & m == y & m
  {
  }

  lemma SameBitAt(x: bv16, y: bv16, i: nat)
    requires i < 16 && WordBits(x) == WordBits(y)
    ensures x & MaskAt(i) == y & MaskAt(i)
  {
    hide MaskAt;
    BitOf(x, i);
    BitOf(y, i);
    SameOneBit(x, y, MaskAt(i));
  }

  lemma BitOf(x: bv16, i: nat)
    requires i < 16
    ensures WordBits(x)[i] == (x & MaskAt(i) != 0)
  {
    hide MaskAt;
  }

  lemma JoinMasks(x: bv16, y: bv16, m: bv16, n: bv16)
    requires x & m == y & m && x & n == y & n
    ensures x & (m | n) == y & (m | n)
  {
  }

  lemma FirstNibble(x: bv16, y: bv16)
    requires WordBits(x) == WordBits(y)
    ensures x & 0xF == y & 0xF
  {
    SameBitAt(x, y, 0);
    SameBitAt(x, y, 1);
    SameBitAt(x, y, 2);
    SameBitAt(x, y, 3);
    JoinMasks(x, y, 0x1, 0x2);
    JoinMasks(x, y, 0x4, 0x8);
    JoinMasks(x, y, 0x3, 0xC);
  }

  lemma SecondNibble(x: bv16, y: bv16)
    requires WordBits(x) == WordBits(y)
    ensures x & 0xF0 == y & 0xF0
  {
    SameBitAt(x, y, 4);
    SameBitAt(x, y, 5);
    SameBitAt(x, y, 6);
    SameBitAt(x, y, 7);
    JoinMasks(x, y, 0x10, 0x20);
    JoinMasks(x, y, 0x40, 0x80);
    JoinMasks(x, y, 0x30, 0xC0);
  }

  lemma ThirdNibble(x: bv16, y: bv16)
    requires WordBits(x) == WordBits(y)
    ensures x & 0xF00 == y & 0xF00
  {
    SameBitAt(x, y, 8);
    SameBitAt(x, y, 9);
    SameBitAt(x, y, 10);
    SameBitAt(x, y, 11);
    JoinMasks(x, y, 0x100, 0x200);
    JoinMasks(x, y, 0x400, 0x800);
    JoinMasks(x, y, 0x300, 0xC00);
  }

  lemma FourthNibble(x: bv16, y: bv16)
    requires WordBits(x) == WordBits(y)
    ensures x & 0xF000 == y & 0xF000
  {
    SameBitAt(x, y, 12);
    SameBitAt(x, y, 13);
    SameBitAt(x, y, 14);
    SameBitAt(x, y, 15);
    JoinMasks(x, y, 0x1000, 0x2000);
    JoinMasks(x, y, 0x4000, 0x8000);
    JoinMasks(x, y, 0x3000, 0xC000);
  }

  lemma JoinNibbles(x: bv16, y: bv16)
    requires x & 0xF == y & 0xF && x & 0xF0 == y & 0xF0 && x & 0xF00 == y & 0xF00 && x & 0xF000 == y & 0xF000
    ensures x == y
  {
  }

  /** A register is determined by its bits. */
  lemma WordBitsInjective(x: bv16, y: bv16)
    requires WordBits(x) == WordBits(y)
    ensures x == y
  {
    FirstNibble(x, y);
    SecondNibble(x, y);
    ThirdNibble(x, y);
    FourthNibble(x, y);
    JoinNibbles(x, y);
  }

  // ----- the appended check bytes -----

  /** The two check bytes as the firmware reads them back, low byte first. */
  function CheckWord(lo: Byte, hi: Byte): bv16 { (lo as bv16) | ((hi as bv16) << 8) }

  function LowByte(w: bv16): Byte { (w & 0xFF) as Byte }

  function HighByte(w: bv16): Byte { (w >> 8) as Byte }

  lemma CheckWordBits(lo: Byte, hi: Byte)
    ensures WordBits(CheckWord(lo, hi))[..8] == ByteBits(lo)
    ensures WordBits(CheckWord(lo, hi))[8..] == ByteBits(hi)
  {
    hide CheckWord, TestBit;
    var w := CheckWord(lo, hi);
    forall i | 0 <= i < 8 ensures TestBit(w, i) == TestBit(lo as bv16, i) {
      CheckWordLow(lo, hi, i);
    }
    forall i | 8 <= i < 16 ensures TestBit(w, i) == TestBit(hi as bv16, i - 8) {
      CheckWordHigh(lo, hi, i - 8);
    }
  }

  lemma CheckWordLow(lo: Byte, hi: Byte, i: nat)
    requires i < 8
    ensures TestBit(CheckWord(lo, hi), i) == TestBit(lo as bv16, i)
  {
  }

  lemma CheckWordHigh(lo: Byte, hi: Byte, i: nat)
    requires i < 8
    ensures TestBit(CheckWord(lo, hi), i + 8) == TestBit(hi as bv16, i)
  {
  }

  lemma CheckWordParts(w: bv16)
    ensures CheckWord(LowByte(w), HighByte(w)) == w
  {
  }

  /** A frame ends in its own CRC, low byte first, exactly when its remainder is zero. */
  lemma ResidueZeroIffChecked(body: seq<Byte>, lo: Byte, hi: Byte)
    ensures Silent(Remainder(body + [lo, hi])) <==> WordBits(CheckWord(lo, hi)) == Remainder(body)
  {
    var frame := body + [lo, hi];
    var n := |body|;
    assert frame[..n + 1] == body + [lo];
    assert frame[..n + 1][..n] == body;
    assert FrameBits(frame) == FrameBits(body) + (ByteBits(lo) + ByteBits(hi));
    CheckWordBits(lo, hi);
    ZeroIffAppended(WordBits(0xFFFF), FrameBits(body), ByteBits(lo) + ByteBits(hi), Poly());
  }

  /** A received frame that differs from a checked one only within sixteen consecutive bits fails the check. */
  lemma BurstDetected(sent: seq<Byte>, received: seq<Byte>)
    requires |sent| == |received| && IsBurst(Xor(FrameBits(sent), FrameBits(received)), 16)
    requires Silent(Remainder(sent))
    ensures !Silent(Remainder(received))
  {
    BurstChangesRemainder(WordBits(0xFFFF), FrameBits(sent), FrameBits(received), Poly());
    var r, q := Remainder(sent), Remainder(received);
    assert exists i :: 0 <= i < 16 && r[i] != q[i];
  }
}
