/**
 The published check values of the two CRCs: what they give for the nine characters 1 to 9.
 They fix the divisors, the bit order, the start of the register and the final complement.
 */
module CheckValues {
  import opened CrcTheory
  import Crc16
  import Crc32

  type Byte = bv8

  // ----- CRC-16/MODBUS -----

  function Shift16(r: bv16): bv16 {
    if r & 1 == 1 then (r >> 1) ^ 0xA001 else r >> 1
  }

  function Eight16(r: bv16): bv16 {
    Shift16(Shift16(Shift16(Shift16(Shift16(Shift16(Shift16(Shift16(r))))))))
  }

  lemma ShiftsTo16(r: bv16)
    ensures ShiftBy(Crc16.WordBits(r), 1, Crc16.Poly()) == Crc16.WordBits(Shift16(r))
  {
    Crc16.ShiftWord(r);
  }

  lemma {:induction false} ShiftByMore(r: Bits, m: nat, n: nat, p: Bits)
    requires IsPoly(p) && |r| == |p|
    ensures ShiftBy(ShiftBy(r, m, p), n, p) == ShiftBy(r, m + n, p)
    decreases m
  {
    if m > 0 {
      ShiftByMore(Shift(r, p), m - 1, n, p);
    }
  }

  /** Eight shifts of the register's bits are eight shifts of the register. */
  lemma EightShifts16(r: bv16)
    ensures ShiftBy(Crc16.WordBits(r), 8, Crc16.Poly()) == Crc16.WordBits(Eight16(r))
  {
    hide Shift16;
    var a, b := Shift16(r), Shift16(Shift16(r));
    var c := Shift16(b);
    FourShifts16(r);
    FourShifts16(Shift16(c));
    ShiftByMore(Crc16.WordBits(r), 4, 4, Crc16.Poly());
  }

  lemma FourShifts16(r: bv16)
    ensures ShiftBy(Crc16.WordBits(r), 4, Crc16.Poly()) == Crc16.WordBits(Shift16(Shift16(Shift16(Shift16(r)))))
  {
    hide Shift16;
    var a, b := Shift16(r), Shift16(Shift16(r));
    ShiftsTo16(r);
    ShiftsTo16(a);
    ShiftsTo16(b);
    ShiftsTo16(Shift16(b));
    ShiftByMore(Crc16.WordBits(r), 1, 1, Crc16.Poly());
    ShiftByMore(Crc16.WordBits(r), 2, 1, Crc16.Poly());
    ShiftByMore(Crc16.WordBits(r), 3, 1, Crc16.Poly());
  }

  /** One more byte in front of the register. */
  lemma Next16(frame: seq<Byte>, d: Byte, r: bv16, q: bv16)
    requires Crc16.Remainder(frame) == Crc16.WordBits(r) && q == Eight16(r ^ (d as bv16))
    ensures Crc16.Remainder(frame + [d]) == Crc16.WordBits(q)
  {
    hide Eight16;
    Crc16.RemainderStep(frame, d);
    ByteStep(Crc16.WordBits(r), Crc16.ByteBits(d), Crc16.Poly());
    Crc16.XorByteIntoWord(r, d);
    EightShifts16(r ^ (d as bv16));
  }

  /** The digits 1 to 9 as characters. */
  const DIGITS: seq<Byte> := [0x31, 0x32, 0x33, 0x34, 0x35, 0x36, 0x37, 0x38, 0x39]

  /** The register after each of the digits. */
  lemma Values16()
    ensures Eight16(0xFFFF ^ 0x31) == 0x947E
    ensures Eight16(0x947E ^ 0x32) == 0xF595
    ensures Eight16(0xF595 ^ 0x33) == 0x7A75
    ensures Eight16(0x7A75 ^ 0x34) == 0x30BA
    ensures Eight16(0x30BA ^ 0x35) == 0xA471
    ensures Eight16(0xA471 ^ 0x36) == 0x32E4
    ensures Eight16(0x32E4 ^ 0x37) == 0x9D73
    ensures Eight16(0x9D73 ^ 0x38) == 0x37DD
    ensures Eight16(0x37DD ^ 0x39) == 0x4B37
  {
  }

  /** The CRC of "123456789" is 0x4B37. */
  lemma CheckValue16()
    ensures Crc16.Remainder(DIGITS) == Crc16.WordBits(0x4B37)
  {
    hide Eight16;
    Values16();
    assert Crc16.Remainder([]) == Crc16.WordBits(0xFFFF);
    Next16(DIGITS[..0], 0x31, 0xFFFF, 0x947E);
    assert DIGITS[..1] == DIGITS[..0] + [0x31];
    Next16(DIGITS[..1], 0x32, 0x947E, 0xF595);
    assert DIGITS[..2] == DIGITS[..1] + [0x32];
    Next16(DIGITS[..2], 0x33, 0xF595, 0x7A75);
    assert DIGITS[..3] == DIGITS[..2] + [0x33];
    Next16(DIGITS[..3], 0x34, 0x7A75, 0x30BA);
    assert DIGITS[..4] == DIGITS[..3] + [0x34];
    Next16(DIGITS[..4], 0x35, 0x30BA, 0xA471);
    assert DIGITS[..5] == DIGITS[..4] + [0x35];
    Next16(DIGITS[..5], 0x36, 0xA471, 0x32E4);
    assert DIGITS[..6] == DIGITS[..5] + [0x36];
    Next16(DIGITS[..6], 0x37, 0x32E4, 0x9D73);
    assert DIGITS[..7] == DIGITS[..6] + [0x37];
    Next16(DIGITS[..7], 0x38, 0x9D73, 0x37DD);
    assert DIGITS[..8] == DIGITS[..7] + [0x38];
    Next16(DIGITS[..8], 0x39, 0x37DD, 0x4B37);
    assert DIGITS[..9] == DIGITS[..8] + [0x39];
    assert DIGITS[..9] == DIGITS;
  }

  // ----- CRC-32 -----

  function Eight32(r: bv32): bv32 {
    Crc32.Step(Crc32.Step(Crc32.Step(Crc32.Step(Crc32.Step(Crc32.Step(Crc32.Step(Crc32.Step(r))))))))
  }

  lemma ShiftsTo32(r: bv32)
    ensures ShiftBy(Crc32.WordBits(r), 1, Crc32.Poly()) == Crc32.WordBits(Crc32.Step(r))
  {
    Crc32.ShiftWord(r, Crc32.Step(r));
  }

  /** Eight shifts of the register's bits are eight shifts of the register. */
  lemma EightShifts32(r: bv32)
    ensures ShiftBy(Crc32.WordBits(r), 8, Crc32.Poly()) == Crc32.WordBits(Eight32(r))
  {
    hide Crc32.Step;
    var a, b := Crc32.Step(r), Crc32.Step(Crc32.Step(r));
    var c := Crc32.Step(b);
    FourShifts32(r);
    FourShifts32(Crc32.Step(c));
    ShiftByMore(Crc32.WordBits(r), 4, 4, Crc32.Poly());
  }

  lemma FourShifts32(r: bv32)
    ensures ShiftBy(Crc32.WordBits(r), 4, Crc32.Poly()) ==
            Crc32.WordBits(Crc32.Step(Crc32.Step(Crc32.Step(Crc32.Step(r)))))
  {
    hide Crc32.Step;
    var a, b := Crc32.Step(r), Crc32.Step(Crc32.Step(r));
    ShiftsTo32(r);
    ShiftsTo32(a);
    ShiftsTo32(b);
    ShiftsTo32(Crc32.Step(b));
    ShiftByMore(Crc32.WordBits(r), 1, 1, Crc32.Poly());
    ShiftByMore(Crc32.WordBits(r), 2, 1, Crc32.Poly());
    ShiftByMore(Crc32.WordBits(r), 3, 1, Crc32.Poly());
  }

  /** The register after some bytes, before it is complemented. */
  function Register(data: seq<Byte>): (r: Bits)
    ensures |r| == 32
  {
    Crc32.Not(Crc32.Check(data))
  }

  lemma RegisterIs(data: seq<Byte>)
    ensures Register(data) == Divide(Crc32.WordBits(0xFFFFFFFF), Crc16.FrameBits(data), Crc32.Poly())
  {
    Crc32.NotTwice(Divide(Crc32.WordBits(0xFFFFFFFF), Crc16.FrameBits(data), Crc32.Poly()));
  }

  lemma Next32(data: seq<Byte>, d: Byte, r: bv32, q: bv32)
    requires Register(data) == Crc32.WordBits(r) && q == Eight32(r ^ (d as bv32))
    ensures Register(data + [d]) == Crc32.WordBits(q)
  {
    hide Eight32;
    RegisterIs(data);
    RegisterIs(data + [d]);
    Crc32.NextByte(data, d);
    ByteStep(Crc32.WordBits(r), Crc16.ByteBits(d), Crc32.Poly());
    Crc32.XorByteIntoWord(r, d);
    EightShifts32(r ^ (d as bv32));
  }

  /** The register after each of the digits. */
  lemma Values32()
    ensures Eight32(0xFFFFFFFF ^ 0x31) == 0x7C231048
    ensures Eight32(0x7C231048 ^ 0x32) == 0xB0ACBB32
    ensures Eight32(0xB0ACBB32 ^ 0x33) == 0x77B79C2D
    ensures Eight32(0x77B79C2D ^ 0x34) == 0x641C1F5C
    ensures Eight32(0x641C1F5C ^ 0x35) == 0x340AC5E3
    ensures Eight32(0x340AC5E3 ^ 0x36) == 0xF68D2C9E
    ensures Eight32(0xF68D2C9E ^ 0x37) == 0xAFFC9660
    ensures Eight32(0xAFFC9660 ^ 0x38) == 0x651F2550
    ensures Eight32(0x651F2550 ^ 0x39) == 0x340BC6D9
  {
  }

  /** The CRC-32 of "123456789" is 0xCBF43926. */
  lemma CheckValue32()
    ensures Crc32.Check(DIGITS) == Crc32.WordBits(0xCBF43926)
  {
    hide Eight32;
    Values32();
    RegisterIs([]);
    assert Register([]) == Crc32.WordBits(0xFFFFFFFF);
    Next32(DIGITS[..0], 0x31, 0xFFFFFFFF, 0x7C231048);
    assert DIGITS[..1] == DIGITS[..0] + [0x31];
    Next32(DIGITS[..1], 0x32, 0x7C231048, 0xB0ACBB32);
    assert DIGITS[..2] == DIGITS[..1] + [0x32];
    Next32(DIGITS[..2], 0x33, 0xB0ACBB32, 0x77B79C2D);
    assert DIGITS[..3] == DIGITS[..2] + [0x33];
    Next32(DIGITS[..3], 0x34, 0x77B79C2D, 0x641C1F5C);
    assert DIGITS[..4] == DIGITS[..3] + [0x34];
    Next32(DIGITS[..4], 0x35, 0x641C1F5C, 0x340AC5E3);
    assert DIGITS[..5] == DIGITS[..4] + [0x35];
    Next32(DIGITS[..5], 0x36, 0x340AC5E3, 0xF68D2C9E);
    assert DIGITS[..6] == DIGITS[..5] + [0x36];
    Next32(DIGITS[..6], 0x37, 0xF68D2C9E, 0xAFFC9660);
    assert DIGITS[..7] == DIGITS[..6] + [0x37];
    Next32(DIGITS[..7], 0x38, 0xAFFC9660, 0x651F2550);
    assert DIGITS[..8] == DIGITS[..7] + [0x38];
    Next32(DIGITS[..8], 0x39, 0x651F2550, 0x340BC6D9);
    assert DIGITS[..9] == DIGITS[..8] + [0x39];
    assert DIGITS[..9] == DIGITS;
    Crc32.NotWordBits(0x340BC6D9, 0xCBF43926);
    Crc32.NotTwice(Crc32.Check(DIGITS));
  }
}
