/**
 Cyclic redundancy checks as bit-serial division, for any register width. The CRC-16 of
 the Modbus line and the CRC-32 of the settings page are both proved to be this division,
 so both inherit its burst detection. Bits are listed lowest first, which is the order in
 which a UART transmits a byte and in which a reflected CRC consumes it.
 */
module CrcTheory {

  type Bits = seq<bool>

  /** A divisor whose top coefficient is set, as the reflected form of a monic polynomial has. */
  predicate IsPoly(p: Bits) {
    p != [] && p[|p| - 1]
  }

  function Zeros(n: nat): (z: Bits)
    ensures |z| == n && forall i :: 0 <= i < n ==> !z[i]
  {
    seq(n, _ => false)
  }

  function Xor(a: Bits, b: Bits): (c: Bits)
    requires |a| == |b|
    ensures |c| == |a| && forall i :: 0 <= i < |a| ==> c[i] == (a[i] != b[i])
  {
    seq(|a|, i requires 0 <= i < |a| => a[i] != b[i])
  }

  /** One step of the division register. */
  function Shift(r: Bits, p: Bits): (q: Bits)
    requires IsPoly(p) && |r| == |p|
    ensures |q| == |p|
  {
    var s := r[1..] + [false];
    if r[0] then Xor(s, p) else s
  }

  /** The register with one message bit added to its lowest position. */
  function AddBit(r: Bits, b: bool): Bits
    requires r != []
  {
    r[0 := r[0] != b]
  }

  /** Bit-serial division: the register after consuming the message bits in order. */
  function Divide(r: Bits, bits: Bits, p: Bits): (q: Bits)
    requires IsPoly(p) && |r| == |p|
    ensures |q| == |p|
    decreases |bits|
  {
    if bits == [] then r else Divide(Shift(AddBit(r, bits[0]), p), bits[1..], p)
  }

  lemma {:induction false} DivideConcat(r: Bits, a: Bits, b: Bits, p: Bits)
    requires IsPoly(p) && |r| == |p|
    ensures Divide(r, a + b, p) == Divide(Divide(r, a, p), b, p)
    decreases |a|
  {
    if a == [] {
      assert a + b == b;
    } else {
      assert (a + b)[1..] == a[1..] + b;
      DivideConcat(Shift(AddBit(r, a[0]), p), a[1..], b, p);
    }
  }

  // ----- whole bytes at a time -----

  /** The register with several message bits added to its lowest positions at once. */
  function AddLow(r: Bits, d: Bits): (q: Bits)
    requires |d| <= |r|
    ensures |q| == |r|
  {
    Xor(r, d + Zeros(|r| - |d|))
  }

  function ShiftBy(r: Bits, n: nat, p: Bits): (q: Bits)
    requires IsPoly(p) && |r| == |p|
    ensures |q| == |p|
    decreases n
  {
    if n == 0 then r else ShiftBy(Shift(r, p), n - 1, p)
  }

  /** Adding a whole byte first and shifting afterwards is the bit-serial division of its bits. */
  lemma {:induction false} ByteStep(r: Bits, d: Bits, p: Bits)
    requires IsPoly(p) && |r| == |p| && |d| <= |r|
    ensures ShiftBy(AddLow(r, d), |d|, p) == Divide(r, d, p)
    decreases |d|
  {
    if d == [] {
      assert AddLow(r, d) == r;
    } else {
      assert Shift(AddLow(r, d), p) == AddLow(Shift(AddBit(r, d[0]), p), d[1..]);
      ByteStep(Shift(AddBit(r, d[0]), p), d[1..], p);
    }
  }

  // ----- linearity -----

  lemma ShiftLinear(r: Bits, q: Bits, p: Bits)
    requires IsPoly(p) && |r| == |q| == |p|
    ensures Shift(Xor(r, q), p) == Xor(Shift(r, p), Shift(q, p))
  {
  }

  lemma {:induction false} DivideLinear(r: Bits, q: Bits, a: Bits, b: Bits, p: Bits)
    requires IsPoly(p) && |r| == |q| == |p| && |a| == |b|
    ensures Divide(Xor(r, q), Xor(a, b), p) == Xor(Divide(r, a, p), Divide(q, b, p))
    decreases |a|
  {
    if a != [] {
      var r', q' := AddBit(r, a[0]), AddBit(q, b[0]);
      assert AddBit(Xor(r, q), Xor(a, b)[0]) == Xor(r', q');
      ShiftLinear(r', q', p);
      assert Xor(a, b)[1..] == Xor(a[1..], b[1..]);
      DivideLinear(Shift(r', p), Shift(q', p), a[1..], b[1..], p);
    }
  }

  // ----- bursts -----

  /** All wrong bits lie in some `width` consecutive positions, and at least one bit is wrong. */
  ghost predicate IsBurst(err: Bits, width: nat) {
    exists i: nat :: i < |err| && err[i] && forall j :: 0 <= j < |err| && err[j] ==> i <= j < i + width
  }

  ghost predicate Silent(bits: Bits) {
    forall i :: 0 <= i < |bits| ==> !bits[i]
  }

  lemma {:induction false} SilentKeeps(r: Bits, bits: Bits, p: Bits)
    requires IsPoly(p) && |r| == |p| && Silent(bits)
    ensures Silent(Divide(r, bits, p)) <==> Silent(r)
    decreases |bits|
  {
    if bits != [] {
      assert AddBit(r, bits[0]) == r;
      var s := Shift(r, p);
      if r[0] {
        assert s[|p| - 1];
      } else {
        assert forall i :: 0 <= i < |p| - 1 ==> s[i] == r[i + 1];
        assert forall i :: 0 < i < |p| ==> r[i] == s[i - 1];
      }
      SilentKeeps(s, bits[1..], p);
    }
  }

  /** Dividing backwards from zero: a register's width of message bits is cancelled only by itself. */
  lemma {:induction false} ZeroOnlyFromItself(r: Bits, bits: Bits, p: Bits)
    requires IsPoly(p) && |r| == |p| && |bits| <= |p|
    requires Silent(Divide(r, bits, p))
    ensures r == bits + Zeros(|p| - |bits|)
    decreases |bits|
  {
    if bits == [] {
      assert r == Zeros(|p|);
    } else {
      var x := AddBit(r, bits[0]);
      var s := Shift(x, p);
      ZeroOnlyFromItself(s, bits[1..], p);
      assert !s[|p| - 1];
      assert s == x[1..] + [false];
      assert forall i :: 0 < i < |p| ==> r[i] == s[i - 1];
    }
  }

  /** A nonzero message no longer than the register leaves a remainder. */
  lemma ShortRemainder(bits: Bits, p: Bits)
    requires IsPoly(p) && |bits| <= |p| && !Silent(bits)
    ensures !Silent(Divide(Zeros(|p|), bits, p))
  {
    if Silent(Divide(Zeros(|p|), bits, p)) {
      ZeroOnlyFromItself(Zeros(|p|), bits, p);
      SilentPrefix(Zeros(|p|), bits, Zeros(|p| - |bits|));
    }
  }

  lemma SilentPrefix(all: Bits, a: Bits, b: Bits)
    requires Silent(all) && all == a + b
    ensures Silent(a)
  {
    assert forall i :: 0 <= i < |a| ==> a[i] == all[i];
  }

  lemma {:induction false} DivideSplit(r: Bits, pre: Bits, mid: Bits, post: Bits, p: Bits)
    requires IsPoly(p) && |r| == |p|
    ensures Divide(r, pre + mid + post, p) == Divide(Divide(Divide(r, pre, p), mid, p), post, p)
  {
    DivideConcat(r, pre + mid, post, p);
    DivideConcat(r, pre, mid, p);
  }

  lemma BurstParts(err: Bits, w: nat) returns (pre: Bits, mid: Bits, post: Bits)
    requires IsBurst(err, w)
    ensures err == pre + mid + post && |mid| <= w
    ensures Silent(pre) && !Silent(mid) && Silent(post)
  {
    var i: nat :| i < |err| && err[i] && forall j :: 0 <= j < |err| && err[j] ==> i <= j < i + w;
    var e := if i + w <= |err| then i + w else |err|;
    pre, mid, post := err[..i], err[i..e], err[e..];
    assert mid[0] == err[i];
    forall j | 0 <= j < |post| ensures !post[j] {
      assert post[j] == err[e + j];
    }
  }

  /** A burst no wider than the register, divided on its own, leaves a remainder. */
  lemma BurstRemainder(err: Bits, p: Bits)
    requires IsPoly(p) && IsBurst(err, |p|)
    ensures !Silent(Divide(Zeros(|p|), err, p))
  {
    var pre, mid, post := BurstParts(err, |p|);
    DivideSplit(Zeros(|p|), pre, mid, post, p);
    SilentKeeps(Zeros(|p|), pre, p);
    assert Divide(Zeros(|p|), pre, p) == Zeros(|p|);
    ShortRemainder(mid, p);
    SilentKeeps(Divide(Zeros(|p|), mid, p), post, p);
  }

  /** Messages that differ only within a register's width of consecutive bits have different remainders. */
  lemma BurstChangesRemainder(init: Bits, msg: Bits, got: Bits, p: Bits)
    requires IsPoly(p) && |init| == |p| && |msg| == |got|
    requires IsBurst(Xor(msg, got), |p|)
    ensures Divide(init, got, p) != Divide(init, msg, p)
  {
    var zero, err := Zeros(|p|), Xor(msg, got);
    assert Xor(init, zero) == init && Xor(msg, err) == got;
    DivideLinear(init, zero, msg, err, p);
    BurstRemainder(err, p);
    var d := Divide(zero, err, p);
    var i :| 0 <= i < |p| && d[i];
    assert Xor(Divide(init, msg, p), d)[i] != Divide(init, msg, p)[i];
  }

  /** Appending bits leaves remainder zero exactly when they are the remainder itself. */
  lemma ZeroIffAppended(init: Bits, msg: Bits, check: Bits, p: Bits)
    requires IsPoly(p) && |init| == |check| == |p|
    ensures Silent(Divide(init, msg + check, p)) <==> check == Divide(init, msg, p)
  {
    var r := Divide(init, msg, p);
    DivideConcat(init, msg, check, p);
    if Silent(Divide(r, check, p)) {
      ZeroOnlyFromItself(r, check, p);
      assert check + Zeros(0) == check;
    }
    if check == r {
      SelfCancels(r, p);
    }
  }

  lemma SelfCancels(r: Bits, p: Bits)
    requires IsPoly(p) && |r| == |p|
    ensures Silent(Divide(r, r, p))
  {
    ByteStep(r, r, p);
    assert AddLow(r, r) == Zeros(|p|);
    ShiftZeros(|p|, p);
  }

  lemma {:induction false} ShiftZeros(n: nat, p: Bits)
    requires IsPoly(p)
    ensures Silent(ShiftBy(Zeros(|p|), n, p))
  {
    if n > 0 {
      assert Shift(Zeros(|p|), p) == Zeros(|p|);
      ShiftZeros(n - 1, p);
    }
  }
}
