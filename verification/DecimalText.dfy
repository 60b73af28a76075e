/** Numbers in decimal, as the C library prints and parses them. */
module DecimalText {

  function Digit(d: nat): char
    requires d < 10
  {
    '0' + d as char
  }

  predicate IsDigit(c: char) {
    '0' <= c <= '9'
  }

  function Decimal(n: nat): (s: string)
    ensures s != [] && forall i :: 0 <= i < |s| ==> IsDigit(s[i])
  {
    if n < 10 then [Digit(n)] else Decimal(n / 10) + [Digit(n % 10)]
  }

  lemma {:induction false} DecimalSize(n: nat, digits: nat, limit: nat)
    requires n < limit && limit == Power10(digits) && digits > 0
    ensures |Decimal(n)| <= digits
    decreases digits
  {
    if n >= 10 {
      DecimalSize(n / 10, digits - 1, Power10(digits - 1));
    }
  }

  function Power10(k: nat): nat {
    if k == 0 then 1 else 10 * Power10(k - 1)
  }

  /** The number spelt by the leading digits of `s`, continuing from `acc`. */
  function LeadingNumber(s: string, acc: nat): nat {
    if s == [] || !IsDigit(s[0]) then acc else LeadingNumber(s[1..], 10 * acc + (s[0] - '0') as nat)
  }

  lemma {:induction false} LeadingAppend(a: string, b: string, acc: nat)
    requires forall i :: 0 <= i < |a| ==> IsDigit(a[i])
    ensures LeadingNumber(a + b, acc) == LeadingNumber(b, LeadingNumber(a, acc))
    decreases |a|
  {
    if a == [] {
      assert a + b == b;
    } else {
      assert (a + b)[1..] == a[1..] + b;
      LeadingAppend(a[1..], b, 10 * acc + (a[0] - '0') as nat);
    }
  }

  /** Parsing undoes printing, whatever non-digit follows the number. */
  lemma {:induction false} DecimalRoundTrip(n: nat, rest: string)
    requires rest == [] || !IsDigit(rest[0])
    ensures LeadingNumber(Decimal(n) + rest, 0) == n
  {
    LeadingAppend(Decimal(n), rest, 0);
    DecimalNumber(n);
  }

  lemma {:induction false} DecimalNumber(n: nat)
    ensures LeadingNumber(Decimal(n), 0) == n
  {
    var d := [Digit(n % 10)];
    assert d[1..] == [];
    if n >= 10 {
      DecimalNumber(n / 10);
      LeadingAppend(Decimal(n / 10), d, 0);
    }
  }

  const ULONG_MAX: nat := 0xffff_ffff

  /** strtoul on a digit: the value saturates and sets errno beyond 32 bits. */
  method Strtoul(val: string) returns (v: nat, range: bool)
    requires val != [] && IsDigit(val[0])
    ensures range <==> LeadingNumber(val, 0) > ULONG_MAX
    ensures v == if range then ULONG_MAX else LeadingNumber(val, 0)
  {
    var p := val;
    var acc: nat := 0;
    while p != [] && IsDigit(p[0])
      invariant LeadingNumber(val, 0) == LeadingNumber(p, acc)
      decreases |p|
    {
      acc := 10 * acc + (p[0] - '0') as nat;
      p := p[1..];
    }
    range := acc > ULONG_MAX;
    v := if range then ULONG_MAX else acc;
  }
}
