/**
 The terminal at the other end of the command line, as far as the command line uses it: one
 row of text, a cursor, a saved cursor, and the ECMA-48 control functions for moving the
 cursor and for inserting and deleting characters (ICH, DCH, CUF and CUB of section 8.3).
 */
module Terminal {
  import opened Common
  import opened DecimalText

  const ESC: char := '\U{1B}'

  datatype Mode = Ground | Escape | Sequence(param: nat)

  /** The row with the cursor; the rows above are out of reach, and the one below is blank. */
  datatype Term = Term(row: string, col: nat, saved: nat, mode: Mode)

  predicate Printable(c: char) {
    32 as char <= c <= 126 as char
  }

  predicate AllPrintable(s: string) {
    forall i :: 0 <= i < |s| ==> Printable(s[i])
  }

  function Spaces(n: nat): (s: string)
    ensures |s| == n && forall i :: 0 <= i < n ==> s[i] == ' '
  {
    seq(n, _ => ' ')
  }

  predicate Valid(t: Term) {
    0 <= t.col < |t.row|
  }

  /** A control function with its parameter, a missing one counting as 1. */
  function Control(t: Term, final: char, param: nat): (t': Term)
    requires Valid(t)
    ensures Valid(t') && |t'.row| == |t.row|
  {
    var n := if param == 0 then 1 else param;
    var w := |t.row|;
    var m := Min(n, w - t.col);
    if final == 'C' then t.(mode := Ground, col := Min(t.col + n, w - 1))
    else if final == 'D' then t.(mode := Ground, col := if n > t.col then 0 else t.col - n)
    else if final == '@' then t.(mode := Ground, row := t.row[..t.col] + Spaces(m) + t.row[t.col..w - m])
    else if final == 'P' then t.(mode := Ground, row := t.row[..t.col] + t.row[t.col + m..] + Spaces(m))
    else if final == 's' then t.(mode := Ground, saved := t.col)
    else if final == 'u' then t.(mode := Ground, col := Min(t.saved, w - 1))
    else t.(mode := Ground)
  }

  /** The terminal after one received character. */
  function Put(t: Term, c: char): (t': Term)
    requires Valid(t)
    ensures Valid(t') && |t'.row| == |t.row|
  {
    var w := |t.row|;
    match t.mode
    case Escape => if c == '[' then t.(mode := Sequence(0)) else t.(mode := Ground)
    case Sequence(n) =>
      if IsDigit(c) then t.(mode := Sequence(10 * n + (c - '0') as nat))
      else if '@' <= c <= '~' then Control(t, c, n)
      else t
    case Ground =>
      if c == '\r' then t.(col := 0)
      else if c == '\n' then t.(row := Spaces(w))
      else if c == '\t' then t.(col := Min(t.col / 8 * 8 + 8, w - 1))
      else if c == ESC then t.(mode := Escape)
      else if !Printable(c) then t
      else if t.col + 1 < w then t.(row := t.row[t.col := c], col := t.col + 1)
      else t.(row := Spaces(w), col := 0)
  }

  function Feed(t: Term, s: string): (t': Term)
    requires Valid(t)
    ensures Valid(t') && |t'.row| == |t.row|
    decreases |s|
  {
    if s == [] then t else Feed(Put(t, s[0]), s[1..])
  }

  lemma {:induction false} FeedConcat(t: Term, a: string, b: string)
    requires Valid(t)
    ensures Feed(t, a + b) == Feed(Feed(t, a), b)
    decreases |a|
  {
    if a == [] {
      assert a + b == b;
    } else {
      assert (a + b)[0] == a[0] && (a + b)[1..] == a[1..] + b;
      FeedConcat(Put(t, a[0]), a[1..], b);
    }
  }

  /** Text that stays clear of the right margin overwrites the row at the cursor. */
  lemma {:induction false} FeedText(t: Term, s: string)
    requires Valid(t) && t.mode == Ground && AllPrintable(s) && t.col + |s| < |t.row|
    ensures Feed(t, s) == t.(row := t.row[..t.col] + s + t.row[t.col + |s|..], col := t.col + |s|)
    decreases |s|
  {
    if s == [] {
      assert t.row[..t.col] + s + t.row[t.col..] == t.row;
    } else {
      var u := Put(t, s[0]);
      FeedText(u, s[1..]);
      assert u.row[..u.col] + s[1..] + u.row[u.col + |s| - 1..] == t.row[..t.col] + s + t.row[t.col + |s|..];
    }
  }

  /** The digits of a parameter accumulate. */
  lemma {:induction false} FeedDigits(t: Term, s: string, acc: nat, rest: string)
    requires Valid(t) && t.mode == Sequence(acc) && forall i :: 0 <= i < |s| ==> IsDigit(s[i])
    ensures Feed(t, s + rest) == Feed(t.(mode := Sequence(LeadingNumber(s, acc))), rest)
    decreases |s|
  {
    if s == [] {
      assert s + rest == rest;
    } else {
      assert (s + rest)[0] == s[0] && (s + rest)[1..] == s[1..] + rest;
      FeedDigits(Put(t, s[0]), s[1..], 10 * acc + (s[0] - '0') as nat, rest);
    }
  }

  /** A control sequence without a parameter. */
  function Simple(final: char): string {
    [ESC, '[', final]
  }

  /** moveCursor: nothing at all for a distance of zero, else a sequence with a decimal parameter. */
  function Move(n: nat, final: char): string {
    if n == 0 then [] else [ESC, '['] + Decimal(n) + [final]
  }

  lemma FeedOne(t: Term, c: char, rest: string)
    requires Valid(t)
    ensures Feed(t, [c] + rest) == Feed(Put(t, c), rest)
  {
    assert ([c] + rest)[1..] == rest;
  }

  lemma FeedLast(t: Term, c: char)
    requires Valid(t)
    ensures Feed(t, [c]) == Put(t, c)
  {
    assert [c][1..] == [];
  }

  lemma FeedSimple(t: Term, final: char)
    requires Valid(t) && t.mode == Ground && '@' <= final <= '~'
    ensures Feed(t, Simple(final)) == Control(t, final, 0)
  {
    assert Simple(final) == [ESC] + (['['] + [final]);
    FeedIntroducer(t, [final]);
    FeedFinal(t, final);
  }

  lemma FeedFinal(t: Term, final: char)
    requires Valid(t) && t.mode == Ground && '@' <= final <= '~'
    ensures Feed(t.(mode := Sequence(0)), [final]) == Control(t, final, 0)
  {
    FeedLast(t.(mode := Sequence(0)), final);
    ControlMode(t.(mode := Sequence(0)), final, 0);
    assert t.(mode := Ground) == t;
  }

  lemma FeedIntroducer(t: Term, rest: string)
    requires Valid(t) && t.mode == Ground
    ensures Feed(t, [ESC] + (['['] + rest)) == Feed(t.(mode := Sequence(0)), rest)
  {
    FeedOne(t, ESC, ['['] + rest);
    FeedOne(t.(mode := Escape), '[', rest);
  }

  lemma FeedMove(t: Term, n: nat, final: char)
    requires Valid(t) && t.mode == Ground && '@' <= final <= '~'
    ensures Feed(t, Move(n, final)) == if n == 0 then t else Control(t, final, n)
  {
    if n > 0 {
      var rest := Decimal(n) + [final];
      assert Move(n, final) == [ESC] + (['['] + rest);
      FeedIntroducer(t, rest);
      FeedNumber(t.(mode := Sequence(0)), n, final);
    }
  }

  lemma FeedNumber(t: Term, n: nat, final: char)
    requires Valid(t) && t.mode == Sequence(0) && '@' <= final <= '~'
    ensures Feed(t, Decimal(n) + [final]) == Control(t.(mode := Ground), final, n)
  {
    FeedDigits(t, Decimal(n), 0, [final]);
    DecimalNumber(n);
    var u := t.(mode := Sequence(n));
    FeedLast(u, final);
    ControlMode(u, final, n);
  }

  lemma ControlMode(t: Term, final: char, n: nat)
    requires Valid(t)
    ensures Control(t, final, n) == Control(t.(mode := Ground), final, n)
  {
  }

  // ----- output that leaves a blank row -----

  predicate Plain(c: char) {
    Printable(c) || c == '\r' || c == '\n' || c == '\t'
  }

  lemma {:induction false} PlainKeepsGround(t: Term, s: string)
    requires Valid(t) && t.mode == Ground && forall i :: 0 <= i < |s| ==> Plain(s[i])
    ensures Feed(t, s).mode == Ground
    decreases |s|
  {
    if s != [] {
      PlainKeepsGround(Put(t, s[0]), s[1..]);
    }
  }

  predicate AtBlank(t: Term) {
    t.mode == Ground && t.col == 0 && t.row == Spaces(|t.row|)
  }

  /** Whatever plain text came before, a line break leaves the cursor at the start of a blank row. */
  lemma LineEndsBlank(t: Term, s: string)
    requires Valid(t) && t.mode == Ground && forall i :: 0 <= i < |s| ==> Plain(s[i])
    ensures AtBlank(Feed(t, s + ['\r', '\n']))
  {
    PlainKeepsGround(t, s);
    FeedConcat(t, s, ['\r', '\n']);
    var u := Feed(t, s);
    assert ['\r', '\n'] == ['\r'] + ['\n'];
    FeedOne(u, '\r', ['\n']);
    FeedLast(Put(u, '\r'), '\n');
  }
}
