/** The receive buffer of the command line: a ring that keeps one place free to tell full from empty. */
module Fifo {

  lemma Next(i: nat, n: nat)
    requires i < n
    ensures (i + 1) % n == if i + 1 == n then 0 else i + 1
  {
  }

  function Ring(b: string, front: nat, back: nat): string
    requires front < |b| && back < |b|
  {
    if front <= back then b[front..back] else b[front..] + b[..back]
  }

  lemma RingPush(b: string, front: nat, back: nat, a: char)
    requires front < |b| && back < |b|
    requires (if back + 1 == |b| then 0 else back + 1) != front
    ensures Ring(b[back := a], front, if back + 1 == |b| then 0 else back + 1) == Ring(b, front, back) + [a]
  {
  }

  lemma RingPop(b: string, front: nat, back: nat)
    requires front < |b| && back < |b| && front != back
    ensures [b[front]] + Ring(b, if front + 1 == |b| then 0 else front + 1, back) == Ring(b, front, back)
  {
  }

  class FifoBuf {
    const buf: array<char>
    var front: nat
    var back: nat

    ghost predicate Valid()
      reads this
    {
      0 < buf.Length < 0x1_0000 && front < buf.Length && back < buf.Length
    }

    /** The queued characters, oldest first. */
    ghost function Contents(): string
      requires Valid()
      reads this, buf
    {
      Ring(buf[..], front, back)
    }

    constructor (size: nat)
      requires 0 < size < 0x1_0000
      ensures Valid() && Contents() == [] && fresh(buf) && buf.Length == size
    {
      buf := new char[size](_ => '\0');
      front, back := 0, 0;
    }

    /** fifoBufAvailable. */
    method Available() returns (n: nat)
      requires Valid()
      ensures n == |Contents()|
    {
      if back >= front {
        n := back - front;
      } else {
        n := buf.Length - front + back;
      }
    }

    /** fifoBufPop: the zero character stands for an empty buffer. */
    method Pop() returns (a: char)
      requires Valid()
      modifies this`front
      ensures Valid()
      ensures if old(Contents()) == [] then a == '\0' && Contents() == []
              else [a] + Contents() == old(Contents())
    {
      a := '\0';
      if front != back {
        a := buf[front];
        Next(front, buf.Length);
        RingPop(buf[..], front, back);
        front := (front + 1) % buf.Length;
      }
    }

    /** fifoBufPush: refuses exactly when one place is left. */
    method Push(a: char) returns (ok: bool)
      requires Valid()
      modifies this`back, buf
      ensures Valid()
      ensures ok <==> |old(Contents())| < buf.Length - 1
      ensures Contents() == if ok then old(Contents()) + [a] else old(Contents())
    {
      Next(back, buf.Length);
      var newBack := (back + 1) % buf.Length;
      if newBack != front {
        RingPush(buf[..], front, back, a);
        buf[back] := a;
        back := newBack;
        return true;
      }
      return false;
    }
  }
}
