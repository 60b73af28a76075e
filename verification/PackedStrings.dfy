/**
 Strings packed into a byte buffer, each ended by a zero: the form in which the command line
 keeps both its history and the tokens of a command's arguments.
 */
module PackedStrings {

  /** Nonempty and free of zeros, so that the packed form can be taken apart again. */
  predicate IsItem(s: string) {
    s != [] && forall i :: 0 <= i < |s| ==> s[i] != '\0'
  }

  predicate AllItems(items: seq<string>) {
    forall k :: 0 <= k < |items| ==> IsItem(items[k])
  }

  function Pack(items: seq<string>): string {
    if items == [] then [] else Pack(items[..|items| - 1]) + items[|items| - 1] + ['\0']
  }

  /** Where item `k` starts. */
  function Offset(items: seq<string>, k: nat): nat
    requires k <= |items|
  {
    |Pack(items[..k])|
  }

  lemma {:induction false} PackConcat(a: seq<string>, b: seq<string>)
    ensures Pack(a + b) == Pack(a) + Pack(b)
  {
    if b == [] {
      assert a + b == a;
    } else {
      assert (a + b)[..|a + b| - 1] == a + b[..|b| - 1];
      PackConcat(a, b[..|b| - 1]);
    }
  }

  lemma PackOne(s: string)
    ensures Pack([s]) == s + ['\0']
  {
    assert [s][..0] == [] && Pack([]) == [];
  }

  lemma PackSplit(items: seq<string>, k: nat)
    requires k < |items|
    ensures Pack(items) == Pack(items[..k]) + (items[k] + ['\0'] + Pack(items[k + 1..]))
    ensures Offset(items, k + 1) == Offset(items, k) + |items[k]| + 1
  {
    hide Pack;
    PackOne(items[k]);
    assert items == items[..k] + ([items[k]] + items[k + 1..]);
    PackConcat(items[..k], [items[k]] + items[k + 1..]);
    PackConcat([items[k]], items[k + 1..]);
    assert items[..k + 1] == items[..k] + [items[k]];
    PackConcat(items[..k], [items[k]]);
  }

  /** The buffer holds item `k` with its zero at the item's offset. */
  lemma ItemAt(s: string, items: seq<string>, k: nat)
    requires k < |items| && Pack(items) <= s
    ensures var o := Offset(items, k);
            o + |items[k]| < |Pack(items)| && s[o..o + |items[k]|] == items[k] && s[o + |items[k]|] == '\0'
  {
    PackSplit(items, k);
    PartAt(s, Pack(items[..k]), items[k], Pack(items[k + 1..]));
  }

  lemma PartAt(s: string, x: string, y: string, z: string)
    requires x + (y + ['\0'] + z) <= s
    ensures |x| + |y| < |s| && s[|x|..|x| + |y|] == y && s[|x| + |y|] == '\0'
  {
    var w := x + (y + ['\0'] + z);
    assert forall i :: 0 <= i < |w| ==> s[i] == w[i];
  }

  /** The C string that starts at index `i`. */
  function TextAt(s: string, i: nat): string
    decreases |s| - i
  {
    if i >= |s| || s[i] == '\0' then [] else [s[i]] + TextAt(s, i + 1)
  }

  lemma {:induction false} TextIs(s: string, i: nat, t: string)
    requires i + |t| < |s| && s[i..i + |t|] == t && s[i + |t|] == '\0'
    requires forall j :: 0 <= j < |t| ==> t[j] != '\0'
    ensures TextAt(s, i) == t
    decreases |t|
  {
    if t != [] {
      assert s[i] == t[0];
      assert s[i + 1..i + |t|] == t[1..];
      TextIs(s, i + 1, t[1..]);
    }
  }

  lemma ItemText(s: string, items: seq<string>, k: nat)
    requires k < |items| && AllItems(items) && Pack(items) <= s
    ensures TextAt(s, Offset(items, k)) == items[k]
  {
    ItemAt(s, items, k);
    TextIs(s, Offset(items, k), items[k]);
  }

  /** The packed form is unambiguous. */
  lemma {:induction false} PackInjective(a: seq<string>, b: seq<string>)
    requires AllItems(a) && AllItems(b) && Pack(a) == Pack(b)
    ensures a == b
    decreases |a|
  {
    if a != [] && b != [] {
      PackSplit(a, 0);
      PackSplit(b, 0);
      ItemText(Pack(a), a, 0);
      ItemText(Pack(b), b, 0);
      assert a == [a[0]] + a[1..] && b == [b[0]] + b[1..];
      assert Pack(a)[|a[0]| + 1..] == Pack(a[1..]);
      assert Pack(b)[|b[0]| + 1..] == Pack(b[1..]);
      PackInjective(a[1..], b[1..]);
    }
  }

  /** Tokens in a buffer from `start`, followed by another zero, or two zeros when there are none. */
  predicate HoldsTokens(s: string, tokens: seq<string>) {
    && AllItems(tokens)
    && Pack(tokens) + ['\0'] <= s
    && (tokens == [] ==> ['\0', '\0'] <= s)
  }

  /** strlen. */
  method StrLen(buf: array<char>, start: nat) returns (n: nat)
    requires start < buf.Length && exists i :: start <= i < buf.Length && buf[i] == '\0'
    ensures start + n < buf.Length && buf[start + n] == '\0' && forall i :: start <= i < start + n ==> buf[i] != '\0'
    ensures buf[start..start + n] == TextAt(buf[..], start)
  {
    ghost var e :| start <= e < buf.Length && buf[e] == '\0';
    n := 0;
    while buf[start + n] != '\0'
      invariant start + n <= e
      decreases e - start - n
      invariant forall i :: start <= i < start + n ==> buf[i] != '\0'
    {
      n := n + 1;
    }
    TextIs(buf[..], start, buf[start..start + n]);
  }

  /** strcmp with a fixed string. */
  method Equals(buf: array<char>, start: nat, str: string) returns (eq: bool)
    requires start < buf.Length && exists i :: start <= i < buf.Length && buf[i] == '\0'
    ensures eq <==> TextAt(buf[..], start) == str
  {
    var n := StrLen(buf, start);
    eq := buf[start..start + n] == str;
  }

  /** The index of item `pos`, counted from 1, relative to `start`; -1 for CLI_TOKEN_NPOS. */
  method GetTokenPosition(buf: array<char>, start: nat, pos: nat, ghost items: seq<string>) returns (r: int)
    requires start <= buf.Length && AllItems(items) && Pack(items) <= buf[start..]
    requires pos <= |items| || HoldsTokens(buf[start..], items)
    ensures r == if 1 <= pos <= |items| then Offset(items, pos - 1) else -1
  {
    hide HoldsTokens;
    if pos == 0 {
      return -1;
    }
    ghost var s := buf[start..];
    assert forall j :: 0 <= j < |s| ==> s[j] == buf[start + j];
    StartOffset(items);
    var i, tokenCount := 0, 1;
    while tokenCount != pos
      invariant 1 <= tokenCount <= pos
      invariant items == [] ==> i == 0 && tokenCount == 1
      invariant items != [] ==> tokenCount <= |items| && Within(items, tokenCount - 1, i)
      invariant items != [] && tokenCount == pos ==> i == Offset(items, pos - 1)
      decreases |s| - i
    {
      Scan(s, items, tokenCount - 1, i);
      if buf[start + i] == '\0' {
        tokenCount := tokenCount + 1;
        if buf[start + i + 1] == '\0' {
          break;
        }
      }
      i := i + 1;
    }
    Landed(s, items, tokenCount - 1, i);
    if buf[start + i] != '\0' {
      return i;
    } else {
      return -1;
    }
  }

  lemma StartOffset(items: seq<string>)
    ensures Offset(items, 0) == 0
  {
    assert items[..0] == [];
  }

  ghost predicate Within(items: seq<string>, k: nat, i: nat) {
    k < |items| && Offset(items, k) <= i <= Offset(items, k) + |items[k]|
  }

  lemma Scan(s: string, items: seq<string>, k: nat, i: nat)
    requires AllItems(items) && Pack(items) <= s
    requires k + 1 < |items| || HoldsTokens(s, items)
    requires if items == [] then k == i == 0 else Within(items, k, i)
    ensures i + 1 < |s|
    ensures items == [] ==> s[0] == s[1] == '\0'
    ensures items != [] && s[i] != '\0' ==> Within(items, k, i + 1)
    ensures items != [] && s[i] == '\0' && s[i + 1] != '\0' ==>
              Within(items, k + 1, i + 1) && i + 1 == Offset(items, k + 1)
    ensures items != [] && s[i] == '\0' && s[i + 1] == '\0' ==> k + 1 == |items|
  {
    if items == [] {
      assert ['\0', '\0'][0] == s[0] && ['\0', '\0'][1] == s[1];
    } else {
      InItem(s, items, k, i);
    }
  }

  /** Where the scan ends: at an item's first character, or at a zero when there is no such item. */
  lemma Landed(s: string, items: seq<string>, k: nat, i: nat)
    requires AllItems(items) && Pack(items) <= s && (k < |items| || HoldsTokens(s, items))
    requires k < |items| ==> i == Offset(items, k)
    requires k >= |items| ==> if items == [] then i == 0 else i + 1 == |Pack(items)|
    ensures i < |s| && (s[i] != '\0' <==> k < |items|)
  {
    if k < |items| {
      ItemAt(s, items, k);
      assert s[i..i + |items[k]|][0] == s[i];
    } else if items == [] {
      assert (Pack(items) + ['\0'])[0] == s[0];
    } else {
      assert Pack(items)[i] == '\0' == s[i];
    }
  }

  /** What the scan sees from inside item `k`. */
  lemma InItem(s: string, items: seq<string>, k: nat, i: nat)
    requires k < |items| && AllItems(items) && Pack(items) <= s
    requires k + 1 < |items| || HoldsTokens(s, items)
    requires Offset(items, k) <= i <= Offset(items, k) + |items[k]|
    ensures i + 1 < |s|
    ensures s[i] == '\0' <==> i == Offset(items, k) + |items[k]|
    ensures s[i] == '\0' ==> i + 1 == Offset(items, k + 1) && (s[i + 1] == '\0' <==> k + 1 == |items|)
  {
    PackSplit(items, k);
    AfterItem(s, items, k);
    ItemChar(s, items, k, i);
  }

  lemma ItemChar(s: string, items: seq<string>, k: nat, i: nat)
    requires k < |items| && AllItems(items) && Pack(items) <= s
    requires Offset(items, k) <= i <= Offset(items, k) + |items[k]|
    ensures i < |s| && (s[i] == '\0' <==> i == Offset(items, k) + |items[k]|)
  {
    ItemAt(s, items, k);
    var o := Offset(items, k);
    if i < o + |items[k]| {
      assert s[i] == s[o..o + |items[k]|][i - o] == items[k][i - o];
    }
  }

  lemma AfterItem(s: string, items: seq<string>, k: nat)
    requires k < |items| && AllItems(items) && Pack(items) <= s
    requires k + 1 < |items| || HoldsTokens(s, items)
    ensures Offset(items, k + 1) < |s| && (s[Offset(items, k + 1)] == '\0' <==> k + 1 == |items|)
  {
    hide Pack;
    if k + 1 < |items| {
      ItemChar(s, items, k + 1, Offset(items, k + 1));
    } else {
      assert items[..k + 1] == items;
      EndZero(s, Pack(items));
    }
  }

  lemma EndZero(s: string, packed: string)
    requires packed + ['\0'] <= s
    ensures |packed| < |s| && s[|packed|] == '\0'
  {
    assert (packed + ['\0'])[|packed|] == s[|packed|];
  }
}
