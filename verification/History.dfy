/**
 The command history: a packed buffer that behaves as a most-recently-used list without
 duplicates, from which the oldest commands are dropped when a new one needs their room.
 */
module History {
  import opened PackedStrings

  /** The list without a string. */
  function Without(items: seq<string>, s: string): seq<string> {
    if items == [] then []
    else
      var last := items[|items| - 1];
      Without(items[..|items| - 1], s) + if last == s then [] else [last]
  }

  /** The longest prefix of the list whose packed form fits in `room`. */
  function Fitting(items: seq<string>, room: nat): seq<string> {
    if |Pack(items)| <= room then items else if items == [] then [] else Fitting(items[..|items| - 1], room)
  }

  /** The history after a command has been entered, in a buffer of `size` bytes. */
  function Entered(items: seq<string>, s: string, size: nat): seq<string> {
    if size < |s| + 1 then items else [s] + Fitting(Without(items, s), size - |s| - 1)
  }

  ghost predicate Unique(items: seq<string>) {
    forall i, j :: 0 <= i < j < |items| ==> items[i] != items[j]
  }

  /** Fitting keeps as many of the most recent items as there is room for. */
  lemma {:induction false} FittingIsLongest(items: seq<string>, room: nat)
    ensures var f := Fitting(items, room);
            && f <= items && |Pack(f)| <= room
            && forall k :: |f| < k <= |items| ==> |Pack(items[..k])| > room
  {
    if |Pack(items)| > room && items != [] {
      var n := |items| - 1;
      FittingIsLongest(items[..n], room);
      forall k | |Fitting(items, room)| < k <= |items| ensures |Pack(items[..k])| > room {
        if k <= n {
          assert items[..n][..k] == items[..k];
        } else {
          assert items[..k] == items;
        }
      }
    } else {
      assert items[..|items|] == items;
    }
  }

  /** Without drops the string and keeps everything else in order. */
  lemma {:induction false} WithoutOne(a: seq<string>, s: string, b: seq<string>)
    requires s !in a && s !in b
    ensures Without(a + [s] + b, s) == a + b
  {
    if b == [] {
      assert (a + [s] + b)[..|a|] == a;
      WithoutAbsent(a, s);
    } else {
      var n := |b| - 1;
      assert (a + [s] + b)[..|a| + 1 + n] == a + [s] + b[..n];
      WithoutOne(a, s, b[..n]);
      assert a + b[..n] + [b[n]] == a + b;
    }
  }

  lemma {:induction false} WithoutAbsent(a: seq<string>, s: string)
    requires s !in a
    ensures Without(a, s) == a
  {
    if a != [] {
      WithoutAbsent(a[..|a| - 1], s);
      assert a[..|a| - 1] + [a[|a| - 1]] == a;
    }
  }

  lemma {:induction false} WithoutMembers(items: seq<string>, s: string)
    ensures forall x :: x in Without(items, s) <==> x in items && x != s
  {
    if items != [] {
      WithoutMembers(items[..|items| - 1], s);
    }
  }

  lemma {:induction false} WithoutUnique(items: seq<string>, s: string)
    requires Unique(items)
    ensures Unique(Without(items, s))
  {
    if items != [] {
      var n := |items| - 1;
      WithoutUnique(items[..n], s);
      WithoutMembers(items[..n], s);
      assert items[n] !in items[..n];
    }
  }

  lemma WithoutItems(items: seq<string>, s: string)
    requires AllItems(items)
    ensures AllItems(Without(items, s))
  {
    WithoutMembers(items, s);
    var w := Without(items, s);
    forall k | 0 <= k < |w| ensures IsItem(w[k]) {
      assert w[k] in w;
    }
  }

  lemma PushUnique(s: string, w: seq<string>, f: seq<string>)
    requires Unique(w) && AllItems(w) && s !in w && IsItem(s) && f <= w
    ensures Unique([s] + f) && AllItems([s] + f)
  {
    assert forall k :: 0 <= k < |f| ==> f[k] == w[k] && f[k] in w;
  }

  /**
   Most recently used: an entered command that fits is the first item, the others follow in
   their order as far as they fit, nothing appears twice, and the packed form fits the buffer.
   */
  lemma EnteredIsMru(items: seq<string>, s: string, size: nat)
    requires Unique(items) && AllItems(items) && IsItem(s) && |Pack(items)| <= size
    ensures var r := Entered(items, s, size);
            && Unique(r) && AllItems(r) && |Pack(r)| <= size
            && (size >= |s| + 1 ==> r != [] && r[0] == s && r[1..] <= Without(items, s))
            && (size < |s| + 1 ==> r == items)
  {
    hide Pack, Without, Fitting;
    if size >= |s| + 1 {
      var w, room := Without(items, s), size - |s| - 1;
      var f := Fitting(w, room);
      WithoutMembers(items, s);
      WithoutUnique(items, s);
      WithoutItems(items, s);
      FittingIsLongest(w, room);
      PushUnique(s, w, f);
      PackFirst(s, f);
      assert ([s] + f)[1..] == f;
    }
  }

  /** No longer stretch of the other commands would have fitted along with the new one. */
  lemma EnteredKeepsMost(items: seq<string>, s: string, size: nat, k: nat)
    requires size >= |s| + 1 && |Entered(items, s, size)| <= k <= |Without(items, s)|
    ensures |Pack([s] + Without(items, s)[..k])| > size
  {
    var w := Without(items, s);
    FittingIsLongest(w, size - |s| - 1);
    PackFirst(s, w[..k]);
  }

  lemma PackFirst(s: string, items: seq<string>)
    ensures Pack([s] + items) == s + ['\0'] + Pack(items)
  {
    PackConcat([s], items);
    assert [s][..0] == [];
  }

  /** memmove within a buffer. */
  method Move(buf: array<char>, dst: nat, src: nat, n: nat)
    requires dst + n <= buf.Length && src + n <= buf.Length
    modifies buf
    ensures buf[dst..dst + n] == old(buf[src..src + n])
    ensures buf[..dst] == old(buf[..dst]) && buf[dst + n..] == old(buf[dst + n..])
  {
    ghost var before := buf[..];
    forall i | 0 <= i < n {
      buf[dst + i] := buf[src + i];
    }
  }

  class CliHistory {
    const buf: array<char>
    var current: nat
    var itemsCount: nat
    ghost var items: seq<string>

    ghost predicate Valid()
      reads this`itemsCount, this`items, buf
    {
      itemsCount == |items| && AllItems(items) && Unique(items) && Pack(items) <= buf[..]
    }

    constructor (size: nat)
      ensures Valid() && items == [] && current == 0 && fresh(buf) && buf.Length == size
    {
      buf := new char[size](_ => '\0');
      current, itemsCount := 0, 0;
      items := [];
    }

    /** historyGet, with the item's length found by strlen; None stands for NULL. */
    method Get(item: nat) returns (found: bool, at: nat, len: nat)
      requires Valid()
      ensures found <==> 1 <= item <= |items|
      ensures found ==> at == Offset(items, item - 1) && len == |items[item - 1]|
                        && at + len < buf.Length && buf[at..at + len] == items[item - 1]
    {
      if item == 0 || item > itemsCount {
        return false, 0, 0;
      }
      assert buf[0..] == buf[..];
      var p := GetTokenPosition(buf, 0, item, items);
      ItemAt(buf[..], items, item - 1);
      ItemText(buf[..], items, item - 1);
      found, at := true, p;
      len := StrLen(buf, at);
      TextLength(buf[..], items, item - 1, at, len);
    }

    lemma TextLength(s: string, its: seq<string>, k: nat, at: nat, len: nat)
      requires k < |its| && AllItems(its) && Pack(its) <= s && at == Offset(its, k)
      requires at + len < |s| && s[at..at + len] == TextAt(s, at)
      ensures len == |its[k]| && s[at..at + len] == its[k]
    {
      ItemText(s, its, k);
      assert |s[at..at + len]| == len;
    }

    /** The search of historyRemove: position 0 when the string is not in the history. */
    method FindItem(str: string) returns (pos: nat, at: nat)
      requires Valid()
      ensures pos <= |items|
      ensures pos == 0 ==> str !in items
      ensures pos > 0 ==> items[pos - 1] == str && at == Offset(items, pos - 1)
    {
      pos, at := 1, 0;
      while pos <= itemsCount
        invariant 1 <= pos <= itemsCount + 1
        invariant forall k :: 0 <= k < pos - 1 ==> items[k] != str
      {
        var _, p, len := Get(pos);
        if buf[p..p + len] == str {
          at := p;
          return;
        }
        pos := pos + 1;
      }
      pos := 0;
    }

    /** historyRemove. */
    method Remove(str: string)
      requires Valid() && IsItem(str)
      modifies this`itemsCount, this`items, buf
      ensures Valid() && items == Without(old(items), str)
    {
      if itemsCount == 0 {
        return;
      }
      var pos, at := FindItem(str);
      if pos == 0 {
        WithoutAbsent(items, str);
        return;
      }
      RemoveAt(str, pos, at);
    }

    /** The removal of the item found at position `pos`, which starts at index `at`. */
    method RemoveAt(str: string, pos: nat, at: nat)
      requires Valid() && IsItem(str) && 1 <= pos <= |items| && items[pos - 1] == str && at == Offset(items, pos - 1)
      modifies this`itemsCount, this`items, buf
      ensures Valid() && items == Without(old(items), str)
    {
      ghost var a, b := items[..pos - 1], items[pos..];
      Divide(items, str, pos - 1);
      Closed(buf[..], a, str, b);
      var last := pos == itemsCount;
      itemsCount := itemsCount - 1;
      items := a + b;
      if last {
        EmptyPack(b);
        assert Pack(items) == Pack(a);
        return;
      }
      CloseGap(at, at + |str| + 1, Pack(a), Pack(b));
    }

    /** Everything right of the removed item moves down over it. */
    method CloseGap(at: nat, next: nat, ghost left: string, ghost right: string)
      requires at <= next && next + |right| <= buf.Length
      requires buf[..at] == left && buf[next..][..|right|] == right
      modifies buf
      ensures left + right <= buf[..]
    {
      ghost var rest := buf[next..];
      assert rest[..|right|] == right;
      Move(buf, at, next, buf.Length - next);
      assert buf[at..at + (buf.Length - next)] == rest;
      assert forall i :: 0 <= i < |right| ==>
          buf[at + i] == buf[at..at + (buf.Length - next)][i] == rest[i] == right[i];
    }

    lemma EmptyPack(b: seq<string>)
      requires |b| == 0
      ensures Pack(b) == []
    {
    }

    lemma Divide(its: seq<string>, s: string, k: nat)
      requires k < |its| && its[k] == s && Unique(its) && AllItems(its)
      ensures var a, b := its[..k], its[k + 1..];
              && Without(its, s) == a + b && Pack(its) == Pack(a) + (s + ['\0'] + Pack(b))
              && Pack(a + b) == Pack(a) + Pack(b) && Unique(a + b) && AllItems(a + b)
    {
      var a, b := its[..k], its[k + 1..];
      assert its == a + [s] + b;
      WithoutOne(a, s, b);
      WithoutUnique(its, s);
      PackSplit(its, k);
      PackConcat(a, b);
    }

    lemma Closed(before: string, a: seq<string>, s: string, b: seq<string>)
      requires Pack(a) + ((s + ['\0']) + Pack(b)) <= before
      ensures var at, next := |Pack(a)|, |Pack(a)| + |s| + 1;
              && next + |Pack(b)| <= |before|
              && before[..at] == Pack(a) && before[next..][..|Pack(b)|] == Pack(b)
    {
      Parts(before, Pack(a), s + ['\0'], Pack(b));
    }

    lemma Parts(before: string, x: string, y: string, z: string)
      requires x + (y + z) <= before
      ensures before[..|x|] == x && before[|x| + |y|..][..|z|] == z
    {
      var w := x + (y + z);
      assert forall i :: 0 <= i < |w| ==> before[i] == w[i];
    }

    /** historyPut. */
    method Put(str: string) returns (ok: bool)
      requires Valid() && IsItem(str)
      modifies this`itemsCount, this`items, buf
      ensures Valid() && items == Entered(old(items), str, buf.Length)
      ensures ok <==> |str| < buf.Length
    {
      if buf.Length < |str| + 1 {
        return false;
      }
      WithoutMembers(items, str);
      Remove(str);
      var usedSize := Evict(|str|);
      Prepend(str, usedSize);
      ok := true;
    }

    /** The loop of historyPut that drops the oldest items until the new one fits. */
    method Evict(len: nat) returns (usedSize: nat)
      requires Valid() && len + 1 <= buf.Length
      modifies this`itemsCount, this`items
      ensures Valid() && items == Fitting(old(items), buf.Length - len - 1) && items <= old(items)
      ensures |Pack(items)| + len + 1 <= buf.Length
      ensures itemsCount > 0 ==> usedSize == |Pack(items)|
    {
      usedSize := 0;
      while itemsCount > 0
        invariant Valid() && items <= old(items)
        invariant Fitting(old(items), buf.Length - len - 1) == Fitting(items, buf.Length - len - 1)
        decreases itemsCount
      {
        var _, at, itemLen := Get(itemsCount);
        usedSize := at + itemLen + 1;
        LastEnds();
        if buf.Length - usedSize >= len + 1 {
          break;
        }
        itemsCount := itemsCount - 1;
        items := items[..itemsCount];
      }
    }

    lemma LastEnds()
      requires Valid() && itemsCount > 0
      ensures var n := itemsCount - 1;
              && Offset(items, n) + |items[n]| + 1 == |Pack(items)|
              && Pack(items[..n]) <= Pack(items) && AllItems(items[..n]) && Unique(items[..n])
    {
      PackSplit(items, itemsCount - 1);
      assert items[..itemsCount] == items;
    }

    method Prepend(str: string, usedSize: nat)
      requires Valid() && IsItem(str) && str !in items && |Pack(items)| + |str| + 1 <= buf.Length
      requires itemsCount > 0 ==> usedSize == |Pack(items)|
      modifies this`itemsCount, this`items, buf
      ensures Valid() && items == [str] + old(items)
    {
      var len := |str|;
      ghost var packed := Pack(items);
      PackFirst(str, items);
      PushUnique(str, items, items);
      if itemsCount == 0 {
        EmptyPack(items);
      }
      ShiftUp(len, usedSize, packed);
      CopyIn(str);
      assert buf[..len + 1 + |packed|] == str + ['\0'] + packed;
      itemsCount := itemsCount + 1;
      items := [str] + items;
    }

    method ShiftUp(len: nat, usedSize: nat, ghost packed: string)
      requires packed <= buf[..] && |packed| + len + 1 <= buf.Length
      requires if itemsCount > 0 then usedSize == |packed| else packed == []
      modifies buf
      ensures buf[len + 1..len + 1 + |packed|] == packed
    {
      if itemsCount > 0 {
        assert buf[0..usedSize] == buf[..][..usedSize] == packed;
        Move(buf, len + 1, 0, usedSize);
      }
    }

    /** memcpy of a string with its terminator to the start of the buffer. */
    method CopyIn(str: string)
      requires |str| < buf.Length
      modifies buf
      ensures buf[..|str| + 1] == str + ['\0'] && buf[|str| + 1..] == old(buf[|str| + 1..])
    {
      forall i | 0 <= i < |str| {
        buf[i] := str[i];
      }
      buf[|str|] := '\0';
    }
  }
}
