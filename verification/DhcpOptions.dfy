/** DHCP options (section 2 of RFC 2132) as the server writes and finds them. */
module DhcpOptions {

  type Byte = b: int | 0 <= b < 256

  const OPT_END: Byte := 255
  /** Bytes of the options field after the magic cookie. */
  const OPT_SPACE: nat := 308

  datatype Opt = Opt(tag: Byte, data: seq<Byte>)

  predicate Writable(o: Opt) {
    o.tag != OPT_END && |o.data| < 256
  }

  function Encode(o: Opt): seq<Byte>
    requires Writable(o)
  {
    [o.tag, |o.data|] + o.data
  }

  function EncodeAll(opts: seq<Opt>): seq<Byte>
    requires forall i :: 0 <= i < |opts| ==> Writable(opts[i])
  {
    if opts == [] then [] else Encode(opts[0]) + EncodeAll(opts[1..])
  }

  lemma {:induction false} EncodeAppend(opts: seq<Opt>, o: Opt)
    requires Writable(o) && forall i :: 0 <= i < |opts| ==> Writable(opts[i])
    ensures EncodeAll(opts + [o]) == EncodeAll(opts) + Encode(o)
  {
    if opts == [] {
      assert opts + [o] == [o] && [o][1..] == [];
    } else {
      assert (opts + [o])[1..] == opts[1..] + [o];
      EncodeAppend(opts[1..], o);
    }
  }

  /**
   Where the search for `tag` stops when it starts at `i`: at the option, or nowhere. A tag in
   the last byte of the field has no length there; whatever byte follows the field, the search
   is then beyond its end.
   */
  function Find(s: seq<Byte>, i: nat, tag: Byte): (r: int)
    requires |s| >= OPT_SPACE
    ensures r >= 0 ==> i <= r < OPT_SPACE && s[r] == tag
    decreases OPT_SPACE - i
  {
    if i >= OPT_SPACE || s[i] == OPT_END then -1
    else if s[i] == tag then i
    else if i + 1 == OPT_SPACE then -1
    else Find(s, i + 2 + s[i + 1], tag)
  }

  /** The first option with the tag in a list, or the list's length. */
  function FirstWithTag(opts: seq<Opt>, tag: Byte): (k: nat)
    ensures k <= |opts|
    ensures k < |opts| ==> opts[k].tag == tag
    ensures forall j :: 0 <= j < k ==> opts[j].tag != tag
  {
    if opts == [] || opts[0].tag == tag then 0 else 1 + FirstWithTag(opts[1..], tag)
  }

  /**
   Round trip: in a field that starts with the encoding of `opts` and an end mark, the
   search returns the first option with the requested tag, length and data included,
   and nothing when there is none.
   */
  lemma {:induction false} FindWritten(s: seq<Byte>, at: nat, opts: seq<Opt>, tag: Byte)
    requires |s| >= OPT_SPACE
    requires forall i :: 0 <= i < |opts| ==> Writable(opts[i])
    requires at + |EncodeAll(opts)| < OPT_SPACE
    requires EncodeAll(opts) + [OPT_END] <= s[at..]
    ensures var r, k := Find(s, at, tag), FirstWithTag(opts, tag);
            if k == |opts| then r == -1 else r >= at && Encode(opts[k]) <= s[r..]
    decreases |opts|
  {
    hide Encode, EncodeAll, Find;
    if opts == [] {
      NoOptions();
      assert s[at..][0] == s[at];
      assert (EncodeAll(opts) + [OPT_END])[0] == OPT_END;
      FindEnds(s, at, tag);
    } else {
      var o := opts[0];
      var tail := EncodeAll(opts[1..]) + [OPT_END];
      EncodeHead(opts);
      EncodeSize(opts);
      OptionAt(s, at, o, tail);
      FindStep(s, at, tag);
      if o.tag != tag {
        FindWritten(s, at + 2 + |o.data|, opts[1..], tag);
      }
    }
  }

  lemma FindEnds(s: seq<Byte>, at: nat, tag: Byte)
    requires |s| >= OPT_SPACE && at < OPT_SPACE && s[at] == OPT_END
    ensures Find(s, at, tag) == -1
  {
  }

  lemma FindStep(s: seq<Byte>, at: nat, tag: Byte)
    requires |s| >= OPT_SPACE && at + 1 < OPT_SPACE && s[at] != OPT_END
    ensures Find(s, at, tag) == if s[at] == tag then at else Find(s, at + 2 + s[at + 1], tag)
  {
  }

  lemma NoOptions()
    ensures EncodeAll([]) == []
  {
  }

  lemma EncodeSize(opts: seq<Opt>)
    requires opts != [] && forall i :: 0 <= i < |opts| ==> Writable(opts[i])
    ensures |EncodeAll(opts)| == 2 + |opts[0].data| + |EncodeAll(opts[1..])|
  {
  }

  lemma EncodeHead(opts: seq<Opt>)
    requires opts != [] && forall i :: 0 <= i < |opts| ==> Writable(opts[i])
    ensures EncodeAll(opts) + [OPT_END] == Encode(opts[0]) + (EncodeAll(opts[1..]) + [OPT_END])
  {
    Regroup(Encode(opts[0]), EncodeAll(opts[1..]), [OPT_END]);
  }

  lemma Regroup(a: seq<Byte>, b: seq<Byte>, c: seq<Byte>)
    ensures (a + b) + c == a + (b + c)
  {
  }

  lemma OptionAt(s: seq<Byte>, at: nat, o: Opt, tail: seq<Byte>)
    requires Writable(o) && at <= |s| && Encode(o) + tail <= s[at..]
    ensures at + 2 + |o.data| <= |s|
    ensures s[at] == o.tag && s[at + 1] == |o.data| && Encode(o) <= s[at..]
    ensures tail <= s[at + 2 + |o.data|..]
  {
    var rest, w := s[at..], Encode(o) + tail;
    assert w[0] == o.tag && w[1] == |o.data| && rest[0] == s[at] && rest[1] == s[at + 1];
    assert Encode(o) == w[..2 + |o.data|] == rest[..2 + |o.data|];
    assert w[2 + |o.data|..] == tail;
    assert s[at + 2 + |o.data|..] == rest[2 + |o.data|..];
  }

  /** opt_find over the options field at `start`; the result is relative to it, -1 for NULL. */
  method OptFind(buf: array<Byte>, start: nat, cmd: Byte) returns (r: int)
    requires start + OPT_SPACE <= buf.Length
    ensures r == Find(buf[start..], 0, cmd)
  {
    var i := 0;
    while i < OPT_SPACE && buf[start + i] != OPT_END
      invariant Find(buf[start..], 0, cmd) == Find(buf[start..], i, cmd)
      decreases OPT_SPACE - i
    {
      if buf[start + i] == cmd {
        return i;
      }
      i := i + 2 + if i + 1 < OPT_SPACE then buf[start + i + 1] else 0;
    }
    return -1;
  }

  /** opt_write_n: tag, length and data at the write pointer, which moves past them. */
  method OptWriteN(buf: array<Byte>, opt: nat, cmd: Byte, data: seq<Byte>) returns (next: nat)
    requires |data| < 256 && opt + 2 + |data| <= buf.Length
    modifies buf
    ensures next == opt + 2 + |data|
    ensures buf[..next] == old(buf[..opt]) + ([cmd, |data|] + data) && buf[next..] == old(buf[next..])
  {
    buf[opt] := cmd;
    buf[opt + 1] := |data|;
    forall i | 0 <= i < |data| {
      buf[opt + 2 + i] := data[i];
    }
    next := opt + 2 + |data|;
  }

  /** opt_write_u32: the value in network byte order. */
  method OptWriteU32(buf: array<Byte>, opt: nat, cmd: Byte, val: nat) returns (next: nat)
    requires val < 0x1_0000_0000 && opt + 6 <= buf.Length
    modifies buf
    ensures next == opt + 6
    ensures buf[..next] == old(buf[..opt]) + ([cmd, 4] + BigEndian(val)) && buf[next..] == old(buf[next..])
  {
    next := OptWriteN(buf, opt, cmd, BigEndian(val));
  }

  function BigEndian(val: nat): (s: seq<Byte>)
    requires val < 0x1_0000_0000
    ensures |s| == 4
    ensures var a: int, b: int, c: int := s[0], s[1], s[2]; ((a * 256 + b) * 256 + c) * 256 + s[3] == val
  {
    var b := val / 256;
    var c := b / 256;
    var d := c / 256;
    [d, c % 256, b % 256, val % 256]
  }
}
