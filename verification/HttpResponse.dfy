/**
 Streaming of an HTTP response into a TCP send buffer of changing size: header first, then
 body, as much as fits each time, resumed when the client acknowledges data and on a poll.
 */
module HttpResponse {
  import opened Common

  type Byte = bv8

  const WRITE_MAX: nat := 0xffff

  datatype Response = Response(header: seq<Byte>, body: seq<Byte>, bodyStatic: bool)

  /** One accepted tcp_write: its data, whether more is announced, whether TCP must copy it. */
  datatype Chunk = Chunk(data: seq<Byte>, more: bool, copy: bool)

  function Whole(r: Response): seq<Byte> {
    r.header + r.body
  }

  function Total(r: Response): nat {
    |r.header| + |r.body|
  }

  /** The chunk offered when `queued` bytes have been accepted and the send buffer has room for `avail`. */
  function ChunkAt(r: Response, queued: nat, avail: nat): (c: Chunk)
    requires queued < Total(r) && avail > 0
    ensures 0 < |c.data| <= avail && |c.data| <= WRITE_MAX && queued + |c.data| <= Total(r)
  {
    var inHeader := queued < |r.header|;
    var data := if inHeader then r.header[queued..] else r.body[queued - |r.header|..];
    var len := Min(Min(|data|, avail), WRITE_MAX);
    Chunk(data[..len], queued + len < Total(r), inHeader || !r.bodyStatic)
  }

  function Flatten(cs: seq<Chunk>): seq<Byte> {
    if cs == [] then [] else Flatten(cs[..|cs| - 1]) + cs[|cs| - 1].data
  }

  /** The chunks accepted under a schedule of send-buffer sizes; a full buffer or a finished response adds none. */
  function Accepted(r: Response, grants: seq<nat>): (cs: seq<Chunk>)
    ensures |Flatten(cs)| <= Total(r)
  {
    if grants == [] then []
    else
      var cs := Accepted(r, grants[..|grants| - 1]);
      var queued := |Flatten(cs)|;
      var avail := grants[|grants| - 1];
      if queued == Total(r) || avail == 0 then cs
      else
        var c := ChunkAt(r, queued, avail);
        assert (cs + [c])[..|cs|] == cs;
        cs + [c]
  }

  lemma {:induction false} FlattenAppend(cs: seq<Chunk>, c: Chunk)
    ensures Flatten(cs + [c]) == Flatten(cs) + c.data
  {
    assert (cs + [c])[..|cs|] == cs;
  }

  /** A chunk comes from the header or from the body, never from both. */
  lemma ChunkContinues(r: Response, queued: nat, avail: nat)
    requires queued < Total(r) && avail > 0
    ensures var c := ChunkAt(r, queued, avail);
            && Whole(r)[..queued] + c.data == Whole(r)[..queued + |c.data|]
            && (queued < |r.header| ==> queued + |c.data| <= |r.header|)
  {
    var c := ChunkAt(r, queued, avail);
    if queued < |r.header| {
      PartOfWhole(r.header, [], r.header, r.body, queued, |c.data|);
    } else {
      PartOfWhole(r.body, r.header, r.header, r.body, queued - |r.header|, |c.data|);
    }
  }

  lemma PartOfWhole(part: seq<Byte>, before: seq<Byte>, header: seq<Byte>, body: seq<Byte>, i: nat, len: nat)
    requires (part == header && before == []) || (part == body && before == header)
    requires i + len <= |part|
    ensures var q := |before| + i;
            (header + body)[..q] + part[i..][..len] == (header + body)[..q + len]
  {
    var q := |before| + i;
    assert part[i..][..len] == (header + body)[q..q + len];
  }

  /** A chunk is as long as its part of the response, the send buffer and a 16-bit length allow. */
  lemma ChunkLength(r: Response, queued: nat, avail: nat)
    requires queued < Total(r) && avail > 0
    ensures var left := if queued < |r.header| then |r.header| - queued else Total(r) - queued;
            |ChunkAt(r, queued, avail).data| == Min(Min(left, avail), 65535)
  {
  }

  /** Under every schedule, the accepted chunks spell the beginning of the response, in order and without gaps. */
  lemma {:induction false} StreamIsPrefix(r: Response, grants: seq<nat>)
    ensures var s := Flatten(Accepted(r, grants)); s == Whole(r)[..|s|]
  {
    if grants != [] {
      var n := |grants| - 1;
      StreamIsPrefix(r, grants[..n]);
      var cs := Accepted(r, grants[..n]);
      var queued := |Flatten(cs)|;
      if queued != Total(r) && grants[n] != 0 {
        FlattenAppend(cs, ChunkAt(r, queued, grants[n]));
        ChunkContinues(r, queued, grants[n]);
      }
    }
  }

  /** Each chunk stays on one side of the header's end, and announces more exactly until the response is complete. */
  lemma {:induction false} ChunksStayApart(r: Response, grants: seq<nat>, k: nat)
    requires k < |Accepted(r, grants)|
    ensures var cs := Accepted(r, grants);
            var at, c := |Flatten(cs[..k])|, cs[k];
            && (at < |r.header| ==> at + |c.data| <= |r.header| && c.copy)
            && (at >= |r.header| ==> c.copy == !r.bodyStatic)
            && (c.more <==> at + |c.data| < Total(r))
  {
    var n := |grants| - 1;
    var cs, before := Accepted(r, grants), Accepted(r, grants[..n]);
    if k < |before| {
      ChunksStayApart(r, grants[..n], k);
      assert cs[..k] == before[..k];
    } else {
      assert cs[..k] == before;
      ChunkContinues(r, |Flatten(before)|, grants[n]);
    }
  }

  ghost predicate Positive(grants: seq<nat>) {
    forall i :: 0 <= i < |grants| ==> grants[i] > 0
  }

  /** Room for at least a byte each time finishes the response within as many writes as it has bytes. */
  lemma {:induction false} StreamFinishes(r: Response, grants: seq<nat>)
    requires Positive(grants)
    ensures |Flatten(Accepted(r, grants))| >= Min(|grants|, Total(r))
  {
    if grants != [] {
      var n := |grants| - 1;
      StreamFinishes(r, grants[..n]);
      var cs := Accepted(r, grants[..n]);
      if |Flatten(cs)| < Total(r) {
        FlattenAppend(cs, ChunkAt(r, |Flatten(cs)|, grants[n]));
      }
    }
  }

  // ----- one call of send_more -----

  datatype WriteResult = WriteOk | WriteMem | WriteError

  /** How TCP answers during one call: the send-buffer size and the result of each successive write. */
  datatype Schedule = Schedule(sndbuf: nat -> nat, write: nat -> WriteResult, outputOk: bool)

  /** How many bytes have been accepted. */
  function Queued(r: Response, grants: seq<nat>): (n: nat)
    ensures n <= Total(r)
  {
    |Flatten(Accepted(r, grants))|
  }

  lemma GrantAdds(r: Response, grants: seq<nat>, avail: nat)
    requires Queued(r, grants) < Total(r) && avail > 0
    ensures var c := ChunkAt(r, Queued(r, grants), avail);
            && Accepted(r, grants + [avail]) == Accepted(r, grants) + [c]
            && Queued(r, grants + [avail]) == Queued(r, grants) + |c.data|
  {
    assert (grants + [avail])[..|grants|] == grants;
    FlattenAppend(Accepted(r, grants), ChunkAt(r, Queued(r, grants), avail));
  }

  /** The grants after a call whose first `k` writes were accepted, and whether the call succeeds. */
  function Sends(r: Response, grants: seq<nat>, tcp: Schedule, k: nat): (seq<nat>, bool)
    decreases Total(r) - Queued(r, grants)
  {
    if Queued(r, grants) == Total(r) || tcp.sndbuf(k) == 0 || tcp.write(k) == WriteMem then (grants, tcp.outputOk)
    else if tcp.write(k) == WriteError then (grants, false)
    else
      GrantAdds(r, grants, tcp.sndbuf(k));
      Sends(r, grants + [tcp.sndbuf(k)], tcp, k + 1)
  }

  /** The sizes that TCP offered for the writes from `k` up to `n`. */
  function Offered(tcp: Schedule, k: nat, n: nat): seq<nat>
    requires k <= n
    decreases n - k
  {
    if k == n then [] else [tcp.sndbuf(k)] + Offered(tcp, k + 1, n)
  }

  /** A call stops before its write `n`: everything is queued, or TCP has no room or does not take the write. */
  ghost predicate StopsAt(r: Response, grants: seq<nat>, tcp: Schedule, k: nat, n: nat) {
    && k <= n
    && (forall i :: k <= i < n ==>
                      tcp.sndbuf(i) > 0 && tcp.write(i) == WriteOk && Queued(r, grants + Offered(tcp, k, i)) < Total(r))
    && (|| Queued(r, grants + Offered(tcp, k, n)) == Total(r)
        || tcp.sndbuf(n) == 0 || tcp.write(n) != WriteOk)
  }

  /**
   A call goes on until nothing is left or TCP takes no more, and it fails exactly when a write
   is answered by an error or the output fails.
   */
  lemma {:induction false} SendsUntil(r: Response, grants: seq<nat>, tcp: Schedule, k: nat)
    ensures exists n: nat :: k <= n && StopsAt(r, grants, tcp, k, n)
                             && Sends(r, grants, tcp, k).0 == grants + Offered(tcp, k, n)
                             && (Sends(r, grants, tcp, k).1 <==> tcp.outputOk && !FailsAt(r, grants, tcp, k, n))
    decreases Total(r) - Queued(r, grants)
  {
    hide StopsAt, FailsAt, Offered, Flatten;
    if Queued(r, grants) == Total(r) || tcp.sndbuf(k) == 0 || tcp.write(k) != WriteOk {
      StopsHere(r, grants, tcp, k);
    } else {
      var avail := tcp.sndbuf(k);
      GrantAdds(r, grants, avail);
      SendsUntil(r, grants + [avail], tcp, k + 1);
      var n: nat :| && k < n && StopsAt(r, grants + [avail], tcp, k + 1, n)
                    && Sends(r, grants + [avail], tcp, k + 1).0 == grants + [avail] + Offered(tcp, k + 1, n)
                    && (Sends(r, grants + [avail], tcp, k + 1).1 <==>
                        tcp.outputOk && !FailsAt(r, grants + [avail], tcp, k + 1, n));
      StopsEarlier(r, grants, tcp, k, n);
    }
  }

  lemma StopsHere(r: Response, grants: seq<nat>, tcp: Schedule, k: nat)
    requires Queued(r, grants) == Total(r) || tcp.sndbuf(k) == 0 || tcp.write(k) != WriteOk
    ensures StopsAt(r, grants, tcp, k, k) && Sends(r, grants, tcp, k).0 == grants + Offered(tcp, k, k)
    ensures Sends(r, grants, tcp, k).1 <==> tcp.outputOk && !FailsAt(r, grants, tcp, k, k)
  {
    OfferedNone(grants, tcp, k);
  }

  /** The write at which a call stops is answered by an error. */
  ghost predicate FailsAt(r: Response, grants: seq<nat>, tcp: Schedule, k: nat, n: nat)
    requires k <= n
  {
    Queued(r, grants + Offered(tcp, k, n)) < Total(r) && tcp.sndbuf(n) > 0 && tcp.write(n) == WriteError
  }

  lemma OfferedOne(grants: seq<nat>, tcp: Schedule, k: nat, n: nat)
    requires k < n
    ensures grants + [tcp.sndbuf(k)] + Offered(tcp, k + 1, n) == grants + Offered(tcp, k, n)
  {
    assert Offered(tcp, k, n) == [tcp.sndbuf(k)] + Offered(tcp, k + 1, n);
  }

  lemma StopsEarlier(r: Response, grants: seq<nat>, tcp: Schedule, k: nat, n: nat)
    requires Queued(r, grants) < Total(r) && tcp.sndbuf(k) > 0 && tcp.write(k) == WriteOk
    requires StopsAt(r, grants + [tcp.sndbuf(k)], tcp, k + 1, n)
    ensures StopsAt(r, grants, tcp, k, n)
    ensures grants + [tcp.sndbuf(k)] + Offered(tcp, k + 1, n) == grants + Offered(tcp, k, n)
    ensures FailsAt(r, grants, tcp, k, n) <==> FailsAt(r, grants + [tcp.sndbuf(k)], tcp, k + 1, n)
  {
    hide Queued, Offered;
    OfferedOne(grants, tcp, k, n);
    forall i | k <= i < n
      ensures tcp.sndbuf(i) > 0 && tcp.write(i) == WriteOk && Queued(r, grants + Offered(tcp, k, i)) < Total(r)
    {
      if i == k {
        OfferedNone(grants, tcp, k);
      } else {
        OfferedOne(grants, tcp, k, i);
      }
    }
  }

  lemma OfferedNone(grants: seq<nat>, tcp: Schedule, k: nat)
    ensures grants + Offered(tcp, k, k) == grants
  {
  }

  /** A call only adds to what was accepted before. */
  lemma {:induction false} SendsExtends(r: Response, grants: seq<nat>, tcp: Schedule, k: nat)
    ensures Accepted(r, grants) <= Accepted(r, Sends(r, grants, tcp, k).0)
    ensures Queued(r, grants) <= Queued(r, Sends(r, grants, tcp, k).0)
    decreases Total(r) - Queued(r, grants)
  {
    if !(Queued(r, grants) == Total(r) || tcp.sndbuf(k) == 0 || tcp.write(k) != WriteOk) {
      GrantAdds(r, grants, tcp.sndbuf(k));
      SendsExtends(r, grants + [tcp.sndbuf(k)], tcp, k + 1);
    }
  }

  /** TCP takes everything that is offered. */
  ghost predicate Roomy(tcp: Schedule) {
    tcp.outputOk && forall k :: tcp.write(k) == WriteOk && tcp.sndbuf(k) > 0
  }

  /** With room for each write, one call queues all of the response. */
  lemma {:induction false} SendsAll(r: Response, grants: seq<nat>, tcp: Schedule, k: nat)
    requires Roomy(tcp)
    ensures Sends(r, grants, tcp, k).1 && Queued(r, Sends(r, grants, tcp, k).0) == Total(r)
    decreases Total(r) - Queued(r, grants)
  {
    if Queued(r, grants) != Total(r) {
      GrantAdds(r, grants, tcp.sndbuf(k));
      SendsAll(r, grants + [tcp.sndbuf(k)], tcp, k + 1);
    }
  }

  const NO_RESPONSE: Response := Response([], [], false)

  class Sender {
    var response: Response
    var queuedLen: nat
    var ackedLen: nat
    /** What TCP has accepted, and the send-buffer sizes under which it did. */
    var written: seq<Chunk>
    ghost var grants: seq<nat>

    ghost predicate Valid()
      reads this
    {
      written == Accepted(response, grants) && queuedLen == Queued(response, grants)
    }

    constructor ()
      ensures Valid() && response == NO_RESPONSE && ackedLen == 0 && grants == []
    {
      response := NO_RESPONSE;
      queuedLen, ackedLen := 0, 0;
      written, grants := [], [];
    }

    /** The content of the page is there. */
    method Fill(r: Response)
      requires Valid() && grants == []
      modifies this`response
      ensures Valid() && response == r
    {
      response := r;
    }

    /** The data, length and flags of the next write. */
    method NextChunk(avail: nat) returns (c: Chunk)
      requires queuedLen < Total(response) && avail > 0
      ensures c == ChunkAt(response, queuedLen, avail)
    {
      var data;
      var copy := true;
      if queuedLen < |response.header| {
        data := response.header[queuedLen..];
      } else {
        data := response.body[queuedLen - |response.header|..];
        if response.bodyStatic {
          copy := false;
        }
      }
      var len := |data|;
      if len > avail {
        len := avail;
      }
      if len > WRITE_MAX {
        len := WRITE_MAX;
      }
      c := Chunk(data[..len], queuedLen + len < Total(response), copy);
    }

    /** send_more: writes until the response is queued, the send buffer is full, or TCP refuses. */
    method SendMore(tcp: Schedule) returns (ok: bool)
      requires Valid()
      modifies this`queuedLen, this`written, this`grants
      ensures Valid() && (grants, ok) == Sends(response, old(grants), tcp, 0)
      ensures old(written) <= written
    {
      var k := 0;
      SendsExtends(response, grants, tcp, 0);
      while queuedLen < Total(response)
        invariant Valid() && Sends(response, grants, tcp, k) == Sends(response, old(grants), tcp, 0)
        decreases Total(response) - queuedLen
      {
        var avail := tcp.sndbuf(k);
        if avail == 0 {
          break;
        }
        var c := NextChunk(avail);
        var result := tcp.write(k);
        if result == WriteMem {
          break;
        }
        if result == WriteError {
          return false;
        }
        Accept(c, avail);
        k := k + 1;
      }
      ok := tcp.outputOk;
    }

    method Accept(c: Chunk, ghost avail: nat)
      requires Valid() && queuedLen < Total(response) && avail > 0 && c == ChunkAt(response, queuedLen, avail)
      modifies this`queuedLen, this`written, this`grants
      ensures Valid() && written == old(written) + [c] && queuedLen == old(queuedLen) + |c.data|
      ensures grants == old(grants) + [avail]
    {
      GrantAdds(response, grants, avail);
      written := written + [c];
      queuedLen := queuedLen + |c.data|;
      grants := grants + [avail];
    }
  }
}
