/**
 One connection of the HTTP server from its first segment to its end: the request's assembly
 and the response's streaming together, over every order of the callbacks of TCP.
 */
module HttpSession {
  import opened Common
  import Req = HttpRequest
  import Res = HttpResponse

  const IDLE_POLLS_MAX: nat := 10

  type Serve = Req.Request -> Option<Res.Response>

  /** A request that was handed to the handlers, and what they made of it. */
  datatype Served = Served(request: Req.Request, response: Res.Response)

  /** Why a connection was closed. */
  datatype Reason = Refused | SendFailed | Finished | Idle | Lost

  /** `Data` without a segment is the client's close; `Gone` is the loss of the connection. */
  datatype Event =
    | Data(segment: Option<string>, tcpOk: bool, tcp: Res.Schedule)
    | Acked(len: nat, tcp: Res.Schedule)
    | Tick(tcp: Res.Schedule)
    | Gone

  datatype Session = Session(conn: Req.Conn, served: Option<Served>, grants: seq<nat>, acked: nat, idle: nat,
                             ended: Option<Reason>)

  const START: Session := Session(Req.Reading([]), None, [], 0, 0, None)

  function Answer(st: Session): Res.Response {
    if st.served.Some? then st.served.value.response else Res.NO_RESPONSE
  }

  /** The writes that TCP has accepted. */
  function Written(st: Session): seq<Res.Chunk> {
    Res.Accepted(Answer(st), st.grants)
  }

  function Queued(st: Session): nat {
    Res.Queued(Answer(st), st.grants)
  }

  function Total(st: Session): nat {
    Res.Total(Answer(st))
  }

  /** A handler's response counts only with a header. */
  function Content(serve: Serve, q: Req.Request): Option<Res.Response> {
    match serve(q)
    case None => None
    case Some(r) => if r.header == [] then None else Some(r)
  }

  function Send(st: Session, tcp: Res.Schedule): Session {
    var (grants, ok) := Res.Sends(Answer(st), st.grants, tcp, 0);
    st.(grants := grants, ended := if ok then None else Some(SendFailed))
  }

  function Hear(serve: Serve, st: Session, seg: string, tcp: Res.Schedule): (t: Session)
    requires Req.ValidConn(st.conn) && st.ended == None
    ensures Req.ValidConn(t.conn)
  {
    var (c, e) := Req.Receive(st.conn, seg);
    var t := st.(conn := c);
    match e
    case Wait => t
    case Ignore => t
    case Close => t.(ended := Some(Refused))
    case Hand(q) =>
      match Content(serve, q)
      case None => t.(ended := Some(Refused))
      case Some(r) => Send(t.(served := Some(Served(q, r))), tcp)
  }

  /** One callback; a closed connection gets none. */
  function Step(serve: Serve, st: Session, e: Event): (t: Session)
    requires Req.ValidConn(st.conn)
    ensures Req.ValidConn(t.conn)
  {
    if st.ended.Some? then st
    else
      match e
      case Data(segment, tcpOk, tcp) =>
        if segment.None? || !tcpOk then st.(ended := Some(Refused))
        else Hear(serve, st.(idle := 0), segment.value, tcp)
      case Acked(len, tcp) =>
        var t := st.(acked := st.acked + len, idle := 0);
        if t.acked >= Total(t) then t.(ended := Some(Finished)) else Send(t, tcp)
      case Tick(tcp) =>
        var t := st.(idle := st.idle + 1);
        if t.idle > IDLE_POLLS_MAX then t.(ended := Some(Idle)) else if t.conn.Done? then Send(t, tcp) else t
      case Gone => st.(ended := Some(Lost))
  }

  /** The connection after its first `n` callbacks. */
  function At(serve: Serve, es: seq<Event>, n: nat): (st: Session)
    requires n <= |es|
    ensures Req.ValidConn(st.conn)
  {
    if n == 0 then START else Step(serve, At(serve, es, n - 1), es[n - 1])
  }

  // ----- what is streamed -----

  predicate Arrives(e: Event) {
    e.Data? && e.segment.Some? && e.tcpOk
  }

  /** The segments among the first `n` callbacks. */
  function Segments(es: seq<Event>, n: nat): seq<string>
    requires n <= |es|
  {
    if n == 0 then []
    else if Arrives(es[n - 1]) then Segments(es, n - 1) + [es[n - 1].segment.value]
    else Segments(es, n - 1)
  }

  /** Callback `k` completes the request: the first one of the stream, and the handlers have content for it. */
  ghost predicate Hands(serve: Serve, es: seq<Event>, k: nat, v: Served)
    requires k < |es|
  {
    && Arrives(es[k])
    && At(serve, es, k).ended == None && At(serve, es, k).served == None
    && Req.Run(Segments(es, k + 1)).1[|Segments(es, k)|..] == [Req.Hand(v.request)]
    && Content(serve, v.request) == Some(v.response)
  }

  /** While a connection is open, its request is that of its segments, and handed over exactly when it is served. */
  ghost predicate Open(es: seq<Event>, n: nat, st: Session)
    requires n <= |es|
  {
    st.ended == None ==> st.conn == Req.Run(Segments(es, n)).0 && (st.conn.Done? <==> st.served.Some?)
  }

  lemma SendKeeps(st: Session, tcp: Res.Schedule)
    ensures var t := Send(st, tcp); t.conn == st.conn && t.served == st.served && Written(st) <= Written(t)
  {
    Res.SendsExtends(Answer(st), st.grants, tcp, 0);
  }

  /** What a callback keeps: the served request, once there is one, and all that was written. */
  ghost predicate Keeps(st: Session, t: Session) {
    && (t.ended == None ==> (t.conn.Done? <==> t.served.Some?))
    && (t.served == None ==> t.grants == [])
    && (st.served.Some? ==> t.served == st.served)
    && Written(st) <= Written(t)
  }

  ghost predicate Consistent(st: Session) {
    && Req.ValidConn(st.conn)
    && (st.ended == None ==> (st.conn.Done? <==> st.served.Some?))
    && (st.served == None ==> st.grants == [])
  }

  lemma HearKeeps(serve: Serve, st: Session, seg: string, tcp: Res.Schedule)
    requires Consistent(st) && st.ended == None
    ensures Keeps(st, Hear(serve, st, seg, tcp))
    ensures var t := Hear(serve, st, seg, tcp);
            && (t.ended == None ==> t.conn == Req.Receive(st.conn, seg).0)
            && (st.served == None && t.served.Some? ==>
                  && Req.Receive(st.conn, seg).1 == Req.Hand(t.served.value.request)
                  && Content(serve, t.served.value.request) == Some(t.served.value.response))
  {
    hide Res.Sends, Res.Accepted, Res.Queued, Content;
    ReceiveDone(st.conn, seg);
    var (c, e) := Req.Receive(st.conn, seg);
    if e.Hand? && Content(serve, e.request).Some? {
      var v := Served(e.request, Content(serve, e.request).value);
      SendKeeps(st.(conn := c, served := Some(v)), tcp);
      NothingWritten(st);
    }
  }

  lemma NothingWritten(st: Session)
    requires st.grants == []
    ensures Written(st) == []
  {
  }

  /** A request is done exactly when it is handed over, and then stays so. */
  lemma ReceiveDone(c: Req.Conn, seg: string)
    requires Req.ValidConn(c)
    ensures var (d, e) := Req.Receive(c, seg);
            if c.Done? then d == c && e == Req.Ignore
            else e == Req.Close || (d.Done? <==> e.Hand?)
    ensures var (d, e) := Req.Receive(c, seg); !c.Closed? ==> (d.Closed? <==> e == Req.Close)
  {
    hide Req.Complete, Req.HeaderEnd;
  }

  lemma StepKeeps(serve: Serve, st: Session, e: Event)
    requires Consistent(st)
    ensures Keeps(st, Step(serve, st, e)) && Consistent(Step(serve, st, e))
    ensures st.served == None && Step(serve, st, e).served.Some? ==> st.ended == None && Arrives(e)
  {
    hide Res.Sends, Res.Accepted, Res.Queued, Hear;
    if st.ended == None {
      match e
      case Data(segment, tcpOk, tcp) =>
        if segment.Some? && tcpOk {
          HearKeeps(serve, st.(idle := 0), segment.value, tcp);
        }
      case Acked(len, tcp) => SendKeeps(st.(acked := st.acked + len, idle := 0), tcp);
      case Tick(tcp) => SendKeeps(st.(idle := st.idle + 1), tcp);
      case Gone =>
    }
  }

  lemma {:induction false} RunConsistent(serve: Serve, es: seq<Event>, n: nat)
    requires n <= |es|
    ensures Consistent(At(serve, es, n))
  {
    hide Step, Consistent;
    if n > 0 {
      RunConsistent(serve, es, n - 1);
      StepKeeps(serve, At(serve, es, n - 1), es[n - 1]);
    } else {
      StartConsistent();
    }
  }

  lemma StartConsistent()
    ensures Consistent(START) && Written(START) == []
  {
  }

  /** What was written stays written, and who is served stays served. */
  lemma {:induction false} RunGrows(serve: Serve, es: seq<Event>, m: nat, n: nat)
    requires m <= n <= |es|
    ensures Written(At(serve, es, m)) <= Written(At(serve, es, n))
    ensures At(serve, es, m).served.Some? ==> At(serve, es, n).served == At(serve, es, m).served
    ensures At(serve, es, m).ended.Some? ==> At(serve, es, n) == At(serve, es, m)
  {
    hide Written, Consistent, Hear, Send;
    if m < n {
      RunGrows(serve, es, m, n - 1);
      RunConsistent(serve, es, n - 1);
      StepKeeps(serve, At(serve, es, n - 1), es[n - 1]);
    }
  }

  /** While a connection is open, its request stands where its segments alone put it. */
  lemma {:induction false} RunFollows(serve: Serve, es: seq<Event>, n: nat)
    requires n <= |es|
    ensures At(serve, es, n).ended == None ==> At(serve, es, n).conn == Req.Run(Segments(es, n)).0
  {
    hide Hear, Req.Receive, Written, Res.Sends;
    if n > 0 {
      var st, e := At(serve, es, n - 1), es[n - 1];
      RunFollows(serve, es, n - 1);
      RunConsistent(serve, es, n - 1);
      if Arrives(e) {
        SegmentsExtend(es, n - 1);
        if st.ended == None {
          HearKeeps(serve, st.(idle := 0), e.segment.value, e.tcp);
        }
      }
    }
  }

  lemma SegmentsExtend(es: seq<Event>, n: nat)
    requires n < |es| && Arrives(es[n])
    ensures var segs := Segments(es, n);
            && Segments(es, n + 1) == segs + [es[n].segment.value]
            && Req.Run(Segments(es, n + 1)).0 == Req.Receive(Req.Run(segs).0, es[n].segment.value).0
            && Req.Run(Segments(es, n + 1)).1[|segs|] == Req.Receive(Req.Run(segs).0, es[n].segment.value).1
  {
    var all := Segments(es, n + 1);
    assert all[..|all| - 1] == Segments(es, n);
    Req.RunExtends(all);
  }

  /** Where the served request was handed over. */
  lemma {:induction false} HandedAt(serve: Serve, es: seq<Event>, n: nat) returns (k: nat)
    requires n <= |es| && At(serve, es, n).served.Some?
    ensures k < n && Hands(serve, es, k, At(serve, es, n).served.value)
  {
    hide Hands, Hear, Step;
    assert n > 0;
    RunConsistent(serve, es, n - 1);
    StepKeeps(serve, At(serve, es, n - 1), es[n - 1]);
    if At(serve, es, n - 1).served.Some? {
      k := HandedAt(serve, es, n - 1);
    } else {
      k := n - 1;
      HandsHere(serve, es, k);
    }
  }

  lemma HandsHere(serve: Serve, es: seq<Event>, k: nat)
    requires k < |es| && At(serve, es, k).served == None && At(serve, es, k + 1).served.Some?
    ensures Hands(serve, es, k, At(serve, es, k + 1).served.value)
  {
    hide Hear, Req.Receive, Res.Sends, Content, Written;
    RunConsistent(serve, es, k);
    StepKeeps(serve, At(serve, es, k), es[k]);
    RunFollows(serve, es, k);
    SegmentsExtend(es, k);
    HearKeeps(serve, At(serve, es, k).(idle := 0), es[k].segment.value, es[k].tcp);
  }

  /** The hand-over serves the handed request. */
  lemma HandsServes(serve: Serve, es: seq<Event>, k: nat, v: Served)
    requires k < |es| && Hands(serve, es, k, v)
    ensures At(serve, es, k + 1).served == Some(v)
  {
    hide Req.Receive, Res.Sends, Written;
    RunFollows(serve, es, k);
    SegmentsExtend(es, k);
    RunConsistent(serve, es, k);
    var segs := Segments(es, k + 1);
    assert segs[..|segs| - 1] == Segments(es, k);
    assert Req.Run(segs).1[|segs| - 1] == Req.Run(segs).1[|segs| - 1..][0];
  }

  lemma ServedBehind(serve: Serve, es: seq<Event>, k: nat, v: Served, n: nat)
    requires k < n <= |es| && Hands(serve, es, k, v)
    ensures At(serve, es, n).served == Some(v)
  {
    hide Hands, At;
    HandsServes(serve, es, k, v);
    RunGrows(serve, es, k + 1, n);
  }

  /** No connection hands over two requests. */
  lemma HandsOnce(serve: Serve, es: seq<Event>, k: nat, v: Served, m: nat, w: Served)
    requires k < |es| && Hands(serve, es, k, v)
    requires m < |es| && Hands(serve, es, m, w)
    ensures k == m && v == w
  {
    if k < m {
      ServedBehind(serve, es, k, v, m);
      assert false;
    } else if m < k {
      ServedBehind(serve, es, m, w, k);
      assert false;
    } else {
      HandsServes(serve, es, k, v);
      HandsServes(serve, es, k, w);
    }
  }

  /** The writes are the beginning of the response of the request that was handed over. */
  ghost predicate StreamsHanded(serve: Serve, es: seq<Event>, n: nat, v: Served)
    requires n <= |es|
  {
    && Res.Flatten(Written(At(serve, es, n))) <= Res.Whole(v.response)
    && exists k: nat :: k < n && Hands(serve, es, k, v) && Written(At(serve, es, k)) == []
  }

  ghost predicate NothingHanded(serve: Serve, es: seq<Event>, n: nat)
    requires n <= |es|
  {
    forall k: nat, v :: k < n ==> !Hands(serve, es, k, v)
  }

  /**
   Whatever the order of the callbacks: nothing is written before one of them hands over a
   request, and from then on what is written is always the beginning of the response that the
   handlers made for this request.
   */
  lemma OnlyHandedIsStreamed(serve: Serve, es: seq<Event>, n: nat)
    requires n <= |es|
    ensures var st := At(serve, es, n);
            match st.served
            case None => Written(st) == [] && NothingHanded(serve, es, n)
            case Some(v) => StreamsHanded(serve, es, n, v)
  {
    hide Hands, At, Written, Queued, StreamsHanded;
    var st := At(serve, es, n);
    if st.served.Some? {
      StreamsHandedHolds(serve, es, n, st.served.value);
    } else {
      RunConsistent(serve, es, n);
      NothingWritten(st);
      forall k: nat, v | k < n
        ensures !Hands(serve, es, k, v)
      {
        if Hands(serve, es, k, v) {
          ServedBehind(serve, es, k, v, n);
        }
      }
    }
  }

  lemma StreamsHandedHolds(serve: Serve, es: seq<Event>, n: nat, v: Served)
    requires n <= |es| && At(serve, es, n).served == Some(v)
    ensures StreamsHanded(serve, es, n, v)
  {
    hide Hands, At, Res.Accepted, Res.Flatten;
    Res.StreamIsPrefix(v.response, At(serve, es, n).grants);
    var k := HandedAt(serve, es, n);
    UnservedBefore(serve, es, k, v);
  }

  lemma UnservedBefore(serve: Serve, es: seq<Event>, k: nat, v: Served)
    requires k < |es| && Hands(serve, es, k, v)
    ensures Written(At(serve, es, k)) == []
  {
    RunConsistent(serve, es, k);
    NothingWritten(At(serve, es, k));
  }

  // ----- which request -----

  /** The bytes among the first `n` callbacks. */
  function Stream(es: seq<Event>, n: nat): string
    requires n <= |es|
  {
    Req.Concat(Segments(es, n))
  }

  lemma {:induction false} RunPrefix(segs: seq<string>, j: nat)
    requires j < |segs|
    ensures Req.Run(segs).1[j] == Req.Run(segs[..j + 1]).1[j]
  {
    Req.RunExtends(segs);
    var n := |segs| - 1;
    if j < n {
      RunPrefix(segs[..n], j);
      assert segs[..n][..j + 1] == segs[..j + 1];
      assert Req.Run(segs).1[j] == Req.Run(segs).1[..n][j];
    } else {
      assert segs[..j + 1] == segs;
    }
  }

  lemma {:induction false} SegmentsGrow(es: seq<Event>, m: nat, n: nat)
    requires m <= n <= |es|
    ensures Segments(es, m) <= Segments(es, n)
  {
    if m < n {
      SegmentsGrow(es, m, n - 1);
    }
  }

  /**
   In a clean stream that fits the buffer, the request served is the one that the whole stream
   determines, however it is segmented and whichever other callbacks come between; while the
   connection is open, it is served exactly when the stream holds a complete request.
   */
  lemma ServedIsStreams(serve: Serve, es: seq<Event>, n: nat)
    requires n <= |es| && Req.Clean(Stream(es, n)) && |Stream(es, n)| <= Req.REQUEST_MAX_SIZE
    ensures var st := At(serve, es, n);
            && (st.served.Some? ==> Req.Judge(Stream(es, n)) == Req.Handed(st.served.value.request))
            && (st.ended == None ==> (st.served.Some? <==> Req.Judge(Stream(es, n)).Handed?))
  {
    hide Hands, At, Req.Run, Req.Concat, Req.Clean, Req.Judge;
    var st := At(serve, es, n);
    var segs := Segments(es, n);
    if st.served.Some? {
      var k := HandedAt(serve, es, n);
      HandedFromSegments(serve, es, k, st.served.value);
      var j := |Segments(es, k)|;
      SegmentsGrow(es, k + 1, n);
      assert segs[..j + 1] == Segments(es, k + 1);
      RunPrefix(segs, j);
      Req.SegmentationIndependent(segs, j);
    }
    if st.ended == None {
      RunConsistent(serve, es, n);
      RunFollows(serve, es, n);
      Req.RunAgrees(segs, 0);
    }
  }

  lemma HandedFromSegments(serve: Serve, es: seq<Event>, k: nat, v: Served)
    requires k < |es| && Hands(serve, es, k, v)
    ensures |Segments(es, k + 1)| == |Segments(es, k)| + 1
    ensures Req.Run(Segments(es, k + 1)).1[|Segments(es, k)|] == Req.Hand(v.request)
  {
    var es' := Req.Run(Segments(es, k + 1)).1;
    assert es'[|Segments(es, k)|] == es'[|Segments(es, k)|..][0];
  }

  // ----- the end of a connection -----

  /** TCP acknowledges only bytes that it was given. */
  ghost predicate Honest(serve: Serve, es: seq<Event>, n: nat)
    requires n <= |es|
  {
    forall i :: 0 <= i < n && es[i].Acked? ==>
                  0 < es[i].len && At(serve, es, i).acked + es[i].len <= Queued(At(serve, es, i))
  }

  ghost predicate Accounted(st: Session) {
    && (st.ended in {None, Some(SendFailed), Some(Finished)} ==> st.acked <= Queued(st))
    && (st.ended == None && st.served.Some? ==> st.acked < Total(st))
    && (st.ended == Some(Finished) ==> st.served.Some? && st.acked == Total(st))
  }

  lemma SendAccounts(st: Session, tcp: Res.Schedule)
    requires st.acked <= Queued(st) && st.acked < Total(st) && st.ended == None
    ensures Accounted(Send(st, tcp))
  {
    hide Res.Sends, Res.Queued;
    Res.SendsExtends(Answer(st), st.grants, tcp, 0);
  }

  lemma StepAccounts(serve: Serve, st: Session, e: Event)
    requires Consistent(st) && st.ended == None && Accounted(st)
    requires e.Acked? ==> 0 < e.len && st.acked + e.len <= Queued(st)
    ensures Accounted(Step(serve, st, e))
  {
    hide Res.Sends, Res.Queued, Req.Receive;
    match e
    case Data(segment, tcpOk, tcp) =>
      if segment.Some? && tcpOk {
        HearAccounts(serve, st.(idle := 0), segment.value, tcp);
      }
    case Acked(len, tcp) =>
      var t := st.(acked := st.acked + len, idle := 0);
      if t.acked < Total(t) {
        SendAccounts(t, tcp);
      }
    case Tick(tcp) =>
      if st.conn.Done? {
        SendAccounts(st.(idle := st.idle + 1), tcp);
      }
    case Gone =>
  }

  lemma HearAccounts(serve: Serve, st: Session, seg: string, tcp: Res.Schedule)
    requires Consistent(st) && st.ended == None && Accounted(st)
    ensures Accounted(Hear(serve, st, seg, tcp))
  {
    hide Res.Sends, Res.Queued, Req.Receive;
    ReceiveDone(st.conn, seg);
    var (c, e) := Req.Receive(st.conn, seg);
    if e.Hand? && Content(serve, e.request).Some? {
      var r := Content(serve, e.request).value;
      SendAccounts(st.(conn := c, served := Some(Served(e.request, r))), tcp);
    }
  }

  lemma {:induction false} RunAccounts(serve: Serve, es: seq<Event>, n: nat)
    requires n <= |es| && Honest(serve, es, n)
    ensures Accounted(At(serve, es, n))
  {
    hide Step, Accounted, Consistent, Queued;
    if n > 0 {
      var st := At(serve, es, n - 1);
      RunAccounts(serve, es, n - 1);
      RunConsistent(serve, es, n - 1);
      if st.ended == None {
        StepAccounts(serve, st, es[n - 1]);
      } else {
        RunGrows(serve, es, n - 1, n);
      }
    } else {
      StartAccounts();
    }
  }

  lemma StartAccounts()
    ensures Accounted(START)
  {
  }

  /**
   A connection is closed as finished exactly when all of its response is acknowledged, and then
   all of it was written; the client may acknowledge in any portions.
   */
  lemma FinishedIffAcknowledged(serve: Serve, es: seq<Event>, n: nat)
    requires n <= |es| && Honest(serve, es, n)
    ensures var st := At(serve, es, n);
            && (st.ended == Some(Finished) ==>
                  st.served.Some? && Res.Flatten(Written(st)) == Res.Whole(st.served.value.response))
            && (st.ended in {None, Some(Finished)} && st.served.Some? ==>
                  (st.ended == Some(Finished) <==> st.acked == Total(st)))
  {
    hide Hands, At, Honest, Res.Accepted, Res.Flatten;
    var st := At(serve, es, n);
    RunAccounts(serve, es, n);
    if st.ended == Some(Finished) {
      Res.StreamIsPrefix(st.served.value.response, st.grants);
    }
  }

  /** How many polls in a row have come without data or an acknowledgement. */
  function IdleFor(es: seq<Event>, n: nat): nat
    requires n <= |es|
  {
    if n == 0 || es[n - 1].Acked? || Arrives(es[n - 1]) then 0
    else IdleFor(es, n - 1) + if es[n - 1].Tick? then 1 else 0
  }

  lemma {:induction false} RunIdles(serve: Serve, es: seq<Event>, n: nat)
    requires n <= |es| && At(serve, es, n).ended == None
    ensures At(serve, es, n).idle == IdleFor(es, n) <= 10
  {
    hide Req.Receive, Res.Sends, Content;
    if n > 0 {
      RunIdles(serve, es, n - 1);
    }
  }

  /** An open connection is closed for idling exactly by the poll that follows ten idle ones. */
  lemma IdleIff(serve: Serve, es: seq<Event>, n: nat)
    requires n < |es| && At(serve, es, n).ended == None
    ensures At(serve, es, n + 1).ended == Some(Idle) <==> es[n].Tick? && IdleFor(es, n) == 10
  {
    hide Req.Receive, Res.Sends, Content;
    RunIdles(serve, es, n);
  }

  /** What the request's assembly makes of the segment of callback `n`. */
  function Reaction(es: seq<Event>, n: nat): Req.Event
    requires n < |es| && Arrives(es[n])
  {
    SegmentsExtend(es, n);
    Req.Run(Segments(es, n + 1)).1[|Segments(es, n)|]
  }

  /**
   An open connection is refused exactly when the client closes it or fails, when its request is
   too large or of another method, or when the handlers have no content for it.
   */
  lemma RefusedIff(serve: Serve, es: seq<Event>, n: nat)
    requires n < |es| && At(serve, es, n).ended == None
    ensures At(serve, es, n + 1).ended == Some(Refused) <==>
            && es[n].Data?
            && (|| !Arrives(es[n])
                || Reaction(es, n).Close?
                || (Reaction(es, n).Hand? && Content(serve, Reaction(es, n).request) == None))
  {
    hide Req.Receive, Res.Sends, Content;
    RunFollows(serve, es, n);
    RunConsistent(serve, es, n);
    if Arrives(es[n]) {
      SegmentsExtend(es, n);
    }
  }

  /** A connection is lost exactly when TCP says so. */
  lemma LostIff(serve: Serve, es: seq<Event>, n: nat)
    requires n < |es| && At(serve, es, n).ended == None
    ensures At(serve, es, n + 1).ended == Some(Lost) <==> es[n].Gone?
  {
    hide Req.Receive, Res.Sends, Content;
  }

  ghost predicate RoomyEvents(es: seq<Event>, n: nat)
    requires n <= |es|
  {
    forall i :: 0 <= i < n && !es[i].Gone? ==> Res.Roomy(es[i].tcp)
  }

  ghost predicate AllQueued(st: Session) {
    st.ended != Some(SendFailed) && (st.ended == None && st.served.Some? ==> Queued(st) == Total(st))
  }

  /** With room for each write, sending never fails, and a served connection has its whole response queued. */
  lemma {:induction false} RoomyRunSendsAll(serve: Serve, es: seq<Event>, n: nat)
    requires n <= |es| && RoomyEvents(es, n)
    ensures AllQueued(At(serve, es, n))
  {
    hide Step, Consistent, AllQueued;
    if n > 0 {
      var st := At(serve, es, n - 1);
      RoomyRunSendsAll(serve, es, n - 1);
      RunConsistent(serve, es, n - 1);
      StepSendsAll(serve, st, es[n - 1]);
    } else {
      StartAllQueued();
    }
  }

  lemma StartAllQueued()
    ensures AllQueued(START)
  {
  }

  lemma SendSendsAll(st: Session, tcp: Res.Schedule)
    requires Res.Roomy(tcp)
    ensures AllQueued(Send(st, tcp))
  {
    Res.SendsAll(Answer(st), st.grants, tcp, 0);
  }

  lemma StepSendsAll(serve: Serve, st: Session, e: Event)
    requires Consistent(st) && AllQueued(st) && (!e.Gone? ==> Res.Roomy(e.tcp))
    ensures AllQueued(Step(serve, st, e))
  {
    hide Res.Sends, Res.Queued, Req.Receive, Res.Roomy, Content;
    if st.ended == None {
      match e
      case Data(segment, tcpOk, tcp) =>
        if segment.Some? && tcpOk {
          var (c, o) := Req.Receive(st.conn, segment.value);
          if o.Hand? && Content(serve, o.request).Some? {
            var v := Served(o.request, Content(serve, o.request).value);
            SendSendsAll(st.(idle := 0, conn := c, served := Some(v)), tcp);
          }
        }
      case Acked(len, tcp) => SendSendsAll(st.(acked := st.acked + len, idle := 0), tcp);
      case Tick(tcp) => SendSendsAll(st.(idle := st.idle + 1), tcp);
      case Gone =>
    }
  }

  // ----- progress -----

  /** How many bytes TCP has taken. */
  function Bytes(st: Session): nat {
    |Res.Flatten(Written(st))|
  }

  /** TCP has room for the first write of this call and takes it. */
  predicate Takes(tcp: Res.Schedule) {
    tcp.sndbuf(0) > 0 && tcp.write(0) == Res.WriteOk
  }

  lemma SendTakes(st: Session, tcp: Res.Schedule)
    requires Takes(tcp) && Bytes(st) < Total(st)
    ensures Bytes(Send(st, tcp)) > Bytes(st)
  {
    var r := Answer(st);
    Res.GrantAdds(r, st.grants, tcp.sndbuf(0));
    Res.SendsExtends(r, st.grants + [tcp.sndbuf(0)], tcp, 1);
  }

  /** An acknowledgement that does not finish the connection, or a poll that does not close it for idling. */
  predicate Resumes(st: Session, e: Event) {
    || (e.Acked? && st.acked + e.len < Total(st))
    || (e.Tick? && st.idle < IDLE_POLLS_MAX)
  }

  /**
   An open connection with bytes left to send goes on with every acknowledgement that does not
   finish it and every poll that does not close it, if TCP takes the first write.
   */
  lemma EventProgresses(serve: Serve, es: seq<Event>, n: nat)
    requires n < |es| && At(serve, es, n).ended == None && At(serve, es, n).served.Some?
    requires Bytes(At(serve, es, n)) < Total(At(serve, es, n))
    requires Resumes(At(serve, es, n), es[n]) && Takes(es[n].tcp)
    ensures Bytes(At(serve, es, n + 1)) > Bytes(At(serve, es, n))
  {
    hide Res.Sends, Res.Accepted, Res.Flatten, Bytes, Takes;
    var st, e := At(serve, es, n), es[n];
    RunConsistent(serve, es, n);
    if e.Acked? {
      var t := st.(acked := st.acked + e.len, idle := 0);
      SameBytes(st, t);
      SendTakes(t, e.tcp);
    } else {
      var t := st.(idle := st.idle + 1);
      SameBytes(st, t);
      SendTakes(t, e.tcp);
    }
  }

  lemma SameBytes(st: Session, t: Session)
    requires t.served == st.served && t.grants == st.grants
    ensures Bytes(t) == Bytes(st)
  {
  }

  /** The number of acknowledgements and polls from `m` up to `n` in which TCP takes a write. */
  function Chances(es: seq<Event>, m: nat, n: nat): nat
    requires n <= |es|
  {
    if n <= m then 0
    else Chances(es, m, n - 1) + if (es[n - 1].Acked? || es[n - 1].Tick?) && Takes(es[n - 1].tcp) then 1 else 0
  }

  /** What keeps a connection open resumes its response. */
  lemma OpenResumes(serve: Serve, es: seq<Event>, n: nat)
    requires n < |es| && At(serve, es, n + 1).ended == None && (es[n].Acked? || es[n].Tick?)
    requires At(serve, es, n).ended == None
    ensures Resumes(At(serve, es, n), es[n])
  {
    hide Res.Sends;
  }

  /**
   Progress over runs: a connection that stays open has written a byte for each acknowledgement
   and each poll in which TCP took a write, until all of the response is written.
   */
  lemma {:induction false} RunProgresses(serve: Serve, es: seq<Event>, m: nat, n: nat)
    requires m <= n <= |es| && At(serve, es, n).ended == None && At(serve, es, m).served.Some?
    ensures Bytes(At(serve, es, n)) >= Min(Bytes(At(serve, es, m)) + Chances(es, m, n), Total(At(serve, es, n)))
  {
    hide At, Bytes, Total, Takes, Resumes;
    if m < n {
      StayedOpen(serve, es, m, n);
      RunProgresses(serve, es, m, n - 1);
      ChanceTaken(serve, es, n - 1);
    }
  }

  lemma StayedOpen(serve: Serve, es: seq<Event>, m: nat, n: nat)
    requires m < n <= |es| && At(serve, es, n).ended == None && At(serve, es, m).served.Some?
    ensures At(serve, es, n - 1).ended == None && At(serve, es, n - 1).served.Some?
  {
    hide At, Written;
    RunGrows(serve, es, n - 1, n);
    RunGrows(serve, es, m, n - 1);
  }

  lemma ChanceTaken(serve: Serve, es: seq<Event>, n: nat)
    requires n < |es| && At(serve, es, n).ended == None && At(serve, es, n + 1).ended == None
    requires At(serve, es, n).served.Some?
    ensures Total(At(serve, es, n + 1)) == Total(At(serve, es, n))
    ensures Bytes(At(serve, es, n + 1)) >= Bytes(At(serve, es, n))
    ensures (es[n].Acked? || es[n].Tick?) && Takes(es[n].tcp) && Bytes(At(serve, es, n)) < Total(At(serve, es, n)) ==>
              Bytes(At(serve, es, n + 1)) > Bytes(At(serve, es, n))
  {
    hide At, Bytes, Total, Takes, Resumes;
    BytesGrow(serve, es, n);
    if (es[n].Acked? || es[n].Tick?) && Takes(es[n].tcp) && Bytes(At(serve, es, n)) < Total(At(serve, es, n)) {
      OpenResumes(serve, es, n);
      EventProgresses(serve, es, n);
    }
  }

  lemma BytesGrow(serve: Serve, es: seq<Event>, n: nat)
    requires n < |es|
    ensures Bytes(At(serve, es, n)) <= Bytes(At(serve, es, n + 1))
    ensures At(serve, es, n).served.Some? ==> Total(At(serve, es, n + 1)) == Total(At(serve, es, n))
  {
    hide At;
    RunGrows(serve, es, n, n + 1);
    FlattenGrows(Written(At(serve, es, n)), Written(At(serve, es, n + 1)));
  }

  lemma {:induction false} FlattenGrows(a: seq<Res.Chunk>, b: seq<Res.Chunk>)
    requires a <= b
    ensures |Res.Flatten(a)| <= |Res.Flatten(b)|
    decreases |b|
  {
    if a != b {
      FlattenGrows(a, b[..|b| - 1]);
    }
  }

  /** A whole response is written once there have been as many chances as it has bytes. */
  lemma EnoughChances(serve: Serve, es: seq<Event>, m: nat, n: nat)
    requires m <= n <= |es| && At(serve, es, n).ended == None && At(serve, es, m).served.Some?
    requires Chances(es, m, n) >= Total(At(serve, es, n))
    ensures Res.Flatten(Written(At(serve, es, n))) == Res.Whole(At(serve, es, m).served.value.response)
  {
    hide At, Res.Flatten, Res.Accepted;
    RunProgresses(serve, es, m, n);
    RunGrows(serve, es, m, n);
    var st := At(serve, es, n);
    Res.StreamIsPrefix(Answer(st), st.grants);
  }

  /** With room for each write, one such callback queues all that is left. */
  lemma RoomyResumes(serve: Serve, es: seq<Event>, n: nat)
    requires n < |es| && At(serve, es, n).ended == None && At(serve, es, n).served.Some?
    requires Resumes(At(serve, es, n), es[n]) && Res.Roomy(es[n].tcp)
    ensures At(serve, es, n + 1).ended == None && Bytes(At(serve, es, n + 1)) == Total(At(serve, es, n + 1))
  {
    hide Res.Sends, Res.Accepted, Res.Flatten, Res.Roomy;
    var st, e := At(serve, es, n), es[n];
    RunConsistent(serve, es, n);
    Res.SendsAll(Answer(st), st.grants, e.tcp, 0);
  }

  /** The hand-over itself writes the first bytes, if TCP takes them. */
  lemma HandOverWrites(serve: Serve, es: seq<Event>, k: nat, v: Served)
    requires k < |es| && Hands(serve, es, k, v) && Takes(es[k].tcp)
    ensures 0 < Bytes(At(serve, es, k + 1))
  {
    hide Req.Receive, Res.Sends, Res.Accepted, Res.Flatten, Bytes, Takes;
    RunFollows(serve, es, k);
    SegmentsExtend(es, k);
    RunConsistent(serve, es, k);
    var st := At(serve, es, k);
    var segs := Segments(es, k + 1);
    assert Req.Run(segs).1[|segs| - 1] == Req.Run(segs).1[|segs| - 1..][0];
    var (c, ev) := Req.Receive(st.conn, es[k].segment.value);
    var t := st.(idle := 0, conn := c, served := Some(v));
    NoBytes(t);
    SendTakes(t, es[k].tcp);
  }

  lemma NoBytes(st: Session)
    requires st.grants == []
    ensures Bytes(st) == 0
  {
  }

  // ----- the code -----

  /** The state of one client's connection, with the callbacks that TCP makes for it. */
  class Client {
    const serve: Serve
    const request: Req.Connection
    const sender: Res.Sender
    var idlePolls: nat
    var ended: Option<Reason>
    ghost var served: Option<Served>

    ghost predicate Valid()
      reads this, request, request.data, sender
    {
      && request.Valid() && sender.Valid()
      && sender.response == Answer(View()) && Consistent(View())
      && (ended == None ==> !request.closed)
    }

    ghost function View(): Session
      reads this, request, sender
    {
      Session(request.View(), served, sender.grants, sender.ackedLen, idlePolls, ended)
    }

    constructor (handlers: Serve)
      ensures Valid() && View() == START && serve == handlers
      ensures fresh(request) && fresh(request.data) && fresh(sender)
    {
      serve := handlers;
      request := new Req.Connection();
      sender := new Res.Sender();
      idlePolls, ended, served := 0, None, None;
    }

    /** tcp_server_recv: no data means that the client has closed, and an error ends the connection too. */
    method Recv(segment: Option<string>, tcpOk: bool, tcp: Res.Schedule)
      requires Valid() && ended == None
      modifies this, request, request.data, sender
      ensures Valid() && View() == Step(serve, old(View()), Data(segment, tcpOk, tcp))
    {
      if segment.None? || !tcpOk {
        ended := Some(Refused);
        return;
      }
      idlePolls := 0;
      Hears(segment.value, tcp);
    }

    /** The rest of tcp_server_recv, for received data. */
    method Hears(seg: string, tcp: Res.Schedule)
      requires Valid() && ended == None
      modifies this, request, request.data, sender
      ensures Valid() && View() == Hear(serve, old(View()), seg, tcp)
    {
      hide Res.Sends, Res.Accepted, Res.Queued, Req.Receive;
      ReceiveDone(request.View(), seg);
      var e := request.RecvSegment(seg);
      if e.Close? {
        ended := Some(Refused);
      } else if e.Hand? {
        Respond(e.request, tcp);
      }
    }

    /** The end of tcp_server_recv: the handlers get the request, and their response begins. */
    method Respond(q: Req.Request, tcp: Res.Schedule)
      requires request.Valid() && sender.Valid() && sender.response == Res.NO_RESPONSE && sender.grants == []
      requires request.View() == Req.Done && served == None && ended == None
      modifies this, sender
      ensures Valid()
      ensures View() == match Content(serve, q)
                        case None => old(View()).(ended := Some(Refused))
                        case Some(r) => Send(old(View()).(served := Some(Served(q, r))), tcp)
    {
      var content := serve(q);
      if content.None? || content.value.header == [] {
        ended := Some(Refused);
        return;
      }
      sender.Fill(content.value);
      served := Some(Served(q, content.value));
      SendOrClose(tcp);
    }

    /** Sending goes on; if TCP fails, the connection is closed. */
    method SendOrClose(tcp: Res.Schedule)
      requires Valid() && ended == None
      modifies this`ended, sender
      ensures Valid() && View() == Send(old(View()), tcp)
    {
      Res.SendsExtends(sender.response, sender.grants, tcp, 0);
      var ok := sender.SendMore(tcp);
      if !ok {
        ended := Some(SendFailed);
      }
    }

    /** tcp_server_sent: `len` bytes were acknowledged. */
    method Sent(len: nat, tcp: Res.Schedule)
      requires Valid() && ended == None
      modifies this, sender
      ensures Valid() && View() == Step(serve, old(View()), Acked(len, tcp))
    {
      sender.ackedLen := sender.ackedLen + len;
      idlePolls := 0;
      if sender.ackedLen >= |sender.response.header| + |sender.response.body| {
        ended := Some(Finished);
        return;
      }
      SendOrClose(tcp);
    }

    /** tcp_server_poll: nothing is sent before the request has been handled. */
    method Poll(tcp: Res.Schedule)
      requires Valid() && ended == None
      modifies this, sender
      ensures Valid() && View() == Step(serve, old(View()), Tick(tcp))
    {
      idlePolls := idlePolls + 1;
      if idlePolls > IDLE_POLLS_MAX {
        ended := Some(Idle);
      } else if request.processed {
        SendOrClose(tcp);
      }
    }
  }
}
