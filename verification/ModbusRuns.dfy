/**
 Whole runs of the Modbus master: requests, received bytes and the polling of the main loop in
 any order. Every accepted request ends at most once, with a callback about its own bytes.
 */
module ModbusRuns {
  import opened Common
  import opened Crc16
  import opened Modbus

  /**
   `Arrived` is one receive interrupt with all the bytes that it finds; the times are readings
   of a clock that does not go back.
   */
  datatype Event = Sending(request: Request, now: nat) | Arrived(readable: seq<Byte>) | Polled(now: nat)

  /** `Hung` is an interrupt that does not return. */
  datatype State = Running(link: Link) | Hung

  ghost function Step(s: State, e: Event): (State, Output) {
    if s.Hung? then (Hung, Quiet)
    else
      match e
      case Sending(r, now) => var (l, out) := SendStep(s.link, r, now); (Running(l), out)
      case Polled(now) => var (l, out) := PollStep(s.link, now); (Running(l), out)
      case Arrived(readable) => (Received(s.link, readable), Quiet)
  }

  function Received(l: Link, readable: seq<Byte>): State {
    if |l.got| + |readable| < RECEIVE_BUF_SIZE then Running(l.(got := l.got + readable)) else Hung
  }

  /** The interrupt of the source drains the UART exactly where a run goes on, with the same bytes. */
  lemma ReceivedIsInterrupt(l: Link, readable: seq<Byte>)
    requires |l.got| < RECEIVE_BUF_SIZE
    ensures Received(l, readable).Running? <==> exists n :: Turns(Uart(l.got, readable), n).readable == []
    ensures forall n :: Turns(Uart(l.got, readable), n).readable == [] ==>
                          Received(l, readable) == Running(l.(got := Turns(Uart(l.got, readable), n).got))
  {
    InterruptReturnsIff(Uart(l.got, readable));
  }

  /** A request is accepted exactly while none is under way, and for the four functions that the master knows. */
  lemma AcceptedIff(l: Link, r: Request, now: nat)
    ensures Step(Running(l), Sending(r, now)).1 == (if !l.busy && r.func in {3, 4, 6, 16} then Accepted(r) else Refused)
  {
  }

  /** The state after the first `n` events. */
  ghost function At(es: seq<Event>, n: nat): State
    requires n <= |es|
  {
    if n == 0 then Running(START) else Step(At(es, n - 1), es[n - 1]).0
  }

  ghost function Out(es: seq<Event>, i: nat): Output
    requires i < |es|
  {
    Step(At(es, i), es[i]).1
  }

  predicate Ended(o: Output) {
    o.Called? || o.Dropped?
  }

  /** The bytes that arrived in the events from `i` up to `j`. */
  function Bytes(es: seq<Event>, i: nat, j: nat): seq<Byte>
    requires j <= |es|
  {
    if j <= i then [] else Bytes(es, i, j - 1) + if es[j - 1].Arrived? then es[j - 1].readable else []
  }

  /** How many requests ended in the events from `i` up to `j`. */
  ghost function Ends(es: seq<Event>, i: nat, j: nat): nat
    requires j <= |es|
  {
    if j <= i then 0 else Ends(es, i, j - 1) + if Ended(Out(es, j - 1)) then 1 else 0
  }

  ghost predicate NoneAccepted(es: seq<Event>, i: nat, j: nat)
    requires j <= |es|
  {
    forall m :: i <= m < j ==> !Out(es, m).Accepted?
  }

  /** Where the events since the last accepted request begin. */
  ghost function Start(es: seq<Event>, n: nat): (k: nat)
    requires n <= |es|
    ensures k <= n
  {
    if n == 0 then 0 else if Out(es, n - 1).Accepted? then n else Start(es, n - 1)
  }

  lemma {:induction false} StartIs(es: seq<Event>, n: nat)
    requires n <= |es|
    ensures NoneAccepted(es, Start(es, n), n)
    ensures Start(es, n) > 0 ==> Out(es, Start(es, n) - 1).Accepted?
  {
    hide Out;
    if n > 0 {
      StartIs(es, n - 1);
    }
  }

  /** What a link knows: the request accepted before event `k`, and the bytes of the events since then. */
  ghost predicate Knows(es: seq<Event>, l: Link, k: nat, n: nat)
    requires k <= n <= |es|
  {
    && l.got == Bytes(es, k, n) && |l.got| < RECEIVE_BUF_SIZE
    && (k == 0 ==> !l.busy)
    && (k > 0 ==> es[k - 1] == Sending(l.request, l.since) && Out(es, k - 1) == Accepted(l.request))
    && Ends(es, k, n) == if l.busy || k == 0 then 0 else 1
  }

  lemma {:induction false} RunKnows(es: seq<Event>, n: nat)
    requires n <= |es|
    ensures At(es, n).Running? ==> Knows(es, At(es, n).link, Start(es, n), n)
    ensures Ends(es, Start(es, n), n) <= if Start(es, n) == 0 then 0 else 1
  {
    hide Step, Out;
    if n > 0 {
      RunKnows(es, n - 1);
      if At(es, n - 1).Running? {
        StepKnows(es, n - 1);
      } else {
        HungStays(es, n - 1);
      }
    }
  }

  lemma HungStays(es: seq<Event>, n: nat)
    requires n < |es| && At(es, n).Hung?
    ensures At(es, n + 1).Hung? && Out(es, n) == Quiet
  {
  }

  lemma StepKnows(es: seq<Event>, n: nat)
    requires n < |es| && At(es, n).Running? && Knows(es, At(es, n).link, Start(es, n), n)
    ensures At(es, n + 1).Running? ==> Knows(es, At(es, n + 1).link, Start(es, n + 1), n + 1)
    ensures Ends(es, Start(es, n + 1), n + 1) <= if Start(es, n + 1) == 0 then 0 else 1
  {
    hide Judge, AnswerLen, Supported;
    var k, l := Start(es, n), At(es, n).link;
    assert At(es, n + 1) == Step(Running(l), es[n]).0;
    match es[n]
    case Sending(r, now) =>
      assert Out(es, n) == SendStep(l, r, now).1;
      if Out(es, n).Accepted? {
        assert Start(es, n + 1) == n + 1;
      } else {
        assert Bytes(es, k, n + 1) == Bytes(es, k, n);
      }
    case Arrived(readable) => assert Out(es, n) == Quiet;
    case Polled(now) =>
      assert Out(es, n) == PollStep(l, now).1;
      assert Bytes(es, k, n + 1) == Bytes(es, k, n);
  }

  /** No request ends twice, and nothing ends before the first one is accepted. */
  lemma {:induction false} EndsOnce(es: seq<Event>, i: nat, j: nat)
    requires i <= j <= |es| && NoneAccepted(es, i, j)
    ensures Ends(es, i, j) <= 1
    ensures NoneAccepted(es, 0, j) ==> Ends(es, i, j) == 0
  {
    hide Out;
    StartIs(es, j);
    SameStart(es, i, j);
    RunKnows(es, j);
    EndsSplit(es, Start(es, j), i, j);
  }

  /** A request is accepted only after the one before it has ended, exactly once. */
  lemma EndsBeforeNext(es: seq<Event>, k: nat, j: nat)
    requires k < j < |es| && Out(es, k).Accepted? && Out(es, j).Accepted? && NoneAccepted(es, k + 1, j)
    ensures Ends(es, k + 1, j) == 1
  {
    StartBehind(es, k, j);
    RunKnows(es, j);
    AcceptedIdle(es, j);
  }

  lemma AcceptedIdle(es: seq<Event>, j: nat)
    requires j < |es| && Out(es, j).Accepted?
    ensures At(es, j).Running? && !At(es, j).link.busy
  {
  }

  lemma {:induction false} SameStart(es: seq<Event>, i: nat, j: nat)
    requires i <= j <= |es| && NoneAccepted(es, i, j)
    ensures Start(es, j) == Start(es, i) <= i
  {
    if i < j {
      SameStart(es, i, j - 1);
    }
  }

  lemma StartBehind(es: seq<Event>, k: nat, j: nat)
    requires k < j <= |es| && Out(es, k).Accepted? && NoneAccepted(es, k + 1, j)
    ensures Start(es, j) == k + 1
  {
    hide Out;
    SameStart(es, k + 1, j);
  }

  lemma {:induction false} EndsSplit(es: seq<Event>, i: nat, k: nat, j: nat)
    requires i <= k <= j <= |es|
    ensures Ends(es, i, j) == Ends(es, i, k) + Ends(es, k, j)
  {
    if k < j {
      EndsSplit(es, i, k, j - 1);
    }
  }

  lemma {:induction false} BytesSplit(es: seq<Event>, i: nat, k: nat, j: nat)
    requires i <= k <= j <= |es|
    ensures Bytes(es, i, j) == Bytes(es, i, k) + Bytes(es, k, j)
  {
    if k < j {
      BytesSplit(es, i, k, j - 1);
    }
  }

  /**
   The request accepted at event `k` is due at the poll `j`: its answer or the buffer is
   complete, or its time is up.
   */
  ghost predicate Due(es: seq<Event>, k: nat, j: nat)
    requires k < j < |es| && es[k].Sending? && es[j].Polled?
  {
    || |Bytes(es, k + 1, j)| >= AnswerLen(es[k].request)
    || |Bytes(es, k + 1, j)| >= RECEIVE_BUF_SIZE - 1
    || es[j].now - es[k].now > es[k].request.timeout
  }

  /** What ends a request: judged by its answer if that is complete, forgotten if it cannot be, else out of time. */
  ghost function Ending(r: Request, got: seq<Byte>): Output {
    if |got| >= AnswerLen(r) then Called(Judge(r, got).value)
    else if |got| >= RECEIVE_BUF_SIZE - 1 then Dropped
    else Called(Timeout)
  }

  /**
   Every end of a request, with or without a callback, is that of the request accepted last,
   comes at a poll at which that request is due, and is told by the bytes received since then.
   */
  lemma EndBelongsTo(es: seq<Event>, j: nat)
    requires j < |es| && Ended(Out(es, j))
    ensures Start(es, j) > 0
    ensures var k := Start(es, j) - 1;
            && es[k].Sending? && Out(es, k) == Accepted(es[k].request)
            && NoneAccepted(es, k + 1, j) && Ends(es, k + 1, j) == 0
            && es[j].Polled? && Due(es, k, j)
            && Out(es, j) == Ending(es[k].request, Bytes(es, k + 1, j))
  {
    hide AnswerLen, Judge, Bytes;
    StartIs(es, j);
    RunKnows(es, j);
    EndStep(At(es, j).link, es[j]);
  }

  lemma EndStep(l: Link, e: Event)
    requires Ended(Step(Running(l), e).1)
    ensures l.busy && e.Polled?
    ensures |l.got| >= AnswerLen(l.request) || |l.got| >= RECEIVE_BUF_SIZE - 1 || e.now - l.since > l.request.timeout
    ensures Step(Running(l), e).1 == Ending(l.request, l.got)
  {
  }

  /**
   An accepted request that comes due in a run without a hang has ended by then, exactly once,
   and it ended with a callback unless its answer is longer than the buffer.
   */
  lemma EndsWhenDue(es: seq<Event>, k: nat, j: nat)
    requires k < j < |es| && es[k].Sending? && Out(es, k).Accepted? && NoneAccepted(es, k + 1, j)
    requires At(es, j).Running? && es[j].Polled?
    requires Due(es, k, j)
    ensures Ends(es, k + 1, j + 1) == 1
    ensures AnswerLen(es[k].request) < RECEIVE_BUF_SIZE ==>
              exists i :: k < i <= j && Out(es, i).Called?
  {
    hide Out, At, Bytes, AnswerLen;
    StartBehind(es, k, j);
    EndsOnDuePoll(es, j);
    var i := EndedAt(es, k + 1, j + 1);
    StartBehind(es, k, i);
    CalledIfFits(es, i);
  }

  lemma EndsOnDuePoll(es: seq<Event>, j: nat)
    requires j < |es| && At(es, j).Running? && Start(es, j) > 0 && es[Start(es, j) - 1].Sending? && es[j].Polled?
    requires Due(es, Start(es, j) - 1, j)
    ensures Ends(es, Start(es, j), j + 1) == 1
  {
    hide AnswerLen, Bytes, PollStep;
    RunKnows(es, j);
    DuePollEnds(At(es, j).link, es[j].now);
  }

  lemma DuePollEnds(l: Link, now: nat)
    requires |l.got| >= AnswerLen(l.request) || |l.got| >= RECEIVE_BUF_SIZE - 1 || now - l.since > l.request.timeout
    ensures Ended(PollStep(l, now).1) <==> l.busy
  {
  }

  lemma CalledIfFits(es: seq<Event>, i: nat)
    requires i < |es| && Ended(Out(es, i))
    ensures Start(es, i) > 0 && es[Start(es, i) - 1].Sending?
    ensures AnswerLen(es[Start(es, i) - 1].request) < RECEIVE_BUF_SIZE ==> Out(es, i).Called?
  {
    hide Out, At, Bytes, AnswerLen;
    EndBelongsTo(es, i);
  }

  lemma {:induction false} EndedAt(es: seq<Event>, i: nat, j: nat) returns (m: nat)
    requires i < j <= |es| && Ends(es, i, j) > 0
    ensures i <= m < j && Ended(Out(es, m))
  {
    if Ended(Out(es, j - 1)) {
      m := j - 1;
    } else {
      m := EndedAt(es, i, j - 1);
    }
  }

  lemma GoesOn(es: seq<Event>, j: nat)
    requires j < |es| && Start(es, j) > 0 && Ends(es, Start(es, j), j) == 0
    requires es[Start(es, j) - 1].Sending? && es[j].Polled? ==> !Due(es, Start(es, j) - 1, j)
    ensures !Ended(Out(es, j)) && !Out(es, j).Accepted?
  {
    RunKnows(es, j);
    if Ended(Out(es, j)) {
      EndBelongsTo(es, j);
    }
  }

  ghost predicate NeverDue(es: seq<Event>, k: nat, j: nat)
    requires k < j <= |es| && es[k].Sending?
  {
    forall i :: k < i < j && es[i].Polled? ==> !Due(es, k, i)
  }

  /** A request that is not due goes on: no poll ends it, and no other request is accepted meanwhile. */
  lemma {:induction false} GoesOnUntilDue(es: seq<Event>, k: nat, j: nat)
    requires k < j <= |es| && es[k].Sending? && Out(es, k).Accepted?
    requires NeverDue(es, k, j)
    ensures Ends(es, k + 1, j) == 0 && NoneAccepted(es, k + 1, j)
  {
    if k + 1 < j {
      hide Out, At, Bytes, Due;
      GoesOnUntilDue(es, k, j - 1);
      StartBehind(es, k, j - 1);
      GoesOn(es, j - 1);
    }
  }

  /**
   The interrupt hangs if and only if more than 255 bytes arrive with no request accepted
   between them, whatever the length of the awaited answer, even when none is awaited.
   */
  lemma HangsIff(es: seq<Event>, n: nat)
    requires n <= |es|
    ensures At(es, n).Hung? <==>
            exists i: nat, j: nat :: i <= j <= n && NoneAccepted(es, i, j) && |Bytes(es, i, j)| >= RECEIVE_BUF_SIZE
  {
    hide Step, Bytes;
    if At(es, n).Hung? {
      var m := HangsAt(es, n);
      HangsFull(es, m);
    } else {
      forall i: nat, j: nat | i <= j <= n && NoneAccepted(es, i, j)
        ensures |Bytes(es, i, j)| < RECEIVE_BUF_SIZE
      {
        StillRunning(es, j, n);
        FitsWhileRunning(es, i, j);
      }
    }
  }

  lemma HangsFull(es: seq<Event>, m: nat)
    requires m < |es| && At(es, m).Running? && es[m].Arrived? && At(es, m + 1).Hung?
    ensures NoneAccepted(es, Start(es, m), m + 1) && |Bytes(es, Start(es, m), m + 1)| >= RECEIVE_BUF_SIZE
  {
    hide PollStep, SendStep, Supported;
    StartIs(es, m);
    RunKnows(es, m);
    assert Out(es, m) == Quiet;
  }

  lemma FitsWhileRunning(es: seq<Event>, i: nat, j: nat)
    requires i <= j <= |es| && NoneAccepted(es, i, j) && At(es, j).Running?
    ensures |Bytes(es, i, j)| < RECEIVE_BUF_SIZE
  {
    hide Out, At, Bytes;
    RunKnows(es, j);
    SameStart(es, i, j);
    BytesSplit(es, Start(es, j), i, j);
  }

  lemma {:induction false} HangsAt(es: seq<Event>, n: nat) returns (m: nat)
    requires n <= |es| && At(es, n).Hung?
    ensures m < n && At(es, m).Running? && es[m].Arrived? && At(es, m + 1).Hung?
  {
    assert n > 0;
    if At(es, n - 1).Hung? {
      m := HangsAt(es, n - 1);
    } else {
      m := n - 1;
    }
  }

  lemma {:induction false} StillRunning(es: seq<Event>, m: nat, n: nat)
    requires m <= n <= |es| && At(es, n).Running?
    ensures At(es, m).Running?
  {
    if m < n {
      StillRunning(es, m, n - 1);
    }
  }

  /**
   A read of 126 registers cannot be answered: its 255th byte makes the next poll forget the
   request without a callback, and its 256th byte hangs the interrupt.
   */
  lemma LongReadFails(r: Request, bytes: seq<Byte>, more: seq<Byte>, now: nat)
    requires r.func == 3 && r.regLength == 126 && |bytes| == 255 && more != []
    ensures var es := [Sending(r, now), Arrived(bytes), Polled(now)];
            Out(es, 0) == Accepted(r) && Out(es, 2) == Dropped && Ends(es, 0, 3) == 1
    ensures At([Sending(r, now), Arrived(bytes), Arrived(more)], 3).Hung?
  {
    var es := [Sending(r, now), Arrived(bytes), Polled(now)];
    var l := Link(true, r, [], now);
    assert At(es, 1) == Running(l);
    assert At(es, 2) == Running(l.(got := bytes));
    assert Out(es, 1) == Quiet;
    assert Out(es, 2) == PollStep(l.(got := bytes), now).1;
    assert AnswerLen(r) == 257;
    assert Out(es, 0) == Accepted(r);
    assert Ends(es, 0, 1) == 0;
    assert Ends(es, 0, 2) == 0;
    var fs := [Sending(r, now), Arrived(bytes), Arrived(more)];
    assert At(fs, 1) == Running(l);
    assert fs[2] == Arrived(more) && At(fs, 3) == Step(At(fs, 2), fs[2]).0;
    assert At(fs, 2) == Running(l.(got := bytes));
  }
}
