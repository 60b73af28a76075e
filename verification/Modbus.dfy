/**
 The Modbus master: one request at a time, its answer collected byte by byte from the UART
 and judged when enough bytes are there or when the time is up.
 */
module Modbus {
  import opened Common
  import opened CrcTheory
  import opened Crc16

  const SEND_BUF_SIZE: nat := 32
  const RECEIVE_BUF_SIZE: nat := 256

  /** A request. `regAddr` and `regLength` are 16 bits wide in the source. */
  datatype Request = Request(id: Byte, func: Byte, regAddr: bv16, regLength: nat, data: seq<Byte>, timeout: nat)

  datatype Status = Sent(frame: seq<Byte>) | Busy | ParamInvalid

  /** The part of a frame that is handed over as data: where it starts and how long it says it is. */
  datatype Data = NoData | Data(start: nat, count: nat)

  /** What the callback of a request is told. */
  datatype Verdict = Success(frame: seq<Byte>, data: Data) | Timeout | CrcError | Unknown

  predicate Supported(func: Byte) {
    func == 3 || func == 4 || func == 6 || func == 16
  }

  /** The data bytes of a "write multiple registers" request, counted in a byte. */
  function ByteCount(r: Request): (n: nat)
    ensures n < 256
  {
    (2 * r.regLength) % 256
  }

  /** The request's data is there, and the frame fits the send buffer. */
  predicate Sendable(r: Request) {
    && r.regLength < 0x1_0000
    && (r.func == 6 ==> |r.data| >= 2)
    && (r.func == 16 ==> |r.data| >= ByteCount(r) && 9 + ByteCount(r) <= SEND_BUF_SIZE)
  }

  function RegLengthWord(r: Request): bv16
    requires Sendable(r)
  {
    r.regLength as bv16
  }

  /** The frame of a supported request without its check bytes. */
  function Body(r: Request): (b: seq<Byte>)
    requires Sendable(r) && Supported(r.func)
    ensures 6 <= |b| <= SEND_BUF_SIZE - 2
  {
    var head := [r.id, r.func, HighByte(r.regAddr), LowByte(r.regAddr)];
    if r.func == 6 then head + r.data[..2]
    else
      var counted := head + [HighByte(RegLengthWord(r)), LowByte(RegLengthWord(r))];
      if r.func == 16 then counted + [ByteCount(r) as Byte] + r.data[..ByteCount(r)] else counted
  }

  /**
   A frame spells the request's numbers: device and function, the address and the length with the
   high byte first, and for function 16 the length in bytes, counted in one, and the data.
   */
  lemma FrameSpells(r: Request)
    requires Sendable(r) && Supported(r.func)
    ensures var b := Body(r);
            && b[0] == r.id && b[1] == r.func && CheckWord(b[3], b[2]) == r.regAddr
            && (r.func == 6 ==> b[4..] == r.data[..2])
            && (r.func != 6 ==> CheckWord(b[5], b[4]) == RegLengthWord(r))
            && (r.func == 3 || r.func == 4 ==> |b| == 6)
            && (r.func == 16 ==> |b| >= 7 && b[6] == ((2 * r.regLength) % 256) as Byte
                                 && b[7..] == r.data[..(2 * r.regLength) % 256])
  {
    hide HighByte, LowByte, CheckWord, RegLengthWord;
    CheckWordParts(r.regAddr);
    CheckWordParts(RegLengthWord(r));
  }

  function AnswerLen(r: Request): (n: nat)
    ensures n >= 5
  {
    if r.func == 3 || r.func == 4 then 5 + 2 * r.regLength else 8
  }

  /** The judgement of a collected answer, in terms of the remainder of the whole frame. */
  ghost function Judge(r: Request, got: seq<Byte>): Option<Verdict> {
    if |got| < AnswerLen(r) then None
    else if got[0] != r.id || got[1] != r.func then Some(Unknown)
    else if !Silent(Remainder(got[..AnswerLen(r)])) then Some(CrcError)
    else Some(Success(got[..AnswerLen(r)], DataOf(got)))
  }

  /** Answers to the reading functions 3 and 4 carry data, counted by their third byte. */
  function DataOf(got: seq<Byte>): Data
    requires |got| >= 5
  {
    if got[1] == 3 || got[1] == 4 then Data(3, got[2] as nat) else NoData
  }

  /**
   An answer damaged within sixteen consecutive bits of its transmission is never reported
   as a success, whatever the damage does to its address and function bytes.
   */
  lemma DamagedAnswerRejected(r: Request, answer: seq<Byte>, got: seq<Byte>)
    requires |answer| == AnswerLen(r) <= |got|
    requires Silent(Remainder(answer))
    requires IsBurst(Xor(FrameBits(answer), FrameBits(got[..AnswerLen(r)])), 16)
    ensures Judge(r, got) == Some(Unknown) || Judge(r, got) == Some(CrcError)
  {
    BurstDetected(answer, got[..AnswerLen(r)]);
  }

  /** The answer of a device that read the registers is a success and hands over their bytes. */
  lemma ReadAnswered(r: Request, count: Byte, data: seq<Byte>, lo: Byte, hi: Byte)
    requires (r.func == 3 || r.func == 4) && |data| == count as nat == 2 * r.regLength
    requires Silent(Remainder([r.id, r.func, count] + data + [lo, hi]))
    ensures var answer := [r.id, r.func, count] + data + [lo, hi];
            Judge(r, answer) == Some(Success(answer, Data(3, |data|))) && answer[3..3 + |data|] == data
  {
    hide Remainder;
    var answer := [r.id, r.func, count] + data + [lo, hi];
    assert answer[..|answer|] == answer;
  }

  /** The answer of a device that wrote what it was told is a success. */
  lemma WriteAnswered(r: Request, echo: seq<Byte>, lo: Byte, hi: Byte)
    requires (r.func == 6 || r.func == 16) && |echo| == 4 && Silent(Remainder([r.id, r.func] + echo + [lo, hi]))
    ensures var answer := [r.id, r.func] + echo + [lo, hi]; Judge(r, answer) == Some(Success(answer, NoData))
  {
    var answer := [r.id, r.func] + echo + [lo, hi];
    assert answer[..|answer|] == answer;
  }

  /** Nothing but an answer of this device to this function, with its check in place, is a success. */
  lemma SuccessIff(r: Request, got: seq<Byte>)
    ensures (exists frame, data :: Judge(r, got) == Some(Success(frame, data))) <==>
            && |got| >= AnswerLen(r) && got[0] == r.id && got[1] == r.func && Silent(Remainder(got[..AnswerLen(r)]))
  {
    hide Remainder;
  }

  lemma DifferentBits(x: bv16, y: bv16)
    requires x != y
    ensures WordBits(x) != WordBits(y)
  {
    if WordBits(x) == WordBits(y) {
      WordBitsInjective(x, y);
    }
  }

  lemma LastTwo(s: seq<Byte>, n: nat)
    requires 2 <= n <= |s|
    ensures s[..n] == s[..n - 2] + [s[n - 2], s[n - 1]]
  {
  }

  // ----- the receive interrupt -----

  /** What has been collected, and what the UART still holds ready. */
  datatype Uart = Uart(got: seq<Byte>, readable: seq<Byte>)

  /** One turn of the interrupt's loop: without room the byte stays where it is. */
  function Turn(u: Uart): Uart {
    if u.readable != [] && |u.got| < RECEIVE_BUF_SIZE - 1 then Uart(u.got + [u.readable[0]], u.readable[1..]) else u
  }

  function Turns(u: Uart, n: nat): Uart {
    if n == 0 then u else Turn(Turns(u, n - 1))
  }

  /** How many bytes the interrupt can take at most. */
  function Takes(u: Uart): nat
    requires |u.got| < RECEIVE_BUF_SIZE
  {
    Min(|u.readable|, RECEIVE_BUF_SIZE - 1 - |u.got|)
  }

  lemma {:induction false} TurnsTake(u: Uart, n: nat)
    requires |u.got| < RECEIVE_BUF_SIZE
    ensures var k := Min(n, Takes(u)); Turns(u, n) == Uart(u.got + u.readable[..k], u.readable[k..])
  {
    if n == 0 {
      assert u.got + u.readable[..0] == u.got && u.readable[0..] == u.readable;
    } else {
      TurnsTake(u, n - 1);
      if n <= Takes(u) {
        assert u.got + u.readable[..n - 1] + [u.readable[n - 1]] == u.got + u.readable[..n];
        assert u.readable[n - 1..][0] == u.readable[n - 1] && u.readable[n - 1..][1..] == u.readable[n..];
      }
    }
  }

  /**
   The interrupt returns, with all bytes collected in order, if and only if they fit beside those
   already collected; otherwise its loop goes on for ever, with a byte that it never reads.
   */
  lemma InterruptReturnsIff(u: Uart)
    requires |u.got| < RECEIVE_BUF_SIZE
    ensures (exists n :: Turns(u, n).readable == []) <==> |u.got| + |u.readable| < RECEIVE_BUF_SIZE
    ensures forall n :: Turns(u, n).readable == [] ==> Turns(u, n).got == u.got + u.readable
  {
    forall n: nat
      ensures Turns(u, n).readable == [] ==>
                |u.got| + |u.readable| < RECEIVE_BUF_SIZE && Turns(u, n).got == u.got + u.readable
    {
      TurnsTake(u, n);
      assert u.readable[..|u.readable|] == u.readable;
    }
    TurnsTake(u, |u.readable|);
  }

  // ----- the link as steps -----

  /** A request under way or answered, the bytes collected since it was sent, and when it was sent. */
  datatype Link = Link(busy: bool, request: Request, got: seq<Byte>, since: nat)

  /** What a step shows: a request taken or refused, a callback, or a request that ends without one. */
  datatype Output = Accepted(request: Request) | Refused | Called(verdict: Verdict) | Dropped | Quiet

  const START: Link := Link(false, Request(0, 0, 0, 0, [], 0), [], 0)

  function SendStep(l: Link, r: Request, now: nat): (Link, Output) {
    if l.busy || !Supported(r.func) then (l, Refused) else (Link(true, r, [], now), Accepted(r))
  }

  ghost function PollStep(l: Link, now: nat): (Link, Output) {
    if !l.busy then (l, Quiet)
    else if |l.got| >= AnswerLen(l.request) || |l.got| >= RECEIVE_BUF_SIZE - 1 then
      (l.(busy := false), match Judge(l.request, l.got) case Some(v) => Called(v) case None => Dropped)
    else if now - l.since > l.request.timeout then (l.(busy := false), Called(Timeout))
    else (l, Quiet)
  }

  class Master {
    const sendBuf: array<Byte>
    const receiveBuf: array<Byte>
    var sendCounter: nat
    var receiveCounter: nat
    var answerLen: nat
    var sendTs: nat
    var busy: bool
    var lastRequest: Request

    ghost predicate Valid()
      reads this
    {
      && Buffers()
      && (busy ==> answerLen == AnswerLen(lastRequest) && Supported(lastRequest.func))
    }

    ghost predicate Buffers()
      reads this
    {
      && sendBuf.Length == SEND_BUF_SIZE && receiveBuf.Length == RECEIVE_BUF_SIZE && sendBuf != receiveBuf
      && receiveCounter < RECEIVE_BUF_SIZE
    }

    /** The bytes collected since the last request. */
    ghost function Received(): seq<Byte>
      requires Valid()
      reads this, receiveBuf
    {
      receiveBuf[..receiveCounter]
    }

    ghost function View(): Link
      requires Valid()
      reads this, receiveBuf
    {
      Link(busy, lastRequest, Received(), sendTs)
    }

    constructor ()
      ensures Valid() && View() == START && !busy && fresh(sendBuf) && fresh(receiveBuf)
    {
      sendBuf := new Byte[32](_ => 0);
      receiveBuf := new Byte[256](_ => 0);
      sendCounter, receiveCounter, answerLen, sendTs := 0, 0, 0, 0;
      busy := false;
      lastRequest := Request(0, 0, 0, 0, [], 0);
    }

    /** modbus_master_send: builds the frame, appends its CRC low byte first, and transmits it. */
    method Send(request: Request, now: nat) returns (status: Status)
      requires Valid() && Sendable(request)
      modifies this, sendBuf, receiveBuf
      ensures Valid()
      ensures View() == SendStep(old(View()), request, now).0
      ensures old(busy) ==> status == Busy
      ensures !old(busy) && !Supported(request.func) ==> status == ParamInvalid
      ensures !old(busy) && Supported(request.func) ==>
                && status.Sent?
                && |status.frame| == |Body(request)| + 2 && Body(request) <= status.frame
                && Silent(Remainder(status.frame))
    {
      if busy {
        return Busy;
      }
      if !Supported(request.func) {
        sendBuf[0] := request.id;
        return ParamInvalid;
      }
      PutBody(request);
      answerLen := AnswerLen(request);
      busy := true;
      var frame := AppendCheck(Body(request));
      ClearReceive();
      lastRequest := request;
      sendTs := now;
      status := Sent(frame);
    }

    method AppendCheck(ghost body: seq<Byte>) returns (frame: seq<Byte>)
      requires Buffers() && 2 <= sendCounter <= SEND_BUF_SIZE && sendBuf[..sendCounter - 2] == body
      modifies sendBuf
      ensures |frame| == |body| + 2 && body <= frame && Silent(Remainder(frame))
    {
      var n := sendCounter - 2;
      var crc := CrcChk(sendBuf, n);
      var lo, hi := LowByte(crc), HighByte(crc);
      CheckWordParts(crc);
      ResidueZeroIffChecked(body, lo, hi);
      sendBuf[n] := lo;
      sendBuf[n + 1] := hi;
      assert sendBuf[..sendCounter] == body + [lo, hi];
      frame := sendBuf[..sendCounter];
    }

    method ClearReceive()
      requires Buffers()
      modifies this`receiveCounter, receiveBuf
      ensures Buffers() && receiveCounter == 0
    {
      receiveCounter := 0;
      forall i | 0 <= i < receiveBuf.Length {
        receiveBuf[i] := 0;
      }
    }

    /** The switch of modbus_master_send over the function codes. */
    method PutBody(request: Request)
      requires Buffers() && Sendable(request) && Supported(request.func)
      modifies this`sendCounter, sendBuf
      ensures sendCounter == |Body(request)| + 2
      ensures sendBuf[..sendCounter - 2] == Body(request)
    {
      PutSix(request.id, request.func, HighByte(request.regAddr), LowByte(request.regAddr),
             if request.func == 6 then request.data[0] else HighByte(RegLengthWord(request)),
             if request.func == 6 then request.data[1] else LowByte(RegLengthWord(request)));
      sendCounter := 8;
      if request.func == 16 {
        sendBuf[6] := ByteCount(request) as Byte;
        ghost var head := sendBuf[..7];
        PutData(request.data, ByteCount(request));
        sendCounter := 9 + ByteCount(request);
        assert sendBuf[..sendCounter - 2] == head + request.data[..ByteCount(request)];
      }
    }

    method PutSix(b0: Byte, b1: Byte, b2: Byte, b3: Byte, b4: Byte, b5: Byte)
      requires Buffers()
      modifies sendBuf
      ensures sendBuf[..6] == [b0, b1, b2, b3, b4, b5]
    {
      sendBuf[0], sendBuf[1], sendBuf[2], sendBuf[3], sendBuf[4], sendBuf[5] := b0, b1, b2, b3, b4, b5;
    }

    method PutData(data: seq<Byte>, count: nat)
      requires Buffers() && count <= |data| && 7 + count <= SEND_BUF_SIZE
      modifies sendBuf
      ensures sendBuf[..7] == old(sendBuf[..7]) && sendBuf[7..7 + count] == data[..count]
    {
      var i := 0;
      while i < count
        invariant i <= count
        invariant sendBuf[..7] == old(sendBuf[..7])
        invariant forall j :: 0 <= j < i ==> sendBuf[7 + j] == data[j]
      {
        sendBuf[7 + i] := data[i];
        i := i + 1;
      }
    }

    /**
     The receive interrupt over the bytes that the UART holds ready, for as many turns of its
     loop as it is given; it returns by itself when nothing is left.
     */
    method Interrupt(readable: seq<Byte>, turns: nat) returns (left: seq<Byte>)
      requires Valid()
      modifies this`receiveCounter, receiveBuf
      ensures Valid() && busy == old(busy) && lastRequest == old(lastRequest) && sendTs == old(sendTs)
      ensures Uart(Received(), left) == Turns(Uart(old(Received()), readable), turns)
    {
      left := readable;
      ghost var u := Uart(Received(), readable);
      var n := 0;
      while left != [] && n < turns
        invariant Valid() && n <= turns && Uart(Received(), left) == Turns(u, n)
        decreases turns - n
      {
        if receiveCounter < RECEIVE_BUF_SIZE - 1 {
          ghost var got := Received();
          receiveBuf[receiveCounter] := left[0];
          receiveCounter := receiveCounter + 1;
          left := left[1..];
          assert Received() == got + [receiveBuf[receiveCounter - 1]];
        }
        n := n + 1;
      }
      Stays(u, n, turns);
    }

    /** Without readable bytes further turns change nothing. */
    lemma {:induction false} Stays(u: Uart, n: nat, m: nat)
      requires n <= m && (n == m || Turns(u, n).readable == [])
      ensures Turns(u, m) == Turns(u, n)
    {
      if n < m {
        Stays(u, n, m - 1);
      }
    }

    /** decode_modbus, called with at least `answerLen` bytes or with a full buffer. */
    method Decode() returns (call: Option<Verdict>)
      requires Valid() && busy
      requires receiveCounter >= answerLen || receiveCounter >= RECEIVE_BUF_SIZE - 1
      ensures call == Judge(lastRequest, Received())
    {
      hide Remainder, CheckWord;
      if receiveCounter < answerLen {
        return None;
      }
      if receiveBuf[0] != lastRequest.id || receiveBuf[1] != lastRequest.func {
        return Some(Unknown);
      }
      var crc := CrcChk(receiveBuf, answerLen - 2);
      var lo, hi := receiveBuf[answerLen - 2], receiveBuf[answerLen - 1];
      LastTwo(receiveBuf[..], answerLen);
      assert Received()[..answerLen] == receiveBuf[..][..answerLen];
      ResidueZeroIffChecked(receiveBuf[..answerLen - 2], lo, hi);
      if crc != CheckWord(lo, hi) {
        DifferentBits(crc, CheckWord(lo, hi));
        return Some(CrcError);
      }
      assert Received()[..answerLen] == receiveBuf[..answerLen];
      var data := NoData;
      if receiveBuf[1] == 3 || receiveBuf[1] == 4 {
        data := Data(3, receiveBuf[2] as nat);
      }
      return Some(Success(receiveBuf[..answerLen], data));
    }

    /**
     modbus_master_routine. The request ends when its answer is complete, when the buffer is
     full or when its time is up; the callback is skipped in the one case where the buffer is
     full and the awaited answer is longer than it.
     */
    method Routine(now: nat) returns (call: Option<Verdict>)
      requires Valid() && sendTs <= now
      modifies this`busy
      ensures Valid() && (busy ==> old(busy))
      ensures View() == PollStep(old(View()), now).0
      ensures PollStep(old(View()), now).1 ==
              match call case Some(v) => Called(v) case None => if old(busy) && !busy then Dropped else Quiet
      ensures old(busy) && !busy ==>
                call == if |Received()| >= AnswerLen(lastRequest) || |Received()| == RECEIVE_BUF_SIZE - 1
                        then Judge(lastRequest, Received()) else Some(Timeout)
      ensures old(busy) ==>
                (busy <==> |Received()| < AnswerLen(lastRequest) && |Received()| < RECEIVE_BUF_SIZE - 1
                           && now - sendTs <= lastRequest.timeout)
      ensures old(busy) && !busy ==>
                (call == None <==>
                 AnswerLen(lastRequest) > RECEIVE_BUF_SIZE - 1 && |Received()| == RECEIVE_BUF_SIZE - 1)
      ensures old(busy) == busy ==> call == None
    {
      if !busy {
        return None;
      }
      var dt := now - sendTs;
      if receiveCounter >= answerLen || receiveCounter >= RECEIVE_BUF_SIZE - 1 {
        call := Decode();
        busy := false;
      } else if dt > lastRequest.timeout {
        call := Some(Timeout);
        busy := false;
      } else {
        call := None;
      }
    }
  }
}
