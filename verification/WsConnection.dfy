/** The session object itself: the callbacks of src/server/ws/ws_session.cpp, each proved to be its step. */
module WsConnection {
  import opened Bytes
  import opened Incremental
  import opened WsFrame
  import opened WsReceive
  import opened WsSession

  import Text

  class Connection {
    const opts: Options
    var state: SessionState
    // reading
    var reading: bool
    var frameBuf: seq<byte>
    var msgStarted: bool
    var msgOpcode: OpCode
    var msgPayload: seq<byte>
    // writing
    var posted: seq<Item>
    var sendQueue: seq<Item>
    var writing: bool
    var outstanding: nat
    var sent: nat
    ghost var popped: seq<Item>
    ghost var wire: seq<byte>
    // heartbeat
    var lastActivity: nat
    var awaitingPong: bool
    // what has been seen from outside
    ghost var log: seq<Event>

    function Reassembly(): Recv
      reads this
    {
      Recv(opts, state, msgStarted, msgOpcode, msgPayload)
    }

    ghost function Value(): Session
      reads this
    {
      Session(Reassembly(), frameBuf, reading, log,
              Send(posted, sendQueue, writing, outstanding, sent, popped, wire), lastActivity, awaitingPong)
    }

    /** The handshake is done; `leftover` is what has been read behind the request. */
    constructor (opts: Options, now: nat, leftover: seq<byte>)
      ensures this.opts == opts
      ensures Value() == Opened(opts, now, leftover)
    {
      hide Drain, FrameStep;
      this.opts := opts;
      state, reading, frameBuf := Active, true, [];
      msgStarted, msgOpcode, msgPayload := false, Text, [];
      posted, sendQueue, writing, outstanding, sent, popped, wire := [], [], false, 0, 0, [], [];
      lastActivity, awaitingPong, log := now, false, [];
      new;
      OpeningCases(opts, now, leftover);
      if leftover != [] {
        frameBuf := leftover;
        ProcessFrameBuffer(now);
      }
    }

    /** Hand a frame to the strand. */
    method EnqueueFrame(item: Item, ghost e: Event)
      requires ItemOf(e) == [item]
      modifies this`posted, this`log
      ensures Value() == Happen(old(Value()), (old(Reassembly()), [e]))
    {
      ItemsOfOne(e);
      posted := posted + [item];
      log := log + [e];
    }

    /** Close the socket and call the close handler. */
    method DoClose(code: nat)
      modifies this`state, this`log
      ensures Value() == Happen(old(Value()), Drop(old(Reassembly()), code))
    {
      ItemsOfOne(Shutdown(code));
      assert posted + [] == posted;
      state := Closed;
      log := log + [Shutdown(code)];
    }

    method Close(code: nat, reason: string)
      modifies this`state, this`posted, this`log
      ensures Value() == CloseSession(old(Value()), code, reason)
    {
      assert log + [] == log && posted + [] == posted;
      if state != Active {
        return;
      }
      state := Closing;
      var payload := [(code / 256) % 256];
      payload := payload + [code % 256];
      if reason != "" {
        payload := payload + Text.Ascii(reason);
      }
      assert payload == CloseBody(code, reason);
      var frame := EncodeServerFrame(true, OpCode.Close, payload);
      EnqueueFrame(Item(frame, true), CloseQueued(code, reason));
    }

    method SendMessage(op: OpCode, payload: seq<byte>)
      requires op in {Text, Binary, Ping}
      modifies this`posted, this`log
      ensures Value() == SendFrame(old(Value()), op, payload)
    {
      var frame := EncodeServerFrame(true, op, payload);
      EnqueueFrame(Item(frame, false), Queued(op, payload));
    }

    method HandleControlFrame(op: OpCode, payload: seq<byte>)
      requires op.IsControl()
      modifies this`state, this`posted, this`log
      ensures Value() == Happen(old(Value()), HandleControl(old(Reassembly()), op, payload))
    {
      assert log + [] == log && posted + [] == posted;
      if op == OpCode.Close {
        var code := NO_STATUS_RECEIVED;
        if |payload| >= 2 {
          code := FromBe16(payload[0], payload[1]);
        }
        if state == Active {
          state := Closing;
          var frame := EncodeServerFrame(true, OpCode.Close, [(code / 256) % 256, code % 256]);
          assert CloseBody(code, "") == [(code / 256) % 256, code % 256];
          EnqueueFrame(Item(frame, true), CloseQueued(code, ""));
        }
      } else if op == Ping {
        var frame := EncodeServerFrame(true, Pong, payload);
        EnqueueFrame(Item(frame, false), Queued(Pong, payload));
      }
    }

    /** Add a fragment to the message being reassembled, unless it is out of place or too long. */
    method Accumulate(op: OpCode, payload: seq<byte>, ghost fin: bool) returns (ok: bool)
      modifies this`state, this`posted, this`log, this`msgStarted, this`msgOpcode, this`msgPayload
      ensures !ok ==> Value() == Happen(old(Value()), HandleData(old(Reassembly()), op, fin, payload))
      ensures ok ==>
        && !op.IsControl() && (op == Continuation <==> old(msgStarted))
        && (|payload| > 0 ==> (if op == Continuation then |old(msgPayload)| else 0) + |payload| <= opts.maxMessage)
        && Value() == old(Value()).(recv := old(Reassembly()).(
             started := true,
             opcode := if op == Continuation then old(msgOpcode) else op,
             payload := if op == Continuation then old(msgPayload) + payload else payload))
    {
      ok := false;
      if op == Text || op == Binary {
        if msgStarted {
          DoClose(PROTOCOL_ERROR);
          return;
        }
        msgStarted, msgOpcode, msgPayload := true, op, [];
        if |payload| > 0 {
          if |payload| > opts.maxMessage {
            Close(MESSAGE_TOO_BIG, "message too large");
            return;
          }
          msgPayload := payload;
        }
      } else if op == Continuation {
        if !msgStarted {
          DoClose(PROTOCOL_ERROR);
          return;
        }
        assert msgPayload + [] == msgPayload;
        if |payload| > 0 {
          if |msgPayload| + |payload| > opts.maxMessage {
            Close(MESSAGE_TOO_BIG, "message too large");
            return;
          }
          msgPayload := msgPayload + payload;
        }
      } else {
        DoClose(PROTOCOL_ERROR);
        return;
      }
      ok := true;
    }

    /** The message is complete: hand it to the message handler and start afresh. */
    method DeliverMessage()
      modifies this`log, this`msgStarted, this`msgPayload
      ensures Value() == Happen(old(Value()), (old(Reassembly()).(started := false, payload := []), [Message(old(msgOpcode), old(msgPayload))]))
    {
      ItemsOfOne(Message(msgOpcode, msgPayload));
      assert posted + [] == posted;
      log := log + [Message(msgOpcode, msgPayload)];
      msgStarted, msgPayload := false, [];
    }

    method HandleDataFrame(op: OpCode, fin: bool, payload: seq<byte>)
      modifies this`state, this`posted, this`log, this`msgStarted, this`msgOpcode, this`msgPayload
      ensures Value() == Happen(old(Value()), HandleData(old(Reassembly()), op, fin, payload))
    {
      var ok := Accumulate(op, payload, fin);
      if !ok {
        return;
      }
      if fin {
        DeliverMessage();
      } else {
        assert log + [] == log && posted + [] == posted;
      }
    }

    method RefreshHeartbeat(now: nat)
      modifies this`lastActivity, this`awaitingPong, this`log
      ensures Value() == Hear(old(Value()), (old(Reassembly()), [FrameSeen]), now)
    {
      ItemsOfOne(FrameSeen);
      assert posted + [] == posted;
      lastActivity, awaitingPong := now, false;
      log := log + [FrameSeen];
    }

    /** One whole frame, already unmasked. */
    method HandleFrame(hdr: Header, payload: seq<byte>, now: nat) returns (goOn: bool)
      requires |payload| == hdr.payloadLen
      modifies this`state, this`posted, this`log, this`msgStarted, this`msgOpcode, this`msgPayload,
               this`lastActivity, this`awaitingPong
      ensures var (t, es) := FrameOutcome(old(Reassembly()), hdr, payload);
              && Value() == Hear(old(Value()), (t, [FrameSeen] + es), now)
              && goOn == GoesOn(old(Reassembly()), hdr, payload)
    {
      ghost var v0 := Value();
      RefreshHeartbeat(now);
      if hdr.opcode.IsControl() {
        if !hdr.fin || hdr.payloadLen > 125 {
          DoClose(PROTOCOL_ERROR);
          goOn := false;
        } else {
          HandleControlFrame(hdr.opcode, payload);
          goOn := state != Closed;
        }
      } else {
        HandleDataFrame(hdr.opcode, hdr.fin, payload);
        goOn := true;
      }
      ghost var (t, es) := FrameOutcome(v0.recv, hdr, payload);
      HearThenHappen(v0, v0.recv, [FrameSeen], (t, es), now);
    }

    /** One turn of the loop: look at the buffer from `offset` on. A frame that is not whole yet leaves
      * everything as it is. */
    method ProcessFrame(offset: nat, now: nat) returns (verdict: Verdict, total: nat)
      requires offset <= |frameBuf|
      modifies this`state, this`posted, this`log, this`msgStarted, this`msgOpcode, this`msgPayload,
               this`lastActivity, this`awaitingPong
      ensures match FrameStep(old(Reassembly()), frameBuf[offset..])
              case More => verdict == Wait && Value() == old(Value())
              case Halt(t, es) => verdict == GiveUp && Value() == Hear(old(Value()), (t, es), now)
              case Took(t, n, es) => verdict == Next && total == n && Value() == Hear(old(Value()), (t, es), now)
    {
      hide FrameOutcome, GoesOn, Parse, Masked;
      ghost var buf := frameBuf[offset..];
      if Parse(buf).Complete? {
        AcceptedHeaderIsEncoded(buf);
      }
      total := 0;
      var headerLen, hdr := ParseHeader(frameBuf[offset..]);
      if hdr.payloadLen == UINT64_MAX {
        DoClose(PROTOCOL_ERROR);
        return GiveUp, 0;
      }
      if headerLen == 0 {
        return Wait, 0;
      }
      if !hdr.masked {
        DoClose(PROTOCOL_ERROR);
        return GiveUp, 0;
      }
      if !hdr.opcode.IsControl() {
        var accumulated := if hdr.opcode == Continuation then |msgPayload| else 0;
        if accumulated + hdr.payloadLen > opts.maxMessage {
          Close(MESSAGE_TOO_BIG, "message too large");
          return GiveUp, 0;
        }
      }
      total := hdr.Total();
      if total > opts.maxFrameBuffer {
        Close(MESSAGE_TOO_BIG, "frame too large");
        return GiveUp, total;
      }
      if |frameBuf| - offset < total {
        return Wait, total;
      }
      var payload := Unmask(frameBuf[offset + headerLen..offset + total], hdr.maskKey);
      SliceOfSuffix(frameBuf, offset, headerLen, total);
      var goOn := HandleFrame(hdr, payload, now);
      verdict := if goOn then Next else GiveUp;
    }

    /** Take whole frames off the front of the buffer until it is too short or the session is given up. */
    method ProcessFrames(now: nat) returns (offset: nat, halted: bool)
      requires !reading
      modifies this`state, this`posted, this`log, this`msgStarted, this`msgOpcode, this`msgPayload,
               this`lastActivity, this`awaitingPong
      ensures var d := Drain(FrameStep, old(Reassembly()), frameBuf);
              && halted == d.halted
              && Value() == Hear(old(Value()), (d.state, d.out), now)
              && (!halted ==> offset <= |frameBuf| && d.rest == frameBuf[offset..])
    {
      hide FrameStep, Drain, Hear, Progress, OutcomeOf;
      ghost var v0, es: seq<Event> := Value(), [];
      ProgressStarts(v0, now);
      ghost var v := v0;
      offset, halted := 0, false;
      while offset < |frameBuf|
        invariant offset <= |frameBuf| && frameBuf == v0.rest && !halted
        invariant v == Value() && Progress(v0, v, offset, es, now)
      {
        var verdict, total := ProcessFrame(offset, now);
        if verdict == Wait {
          break;
        }
        ghost var w := Value();
        ghost var logged := OutcomeOf(FrameStep(v.recv, v0.rest[offset..])).1;
        OutcomeIs(FrameStep(v.recv, v0.rest[offset..]));
        HearTurns(v, OutcomeOf(FrameStep(v.recv, v0.rest[offset..])), now);
        if verdict == GiveUp {
          ProgressStops(v0, v, w, offset, es, now);
          halted := true;
          return;
        }
        ProgressGoesOn(v0, v, w, offset, total, es, logged, now);
        es, v, offset := es + logged, w, offset + total;
      }
      assert offset == |frameBuf| ==> frameBuf[offset..] == [];
      ProgressEnds(v0, v, offset, es, now);
    }

    method ProcessFrameBuffer(now: nat)
      modifies this`state, this`posted, this`log, this`msgStarted, this`msgOpcode, this`msgPayload,
               this`lastActivity, this`awaitingPong, this`frameBuf, this`reading
      ensures var d := Drain(FrameStep, old(Reassembly()), old(frameBuf));
              Value() == Hear(old(Value()), (d.state, d.out), now).(
                           rest := if d.halted then old(frameBuf) else d.rest,
                           reading := !d.halted && d.state.state == Active)
    {
      hide FrameStep, Drain;
      reading := false;
      var offset, halted := ProcessFrames(now);
      if halted {
        return;
      }
      frameBuf := frameBuf[offset..];
      reading := state == Active;
    }

    /** A read has ended with `chunk` at time `now`. */
    method OnFrameData(chunk: seq<byte>, now: nat)
      requires reading
      modifies this`state, this`posted, this`log, this`msgStarted, this`msgOpcode, this`msgPayload,
               this`lastActivity, this`awaitingPong, this`frameBuf, this`reading
      ensures Value() == OnRead(old(Value()), chunk, now)
    {
      hide Drain, FrameStep, OnRead, CloseSession, Hear;
      ghost var v0 := Value();
      ReadCases(v0, chunk, now);
      frameBuf := frameBuf + chunk;
      if |frameBuf| > opts.maxFrameBuffer {
        Close(MESSAGE_TOO_BIG, "frame buffer too large");
        reading := false;
        return;
      }
      ProcessFrameBuffer(now);
    }

    /** A read has failed. */
    method OnReadFailed()
      requires reading
      modifies this`state, this`log, this`reading
      ensures Value() == OnReadError(old(Value()))
    {
      DoClose(ABNORMAL_CLOSURE);
      reading := false;
    }

    /** Start the write of the front item; `async_write` itself is one more write in flight. */
    method DoWrite()
      modifies this`writing, this`outstanding, this`sent
      ensures Value() == old(Value()).(send := StartWrite(old(Value().send)))
    {
      if sendQueue == [] {
        writing := false;
        return;
      }
      writing := true;
      outstanding, sent := outstanding + 1, 0;
    }

    /** The strand runs the oldest enqueue handler. */
    method OnStrand()
      requires posted != []
      modifies this`posted, this`sendQueue, this`writing, this`outstanding, this`sent
      ensures Value() == RunPosted(old(Value()))
    {
      var item := posted[0];
      posted := posted[1..];
      var wasEmpty := sendQueue == [];
      sendQueue := sendQueue + [item];
      if wasEmpty && !writing {
        DoWrite();
      }
    }

    /** The network has taken `k` more bytes of the write in flight. */
    method OnBytesTaken(k: nat)
      requires outstanding > 0 && sendQueue != [] && state != Closed && sent + k <= |sendQueue[0].data|
      modifies this`sent, this`wire
      ensures Value() == Transmit(old(Value()), k)
    {
      wire := wire + sendQueue[0].data[sent..sent + k];
      sent := sent + k;
    }

    method PopFront()
      requires outstanding > 0 && sendQueue != []
      modifies this`sendQueue, this`outstanding, this`popped
      ensures Value() == old(Value()).(send := Popped(old(Value().send)))
    {
      popped := popped + [sendQueue[0]];
      sendQueue := sendQueue[1..];
      outstanding := outstanding - 1;
    }

    /** The write in flight has ended. */
    method OnWriteComplete(ok: bool)
      requires outstanding > 0 && sendQueue != [] && (ok ==> sent == |sendQueue[0].data|)
      modifies this`state, this`log, this`sendQueue, this`writing, this`outstanding, this`sent, this`popped
      ensures Value() == WriteDone(old(Value()), ok)
    {
      var isClose := sendQueue[0].isClose;
      PopFront();
      if !ok || isClose {
        writing := false;
        DoClose(if ok then NORMAL_CLOSURE else ABNORMAL_CLOSURE);
        return;
      }
      if sendQueue != [] {
        DoWrite();
      } else {
        writing := false;
      }
    }

    method OnHeartbeatTimer(now: nat)
      modifies this`state, this`log, this`posted, this`awaitingPong
      ensures Value() == OnTimer(old(Value()), now)
    {
      if state != Active {
        return;
      }
      var idle := now - lastActivity;
      if awaitingPong {
        if idle >= opts.heartbeatTimeout {
          DoClose(ABNORMAL_CLOSURE);
        }
      } else if idle >= opts.heartbeatInterval {
        awaitingPong := true;
        SendMessage(Ping, []);
      }
    }
  }

  datatype Verdict = Wait | GiveUp | Next

  ghost function OutcomeOf(r: Step<Recv, Event>): (Recv, seq<Event>)
    requires !r.More?
  {
    match r
    case Halt(t, es) => (t, es)
    case Took(t, _, es) => (t, es)
  }

  lemma {:induction false} OutcomeIs(r: Step<Recv, Event>)
    requires !r.More?
    ensures match r
            case Halt(t, es) => OutcomeOf(r) == (t, es)
            case Took(t, n, es) => OutcomeOf(r) == (t, es)
            case More => false
  {
  }

  lemma {:induction false} HearTurns(s: Session, r: (Recv, seq<Event>), now: nat)
    ensures Hear(s, r, now).recv == r.0
  {
  }

  /** The loop has logged `es`; what the drained buffer still holds is what lies from `offset` on. */
  ghost predicate Progress(v0: Session, v: Session, offset: nat, es: seq<Event>, now: nat) {
    && offset <= |v0.rest|
    && v == Hear(v0, (v.recv, es), now)
    && Drain(FrameStep, v0.recv, v0.rest) == After(es, Drain(FrameStep, v.recv, v0.rest[offset..]))
  }

  lemma {:induction false} ProgressStarts(v0: Session, now: nat)
    ensures Progress(v0, v0, 0, [], now)
  {
    assert v0.rest[0..] == v0.rest;
    var d := Drain(FrameStep, v0.recv, v0.rest);
    assert [] + d.out == d.out;
    assert v0.log + [] == v0.log && v0.send.posted + [] == v0.send.posted;
  }

  lemma {:induction false} ProgressGoesOn(v0: Session, v: Session, w: Session, offset: nat, n: nat, es: seq<Event>, fs: seq<Event>, now: nat)
    requires Progress(v0, v, offset, es, now)
    requires FrameStep(v.recv, v0.rest[offset..]) == Took(w.recv, n, fs)
    requires w == Hear(v, (w.recv, fs), now)
    ensures Progress(v0, w, offset + n, es + fs, now)
  {
    var buf := v0.rest[offset..];
    HearTwice(v0, v.recv, es, (w.recv, fs), now);
    assert buf[n..] == v0.rest[offset + n..];
    AfterAfter(es, fs, Drain(FrameStep, w.recv, buf[n..]));
  }

  lemma {:induction false} ProgressStops(v0: Session, v: Session, w: Session, offset: nat, es: seq<Event>, now: nat)
    requires Progress(v0, v, offset, es, now)
    requires FrameStep(v.recv, v0.rest[offset..]).Halt?
    requires w == Hear(v, OutcomeOf(FrameStep(v.recv, v0.rest[offset..])), now)
    ensures var d := Drain(FrameStep, v0.recv, v0.rest);
            d.halted && w == Hear(v0, (d.state, d.out), now)
  {
    HearTwice(v0, v.recv, es, OutcomeOf(FrameStep(v.recv, v0.rest[offset..])), now);
  }

  /** On an empty buffer, or one with no whole frame, the loop does nothing. */
  lemma {:induction false} ProgressEnds(v0: Session, v: Session, offset: nat, es: seq<Event>, now: nat)
    requires Progress(v0, v, offset, es, now)
    requires v0.rest[offset..] == [] || FrameStep(v.recv, v0.rest[offset..]).More?
    ensures Drain(FrameStep, v0.recv, v0.rest) == Reader(v.recv, v0.rest[offset..], es, false)
    ensures v == Hear(v0, (v.recv, es), now)
  {
    assert es + [] == es;
  }

  /** A read in its two cases. */
  lemma {:induction false} ReadCases(s: Session, chunk: seq<byte>, now: nat)
    requires s.reading
    ensures var t := s.(rest := s.rest + chunk);
            OnRead(s, chunk, now) ==
            if |t.rest| > s.recv.opts.maxFrameBuffer then
              CloseSession(t, MESSAGE_TOO_BIG, "frame buffer too large").(reading := false)
            else
              var d := Drain(FrameStep, s.recv, t.rest);
              Hear(t, (d.state, d.out), now).(rest := if d.halted then t.rest else d.rest,
                                              reading := !d.halted && d.state.state == Active)
  {
    hide Drain, FrameStep;
    var d := Drain(FrameStep, s.recv, s.rest + chunk);
    assert [] + d.out == d.out;
    var es := BufferTooLarge(s.recv).1;
    assert [] + es == es;
  }

  lemma {:induction false} OpeningCases(opts: Options, now: nat, leftover: seq<byte>)
    ensures var t, d := Upgraded(opts, now).(rest := leftover), Drain(FrameStep, Fresh(opts), leftover);
            Opened(opts, now, leftover) ==
            Hear(t, (d.state, d.out), now).(rest := if d.halted then leftover else d.rest,
                                            reading := !d.halted && d.state.state == Active)
    ensures leftover == [] ==> Opened(opts, now, leftover) == Upgraded(opts, now)
  {
    var none: seq<byte> := [];
    var noItems: seq<Item> := [];
    NothingToProcess(Fresh(opts));
    hide Drain, FrameStep;
    assert none + leftover == leftover;
    var d := Drain(FrameStep, Fresh(opts), leftover);
    assert [] + d.out == d.out && noItems + Items(d.out) == Items(d.out);
  }

  lemma {:induction false} NothingToProcess(s: Recv)
    ensures Drain(FrameStep, s, []) == Reader(s, [], [], false)
  {
  }

  /** A copy of a payload, unmasked in place. */
  method Unmask(data: seq<byte>, key: nat) returns (payload: seq<byte>)
    ensures payload == Masked(data, key)
  {
    var a := new byte[|data|](i requires 0 <= i < |data| => data[i]);
    assert a[..] == data;
    ApplyMask(a, key);
    payload := a[..];
  }

  lemma {:induction false} HearTwice(s: Session, t: Recv, es: seq<Event>, r: (Recv, seq<Event>), now: nat)
    ensures Hear(Hear(s, (t, es), now), r, now) == Hear(s, (r.0, es + r.1), now)
  {
    ItemsAppend(es, r.1);
    Associate(s.log, es, r.1);
    Associate(s.send.posted, Items(es), Items(r.1));
    assert FrameSeen in es + r.1 <==> FrameSeen in es || FrameSeen in r.1;
  }

  lemma {:induction false} HearSome(s: Session, t: Recv, es: seq<Event>, r: (Recv, seq<Event>), now: nat)
    requires FrameSeen !in r.1
    ensures Happen(Hear(s, (t, es), now), r) == Hear(s, (r.0, es + r.1), now)
  {
    HearTwice(s, t, es, r, now);
  }

  lemma {:induction false} HearThenHappen(s: Session, t: Recv, es: seq<Event>, r: (Recv, seq<Event>), now: nat)
    requires FrameSeen in es && FrameSeen !in r.1
    ensures Happen(Hear(s, (t, es), now), r) == Hear(s, (r.0, es + r.1), now)
  {
    HearSome(s, t, es, r, now);
  }
}
