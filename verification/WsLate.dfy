/**
  * What src/server/ws/ws_session.cpp still delivers after it has ended a session: the loop of
  * `ProcessFrameBuffer` goes on after a misplaced data frame and after the peer's Close.
  */
module WsLate {
  import opened Bytes
  import opened Incremental
  import opened WsFrame
  import opened WsReceive

  predicate HasMessage(log: seq<Event>) {
    exists i :: 0 <= i < |log| && log[i].Message?
  }

  /** A message is delivered after an end of the session. */
  predicate MessageAfterEnd(log: seq<Event>) {
    exists i, j :: 0 <= i < j < |log| && log[i].EndsSession() && log[j].Message?
  }

  // ---- frames ------------------------------------------------------------------------------------

  /** A whole frame within both limits that the loop goes on after. */
  predicate Passed(s: Recv, f: Frame) {
    && f.Encodable() && |f.Encode()| <= s.opts.maxFrameBuffer
    && if f.opcode.IsControl() then f.fin && |f.payload| <= 125 && s.state != Closed
       else (if f.opcode == Continuation then |s.payload| else 0) + |f.payload| <= s.opts.maxMessage
  }

  predicate Fits(s: Recv, f: Frame) {
    (f.opcode == Continuation) == s.started
  }

  /** The frame ends an active session. */
  predicate Ends(f: Frame, s: Recv) {
    f.opcode == Close || (!f.opcode.IsControl() && !Fits(s, f))
  }

  /** The frame completes a message, whatever the state of the session. */
  predicate Delivers(f: Frame, s: Recv) {
    !f.opcode.IsControl() && f.fin && Fits(s, f)
  }

  function Happens(s: Recv, f: Frame): seq<Event> {
    [FrameSeen] + Handle(s, f).1
  }

  lemma {:induction false} PassedIsTaken(s: Recv, f: Frame, buf: seq<byte>)
    requires Passed(s, f) && f.Encode() <= buf
    ensures FrameStep(s, buf) == Took(Handle(s, f).0, |f.Encode()|, Happens(s, f))
  {
    WholeFrame(s, f, buf[|f.Encode()|..]);
    assert buf == f.Encode() + buf[|f.Encode()|..];
  }

  /** The loop goes on after whole frames only. */
  lemma {:induction false} TakenIsPassed(s: Recv, buf: seq<byte>) returns (f: Frame)
    requires FrameStep(s, buf).Took?
    ensures Passed(s, f) && f.Encode() <= buf
  {
    f := FrameAtFront(buf);
  }

  /** One frame at most starts a buffer. */
  lemma {:induction false} OneFrameStarts(f: Frame, g: Frame, buf: seq<byte>)
    requires f.Encodable() && g.Encodable() && f.Encode() <= buf && g.Encode() <= buf
    ensures f == g
  {
    assert buf == f.Encode() + buf[|f.Encode()|..] && buf == g.Encode() + buf[|g.Encode()|..];
    ParseOfFrame(f, buf[|f.Encode()|..]);
    ParseOfFrame(g, buf[|g.Encode()|..]);
  }

  function Logged(r: Step<Recv, Event>): seq<Event> {
    match r
    case More => []
    case Took(_, _, es) => es
    case Halt(_, es) => es
  }

  lemma {:induction false} HaltDeliversNothing(s: Recv, buf: seq<byte>)
    requires !FrameStep(s, buf).Took?
    ensures !HasMessage(Logged(FrameStep(s, buf)))
  {
  }

  lemma {:induction false} PassedDelivers(s: Recv, f: Frame)
    requires Passed(s, f)
    ensures HasMessage(Happens(s, f)) <==> Delivers(f, s)
    ensures !HasMessage([FrameSeen])
  {
    if Delivers(f, s) {
      assert Happens(s, f)[1].Message?;
    }
  }

  /** A turn of the loop delivers a message exactly if the buffer starts with a whole masked final data frame within both
    * limits that is a continuation just when a message is in progress. Whether the session has ended does not matter. */
  lemma {:induction false} MessageStepIff(s: Recv, buf: seq<byte>)
    ensures HasMessage(Logged(FrameStep(s, buf)))
       <==> exists f :: Passed(s, f) && Delivers(f, s) && f.Encode() <= buf
  {
    hide FrameStep, Passed, Delivers, HasMessage, Happens, ClientFrame;
    if FrameStep(s, buf).Took? {
      var f := TakenIsPassed(s, buf);
      PassedIsTaken(s, f, buf);
      PassedDelivers(s, f);
      if Delivers(f, s) {
        assert Passed(s, f) && Delivers(f, s) && f.Encode() <= buf;
      }
      forall g | Passed(s, g) && Delivers(g, s) && g.Encode() <= buf ensures g == f {
        PassedAreEncodable(s, f, g);
        OneFrameStarts(f, g, buf);
      }
    } else {
      HaltDeliversNothing(s, buf);
      forall g | Passed(s, g) && Delivers(g, s) && g.Encode() <= buf ensures false {
        PassedIsTaken(s, g, buf);
      }
    }
  }

  lemma {:induction false} PassedAreEncodable(s: Recv, f: Frame, g: Frame)
    requires Passed(s, f) && Passed(s, g)
    ensures f.Encodable() && g.Encodable()
  {
  }

  // ---- the loop ----------------------------------------------------------------------------------

  function AfterAll(s: Recv, fs: seq<Frame>): Recv
    decreases |fs|
  {
    if fs == [] then s else AfterAll(Handle(s, fs[0]).0, fs[1..])
  }

  predicate AllPassed(s: Recv, fs: seq<Frame>)
    decreases |fs|
  {
    fs == [] || (Passed(s, fs[0]) && AllPassed(Handle(s, fs[0]).0, fs[1..]))
  }

  function InOrder(fs: seq<Frame>): seq<byte> {
    if fs == [] then [] else fs[0].Encode() + InOrder(fs[1..])
  }

  /** The buffer starts with frames the loop goes on after, and then one that delivers a message. */
  predicate DeliversBehind(s: Recv, fs: seq<Frame>, m: Frame, buf: seq<byte>) {
    && AllPassed(s, fs) && Passed(AfterAll(s, fs), m) && Delivers(m, AfterAll(s, fs))
    && InOrder(fs) + m.Encode() <= buf
  }

  /** Frames the loop goes on after that leave the session ended, and then a message. */
  predicate Late(s: Recv, fs: seq<Frame>, m: Frame, buf: seq<byte>) {
    DeliversBehind(s, fs, m, buf) && AfterAll(s, fs).state != Active
  }

  /** A log of a session in state `s` has a message after its end. */
  predicate Overdue(s: Recv, log: seq<Event>) {
    if s.state == Active then MessageAfterEnd(log) else HasMessage(log)
  }

  lemma {:induction false} HasMessageAppend(a: seq<Event>, b: seq<Event>)
    ensures HasMessage(a + b) <==> HasMessage(a) || HasMessage(b)
  {
    if HasMessage(a) {
      var i :| 0 <= i < |a| && a[i].Message?;
      assert (a + b)[i] == a[i];
    }
    if HasMessage(b) {
      var i :| 0 <= i < |b| && b[i].Message?;
      assert (a + b)[|a| + i] == b[i];
    }
  }

  /** Where `a` does not end, or ends with its last event. */
  lemma {:induction false} MessageAfterEndAppend(a: seq<Event>, b: seq<Event>)
    requires UpToClose(a) == a
    ensures MessageAfterEnd(a + b) <==> if Ended(a) then HasMessage(b) else MessageAfterEnd(b)
  {
    var ab := a + b;
    EndIsLast(a);
    if Ended(a) {
      if HasMessage(b) {
        var j :| 0 <= j < |b| && b[j].Message?;
        assert ab[|a| - 1].EndsSession() && ab[|a| + j].Message?;
      }
    } else if MessageAfterEnd(b) {
      var i, j :| 0 <= i < j < |b| && b[i].EndsSession() && b[j].Message?;
      assert ab[|a| + i].EndsSession() && ab[|a| + j].Message?;
    }
    if MessageAfterEnd(ab) {
      var i, j :| 0 <= i < j < |ab| && ab[i].EndsSession() && ab[j].Message?;
      assert j >= |a|;
      assert b[j - |a|].Message?;
      if !Ended(a) {
        assert b[i - |a|].EndsSession();
      }
    }
  }

  lemma {:induction false} EndIsLast(a: seq<Event>)
    requires UpToClose(a) == a
    ensures forall i :: 0 <= i < |a| && a[i].EndsSession() ==> i == |a| - 1
    ensures Ended(a) ==> a != [] && a[|a| - 1].EndsSession()
  {
    if a != [] && !a[0].EndsSession() {
      EndIsLast(a[1..]);
      EndedCons(a);
      assert forall i :: 1 <= i < |a| ==> a[i] == a[1..][i - 1];
    }
  }

  /** One turn of the loop and the rest of it. */
  lemma {:induction false} OverdueStep(s: Recv, buf: seq<byte>, f: Frame, rest: seq<Event>)
    requires Passed(s, f) && f.Encode() <= buf
    ensures Overdue(s, Happens(s, f) + rest)
       <==> Overdue(Handle(s, f).0, rest) || (s.state != Active && Delivers(f, s))
  {
    hide FrameStep, Passed, Delivers, HasMessage, MessageAfterEnd, Happens, Handle;
    PassedIsTaken(s, f, buf);
    PassedDelivers(s, f);
    HasMessageAppend(Happens(s, f), rest);
    if s.state == Active {
      StepEnds(s, buf);
      MessageAfterEndAppend(Happens(s, f), rest);
    } else {
      NeverActiveAgain(s, f);
    }
  }

  lemma {:induction false} NeverActiveAgain(s: Recv, f: Frame)
    requires s.state != Active
    ensures Handle(s, f).0.state != Active
  {
  }

  lemma {:induction false} LateStep(s: Recv, f: Frame, buf: seq<byte>, fs: seq<Frame>, m: Frame)
    requires Passed(s, f) && f.Encode() <= buf
    ensures Late(s, [f] + fs, m, buf) <==> Late(Handle(s, f).0, fs, m, buf[|f.Encode()|..])
  {
    hide Passed, Delivers, Handle, ClientFrame;
    var gs, rest := [f] + fs, buf[|f.Encode()|..];
    assert gs[1..] == fs && gs[0] == f;
    assert InOrder(gs) == f.Encode() + InOrder(fs);
    var tail := InOrder(fs) + m.Encode();
    assert InOrder(gs) + m.Encode() == f.Encode() + tail;
    assert buf == f.Encode() + rest;
    PrefixBehind(f.Encode(), tail, rest);
  }

  lemma {:induction false} PrefixBehind(a: seq<byte>, b: seq<byte>, c: seq<byte>)
    ensures a + b <= a + c <==> b <= c
  {
    if a + b <= a + c {
      assert forall i :: 0 <= i < |b| ==> b[i] == (a + b)[|a| + i] && c[i] == (a + c)[|a| + i];
    }
  }

  /** Frames that go first start the buffer. */
  lemma {:induction false} FirstOfLate(s: Recv, fs: seq<Frame>, m: Frame, buf: seq<byte>)
    requires Late(s, fs, m, buf)
    ensures var f := if fs == [] then m else fs[0]; Passed(s, f) && f.Encode() <= buf
  {
    hide Passed, Delivers, Handle, ClientFrame;
    if fs != [] {
      assert InOrder(fs) + m.Encode() == fs[0].Encode() + (InOrder(fs[1..]) + m.Encode());
    } else {
      assert InOrder(fs) + m.Encode() == m.Encode();
    }
  }

  lemma {:induction false} OnlyLate(s: Recv, m: Frame, buf: seq<byte>)
    ensures Late(s, [], m, buf) <==> Passed(s, m) && Delivers(m, s) && m.Encode() <= buf && s.state != Active
  {
    var none: seq<Frame> := [];
    assert InOrder(none) + m.Encode() == m.Encode();
  }

  ghost predicate ComesLate(s: Recv, buf: seq<byte>) {
    exists fs, m :: Late(s, fs, m, buf)
  }

  lemma {:induction false} ComesLateStep(s: Recv, f: Frame, buf: seq<byte>)
    requires Passed(s, f) && f.Encode() <= buf
    ensures ComesLate(s, buf)
       <==> ComesLate(Handle(s, f).0, buf[|f.Encode()|..]) || (s.state != Active && Delivers(f, s))
  {
    hide Passed, Delivers, Handle, Late, ClientFrame;
    if ComesLate(s, buf) {
      var fs, m :| Late(s, fs, m, buf);
      FirstOfLate(s, fs, m, buf);
      PassedAreEncodable(s, f, if fs == [] then m else fs[0]);
      OneFrameStarts(f, if fs == [] then m else fs[0], buf);
      if fs == [] {
        OnlyLate(s, m, buf);
      } else {
        assert [f] + fs[1..] == fs;
        LateStep(s, f, buf, fs[1..], m);
      }
    }
    if ComesLate(Handle(s, f).0, buf[|f.Encode()|..]) {
      var fs, m :| Late(Handle(s, f).0, fs, m, buf[|f.Encode()|..]);
      LateStep(s, f, buf, fs, m);
    }
    if s.state != Active && Delivers(f, s) {
      OnlyLate(s, f, buf);
    }
  }

  lemma {:induction false} DrainDelivers(s: Recv, buf: seq<byte>)
    ensures Overdue(s, Drain(FrameStep, s, buf).out) <==> ComesLate(s, buf)
    decreases |buf|
  {
    if FrameStep(s, buf).Took? {
      var f := TakenIsPassed(s, buf);
      PassedIsTaken(s, f, buf);
      var t, rest := Handle(s, f).0, buf[|f.Encode()|..];
      var out := Drain(FrameStep, t, rest).out;
      assert Drain(FrameStep, s, buf).out == Happens(s, f) + out;
      hide *;
      DrainDelivers(t, rest);
      OverdueStep(s, buf, f, out);
      ComesLateStep(s, f, buf);
    } else {
      assert Drain(FrameStep, s, buf).out == Logged(FrameStep(s, buf));
      HaltDeliversNothing(s, buf);
      hide FrameStep, Passed, Late;
      if ComesLate(s, buf) {
        var fs, m :| Late(s, fs, m, buf);
        FirstOfLate(s, fs, m, buf);
        PassedIsTaken(s, if fs == [] then m else fs[0], buf);
      }
    }
  }

  // ---- the frame that ends the session -------------------------------------------------------------

  /** A session is ended by frames the loop goes on after exactly if one of them is a Close or a misplaced data frame. */
  lemma {:induction false} EndedByOne(s: Recv, fs: seq<Frame>) returns (k: nat)
    requires s.state == Active && AllPassed(s, fs)
    ensures AfterAll(s, fs).state != Active ==>
              k < |fs| && AfterAll(s, fs[..k]).state == Active && Ends(fs[k], AfterAll(s, fs[..k]))
    ensures AfterAll(s, fs).state == Active ==> forall i :: 0 <= i < |fs| ==> !Ends(fs[i], AfterAll(s, fs[..i]))
    decreases |fs|
  {
    hide Passed, Handle, Ends;
    k := 0;
    if fs != [] {
      var t := Handle(s, fs[0]).0;
      PassedEnds(s, fs[0]);
      assert fs[..0] == [];
      if t.state == Active {
        k := EndedByOne(t, fs[1..]);
        assert forall i :: 0 <= i < |fs| - 1 ==> fs[..i + 1][0] == fs[0] && fs[..i + 1][1..] == fs[1..][..i];
        forall i | 0 <= i < |fs| - 1 ensures AfterAll(s, fs[..i + 1]) == AfterAll(t, fs[1..][..i]) {
        }
        k := k + 1;
      } else {
        StaysEnded(t, fs[1..]);
      }
    }
  }

  lemma {:induction false} PassedEnds(s: Recv, f: Frame)
    requires s.state == Active && Passed(s, f)
    ensures Handle(s, f).0.state != Active <==> Ends(f, s)
  {
  }

  lemma {:induction false} StaysEnded(s: Recv, fs: seq<Frame>)
    requires s.state != Active
    ensures AfterAll(s, fs).state != Active
    decreases |fs|
  {
    if fs != [] {
      NeverActiveAgain(s, fs[0]);
      StaysEnded(Handle(s, fs[0]).0, fs[1..]);
    }
  }

  /** Frames the loop goes on after, a Close or a misplaced data frame as the `k`th of them, and behind them a whole final
    * data frame that fits the message in progress. */
  predicate EndsThenDelivers(s: Recv, fs: seq<Frame>, k: nat, m: Frame, buf: seq<byte>) {
    && k < |fs| && AfterAll(s, fs[..k]).state == Active && Ends(fs[k], AfterAll(s, fs[..k]))
    && DeliversBehind(s, fs, m, buf)
  }

  ghost predicate DeliversLate(s: Recv, buf: seq<byte>) {
    exists fs, k, m :: EndsThenDelivers(s, fs, k, m, buf)
  }

  /** Exactly when one pass of the loop delivers a message after the end of the session. */
  lemma {:induction false} MessageAfterEndIff(s: Recv, buf: seq<byte>)
    requires s.state == Active
    ensures MessageAfterEnd(Drain(FrameStep, s, buf).out) <==> DeliversLate(s, buf)
  {
    DrainDelivers(s, buf);
    hide Drain, FrameStep, DeliversBehind, Ends, AfterAll, MessageAfterEnd;
    if ComesLate(s, buf) {
      var fs, m :| Late(s, fs, m, buf);
      PassedBehind(s, fs, m, buf);
      var k := EndedByOne(s, fs);
      assert EndsThenDelivers(s, fs, k, m, buf);
    }
    if DeliversLate(s, buf) {
      var fs, k, m :| EndsThenDelivers(s, fs, k, m, buf);
      PassedBehind(s, fs, m, buf);
      var _ := EndedByOne(s, fs);
      assert Late(s, fs, m, buf);
    }
  }

  lemma {:induction false} PassedBehind(s: Recv, fs: seq<Frame>, m: Frame, buf: seq<byte>)
    requires DeliversBehind(s, fs, m, buf)
    ensures AllPassed(s, fs)
  {
  }

  /** One of the reads brings the end and, behind it, a message. */
  ghost predicate LateRead(r: Reads, chunks: seq<seq<byte>>)
    decreases |chunks|
  {
    && chunks != [] && r.reading && !Trips(r, chunks[0])
    && (DeliversLate(r.recv, r.rest + chunks[0]) || LateRead(OnFrameData(r, chunks[0]), chunks[1..]))
  }

  lemma {:induction false} NotEnded(log: seq<Event>)
    requires !Ended(log)
    ensures UpToClose(log) == log && !MessageAfterEnd(log)
  {
    if log != [] {
      EndedCons(log);
      NotEnded(log[1..]);
    }
  }

  /** One pass: a message comes after the end just as in its own log. */
  lemma {:induction false} OneLatePass(r: Reads, chunk: seq<byte>)
    requires r.reading && r.recv.state == Active && !Ended(r.log)
    ensures var t := Process(r, chunk);
            && (MessageAfterEnd(t.log) <==> DeliversLate(r.recv, r.rest + chunk))
            && (t.reading ==> t.recv.state == Active && !Ended(t.log))
  {
    var buf := r.rest + chunk;
    var d := Drain(FrameStep, r.recv, buf);
    MessageAfterEndIff(r.recv, buf);
    DrainUpToClose(r.recv, buf);
    hide Drain, FrameStep, IdealStep, DeliversLate;
    NotEnded(r.log);
    MessageAfterEndAppend(r.log, d.out);
    EndedAppend(r.log, d.out);
  }

  lemma {:induction false} TrippedRead(r: Reads, chunk: seq<byte>)
    requires r.reading && r.recv.state == Active && !Ended(r.log) && Trips(r, chunk)
    ensures var t := OnFrameData(r, chunk); !t.reading && !MessageAfterEnd(t.log)
  {
    var es := BufferTooLarge(r.recv).1;
    NotEnded(r.log);
    MessageAfterEndAppend(r.log, es);
    ShortLog(es);
    assert |es| == 1;
  }

  lemma {:induction false} LateReadsFrom(r: Reads, chunks: seq<seq<byte>>)
    requires r.reading && r.recv.state == Active && !Ended(r.log)
    ensures MessageAfterEnd(RunReads(r, chunks).log) <==> LateRead(r, chunks)
    decreases |chunks|
  {
    hide Process, Drain, FrameStep, DeliversLate, MessageAfterEnd;
    if chunks == [] {
      NotEnded(r.log);
    } else {
      var t := OnFrameData(r, chunks[0]);
      if Trips(r, chunks[0]) {
        TrippedRead(r, chunks[0]);
        AfterTheLastRead(t, chunks[1..]);
      } else {
        OneLatePass(r, chunks[0]);
        if t.reading {
          NotEnded(t.log);
          LateReadsFrom(t, chunks[1..]);
        } else {
          AfterTheLastRead(t, chunks[1..]);
        }
      }
    }
  }

  /** Over a run of reads a message is delivered after the end of the session exactly if what the handshake leaves, or one
    * of the reads, brings both: the session reads no more after the read that ended it. */
  lemma {:induction false} LateReadIff(s: Recv, leftover: seq<byte>, chunks: seq<seq<byte>>)
    requires s.state == Active
    ensures var r := FirstRead(s, leftover);
            MessageAfterEnd(RunReads(r, chunks).log) <==> DeliversLate(s, leftover) || LateRead(r, chunks)
  {
    hide Process, DeliversLate, MessageAfterEnd;
    var r, none: seq<byte> := FirstRead(s, leftover), [];
    assert none + leftover == leftover;
    OneLatePass(Reads(s, [], [], true), leftover);
    if r.reading {
      NotEnded(r.log);
      LateReadsFrom(r, chunks);
    } else {
      AfterTheLastRead(r, chunks);
    }
  }

  /** For one: a read with two empty frames calls the close handler and then delivers a message. */
  lemma {:induction false} DeliveryAfterShutdown()
    ensures var orphan := Frame(true, Continuation, 0, []);
            var text := Frame(true, Text, 0, []);
            Drain(FrameStep, Fresh(Options(100, 100, 1, 1)), orphan.Encode() + text.Encode()).out
            == [FrameSeen, Shutdown(PROTOCOL_ERROR), FrameSeen, Message(Text, [])]
  {
    hide FrameStep, ClientFrame, Drain;
    var s := Fresh(Options(100, 100, 1, 1));
    var orphan := Frame(true, Continuation, 0, []);
    var text := Frame(true, Text, 0, []);
    var t := s.(state := Closed);
    FrameSizes(orphan);
    FrameSizes(text);
    WholeFrame(s, orphan, text.Encode());
    assert Handle(s, orphan) == (t, [Shutdown(PROTOCOL_ERROR)]);
    WholeFrame(t, text, []);
    assert Handle(t, text) == (t, [Message(Text, [])]);
    assert text.Encode() + [] == text.Encode();
    TookAll(t, text.Encode(), t, [FrameSeen, Message(Text, [])]);
    TookThen(s, orphan.Encode(), text.Encode(), t, [FrameSeen, Shutdown(PROTOCOL_ERROR)]);
  }

  lemma {:induction false} FrameSizes(f: Frame)
    requires f.payload == []
    ensures |f.Encode()| == 6
  {
  }

  lemma {:induction false} TookThen(s: Recv, first: seq<byte>, rest: seq<byte>, t: Recv, es: seq<Event>)
    requires first != [] && FrameStep(s, first + rest) == Took(t, |first|, es)
    ensures var d := Drain(FrameStep, t, rest); Drain(FrameStep, s, first + rest) == d.(out := es + d.out)
  {
    assert (first + rest)[|first|..] == rest;
  }

  lemma {:induction false} TookAll(s: Recv, buf: seq<byte>, t: Recv, es: seq<Event>)
    requires buf != [] && FrameStep(s, buf) == Took(t, |buf|, es)
    ensures Drain(FrameStep, s, buf) == Reader(t, [], es, false)
  {
    assert buf[|buf|..] == [];
    assert es + [] == es;
  }
}
