/**
  * Whole runs of the session of src/server/ws/ws_session.cpp, over every interleaving of its callbacks: what
  * it hears from the peer before its end, and when it calls the close handler more than once.
  */
module WsRuns {
  import opened Bytes
  import opened Incremental
  import opened WsFrame
  import opened WsReceive
  import opened WsLate

  import WsSession

  // ---- the reference decoder under every interleaving ---------------------------------------------

  /** What comes from the peer: frames, messages and the pongs that answer its pings. */
  predicate FromPeer(e: Event) {
    e.FrameSeen? || e.Message? || (e.Queued? && e.opcode == Pong)
  }

  function Heard(log: seq<Event>): seq<Event> {
    if log == [] then []
    else (if FromPeer(log[0]) then [log[0]] else []) + Heard(log[1..])
  }

  lemma {:induction false} HeardAppend(a: seq<Event>, b: seq<Event>)
    ensures Heard(a + b) == Heard(a) + Heard(b)
  {
    if a == [] {
      assert a + b == b;
    } else {
      hide FromPeer;
      assert (a + b)[1..] == a[1..] + b;
      HeardAppend(a[1..], b);
      Associate(if FromPeer(a[0]) then [a[0]] else [], Heard(a[1..]), Heard(b));
    }
  }

  lemma {:induction false} HeardOfOne(e: Event)
    ensures Heard([e]) == if FromPeer(e) then [e] else []
  {
    assert [e][1..] == [];
  }

  /** The chunks that were read while the session was active. */
  ghost function ReadWhileActive(opts: Options, start: nat, leftover: seq<byte>, actions: seq<WsSession.Action>): seq<seq<byte>> {
    if actions == [] then []
    else
      var before, a := actions[..|actions| - 1], actions[|actions| - 1];
      var chunks := ReadWhileActive(opts, start, leftover, before);
      if a.Read? && WsSession.Run(WsSession.Opened(opts, start, leftover), before).recv.state == Active then chunks + [a.chunk] else chunks
  }

  /** A session has heard what the reads alone bring: all of it while it is active, and up to its end afterwards. */
  ghost predicate HearsReads(s: WsSession.Session, r: Reads) {
    if s.recv.state == Active then
      && s.recv == r.recv && s.rest == r.rest && s.reading && r.reading
      && !Ended(s.log) && !Ended(r.log) && Heard(s.log) == Heard(r.log)
    else
      Ended(s.log) && Heard(UpToClose(s.log)) == Heard(UpToClose(r.log))
  }

  lemma {:induction false} RunOfReads(r: Reads, chunks: seq<seq<byte>>, chunk: seq<byte>)
    ensures RunReads(r, chunks + [chunk]) == OnFrameData(RunReads(r, chunks), chunk)
    decreases |chunks|
  {
    if chunks == [] {
      assert chunks + [chunk] == [chunk] && [chunk][1..] == [];
    } else {
      assert (chunks + [chunk])[1..] == chunks[1..] + [chunk];
      RunOfReads(OnFrameData(r, chunks[0]), chunks[1..], chunk);
    }
  }

  /** What a step that is not a read adds: at most one event, which is not heard, and which ends the session if it is left. */
  lemma {:induction false} OtherStep(s: WsSession.Session, a: WsSession.Action)
    requires !a.Read?
    ensures var t := WsSession.Step(s, a);
            && t.rest == s.rest
            && (t.log == s.log || exists e :: t.log == s.log + [e] && !FromPeer(e) && (s.recv.state == Active ==> (e.EndsSession() <==> t.recv.state != Active)))
            && (t.log == s.log ==> t.recv == s.recv)
            && (t.recv.state == Active ==> t.recv == s.recv && t.reading == s.reading)
            && (s.recv.state != Active ==> t.recv.state != Active)
  {
    hide Drain, FrameStep, WsSession.ItemOf, WsSession.Items;
    var t := WsSession.Step(s, a);
    if t.log != s.log {
      var e := t.log[|s.log|];
      assert t.log == s.log + [e];
    }
  }

  lemma {:induction false} HearsStep(s: WsSession.Session, r: Reads, a: WsSession.Action)
    requires HearsReads(s, r) && !a.Read?
    ensures HearsReads(WsSession.Step(s, a), r)
  {
    hide Heard, UpToClose, WsSession.Step;
    OtherStep(s, a);
    var t := WsSession.Step(s, a);
    if t.log != s.log {
      var e :| t.log == s.log + [e] && !FromPeer(e) && (s.recv.state == Active ==> (e.EndsSession() <==> t.recv.state != Active));
      UpToCloseAppend(s.log, [e]);
      EndedAppend(s.log, [e]);
      EndedByLast(e);
      HeardAppend(s.log, [e]);
      HeardOfOne(e);
      if s.recv.state == Active {
        NotEnded(r.log);
        assert Heard(s.log) + [] == Heard(s.log);
      }
    }
  }

  lemma {:induction false} EndedByLast(e: Event)
    ensures Ended([e]) <==> e.EndsSession()
    ensures UpToClose([e]) == [e]
  {
    ShortLog([e]);
  }

  lemma {:induction false} HearsRead(s: WsSession.Session, r: Reads, chunk: seq<byte>, now: nat)
    requires HearsReads(s, r)
    ensures HearsReads(WsSession.OnRead(s, chunk, now), if s.recv.state == Active then OnFrameData(r, chunk) else r)
  {
    hide Heard, UpToClose, Drain, FrameStep;
    var q := OnFrameData(WsReceive.Reads(s.recv, s.rest, [], true), chunk);
    if s.recv.state == Active {
      ReadAdds(r, chunk);
      ReadLeaves(s.recv, s.rest, chunk);
      UpToCloseAppend(s.log, q.log);
      EndedAppend(s.log, q.log);
      UpToCloseAppend(r.log, q.log);
      EndedAppend(r.log, q.log);
      HeardAppend(s.log, q.log);
      HeardAppend(r.log, q.log);
      HeardAppend(s.log, UpToClose(q.log));
      HeardAppend(r.log, UpToClose(q.log));
    } else if s.reading {
      UpToCloseAppend(s.log, q.log);
      EndedAppend(s.log, q.log);
      ReadStaysEnded(s.recv, s.rest, chunk);
    }
  }

  /** What a read logs does not depend on the log before it. */
  lemma {:induction false} ReadAdds(r: Reads, chunk: seq<byte>)
    requires r.reading
    ensures var q := OnFrameData(Reads(r.recv, r.rest, [], true), chunk); OnFrameData(r, chunk) == q.(log := r.log + q.log)
  {
    hide Drain, FrameStep;
  }

  lemma {:induction false} ReadLeaves(s: Recv, rest: seq<byte>, chunk: seq<byte>)
    requires s.state == Active
    ensures var q := OnFrameData(Reads(s, rest, [], true), chunk);
            && (Ended(q.log) <==> q.recv.state != Active)
            && (q.recv.state == Active ==> q.reading)
  {
    var r := Reads(s, rest, [], true);
    if Trips(r, chunk) {
      var (t, es) := BufferTooLarge(s);
      assert [] + es == es;
      ShortLog(es);
    } else {
      var d := Drain(FrameStep, s, rest + chunk);
      DrainUpToClose(s, rest + chunk);
      HaltedMeansLeft(s, rest + chunk);
      hide Drain, FrameStep;
      assert [] + d.out == d.out;
    }
  }

  lemma {:induction false} ReadStaysEnded(s: Recv, rest: seq<byte>, chunk: seq<byte>)
    requires s.state != Active
    ensures OnFrameData(Reads(s, rest, [], true), chunk).recv.state != Active
  {
    EverAfter(s, rest + chunk);
    hide Drain, FrameStep;
  }

  lemma {:induction false} RunHears(opts: Options, start: nat, leftover: seq<byte>, actions: seq<WsSession.Action>)
    ensures HearsReads(WsSession.Run(WsSession.Opened(opts, start, leftover), actions),
                       RunReads(FirstRead(Fresh(opts), leftover), ReadWhileActive(opts, start, leftover, actions)))
    decreases |actions|
  {
    hide HearsReads, WsSession.Step, WsSession.OnRead;
    if actions == [] {
      OpenedHears(opts, start, leftover);
    } else {
      var before, a := actions[..|actions| - 1], actions[|actions| - 1];
      var s, chunks := WsSession.Run(WsSession.Opened(opts, start, leftover), before), ReadWhileActive(opts, start, leftover, before);
      RunHears(opts, start, leftover, before);
      if a.Read? {
        ReadIsStep(s, a);
        HearsRead(s, RunReads(FirstRead(Fresh(opts), leftover), chunks), a.chunk, a.now);
        RunOfReads(FirstRead(Fresh(opts), leftover), chunks, a.chunk);
      } else {
        HearsStep(s, RunReads(FirstRead(Fresh(opts), leftover), chunks), a);
      }
    }
  }

  lemma {:induction false} ReadIsStep(s: WsSession.Session, a: WsSession.Action)
    requires a.Read?
    ensures WsSession.Step(s, a) == WsSession.OnRead(s, a.chunk, a.now)
  {
  }

  /** The session as it opens, and how its reads begin. */
  lemma {:induction false} OpenedIs(opts: Options, start: nat, leftover: seq<byte>)
    ensures var s, r := WsSession.Opened(opts, start, leftover), FirstRead(Fresh(opts), leftover);
            s.recv == r.recv && s.rest == r.rest && s.reading == r.reading && s.log == r.log
    ensures var d, r := Drain(FrameStep, Fresh(opts), leftover), FirstRead(Fresh(opts), leftover);
            r.recv == d.state && r.log == d.out && r.reading == (!d.halted && d.state.state == Active)
  {
    hide Drain, FrameStep;
    var none: seq<byte> := [];
    assert none + leftover == leftover;
    var d := Drain(FrameStep, Fresh(opts), leftover);
    assert [] + d.out == d.out;
  }

  lemma {:induction false} OpenedHears(opts: Options, start: nat, leftover: seq<byte>)
    ensures HearsReads(WsSession.Opened(opts, start, leftover), FirstRead(Fresh(opts), leftover))
  {
    OpenedIs(opts, start, leftover);
    DrainUpToClose(Fresh(opts), leftover);
    HaltedMeansLeft(Fresh(opts), leftover);
    hide Drain, FrameStep, IdealStep, WsSession.Opened, FirstRead, Heard, UpToClose, Ended;
  }

  /** The reads up to one that does not fit the frame buffer. */
  ghost function Fitting(opts: Options, leftover: seq<byte>, chunks: seq<seq<byte>>): seq<seq<byte>> {
    match FirstTrip(FirstRead(Fresh(opts), leftover), chunks)
    case None => chunks
    case Some(k) => chunks[..k]
  }

  /** Over every interleaving of reads, sends, closes, strand turns, write completions and timers: the frames, messages and
    * pongs up to the first end of the session are those of the reference decoder on the bytes read before it. */
  lemma {:induction false} SessionHearsReference(opts: Options, start: nat, leftover: seq<byte>, actions: seq<WsSession.Action>)
    returns (fs: seq<Frame>, tail: seq<byte>)
    ensures Conforming(opts, fs) && leftover + Flat(Fitting(opts, leftover, ReadWhileActive(opts, start, leftover, actions))) == Encoded(fs) + tail
    ensures forall f :: Continues(opts, fs, f) ==> !(f.Encode() <= tail)
    ensures Heard(UpToClose(WsSession.Run(WsSession.Opened(opts, start, leftover), actions).log))
         == ReferenceLog(fs) + Heard(Verdict(opts, fs, tail))
  {
    hide HearsReads, Conforming, Continues, Encoded, ReferenceLog, Verdict, UpToClose, Heard, WsSession.Run, RunReads, Drain;
    var chunks := ReadWhileActive(opts, start, leftover, actions);
    var s, r := WsSession.Run(WsSession.Opened(opts, start, leftover), actions), RunReads(FirstRead(Fresh(opts), leftover), chunks);
    RunHears(opts, start, leftover, actions);
    HeardUpToClose(s, r);
    LogIndependentOfReads(Fresh(opts), leftover, chunks);
    fs, tail := SessionIsReferenceDecoder(opts, leftover + Flat(Fitting(opts, leftover, chunks)));
    var log := ReferenceLog(fs) + Verdict(opts, fs, tail);
    HeardAppend(ReferenceLog(fs), Verdict(opts, fs, tail));
    ReferenceIsHeard(fs);
    var tooBig := CloseQueued(MESSAGE_TOO_BIG, "frame buffer too large");
    HeardAppend(log, [tooBig]);
    HeardOfOne(tooBig);
    assert Heard(log) + [] == Heard(log);
  }

  lemma {:induction false} HeardUpToClose(s: WsSession.Session, r: Reads)
    requires HearsReads(s, r)
    ensures Heard(UpToClose(s.log)) == Heard(UpToClose(r.log))
  {
    if s.recv.state == Active {
      NotEnded(s.log);
      NotEnded(r.log);
    }
  }

  lemma {:induction false} ReferenceIsHeard(fs: seq<Frame>)
    ensures Heard(ReferenceLog(fs)) == ReferenceLog(fs)
    decreases |fs|
  {
    if fs != [] {
      var before, f := fs[..|fs| - 1], fs[|fs| - 1];
      ReferenceIsHeard(before);
      HeardAppend(ReferenceLog(before), [FrameSeen]);
      HeardAppend(ReferenceLog(before) + [FrameSeen], EventsOf(before, f));
      HeardOfOne(FrameSeen);
      EventsAreHeard(before, f);
    }
  }

  lemma {:induction false} EventsAreHeard(before: seq<Frame>, f: Frame)
    ensures Heard(EventsOf(before, f)) == EventsOf(before, f)
  {
    var es := EventsOf(before, f);
    if es != [] {
      HeardOfOne(es[0]);
      assert es == [es[0]];
    }
  }

  // ---- the close handler --------------------------------------------------------------------------

  predicate ShutDown(log: seq<Event>) {
    exists i :: 0 <= i < |log| && log[i].Shutdown?
  }

  /** The close handler is called again. */
  predicate ShutTwice(log: seq<Event>) {
    exists i, j :: 0 <= i < j < |log| && log[i].Shutdown? && log[j].Shutdown?
  }

  /** What comes in is given up with status 1002, whatever the state of the session: a malformed header, an unmasked
    * frame, or a whole frame within the limits that is a misplaced data frame or a control frame in fragments or too long. */
  predicate GivenUp(s: Recv, buf: seq<byte>) {
    match Parse(buf)
    case Incomplete => false
    case Malformed => true
    case Complete(h) =>
      || !h.masked
      || (&& h.Total() <= s.opts.maxFrameBuffer && h.Total() <= |buf|
          && if h.opcode.IsControl() then !h.fin || h.payloadLen > 125
             else (h.opcode == Continuation) != s.started
                  && (if h.opcode == Continuation then |s.payload| else 0) + h.payloadLen <= s.opts.maxMessage)
  }

  lemma {:induction false} StepShutsDown(s: Recv, buf: seq<byte>)
    ensures ShutDown(Logged(FrameStep(s, buf))) <==> GivenUp(s, buf)
    ensures !ShutTwice(Logged(FrameStep(s, buf)))
  {
    var es := Logged(FrameStep(s, buf));
    if |es| == 2 {
      assert es[0] == FrameSeen;
      assert ShutDown(es) <==> es[1].Shutdown?;
    } else if |es| == 1 {
      assert ShutDown(es) <==> es[0].Shutdown?;
    }
  }

  lemma {:induction false} StepCloses(s: Recv, buf: seq<byte>)
    ensures FrameStep(s, buf).Took? ==>
              (FrameStep(s, buf).next.state == Closed <==> s.state == Closed || GivenUp(s, buf))
    ensures FrameStep(s, buf).Halt? ==>
              (FrameStep(s, buf).last.state == Closed <==> s.state == Closed || GivenUp(s, buf))
  {
  }

  /** The buffer starts with frames the loop goes on after that leave the session closed, and then it is given up. */
  predicate GivenUpBehind(s: Recv, fs: seq<Frame>, buf: seq<byte>) {
    && AllPassed(s, fs) && AfterAll(s, fs).state == Closed && InOrder(fs) <= buf
    && GivenUp(AfterAll(s, fs), buf[|InOrder(fs)|..])
  }

  ghost predicate ShutsAgain(s: Recv, buf: seq<byte>) {
    exists fs :: GivenUpBehind(s, fs, buf)
  }

  /** A log of a session in state `s` calls the close handler once too often. */
  predicate Again(s: Recv, log: seq<Event>) {
    if s.state == Closed then ShutDown(log) else ShutTwice(log)
  }

  lemma {:induction false} ShutDownAppend(a: seq<Event>, b: seq<Event>)
    ensures ShutDown(a + b) <==> ShutDown(a) || ShutDown(b)
  {
    if ShutDown(a) {
      var i :| 0 <= i < |a| && a[i].Shutdown?;
      assert (a + b)[i] == a[i];
    }
    if ShutDown(b) {
      var i :| 0 <= i < |b| && b[i].Shutdown?;
      assert (a + b)[|a| + i] == b[i];
    }
  }

  lemma {:induction false} ShutTwiceAppend(a: seq<Event>, b: seq<Event>)
    ensures ShutTwice(a + b) <==> ShutTwice(a) || ShutTwice(b) || (ShutDown(a) && ShutDown(b))
  {
    var ab := a + b;
    if ShutTwice(a) {
      var i, j :| 0 <= i < j < |a| && a[i].Shutdown? && a[j].Shutdown?;
      assert ab[i].Shutdown? && ab[j].Shutdown?;
    }
    if ShutTwice(b) {
      var i, j :| 0 <= i < j < |b| && b[i].Shutdown? && b[j].Shutdown?;
      assert ab[|a| + i].Shutdown? && ab[|a| + j].Shutdown?;
    }
    if ShutDown(a) && ShutDown(b) {
      var i :| 0 <= i < |a| && a[i].Shutdown?;
      var j :| 0 <= j < |b| && b[j].Shutdown?;
      assert ab[i].Shutdown? && ab[|a| + j].Shutdown?;
    }
    if ShutTwice(ab) {
      var i, j :| 0 <= i < j < |ab| && ab[i].Shutdown? && ab[j].Shutdown?;
      if j < |a| {
        assert a[i].Shutdown? && a[j].Shutdown?;
      } else if i < |a| {
        assert a[i].Shutdown? && b[j - |a|].Shutdown?;
      } else {
        assert b[i - |a|].Shutdown? && b[j - |a|].Shutdown?;
      }
    }
  }

  lemma {:induction false} GivenUpStep(s: Recv, f: Frame, fs: seq<Frame>, buf: seq<byte>)
    requires Passed(s, f) && f.Encode() <= buf
    ensures GivenUpBehind(s, [f] + fs, buf) <==> GivenUpBehind(Handle(s, f).0, fs, buf[|f.Encode()|..])
  {
    hide Passed, Handle, GivenUp, ClientFrame;
    var gs, rest := [f] + fs, buf[|f.Encode()|..];
    assert gs[1..] == fs && gs[0] == f;
    assert buf == f.Encode() + rest;
    PrefixBehind(f.Encode(), InOrder(fs), rest);
    if InOrder(fs) <= rest {
      assert rest[|InOrder(fs)|..] == buf[|InOrder(gs)|..];
    }
  }

  lemma {:induction false} FirstOfGivenUp(s: Recv, fs: seq<Frame>, buf: seq<byte>)
    requires GivenUpBehind(s, fs, buf) && fs != []
    ensures Passed(s, fs[0]) && fs[0].Encode() <= buf
  {
    hide Passed, Handle, GivenUp, ClientFrame;
  }

  lemma {:induction false} GivenUpAtOnce(s: Recv, fs: seq<Frame>, buf: seq<byte>)
    requires |fs| == 0
    ensures GivenUpBehind(s, fs, buf) <==> s.state == Closed && GivenUp(s, buf)
  {
    hide GivenUp;
    assert buf[|InOrder(fs)|..] == buf;
  }

  lemma {:induction false} ShutsAgainStep(s: Recv, f: Frame, buf: seq<byte>)
    requires Passed(s, f) && f.Encode() <= buf
    ensures ShutsAgain(s, buf)
       <==> ShutsAgain(Handle(s, f).0, buf[|f.Encode()|..]) || (s.state == Closed && GivenUp(s, buf))
  {
    hide Passed, Handle, GivenUp, GivenUpBehind, ClientFrame;
    var t, rest := Handle(s, f).0, buf[|f.Encode()|..];
    var none: seq<Frame> := [];
    GivenUpAtOnce(s, none, buf);
    if ShutsAgain(s, buf) {
      var fs: seq<Frame> :| GivenUpBehind(s, fs, buf);
      if fs != [] {
        FirstOfGivenUp(s, fs, buf);
        PassedAreEncodable(s, f, fs[0]);
        OneFrameStarts(f, fs[0], buf);
        assert [f] + fs[1..] == fs;
        GivenUpStep(s, f, fs[1..], buf);
      } else {
        GivenUpAtOnce(s, fs, buf);
      }
    }
    if ShutsAgain(t, rest) {
      var fs: seq<Frame> :| GivenUpBehind(t, fs, rest);
      GivenUpStep(s, f, fs, buf);
    }
  }

  lemma {:induction false} ShutsNoFurther(s: Recv, buf: seq<byte>)
    requires !FrameStep(s, buf).Took?
    ensures ShutsAgain(s, buf) <==> s.state == Closed && GivenUp(s, buf)
  {
    hide FrameStep, Passed, Handle, GivenUp, GivenUpBehind, ClientFrame;
    var none: seq<Frame> := [];
    GivenUpAtOnce(s, none, buf);
    if ShutsAgain(s, buf) {
      var fs: seq<Frame> :| GivenUpBehind(s, fs, buf);
      if fs != [] {
        FirstOfGivenUp(s, fs, buf);
        PassedIsTaken(s, fs[0], buf);
      } else {
        GivenUpAtOnce(s, fs, buf);
      }
    }
  }

  /** Events `es` that take a session from state `s` to state `t`, and the rest of the log. */
  lemma {:induction false} AgainStep(s: Recv, t: Recv, es: seq<Event>, rest: seq<Event>)
    requires !ShutTwice(es) && (t.state == Closed <==> s.state == Closed || ShutDown(es))
    ensures Again(s, es + rest) <==> Again(t, rest) || (s.state == Closed && ShutDown(es))
  {
    hide ShutDown, ShutTwice;
    ShutDownAppend(es, rest);
    ShutTwiceAppend(es, rest);
    assert ShutTwice(rest) ==> ShutDown(rest) by {
      TwiceIsOnce(rest);
    }
  }

  lemma {:induction false} TwiceIsOnce(log: seq<Event>)
    ensures ShutTwice(log) ==> ShutDown(log)
  {
  }

  /** One pass of the loop calls the close handler again exactly if what it is given is given up on a closed session. */
  lemma {:induction false} DrainShuts(s: Recv, buf: seq<byte>)
    ensures var d := Drain(FrameStep, s, buf);
            && (Again(s, d.out) <==> ShutsAgain(s, buf))
            && (d.state.state == Closed <==> s.state == Closed || ShutDown(d.out))
    decreases |buf|
  {
    StepShutsDown(s, buf);
    StepCloses(s, buf);
    if FrameStep(s, buf).Took? {
      var f := TakenIsPassed(s, buf);
      PassedIsTaken(s, f, buf);
      var t, rest, es := Handle(s, f).0, buf[|f.Encode()|..], Happens(s, f);
      var d, e := Drain(FrameStep, s, buf), Drain(FrameStep, t, rest);
      assert d == e.(out := es + e.out);
      assert Logged(FrameStep(s, buf)) == es;
      hide *;
      DrainShuts(t, rest);
      ShutsAgainStep(s, f, buf);
      ShutDownAppend(es, e.out);
      AgainStep(s, t, es, e.out);
    } else {
      assert Drain(FrameStep, s, buf).out == Logged(FrameStep(s, buf));
      ShutsNoFurther(s, buf);
      hide FrameStep, ShutDown, ShutTwice, GivenUp;
    }
  }

  /** The step calls the close handler of a session that has been closed: the outstanding read fails or brings bytes that
    * are given up, or a write ends that failed or was the Close. */
  ghost predicate ClosesAgain(s: WsSession.Session, a: WsSession.Action) {
    match a
    case Read(chunk, _) => s.reading && |s.rest| + |chunk| <= s.recv.opts.maxFrameBuffer && ShutsAgain(s.recv, s.rest + chunk)
    case ReadError => s.reading && s.recv.state == Closed
    case WriteEnds(ok) =>
      && s.recv.state == Closed && s.send.outstanding > 0
      && (!ok || (s.send.queue != [] && s.send.queue[0].isClose && s.send.sent == |s.send.queue[0].data|))
    case _ => false
  }

  lemma {:induction false} NoneOrOne(es: seq<Event>)
    requires |es| <= 1
    ensures !ShutTwice(es) && (ShutDown(es) <==> |es| == 1 && es[0].Shutdown?)
  {
  }

  lemma {:induction false} ReadShuts(s: WsSession.Session, chunk: seq<byte>, now: nat)
    requires s.reading
    ensures var t, es := WsSession.OnRead(s, chunk, now), OnFrameData(Reads(s.recv, s.rest, [], true), chunk).log;
            && t.log == s.log + es
            && (Again(s.recv, es) <==> ClosesAgain(s, WsSession.Read(chunk, now)))
            && (t.recv.state == Closed <==> s.recv.state == Closed || ShutDown(es))
  {
    hide Drain, FrameStep, ShutDown, ShutTwice, ShutsAgain, WsSession.ItemOf, WsSession.Items;
    var r := Reads(s.recv, s.rest, [], true);
    if Trips(r, chunk) {
      var (t, es) := BufferTooLarge(s.recv);
      assert [] + es == es;
      NoneOrOne(es);
    } else {
      DrainShuts(s.recv, s.rest + chunk);
      var d := Drain(FrameStep, s.recv, s.rest + chunk);
      assert [] + d.out == d.out;
    }
  }

  lemma {:induction false} OtherStepShuts(s: WsSession.Session, a: WsSession.Action)
    requires WsSession.Inv(s) && !a.Read?
    ensures var t := WsSession.Step(s, a);
            && |s.log| <= |t.log| <= |s.log| + 1 && t.log[..|s.log|] == s.log
            && (t.recv.state == Closed <==> s.recv.state == Closed || (|t.log| > |s.log| && t.log[|s.log|].Shutdown?))
            && (s.recv.state == Closed ==> (ClosesAgain(s, a) <==> |t.log| > |s.log| && t.log[|s.log|].Shutdown?))
            && (ClosesAgain(s, a) ==> s.recv.state == Closed)
  {
    hide Drain, FrameStep, WsSession.ItemOf, WsSession.Items, WsSession.CloseCount;
  }

  lemma {:induction false} IdleRead(s: WsSession.Session, a: WsSession.Action)
    requires a.Read? && !s.reading
    ensures WsSession.Step(s, a) == s && !ClosesAgain(s, a)
  {
  }

  /** One step: what it adds to the log calls the close handler again exactly if the step does. */
  lemma {:induction false} StepShutsAgain(s: WsSession.Session, a: WsSession.Action) returns (es: seq<Event>)
    requires WsSession.Inv(s)
    ensures var t := WsSession.Step(s, a);
            && t.log == s.log + es
            && (Again(s.recv, es) <==> ClosesAgain(s, a))
            && (t.recv.state == Closed <==> s.recv.state == Closed || ShutDown(es))
  {
    hide WsSession.Step, ClosesAgain, WsSession.Inv, Drain, FrameStep, ShutDown, ShutTwice;
    var t := WsSession.Step(s, a);
    if a.Read? {
      ReadIsStep(s, a);
      if s.reading {
        ReadShuts(s, a.chunk, a.now);
        es := OnFrameData(Reads(s.recv, s.rest, [], true), a.chunk).log;
      } else {
        es := [];
        IdleRead(s, a);
        NoneOrOne(es);
        assert s.log + es == s.log;
      }
    } else {
      OtherStepShuts(s, a);
      es := t.log[|s.log|..];
      assert t.log == s.log + es;
      NoneOrOne(es);
    }
  }

  /** What the handshake leaves, or one of the steps, calls the close handler again. */
  ghost predicate SomeStepClosesAgain(opts: Options, start: nat, leftover: seq<byte>, actions: seq<WsSession.Action>)
    decreases |actions|
  {
    if actions == [] then ShutsAgain(Fresh(opts), leftover)
    else
      var before, a := actions[..|actions| - 1], actions[|actions| - 1];
      SomeStepClosesAgain(opts, start, leftover, before) || ClosesAgain(WsSession.Run(WsSession.Opened(opts, start, leftover), before), a)
  }

  /** Over every run the close handler is called more than once exactly if a step does what closes a closed session. */
  lemma {:induction false} CloseHandlerAgainIff(opts: Options, start: nat, leftover: seq<byte>, actions: seq<WsSession.Action>)
    ensures var s := WsSession.Run(WsSession.Opened(opts, start, leftover), actions);
            && (ShutTwice(s.log) <==> SomeStepClosesAgain(opts, start, leftover, actions))
            && (s.recv.state == Closed <==> ShutDown(s.log))
    decreases |actions|
  {
    if actions == [] {
      OpenedIs(opts, start, leftover);
      DrainShuts(Fresh(opts), leftover);
      hide Drain, FrameStep, WsSession.Opened, FirstRead, ShutDown, ShutTwice, ShutsAgain;
    } else {
      var before, a := actions[..|actions| - 1], actions[|actions| - 1];
      var s := WsSession.Run(WsSession.Opened(opts, start, leftover), before);
      assert WsSession.Run(WsSession.Opened(opts, start, leftover), actions) == WsSession.Step(s, a);
      hide WsSession.Step, WsSession.Run, ClosesAgain, ShutDown, ShutTwice, WsSession.Inv;
      CloseHandlerAgainIff(opts, start, leftover, before);
      WsSession.RunKeeps(opts, start, leftover, before);
      var es := StepShutsAgain(s, a);
      ShutDownAppend(s.log, es);
      ShutTwiceAppend(s.log, es);
      TwiceIsOnce(es);
    }
  }

  /** For one: the heartbeat drops a silent peer, and then the read that is still outstanding fails. */
  lemma {:induction false} ClosedTwice()
    ensures var actions: seq<WsSession.Action> := [WsSession.Timer(1), WsSession.Timer(2), WsSession.ReadError];
            WsSession.Run(WsSession.Opened(Options(100, 100, 1, 1), 0, []), actions).log
            == [Queued(Ping, []), Shutdown(ABNORMAL_CLOSURE), Shutdown(ABNORMAL_CLOSURE)]
  {
    var s := WsSession.Opened(Options(100, 100, 1, 1), 0, []);
    var none: seq<WsSession.Action> := [];
    var one: seq<WsSession.Action> := [WsSession.Timer(1)];
    var two: seq<WsSession.Action> := [WsSession.Timer(1), WsSession.Timer(2)];
    var three: seq<WsSession.Action> := [WsSession.Timer(1), WsSession.Timer(2), WsSession.ReadError];
    hide WsSession.ItemOf, WsSession.Items;
    assert one[..0] == none && two[..1] == one && three[..2] == two;
    assert WsSession.Run(s, one).log == [Queued(Ping, [])] && WsSession.Run(s, one).awaitingPong;
  }

  // ---- the reply to a Close -------------------------------------------------------------------------

  predicate RepliesNoStatus(log: seq<Event>) {
    exists i :: 0 <= i < |log| && log[i].CloseQueued? && log[i].code == NO_STATUS_RECEIVED
  }

  /** A Close without a status, or with the one that section 7.4.1 of RFC 6455 reserves. */
  predicate NamesNoStatus(payload: seq<byte>) {
    |payload| < 2 || (payload[0] == 0x03 && payload[1] == 0xED)
  }

  lemma {:induction false} NoStatusIs(payload: seq<byte>)
    ensures StatusOf(payload) == NO_STATUS_RECEIVED <==> NamesNoStatus(payload)
  {
  }

  lemma {:induction false} RepliesOf(s: Recv, f: Frame)
    requires Passed(s, f)
    ensures RepliesNoStatus(Happens(s, f)) <==> s.state == Active && f.opcode == Close && NamesNoStatus(f.payload)
  {
    NoStatusIs(f.payload);
    hide StatusOf, NamesNoStatus;
    var es := Happens(s, f);
    if f.opcode == Close && s.state == Active {
      assert es[1] == CloseQueued(StatusOf(f.payload), "");
    }
  }

  lemma {:induction false} HaltReplies(s: Recv, buf: seq<byte>)
    requires !FrameStep(s, buf).Took?
    ensures !RepliesNoStatus(Logged(FrameStep(s, buf)))
  {
  }

  /** Status 1005 goes out exactly in reply to a Close that carries no status, or that one, on an active session. */
  lemma {:induction false} NoStatusReplyIff(s: Recv, buf: seq<byte>)
    ensures RepliesNoStatus(Logged(FrameStep(s, buf)))
       <==> s.state == Active && exists f :: Passed(s, f) && f.opcode == Close && NamesNoStatus(f.payload) && f.Encode() <= buf
  {
    hide FrameStep, Passed, RepliesNoStatus, NamesNoStatus, Happens, ClientFrame;
    if FrameStep(s, buf).Took? {
      var f := TakenIsPassed(s, buf);
      PassedIsTaken(s, f, buf);
      RepliesOf(s, f);
      forall g | Passed(s, g) && f.Encode() <= buf && g.Encode() <= buf ensures g == f {
        PassedAreEncodable(s, f, g);
        OneFrameStarts(f, g, buf);
      }
    } else {
      HaltReplies(s, buf);
      forall g | Passed(s, g) && g.Encode() <= buf ensures false {
        PassedIsTaken(s, g, buf);
      }
    }
  }

  /** For one: an empty Close is answered with status 1005. */
  lemma {:induction false} EmptyCloseReply()
    ensures Drain(FrameStep, Fresh(Options(100, 100, 1, 1)), Frame(true, Close, 0, []).Encode()).out
         == [FrameSeen, CloseQueued(NO_STATUS_RECEIVED, "")]
  {
    hide FrameStep, ClientFrame, Drain;
    var s, f := Fresh(Options(100, 100, 1, 1)), Frame(true, Close, 0, []);
    FrameSizes(f);
    WholeFrame(s, f, []);
    assert f.Encode() + [] == f.Encode();
    TookAll(s, f.Encode(), Handle(s, f).0, [FrameSeen, CloseQueued(NO_STATUS_RECEIVED, "")]);
  }

  // ---- the message limit ----------------------------------------------------------------------------

  lemma {:induction false} OtherStepKeeps(s: WsSession.Session, a: WsSession.Action)
    requires !a.Read?
    ensures var t := WsSession.Step(s, a);
            t.recv.payload == s.recv.payload && t.recv.opts == s.recv.opts
  {
    hide Drain, FrameStep, WsSession.ItemOf, WsSession.Items;
  }

  ghost predicate Within(s: WsSession.Session, opts: Options) {
    s.recv.opts == opts && Bounded(opts, s.log) && |s.recv.payload| <= opts.maxMessage
  }

  lemma {:induction false} StepWithin(s: WsSession.Session, opts: Options, a: WsSession.Action)
    requires Within(s, opts)
    ensures Within(WsSession.Step(s, a), opts)
  {
    if a.Read? {
      ReadIsStep(s, a);
      if s.reading {
        DeliveredBounded(s.recv, s.rest + a.chunk);
        hide Drain, FrameStep;
      }
    } else {
      OtherStep(s, a);
      OtherStepKeeps(s, a);
      hide WsSession.Step;
    }
  }

  /** No message longer than the limit is delivered in any run, before or after the end of the session. */
  lemma {:induction false} RunWithin(opts: Options, start: nat, leftover: seq<byte>, actions: seq<WsSession.Action>)
    ensures Within(WsSession.Run(WsSession.Opened(opts, start, leftover), actions), opts)
    decreases |actions|
  {
    if actions == [] {
      OpenedIs(opts, start, leftover);
      DeliveredBounded(Fresh(opts), leftover);
      hide Drain, FrameStep, WsSession.Opened, FirstRead;
    } else {
      var before, a := actions[..|actions| - 1], actions[|actions| - 1];
      RunWithin(opts, start, leftover, before);
      StepWithin(WsSession.Run(WsSession.Opened(opts, start, leftover), before), opts, a);
    }
  }
}
