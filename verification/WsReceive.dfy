/**
  * The receive path of src/server/ws/ws_session.cpp: frames are cut off the front of the buffer,
  * unmasked, and data frames are joined into messages (sections 5.2 to 5.5 of RFC 6455).
  */
module WsReceive {
  import opened Bytes
  import opened Incremental
  import opened WsFrame

  datatype SessionState = Active | Closing | Closed

  const NORMAL_CLOSURE: nat := 1000
  const PROTOCOL_ERROR: nat := 1002
  const NO_STATUS_RECEIVED: nat := 1005
  const ABNORMAL_CLOSURE: nat := 1006
  const MESSAGE_TOO_BIG: nat := 1009

  datatype Options = Options(maxFrameBuffer: nat, maxMessage: nat, heartbeatInterval: nat, heartbeatTimeout: nat)

  /** What a session does that can be seen from outside. */
  datatype Event =
    | FrameSeen                                     // a whole frame arrived: the heartbeat is refreshed
    | Message(opcode: OpCode, payload: seq<byte>)   // the message handler is called
    | Queued(opcode: OpCode, payload: seq<byte>)    // a text, binary, ping or pong frame is handed to the send path
    | CloseQueued(code: nat, reason: string)        // a Close frame is handed to the send path
    | Shutdown(code: nat)                           // the socket is closed and the close handler called
  {
    predicate EndsSession() {
      Shutdown? || CloseQueued?
    }
  }

  /** The reassembly state between two frames. */
  datatype Recv = Recv(opts: Options, state: SessionState, started: bool, opcode: OpCode, payload: seq<byte>)

  /** `Close(code, reason)`: only an active session announces a close. */
  function AnnounceClose(s: Recv, code: nat, reason: string): (Recv, seq<Event>) {
    if s.state != Active then (s, [])
    else (s.(state := Closing), [CloseQueued(code, reason)])
  }

  /** `DoClose(code)` */
  function Drop(s: Recv, code: nat): (Recv, seq<Event>) {
    (s.(state := Closed), [Shutdown(code)])
  }

  /** The status code a received Close frame carries, if any. */
  function StatusOf(payload: seq<byte>): nat {
    if |payload| >= 2 then FromBe16(payload[0], payload[1]) else NO_STATUS_RECEIVED
  }

  function HandleControl(s: Recv, op: OpCode, payload: seq<byte>): (Recv, seq<Event>) {
    if op == Close then AnnounceClose(s, StatusOf(payload), "")
    else if op == Ping then (s, [Queued(Pong, payload)])
    else (s, [])
  }

  function HandleData(s: Recv, op: OpCode, fin: bool, payload: seq<byte>): (Recv, seq<Event>) {
    if op.IsControl() || (op == Continuation) != s.started then Drop(s, PROTOCOL_ERROR)
    else if op == Continuation && |payload| > 0 && |s.payload| + |payload| > s.opts.maxMessage then
      AnnounceClose(s, MESSAGE_TOO_BIG, "message too large")
    else if op != Continuation && |payload| > s.opts.maxMessage then
      AnnounceClose(s.(started := true, opcode := op, payload := []), MESSAGE_TOO_BIG, "message too large")
    else
      var joined := if op == Continuation then s.payload + payload else payload;
      var kind := if op == Continuation then s.opcode else op;
      if fin then (s.(started := false, opcode := kind, payload := []), [Message(kind, joined)])
      else (s.(started := true, opcode := kind, payload := joined), [])
  }

  function Stop(r: (Recv, seq<Event>)): Step<Recv, Event> {
    Halt(r.0, r.1)
  }

  function FrameOutcome(s: Recv, hdr: Header, payload: seq<byte>): (Recv, seq<Event>) {
    if !hdr.opcode.IsControl() then HandleData(s, hdr.opcode, hdr.fin, payload)
    else if !hdr.fin || hdr.payloadLen > 125 then Drop(s, PROTOCOL_ERROR)
    else HandleControl(s, hdr.opcode, payload)
  }

  /** Whether the loop in `ProcessFrameBuffer` carries on after this frame. */
  predicate GoesOn(s: Recv, hdr: Header, payload: seq<byte>) {
    hdr.opcode.IsControl() ==>
      hdr.fin && hdr.payloadLen <= 125 && HandleControl(s, hdr.opcode, payload).0.state != Closed
  }

  /** One turn of the loop in `ProcessFrameBuffer`. */
  function FrameStep(s: Recv, buf: seq<byte>): (r: Step<Recv, Event>)
    ensures r.Took? ==> 0 < r.count <= |buf|
  {
    match Parse(buf)
    case Malformed => Stop(Drop(s, PROTOCOL_ERROR))
    case Incomplete => More
    case Complete(h) =>
      var joined := (if h.opcode == Continuation then |s.payload| else 0) + h.payloadLen;
      if !h.masked then Stop(Drop(s, PROTOCOL_ERROR))
      else if !h.opcode.IsControl() && joined > s.opts.maxMessage then
        Stop(AnnounceClose(s, MESSAGE_TOO_BIG, "message too large"))
      else if h.Total() > s.opts.maxFrameBuffer then
        Stop(AnnounceClose(s, MESSAGE_TOO_BIG, "frame too large"))
      else if |buf| < h.Total() then More
      else
        AcceptedHeaderIsEncoded(buf);
        var payload := Masked(buf[h.headerLen..h.Total()], h.maskKey);
        var (t, es) := FrameOutcome(s, h, payload);
        if GoesOn(s, h, payload) then Took(t, h.Total(), [FrameSeen] + es) else Halt(t, [FrameSeen] + es)
  }

  lemma {:induction false} FrameStepStable()
    ensures Stable(FrameStep)
  {
    forall s, a: seq<byte>, b: seq<byte> | !FrameStep(s, a).More?
      ensures FrameStep(s, a + b) == FrameStep(s, a)
    {
      ParseStable(a, b);
      if Parse(a).Complete? {
        var h := Parse(a).hdr;
        AcceptedHeaderIsEncoded(a);
        if |a| >= h.Total() {
          SliceOfPrefix(a, b, h.headerLen, h.Total());
        }
      }
    }
  }

  // ---- the log up to the first close -------------------------------------------------------------

  /** A log cut off after the first event that ends the session. */
  function UpToClose(log: seq<Event>): (r: seq<Event>) {
    if log == [] then []
    else if log[0].EndsSession() then [log[0]]
    else [log[0]] + UpToClose(log[1..])
  }

  predicate Ended(log: seq<Event>) {
    exists i :: 0 <= i < |log| && log[i].EndsSession()
  }

  lemma {:induction false} EndedAppend(a: seq<Event>, b: seq<Event>)
    ensures Ended(a + b) <==> Ended(a) || Ended(b)
  {
    if Ended(a) {
      var i :| 0 <= i < |a| && a[i].EndsSession();
      assert (a + b)[i] == a[i];
    }
    if Ended(b) {
      var i :| 0 <= i < |b| && b[i].EndsSession();
      assert (a + b)[|a| + i] == b[i];
    }
  }

  lemma {:induction false} UpToCloseAppend(a: seq<Event>, b: seq<Event>)
    ensures UpToClose(a + b) == if Ended(a) then UpToClose(a) else a + UpToClose(b)
  {
    if a == [] {
      assert a + b == b;
    } else {
      hide Event.EndsSession, Ended;
      assert (a + b)[1..] == a[1..] + b;
      UpToCloseAppend(a[1..], b);
      EndedCons(a);
      Associate([a[0]], a[1..], UpToClose(b));
      assert [a[0]] + a[1..] == a;
    }
  }

  lemma {:induction false} EndedCons(a: seq<Event>)
    requires a != []
    ensures Ended(a) <==> a[0].EndsSession() || Ended(a[1..])
  {
    EndedAppend([a[0]], a[1..]);
    assert [a[0]] + a[1..] == a;
    assert Ended([a[0]]) <==> a[0].EndsSession() by {
      if a[0].EndsSession() { assert [a[0]][0].EndsSession(); }
    }
  }

  /** The step of an ideal session, which does nothing more once it has ended. */
  function IdealStep(s: Recv, buf: seq<byte>): (r: Step<Recv, Event>)
    ensures r.Took? ==> 0 < r.count <= |buf|
  {
    match FrameStep(s, buf)
    case Took(t, n, es) => if t.state != Active then Halt(t, es) else Took(t, n, es)
    case other => other
  }

  lemma {:induction false} IdealStepStable()
    ensures Stable(IdealStep)
  {
    FrameStepStable();
    forall s, a: seq<byte>, b: seq<byte> | !IdealStep(s, a).More?
      ensures IdealStep(s, a + b) == IdealStep(s, a)
    {
      StableAt(FrameStep, s, a, b);
    }
  }

  /** One step of an active session leaves it active exactly if it logs no end; an end comes last. */
  lemma {:induction false} StepEnds(s: Recv, buf: seq<byte>)
    requires s.state == Active
    ensures match FrameStep(s, buf)
            case More => true
            case Halt(t, es) => t.state != Active && Ended(es) && UpToClose(es) == es
            case Took(t, n, es) =>
              && (Ended(es) <==> t.state != Active)
              && UpToClose(es) == es
  {
    match FrameStep(s, buf)
    case More =>
    case Halt(t, es) => ShortLog(es);
    case Took(t, n, es) => ShortLog(es);
  }

  lemma {:induction false} ShortLog(es: seq<Event>)
    requires |es| <= 2 && (|es| == 2 ==> es[0] == FrameSeen)
    ensures UpToClose(es) == es
    ensures Ended(es) <==> |es| > 0 && es[|es| - 1].EndsSession()
  {
    if |es| == 2 {
      assert es[1..] == [es[1]] && [es[1]][1..] == [];
      assert UpToClose([es[1]]) == [es[1]];
    } else if |es| == 1 {
      assert es[1..] == [];
    }
    if Ended(es) {
      var i :| 0 <= i < |es| && es[i].EndsSession();
      assert i == |es| - 1;
    }
  }

  /** What the code logs up to the first end is what the ideal session logs. */
  lemma {:induction false} DrainUpToClose(s: Recv, buf: seq<byte>)
    requires s.state == Active
    ensures var d := Drain(FrameStep, s, buf);
            var i := Drain(IdealStep, s, buf);
            && UpToClose(d.out) == i.out
            && (i.halted <==> d.state.state != Active)
            && (i.halted <==> Ended(i.out)) && (i.halted <==> Ended(d.out))
            && (!i.halted ==> d == i)
    decreases |buf|
  {
    StepEnds(s, buf);
    match FrameStep(s, buf)
    case More =>
    case Halt(t, es) =>
    case Took(t, n, es) =>
      var d := Drain(FrameStep, t, buf[n..]);
      UpToCloseAppend(es, d.out);
      if t.state == Active {
        DrainUpToClose(t, buf[n..]);
        EndedAppend(es, d.out);
        EndedAppend(es, Drain(IdealStep, t, buf[n..]).out);
      } else {
        EndedAppend(es, d.out);
        EverAfter(t, buf[n..]);
      }
  }

  /** No frame makes a session active again. */
  lemma {:induction false} EverAfter(s: Recv, buf: seq<byte>)
    requires s.state != Active
    ensures Drain(FrameStep, s, buf).state.state != Active
    decreases |buf|
  {
    match FrameStep(s, buf)
    case More =>
    case Halt(t, es) =>
    case Took(t, n, es) => EverAfter(t, buf[n..]);
  }

  // ---- reads -------------------------------------------------------------------------------------

  /** A session between two reads; `reading` says whether a read is outstanding. */
  datatype Reads = Reads(recv: Recv, rest: seq<byte>, log: seq<Event>, reading: bool)

  /** `ProcessFrameBuffer` on the unread rest and new bytes, and the read after it. A halted loop leaves the buffer as it
    * is and reads no more. */
  ghost function Process(r: Reads, chunk: seq<byte>): Reads {
    var d := Drain(FrameStep, r.recv, r.rest + chunk);
    Reads(d.state, if d.halted then r.rest + chunk else d.rest, r.log + d.out, !d.halted && d.state.state == Active)
  }

  /** A session before its first read. What has come behind the request of the handshake is processed as it is, however
    * much it is. */
  ghost function FirstRead(s: Recv, leftover: seq<byte>): Reads {
    Process(Reads(s, [], [], true), leftover)
  }

  /** The guard of `OnFrameData`: the unread rest and the new bytes do not fit the frame buffer. */
  predicate Trips(r: Reads, chunk: seq<byte>) {
    r.reading && |r.rest| + |chunk| > r.recv.opts.maxFrameBuffer
  }

  function BufferTooLarge(s: Recv): (Recv, seq<Event>) {
    AnnounceClose(s, MESSAGE_TOO_BIG, "frame buffer too large")
  }

  /** `OnFrameData` for a successful read. */
  ghost function OnFrameData(r: Reads, chunk: seq<byte>): Reads {
    if !r.reading then r
    else if Trips(r, chunk) then
      var (t, es) := BufferTooLarge(r.recv);
      Reads(t, r.rest + chunk, r.log + es, false)
    else Process(r, chunk)
  }

  ghost function RunReads(r: Reads, chunks: seq<seq<byte>>): Reads
    decreases |chunks|
  {
    if chunks == [] then r else RunReads(OnFrameData(r, chunks[0]), chunks[1..])
  }

  /** The first read that does not fit the frame buffer. */
  ghost function FirstTrip(r: Reads, chunks: seq<seq<byte>>): (k: Option<nat>)
    ensures k.Some? ==> k.value < |chunks|
    decreases |chunks|
  {
    if chunks == [] then None
    else if Trips(r, chunks[0]) then Some(0)
    else
      match FirstTrip(OnFrameData(r, chunks[0]), chunks[1..])
      case None => None
      case Some(k) => Some(k + 1)
  }

  /** The log the session shows equals the ideal reader's. */
  ghost predicate Tracks(r: Reads, i: Reader<Recv, Event>) {
    && UpToClose(r.log) == i.out
    && (r.reading <==> !i.halted)
    && (r.reading ==> r.recv == i.state && r.rest == i.rest && r.log == i.out && r.recv.state == Active && !Ended(r.log))
    && (!r.reading ==> Ended(r.log))
  }

  lemma {:induction false} OneProcess(r: Reads, i: Reader<Recv, Event>, chunk: seq<byte>)
    requires Tracks(r, i) && r.reading
    ensures Tracks(Process(r, chunk), Feed(IdealStep, i, chunk))
  {
    var buf := r.rest + chunk;
    DrainUpToClose(r.recv, buf);
    var d := Drain(FrameStep, r.recv, buf);
    UpToCloseAppend(r.log, d.out);
    EndedAppend(r.log, d.out);
    HaltedMeansLeft(r.recv, buf);
  }

  lemma {:induction false} OneRead(r: Reads, i: Reader<Recv, Event>, chunk: seq<byte>)
    requires Tracks(r, i) && !Trips(r, chunk)
    ensures Tracks(OnFrameData(r, chunk), Feed(IdealStep, i, chunk))
  {
    if r.reading {
      hide Process, Tracks;
      OneProcess(r, i, chunk);
    }
  }

  lemma {:induction false} HaltedMeansLeft(s: Recv, buf: seq<byte>)
    ensures Drain(FrameStep, s, buf).halted ==> Drain(FrameStep, s, buf).state.state != Active
    decreases |buf|
  {
    match FrameStep(s, buf)
    case More =>
    case Halt(t, es) =>
    case Took(t, n, es) => HaltedMeansLeft(t, buf[n..]);
  }

  lemma {:induction false} AfterTheLastRead(r: Reads, chunks: seq<seq<byte>>)
    requires !r.reading
    ensures RunReads(r, chunks) == r
    decreases |chunks|
  {
    if chunks != [] {
      AfterTheLastRead(r, chunks[1..]);
    }
  }

  lemma {:induction false} RunTracks(r: Reads, i: Reader<Recv, Event>, chunks: seq<seq<byte>>)
    requires Tracks(r, i)
    ensures match FirstTrip(r, chunks)
            case None => UpToClose(RunReads(r, chunks).log) == FeedAll(IdealStep, i, chunks).out
            case Some(k) =>
              UpToClose(RunReads(r, chunks).log)
              == FeedAll(IdealStep, i, chunks[..k]).out + [CloseQueued(MESSAGE_TOO_BIG, "frame buffer too large")]
    decreases |chunks|
  {
    if chunks == [] {
    } else if Trips(r, chunks[0]) {
      var t := OnFrameData(r, chunks[0]);
      AfterTheLastRead(t, chunks[1..]);
      var es := BufferTooLarge(r.recv).1;
      ShortLog(es);
      UpToCloseAppend(r.log, es);
      assert chunks[..0] == [];
    } else {
      OneRead(r, i, chunks[0]);
      var r', i' := OnFrameData(r, chunks[0]), Feed(IdealStep, i, chunks[0]);
      RunTracks(r', i', chunks[1..]);
      match FirstTrip(r', chunks[1..])
      case None =>
      case Some(k) => assert chunks[..k + 1][0] == chunks[0] && chunks[..k + 1][1..] == chunks[1..][..k];
    }
  }

  lemma {:induction false} FirstTracks(s: Recv, leftover: seq<byte>)
    requires s.state == Active
    ensures Tracks(FirstRead(s, leftover), Feed(IdealStep, Start(s), leftover))
  {
    hide Process, Drain, FrameStep, IdealStep;
    OneProcess(Reads(s, [], [], true), Start(s), leftover);
  }

  /** Reading on after the first piece is reading both. */
  lemma {:induction false} FirstPiece(s: Recv, leftover: seq<byte>, chunks: seq<seq<byte>>)
    ensures FeedAll(IdealStep, Feed(IdealStep, Start(s), leftover), chunks).out == Drain(IdealStep, s, leftover + Flat(chunks)).out
  {
    var all: seq<seq<byte>> := [leftover] + chunks;
    assert all[0] == leftover && all[1..] == chunks;
    IdealStepStable();
    assert FeedAll(IdealStep, Start(s), all) == FeedAll(IdealStep, Feed(IdealStep, Start(s), leftover), chunks);
    hide IdealStep, FeedAll, Feed, Drain;
    NothingIdeal(s);
    ChunkingUnobservable(IdealStep, s, all, all);
  }

  lemma {:induction false} NothingIdeal(s: Recv)
    ensures IdealStep(s, []).More?
  {
  }

  /** The main theorem of the receive path: however a stream is cut into what the handshake leaves and reads, the log
    * up to the first close is that of the ideal session on the whole stream; only a read that does not fit the
    * frame buffer ends it earlier, and then with status 1009 after the reads before it. */
  lemma {:induction false} LogIndependentOfReads(s: Recv, leftover: seq<byte>, chunks: seq<seq<byte>>)
    requires s.state == Active
    ensures var r := FirstRead(s, leftover);
            match FirstTrip(r, chunks)
            case None => UpToClose(RunReads(r, chunks).log) == Drain(IdealStep, s, leftover + Flat(chunks)).out
            case Some(k) =>
              UpToClose(RunReads(r, chunks).log)
              == Drain(IdealStep, s, leftover + Flat(chunks[..k])).out + [CloseQueued(MESSAGE_TOO_BIG, "frame buffer too large")]
  {
    hide IdealStep, FeedAll, Feed, Drain, FirstRead, UpToClose;
    var r := FirstRead(s, leftover);
    FirstTracks(s, leftover);
    RunTracks(r, Feed(IdealStep, Start(s), leftover), chunks);
    match FirstTrip(r, chunks)
    case None => FirstPiece(s, leftover, chunks);
    case Some(k) => FirstPiece(s, leftover, chunks[..k]);
  }

  // ---- the reference decoder ---------------------------------------------------------------------

  /** A frame as the client meant it: unmasked payload, and the key it was masked with. */
  datatype Frame = Frame(fin: bool, opcode: OpCode, key: nat, payload: seq<byte>) {
    function Encode(): seq<byte> {
      ClientFrame(fin, opcode, key, payload)
    }

    predicate Encodable() {
      |payload| < WIDTH32 && key < WIDTH32
    }
  }

  function Payloads(fs: seq<Frame>): seq<byte> {
    if fs == [] then [] else Payloads(fs[..|fs| - 1]) + fs[|fs| - 1].payload
  }

  /** The data frames of a stream, control frames left out. */
  function DataOf(fs: seq<Frame>): seq<Frame> {
    if fs == [] then []
    else DataOf(fs[..|fs| - 1]) + (if fs[|fs| - 1].opcode.IsControl() then [] else [fs[|fs| - 1]])
  }

  /** The data frames after the last final one: the fragments of the message still open. */
  function OpenFragments(fs: seq<Frame>): (r: seq<Frame>) {
    var ds := DataOf(fs);
    AfterLastFin(ds)
  }

  function AfterLastFin(ds: seq<Frame>): seq<Frame> {
    if ds == [] || ds[|ds| - 1].fin then [] else AfterLastFin(ds[..|ds| - 1]) + [ds[|ds| - 1]]
  }

  /** The events of frame `f` after the frames `before`: a Ping is answered with its own payload, and a final data
    * frame delivers the open fragments and itself as one message of the first fragment's type. */
  function EventsOf(before: seq<Frame>, f: Frame): seq<Event> {
    var open := OpenFragments(before);
    if f.opcode == Ping then [Queued(Pong, f.payload)]
    else if f.opcode.IsControl() || !f.fin then []
    else [Message((open + [f])[0].opcode, Payloads(open + [f]))]
  }

  function ReferenceLog(fs: seq<Frame>): seq<Event> {
    if fs == [] then []
    else ReferenceLog(fs[..|fs| - 1]) + [FrameSeen] + EventsOf(fs[..|fs| - 1], fs[|fs| - 1])
  }

  /** Frame `f` is one a session under `opts` goes on after, given the frames before it. */
  predicate Continues(opts: Options, before: seq<Frame>, f: Frame) {
    && f.Encodable()
    && |f.Encode()| <= opts.maxFrameBuffer
    && if f.opcode.IsControl() then f.fin && |f.payload| <= 125 && f.opcode != Close
       else
         && (f.opcode == Continuation <==> OpenFragments(before) != [])
         && |Payloads(OpenFragments(before))| + |f.payload| <= opts.maxMessage
  }

  function Accepts(opts: Options): (seq<Frame>, Frame) -> bool {
    (before, f) => Continues(opts, before, f)
  }

  /** Every element satisfies `p` in the light of those before it. */
  ghost predicate Along<T(!new)>(p: (seq<T>, T) -> bool, xs: seq<T>) {
    forall i :: 0 <= i < |xs| ==> p(xs[..i], xs[i])
  }

  ghost predicate Conforming(opts: Options, fs: seq<Frame>) {
    Along(Accepts(opts), fs)
  }

  lemma {:induction false} AlongAppend<T(!new)>(p: (seq<T>, T) -> bool, xs: seq<T>, x: T)
    ensures Along(p, xs + [x]) <==> Along(p, xs) && p(xs, x)
  {
    var ys := xs + [x];
    assert ys[..|xs|] == xs && ys[|xs|] == x;
    assert forall i :: 0 <= i < |xs| ==> ys[..i] == xs[..i] && ys[i] == xs[i];
    if Along(p, ys) {
      assert p(ys[..|xs|], ys[|xs|]);
      forall i | 0 <= i < |xs|
        ensures p(xs[..i], xs[i])
      {
        assert p(ys[..i], ys[i]);
      }
    }
  }

  function Encoded(fs: seq<Frame>): seq<byte> {
    if fs == [] then [] else Encoded(fs[..|fs| - 1]) + fs[|fs| - 1].Encode()
  }

  /** The reassembly state a session must be in after a conforming list of frames. */
  ghost predicate StateAfter(opts: Options, fs: seq<Frame>, s: Recv) {
    s.opts == opts && s.state == Active && Holding(s, OpenFragments(fs))
  }

  /** The fragments `open` of an unfinished message are what the session has accumulated. */
  predicate Holding(s: Recv, open: seq<Frame>) {
    && (s.started <==> open != [])
    && s.payload == Payloads(open)
    && (open != [] ==> s.opcode == open[0].opcode)
  }

  lemma {:induction false} DataAfter(fs: seq<Frame>, f: Frame)
    ensures DataOf(fs + [f]) == if f.opcode.IsControl() then DataOf(fs) else DataOf(fs) + [f]
  {
    assert (fs + [f])[..|fs|] == fs;
    assert DataOf(fs) + [] == DataOf(fs);
  }

  lemma {:induction false} OpenAfter(fs: seq<Frame>, f: Frame)
    ensures OpenFragments(fs + [f])
         == if f.opcode.IsControl() then OpenFragments(fs) else if f.fin then [] else OpenFragments(fs) + [f]
  {
    DataAfter(fs, f);
    if !f.opcode.IsControl() {
      AfterLastFinAppend(DataOf(fs), f);
    }
  }

  lemma {:induction false} AfterLastFinAppend(ds: seq<Frame>, f: Frame)
    ensures AfterLastFin(ds + [f]) == if f.fin then [] else AfterLastFin(ds) + [f]
  {
    assert (ds + [f])[..|ds|] == ds;
  }

  lemma {:induction false} PayloadsAfter(fs: seq<Frame>, f: Frame)
    ensures Payloads(fs + [f]) == Payloads(fs) + f.payload
  {
    assert (fs + [f])[..|fs|] == fs;
  }

  /** The parser finds a client's frame, whole, at the front of a stream that starts with it. */
  lemma {:induction false} ParseOfFrame(f: Frame, rest: seq<byte>)
    requires f.Encodable()
    ensures var d := f.Encode() + rest;
            && Parse(d).Complete?
            && var h := Parse(d).hdr;
               && h == Header(f.fin, f.opcode, true, 6 + ExtBytes(|f.payload|), |f.payload|, f.key)
               && h.Total() == |f.Encode()|
               && Masked(d[h.headerLen..h.Total()], h.maskKey) == f.payload
               && d[h.Total()..] == rest
  {
    var head := HeaderBytes(f.fin, f.opcode, true, |f.payload|, f.key);
    var body := Masked(f.payload, f.key);
    Associate(head, body, rest);
    ParseOfHeaderBytes(f.fin, f.opcode, true, |f.payload|, f.key, body + rest);
    SliceOfMiddle(head, body, rest);
    MaskInvolution(f.payload, f.key);
  }

  function Handle(s: Recv, f: Frame): (Recv, seq<Event>) {
    if f.opcode.IsControl() then HandleControl(s, f.opcode, f.payload) else HandleData(s, f.opcode, f.fin, f.payload)
  }

  /** What the loop does with a whole frame within the limits. */
  lemma {:induction false} WholeFrame(s: Recv, f: Frame, rest: seq<byte>)
    requires f.Encodable() && |f.Encode()| <= s.opts.maxFrameBuffer
    requires f.opcode.IsControl() ==> s.state != Closed && f.fin && |f.payload| <= 125
    requires !f.opcode.IsControl() ==> (if f.opcode == Continuation then |s.payload| else 0) + |f.payload| <= s.opts.maxMessage
    ensures FrameStep(s, f.Encode() + rest) == Took(Handle(s, f).0, |f.Encode()|, [FrameSeen] + Handle(s, f).1)
  {
    ParseOfFrame(f, rest);
  }

  /** One conforming frame: the session takes exactly its bytes and does what the reference does. */
  lemma {:induction false} ConformingFrame(opts: Options, fs: seq<Frame>, f: Frame, s: Recv, rest: seq<byte>)
    requires StateAfter(opts, fs, s) && Continues(opts, fs, f)
    ensures FrameStep(s, f.Encode() + rest) == Took(Handle(s, f).0, |f.Encode()|, [FrameSeen] + EventsOf(fs, f))
    ensures StateAfter(opts, fs + [f], Handle(s, f).0)
  {
    ConformingHandled(opts, fs, f, s);
    if !f.opcode.IsControl() { ConformingSize(opts, fs, f, s); }
    WholeFrame(s, f, rest);
  }

  lemma {:induction false} ConformingSize(opts: Options, fs: seq<Frame>, f: Frame, s: Recv)
    requires StateAfter(opts, fs, s) && Continues(opts, fs, f) && !f.opcode.IsControl()
    ensures (if f.opcode == Continuation then |s.payload| else 0) + |f.payload| <= opts.maxMessage
  {
  }

  lemma {:induction false} ConformingHandled(opts: Options, fs: seq<Frame>, f: Frame, s: Recv)
    requires StateAfter(opts, fs, s) && Continues(opts, fs, f)
    ensures Handle(s, f).1 == EventsOf(fs, f)
    ensures StateAfter(opts, fs + [f], Handle(s, f).0)
  {
    if f.opcode.IsControl() {
      ConformingControl(opts, fs, f, s);
    } else {
      ConformingData(opts, fs, f, s);
    }
  }

  lemma {:induction false} ConformingControl(opts: Options, fs: seq<Frame>, f: Frame, s: Recv)
    requires StateAfter(opts, fs, s) && Continues(opts, fs, f) && f.opcode.IsControl()
    ensures Handle(s, f).1 == EventsOf(fs, f)
    ensures StateAfter(opts, fs + [f], Handle(s, f).0)
  {
    OpenAfter(fs, f);
    assert f.opcode == Ping || f.opcode == Pong;
  }

  lemma {:induction false} ConformingData(opts: Options, fs: seq<Frame>, f: Frame, s: Recv)
    requires StateAfter(opts, fs, s) && Continues(opts, fs, f) && !f.opcode.IsControl()
    ensures Handle(s, f).1 == EventsOf(fs, f)
    ensures StateAfter(opts, fs + [f], Handle(s, f).0)
  {
    hide ClientFrame, HandleData, DataOf, AfterLastFin, Payloads;
    OpenAfter(fs, f);
    JoinFragment(s, OpenFragments(fs), f);
  }

  lemma {:induction false} JoinFragment(s: Recv, open: seq<Frame>, f: Frame)
    requires Holding(s, open) && !f.opcode.IsControl()
    requires f.opcode == Continuation <==> open != []
    requires |Payloads(open)| + |f.payload| <= s.opts.maxMessage
    ensures var (t, es) := HandleData(s, f.opcode, f.fin, f.payload);
            && t.opts == s.opts && t.state == s.state
            && Holding(t, if f.fin then [] else open + [f])
            && es == if f.fin then [Message((open + [f])[0].opcode, Payloads(open + [f]))] else []
  {
    PayloadsAfter(open, f);
    if open == [] {
      assert Payloads(open) + f.payload == f.payload;
      assert (open + [f])[0] == f;
    } else {
      assert (open + [f])[0] == open[0];
    }
  }

  /** A session right after the handshake. */
  function Fresh(opts: Options): Recv {
    Recv(opts, Active, false, Text, [])
  }

  function StateOf(opts: Options, fs: seq<Frame>): Recv {
    if fs == [] then Fresh(opts) else Handle(StateOf(opts, fs[..|fs| - 1]), fs[|fs| - 1]).0
  }

  /** The recursive descriptions of a list of frames, one frame later. */
  lemma {:induction false} OneMoreFrame(opts: Options, fs: seq<Frame>, f: Frame)
    ensures Conforming(opts, fs + [f]) <==> Conforming(opts, fs) && Continues(opts, fs, f)
    ensures StateOf(opts, fs + [f]) == Handle(StateOf(opts, fs), f).0
    ensures Encoded(fs + [f]) == Encoded(fs) + f.Encode()
    ensures ReferenceLog(fs + [f]) == ReferenceLog(fs) + [FrameSeen] + EventsOf(fs, f)
  {
    AlongAppend(Accepts(opts), fs, f);
    assert (fs + [f])[..|fs|] == fs;
  }

  /** A conforming list read as the list without its last frame, and that frame. */
  lemma {:induction false} LastFrame(opts: Options, fs: seq<Frame>) returns (before: seq<Frame>, f: Frame)
    requires Conforming(opts, fs) && fs != []
    ensures fs == before + [f]
    ensures Conforming(opts, before) && Accepts(opts)(before, f)
  {
    hide Along, Accepts;
    before, f := fs[..|fs| - 1], fs[|fs| - 1];
    assert fs == before + [f];
    AlongAppend(Accepts(opts), before, f);
  }

  lemma {:induction false} ConformingState(opts: Options, fs: seq<Frame>)
    requires Conforming(opts, fs)
    ensures StateAfter(opts, fs, StateOf(opts, fs))
    decreases |fs|
  {
    if fs != [] {
      var before, f := LastFrame(opts, fs);
      ConformingState(opts, before);
      ConformingHandled(opts, before, f, StateOf(opts, before));
      OneMoreFrame(opts, before, f);
    }
  }

  /** A conforming client's frames, whatever follows them, are logged as the reference says. */
  lemma {:induction false} ConformingPrefix(opts: Options, fs: seq<Frame>, rest: seq<byte>)
    requires Conforming(opts, fs)
    ensures Drain(IdealStep, Fresh(opts), Encoded(fs) + rest) == After(ReferenceLog(fs), Drain(IdealStep, StateOf(opts, fs), rest))
    decreases |fs|
  {
    if fs == [] {
      NoFrames(opts, rest);
    } else {
      var before, f := LastFrame(opts, fs);
      ConformingPrefix(opts, before, f.Encode() + rest);
      ConformingStep(opts, before, f, rest);
      OneMoreFrame(opts, before, f);
      Associate(Encoded(before), f.Encode(), rest);
      Associate(ReferenceLog(before), [FrameSeen], EventsOf(before, f));
      AfterAfter(ReferenceLog(before), [FrameSeen] + EventsOf(before, f), Drain(IdealStep, StateOf(opts, fs), rest));
    }
  }

  lemma {:induction false} ConformingStep(opts: Options, before: seq<Frame>, f: Frame, rest: seq<byte>)
    requires Conforming(opts, before) && Continues(opts, before, f)
    ensures Drain(IdealStep, StateOf(opts, before), f.Encode() + rest)
         == After([FrameSeen] + EventsOf(before, f), Drain(IdealStep, StateOf(opts, before + [f]), rest))
  {
    var s := StateOf(opts, before);
    ConformingState(opts, before);
    ConformingFrame(opts, before, f, s, rest);
    OneMoreFrame(opts, before, f);
    OneFrameThen(s, f.Encode(), rest, Handle(s, f).0, [FrameSeen] + EventsOf(before, f));
  }

  lemma {:induction false} NoFrames(opts: Options, rest: seq<byte>)
    ensures Drain(IdealStep, Fresh(opts), Encoded([]) + rest) == After(ReferenceLog([]), Drain(IdealStep, StateOf(opts, []), rest))
  {
    assert Encoded([]) + rest == rest;
    var d := Drain(IdealStep, Fresh(opts), rest);
    assert [] + d.out == d.out;
  }

  /** The outcome `d` of a reader that had already logged `es`. */
  ghost function After(es: seq<Event>, d: Reader<Recv, Event>): Reader<Recv, Event> {
    d.(out := es + d.out)
  }

  lemma {:induction false} AfterAfter(a: seq<Event>, b: seq<Event>, d: Reader<Recv, Event>)
    ensures After(a, After(b, d)) == After(a + b, d)
  {
    assert a + (b + d.out) == a + b + d.out;
  }

  lemma {:induction false} OneFrameThen(s: Recv, enc: seq<byte>, rest: seq<byte>, t: Recv, es: seq<Event>)
    requires enc != [] && FrameStep(s, enc + rest) == Took(t, |enc|, es) && t.state == Active
    ensures Drain(IdealStep, s, enc + rest) == After(es, Drain(IdealStep, t, rest))
  {
    assert (enc + rest)[|enc|..] == rest;
  }

  /** Whatever an active session goes on after is a frame the reference accepts, byte for byte. */
  lemma {:induction false} TakenFrame(opts: Options, fs: seq<Frame>, s: Recv, buf: seq<byte>) returns (f: Frame)
    requires StateAfter(opts, fs, s) && IdealStep(s, buf).Took?
    ensures Continues(opts, fs, f)
    ensures |f.Encode()| <= |buf| && f.Encode() == buf[..|f.Encode()|]
    ensures Handle(s, f).0.state == Active
  {
    f := FrameAtFront(buf);
    TakenContinues(opts, fs, s, f);
  }

  /** The frame whose encoding a buffer with a masked header and enough bytes starts with. */
  lemma {:induction false} FrameAtFront(buf: seq<byte>) returns (f: Frame)
    requires Parse(buf).Complete? && Parse(buf).hdr.masked && Parse(buf).hdr.Total() <= |buf|
    ensures var h := Parse(buf).hdr;
            && f == Frame(h.fin, h.opcode, h.maskKey, Masked(buf[h.headerLen..h.Total()], h.maskKey))
            && f.Encodable() && |f.payload| == h.payloadLen
            && |f.Encode()| == h.Total() && f.Encode() == buf[..h.Total()]
  {
    var h := Parse(buf).hdr;
    AcceptedHeaderIsEncoded(buf);
    var body := buf[h.headerLen..h.Total()];
    f := Frame(h.fin, h.opcode, h.maskKey, Masked(body, h.maskKey));
    MaskInvolution(body, h.maskKey);
    assert buf[..h.Total()] == buf[..h.headerLen] + body;
  }

  lemma {:induction false} TakenContinues(opts: Options, fs: seq<Frame>, s: Recv, f: Frame)
    requires StateAfter(opts, fs, s)
    requires f.Encodable() && |f.Encode()| <= opts.maxFrameBuffer
    requires f.opcode.IsControl() ==> f.fin && |f.payload| <= 125
    requires !f.opcode.IsControl() ==> (if f.opcode == Continuation then |s.payload| else 0) + |f.payload| <= opts.maxMessage
    requires Handle(s, f).0.state == Active
    ensures Continues(opts, fs, f)
  {
    if !f.opcode.IsControl() {
      assert s.started == (OpenFragments(fs) != []);
      assert f.opcode != Continuation ==> Payloads(OpenFragments(fs)) == [];
    }
  }

  lemma {:induction false} Regroup(a: seq<byte>, rest: seq<byte>, n: nat)
    requires n <= |rest|
    ensures a + rest[..n] + rest[n..] == a + rest
  {
    assert rest[..n] + rest[n..] == rest;
  }

  /** Every stream is a conforming list of frames followed by bytes the session does not go on after. */
  lemma {:induction false} Decompose(opts: Options, fs: seq<Frame>, rest: seq<byte>) returns (gs: seq<Frame>, tail: seq<byte>)
    requires Conforming(opts, fs)
    ensures Conforming(opts, gs) && Encoded(gs) + tail == Encoded(fs) + rest
    ensures !IdealStep(StateOf(opts, gs), tail).Took?
    decreases |rest|
  {
    var s := StateOf(opts, fs);
    if !IdealStep(s, rest).Took? {
      return fs, rest;
    }
    ConformingState(opts, fs);
    var f := TakenFrame(opts, fs, s, rest);
    var n := |f.Encode()|;
    OneMoreFrame(opts, fs, f);
    Regroup(Encoded(fs), rest, n);
    gs, tail := Decompose(opts, fs + [f], rest[n..]);
  }

  /** The verdict on bytes behind the conforming frames `fs` that no conforming frame starts: nothing as long as bytes are
    * missing, and the end of the session with its status otherwise. */
  function Verdict(opts: Options, fs: seq<Frame>, tail: seq<byte>): seq<Event> {
    match Parse(tail)
    case Incomplete => []
    case Malformed => [Shutdown(1002)]
    case Complete(h) =>
      if !h.masked then [Shutdown(1002)]
      else if !h.opcode.IsControl() && MessageLength(fs, h) > opts.maxMessage then [CloseQueued(1009, "message too large")]
      else if h.Total() > opts.maxFrameBuffer then [CloseQueued(1009, "frame too large")]
      else if |tail| < h.Total() then []
      else [FrameSeen, if IsClose(h) then CloseQueued(ClosingStatus(h, tail), "") else Shutdown(1002)]
  }

  /** How long the message in progress becomes with the payload of a data frame. */
  function MessageLength(fs: seq<Frame>, h: Header): nat {
    (if h.opcode == Continuation then |Payloads(OpenFragments(fs))| else 0) + h.payloadLen
  }

  /** A Close frame as section 5.5 of RFC 6455 allows it. */
  predicate IsClose(h: Header) {
    h.opcode == Close && h.fin && h.payloadLen <= 125
  }

  /** The status it names in its first two octets; 1005 if it has fewer. */
  function ClosingStatus(h: Header, tail: seq<byte>): nat {
    if !(h.headerLen + 2 <= h.Total() <= |tail|) then 1005
    else
      var payload := Masked(tail[h.headerLen..h.Total()], h.maskKey);
      payload[0] as int * 256 + payload[1]
  }

  lemma {:induction false} VerdictIsGiven(opts: Options, fs: seq<Frame>, s: Recv, tail: seq<byte>)
    requires StateAfter(opts, fs, s)
    requires !IdealStep(s, tail).Took?
    ensures match IdealStep(s, tail)
            case More => Verdict(opts, fs, tail) == []
            case Halt(_, es) => Verdict(opts, fs, tail) == es && es != []
  {
    hide Payloads, OpenFragments, Masked;
  }

  /** What the session goes on after would have been taken. */
  lemma {:induction false} NothingMissed(opts: Options, fs: seq<Frame>, tail: seq<byte>, f: Frame)
    requires Conforming(opts, fs) && Continues(opts, fs, f)
    requires !IdealStep(StateOf(opts, fs), tail).Took?
    ensures !(f.Encode() <= tail)
  {
    if f.Encode() <= tail {
      var n := |f.Encode()|;
      assert tail == f.Encode() + tail[n..];
      ConformingState(opts, fs);
      ConformingFrame(opts, fs, f, StateOf(opts, fs), tail[n..]);
    }
  }

  /** The session is the reference decoder: every stream is a conforming list of frames, as long as it can be, and a tail,
    * and the session logs the reference log of these frames and then the verdict on the tail. */
  lemma {:induction false} SessionIsReferenceDecoder(opts: Options, stream: seq<byte>) returns (fs: seq<Frame>, tail: seq<byte>)
    ensures Conforming(opts, fs) && stream == Encoded(fs) + tail
    ensures forall f :: Continues(opts, fs, f) ==> !(f.Encode() <= tail)
    ensures var d, v := Drain(IdealStep, Fresh(opts), stream), Verdict(opts, fs, tail);
            && d.out == ReferenceLog(fs) + v && d.rest == tail
            && (d.halted <==> v != [])
            && (!d.halted ==> StateAfter(opts, fs, d.state))
  {
    fs, tail := Decompose(opts, [], stream);
    assert [] + stream == stream;
    hide Conforming, Continues, Encoded, ReferenceLog, Verdict, IdealStep, StateAfter;
    ConformingPrefix(opts, fs, tail);
    ConformingState(opts, fs);
    VerdictIsGiven(opts, fs, StateOf(opts, fs), tail);
    forall f | Continues(opts, fs, f) ensures !(f.Encode() <= tail) {
      NothingMissed(opts, fs, tail, f);
    }
    assert ReferenceLog(fs) + [] == ReferenceLog(fs);
  }

  /** Both results together, for reads that all fit the frame buffer. */
  lemma {:induction false} ReadsMeanReference(opts: Options, leftover: seq<byte>, chunks: seq<seq<byte>>)
    returns (fs: seq<Frame>, tail: seq<byte>)
    requires FirstTrip(FirstRead(Fresh(opts), leftover), chunks) == None
    ensures Conforming(opts, fs) && leftover + Flat(chunks) == Encoded(fs) + tail
    ensures forall f :: Continues(opts, fs, f) ==> !(f.Encode() <= tail)
    ensures UpToClose(RunReads(FirstRead(Fresh(opts), leftover), chunks).log) == ReferenceLog(fs) + Verdict(opts, fs, tail)
  {
    LogIndependentOfReads(Fresh(opts), leftover, chunks);
    fs, tail := SessionIsReferenceDecoder(opts, leftover + Flat(chunks));
  }

  // ---- messages ----------------------------------------------------------------------------------

  function MessagesOf(log: seq<Event>): seq<Event> {
    if log == [] then []
    else MessagesOf(log[..|log| - 1]) + (if log[|log| - 1].Message? then [log[|log| - 1]] else [])
  }

  /** The index of the first final frame, or the length if there is none. */
  function FirstFin(ds: seq<Frame>): (k: nat)
    ensures k <= |ds|
  {
    if ds == [] || ds[0].fin then 0 else 1 + FirstFin(ds[1..])
  }

  /** Section 5.4 of RFC 6455: a first fragment and its continuations up to the final one. */
  function Assemble(ds: seq<Frame>): seq<Event>
    decreases |ds|
  {
    var k := FirstFin(ds);
    if k == |ds| then [] else [Message(ds[0].opcode, Payloads(ds[..k + 1]))] + Assemble(ds[k + 1..])
  }

  lemma {:induction false} MessagesOfAppend(a: seq<Event>, e: seq<Event>)
    requires |e| <= 1
    ensures MessagesOf(a + e) == MessagesOf(a) + (if |e| == 1 && e[0].Message? then e else [])
  {
    if e == [] {
      assert a + e == a;
    } else {
      assert (a + e)[..|a|] == a;
    }
  }

  lemma {:induction false} FirstFinAppend(ds: seq<Frame>, f: Frame)
    ensures FirstFin(ds + [f]) == if FirstFin(ds) < |ds| then FirstFin(ds) else if f.fin then |ds| else |ds| + 1
  {
    if ds == [] {
      assert ds + [f] == [f];
      assert [f][1..] == [];
    } else {
      assert (ds + [f])[1..] == ds[1..] + [f];
      FirstFinAppend(ds[1..], f);
    }
  }

  lemma {:induction false} NoFinIsOpen(ds: seq<Frame>)
    requires FirstFin(ds) == |ds|
    ensures AfterLastFin(ds) == ds
  {
    if ds != [] {
      var before, f := ds[..|ds| - 1], ds[|ds| - 1];
      assert before + [f] == ds;
      FirstFinAppend(before, f);
      NoFinIsOpen(before);
    }
  }

  lemma {:induction false} OpenSkipsMessage(ds: seq<Frame>)
    requires FirstFin(ds) < |ds|
    ensures AfterLastFin(ds) == AfterLastFin(ds[FirstFin(ds) + 1..])
    decreases |ds|
  {
    hide FirstFin, AfterLastFin;
    var k := FirstFin(ds);
    var before, f := ds[..|ds| - 1], ds[|ds| - 1];
    assert before + [f] == ds;
    FirstFinAppend(before, f);
    AfterLastFinAppend(before, f);
    if k < |before| {
      assert ds[k + 1..] == before[k + 1..] + [f];
      AfterLastFinAppend(before[k + 1..], f);
      if !f.fin {
        OpenSkipsMessage(before);
      }
    } else {
      NothingOpen(ds[k + 1..]);
    }
  }

  lemma {:induction false} NothingOpen(ds: seq<Frame>)
    requires |ds| == 0
    ensures AfterLastFin(ds) == []
  {
  }

  function IfFinal(open: seq<Frame>): seq<Event>
    requires open != []
  {
    if open[|open| - 1].fin then [Message(open[0].opcode, Payloads(open))] else []
  }

  lemma {:induction false} AssembleAppend(ds: seq<Frame>, f: Frame)
    ensures Assemble(ds + [f]) == Assemble(ds) + IfFinal(AfterLastFin(ds) + [f])
    decreases |ds|
  {
    var k := FirstFin(ds);
    if k < |ds| {
      var head, tail := [Message(ds[0].opcode, Payloads(ds[..k + 1]))], ds[k + 1..];
      calc {
        Assemble(ds + [f]);
        { SameFirstMessage(ds, f); }
        head + Assemble(tail + [f]);
        { AssembleAppend(tail, f); }
        head + (Assemble(tail) + IfFinal(AfterLastFin(tail) + [f]));
        { Associate(head, Assemble(tail), IfFinal(AfterLastFin(tail) + [f])); }
        head + Assemble(tail) + IfFinal(AfterLastFin(tail) + [f]);
        { OpenSkipsMessage(ds); }
        head + Assemble(tail) + IfFinal(AfterLastFin(ds) + [f]);
        Assemble(ds) + IfFinal(AfterLastFin(ds) + [f]);
      }
    } else {
      AssembleOpen(ds, f);
    }
  }

  lemma {:induction false} SameFirstMessage(ds: seq<Frame>, f: Frame)
    requires FirstFin(ds) < |ds|
    ensures var k := FirstFin(ds);
            Assemble(ds + [f]) == [Message(ds[0].opcode, Payloads(ds[..k + 1]))] + Assemble(ds[k + 1..] + [f])
  {
    var k := FirstFin(ds);
    FirstFinAppend(ds, f);
    assert (ds + [f])[k + 1..] == ds[k + 1..] + [f];
    assert (ds + [f])[..k + 1] == ds[..k + 1];
  }

  lemma {:induction false} AssembleOpen(ds: seq<Frame>, f: Frame)
    requires FirstFin(ds) == |ds|
    ensures Assemble(ds + [f]) == Assemble(ds) + IfFinal(AfterLastFin(ds) + [f])
  {
    var k := |ds|;
    FirstFinAppend(ds, f);
    NoFinIsOpen(ds);
    if f.fin {
      assert (ds + [f])[..k + 1] == ds + [f];
      assert (ds + [f])[k + 1..] == [];
    }
  }

  /** The messages delivered are those of the data frames, whatever control frames lie between. */
  lemma {:induction false} MessagesAreAssembled(opts: Options, fs: seq<Frame>)
    requires Conforming(opts, fs)
    ensures MessagesOf(ReferenceLog(fs)) == Assemble(DataOf(fs))
    decreases |fs|
  {
    if fs != [] {
      var before, f := LastFrame(opts, fs);
      var log, ds := ReferenceLog(before), DataOf(before);
      calc {
        MessagesOf(ReferenceLog(fs));
        { OneMoreFrame(opts, before, f); }
        MessagesOf(log + [FrameSeen] + EventsOf(before, f));
        { MessagesStep(log, before, f); }
        MessagesOf(log) + (if f.opcode.IsControl() then [] else IfFinal(AfterLastFin(ds) + [f]));
        { MessagesAreAssembled(opts, before); }
        Assemble(ds) + (if f.opcode.IsControl() then [] else IfFinal(AfterLastFin(ds) + [f]));
        { AssembleAppend(ds, f); assert Assemble(ds) + [] == Assemble(ds); }
        Assemble(if f.opcode.IsControl() then ds else ds + [f]);
        { DataAfter(before, f); }
        Assemble(DataOf(fs));
      }
    }
  }

  lemma {:induction false} MessagesStep(log: seq<Event>, before: seq<Frame>, f: Frame)
    ensures MessagesOf(log + [FrameSeen] + EventsOf(before, f))
         == MessagesOf(log) + (if f.opcode.IsControl() then [] else IfFinal(AfterLastFin(DataOf(before)) + [f]))
  {
    MessagesOfAppend(log, [FrameSeen]);
    MessagesOfAppend(log + [FrameSeen], EventsOf(before, f));
  }

  // ---- limits -------------------------------------------------------------------------------------------

  ghost predicate Bounded(opts: Options, log: seq<Event>) {
    forall i :: 0 <= i < |log| && log[i].Message? ==> |log[i].payload| <= opts.maxMessage
  }

  /** No message longer than the limit is ever delivered, before or after a close, on any bytes. */
  lemma {:induction false} DeliveredBounded(s: Recv, buf: seq<byte>)
    requires |s.payload| <= s.opts.maxMessage
    ensures var d := Drain(FrameStep, s, buf);
            Bounded(s.opts, d.out) && d.state.opts == s.opts && |d.state.payload| <= s.opts.maxMessage
    decreases |buf|
  {
    StepBounded(s, buf);
    match FrameStep(s, buf)
    case More =>
    case Halt(t, es) =>
    case Took(t, n, es) => DeliveredBounded(t, buf[n..]);
  }

  /** Nor over any run of reads, nor in what the handshake leaves. */
  lemma {:induction false} RunBounded(opts: Options, leftover: seq<byte>, chunks: seq<seq<byte>>)
    ensures Bounded(opts, RunReads(FirstRead(Fresh(opts), leftover), chunks).log)
  {
    DeliveredBounded(Fresh(opts), leftover);
    assert [] + leftover == leftover;
    ReadsBounded(FirstRead(Fresh(opts), leftover), chunks);
  }

  lemma {:induction false} ReadsBounded(r: Reads, chunks: seq<seq<byte>>)
    requires Bounded(r.recv.opts, r.log) && |r.recv.payload| <= r.recv.opts.maxMessage
    ensures Bounded(r.recv.opts, RunReads(r, chunks).log)
    decreases |chunks|
  {
    if chunks != [] {
      var q := OnFrameData(r, chunks[0]);
      if r.reading && !Trips(r, chunks[0]) {
        DeliveredBounded(r.recv, r.rest + chunks[0]);
      }
      ReadsBounded(q, chunks[1..]);
    }
  }

  lemma {:induction false} StepBounded(s: Recv, buf: seq<byte>)
    requires |s.payload| <= s.opts.maxMessage
    ensures match FrameStep(s, buf)
            case More => true
            case Halt(t, es) => Bounded(s.opts, es) && t.opts == s.opts && |t.payload| <= s.opts.maxMessage
            case Took(t, _, es) => Bounded(s.opts, es) && t.opts == s.opts && |t.payload| <= s.opts.maxMessage
  {
  }
}
