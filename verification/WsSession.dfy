/**
  * The whole session of src/server/ws/ws_session.cpp after the handshake: the receive path, the send
  * queue that a strand serialises, closing, and the heartbeat. Every asio callback is one atomic step.
  */
module WsSession {
  import opened Bytes
  import opened Incremental
  import opened WsFrame
  import opened WsReceive

  import Text

  /** An encoded frame waiting to be written. */
  datatype Item = Item(data: seq<byte>, isClose: bool)

  /** The send path. `posted` are the enqueue handlers the strand has yet to run, `outstanding` counts
    * the writes in flight, `sent` the bytes of the front item already on the wire, `popped` the items
    * whose write has ended, and `wire` every byte handed to the peer. */
  datatype Send = Send(posted: seq<Item>, queue: seq<Item>, writing: bool, outstanding: nat, sent: nat,
                       popped: seq<Item>, wire: seq<byte>)

  datatype Session = Session(recv: Recv, rest: seq<byte>, reading: bool, log: seq<Event>, send: Send,
                             lastActivity: nat, awaitingPong: bool)

  // ---- frames on the wire ------------------------------------------------------------------------

  function CloseBody(code: nat, reason: string): seq<byte> {
    Be16(code) + Text.Ascii(reason)
  }

  function ItemOf(e: Event): (r: seq<Item>)
    ensures |r| <= 1 && (|r| == 1 ==> r[0].data != [] && r[0].isClose == e.CloseQueued?)
    ensures e.CloseQueued? ==> |r| == 1
  {
    match e
    case Queued(op, payload) => [Item(ServerFrame(true, op, payload), false)]
    case CloseQueued(code, reason) => [Item(ServerFrame(true, Close, CloseBody(code, reason)), true)]
    case _ => []
  }

  /** The frames enqueued so far, in order. */
  function Items(log: seq<Event>): seq<Item> {
    if log == [] then [] else Items(log[..|log| - 1]) + ItemOf(log[|log| - 1])
  }

  function Data(items: seq<Item>): seq<byte> {
    if items == [] then [] else Data(items[..|items| - 1]) + items[|items| - 1].data
  }

  /** The items up to and including the first Close frame. */
  function UpToCloseItem(items: seq<Item>): (r: seq<Item>)
    ensures r <= items
  {
    if items == [] then []
    else if HasClose(items[..|items| - 1]) then UpToCloseItem(items[..|items| - 1])
    else items
  }

  predicate HasClose(items: seq<Item>) {
    exists i :: 0 <= i < |items| && items[i].isClose
  }

  function CloseCount(items: seq<Item>): nat {
    if items == [] then 0 else CloseCount(items[..|items| - 1]) + (if items[|items| - 1].isClose then 1 else 0)
  }

  // ---- steps -------------------------------------------------------------------------------------

  /** Something happened: it is logged, and the frames it sends are posted to the strand. */
  function Happen(s: Session, r: (Recv, seq<Event>)): Session {
    s.(recv := r.0, log := s.log + r.1, send := s.send.(posted := s.send.posted + Items(r.1)))
  }

  /** The same for what a read brings at time `now`: whole frames also refresh the heartbeat. */
  function Hear(s: Session, r: (Recv, seq<Event>), now: nat): Session {
    var t := Happen(s, r);
    if FrameSeen in r.1 then t.(lastActivity := now, awaitingPong := false) else t
  }

  /** What is left of a session's reading after it has heard `r`. */
  function Absorb(s: Session, r: Reads, now: nat): Session {
    Hear(s, (r.recv, r.log), now).(rest := r.rest, reading := r.reading)
  }

  /** `OnFrameData` for a successful read of `chunk` at time `now`. */
  ghost function OnRead(s: Session, chunk: seq<byte>, now: nat): Session {
    if !s.reading then s else Absorb(s, OnFrameData(Reads(s.recv, s.rest, [], true), chunk), now)
  }

  /** `OnFrameData` for a failed read. */
  function OnReadError(s: Session): Session {
    if !s.reading then s else Happen(s, Drop(s.recv, ABNORMAL_CLOSURE)).(reading := false)
  }

  /** `SendText`, `SendBinary` and `SendPing`. */
  function SendFrame(s: Session, op: OpCode, payload: seq<byte>): Session
    requires op in {Text, Binary, Ping}
  {
    Happen(s, (s.recv, [Queued(op, payload)]))
  }

  function CloseSession(s: Session, code: nat, reason: string): Session {
    Happen(s, AnnounceClose(s.recv, code, reason))
  }

  /** `DoWrite`: start writing the front item. */
  function StartWrite(s: Send): Send {
    if s.queue == [] then s.(writing := false)
    else s.(writing := true, outstanding := s.outstanding + 1, sent := 0)
  }

  /** The strand runs the oldest enqueue handler. */
  function RunPosted(s: Session): Session {
    if s.send.posted == [] then s
    else
      var q := s.send.(posted := s.send.posted[1..], queue := s.send.queue + [s.send.posted[0]]);
      s.(send := if s.send.queue == [] && !s.send.writing then StartWrite(q) else q)
  }

  /** The network takes `k` more bytes of the write in flight; a closed socket takes none. */
  function Transmit(s: Session, k: nat): Session {
    var q := s.send;
    if q.outstanding > 0 && q.queue != [] && s.recv.state != Closed && q.sent + k <= |q.queue[0].data| then
      s.(send := Taken(q, k))
    else s
  }

  function Taken(q: Send, k: nat): Send
    requires q.queue != [] && q.sent + k <= |q.queue[0].data|
  {
    q.(sent := q.sent + k, wire := q.wire + q.queue[0].data[q.sent..q.sent + k])
  }

  /** The front item leaves the queue, and its write is over. */
  function Popped(q: Send): Send
    requires q.outstanding > 0 && q.queue != []
  {
    q.(popped := q.popped + [q.queue[0]], queue := q.queue[1..], outstanding := q.outstanding - 1)
  }

  /** The completion handler of a write. It succeeds only if every byte was taken. */
  function WriteDone(s: Session, ok: bool): Session {
    var q := s.send;
    if q.outstanding == 0 || q.queue == [] || (ok && q.sent != |q.queue[0].data|) then s
    else
      var p := Popped(q);
      if !ok then Happen(s.(send := p.(writing := false)), Drop(s.recv, ABNORMAL_CLOSURE))
      else if q.queue[0].isClose then Happen(s.(send := p.(writing := false)), Drop(s.recv, NORMAL_CLOSURE))
      else s.(send := StartWrite(p))
  }

  /** `OnHeartbeatTimer` */
  function OnTimer(s: Session, now: nat): Session {
    if s.recv.state != Active then s
    else
      var idle := now - s.lastActivity;
      if s.awaitingPong then
        if idle >= s.recv.opts.heartbeatTimeout then Happen(s, Drop(s.recv, ABNORMAL_CLOSURE)) else s
      else if idle >= s.recv.opts.heartbeatInterval then
        SendFrame(s.(awaitingPong := true), Ping, [])
      else s
  }

  datatype Action =
    | Read(chunk: seq<byte>, now: nat)
    | ReadError
    | SendData(opcode: OpCode, payload: seq<byte>)
    | CloseCall(code: nat, reason: string)
    | StrandRuns
    | Transmits(count: nat)
    | WriteEnds(ok: bool)
    | Timer(now: nat)

  ghost function Step(s: Session, a: Action): Session {
    match a
    case Read(chunk, now) => OnRead(s, chunk, now)
    case ReadError => OnReadError(s)
    case SendData(op, payload) => if op in {Text, Binary, Ping} then SendFrame(s, op, payload) else s
    case CloseCall(code, reason) => CloseSession(s, code, reason)
    case StrandRuns => RunPosted(s)
    case Transmits(k) => Transmit(s, k)
    case WriteEnds(ok) => WriteDone(s, ok)
    case Timer(now) => OnTimer(s, now)
  }

  ghost function Run(s: Session, actions: seq<Action>): Session {
    if actions == [] then s else Step(Run(s, actions[..|actions| - 1]), actions[|actions| - 1])
  }

  /** The session when the response to the handshake has been sent. */
  function Upgraded(opts: Options, now: nat): Session {
    Session(Fresh(opts), [], true, [], Send([], [], false, 0, 0, [], []), now, false)
  }

  /** The end of `DoReadHandshake`: the bytes that came behind the request are processed first. */
  ghost function Opened(opts: Options, now: nat, leftover: seq<byte>): Session {
    Absorb(Upgraded(opts, now), FirstRead(Fresh(opts), leftover), now)
  }

  // ---- send-path safety --------------------------------------------------------------------------

  /** What every step keeps of the send path; `open` says that the socket is open. */
  predicate SendInv(q: Send, open: bool, items: seq<Item>) {
    && items == q.popped + q.queue + q.posted
    && (forall i :: 0 <= i < |items| ==> items[i].data != [])
    && q.outstanding == (if q.writing then 1 else 0)
    && (q.writing ==> q.queue != [] && q.sent <= |q.queue[0].data|)
    && q.wire <= Data(UpToCloseItem(items))
    && (open ==>
      && (q.writing <==> q.queue != [])
      && !HasClose(q.popped)
      && q.wire == Data(q.popped) + (if q.writing then q.queue[0].data[..q.sent] else []))
  }

  predicate Inv(s: Session) {
    && SendInv(s.send, s.recv.state != Closed, Items(s.log))
    && CloseCount(Items(s.log)) <= (if s.recv.state == Active then 0 else 1)
  }

  lemma {:induction false} DataAppend(a: seq<Item>, b: seq<Item>)
    ensures Data(a + b) == Data(a) + Data(b)
    decreases |b|
  {
    if b == [] {
      assert a + b == a;
    } else {
      assert (a + b)[..|a + b| - 1] == a + b[..|b| - 1];
      DataAppend(a, b[..|b| - 1]);
    }
  }

  lemma {:induction false} DataPrefix(a: seq<Item>, b: seq<Item>)
    requires a <= b
    ensures Data(a) <= Data(b)
  {
    DataAppend(a, b[|a|..]);
    assert a + b[|a|..] == b;
  }

  lemma {:induction false} ItemsAppend(a: seq<Event>, b: seq<Event>)
    ensures Items(a + b) == Items(a) + Items(b)
    decreases |b|
  {
    if b == [] {
      assert a + b == a;
    } else {
      assert (a + b)[..|a + b| - 1] == a + b[..|b| - 1];
      ItemsAppend(a, b[..|b| - 1]);
    }
  }

  lemma {:induction false} ItemsNonEmpty(log: seq<Event>)
    ensures forall i :: 0 <= i < |Items(log)| ==> Items(log)[i].data != []
  {
    if log != [] {
      ItemsNonEmpty(log[..|log| - 1]);
    }
  }

  lemma {:induction false} CloseCountAppend(a: seq<Item>, b: seq<Item>)
    ensures CloseCount(a + b) == CloseCount(a) + CloseCount(b)
    decreases |b|
  {
    if b == [] {
      assert a + b == a;
    } else {
      assert (a + b)[..|a + b| - 1] == a + b[..|b| - 1];
      CloseCountAppend(a, b[..|b| - 1]);
    }
  }

  /** A list with no Close before its last item is within the part up to the first Close. */
  lemma {:induction false} UpToCloseContains(p: seq<Item>, items: seq<Item>)
    requires p <= items && (p != [] ==> !HasClose(p[..|p| - 1]))
    ensures p <= UpToCloseItem(items)
    decreases |items|
  {
    if items != [] && HasClose(items[..|items| - 1]) {
      if p == items {
        assert false;
      }
      UpToCloseContains(p, items[..|items| - 1]);
    }
  }

  lemma {:induction false} UpToCloseGrows(a: seq<Item>, b: seq<Item>)
    ensures UpToCloseItem(a) <= UpToCloseItem(a + b)
  {
    UpToCloseShape(a);
    var p := UpToCloseItem(a);
    assert p <= a + b;
    UpToCloseContains(p, a + b);
  }

  lemma {:induction false} UpToCloseShape(a: seq<Item>)
    ensures var p := UpToCloseItem(a);
            p != [] ==> !HasClose(p[..|p| - 1])
  {
    if a != [] && HasClose(a[..|a| - 1]) {
      UpToCloseShape(a[..|a| - 1]);
    }
  }

  lemma {:induction false} Posts(q: Send, open: bool, items: seq<Item>, more: seq<Item>)
    requires SendInv(q, open, items)
    requires forall i :: 0 <= i < |more| ==> more[i].data != []
    ensures SendInv(q.(posted := q.posted + more), open, items + more)
  {
    UpToCloseGrows(items, more);
    DataPrefix(UpToCloseItem(items), UpToCloseItem(items + more));
    assert items + more == q.popped + q.queue + (q.posted + more);
  }

  lemma {:induction false} Runs(q: Send, open: bool, items: seq<Item>)
    requires SendInv(q, open, items) && q.posted != []
    ensures var t := q.(posted := q.posted[1..], queue := q.queue + [q.posted[0]]);
            SendInv(if q.queue == [] && !q.writing then StartWrite(t) else t, open, items)
  {
    assert items == q.popped + (q.queue + [q.posted[0]]) + q.posted[1..];
    if q.queue == [] {
      assert (q.queue + [q.posted[0]])[0].data[..0] == [];
    }
  }

  /** The popped items and part of the front one lie within the part up to the first Close. */
  lemma {:induction false} WireWithin(popped: seq<Item>, front: Item, items: seq<Item>, m: nat)
    requires popped + [front] <= items && !HasClose(popped) && m <= |front.data|
    ensures Data(popped) + front.data[..m] <= Data(UpToCloseItem(items))
  {
    var p := popped + [front];
    assert p[..|p| - 1] == popped;
    UpToCloseContains(p, items);
    DataPrefix(p, UpToCloseItem(items));
    assert Data(popped) + front.data[..m] <= Data(popped) + front.data;
  }

  lemma {:induction false} Sends(q: Send, items: seq<Item>, k: nat)
    requires SendInv(q, true, items) && q.outstanding > 0 && q.sent + k <= |q.queue[0].data|
    ensures SendInv(Taken(q, k), true, items)
  {
    var d := q.queue[0].data;
    assert d[..q.sent] + d[q.sent..q.sent + k] == d[..q.sent + k];
    Associate(Data(q.popped), d[..q.sent], d[q.sent..q.sent + k]);
    assert q.popped + [q.queue[0]] <= items;
    WireWithin(q.popped, q.queue[0], items, q.sent + k);
  }

  lemma {:induction false} Pops(q: Send, open: bool, items: seq<Item>, ok: bool)
    requires SendInv(q, open, items) && q.outstanding > 0
    requires ok ==> q.sent == |q.queue[0].data|
    ensures var p := Popped(q);
            && SendInv(p.(writing := false), false, items)
            && (ok && !q.queue[0].isClose ==> SendInv(StartWrite(p), open, items))
  {
    assert items == (q.popped + [q.queue[0]]) + q.queue[1..] + q.posted;
    var front := q.popped + [q.queue[0]];
    assert front[..|front| - 1] == q.popped;
    assert q.queue[0].data[..|q.queue[0].data|] == q.queue[0].data;
    if HasClose(front) && !q.queue[0].isClose {
      var i :| 0 <= i < |front| && front[i].isClose;
      assert q.popped[i].isClose;
    }
    if |q.queue| > 1 {
      assert items[|q.popped| + 1] == q.queue[1];
    }
  }

  /** How many Close frames a change of state may enqueue: one, and only on leaving Active. */
  predicate ClosesFairly(before: SessionState, after: SessionState, es: seq<Event>) {
    && (before != Active ==> after != Active)
    && CloseCount(Items(es)) <= (if before == Active && after != Active then 1 else 0)
  }

  lemma {:induction false} FewEvents(before: SessionState, after: SessionState, es: seq<Event>)
    requires |es| <= 2 && (|es| == 2 ==> es[0] == FrameSeen)
    requires before != Active ==> after != Active
    requires |es| > 0 && es[|es| - 1].CloseQueued? ==> before == Active && after != Active
    ensures ClosesFairly(before, after, es)
  {
    if |es| == 2 {
      assert es == [FrameSeen] + [es[1]];
      ItemsAppend([FrameSeen], [es[1]]);
      ItemsOfOne(FrameSeen);
      ItemsOfOne(es[1]);
    } else if |es| == 1 {
      assert es == [es[0]];
      ItemsOfOne(es[0]);
    }
  }

  lemma {:induction false} ItemsOfOne(e: Event)
    ensures Items([e]) == ItemOf(e)
    ensures CloseCount(Items([e])) == if e.CloseQueued? then 1 else 0
  {
    assert [e][..0] == [];
    if ItemOf(e) != [] {
      assert ItemOf(e)[..0] == [];
    }
  }

  lemma {:induction false} FrameClosesFairly(s: Recv, buf: seq<byte>)
    ensures match FrameStep(s, buf)
            case More => true
            case Halt(t, es) => ClosesFairly(s.state, t.state, es)
            case Took(t, n, es) => ClosesFairly(s.state, t.state, es)
  {
    match FrameStep(s, buf)
    case More =>
    case Halt(t, es) => FewEvents(s.state, t.state, es);
    case Took(t, n, es) => FewEvents(s.state, t.state, es);
  }

  lemma {:induction false} DrainClosesFairly(s: Recv, buf: seq<byte>)
    ensures var d := Drain(FrameStep, s, buf); ClosesFairly(s.state, d.state.state, d.out)
    decreases |buf|
  {
    FrameClosesFairly(s, buf);
    match FrameStep(s, buf)
    case More =>
    case Halt(t, es) =>
    case Took(t, n, es) =>
      var d := Drain(FrameStep, t, buf[n..]);
      DrainClosesFairly(t, buf[n..]);
      ItemsAppend(es, d.out);
      CloseCountAppend(Items(es), Items(d.out));
  }

  lemma {:induction false} ReadClosesFairly(r: Reads, chunk: seq<byte>)
    requires r.log == []
    ensures var t := OnFrameData(r, chunk); ClosesFairly(r.recv.state, t.recv.state, t.log)
  {
    if !r.reading {
      FewEvents(r.recv.state, r.recv.state, []);
    } else if Trips(r, chunk) {
      var (t, es) := BufferTooLarge(r.recv);
      assert [] + es == es;
      FewEvents(r.recv.state, t.state, es);
    } else {
      DrainClosesFairly(r.recv, r.rest + chunk);
      var d := Drain(FrameStep, r.recv, r.rest + chunk);
      assert [] + d.out == d.out;
    }
  }

  /** Logging events that close fairly keeps the invariant. */
  lemma {:induction false} Happens(s: Session, r: (Recv, seq<Event>))
    requires Inv(s) && ClosesFairly(s.recv.state, r.0.state, r.1)
    requires s.recv.state == Closed ==> r.0.state == Closed
    ensures Inv(Happen(s, r))
  {
    ItemsAppend(s.log, r.1);
    CloseCountAppend(Items(s.log), Items(r.1));
    ItemsNonEmpty(r.1);
    Posts(s.send, s.recv.state != Closed, Items(s.log), Items(r.1));
  }

  lemma {:induction false} StaysClosed(s: Recv, buf: seq<byte>)
    requires s.state == Closed
    ensures Drain(FrameStep, s, buf).state.state == Closed
    decreases |buf|
  {
    match FrameStep(s, buf)
    case More =>
    case Halt(t, es) =>
    case Took(t, n, es) => StaysClosed(t, buf[n..]);
  }

  lemma {:induction false} AbsorbKeeps(s: Session, r: Reads, now: nat)
    requires Inv(s) && ClosesFairly(s.recv.state, r.recv.state, r.log)
    requires s.recv.state == Closed ==> r.recv.state == Closed
    ensures Inv(Absorb(s, r, now))
  {
    Happens(s, (r.recv, r.log));
  }

  lemma {:induction false} ReadKeeps(s: Session, chunk: seq<byte>, now: nat)
    requires Inv(s) && s.reading
    ensures Inv(OnRead(s, chunk, now))
  {
    var r0 := Reads(s.recv, s.rest, [], true);
    ReadClosesFairly(r0, chunk);
    if s.recv.state == Closed {
      StaysClosed(s.recv, s.rest + chunk);
    }
    AbsorbKeeps(s, OnFrameData(r0, chunk), now);
  }

  lemma {:induction false} OpenedKeeps(opts: Options, now: nat, leftover: seq<byte>)
    ensures Inv(Opened(opts, now, leftover))
  {
    var r := FirstRead(Fresh(opts), leftover);
    DrainClosesFairly(Fresh(opts), leftover);
    assert [] + leftover == leftover;
    var d := Drain(FrameStep, Fresh(opts), leftover);
    assert [] + d.out == d.out;
    hide Drain, FrameStep, ClosesFairly;
    AbsorbKeeps(Upgraded(opts, now), r, now);
  }

  lemma {:induction false} DropKeeps(s: Session, q: Send, code: nat)
    requires Inv(s) && SendInv(q, false, Items(s.log))
    ensures Inv(Happen(s.(send := q), Drop(s.recv, code)))
  {
    var t := s.(send := q, recv := s.recv.(state := Closed));
    var (r, es) := Drop(s.recv, code);
    FewEvents(Closed, Closed, es);
    Happens(t, (r, es));
    assert Happen(t, (r, es)) == Happen(s.(send := q), (r, es));
  }

  lemma {:induction false} WriteDoneKeeps(s: Session, ok: bool)
    requires Inv(s)
    ensures Inv(WriteDone(s, ok))
  {
    var q := s.send;
    if q.outstanding > 0 && (ok ==> q.sent == |q.queue[0].data|) {
      Pops(q, s.recv.state != Closed, Items(s.log), ok);
      var p := Popped(q).(writing := false);
      if !ok {
        DropKeeps(s, p, ABNORMAL_CLOSURE);
      } else if q.queue[0].isClose {
        DropKeeps(s, p, NORMAL_CLOSURE);
      }
    }
  }

  lemma {:induction false} SendKeeps(s: Session, op: OpCode, payload: seq<byte>)
    requires Inv(s) && op in {Text, Binary, Ping}
    ensures Inv(SendFrame(s, op, payload))
  {
    FewEvents(s.recv.state, s.recv.state, [Queued(op, payload)]);
    Happens(s, (s.recv, [Queued(op, payload)]));
  }

  lemma {:induction false} CloseKeeps(s: Session, code: nat, reason: string)
    requires Inv(s)
    ensures Inv(CloseSession(s, code, reason))
  {
    var (r, es) := AnnounceClose(s.recv, code, reason);
    FewEvents(s.recv.state, r.state, es);
    Happens(s, (r, es));
  }

  lemma {:induction false} StepKeeps(s: Session, a: Action)
    requires Inv(s)
    ensures Inv(Step(s, a))
  {
    match a
    case Read(chunk, now) => if s.reading { ReadKeeps(s, chunk, now); }
    case ReadError => ReadErrorKeeps(s);
    case SendData(op, payload) => if op in {Text, Binary, Ping} { SendKeeps(s, op, payload); }
    case CloseCall(code, reason) => CloseKeeps(s, code, reason);
    case StrandRuns => RunPostedKeeps(s);
    case Transmits(k) => TransmitKeeps(s, k);
    case WriteEnds(ok) => WriteDoneKeeps(s, ok);
    case Timer(now) => TimerKeeps(s, now);
  }

  lemma {:induction false} ReadErrorKeeps(s: Session)
    requires Inv(s)
    ensures Inv(OnReadError(s))
  {
    WeakenOpen(s);
    DropKeeps(s, s.send, ABNORMAL_CLOSURE);
  }

  lemma {:induction false} RunPostedKeeps(s: Session)
    requires Inv(s)
    ensures Inv(RunPosted(s))
  {
    if s.send.posted != [] {
      Runs(s.send, s.recv.state != Closed, Items(s.log));
    }
  }

  lemma {:induction false} TransmitKeeps(s: Session, k: nat)
    requires Inv(s)
    ensures Inv(Transmit(s, k))
  {
    if s.send.outstanding > 0 && s.recv.state != Closed && s.send.sent + k <= |s.send.queue[0].data| {
      Sends(s.send, Items(s.log), k);
    }
  }

  lemma {:induction false} WeakenOpen(s: Session)
    requires Inv(s)
    ensures SendInv(s.send, false, Items(s.log))
  {
  }

  lemma {:induction false} TimerKeeps(s: Session, now: nat)
    requires Inv(s)
    ensures Inv(OnTimer(s, now))
  {
    WeakenOpen(s);
    DropKeeps(s, s.send, ABNORMAL_CLOSURE);
    SendKeeps(s.(awaitingPong := true), Ping, []);
  }

  lemma {:induction false} RunKeeps(opts: Options, now: nat, leftover: seq<byte>, actions: seq<Action>)
    ensures Inv(Run(Opened(opts, now, leftover), actions))
    decreases |actions|
  {
    if actions == [] {
      OpenedKeeps(opts, now, leftover);
    } else {
      RunKeeps(opts, now, leftover, actions[..|actions| - 1]);
      StepKeeps(Run(Opened(opts, now, leftover), actions[..|actions| - 1]), actions[|actions| - 1]);
    }
  }

  /** Safety of the send path over every interleaving of reads, sends, closes, strand turns, network
    * progress, write completions and timers. */
  lemma {:induction false} SendPathSafe(opts: Options, now: nat, leftover: seq<byte>, actions: seq<Action>)
    ensures var s := Run(Opened(opts, now, leftover), actions);
            var enqueued := Items(s.log);
            // at most one write is in flight, and while the socket is open one is in flight exactly if the queue is not empty
            && s.send.outstanding <= 1
            && (s.recv.state != Closed ==> (s.send.writing <==> s.send.queue != []))
            && (s.send.writing <==> s.send.outstanding == 1)
            // the wire carries the frames in the order they were enqueued
            && s.send.wire <= Data(enqueued)
            // at most one Close frame is enqueued, none while active, and nothing follows it on the wire
            && CloseCount(enqueued) <= 1
            && (s.recv.state == Active ==> CloseCount(enqueued) == 0)
            && s.send.wire <= Data(UpToCloseItem(enqueued))
  {
    RunKeeps(opts, now, leftover, actions);
    var s := Run(Opened(opts, now, leftover), actions);
    DataPrefix(UpToCloseItem(Items(s.log)), Items(s.log));
  }

  // ---- heartbeat ---------------------------------------------------------------------------------

  /** The time of the last action that brought a whole frame, or of the opening. */
  ghost function LastFrameAt(opts: Options, start: nat, leftover: seq<byte>, actions: seq<Action>): nat {
    if actions == [] then start
    else
      var before := actions[..|actions| - 1];
      var a := actions[|actions| - 1];
      var s := Run(Opened(opts, start, leftover), before);
      if a.Read? && s.reading && FrameSeen in OnFrameData(Reads(s.recv, s.rest, [], true), a.chunk).log then a.now
      else LastFrameAt(opts, start, leftover, before)
  }

  /** A ping has been enqueued after the last whole frame. */
  ghost predicate PingSinceFrame(log: seq<Event>) {
    exists i :: 0 <= i < |log| && log[i] == Queued(Ping, []) && FrameSeen !in log[i + 1..]
  }

  lemma {:induction false} PingStays(log: seq<Event>, es: seq<Event>)
    requires PingSinceFrame(log) && FrameSeen !in es
    ensures PingSinceFrame(log + es)
  {
    var i :| 0 <= i < |log| && log[i] == Queued(Ping, []) && FrameSeen !in log[i + 1..];
    assert (log + es)[i + 1..] == log[i + 1..] + es;
    assert (log + es)[i] == Queued(Ping, []);
  }

  /** What every step keeps of the heartbeat. */
  ghost predicate BeatInv(s: Session) {
    s.awaitingPong ==> PingSinceFrame(s.log)
  }

  lemma {:induction false} StepBeats(s: Session, a: Action)
    requires BeatInv(s)
    ensures BeatInv(Step(s, a))
  {
    var t := Step(s, a);
    if t.awaitingPong {
      if a.Timer? && !s.awaitingPong {
        assert t.log == s.log + [Queued(Ping, [])];
        assert t.log[|s.log|] == Queued(Ping, []) && t.log[|s.log| + 1..] == [];
      } else {
        var es := t.log[|s.log|..];
        StepLogs(s, a);
        PingStays(s.log, es);
      }
    }
  }

  /** A step only adds to the log; while the flag stays up no whole frame is among what it adds. */
  lemma {:induction false} StepLogs(s: Session, a: Action)
    ensures var t := Step(s, a);
            && s.log <= t.log && t.log == s.log + t.log[|s.log|..]
            && (t.awaitingPong && (s.awaitingPong || !a.Timer?) ==> FrameSeen !in t.log[|s.log|..])
  {
    if a.Read? && s.reading {
      var r := OnFrameData(Reads(s.recv, s.rest, [], true), a.chunk);
      assert Step(s, a).log[|s.log|..] == r.log;
    }
  }

  lemma {:induction false} RunBeats(opts: Options, start: nat, leftover: seq<byte>, actions: seq<Action>)
    ensures BeatInv(Run(Opened(opts, start, leftover), actions))
    ensures Run(Opened(opts, start, leftover), actions).lastActivity == LastFrameAt(opts, start, leftover, actions)
    ensures Run(Opened(opts, start, leftover), actions).recv.opts == opts
    decreases |actions|
  {
    if actions == [] {
      DrainKeepsOptions(Fresh(opts), [] + leftover);
    } else {
      var before, a := actions[..|actions| - 1], actions[|actions| - 1];
      RunBeats(opts, start, leftover, before);
      StepBeats(Run(Opened(opts, start, leftover), before), a);
      StepKeepsOptions(Run(Opened(opts, start, leftover), before), a);
      StepHears(Run(Opened(opts, start, leftover), before), a);
    }
  }

  lemma {:induction false} StepHears(s: Session, a: Action)
    ensures Step(s, a).lastActivity
         == if a.Read? && s.reading && FrameSeen in OnFrameData(Reads(s.recv, s.rest, [], true), a.chunk).log then a.now
            else s.lastActivity
  {
  }

  lemma {:induction false} DrainKeepsOptions(s: Recv, buf: seq<byte>)
    ensures Drain(FrameStep, s, buf).state.opts == s.opts
    decreases |buf|
  {
    match FrameStep(s, buf)
    case More =>
    case Halt(t, es) =>
    case Took(t, n, es) => DrainKeepsOptions(t, buf[n..]);
  }

  lemma {:induction false} StepKeepsOptions(s: Session, a: Action)
    ensures Step(s, a).recv.opts == s.recv.opts
  {
    match a
    case Read(chunk, now) => ReadKeepsOptions(Reads(s.recv, s.rest, [], s.reading), chunk);
    case _ =>
  }

  lemma {:induction false} ReadKeepsOptions(r: Reads, chunk: seq<byte>)
    ensures OnFrameData(r, chunk).recv.opts == r.recv.opts
  {
    if r.reading && !Trips(r, chunk) {
      DrainKeepsOptions(r.recv, r.rest + chunk);
    }
  }

  /** The heartbeat closes a session only after a full timeout without a whole frame, and only if it has
    * sent a ping since the last one. */
  lemma {:induction false} HeartbeatClosesOnlySilentPeers(opts: Options, start: nat, leftover: seq<byte>, actions: seq<Action>, now: nat)
    ensures var s := Run(Opened(opts, start, leftover), actions);
            s.recv.state == Active && Step(s, Timer(now)).recv.state != Active ==>
              && now - LastFrameAt(opts, start, leftover, actions) >= opts.heartbeatTimeout
              && PingSinceFrame(s.log)
  {
    hide Run, Opened, LastFrameAt, Drain, FrameStep, PingSinceFrame;
    RunBeats(opts, start, leftover, actions);
  }

  /** A run on an ideal clock: the time of its latest step, and when the heartbeat timer is due. */
  datatype Clock = Clock(now: nat, due: nat)

  function Tick(c: Clock, a: Action, interval: nat): Clock {
    match a
    case Read(_, now) => c.(now := now)
    case Timer(now) => Clock(now, now + interval)
    case _ => c
  }

  function ClockAfter(opts: Options, start: nat, actions: seq<Action>): Clock {
    if actions == [] then Clock(start, start + opts.heartbeatInterval)
    else Tick(ClockAfter(opts, start, actions[..|actions| - 1]), actions[|actions| - 1], opts.heartbeatInterval)
  }

  /** Time does not run backwards, and the timer fires exactly when it is due. */
  predicate OnTime(c: Clock, a: Action) {
    match a
    case Read(_, now) => c.now <= now <= c.due
    case Timer(now) => now == c.due
    case _ => true
  }

  predicate Ideal(opts: Options, start: nat, actions: seq<Action>) {
    actions == []
    || (Ideal(opts, start, actions[..|actions| - 1])
        && OnTime(ClockAfter(opts, start, actions[..|actions| - 1]), actions[|actions| - 1]))
  }

  function Max(x: nat, y: nat): nat {
    if x < y then y else x
  }

  /** What an active session and an ideal clock keep. */
  predicate Timely(s: Session, c: Clock) {
    var o := s.recv.opts;
    s.recv.state == Active ==>
      && s.lastActivity <= c.now <= c.due <= c.now + o.heartbeatInterval
      && c.due < s.lastActivity + (if s.awaitingPong then Max(o.heartbeatTimeout, o.heartbeatInterval) + 2 * o.heartbeatInterval
                                   else 2 * o.heartbeatInterval)
  }

  lemma {:induction false} StepTimely(s: Session, c: Clock, a: Action)
    requires s.recv.opts.heartbeatInterval > 0
    requires Timely(s, c) && OnTime(c, a)
    ensures Timely(Step(s, a), Tick(c, a, s.recv.opts.heartbeatInterval))
  {
    StepKeepsOptions(s, a);
    if a.Read? && s.reading && s.recv.state != Active {
      var r := OnFrameData(Reads(s.recv, s.rest, [], true), a.chunk);
      ReadClosesFairly(Reads(s.recv, s.rest, [], true), a.chunk);
    }
  }

  lemma {:induction false} RunTimely(opts: Options, start: nat, leftover: seq<byte>, actions: seq<Action>)
    requires opts.heartbeatInterval > 0 && Ideal(opts, start, actions)
    ensures Timely(Run(Opened(opts, start, leftover), actions), ClockAfter(opts, start, actions))
    decreases |actions|
  {
    if actions == [] {
      RunBeats(opts, start, leftover, actions);
    } else {
      var before, a := actions[..|actions| - 1], actions[|actions| - 1];
      RunTimely(opts, start, leftover, before);
      RunBeats(opts, start, leftover, before);
      StepTimely(Run(Opened(opts, start, leftover), before), ClockAfter(opts, start, before), a);
    }
  }

  /** With ideal timers a session that is still active heard a whole frame recently: its next timer is due
    * within max(timeout, interval) + 2 * interval of the last one, so a silent peer is dropped before then. */
  lemma {:induction false} SilentPeerIsDropped(opts: Options, start: nat, leftover: seq<byte>, actions: seq<Action>)
    requires opts.heartbeatInterval > 0 && Ideal(opts, start, actions)
    ensures var s := Run(Opened(opts, start, leftover), actions);
            s.recv.state == Active ==>
              ClockAfter(opts, start, actions).due
              < LastFrameAt(opts, start, leftover, actions) + Max(opts.heartbeatTimeout, opts.heartbeatInterval) + 2 * opts.heartbeatInterval
  {
    RunTimely(opts, start, leftover, actions);
    RunBeats(opts, start, leftover, actions);
  }
}
