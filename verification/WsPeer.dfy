/**
  * What the peer reads of a session of src/server/ws/ws_session.cpp: the octets on the wire, cut into frames by
  * section 5.2 of RFC 6455, are the frames that the session has announced.
  */
module WsPeer {
  import opened Bytes
  import opened WsFrame
  import opened WsReceive
  import opened WsSession
  import opened WsWire

  // ---- reading frames off the wire -------------------------------------------------------------------------

  datatype PeerFrame = PeerFrame(fin: bool, opcode: nat, payload: seq<byte>)

  /** The frame at the front of the wire and how many octets it takes; a server does not mask. */
  function PeerRead(wire: seq<byte>): (r: Option<(PeerFrame, nat)>)
    ensures r.Some? ==> 2 <= r.value.1 <= |wire|
  {
    if |wire| < 2 || wire[1] >= 128 || wire[0] / 16 % 8 != 0 || |wire| < HeaderLength(wire) then None
    else
      var h, n := HeaderLength(wire), PayloadLength(wire);
      if |wire| < h + n then None else Some((PeerFrame(wire[0] >= 128, wire[0] % 16, wire[h..h + n]), h + n))
  }

  function PeerFrames(wire: seq<byte>): seq<PeerFrame> {
    match PeerRead(wire)
    case None => []
    case Some((f, n)) => [f] + PeerFrames(wire[n..])
  }

  const WIDTH64: nat := 0x1_0000_0000_0000_0000

  /** Every frame the encoder writes is read as what it is, whatever follows. */
  lemma {:induction false} ServerFrameRead(fin: bool, opcode: OpCode, payload: seq<byte>, rest: seq<byte>)
    requires |payload| < WIDTH64
    ensures var d := ServerFrame(fin, opcode, payload);
            PeerRead(d + rest) == Some((PeerFrame(fin, Numbered(opcode), payload), |d|))
  {
    var len, ext := |payload|, ExtBytes(|payload|);
    var head := HeaderBytes(fin, opcode, false, len, 0);
    var d := head + payload + rest;
    Associate(head, payload, rest);
    HeaderBytesLayout(fin, opcode, false, len, 0, payload + rest);
    LengthOnWire(d, len);
    hide HeaderBytes, BigEndian, PayloadLength;
    assert d[|head|..|head| + len] == payload;
  }

  lemma {:induction false} LengthOnWire(d: seq<byte>, len: nat)
    requires len < WIDTH64 && |d| >= 2 + ExtBytes(len)
    requires d[1] == LengthByte(false, len) && d[2..2 + ExtBytes(len)] == BigEndian(len, ExtBytes(len))
    ensures HeaderLength(d) == 2 + ExtBytes(len) && PayloadLength(d) == len
  {
    var ext := ExtBytes(len);
    if ext > 0 {
      assert Pow256(2) == 65536 && Pow256(8) == WIDTH64;
      BigEndianRoundTrip(len, ext);
      if ext == 2 {
        TwoDigits(d);
      } else {
        EightDigits(d);
      }
    }
    hide BigEndian, FromBigEndian;
  }

  /** A frame that is not whole yet is not read. */
  lemma {:induction false} PartNotRead(d: seq<byte>, m: nat)
    requires PeerRead(d).Some? && PeerRead(d).value.1 == |d| && m < |d|
    ensures PeerRead(d[..m]) == None
  {
    if m >= 2 {
      assert d[..m][0] == d[0] && d[..m][1] == d[1];
      if m >= HeaderLength(d) {
        assert forall i :: 2 <= i < m ==> d[..m][i] == d[i];
      }
    }
  }

  // ---- what a session announces ----------------------------------------------------------------------------

  /** The frames an event stands for: a message, ping or pong with its payload; a Close with its status, high octet first,
    * and its reason. */
  function Announced(e: Event): (r: seq<PeerFrame>)
    ensures |r| <= 1
  {
    match e
    case Queued(op, payload) => [PeerFrame(true, Numbered(op), payload)]
    case CloseQueued(code, reason) =>
      [PeerFrame(true, 8, [code / 256 % 256, code % 256] + seq(|reason|, i requires 0 <= i < |reason| => reason[i] as int % 256))]
    case _ => []
  }

  function AllAnnounced(log: seq<Event>): seq<PeerFrame> {
    if log == [] then [] else AllAnnounced(log[..|log| - 1]) + Announced(log[|log| - 1])
  }

  /** Lengths fit the 64-bit length field. */
  predicate Sized(e: Event) {
    && (e.Queued? ==> |e.payload| < WIDTH64)
    && (e.CloseQueued? ==> |e.reason| + 2 < WIDTH64)
  }

  /** The item is read as the frame, whatever follows, and not before it is whole. */
  ghost predicate Carries(item: Item, f: PeerFrame) {
    && item.data != []
    && (forall rest :: PeerRead(item.data + rest) == Some((f, |item.data|)))
    && (forall m: nat {:trigger item.data[..m]} :: m < |item.data| ==> PeerRead(item.data[..m]) == None)
  }

  lemma {:induction false} FrameCarries(item: Item, op: OpCode, payload: seq<byte>)
    requires item.data == ServerFrame(true, op, payload) && |payload| < WIDTH64
    ensures Carries(item, PeerFrame(true, Numbered(op), payload))
  {
    var d := item.data;
    forall rest ensures PeerRead(d + rest) == Some((PeerFrame(true, Numbered(op), payload), |d|)) {
      ServerFrameRead(true, op, payload, rest);
    }
    ServerFrameRead(true, op, payload, []);
    assert d + [] == d;
    hide PeerRead, ServerFrame;
    forall m: nat | m < |d| ensures PeerRead(d[..m]) == None {
      PartNotRead(d, m);
    }
  }

  /** The item of an event carries the frame it announces. */
  lemma {:induction false} ItemCarries(e: Event)
    requires Sized(e)
    ensures |ItemOf(e)| == |Announced(e)|
    ensures ItemOf(e) != [] ==> Carries(ItemOf(e)[0], Announced(e)[0])
  {
    match e
    case Queued(op, payload) => FrameCarries(ItemOf(e)[0], op, payload);
    case CloseQueued(code, reason) =>
      assert Announced(e)[0].payload == CloseBody(code, reason);
      FrameCarries(ItemOf(e)[0], Close, CloseBody(code, reason));
    case _ =>
  }

  ghost predicate AllCarry(items: seq<Item>, frames: seq<PeerFrame>) {
    |items| == |frames| && forall i :: 0 <= i < |items| ==> Carries(items[i], frames[i])
  }

  lemma {:induction false} LogCarries(log: seq<Event>)
    requires forall e :: e in log ==> Sized(e)
    ensures AllCarry(Items(log), AllAnnounced(log))
  {
    if log != [] {
      hide Carries, Announced, ItemOf, Sized;
      LogCarries(log[..|log| - 1]);
      ItemCarries(log[|log| - 1]);
    }
  }

  // ---- the wire --------------------------------------------------------------------------------------------

  /** Whole items, and then something. */
  lemma {:induction false} ReadThrough(items: seq<Item>, frames: seq<PeerFrame>, n: nat, tail: seq<byte>)
    requires AllCarry(items, frames) && n <= |items|
    ensures PeerFrames(Data(items[..n]) + tail) == frames[..n] + PeerFrames(tail)
    decreases n
  {
    if n == 0 {
      assert Data(items[..0]) + tail == tail;
    } else {
      var d := items[n - 1].data;
      assert Carries(items[n - 1], frames[n - 1]);
      assert items[..n][..n - 1] == items[..n - 1];
      Associate(Data(items[..n - 1]), d, tail);
      ReadThrough(items, frames, n - 1, d + tail);
      assert PeerRead(d + tail) == Some((frames[n - 1], |d|));
      assert (d + tail)[|d|..] == tail;
      assert frames[..n] == frames[..n - 1] + [frames[n - 1]];
      hide PeerRead, Carries, Data;
      Associate(frames[..n - 1], [frames[n - 1]], PeerFrames(tail));
    }
  }

  /** Whole items and the beginning of the next one. */
  lemma {:induction false} ReadUpTo(items: seq<Item>, frames: seq<PeerFrame>, n: nat, m: nat)
    requires AllCarry(items, frames) && n < |items| && m <= |items[n].data|
    ensures PeerFrames(Data(items[..n]) + items[n].data[..m]) == frames[..if m == |items[n].data| then n + 1 else n]
  {
    var part := items[n].data[..m];
    ReadThrough(items, frames, n, part);
    assert Carries(items[n], frames[n]);
    hide AllCarry, Data;
    if m == |items[n].data| {
      var none: seq<byte> := [];
      assert part == items[n].data == items[n].data + none;
      assert PeerRead(part) == Some((frames[n], |part|)) && part[|part|..] == none;
      assert PeerFrames(none) == [];
      assert PeerFrames(part) == [frames[n]];
      assert frames[..n] + [frames[n]] == frames[..n + 1];
    } else {
      assert PeerFrames(part) == [];
      assert frames[..n] + [] == frames[..n];
    }
  }

  /** Where the wire stands in the items. */
  lemma {:induction false} WhereItStands(items: seq<Item>, wire: seq<byte>) returns (n: nat, m: nat)
    requires wire <= Data(items)
    ensures if n < |items| then m <= |items[n].data| && wire == Data(items[..n]) + items[n].data[..m]
            else n == |items| && wire == Data(items)
  {
    if items == [] {
      return 0, 0;
    }
    var before, last := items[..|items| - 1], items[|items| - 1];
    if |wire| <= |Data(before)| {
      assert wire <= Data(before);
      n, m := WhereItStands(before, wire);
      if n < |before| {
        assert items[..n] == before[..n];
      } else {
        m := 0;
        assert Data(before) + last.data[..0] == Data(before);
      }
    } else {
      n, m := |items| - 1, |wire| - |Data(before)|;
      assert wire == Data(before) + last.data[..m];
    }
  }

  lemma {:induction false} AnyPartRead(items: seq<Item>, frames: seq<PeerFrame>, wire: seq<byte>)
    requires AllCarry(items, frames) && wire <= Data(items)
    ensures PeerFrames(wire) <= frames
  {
    var n, m := WhereItStands(items, wire);
    if n < |items| {
      ReadUpTo(items, frames, n, m);
    } else {
      ReadThrough(items, frames, n, []);
      assert items[..n] == items && Data(items) + [] == Data(items) && frames[..n] + [] == frames;
      var none: seq<byte> := [];
      assert PeerFrames(none) == [];
    }
  }

  /** Over every interleaving the peer reads the announced frames, in order, from the first: as many as have been written
    * whole. With the socket open these are the frames whose write has ended, and the one in flight if nothing of it is
    * missing. */
  lemma {:induction false} PeerReadsLog(opts: Options, now: nat, leftover: seq<byte>, actions: seq<Action>)
    requires forall e :: e in Run(Opened(opts, now, leftover), actions).log ==> Sized(e)
    ensures var s := Run(Opened(opts, now, leftover), actions);
            && PeerFrames(s.send.wire) <= AllAnnounced(s.log)
            && (s.recv.state != Closed ==>
                  |PeerFrames(s.send.wire)| == |s.send.popped|
                    + if s.send.writing && s.send.queue != [] && s.send.sent == |s.send.queue[0].data| then 1 else 0)
  {
    RunKeeps(opts, now, leftover, actions);
    var s := Run(Opened(opts, now, leftover), actions);
    LogCarries(s.log);
    DataPrefix(UpToCloseItem(Items(s.log)), Items(s.log));
    hide Run, Opened;
    StateRead(s);
  }

  lemma {:induction false} StateRead(s: Session)
    requires Inv(s) && AllCarry(Items(s.log), AllAnnounced(s.log)) && s.send.wire <= Data(Items(s.log))
    ensures PeerFrames(s.send.wire) <= AllAnnounced(s.log)
    ensures s.recv.state != Closed ==>
              |PeerFrames(s.send.wire)| == |s.send.popped|
                + if s.send.writing && s.send.queue != [] && s.send.sent == |s.send.queue[0].data| then 1 else 0
  {
    hide AllCarry, Items, AllAnnounced, PeerFrames, PeerRead, HasClose, UpToCloseItem, CloseCount, Data;
    var items, frames, q := Items(s.log), AllAnnounced(s.log), s.send;
    AnyPartRead(items, frames, q.wire);
    if s.recv.state != Closed {
      var n := |q.popped|;
      assert items[..n] == q.popped;
      SameSize(items, frames);
      if q.writing {
        assert items[n] == q.queue[0];
        ReadUpTo(items, frames, n, q.sent);
      } else {
        ReadThrough(items, frames, n, []);
        NothingPeered();
        assert frames[..n] + [] == frames[..n] && Data(q.popped) + [] == Data(q.popped);
      }
    }
  }

  lemma {:induction false} SameSize(items: seq<Item>, frames: seq<PeerFrame>)
    requires AllCarry(items, frames)
    ensures |items| == |frames|
  {
  }

  lemma {:induction false} NothingPeered()
    ensures PeerFrames([]) == []
  {
  }

  // ---- what the steps announce -----------------------------------------------------------------------------

  /** What each step but a read adds to the log, with the status codes of section 7.4.1 and of abnormal ends. */
  lemma {:induction false} StepAnnounces(s: Session, a: Action)
    ensures var log := Step(s, a).log;
            match a
            case SendData(op, payload) => log == s.log + if op in {Text, Binary, Ping} then [Queued(op, payload)] else []
            case CloseCall(code, reason) => log == s.log + if s.recv.state == Active then [CloseQueued(code, reason)] else []
            case ReadError => log == s.log + if s.reading then [Shutdown(1006)] else []
            case WriteEnds(ok) =>
              var q := s.send;
              if q.outstanding == 0 || q.queue == [] then log == s.log
              else if !ok then log == s.log + [Shutdown(1006)]
              else log == s.log + if q.sent == |q.queue[0].data| && q.queue[0].isClose then [Shutdown(1000)] else []
            case Timer(now) =>
              var idle := now - s.lastActivity;
              log == s.log +
                if s.recv.state != Active then []
                else if s.awaitingPong then if idle >= s.recv.opts.heartbeatTimeout then [Shutdown(1006)] else []
                else if idle >= s.recv.opts.heartbeatInterval then [Queued(Ping, [])] else []
            case StrandRuns => log == s.log
            case Transmits(_) => log == s.log
            case Read(_, _) => s.log <= log
  {
    hide ItemOf, Items, OnFrameData;
    assert s.log + [] == s.log;
  }
}
