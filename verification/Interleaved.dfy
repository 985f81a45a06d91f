/**
  * RTP interleaved with RTSP on one TCP connection (section 10.12 of RFC 2326): `AsioTcpRtpSender::Send`
  * of src/rtp/rtpsender.cpp writes the frames, `ProcessInterleavedData` of src/rtsp/rtspsession.cpp
  * takes them apart again.
  */
module Interleaved {
  import opened Bytes
  import opened Incremental

  // ---- frames ------------------------------------------------------------------------------------------

  const DOLLAR: byte := 36

  /** Who gets a frame. */
  datatype Handler = Rtp | Rtcp | Nobody

  /** The channels agreed on in SETUP. */
  datatype Channels = Channels(rtp: int, rtcp: int) {
    function HandlerOf(channel: byte): Handler {
      if channel == rtcp then Rtcp else if channel == rtp then Rtp else Nobody
    }
  }

  /** What the session does with its input: a frame goes to its handler, text is handled as a request. */
  datatype Event =
    | Frame(channel: byte, payload: seq<byte>, handler: Handler)
    | Request(text: seq<byte>)

  /** The frame with a 16-bit length field; a longer payload has its length cut off. */
  function FrameBytes(channel: byte, payload: seq<byte>): (r: seq<byte>)
    ensures |r| == 4 + |payload|
  {
    [DOLLAR, channel] + Be16(|payload|) + payload
  }

  function EventBytes(e: Event): seq<byte> {
    match e
    case Frame(channel, payload, _) => FrameBytes(channel, payload)
    case Request(text) => text
  }

  /** The first byte of OPTIONS, DESCRIBE, SETUP, PLAY or PAUSE, or TEARDOWN. */
  predicate LooksLikeRequest(buf: seq<byte>)
    requires buf != []
  {
    buf[0] in {79, 68, 83, 80, 84}
  }

  /** One look at the front of the read buffer. It halts where the source clears the buffer. */
  function FrameStep(cs: Channels, buf: seq<byte>): Step<(), Event> {
    if |buf| < 4 then More
    else if buf[0] != DOLLAR then Halt((), [])
    else
      var length := FromBe16(buf[2], buf[3]);
      if |buf| < 4 + length then More
      else Took((), 4 + length, [Frame(buf[1], buf[4..4 + length], cs.HandlerOf(buf[1]))])
  }

  ghost function Steps(cs: Channels): Stepper<(), Event> {
    (s: (), buf: seq<byte>) => FrameStep(cs, buf)
  }

  /** What becomes of a buffer that does not start with a frame. */
  function Cleared(buf: seq<byte>): seq<Event> {
    if buf != [] && LooksLikeRequest(buf) then [Request(buf)] else []
  }

  // ---- sending -----------------------------------------------------------------------------------------

  /** `AsioTcpRtpSender::Send` of a packet whose buffer `data` starts with four bytes of room; the socket
    * takes at most `accepted` bytes before it fails. Returns what went onto the wire and the result. */
  method Send(channel: byte, data: Option<seq<byte>>, accepted: nat) returns (wire: seq<byte>, result: int)
    ensures data.None? || |data.value| <= 4 ==> wire == [] && result == -1
    ensures data.Some? && |data.value| > 4 ==>
              var frame := FrameBytes(channel, data.value[4..]);
              if |frame| <= accepted then wire == frame && result == 0 else wire == frame[..accepted] && result == -1
  {
    if data.None? || |data.value| <= 4 {
      return [], -1;
    }
    var payloadSize := |data.value| - 4;
    Be16Bytes(payloadSize);
    var buffer: seq<byte> := [DOLLAR, channel] + [(payloadSize % 65536) / 256, payloadSize % 256] + data.value[4..];
    if |buffer| > accepted {
      return buffer[..accepted], -1;
    }
    return buffer, 0;
  }

  // ---- receiving ---------------------------------------------------------------------------------------

  /** The buffer holds less than one whole frame. */
  predicate Incomplete(buf: seq<byte>) {
    |buf| < 4 || (buf[0] == DOLLAR && |buf| < 4 + FromBe16(buf[2], buf[3]))
  }

  class Session {
    var channels: Channels
    var readBuffer: seq<byte>

    constructor (channels: Channels)
      ensures this.channels == channels && readBuffer == []
    {
      this.channels, readBuffer := channels, [];
    }

    /** `OnBytes`; `streaming` if the session is ready or playing. */
    method OnBytes(data: seq<byte>, streaming: bool) returns (events: seq<Event>)
      modifies this`readBuffer
      ensures streaming ==>
                var p := Pass(Steps(channels), Cleared, (), old(readBuffer) + data);
                events == p.out && readBuffer == p.rest && Incomplete(readBuffer)
      ensures !streaming ==> events == [Request(old(readBuffer) + data)] && readBuffer == []
    {
      readBuffer := readBuffer + data;
      if streaming {
        events := ProcessInterleavedData();
      } else {
        events := [Request(readBuffer)];
        readBuffer := [];
      }
    }

    /** The loop: every round takes at least four bytes off the buffer. */
    method ProcessInterleavedData() returns (events: seq<Event>)
      modifies this`readBuffer
      ensures var p := Pass(Steps(channels), Cleared, (), old(readBuffer));
              events == p.out && readBuffer == p.rest
      ensures Incomplete(readBuffer)
    {
      events := [];
      hide Pass, Drain;
      ghost var p := Pass(Steps(channels), Cleared, (), readBuffer);
      while |readBuffer| >= 4
        invariant var q := Pass(Steps(channels), Cleared, (), readBuffer); p == q.(out := events + q.out)
        decreases |readBuffer|
      {
        PassAfter(channels, readBuffer);
        if readBuffer[0] == DOLLAR {
          var channel := readBuffer[1];
          var length := FromBe16(readBuffer[2], readBuffer[3]);
          var frameSize := 4 + length;
          if |readBuffer| < frameSize {
            break;
          }
          var handler := if channel == channels.rtcp then Rtcp else if channel == channels.rtp then Rtp else Nobody;
          events := events + [Frame(channel, readBuffer[4..frameSize], handler)];
          readBuffer := readBuffer[frameSize..];
        } else {
          if LooksLikeRequest(readBuffer) {
            events := events + [Request(readBuffer)];
          }
          readBuffer := [];
          break;
        }
      }
      PassAfter(channels, readBuffer);
    }
  }

  /** A playing session given one read after the other. */
  method ReadAll(session: Session, chunks: seq<seq<byte>>) returns (events: seq<Event>)
    modifies session`readBuffer
    ensures var p := Passes(Steps(session.channels), Cleared, (), old(session.readBuffer), chunks);
            events == p.out && session.readBuffer == p.rest
    decreases |chunks|
  {
    ghost var steps, buf := Steps(session.channels), session.readBuffer;
    if chunks == [] {
      assert Passes(steps, Cleared, (), buf, chunks) == Reader((), buf, [], false);
      return [];
    }
    var first := session.OnBytes(chunks[0], true);
    ghost var p := Pass(steps, Cleared, (), buf + chunks[0]);
    var others := ReadAll(session, chunks[1..]);
    ghost var r := Passes(steps, Cleared, (), p.rest, chunks[1..]);
    assert p.state == ();
    assert Passes(steps, Cleared, (), buf, chunks) == r.(out := p.out + r.out);
    return first + others;
  }

  lemma {:induction false} PassAfter(cs: Channels, buf: seq<byte>)
    ensures var st, p := FrameStep(cs, buf), Pass(Steps(cs), Cleared, (), buf);
            match st
            case More => p == Reader((), buf, [], false)
            case Halt(_, _) => p == Reader((), [], Cleared(buf), false)
            case Took(_, n, es) => var q := Pass(Steps(cs), Cleared, (), buf[n..]); p == q.(out := es + q.out)
  {
    var st := FrameStep(cs, buf);
    if st.Took? {
      var d := Drain(Steps(cs), (), buf[st.count..]);
      Associate(st.out, d.out, Cleared(d.rest));
    }
  }

  // ---- what is sent is received ------------------------------------------------------------------------

  lemma {:induction false} StepStable(cs: Channels)
    ensures Stable(Steps(cs))
  {
    forall a: seq<byte>, b: seq<byte> | !FrameStep(cs, a).More? ensures FrameStep(cs, a + b) == FrameStep(cs, a) {
      if a[0] == DOLLAR {
        SliceOfPrefix(a, b, 4, 4 + FromBe16(a[2], a[3]));
      }
    }
  }

  lemma {:induction false} FrameIsBytes(cs: Channels, buf: seq<byte>)
    requires FrameStep(cs, buf).Took?
    ensures var st := FrameStep(cs, buf);
            st.count <= |buf| && Wire(EventBytes, st.out) == buf[..st.count]
  {
    var st := FrameStep(cs, buf);
    var n := FromBe16(buf[2], buf[3]);
    Be16Bytes(n);
    assert st.out[1..] == [] && Wire(EventBytes, []) == [];
    assert Wire(EventBytes, st.out) == EventBytes(st.out[0]) + [];
    assert Be16(n) == [buf[2], buf[3]];
    assert buf[..st.count] == [buf[0], buf[1]] + [buf[2], buf[3]] + buf[4..st.count];
  }

  lemma {:induction false} StepConserves(cs: Channels)
    ensures Conserving(Steps(cs), EventBytes)
  {
    forall buf: seq<byte> | FrameStep(cs, buf).Took?
      ensures FrameStep(cs, buf).count <= |buf|
      ensures Wire(EventBytes, FrameStep(cs, buf).out) == buf[..FrameStep(cs, buf).count]
    {
      FrameIsBytes(cs, buf);
    }
  }

  lemma {:induction false} FrameThenRest(cs: Channels, channel: byte, payload: seq<byte>, rest: seq<byte>)
    ensures var n := |payload| % 65536;
            FrameStep(cs, FrameBytes(channel, payload) + rest) ==
            Took((), 4 + n, [Frame(channel, payload[..n], cs.HandlerOf(channel))])
  {
    var n, buf := |payload|, FrameBytes(channel, payload) + rest;
    Be16RoundTrip(n);
    assert buf[2] == Be16(n)[0] && buf[3] == Be16(n)[1];
    assert buf[4..4 + n % 65536] == payload[..n % 65536];
  }

  /** A frame is read back, whatever follows, exactly when its length fits the 16-bit field. The packets of the server
    * always do: each has a buffer of 1600 bytes. */
  lemma {:induction false} FrameReadsBack(cs: Channels, channel: byte, payload: seq<byte>)
    ensures ReadsBack(Steps(cs), EventBytes, (), Frame(channel, payload, cs.HandlerOf(channel))) <==> |payload| < 65536
  {
    hide FrameStep, FrameBytes;
    var e := Frame(channel, payload, cs.HandlerOf(channel));
    var n := |payload|;
    if n < 65536 {
      assert payload[..n] == payload;
      forall rest ensures Steps(cs)((), EventBytes(e) + rest) == Took((), |EventBytes(e)|, [e]) {
        FrameThenRest(cs, channel, payload, rest);
      }
    } else {
      FrameThenRest(cs, channel, payload, []);
      assert Steps(cs)((), EventBytes(e) + []).count != |EventBytes(e)|;
    }
  }

  /** A packet to send: the channel, and what follows the room for the frame header. */
  datatype Packet = Packet(channel: byte, payload: seq<byte>)

  function Sent(packets: seq<Packet>): seq<byte> {
    if packets == [] then [] else FrameBytes(packets[0].channel, packets[0].payload) + Sent(packets[1..])
  }

  function Received(cs: Channels, packets: seq<Packet>): (r: seq<Event>)
    ensures |r| == |packets|
    ensures forall i :: 0 <= i < |r| ==>
              r[i] == Frame(packets[i].channel, packets[i].payload, cs.HandlerOf(packets[i].channel))
  {
    if packets == [] then []
    else [Frame(packets[0].channel, packets[0].payload, cs.HandlerOf(packets[0].channel))] + Received(cs, packets[1..])
  }

  lemma {:induction false} SentIsWire(cs: Channels, packets: seq<Packet>)
    ensures Sent(packets) == Wire(EventBytes, Received(cs, packets))
  {
    if packets != [] {
      SentIsWire(cs, packets[1..]);
      assert Received(cs, packets)[1..] == Received(cs, packets[1..]);
    }
  }

  /** Packets sent one after the other and cut into reads anywhere arrive as they were sent, nothing left. */
  lemma {:induction false} PacketsArrive(cs: Channels, packets: seq<Packet>, chunks: seq<seq<byte>>)
    requires forall p :: p in packets ==> |p.payload| < 65536
    requires Flat(chunks) == Sent(packets)
    ensures Passes(Steps(cs), Cleared, (), [], chunks) == Reader((), [], Received(cs, packets), false)
  {
    var es := Received(cs, packets);
    SentIsWire(cs, packets);
    forall e | e in es ensures ReadsBack(Steps(cs), EventBytes, (), e) {
      FrameReadsBack(cs, e.channel, e.payload);
      var i :| 0 <= i < |es| && es[i] == e;
      assert packets[i] in packets;
    }
    UnitsReadBack(Steps(cs), EventBytes, (), es);
    StepStable(cs);
    assert [] + Flat(chunks) == Flat(chunks);
    PassesFollowStream(Steps(cs), Cleared, (), [], chunks);
  }

  /** For any stream that holds no request: the frames and the leftover are the stream, whatever the reads. */
  lemma {:induction false} NoByteLost(cs: Channels, chunks: seq<seq<byte>>)
    requires !Drain(Steps(cs), (), Flat(chunks)).halted
    ensures var r := Passes(Steps(cs), Cleared, (), [], chunks);
            Wire(EventBytes, r.out) + r.rest == Flat(chunks)
  {
    StepStable(cs);
    StepConserves(cs);
    assert [] + Flat(chunks) == Flat(chunks);
    PassesFollowStream(Steps(cs), Cleared, (), [], chunks);
    StreamConserved(Steps(cs), EventBytes, (), Flat(chunks));
  }

  /** What comes behind the frames of a read: a text that starts like a request is handled as one, all of it; anything else
    * of four bytes or more is dropped. */
  lemma {:induction false} TextBehindFrames(cs: Channels, packets: seq<Packet>, text: seq<byte>)
    requires (forall p :: p in packets ==> |p.payload| < 65536) && |text| >= 4 && text[0] != 36
    ensures Pass(Steps(cs), Cleared, (), Sent(packets) + text) ==
            Reader((), [], Received(cs, packets) + (if text[0] in {79, 68, 83, 80, 84} then [Request(text)] else []), false)
    decreases |packets|
  {
    hide Pass, FrameStep;
    if packets == [] {
      assert Sent(packets) + text == text;
      TextFirst(cs, text);
      var es := Cleared(text);
      assert [] + es == es;
      PassAfter(cs, text);
      NothingPassed(cs);
    } else {
      var p, more := packets[0], packets[1..];
      assert p in packets && p.payload[..|p.payload|] == p.payload;
      var buf := FrameBytes(p.channel, p.payload);
      Associate(buf, Sent(more), text);
      FrameThenRest(cs, p.channel, p.payload, Sent(more) + text);
      PassAfter(cs, buf + (Sent(more) + text));
      assert (buf + (Sent(more) + text))[|buf|..] == Sent(more) + text;
      hide FrameBytes;
      TextBehindFrames(cs, more, text);
      Associate([Frame(p.channel, p.payload, cs.HandlerOf(p.channel))], Received(cs, more), Cleared(text));
    }
  }

  lemma {:induction false} TextFirst(cs: Channels, text: seq<byte>)
    requires |text| >= 4 && text[0] != 36
    ensures FrameStep(cs, text) == Halt((), [])
    ensures Cleared(text) == if text[0] in {79, 68, 83, 80, 84} then [Request(text)] else []
  {
  }

  lemma {:induction false} NothingPassed(cs: Channels)
    ensures Pass(Steps(cs), Cleared, (), []) == Reader((), [], [], false)
  {
  }
}
