/**
  * `H264Source::HandleFrame` of src/rtp/h264source.cpp: a NAL unit becomes one packet, or FU-A fragments
  * if it is too long (sections 5.6 and 5.8 of RFC 6184).
  */
module H264Source {
  import opened Bytes

  const MAX_RTP_PAYLOAD_SIZE: nat := 1420
  const RTP_HEADER_SIZE: nat := 12
  const RTP_TCP_HEAD_SIZE: nat := 4
  const PACKET_BUFFER_SIZE: nat := 1600

  /** A packet: `payload` is what lies in its buffer after the room for the two headers. */
  datatype RtpPacket = RtpPacket(payload: seq<byte>, timestamp: nat, kind: nat, last: bool) {
    /** The `size` field. */
    function Size(): nat {
      RTP_TCP_HEAD_SIZE + RTP_HEADER_SIZE + |payload|
    }
  }

  // ---- what is sent ----------------------------------------------------------------------------------

  /** The FU indicator: F and NRI bits of the NAL header, type 28. */
  function FuIndicator(header: byte): byte {
    (header / 32) * 32 + 28
  }

  /** The FU header: start bit, end bit, type of the NAL unit. */
  function FuHeader(header: byte, start: bool, end: bool): byte {
    (if start then 128 else 0) + (if end then 64 else 0) + header % 32
  }

  const FRAGMENT: nat := MAX_RTP_PAYLOAD_SIZE - 2

  /** The fragments of what is left of a NAL unit with the given header byte. */
  function Fragments(header: byte, body: seq<byte>, start: bool): (r: seq<seq<byte>>)
    ensures 0 < |r| <= |body| + 1
    decreases |body|
  {
    if |body| <= FRAGMENT then [[FuIndicator(header), FuHeader(header, start, true)] + body]
    else [[FuIndicator(header), FuHeader(header, start, false)] + body[..FRAGMENT]] + Fragments(header, body[FRAGMENT..], false)
  }

  /** The payloads that carry a NAL unit. */
  function Payloads(nal: seq<byte>): (r: seq<seq<byte>>)
    ensures 0 < |r| <= |nal| + 1
  {
    if |nal| <= MAX_RTP_PAYLOAD_SIZE then [nal] else Fragments(nal[0], nal[1..], true)
  }

  function Packets(payloads: seq<seq<byte>>, timestamp: nat, kind: nat): (r: seq<RtpPacket>)
    ensures |r| == |payloads|
  {
    seq(|payloads|, i requires 0 <= i < |payloads| => RtpPacket(payloads[i], timestamp, kind, i == |payloads| - 1))
  }

  function PayloadsOf(packets: seq<RtpPacket>): (r: seq<seq<byte>>)
    ensures |r| == |packets|
  {
    seq(|packets|, i requires 0 <= i < |packets| => packets[i].payload)
  }

  /** The first byte of a fragment after the start bit has been cleared, and with the end bit set. */
  method NextFuHeader(fu: byte, clearStart: bool, setEnd: bool) returns (r: byte)
    requires setEnd ==> (fu / 64) % 2 == 0
    ensures forall h: byte, s: bool :: fu == FuHeader(h, s, false) ==> r == FuHeader(h, s && !clearStart, setEnd)
  {
    r := fu;
    if clearStart && r >= 128 {
      r := r - 128;
    }
    if setEnd {
      r := r + 64;
    }
  }

  /** `HandleFrame`. The callback accepts the first `room` packets offered to it; `sent` are those it
    * accepted. A zero timestamp is replaced by the clock's. */
  method HandleFrame(nal: seq<byte>, frameTimestamp: nat, kind: nat, clock: nat, room: nat)
    returns (sent: seq<RtpPacket>, ok: bool)
    ensures var ts := if frameTimestamp == 0 then clock else frameTimestamp;
            var all := Packets(Payloads(nal), ts, kind);
            && ok == (|all| <= room)
            && sent == if ok then all else all[..room]
  {
    var timestamp := frameTimestamp;
    if timestamp == 0 {
      timestamp := clock;
    }
    ghost var all := Packets(Payloads(nal), timestamp, kind);
    sent := [];
    if |nal| <= MAX_RTP_PAYLOAD_SIZE {
      if room == 0 {
        return sent, false;
      }
      return [RtpPacket(nal, timestamp, kind, true)], true;
    }
    var indicator := (nal[0] / 32) * 32 + 28;
    var fuHeader := nal[0] % 32 + 128;
    var body := nal[1..];
    ghost var start := true;
    assert nal[1..][0..] == nal[1..];
    while |body| + 2 > MAX_RTP_PAYLOAD_SIZE
      invariant |body| > 0 && fuHeader == FuHeader(nal[0], start, false)
      invariant |sent| <= room && |sent| + |Fragments(nal[0], body, start)| == |all|
      invariant PayloadsOf(sent) + Fragments(nal[0], body, start) == Payloads(nal)
      invariant sent == all[..|sent|]
      decreases |body|
    {
      ghost var rest := Fragments(nal[0], body[FRAGMENT..], false);
      var packet := RtpPacket([indicator, fuHeader] + body[..FRAGMENT], timestamp, kind, false);
      assert Fragments(nal[0], body, start) == [packet.payload] + rest;
      if |sent| == room {
        return sent, false;
      }
      NextPacket(nal, timestamp, kind, sent, packet, rest);
      sent := sent + [packet];
      body := body[FRAGMENT..];
      fuHeader := NextFuHeader(fuHeader, true, false);
      start := false;
    }
    fuHeader := NextFuHeader(fuHeader, false, true);
    var packet := RtpPacket([indicator, fuHeader] + body, timestamp, kind, true);
    if |sent| == room {
      return sent, false;
    }
    LastPacket(nal, timestamp, kind, sent, packet);
    sent := sent + [packet];
    ok := true;
  }

  lemma {:induction false} NextPacket(nal: seq<byte>, ts: nat, kind: nat, sent: seq<RtpPacket>, p: RtpPacket, rest: seq<seq<byte>>)
    requires rest != [] && PayloadsOf(sent) + ([p.payload] + rest) == Payloads(nal)
    requires sent == Packets(Payloads(nal), ts, kind)[..|sent|]
    requires p == RtpPacket(p.payload, ts, kind, false)
    ensures sent + [p] == Packets(Payloads(nal), ts, kind)[..|sent| + 1]
    ensures PayloadsOf(sent + [p]) + rest == Payloads(nal)
  {
    var all := Packets(Payloads(nal), ts, kind);
    assert Payloads(nal)[|sent|] == p.payload;
    assert all[|sent|] == p;
    assert all[..|sent| + 1] == all[..|sent|] + [all[|sent|]];
    assert PayloadsOf(sent + [p]) == PayloadsOf(sent) + [p.payload];
  }

  lemma {:induction false} LastPacket(nal: seq<byte>, ts: nat, kind: nat, sent: seq<RtpPacket>, p: RtpPacket)
    requires PayloadsOf(sent) + [p.payload] == Payloads(nal)
    requires sent == Packets(Payloads(nal), ts, kind)[..|sent|]
    requires p == RtpPacket(p.payload, ts, kind, true)
    ensures sent + [p] == Packets(Payloads(nal), ts, kind)
  {
    var all := Packets(Payloads(nal), ts, kind);
    assert Payloads(nal)[|sent|] == p.payload;
    assert all[|sent|] == p;
    assert all == all[..|sent|] + [all[|sent|]];
  }

  // ---- what a receiver makes of it ---------------------------------------------------------------------

  function TypeOf(payload: seq<byte>): byte
    requires payload != []
  {
    payload[0] % 32
  }

  /** Section 5.8: the NAL header is rebuilt from the indicator's upper and the FU header's lower bits. */
  function RebuiltHeader(payload: seq<byte>): byte
    requires |payload| >= 2
  {
    (payload[0] / 32) * 32 + payload[1] % 32
  }

  /** A receiver: single NAL unit packets are NAL units, fragments are joined from start bit to end bit.
    * `partial` is the NAL unit being joined, if any. */
  function Depacketise(partial: Option<seq<byte>>, payloads: seq<seq<byte>>): seq<seq<byte>>
    decreases |payloads|
  {
    if payloads == [] then []
    else
      var p, rest := payloads[0], payloads[1..];
      if p == [] then Depacketise(partial, rest)
      else if TypeOf(p) != 28 then [p] + Depacketise(None, rest)
      else if |p| < 2 then Depacketise(None, rest)
      else
        var joined := if p[1] >= 128 then Some([RebuiltHeader(p)] + p[2..])
                      else if partial.Some? then Some(partial.value + p[2..])
                      else None;
        if (p[1] / 64) % 2 == 0 then Depacketise(joined, rest)
        else (if joined.Some? then [joined.value] else []) + Depacketise(None, rest)
  }

  /** The FU header splits back into its parts; its reserved bit is zero. */
  lemma {:induction false} FuHeaderParts(header: byte, start: bool, end: bool)
    ensures var h := FuHeader(header, start, end);
            (h >= 128 <==> start) && ((h / 64) % 2 == 1 <==> end) && h / 32 % 2 == 0 && h % 32 == header % 32
    ensures FuIndicator(header) % 32 == 28
    ensures (FuIndicator(header) / 32) * 32 + header % 32 == header
  {
  }

  /** The fragments of a NAL unit, and whatever packets follow, give the NAL unit and whatever follows it. */
  lemma {:induction false} FragmentsJoin(header: byte, done: seq<byte>, body: seq<byte>, start: bool, rest: seq<seq<byte>>)
    requires start <==> done == []
    ensures Depacketise(if start then None else Some([header] + done), Fragments(header, body, start) + rest)
         == [[header] + done + body] + Depacketise(None, rest)
    decreases |body|
  {
    if |body| <= FRAGMENT {
      OneFragment(header, done, body, start, true, rest);
    } else {
      var chunk, more := body[..FRAGMENT], body[FRAGMENT..];
      FragmentsJoin(header, done + chunk, more, false, rest);
      OneFragment(header, done, chunk, start, false, Fragments(header, more, false) + rest);
      Associate([[FuIndicator(header), FuHeader(header, start, false)] + chunk], Fragments(header, more, false), rest);
      assert [header] + (done + chunk) + more == [header] + done + body;
    }
  }

  /** What one fragment contributes. */
  lemma {:induction false} OneFragment(header: byte, done: seq<byte>, chunk: seq<byte>, start: bool, end: bool, rest: seq<seq<byte>>)
    requires start <==> done == []
    ensures var joined := [header] + (done + chunk);
            Depacketise(if start then None else Some([header] + done), [[FuIndicator(header), FuHeader(header, start, end)] + chunk] + rest)
            == if end then [joined] + Depacketise(None, rest) else Depacketise(Some(joined), rest)
    ensures [header] + (done + chunk) == [header] + done + chunk
  {
    var p := [FuIndicator(header), FuHeader(header, start, end)] + chunk;
    FuHeaderParts(header, start, end);
    assert ([p] + rest)[1..] == rest;
    assert p[2..] == chunk;
    assert start ==> [header] + chunk == [header] + (done + chunk);
    assert ([header] + done) + chunk == [header] + (done + chunk);
  }

  /** NAL unit types a single packet can carry (section 5.4 of RFC 6184). */
  predicate Carriable(nal: seq<byte>) {
    nal != [] && 1 <= TypeOf(nal) <= 23
  }

  /** Packetising a NAL unit and depacketising gives it back, whatever follows. */
  lemma {:induction false} PacketisationRoundTrip(nal: seq<byte>, rest: seq<seq<byte>>)
    requires Carriable(nal)
    ensures Depacketise(None, Payloads(nal) + rest) == [nal] + Depacketise(None, rest)
  {
    if |nal| <= MAX_RTP_PAYLOAD_SIZE {
      assert ([nal] + rest)[1..] == rest;
    } else {
      FragmentsJoin(nal[0], [], nal[1..], true, rest);
      assert [nal[0]] + [] + nal[1..] == nal;
    }
  }

  /** The fragments of a long NAL unit: there are at least two; each carries between 1 and 1418 bytes of it
    * after its two header bytes; the start bit is on the first only and the end bit on the last only. */
  lemma {:induction false} FragmentShape(header: byte, body: seq<byte>, start: bool, i: nat)
    requires body != [] && i < |Fragments(header, body, start)|
    ensures var fs := Fragments(header, body, start);
            && 3 <= |fs[i]| <= MAX_RTP_PAYLOAD_SIZE
            && fs[i][0] == FuIndicator(header)
            && fs[i][1] == FuHeader(header, start && i == 0, i == |fs| - 1)
    decreases |body|
  {
    if |body| > FRAGMENT && i > 0 {
      FragmentShape(header, body[FRAGMENT..], false, i - 1);
    }
  }

  /** Section 5.8: a NAL unit is never sent as a single fragment, and every packet fits its buffer. */
  lemma {:induction false} LongNalShape(nal: seq<byte>, i: nat)
    requires |nal| > MAX_RTP_PAYLOAD_SIZE && i < |Payloads(nal)|
    ensures var ps := Payloads(nal);
            && |ps| >= 2
            && 3 <= |ps[i]| <= MAX_RTP_PAYLOAD_SIZE
            && TypeOf(ps[i]) == 28
            && (ps[i][1] >= 128 <==> i == 0)
            && ((ps[i][1] / 64) % 2 == 1 <==> i == |ps| - 1)
            && ps[i][1] / 32 % 2 == 0
            && RebuiltHeader(ps[i]) == nal[0]
  {
    FragmentShape(nal[0], nal[1..], true, i);
    FuHeaderParts(nal[0], i == 0, i == |Payloads(nal)| - 1);
  }

  lemma {:induction false} PacketsFitTheirBuffer(nal: seq<byte>, timestamp: nat, kind: nat, i: nat)
    requires i < |Payloads(nal)|
    ensures Packets(Payloads(nal), timestamp, kind)[i].Size() <= PACKET_BUFFER_SIZE
  {
    if |nal| > MAX_RTP_PAYLOAD_SIZE {
      LongNalShape(nal, i);
    }
  }
}
