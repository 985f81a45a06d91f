/**
  * The frames of src/server/ws/ws_session.cpp as they lie on the wire, octet by octet and bit by bit (sections 5.2,
  * 5.3 and 5.5 of RFC 6455): what a session makes of the octets it receives.
  */
module WsWire {
  import opened Bytes
  import opened Incremental
  import opened WsFrame
  import opened WsReceive

  // ---- the header, octet by octet --------------------------------------------------------------------------

  /** How many octets come before the payload. */
  function HeaderLength(buf: seq<byte>): (n: nat)
    requires |buf| >= 2
    ensures 2 <= n <= 14
  {
    (if buf[1] % 128 == 127 then 10 else if buf[1] % 128 == 126 then 4 else 2) + (if buf[1] >= 128 then 4 else 0)
  }

  /** The number in the length field: seven bits, or sixteen, or sixty-four. */
  function PayloadLength(buf: seq<byte>): nat
    requires |buf| >= 2 && |buf| >= HeaderLength(buf)
  {
    if buf[1] % 128 < 126 then buf[1] % 128
    else if buf[1] % 128 == 126 then Two(buf[2], buf[3])
    else
      256 * (256 * (256 * (256 * (256 * (256 * Two(buf[2], buf[3]) + buf[4]) + buf[5]) + buf[6]) + buf[7]) + buf[8]) + buf[9]
  }

  function Two(a: nat, b: nat): nat {
    256 * a + b
  }

  lemma {:induction false} OneMoreDigit(b: seq<byte>, x: byte)
    ensures FromBigEndian(b + [x]) == 256 * FromBigEndian(b) + x
  {
    assert (b + [x])[..|b|] == b;
  }

  lemma {:induction false} TwoDigits(buf: seq<byte>)
    requires |buf| >= 4
    ensures FromBigEndian(buf[2..4]) == Two(buf[2], buf[3])
  {
    var none: seq<byte> := [];
    OneMoreDigit(none, buf[2]);
    OneMoreDigit([buf[2]], buf[3]);
    assert none + [buf[2]] == [buf[2]] && [buf[2]] + [buf[3]] == buf[2..4];
    assert FromBigEndian(none) == 0;
  }

  lemma {:induction false} EightDigits(buf: seq<byte>)
    requires |buf| >= 10
    ensures FromBigEndian(buf[2..10]) ==
            256 * (256 * (256 * (256 * (256 * (256 * Two(buf[2], buf[3]) + buf[4]) + buf[5]) + buf[6]) + buf[7]) + buf[8]) + buf[9]
  {
    TwoDigits(buf);
    hide FromBigEndian;
    forall i | 4 <= i < 10 ensures FromBigEndian(buf[2..i + 1]) == 256 * FromBigEndian(buf[2..i]) + buf[i] {
      OneMoreDigit(buf[2..i], buf[i]);
      assert buf[2..i] + [buf[i]] == buf[2..i + 1];
    }
    assert FromBigEndian(buf[2..4 + 1]) == 256 * FromBigEndian(buf[2..4]) + buf[4];
    assert FromBigEndian(buf[2..5 + 1]) == 256 * FromBigEndian(buf[2..5]) + buf[5];
    assert FromBigEndian(buf[2..6 + 1]) == 256 * FromBigEndian(buf[2..6]) + buf[6];
    assert FromBigEndian(buf[2..7 + 1]) == 256 * FromBigEndian(buf[2..7]) + buf[7];
    assert FromBigEndian(buf[2..8 + 1]) == 256 * FromBigEndian(buf[2..8]) + buf[8];
    assert FromBigEndian(buf[2..9 + 1]) == 256 * FromBigEndian(buf[2..9]) + buf[9];
  }

  lemma {:induction false} FourZeros(buf: seq<byte>)
    requires |buf| >= 10
    ensures FromBigEndian(buf[2..6]) == 0 <==> buf[2] == 0 && buf[3] == 0 && buf[4] == 0 && buf[5] == 0
  {
    TwoDigits(buf);
    OneMoreDigit(buf[2..4], buf[4]);
    OneMoreDigit(buf[2..5], buf[5]);
    assert buf[2..4] + [buf[4]] == buf[2..5] && buf[2..5] + [buf[5]] == buf[2..6];
    hide FromBigEndian;
  }

  /** A length in more octets than it needs, or of 2^32 and more. */
  predicate Unfit(buf: seq<byte>)
    requires |buf| >= 2 && |buf| >= HeaderLength(buf)
  {
    || (buf[1] % 128 == 126 && PayloadLength(buf) < 126)
    || (buf[1] % 128 == 127 && (PayloadLength(buf) < 65536 || buf[2] != 0 || buf[3] != 0 || buf[4] != 0 || buf[5] != 0))
  }

  /** No reserved bit and one of the six opcodes. */
  predicate GoodFirst(b: byte) {
    b % 128 < 16 && b % 16 in {0, 1, 2, 8, 9, 10}
  }

  /** What is refused, at once or when the length is there; and until when more octets are awaited. */
  lemma {:induction false} RefusedIff(buf: seq<byte>)
    ensures Parse(buf).Malformed? <==> |buf| >= 2 && (!GoodFirst(buf[0]) || (|buf| >= HeaderLength(buf) && Unfit(buf)))
    ensures Parse(buf).Incomplete? <==> |buf| < 2 || (GoodFirst(buf[0]) && |buf| < HeaderLength(buf))
  {
    if |buf| >= 2 && |buf| >= HeaderLength(buf) {
      if buf[1] % 128 == 126 {
        TwoDigits(buf);
      } else if buf[1] % 128 == 127 {
        EightDigits(buf);
        FourZeros(buf);
        if buf[2] == 0 && buf[3] == 0 && buf[4] == 0 && buf[5] == 0 {
          EightBytesFit(buf);
        }
      }
    }
    hide FromBigEndian;
  }

  lemma {:induction false} EightBytesFit(buf: seq<byte>)
    requires |buf| >= 10 && buf[2] == 0 && buf[3] == 0 && buf[4] == 0 && buf[5] == 0
    ensures FromBigEndian(buf[2..10]) < WIDTH32
  {
    EightDigits(buf);
    hide FromBigEndian;
  }

  /** The opcodes of section 5.2. */
  function Numbered(op: OpCode): nat {
    match op
    case Continuation => 0
    case Text => 1
    case Binary => 2
    case Close => 8
    case Ping => 9
    case Pong => 10
  }

  /** An accepted header is what its octets say. */
  lemma {:induction false} HeaderOctets(buf: seq<byte>)
    requires Parse(buf).Complete?
    ensures var h := Parse(buf).hdr;
            && |buf| >= 2 && h.headerLen == HeaderLength(buf) <= |buf|
            && (h.fin <==> buf[0] >= 128) && Numbered(h.opcode) == buf[0] % 16 && (h.masked <==> buf[1] >= 128)
            && h.payloadLen == PayloadLength(buf)
  {
    AcceptedLength(buf);
    if buf[1] % 128 == 126 {
      TwoDigits(buf);
    } else if buf[1] % 128 == 127 {
      EightDigits(buf);
    }
    hide FromBigEndian;
  }

  /** The four octets in front of the payload are the key, first octet first. */
  lemma {:induction false} KeyOctets(buf: seq<byte>, i: nat)
    requires Parse(buf).Complete? && Parse(buf).hdr.masked && i < 4
    ensures var h := Parse(buf).hdr; 6 <= h.headerLen <= |buf| && KeyOctet(h.maskKey, i) == buf[h.headerLen - 4 + i]
  {
    HeaderOctets(buf);
    AcceptedKey(buf);
    var h := Parse(buf).hdr;
    hide KeyBytes;
    assert buf[h.headerLen - 4..h.headerLen] == KeyBytes(h.maskKey);
    assert buf[h.headerLen - 4..h.headerLen][i] == buf[h.headerLen - 4 + i];
  }

  // ---- the payload, bit by bit -----------------------------------------------------------------------------

  /** Section 5.3: bit `k` of octet `i` of the payload is the sum modulo 2 of bit `k` of the octet on the wire and of
    * octet `i` mod 4 of the four before the payload. */
  ghost predicate Unmasked(buf: seq<byte>, payload: seq<byte>) {
    && |buf| >= 2 && 6 <= HeaderLength(buf) && |buf| >= HeaderLength(buf) + |payload| && |payload| == PayloadLength(buf)
    && forall i: nat, k: nat {:trigger Bit(payload[i], k)} :: i < |payload| && k < 8 ==>
         Bit(payload[i], k) == (Bit(buf[HeaderLength(buf) + i], k) + Bit(buf[HeaderLength(buf) - 4 + i % 4], k)) % 2
  }

  lemma {:induction false} MaskedOnWire(buf: seq<byte>)
    requires Parse(buf).Complete? && Parse(buf).hdr.masked && Parse(buf).hdr.Total() <= |buf|
    ensures var h := Parse(buf).hdr;
            h.headerLen <= h.Total() && Unmasked(buf, Masked(buf[h.headerLen..h.Total()], h.maskKey))
  {
    HeaderOctets(buf);
    var h := Parse(buf).hdr;
    var data := buf[h.headerLen..h.Total()];
    var payload := Masked(data, h.maskKey);
    hide Bit, Xor, KeyOctet, Parse, HeaderLength, PayloadLength;
    forall i: nat, k: nat | i < |payload| && k < 8
      ensures Bit(payload[i], k) == (Bit(buf[h.headerLen + i], k) + Bit(buf[h.headerLen - 4 + i % 4], k)) % 2
    {
      KeyOctets(buf, i % 4);
      assert data[i] == buf[h.headerLen + i];
      XorMeans(data[i], KeyOctet(h.maskKey, i % 4), k);
    }
    KeyOctets(buf, 0);
  }

  /** What a session does after a whole frame with the given first octet and unmasked payload. */
  ghost predicate Follows(s: Recv, first: byte, payload: seq<byte>, t: Recv, log: seq<Event>) {
    match first % 16
    case 10 => t == s && log == [FrameSeen]
    case 9 => t == s && log == [FrameSeen, Queued(Pong, payload)]
    case 8 =>
      if s.state != Active then t == s && log == [FrameSeen]
      else
        var code := if |payload| < 2 then 1005 else Two(payload[0], payload[1]);
        t == s.(state := Closing) && log == [FrameSeen, CloseQueued(code, "")]
    case op =>
      if (op == 0) != s.started then t == s.(state := Closed) && log == [FrameSeen, Shutdown(1002)]
      else
        var kind := if op == 0 then s.opcode else if op == 1 then Text else Binary;
        var joined := if op == 0 then s.payload + payload else payload;
        && t.state == s.state && t.opts == s.opts
        && if first < 128 then t.started && t.opcode == kind && t.payload == joined && log == [FrameSeen]
           else !t.started && t.payload == [] && log == [FrameSeen, Message(kind, joined)]
  }

  /** Every frame that the loop goes on after, from its octets: where it ends, its payload, what the session does. */
  lemma {:induction false} TakenOnWire(s: Recv, buf: seq<byte>) returns (payload: seq<byte>)
    requires FrameStep(s, buf).Took?
    ensures Unmasked(buf, payload)
    ensures var r := FrameStep(s, buf);
            r.count == HeaderLength(buf) + |payload| && Follows(s, buf[0], payload, r.next, r.out)
  {
    HeaderOctets(buf);
    MaskedOnWire(buf);
    var h := Parse(buf).hdr;
    payload := Masked(buf[h.headerLen..h.Total()], h.maskKey);
    FrameOutcomeFollows(s, h, payload, buf[0]);
    hide Unmasked, Masked, Parse, HeaderLength, PayloadLength, FrameOutcome, GoesOn, Follows;
  }

  lemma {:induction false} FrameOutcomeFollows(s: Recv, h: Header, payload: seq<byte>, first: byte)
    requires Numbered(h.opcode) == first % 16 && (h.fin <==> first >= 128) && GoesOn(s, h, payload)
    requires !h.opcode.IsControl() ==> (if h.opcode == Continuation then |s.payload| else 0) + |payload| <= s.opts.maxMessage
    ensures var (t, es) := FrameOutcome(s, h, payload); Follows(s, first, payload, t, [FrameSeen] + es)
  {
  }

  /** A read of an active session: as long as the unread rest and the new bytes fit the frame buffer they are processed,
    * and otherwise the session announces its end with status 1009 and reads no more. */
  lemma {:induction false} ReadIsGuarded(r: Reads, chunk: seq<byte>)
    requires r.reading && r.recv.state == Active
    ensures var t := OnFrameData(r, chunk);
            if |r.rest| + |chunk| <= r.recv.opts.maxFrameBuffer then t.log == r.log + Incremental.Drain(FrameStep, r.recv, r.rest + chunk).out
            else t.log == r.log + [CloseQueued(1009, "frame buffer too large")] && t.recv.state == Closing && !t.reading
  {
    hide FrameStep, Incremental.Drain;
  }

  /** The masked "Hello" of section 5.7. */
  lemma {:induction false} HelloIsRead()
    ensures var hello: seq<byte> := [0x81, 0x85, 0x37, 0xfa, 0x21, 0x3d, 0x7f, 0x9f, 0x4d, 0x51, 0x58];
            FrameStep(Fresh(Options(100, 100, 1, 1)), hello)
            == Took(Fresh(Options(100, 100, 1, 1)), 11, [FrameSeen, Message(Text, [0x48, 0x65, 0x6c, 0x6c, 0x6f])])
  {
    var hello: seq<byte> := [0x81, 0x85, 0x37, 0xfa, 0x21, 0x3d, 0x7f, 0x9f, 0x4d, 0x51, 0x58];
    HelloUnmasked();
    hide Masked;
    assert hello[2..6] == [0x37, 0xfa, 0x21, 0x3d] && hello[6..11] == [0x7f, 0x9f, 0x4d, 0x51, 0x58];
    assert KeyOf(hello[2..6]) == 0x37fa213d;
    hide KeyOf;
    assert hello[0] == 0x81 && hello[1] == 0x85 && |hello| == 11;
    assert LengthForm(hello[1] % 128) == 0 && OpCodeOf(hello[0] % 16) == Text && AnnouncedLength(hello) == 5;
    assert Parse(hello) == Complete(Header(true, Text, true, 6, 5, 0x37fa213d));
    hide Parse;
    assert [FrameSeen] + [Message(Text, [0x48, 0x65, 0x6c, 0x6c, 0x6f])] == [FrameSeen, Message(Text, [0x48, 0x65, 0x6c, 0x6c, 0x6f])];
  }

  lemma {:induction false} HelloUnmasked()
    ensures Masked([0x7f, 0x9f, 0x4d, 0x51, 0x58], 0x37fa213d) == [0x48, 0x65, 0x6c, 0x6c, 0x6f]
  {
    assert KeyBytes(0x37fa213d) == [0x37, 0xfa, 0x21, 0x3d];
    assert Xor(0x7f, 0x37) == 0x48;
    assert Xor(0x9f, 0xfa) == 0x65;
    assert Xor(0x4d, 0x21) == 0x6c;
    assert Xor(0x51, 0x3d) == 0x6c;
    assert Xor(0x58, 0x37) == 0x6f;
    hide Xor;
  }
}
