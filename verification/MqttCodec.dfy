/**
  * The packet codec of src/mqtt/mqtt_client.cpp: the variable-length Remaining Length (section 2.2.3 of
  * MQTT 3.1.1), PUBLISH packets (section 3.3), the acknowledgements, and the reads that cut the stream
  * into packets.
  */
module MqttCodec {
  import opened Bytes

  // ---- Remaining Length --------------------------------------------------------------------------------

  /** The number written by `b`, seven bits a byte, least significant first. */
  function VarInt(b: seq<byte>): nat {
    if b == [] then 0 else b[0] % 128 + 128 * VarInt(b[1..])
  }

  /** Every byte but the last has its continuation bit set. */
  predicate Terminated(b: seq<byte>) {
    b != [] && b[|b| - 1] < 128 && forall i :: 0 <= i < |b| - 1 ==> b[i] >= 128
  }

  function LengthBytes(n: nat): (b: seq<byte>)
    ensures b != []
  {
    if n < 128 then [n] else [n % 128 + 128] + LengthBytes(n / 128)
  }

  const LIMIT: nat := 128 * 128 * 128

  /** What the decoder makes of the front of `data`: the value and how many bytes it took, or 0 and 0. */
  function Decoded(data: seq<byte>): (r: (nat, nat)) {
    if |data| >= 1 && data[0] < 128 then (VarInt(data[..1]), 1)
    else if |data| >= 2 && data[1] < 128 then (VarInt(data[..2]), 2)
    else if |data| >= 3 && data[2] < 128 then (VarInt(data[..3]), 3)
    else (0, 0)
  }

  method EncodeRemainingLength(len: nat) returns (out: seq<byte>)
    ensures out == LengthBytes(len)
  {
    out := [];
    var n := len;
    while true
      invariant out + LengthBytes(n) == LengthBytes(len)
      decreases n
    {
      var b: byte := n % 128;
      n := n / 128;
      if n > 0 {
        b := b + 128;
        Associate(out, [b], LengthBytes(n));
      }
      out := out + [b];
      if n == 0 {
        break;
      }
    }
  }

  method DecodeRemainingLength(data: seq<byte>) returns (value: nat, consumed: nat)
    ensures (value, consumed) == Decoded(data)
    ensures consumed > 0 ==> consumed <= |data| && Terminated(data[..consumed]) && value == VarInt(data[..consumed])
    ensures consumed == 0 ==> value == 0 && forall i :: 0 <= i < |data| && i < 3 ==> data[i] >= 128
  {
    var multiplier: nat := 1;
    var i: nat := 0;
    value := 0;
    while true
      invariant i <= |data| && i <= 3 && value == VarInt(data[..i]) && multiplier == Pow128(i)
      invariant forall j :: 0 <= j < i ==> data[j] >= 128
      decreases 4 - i
    {
      if i >= |data| {
        return 0, 0;
      }
      var b := data[i];
      assert data[..i + 1] == data[..i] + [b];
      VarIntSnoc(data[..i], b);
      i := i + 1;
      value := value + (b % 128) * multiplier;
      multiplier := multiplier * 128;
      if multiplier > LIMIT {
        return 0, 0;
      }
      if b < 128 {
        return value, i;
      }
    }
  }

  function Pow128(k: nat): nat {
    if k == 0 then 1 else 128 * Pow128(k - 1)
  }

  lemma {:induction false} VarIntSnoc(b: seq<byte>, x: byte)
    ensures VarInt(b + [x]) == VarInt(b) + (x % 128) * Pow128(|b|)
  {
    if b == [] {
      assert (b + [x])[1..] == [];
    } else {
      assert (b + [x])[1..] == b[1..] + [x];
      VarIntSnoc(b[1..], x);
      Shift(x % 128, Pow128(|b| - 1));
    }
  }

  lemma {:induction false} Shift(x: nat, p: nat)
    ensures 128 * (x * p) == x * (128 * p)
  {
  }

  /** The encoding stands for its number, and ends where its continuation bits say. */
  lemma {:induction false} LengthBytesMean(n: nat)
    ensures VarInt(LengthBytes(n)) == n && Terminated(LengthBytes(n))
  {
    if n >= 128 {
      LengthBytesMean(n / 128);
      var b, t := LengthBytes(n), LengthBytes(n / 128);
      assert b[1..] == t;
      assert forall i :: 1 <= i < |b| ==> b[i] == t[i - 1];
    } else {
      assert LengthBytes(n)[1..] == [];
    }
  }

  /** How long the encoding is. */
  lemma {:induction false} LengthBytesSize(n: nat)
    ensures |LengthBytes(n)| <= 3 <==> n < LIMIT
    ensures |LengthBytes(n)| <= 2 <==> n < 128 * 128
    ensures |LengthBytes(n)| <= 1 <==> n < 128
  {
    if n >= 128 {
      var m := n / 128;
      assert |LengthBytes(n)| == 1 + |LengthBytes(m)|;
      if m >= 128 {
        var k := m / 128;
        assert |LengthBytes(m)| == 1 + |LengthBytes(k)|;
        assert k < 128 <==> n < LIMIT;
      }
    }
  }

  /** Of all ways to write a number, the encoder's is the shortest. */
  lemma {:induction false} EncodingIsMinimal(b: seq<byte>)
    requires b != []
    ensures |LengthBytes(VarInt(b))| <= |b|
  {
    if |b| > 1 {
      EncodingIsMinimal(b[1..]);
    } else {
      assert VarInt(b[1..]) == 0;
    }
  }

  /** And it is the only one that ends in no zero group. */
  lemma {:induction false} EncodingIsUnique(b: seq<byte>)
    requires Terminated(b) && (|b| > 1 ==> b[|b| - 1] != 0)
    ensures LengthBytes(VarInt(b)) == b
  {
    if |b| > 1 {
      EncodingIsUnique(b[1..]);
      Positive(b[1..]);
    } else {
      assert VarInt(b[1..]) == 0;
    }
  }

  lemma {:induction false} Positive(b: seq<byte>)
    requires Terminated(b) && b[|b| - 1] != 0
    ensures VarInt(b) > 0
  {
    if |b| > 1 {
      Positive(b[1..]);
    }
  }

  /** The decoder reads the encoder's bytes back, whatever follows, exactly below 128^3. Four-byte lengths,
    * which the standard allows, it rejects. */
  lemma {:induction false} RemainingLengthRoundTrip(n: nat, rest: seq<byte>)
    ensures Decoded(LengthBytes(n) + rest) == if n < LIMIT then (n, |LengthBytes(n)|) else (0, 0)
  {
    var b := LengthBytes(n);
    LengthBytesMean(n);
    LengthBytesSize(n);
    hide LengthBytes, VarInt;
    var data := b + rest;
    assert forall i :: 0 <= i < |b| ==> data[i] == b[i];
    if |b| <= 3 {
      assert data[..|b|] == b;
    }
  }

  // ---- PUBLISH -----------------------------------------------------------------------------------------

  /** A publication. The packet identifier is 0 where there is none (QoS 0). */
  datatype Publish = Publish(topic: seq<byte>, payload: seq<byte>, qos: nat, retain: bool, packetId: nat) {
    predicate Valid() {
      qos <= 2 && packetId < 65536 && (qos == 0 ==> packetId == 0)
    }
  }

  const PUBLISH: nat := 3
  const PUBACK: nat := 4
  const PUBREC: nat := 5
  const PUBREL: nat := 6
  const PUBCOMP: nat := 7

  /** Topic with its 16-bit length, packet identifier if any, payload. */
  function Body(p: Publish): seq<byte> {
    Be16(|p.topic|) + p.topic + (if p.qos == 0 then [] else Be16(p.packetId)) + p.payload
  }

  function PublishHeader(p: Publish): byte {
    PUBLISH * 16 + 2 * (p.qos % 4) + (if p.retain then 1 else 0)
  }

  function PublishBytes(p: Publish): seq<byte> {
    [PublishHeader(p)] + LengthBytes(|Body(p)|) + Body(p)
  }

  method BuildPublishPacket(topic: seq<byte>, payload: seq<byte>, qos: nat, retain: bool, packetId: nat)
    returns (packet: seq<byte>)
    requires qos <= 2 && packetId < 65536
    ensures packet == PublishBytes(Publish(topic, payload, qos, retain, packetId))
  {
    var byte0: byte := PUBLISH * 16;
    if retain {
      byte0 := byte0 + 1;
    }
    byte0 := byte0 + (qos % 4) * 2;
    packet := [byte0];
    var variable := WriteUtf8([], topic);
    if qos != 0 {
      variable := variable + [packetId / 256] + [packetId % 256];
    }
    variable := variable + payload;
    assert variable == Body(Publish(topic, payload, qos, retain, packetId));
    var remaining := EncodeRemainingLength(|variable|);
    packet := packet + remaining;
    packet := packet + variable;
  }

  method WriteUtf8(out: seq<byte>, s: seq<byte>) returns (r: seq<byte>)
    ensures r == out + Be16(|s|) + s
  {
    Be16Bytes(|s|);
    hide Be16;
    var len := |s| % 65536;
    r := out + [len / 256, |s| % 256] + s;
  }

  /** What `ParsePublish` reads out of a packet. */
  function Parsed(data: seq<byte>): (r: Option<Publish>)
    ensures r.Some? ==> r.value.qos <= 3 && r.value.packetId < 65536
  {
    if data == [] then None
    else
      var (_, consumed) := Decoded(data[1..]);
      if consumed == 0 then None
      else ParsedBody(data[0], data[1..][consumed..])
  }

  function ParsedBody(header: byte, body: seq<byte>): (r: Option<Publish>)
    ensures r.Some? ==> r.value.qos <= 3 && r.value.packetId < 65536
  {
    if |body| < 2 then None
    else
      var topicLen := FromBe16(body[0], body[1]);
      if |body| < 2 + topicLen then None
      else
        var topic, rest := body[2..2 + topicLen], body[2 + topicLen..];
        var qos, retain := header / 2 % 4, header % 2 == 1;
        if qos == 0 then Some(Publish(topic, rest, qos, retain, 0))
        else if |rest| < 2 then None
        else Some(Publish(topic, rest[2..], qos, retain, FromBe16(rest[0], rest[1])))
  }

  /** `ParsePublish`: the message handed to the callback, and the packet sent back. */
  method ParsePublish(data: seq<byte>) returns (message: Option<Publish>, reply: seq<byte>)
    ensures message == Parsed(data)
    ensures reply == match message
            case None => []
            case Some(p) => if p.qos == 1 then Ack(PUBACK, p.packetId) else if p.qos == 2 then Ack(PUBREC, p.packetId) else []
  {
    hide Decoded, FromBe16, Ack, ParsedBody;
    reply := [];
    if data == [] {
      return None, reply;
    }
    var qos := data[0] / 2 % 4;
    var retain := data[0] % 2 == 1;
    var offset := 1;
    var _, consumed := DecodeRemainingLength(data[offset..]);
    if consumed == 0 {
      return None, reply;
    }
    offset := offset + consumed;
    assert data[1..][consumed..] == data[offset..];
    ParsedAt(data[0], data, offset);
    if offset + 2 > |data| {
      return None, reply;
    }
    var topicLen := FromBe16(data[offset], data[offset + 1]);
    offset := offset + 2;
    if offset + topicLen > |data| {
      return None, reply;
    }
    var topic := data[offset..offset + topicLen];
    offset := offset + topicLen;
    var packetId := 0;
    if qos != 0 {
      if offset + 2 > |data| {
        return None, reply;
      }
      packetId := FromBe16(data[offset], data[offset + 1]);
      offset := offset + 2;
    }
    var payload := data[offset..];
    if qos == 1 {
      reply := Ack(PUBACK, packetId);
    } else if qos == 2 {
      reply := Ack(PUBREC, packetId);
    }
    message := Some(Publish(topic, payload, qos, retain, packetId));
  }

  /** A body in place. */
  lemma {:induction false} ParsedAt(header: byte, data: seq<byte>, start: nat)
    requires start <= |data|
    ensures ParsedBody(header, data[start..]) ==
            if start + 2 > |data| then None
            else
              var end := start + 2 + FromBe16(data[start], data[start + 1]);
              if end > |data| then None
              else
                var topic, qos, retain := data[start + 2..end], header / 2 % 4, header % 2 == 1;
                if qos == 0 then Some(Publish(topic, data[end..], qos, retain, 0))
                else if end + 2 > |data| then None
                else Some(Publish(topic, data[end + 2..], qos, retain, FromBe16(data[end], data[end + 1])))
  {
    hide FromBe16;
    var body := data[start..];
    if |body| >= 2 {
      var n := FromBe16(body[0], body[1]);
      if |body| >= 2 + n {
        SliceOfSuffix(data, start, 2, 2 + n);
        assert body[2 + n..] == data[start + 2 + n..];
      }
    }
  }

  lemma {:induction false} HeaderRoundTrip(p: Publish)
    requires p.qos <= 3
    ensures var h := PublishHeader(p);
            h / 2 % 4 == p.qos && (h % 2 == 1 <==> p.retain) && h / 16 == PUBLISH
  {
  }

  /** The parts of a body, read back. */
  lemma {:induction false} BodyParts(p: Publish)
    ensures var body, n := Body(p), |p.topic|;
            && |body| >= 2 + n
            && FromBe16(body[0], body[1]) == n % 65536
            && body[2..2 + n] == p.topic
            && body[2 + n..] == (if p.qos == 0 then [] else Be16(p.packetId)) + p.payload
  {
    Be16RoundTrip(|p.topic|);
    assert Body(p)[0] == Be16(|p.topic|)[0] && Body(p)[1] == Be16(|p.topic|)[1];
  }

  lemma {:induction false} IdThenPayload(id: nat, payload: seq<byte>)
    requires id < 65536
    ensures var rest := Be16(id) + payload; FromBe16(rest[0], rest[1]) == id && rest[2..] == payload
  {
    Be16RoundTrip(id);
  }

  lemma {:induction false} ParsedParts(header: byte, body: seq<byte>, qos: nat, retain: bool, topic: seq<byte>, rest: seq<byte>)
    requires header / 2 % 4 == qos && (header % 2 == 1 <==> retain)
    requires |body| >= 2 + |topic| && FromBe16(body[0], body[1]) == |topic|
    requires body[2..2 + |topic|] == topic && body[2 + |topic|..] == rest
    ensures ParsedBody(header, body) ==
            if qos == 0 then Some(Publish(topic, rest, qos, retain, 0))
            else if |rest| < 2 then None
            else Some(Publish(topic, rest[2..], qos, retain, FromBe16(rest[0], rest[1])))
  {
  }

  lemma {:induction false} ParsedTopicFits(header: byte, body: seq<byte>)
    ensures ParsedBody(header, body).Some? ==> |ParsedBody(header, body).value.topic| < 65536
  {
  }

  lemma {:induction false} BodyRoundTrip(p: Publish)
    requires p.Valid()
    ensures |p.topic| < 65536 <==> ParsedBody(PublishHeader(p), Body(p)) == Some(p)
  {
    hide Body, PublishHeader, Be16, FromBe16, ParsedBody;
    HeaderRoundTrip(p);
    var header, body := PublishHeader(p), Body(p);
    ParsedTopicFits(header, body);
    if |p.topic| < 65536 {
      BodyParts(p);
      IdThenPayload(p.packetId, p.payload);
      var rest := (if p.qos == 0 then [] else Be16(p.packetId)) + p.payload;
      ParsedParts(header, body, p.qos, p.retain, p.topic, rest);
      assert p.qos == 0 ==> rest == p.payload;
    }
  }

  /** A publication arrives as it was sent exactly when its topic fits the 16-bit length and what follows
    * the fixed header is shorter than 128^3 bytes. */
  lemma {:induction false} PublishRoundTrip(p: Publish)
    requires p.Valid()
    ensures Parsed(PublishBytes(p)) == Some(p) <==> |p.topic| < 65536 && |Body(p)| < LIMIT
  {
    var n, data := |Body(p)|, PublishBytes(p);
    hide LengthBytes, Body, ParsedBody, Decoded;
    assert data[1..] == LengthBytes(n) + Body(p);
    RemainingLengthRoundTrip(n, Body(p));
    assert (LengthBytes(n) + Body(p))[|LengthBytes(n)|..] == Body(p);
    BodyRoundTrip(p);
  }

  // ---- acknowledgements --------------------------------------------------------------------------------

  /** PUBACK, PUBREC, PUBREL (whose fixed header carries the flag 2) and PUBCOMP. */
  function Ack(kind: nat, packetId: nat): seq<byte>
    requires PUBACK <= kind <= PUBCOMP && packetId < 65536
  {
    [kind * 16 + (if kind == PUBREL then 2 else 0), 2] + Be16(packetId)
  }

  /** The identifier that `ParsePubAck`, `ParsePubRec`, `ParsePubRel` and `ParsePubComp` read. */
  function AckId(data: seq<byte>): Option<nat> {
    if |data| < 4 then None else Some(FromBe16(data[2], data[3]))
  }

  /** The identifier in the answer to a publication is the one the publication had. */
  lemma {:induction false} AckRoundTrip(kind: nat, packetId: nat)
    requires PUBACK <= kind <= PUBCOMP && packetId < 65536
    ensures AckId(Ack(kind, packetId)) == Some(packetId)
    ensures Ack(kind, packetId)[0] / 16 == kind
  {
    Be16RoundTrip(packetId);
  }

  // ---- reading packets off the stream --------------------------------------------------------------------

  /** What `DoReadHeader`, `DoReadRemainingLength` and `DoReadRemaining` read next. */
  datatype Reading =
    | Waiting                                          // the stream has not brought enough bytes yet
    | Failed                                           // malformed length: the client reconnects
    | Packet(bytes: seq<byte>, rest: seq<byte>)

  /** `got` length bytes have been read after the fixed header, all with their continuation bit set. */
  function ReadLength(stream: seq<byte>, got: nat): Reading
    requires got <= 3 && got < |stream|
    decreases 3 - got
  {
    if |stream| < got + 2 then Waiting
    else if stream[got + 1] >= 128 then
      if got + 1 >= 4 then Failed else ReadLength(stream, got + 1)
    else
      var (remaining, consumed) := Decoded(stream[1..got + 2]);
      if consumed == 0 then Failed
      else
        var size := got + 2 + remaining;
        if |stream| < size then Waiting else Packet(stream[..size], stream[size..])
  }

  function ReadPacket(stream: seq<byte>): Reading {
    if stream == [] then Waiting else ReadLength(stream, 0)
  }

  /** The packets of a stream, until it fails or runs dry. */
  function Packets(stream: seq<byte>): seq<seq<byte>>
    decreases |stream|
  {
    match ReadPacket(stream)
    case Packet(bytes, rest) => if |rest| < |stream| then [bytes] + Packets(rest) else []
    case _ => []
  }

  /** A packet: fixed header, length, body. */
  function Framed(header: byte, body: seq<byte>): seq<byte> {
    [header] + LengthBytes(|body|) + body
  }

  lemma {:induction false} ReadLengthSkips(stream: seq<byte>, b: seq<byte>, got: nat)
    requires Terminated(b) && |b| <= 3 && got < |b| < |stream| && stream[1..1 + |b|] == b
    ensures ReadLength(stream, got) == ReadLength(stream, |b| - 1)
    decreases |b| - got
  {
    if got < |b| - 1 {
      assert stream[1..1 + |b|][got] == stream[got + 1];
      ReadLengthSkips(stream, b, got + 1);
    }
  }

  /** A packet with a body below 128^3 bytes is read off the front of any stream. */
  lemma {:induction false} FramedIsRead(header: byte, body: seq<byte>, rest: seq<byte>)
    requires |body| < LIMIT
    ensures ReadPacket(Framed(header, body) + rest) == Packet(Framed(header, body), rest)
  {
    var n := |body|;
    var b, stream := LengthBytes(n), Framed(header, body) + rest;
    LengthBytesMean(n);
    LengthBytesSize(n);
    RemainingLengthRoundTrip(n, []);
    hide LengthBytes, Decoded;
    assert b + [] == b;
    assert stream[1..1 + |b|] == b;
    ReadLengthSkips(stream, b, 0);
    assert stream[1..1 + |b|][|b| - 1] == stream[|b|];
    assert stream[..1 + |b| + n] == Framed(header, body) && stream[1 + |b| + n..] == rest;
  }

  /** A longer one is refused: the client reconnects, though the standard allows up to four bytes of length. */
  lemma {:induction false} LongIsRefused(header: byte, body: seq<byte>, rest: seq<byte>)
    requires |body| >= LIMIT
    ensures ReadPacket(Framed(header, body) + rest) == Failed
  {
    var b, stream := LengthBytes(|body|), Framed(header, body) + rest;
    LengthBytesMean(|body|);
    LengthBytesSize(|body|);
    hide LengthBytes, VarInt, Decoded, ReadLength;
    assert stream == [header] + b + (body + rest);
    BehindHeader(header, b, body + rest);
    ThreeContinue(stream);
  }

  lemma {:induction false} BehindHeader(header: byte, b: seq<byte>, rest: seq<byte>)
    requires |b| >= 4
    ensures var s := [header] + b + rest; |s| >= 5 && s[1] == b[0] && s[2] == b[1] && s[3] == b[2]
  {
  }

  lemma {:induction false} ThreeContinue(stream: seq<byte>)
    requires |stream| >= 5 && stream[1] >= 128 && stream[2] >= 128 && stream[3] >= 128
    ensures ReadLength(stream, 0) == Failed
  {
    hide VarInt;
    assert ReadLength(stream, 3) == Failed;
    assert ReadLength(stream, 0) == ReadLength(stream, 1);
  }

  /** A header byte and a body for each packet. */
  function Stream(packets: seq<(byte, seq<byte>)>): seq<byte> {
    if packets == [] then [] else Framed(packets[0].0, packets[0].1) + Stream(packets[1..])
  }

  function Frames(packets: seq<(byte, seq<byte>)>): seq<seq<byte>> {
    if packets == [] then [] else [Framed(packets[0].0, packets[0].1)] + Frames(packets[1..])
  }

  /** Any packets written one after the other are read one after the other. */
  lemma {:induction false} PacketsAreRead(packets: seq<(byte, seq<byte>)>)
    requires forall p :: p in packets ==> |p.1| < LIMIT
    ensures Packets(Stream(packets)) == Frames(packets)
  {
    if packets != [] {
      FramedIsRead(packets[0].0, packets[0].1, Stream(packets[1..]));
      hide Framed;
      PacketsAreRead(packets[1..]);
    }
  }
}
