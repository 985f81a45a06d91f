/**
  * How a broker that follows MQTT 3.1.1 reads the packets of the client of src/mqtt/mqtt_client.cpp: lengths of up
  * to four bytes (section 2.2.3), topics (sections 1.5.3, 3.3.2 and 4.7.3), PUBLISH (section 3.3) and PUBREL (section 3.6).
  */
module MqttBroker {
  import opened Bytes
  import opened MqttCodec

  const STANDARD_LIMIT: nat := 128 * LIMIT

  /** The length at the front of `data` and how many bytes it takes. */
  function StandardLength(data: seq<byte>): Option<(nat, nat)> {
    if |data| >= 1 && data[0] < 128 then Some((VarInt(data[..1]), 1))
    else if |data| >= 2 && data[1] < 128 then Some((VarInt(data[..2]), 2))
    else if |data| >= 3 && data[2] < 128 then Some((VarInt(data[..3]), 3))
    else if |data| >= 4 && data[3] < 128 then Some((VarInt(data[..4]), 4))
    else None
  }

  /** The packet type in the fixed header. */
  function Kind(packet: seq<byte>): nat {
    if packet == [] then 0 else packet[0] / 16
  }

  // ---- topics --------------------------------------------------------------------------------------------

  predicate IsTail(b: byte) {
    128 <= b < 192
  }

  /** How many bytes the UTF-8 character at the front takes (section 4 of RFC 3629): no longer form than needed, no
    * surrogate, nothing above U+10FFFF. 0 if there is none. */
  function CharLength(s: seq<byte>): (n: nat)
    ensures n <= |s|
  {
    if |s| >= 1 && s[0] < 128 then 1
    else if |s| >= 2 && 194 <= s[0] < 224 && IsTail(s[1]) then 2
    else if |s| >= 3 && 224 <= s[0] < 240 && IsTail(s[1]) && IsTail(s[2])
            && (s[0] == 224 ==> s[1] >= 160) && (s[0] == 237 ==> s[1] < 160) then 3
    else if |s| >= 4 && 240 <= s[0] < 245 && IsTail(s[1]) && IsTail(s[2]) && IsTail(s[3])
            && (s[0] == 240 ==> s[1] >= 144) && (s[0] == 244 ==> s[1] < 144) then 4
    else 0
  }

  predicate Utf8(s: seq<byte>)
    decreases |s|
  {
    s == [] || (CharLength(s) > 0 && Utf8(s[CharLength(s)..]))
  }

  const PLUS: byte := 43
  const HASH: byte := 35

  /** A topic name that a receiver must not refuse: not empty, UTF-8, without U+0000 and wildcards. */
  predicate ValidTopic(topic: seq<byte>) {
    topic != [] && 0 !in topic && PLUS !in topic && HASH !in topic && Utf8(topic)
  }

  // ---- packets -------------------------------------------------------------------------------------------

  /** What a packet means for the exchanges of QoS 1 and 2. */
  datatype Input = Publication(p: Publish) | Release(id: nat) | Nothing

  predicate Acceptable(p: Publish) {
    1 <= p.qos <= 2 && p.packetId != 0 && ValidTopic(p.topic)
  }

  /** A packet that is malformed, whose identifier is zero or whose topic is not allowed means nothing: the broker closes
    * the connection. */
  function Read(packet: seq<byte>): Input {
    if Kind(packet) == PUBLISH then
      match StandardLength(packet[1..])
      case None => Nothing
      case Some((n, k)) =>
        if |packet| != 1 + k + n then Nothing
        else
          match ParsedBody(packet[0], packet[1..][k..])
          case None => Nothing
          case Some(p) => if Acceptable(p) then Publication(p) else Nothing
    else if Kind(packet) == PUBREL then
      if |packet| == 4 && packet[0] % 16 == 2 && packet[1] == 2 && FromBe16(packet[2], packet[3]) != 0
      then Release(FromBe16(packet[2], packet[3])) else Nothing
    else Nothing
  }

  lemma {:induction false} FourBytes(n: nat)
    ensures |LengthBytes(n)| <= 4 <==> n < STANDARD_LIMIT
  {
    if n >= 128 {
      LengthBytesSize(n / 128);
      assert |LengthBytes(n)| == 1 + |LengthBytes(n / 128)|;
    }
  }

  lemma {:induction false} StandardLengthRead(n: nat, rest: seq<byte>)
    ensures StandardLength(LengthBytes(n) + rest) == if n < STANDARD_LIMIT then Some((n, |LengthBytes(n)|)) else None
  {
    var b := LengthBytes(n);
    LengthBytesMean(n);
    FourBytes(n);
    hide LengthBytes, VarInt;
    var data := b + rest;
    assert forall i :: 0 <= i < |b| ==> data[i] == b[i];
    if |b| <= 4 {
      assert data[..|b|] == b;
    }
  }

  // ---- publications --------------------------------------------------------------------------------------

  /** A publication as the client makes it at QoS 1 or 2. */
  predicate Made(p: Publish) {
    1 <= p.qos <= 2 && 0 < p.packetId < 65536
  }

  /** Where a topic of 65536 bytes or more is cut: its length is written modulo 2^16. */
  function Cut(topic: seq<byte>): (m: nat)
    requires |topic| >= 65536
    ensures m + 2 <= |topic|
  {
    |topic| % 65536
  }

  /** What is then taken for the packet identifier. */
  function MisreadId(topic: seq<byte>): nat
    requires |topic| >= 65536
  {
    FromBe16(topic[Cut(topic)], topic[Cut(topic) + 1])
  }

  function Misread(p: Publish): Publish
    requires |p.topic| >= 65536
  {
    var m := Cut(p.topic);
    Publish(p.topic[..m], p.topic[m + 2..] + Be16(p.packetId) + p.payload, p.qos, p.retain, MisreadId(p.topic))
  }

  /** How long the packet is behind its length field. */
  function BodyLength(topic: seq<byte>, payload: seq<byte>): nat {
    2 + |topic| + 2 + |payload|
  }

  /** Brokers read the publication as it was made, or do not read it at all. */
  predicate Clear(topic: seq<byte>, payload: seq<byte>) {
    || |topic| < 65536 || BodyLength(topic, payload) >= STANDARD_LIMIT
    || MisreadId(topic) == 0 || !ValidTopic(topic[..Cut(topic)])
  }

  lemma {:induction false} MisreadBody(p: Publish)
    requires Made(p) && |p.topic| >= 65536
    ensures ParsedBody(PublishHeader(p), Body(p)) == Some(Misread(p))
  {
    var m := Cut(p.topic);
    var tail := p.topic[m + 2..] + Be16(p.packetId) + p.payload;
    HeaderRoundTrip(p);
    BodyParts(p);
    hide PublishHeader, FromBe16;
    var body := Body(p);
    assert body == Be16(|p.topic|) + p.topic + Be16(p.packetId) + p.payload;
    assert body[2 + m..] == p.topic[m..] + Be16(p.packetId) + p.payload;
    assert body[2..2 + m] == p.topic[..m];
    var rest := body[2 + m..];
    assert rest[0] == p.topic[m] && rest[1] == p.topic[m + 1] && rest[2..] == tail;
    hide Body, Be16;
    ParsedParts(PublishHeader(p), body, p.qos, p.retain, p.topic[..m], rest);
  }

  /** What a broker makes of a publication. */
  lemma {:induction false} PublicationRead(p: Publish)
    requires Made(p)
    ensures Read(PublishBytes(p)) ==
            if BodyLength(p.topic, p.payload) >= STANDARD_LIMIT then Nothing
            else if |p.topic| < 65536 then if ValidTopic(p.topic) then Publication(p) else Nothing
            else if MisreadId(p.topic) == 0 || !ValidTopic(p.topic[..Cut(p.topic)]) then Nothing
            else Publication(Misread(p))
  {
    assert |Body(p)| == BodyLength(p.topic, p.payload);
    HeaderRoundTrip(p);
    BodyRoundTrip(p);
    if |p.topic| >= 65536 {
      MisreadBody(p);
    }
    hide LengthBytes, Body, ParsedBody, Read, PublishHeader, MisreadId, BodyLength, ValidTopic;
    FramedRead(PublishHeader(p), Body(p));
  }

  /** A whole packet of type PUBLISH. */
  lemma {:induction false} FramedRead(header: byte, body: seq<byte>)
    requires header / 16 == PUBLISH
    ensures Read([header] + LengthBytes(|body|) + body) ==
            if |body| >= STANDARD_LIMIT then Nothing
            else
              match ParsedBody(header, body)
              case None => Nothing
              case Some(p) => if Acceptable(p) then Publication(p) else Nothing
  {
    var n, packet := |body|, [header] + LengthBytes(|body|) + body;
    hide LengthBytes, ParsedBody, StandardLength, Acceptable;
    assert packet[1..] == LengthBytes(n) + body;
    StandardLengthRead(n, body);
    assert (LengthBytes(n) + body)[|LengthBytes(n)|..] == body;
  }

  /** That is: as it was made, or not at all, exactly if it is clear. */
  lemma {:induction false} ClearMeans(p: Publish)
    requires Made(p)
    ensures Clear(p.topic, p.payload) <==> Read(PublishBytes(p)) in {Nothing, Publication(p)}
  {
    PublicationRead(p);
    hide Read, PublishBytes, BodyLength, MisreadId, ValidTopic;
    if |p.topic| >= 65536 {
      assert |Misread(p).topic| < |p.topic|;
    }
  }

  /** The client's other packets. */
  lemma {:induction false} OthersRead(kind: nat, id: nat)
    requires PUBACK <= kind <= PUBCOMP && id < 65536
    ensures Read(Ack(kind, id)) == if kind == PUBREL && id != 0 then Release(id) else Nothing
    ensures Kind(Ack(kind, id)) == kind && AckId(Ack(kind, id)) == Some(id)
  {
    AckRoundTrip(kind, id);
    hide Be16, FromBe16;
  }

  lemma {:induction false} QosZeroRead(p: Publish)
    requires p.qos == 0
    ensures Read(PublishBytes(p)) == Nothing && Kind(PublishBytes(p)) == PUBLISH
  {
    HeaderRoundTrip(p);
    hide Body, LengthBytes, PublishHeader, StandardLength, ValidTopic;
    BodyKeepsQos(PublishHeader(p), PublishBytes(p)[1..]);
    forall k | 0 <= k <= |PublishBytes(p)[1..]| {
      BodyKeepsQos(PublishHeader(p), PublishBytes(p)[1..][k..]);
    }
  }

  lemma {:induction false} BodyKeepsQos(header: byte, body: seq<byte>)
    ensures ParsedBody(header, body).Some? ==> ParsedBody(header, body).value.qos == header / 2 % 4
  {
  }
}
