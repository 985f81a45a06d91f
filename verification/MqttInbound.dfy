/**
  * The receiver's half of section 4.3 of MQTT 3.1.1: a broker publishes to the client of
  * src/mqtt/mqtt_client.cpp at QoS 1 and 2. The two channels lose nothing; the broker reads the answers off
  * their bytes, with the first bytes of sections 3.4 to 3.7 of the standard.
  */
module MqttInbound {
  import opened Bytes
  import opened MqttCodec
  import opened MqttQos

  // ---- the broker ----------------------------------------------------------------------------------------

  /** What the broker waits for under an identifier. */
  datatype Phase = AwaitsAck | AwaitsRec | AwaitsComp

  /** What the broker sends: a publication at QoS 1 or 2, the PUBREL for one, or any other packet. */
  datatype Sending =
    | Publication(topic: seq<byte>, payload: seq<byte>, qos: nat, retain: bool, id: nat)
    | Release(id: nat)
    | Other(bytes: seq<byte>)

  predicate IsId(id: nat) {
    1 <= id <= 65535
  }

  /** Packets that start no exchange and continue none. A first byte of 48 or 49 is a publication at QoS 0. */
  predicate Unrelated(bytes: seq<byte>) {
    bytes != [] ==> bytes[0] < 50 || 64 <= bytes[0] < 96 || bytes[0] >= 112
  }

  /** The packets this client can be sent: the topic fits its length field, and the body is shorter than 128^3 bytes. */
  predicate Sendable(d: Sending) {
    match d
    case Publication(topic, payload, qos, _, id) =>
      1 <= qos <= 2 && IsId(id) && |topic| < 65536 && |topic| + |payload| + 4 < 2097152
    case Release(id) => IsId(id)
    case Other(bytes) => Unrelated(bytes)
  }

  /** The identifier as two bytes. */
  function IdBytes(id: nat): seq<byte>
    requires id <= 65535
  {
    [id / 256, id % 256]
  }

  /** What is sent, byte by byte. */
  function Wire(d: Sending): seq<byte>
    requires Sendable(d)
  {
    match d
    case Publication(topic, payload, qos, retain, id) =>
      Framed(48 + 2 * qos + (if retain then 1 else 0), [|topic| / 256, |topic| % 256] + topic + IdBytes(id) + payload)
    case Release(id) => [98, 2] + IdBytes(id)
    case Other(bytes) => bytes
  }

  /** The answer a packet is, from its first byte, and its identifier. */
  function AnswerIn(bytes: seq<byte>): Option<(nat, Phase)> {
    if |bytes| != 4 || bytes[1] != 2 then None
    else
      var id := bytes[2] as int * 256 + bytes[3];
      if bytes[0] == 64 then Some((id, AwaitsAck))
      else if bytes[0] == 80 then Some((id, AwaitsRec))
      else if bytes[0] == 112 then Some((id, AwaitsComp))
      else None
  }

  /** The broker's exchanges, and the two channels. */
  datatype State = State(client: Client, open: map<nat, Phase>, down: seq<Sending>, up: seq<seq<byte>>)

  datatype Step =
    | BrokerSends(d: Sending)
    | ClientSends(bytes: seq<byte>)        // its own publications, subscriptions, PUBREL, PINGREQ
    | ClientReceives
    | BrokerReceives

  function Start(client: Client): State {
    State(client, map[], [], [])
  }

  /** The broker uses an identifier again when its exchange is over, and sends PUBREL only for a PUBREC. */
  predicate Allowed(s: State, e: Step) {
    match e
    case BrokerSends(d) => Sendable(d) && !d.Release? && (d.Publication? ==> d.id !in s.open)
    case ClientSends(bytes) => AnswerIn(bytes).None?
    case ClientReceives => s.down != [] && Sendable(s.down[0])
    case BrokerReceives => s.up != []
  }

  /** The first packet of the upward channel arrives. */
  function Reads(s: State): State
    requires s.up != []
  {
    var t := s.(up := s.up[1..]);
    match AnswerIn(s.up[0])
    case None => t
    case Some((id, phase)) =>
      if id !in s.open || s.open[id] != phase then t
      else if phase == AwaitsRec then t.(open := s.open[id := AwaitsComp], down := s.down + [Release(id)])
      else t.(open := s.open - {id})
  }

  function After(s: State, e: Step): State
    requires Allowed(s, e)
  {
    match e
    case BrokerSends(d) =>
      s.(down := s.down + [d],
         open := if d.Publication? then s.open[d.id := if d.qos == 1 then AwaitsAck else AwaitsRec] else s.open)
    case ClientSends(bytes) => s.(up := s.up + [bytes])
    case ClientReceives =>
      var (c, replies) := Handle(s.client, Wire(s.down[0]));
      s.(client := c, down := s.down[1..], up := s.up + replies)
    case BrokerReceives => Reads(s)
  }

  ghost predicate Leads(s: State, es: seq<Step>, t: State)
    decreases |es|
  {
    if es == [] then s == t else Allowed(s, es[0]) && Leads(After(s, es[0]), es[1..], t)
  }

  // ---- what a packet under way stands for ----------------------------------------------------------------

  function PhaseOf(d: Sending): multiset<(nat, Phase)> {
    match d
    case Publication(_, _, qos, _, id) => multiset{(id, if qos == 1 then AwaitsAck else AwaitsRec)}
    case Release(id) => multiset{(id, AwaitsComp)}
    case Other(_) => multiset{}
  }

  function PhaseIn(bytes: seq<byte>): multiset<(nat, Phase)> {
    if AnswerIn(bytes).Some? then multiset{AnswerIn(bytes).value} else multiset{}
  }

  function PhasesDown(ds: seq<Sending>): multiset<(nat, Phase)> {
    if ds == [] then multiset{} else PhaseOf(ds[0]) + PhasesDown(ds[1..])
  }

  function PhasesUp(packets: seq<seq<byte>>): multiset<(nat, Phase)> {
    if packets == [] then multiset{} else PhaseIn(packets[0]) + PhasesUp(packets[1..])
  }

  function Phases(s: State): multiset<(nat, Phase)> {
    PhasesDown(s.down) + PhasesUp(s.up)
  }

  /** Every open exchange has exactly one packet under way, the one that is due, and no other exchange has any. */
  ghost predicate OnePacketEach(phases: multiset<(nat, Phase)>, open: map<nat, Phase>) {
    forall id: nat, phase: Phase :: phases[(id, phase)] == if id in open && open[id] == phase then 1 else 0
  }

  ghost predicate Fine(s: State) {
    && OnePacketEach(Phases(s), s.open)
    && (forall d :: d in s.down ==> Sendable(d))
    && (forall id :: id in s.open ==> IsId(id))
  }

  lemma {:induction false} ExchangeOpens(phases: multiset<(nat, Phase)>, open: map<nat, Phase>, id: nat, phase: Phase)
    requires OnePacketEach(phases, open) && id !in open
    ensures OnePacketEach(phases + multiset{(id, phase)}, open[id := phase])
  {
  }

  lemma {:induction false} ExchangeCloses(phases: multiset<(nat, Phase)>, open: map<nat, Phase>, id: nat, phase: Phase)
    requires OnePacketEach(phases + multiset{(id, phase)}, open)
    ensures id in open && open[id] == phase && OnePacketEach(phases, open - {id})
  {
    var all := phases + multiset{(id, phase)};
    assert all[(id, phase)] > 0;
    forall i: nat, p: Phase
      ensures phases[(i, p)] == if i in open - {id} && (open - {id})[i] == p then 1 else 0
    {
      assert all[(i, p)] == phases[(i, p)] + (if (i, p) == (id, phase) then 1 else 0);
    }
  }

  lemma {:induction false} PhasesDownAppend(ds: seq<Sending>, d: Sending)
    ensures PhasesDown(ds + [d]) == PhasesDown(ds) + PhaseOf(d)
  {
    hide PhaseOf;
    if ds == [] {
      assert ds + [d] == [d] && [d][1..] == [];
    } else {
      assert (ds + [d])[1..] == ds[1..] + [d];
      PhasesDownAppend(ds[1..], d);
    }
  }

  lemma {:induction false} PhasesUpAppend(packets: seq<seq<byte>>, bytes: seq<byte>)
    ensures PhasesUp(packets + [bytes]) == PhasesUp(packets) + PhaseIn(bytes)
  {
    hide PhaseIn;
    if packets == [] {
      assert packets + [bytes] == [bytes] && [bytes][1..] == [];
    } else {
      assert (packets + [bytes])[1..] == packets[1..] + [bytes];
      PhasesUpAppend(packets[1..], bytes);
    }
  }

  // ---- what the client answers ----------------------------------------------------------------------------

  /** The identifier is written as it is. */
  lemma {:induction false} IdBytesAre(id: nat)
    requires id <= 65535
    ensures Be16(id) == IdBytes(id) && IdBytes(id)[0] as int * 256 + IdBytes(id)[1] == id
    ensures FromBe16(IdBytes(id)[0], IdBytes(id)[1]) == id
  {
    Be16Bytes(id);
    assert id % 65536 == id;
  }

  /** The four acknowledgements, byte by byte. */
  lemma {:induction false} AckBytes(id: nat)
    requires id <= 65535
    ensures Ack(PUBACK, id) == [64, 2, id / 256, id % 256]
    ensures Ack(PUBREC, id) == [80, 2, id / 256, id % 256]
    ensures Ack(PUBREL, id) == [98, 2, id / 256, id % 256]
    ensures Ack(PUBCOMP, id) == [112, 2, id / 256, id % 256]
  {
    IdBytesAre(id);
  }

  /** A publication is read by the client as it was sent. */
  lemma {:induction false} WireIsRead(d: Sending)
    requires Sendable(d) && d.Publication?
    ensures Wire(d) != [] && Wire(d)[0] / 16 == 3
    ensures Parsed(Wire(d)) == Some(Publish(d.topic, d.payload, d.qos, d.retain, d.id))
  {
    var p := Publish(d.topic, d.payload, d.qos, d.retain, d.id);
    BodyIs(p);
    WireIs(d);
    PublishRoundTrip(p);
    HeaderIs(p);
    hide Wire, Body, Parsed, LengthBytes, PublishHeader;
  }

  lemma {:induction false} WireIs(d: Sending)
    requires Sendable(d) && d.Publication?
    ensures Wire(d) == PublishBytes(Publish(d.topic, d.payload, d.qos, d.retain, d.id))
  {
    var p := Publish(d.topic, d.payload, d.qos, d.retain, d.id);
    BodyIs(p);
    HeaderIs(p);
    hide Body, IdBytes, LengthBytes, PublishHeader;
  }

  lemma {:induction false} BodyIs(p: Publish)
    requires 1 <= p.qos <= 2 && IsId(p.packetId) && |p.topic| < 65536
    ensures Body(p) == [|p.topic| / 256, |p.topic| % 256] + p.topic + IdBytes(p.packetId) + p.payload
    ensures |Body(p)| == |p.topic| + |p.payload| + 4
  {
    IdBytesAre(p.packetId);
    IdBytesAre(|p.topic|);
    hide Be16;
  }

  lemma {:induction false} HeaderIs(p: Publish)
    requires 1 <= p.qos <= 2
    ensures PublishHeader(p) == 48 + 2 * p.qos + (if p.retain then 1 else 0) && PublishHeader(p) / 16 == 3
  {
  }

  /** The reply moves the exchange on: PUBACK or PUBREC with the identifier of the publication, PUBCOMP with that of the
    * PUBREL; to other packets no answer of these is given. */
  lemma {:induction false} ReplyIsDue(c: Client, d: Sending)
    requires Sendable(d)
    ensures var replies := Handle(c, Wire(d)).1;
            && |replies| <= 1
            && (d.Other? ==> replies == [] || AnswerIn(replies[0]).None?)
            && (!d.Other? ==> |replies| == 1 && PhaseIn(replies[0]) == PhaseOf(d))
  {
    match d
    case Publication(_, _, _, _, id) =>
      ReplyToPublication(c, d);
    case Release(id) =>
      ReplyToRelease(c, id);
    case Other(bytes) =>
      ReplyToOther(c, bytes);
  }

  lemma {:induction false} ReplyToPublication(c: Client, d: Sending)
    requires Sendable(d) && d.Publication?
    ensures Handle(c, Wire(d)).1 == [[if d.qos == 1 then 64 else 80, 2] + IdBytes(d.id)]
    ensures PhaseIn([if d.qos == 1 then 64 else 80, 2] + IdBytes(d.id)) == PhaseOf(d)
  {
    hide Wire, Parsed, Ack, AnswerIn;
    WireIsRead(d);
    AckBytes(d.id);
    AnswerBytes(if d.qos == 1 then 64 else 80, d.id);
    assert [64, 2] + IdBytes(d.id) == [64, 2, d.id / 256, d.id % 256];
    assert [80, 2] + IdBytes(d.id) == [80, 2, d.id / 256, d.id % 256];
  }

  lemma {:induction false} AnswerBytes(first: byte, id: nat)
    requires id <= 65535 && (first == 64 || first == 80)
    ensures AnswerIn([first, 2] + IdBytes(id)) == Some((id, if first == 64 then AwaitsAck else AwaitsRec))
  {
    IdBytesAre(id);
  }

  lemma {:induction false} ReplyToRelease(c: Client, id: nat)
    requires IsId(id)
    ensures Handle(c, Wire(Release(id))).1 == [[112, 2] + IdBytes(id)]
    ensures PhaseIn([112, 2] + IdBytes(id)) == PhaseOf(Release(id))
  {
    AckBytes(id);
    IdBytesAre(id);
    hide Ack, FromBe16, Parsed;
    var packet := Wire(Release(id));
    assert packet[2] == IdBytes(id)[0] && packet[3] == IdBytes(id)[1];
  }

  lemma {:induction false} ReplyToOther(c: Client, bytes: seq<byte>)
    requires Unrelated(bytes)
    ensures var replies := Handle(c, bytes).1; replies == [] || (|replies| == 1 && AnswerIn(replies[0]).None?)
  {
    if bytes != [] && bytes[0] / 16 == 3 {
      QosOfParsed(bytes);
    } else if |bytes| >= 4 {
      AckBytes(FromBe16(bytes[2], bytes[3]));
    }
    hide Parsed, Ack, FromBe16;
  }

  lemma {:induction false} QosOfParsed(bytes: seq<byte>)
    requires bytes != []
    ensures Parsed(bytes).Some? ==> Parsed(bytes).value.qos == bytes[0] / 2 % 4
  {
    hide Decoded;
  }

  // ---- every run ------------------------------------------------------------------------------------------

  lemma {:induction false} SendingKeeps(s: State, d: Sending)
    requires Fine(s) && Allowed(s, BrokerSends(d))
    ensures Fine(After(s, BrokerSends(d)))
  {
    PhasesDownAppend(s.down, d);
    assert d.Publication? ==> IsId(d.id);
    hide PhasesDown, PhasesUp, Sendable, IsId, OnePacketEach;
    var t := After(s, BrokerSends(d));
    assert Phases(t) == Phases(s) + PhaseOf(d);
    if d.Publication? {
      ExchangeOpens(Phases(s), s.open, d.id, if d.qos == 1 then AwaitsAck else AwaitsRec);
    } else {
      assert Phases(t) == Phases(s);
    }
  }

  lemma {:induction false} ReceivingKeeps(s: State)
    requires Fine(s) && Allowed(s, ClientReceives)
    ensures Fine(After(s, ClientReceives))
  {
    hide Handle, Wire, Sendable, PhaseIn, PhaseOf, AnswerIn, Fine;
    ReplyIsDue(s.client, s.down[0]);
    ClientTakes(s, Handle(s.client, Wire(s.down[0])).1, After(s, ClientReceives));
  }

  lemma {:induction false} ClientTakes(s: State, replies: seq<seq<byte>>, t: State)
    requires Fine(s) && s.down != [] && |replies| <= 1
    requires t.open == s.open && t.down == s.down[1..] && t.up == s.up + replies
    requires if s.down[0].Other? then replies == [] || AnswerIn(replies[0]).None?
             else |replies| == 1 && PhaseIn(replies[0]) == PhaseOf(s.down[0])
    ensures Fine(t)
  {
    hide Sendable, PhaseOf, AnswerIn, IsId;
    if replies != [] {
      assert replies == [replies[0]];
      PhasesUpAppend(s.up, replies[0]);
    } else {
      assert s.up + replies == s.up;
    }
    if s.down[0].Other? {
      OtherHasNone(s.down[0]);
    }
    assert Phases(t) == Phases(s);
  }

  lemma {:induction false} OtherHasNone(d: Sending)
    requires d.Other?
    ensures PhaseOf(d) == multiset{}
  {
  }

  lemma {:induction false} ReadingKeeps(s: State)
    requires Fine(s) && s.up != []
    ensures Fine(Reads(s))
  {
    hide AnswerIn, PhasesDown, PhasesUp, PhaseOf, Sendable, IsId, OnePacketEach;
    FirstUp(s);
    if AnswerIn(s.up[0]).Some? {
      var (id, phase) := AnswerIn(s.up[0]).value;
      var u := s.(up := s.up[1..]);
      assert Phases(s) == Phases(u) + multiset{(id, phase)};
      ExchangeCloses(Phases(u), s.open, id, phase);
      if phase == AwaitsRec {
        ExchangeGoesOn(s, u, id);
      }
    } else {
      assert Phases(s) == Phases(Reads(s));
    }
  }

  lemma {:induction false} FirstUp(s: State)
    requires s.up != []
    ensures Phases(s) == PhaseIn(s.up[0]) + Phases(s.(up := s.up[1..]))
  {
    hide PhaseIn, PhasesDown;
  }

  /** What a PUBREC does. */
  lemma {:induction false} ExchangeGoesOn(s: State, u: State, id: nat)
    requires Fine(s) && s.up != [] && AnswerIn(s.up[0]) == Some((id, AwaitsRec)) && id in s.open && s.open[id] == AwaitsRec
    requires u == s.(up := s.up[1..]) && OnePacketEach(Phases(u), s.open - {id})
    ensures Fine(Reads(s))
  {
    var t := Reads(s);
    PhasesDownAppend(s.down, Release(id));
    assert Sendable(Release(id));
    hide AnswerIn, PhasesDown, PhasesUp, Sendable, IsId, OnePacketEach;
    assert Phases(t) == Phases(u) + multiset{(id, AwaitsComp)};
    ExchangeOpens(Phases(u), s.open - {id}, id, AwaitsComp);
    assert t.open == (s.open - {id})[id := AwaitsComp];
  }

  lemma {:induction false} StepKeeps(s: State, e: Step)
    requires Fine(s) && Allowed(s, e)
    ensures Fine(After(s, e))
  {
    match e
    case BrokerSends(d) =>
      SendingKeeps(s, d);
    case ClientSends(bytes) =>
      PhasesUpAppend(s.up, bytes);
      hide PhasesUp, PhasesDown, AnswerIn;
    case ClientReceives =>
      ReceivingKeeps(s);
    case BrokerReceives =>
      ReadingKeeps(s);
  }

  lemma {:induction false} RunKeeps(s: State, es: seq<Step>, t: State)
    requires Fine(s) && Leads(s, es, t)
    ensures Fine(t)
    decreases |es|
  {
    hide Fine, Allowed, After;
    if es != [] {
      StepKeeps(s, es[0]);
      RunKeeps(After(s, es[0]), es[1..], t);
    }
  }

  /** In every run: as long as an exchange is open, the packet that takes it on is under way; when nothing is under way,
    * every exchange is over. */
  lemma {:induction false} NoExchangeIsLeftOpen(client: Client, es: seq<Step>, s: State)
    requires Leads(Start(client), es, s)
    ensures forall id :: id in s.open ==> Phases(s)[(id, s.open[id])] == 1
    ensures s.down == [] && s.up == [] ==> s.open == map[]
  {
    assert Fine(Start(client));
    RunKeeps(Start(client), es, s);
  }

  // ---- every exchange ends --------------------------------------------------------------------------------

  /** How many deliveries a packet can still cause. */
  function WeightDown(d: Sending): nat {
    match d
    case Publication(_, _, qos, _, _) => if qos == 1 then 2 else 5
    case _ => 2
  }

  function WeightUp(bytes: seq<byte>): nat {
    if AnswerIn(bytes).Some? && AnswerIn(bytes).value.1 == AwaitsRec then 4 else 1
  }

  function Downward(ds: seq<Sending>): nat {
    if ds == [] then 0 else WeightDown(ds[0]) + Downward(ds[1..])
  }

  function Upward(packets: seq<seq<byte>>): nat {
    if packets == [] then 0 else WeightUp(packets[0]) + Upward(packets[1..])
  }

  function Work(s: State): nat {
    Downward(s.down) + Upward(s.up)
  }

  lemma {:induction false} DownwardAppend(ds: seq<Sending>, d: Sending)
    ensures Downward(ds + [d]) == Downward(ds) + WeightDown(d)
  {
    hide WeightDown;
    if ds == [] {
      assert ds + [d] == [d] && [d][1..] == [];
    } else {
      assert (ds + [d])[1..] == ds[1..] + [d];
      DownwardAppend(ds[1..], d);
    }
  }

  lemma {:induction false} UpwardAppend(packets: seq<seq<byte>>, bytes: seq<byte>)
    ensures Upward(packets + [bytes]) == Upward(packets) + WeightUp(bytes)
  {
    hide WeightUp;
    if packets == [] {
      assert packets + [bytes] == [bytes] && [bytes][1..] == [];
    } else {
      assert (packets + [bytes])[1..] == packets[1..] + [bytes];
      UpwardAppend(packets[1..], bytes);
    }
  }

  /** A delivery leaves less to do. */
  lemma {:induction false} DeliveryWorks(s: State, e: Step)
    requires Allowed(s, e) && (e.ClientReceives? || e.BrokerReceives?)
    ensures Work(After(s, e)) < Work(s)
  {
    if e.ClientReceives? {
      var d := s.down[0];
      ReplyIsDue(s.client, d);
      var replies := Handle(s.client, Wire(d)).1;
      if replies != [] {
        assert replies == [replies[0]];
        UpwardAppend(s.up, replies[0]);
        ReplyIsLighter(d, replies[0]);
      } else {
        assert s.up + replies == s.up;
      }
      hide Handle, Wire, Sendable, PhaseOf, PhaseIn, AnswerIn, WeightUp;
    } else {
      if AnswerIn(s.up[0]).Some? {
        DownwardAppend(s.down, Release(AnswerIn(s.up[0]).value.0));
      }
      hide AnswerIn;
    }
  }

  lemma {:induction false} ReplyIsLighter(d: Sending, reply: seq<byte>)
    requires if d.Other? then AnswerIn(reply).None? else PhaseIn(reply) == PhaseOf(d)
    ensures WeightUp(reply) < WeightDown(d)
  {
    if !d.Other? && AnswerIn(reply).Some? {
      assert AnswerIn(reply).value in PhaseIn(reply);
      assert AnswerIn(reply).value in PhaseOf(d);
    }
    hide AnswerIn;
  }

  /** Deliveries alone come to an end, and then every exchange is over: after any run, however the deliveries are ordered,
    * there are at most as many as there is work; where they stop, nothing is under way and no exchange is open. */
  lemma {:induction false} EveryExchangeEnds(client: Client, es: seq<Step>, s: State, deliveries: seq<Step>, t: State)
    requires Leads(Start(client), es, s) && Leads(s, deliveries, t)
    requires forall e :: e in deliveries ==> e.ClientReceives? || e.BrokerReceives?
    ensures |deliveries| + Work(t) <= Work(s)
    ensures (!Allowed(t, ClientReceives) && !Allowed(t, BrokerReceives)) ==> t.down == [] && t.up == [] && t.open == map[]
  {
    StartsFine(client);
    hide Leads, Work, Fine, Allowed;
    RunKeeps(Start(client), es, s);
    RunKeeps(s, deliveries, t);
    DeliveriesWork(s, deliveries, t);
    if !Allowed(t, ClientReceives) && !Allowed(t, BrokerReceives) {
      Stopped(t);
    }
  }

  lemma {:induction false} StartsFine(client: Client)
    ensures Fine(Start(client))
  {
  }

  lemma {:induction false} Stopped(t: State)
    requires Fine(t) && !Allowed(t, ClientReceives) && !Allowed(t, BrokerReceives)
    ensures t.down == [] && t.up == [] && t.open == map[]
  {
    hide Fine, Sendable;
    if t.down != [] {
      FirstIsTaken(t);
    }
    Quiet(t);
  }

  lemma {:induction false} FirstIsTaken(t: State)
    requires Fine(t) && t.down != []
    ensures Allowed(t, ClientReceives)
  {
    hide Sendable, OnePacketEach;
    assert t.down[0] in t.down;
  }

  lemma {:induction false} Quiet(t: State)
    requires Fine(t) && t.down == [] && t.up == []
    ensures t.open == map[]
  {
    forall id | id in t.open ensures Phases(t) != multiset{} {
      StillUnderWay(t, id);
    }
    assert Phases(t) == multiset{};
  }

  lemma {:induction false} StillUnderWay(t: State, id: nat)
    requires Fine(t) && id in t.open
    ensures Phases(t) != multiset{}
  {
    hide Phases;
    assert Phases(t)[(id, t.open[id])] == 1;
  }

  lemma {:induction false} DeliveriesWork(s: State, es: seq<Step>, t: State)
    requires Leads(s, es, t) && forall e :: e in es ==> e.ClientReceives? || e.BrokerReceives?
    ensures |es| + Work(t) <= Work(s)
    decreases |es|
  {
    hide Allowed, After, Work;
    if es != [] {
      DeliveryWorks(s, es[0]);
      DeliveriesWork(After(s, es[0]), es[1..], t);
    }
  }
}
