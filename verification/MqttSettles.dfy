/**
  * The sender's half of section 4.3 of MQTT 3.1.1 when nothing is lost: every publication the client of
  * src/mqtt/mqtt_client.cpp makes at QoS 1 or 2 leaves its table again.
  */
module MqttSettles {
  import opened Bytes
  import opened MqttBroker
  import opened MqttCodec
  import opened MqttQos

  /** Nothing is lost, and brokers can read what is published: the topic is allowed and fits its length field, and the
    * packet has a length that the standard can write. */
  predicate Faithful(e: Event) {
    match e
    case Publishes(topic, payload, qos, _, lost) =>
      !lost && (qos != 0 ==> |topic| < 65536 && ValidTopic(topic) && |topic| + |payload| + 4 < 268435456)
    case ReachesClient(lost) => !lost
    case Reconnects => false
    case _ => true
  }

  /** Whatever is in the table has a packet under way, or an answer owed by the broker. */
  ghost predicate Live(s: System) {
    forall id: nat :: id in s.client.pending ==> id in Moves(s)
  }

  // ---- what every step keeps -------------------------------------------------------------------------------

  lemma {:induction false} MoreMoves(s: System, t: System)
    requires Live(s) && Moves(s) <= Moves(t) && t.client.pending == s.client.pending
    ensures Live(t)
  {
    hide Moves;
    forall id: nat | id in t.client.pending ensures id in Moves(t) {
      assert Moves(s)[id] <= Moves(t)[id];
    }
  }

  lemma {:induction false} PublishLives(s: System, e: Event)
    requires Inv(s) && Live(s) && Enabled(s, e) && Careful(s, e) && Faithful(e) && e.Publishes? && e.qos != 0
    ensures Live(Next(s, e))
  {
    var t, p := Next(s, e), NewPublication(s, e);
    CountsOf(s);
    AcquireCounts(s.client.nextId, s.count);
    PublicationRead(p);
    hide Inv, PublishBytes, Acquire, IdOf, Counts, Read, ValidTopic, Moves, Careful;
    assert UpId(PublishBytes(p)) == multiset{p.packetId};
    MovesUp(s, t, [PublishBytes(p)]);
    forall id: nat | id in t.client.pending ensures id in Moves(t) {
      if id != p.packetId {
        assert id in Moves(s);
      }
    }
  }

  lemma {:induction false} OtherSendLives(s: System, e: Event)
    requires Inv(s) && Live(s) && Enabled(s, e) && (e.Subscribes? || (e.Publishes? && e.qos == 0))
    ensures Live(Next(s, e))
  {
    var t := Next(s, e);
    var packet := if e.Subscribes? then e.packet else PublishBytes(NewPublication(s, e));
    SilentSend(s, e, packet);
    hide Inv, PublishBytes, Acquire, Read, Moves, Counts, Next, UpOk;
    MovesUp(s, t.(client := s.client, count := s.count), Sent([packet], e.lost));
    SameMoves(t, s);
    MoreMoves(s, t);
  }

  lemma {:induction false} ArrivalMoves(s: System)
    requires s.up != []
    ensures Moves(Arrives(s)) == Moves(s)
  {
    var input := Read(s.up[0]);
    assert s.up == [s.up[0]] + s.up[1..];
    hide Read;
    assert Owed(Arrives(s).broker) == Owed(s.broker) + UpId(s.up[0]);
  }

  lemma {:induction false} EraseLives(s: System, e: Event)
    requires Inv(s) && Live(s) && Enabled(s, e) && e.ReachesClient? && Kind(s.down[0]) in {PUBACK, PUBCOMP}
    ensures Live(Next(s, e))
  {
    CountsOf(s);
    AnswerTaken(s, e);
    var t, id := Next(s, e), AckId(s.down[0]).value;
    hide Inv, Moves, Next, AckId, Kind, Says;
    forall k: nat | k in t.client.pending ensures k in Moves(t) {
      assert k in Moves(s) && k != id;
      assert Moves(s)[k] == (Moves(t) + multiset{id})[k];
    }
  }

  lemma {:induction false} ReleaseLives(s: System, e: Event)
    requires Inv(s) && Live(s) && Enabled(s, e) && e == ReachesClient(false) && Kind(s.down[0]) == PUBREC
    ensures Live(Next(s, e))
  {
    var packet := s.down[0];
    assert DownOk(s, packet);
    var t, id := Next(s, e), AckId(packet).value;
    CountsOf(s);
    AckIdFits(packet);
    HandleAnswer(s.client, packet);
    OthersRead(PUBREL, id);
    hide Handle, AckId, Kind, Ack, Inv, Read, Counts, Moves;
    var u := s.(down := s.down[1..]);
    MovesTaken(s);
    MovesUp(u, t, [Ack(PUBREL, id)]);
    assert UpId(Ack(PUBREL, id)) == multiset{id} == DownId(packet);
    hide UpId, DownId;
    MoreMoves(s, t);
  }

  lemma {:induction false} AckIdFits(packet: seq<byte>)
    ensures AckId(packet).Some? ==> AckId(packet).value < 65536
  {
  }

  lemma {:induction false} ReplyLives(s: System, e: Event)
    requires Inv(s) && Live(s) && Enabled(s, e) && e == ReachesClient(false) && Kind(s.down[0]) !in ANSWERS
    ensures Live(Next(s, e))
  {
    var packet := s.down[0];
    var t := Next(s, e);
    CountsOf(s);
    HandleOther(s.client, packet);
    hide Handle, Kind, Inv, Read, Counts, Moves;
    var replies := Handle(s.client, packet).1;
    var u := s.(down := s.down[1..]);
    MovesTaken(s);
    MovesUp(u, t, replies);
    assert DownId(packet) == multiset{};
    hide UpId, DownId;
    MoreMoves(s, t);
  }

  lemma {:induction false} BrokerSendLives(s: System, e: Event)
    requires Inv(s) && Live(s) && s.client.Valid() && Enabled(s, e) && (e.Answers? || e.SendsOther?)
    ensures Live(Next(s, e))
  {
    if e.Answers? {
      AnswerSays(s, e.kind, e.id);
      AnswerSent(s, e);
    } else {
      assert DownId(e.packet) == multiset{};
      MovesDown(s, Next(s, e), e.packet);
    }
    hide Inv, Moves, Says, DownOk, Enabled;
    MoreMoves(s, Next(s, e));
  }

  lemma {:induction false} StepLives(s: System, e: Event)
    requires Inv(s) && Live(s) && s.client.Valid() && Enabled(s, e) && Careful(s, e) && Faithful(e)
    ensures Live(Next(s, e))
  {
    hide Next, Inv, Careful, Live;
    if e.Publishes? && e.qos != 0 {
      PublishLives(s, e);
    } else if e.Publishes? || e.Subscribes? {
      OtherSendLives(s, e);
    } else if e.ReachesBroker? {
      BrokerLives(s, e);
    } else if e.ReachesClient? {
      if Kind(s.down[0]) !in ANSWERS {
        ReplyLives(s, e);
      } else if Kind(s.down[0]) == PUBREC {
        ReleaseLives(s, e);
      } else {
        EraseLives(s, e);
      }
    } else {
      BrokerSendLives(s, e);
    }
  }

  lemma {:induction false} BrokerLives(s: System, e: Event)
    requires Live(s) && s.client.Valid() && Enabled(s, e) && e.ReachesBroker?
    ensures Live(Next(s, e))
  {
    ArrivalMoves(s);
    hide Moves;
    MoreMoves(s, Next(s, e));
  }

  lemma {:induction false} RunLives(s: System, es: seq<Event>, t: System)
    requires Inv(s) && Live(s) && Run(s, es, t) && forall e :: e in es ==> Faithful(e)
    ensures Inv(t) && Live(t)
    decreases |es|
  {
    hide Inv, Live, Enabled, Careful, Next, Faithful;
    if es != [] {
      StepKeeps(s, es[0]);
      StepLives(s, es[0]);
      RunLives(Next(s, es[0]), es[1..], t);
    }
  }

  // ---- less and less to do ---------------------------------------------------------------------------------

  /** How many steps a packet, or an answer owed, can still cause. */
  function UpLoad(packet: seq<byte>): nat {
    match Read(packet)
    case Nothing => 1
    case Publication(p) => if p.qos == 1 then 4 else 7
    case Release(_) => 4
  }

  function DownLoad(packet: seq<byte>): nat {
    if Kind(packet) == PUBREC then 5 else 2
  }

  function Loads(loadOf: seq<byte> -> nat, packets: seq<seq<byte>>): nat {
    if packets == [] then 0 else loadOf(packets[0]) + Loads(loadOf, packets[1..])
  }

  function Load(s: System): nat {
    Loads(UpLoad, s.up) + Loads(DownLoad, s.down)
    + 3 * |s.broker.toAck| + 6 * |s.broker.toRec| + 3 * |s.broker.toComp|
  }

  lemma {:induction false} LoadsAppend(loadOf: seq<byte> -> nat, packets: seq<seq<byte>>, packet: seq<byte>)
    ensures Loads(loadOf, packets + [packet]) == Loads(loadOf, packets) + loadOf(packet)
  {
    if packets == [] {
      assert packets + [packet] == [packet] && [packet][1..] == [];
    } else {
      assert (packets + [packet])[1..] == packets[1..] + [packet];
      LoadsAppend(loadOf, packets[1..], packet);
    }
  }

  /** Packets arrive and answers are sent; nothing new is asked for. */
  predicate Delivers(e: Event) {
    e.ReachesBroker? || e == ReachesClient(false) || e.Answers?
  }

  lemma {:induction false} DeliveryUnloads(s: System, e: Event)
    requires s.client.Valid() && Enabled(s, e) && Delivers(e)
    ensures Load(Next(s, e)) < Load(s)
  {
    if e.ReachesBroker? {
      hide Read;
    } else if e.Answers? {
      AnswerUnloads(s, e);
    } else {
      ClientUnloads(s);
    }
  }

  lemma {:induction false} AnswerUnloads(s: System, e: Event)
    requires s.client.Valid() && Enabled(s, e) && e.Answers?
    ensures Load(Next(s, e)) < Load(s)
  {
    OthersRead(e.kind, e.id);
    LoadsAppend(DownLoad, s.down, Ack(e.kind, e.id));
    hide Ack, Kind, Loads;
    assert |ToAnswer(Answered(s.broker, e.kind, e.id), e.kind)| == |ToAnswer(s.broker, e.kind)| - 1;
  }

  lemma {:induction false} ClientUnloads(s: System)
    requires s.client.Valid() && s.down != []
    ensures Load(Next(s, ReachesClient(false))) < Load(s)
  {
    var packet := s.down[0];
    var replies := Handle(s.client, packet).1;
    ReplyLoad(s.client, packet);
    if replies != [] {
      assert replies == [replies[0]];
      LoadsAppend(UpLoad, s.up, replies[0]);
    } else {
      assert s.up + replies == s.up;
    }
    hide Handle, UpLoad, DownLoad;
  }

  lemma {:induction false} ReplyLoad(c: Client, packet: seq<byte>)
    ensures var replies := Handle(c, packet).1;
            |replies| <= 1 && (replies != [] ==> UpLoad(replies[0]) < DownLoad(packet))
  {
    if Kind(packet) !in ANSWERS {
      HandleOther(c, packet);
    } else if AckId(packet).Some? {
      AckIdFits(packet);
      HandleAnswer(c, packet);
      OthersRead(PUBREL, AckId(packet).value);
    }
    hide Read, Ack, AckId, Parsed;
  }

  lemma {:induction false} DeliveriesUnload(s: System, es: seq<Event>, t: System)
    requires Run(s, es, t) && forall e :: e in es ==> Delivers(e)
    ensures |es| + Load(t) <= Load(s)
    decreases |es|
  {
    hide Enabled, Careful, Next, Load, Delivers;
    if es != [] {
      DeliveryUnloads(s, es[0]);
      DeliveriesUnload(Next(s, es[0]), es[1..], t);
    }
  }

  /** On channels that lose nothing, what is in the table always has something under way or owed; from any state that a
    * run reaches, deliveries and answers alone come to an end; and where none is possible any more the table is empty. */
  lemma {:induction false} EveryEntryLeaves(es: seq<Event>, s: System, deliveries: seq<Event>, t: System)
    requires Run(Initial(), es, s) && Run(s, deliveries, t)
    requires (forall e :: e in es ==> Faithful(e)) && forall e :: e in deliveries ==> Delivers(e)
    ensures forall id: nat :: id in s.client.pending ==> id in Moves(s)
    ensures |deliveries| + Load(t) <= Load(s)
    ensures (forall e :: Delivers(e) ==> !Enabled(t, e)) ==> t.client.pending == map[]
  {
    InitiallyOk();
    assert Live(Initial());
    RunLives(Initial(), es, s);
    forall e | e in deliveries ensures Faithful(e) {
      assert Delivers(e);
    }
    RunLives(s, deliveries, t);
    DeliveriesUnload(s, deliveries, t);
    if forall e :: Delivers(e) ==> !Enabled(t, e) {
      hide Run, Load;
      NothingLeft(t);
    }
  }

  lemma {:induction false} NothingLeft(t: System)
    requires Inv(t) && Live(t) && forall e :: Delivers(e) ==> !Enabled(t, e)
    ensures t.client.pending == map[]
  {
    assert t.up == [] by {
      assert Delivers(ReachesBroker);
    }
    assert t.down == [] by {
      assert Delivers(ReachesClient(false));
    }
    forall id: nat | id in Owed(t.broker) ensures false {
      var kind := if id in t.broker.toAck then PUBACK else if id in t.broker.toRec then PUBREC else PUBCOMP;
      assert id in ToAnswer(t.broker, kind);
      AnswerSays(t, kind, id);
      assert Delivers(Answers(kind, id)) && Enabled(t, Answers(kind, id));
    }
    assert Moves(t) == Owed(t.broker);
  }
}
