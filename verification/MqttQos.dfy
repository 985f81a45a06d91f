/**
  * Packet identifiers and the QoS 1 and 2 handshakes of src/mqtt/mqtt_client.cpp (sections 2.3.1 and 4.3 of
  * MQTT 3.1.1): the client, and the client together with a conforming broker over two FIFO channels.
  */
module MqttQos {
  import opened Bytes
  import opened MqttBroker
  import opened MqttCodec

  // ---- packet identifiers --------------------------------------------------------------------------------

  /** The n-th identifier a client hands out, counted from 0. */
  function IdOf(n: nat): (id: nat)
    ensures 0 < id < 65536
  {
    1 + n % 65535
  }

  /** The counter after `n` identifiers; at a wrap-around it stops at 0, which is skipped. */
  predicate Counts(nextId: nat, n: nat) {
    nextId < 65536 && (nextId == 1 + n % 65535 || (nextId == 0 && n > 0 && n % 65535 == 0))
  }

  /** `AcquirePacketId`: the identifier and the new counter. */
  function Acquire(nextId: nat): (nat, nat)
    requires nextId < 65536
  {
    if nextId == 0 then (1, 2) else (nextId, (nextId + 1) % 65536)
  }

  lemma {:induction false} AcquireCounts(nextId: nat, n: nat)
    requires Counts(nextId, n)
    ensures Acquire(nextId).0 == IdOf(n) && Counts(Acquire(nextId).1, n + 1)
  {
    Successor(n);
  }

  lemma {:induction false} Successor(n: nat)
    ensures (n + 1) % 65535 == if n % 65535 == 65534 then 0 else n % 65535 + 1
  {
  }

  /** Two identifiers are the same exactly when a multiple of 65535 lies between them: any 65535 in a row
    * are pairwise distinct. */
  lemma {:induction false} IdsRepeat(i: nat, j: nat)
    requires i <= j
    ensures IdOf(i) == IdOf(j) <==> (j - i) % 65535 == 0
  {
    var d := j - i;
    assert j == (i / 65535 + d / 65535) * 65535 + (i % 65535 + d % 65535);
    Remainder(i / 65535 + d / 65535, i % 65535 + d % 65535, j);
  }

  lemma {:induction false} Remainder(q: nat, r: nat, j: nat)
    requires j == q * 65535 + r && r < 2 * 65535
    ensures j % 65535 == if r < 65535 then r else r - 65535
  {
  }

  lemma {:induction false} IdsDiffer(i: nat, j: nat)
    requires i < j < i + 65535
    ensures IdOf(i) != IdOf(j)
  {
    IdsRepeat(i, j);
    hide IdOf;
    assert (j - i) % 65535 == j - i;
  }

  /** Any identifiers in a row, starting from any counter value. */
  function InARow(nextId: nat, k: nat): (ids: seq<nat>)
    requires nextId < 65536
    ensures |ids| == k
    decreases k
  {
    if k == 0 then [] else [Acquire(nextId).0] + InARow(Acquire(nextId).1, k - 1)
  }

  lemma {:induction false} InARowIs(nextId: nat, n: nat, k: nat, i: nat)
    requires Counts(nextId, n) && i < k
    ensures InARow(nextId, k)[i] == IdOf(n + i)
    decreases k
  {
    AcquireCounts(nextId, n);
    if i > 0 {
      InARowIs(Acquire(nextId).1, n + 1, k - 1, i - 1);
    }
  }

  /** Section 2.3.1: identifiers are never zero, and up to 65535 in a row are pairwise distinct. */
  lemma {:induction false} IdsInARow(nextId: nat, k: nat, i: nat, j: nat)
    requires nextId < 65536 && i < j < k <= 65535
    ensures InARow(nextId, k)[i] != 0
    ensures InARow(nextId, k)[i] != InARow(nextId, k)[j]
  {
    var n := if nextId == 0 then 65535 else nextId - 1;
    assert Counts(nextId, n);
    hide Counts, IdOf, InARow;
    InARowIs(nextId, n, k, i);
    InARowIs(nextId, n, k, j);
    IdsDiffer(n + i, n + j);
  }

  // ---- the client ----------------------------------------------------------------------------------------

  datatype Client = Client(nextId: nat, pending: map<nat, Publish>) {
    predicate Valid() {
      nextId < 65536
    }
  }

  /** `HandlePacket` and the parsers behind it: the new state, and the packets sent back. */
  function Handle(c: Client, packet: seq<byte>): (Client, seq<seq<byte>>) {
    var kind := Kind(packet);
    if kind == PUBLISH then
      match Parsed(packet)
      case None => (c, [])
      case Some(p) =>
        (c, if p.qos == 1 then [Ack(PUBACK, p.packetId)] else if p.qos == 2 then [Ack(PUBREC, p.packetId)] else [])
    else
      match AckId(packet)
      case None => (c, [])
      case Some(id) =>
        if kind == PUBACK || kind == PUBCOMP then (c.(pending := c.pending - {id}), [])
        else if kind == PUBREC then (c, [Ack(PUBREL, id)])
        else if kind == PUBREL then (c, [Ack(PUBCOMP, id)])
        else (c, [])
  }

  /** `MqttClient`, as far as publications go. `SendPacket` writes to the socket and goes on if that fails;
    * the packets are the methods' results. */
  class MqttClient {
    var nextPacketId: nat
    var pendingPublishes: map<nat, Publish>

    ghost function Value(): Client
      reads this
    {
      Client(nextPacketId, pendingPublishes)
    }

    constructor ()
      ensures Value() == Client(1, map[])
    {
      nextPacketId, pendingPublishes := 1, map[];
    }

    /** A 16-bit counter, read and incremented; once more if it was 0. */
    method AcquirePacketId() returns (id: nat)
      requires Value().Valid()
      modifies this`nextPacketId
      ensures (id, nextPacketId) == Acquire(old(nextPacketId))
      ensures Value().Valid() && 0 < id < 65536
    {
      id := nextPacketId;
      nextPacketId := (nextPacketId + 1) % 65536;
      if id == 0 {
        id := nextPacketId;
        nextPacketId := (nextPacketId + 1) % 65536;
      }
    }

    /** The posted part of `Publish`. */
    method Publish(topic: seq<byte>, payload: seq<byte>, qos: nat, retain: bool) returns (packet: seq<byte>)
      requires Value().Valid() && qos <= 2
      modifies this
      ensures var p := MqttCodec.Publish(topic, payload, qos, retain, if qos == 0 then 0 else Acquire(old(nextPacketId)).0);
              && packet == PublishBytes(p)
              && Value() == Published(old(Value()), p)
      ensures Value().Valid()
    {
      var packetId := 0;
      if qos != 0 {
        packetId := AcquirePacketId();
      }
      packet := BuildPublishPacket(topic, payload, qos, retain, packetId);
      if qos != 0 {
        pendingPublishes := pendingPublishes[packetId := MqttCodec.Publish(topic, payload, qos, retain, packetId)];
      }
    }

    method HandlePacket(packet: seq<byte>) returns (replies: seq<seq<byte>>)
      requires Value().Valid()
      modifies this`pendingPublishes
      ensures (Value(), replies) == Handle(old(Value()), packet)
    {
      replies := [];
      if packet == [] {
        return;
      }
      var kind := packet[0] / 16;
      if kind == PUBLISH {
        var _, reply := ParsePublish(packet);
        if reply != [] {
          replies := [reply];
        }
      } else if kind == PUBACK || kind == PUBCOMP {
        ParsePubAckOrComp(packet);
      } else if kind == PUBREC {
        if |packet| >= 4 {
          replies := [Ack(PUBREL, FromBe16(packet[2], packet[3]))];
        }
      } else if kind == PUBREL {
        if |packet| >= 4 {
          replies := [Ack(PUBCOMP, FromBe16(packet[2], packet[3]))];
        }
      }
    }

    /** `ParsePubAck` and `ParsePubComp`: whatever its QoS, the entry goes. */
    method ParsePubAckOrComp(packet: seq<byte>)
      modifies this`pendingPublishes
      ensures pendingPublishes == if |packet| < 4 then old(pendingPublishes)
                                  else old(pendingPublishes) - {FromBe16(packet[2], packet[3])}
    {
      if |packet| < 4 {
        return;
      }
      pendingPublishes := pendingPublishes - {FromBe16(packet[2], packet[3])};
    }
  }

  /** The client after `Publish` with the identifier in `p`. */
  function Published(c: Client, p: Publish): Client
    requires c.Valid()
  {
    if p.qos == 0 then c else Client(Acquire(c.nextId).1, c.pending[p.packetId := p])
  }

  // ---- client and broker ---------------------------------------------------------------------------------

  /** What a conforming broker knows: the publications it has accepted, as it has read them, and the identifiers
    * it still has to answer with PUBACK, PUBREC and PUBCOMP. */
  datatype Broker = Broker(log: seq<Publish>, toAck: multiset<nat>, toRec: multiset<nat>, toComp: multiset<nat>)

  /** `count` identifiers have been handed out. The rest of the second line is history, which neither side looks
    * at: the publications made at QoS 1 and 2, numbered by the identifiers handed out; which of them an identifier
    * was last used for; and which of them the broker has accepted, in order, and has received the PUBREL of. */
  datatype System = System(client: Client, broker: Broker, up: seq<seq<byte>>, down: seq<seq<byte>>,
                           count: nat, published: map<nat, Publish>, owner: map<nat, nat>, accepted: seq<nat>, released: set<nat>)

  datatype Event =
    | Publishes(topic: seq<byte>, payload: seq<byte>, qos: nat, retain: bool, lost: bool)
    | Subscribes(packet: seq<byte>, lost: bool)     // or unsubscribes; both take an identifier
    | ReachesBroker                                 // the first packet of the upward channel arrives
    | ReachesClient(lost: bool)                     // the first packet of the downward channel; its reply may be lost
    | Answers(kind: nat, id: nat)                   // the broker sends a PUBACK, PUBREC or PUBCOMP that it owes
    | SendsOther(packet: seq<byte>)                 // its own publications, PUBREL for them, SUBACK, PINGRESP
    | Reconnects                                    // everything under way is lost; both sides remember

  function Initial(): System {
    System(Client(1, map[]), Broker([], multiset{}, multiset{}, multiset{}), [], [], 0, map[], map[], [], {})
  }

  const SUBSCRIBE: nat := 8
  const UNSUBSCRIBE: nat := 10

  /** A broker that conforms answers once, and only what it has to. */
  predicate Enabled(s: System, e: Event) {
    match e
    case Publishes(_, _, qos, _, _) => qos <= 2
    case Subscribes(packet, _) => Kind(packet) in {SUBSCRIBE, UNSUBSCRIBE}
    case ReachesBroker => s.up != []
    case ReachesClient(_) => s.down != []
    case Answers(kind, id) => kind in ANSWERS && id in ToAnswer(s.broker, kind) && id < 65536
    case SendsOther(packet) => Kind(packet) !in ANSWERS
    case Reconnects => true
  }

  const ANSWERS: set<nat> := {PUBACK, PUBREC, PUBCOMP}

  /** The identifiers that the broker owes an answer of the given kind. */
  function ToAnswer(b: Broker, kind: nat): multiset<nat> {
    if kind == PUBACK then b.toAck else if kind == PUBREC then b.toRec else b.toComp
  }

  function Answered(b: Broker, kind: nat, id: nat): Broker {
    if kind == PUBACK then b.(toAck := b.toAck - multiset{id})
    else if kind == PUBREC then b.(toRec := b.toRec - multiset{id})
    else b.(toComp := b.toComp - multiset{id})
  }

  function Sent(packets: seq<seq<byte>>, lost: bool): seq<seq<byte>> {
    if lost then [] else packets
  }

  /** What the broker does with a packet it has read. */
  function Receives(b: Broker, input: Input): Broker {
    match input
    case Nothing => b
    case Publication(p) =>
      var c := b.(log := b.log + [p]);
      if p.qos == 1 then c.(toAck := c.toAck + multiset{p.packetId}) else c.(toRec := c.toRec + multiset{p.packetId})
    case Release(id) => b.(toComp := b.toComp + multiset{id})
  }

  /** The publication that an identifier stands for. */
  predicate Stands(s: System, id: nat, p: Publish) {
    id in s.owner && s.owner[id] in s.published && s.published[s.owner[id]] == p
  }

  /** The packet at the front of the upward channel arrives. A publication counts as accepted when the broker has read
    * it as it was made. */
  function Arrives(s: System): System
    requires s.up != []
  {
    var input := Read(s.up[0]);
    s.(up := s.up[1..], broker := Receives(s.broker, input),
       accepted := if input.Publication? && Stands(s, input.p.packetId, input.p) then s.accepted + [s.owner[input.p.packetId]]
                   else s.accepted,
       released := if input.Release? && input.id in s.owner then s.released + {s.owner[input.id]} else s.released)
  }

  /** The publication that `e` makes. */
  function NewPublication(s: System, e: Event): Publish
    requires s.client.Valid() && e.Publishes?
  {
    Publish(e.topic, e.payload, e.qos, e.retain, if e.qos == 0 then 0 else Acquire(s.client.nextId).0)
  }

  function Next(s: System, e: Event): System
    requires s.client.Valid() && Enabled(s, e)
  {
    match e
    case Publishes(_, _, qos, _, lost) =>
      var p := NewPublication(s, e);
      var t := s.(client := Published(s.client, p), up := s.up + Sent([PublishBytes(p)], lost));
      if qos == 0 then t
      else t.(count := s.count + 1, published := s.published[s.count := p], owner := s.owner[p.packetId := s.count])
    case Subscribes(packet, lost) =>
      s.(client := s.client.(nextId := Acquire(s.client.nextId).1), count := s.count + 1, up := s.up + Sent([packet], lost))
    case ReachesBroker =>
      Arrives(s)
    case ReachesClient(lost) =>
      var (c, replies) := Handle(s.client, s.down[0]);
      s.(client := c, down := s.down[1..], up := s.up + Sent(replies, lost))
    case Answers(kind, id) =>
      s.(down := s.down + [Ack(kind, id)], broker := Answered(s.broker, kind, id))
    case SendsOther(packet) =>
      s.(down := s.down + [packet])
    case Reconnects =>
      s.(up := [], down := [])
  }

  // ---- the promise ---------------------------------------------------------------------------------------

  /** The entry of publication `n` is in the table. */
  predicate Pending(s: System, n: nat) {
    IdOf(n) in s.client.pending && IdOf(n) in s.owner && s.owner[IdOf(n)] == n
  }

  /** The broker has done with publication `n` what its QoS asks for. */
  predicate Settled(s: System, n: nat) {
    n in s.published && n in s.accepted && (s.published[n].qos == 2 ==> n in s.released)
  }

  /** An entry leaves `pending_publishes_` only after the broker has accepted the publication and, at QoS 2, received
    * its PUBREL. */
  ghost predicate Safe(s: System) {
    forall n: nat :: n in s.published ==> Pending(s, n) || Settled(s, n)
  }

  /** A publication does not get an identifier whose entry is still in the table. */
  predicate NoOverwrite(s: System, e: Event)
    requires s.client.Valid()
  {
    e.Publishes? && e.qos != 0 ==> Acquire(s.client.nextId).0 !in s.client.pending
  }

  /** The exchange that used the identifier last is over: its publication is settled, and nothing of it is under way or
    * owed by the broker. */
  predicate Over(s: System, id: nat) {
    id in s.owner && Settled(s, s.owner[id]) && id !in Moves(s)
  }

  /** A publication gets an identifier that is not in the table, or whose exchange is over. */
  predicate FreeId(s: System, e: Event)
    requires s.client.Valid()
  {
    NoOverwrite(s, e) || Over(s, Acquire(s.client.nextId).0)
  }

  predicate ClearIfMade(e: Event) {
    e.Publishes? && e.qos != 0 ==> Clear(e.topic, e.payload)
  }

  /** What is demanded of a publication at QoS 1 or 2. */
  predicate Careful(s: System, e: Event)
    requires s.client.Valid()
  {
    FreeId(s, e) && ClearIfMade(e)
  }

  /** The run `es` leads from `s` to `t`. */
  ghost predicate Run(s: System, es: seq<Event>, t: System)
    decreases |es|
  {
    if es == [] then s == t
    else s.client.Valid() && Enabled(s, es[0]) && Careful(s, es[0]) && Run(Next(s, es[0]), es[1..], t)
  }

  lemma {:induction false} RunsJoin(s: System, es: seq<Event>, t: System, fs: seq<Event>, u: System)
    requires Run(s, es, t) && Run(t, fs, u)
    ensures Run(s, es + fs, u)
    decreases |es|
  {
    if es == [] {
      assert es + fs == fs;
    } else {
      hide Next, Careful, Enabled;
      RunsJoin(Next(s, es[0]), es[1..], t, fs, u);
      assert (es + fs)[1..] == es[1..] + fs;
    }
  }

  // ---- what every run keeps ------------------------------------------------------------------------------

  /** The identifiers that packets carry. */
  function Ids(idOf: seq<byte> -> multiset<nat>, packets: seq<seq<byte>>): multiset<nat> {
    if packets == [] then multiset{} else idOf(packets[0]) + Ids(idOf, packets[1..])
  }

  function UpId(packet: seq<byte>): multiset<nat> {
    match Read(packet)
    case Nothing => multiset{}
    case Publication(p) => multiset{p.packetId}
    case Release(id) => multiset{id}
  }

  function DownId(packet: seq<byte>): multiset<nat> {
    if Kind(packet) in ANSWERS && AckId(packet).Some? then multiset{AckId(packet).value} else multiset{}
  }

  function Owed(b: Broker): multiset<nat> {
    b.toAck + b.toRec + b.toComp
  }

  /** The exchanges that have a packet under way, or an answer owed by the broker. */
  function Moves(s: System): multiset<nat> {
    Ids(UpId, s.up) + Ids(DownId, s.down) + Owed(s.broker)
  }

  /** An exchange has one next step at most, and while it has one its entry is in the table. */
  ghost predicate Linked(s: System) {
    forall id: nat :: Moves(s)[id] <= 1 && (id in Moves(s) ==> id in s.client.pending)
  }

  ghost predicate ClientOk(s: System) {
    && Counts(s.client.nextId, s.count)
    && (forall n: nat :: n in s.published ==> n < s.count && s.published[n].packetId == IdOf(n) && 1 <= s.published[n].qos <= 2)
    && (forall id: nat :: id in s.owner ==> s.owner[id] in s.published && IdOf(s.owner[id]) == id)
    && (forall id: nat :: id in s.client.pending ==> id in s.owner && s.client.pending[id] == s.published[s.owner[id]])
  }

  /** What an answer of the given kind says of the publication that its identifier stands for. */
  predicate Says(s: System, kind: nat, id: nat) {
    && id in s.owner
    && var n := s.owner[id];
       && n in s.published && n in s.accepted
       && s.published[n].qos == (if kind == PUBACK then 1 else 2)
       && (kind == PUBCOMP ==> n in s.released)
  }

  /** On the way up: publications as made, and PUBREL for publications accepted. */
  predicate UpOk(s: System, packet: seq<byte>) {
    match Read(packet)
    case Nothing => true
    case Publication(p) => Stands(s, p.packetId, p)
    case Release(id) => Says(s, PUBREC, id)
  }

  predicate DownOk(s: System, packet: seq<byte>) {
    Kind(packet) in ANSWERS ==>
      AckId(packet).Some? && AckId(packet).value > 0 && Says(s, Kind(packet), AckId(packet).value)
  }

  ghost predicate ChannelsOk(s: System) {
    && (forall packet :: packet in s.up ==> UpOk(s, packet))
    && (forall packet :: packet in s.down ==> DownOk(s, packet))
  }

  ghost predicate BrokerOk(s: System) {
    && (forall id: nat :: id in s.broker.toAck ==> 0 < id < 65536 && Says(s, PUBACK, id))
    && (forall id: nat :: id in s.broker.toRec ==> 0 < id < 65536 && Says(s, PUBREC, id))
    && (forall id: nat :: id in s.broker.toComp ==> 0 < id < 65536 && Says(s, PUBCOMP, id))
  }

  /** The broker's log holds the publications accepted, as they were made. */
  ghost predicate LogOk(s: System) {
    && |s.broker.log| == |s.accepted|
    && forall i :: 0 <= i < |s.accepted| ==> s.accepted[i] in s.published && s.broker.log[i] == s.published[s.accepted[i]]
  }

  ghost predicate Inv(s: System) {
    ClientOk(s) && ChannelsOk(s) && BrokerOk(s) && LogOk(s) && Linked(s) && Safe(s)
  }

  // ---- identifiers under way -----------------------------------------------------------------------------

  lemma {:induction false} IdsAppend(idOf: seq<byte> -> multiset<nat>, a: seq<seq<byte>>, b: seq<seq<byte>>)
    ensures Ids(idOf, a + b) == Ids(idOf, a) + Ids(idOf, b)
  {
    if a == [] {
      assert a + b == b;
    } else {
      assert (a + b)[1..] == a[1..] + b;
      IdsAppend(idOf, a[1..], b);
    }
  }

  lemma {:induction false} IdsOfOne(idOf: seq<byte> -> multiset<nat>, packet: seq<byte>)
    ensures Ids(idOf, [packet]) == idOf(packet)
  {
    assert [packet][1..] == [];
  }

  lemma {:induction false} IdsHold(idOf: seq<byte> -> multiset<nat>, packets: seq<seq<byte>>, packet: seq<byte>)
    requires packet in packets
    ensures idOf(packet) <= Ids(idOf, packets)
  {
    if packets[0] != packet {
      IdsHold(idOf, packets[1..], packet);
    }
  }

  /** A packet more on the way up, or none. */
  lemma {:induction false} MovesUp(s: System, t: System, packets: seq<seq<byte>>)
    requires t.up == s.up + packets && t.down == s.down && t.broker == s.broker && |packets| <= 1
    ensures Moves(t) == Moves(s) + (if packets == [] then multiset{} else UpId(packets[0]))
  {
    IdsAppend(UpId, s.up, packets);
    if packets != [] {
      IdsOfOne(UpId, packets[0]);
      assert packets == [packets[0]];
    }
    hide UpId, DownId, Owed;
  }

  /** A packet more on the way down. */
  lemma {:induction false} MovesDown(s: System, t: System, packet: seq<byte>)
    requires t.down == s.down + [packet] && t.up == s.up && DownId(packet) + Owed(t.broker) == Owed(s.broker)
    ensures Moves(t) == Moves(s)
  {
    IdsAppend(DownId, s.down, [packet]);
    IdsOfOne(DownId, packet);
    hide UpId, DownId, Owed;
  }

  /** The first packet leaves the downward channel. */
  lemma {:induction false} MovesTaken(s: System)
    requires s.down != []
    ensures Moves(s) == Moves(s.(down := s.down[1..])) + DownId(s.down[0])
  {
    hide UpId, DownId, Owed;
  }

  /** The identifiers of all packets under way are among those of the exchanges. */
  lemma {:induction false} UnderWay(s: System)
    ensures forall packet :: packet in s.up ==> UpId(packet) <= Moves(s)
    ensures forall packet :: packet in s.down ==> DownId(packet) <= Moves(s)
    ensures Owed(s.broker) <= Moves(s)
  {
    hide UpId, DownId, Owed;
    forall packet | packet in s.up ensures UpId(packet) <= Moves(s) {
      IdsHold(UpId, s.up, packet);
    }
    forall packet | packet in s.down ensures DownId(packet) <= Moves(s) {
      IdsHold(DownId, s.down, packet);
    }
  }

  /** With no more next steps and the same table, the link holds on. */
  lemma {:induction false} StillLinked(s: System, t: System)
    requires Linked(s) && Moves(t) <= Moves(s) && t.client.pending == s.client.pending
    ensures Linked(t)
  {
    hide Moves;
    forall id: nat ensures Moves(t)[id] <= 1 && (id in Moves(t) ==> id in t.client.pending) {
      assert Moves(t)[id] <= Moves(s)[id];
    }
  }

  // ---- what stays true -----------------------------------------------------------------------------------

  /** Publications stay what they are, the broker only learns, and identifiers of exchanges under way keep standing for
    * the same publication. */
  ghost predicate Grows(s: System, t: System) {
    && (forall n: nat :: n in s.published ==> n in t.published && t.published[n] == s.published[n])
    && (forall n: nat :: n in s.accepted ==> n in t.accepted)
    && s.released <= t.released
    && (forall id: nat :: id in Moves(s) && id in s.owner ==> id in t.owner && t.owner[id] == s.owner[id])
  }

  lemma {:induction false} StillSays(s: System, t: System, kind: nat, id: nat)
    requires Grows(s, t) && id in Moves(s) && Says(s, kind, id)
    ensures Says(t, kind, id)
  {
    hide Moves;
  }

  lemma {:induction false} UpStillOk(s: System, t: System, packet: seq<byte>)
    requires Grows(s, t) && UpId(packet) <= Moves(s) && UpOk(s, packet)
    ensures UpOk(t, packet)
  {
    hide Moves, Read;
    match Read(packet)
    case Nothing =>
    case Publication(p) => assert p.packetId in UpId(packet);
    case Release(id) => assert id in UpId(packet);
  }

  lemma {:induction false} DownStillOk(s: System, t: System, packet: seq<byte>)
    requires Grows(s, t) && DownId(packet) <= Moves(s) && DownOk(s, packet)
    ensures DownOk(t, packet)
  {
    hide Moves, Kind, AckId;
    if Kind(packet) in ANSWERS {
      assert AckId(packet).value in DownId(packet);
    }
  }

  /** It is enough to look at the packets that are new. */
  lemma {:induction false} ChannelsStillOk(s: System, t: System)
    requires ChannelsOk(s) && Grows(s, t)
    requires forall packet :: packet in t.up ==> packet in s.up || UpOk(t, packet)
    requires forall packet :: packet in t.down ==> packet in s.down || DownOk(t, packet)
    ensures ChannelsOk(t)
  {
    hide Grows, UpOk, DownOk, Moves;
    UnderWay(s);
    forall packet | packet in t.up ensures UpOk(t, packet) {
      if packet in s.up {
        UpStillOk(s, t, packet);
      }
    }
    forall packet | packet in t.down ensures DownOk(t, packet) {
      if packet in s.down {
        DownStillOk(s, t, packet);
      }
    }
  }

  lemma {:induction false} BrokerStillOk(s: System, t: System)
    requires BrokerOk(s) && Grows(s, t)
    requires t.broker.toAck <= s.broker.toAck && t.broker.toRec <= s.broker.toRec && t.broker.toComp <= s.broker.toComp
    ensures BrokerOk(t)
  {
    UnderWay(s);
    hide Grows, Moves, Says;
    forall id: nat | id in Owed(t.broker) ensures id in Moves(s) {
      assert id in Owed(s.broker);
    }
    forall id: nat | id in t.broker.toAck ensures 0 < id < 65536 && Says(t, PUBACK, id) {
      assert id in Owed(t.broker);
      StillSays(s, t, PUBACK, id);
    }
    forall id: nat | id in t.broker.toRec ensures 0 < id < 65536 && Says(t, PUBREC, id) {
      assert id in Owed(t.broker);
      StillSays(s, t, PUBREC, id);
    }
    forall id: nat | id in t.broker.toComp ensures 0 < id < 65536 && Says(t, PUBCOMP, id) {
      assert id in Owed(t.broker);
      StillSays(s, t, PUBCOMP, id);
    }
  }

  lemma {:induction false} LogStillOk(s: System, t: System)
    requires LogOk(s) && Grows(s, t) && t.accepted == s.accepted && t.broker.log == s.broker.log
    ensures LogOk(t)
  {
    hide Moves;
  }

  lemma {:induction false} StillSettled(s: System, t: System, n: nat)
    requires Grows(s, t) && Settled(s, n)
    ensures Settled(t, n)
  {
    hide Moves;
  }

  // ---- a publication is made -----------------------------------------------------------------------------

  /** No exchange under way has the new identifier. */
  lemma {:induction false} IdIsIdle(s: System, e: Event)
    requires ClientOk(s) && Linked(s) && Enabled(s, e) && FreeId(s, e) && e.Publishes? && e.qos != 0
    ensures NewPublication(s, e).packetId !in Moves(s)
  {
    hide Moves, Acquire, ClientOk, Settled;
  }

  lemma {:induction false} PublishGrows(s: System, e: Event)
    requires ClientOk(s) && Linked(s) && Enabled(s, e) && FreeId(s, e) && e.Publishes? && e.qos != 0
    ensures Grows(s, Next(s, e)) && ClientOk(Next(s, e))
  {
    PublishBooks(s, e);
    IdIsIdle(s, e);
    NewIsNew(s);
    hide PublishBytes, Acquire, IdOf, Counts, Moves, ClientOk, Grows;
    BooksGrow(s, Next(s, e), NewPublication(s, e));
  }

  lemma {:induction false} BooksGrow(s: System, t: System, p: Publish)
    requires s.count !in s.published && p.packetId !in Moves(s)
    requires t.owner == s.owner[p.packetId := s.count] && t.published == s.published[s.count := p]
    requires t.accepted == s.accepted && t.released == s.released
    ensures Grows(s, t)
  {
    hide Moves;
  }

  lemma {:induction false} NewIsNew(s: System)
    requires ClientOk(s)
    ensures s.count !in s.published
  {
  }

  lemma {:induction false} PublishBooks(s: System, e: Event)
    requires ClientOk(s) && Enabled(s, e) && e.Publishes? && e.qos != 0
    ensures ClientOk(Next(s, e))
  {
    AcquireCounts(s.client.nextId, s.count);
    hide PublishBytes, Acquire, IdOf, Counts;
  }

  /** An entry stays unless it is overwritten, and then it is settled. */
  lemma {:induction false} EntryStays(s: System, e: Event, n: nat)
    requires ClientOk(s) && Enabled(s, e) && FreeId(s, e) && e.Publishes? && e.qos != 0 && Pending(s, n)
    ensures Pending(Next(s, e), n) || Settled(s, n)
  {
    AcquireCounts(s.client.nextId, s.count);
    hide PublishBytes, Acquire, IdOf, Counts, Moves, Settled;
  }

  lemma {:induction false} NewEntry(s: System, e: Event)
    requires ClientOk(s) && Enabled(s, e) && e.Publishes? && e.qos != 0
    ensures var t := Next(s, e);
            Pending(t, s.count) && t.published == s.published[s.count := NewPublication(s, e)]
  {
    AcquireCounts(s.client.nextId, s.count);
    hide PublishBytes, Acquire, IdOf, Counts;
  }

  lemma {:induction false} PublishSafe(s: System, e: Event)
    requires ClientOk(s) && Linked(s) && Safe(s) && Enabled(s, e) && FreeId(s, e) && e.Publishes? && e.qos != 0
    ensures Safe(Next(s, e))
  {
    var t := Next(s, e);
    PublishGrows(s, e);
    NewEntry(s, e);
    hide Next, Grows, Settled, Pending, ClientOk, Linked, FreeId;
    forall n: nat | n in t.published && n != s.count ensures Pending(t, n) || Settled(t, n) {
      assert n in s.published;
      if Pending(s, n) {
        EntryStays(s, e, n);
      }
      if Settled(s, n) {
        StillSettled(s, t, n);
      }
    }
  }

  lemma {:induction false} PublishLinks(s: System, e: Event)
    requires ClientOk(s) && Linked(s) && Enabled(s, e) && Careful(s, e) && e.Publishes? && e.qos != 0
    ensures Linked(Next(s, e))
  {
    var t, p := Next(s, e), NewPublication(s, e);
    OneOpens(s, e);
    IdIsIdle(s, e);
    hide Moves, PublishBytes, Acquire, Clear, ClientOk, Settled;
    assert p.packetId in t.client.pending;
    forall id: nat ensures Moves(t)[id] <= 1 && (id in Moves(t) ==> id in t.client.pending) {
      assert Moves(t)[id] <= (Moves(s) + multiset{p.packetId})[id];
    }
  }

  lemma {:induction false} OneOpens(s: System, e: Event)
    requires ClientOk(s) && Enabled(s, e) && Careful(s, e) && e.Publishes? && e.qos != 0
    ensures Moves(Next(s, e)) <= Moves(s) + multiset{NewPublication(s, e).packetId}
  {
    var t, p := Next(s, e), NewPublication(s, e);
    AcquireCounts(s.client.nextId, s.count);
    ClearMeans(p);
    hide PublishBytes, Acquire, IdOf, Counts, Read, Clear, ClientOk, Moves;
    assert UpId(PublishBytes(p)) <= multiset{p.packetId};
    MovesUp(s, t, Sent([PublishBytes(p)], e.lost));
  }

  lemma {:induction false} PublishKeeps(s: System, e: Event)
    requires Inv(s) && Enabled(s, e) && Careful(s, e) && e.Publishes? && e.qos != 0
    ensures Inv(Next(s, e))
  {
    var t, p := Next(s, e), NewPublication(s, e);
    AcquireCounts(s.client.nextId, s.count);
    ClearMeans(p);
    PublishGrows(s, e);
    PublishSafe(s, e);
    PublishLinks(s, e);
    hide PublishBytes, Acquire, IdOf, Counts, Read, Moves, Grows, Linked, Safe, ClientOk, BrokerOk, LogOk, Clear;
    BrokerStillOk(s, t);
    LogStillOk(s, t);
    assert UpOk(t, PublishBytes(p));
    ChannelsStillOk(s, t);
  }

  // ---- every other step ----------------------------------------------------------------------------------

  /** What a step leaves alone that makes no publication. */
  lemma {:induction false} SameBooks(s: System, t: System)
    requires ClientOk(s) && t.published == s.published && t.owner == s.owner && Counts(t.client.nextId, t.count) && t.count >= s.count
    requires t.client.pending.Keys <= s.client.pending.Keys
    requires forall id :: id in t.client.pending ==> t.client.pending[id] == s.client.pending[id]
    ensures ClientOk(t)
  {
    hide Counts, IdOf;
  }

  lemma {:induction false} SameGrows(s: System, t: System)
    requires t.published == s.published && t.owner == s.owner && t.accepted == s.accepted && t.released == s.released
    ensures Grows(s, t)
  {
    hide Moves;
  }

  lemma {:induction false} SameSafe(s: System, t: System)
    requires Safe(s) && t.published == s.published && t.owner == s.owner && t.client.pending == s.client.pending
    requires (forall n: nat :: n in s.accepted ==> n in t.accepted) && s.released <= t.released
    ensures Safe(t)
  {
    hide IdOf;
    forall n: nat | n in t.published ensures Pending(t, n) || Settled(t, n) {
      assert Pending(t, n) == Pending(s, n);
    }
  }

  /** Steps in which the client's table stays the same and nothing is read. */
  lemma {:induction false} QuietKeeps(s: System, t: System)
    requires Inv(s) && t == s.(client := t.client, broker := t.broker, up := t.up, down := t.down, count := t.count)
    requires t.client.pending == s.client.pending && Counts(t.client.nextId, t.count) && t.count >= s.count
    requires t.broker.log == s.broker.log
    requires t.broker.toAck <= s.broker.toAck && t.broker.toRec <= s.broker.toRec && t.broker.toComp <= s.broker.toComp
    requires forall packet :: packet in t.up ==> packet in s.up || UpOk(t, packet)
    requires forall packet :: packet in t.down ==> packet in s.down || DownOk(t, packet)
    requires Moves(t) <= Moves(s)
    ensures Inv(t)
  {
    hide ClientOk, ChannelsOk, BrokerOk, LogOk, Linked, Safe, Moves, Grows, UpOk, DownOk, Counts;
    SameBooks(s, t);
    SameGrows(s, t);
    SameSafe(s, t);
    StillLinked(s, t);
    BrokerStillOk(s, t);
    LogStillOk(s, t);
    ChannelsStillOk(s, t);
  }

  /** A publication is made at QoS 0, or an identifier is taken for something else. */
  lemma {:induction false} OtherSendKeeps(s: System, e: Event)
    requires Inv(s) && Enabled(s, e) && (e.Subscribes? || (e.Publishes? && e.qos == 0))
    ensures Inv(Next(s, e))
  {
    var t := Next(s, e);
    var packet := if e.Subscribes? then e.packet else PublishBytes(NewPublication(s, e));
    SilentSend(s, e, packet);
    hide Inv, PublishBytes, Acquire, Read, Moves, Counts, Next, UpOk, DownOk;
    MovesUp(s, t.(client := s.client, count := s.count), Sent([packet], e.lost));
    SameMoves(t, s);
    QuietKeeps(s, t);
  }

  lemma {:induction false} SameMoves(t: System, s: System)
    ensures Moves(t.(client := s.client, count := s.count)) == Moves(t)
  {
    hide Ids, Owed;
  }

  /** Such a packet means nothing to the broker. */
  lemma {:induction false} SilentSend(s: System, e: Event, packet: seq<byte>)
    requires Inv(s) && Enabled(s, e) && (e.Subscribes? || (e.Publishes? && e.qos == 0))
    requires packet == if e.Subscribes? then e.packet else PublishBytes(NewPublication(s, e))
    ensures var t := Next(s, e);
            && t == s.(client := t.client, up := s.up + Sent([packet], e.lost), count := t.count)
            && t.client.pending == s.client.pending && Counts(t.client.nextId, t.count) && t.count >= s.count
            && UpId(packet) == multiset{} && UpOk(t, packet)
  {
    CountsOf(s);
    if e.Subscribes? {
      AcquireCounts(s.client.nextId, s.count);
    } else {
      QosZeroRead(NewPublication(s, e));
    }
    assert Read(packet) == Nothing;
    hide Inv, PublishBytes, Acquire, Read, Counts;
  }

  lemma {:induction false} CountsOf(s: System)
    requires Inv(s)
    ensures Counts(s.client.nextId, s.count) && s.client.Valid()
  {
  }

  /** The broker sends something else. */
  lemma {:induction false} IdleKeeps(s: System, e: Event)
    requires Inv(s) && Enabled(s, e) && e.SendsOther?
    ensures Inv(Next(s, e))
  {
    var t := Next(s, e);
    CountsOf(s);
    hide Inv, Counts, Moves, UpOk, Owed;
    assert DownId(e.packet) == multiset{};
    MovesDown(s, t, e.packet);
    assert DownOk(t, e.packet);
    hide DownId, Kind, AckId, DownOk;
    QuietKeeps(s, t);
  }

  /** The connection is made anew. */
  lemma {:induction false} ReconnectKeeps(s: System, e: Event)
    requires Inv(s) && Enabled(s, e) && e.Reconnects?
    ensures Inv(Next(s, e))
  {
    var t := Next(s, e);
    CountsOf(s);
    NoMoves(s, t);
    hide Inv, Counts, Moves, UpOk, DownOk;
    QuietKeeps(s, t);
  }

  lemma {:induction false} NoMoves(s: System, t: System)
    requires t == s.(up := [], down := [])
    ensures Moves(t) <= Moves(s)
  {
    hide Owed;
  }

  /** The broker sends an answer that it owes. */
  lemma {:induction false} AnswerKeeps(s: System, e: Event)
    requires Inv(s) && Enabled(s, e) && e.Answers?
    ensures Inv(Next(s, e))
  {
    CountsOf(s);
    AnswerSays(s, e.kind, e.id);
    AnswerSent(s, e);
    hide Inv, Counts, Moves, UpOk, DownOk, Next, Enabled, Says;
    QuietKeeps(s, Next(s, e));
  }

  lemma {:induction false} AnswerSent(s: System, e: Event)
    requires s.client.Valid() && Enabled(s, e) && e.Answers? && e.id > 0 && Says(s, e.kind, e.id)
    ensures var t := Next(s, e);
            && t == s.(broker := t.broker, down := s.down + [Ack(e.kind, e.id)])
            && t.broker.log == s.broker.log
            && t.broker.toAck <= s.broker.toAck && t.broker.toRec <= s.broker.toRec && t.broker.toComp <= s.broker.toComp
            && DownOk(t, Ack(e.kind, e.id))
            && Moves(t) == Moves(s)
  {
    var t, packet := Next(s, e), Ack(e.kind, e.id);
    OthersRead(e.kind, e.id);
    AnsweredOwes(s.broker, e.kind, e.id);
    hide Moves, Ack, AckId, Kind, Answered, Owed, Says;
    assert DownId(packet) == multiset{e.id};
    MovesDown(s, t, packet);
    AnswerStillSays(s, t, e.kind, e.id);
  }

  lemma {:induction false} AnswerSays(s: System, kind: nat, id: nat)
    requires Inv(s) && kind in ANSWERS && id in ToAnswer(s.broker, kind)
    ensures 0 < id < 65536 && Says(s, kind, id)
  {
    hide Says;
  }

  lemma {:induction false} AnswerStillSays(s: System, t: System, kind: nat, id: nat)
    requires Says(s, kind, id) && t == s.(broker := t.broker, down := t.down)
    ensures Says(t, kind, id)
  {
  }

  lemma {:induction false} AnsweredOwes(b: Broker, kind: nat, id: nat)
    requires kind in ANSWERS && id in ToAnswer(b, kind)
    ensures var c := Answered(b, kind, id);
            && Owed(c) + multiset{id} == Owed(b)
            && c.log == b.log && c.toAck <= b.toAck && c.toRec <= b.toRec && c.toComp <= b.toComp
  {
  }

  // ---- a packet arrives at the broker --------------------------------------------------------------------

  /** What the broker learns. */
  lemma {:induction false} ArrivalGrows(s: System)
    requires s.up != []
    ensures Grows(s, Arrives(s)) && Moves(Arrives(s)) <= Moves(s)
  {
    assert s.up == [s.up[0]] + s.up[1..];
    hide Read;
  }

  lemma {:induction false} ArrivalTeaches(s: System)
    requires ClientOk(s) && s.up != [] && UpOk(s, s.up[0])
    ensures match Read(s.up[0])
            case Nothing => true
            case Publication(p) => 0 < p.packetId < 65536 && Says(Arrives(s), if p.qos == 1 then PUBACK else PUBREC, p.packetId)
            case Release(id) => 0 < id < 65536 && Says(Arrives(s), PUBCOMP, id)
  {
    ReadIds(s.up[0]);
    hide Read, IdOf, Counts;
  }

  lemma {:induction false} ReadIds(packet: seq<byte>)
    ensures match Read(packet)
            case Nothing => true
            case Publication(p) => 0 < p.packetId < 65536 && 1 <= p.qos <= 2
            case Release(id) => 0 < id < 65536
  {
    hide StandardLength, FromBe16;
  }

  lemma {:induction false} BrokerKeeps(s: System, e: Event)
    requires Inv(s) && Enabled(s, e) && e.ReachesBroker?
    ensures Inv(Next(s, e))
  {
    var t := Arrives(s);
    ArrivalGrows(s);
    ArrivalTeaches(s);
    ArrivalLogged(s);
    ArrivalOwed(s);
    hide Read, Moves, Grows, Says, Linked, LogOk, ClientOk, Safe, BrokerOk, UpOk, DownOk, Counts;
    CountsOf(s);
    SameBooks(s, t);
    SameSafe(s, t);
    StillLinked(s, t);
    ChannelsStillOk(s, t);
  }

  lemma {:induction false} ArrivalLogged(s: System)
    requires LogOk(s) && s.up != [] && UpOk(s, s.up[0])
    ensures LogOk(Arrives(s))
  {
    hide Read;
  }

  lemma {:induction false} ArrivalOwed(s: System)
    requires ClientOk(s) && BrokerOk(s) && s.up != [] && UpOk(s, s.up[0])
    ensures BrokerOk(Arrives(s))
  {
    var t := Arrives(s);
    ArrivalTeaches(s);
    ArrivalGrows(s);
    OwesMore(s, t, Read(s.up[0]));
  }

  lemma {:induction false} OwesMore(s: System, t: System, input: Input)
    requires BrokerOk(s) && Grows(s, t) && t.broker == Receives(s.broker, input)
    requires input.Publication? ==>
               0 < input.p.packetId < 65536 && Says(t, if input.p.qos == 1 then PUBACK else PUBREC, input.p.packetId)
    requires input.Release? ==> 0 < input.id < 65536 && Says(t, PUBCOMP, input.id)
    ensures BrokerOk(t)
  {
    var before := t.(broker := s.broker);
    hide Moves, Grows, Says, BrokerOk;
    GrowsWithBroker(s, t);
    BrokerStillOk(s, before);
    SaysWithBroker(t, s.broker);
    OneMoreOwed(before, t, input);
  }

  lemma {:induction false} OneMoreOwed(before: System, t: System, input: Input)
    requires BrokerOk(before) && t.broker == Receives(before.broker, input)
    requires forall kind: nat, id: nat {:trigger Says(t, kind, id)} :: Says(before, kind, id) <==> Says(t, kind, id)
    requires input.Publication? ==>
               0 < input.p.packetId < 65536 && Says(t, if input.p.qos == 1 then PUBACK else PUBREC, input.p.packetId)
    requires input.Release? ==> 0 < input.id < 65536 && Says(t, PUBCOMP, input.id)
    ensures BrokerOk(t)
  {
    hide Says;
  }

  lemma {:induction false} GrowsWithBroker(s: System, t: System)
    requires Grows(s, t)
    ensures Grows(s, t.(broker := s.broker))
  {
    hide Moves;
  }

  lemma {:induction false} SaysWithBroker(t: System, b: Broker)
    ensures forall kind: nat, id: nat {:trigger Says(t, kind, id)} :: Says(t.(broker := b), kind, id) <==> Says(t, kind, id)
  {
  }

  // ---- a packet arrives at the client --------------------------------------------------------------------

  /** The client on an answer of the broker. */
  lemma {:induction false} HandleAnswer(c: Client, packet: seq<byte>)
    requires Kind(packet) in ANSWERS && AckId(packet).Some?
    ensures var id := AckId(packet).value;
            Handle(c, packet) == if Kind(packet) == PUBREC then (c, [Ack(PUBREL, id)]) else (c.(pending := c.pending - {id}), [])
  {
  }

  /** On anything else its table stays, and its replies say nothing of its own publications. */
  lemma {:induction false} HandleOther(c: Client, packet: seq<byte>)
    requires Kind(packet) !in ANSWERS
    ensures Handle(c, packet).0 == c && forall r :: r in Handle(c, packet).1 ==> Read(r) == Nothing
    ensures |Handle(c, packet).1| <= 1
  {
    if Kind(packet) == PUBLISH {
      if Parsed(packet).Some? {
        OthersRead(PUBACK, Parsed(packet).value.packetId);
        OthersRead(PUBREC, Parsed(packet).value.packetId);
      }
    } else if AckId(packet).Some? {
      OthersRead(PUBCOMP, AckId(packet).value);
    }
    hide Read, Ack, Parsed, AckId;
  }

  /** An answer that erases an entry. */
  lemma {:induction false} EraseKeeps(s: System, e: Event)
    requires Inv(s) && Enabled(s, e) && e.ReachesClient? && Kind(s.down[0]) in {PUBACK, PUBCOMP}
    ensures Inv(Next(s, e))
  {
    AnswerTaken(s, e);
    var packet := s.down[0];
    var t, id := Next(s, e), AckId(packet).value;
    hide Handle, AckId, Kind, Moves, Next, UpOk, DownOk, Counts, Says;
    EntryErased(s, t, Kind(packet), id);
    SameGrows(s, t);
    hide Grows, LogOk, ClientOk, BrokerOk, Linked, Safe;
    CountsOf(s);
    SameBooks(s, t);
    BrokerStillOk(s, t);
    LogStillOk(s, t);
    ChannelsStillOk(s, t);
  }

  lemma {:induction false} AnswerTaken(s: System, e: Event)
    requires s.client.Valid() && ChannelsOk(s) && Enabled(s, e) && e.ReachesClient? && Kind(s.down[0]) in {PUBACK, PUBCOMP}
    ensures AckId(s.down[0]).Some?
    ensures var packet, t := s.down[0], Next(s, e);
            && Says(s, Kind(packet), AckId(packet).value)
            && t == s.(client := s.client.(pending := s.client.pending - {AckId(packet).value}), down := s.down[1..])
            && Moves(s) == Moves(t) + multiset{AckId(packet).value}
  {
    var packet := s.down[0];
    hide Moves;
    assert DownOk(s, packet);
    HandleAnswer(s.client, packet);
    hide Handle, AckId, Kind, Moves, Says;
    var t := Next(s, e);
    assert t.up == s.up + [] == s.up;
    MovesTaken(s);
    SameMoves(t, s);
    assert DownId(packet) == multiset{AckId(packet).value};
  }

  lemma {:induction false} EntryErased(s: System, t: System, kind: nat, id: nat)
    requires Linked(s) && Safe(s) && Says(s, kind, id) && kind in {PUBACK, PUBCOMP} && Moves(s) == Moves(t) + multiset{id}
    requires t.published == s.published && t.owner == s.owner && t.accepted == s.accepted && t.released == s.released
    requires t.client.pending == s.client.pending - {id}
    ensures Linked(t) && Safe(t)
  {
    hide Moves, IdOf;
    assert Moves(s)[id] > 0;
    forall n: nat | n in t.published ensures Pending(t, n) || Settled(t, n) {
      assert Pending(s, n) && !Pending(t, n) ==> n == s.owner[id];
    }
    forall k: nat ensures Moves(t)[k] <= 1 && (k in Moves(t) ==> k in t.client.pending) {
      assert Moves(s)[k] == (Moves(t) + multiset{id})[k];
    }
  }

  /** PUBREC is answered with PUBREL. */
  lemma {:induction false} ReleaseKeeps(s: System, e: Event)
    requires Inv(s) && Enabled(s, e) && e.ReachesClient? && Kind(s.down[0]) == PUBREC
    ensures Inv(Next(s, e))
  {
    var packet := s.down[0];
    assert DownOk(s, packet);
    var t, id := Next(s, e), AckId(packet).value;
    CountsOf(s);
    HandleAnswer(s.client, packet);
    OthersRead(PUBREL, id);
    hide Handle, AckId, Kind, Ack, Inv, Read, Counts, Moves;
    var u := s.(down := s.down[1..]);
    MovesTaken(s);
    MovesUp(u, t, Sent([Ack(PUBREL, id)], e.lost));
    assert UpId(Ack(PUBREL, id)) == multiset{id} == DownId(packet);
    hide UpId, DownId;
    QuietKeeps(s, t);
  }

  lemma {:induction false} ReplyKeeps(s: System, e: Event)
    requires Inv(s) && Enabled(s, e) && e.ReachesClient? && Kind(s.down[0]) !in ANSWERS
    ensures Inv(Next(s, e))
  {
    var packet := s.down[0];
    var t := Next(s, e);
    CountsOf(s);
    HandleOther(s.client, packet);
    hide Handle, Kind, Inv, Read, Counts, Moves;
    var replies := Sent(Handle(s.client, packet).1, e.lost);
    var u := s.(down := s.down[1..]);
    MovesTaken(s);
    MovesUp(u, t, replies);
    assert replies != [] ==> UpId(replies[0]) == multiset{};
    hide UpId, DownId, DownOk;
    QuietKeeps(s, t);
  }

  lemma {:induction false} StepKeeps(s: System, e: Event)
    requires Inv(s) && s.client.Valid() && Enabled(s, e) && Careful(s, e)
    ensures Inv(Next(s, e))
  {
    hide Next, Inv, Careful;
    if e.Publishes? && e.qos != 0 {
      PublishKeeps(s, e);
    } else if e.Publishes? || e.Subscribes? {
      OtherSendKeeps(s, e);
    } else if e.ReachesBroker? {
      BrokerKeeps(s, e);
    } else if e.ReachesClient? {
      if Kind(s.down[0]) !in ANSWERS {
        ReplyKeeps(s, e);
      } else if Kind(s.down[0]) == PUBREC {
        ReleaseKeeps(s, e);
      } else {
        EraseKeeps(s, e);
      }
    } else if e.SendsOther? {
      IdleKeeps(s, e);
    } else if e.Reconnects? {
      ReconnectKeeps(s, e);
    } else {
      AnswerKeeps(s, e);
    }
  }

  lemma {:induction false} InitiallyOk()
    ensures Inv(Initial())
  {
  }

  lemma {:induction false} RunKeeps(s: System, es: seq<Event>, t: System)
    requires Inv(s) && Run(s, es, t)
    ensures Inv(t)
    decreases |es|
  {
    if es != [] {
      hide Inv, Enabled, Careful, Next;
      StepKeeps(s, es[0]);
      RunKeeps(Next(s, es[0]), es[1..], t);
    }
  }

  /** In every run in which publications are clear and get no identifier that is still in the table, unless its exchange
    * is over, no entry leaves the table before the broker has accepted the publication as it was made, and at QoS 2
    * received its PUBREL. */
  lemma {:induction false} EntriesLeaveWhenSettled(es: seq<Event>, t: System)
    requires Run(Initial(), es, t)
    ensures Safe(t) && LogOk(t)
  {
    InitiallyOk();
    RunKeeps(Initial(), es, t);
  }

  // ---- identifiers used up -------------------------------------------------------------------------------

  /** Nothing is overwritten as long as no entry in the table is 65535 identifiers old. */
  lemma {:induction false} WindowSuffices(s: System, e: Event)
    requires ClientOk(s) && forall n: nat :: Pending(s, n) ==> s.count < n + 65535
    ensures NoOverwrite(s, e)
  {
    AcquireCounts(s.client.nextId, s.count);
    var id := IdOf(s.count);
    hide IdOf, Acquire, Counts;
    if id in s.client.pending {
      assert Pending(s, s.owner[id]);
      IdsDiffer(s.owner[id], s.count);
    }
  }

  const SUBSCRIPTION: Event := Subscribes([128], true)

  /** Identifiers can be used up. */
  lemma {:induction false} Subscribing(s: System, k: nat) returns (es: seq<Event>, t: System)
    requires Counts(s.client.nextId, s.count)
    ensures Run(s, es, t) && Counts(t.client.nextId, t.count)
    ensures t == s.(client := s.client.(nextId := t.client.nextId), count := s.count + k)
    decreases k
  {
    if k == 0 {
      return [], s;
    }
    var u := Next(s, SUBSCRIPTION);
    AcquireCounts(s.client.nextId, s.count);
    assert u.up == s.up + [] == s.up;
    var fs: seq<Event>;
    fs, t := Subscribing(u, k - 1);
    es := [SUBSCRIPTION] + fs;
    assert es[1..] == fs;
  }

  /** A topic of one letter. */
  const LETTER: seq<byte> := [97]

  /** A publication that gets lost on its way. */
  const LOST: Event := Publishes(LETTER, [], 1, false, true)

  /** What it leaves behind: an entry. */
  lemma {:induction false} LosingOne(s: System)
    requires Counts(s.client.nextId, s.count) && NoOverwrite(s, LOST)
    ensures var p, t := Publish(LETTER, [], 1, false, IdOf(s.count)), Next(s, LOST);
            && t == s.(client := t.client, count := s.count + 1, published := s.published[s.count := p], owner := s.owner[p.packetId := s.count])
            && t.client.pending == s.client.pending[p.packetId := p] && Counts(t.client.nextId, t.count)
            && Run(s, [LOST], t)
  {
    AcquireCounts(s.client.nextId, s.count);
    hide PublishBytes, IdOf, Counts;
    var t := Next(s, LOST);
    assert t.up == s.up + [] == s.up;
    assert [LOST][1..] == [];
  }

  // ---- topics that are too long ----------------------------------------------------------------------------

  /** The run in which a misread publication makes the broker acknowledge another one. */
  function Misleading(qos: nat, x: nat): seq<Event> {
    if qos == 1 then [ReachesBroker, Answers(PUBACK, x), ReachesClient(true)]
    else [ReachesBroker, Answers(PUBREC, x), ReachesClient(false), ReachesBroker, Answers(PUBCOMP, x), ReachesClient(true)]
  }

  /** A state in which publication `n` waits under identifier `x`, unseen, and the only packet under way is read as a
    * publication with that identifier. */
  predicate Misled(s: System, p: Publish, x: nat, n: nat) {
    && s.client.Valid() && 0 < x < 65536
    && s.broker == Broker([], multiset{}, multiset{}, multiset{}) && s.down == [] && s.accepted == [] && s.released == {}
    && |s.up| == 1 && Read(s.up[0]) == Publication(p) && 1 <= p.qos <= 2 && p.packetId == x
    && x in s.owner && s.owner[x] == n && n in s.published && s.published[n] != p && IdOf(n) == x
  }

  /** The broker answers `x`, the client takes the answer. */
  lemma {:induction false} AnswerReaches(s: System, kind: nat, x: nat, lost: bool)
    requires s.client.Valid() && 0 < x < 65536 && kind in ANSWERS && x in ToAnswer(s.broker, kind) && s.down == []
    ensures var u := s.(broker := Answered(s.broker, kind, x), down := [Ack(kind, x)]);
            && Enabled(s, Answers(kind, x)) && Next(s, Answers(kind, x)) == u && Enabled(u, ReachesClient(lost))
            && Next(u, ReachesClient(lost)) ==
               if kind == PUBREC then s.(broker := u.broker, up := s.up + Sent([Ack(PUBREL, x)], lost))
               else s.(broker := u.broker, client := s.client.(pending := s.client.pending - {x}))
  {
    OthersRead(kind, x);
    var u := s.(broker := Answered(s.broker, kind, x), down := [Ack(kind, x)]);
    assert s.down + [Ack(kind, x)] == [Ack(kind, x)];
    HandleAnswer(s.client, Ack(kind, x));
    hide Handle, Ack, AckId, Kind;
    assert u.down[1..] == s.down;
    assert s.up + [] == s.up;
  }

  lemma {:induction false} MisledAck(s: System, p: Publish, x: nat, n: nat) returns (t: System)
    requires Misled(s, p, x, n) && p.qos == 1
    ensures Run(s, Misleading(1, x), t) && !Safe(t)
  {
    var a := Arrives(s);
    assert a == s.(up := [], broker := Broker([p], multiset{x}, multiset{}, multiset{}));
    hide Read;
    AnswerReaches(a, PUBACK, x, true);
    var u := Next(a, Answers(PUBACK, x));
    t := Next(u, ReachesClient(true));
    var es := Misleading(1, x);
    assert es[1..] == [Answers(PUBACK, x), ReachesClient(true)] && es[1..][1..] == [ReachesClient(true)] && es[1..][1..][1..] == [];
    hide Next, Enabled;
    ThreeSteps(s, a, u, t, es);
    assert !Pending(t, n) && !Settled(t, n);
  }

  lemma {:induction false} ThreeSteps(s: System, a: System, u: System, t: System, es: seq<Event>)
    requires |es| == 3 && s.client.Valid() && a.client.Valid() && u.client.Valid()
    requires forall e :: e in es ==> !e.Publishes?
    requires Enabled(s, es[0]) && Next(s, es[0]) == a && Enabled(a, es[1]) && Next(a, es[1]) == u
    requires Enabled(u, es[2]) && Next(u, es[2]) == t
    ensures Run(s, es, t)
  {
    hide Next, Enabled;
    assert es[1..][0] == es[1] && es[1..][1..][0] == es[2] && es[1..][1..][1..] == [];
    assert Run(t, es[1..][1..][1..], t);
    assert Run(u, es[1..][1..], t);
    assert Run(a, es[1..], t);
  }

  lemma {:induction false} MisledRec(s: System, p: Publish, x: nat, n: nat) returns (t: System)
    requires Misled(s, p, x, n) && p.qos == 2
    ensures Run(s, Misleading(2, x), t) && !Safe(t)
  {
    var a := Arrives(s);
    assert a == s.(up := [], broker := Broker([p], multiset{}, multiset{x}, multiset{}));
    OthersRead(PUBREL, x);
    hide Read, Ack;
    AnswerReaches(a, PUBREC, x, false);
    var u := Next(a, Answers(PUBREC, x));
    var v := Next(u, ReachesClient(false));
    assert v.up == [Ack(PUBREL, x)];
    var b := Arrives(v);
    assert b == v.(up := [], broker := Broker([p], multiset{}, multiset{}, multiset{x}), released := {n});
    AnswerReaches(b, PUBCOMP, x, true);
    var w := Next(b, Answers(PUBCOMP, x));
    t := Next(w, ReachesClient(true));
    var first, second := [ReachesBroker, Answers(PUBREC, x), ReachesClient(false)], [ReachesBroker, Answers(PUBCOMP, x), ReachesClient(true)];
    ThreeSteps(s, a, u, v, first);
    ThreeSteps(v, b, w, t, second);
    RunsJoin(s, first, v, second, t);
    assert first + second == Misleading(2, x);
    hide Next, Enabled, Run;
    assert !Pending(t, n) && !Settled(t, n);
  }

  /** That topics are clear is needed: any other publication that goes out breaks the promise in some run that is careful
    * but for it. Its topic holds, where it is cut, an identifier that the broker acknowledges. */
  lemma {:induction false} LongTopicBreaksThePromise(e: Event) returns (before: seq<Event>, s: System, after: seq<Event>, t: System)
    requires e.Publishes? && 1 <= e.qos <= 2 && !e.lost && !Clear(e.topic, e.payload)
    ensures Run(Initial(), before, s) && s.client.Valid() && Enabled(s, e) && NoOverwrite(s, e) && FreeId(s, e)
    ensures Run(Next(s, e), after, t) && !Safe(t)
  {
    var x := MisreadId(e.topic);
    before, s := Waiting(x);
    after := Misleading(e.qos, x);
    LongTopicMisleads(s, e, x);
    assert NoOverwrite(s, e) && FreeId(s, e);
    hide NoOverwrite, FreeId, Safe, Enabled, Misled, Next, Read, PublishBytes, Acquire, IdOf, Misread, MisreadId, Counts, Run, Clear;
    var p, u := NewPublication(s, e), Next(s, e);
    if e.qos == 1 {
      t := MisledAck(u, Misread(p), x, x - 1);
    } else {
      t := MisledRec(u, Misread(p), x, x - 1);
    }
  }

  /** A run to a state in which just one entry waits, under identifier `x`, and the broker knows of nothing. */
  lemma {:induction false} Waiting(x: nat) returns (es: seq<Event>, s: System)
    requires 0 < x < 65536
    ensures Run(Initial(), es, s) && Counts(s.client.nextId, s.count) && s.count == x && IdOf(x - 1) == x != IdOf(x)
    ensures s.broker == Broker([], multiset{}, multiset{}, multiset{}) && s.up == [] && s.down == [] && s.accepted == [] && s.released == {}
    ensures x in s.owner && s.owner[x] == x - 1 && x - 1 in s.published && s.published[x - 1].payload == []
    ensures s.client.Valid() && Acquire(s.client.nextId).0 !in s.client.pending
  {
    hide Run;
    var fs, s1 := Subscribing(Initial(), x - 1);
    LosingOne(s1);
    s := Next(s1, LOST);
    RunsJoin(Initial(), fs, s1, [LOST], s);
    es := fs + [LOST];
    Successor(x - 1);
    AcquireCounts(s.client.nextId, s.count);
  }

  lemma {:induction false} LongTopicMisleads(s: System, e: Event, x: nat)
    requires e.Publishes? && 1 <= e.qos <= 2 && !e.lost && !Clear(e.topic, e.payload) && x == MisreadId(e.topic)
    requires Counts(s.client.nextId, s.count) && s.count == x && IdOf(x - 1) == x != IdOf(x)
    requires s.broker == Broker([], multiset{}, multiset{}, multiset{}) && s.up == [] && s.down == [] && s.accepted == [] && s.released == {}
    requires x in s.owner && s.owner[x] == x - 1 && x - 1 in s.published && s.published[x - 1].payload == []
    ensures Misled(Next(s, e), Misread(NewPublication(s, e)), x, x - 1)
  {
    AcquireCounts(s.client.nextId, s.count);
    var p, u := NewPublication(s, e), Next(s, e);
    PublicationRead(p);
    assert |Misread(p).payload| > 0;
    hide Read, PublishBytes, IdOf, Acquire, Counts, Cut, MisreadId;
    assert u.up == [PublishBytes(p)];
  }

  /** There is such a topic. */
  lemma {:induction false} ALongTopic() returns (topic: seq<byte>)
    ensures |topic| == 65537 && !Clear(topic, [])
  {
    topic := seq(65537, i => 97);
    assert Cut(topic) == 1;
    assert topic[..1] == LETTER;
    LetterIsValid();
    hide ValidTopic;
    assert MisreadId(topic) == 97 * 256 + 97;
  }

  lemma {:induction false} LetterIsValid()
    ensures ValidTopic(LETTER)
  {
    assert LETTER[1..] == [];
  }

  /** What the promise demands of a publication, exactly: it holds in all runs that are careful but perhaps for this
    * publication if and only if the publication is clear. */
  lemma {:induction false} ClearIsExact(e: Event)
    requires e.Publishes? && 1 <= e.qos <= 2 && !e.lost
    ensures Clear(e.topic, e.payload) <==>
            forall before, s: System, after, t {:trigger Run(Initial(), before, s), Run(Next(s, e), after, t)} ::
              Run(Initial(), before, s) && s.client.Valid() && Enabled(s, e) && FreeId(s, e) && Run(Next(s, e), after, t) ==> Safe(t)
  {
    if Clear(e.topic, e.payload) {
      forall before, s: System, after, t |
        Run(Initial(), before, s) && s.client.Valid() && Enabled(s, e) && FreeId(s, e) && Run(Next(s, e), after, t)
        ensures Safe(t)
      {
        hide Clear, FreeId, Next, Enabled;
        InitiallyOk();
        RunKeeps(Initial(), before, s);
        hide Run, Inv;
        StepKeeps(s, e);
        RunKeeps(Next(s, e), after, t);
        SafeOf(t);
      }
    } else {
      hide Run, Safe, FreeId, NoOverwrite, Next, Enabled, Clear;
      var before, s, after, t := LongTopicBreaksThePromise(e);
    }
  }

  lemma {:induction false} SafeOf(t: System)
    requires Inv(t)
    ensures Safe(t)
  {
  }

  // ---- order ---------------------------------------------------------------------------------------------

  /** The publications under way to the broker, in order. */
  function UnderWayUp(owner: map<nat, nat>, packets: seq<seq<byte>>): seq<nat> {
    if packets == [] then []
    else UnderWayUp(owner, packets[..|packets| - 1]) + PublicationIn(owner, packets[|packets| - 1])
  }

  function PublicationIn(owner: map<nat, nat>, packet: seq<byte>): seq<nat> {
    var input := Read(packet);
    if input.Publication? && input.p.packetId in owner then [owner[input.p.packetId]] else []
  }

  ghost predicate Increasing(ns: seq<nat>) {
    forall i, j :: 0 <= i < j < |ns| ==> ns[i] < ns[j]
  }

  /** What the broker has accepted, followed by what is still under way, was published in that order. */
  ghost predicate InOrder(s: System) {
    var ns := s.accepted + UnderWayUp(s.owner, s.up);
    Increasing(ns) && forall n :: n in ns ==> n < s.count
  }

  lemma {:induction false} FirstUnderWay(owner: map<nat, nat>, packets: seq<seq<byte>>)
    requires packets != []
    ensures UnderWayUp(owner, packets) == PublicationIn(owner, packets[0]) + UnderWayUp(owner, packets[1..])
  {
    hide PublicationIn;
    if |packets| > 1 {
      var before := packets[..|packets| - 1];
      FirstUnderWay(owner, before);
      assert packets[1..][..|packets| - 2] == before[1..];
      Associate(PublicationIn(owner, packets[0]), UnderWayUp(owner, before[1..]), PublicationIn(owner, packets[|packets| - 1]));
    } else {
      assert packets[..0] == [] && packets[1..] == [];
    }
  }

  lemma {:induction false} OneMoreUnderWay(owner: map<nat, nat>, packets: seq<seq<byte>>, packet: seq<byte>)
    ensures UnderWayUp(owner, packets + [packet]) == UnderWayUp(owner, packets) + PublicationIn(owner, packet)
  {
    assert (packets + [packet])[..|packets|] == packets;
    hide PublicationIn;
  }

  /** Identifiers that no packet under way carries can change their meaning. */
  lemma {:induction false} SameUnderWay(owner: map<nat, nat>, id: nat, n: nat, packets: seq<seq<byte>>)
    requires id !in Ids(UpId, packets)
    ensures UnderWayUp(owner[id := n], packets) == UnderWayUp(owner, packets)
    decreases |packets|
  {
    if packets != [] {
      var before, last := packets[..|packets| - 1], packets[|packets| - 1];
      assert packets == before + [last];
      NotCarried(id, before, last);
      SameUnderWay(owner, id, n, before);
      hide Ids;
      SamePublication(owner, id, n, last);
    }
  }

  lemma {:induction false} NotCarried(id: nat, before: seq<seq<byte>>, last: seq<byte>)
    requires id !in Ids(UpId, before + [last])
    ensures id !in Ids(UpId, before) && id !in UpId(last)
  {
    IdsAppend(UpId, before, [last]);
    IdsOfOne(UpId, last);
    hide Ids, UpId;
  }

  lemma {:induction false} SamePublication(owner: map<nat, nat>, id: nat, n: nat, packet: seq<byte>)
    requires id !in UpId(packet)
    ensures PublicationIn(owner[id := n], packet) == PublicationIn(owner, packet)
  {
    hide Read;
  }

  lemma {:induction false} OrderFollows(before: seq<nat>, after: seq<nat>, count: nat, more: nat)
    requires Increasing(before) && (forall n :: n in before ==> n < count) && more >= count
    requires after <= before || (after == before + [count] && more > count)
    ensures Increasing(after) && forall n :: n in after ==> n < more
  {
    if after <= before {
      assert forall i :: 0 <= i < |after| ==> after[i] == before[i] && before[i] in before;
    } else {
      assert forall i :: 0 <= i < |before| ==> after[i] == before[i] && before[i] in before;
    }
  }

  lemma {:induction false} ArrivalKeepsOrder(s: System)
    requires InOrder(s) && ClientOk(s) && s.up != [] && UpOk(s, s.up[0])
    ensures InOrder(Arrives(s))
  {
    var t := Arrives(s);
    FirstUnderWay(s.owner, s.up);
    hide UnderWayUp, Increasing, Read, ClientOk;
    Associate(s.accepted, PublicationIn(s.owner, s.up[0]), UnderWayUp(s.owner, t.up));
    OrderFollows(s.accepted + UnderWayUp(s.owner, s.up), t.accepted + UnderWayUp(t.owner, t.up), s.count, t.count);
  }

  /** A packet that is no publication joins the upward channel, or none does. */
  lemma {:induction false} SilenceKeepsOrder(s: System, t: System, packets: seq<seq<byte>>)
    requires InOrder(s) && t.owner == s.owner && t.accepted == s.accepted && t.count >= s.count
    requires t.up == s.up + packets && |packets| <= 1 && (packets != [] ==> !Read(packets[0]).Publication?)
    ensures InOrder(t)
  {
    if packets != [] {
      OneMoreUnderWay(s.owner, s.up, packets[0]);
      assert packets == [packets[0]];
    } else {
      assert s.up + packets == s.up;
    }
    hide UnderWayUp, Increasing, Read;
    assert t.accepted + UnderWayUp(t.owner, t.up) == s.accepted + UnderWayUp(s.owner, s.up);
  }

  lemma {:induction false} PublishKeepsOrder(s: System, e: Event)
    requires InOrder(s) && Inv(s) && Enabled(s, e) && Careful(s, e) && e.Publishes? && e.qos != 0
    ensures InOrder(Next(s, e))
  {
    var t, p := Next(s, e), NewPublication(s, e);
    AcquireCounts(s.client.nextId, s.count);
    ClearMeans(p);
    IdIsIdle(s, e);
    hide PublishBytes, Acquire, IdOf, Counts, Clear, UnderWayUp, Increasing, Settled;
    assert p.packetId !in Ids(UpId, s.up);
    SameUnderWay(s.owner, p.packetId, s.count, s.up);
    OneMoreUnderWay(t.owner, s.up, PublishBytes(p));
    var more := if e.lost then [] else PublicationIn(t.owner, PublishBytes(p));
    assert t.up == if e.lost then s.up else s.up + [PublishBytes(p)] by {
      assert s.up + [] == s.up;
    }
    assert more == [] || more == [s.count];
    hide Moves, Read, Inv;
    Associate(s.accepted, UnderWayUp(s.owner, s.up), more);
    OrderFollows(s.accepted + UnderWayUp(s.owner, s.up), t.accepted + UnderWayUp(t.owner, t.up), s.count, t.count);
  }

  lemma {:induction false} ReplyKeepsOrder(s: System, e: Event)
    requires InOrder(s) && s.client.Valid() && Enabled(s, e) && e.ReachesClient?
    ensures InOrder(Next(s, e))
  {
    var packet, t := s.down[0], Next(s, e);
    if Kind(packet) in ANSWERS {
      if AckId(packet).Some? {
        HandleAnswer(s.client, packet);
        OthersRead(PUBREL, AckId(packet).value);
      }
    } else {
      HandleOther(s.client, packet);
    }
    var replies := Sent(Handle(s.client, packet).1, e.lost);
    assert |replies| <= 1 && (replies != [] ==> !Read(replies[0]).Publication?);
    hide Handle, Read, InOrder, Kind, AckId, Ack;
    SilenceKeepsOrder(s, t, replies);
  }

  lemma {:induction false} StepKeepsOrder(s: System, e: Event)
    requires InOrder(s) && Inv(s) && s.client.Valid() && Enabled(s, e) && Careful(s, e)
    ensures InOrder(Next(s, e))
  {
    if e.Publishes? && e.qos != 0 {
      PublishKeepsOrder(s, e);
    } else if e.ReachesBroker? {
      hide InOrder;
      ArrivalKeepsOrder(s);
    } else if e.ReachesClient? {
      hide InOrder;
      ReplyKeepsOrder(s, e);
    } else if e.Publishes? || e.Subscribes? {
      var packet := if e.Subscribes? then e.packet else PublishBytes(NewPublication(s, e));
      SilentSend(s, e, packet);
      hide InOrder, PublishBytes, Next, Inv;
      SilenceKeepsOrder(s, Next(s, e), Sent([packet], e.lost));
    } else if e.Reconnects? {
      EmptyKeepsOrder(s, Next(s, e));
    } else {
      assert s.up + [] == s.up;
      hide InOrder, Inv;
      SilenceKeepsOrder(s, Next(s, e), []);
    }
  }

  lemma {:induction false} EmptyKeepsOrder(s: System, t: System)
    requires InOrder(s) && t == s.(up := [], down := [])
    ensures InOrder(t)
  {
    var before := s.accepted + UnderWayUp(s.owner, s.up);
    assert t.accepted + UnderWayUp(t.owner, t.up) == s.accepted <= before;
    OrderFollows(before, s.accepted, s.count, t.count);
  }

  lemma {:induction false} RunKeepsOrder(s: System, es: seq<Event>, t: System)
    requires InOrder(s) && Inv(s) && Run(s, es, t)
    ensures InOrder(t)
    decreases |es|
  {
    if es != [] {
      hide Inv, Enabled, Careful, Next, InOrder;
      StepKeeps(s, es[0]);
      StepKeepsOrder(s, es[0]);
      RunKeepsOrder(Next(s, es[0]), es[1..], t);
    }
  }

  /** In every such run the broker accepts each publication at most once, and in the order they were made. */
  lemma {:induction false} AcceptedOnceInOrder(es: seq<Event>, t: System)
    requires Run(Initial(), es, t)
    ensures Increasing(t.accepted)
  {
    InitiallyOk();
    RunKeepsOrder(Initial(), es, t);
    hide UnderWayUp;
    var ns := t.accepted + UnderWayUp(t.owner, t.up);
    assert forall i :: 0 <= i < |t.accepted| ==> ns[i] == t.accepted[i];
  }
}
