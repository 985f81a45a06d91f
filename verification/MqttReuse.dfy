/**
  * What happens when the client of src/mqtt/mqtt_client.cpp uses an identifier again whose entry is still in its
  * table: the exact condition under which no run breaks the promise afterwards, and two runs that do.
  */
module MqttReuse {
  import opened Bytes
  import opened MqttCodec
  import opened MqttBroker
  import opened MqttQos

  // ---- settled exchanges -----------------------------------------------------------------------------------

  /** A packet or debt of an exchange that is not yet in its last phase: on the way up, or about a PUBREC. */
  ghost predicate Early(s: System, id: nat) {
    || id in Ids(UpId, s.up) || id in s.broker.toRec
    || exists packet :: packet in s.down && Kind(packet) == PUBREC && id in DownId(packet)
  }

  /** Nothing early is left of a settled exchange, and what has been released has been accepted. */
  ghost predicate InPhase(s: System) {
    && (forall n: nat :: n in s.released ==> n in s.accepted)
    && forall id: nat :: id in s.owner && Settled(s, s.owner[id]) ==> !Early(s, id)
  }

  lemma {:induction false} PhaseFollows(s: System, t: System)
    requires InPhase(s)
    requires t.published == s.published && t.owner == s.owner && t.accepted == s.accepted && t.released == s.released
    requires forall id: nat :: Early(t, id) ==> Early(s, id)
    ensures InPhase(t)
  {
    hide Early;
    forall id: nat | id in t.owner && Settled(t, t.owner[id]) ensures !Early(t, id) {
      assert Settled(s, s.owner[id]);
    }
  }

  /** Packets join the upward channel that carry no identifier but perhaps `id`. */
  lemma {:induction false} EarlyUp(s: System, t: System, packets: seq<seq<byte>>, id: nat)
    requires t.up == s.up + packets && |packets| <= 1 && t.broker == s.broker && t.down == s.down
    requires forall packet :: packet in packets ==> UpId(packet) <= multiset{id}
    ensures forall k: nat :: Early(t, k) ==> Early(s, k) || k == id
    ensures (forall packet :: packet in packets ==> UpId(packet) == multiset{}) ==> forall k: nat :: Early(t, k) ==> Early(s, k)
  {
    IdsAppend(UpId, s.up, packets);
    if packets != [] {
      IdsOfOne(UpId, packets[0]);
      assert packets == [packets[0]] && packets[0] in packets;
    }
    hide UpId, DownId, Kind;
  }

  lemma {:induction false} EarlyDown(s: System, t: System)
    requires t.up == s.up && t.broker.toRec <= s.broker.toRec
    requires forall packet :: packet in t.down && Kind(packet) == PUBREC ==>
               packet in s.down || DownId(packet) <= s.broker.toRec
    ensures forall k: nat :: Early(t, k) ==> Early(s, k)
  {
    hide UpId, DownId, Kind, Ids;
    forall k: nat | Early(t, k) ensures Early(s, k) {
      if packet :| packet in t.down && Kind(packet) == PUBREC && k in DownId(packet) {
        assert packet in s.down || k in s.broker.toRec;
      }
    }
  }

  lemma {:induction false} PublishKeepsPhase(s: System, e: Event)
    requires InPhase(s) && Inv(s) && Enabled(s, e) && Careful(s, e) && e.Publishes? && e.qos != 0
    ensures InPhase(Next(s, e))
  {
    var t, p := Next(s, e), NewPublication(s, e);
    AcquireCounts(s.client.nextId, s.count);
    ClearMeans(p);
    NewIsNew(s);
    assert s.count !in s.accepted;
    hide PublishBytes, Acquire, IdOf, Counts, Clear, Read, Careful, Early, Linked, Safe, ChannelsOk, BrokerOk;
    EarlyUp(s, t, Sent([PublishBytes(p)], e.lost), p.packetId);
    forall id: nat | id in t.owner && Settled(t, t.owner[id]) ensures !Early(t, id) {
      assert id != p.packetId && Settled(s, s.owner[id]);
    }
  }

  lemma {:induction false} SilentKeepsPhase(s: System, e: Event)
    requires InPhase(s) && Inv(s) && Enabled(s, e) && (e.Subscribes? || (e.Publishes? && e.qos == 0))
    ensures InPhase(Next(s, e))
  {
    var packet := if e.Subscribes? then e.packet else PublishBytes(NewPublication(s, e));
    SilentSend(s, e, packet);
    CountsOf(s);
    hide InPhase, PublishBytes, Next, Inv, Early, UpId;
    var t := Next(s, e);
    EarlyUp(s, t, Sent([packet], e.lost), 0);
    PhaseFollows(s, t);
  }

  lemma {:induction false} ReplyKeepsPhase(s: System, e: Event)
    requires InPhase(s) && s.client.Valid() && ChannelsOk(s) && Enabled(s, e) && e.ReachesClient?
    ensures InPhase(Next(s, e))
  {
    var packet, t, u := s.down[0], Next(s, e), s.(down := s.down[1..]);
    var replies := Sent(Handle(s.client, packet).1, e.lost);
    assert DownOk(s, packet);
    if Kind(packet) in ANSWERS {
      HandleAnswer(s.client, packet);
      OthersRead(PUBREL, AckId(packet).value);
    } else {
      HandleOther(s.client, packet);
    }
    var id := if Kind(packet) == PUBREC then AckId(packet).value else 0;
    assert forall r :: r in replies ==> UpId(r) == if Kind(packet) == PUBREC then multiset{id} else multiset{};
    assert Kind(packet) == PUBREC ==> id in DownId(packet);
    hide Handle, Read, InPhase, AckId, Ack, UpId, DownId, DownOk, ChannelsOk;
    EarlyDown(s, u);
    EarlyUp(u, t.(client := s.client), replies, id);
    assert Kind(packet) == PUBREC ==> Early(s, id);
    hide Early, Kind, Next;
    EarlySame(t, s.client);
    PhaseFollows(s, t);
  }

  lemma {:induction false} EarlySame(t: System, c: Client)
    ensures forall k: nat :: Early(t.(client := c), k) <==> Early(t, k)
  {
    hide Ids, DownId, Kind;
  }

  lemma {:induction false} AnswerKeepsPhase(s: System, e: Event)
    requires InPhase(s) && s.client.Valid() && Enabled(s, e) && (e.Answers? || e.SendsOther? || e.Reconnects?)
    ensures InPhase(Next(s, e))
  {
    var t := Next(s, e);
    if e.Reconnects? {
      hide Kind, DownId, UpId;
      assert forall k: nat :: Early(t, k) ==> Early(s, k);
    } else {
      if e.Answers? {
        OthersRead(e.kind, e.id);
        assert DownId(Ack(e.kind, e.id)) == multiset{e.id};
      }
      hide Kind, DownId, Ack, Early, AckId;
      EarlyDown(s, t);
    }
    hide Early, Next, Enabled;
    PhaseFollows(s, t);
  }

  /** The one packet of an exchange arrives: nothing early is left but what it starts. */
  lemma {:induction false} OneArrives(s: System, id: nat)
    requires Linked(s) && s.up != [] && UpId(s.up[0]) == multiset{id}
    ensures id !in Ids(UpId, s.up[1..]) && id !in s.broker.toRec
    ensures forall packet :: packet in s.down ==> id !in DownId(packet)
  {
    hide UpId, DownId;
    var rest, down, owed := Ids(UpId, s.up[1..]), Ids(DownId, s.down), Owed(s.broker);
    assert Moves(s) == multiset{id} + rest + down + owed;
    assert Moves(s)[id] == 1 + rest[id] + down[id] + owed[id];
    assert s.broker.toRec[id] <= owed[id];
    forall packet | packet in s.down ensures id !in DownId(packet) {
      IdsHold(DownId, s.down, packet);
    }
  }

  lemma {:induction false} ArrivalKeepsPhase(s: System)
    requires InPhase(s) && InOrder(s) && Inv(s) && s.up != []
    ensures InPhase(Arrives(s))
  {
    var t := Arrives(s);
    assert UpOk(s, s.up[0]);
    ReadIds(s.up[0]);
    ArrivalEarly(s);
    match Read(s.up[0])
    case Nothing =>
      hide Early, Read, Inv, InOrder;
      PhaseFollows(s, t);
    case Publication(p) =>
      NotYetAccepted(s, p);
      OneArrives(s, p.packetId);
      PublicationPhase(s, p);
    case Release(id) =>
      OneArrives(s, id);
      ReleasePhase(s, id);
  }

  /** Early things after an arrival were so before; of the identifier that arrived only a PUBREC may be due. */
  lemma {:induction false} ArrivalEarly(s: System)
    requires s.up != []
    ensures forall k: nat :: Early(Arrives(s), k) ==> Early(s, k)
  {
    hide DownId, Kind;
    var t := Arrives(s);
    assert Ids(UpId, s.up) == UpId(s.up[0]) + Ids(UpId, s.up[1..]);
    hide Ids, Read;
  }

  /** A publication under way has not been accepted. */
  lemma {:induction false} NotYetAccepted(s: System, p: Publish)
    requires InOrder(s) && s.up != [] && Read(s.up[0]) == Publication(p) && p.packetId in s.owner
    ensures s.owner[p.packetId] !in s.accepted
  {
    FirstUnderWay(s.owner, s.up);
    hide Read, UnderWayUp;
    var n, rest := s.owner[p.packetId], UnderWayUp(s.owner, s.up[1..]);
    var ns := s.accepted + ([n] + rest);
    assert ns[|s.accepted|] == n;
    forall i | 0 <= i < |s.accepted| ensures s.accepted[i] != n {
      assert ns[i] < ns[|s.accepted|];
    }
  }

  lemma {:induction false} PublicationPhase(s: System, p: Publish)
    requires InPhase(s) && s.up != [] && Read(s.up[0]) == Publication(p) && Stands(s, p.packetId, p)
    requires forall n: nat :: n in s.published ==> s.published[n].packetId == IdOf(n)
    requires forall id: nat :: id in s.owner ==> IdOf(s.owner[id]) == id
    requires s.owner[p.packetId] !in s.accepted
    requires forall k: nat :: Early(Arrives(s), k) ==> Early(s, k)
    requires p.packetId !in Ids(UpId, s.up[1..]) && p.packetId !in s.broker.toRec
    requires forall packet :: packet in s.down ==> p.packetId !in DownId(packet)
    ensures InPhase(Arrives(s))
  {
    var t, n := Arrives(s), s.owner[p.packetId];
    assert t.accepted == s.accepted + [n] && t.released == s.released;
    assert n !in s.released;
    assert 1 <= p.qos <= 2 && (p.qos == 1 ==> !Early(t, p.packetId));
    hide Read, IdOf, Ids, Kind, DownId;
    forall id: nat | id in t.owner && Settled(t, t.owner[id]) ensures !Early(t, id) {
      if t.owner[id] == n {
        assert id == p.packetId && p.qos != 2;
      } else {
        assert Settled(s, s.owner[id]);
      }
    }
  }

  lemma {:induction false} ReleasePhase(s: System, id: nat)
    requires InPhase(s) && s.up != [] && Read(s.up[0]) == Release(id) && Says(s, PUBREC, id)
    requires forall id: nat :: id in s.owner ==> IdOf(s.owner[id]) == id
    requires forall k: nat :: Early(Arrives(s), k) ==> Early(s, k)
    requires id !in Ids(UpId, s.up[1..]) && id !in s.broker.toRec
    requires forall packet :: packet in s.down ==> id !in DownId(packet)
    ensures InPhase(Arrives(s))
  {
    var t, n := Arrives(s), s.owner[id];
    assert t.accepted == s.accepted && t.released == s.released + {n};
    assert !Early(t, id);
    hide Read, IdOf, Early;
    forall k: nat | k in t.owner && Settled(t, t.owner[k]) ensures !Early(t, k) {
      if t.owner[k] == n {
        assert k == id;
      } else {
        assert Settled(s, s.owner[k]);
      }
    }
  }

  lemma {:induction false} StepKeepsPhase(s: System, e: Event)
    requires InPhase(s) && InOrder(s) && Inv(s) && s.client.Valid() && Enabled(s, e) && Careful(s, e)
    ensures InPhase(Next(s, e))
  {
    hide InPhase, InOrder, Careful;
    if e.Publishes? && e.qos != 0 {
      PublishKeepsPhase(s, e);
    } else if e.Publishes? || e.Subscribes? {
      SilentKeepsPhase(s, e);
    } else if e.ReachesBroker? {
      ArrivalKeepsPhase(s);
    } else if e.ReachesClient? {
      ReplyKeepsPhase(s, e);
    } else {
      AnswerKeepsPhase(s, e);
    }
  }

  lemma {:induction false} RunKeepsPhase(s: System, es: seq<Event>, t: System)
    requires InPhase(s) && InOrder(s) && Inv(s) && Run(s, es, t)
    ensures InPhase(t) && InOrder(t) && Inv(t)
    decreases |es|
  {
    if es != [] {
      hide Inv, Enabled, Careful, Next, InOrder, InPhase;
      StepKeeps(s, es[0]);
      StepKeepsOrder(s, es[0]);
      StepKeepsPhase(s, es[0]);
      RunKeepsPhase(Next(s, es[0]), es[1..], t);
    }
  }

  lemma {:induction false} InitiallyInPhase()
    ensures InPhase(Initial()) && InOrder(Initial()) && Inv(Initial())
  {
  }

  // ---- the entry of another publication ----------------------------------------------------------------------

  /** An answer on its way to the client that erases the entry under `id`. */
  predicate Erases(packet: seq<byte>, id: nat) {
    Kind(packet) in {PUBACK, PUBCOMP} && AckId(packet) == Some(id)
  }

  /** Publication `n` holds the entry under `id`, and the broker has not accepted it. */
  predicate Unseen(s: System, id: nat, n: nat) {
    s.client.Valid() && n in s.published && n !in s.accepted && IdOf(n) == id
  }

  /** The client takes the packets on their way to it; its replies get lost. */
  function Taking(k: nat): (es: seq<Event>)
    ensures |es| == k
  {
    if k == 0 then [] else [ReachesClient(true)] + Taking(k - 1)
  }

  lemma {:induction false} OneTaken(s: System)
    requires s.client.Valid() && s.down != []
    ensures var t := Next(s, ReachesClient(true));
            && t == s.(client := t.client, down := s.down[1..]) && t.client.nextId == s.client.nextId
            && t.client.pending.Keys <= s.client.pending.Keys
            && forall id :: Erases(s.down[0], id) ==> id !in t.client.pending
  {
    var packet := s.down[0];
    if Kind(packet) in ANSWERS {
      if AckId(packet).Some? {
        HandleAnswer(s.client, packet);
      }
    } else {
      HandleOther(s.client, packet);
    }
    hide Kind, AckId, Ack, Parsed;
    assert s.up + [] == s.up;
  }

  /** Whatever else is on its way, in the end the entry is gone. */
  lemma {:induction false} DrainErases(s: System, id: nat, n: nat) returns (t: System)
    requires Unseen(s, id, n)
    requires id !in s.client.pending || exists packet :: packet in s.down && Erases(packet, id)
    ensures Run(s, Taking(|s.down|), t) && !Safe(t)
    decreases |s.down|
  {
    hide Erases, IdOf;
    if s.down == [] {
      t := s;
      assert !Pending(t, n) && !Settled(t, n);
    } else {
      OneTaken(s);
      var u := Next(s, ReachesClient(true));
      if id in u.client.pending {
        var packet :| packet in s.down && Erases(packet, id);
        assert packet in s.down[1..];
      }
      t := DrainErases(u, id, n);
      var es := Taking(|s.down|);
      assert es[0] == ReachesClient(true) && es[1..] == Taking(|u.down|);
      assert Careful(s, es[0]);
      hide Next, Safe;
    }
  }

  lemma {:induction false} InSome(idOf: seq<byte> -> multiset<nat>, packets: seq<seq<byte>>, id: nat)
    requires id in Ids(idOf, packets)
    ensures exists packet :: packet in packets && id in idOf(packet)
  {
    if id in idOf(packets[0]) {
      assert packets[0] in packets;
    } else {
      InSome(idOf, packets[1..], id);
      var packet :| packet in packets[1..] && id in idOf(packet);
      assert packet in packets;
    }
  }

  /** What is left of a settled exchange is its last answer: owed, or on its way to the client. */
  lemma {:induction false} LastAnswer(s: System, id: nat)
    requires InPhase(s) && id in s.owner && Settled(s, s.owner[id]) && id in Moves(s)
    ensures id in s.broker.toAck || id in s.broker.toComp || exists packet :: packet in s.down && Erases(packet, id)
  {
    assert !Early(s, id);
    hide Settled;
    if id in Ids(DownId, s.down) {
      InSome(DownId, s.down, id);
      var packet :| packet in s.down && id in DownId(packet);
      assert Kind(packet) != PUBREC;
      assert Erases(packet, id);
    }
  }

  /** That answer erases the entry of the publication that has taken over the identifier. */
  lemma {:induction false} OldAnswerErases(s: System, id: nat, n: nat) returns (after: seq<Event>, t: System)
    requires Unseen(s, id, n) && 0 < id < 65536
    requires id in s.broker.toAck || id in s.broker.toComp || exists packet :: packet in s.down && Erases(packet, id)
    ensures Run(s, after, t) && !Safe(t)
  {
    if packet :| packet in s.down && Erases(packet, id) {
      after := Taking(|s.down|);
      t := DrainErases(s, id, n);
    } else {
      var kind := if id in s.broker.toAck then PUBACK else PUBCOMP;
      var u := Next(s, Answers(kind, id));
      OthersRead(kind, id);
      assert Ack(kind, id) in u.down && Erases(Ack(kind, id), id);
      hide Erases, Ack, IdOf;
      t := DrainErases(u, id, n);
      after := [Answers(kind, id)] + Taking(|u.down|);
      assert after[1..] == Taking(|u.down|);
      hide Next, Safe;
      assert Careful(s, after[0]);
    }
  }

  // ---- the exact condition -------------------------------------------------------------------------------------

  /** The step itself: what is overwritten must be settled. */
  lemma {:induction false} OverwritingStep(s: System, e: Event)
    requires ClientOk(s) && Safe(s) && Enabled(s, e) && !NoOverwrite(s, e)
    ensures var id := Acquire(s.client.nextId).0; id in s.owner && (Safe(Next(s, e)) <==> Settled(s, s.owner[id]))
  {
    var t, n := Next(s, e), s.count;
    AcquireCounts(s.client.nextId, n);
    NewIsNew(s);
    var m := s.owner[IdOf(n)];
    hide PublishBytes, IdOf, Acquire, Counts;
    assert m in t.published && !Pending(t, m);
    assert Settled(t, m) <==> Settled(s, m);
    forall k: nat | k in t.published && k != m ensures Pending(t, k) || Settled(t, k) {
      assert k != n && Pending(s, k) ==> Pending(t, k);
      assert Settled(s, k) ==> Settled(t, k);
    }
  }

  /** What the publication leaves that overwrites an entry. */
  lemma {:induction false} TakenOver(s: System, e: Event)
    requires Inv(s) && Enabled(s, e) && !NoOverwrite(s, e)
    ensures var t, id := Next(s, e), Acquire(s.client.nextId).0;
            Unseen(t, id, s.count) && 0 < id < 65536 && t.broker == s.broker && t.down == s.down
  {
    AcquireCounts(s.client.nextId, s.count);
    NewIsNew(s);
    assert s.count !in s.accepted;
    hide PublishBytes, IdOf, Acquire;
  }

  /** A publication that gets an identifier whose exchange is not over breaks the promise in some careful run. */
  lemma {:induction false} BusyIdBreaksThePromise(s: System, e: Event) returns (after: seq<Event>, t: System)
    requires Inv(s) && InPhase(s) && Enabled(s, e) && !FreeId(s, e)
    ensures Run(Next(s, e), after, t) && !Safe(t)
  {
    var id := Acquire(s.client.nextId).0;
    OverwritingStep(s, e);
    TakenOver(s, e);
    hide Next, Acquire, Safe, InPhase, Enabled, ClientOk, Linked, ChannelsOk, BrokerOk, LogOk, Unseen, Settled, Moves;
    if Settled(s, s.owner[id]) {
      LastAnswer(s, id);
      after, t := OldAnswerErases(Next(s, e), id, s.count);
    } else {
      after, t := [], Next(s, e);
    }
  }

  /** The condition on identifiers is exact. After any careful run, a clear publication keeps the promise in all careful
    * runs that follow if and only if its identifier is not in the table, or the exchange that used it last is over. */
  lemma {:induction false} OverwritingBreaksThePromise(before: seq<Event>, s: System, e: Event)
    requires Run(Initial(), before, s) && s.client.Valid() && Enabled(s, e) && ClearIfMade(e)
    ensures FreeId(s, e) <==> forall after, t {:trigger Run(Next(s, e), after, t)} :: Run(Next(s, e), after, t) ==> Safe(t)
  {
    InitiallyInPhase();
    RunKeepsPhase(Initial(), before, s);
    hide Run, Inv, InPhase, InOrder, Next, Enabled, FreeId, ClearIfMade;
    if FreeId(s, e) {
      StepKeeps(s, e);
      forall after, t | Run(Next(s, e), after, t) ensures Safe(t) {
        RunKeeps(Next(s, e), after, t);
        SafeOf(t);
      }
    } else {
      var after, t := BusyIdBreaksThePromise(s, e);
    }
  }

  // ---- two runs that fail --------------------------------------------------------------------------------------

  /** A publication is lost, 65534 more identifiers are handed out, and the next publication overwrites the entry, which
    * the broker never saw. */
  lemma {:induction false} OverwritingHappens() returns (before: seq<Event>, s: System)
    ensures Run(Initial(), before, s) && s.client.Valid() && Enabled(s, LOST) && !NoOverwrite(s, LOST)
    ensures !Safe(Next(s, LOST))
  {
    var u := Next(Initial(), LOST);
    LosingOne(Initial());
    var more: seq<Event>;
    more, s := Subscribing(u, 65534);
    RunsJoin(Initial(), [LOST], u, more, s);
    before := [LOST] + more;
    InitiallyInPhase();
    RunKeeps(Initial(), before, s);
    AcquireCounts(s.client.nextId, s.count);
    assert IdOf(0) == 1 == IdOf(65535);
    hide Run, Counts, Next, Acquire, Safe, Linked, ChannelsOk, BrokerOk, LogOk;
    OverwritingStep(s, LOST);
  }

  /** The same publication, and this time it arrives. */
  const ARRIVES: Event := Publishes(LETTER, [], 1, false, false)

  const FIRST: Publish := Publish(LETTER, [], 1, false, 1)

  /** The client after its first publication. */
  function Made(up: seq<seq<byte>>, accepted: seq<nat>, broker: Broker): System {
    System(Client(2, map[1 := FIRST]), broker, up, [], 1, map[0 := FIRST], map[1 := 0], accepted, {})
  }

  lemma {:induction false} Making()
    ensures var u := Made([PublishBytes(FIRST)], [], Initial().broker);
            Enabled(Initial(), ARRIVES) && Careful(Initial(), ARRIVES) && Next(Initial(), ARRIVES) == u
  {
    hide PublishBytes;
    var none: seq<seq<byte>> := [];
    assert none + [PublishBytes(FIRST)] == [PublishBytes(FIRST)];
  }

  lemma {:induction false} Arriving()
    ensures var u := Made([PublishBytes(FIRST)], [], Initial().broker);
            && Enabled(u, ReachesBroker) && Careful(u, ReachesBroker)
            && Next(u, ReachesBroker) == Made([], [0], Broker([FIRST], multiset{1}, multiset{}, multiset{}))
  {
    PublicationRead(FIRST);
    LetterIsValid();
    hide PublishBytes, Read, ValidTopic;
    var none: seq<seq<byte>> := [];
    assert [PublishBytes(FIRST)][1..] == none;
  }

  lemma {:induction false} Accepting() returns (s: System)
    ensures s == Made([], [0], Broker([FIRST], multiset{1}, multiset{}, multiset{}))
    ensures Run(Initial(), [ARRIVES, ReachesBroker], s) && Counts(s.client.nextId, s.count)
  {
    Making();
    Arriving();
    assert IdOf(0) == 1;
    var u := Next(Initial(), ARRIVES);
    s := Next(u, ReachesBroker);
    var es := [ARRIVES, ReachesBroker];
    assert es[1..] == [ReachesBroker] && es[1..][1..] == [];
    hide Next, Enabled, Careful, PublishBytes;
    assert Run(s, es[1..][1..], s);
    assert Run(u, es[1..], s);
  }

  /** A publication is accepted, but its PUBACK is slow; 65534 more identifiers are handed out, and the next publication,
    * which gets lost, overwrites the settled entry. Nothing is broken yet. Then the old PUBACK arrives and erases the entry
    * of the new publication, which the broker never saw. */
  lemma {:induction false} OldAnswerTakenForNew() returns (before: seq<Event>, s: System, t: System)
    ensures Run(Initial(), before, s) && s.client.Valid() && Enabled(s, LOST) && !NoOverwrite(s, LOST)
    ensures Safe(Next(s, LOST))
    ensures Run(Next(s, LOST), [Answers(PUBACK, 1), ReachesClient(true)], t) && !Safe(t)
  {
    var u := Accepting();
    var more: seq<Event>;
    more, s := Subscribing(u, 65534);
    RunsJoin(Initial(), [ARRIVES, ReachesBroker], u, more, s);
    before := [ARRIVES, ReachesBroker] + more;
    InitiallyInPhase();
    RunKeeps(Initial(), before, s);
    AcquireCounts(s.client.nextId, s.count);
    assert IdOf(0) == 1 == IdOf(65535);
    hide Run, Counts, Acquire, Safe, Linked, ChannelsOk, BrokerOk, LogOk, PublishBytes;
    OverwritingStep(s, LOST);
    TakenOver(s, LOST);
    t := AnswerThenTaken(Next(s, LOST), 65535);
  }

  lemma {:induction false} AnswerThenTaken(s: System, n: nat) returns (t: System)
    requires Unseen(s, 1, n) && 1 in s.broker.toAck && s.down == []
    ensures Run(s, [Answers(PUBACK, 1), ReachesClient(true)], t) && !Safe(t)
  {
    AnswerReaches(s, PUBACK, 1, true);
    var u := Next(s, Answers(PUBACK, 1));
    t := Next(u, ReachesClient(true));
    var es := [Answers(PUBACK, 1), ReachesClient(true)];
    assert es[1..] == [ReachesClient(true)] && es[1..][1..] == [];
    hide Next, Enabled;
    assert Run(t, es[1..][1..], t);
    assert Run(u, es[1..], t);
    assert !Pending(t, n) && !Settled(t, n);
  }
}
