/** Two honest IWP sessions joined by a network that may lose, duplicate, delay and reorder:
    a packet that was ever sent may arrive at any later moment, any number of times. */
module IwpNetwork {
  import opened Common
  import opened IwpMessages
  import opened IwpSession

  datatype Action =
    | Send(data: Bytes, hasHandler: bool)
    | Receive(flight: Flight)
    | FlushMacks
    | DoPump
    | DoTick

  /** What one session does on one event; PING and CLOS touch none of the queues. */
  function Act(h: Hasher, s: State, a: Action, now: Time): State
  {
    match a
    case Send(data, hasHandler) => SendMessage(s, h, data, hasHandler, now)
    case FlushMacks => SendMacks(s, now)
    case DoPump => Pump(s, now)
    case DoTick => Tick(s, now)
    case Receive(f) =>
      match f.packet
      case Xmit(_, _, _, _) => OnXmit(s, h, f.packet, now)
      case Data(_, _, _) => OnData(s, h, f.packet, now)
      case Acks(_, _) => OnAcks(s, f.packet, now)
      case Nack(_) => OnNack(s, f.packet, now)
      case Mack(ids) => OnMack(s, ids)
      case Ping => s
      case Clos => s
  }

  datatype System = System(a: State, b: State, now: Time)

  /** The environment submits messages that fit the link; a session receives only what its
      peer has sent. */
  ghost predicate Allowed(peer: State, act: Action)
  {
    match act
    case Send(data, _) => |data| <= MAX_LINK_MSG_SIZE
    case Receive(f) => f in peer.hist.sent
    case _ => true
  }

  ghost predicate Step(h: Hasher, s: System, s': System, atA: bool, act: Action)
  {
    && s.now <= s'.now
    && Allowed(if atA then s.b else s.a, act)
    && s'.a == (if atA then Act(h, s.a, act, s'.now) else s.a)
    && s'.b == (if atA then s.b else Act(h, s.b, act, s'.now))
  }

  datatype Event = Event(atA: bool, act: Action)

  ghost predicate IsRun(h: Hasher, run: seq<System>, events: seq<Event>)
  {
    && |run| == |events| + 1
    && run[0].a == InitialState && run[0].b == InitialState
    && forall i :: 0 <= i < |events| ==> Step(h, run[i], run[i + 1], events[i].atA, events[i].act)
  }

  // ----- the invariant, for the messages that S sends and R receives

  /** A packet that carries part of a message of S says what S was asked to send. */
  ghost predicate CarriesMessage(h: Hasher, S: State, p: Packet)
  {
    match p
    case Xmit(size, id, digest, data) =>
      id in S.hist.submitted &&
      var msg := S.hist.submitted[id].data;
      size == |msg| && digest == h(msg) && data == msg[..Min(|msg|, FRAGMENT_SIZE)]
    case Data(idx, id, data) =>
      id in S.hist.submitted &&
      var msg := S.hist.submitted[id].data;
      exists f: nat :: f < FragmentCount(|msg|) && idx == f * FRAGMENT_SIZE && data == Fragment(msg, f)
    case _ => true
  }

  ghost predicate TxMatches(h: Hasher, S: State, id: nat, m: OutboundMessage)
  {
    && id in S.hist.submitted
    && m.id == id && m.data == S.hist.submitted[id].data && m.digest == h(m.data)
    && m.hasHandler == S.hist.submitted[id].hasHandler
    && m.startedAt == S.hist.submitted[id].startedAt
    && |m.data| <= MAX_LINK_MSG_SIZE
  }

  ghost predicate SenderInv(h: Hasher, S: State)
  {
    && (forall id: nat :: id in S.hist.submitted <==> id < S.txid)
    && (forall id :: id in S.tx ==> TxMatches(h, S, id, S.tx[id]))
    && (forall f :: f in S.hist.sent ==> CarriesMessage(h, S, f.packet))
  }

  ghost predicate Delivered(R: State, id: nat)
  {
    exists d :: d in R.hist.delivered && d.id == id
  }

  /** The receiver is done with this id: it delivered it, or gave up on it. */
  ghost predicate Settled(R: State, id: nat)
  {
    Delivered(R, id) || id in R.hist.abandoned
  }

  /** An unfinished inbound message: its marked fragments are the sender's, one is missing. */
  ghost predicate RxMatches(h: Hasher, S: State, id: nat, m: InboundMessage)
  {
    && id in S.hist.submitted
    && m.id == id && m.digest == h(S.hist.submitted[id].data)
    && HoldsPartOf(m, S.hist.submitted[id].data)
    && !AllMarked(m.acks, |m.data|)
  }

  ghost predicate DeliveredMatches(S: State, d: Delivery)
  {
    d.id in S.hist.submitted && d.data == S.hist.submitted[d.id].data
  }

  /** An acknowledgement that covers the whole message was sent after the delivery; a
      multi-ack names only settled ids. */
  ghost predicate AckHonest(S: State, R: State, p: Packet)
  {
    match p
    case Acks(id, mask) =>
      id in S.hist.submitted && (AllMarked(mask, |S.hist.submitted[id].data|) ==> Delivered(R, id))
    case Mack(ids) => forall id :: id in ids ==> Settled(R, id)
    case _ => true
  }

  ghost predicate ReceiverInv(h: Hasher, S: State, R: State)
  {
    && (forall id :: id in R.rx ==> RxMatches(h, S, id, R.rx[id]))
    && (forall id :: id in R.replay ==> id !in R.rx && Settled(R, id))
    && (forall d :: d in R.hist.delivered ==> DeliveredMatches(S, d))
    && (forall f :: f in R.hist.sent ==> AckHonest(S, R, f.packet))
    && (forall id :: id in R.macks ==> Settled(R, id))
  }

  /** Success reported through ACKS means delivered, through MACK settled. */
  ghost predicate OutcomesHonest(S: State, R: State)
  {
    forall id :: id in S.hist.fate ==>
      && (S.hist.fate[id] == ByAcks ==> Delivered(R, id))
      && (S.hist.fate[id] == ByMack ==> Settled(R, id))
  }

  ghost predicate DirectionInv(h: Hasher, S: State, R: State)
  {
    SenderInv(h, S) && ReceiverInv(h, S, R) && OutcomesHonest(S, R)
  }

  // ----- what every action keeps

  /** The histories only grow, and a submission never changes. */
  ghost predicate Grows(s: State, s': State)
  {
    && s.hist.submitted.Keys <= s'.hist.submitted.Keys
    && (forall id :: id in s.hist.submitted ==> s'.hist.submitted[id] == s.hist.submitted[id])
    && s.hist.sent <= s'.hist.sent
    && s.hist.delivered <= s'.hist.delivered
    && s.hist.abandoned <= s'.hist.abandoned
  }

  lemma {:induction false} OnMackFrame(s: State, ids: seq<nat>)
    ensures var s' := OnMack(s, ids);
            && s'.txid == s.txid && s'.rx == s.rx && s'.replay == s.replay && s'.macks == s.macks
            && s'.hist.submitted == s.hist.submitted && s'.hist.sent == s.hist.sent
            && s'.hist.delivered == s.hist.delivered && s'.hist.abandoned == s.hist.abandoned
            && (forall id :: id in s'.tx ==> id in s.tx && s'.tx[id] == s.tx[id])
            && (forall id :: id in s'.hist.fate ==> (id in ids && s'.hist.fate[id] == ByMack)
                                                    || (id in s.hist.fate && s'.hist.fate[id] == s.hist.fate[id]))
    decreases |ids|
  {
    if ids != [] {
      OnMackFrame(MackOne(s, ids[0]), ids[1..]);
    }
  }

  lemma ActGrows(h: Hasher, s: State, act: Action, now: Time)
    requires forall id :: id in s.hist.submitted ==> id < s.txid
    ensures Grows(s, Act(h, s, act, now))
  {
    hide OnXmit, OnData, OnMack, OnAcks, OnNack, SendMessage, SendMacks, Pump, Tick;
    match act
    case Send(data, hasHandler) => SendGrows(h, s, data, hasHandler, now);
    case Receive(f) =>
      var p := f.packet;
      if p.Mack? { OnMackFrame(s, p.ids); }
      else if p.Xmit? { XmitFrame(s, h, p, now); }
      else if p.Data? { DataFrame(s, h, p, now); }
      else if p.Acks? || p.Nack? { ReplyGrows(s, p, now); }
    case FlushMacks => TimersGrow(s, now);
    case DoPump => TimersGrow(s, now);
    case DoTick => TimersGrow(s, now);
  }

  lemma SendGrows(h: Hasher, s: State, data: Bytes, hasHandler: bool, now: Time)
    requires forall id :: id in s.hist.submitted ==> id < s.txid
    ensures Grows(s, SendMessage(s, h, data, hasHandler, now))
  {
    hide UnackedPackets;
  }

  lemma ReplyGrows(s: State, p: Packet, now: Time)
    requires p.Acks? || p.Nack?
    ensures Grows(s, if p.Acks? then OnAcks(s, p, now) else OnNack(s, p, now))
  {
    hide AllMarked, UnackedPackets, CallHandlers;
  }

  lemma TimersGrow(s: State, now: Time)
    ensures Grows(s, SendMacks(s, now)) && Grows(s, Pump(s, now)) && Grows(s, Tick(s, now))
  {
    hide Chunks, Ascending, CallHandlers;
  }

  /** The peer's progress does not hurt what a receiver, or a sender, has established. */
  lemma PeerGrows(h: Hasher, S: State, S': State, R: State, R': State)
    requires Grows(S, S') && Grows(R, R')
    requires DirectionInv(h, S, R)
    ensures forall id :: Delivered(R, id) ==> Delivered(R', id)
    ensures forall id :: Settled(R, id) ==> Settled(R', id)
    ensures forall id, m :: RxMatches(h, S, id, m) ==> RxMatches(h, S', id, m)
    ensures forall d :: DeliveredMatches(S, d) ==> DeliveredMatches(S', d)
    ensures forall p :: AckHonest(S, R, p) ==> AckHonest(S', R', p)
    ensures forall p :: CarriesMessage(h, S, p) ==> CarriesMessage(h, S', p)
  {
    forall id | Delivered(R, id)
      ensures Delivered(R', id)
    {
      var d :| d in R.hist.delivered && d.id == id;
      assert d in R'.hist.delivered;
    }
  }

  /** Enough for SenderInv after an action: the queue and the new packets still match. */
  lemma SenderInvAfter(h: Hasher, S: State, S': State, added: set<Packet>)
    requires SenderInv(h, S) && Grows(S, S')
    requires forall id: nat :: id in S'.hist.submitted <==> id < S'.txid
    requires forall id :: id in S'.tx ==> TxMatches(h, S', id, S'.tx[id])
    requires forall f :: f in S'.hist.sent ==> f in S.hist.sent || f.packet in added
    requires forall p :: p in added ==> CarriesMessage(h, S', p)
    ensures SenderInv(h, S')
  {
  }

  lemma SenderKeepsSend(h: Hasher, S: State, data: Bytes, hasHandler: bool, now: Time)
    requires SenderInv(h, S) && |data| <= MAX_LINK_MSG_SIZE
    ensures SenderInv(h, SendMessage(S, h, data, hasHandler, now))
  {
    hide CarriesMessage, UnackedPackets;
    var S' := SendMessage(S, h, data, hasHandler, now);
    if !QueueFull(S) {
      var m := NewOutbound(h, S.txid, data, now, hasHandler);
      FreshPacketsCarry(h, S', S.txid, m);
      SenderInvAfter(h, S, S', {XmitPacket(m)} + UnackedPackets(m));
    }
  }

  lemma SenderKeepsAcks(h: Hasher, S: State, p: Packet, now: Time)
    requires SenderInv(h, S) && p.Acks?
    ensures SenderInv(h, OnAcks(S, p, now))
  {
    hide CarriesMessage, UnackedPackets, AllMarked;
    if p.id in S.tx {
      var m := S.tx[p.id].(acks := p.mask);
      if AllMarked(m.acks, |m.data|) {
        SenderInvAfter(h, S, Retire(S, {p.id}, ByAcks), {});
      } else {
        var S' := S.(tx := S.tx[p.id := m.(lastFlush := now)]);
        FreshPacketsCarry(h, Emit(S', UnackedPackets(m), now), p.id, m);
        SenderInvAfter(h, S, Emit(S', UnackedPackets(m), now), UnackedPackets(m));
      }
    }
  }

  lemma SenderKeepsPump(h: Hasher, S: State, now: Time)
    requires SenderInv(h, S)
    ensures SenderInv(h, Pump(S, now))
  {
    PumpSends(S, now);
    forall id | id in S.tx
      ensures forall p :: p in UnackedPackets(S.tx[id]) ==> CarriesMessage(h, S, p)
    {
      FreshPacketsCarry(h, S, id, S.tx[id]);
    }
  }

  lemma SenderKeepsReply(h: Hasher, S: State, p: Packet, now: Time)
    requires SenderInv(h, S) && (p.Mack? || p.Nack?)
    ensures SenderInv(h, if p.Mack? then OnMack(S, p.ids) else OnNack(S, p, now))
  {
    if p.Mack? {
      OnMackFrame(S, p.ids);
      SenderInvAfter(h, S, OnMack(S, p.ids), {});
    } else if p.id in S.tx {
      FreshPacketsCarry(h, S, p.id, S.tx[p.id]);
      SenderInvAfter(h, S, OnNack(S, p, now), {XmitPacket(S.tx[p.id])});
    }
  }

  /** Receiving a fragment leaves the send side alone and answers with ACKS or NACK. */
  lemma SenderKeepsFragment(h: Hasher, S: State, p: Packet, now: Time)
    requires SenderInv(h, S) && (p.Xmit? || p.Data?)
    ensures SenderInv(h, if p.Xmit? then OnXmit(S, h, p, now) else OnData(S, h, p, now))
  {
    hide OnXmit, OnData;
    if p.Xmit? { XmitFrame(S, h, p, now); } else { DataFrame(S, h, p, now); }
    var S' := if p.Xmit? then OnXmit(S, h, p, now) else OnData(S, h, p, now);
    SenderSame(h, S, S', now);
  }

  lemma SenderSame(h: Hasher, S: State, S': State, now: Time)
    requires SenderInv(h, S) && SendSideSame(S, S') && AnswersOnly(S, S', now)
    ensures SenderInv(h, S')
  {
    forall f | f in S'.hist.sent
      ensures CarriesMessage(h, S', f.packet)
    {
      if f in S.hist.sent { assert CarriesMessage(h, S, f.packet); }
    }
  }

  lemma SenderKeepsTick(h: Hasher, S: State, now: Time)
    requires SenderInv(h, S)
    ensures SenderInv(h, Tick(S, now))
  {
    SenderInvAfter(h, S, Tick(S, now), {});
  }

  lemma SenderKeepsMacks(h: Hasher, S: State, now: Time)
    requires SenderInv(h, S)
    ensures SenderInv(h, SendMacks(S, now))
  {
    var added := set c | c in Chunks(Ascending(S.macks)) :: Mack(c);
    assert SendMacks(S, now) == Emit(S.(macks := multiset{}), added, now);
    SenderInvAfter(h, S, Emit(S.(macks := multiset{}), added, now), added);
  }

  lemma SenderKeeps(h: Hasher, S: State, act: Action, now: Time)
    requires SenderInv(h, S)
    requires act.Send? ==> |act.data| <= MAX_LINK_MSG_SIZE
    ensures SenderInv(h, Act(h, S, act, now))
  {
    hide OnXmit, OnData, OnAcks, OnNack, OnMack, SendMessage, SendMacks, Pump, Tick, SenderInv;
    match act
    case Send(data, hasHandler) => SenderKeepsSend(h, S, data, hasHandler, now);
    case DoPump => SenderKeepsPump(h, S, now);
    case DoTick => SenderKeepsTick(h, S, now);
    case FlushMacks => SenderKeepsMacks(h, S, now);
    case Receive(f) =>
      var p := f.packet;
      if p.Acks? { SenderKeepsAcks(h, S, p, now); }
      else if p.Mack? || p.Nack? { SenderKeepsReply(h, S, p, now); }
      else if p.Xmit? || p.Data? { SenderKeepsFragment(h, S, p, now); }
  }

  /** What a pump adds to the wire: acknowledgements of unfinished messages and fragments of
      queued ones. */
  ghost predicate PumpedBy(s: State, p: Packet)
  {
    || (exists id :: id in s.rx && p == Acks(s.rx[id].id, s.rx[id].acks))
    || (exists id :: id in s.tx && p in UnackedPackets(s.tx[id]))
  }

  lemma PumpSends(s: State, now: Time)
    ensures forall f :: f in Pump(s, now).hist.sent ==> f in s.hist.sent || (f.at == now && PumpedBy(s, f.packet))
  {
    forall f | f in Pump(s, now).hist.sent && f !in s.hist.sent
      ensures f.at == now && PumpedBy(s, f.packet)
    {
      if f.packet.Data? {
        var id, g: nat :| id in s.tx && ShouldFlush(s.tx[id], now)
          && g < FragmentCount(|s.tx[id].data|) && g !in s.tx[id].acks && f.packet == DataPacket(s.tx[id], g);
        assert f.packet in UnackedPackets(s.tx[id]);
      }
    }
  }

  /** The packets made from a queued message carry it. */
  lemma FreshPacketsCarry(h: Hasher, S: State, id: nat, m: OutboundMessage)
    requires TxMatches(h, S, id, m)
    ensures CarriesMessage(h, S, XmitPacket(m))
    ensures forall p :: p in UnackedPackets(m) ==> CarriesMessage(h, S, p)
  {
  }

  lemma AckOutcome(S: State, R: State, p: Packet, now: Time)
    requires OutcomesHonest(S, R) && AckHonest(S, R, p) && (p.Acks? || p.Mack?)
    requires forall id :: id in S.tx ==> id in S.hist.submitted && S.tx[id].data == S.hist.submitted[id].data
    ensures OutcomesHonest(if p.Acks? then OnAcks(S, p, now) else OnMack(S, p.ids), R)
  {
    if p.Mack? { OnMackFrame(S, p.ids); }
  }

  lemma SenderOutcomes(h: Hasher, S: State, R: State, act: Action, now: Time)
    requires DirectionInv(h, S, R) && Allowed(R, act)
    ensures OutcomesHonest(Act(h, S, act, now), R)
  {
    hide OnXmit, OnData, OnMack, OnAcks, OnNack, SendMessage, SendMacks, Pump, Tick;
    hide Delivered, Settled, CarriesMessage, RxMatches;
    match act
    case Receive(f) =>
      var p := f.packet;
      if p.Acks? || p.Mack? { AckOutcome(S, R, p, now); }
      else if p.Xmit? { XmitFrame(S, h, p, now); }
      else if p.Data? { DataFrame(S, h, p, now); }
      else if p.Nack? { SendsOnly(S, p, now); }
    case Send(data, hasHandler) => SendSettlesNothing(h, S, data, hasHandler, now);
    case FlushMacks => SendsOnly(S, Nack(0), now);
    case DoPump => SendsOnly(S, Nack(0), now);
    case DoTick => TickOutcomes(S, R, now);
  }

  lemma SendSettlesNothing(h: Hasher, S: State, data: Bytes, hasHandler: bool, now: Time)
    ensures SendMessage(S, h, data, hasHandler, now).hist.fate == S.hist.fate
  {
    hide UnackedPackets;
  }

  lemma SendsOnly(S: State, p: Packet, now: Time)
    requires p.Nack?
    ensures OnNack(S, p, now).hist.fate == SendMacks(S, now).hist.fate == Pump(S, now).hist.fate == S.hist.fate
  {
    hide Chunks, Ascending, UnackedPackets;
  }

  /** A tick reports drops only. */
  lemma TickOutcomes(S: State, R: State, now: Time)
    requires OutcomesHonest(S, R)
    ensures OutcomesHonest(Tick(S, now), R)
  {
    hide Delivered, Settled, CallHandlers, TxDead, RxDead, Decay, Remember;
  }

  /** Filing an inbound message that holds part of the sender's keeps the receiver honest:
      it is delivered exactly when nothing is missing, and its digest then verifies. */
  lemma StoreInboundKeeps(h: Hasher, S: State, R: State, id: nat, m: InboundMessage, now: Time)
    requires ReceiverInv(h, S, R)
    requires id in S.hist.submitted && m.id == id && m.digest == h(S.hist.submitted[id].data)
    requires HoldsPartOf(m, S.hist.submitted[id].data)
    requires id !in R.replay
    ensures ReceiverInv(h, S, StoreInbound(R, h, id, m, now))
    ensures AllMarked(m.acks, |m.data|) ==> Verifies(h, m)
  {
    if AllMarked(m.acks, |m.data|) {
      CompletedIsMessage(h, m, S.hist.submitted[id].data);
      CompletedKeeps(h, S, R, id, m, now);
    } else {
      hide AllMarked, Settled, AckHonest, DeliveredMatches, HoldsPartOf;
      FiledKeeps(h, S, R, id, m);
    }
  }

  lemma FiledKeeps(h: Hasher, S: State, R: State, id: nat, m: InboundMessage)
    requires ReceiverInv(h, S, R) && RxMatches(h, S, id, m) && id !in R.replay
    ensures ReceiverInv(h, S, R.(rx := R.rx[id := m]))
  {
    hide RxMatches, DeliveredMatches;
    ReceiverInvAfter(h, S, R, R.(rx := R.rx[id := m]), {});
  }

  lemma CompletedKeeps(h: Hasher, S: State, R: State, id: nat, m: InboundMessage, now: Time)
    requires ReceiverInv(h, S, R)
    requires id in S.hist.submitted && m.id == id && m.data == S.hist.submitted[id].data && id !in R.replay
    ensures ReceiverInv(h, S, RecvCompleted(R.(rx := R.rx[id := m]), m, now))
  {
    hide AllMarked, RxMatches;
    var R' := RecvCompleted(R.(rx := R.rx[id := m]), m, now);
    assert Delivery(id, m.data, now) in R'.hist.delivered;
    assert R.hist.delivered <= R'.hist.delivered;
    StillSettled(R, R');
    assert Delivered(R', id);
  }

  lemma StillSettled(R: State, R': State)
    requires R.hist.delivered <= R'.hist.delivered && R.hist.abandoned <= R'.hist.abandoned
    ensures forall id :: Delivered(R, id) ==> Delivered(R', id)
    ensures forall id :: Settled(R, id) ==> Settled(R', id)
  {
    forall id | Delivered(R, id)
      ensures Delivered(R', id)
    {
      var d :| d in R.hist.delivered && d.id == id;
      assert d in R'.hist.delivered;
    }
  }

  lemma ReceiverKeepsXmit(h: Hasher, S: State, R: State, p: Packet, now: Time)
    requires ReceiverInv(h, S, R) && p.Xmit? && CarriesMessage(h, S, p)
    ensures ReceiverInv(h, S, OnXmit(R, h, p, now))
  {
    if p.id !in R.replay && p.id !in R.rx {
      var msg := S.hist.submitted[p.id].data;
      var m := NewInbound(p.id, p.size, p.digest, now);
      if |msg| > 0 {
        assert FragmentCount(|msg|) > 0 && Fragment(msg, 0) == p.data;
        HandleDataHolds(m, msg, 0, now);
      }
      StoreInboundKeeps(h, S, R, p.id, HandleData(m, 0, p.data, now), now);
    }
  }

  lemma ReceiverKeepsData(h: Hasher, S: State, R: State, p: Packet, now: Time)
    requires ReceiverInv(h, S, R) && p.Data? && CarriesMessage(h, S, p)
    ensures ReceiverInv(h, S, OnData(R, h, p, now))
  {
    hide StoreInbound, AllMarked, RxMatches, CarriesMessage, DeliveredMatches;
    if p.id in R.rx {
      FragmentKeeps(h, S, R, p, now);
    } else if p.id !in R.replay {
      ReceiverInvAfter(h, S, R, OnData(R, h, p, now), {Nack(p.id)});
    } else {
      StillSettled(R, OnData(R, h, p, now));
      ReceiverInvAfter(h, S, R, OnData(R, h, p, now), {});
    }
  }

  lemma FragmentKeeps(h: Hasher, S: State, R: State, p: Packet, now: Time)
    requires ReceiverInv(h, S, R) && p.Data? && CarriesMessage(h, S, p) && p.id in R.rx
    ensures ReceiverInv(h, S, StoreInbound(R, h, p.id, HandleData(R.rx[p.id], p.idx, p.data, now), now))
  {
    hide StoreInbound, AllMarked, HoldsPartOf, HandleData, DeliveredMatches, AckHonest, Settled;
    var msg := S.hist.submitted[p.id].data;
    var f: nat :| f < FragmentCount(|msg|) && p.idx == f * FRAGMENT_SIZE && p.data == Fragment(msg, f);
    HandleDataHolds(R.rx[p.id], msg, f, now);
    StoreInboundKeeps(h, S, R, p.id, HandleData(R.rx[p.id], p.idx, p.data, now), now);
  }

  /** Enough for ReceiverInv after an action that files no new fragment. */
  lemma ReceiverInvAfter(h: Hasher, S: State, R: State, R': State, added: set<Packet>)
    requires ReceiverInv(h, S, R)
    requires R.hist.delivered == R'.hist.delivered && R.hist.abandoned <= R'.hist.abandoned
    requires forall id :: id in R'.rx ==> RxMatches(h, S, id, R'.rx[id])
    requires forall id :: id in R'.replay ==> id !in R'.rx && (id in R.replay || id in R'.hist.abandoned)
    requires forall f :: f in R'.hist.sent ==> f in R.hist.sent || f.packet in added
    requires forall p :: p in added ==> AckHonest(S, R', p)
    requires forall id :: id in R'.macks ==> Settled(R', id)
    ensures ReceiverInv(h, S, R')
  {
    StillSettled(R, R');
    forall f | f in R'.hist.sent
      ensures AckHonest(S, R', f.packet)
    {
      if f in R.hist.sent { assert AckHonest(S, R, f.packet); }
    }
  }

  lemma ReceiverKeepsMacks(h: Hasher, S: State, R: State, now: Time)
    requires ReceiverInv(h, S, R)
    ensures ReceiverInv(h, S, SendMacks(R, now))
  {
    var R1 := R.(macks := multiset{});
    var added := set c | c in Chunks(Ascending(R.macks)) :: Mack(c);
    assert SendMacks(R, now) == Emit(R1, added, now);
    StillSettled(R, Emit(R1, added, now));
    MackChunksSettled(R, now);
    ReceiverInvAfter(h, S, R, Emit(R1, added, now), added);
  }

  lemma MackChunksSettled(R: State, now: Time)
    requires forall id :: id in R.macks ==> Settled(R, id)
    ensures forall c, id :: c in Chunks(Ascending(R.macks)) && id in c ==> Settled(R, id)
  {
    var ids := Ascending(R.macks);
    ChunksFlatten(ids);
    forall c, id | c in Chunks(ids) && id in c
      ensures Settled(R, id)
    {
      assert id in multiset(ids);
    }
  }

  lemma ReceiverKeepsPump(h: Hasher, S: State, R: State, now: Time)
    requires ReceiverInv(h, S, R)
    ensures ReceiverInv(h, S, Pump(R, now))
  {
    var R' := Pump(R, now);
    StillSettled(R, R');
    PumpSends(R, now);
    forall f | f in R'.hist.sent && f !in R.hist.sent
      ensures AckHonest(S, R', f.packet)
    {
      if f.packet.Acks? {
        var id :| id in R.rx && f.packet == Acks(R.rx[id].id, R.rx[id].acks);
        assert RxMatches(h, S, id, R.rx[id]);
      }
    }
    forall id | id in R'.rx
      ensures RxMatches(h, S, id, R'.rx[id])
    {
      assert RxMatches(h, S, id, R.rx[id]);
    }
    ReceiverInvAfter(h, S, R, R', set f | f in R'.hist.sent && f !in R.hist.sent :: f.packet);
  }

  lemma ReceiverKeepsSend(h: Hasher, S: State, R: State, data: Bytes, hasHandler: bool, now: Time)
    requires ReceiverInv(h, S, R)
    ensures ReceiverInv(h, S, SendMessage(R, h, data, hasHandler, now))
  {
    var R' := SendMessage(R, h, data, hasHandler, now);
    if !QueueFull(R) {
      StillSettled(R, R');
      var m := NewOutbound(h, R.txid, data, now, hasHandler);
      var added := {XmitPacket(m)} + UnackedPackets(m);
      assert forall p :: p in added ==> p.Xmit? || p.Data?;
      ReceiverInvAfter(h, S, R, R', added);
    }
  }

  lemma ReceiverKeepsReply(h: Hasher, S: State, R: State, p: Packet, now: Time)
    requires ReceiverInv(h, S, R) && (p.Acks? || p.Mack? || p.Nack?)
    ensures ReceiverInv(h, S, if p.Acks? then OnAcks(R, p, now)
                              else if p.Mack? then OnMack(R, p.ids) else OnNack(R, p, now))
  {
    hide RxMatches, DeliveredMatches, OnMack, AllMarked;
    if p.Mack? {
      OnMackFrame(R, p.ids);
      StillSettled(R, OnMack(R, p.ids));
      ReceiverInvAfter(h, S, R, OnMack(R, p.ids), {});
    } else if p.id in R.tx {
      var R' := if p.Acks? then OnAcks(R, p, now) else OnNack(R, p, now);
      StillSettled(R, R');
      ReceiverInvAfter(h, S, R, R',
                       if p.Acks? then UnackedPackets(R.tx[p.id].(acks := p.mask)) else {XmitPacket(R.tx[p.id])});
    }
  }

  lemma ReceiverKeepsTick(h: Hasher, S: State, R: State, now: Time)
    requires ReceiverInv(h, S, R)
    ensures ReceiverInv(h, S, Tick(R, now))
  {
    StillSettled(R, Tick(R, now));
    ReceiverInvAfter(h, S, R, Tick(R, now), {});
  }

  lemma ReceiverKeeps(h: Hasher, S: State, R: State, act: Action, now: Time)
    requires SenderInv(h, S) && ReceiverInv(h, S, R) && Allowed(S, act)
    ensures ReceiverInv(h, S, Act(h, R, act, now))
  {
    hide OnXmit, OnData, OnAcks, OnNack, OnMack, SendMessage, SendMacks, Pump, Tick, ReceiverInv, CarriesMessage;
    match act
    case Send(data, hasHandler) => ReceiverKeepsSend(h, S, R, data, hasHandler, now);
    case FlushMacks => ReceiverKeepsMacks(h, S, R, now);
    case DoPump => ReceiverKeepsPump(h, S, R, now);
    case DoTick => ReceiverKeepsTick(h, S, R, now);
    case Receive(f) =>
      var p := f.packet;
      assert CarriesMessage(h, S, p);
      if p.Xmit? { ReceiverKeepsXmit(h, S, R, p, now); }
      else if p.Data? { ReceiverKeepsData(h, S, R, p, now); }
      else if p.Acks? || p.Mack? || p.Nack? { ReceiverKeepsReply(h, S, R, p, now); }
  }

  lemma DirectionKeptBySender(h: Hasher, S: State, R: State, act: Action, now: Time)
    requires DirectionInv(h, S, R) && Allowed(R, act)
    ensures DirectionInv(h, Act(h, S, act, now), R)
  {
    var S' := Act(h, S, act, now);
    SenderKeeps(h, S, act, now);
    SenderOutcomes(h, S, R, act, now);
    ActGrows(h, S, act, now);
    PeerGrows(h, S, S', R, R);
  }

  lemma DirectionKeptByReceiver(h: Hasher, S: State, R: State, act: Action, now: Time)
    requires DirectionInv(h, S, R) && Allowed(S, act)
    requires forall id :: id in R.hist.submitted ==> id < R.txid
    ensures DirectionInv(h, S, Act(h, R, act, now))
  {
    ReceiverKeeps(h, S, R, act, now);
    ActGrows(h, R, act, now);
    StillSettled(R, Act(h, R, act, now));
  }

  ghost predicate SystemInv(h: Hasher, s: System)
  {
    DirectionInv(h, s.a, s.b) && DirectionInv(h, s.b, s.a)
  }

  lemma StepKeepsInv(h: Hasher, s: System, s': System, atA: bool, act: Action)
    requires SystemInv(h, s) && Step(h, s, s', atA, act)
    ensures SystemInv(h, s')
  {
    hide Act;
    if atA {
      DirectionKeptBySender(h, s.a, s.b, act, s'.now);
      DirectionKeptByReceiver(h, s.b, s.a, act, s'.now);
    } else {
      DirectionKeptBySender(h, s.b, s.a, act, s'.now);
      DirectionKeptByReceiver(h, s.a, s.b, act, s'.now);
    }
  }

  lemma {:induction false} RunKeepsInv(h: Hasher, run: seq<System>, events: seq<Event>, k: nat)
    requires IsRun(h, run, events) && k < |run|
    ensures SystemInv(h, run[k])
    decreases k
  {
    if k > 0 {
      RunKeepsInv(h, run, events, k - 1);
      StepKeepsInv(h, run[k - 1], run[k], events[k - 1].atA, events[k - 1].act);
    }
  }

  /** In every run, a message that A completed with success through an ACKS packet has
      already been handed, byte for byte, to B's upper layer. */
  lemma AckedMeansDelivered(h: Hasher, run: seq<System>, events: seq<Event>, k: nat, id: nat)
    requires IsRun(h, run, events) && k < |run|
    requires id in run[k].a.hist.fate && run[k].a.hist.fate[id] == ByAcks
    ensures id in run[k].a.hist.submitted
    ensures exists d :: d in run[k].b.hist.delivered && d.id == id && d.data == run[k].a.hist.submitted[id].data
  {
    RunKeepsInv(h, run, events, k);
    assert Delivered(run[k].b, id);
    var d :| d in run[k].b.hist.delivered && d.id == id;
    assert DeliveredMatches(run[k].a, d);
  }

  /** In every run, whatever B's upper layer is handed under an id is what A submitted
      under that id; and an inbound message with every fragment passes its digest check. */
  lemma OnlySubmittedIsDelivered(h: Hasher, run: seq<System>, events: seq<Event>, k: nat, d: Delivery)
    requires IsRun(h, run, events) && k < |run|
    requires d in run[k].b.hist.delivered
    ensures d.id in run[k].a.hist.submitted && d.data == run[k].a.hist.submitted[d.id].data
  {
    RunKeepsInv(h, run, events, k);
    assert DeliveredMatches(run[k].a, d);
  }
}
