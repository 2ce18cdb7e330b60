/** The packets that two sessions exchange in a run fit the wire: every one of them can be encoded,
    sealed, opened and decoded without change, as long as the 64-bit message ids last. */
module IwpTransport {
  import opened Common
  import opened IwpMessages
  import opened IwpSession
  import opened IwpNetwork
  import IwpWire

  const ID_LIMIT: nat := Pow256(8)

  /** The field widths, and the bound on message sizes that the fragment bitset relies on. */
  predicate Fits(p: Packet)
  {
    match p
    case Xmit(size, id, digest, data) => size <= MAX_LINK_MSG_SIZE && id < ID_LIMIT && |digest| == IwpWire.HASH_SIZE
    case Data(idx, id, data) => idx < MAX_LINK_MSG_SIZE && id < ID_LIMIT
    case Acks(id, mask) => id < ID_LIMIT && MaskFits(mask)
    case Nack(id) => id < ID_LIMIT
    case Mack(ids) => |ids| <= MAX_ACKS_IN_MACK && forall i :: 0 <= i < |ids| ==> ids[i] < ID_LIMIT
    case Ping => true
    case Clos => true
  }

  predicate MaskFits(mask: set<nat>) { forall f :: f in mask ==> f < MAX_FRAGMENTS }

  lemma FitsIsEncodable(p: Packet)
    requires Fits(p)
    ensures IwpWire.Encodable(p)
  {
    assert Pow256(2) == 256 * 256 * Pow256(0);
  }

  ghost predicate Digests(h: Hasher) { forall data :: |h(data)| == IwpWire.HASH_SIZE }

  ghost predicate RxFits(m: InboundMessage) { m.id < ID_LIMIT && MaskFits(m.acks) }

  ghost predicate SessionFits(s: State)
  {
    && (forall f :: f in s.hist.sent ==> Fits(f.packet))
    && (forall id :: id in s.rx ==> RxFits(s.rx[id]))
    && (forall id :: id in s.macks ==> id < ID_LIMIT)
    && (forall id :: id in s.hist.submitted ==> |s.hist.submitted[id].data| <= MAX_LINK_MSG_SIZE)
  }

  lemma FreshFits(h: Hasher, S: State, id: nat, m: OutboundMessage)
    requires TxMatches(h, S, id, m) && id < ID_LIMIT && Digests(h)
    ensures Fits(XmitPacket(m))
    ensures forall p :: p in UnackedPackets(m) ==> Fits(p)
  {
  }

  /** Enough for SessionFits after an action. */
  lemma FitsAfter(s: State, s': State, added: set<Packet>)
    requires SessionFits(s)
    requires forall f :: f in s'.hist.sent ==> f in s.hist.sent || f.packet in added
    requires forall p :: p in added ==> Fits(p)
    requires forall id :: id in s'.rx ==> RxFits(s'.rx[id])
    requires forall id :: id in s'.macks ==> id < ID_LIMIT
    requires forall id :: id in s'.hist.submitted ==> |s'.hist.submitted[id].data| <= MAX_LINK_MSG_SIZE
    ensures SessionFits(s')
  {
  }

  lemma SendFits(h: Hasher, s: State, data: Bytes, hasHandler: bool, now: Time)
    requires SessionFits(s) && Digests(h) && |data| <= MAX_LINK_MSG_SIZE
    requires SendMessage(s, h, data, hasHandler, now).txid <= ID_LIMIT
    ensures SessionFits(SendMessage(s, h, data, hasHandler, now))
  {
    hide Fits, UnackedPackets, RxFits;
    if !QueueFull(s) {
      var s' := SendMessage(s, h, data, hasHandler, now);
      var m := NewOutbound(h, s.txid, data, now, hasHandler);
      FreshFits(h, s', s.txid, m);
      FitsAfter(s, s', {XmitPacket(m)} + UnackedPackets(m));
    }
  }

  lemma StoreFits(h: Hasher, s: State, id: nat, m: InboundMessage, now: Time)
    requires SessionFits(s) && RxFits(m)
    ensures SessionFits(StoreInbound(s, h, id, m, now))
  {
    hide MaskFits;
    FitsAfter(s, StoreInbound(s, h, id, m, now), {Acks(m.id, m.acks)});
  }

  lemma FragmentFits(h: Hasher, s: State, p: Packet, now: Time)
    requires SessionFits(s) && Fits(p) && (p.Xmit? || p.Data?)
    ensures SessionFits(if p.Xmit? then OnXmit(s, h, p, now) else OnData(s, h, p, now))
  {
    hide StoreInbound;
    if p.Xmit? {
      if p.id !in s.replay && p.id !in s.rx {
        StoreFits(h, s, p.id, HandleData(NewInbound(p.id, p.size, p.digest, now), 0, p.data, now), now);
      }
    } else if p.id in s.rx {
      StoreFits(h, s, p.id, HandleData(s.rx[p.id], p.idx, p.data, now), now);
    } else if p.id !in s.replay {
      FitsAfter(s, Emit(s, {Nack(p.id)}, now), {Nack(p.id)});
    }
  }

  lemma ReplyFits(h: Hasher, s: State, p: Packet, now: Time)
    requires SessionFits(s) && SenderInv(h, s) && Digests(h) && s.txid <= ID_LIMIT && (p.Acks? || p.Nack? || p.Mack?)
    ensures SessionFits(if p.Acks? then OnAcks(s, p, now) else if p.Nack? then OnNack(s, p, now) else OnMack(s, p.ids))
  {
    hide Fits, RxFits, UnackedPackets, AllMarked, CarriesMessage, OnMack;
    if p.Mack? {
      OnMackFrame(s, p.ids);
    } else if p.id in s.tx {
      var m := if p.Acks? then s.tx[p.id].(acks := p.mask) else s.tx[p.id];
      FreshFits(h, s, p.id, m);
      if p.Acks? {
        FitsAfter(s, OnAcks(s, p, now), UnackedPackets(m));
      } else {
        FitsAfter(s, OnNack(s, p, now), {XmitPacket(m)});
      }
    }
  }

  lemma ChunksFit(macks: multiset<nat>)
    requires forall id :: id in macks ==> id < ID_LIMIT
    ensures forall c :: c in Chunks(Ascending(macks)) ==> Fits(Mack(c))
  {
    hide Ascending, Chunks, Pow256;
    var ids := Ascending(macks);
    ChunksFlatten(ids);
    forall c, i | c in Chunks(ids) && 0 <= i < |c|
      ensures c[i] < ID_LIMIT
    {
      assert c[i] in ids;
      assert c[i] in multiset(ids);
    }
  }

  lemma MacksFit(s: State, now: Time)
    requires SessionFits(s)
    ensures SessionFits(SendMacks(s, now))
  {
    hide RxFits, Fits, Ascending, Chunks, Pow256;
    ChunksFit(s.macks);
    var added := set c | c in Chunks(Ascending(s.macks)) :: Mack(c);
    assert SendMacks(s, now) == Emit(s.(macks := multiset{}), added, now);
    FitsAfter(s, Emit(s.(macks := multiset{}), added, now), added);
  }

  lemma PumpFits(h: Hasher, s: State, now: Time)
    requires SessionFits(s) && SenderInv(h, s) && Digests(h) && s.txid <= ID_LIMIT
    ensures SessionFits(Pump(s, now))
  {
    PumpSends(s, now);
    forall f | f in Pump(s, now).hist.sent && f !in s.hist.sent
      ensures Fits(f.packet)
    {
      if id :| id in s.tx && f.packet in UnackedPackets(s.tx[id]) {
        FreshFits(h, s, id, s.tx[id]);
      }
    }
  }

  lemma ActFits(h: Hasher, s: State, peer: State, act: Action, now: Time)
    requires SessionFits(s) && SessionFits(peer) && SenderInv(h, s) && Digests(h) && Allowed(peer, act)
    requires s.txid <= ID_LIMIT && Act(h, s, act, now).txid <= ID_LIMIT
    ensures SessionFits(Act(h, s, act, now))
  {
    hide OnXmit, OnData, OnAcks, OnNack, OnMack, SendMessage, SendMacks, Pump, SenderInv, Fits, RxFits;
    match act
    case Send(data, hasHandler) => SendFits(h, s, data, hasHandler, now);
    case FlushMacks => MacksFit(s, now);
    case DoPump => PumpFits(h, s, now);
    case DoTick =>
    case Receive(f) =>
      var p := f.packet;
      assert Fits(p);
      if p.Xmit? || p.Data? { FragmentFits(h, s, p, now); }
      else if p.Acks? || p.Nack? || p.Mack? { ReplyFits(h, s, p, now); }
  }

  /** Ids are handed out in ascending order. */
  lemma IdsGrow(h: Hasher, s: State, act: Action, now: Time)
    requires SenderInv(h, s)
    requires act.Send? ==> |act.data| <= MAX_LINK_MSG_SIZE
    ensures s.txid <= Act(h, s, act, now).txid
  {
    hide Act;
    var s' := Act(h, s, act, now);
    SenderKeeps(h, s, act, now);
    ActGrows(h, s, act, now);
    assert s'.txid !in s'.hist.submitted.Keys;
  }

  lemma StepIdsGrow(h: Hasher, s: System, s': System, atA: bool, act: Action)
    requires SystemInv(h, s) && Step(h, s, s', atA, act)
    ensures s.a.txid <= s'.a.txid && s.b.txid <= s'.b.txid
  {
    hide Act, SenderInv, ReceiverInv, OutcomesHonest;
    IdsGrow(h, if atA then s.a else s.b, act, s'.now);
  }

  lemma StepFits(h: Hasher, s: System, s': System, atA: bool, act: Action)
    requires SystemInv(h, s) && Step(h, s, s', atA, act) && Digests(h)
    requires s.a.txid <= s'.a.txid <= ID_LIMIT && s.b.txid <= s'.b.txid <= ID_LIMIT
    requires SessionFits(s.a) && SessionFits(s.b)
    ensures SessionFits(s'.a) && SessionFits(s'.b)
  {
    hide Act, SessionFits, SenderInv, ReceiverInv, OutcomesHonest;
    if atA { ActFits(h, s.a, s.b, act, s'.now); } else { ActFits(h, s.b, s.a, act, s'.now); }
  }

  lemma {:induction false} RunFits(h: Hasher, run: seq<System>, events: seq<Event>, k: nat)
    requires IsRun(h, run, events) && k < |run| && Digests(h)
    requires run[k].a.txid <= ID_LIMIT && run[k].b.txid <= ID_LIMIT
    ensures SessionFits(run[k].a) && SessionFits(run[k].b)
    decreases k
  {
    hide SystemInv, Step;
    if k > 0 {
      var e := events[k - 1];
      RunKeepsInv(h, run, events, k - 1);
      StepIdsGrow(h, run[k - 1], run[k], e.atA, e.act);
      RunFits(h, run, events, k - 1);
      StepFits(h, run[k - 1], run[k], e.atA, e.act);
    }
  }

  /** Whatever either session sends in a run is what the peer's handler is given after encoding,
      encryption, decryption and decoding; so exchanging packets stands for exchanging datagrams. */
  lemma RunSurvivesWire(h: Hasher, run: seq<System>, events: seq<Event>, k: nat, f: Flight,
                        c: IwpWire.Crypto, key: Bytes, nonce: Bytes, pad: Bytes)
    requires IsRun(h, run, events) && k < |run| && Digests(h)
    requires run[k].a.txid <= ID_LIMIT && run[k].b.txid <= ID_LIMIT
    requires f in run[k].a.hist.sent || f in run[k].b.hist.sent
    requires IwpWire.Lawful(c) && |nonce| == IwpWire.NONCE_SIZE && IwpWire.PadAllowed(f.packet, pad)
    ensures IwpWire.Encodable(f.packet)
    ensures var got := IwpWire.Open(c, key, IwpWire.Seal(c, key, nonce, IwpWire.Encode(f.packet, pad)));
            got.Some? && IwpWire.Decode(got.value) == Some(f.packet)
  {
    RunFits(h, run, events, k);
    FitsIsEncodable(f.packet);
    IwpWire.WireRoundTrip(c, key, nonce, f.packet, pad);
  }

  /** No fragment that the peer ever sent makes the receiver throw. */
  lemma FragmentsNeverThrow(h: Hasher, run: seq<System>, events: seq<Event>, k: nat, f: Flight, now: Time)
    requires IsRun(h, run, events) && k < |run| && Digests(h)
    requires run[k].a.txid <= ID_LIMIT && run[k].b.txid <= ID_LIMIT
    requires f in run[k].a.hist.sent && f.packet.Data? && f.packet.id in run[k].b.rx
    ensures !DataThrows(run[k].b.rx[f.packet.id], f.packet.idx, f.packet.data, now)
  {
    RunFits(h, run, events, k);
    RunKeepsInv(h, run, events, k);
    hide AllMarked, CarriesMessage;
    assert Fits(f.packet);
    assert RxMatches(h, run[k].a, f.packet.id, run[k].b.rx[f.packet.id]);
  }
}
