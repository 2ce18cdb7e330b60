/** One IWP session (llarp/iwp/session.cpp): the queues that the packet handlers, the send
    path and the timer update, as a state value with one transition function per operation. */
module IwpSession {
  import opened Common
  import opened IwpMessages

  const MAX_SEND_QUEUE_SIZE: nat := 1024 * 16
  const MAX_ACKS_IN_MACK: nat := 1024 / 8

  datatype DeliveryStatus = Success | Dropped

  /** A packet handed to the link, and when. */
  datatype Flight = Flight(packet: Packet, at: Time)

  /** A call of the parent's HandleMessage. */
  datatype Delivery = Delivery(id: nat, data: Bytes, at: Time)

  datatype Submission = Submission(data: Bytes, hasHandler: bool, startedAt: Time)

  /** Why a message left the send queue. */
  datatype Fate = ByAcks | ByMack | ByTimeout

  datatype Stats = Stats(acked: int, dropped: int, inFlight: int)

  /** What happened to each message, kept beside the session's own fields so that whole runs
      can be described: nothing reads it back. */
  datatype History = History(
    submitted: map<nat, Submission>,
    calls: map<nat, seq<DeliveryStatus>>,
    fate: map<nat, Fate>,
    abandoned: set<nat>,
    delivered: seq<Delivery>,
    sent: set<Flight>)

  datatype State = State(
    txid: nat,
    tx: map<nat, OutboundMessage>,
    rx: map<nat, InboundMessage>,
    replay: map<nat, Time>,
    macks: multiset<nat>,
    stats: Stats,
    hist: History)

  const InitialState := State(0, map[], map[], map[], multiset{}, Stats(0, 0, 0),
                              History(map[], map[], map[], {}, [], {}))

  // ----- transitions

  function Emit(s: State, packets: set<Packet>, now: Time): State
  {
    s.(hist := s.hist.(sent := s.hist.sent + set p | p in packets :: Flight(p, now)))
  }

  /** The completion handlers of these messages run with this status. */
  function CallHandlers(calls: map<nat, seq<DeliveryStatus>>, tx: map<nat, OutboundMessage>,
                        ids: set<nat>, status: DeliveryStatus): map<nat, seq<DeliveryStatus>>
  {
    map id | id in calls ::
      if id in ids && id in tx && tx[id].hasHandler then calls[id] + [status] else calls[id]
  }

  /** These queued messages leave the queue and their handlers run. */
  function Retire(s: State, ids: set<nat>, fate: Fate): State
  {
    s.(tx := s.tx - ids,
       hist := s.hist.(fate := s.hist.fate + map id | id in ids :: fate,
                       calls := CallHandlers(s.hist.calls, s.tx, ids, if fate.ByTimeout? then Dropped else Success)))
  }

  predicate QueueFull(s: State) { |s.tx| >= MAX_SEND_QUEUE_SIZE }

  function SendMessage(s: State, h: Hasher, data: Bytes, hasHandler: bool, now: Time): State
  {
    if QueueFull(s) then s
    else
      var m := NewOutbound(h, s.txid, data, now, hasHandler);
      var s1 := s.(txid := s.txid + 1, tx := s.tx[s.txid := m],
                   stats := s.stats.(inFlight := s.stats.inFlight + 1),
                   hist := s.hist.(submitted := s.hist.submitted[s.txid := Submission(data, hasHandler, now)],
                                   calls := s.hist.calls[s.txid := []]));
      Emit(s1, {XmitPacket(m)} + (if |data| > FRAGMENT_SIZE then UnackedPackets(m) else {}), now)
  }

  function RecvCompleted(s: State, m: InboundMessage, now: Time): State
  {
    if m.id in s.replay then s.(rx := s.rx - {m.id})
    else
      Emit(s.(rx := s.rx - {m.id}, replay := s.replay[m.id := now],
              hist := s.hist.(delivered := s.hist.delivered + [Delivery(m.id, m.data, now)])),
           {Acks(m.id, m.acks)}, now)
  }

  /** Put m into the receive table and deliver it when every fragment is there. */
  function StoreInbound(s: State, h: Hasher, rxid: nat, m: InboundMessage, now: Time): State
  {
    var s1 := s.(rx := s.rx[rxid := m]);
    if AllMarked(m.acks, |m.data|) && Verifies(h, m) then RecvCompleted(s1, m, now) else s1
  }

  function OnXmit(s: State, h: Hasher, p: Packet, now: Time): State
    requires p.Xmit?
  {
    if p.id in s.replay then s.(macks := s.macks + multiset{p.id})
    else if p.id in s.rx then s
    else
      var m := NewInbound(p.id, p.size, p.digest, now);
      if |p.data| == Min(p.size, FRAGMENT_SIZE) then StoreInbound(s, h, p.id, HandleData(m, 0, p.data, now), now)
      else s.(rx := s.rx[p.id := m])
  }

  function OnData(s: State, h: Hasher, p: Packet, now: Time): State
    requires p.Data?
  {
    if p.id !in s.rx then
      if p.id !in s.replay then Emit(s, {Nack(p.id)}, now)
      else s.(macks := s.macks + multiset{p.id})
    else
      StoreInbound(s, h, p.id, HandleData(s.rx[p.id], p.idx, p.data, now), now)
  }

  function OnAcks(s: State, p: Packet, now: Time): State
    requires p.Acks?
  {
    if p.id !in s.tx then s
    else
      var m := s.tx[p.id].(acks := p.mask);
      if AllMarked(m.acks, |m.data|) then
        Retire(s, {p.id}, ByAcks)
      else
        Emit(s.(tx := s.tx[p.id := m.(lastFlush := now)]), UnackedPackets(m), now)
  }

  function OnNack(s: State, p: Packet, now: Time): State
    requires p.Nack?
  {
    if p.id in s.tx then Emit(s, {XmitPacket(s.tx[p.id])}, now) else s
  }

  function MackOne(s: State, id: nat): State
  {
    if id !in s.tx then s
    else
      Retire(s.(stats := s.stats.(acked := s.stats.acked + 1, inFlight := s.stats.inFlight - 1)), {id}, ByMack)
  }

  function OnMack(s: State, ids: seq<nat>): State
    decreases |ids|
  {
    if ids == [] then s else OnMack(MackOne(s, ids[0]), ids[1..])
  }

  /** The queued multi-acks leave in packets of at most MAX_ACKS_IN_MACK ids, smallest first. */
  function SendMacks(s: State, now: Time): State
  {
    Emit(s.(macks := multiset{}), set c | c in Chunks(Ascending(s.macks)) :: Mack(c), now)
  }

  function Pump(s: State, now: Time): State
  {
    var acks := set id | id in s.rx && ShouldSendAcks(s.rx[id], now) :: Acks(s.rx[id].id, s.rx[id].acks);
    var datas := set id, f: nat | id in s.tx && ShouldFlush(s.tx[id], now)
                                  && f < FragmentCount(|s.tx[id].data|) && f !in s.tx[id].acks
                                :: DataPacket(s.tx[id], f);
    Emit(s.(rx := map id | id in s.rx :: AckedAt(s.rx[id], now),
            tx := map id | id in s.tx :: FlushedAt(s.tx[id], now)), acks + datas, now)
  }

  function AckedAt(m: InboundMessage, now: Time): InboundMessage
  {
    if ShouldSendAcks(m, now) then m.(lastAckSent := now) else m
  }

  function FlushedAt(m: OutboundMessage, now: Time): OutboundMessage
  {
    if ShouldFlush(m, now) then m.(lastFlush := now) else m
  }

  function TxDead(s: State, now: Time): set<nat> { set id | id in s.tx && TxTimedOut(s.tx[id], now) }

  function RxDead(s: State, now: Time): set<nat> { set id | id in s.rx && RxTimedOut(s.rx[id], now) }

  /** emplace keeps the time of an id that is in the filter already. */
  function Remember(replay: map<nat, Time>, ids: set<nat>, now: Time): map<nat, Time>
  {
    (map id | id in ids :: now) + replay
  }

  function Decay(replay: map<nat, Time>, now: Time): map<nat, Time>
  {
    map id | id in replay && replay[id] + REPLAY_WINDOW > now :: replay[id]
  }

  function DropOutbound(s: State, now: Time): State
  {
    var dead := TxDead(s, now);
    Retire(s.(stats := s.stats.(dropped := s.stats.dropped + |dead|, inFlight := s.stats.inFlight - |dead|)), dead,
           ByTimeout)
  }

  function ForgetInbound(s: State, now: Time): State
  {
    var gone := RxDead(s, now);
    s.(rx := s.rx - gone,
       replay := Decay(Remember(s.replay, gone, now), now),
       hist := s.hist.(abandoned := s.hist.abandoned + gone))
  }

  function Tick(s: State, now: Time): State
  {
    ForgetInbound(DropOutbound(s, now), now)
  }

  // ----- multi-acks

  ghost predicate IsAscending(s: seq<nat>)
  {
    forall i, j :: 0 <= i < j < |s| ==> s[i] <= s[j]
  }

  predicate IsTop(m: multiset<nat>, x: nat)
  {
    x in m && forall y :: y in m ==> x <= y
  }

  lemma {:induction false} TopExists(m: multiset<nat>) returns (x: nat)
    requires m != multiset{}
    ensures IsTop(m, x)
    decreases |m|
  {
    x :| x in m;
    var rest := m - multiset{x};
    assert forall z :: z in m ==> z == x || z in rest;
    if rest != multiset{} {
      var y := TopExists(rest);
      if y < x { x := y; }
    }
  }

  /** The top of the min-heap. */
  function Top(m: multiset<nat>): (x: nat)
    requires m != multiset{}
    ensures IsTop(m, x)
  {
    assert exists x :: IsTop(m, x) by { var x := TopExists(m); }
    var x :| IsTop(m, x);
    x
  }

  /** The ids of the heap in the order in which it pops them. */
  function Ascending(m: multiset<nat>): (s: seq<nat>)
    ensures multiset(s) == m
    decreases |m|
  {
    if m == multiset{} then []
    else
      var x := Top(m);
      var r := [x] + Ascending(m - multiset{x});
      assert multiset(r) == multiset{x} + multiset(Ascending(m - multiset{x}));
      r
  }

  lemma {:induction false} AscendingIsAscending(m: multiset<nat>)
    ensures IsAscending(Ascending(m))
    decreases |m|
  {
    if m != multiset{} {
      var x := Top(m);
      var rest := m - multiset{x};
      AscendingIsAscending(rest);
      TopBelow(m, Ascending(rest));
    }
  }

  lemma TopBelow(m: multiset<nat>, r: seq<nat>)
    requires m != multiset{} && multiset(r) <= m && IsAscending(r)
    ensures IsAscending([Top(m)] + r)
  {
    forall i | 0 <= i < |r|
      ensures Top(m) <= r[i]
    {
      assert r[i] in multiset(r);
    }
  }

  function Chunks(s: seq<nat>): seq<seq<nat>>
    decreases |s|
  {
    if s == [] then []
    else
      var n := Min(|s|, MAX_ACKS_IN_MACK);
      [s[..n]] + Chunks(s[n..])
  }

  function Flatten(cs: seq<seq<nat>>): seq<nat>
  {
    if cs == [] then [] else cs[0] + Flatten(cs[1..])
  }

  /** Reading the chunks one after the other gives the ids back; none is empty or too long. */
  lemma {:induction false} ChunksFlatten(s: seq<nat>)
    ensures Flatten(Chunks(s)) == s
    ensures forall c :: c in Chunks(s) ==> 0 < |c| <= MAX_ACKS_IN_MACK
    ensures forall c, x :: c in Chunks(s) && x in c ==> x in s
    decreases |s|
  {
    if s != [] {
      var n := Min(|s|, MAX_ACKS_IN_MACK);
      ChunksFlatten(s[n..]);
      assert s[..n] + s[n..] == s;
    }
  }

  // ----- what the fragment handlers leave alone

  /** The send side and the history of messages are as before. */
  ghost predicate SendSideSame(s: State, s': State)
  {
    && s'.txid == s.txid && s'.stats == s.stats && s'.tx == s.tx
    && s'.hist.submitted == s.hist.submitted && s'.hist.fate == s.hist.fate && s'.hist.calls == s.hist.calls
    && s'.hist.abandoned == s.hist.abandoned
  }

  /** At most one packet answers, an acknowledgement or a NACK. */
  ghost predicate AnswersOnly(s: State, s': State, now: Time)
  {
    && s.hist.sent <= s'.hist.sent
    && forall f :: f in s'.hist.sent && f !in s.hist.sent ==> f.at == now && (f.packet.Acks? || f.packet.Nack?)
  }

  /** Nothing is delivered, or the message with this id is. */
  ghost predicate DeliversAtMost(s: State, s': State, id: nat, now: Time)
  {
    || s'.hist.delivered == s.hist.delivered
    || (|s'.hist.delivered| == |s.hist.delivered| + 1
        && s'.hist.delivered == s.hist.delivered + [s'.hist.delivered[|s.hist.delivered|]]
        && s'.hist.delivered[|s.hist.delivered|].id == id && s'.hist.delivered[|s.hist.delivered|].at == now)
  }

  lemma StoreFrame(s: State, h: Hasher, rxid: nat, m: InboundMessage, now: Time)
    ensures var s' := StoreInbound(s, h, rxid, m, now);
            SendSideSame(s, s') && AnswersOnly(s, s', now) && DeliversAtMost(s, s', m.id, now) && s'.macks == s.macks
  {
  }

  /** Fragment handlers touch the receive side only. */
  lemma XmitFrame(s: State, h: Hasher, p: Packet, now: Time)
    requires p.Xmit?
    ensures var s' := OnXmit(s, h, p, now);
            SendSideSame(s, s') && AnswersOnly(s, s', now) && DeliversAtMost(s, s', p.id, now)
  {
    hide StoreInbound;
    StoreFrame(s, h, p.id, HandleData(NewInbound(p.id, p.size, p.digest, now), 0, p.data, now), now);
  }

  lemma DataFrame(s: State, h: Hasher, p: Packet, now: Time)
    requires p.Data?
    ensures var s' := OnData(s, h, p, now);
            SendSideSame(s, s') && AnswersOnly(s, s', now)
            && DeliversAtMost(s, s', if p.id in s.rx then s.rx[p.id].id else p.id, now)
  {
    hide StoreInbound;
    if p.id in s.rx {
      StoreFrame(s, h, p.id, HandleData(s.rx[p.id], p.idx, p.data, now), now);
    }
  }
}
