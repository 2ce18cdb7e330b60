/** How a session gets over lost packets, and what its timers do: multi-acks, NACKs, partial
    acknowledgements, flushes and timeouts, each with its exact effect and with what it leads to at the
    other end. */
module IwpRecovery {
  import opened Common
  import opened IwpMessages
  import opened IwpSession
  import opened IwpNetwork
  import opened IwpDelivery

  // ----- multi-acks

  /** The queued messages that a multi-ack names. */
  function Named(s: State, ids: seq<nat>): set<nat> { set id | id in s.tx && id in ids }

  /** Handlers of these messages ran once more, with this status. */
  ghost predicate Reported(s: State, s': State, done: set<nat>, status: DeliveryStatus)
  {
    && s'.hist.calls.Keys == s.hist.calls.Keys
    && forall id :: id in s.hist.calls ==>
         s'.hist.calls[id]
         == if id in done && id in s.tx && s.tx[id].hasHandler then s.hist.calls[id] + [status] else s.hist.calls[id]
  }

  /** These messages left the queue for this reason. */
  ghost predicate Left(s: State, s': State, done: set<nat>, why: Fate)
  {
    && s'.tx == s.tx - done
    && (forall id :: id in s'.hist.fate <==> id in s.hist.fate || id in done)
    && (forall id :: id in s'.hist.fate ==> s'.hist.fate[id] == if id in done then why else s.hist.fate[id])
  }

  ghost predicate Completed(s: State, s': State, done: set<nat>)
  {
    && Left(s, s', done, ByMack) && Reported(s, s', done, Success)
    && s'.stats == s.stats.(acked := s.stats.acked + |done|, inFlight := s.stats.inFlight - |done|)
  }

  /** A multi-ack completes each queued message that it names, once however often it names it, and
      counts it; other messages and other ids stay as they were. */
  lemma {:induction false} MackCompletes(s: State, ids: seq<nat>)
    ensures Completed(s, OnMack(s, ids), Named(s, ids))
    decreases |ids|
  {
    hide Completed, MackOne, Named;
    NamedStep(s, ids);
    if ids == [] {
      CompletedNone(s);
    } else {
      var s1, rest := MackOne(s, ids[0]), ids[1..];
      MackCompletes(s1, rest);
      if ids[0] in s.tx {
        OneCompleted(s, ids[0]);
        CompletedMore(s, s1, OnMack(s, ids), {ids[0]}, Named(s1, rest));
      }
    }
  }

  lemma NamedStep(s: State, ids: seq<nat>)
    ensures ids == [] ==> Named(s, ids) == {}
    ensures ids != [] && ids[0] in s.tx ==>
              var later := Named(MackOne(s, ids[0]), ids[1..]);
              Named(s, ids) == {ids[0]} + later && {ids[0]} !! later
    ensures ids != [] && ids[0] !in s.tx ==>
              MackOne(s, ids[0]) == s && Named(s, ids) == Named(s, ids[1..])
  {
    hide CallHandlers;
    if ids != [] { assert ids == [ids[0]] + ids[1..]; }
  }

  /** What is still queued after a multi-ack. */
  lemma MackLeaves(s: State, ids: seq<nat>)
    ensures forall id :: id in OnMack(s, ids).tx <==> id in s.tx && id !in ids
  {
    hide OnMack;
    MackCompletes(s, ids);
  }

  lemma CompletedNone(s: State)
    ensures Completed(s, s, {})
  {
  }

  lemma OneCompleted(s: State, id: nat)
    requires id in s.tx
    ensures Completed(s, MackOne(s, id), {id})
  {
  }

  lemma CompletedMore(s: State, s1: State, s2: State, a: set<nat>, b: set<nat>)
    requires Completed(s, s1, a) && Completed(s1, s2, b) && a !! b
    ensures Completed(s, s2, a + b)
  {
    hide Reported, Left;
    assert Left(s, s2, a + b, ByMack) by { LeftMore(s, s1, s2, a, b); }
    assert Reported(s, s2, a + b, Success) by { ReportedMore(s, s1, s2, a, b); }
    assert |a + b| == |a| + |b|;
  }

  lemma LeftMore(s: State, s1: State, s2: State, a: set<nat>, b: set<nat>)
    requires Left(s, s1, a, ByMack) && Left(s1, s2, b, ByMack)
    ensures Left(s, s2, a + b, ByMack)
  {
    assert (s.tx - a) - b == s.tx - (a + b);
  }

  lemma ReportedMore(s: State, s1: State, s2: State, a: set<nat>, b: set<nat>)
    requires Left(s, s1, a, ByMack) && Reported(s, s1, a, Success) && Reported(s1, s2, b, Success) && a !! b
    ensures Reported(s, s2, a + b, Success)
  {
    assert forall id :: id in b ==> (id in s1.tx <==> id in s.tx);
    assert forall id :: id in b && id in s.tx ==> s1.tx[id] == s.tx[id];
  }

  /** The multi-ack takes the queued message out with success. */
  ghost predicate AckedInMack(S: State, ids: seq<nat>, id: nat)
    requires id in S.tx
  {
    var S' := OnMack(S, ids);
    && id !in S'.tx && id in S'.hist.fate && S'.hist.fate[id] == ByMack
    && (id in S.hist.calls && S.tx[id].hasHandler ==>
          id in S'.hist.calls && S'.hist.calls[id] == S.hist.calls[id] + [Success])
  }

  /** R has settled the message, but its ACKS was lost. When a packet of the message comes again, R does
      not deliver it again, and its next multi-ack completes the message at S with success. */
  lemma LostAckRecovers(h: Hasher, R: State, p: Packet, now: Time, later: Time)
    requires (p.Xmit? || p.Data?) && p.id in R.replay && p.id !in R.rx
    ensures var R' := if p.Xmit? then OnXmit(R, h, p, now) else OnData(R, h, p, now);
            && R'.hist.delivered == R.hist.delivered && R'.rx == R.rx && R'.replay == R.replay
            && SendMacks(R', later).macks == multiset{}
            && exists ids: seq<nat> ::
                 && Flight(Mack(ids), later) in SendMacks(R', later).hist.sent
                 && forall S: State :: p.id in S.tx ==> AckedInMack(S, ids, p.id)
  {
    hide OnMack, OnXmit, OnData, SendMacks, AckedInMack;
    var R' := if p.Xmit? then OnXmit(R, h, p, now) else OnData(R, h, p, now);
    Remacked(h, R, p, now);
    var ids := MackSent(R', p.id, later);
    forall S: State | p.id in S.tx
      ensures AckedInMack(S, ids, p.id)
    {
      AcksNamed(S, ids, p.id);
    }
  }

  lemma Remacked(h: Hasher, R: State, p: Packet, now: Time)
    requires (p.Xmit? || p.Data?) && p.id in R.replay && p.id !in R.rx
    ensures var R' := if p.Xmit? then OnXmit(R, h, p, now) else OnData(R, h, p, now);
            R' == R.(macks := R.macks + multiset{p.id})
  {
    hide StoreInbound;
  }

  lemma MackSent(s: State, id: nat, now: Time) returns (ids: seq<nat>)
    requires id in s.macks
    ensures id in ids && Flight(Mack(ids), now) in SendMacks(s, now).hist.sent && SendMacks(s, now).macks == multiset{}
  {
    hide Ascending, Chunks;
    ids := ChunkWith(s.macks, id);
  }

  lemma AcksNamed(S: State, ids: seq<nat>, id: nat)
    requires id in S.tx && id in ids
    ensures AckedInMack(S, ids, id)
  {
    hide OnMack;
    MackCompletes(S, ids);
    assert id in Named(S, ids);
  }

  lemma ChunkWith(macks: multiset<nat>, id: nat) returns (c: seq<nat>)
    requires id in macks
    ensures c in Chunks(Ascending(macks)) && id in c
  {
    hide Ascending, Chunks;
    var ids := Ascending(macks);
    assert id in multiset(ids);
    c := ChunkOf(ids, id);
  }

  lemma {:induction false} ChunkOf(ids: seq<nat>, id: nat) returns (c: seq<nat>)
    requires id in ids
    ensures c in Chunks(ids) && id in c
    decreases |ids|
  {
    var n := Min(|ids|, MAX_ACKS_IN_MACK);
    assert ids == ids[..n] + ids[n..];
    if id in ids[..n] { c := ids[..n]; } else { c := ChunkOf(ids[n..], id); }
  }

  // ----- NACK

  /** A queued message is what it was made from. */
  ghost predicate Sound(h: Hasher, S: State, id: nat, data: Bytes)
  {
    Queued(S, id, data) && S.tx[id].id == id && S.tx[id].digest == h(data)
  }

  /** A DATA packet that finds its message unknown is answered by a NACK, that by the XMIT of a queued
      message and by nothing otherwise, and with the XMIT the message is in progress at R. */
  lemma NackRecovers(h: Hasher, S: State, R: State, id: nat, data: Bytes, p: Packet, t0: Time, t1: Time, t2: Time)
    requires p.Data? && p.id == id && id !in R.rx && id !in R.replay && Sound(h, S, id, data)
    ensures var R' := OnData(R, h, p, t0);
            var S' := OnNack(S, Nack(id), t1);
            && Flight(Nack(id), t0) in R'.hist.sent && R'.rx == R.rx && R'.hist.delivered == R.hist.delivered
            && S'.hist.sent == S.hist.sent + {Flight(XmitOf(h, id, data), t1)} && S'.tx == S.tx
            && Progress(OnXmit(R', h, XmitOf(h, id, data), t2), h, R.hist.delivered, id, data, {0})
    ensures forall T: State :: id !in T.tx ==> OnNack(T, Nack(id), t1) == T
  {
    hide OnXmit, Progress;
    XmitProgress(OnData(R, h, p, t0), h, id, data, t2);
  }

  /** An XMIT without the right number of bytes still announces the message. */
  lemma MisfitXmit(s: State, h: Hasher, id: nat, msg: Bytes, rest: Bytes, now: Time)
    requires id !in s.replay && id !in s.rx && msg != [] && |rest| != Min(|msg|, FRAGMENT_SIZE)
    ensures Progress(OnXmit(s, h, Xmit(|msg|, id, h(msg), rest), now), h, s.hist.delivered, id, msg, {})
  {
    assert FragmentCount(|msg|) > 0;
    var none: set<nat> := {};
    assert 0 !in none;
    assert !AllMarked(none, |msg|);
  }

  // ----- partial acknowledgements and flushes

  /** The fragments that the other side lacks leave, and no other packet. */
  ghost predicate SendsMissing(S: State, S': State, m: OutboundMessage, acks: set<nat>, now: Time)
  {
    forall f: Flight :: f in S'.hist.sent <==>
      || f in S.hist.sent
      || (f.at == now && exists g: nat :: g < FragmentCount(|m.data|) && g !in acks && f.packet == DataPacket(m, g))
  }

  /** An ACKS that leaves fragments open replaces the bit set, keeps the message queued and sends
      exactly the fragments it does not mark. */
  lemma PartialAck(S: State, id: nat, mask: set<nat>, now: Time)
    requires id in S.tx && !AllMarked(mask, |S.tx[id].data|)
    ensures var S' := OnAcks(S, Acks(id, mask), now);
            && S'.tx == S.tx[id := S.tx[id].(acks := mask, lastFlush := now)]
            && SendsMissing(S, S', S.tx[id], mask, now)
            && S'.hist.fate == S.hist.fate && S'.hist.calls == S.hist.calls && S'.stats == S.stats
  {
    hide AllMarked;
    var m := S.tx[id].(acks := mask);
    forall g: nat | g < FragmentCount(|m.data|)
      ensures DataPacket(S.tx[id], g) == DataPacket(m, g)
    {
    }
  }

  /** Any packets with the missing fragments of the message. */
  ghost predicate BringsMissing(ms: seq<Moment>, m: OutboundMessage, marks: set<nat>)
  {
    forall g: nat :: g < FragmentCount(|m.data|) && g !in marks ==>
      exists i :: 0 <= i < |ms| && ms[i].act.Receive? && ms[i].act.flight.packet == DataPacket(m, g)
  }

  /** R holds some fragments. A pump that is due tells S which; S answers with exactly the others; and
      when these arrive, in any order amid any other events, R has delivered the message. */
  lemma PartialAckRecovers(h: Hasher, S: State, R: State, ds: seq<Delivery>, id: nat, data: Bytes, marks: set<nat>,
                           t0: Time, t1: Time, ms: seq<Moment>)
    requires Sound(h, S, id, data) && !AllMarked(marks, |data|) && 0 in marks && RxIds(R)
    requires Progress(R, h, ds, id, data, marks) && t0 > R.rx[id].lastAckSent + 250
    requires Amid(Pump(R, t0), h, ms, id, data) && BringsMissing(ms, S.tx[id], marks)
    ensures Flight(Acks(id, marks), t0) in Pump(R, t0).hist.sent
    ensures SendsMissing(S, OnAcks(S, Acks(id, marks), t1), S.tx[id], marks, t1)
    ensures Finished(Play(Pump(R, t0), h, ms), ds, id, data)
  {
    hide AllMarked, Amid, Play, OnAcks, HoldsPartOf;
    PartialAck(S, id, marks, t1);
    PumpAcks(R, id, t0);
    hide Pump;
    OwnUntouched(R, h, [], false, t0, id);
    UntouchedProgress(R, Pump(R, t0), h, ds, id, data, marks);
    PlayProgress(Pump(R, t0), h, ds, id, data, marks, ms);
    MissingSeen(ms, S.tx[id], id, data, marks);
  }

  lemma MissingSeen(ms: seq<Moment>, m: OutboundMessage, id: nat, data: Bytes, marks: set<nat>)
    requires BringsMissing(ms, m, marks) && m.id == id && m.data == data
    ensures AllMarked(marks + Seen(ms, id), |data|)
  {
    forall f: nat | f < FragmentCount(|data|)
      ensures f in marks + Seen(ms, id)
    {
      if f !in marks {
        var i :| 0 <= i < |ms| && ms[i].act.Receive? && ms[i].act.flight.packet == DataPacket(m, f);
        SeenIs(ms, id, f, i);
      }
    }
  }

  // ----- the pump

  lemma PumpAcks(s: State, id: nat, now: Time)
    requires id in s.rx && now > s.rx[id].lastAckSent + 250
    ensures Flight(Acks(s.rx[id].id, s.rx[id].acks), now) in Pump(s, now).hist.sent
  {
  }

  /** What a pump is due to send: what is held of each inbound message that was last acknowledged more
      than 250 milliseconds ago, and the missing fragments of each outbound one flushed 400 or more
      milliseconds ago. */
  ghost predicate Due(s: State, p: Packet, now: Time)
  {
    || (exists id :: id in s.rx && now > s.rx[id].lastAckSent + 250 && p == Acks(s.rx[id].id, s.rx[id].acks))
    || (exists id, f: nat :: id in s.tx && now >= s.tx[id].lastFlush + 400
                             && f < FragmentCount(|s.tx[id].data|) && f !in s.tx[id].acks
                             && p == DataPacket(s.tx[id], f))
  }

  /** A pump sends exactly what is due, stamps it, and changes nothing else. */
  lemma PumpSendsDue(s: State, now: Time)
    ensures var s' := Pump(s, now);
            && (forall f: Flight :: f in s'.hist.sent <==> f in s.hist.sent || (f.at == now && Due(s, f.packet, now)))
            && s'.tx.Keys == s.tx.Keys && s'.rx.Keys == s.rx.Keys
            && (forall id :: id in s.tx ==>
                  s'.tx[id] == if now >= s.tx[id].lastFlush + 400 then s.tx[id].(lastFlush := now) else s.tx[id])
            && (forall id :: id in s.rx ==>
                  s'.rx[id] == if now > s.rx[id].lastAckSent + 250 then s.rx[id].(lastAckSent := now) else s.rx[id])
  {
    forall f | f in Pump(s, now).hist.sent && f !in s.hist.sent
      ensures f.at == now && Due(s, f.packet, now)
    {
      if f.packet.Data? {
        var id, g: nat :| id in s.tx && ShouldFlush(s.tx[id], now)
          && g < FragmentCount(|s.tx[id].data|) && g !in s.tx[id].acks && f.packet == DataPacket(s.tx[id], g);
      }
    }
    forall f: Flight | f.at == now && Due(s, f.packet, now)
      ensures f in Pump(s, now).hist.sent
    {
      DueIsSent(s, f.packet, now);
    }
  }

  lemma DueIsSent(s: State, p: Packet, now: Time)
    requires Due(s, p, now)
    ensures Flight(p, now) in Pump(s, now).hist.sent
  {
    if p.Data? {
      var id, f: nat :| id in s.tx && now >= s.tx[id].lastFlush + 400
        && f < FragmentCount(|s.tx[id].data|) && f !in s.tx[id].acks && p == DataPacket(s.tx[id], f);
      assert ShouldFlush(s.tx[id], now);
    }
  }

  // ----- the time stamps

  /** The action brings a fragment of this inbound message that fits into it, or is its first XMIT. */
  predicate Touches(s: State, a: Action, id: nat)
  {
    a.Receive? &&
    var p := a.flight.packet;
    || (p.Xmit? && p.id == id && id !in s.rx)
    || (p.Data? && p.id == id && id in s.rx && p.idx + |p.data| <= |s.rx[id].data|)
  }

  /** What the packets that bring no fragment, and the sender's own actions, leave alone. */
  lemma SenderFrame(h: Hasher, s: State, a: Action, now: Time)
    requires a.Send? || a.FlushMacks? || (a.Receive? && (a.flight.packet.Acks? || a.flight.packet.Nack?))
    ensures Act(h, s, a, now).rx == s.rx
  {
    hide CallHandlers, UnackedPackets, XmitPacket, Chunks, Ascending, AllMarked, QueueFull;
  }

  lemma XmitStamps(h: Hasher, s: State, p: Packet, now: Time, id: nat)
    requires p.Xmit? && id in OnXmit(s, h, p, now).rx
    ensures var m' := OnXmit(s, h, p, now).rx[id];
            if p.id == id && id !in s.rx then m'.lastActiveAt == now && m'.lastAckSent == 0
            else id in s.rx && m' == s.rx[id]
  {
    hide AllMarked, Verifies;
  }

  lemma DataStamps(h: Hasher, s: State, p: Packet, now: Time, id: nat)
    requires p.Data? && id in OnData(s, h, p, now).rx
    ensures var m' := OnData(s, h, p, now).rx[id];
            && id in s.rx && m'.lastAckSent == s.rx[id].lastAckSent
            && m'.lastActiveAt == if p.id == id && p.idx + |p.data| <= |s.rx[id].data| then now
                                  else s.rx[id].lastActiveAt
  {
    hide AllMarked, Verifies;
  }

  /** Whatever happens, an inbound message that is still held was last active when a fragment last fitted
      into it, and last acknowledged when a pump last did so, or never. */
  lemma InboundStamps(h: Hasher, s: State, a: Action, now: Time, id: nat)
    requires id in Act(h, s, a, now).rx
    ensures var m' := Act(h, s, a, now).rx[id];
            && (Touches(s, a, id) ==> m'.lastActiveAt == now)
            && (!Touches(s, a, id) ==> id in s.rx && m'.lastActiveAt == s.rx[id].lastActiveAt)
            && (id !in s.rx ==> m'.lastAckSent == 0)
            && (id in s.rx ==> m'.lastAckSent == if a.DoPump? && now > s.rx[id].lastAckSent + 250 then now
                                                 else s.rx[id].lastAckSent)
  {
    hide OnXmit, OnData, OnAcks, OnNack, OnMack, SendMessage, SendMacks, Pump, Tick, LateRx, Due;
    match a
    case Send(_, _) => SenderFrame(h, s, a, now);
    case FlushMacks => SenderFrame(h, s, a, now);
    case DoPump => PumpSendsDue(s, now);
    case DoTick => TickForgetsExactly(s, now);
    case Receive(f) =>
      match f.packet
      case Xmit(_, _, _, _) => XmitStamps(h, s, f.packet, now, id);
      case Data(_, _, _) => DataStamps(h, s, f.packet, now, id);
      case Acks(_, _) => SenderFrame(h, s, a, now);
      case Nack(_) => SenderFrame(h, s, a, now);
      case Mack(ids) => OnMackFrame(s, ids);
      case Ping =>
      case Clos =>
  }

  /** The action flushes this outbound message: it is new, or partly acknowledged, or a pump finds it
      flushed 400 or more milliseconds ago. */
  predicate Flushes(s: State, a: Action, now: Time, id: nat)
  {
    || id !in s.tx
    || (a.Receive? && a.flight.packet.Acks? && a.flight.packet.id == id)
    || (a.DoPump? && now >= s.tx[id].lastFlush + 400)
  }

  lemma AcksStamps(s: State, p: Packet, now: Time, id: nat)
    requires p.Acks? && id in OnAcks(s, p, now).tx
    ensures var m' := OnAcks(s, p, now).tx[id];
            && id in s.tx && m'.startedAt == s.tx[id].startedAt
            && m'.lastFlush == if p.id == id then now else s.tx[id].lastFlush
  {
    hide CallHandlers, UnackedPackets, AllMarked;
  }

  lemma SendStamps(h: Hasher, s: State, data: Bytes, hasHandler: bool, now: Time, id: nat)
    requires id in SendMessage(s, h, data, hasHandler, now).tx && s.txid !in s.tx
    ensures var m' := SendMessage(s, h, data, hasHandler, now).tx[id];
            if id in s.tx then m' == s.tx[id] else m'.startedAt == now && m'.lastFlush == now
  {
    hide UnackedPackets, XmitPacket, QueueFull;
  }

  lemma MacksQueue(s: State, now: Time)
    ensures SendMacks(s, now).tx == s.tx
  {
    hide Chunks, Ascending;
  }

  lemma NackQueue(s: State, p: Packet, now: Time)
    requires p.Nack?
    ensures OnNack(s, p, now).tx == s.tx
  {
  }

  lemma TickQueue(s: State, now: Time, id: nat)
    requires id in Tick(s, now).tx
    ensures id in s.tx && Tick(s, now).tx[id] == s.tx[id]
  {
    hide CallHandlers, TxDead, RxDead, Remember, Decay;
  }

  /** Whatever happens, an outbound message that is still queued was started when it was submitted, and
      last flushed when it was sent, partly acknowledged or found overdue last. */
  lemma OutboundStamps(h: Hasher, s: State, a: Action, now: Time, id: nat)
    requires id in Act(h, s, a, now).tx && s.txid !in s.tx
    ensures var m' := Act(h, s, a, now).tx[id];
            && m'.startedAt == (if id in s.tx then s.tx[id].startedAt else now)
            && m'.lastFlush == (if Flushes(s, a, now, id) then now else s.tx[id].lastFlush)
            && (id !in s.tx ==> a.Send?)
  {
    hide OnXmit, OnData, OnAcks, OnNack, OnMack, SendMessage, SendMacks, Pump, Tick, Due;
    match a
    case Send(data, hasHandler) => SendStamps(h, s, data, hasHandler, now, id);
    case FlushMacks => MacksQueue(s, now);
    case DoPump => PumpSendsDue(s, now);
    case DoTick => TickQueue(s, now, id);
    case Receive(f) =>
      match f.packet
      case Xmit(_, _, _, _) => XmitFrame(s, h, f.packet, now);
      case Data(_, _, _) => DataFrame(s, h, f.packet, now);
      case Acks(_, _) => AcksStamps(s, f.packet, now, id);
      case Nack(_) => NackQueue(s, f.packet, now);
      case Mack(ids) => OnMackFrame(s, ids);
      case Ping =>
      case Clos =>
  }

  /** An exception leaves the message with the bytes copied if they fit, and with no mark that its bitset
      has no place for. */
  lemma ThrowLeaves(m: InboundMessage, idx: nat, buf: Bytes, now: Time)
    requires DataThrows(m, idx, buf, now) && forall f :: f in m.acks ==> f < 8
    ensures var m', fits := AfterThrow(m, idx, buf, now), idx + |buf| <= |m.data|;
            && |m'.data| == |m.data|
            && (forall i :: 0 <= i < |m.data| ==>
                  m'.data[i] == if fits && idx <= i < idx + |buf| then buf[i - idx] else m.data[i])
            && m'.acks == m.acks + (if fits && idx / 1024 < 8 then {idx / 1024} else {})
            && m'.lastActiveAt == (if fits && idx / 1024 < 8 then now else m.lastActiveAt)
            && m'.id == m.id && m'.digest == m.digest && m'.lastAckSent == m.lastAckSent
  {
  }

  // ----- the timers

  /** Queued for more than 500 milliseconds. */
  function LateTx(s: State, now: Time): set<nat> { set id | id in s.tx && now > s.tx[id].startedAt + 500 }

  /** Without a fragment for more than 500 milliseconds. */
  function LateRx(s: State, now: Time): set<nat> { set id | id in s.rx && now > s.rx[id].lastActiveAt + 500 }

  lemma LateIsDead(s: State, now: Time)
    ensures TxDead(s, now) == LateTx(s, now) && RxDead(s, now) == LateRx(s, now)
  {
  }

  /** A tick drops exactly the late outbound messages, reports each as dropped once, and counts it. */
  lemma TickDropsExactly(s: State, now: Time)
    ensures var s', late := Tick(s, now), LateTx(s, now);
            && Left(s, s', late, ByTimeout) && Reported(s, s', late, Dropped)
            && s'.stats == s.stats.(dropped := s.stats.dropped + |late|, inFlight := s.stats.inFlight - |late|)
            && s'.hist.sent == s.hist.sent && s'.hist.delivered == s.hist.delivered
  {
    hide TxDead, LateTx, RxDead, LateRx;
    LateIsDead(s, now);
  }

  /** A tick forgets exactly the late inbound messages, and the filter then holds what it held less than
      1200 milliseconds ago and what was just forgotten. */
  lemma TickForgetsExactly(s: State, now: Time)
    ensures var s', late := Tick(s, now), LateRx(s, now);
            && s'.rx == s.rx - late
            && (forall id :: id in s'.replay <==> if id in s.replay then now < s.replay[id] + 1200 else id in late)
            && (forall id :: id in s'.replay ==> s'.replay[id] == if id in s.replay then s.replay[id] else now)
            && s'.macks == s.macks && s'.txid == s.txid
  {
    hide CallHandlers, TxDead, LateTx;
    assert RxDead(s, now) == LateRx(s, now);
  }
}
