/** The session object itself (llarp/iwp/session.{hpp,cpp}): its methods update the queues in
    place, with the loops of the source, and each is proved to perform the transition of
    IwpSession on the object's view. Containers are visited in an arbitrary order, so the
    result holds for every order. */
module IwpSessionObject {
  import opened Common
  import opened IwpMessages
  import IwpSession
  import IwpRecovery

  type View = IwpSession.State

  // ----- the loops, one element further

  lemma EmitTwice(s: View, p: set<Packet>, q: set<Packet>, now: Time)
    ensures IwpSession.Emit(IwpSession.Emit(s, p, now), q, now) == IwpSession.Emit(s, p + q, now)
  {
    var f := set x | x in p :: IwpSession.Flight(x, now);
    var g := set x | x in q :: IwpSession.Flight(x, now);
    assert (set x | x in p + q :: IwpSession.Flight(x, now)) == f + g;
    assert s.hist.sent + f + g == s.hist.sent + (f + g);
  }

  lemma EmitNone(s: View, now: Time)
    ensures IwpSession.Emit(s, {}, now) == s
  {
    assert s.hist.sent + {} == s.hist.sent;
  }

  lemma ElementsAppend<T>(s: seq<T>, t: seq<T>)
    ensures Elements(s + t) == Elements(s) + Elements(t)
  {
  }

  /** Retiring one message, field by field. */
  lemma RetireOne(s: View, id: nat, why: IwpSession.Fate)
    requires id in s.tx && id in s.hist.calls
    ensures var status := if why.ByTimeout? then IwpSession.Dropped else IwpSession.Success;
            IwpSession.Retire(s, {id}, why)
            == s.(tx := s.tx - {id},
                  hist := s.hist.(fate := s.hist.fate[id := why],
                                  calls := if s.tx[id].hasHandler then s.hist.calls[id := s.hist.calls[id] + [status]]
                                           else s.hist.calls))
  {
    var r := IwpSession.Retire(s, {id}, why);
    assert r.hist.fate == s.hist.fate[id := why];
    var status := if why.ByTimeout? then IwpSession.Dropped else IwpSession.Success;
    assert r.hist.calls
        == if s.tx[id].hasHandler then s.hist.calls[id := s.hist.calls[id] + [status]] else s.hist.calls;
  }

  ghost function DropSome(s: View, ids: set<nat>): View
  {
    IwpSession.Retire(
      s.(stats := s.stats.(dropped := s.stats.dropped + |ids|, inFlight := s.stats.inFlight - |ids|)),
      ids, IwpSession.ByTimeout)
  }

  lemma DropNone(s: View)
    ensures DropSome(s, {}) == s
  {
    var r := DropSome(s, {});
    assert r.tx == s.tx && r.hist.calls == s.hist.calls && r.hist.fate == s.hist.fate;
  }

  lemma DropAll(s: View, now: Time)
    ensures DropSome(s, IwpSession.TxDead(s, now)) == IwpSession.DropOutbound(s, now)
  {
  }

  lemma DeadIds(s: View, now: Time)
    ensures IwpSession.TxDead(s, now) <= s.tx.Keys
    ensures forall id :: id in s.tx ==> (id in IwpSession.TxDead(s, now) <==> TxTimedOut(s.tx[id], now))
    ensures IwpSession.RxDead(s, now) <= s.rx.Keys
    ensures forall id :: id in s.rx ==> (id in IwpSession.RxDead(s, now) <==> RxTimedOut(s.rx[id], now))
  {
  }

  lemma DropOneMore(s: View, ids: set<nat>, id: nat)
    requires id !in ids && id in s.tx
    ensures id in DropSome(s, ids).tx && DropSome(s, ids).tx[id] == s.tx[id]
    ensures DropSome(s, ids + {id}) == DropSome(DropSome(s, ids), {id})
  {
    hide IwpSession.CallHandlers;
    var r, r' := DropSome(s, ids + {id}), DropSome(DropSome(s, ids), {id});
    assert |ids + {id}| == |ids| + 1;
    assert r.tx == r'.tx;
    assert r.hist.fate == r'.hist.fate;
    DropCalls(s, ids, id);
  }

  /** One step of the loop over the queue. */
  lemma DropNext(s: View, todo: set<nat>, id: nat, now: Time)
    requires todo <= s.tx.Keys && id in todo
    ensures var dead := IwpSession.TxDead(s, now);
            var r := DropSome(s, dead - todo);
            && id in r.tx && r.tx[id] == s.tx[id]
            && DropSome(s, dead - (todo - {id})) == if TxTimedOut(s.tx[id], now) then DropSome(r, {id}) else r
  {
    hide DropSome, IwpSession.TxDead, TxTimedOut;
    var dead := IwpSession.TxDead(s, now);
    DeadIds(s, now);
    DropOneMore(s, dead - todo, id);
    assert dead - (todo - {id}) == if id in dead then (dead - todo) + {id} else dead - todo;
  }

  lemma DropCalls(s: View, ids: set<nat>, id: nat)
    requires id !in ids && id in s.tx
    ensures DropSome(s, ids + {id}).hist.calls == DropSome(DropSome(s, ids), {id}).hist.calls
  {
  }

  ghost function ForgetSome(s: View, ids: set<nat>, now: Time): View
  {
    s.(rx := s.rx - ids, replay := IwpSession.Remember(s.replay, ids, now),
       hist := s.hist.(abandoned := s.hist.abandoned + ids))
  }

  lemma ForgetNone(s: View, now: Time)
    ensures ForgetSome(s, {}, now) == s
  {
    var r := ForgetSome(s, {}, now);
    assert r.rx == s.rx && r.replay == s.replay && r.hist.abandoned == s.hist.abandoned;
  }

  ghost function ForgetOne(s: View, id: nat, now: Time): View
  {
    s.(rx := s.rx - {id}, replay := if id in s.replay then s.replay else s.replay[id := now],
       hist := s.hist.(abandoned := s.hist.abandoned + {id}))
  }

  lemma RememberOneMore(replay: map<nat, Time>, ids: set<nat>, id: nat, now: Time)
    ensures var r := IwpSession.Remember(replay, ids, now);
            IwpSession.Remember(replay, ids + {id}, now) == if id in r then r else r[id := now]
  {
  }

  lemma ForgetOneMore(s: View, ids: set<nat>, id: nat, now: Time)
    requires id !in ids && id in s.rx
    ensures var r := ForgetSome(s, ids, now);
            && id in r.rx && r.rx[id] == s.rx[id]
            && ForgetSome(s, ids + {id}, now) == ForgetOne(r, id, now)
  {
    hide IwpSession.Remember;
    var r, q := ForgetSome(s, ids, now), ForgetSome(s, ids + {id}, now);
    assert q.rx == r.rx - {id};
    RememberOneMore(s.replay, ids, id, now);
    assert q.hist.abandoned == r.hist.abandoned + {id};
  }

  ghost function AckSome(s: View, ids: set<nat>, now: Time): View
  {
    IwpSession.Emit(s.(rx := map id | id in s.rx :: if id in ids then IwpSession.AckedAt(s.rx[id], now) else s.rx[id]),
                    set id | id in ids && id in s.rx && ShouldSendAcks(s.rx[id], now)
                           :: Acks(s.rx[id].id, s.rx[id].acks), now)
  }

  ghost function FlushSome(s: View, ids: set<nat>, now: Time): View
  {
    IwpSession.Emit(s.(tx := map id | id in s.tx
                              :: if id in ids then IwpSession.FlushedAt(s.tx[id], now) else s.tx[id]),
                    set id, f: nat | id in ids && id in s.tx && ShouldFlush(s.tx[id], now)
                                     && f < FragmentCount(|s.tx[id].data|) && f !in s.tx[id].acks
                                   :: DataPacket(s.tx[id], f), now)
  }

  lemma AckNone(s: View, now: Time)
    ensures AckSome(s, {}, now) == s && FlushSome(s, {}, now) == s
  {
    EmitNone(s, now);
    assert AckSome(s, {}, now).rx == s.rx;
    assert FlushSome(s, {}, now).tx == s.tx;
  }

  /** Both halves of a pump together are the pump. */
  lemma PumpHalves(s: View, now: Time)
    ensures FlushSome(AckSome(s, s.rx.Keys, now), s.tx.Keys, now) == IwpSession.Pump(s, now)
  {
    var s1 := AckSome(s, s.rx.Keys, now);
    var acks := set id | id in s.rx.Keys && id in s.rx && ShouldSendAcks(s.rx[id], now)
                       :: Acks(s.rx[id].id, s.rx[id].acks);
    assert acks == set id | id in s.rx && ShouldSendAcks(s.rx[id], now) :: Acks(s.rx[id].id, s.rx[id].acks);
    var datas := set id, f: nat | id in s.tx.Keys && id in s.tx && ShouldFlush(s.tx[id], now)
                                  && f < FragmentCount(|s.tx[id].data|) && f !in s.tx[id].acks
                                :: DataPacket(s.tx[id], f);
    assert datas == set id, f: nat | id in s.tx && ShouldFlush(s.tx[id], now)
                                     && f < FragmentCount(|s.tx[id].data|) && f !in s.tx[id].acks
                                   :: DataPacket(s.tx[id], f);
    var rx' := map id | id in s.rx :: IwpSession.AckedAt(s.rx[id], now);
    var tx' := map id | id in s.tx :: IwpSession.FlushedAt(s.tx[id], now);
    assert rx' == s1.rx;
    assert tx' == FlushSome(s1, s.tx.Keys, now).tx;
    EmitTwice(s.(rx := rx', tx := tx'), acks, datas, now);
  }

  ghost function FlushOne(s: View, id: nat, now: Time): View
    requires id in s.tx
  {
    if ShouldFlush(s.tx[id], now)
    then IwpSession.Emit(s.(tx := s.tx[id := s.tx[id].(lastFlush := now)]), UnackedPackets(s.tx[id]), now)
    else s
  }

  ghost function AckOne(s: View, id: nat, now: Time): View
    requires id in s.rx
  {
    if ShouldSendAcks(s.rx[id], now)
    then IwpSession.Emit(s.(rx := s.rx[id := s.rx[id].(lastAckSent := now)]), {Acks(s.rx[id].id, s.rx[id].acks)}, now)
    else s
  }

  /** The pump of one more queued message: its stamp and its packets. */
  lemma FlushOneMore(s: View, ids: set<nat>, id: nat, now: Time)
    requires id !in ids && id in s.tx
    ensures var r := FlushSome(s, ids, now);
            id in r.tx && r.tx[id] == s.tx[id] && FlushSome(s, ids + {id}, now) == FlushOne(r, id, now)
  {
    var r, q := FlushSome(s, ids, now), FlushSome(s, ids + {id}, now);
    assert q.tx == FlushOne(r, id, now).tx;
    FlushedPackets(s, ids, id, now);
    assert q.hist.sent == FlushOne(r, id, now).hist.sent;
  }

  lemma FlushedPackets(s: View, ids: set<nat>, id: nat, now: Time)
    requires id !in ids && id in s.tx
    ensures FlushSome(s, ids + {id}, now).hist.sent
         == FlushSome(s, ids, now).hist.sent
            + (if ShouldFlush(s.tx[id], now) then set p | p in UnackedPackets(s.tx[id]) :: IwpSession.Flight(p, now)
               else {})
  {
    var a := FlushSome(s, ids + {id}, now).hist.sent;
    var b := FlushSome(s, ids, now).hist.sent
            + (if ShouldFlush(s.tx[id], now) then set p | p in UnackedPackets(s.tx[id]) :: IwpSession.Flight(p, now)
               else {});
    forall x | x in a
      ensures x in b
    {
      if x !in s.hist.sent {
        var k, f: nat :| k in ids + {id} && k in s.tx && ShouldFlush(s.tx[k], now)
                         && f < FragmentCount(|s.tx[k].data|) && f !in s.tx[k].acks
                         && x == IwpSession.Flight(DataPacket(s.tx[k], f), now);
      }
    }
  }

  lemma AckOneMore(s: View, ids: set<nat>, id: nat, now: Time)
    requires id !in ids && id in s.rx
    ensures var r := AckSome(s, ids, now);
            id in r.rx && r.rx[id] == s.rx[id] && AckSome(s, ids + {id}, now) == AckOne(r, id, now)
  {
    var r, q := AckSome(s, ids, now), AckSome(s, ids + {id}, now);
    assert q.rx == AckOne(r, id, now).rx;
    assert q.hist.sent == AckOne(r, id, now).hist.sent;
  }

  ghost function MackFlights(chunks: seq<seq<nat>>, now: Time): seq<IwpSession.Flight>
  {
    seq(|chunks|, i requires 0 <= i < |chunks| => IwpSession.Flight(Mack(chunks[i]), now))
  }

  lemma MackFlightSet(chunks: seq<seq<nat>>, now: Time)
    ensures Elements(MackFlights(chunks, now))
         == set p | p in (set c | c in chunks :: Mack(c)) :: IwpSession.Flight(p, now)
  {
    var a := Elements(MackFlights(chunks, now));
    var b := set p | p in (set c | c in chunks :: Mack(c)) :: IwpSession.Flight(p, now);
    forall x | x in b
      ensures x in a
    {
      var i :| 0 <= i < |chunks| && x == IwpSession.Flight(Mack(chunks[i]), now);
      assert MackFlights(chunks, now)[i] == x;
    }
  }

  lemma NoFlights(now: Time)
    ensures MackFlights([], now) == [] && IwpSession.Chunks(IwpSession.Ascending(multiset{})) == []
  {
    assert IwpSession.Ascending(multiset{}) == [];
  }

  lemma OneMoreFlight(done: seq<seq<nat>>, ids: seq<nat>, now: Time)
    ensures MackFlights(done + [ids], now) == MackFlights(done, now) + [IwpSession.Flight(Mack(ids), now)]
  {
  }

  lemma PopTop(m: multiset<nat>)
    requires m != multiset{}
    ensures var top := IwpSession.Top(m);
            top in m && IwpSession.Ascending(m) == [top] + IwpSession.Ascending(m - multiset{top})
  {
  }

  // ----- the object

  /** Nothing that was sent is taken back, and nothing is added twice. */
  ghost predicate SentOnce(before: seq<IwpSession.Flight>, after: seq<IwpSession.Flight>)
  {
    before <= after && forall i, j :: |before| <= i < j < |after| ==> after[i] != after[j]
  }

  /** One packet, and then DATA packets of ascending index. */
  lemma FlushedOnce(before: seq<IwpSession.Flight>, first: seq<IwpSession.Flight>, out: seq<Packet>, now: Time,
                    after: seq<IwpSession.Flight>)
    requires |first| <= 1 && forall f :: f in first ==> f.packet.Xmit?
    requires forall i :: 0 <= i < |out| ==> out[i].Data?
    requires forall i, j :: 0 <= i < j < |out| ==> out[i].idx < out[j].idx
    requires |after| == |before + first| + |out| && before + first <= after
    requires forall k :: 0 <= k < |out| ==> after[|before + first| + k] == IwpSession.Flight(out[k], now)
    ensures SentOnce(before, after)
  {
    var n := |before + first|;
    forall i, j | |before| <= i < j < |after|
      ensures after[i] != after[j]
    {
      assert after[j] == IwpSession.Flight(out[j - n], now);
      if i < n {
        assert after[i] == first[0];
      } else {
        assert after[i] == IwpSession.Flight(out[i - n], now);
      }
    }
    assert before <= after;
  }

  class Session {
    const h: Hasher
    var txId: nat
    var txMsgs: map<nat, OutboundMessage>
    var rxMsgs: map<nat, InboundMessage>
    var replayFilter: map<nat, Time>
    var sendMacks: multiset<nat>
    var stats: IwpSession.Stats
    /** Calls of EncryptAndSend, of the parent's HandleMessage, and of completion handlers. */
    var outbox: seq<IwpSession.Flight>
    var handled: seq<IwpSession.Delivery>
    var handlerCalls: map<nat, seq<IwpSession.DeliveryStatus>>
    ghost var submitted: map<nat, IwpSession.Submission>
    ghost var fate: map<nat, IwpSession.Fate>
    ghost var abandoned: set<nat>

    ghost function State(): View
      reads this
    {
      IwpSession.State(txId, txMsgs, rxMsgs, replayFilter, sendMacks, stats,
                       IwpSession.History(submitted, handlerCalls, fate, abandoned, handled, Elements(outbox)))
    }

    ghost predicate Valid()
      reads this
    {
      && (forall id :: id in txMsgs ==> id < txId && id in handlerCalls && |txMsgs[id].data| <= MAX_LINK_MSG_SIZE)
    }

    constructor (hash: Hasher)
      ensures Valid() && State() == IwpSession.InitialState && h == hash
    {
      h := hash;
      txId, txMsgs, rxMsgs, replayFilter, sendMacks := 0, map[], map[], map[], multiset{};
      stats := IwpSession.Stats(0, 0, 0);
      outbox, handled, handlerCalls := [], [], map[];
      submitted, fate, abandoned := map[], map[], {};
    }

    method EncryptAndSend(p: Packet, now: Time)
      modifies this`outbox
      ensures outbox == old(outbox) + [IwpSession.Flight(p, now)]
      ensures State() == IwpSession.Emit(old(State()), {p}, now)
    {
      outbox := outbox + [IwpSession.Flight(p, now)];
      assert State().hist.sent == IwpSession.Emit(old(State()), {p}, now).hist.sent;
    }

    method SendEach(packets: seq<Packet>, now: Time)
      modifies this`outbox
      ensures State() == IwpSession.Emit(old(State()), Elements(packets), now)
      ensures |outbox| == |old(outbox)| + |packets| && old(outbox) <= outbox
      ensures forall k :: 0 <= k < |packets| ==> outbox[|old(outbox)| + k] == IwpSession.Flight(packets[k], now)
    {
      hide IwpSession.Emit;
      EmitNone(State(), now);
      assert Elements(packets[..0]) == {};
      for i := 0 to |packets|
        invariant |outbox| == |old(outbox)| + i && old(outbox) <= outbox
        invariant forall k :: 0 <= k < i ==> outbox[|old(outbox)| + k] == IwpSession.Flight(packets[k], now)
        invariant State() == IwpSession.Emit(old(State()), Elements(packets[..i]), now)
      {
        EmitTwice(old(State()), Elements(packets[..i]), {packets[i]}, now);
        ElementsAppend(packets[..i], [packets[i]]);
        assert packets[..i] + [packets[i]] == packets[..i + 1];
        assert Elements([packets[i]]) == {packets[i]};
        EncryptAndSend(packets[i], now);
      }
      assert packets[..|packets|] == packets;
    }

    /** OutboundMessage::Completed and InformTimeout followed by the erase. */
    method Finish(id: nat, status: IwpSession.DeliveryStatus, ghost why: IwpSession.Fate)
      requires Valid() && id in txMsgs
      requires status == if why.ByTimeout? then IwpSession.Dropped else IwpSession.Success
      modifies this`txMsgs, this`handlerCalls, this`fate
      ensures Valid()
      ensures State() == IwpSession.Retire(old(State()), {id}, why)
    {
      hide IwpSession.Retire;
      if txMsgs[id].hasHandler {
        handlerCalls := handlerCalls[id := handlerCalls[id] + [status]];
      }
      txMsgs := txMsgs - {id};
      fate := fate[id := why];
      RetireOne(old(State()), id, why);
    }

    /** Refuses, telling the handler at once, exactly when the queue is full. */
    method SendMessageBuffer(data: Bytes, hasHandler: bool, now: Time) returns (accepted: bool, refusalReported: bool)
      requires Valid() && |data| <= MAX_LINK_MSG_SIZE
      modifies this
      ensures Valid() && SentOnce(old(outbox), outbox)
      ensures State() == IwpSession.SendMessage(old(State()), h, data, hasHandler, now)
      ensures accepted <==> !IwpSession.QueueFull(old(State()))
      ensures refusalReported <==> !accepted && hasHandler
    {
      if |txMsgs| >= IwpSession.MAX_SEND_QUEUE_SIZE {
        return false, hasHandler;
      }
      var m := NewOutbound(h, txId, data, now, hasHandler);
      Enqueue(m);
      SendFirst(m, now);
      return true, false;
    }

    /** m_TXID++, the emplace into the queue, and the in-flight counter. */
    method Enqueue(m: OutboundMessage)
      requires Valid() && m.id == txId && |m.data| <= MAX_LINK_MSG_SIZE
      modifies this`txId, this`txMsgs, this`handlerCalls, this`submitted, this`stats
      ensures Valid()
      ensures var s := old(State());
              State() == s.(txid := s.txid + 1, tx := s.tx[s.txid := m],
                            stats := s.stats.(inFlight := s.stats.inFlight + 1),
                            hist := s.hist.(
                              submitted := s.hist.submitted[
                                s.txid := IwpSession.Submission(m.data, m.hasHandler, m.startedAt)],
                              calls := s.hist.calls[s.txid := []]))
    {
      txMsgs := txMsgs[txId := m];
      handlerCalls := handlerCalls[txId := []];
      submitted := submitted[txId := IwpSession.Submission(m.data, m.hasHandler, m.startedAt)];
      stats := stats.(inFlight := stats.inFlight + 1);
      txId := txId + 1;
    }

    method SendFirst(m: OutboundMessage, now: Time)
      requires |m.data| <= MAX_LINK_MSG_SIZE
      modifies this`outbox
      ensures State() == IwpSession.Emit(old(State()), {XmitPacket(m)}
                                         + (if |m.data| > FRAGMENT_SIZE then UnackedPackets(m) else {}), now)
      ensures SentOnce(old(outbox), outbox)
    {
      assert XmitPacket(m).Xmit?;
      hide UnackedPackets, XmitPacket, IwpSession.Emit;
      EncryptAndSend(XmitPacket(m), now);
      if |m.data| > FRAGMENT_SIZE {
        var out := FlushUnAcked(m);
        SendEach(out, now);
        FlushedOnce(old(outbox), [IwpSession.Flight(XmitPacket(m), now)], out, now, outbox);
        EmitTwice(old(State()), {XmitPacket(m)}, UnackedPackets(m), now);
      } else {
        assert {XmitPacket(m)} + {} == {XmitPacket(m)};
      }
    }

    method HandleRecvMsgCompleted(m: InboundMessage, now: Time)
      requires Valid()
      modifies this`replayFilter, this`handled, this`outbox, this`rxMsgs
      ensures Valid() && SentOnce(old(outbox), outbox)
      ensures State() == IwpSession.RecvCompleted(old(State()), m, now)
    {
      if m.id !in replayFilter {
        replayFilter := replayFilter[m.id := now];
        handled := handled + [IwpSession.Delivery(m.id, m.data, now)];
        EncryptAndSend(Acks(m.id, m.acks), now);
      }
      rxMsgs := rxMsgs - {m.id};
    }

    method HandleXMIT(p: Packet, now: Time)
      requires Valid() && p.Xmit?
      modifies this
      ensures Valid() && SentOnce(old(outbox), outbox)
      ensures State() == IwpSession.OnXmit(old(State()), h, p, now)
    {
      if p.id in replayFilter {
        sendMacks := sendMacks + multiset{p.id};
        return;
      }
      if p.id !in rxMsgs {
        var m := NewInbound(p.id, p.size, p.digest, now);
        if |p.data| == Min(p.size, FRAGMENT_SIZE) {
          m := HandleData(m, 0, p.data, now);
          rxMsgs := rxMsgs[p.id := m];
          var thrown, complete := IsCompleted(m);
          assert 1 !in m.acks;
          if complete && Verifies(h, m) {
            HandleRecvMsgCompleted(m, now);
          }
        } else {
          rxMsgs := rxMsgs[p.id := m];
        }
      }
    }

    method HandleDATA(p: Packet, now: Time) returns (thrown: bool)
      requires Valid() && p.Data?
      modifies this
      ensures Valid() && SentOnce(old(outbox), outbox)
      ensures thrown <==> p.id in old(rxMsgs) && DataThrows(old(rxMsgs)[p.id], p.idx, p.data, now)
      ensures !thrown ==> State() == IwpSession.OnData(old(State()), h, p, now)
      ensures thrown ==> var m := AfterThrow(old(rxMsgs)[p.id], p.idx, p.data, now);
                         State() == old(State()).(rx := old(rxMsgs)[p.id := m])
    {
      hide AllMarked, TestThrows;
      thrown := false;
      if p.id !in rxMsgs {
        if p.id !in replayFilter {
          EncryptAndSend(Nack(p.id), now);
        } else {
          sendMacks := sendMacks + multiset{p.id};
        }
        return;
      }
      var m := HandleData(rxMsgs[p.id], p.idx, p.data, now);
      if SetThrows(rxMsgs[p.id], p.idx, p.data) {
        rxMsgs := rxMsgs[p.id := rxMsgs[p.id].(data := m.data)];
        return true;
      }
      rxMsgs := rxMsgs[p.id := m];
      var complete;
      thrown, complete := IsCompleted(m);
      if thrown { return; }
      if complete && Verifies(h, m) {
        HandleRecvMsgCompleted(m, now);
      }
    }

    method HandleACKS(p: Packet, now: Time)
      requires Valid() && p.Acks?
      modifies this
      ensures Valid() && SentOnce(old(outbox), outbox)
      ensures State() == IwpSession.OnAcks(old(State()), p, now)
    {
      if p.id in txMsgs {
        var m := txMsgs[p.id].(acks := p.mask);
        var thrown, done := IsTransmitted(m);
        if done {
          Finish(p.id, IwpSession.Success, IwpSession.ByAcks);
        } else {
          txMsgs := txMsgs[p.id := m.(lastFlush := now)];
          var out := FlushUnAcked(m);
          SendEach(out, now);
          assert old(outbox) + [] == old(outbox);
          FlushedOnce(old(outbox), [], out, now, outbox);
        }
      }
    }

    method HandleNACK(p: Packet, now: Time)
      requires Valid() && p.Nack?
      modifies this`outbox
      ensures Valid() && SentOnce(old(outbox), outbox)
      ensures State() == IwpSession.OnNack(old(State()), p, now)
    {
      if p.id in txMsgs {
        EncryptAndSend(XmitPacket(txMsgs[p.id]), now);
      }
    }

    method HandleMACK(ids: seq<nat>)
      requires Valid()
      modifies this
      ensures Valid()
      ensures State() == IwpSession.OnMack(old(State()), ids)
      ensures IwpRecovery.Completed(old(State()), State(), IwpRecovery.Named(old(State()), ids))
    {
      IwpRecovery.MackCompletes(State(), ids);
      hide IwpRecovery.Completed, IwpRecovery.Named;
      var i := 0;
      while i < |ids|
        invariant 0 <= i <= |ids| && Valid()
        invariant IwpSession.OnMack(State(), ids[i..]) == IwpSession.OnMack(old(State()), ids)
      {
        hide State, IwpSession.MackOne;
        AckedByMack(ids[i]);
        assert ids[i..][0] == ids[i] && ids[i..][1..] == ids[i + 1..];
        i := i + 1;
      }
      assert ids[i..] == [];
    }

    method AckedByMack(id: nat)
      requires Valid()
      modifies this
      ensures Valid()
      ensures State() == IwpSession.MackOne(old(State()), id)
    {
      hide IwpSession.Retire;
      if id in txMsgs {
        stats := stats.(acked := stats.acked + 1, inFlight := stats.inFlight - 1);
        Finish(id, IwpSession.Success, IwpSession.ByMack);
      }
    }

    /** Empties the heap; the packets that leave are, in order, the chunks of its ids from the
        smallest to the largest. */
    method SendMACK(now: Time)
      modifies this`sendMacks, this`outbox
      ensures sendMacks == multiset{}
      ensures outbox == old(outbox) + MackFlights(IwpSession.Chunks(IwpSession.Ascending(old(sendMacks))), now)
      ensures State() == IwpSession.SendMacks(old(State()), now)
    {
      hide IwpSession.Ascending, IwpSession.Chunks, MackFlights, Elements;
      ghost var all := IwpSession.Chunks(IwpSession.Ascending(sendMacks));
      SendAllChunks(now);
      MackFlightSet(all, now);
      ElementsAppend(old(outbox), MackFlights(all, now));
    }

    method SendAllChunks(now: Time)
      modifies this`sendMacks, this`outbox
      ensures sendMacks == multiset{}
      ensures outbox == old(outbox) + MackFlights(IwpSession.Chunks(IwpSession.Ascending(old(sendMacks))), now)
    {
      hide IwpSession.Ascending, IwpSession.Chunks, MackFlights, IwpSession.Emit, State;
      ghost var all := IwpSession.Chunks(IwpSession.Ascending(sendMacks));
      ghost var done: seq<seq<nat>> := [];
      NoFlights(now);
      while sendMacks != multiset{}
        invariant done + IwpSession.Chunks(IwpSession.Ascending(sendMacks)) == all
        invariant outbox == old(outbox) + MackFlights(done, now)
        decreases |sendMacks|
      {
        var ids := PopAcks();
        EncryptAndSend(Mack(ids), now);
        OneMoreFlight(done, ids, now);
        assert done + ([ids] + IwpSession.Chunks(IwpSession.Ascending(sendMacks)))
            == (done + [ids]) + IwpSession.Chunks(IwpSession.Ascending(sendMacks));
        done := done + [ids];
      }
      assert done + [] == done;
    }

    /** The inner loop: the next MAX_ACKS_IN_MACK ids of the heap, or all that are left. */
    method PopAcks() returns (ids: seq<nat>)
      requires sendMacks != multiset{}
      modifies this`sendMacks
      ensures |sendMacks| < |old(sendMacks)|
      ensures IwpSession.Chunks(IwpSession.Ascending(old(sendMacks)))
           == [ids] + IwpSession.Chunks(IwpSession.Ascending(sendMacks))
    {
      hide IwpSession.Ascending;
      ghost var all := IwpSession.Ascending(sendMacks);
      assert |all| == |multiset(all)|;
      var numAcks := Min(|sendMacks|, IwpSession.MAX_ACKS_IN_MACK);
      ghost var n := numAcks;
      ids := [];
      while numAcks > 0
        invariant |ids| + numAcks == n && 0 <= numAcks <= |sendMacks|
        invariant |sendMacks| + |ids| == |old(sendMacks)|
        invariant all == ids + IwpSession.Ascending(sendMacks)
      {
        hide IwpSession.Chunks;
        PopTop(sendMacks);
        var top := IwpSession.Top(sendMacks);
        ids := ids + [top];
        sendMacks := sendMacks - multiset{top};
        numAcks := numAcks - 1;
      }
      assert |ids| == n && all == ids + IwpSession.Ascending(sendMacks);
      assert all[..n] == ids && all[n..] == IwpSession.Ascending(sendMacks);
    }

    /** ready: the session is in the Ready or the LinkIntro phase. */
    method Pump(ready: bool, now: Time)
      requires Valid()
      modifies this`rxMsgs, this`txMsgs, this`outbox
      ensures Valid()
      ensures State() == if ready then IwpSession.Pump(old(State()), now) else old(State())
    {
      if !ready { return; }
      ghost var s0 := State();
      PumpInbound(rxMsgs.Keys, now);
      assert txMsgs == s0.tx;
      PumpOutbound(txMsgs.Keys, now);
      PumpHalves(s0, now);
    }

    method PumpInbound(ids: set<nat>, now: Time)
      requires Valid() && ids == State().rx.Keys
      modifies this`rxMsgs, this`outbox
      ensures Valid()
      ensures State() == AckSome(old(State()), ids, now)
    {
      hide State, Valid, AckSome, AckOne;
      ghost var s0 := State();
      var todo := ids;
      AckNone(s0, now);
      assert ids - todo == {};
      while todo != {}
        invariant todo <= ids && Valid()
        invariant State() == AckSome(s0, ids - todo, now)
        decreases |todo|
      {
        var id :| id in todo;
        AckOneMore(s0, ids - todo, id, now);
        assert ids - (todo - {id}) == (ids - todo) + {id};
        todo := todo - {id};
        AckIfDue(id, now);
      }
      assert ids - {} == ids;
    }

    method AckIfDue(id: nat, now: Time)
      requires Valid() && id in State().rx
      modifies this`rxMsgs, this`outbox
      ensures Valid()
      ensures State() == AckOne(old(State()), id, now)
    {
      if ShouldSendAcks(rxMsgs[id], now) {
        var m := rxMsgs[id];
        EncryptAndSend(Acks(m.id, m.acks), now);
        rxMsgs := rxMsgs[id := m.(lastAckSent := now)];
      }
    }

    method PumpOutbound(ids: set<nat>, now: Time)
      requires Valid() && ids == State().tx.Keys
      modifies this`txMsgs, this`outbox
      ensures Valid()
      ensures State() == FlushSome(old(State()), ids, now)
    {
      hide State, Valid, FlushSome, FlushOne;
      ghost var s0 := State();
      var todo := ids;
      AckNone(s0, now);
      assert ids - todo == {};
      while todo != {}
        invariant todo <= ids && Valid()
        invariant State() == FlushSome(s0, ids - todo, now)
        decreases |todo|
      {
        var id :| id in todo;
        FlushOneMore(s0, ids - todo, id, now);
        assert ids - (todo - {id}) == (ids - todo) + {id};
        todo := todo - {id};
        FlushIfDue(id, now);
      }
      assert ids - {} == ids;
    }

    method FlushIfDue(id: nat, now: Time)
      requires Valid() && id in State().tx
      modifies this`txMsgs, this`outbox
      ensures Valid()
      ensures State() == FlushOne(old(State()), id, now)
    {
      hide UnackedPackets;
      if ShouldFlush(txMsgs[id], now) {
        var m := txMsgs[id];
        var out := FlushUnAcked(m);
        txMsgs := txMsgs[id := m.(lastFlush := now)];
        SendEach(out, now);
      }
    }

    method Tick(now: Time)
      requires Valid()
      modifies this
      ensures Valid()
      ensures State() == IwpSession.Tick(old(State()), now)
    {
      DropOutbound(now);
      ForgetInbound(now);
    }

    method DropOutbound(now: Time)
      requires Valid()
      modifies this
      ensures Valid()
      ensures State() == IwpSession.DropOutbound(old(State()), now)
    {
      DropAll(State(), now);
      DropEach(txMsgs.Keys, now);
    }

    method DropEach(ids: set<nat>, now: Time)
      requires Valid() && ids == State().tx.Keys
      modifies this
      ensures Valid()
      ensures State() == DropSome(old(State()), IwpSession.TxDead(old(State()), now))
    {
      hide State, Valid, DropSome, IwpSession.TxDead, TxTimedOut;
      ghost var s0 := State();
      ghost var dead := IwpSession.TxDead(s0, now);
      DeadIds(s0, now);
      var todo := ids;
      DropNone(s0);
      assert dead - todo == {};
      while todo != {}
        invariant todo <= s0.tx.Keys && Valid()
        invariant State() == DropSome(s0, dead - todo)
        decreases |todo|
      {
        var id :| id in todo;
        DropNext(s0, todo, id, now);
        todo := todo - {id};
        DropIfTimedOut(id, now);
      }
      assert dead - {} == dead;
    }

    method DropIfTimedOut(id: nat, now: Time)
      requires Valid() && id in State().tx
      modifies this`txMsgs, this`handlerCalls, this`fate, this`stats
      ensures Valid()
      ensures State() == if TxTimedOut(old(State()).tx[id], now) then DropSome(old(State()), {id}) else old(State())
    {
      hide IwpSession.Retire;
      if TxTimedOut(txMsgs[id], now) {
        stats := stats.(dropped := stats.dropped + 1, inFlight := stats.inFlight - 1);
        Finish(id, IwpSession.Dropped, IwpSession.ByTimeout);
      }
    }

    method ForgetInbound(now: Time)
      requires Valid()
      modifies this
      ensures Valid()
      ensures State() == IwpSession.ForgetInbound(old(State()), now)
    {
      RemoveEach(rxMsgs.Keys, now);
      DecayReplay(now);
    }

    method RemoveEach(ids: set<nat>, now: Time)
      requires Valid() && ids == State().rx.Keys
      modifies this`rxMsgs, this`replayFilter, this`abandoned
      ensures Valid()
      ensures State() == ForgetSome(old(State()), IwpSession.RxDead(old(State()), now), now)
    {
      hide State, Valid, ForgetSome, ForgetOne, IwpSession.RxDead, RxTimedOut;
      ghost var s0 := State();
      ghost var gone := IwpSession.RxDead(s0, now);
      DeadIds(s0, now);
      var todo := ids;
      ForgetNone(s0, now);
      assert gone - todo == {};
      while todo != {}
        invariant todo <= s0.rx.Keys && Valid()
        invariant State() == ForgetSome(s0, gone - todo, now)
        decreases |todo|
      {
        var id :| id in todo;
        ForgetOneMore(s0, gone - todo, id, now);
        assert gone - (todo - {id}) == if id in gone then (gone - todo) + {id} else gone - todo;
        todo := todo - {id};
        RemoveIfTimedOut(id, now);
      }
      assert gone - {} == gone;
    }

    method RemoveIfTimedOut(id: nat, now: Time)
      requires Valid() && id in State().rx
      modifies this`rxMsgs, this`replayFilter, this`abandoned
      ensures Valid()
      ensures State() == if RxTimedOut(old(State()).rx[id], now) then ForgetOne(old(State()), id, now) else old(State())
    {
      if RxTimedOut(rxMsgs[id], now) {
        if id !in replayFilter { replayFilter := replayFilter[id := now]; }
        rxMsgs := rxMsgs - {id};
        abandoned := abandoned + {id};
      }
    }

    method DecayReplay(now: Time)
      requires Valid()
      modifies this`replayFilter
      ensures Valid()
      ensures replayFilter == IwpSession.Decay(old(replayFilter), now)
    {
      var todo := replayFilter.Keys;
      while todo != {}
        invariant todo <= old(replayFilter.Keys) && Valid()
        invariant replayFilter == map id | id in old(replayFilter)
                                           && (id in todo || old(replayFilter)[id] + REPLAY_WINDOW > now)
                                         :: old(replayFilter)[id]
        decreases |todo|
      {
        var id :| id in todo;
        if replayFilter[id] + REPLAY_WINDOW <= now {
          replayFilter := replayFilter - {id};
        }
        todo := todo - {id};
      }
    }
  }
}
