/** What an exchange achieves when its packets arrive: amid whatever else the receiver does meanwhile, it
    delivers the message exactly when the last fragment is there, in whatever order and however often
    they come, and its acknowledgement completes the message at the sender. */
module IwpDelivery {
  import opened Common
  import opened IwpMessages
  import opened IwpSession
  import opened IwpNetwork

  datatype Moment = Moment(act: Action, at: Time)

  function Play(s: State, h: Hasher, ms: seq<Moment>): State
    decreases |ms|
  {
    if ms == [] then s
    else
      var n := |ms| - 1;
      Act(h, Play(s, h, ms[..n]), ms[n].act, ms[n].at)
  }

  // ----- fragments of one message amid other events

  /** A DATA packet with fragment f of the message. */
  ghost predicate IsFragment(p: Packet, id: nat, msg: Bytes, f: nat)
  {
    f < FragmentCount(|msg|) && p == Data(f * FRAGMENT_SIZE, id, Fragment(msg, f))
  }

  ghost predicate BringsFragment(a: Action, id: nat, msg: Bytes)
  {
    && a.Receive? && a.flight.packet.Data?
    && IsFragment(a.flight.packet, id, msg, a.flight.packet.idx / FRAGMENT_SIZE)
  }

  /** Any other event: a packet of another message, or one that answers us, an XMIT of this message that
      is known, anything of our own, and a tick that does not time the message out. */
  ghost predicate Elsewhere(s: State, m: Moment, id: nat)
  {
    match m.act
    case Receive(f) =>
      && (f.packet.Xmit? && f.packet.id == id ==> id in s.rx || id in s.replay)
      && (f.packet.Data? ==> f.packet.id != id)
    case DoTick => id in s.rx ==> !RxTimedOut(s.rx[id], m.at)
    case _ => true
  }

  ghost predicate Amid(s: State, h: Hasher, ms: seq<Moment>, id: nat, msg: Bytes)
  {
    forall i :: 0 <= i < |ms| ==> BringsFragment(ms[i].act, id, msg) || Elsewhere(Play(s, h, ms[..i]), ms[i], id)
  }

  /** The fragments that have arrived: the first came with the XMIT. */
  function Seen(ms: seq<Moment>, id: nat): set<nat>
  {
    if ms == [] then {0}
    else
      var n := |ms| - 1;
      var a := ms[n].act;
      Seen(ms[..n], id) +
      (if a.Receive? && a.flight.packet.Data? && a.flight.packet.id == id
       then {a.flight.packet.idx / FRAGMENT_SIZE} else {})
  }

  // ----- where the message stands

  /** Since ds, nothing was delivered under this id. */
  ghost predicate NoneSince(all: seq<Delivery>, ds: seq<Delivery>, id: nat)
  {
    ds <= all && forall j :: |ds| <= j < |all| ==> all[j].id != id
  }

  /** Since ds, the message was delivered under this id, and nothing else was. */
  ghost predicate OnceSince(all: seq<Delivery>, ds: seq<Delivery>, id: nat, msg: Bytes)
  {
    && ds <= all
    && exists i :: |ds| <= i < |all| && all[i].id == id && all[i].data == msg
                   && forall j :: |ds| <= j < |all| && all[j].id == id ==> j == i
  }

  ghost predicate InProgress(s: State, h: Hasher, ds: seq<Delivery>, id: nat, msg: Bytes, marks: set<nat>)
  {
    && id in s.rx && id !in s.replay
    && s.rx[id].id == id && s.rx[id].digest == h(msg) && s.rx[id].acks == marks && HoldsPartOf(s.rx[id], msg)
    && NoneSince(s.hist.delivered, ds, id)
  }

  /** All of the message was delivered and acknowledged. */
  ghost predicate Finished(s: State, ds: seq<Delivery>, id: nat, msg: Bytes)
  {
    && id !in s.rx && OnceSince(s.hist.delivered, ds, id, msg)
    && exists f :: f in s.hist.sent && f.packet.Acks? && f.packet.id == id && AllMarked(f.packet.mask, |msg|)
  }

  ghost predicate Progress(s: State, h: Hasher, ds: seq<Delivery>, id: nat, msg: Bytes, marks: set<nat>)
  {
    if AllMarked(marks, |msg|) then Finished(s, ds, id, msg) else InProgress(s, h, ds, id, msg, marks)
  }

  lemma OnceAppended(all: seq<Delivery>, ds: seq<Delivery>, d: Delivery)
    requires NoneSince(all, ds, d.id)
    ensures OnceSince(all + [d], ds, d.id, d.data)
  {
    assert (all + [d])[|all|] == d;
  }

  /** Filing a message that holds what was marked delivers it exactly if nothing is missing. */
  lemma StoreProgress(s: State, h: Hasher, ds: seq<Delivery>, id: nat, m: InboundMessage, msg: Bytes, now: Time)
    requires id !in s.replay && m.id == id && m.digest == h(msg) && HoldsPartOf(m, msg)
    requires NoneSince(s.hist.delivered, ds, id)
    ensures Progress(StoreInbound(s, h, id, m, now), h, ds, id, msg, m.acks)
  {
    hide HoldsPartOf, AllMarked, NoneSince, OnceSince;
    SameSize(m, msg);
    if AllMarked(m.acks, |msg|) {
      CompletedIsMessage(h, m, msg);
      OnceAppended(s.hist.delivered, ds, Delivery(id, msg, now));
      assert Flight(Acks(id, m.acks), now) in StoreInbound(s, h, id, m, now).hist.sent;
    }
  }

  lemma SameSize(m: InboundMessage, msg: Bytes)
    requires HoldsPartOf(m, msg)
    ensures |m.data| == |msg|
  {
  }

  /** The XMIT packet brings the first fragment, and all of a message that has just one. */
  lemma XmitProgress(s: State, h: Hasher, id: nat, msg: Bytes, now: Time)
    requires id !in s.replay && id !in s.rx
    ensures var p := Xmit(|msg|, id, h(msg), msg[..Min(|msg|, FRAGMENT_SIZE)]);
            Progress(OnXmit(s, h, p, now), h, s.hist.delivered, id, msg, {0})
  {
    hide StoreInbound, Progress;
    var p := Xmit(|msg|, id, h(msg), msg[..Min(|msg|, FRAGMENT_SIZE)]);
    var m := NewInbound(id, |msg|, p.digest, now);
    if |msg| > 0 {
      assert FragmentCount(|msg|) > 0 && Fragment(msg, 0) == p.data;
      HandleDataHolds(m, msg, 0, now);
    }
    var m' := HandleData(m, 0, p.data, now);
    assert m'.acks == {0};
    StoreProgress(s, h, s.hist.delivered, id, m', msg, now);
  }

  /** One more fragment, new or repeated, early or late. */
  lemma DataProgress(s: State, h: Hasher, ds: seq<Delivery>, id: nat, msg: Bytes, marks: set<nat>, p: Packet,
                     f: nat, now: Time)
    requires Progress(s, h, ds, id, msg, marks) && IsFragment(p, id, msg, f)
    ensures Progress(OnData(s, h, p, now), h, ds, id, msg, marks + {f})
  {
    hide StoreInbound, AllMarked, HoldsPartOf, NoneSince, OnceSince;
    MoreMarks(marks, f, |msg|);
    if !AllMarked(marks, |msg|) {
      HandleDataHolds(s.rx[id], msg, f, now);
      hide HandleData;
      StoreProgress(s, h, ds, id, HandleData(s.rx[id], p.idx, p.data, now), msg, now);
    }
  }

  lemma MoreMarks(marks: set<nat>, f: nat, size: nat)
    ensures AllMarked(marks, size) ==> AllMarked(marks + {f}, size)
  {
  }

  // ----- what other events leave alone

  ghost predicate RxIds(s: State) { forall k :: k in s.rx ==> s.rx[k].id == k }

  /** Nothing about the message with this id changes. */
  ghost predicate Untouched(s: State, s': State, id: nat)
  {
    && (id in s'.rx <==> id in s.rx)
    && (id in s.rx ==>
         && s'.rx[id].id == s.rx[id].id && s'.rx[id].digest == s.rx[id].digest
         && s'.rx[id].acks == s.rx[id].acks && s'.rx[id].data == s.rx[id].data)
    && (id in s'.replay ==> id in s.replay)
    && NoneSince(s'.hist.delivered, s.hist.delivered, id)
    && s.hist.sent <= s'.hist.sent
  }

  lemma UntouchedProgress(s: State, s': State, h: Hasher, ds: seq<Delivery>, id: nat, msg: Bytes, marks: set<nat>)
    requires Untouched(s, s', id) && Progress(s, h, ds, id, msg, marks)
    ensures Progress(s', h, ds, id, msg, marks)
  {
    hide AllMarked;
    if AllMarked(marks, |msg|) {
      StillOnce(s.hist.delivered, s'.hist.delivered, ds, id, msg);
      var f := FullAck(s, ds, id, msg);
      assert f in s'.hist.sent;
    }
  }

  lemma StillOnce(all: seq<Delivery>, more: seq<Delivery>, ds: seq<Delivery>, id: nat, msg: Bytes)
    requires OnceSince(all, ds, id, msg) && NoneSince(more, all, id)
    ensures OnceSince(more, ds, id, msg)
  {
    var i :| |ds| <= i < |all| && all[i].id == id && all[i].data == msg
      && forall j :: |ds| <= j < |all| && all[j].id == id ==> j == i;
    assert more[i] == all[i];
    forall j | |ds| <= j < |more| && more[j].id == id
      ensures j == i
    {
      if j < |all| { assert more[j] == all[j]; }
    }
  }

  lemma FullAck(s: State, ds: seq<Delivery>, id: nat, msg: Bytes) returns (f: Flight)
    requires Finished(s, ds, id, msg)
    ensures f in s.hist.sent && f.packet.Acks? && f.packet.id == id && AllMarked(f.packet.mask, |msg|)
  {
    f :| f in s.hist.sent && f.packet.Acks? && f.packet.id == id && AllMarked(f.packet.mask, |msg|);
  }

  lemma StoreUntouched(s: State, h: Hasher, k: nat, m: InboundMessage, now: Time, id: nat)
    requires m.id == k && RxIds(s)
    ensures RxIds(StoreInbound(s, h, k, m, now))
    ensures k != id ==> Untouched(s, StoreInbound(s, h, k, m, now), id)
  {
    hide AllMarked;
  }

  lemma FragmentUntouched(s: State, h: Hasher, p: Packet, now: Time, id: nat)
    requires RxIds(s) && (p.Xmit? || p.Data?)
    ensures var s' := if p.Xmit? then OnXmit(s, h, p, now) else OnData(s, h, p, now);
            && RxIds(s')
            && (p.id != id || (p.Xmit? && (id in s.rx || id in s.replay)) ==> Untouched(s, s', id))
  {
    hide StoreInbound;
    if p.Xmit? {
      StoreUntouched(s, h, p.id, HandleData(NewInbound(p.id, p.size, p.digest, now), 0, p.data, now), now, id);
    } else if p.id in s.rx {
      StoreUntouched(s, h, p.id, HandleData(s.rx[p.id], p.idx, p.data, now), now, id);
    }
  }

  lemma ReplyUntouched(s: State, p: Packet, now: Time, id: nat)
    requires RxIds(s) && (p.Acks? || p.Nack? || p.Mack?)
    ensures var s' := if p.Acks? then OnAcks(s, p, now) else if p.Nack? then OnNack(s, p, now) else OnMack(s, p.ids);
            RxIds(s') && Untouched(s, s', id)
  {
    hide OnMack, AllMarked, UnackedPackets, CallHandlers;
    if p.Mack? { OnMackFrame(s, p.ids); }
  }

  lemma OwnUntouched(s: State, h: Hasher, data: Bytes, hasHandler: bool, now: Time, id: nat)
    requires RxIds(s)
    ensures RxIds(SendMessage(s, h, data, hasHandler, now)) && Untouched(s, SendMessage(s, h, data, hasHandler, now),
            id)
    ensures RxIds(SendMacks(s, now)) && Untouched(s, SendMacks(s, now), id)
    ensures RxIds(Pump(s, now)) && Untouched(s, Pump(s, now), id)
  {
    hide UnackedPackets, Chunks, Ascending;
  }

  lemma TickUntouched(s: State, now: Time, id: nat)
    requires RxIds(s)
    ensures RxIds(Tick(s, now))
    ensures (id in s.rx ==> !RxTimedOut(s.rx[id], now)) ==> Untouched(s, Tick(s, now), id)
  {
    hide CallHandlers, TxDead;
  }

  lemma ActUntouched(s: State, h: Hasher, m: Moment, id: nat)
    requires RxIds(s)
    ensures RxIds(Act(h, s, m.act, m.at))
    ensures Elsewhere(s, m, id) ==> Untouched(s, Act(h, s, m.act, m.at), id)
  {
    hide OnXmit, OnData, OnAcks, OnNack, OnMack, SendMessage, SendMacks, Pump, Tick, RxIds, RxTimedOut;
    match m.act
    case Send(data, hasHandler) => OwnUntouched(s, h, data, hasHandler, m.at, id);
    case FlushMacks => OwnUntouched(s, h, [], false, m.at, id);
    case DoPump => OwnUntouched(s, h, [], false, m.at, id);
    case DoTick => TickUntouched(s, m.at, id);
    case Receive(f) =>
      if f.packet.Xmit? || f.packet.Data? { FragmentUntouched(s, h, f.packet, m.at, id); }
      else if f.packet.Acks? || f.packet.Nack? || f.packet.Mack? { ReplyUntouched(s, f.packet, m.at, id); }
  }

  // ----- the receiver

  /** From fragments that are there already, the first among them, on to those that arrive. */
  lemma {:induction false} PlayProgress(s: State, h: Hasher, ds: seq<Delivery>, id: nat, msg: Bytes, marks: set<nat>,
                                        ms: seq<Moment>)
    requires Progress(s, h, ds, id, msg, marks) && 0 in marks && RxIds(s) && Amid(s, h, ms, id, msg)
    ensures Progress(Play(s, h, ms), h, ds, id, msg, marks + Seen(ms, id)) && RxIds(Play(s, h, ms))
    decreases |ms|
  {
    hide Progress, OnData, RxIds, IsFragment, Elsewhere;
    if ms == [] {
      assert marks + {0} == marks;
    } else {
      var n := |ms| - 1;
      AmidBefore(s, h, ms, id, msg);
      PlayProgress(s, h, ds, id, msg, marks, ms[..n]);
      var t, m, seen := Play(s, h, ms[..n]), ms[n], marks + Seen(ms[..n], id);
      ActUntouched(t, h, m, id);
      if BringsFragment(m.act, id, msg) {
        var p := m.act.flight.packet;
        FragmentId(p, id, msg, p.idx / FRAGMENT_SIZE);
        DataProgress(t, h, ds, id, msg, seen, p, p.idx / FRAGMENT_SIZE, m.at);
        assert marks + Seen(ms, id) == seen + {p.idx / FRAGMENT_SIZE};
      } else {
        OthersUnseen(t, m, id);
        UntouchedProgress(t, Act(h, t, m.act, m.at), h, ds, id, msg, seen);
        assert Seen(ms, id) == Seen(ms[..n], id);
      }
    }
  }

  lemma FragmentId(p: Packet, id: nat, msg: Bytes, f: nat)
    requires IsFragment(p, id, msg, f)
    ensures p.Data? && p.id == id
  {
  }

  lemma OthersUnseen(s: State, m: Moment, id: nat)
    requires Elsewhere(s, m, id)
    ensures m.act.Receive? && m.act.flight.packet.Data? ==> m.act.flight.packet.id != id
  {
  }

  lemma AmidBefore(s: State, h: Hasher, ms: seq<Moment>, id: nat, msg: Bytes)
    requires ms != [] && Amid(s, h, ms, id, msg)
    ensures Amid(s, h, ms[..|ms| - 1], id, msg)
  {
    hide BringsFragment, Elsewhere, Play;
    var front := ms[..|ms| - 1];
    forall i | 0 <= i < |front|
      ensures BringsFragment(front[i].act, id, msg) || Elsewhere(Play(s, h, front[..i]), front[i], id)
    {
      assert front[..i] == ms[..i] && front[i] == ms[i];
    }
  }

  /** From a receiver that does not know the id: after the XMIT, and with any fragments of the message
      amid any other events, the message has been delivered, once and byte for byte, exactly if every
      fragment was among them; until then nothing is delivered under its id. */
  lemma DeliversWhenComplete(s: State, h: Hasher, id: nat, msg: Bytes, start: Time, ms: seq<Moment>)
    requires |msg| <= MAX_LINK_MSG_SIZE && id !in s.replay && id !in s.rx && RxIds(s)
    requires Amid(OnXmit(s, h, XmitOf(h, id, msg), start), h, ms, id, msg)
    ensures var s' := Play(OnXmit(s, h, XmitOf(h, id, msg), start), h, ms);
            if AllMarked(Seen(ms, id), |msg|) then Finished(s', s.hist.delivered, id, msg)
            else && NoneSince(s'.hist.delivered, s.hist.delivered, id)
                 && id in s'.rx && s'.rx[id].acks == Seen(ms, id)
  {
    hide OnXmit, AllMarked, Finished, Amid, Play;
    var s1 := OnXmit(s, h, XmitOf(h, id, msg), start);
    XmitProgress(s, h, id, msg, start);
    FragmentUntouched(s, h, XmitOf(h, id, msg), start, id);
    PlayProgress(s1, h, s.hist.delivered, id, msg, {0}, ms);
    SeenFirst(ms, id);
    assert {0} + Seen(ms, id) == Seen(ms, id);
  }

  function XmitOf(h: Hasher, id: nat, msg: Bytes): Packet
  {
    Xmit(|msg|, id, h(msg), msg[..Min(|msg|, FRAGMENT_SIZE)])
  }

  // ----- from end to end

  /** Every packet of ps arrives among these events. */
  ghost predicate BringsAll(ms: seq<Moment>, ps: set<Packet>)
  {
    forall p :: p in ps ==> exists i :: 0 <= i < |ms| && ms[i].act.Receive? && ms[i].act.flight.packet == p
  }

  lemma {:induction false} SeenIs(ms: seq<Moment>, id: nat, f: nat, i: nat)
    requires i < |ms| && ms[i].act.Receive? && ms[i].act.flight.packet.Data?
    requires ms[i].act.flight.packet.id == id && ms[i].act.flight.packet.idx == f * FRAGMENT_SIZE
    ensures f in Seen(ms, id)
    decreases |ms|
  {
    var n := |ms| - 1;
    if i < n { SeenIs(ms[..n], id, f, i); }
  }

  lemma {:induction false} SeenFirst(ms: seq<Moment>, id: nat)
    ensures 0 in Seen(ms, id)
    decreases |ms|
  {
    if ms != [] { SeenFirst(ms[..|ms| - 1], id); }
  }

  /** Bringing all DATA packets of a fresh message completes it. */
  lemma AllSeen(h: Hasher, id: nat, data: Bytes, start: Time, hasHandler: bool, ms: seq<Moment>)
    requires BringsAll(ms, UnackedPackets(NewOutbound(h, id, data, start, hasHandler)))
    ensures AllMarked(Seen(ms, id), |data|)
  {
    var m := NewOutbound(h, id, data, start, hasHandler);
    SeenFirst(ms, id);
    forall f: nat | f < FragmentCount(|data|)
      ensures f in Seen(ms, id)
    {
      if f != 0 {
        assert DataPacket(m, f) in UnackedPackets(m);
        var i :| 0 <= i < |ms| && ms[i].act.Receive? && ms[i].act.flight.packet == DataPacket(m, f);
        SeenIs(ms, id, f, i);
      }
    }
  }

  /** The message is in the send queue of this state. */
  ghost predicate Queued(T: State, id: nat, data: Bytes)
  {
    id in T.tx && id in T.hist.calls && T.tx[id].data == data
  }

  /** Arriving in that state, the packet takes the message out with success, and only this one. */
  ghost predicate Completes(T: State, id: nat, p: Packet, at: Time)
    requires p.Acks? && id in T.tx && id in T.hist.calls
  {
    var T' := OnAcks(T, p, at);
    && T'.tx == T.tx - {id}
    && T'.hist.fate == T.hist.fate[id := ByAcks]
    && T'.hist.calls == if T.tx[id].hasHandler then T.hist.calls[id := T.hist.calls[id] + [Success]] else T.hist.calls
  }

  lemma AckCompletes(T: State, id: nat, data: Bytes, p: Packet, at: Time)
    requires Queued(T, id, data) && p.Acks? && p.id == id && AllMarked(p.mask, |data|)
    ensures Completes(T, id, p, at)
  {
    hide AllMarked, UnackedPackets;
    var T' := OnAcks(T, p, at);
    assert T'.hist.calls == if T.tx[id].hasHandler then T.hist.calls[id := T.hist.calls[id] + [Success]]
        else T.hist.calls;
    assert T'.hist.fate == T.hist.fate[id := ByAcks];
  }

  /** What S sends for a message that it accepts: the XMIT and, of more than one fragment, the rest. */
  lemma SentPackets(h: Hasher, S: State, data: Bytes, hasHandler: bool, now: Time)
    requires !QueueFull(S)
    ensures var m := NewOutbound(h, S.txid, data, now, hasHandler);
            var S' := SendMessage(S, h, data, hasHandler, now);
            && Queued(S', S.txid, data)
            && Flight(XmitPacket(m), now) in S'.hist.sent
            && forall p :: p in UnackedPackets(m) ==> Flight(p, now) in S'.hist.sent
  {
    if |data| <= FRAGMENT_SIZE {
      assert FragmentCount(|data|) <= 1;
      assert UnackedPackets(NewOutbound(h, S.txid, data, now, hasHandler)) == {};
    }
  }

  /** A message that S accepts is queued and on its way. If its packets reach R, the XMIT first and
      the rest in any order amid any other events, R delivers it exactly once and sends an ACKS which,
      in whatever state of S it arrives with the message still queued, completes it with success. */
  lemma {:induction false} ExchangeCompletes(h: Hasher, S: State, R: State, data: Bytes, hasHandler: bool, now: Time,
                                             start: Time, ms: seq<Moment>)
    requires !QueueFull(S) && |data| <= MAX_LINK_MSG_SIZE && S.txid !in R.replay && S.txid !in R.rx && RxIds(R)
    requires Amid(OnXmit(R, h, XmitOf(h, S.txid, data), start), h, ms, S.txid, data)
    requires BringsAll(ms, UnackedPackets(NewOutbound(h, S.txid, data, now, hasHandler)))
    ensures var S' := SendMessage(S, h, data, hasHandler, now);
            && Queued(S', S.txid, data) && Flight(XmitOf(h, S.txid, data), now) in S'.hist.sent
            && forall p :: p in UnackedPackets(NewOutbound(h, S.txid, data, now, hasHandler)) ==>
                 Flight(p, now) in S'.hist.sent
    ensures var R' := Play(OnXmit(R, h, XmitOf(h, S.txid, data), start), h, ms);
            && Finished(R', R.hist.delivered, S.txid, data)
            && exists f :: f in R'.hist.sent && f.packet.Acks?
                 && forall T: State, at: Time :: Queued(T, S.txid, data) ==> Completes(T, S.txid, f.packet, at)
  {
    hide OnXmit, AllMarked, UnackedPackets, Completes, SendMessage, Finished, Play, Amid, RxIds, BringsAll;
    SentPackets(h, S, data, hasHandler, now);
    AllSeen(h, S.txid, data, now, hasHandler, ms);
    DeliversWhenComplete(R, h, S.txid, data, start, ms);
    var R' := Play(OnXmit(R, h, XmitOf(h, S.txid, data), start), h, ms);
    var f := FullAck(R', R.hist.delivered, S.txid, data);
    forall T: State, at: Time | Queued(T, S.txid, data)
      ensures Completes(T, S.txid, f.packet, at)
    {
      AckCompletes(T, S.txid, data, f.packet, at);
    }
  }
}
