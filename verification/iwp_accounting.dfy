/** Accounting of one IWP session over any run, whatever packets reach it: statistics,
    completion handlers, the send queue, and the replay filter. */
module IwpAccounting {
  import opened Common
  import opened IwpMessages
  import opened IwpSession
  import opened IwpNetwork

  /** A run of one session: any actions, any packets, a clock that does not go back. Where the code
      would throw on a DATA packet, or send more bytes than the bit set covers, the run goes on as the
      transition functions say; runs without such packets and messages are among these. */
  ghost predicate IsSessionRun(h: Hasher, run: seq<State>, acts: seq<Action>, times: seq<Time>)
  {
    && |run| == |times| == |acts| + 1
    && run[0] == InitialState
    && forall i :: 0 <= i < |acts| ==> times[i] <= times[i + 1] && run[i + 1] == Act(h, run[i], acts[i], times[i + 1])
  }

  // ----- statistics and completion handlers

  ghost function Fated(s: State, fate: Fate): set<nat>
  {
    set id | id in s.hist.fate && s.hist.fate[id] == fate
  }

  /** Each submitted id is in the queue or has met its fate, not both. */
  ghost predicate Placed(s: State)
  {
    && (forall id: nat :: id in s.hist.submitted <==> id < s.txid)
    && (forall id :: id in s.hist.submitted <==> id in s.tx || id in s.hist.fate)
    && (forall id :: id in s.tx ==> id !in s.hist.fate
                                    && s.tx[id].hasHandler == s.hist.submitted[id].hasHandler)
  }

  /** The counters count the fates; a message that ACKS completed stays in flight. */
  ghost predicate Counted(s: State)
  {
    && s.stats.acked == |Fated(s, ByMack)|
    && s.stats.dropped == |Fated(s, ByTimeout)|
    && s.stats.inFlight == |s.tx| + |Fated(s, ByAcks)|
    && |s.tx| <= MAX_SEND_QUEUE_SIZE
  }

  /** What the handler of a submitted message has been told so far. */
  ghost function ExpectedCalls(s: State, id: nat): seq<DeliveryStatus>
    requires id in s.hist.submitted
  {
    if id !in s.hist.fate || !s.hist.submitted[id].hasHandler then []
    else if s.hist.fate[id] == ByTimeout then [Dropped]
    else [Success]
  }

  ghost predicate Called(s: State)
  {
    && s.hist.calls.Keys == s.hist.submitted.Keys
    && forall id :: id in s.hist.submitted ==> s.hist.calls[id] == ExpectedCalls(s, id)
  }

  ghost predicate Accounted(s: State)
  {
    Placed(s) && Counted(s) && Called(s)
  }

  lemma SizeOfMinus<V>(m: map<nat, V>, ids: set<nat>)
    requires ids <= m.Keys
    ensures |m - ids| == |m| - |ids|
  {
    assert (m - ids).Keys == m.Keys - ids;
    assert |m.Keys| == |m.Keys - ids| + |ids|;
    assert |m - ids| == |(m - ids).Keys|;
    assert |m| == |m.Keys|;
  }

  /** Retiring queued messages moves them between the counted sets. */
  lemma RetireCounts(s: State, ids: set<nat>, fate: Fate)
    requires Placed(s) && ids <= s.tx.Keys
    ensures var s' := Retire(s, ids, fate);
            && |s'.tx| == |s.tx| - |ids|
            && (forall k :: |Fated(s', k)| == |Fated(s, k)| + if k == fate then |ids| else 0)
  {
    SizeOfMinus(s.tx, ids);
    forall k
      ensures |Fated(Retire(s, ids, fate), k)| == |Fated(s, k)| + if k == fate then |ids| else 0
    {
      RetireFated(s, ids, fate, k);
    }
  }

  lemma RetireFated(s: State, ids: set<nat>, fate: Fate, k: Fate)
    requires Placed(s) && ids <= s.tx.Keys
    ensures |Fated(Retire(s, ids, fate), k)| == |Fated(s, k)| + if k == fate then |ids| else 0
  {
    hide CallHandlers, Fated, Retire;
    NewlyFated(s, ids, fate, k);
  }

  lemma NewlyFated(s: State, ids: set<nat>, fate: Fate, k: Fate)
    requires forall id :: id in ids ==> id !in s.hist.fate
    ensures Fated(s, k) !! ids
    ensures Fated(Retire(s, ids, fate), k) == if k == fate then Fated(s, k) + ids else Fated(s, k)
  {
    hide CallHandlers;
    var fates := map id | id in ids :: fate;
    assert Retire(s, ids, fate).hist.fate == s.hist.fate + fates;
  }

  lemma RetireKeeps(s: State, ids: set<nat>, fate: Fate)
    requires Placed(s) && Called(s) && ids <= s.tx.Keys
    ensures Placed(Retire(s, ids, fate)) && Called(Retire(s, ids, fate))
  {
    hide Placed, Called;
    RetireKeepsPlaced(s, ids, fate);
    RetireKeepsCalled(s, ids, fate);
  }

  lemma RetireKeepsPlaced(s: State, ids: set<nat>, fate: Fate)
    requires Placed(s) && ids <= s.tx.Keys
    ensures Placed(Retire(s, ids, fate))
  {
    hide CallHandlers;
  }

  lemma RetireKeepsCalled(s: State, ids: set<nat>, fate: Fate)
    requires Placed(s) && Called(s) && ids <= s.tx.Keys
    ensures Called(Retire(s, ids, fate))
  {
    hide Placed;
    var s' := Retire(s, ids, fate);
    forall id | id in s.hist.submitted
      ensures s'.hist.calls[id] == ExpectedCalls(s', id)
    {
      if id in ids { QueuedIsPending(s, id); }
    }
  }

  lemma QueuedIsPending(s: State, id: nat)
    requires Placed(s) && id in s.tx
    ensures id !in s.hist.fate && id in s.hist.submitted && s.tx[id].hasHandler == s.hist.submitted[id].hasHandler
  {
  }

  /** An action that leaves the queued ids and the history of messages alone. */
  lemma SameBooks(s: State, s': State)
    requires Accounted(s)
    requires s'.txid == s.txid && s'.stats == s.stats && s'.tx.Keys == s.tx.Keys
    requires s'.hist.submitted == s.hist.submitted && s'.hist.fate == s.hist.fate && s'.hist.calls == s.hist.calls
    requires forall id :: id in s.tx ==> s'.tx[id].hasHandler == s.tx[id].hasHandler
    ensures Accounted(s')
  {
    assert |s'.tx| == |s'.tx.Keys| == |s.tx.Keys| == |s.tx|;
    assert forall k :: Fated(s', k) == Fated(s, k);
  }

  lemma SendAccounted(s: State, h: Hasher, data: Bytes, hasHandler: bool, now: Time)
    requires Accounted(s)
    ensures Accounted(SendMessage(s, h, data, hasHandler, now))
  {
    hide Accounted, UnackedPackets;
    if !QueueFull(s) {
      var m := NewOutbound(h, s.txid, data, now, hasHandler);
      var s1 := s.(txid := s.txid + 1, tx := s.tx[s.txid := m],
                   stats := s.stats.(inFlight := s.stats.inFlight + 1),
                   hist := s.hist.(submitted := s.hist.submitted[s.txid := Submission(data, hasHandler, now)],
                                   calls := s.hist.calls[s.txid := []]));
      AcceptAccounted(s, s1, m);
      EmitAccounted(s1, {XmitPacket(m)} + (if |data| > FRAGMENT_SIZE then UnackedPackets(m) else {}), now);
    }
  }

  lemma AcceptAccounted(s: State, s1: State, m: OutboundMessage)
    requires Accounted(s) && !QueueFull(s)
    requires s1.txid == s.txid + 1 && s1.tx == s.tx[s.txid := m]
    requires s1.stats == s.stats.(inFlight := s.stats.inFlight + 1)
    requires s1.hist.submitted == s.hist.submitted[s.txid := Submission(m.data, m.hasHandler, m.startedAt)]
    requires s1.hist.calls == s.hist.calls[s.txid := []] && s1.hist.fate == s.hist.fate
    ensures Accounted(s1)
  {
    hide Called, Fated;
    assert s.txid !in s.hist.submitted;
    assert s.txid !in s.tx && s.txid !in s.hist.fate;
    SizeOfMinus(s1.tx, {s.txid});
    assert s1.tx - {s.txid} == s.tx;
    FatedSame(s, s1);
    AcceptPlaced(s, s1, m);
    AcceptCalled(s, s1, m);
  }

  lemma FatedSame(s: State, s': State)
    requires s'.hist.fate == s.hist.fate
    ensures forall k :: Fated(s', k) == Fated(s, k)
  {
  }

  lemma AcceptPlaced(s: State, s1: State, m: OutboundMessage)
    requires Placed(s)
    requires s1.txid == s.txid + 1 && s1.tx == s.tx[s.txid := m] && s1.hist.fate == s.hist.fate
    requires s1.hist.submitted == s.hist.submitted[s.txid := Submission(m.data, m.hasHandler, m.startedAt)]
    ensures Placed(s1)
  {
  }

  lemma AcceptCalled(s: State, s1: State, m: OutboundMessage)
    requires Placed(s) && Called(s)
    requires s1.hist.submitted == s.hist.submitted[s.txid := Submission(m.data, m.hasHandler, m.startedAt)]
    requires s1.hist.calls == s.hist.calls[s.txid := []] && s1.hist.fate == s.hist.fate
    ensures Called(s1)
  {
  }

  lemma EmitAccounted(s: State, packets: set<Packet>, now: Time)
    requires Accounted(s)
    ensures Accounted(Emit(s, packets, now))
  {
    hide Accounted;
    SameBooks(s, Emit(s, packets, now));
  }

  /** Retiring with the matching change of the counters keeps the books. */
  lemma RetireAccounted(s: State, ids: set<nat>, fate: Fate, stats: Stats)
    requires Accounted(s) && ids <= s.tx.Keys
    requires stats == match fate
                      case ByAcks => s.stats
                      case ByMack => s.stats.(acked := s.stats.acked + |ids|, inFlight := s.stats.inFlight - |ids|)
                      case ByTimeout => s.stats.(dropped := s.stats.dropped + |ids|,
                                                 inFlight := s.stats.inFlight - |ids|)
    ensures Accounted(Retire(s.(stats := stats), ids, fate))
  {
    hide Retire, Fated;
    var s1 := s.(stats := stats);
    FatedSame(s, s1);
    RetireCounts(s1, ids, fate);
    RetireKeeps(s1, ids, fate);
    RetireStats(s1, ids, fate);
  }

  lemma RetireStats(s: State, ids: set<nat>, fate: Fate)
    ensures Retire(s, ids, fate).stats == s.stats
  {
  }

  lemma MackOneAccounted(s: State, id: nat)
    requires Accounted(s)
    ensures Accounted(MackOne(s, id))
  {
    hide Accounted;
    if id in s.tx {
      RetireAccounted(s, {id}, ByMack, s.stats.(acked := s.stats.acked + 1, inFlight := s.stats.inFlight - 1));
    }
  }

  lemma {:induction false} MackAccounted(s: State, ids: seq<nat>)
    requires Accounted(s)
    ensures Accounted(OnMack(s, ids))
    decreases |ids|
  {
    hide Accounted, MackOne;
    if ids != [] {
      MackOneAccounted(s, ids[0]);
      MackAccounted(MackOne(s, ids[0]), ids[1..]);
    }
  }

  lemma AcksAccounted(s: State, p: Packet, now: Time)
    requires Accounted(s) && p.Acks?
    ensures Accounted(OnAcks(s, p, now))
  {
    hide Accounted, Retire, AllMarked;
    if p.id in s.tx {
      var m := s.tx[p.id].(acks := p.mask);
      if AllMarked(m.acks, |m.data|) {
        RetireAccounted(s, {p.id}, ByAcks, s.stats);
        assert s.(stats := s.stats) == s;
      } else {
        SameBooks(s, OnAcks(s, p, now));
      }
    }
  }

  lemma TickAccounted(s: State, now: Time)
    requires Accounted(s)
    ensures Accounted(Tick(s, now))
  {
    hide Accounted, Retire;
    var dead := TxDead(s, now);
    RetireAccounted(s, dead, ByTimeout,
                    s.stats.(dropped := s.stats.dropped + |dead|, inFlight := s.stats.inFlight - |dead|));
    SameBooks(DropOutbound(s, now), ForgetInbound(DropOutbound(s, now), now));
  }

  lemma FragmentAccounted(h: Hasher, s: State, p: Packet, now: Time)
    requires Accounted(s) && (p.Xmit? || p.Data?)
    ensures Accounted(if p.Xmit? then OnXmit(s, h, p, now) else OnData(s, h, p, now))
  {
    hide OnXmit, OnData, Accounted;
    if p.Xmit? {
      XmitFrame(s, h, p, now);
      SameBooks(s, OnXmit(s, h, p, now));
    } else {
      DataFrame(s, h, p, now);
      SameBooks(s, OnData(s, h, p, now));
    }
  }

  lemma ActAccounted(h: Hasher, s: State, act: Action, now: Time)
    requires Accounted(s)
    ensures Accounted(Act(h, s, act, now))
  {
    hide OnXmit, OnData, OnMack, OnAcks, Tick, SendMessage, Accounted;
    match act
    case Send(data, hasHandler) => SendAccounted(s, h, data, hasHandler, now);
    case DoPump => SameBooks(s, Pump(s, now));
    case DoTick => TickAccounted(s, now);
    case FlushMacks => SameBooks(s, SendMacks(s, now));
    case Receive(f) =>
      var p := f.packet;
      if p.Acks? { AcksAccounted(s, p, now); }
      else if p.Mack? { MackAccounted(s, p.ids); }
      else if p.Nack? { SameBooks(s, OnNack(s, p, now)); }
      else if p.Xmit? || p.Data? { FragmentAccounted(h, s, p, now); }
  }

  lemma InitialAccounted()
    ensures Accounted(InitialState)
  {
    assert forall f :: Fated(InitialState, f) == {};
  }

  lemma {:induction false} RunAccounted(h: Hasher, run: seq<State>, acts: seq<Action>, times: seq<Time>, k: nat)
    requires IsSessionRun(h, run, acts, times) && k < |run|
    ensures Accounted(run[k])
    decreases k
  {
    hide Accounted, Act;
    if k == 0 {
      InitialAccounted();
    } else {
      RunAccounted(h, run, acts, times, k - 1);
      ActAccounted(h, run[k - 1], acts[k - 1], times[k]);
    }
  }

  lemma {:induction false} SizeOfInitialSegment(ids: set<nat>, n: nat)
    requires forall id: nat :: id in ids <==> id < n
    ensures |ids| == n
    decreases n
  {
    if n == 0 {
      assert ids == {};
    } else {
      SizeOfInitialSegment(ids - {n - 1}, n - 1);
    }
  }

  lemma DisjointSizes(q: set<nat>, a: set<nat>, m: set<nat>, t: set<nat>)
    requires q !! a !! m !! t
    ensures |q + (a + (m + t))| == |q| + |a| + |m| + |t|
  {
    assert |m + t| == |m| + |t|;
    assert |a + (m + t)| == |a| + |m + t|;
    assert |q + (a + (m + t))| == |q| + |a + (m + t)|;
  }

  lemma FatesCover(s: State)
    requires Placed(s)
    ensures s.hist.submitted.Keys == s.tx.Keys + (Fated(s, ByAcks) + (Fated(s, ByMack) + Fated(s, ByTimeout)))
  {
    forall id | id in s.hist.fate
      ensures s.hist.fate[id] == ByAcks || s.hist.fate[id] == ByMack || s.hist.fate[id] == ByTimeout
    {
      match s.hist.fate[id]
      case ByAcks =>
      case ByMack =>
      case ByTimeout =>
    }
  }

  lemma FatesDisjoint(s: State)
    requires Placed(s)
    ensures s.tx.Keys !! Fated(s, ByAcks) !! Fated(s, ByMack) !! Fated(s, ByTimeout)
  {
  }

  lemma BooksBalance(s: State)
    requires Accounted(s)
    ensures s.stats.acked + s.stats.dropped + s.stats.inFlight == s.txid
  {
    SizeOfInitialSegment(s.hist.submitted.Keys, s.txid);
    FatesCover(s);
    FatesDisjoint(s);
    hide Fated, Called;
    DisjointSizes(s.tx.Keys, Fated(s, ByAcks), Fated(s, ByMack), Fated(s, ByTimeout));
    assert |s.tx| == |s.tx.Keys|;
  }

  /** In every run the three counters add up to the number of accepted messages, the in-flight
      counter is off from the queue length by exactly the messages that ACKS completed, queued
      ids are below the next id, and the queue is bounded. */
  lemma StatsAddUp(h: Hasher, run: seq<State>, acts: seq<Action>, times: seq<Time>, k: nat)
    requires IsSessionRun(h, run, acts, times) && k < |run|
    ensures var s := run[k];
            && s.stats.acked + s.stats.dropped + s.stats.inFlight == s.txid
            && s.stats.inFlight - |s.tx| == |Fated(s, ByAcks)|
            && (forall id :: id in s.tx ==> id < s.txid)
            && |s.tx| <= MAX_SEND_QUEUE_SIZE
  {
    hide Act, Fated;
    RunAccounted(h, run, acts, times, k);
    BooksBalance(run[k]);
  }

  /** A message sent and then acknowledged through ACKS leaves the queue, not the counter. */
  lemma AckedStaysInFlight(h: Hasher, t: Time)
    ensures var first := Act(h, InitialState, Send([0], false), t);
            var last := Act(h, first, Receive(Flight(Acks(0, {0}), t)), t);
            IsSessionRun(h, [InitialState, first, last], [Send([0], false), Receive(Flight(Acks(0, {0}), t))],
                         [t, t, t])
            && last.tx == map[] && last.stats.inFlight == 1
  {
    hide SendMessage, OnAcks;
    FirstSent(h, t);
    FirstAcked(SendMessage(InitialState, h, [0], false, t), t);
  }

  lemma FirstSent(h: Hasher, t: Time)
    ensures var s := SendMessage(InitialState, h, [0], false, t);
            s.tx.Keys == {0} && |s.tx[0].data| == 1 && s.stats.inFlight == 1
  {
  }

  lemma FirstAcked(s: State, t: Time)
    requires s.tx.Keys == {0} && |s.tx[0].data| == 1
    ensures var s' := OnAcks(s, Acks(0, {0}), t); s'.tx == map[] && s'.stats == s.stats
  {
  }

  /** In every run the completion handler of a message has run exactly once if the message has
      left the queue and not at all while it is queued; it reports a drop exactly for timeouts. */
  lemma HandlerRunsOnce(h: Hasher, run: seq<State>, acts: seq<Action>, times: seq<Time>, k: nat, id: nat)
    requires IsSessionRun(h, run, acts, times) && k < |run|
    requires id < run[k].txid
    ensures var s := run[k];
            && id in s.hist.submitted && id in s.hist.calls
            && (s.hist.submitted[id].hasHandler ==> |s.hist.calls[id]| == if id in s.tx then 0 else 1)
            && (!s.hist.submitted[id].hasHandler ==> s.hist.calls[id] == [])
            && (id !in s.tx ==> id in s.hist.fate)
            && (id !in s.tx && s.hist.submitted[id].hasHandler ==>
                 s.hist.calls[id] == [if s.hist.fate[id] == ByTimeout then Dropped else Success])
  {
    hide Act, Counted;
    RunAccounted(h, run, acts, times, k);
  }

  // ----- replay filter

  ghost predicate LatestBefore(ds: seq<Delivery>, id: nat, t: int)
  {
    forall d :: d in ds && d.id == id ==> d.at <= t
  }

  ghost predicate Spaced(ds: seq<Delivery>)
  {
    forall i, j :: 0 <= i < j < |ds| && ds[i].id == ds[j].id ==> ds[i].at + REPLAY_WINDOW <= ds[j].at
  }

  /** The filter covers every delivery of the last REPLAY_WINDOW. */
  ghost predicate FilterInv(s: State, now: Time)
  {
    && (forall id :: id in s.rx ==> s.rx[id].id == id && id !in s.replay)
    && (forall id :: id in s.replay ==> s.replay[id] <= now && LatestBefore(s.hist.delivered, id, s.replay[id]))
    && (forall d :: d in s.hist.delivered ==> d.at <= now)
    && (forall id: nat :: id !in s.replay ==> LatestBefore(s.hist.delivered, id, now - REPLAY_WINDOW))
    && Spaced(s.hist.delivered)
  }

  lemma StoreKeepsFilter(s: State, h: Hasher, id: nat, m: InboundMessage, now: Time)
    requires FilterInv(s, now) && m.id == id && id !in s.replay
    ensures FilterInv(StoreInbound(s, h, id, m, now), now)
  {
    hide AllMarked, Spaced, LatestBefore;
    if AllMarked(m.acks, |m.data|) && Verifies(h, m) {
      DeliverKeepsFilter(s, id, m, now);
    }
  }

  lemma DeliverKeepsFilter(s: State, id: nat, m: InboundMessage, now: Time)
    requires FilterInv(s, now) && m.id == id && id !in s.replay
    ensures FilterInv(RecvCompleted(s.(rx := s.rx[id := m]), m, now), now)
  {
    hide Spaced, LatestBefore;
    var s' := RecvCompleted(s.(rx := s.rx[id := m]), m, now);
    var ds, d := s.hist.delivered, Delivery(id, m.data, now);
    assert s'.hist.delivered == ds + [d];
    assert LatestBefore(ds, id, now - REPLAY_WINDOW);
    SpacedSnoc(ds, d);
    forall k: nat, t: int | LatestBefore(ds, k, t) && (k == id ==> now <= t)
      ensures LatestBefore(ds + [d], k, t)
    {
      LatestSnoc(ds, d, k, t);
    }
    LatestLater(ds, id, now - REPLAY_WINDOW, now);
  }

  lemma SpacedSnoc(ds: seq<Delivery>, d: Delivery)
    requires Spaced(ds) && LatestBefore(ds, d.id, d.at - REPLAY_WINDOW)
    ensures Spaced(ds + [d])
  {
    forall i | 0 <= i < |ds| && ds[i].id == d.id
      ensures ds[i].at + REPLAY_WINDOW <= d.at
    {
      assert ds[i] in ds;
    }
  }

  lemma LatestSnoc(ds: seq<Delivery>, d: Delivery, id: nat, t: int)
    requires LatestBefore(ds, id, t) && (d.id == id ==> d.at <= t)
    ensures LatestBefore(ds + [d], id, t)
  {
  }

  lemma LatestLater(ds: seq<Delivery>, id: nat, t: int, later: int)
    requires LatestBefore(ds, id, t) && t <= later
    ensures LatestBefore(ds, id, later)
  {
  }

  lemma FilterLater(s: State, now: Time, later: Time)
    requires FilterInv(s, now) && now <= later
    ensures FilterInv(s, later)
  {
  }

  lemma TickKeepsFilter(s: State, now: Time)
    requires FilterInv(s, now)
    ensures FilterInv(Tick(s, now), now)
  {
    var s' := Tick(s, now);
    forall id: nat | id !in s'.replay
      ensures LatestBefore(s'.hist.delivered, id, now - REPLAY_WINDOW)
    {
      if id in s.replay { assert LatestBefore(s.hist.delivered, id, s.replay[id]); }
    }
  }

  lemma FragmentKeepsFilter(h: Hasher, s: State, p: Packet, now: Time)
    requires FilterInv(s, now) && (p.Xmit? || p.Data?)
    ensures FilterInv(if p.Xmit? then OnXmit(s, h, p, now) else OnData(s, h, p, now), now)
  {
    hide StoreInbound, LatestBefore, Spaced;
    if p.Xmit? {
      var m := NewInbound(p.id, p.size, p.digest, now);
      if p.id !in s.replay { StoreKeepsFilter(s, h, p.id, HandleData(m, 0, p.data, now), now); }
    } else if p.id in s.rx {
      StoreKeepsFilter(s, h, p.id, HandleData(s.rx[p.id], p.idx, p.data, now), now);
    }
  }

  /** An action that neither files fragments nor ages the filter. */
  lemma FilterSame(s: State, s': State, now: Time)
    requires FilterInv(s, now)
    requires s'.replay == s.replay && s'.hist.delivered == s.hist.delivered && s'.rx.Keys == s.rx.Keys
    requires forall id :: id in s.rx ==> s'.rx[id].id == s.rx[id].id
    ensures FilterInv(s', now)
  {
  }

  lemma ActKeepsFilter(h: Hasher, s: State, act: Action, now: Time, later: Time)
    requires FilterInv(s, now) && now <= later
    ensures FilterInv(Act(h, s, act, later), later)
  {
    hide OnXmit, OnData, OnMack, Tick, FilterInv, AllMarked, Retire;
    FilterLater(s, now, later);
    match act
    case DoTick => TickKeepsFilter(s, later);
    case Receive(f) =>
      var p := f.packet;
      if p.Xmit? || p.Data? { FragmentKeepsFilter(h, s, p, later); }
      else if p.Mack? { OnMackFrame(s, p.ids); FilterSame(s, OnMack(s, p.ids), later); }
      else if p.Acks? { AcksFrame(s, p, later); FilterSame(s, OnAcks(s, p, later), later); }
      else { FilterSame(s, Act(h, s, act, later), later); }
    case _ => FilterSame(s, Act(h, s, act, later), later);
  }

  lemma AcksFrame(s: State, p: Packet, now: Time)
    requires p.Acks?
    ensures var s' := OnAcks(s, p, now);
            s'.rx == s.rx && s'.replay == s.replay && s'.hist.delivered == s.hist.delivered
  {
  }

  lemma {:induction false} RunKeepsFilter(h: Hasher, run: seq<State>, acts: seq<Action>, times: seq<Time>, k: nat)
    requires IsSessionRun(h, run, acts, times) && k < |run|
    ensures FilterInv(run[k], times[k])
    decreases k
  {
    hide Act;
    if k > 0 {
      RunKeepsFilter(h, run, acts, times, k - 1);
      ActKeepsFilter(h, run[k - 1], acts[k - 1], times[k - 1], times[k]);
    }
  }

  /** In every run, whatever arrives, two deliveries of one id are at least REPLAY_WINDOW apart,
      and no id is both in progress and in the replay filter. */
  lemma DeliveriesSpaced(h: Hasher, run: seq<State>, acts: seq<Action>, times: seq<Time>, k: nat)
    requires IsSessionRun(h, run, acts, times) && k < |run|
    ensures Spaced(run[k].hist.delivered)
    ensures run[k].rx.Keys !! run[k].replay.Keys
  {
    RunKeepsFilter(h, run, acts, times, k);
  }

  // ----- at most once

  /** When the session last ticked, or when the run began. */
  function LastTick(run: seq<System>, events: seq<Event>, atA: bool, k: nat): Time
    requires |run| == |events| + 1 && k < |run|
  {
    if k == 0 then run[0].now
    else if events[k - 1].atA == atA && events[k - 1].act.DoTick? then run[k].now
    else LastTick(run, events, atA, k - 1)
  }

  /** A run in which packets arrive within maxDelay, and whenever a session does something its last
      tick is at most period ago. */
  ghost predicate IsTimelyRun(h: Hasher, run: seq<System>, events: seq<Event>, period: Time, maxDelay: Time)
  {
    && IsRun(h, run, events)
    && (forall i :: 0 <= i < |events| && events[i].act.Receive? ==>
          run[i + 1].now <= events[i].act.flight.at + maxDelay)
    && (forall i :: 0 <= i < |events| ==> run[i + 1].now <= LastTick(run, events, events[i].atA, i) + period)
  }

  /** What is queued was not timed out at this tick, or came later. */
  ghost predicate QueuedSince(s: State, tick: Time)
  {
    forall id :: id in s.tx ==> tick <= s.tx[id].startedAt + DELIVERY_TIMEOUT
  }

  /** Nothing comes back into the queue. */
  lemma QueueShrinks(h: Hasher, s: State, act: Action, now: Time)
    ensures forall id :: id in Act(h, s, act, now).tx ==> id in s.tx || (act.Send? && id == s.txid)
  {
    hide OnXmit, OnData, OnMack, AllMarked;
    if act.Receive? {
      var p := act.flight.packet;
      if p.Mack? { OnMackFrame(s, p.ids); }
      else if p.Xmit? { XmitFrame(s, h, p, now); }
      else if p.Data? { DataFrame(s, h, p, now); }
    }
  }

  lemma ActKeepsQueued(h: Hasher, s: State, act: Action, tick: Time, now: Time)
    requires SenderInv(h, s) && QueuedSince(s, tick) && tick <= now && (act.Send? ==> |act.data| <= MAX_LINK_MSG_SIZE)
    ensures QueuedSince(Act(h, s, act, now), if act.DoTick? then now else tick)
  {
    if act.DoTick? {
      TickDrops(s, now);
    } else {
      hide Act, CarriesMessage;
      QueueShrinks(h, s, act, now);
      SubmittedNow(h, s, act, now);
      SenderKeeps(h, s, act, now);
    }
  }

  lemma TickDrops(s: State, now: Time)
    ensures QueuedSince(Tick(s, now), now)
  {
    hide CallHandlers, Decay, Remember, RxDead;
  }

  lemma LastTickBefore(h: Hasher, run: seq<System>, events: seq<Event>, atA: bool, k: nat)
    requires IsRun(h, run, events) && k < |run|
    ensures LastTick(run, events, atA, k) <= run[k].now
  {
    hide Act;
    if k > 0 {
      LastTickBefore(h, run, events, atA, k - 1);
      assert Step(h, run[k - 1], run[k], events[k - 1].atA, events[k - 1].act);
    }
  }

  lemma {:induction false} RunKeepsQueued(h: Hasher, run: seq<System>, events: seq<Event>, atA: bool, k: nat)
    requires IsRun(h, run, events) && k < |run|
    ensures QueuedSince(if atA then run[k].a else run[k].b, LastTick(run, events, atA, k))
    decreases k
  {
    hide Act, SenderInv, ReceiverInv, OutcomesHonest, QueuedSince;
    if k > 0 {
      var s, e := run[k - 1], events[k - 1];
      RunKeepsQueued(h, run, events, atA, k - 1);
      RunKeepsInv(h, run, events, k - 1);
      LastTickBefore(h, run, events, atA, k - 1);
      assert Step(h, s, run[k], e.atA, e.act);
      if e.atA == atA {
        ActKeepsQueued(h, if atA then s.a else s.b, e.act, LastTick(run, events, atA, k - 1), run[k].now);
      }
    } else {
      NothingQueued();
    }
  }

  lemma NothingQueued()
    ensures forall t :: QueuedSince(InitialState, t)
  {
  }

  /** Ticks keep the queue young: no message is older than the delivery timeout plus the time between
      two ticks when its session does something. */
  lemma TimelyIsPrompt(h: Hasher, run: seq<System>, events: seq<Event>, period: Time, maxDelay: Time)
    requires IsTimelyRun(h, run, events, period, maxDelay)
    ensures IsPromptRun(h, run, events, DELIVERY_TIMEOUT + period, maxDelay)
  {
    hide Act;
    forall i | 0 <= i < |events|
      ensures PromptStep(h, run[i], run[i + 1], events[i], DELIVERY_TIMEOUT + period, maxDelay)
    {
      RunKeepsQueued(h, run, events, events[i].atA, i);
    }
  }

  /** Steps of a network whose packets arrive within maxDelay, between sessions that drop a
      message before it is older than lifetime. */
  ghost predicate PromptStep(h: Hasher, s: System, s': System, e: Event, lifetime: Time, maxDelay: Time)
  {
    && Step(h, s, s', e.atA, e.act)
    && (e.act.Receive? ==> s'.now <= e.act.flight.at + maxDelay)
    && (var S := if e.atA then s.a else s.b;
        e.act.DoTick? || forall id :: id in S.tx ==> s'.now <= S.tx[id].startedAt + lifetime)
  }

  ghost predicate IsPromptRun(h: Hasher, run: seq<System>, events: seq<Event>, lifetime: Time, maxDelay: Time)
  {
    && IsRun(h, run, events)
    && forall i :: 0 <= i < |events| ==> PromptStep(h, run[i], run[i + 1], events[i], lifetime, maxDelay)
  }

  /** Fragments of S leave while the message is young. */
  ghost predicate SentYoung(S: State, now: Time, lifetime: Time)
  {
    && (forall id :: id in S.hist.submitted ==> S.hist.submitted[id].startedAt <= now)
    && forall f :: f in S.hist.sent && (f.packet.Xmit? || f.packet.Data?) && f.packet.id in S.hist.submitted ==>
         f.at <= S.hist.submitted[f.packet.id].startedAt + lifetime
  }

  /** Deliveries at R happen while the message is young enough. */
  ghost predicate DeliveredYoung(S: State, R: State, bound: Time)
  {
    forall d :: d in R.hist.delivered && d.id in S.hist.submitted ==>
      S.hist.submitted[d.id].startedAt <= d.at <= S.hist.submitted[d.id].startedAt + bound
  }

  lemma MacksFrame(s: State, now: Time)
    ensures forall f :: f in SendMacks(s, now).hist.sent && f !in s.hist.sent ==> f.packet.Mack?
  {
  }

  lemma AcksSends(s: State, p: Packet, now: Time, f: Flight)
    requires p.Acks? && f in OnAcks(s, p, now).hist.sent && f !in s.hist.sent
    requires forall id :: id in s.tx ==> s.tx[id].id == id
    ensures f.at == now && f.packet.Data? && f.packet.id in s.tx
  {
    hide AllMarked;
  }

  lemma NewReplyFragments(h: Hasher, S: State, p: Packet, now: Time, f: Flight)
    requires forall id :: id in S.tx ==> S.tx[id].id == id
    requires var S' := Act(h, S, Receive(Flight(p, now)), now);
             f in S'.hist.sent && f !in S.hist.sent && (f.packet.Xmit? || f.packet.Data?)
    ensures f.at == now && f.packet.id in S.tx
  {
    hide OnXmit, OnData, OnMack, OnAcks;
    if p.Mack? { OnMackFrame(S, p.ids); }
    else if p.Xmit? { XmitFrame(S, h, p, now); }
    else if p.Data? { DataFrame(S, h, p, now); }
    else if p.Acks? { AcksSends(S, p, now, f); }
  }

  /** A session's new XMIT and DATA packets belong to queued or just submitted messages. */
  lemma NewFragments(h: Hasher, S: State, act: Action, now: Time, f: Flight)
    requires forall id :: id in S.tx ==> S.tx[id].id == id
    requires var S' := Act(h, S, act, now);
             f in S'.hist.sent && f !in S.hist.sent && (f.packet.Xmit? || f.packet.Data?)
    ensures f.at == now && !act.DoTick?
    ensures f.packet.id in S.tx || (act.Send? && f.packet.id == S.txid)
  {
    match act
    case FlushMacks => hide Pump, SendMacks; MacksFrame(S, now);
    case DoPump => hide Pump; PumpSends(S, now);
    case Receive(g) => hide OnXmit, OnData, OnMack, OnAcks; NewReplyFragments(h, S, g.packet, now, f);
    case _ =>
  }

  lemma SentYoungKept(h: Hasher, S: State, act: Action, before: Time, now: Time, lifetime: Time)
    requires SenderInv(h, S) && before <= now && SentYoung(S, before, lifetime)
    requires act.DoTick? || forall id :: id in S.tx ==> now <= S.tx[id].startedAt + lifetime
    ensures SentYoung(Act(h, S, act, now), now, lifetime)
  {
    hide Act;
    var S' := Act(h, S, act, now);
    ActGrows(h, S, act, now);
    SubmittedNow(h, S, act, now);
    forall f | f in S'.hist.sent && (f.packet.Xmit? || f.packet.Data?) && f.packet.id in S'.hist.submitted
      ensures f.at <= S'.hist.submitted[f.packet.id].startedAt + lifetime
    {
      if f in S.hist.sent {
        assert CarriesMessage(h, S, f.packet);
      } else {
        NewFragments(h, S, act, now, f);
      }
    }
  }

  lemma SubmittedNow(h: Hasher, S: State, act: Action, now: Time)
    ensures var S' := Act(h, S, act, now);
            forall id :: id in S'.hist.submitted ==>
              (act.Send? && id == S.txid && S'.hist.submitted[id].startedAt == now)
              || (id in S.hist.submitted && S'.hist.submitted[id] == S.hist.submitted[id])
  {
    hide OnXmit, OnData, OnMack, AllMarked;
    if act.Receive? {
      var p := act.flight.packet;
      if p.Mack? { OnMackFrame(S, p.ids); }
      else if p.Xmit? { XmitFrame(S, h, p, now); }
      else if p.Data? { DataFrame(S, h, p, now); }
    }
  }

  /** A new delivery comes from a fragment of the same message received now. */
  lemma NewDelivery(h: Hasher, R: State, act: Action, now: Time, d: Delivery)
    requires forall id :: id in R.rx ==> R.rx[id].id == id
    requires d in Act(h, R, act, now).hist.delivered && d !in R.hist.delivered
    ensures d.at == now && act.Receive?
    ensures (act.flight.packet.Xmit? || act.flight.packet.Data?) && act.flight.packet.id == d.id
  {
    hide OnXmit, OnData, OnMack, AllMarked;
    if act.Receive? {
      var p := act.flight.packet;
      if p.Mack? { OnMackFrame(R, p.ids); }
      else if p.Xmit? { XmitFrame(R, h, p, now); }
      else if p.Data? { DataFrame(R, h, p, now); }
    }
  }

  ghost predicate YoungInv(h: Hasher, S: State, R: State, now: Time, lifetime: Time, maxDelay: Time)
  {
    SentYoung(S, now, lifetime) && DeliveredYoung(S, R, lifetime + maxDelay) && FilterInv(R, now)
  }

  lemma YoungKeptBySender(h: Hasher, S: State, R: State, act: Action, before: Time, now: Time,
                          lifetime: Time, maxDelay: Time)
    requires DirectionInv(h, S, R) && before <= now && YoungInv(h, S, R, before, lifetime, maxDelay)
    requires act.DoTick? || forall id :: id in S.tx ==> now <= S.tx[id].startedAt + lifetime
    ensures YoungInv(h, Act(h, S, act, now), R, now, lifetime, maxDelay)
  {
    hide Act;
    SentYoungKept(h, S, act, before, now, lifetime);
    ActGrows(h, S, act, now);
    FilterLater(R, before, now);
    var S' := Act(h, S, act, now);
    forall d | d in R.hist.delivered && d.id in S'.hist.submitted
      ensures S'.hist.submitted[d.id].startedAt <= d.at <= S'.hist.submitted[d.id].startedAt + lifetime + maxDelay
    {
      assert DeliveredMatches(S, d);
    }
  }

  lemma YoungKeptByReceiver(h: Hasher, S: State, R: State, act: Action, before: Time, now: Time,
                            lifetime: Time, maxDelay: Time)
    requires SenderInv(h, S) && before <= now && YoungInv(h, S, R, before, lifetime, maxDelay)
    requires Allowed(S, act) && (act.Receive? ==> now <= act.flight.at + maxDelay)
    ensures YoungInv(h, S, Act(h, R, act, now), now, lifetime, maxDelay)
  {
    hide Act;
    ActKeepsFilter(h, R, act, before, now);
    var R' := Act(h, R, act, now);
    forall d | d in R'.hist.delivered && d.id in S.hist.submitted
      ensures S.hist.submitted[d.id].startedAt <= d.at <= S.hist.submitted[d.id].startedAt + lifetime + maxDelay
    {
      if d !in R.hist.delivered { NewDelivery(h, R, act, now, d); }
    }
  }

  lemma {:induction false} PromptRunKeeps(h: Hasher, run: seq<System>, events: seq<Event>,
                                          lifetime: Time, maxDelay: Time, k: nat)
    requires IsPromptRun(h, run, events, lifetime, maxDelay) && k < |run|
    ensures YoungInv(h, run[k].a, run[k].b, run[k].now, lifetime, maxDelay)
    decreases k
  {
    hide Act;
    if k > 0 {
      PromptRunKeeps(h, run, events, lifetime, maxDelay, k - 1);
      RunKeepsInv(h, run, events, k - 1);
      var s, s', e := run[k - 1], run[k], events[k - 1];
      assert PromptStep(h, s, s', e, lifetime, maxDelay);
      if e.atA {
        YoungKeptBySender(h, s.a, s.b, e.act, s.now, s'.now, lifetime, maxDelay);
      } else {
        YoungKeptByReceiver(h, s.a, s.b, e.act, s.now, s'.now, lifetime, maxDelay);
      }
    }
  }

  /** When the time between ticks plus the network delay stays below the replay window less the
      delivery timeout, that is below 700 milliseconds, no message is delivered twice, in any run. */
  lemma DeliveredAtMostOnce(h: Hasher, run: seq<System>, events: seq<Event>,
                            period: Time, maxDelay: Time, k: nat, i: nat, j: nat)
    requires IsTimelyRun(h, run, events, period, maxDelay) && k < |run|
    requires DELIVERY_TIMEOUT + period + maxDelay < REPLAY_WINDOW
    requires i < |run[k].b.hist.delivered| && j < |run[k].b.hist.delivered|
    requires run[k].b.hist.delivered[i].id == run[k].b.hist.delivered[j].id
    ensures i == j
  {
    hide Act;
    TimelyIsPrompt(h, run, events, period, maxDelay);
    PromptRunKeeps(h, run, events, DELIVERY_TIMEOUT + period, maxDelay, k);
    RunKeepsInv(h, run, events, k);
    var ds := run[k].b.hist.delivered;
    assert ds[i] in ds && ds[j] in ds;
    assert DeliveredMatches(run[k].a, ds[i]) && DeliveredMatches(run[k].a, ds[j]);
  }
}
