/** Which service nodes a router tests, and when (llarp/consensus/reachability_testing.cpp): rounds of
    random tests drawn from a shuffled queue, and a queue of repeated tests for failing nodes. Times
    are in milliseconds; random intervals and shuffles are parameters. */
module Reachability {
  import opened Common

  const TIME_MIN: int := -0x8000_0000_0000_0000
  const TESTING_BACKOFF: int := 10_000
  const TESTING_BACKOFF_MAX: int := 120_000
  const MAX_RETESTS_PER_TICK: nat := 4

  datatype Entry<K> = Entry(pk: K, due: int, failures: int)

  datatype State<K> = State(queue: seq<K>, nextTest: int, failing: set<K>, retests: multiset<Entry<K>>)

  /** What happened so far: the queue as last filled, what was drawn from it since, the tests handed out
      and not yet answered, and the times of the random tests. */
  datatype History<K> = History(round: seq<K>, returned: seq<K>, skipped: seq<K>, out: multiset<K>, times: seq<int>)

  function Start<K>(): State<K> { State([], TIME_MIN, {}, multiset{}) }

  function NoHistory<K>(): History<K> { History([], [], [], multiset{}, []) }

  // ----- the random tests

  datatype Drawn<K> = Drawn(rest: seq<K>, skipped: seq<K>, found: Option<K>)

  predicate Eligible<K(==)>(k: K, me: K, failing: set<K>) { k != me && k !in failing }

  /** Pops from the back until a node may be tested. */
  function Draw<K(==)>(queue: seq<K>, me: K, failing: set<K>): Drawn<K>
  {
    if queue == [] then Drawn([], [], None)
    else
      var n := |queue| - 1;
      if Eligible(queue[n], me, failing) then Drawn(queue[..n], [], Some(queue[n]))
      else
        var d := Draw(queue[..n], me, failing);
        Drawn(d.rest, [queue[n]] + d.skipped, d.found)
  }

  function Found<K>(o: Option<K>): seq<K> { if o.Some? then [o.value] else [] }

  /** Nothing is lost or made up by drawing. */
  lemma {:induction false} DrawSplits<K>(queue: seq<K>, me: K, failing: set<K>)
    ensures var d := Draw(queue, me, failing);
            multiset(queue) == multiset(d.rest) + multiset(d.skipped) + multiset(Found(d.found))
  {
    if queue != [] {
      var n := |queue| - 1;
      assert queue == queue[..n] + [queue[n]];
      if !Eligible(queue[n], me, failing) { DrawSplits(queue[..n], me, failing); }
    }
  }

  /** Only nodes that may not be tested are passed over, and nothing is found exactly if there is
      nothing to be found. */
  lemma {:induction false} DrawFinds<K>(queue: seq<K>, me: K, failing: set<K>)
    ensures var d := Draw(queue, me, failing);
            && (forall k :: k in d.skipped ==> !Eligible(k, me, failing))
            && (d.found.Some? ==> Eligible(d.found.value, me, failing))
            && (d.found.None? <==> forall k :: k in queue ==> !Eligible(k, me, failing))
            && (d.found.None? ==> d.rest == [])
  {
    if queue != [] {
      var n := |queue| - 1;
      assert queue == queue[..n] + [queue[n]];
      if !Eligible(queue[n], me, failing) { DrawFinds(queue[..n], me, failing); }
    }
  }

  /** What is found is the last node of the queue that may be tested; what came before it stays. */
  lemma {:induction false} DrawsFromBack<K>(queue: seq<K>, me: K, failing: set<K>)
    ensures var d := Draw(queue, me, failing);
            d.found.Some? ==>
              && |d.rest| < |queue| && d.rest == queue[..|d.rest|] && d.found.value == queue[|d.rest|]
              && forall j :: |d.rest| < j < |queue| ==> !Eligible(queue[j], me, failing)
  {
    if queue != [] {
      var n := |queue| - 1;
      if !Eligible(queue[n], me, failing) { DrawsFromBack(queue[..n], me, failing); }
    }
  }

  datatype Outcome<K> = Outcome(s: State<K>, h: History<K>, found: Option<K>)

  /** The queue drawn from at time now. */
  function DrawNow<K(==)>(s: State<K>, h: History<K>, me: K, now: int, interval: int): Outcome<K>
  {
    var d := Draw(s.queue, me, s.failing);
    Outcome(s.(queue := d.rest, nextTest := now + interval),
            h.(returned := h.returned + Found(d.found),
               skipped := h.skipped + d.skipped,
               out := h.out + multiset(Found(d.found)),
               times := h.times + (if d.found.Some? then [now] else [])),
            d.found)
  }

  function Refill<K(==)>(s: State<K>, h: History<K>, shuffled: seq<K>): (State<K>, History<K>)
  {
    (s.(queue := shuffled), h.(round := shuffled, returned := [], skipped := []))
  }

  /** next_random. */
  function TakeNext<K(==)>(s: State<K>, h: History<K>, me: K, now: int, requeue: bool, interval: int,
                             interval2: int, shuffled: seq<K>): Outcome<K>
    decreases requeue
  {
    if s.nextTest > now then Outcome(s, h, None)
    else
      var o := DrawNow(s, h, me, now, interval);
      if o.found.Some? || !requeue then o
      else
        var (s2, h2) := Refill(o.s, o.h, shuffled);
        TakeNext(s2, h2, me, now, false, interval2, interval2, shuffled)
  }

  ghost predicate IsShuffleOf<K>(shuffled: seq<K>, whitelist: set<K>)
  {
    multiset(shuffled) == multiset(whitelist)
  }

  /** A call that refills the queue hands out a node from it in the same call exactly if the interval
      drawn first is not positive and the new queue has a node that may be tested: the call for the
      new queue looks at the clock again, which the first draw has already moved on. */
  lemma RefillReturnsIff<K>(s: State<K>, h: History<K>, me: K, now: int, interval: int, interval2: int,
                            shuffled: seq<K>)
    requires s.nextTest <= now
    requires forall k :: k in s.queue ==> !Eligible(k, me, s.failing)
    ensures TakeNext(s, h, me, now, true, interval, interval2, shuffled).found.Some?
            <==> interval <= 0 && exists k :: k in shuffled && Eligible(k, me, s.failing)
    ensures interval > 0 ==> TakeNext(s, h, me, now, true, interval, interval2, shuffled).s.queue == shuffled
  {
    DrawFinds(s.queue, me, s.failing);
    DrawFinds(shuffled, me, s.failing);
  }

  /** Before its time a call changes nothing. After it the next time is the interval from now, the second
      one if the queue was filled and drawn from again in the same call; a node found is recorded as handed
      out now, in the round of the queue it came from. */
  lemma NextMovesOn<K>(s: State<K>, h: History<K>, me: K, now: int, interval: int, interval2: int, shuffled: seq<K>)
    ensures var o := TakeNext(s, h, me, now, true, interval, interval2, shuffled);
            var refills := forall k :: k in s.queue ==> !Eligible(k, me, s.failing);
            && (s.nextTest > now ==> o == Outcome(s, h, None))
            && (s.nextTest <= now ==>
                  && o.s.nextTest == now + (if refills && interval <= 0 then interval2 else interval)
                  && o.h.round == (if refills then shuffled else h.round)
                  && o.h.returned == (if refills then [] else h.returned) + Found(o.found)
                  && o.h.out == h.out + multiset(Found(o.found))
                  && o.h.times == h.times + (if o.found.Some? then [now] else []))
  {
    hide Draw, Eligible;
    DrawFinds(s.queue, me, s.failing);
  }

  /** With an interval of ten seconds an empty queue and one other node on the list, the first call
      finds nothing although it may test. */
  lemma FirstCallFindsNothing()
    ensures TakeNext(Start(), NoHistory(), 0, 5, true, 10_000, 10_000, [1]).found.None?
  {
    RefillReturnsIff(Start(), NoHistory(), 0, 5, 10_000, 10_000, [1]);
  }

  // ----- the repeated tests

  function Delay(previous: int, interval: int): (d: int)
    ensures d <= TESTING_BACKOFF_MAX
    ensures previous <= 0 ==> d == if interval > TESTING_BACKOFF_MAX then TESTING_BACKOFF_MAX else interval
  {
    var d := (if previous < 0 then 0 else previous) * TESTING_BACKOFF + interval;
    if d > TESTING_BACKOFF_MAX then TESTING_BACKOFF_MAX else d
  }

  /** One more failure puts the next test off by ten more seconds, up to two minutes. */
  lemma DelayGrows(previous: int, interval: int)
    requires previous >= 0
    ensures var d := Delay(previous, interval) + 10_000;
            Delay(previous + 1, interval) == if d <= 120_000 then d else 120_000
  {
    var d := previous * TESTING_BACKOFF + interval;
    assert (previous + 1) * TESTING_BACKOFF + interval == d + TESTING_BACKOFF;
  }

  function AddFailing<K>(s: State<K>, pk: K, previous: int, at: int, interval: int): State<K>
  {
    var failures := if previous < 0 then 1 else previous + 1;
    s.(failing := s.failing + {pk},
       retests := s.retests + multiset{Entry(pk, at + Delay(previous, interval), failures)})
  }

  function RemoveFailing<K>(s: State<K>, pk: K): State<K> { s.(failing := s.failing - {pk}) }

  /** The entries of nodes that still fail. */
  function StillFailing<K(==)>(popped: seq<Entry<K>>, failing: set<K>): seq<Entry<K>>
  {
    if popped == [] then []
    else
      var n := |popped| - 1;
      StillFailing(popped[..n], failing) + (if popped[n].pk in failing then [popped[n]] else [])
  }

  ghost predicate AllDue<K>(popped: seq<Entry<K>>, now: int, left: multiset<Entry<K>>)
  {
    && (forall i :: 0 <= i < |popped| ==> popped[i].due <= now)
    && (forall i, j :: 0 <= i < j < |popped| ==> popped[i].due <= popped[j].due)
    && (forall i, e :: 0 <= i < |popped| && e in left ==> popped[i].due <= e.due)
  }

  ghost predicate NoneDue<K>(es: multiset<Entry<K>>, now: int) { forall e :: e in es ==> e.due > now }

  /** What one call takes from the retest queue: the entries due, oldest first, until four of them
      belong to nodes that still fail. */
  ghost predicate Collected<K>(s: State<K>, now: int, popped: seq<Entry<K>>)
  {
    && multiset(popped) <= s.retests
    && AllDue(popped, now, s.retests - multiset(popped))
    && var n := |StillFailing(popped, s.failing)|;
       && n <= MAX_RETESTS_PER_TICK
       && (n < MAX_RETESTS_PER_TICK ==> NoneDue(s.retests - multiset(popped), now))
       && (n == MAX_RETESTS_PER_TICK ==> popped[|popped| - 1].pk in s.failing)
  }

  function Collect<K>(s: State<K>, popped: seq<Entry<K>>): State<K>
  {
    s.(retests := s.retests - multiset(popped))
  }

  function KeysOf<K>(es: seq<Entry<K>>): seq<K>
  {
    seq(|es|, i requires 0 <= i < |es| => es[i].pk)
  }

  // ----- runs

  datatype Op<K> =
    | Next(now: int, interval: int, interval2: int, shuffled: seq<K>, whitelist: set<K>)
    | Retest(now: int, popped: seq<Entry<K>>)
    | Failed(pk: K, previous: int, at: int, interval: int)
    | Passed(pk: K)

  ghost predicate Legal<K>(s: State<K>, op: Op<K>)
  {
    match op
    case Next(_, _, _, shuffled, whitelist) => IsShuffleOf(shuffled, whitelist)
    case Retest(now, popped) => Collected(s, now, popped)
    case Failed(_, _, _, _) => true
    case Passed(_) => true
  }

  function Apply<K(==)>(s: State<K>, h: History<K>, me: K, op: Op<K>): (State<K>, History<K>)
  {
    match op
    case Next(now, interval, interval2, shuffled, _) =>
      var o := TakeNext(s, h, me, now, true, interval, interval2, shuffled);
      (o.s, o.h)
    case Retest(_, popped) =>
      (Collect(s, popped), h.(out := h.out + multiset(KeysOf(StillFailing(popped, s.failing)))))
    case Failed(pk, previous, at, interval) =>
      (AddFailing(s, pk, previous, at, interval), h.(out := h.out - multiset{pk}))
    case Passed(pk) =>
      (RemoveFailing(s, pk), h.(out := h.out - multiset{pk}))
  }

  ghost predicate IsRun<K>(ss: seq<State<K>>, hs: seq<History<K>>, ops: seq<Op<K>>, me: K)
  {
    && |ss| == |hs| == |ops| + 1
    && ss[0] == Start() && hs[0] == NoHistory()
    && forall i :: 0 <= i < |ops| ==>
         Legal(ss[i], ops[i]) && (ss[i + 1], hs[i + 1]) == Apply(ss[i], hs[i], me, ops[i])
  }

  // ----- rounds

  ghost predicate NoRepeats<K>(s: seq<K>) { forall k :: k in s ==> multiset(s)[k] == 1 }

  /** Every node of the round is still queued, was handed out or was passed over, and just one of these. */
  ghost predicate RoundInv<K>(s: State<K>, h: History<K>, me: K)
  {
    && NoRepeats(h.round)
    && multiset(h.round) == multiset(s.queue) + multiset(h.returned) + multiset(h.skipped)
    && me !in h.returned
  }

  lemma DrawKeepsRound<K>(s: State<K>, h: History<K>, me: K, now: int, interval: int)
    requires RoundInv(s, h, me)
    ensures var o := DrawNow(s, h, me, now, interval); RoundInv(o.s, o.h, me)
  {
    hide Draw;
    var d := Draw(s.queue, me, s.failing);
    DrawSplits(s.queue, me, s.failing);
    DrawFinds(s.queue, me, s.failing);
  }

  lemma RefillKeepsRound<K>(s: State<K>, h: History<K>, me: K, shuffled: seq<K>, whitelist: set<K>)
    requires RoundInv(s, h, me) && IsShuffleOf(shuffled, whitelist)
    ensures var (s2, h2) := Refill(s, h, shuffled); RoundInv(s2, h2, me)
  {
  }

  lemma ApplyKeepsRound<K>(s: State<K>, h: History<K>, me: K, op: Op<K>)
    requires RoundInv(s, h, me) && Legal(s, op)
    ensures var (s2, h2) := Apply(s, h, me, op); RoundInv(s2, h2, me)
  {
    if op.Next? && s.nextTest <= op.now {
      hide RoundInv, DrawNow, Refill;
      DrawKeepsRound(s, h, me, op.now, op.interval);
      var o := DrawNow(s, h, me, op.now, op.interval);
      if o.found.None? {
        RefillKeepsRound(o.s, o.h, me, op.shuffled, op.whitelist);
        var (s2, h2) := Refill(o.s, o.h, op.shuffled);
        DrawKeepsRound(s2, h2, me, op.now, op.interval2);
      }
    }
  }

  lemma {:induction false} RunKeepsRound<K>(ss: seq<State<K>>, hs: seq<History<K>>, ops: seq<Op<K>>, me: K, n: nat)
    requires IsRun(ss, hs, ops, me) && n <= |ops|
    ensures RoundInv(ss[n], hs[n], me)
    decreases n
  {
    if n > 0 {
      RunKeepsRound(ss, hs, ops, me, n - 1);
      ApplyKeepsRound(ss[n - 1], hs[n - 1], me, ops[n - 1]);
    }
  }

  /** The call finds its queue used up and fills it anew. */
  predicate Refills<K(==)>(s: State<K>, me: K, op: Op<K>)
  {
    op.Next? && s.nextTest <= op.now && Draw(s.queue, me, s.failing).found.None?
  }

  /** A node handed out is on the queue that was drawn from, is not this router, and does not
      currently fail. A node passed over was so before in this round, or is this router or currently
      fails. */
  lemma NextIsEligible<K>(s: State<K>, h: History<K>, me: K, op: Op<K>)
    requires op.Next?
    ensures var o := TakeNext(s, h, me, op.now, true, op.interval, op.interval2, op.shuffled);
            && (o.found.Some? ==> Eligible(o.found.value, me, s.failing)
                                  && o.found.value in (if Refills(s, me, op) then op.shuffled else s.queue))
            && forall k :: k in o.h.skipped ==>
                 (k in h.skipped && !Refills(s, me, op)) || !Eligible(k, me, s.failing)
  {
    hide Draw, Eligible;
    DrawFinds(s.queue, me, s.failing);
    DrawFinds(op.shuffled, me, s.failing);
    FoundInQueue(s.queue, me, s.failing);
    FoundInQueue(op.shuffled, me, s.failing);
  }

  lemma {:induction false} FoundInQueue<K>(queue: seq<K>, me: K, failing: set<K>)
    ensures var d := Draw(queue, me, failing); d.found.Some? ==> d.found.value in queue
  {
    if queue != [] { FoundInQueue(queue[..|queue| - 1], me, failing); }
  }

  /** Call i drew k from the queue and passed over it, because k was this router or failed then. */
  ghost predicate PassesOver<K>(ss: seq<State<K>>, hs: seq<History<K>>, ops: seq<Op<K>>, me: K, i: nat, k: K)
    requires |ss| == |hs| == |ops| + 1 && i < |ops|
  {
    && ops[i].Next? && ss[i].nextTest <= ops[i].now
    && k in hs[i + 1].skipped && (k !in hs[i].skipped || Refills(ss[i], me, ops[i]))
    && !Eligible(k, me, ss[i].failing)
  }

  /** Since the queue was last filled, a call drew k and passed over it for cause. */
  ghost predicate HadCause<K>(ss: seq<State<K>>, hs: seq<History<K>>, ops: seq<Op<K>>, me: K, n: nat, k: K)
    requires |ss| == |hs| == |ops| + 1 && n <= |ops|
  {
    exists i :: 0 <= i < n && PassesOver(ss, hs, ops, me, i, k)
                && forall j :: i < j < n ==> !Refills(ss[j], me, ops[j])
  }

  lemma CauseStays<K>(ss: seq<State<K>>, hs: seq<History<K>>, ops: seq<Op<K>>, me: K, n: nat, k: K)
    requires |ss| == |hs| == |ops| + 1 && 0 < n <= |ops|
    requires HadCause(ss, hs, ops, me, n - 1, k) && !Refills(ss[n - 1], me, ops[n - 1])
    ensures HadCause(ss, hs, ops, me, n, k)
  {
    hide PassesOver, Refills;
    var i :| 0 <= i < n - 1 && PassesOver(ss, hs, ops, me, i, k)
      && forall j :: i < j < n - 1 ==> !Refills(ss[j], me, ops[j]);
    assert forall j :: i < j < n ==> !Refills(ss[j], me, ops[j]);
  }

  /** A call that does not draw leaves the round as it was. */
  lemma SkipsByDrawing<K>(s: State<K>, h: History<K>, me: K, op: Op<K>)
    requires !op.Next? || s.nextTest > op.now
    ensures Apply(s, h, me, op).1.skipped == h.skipped && !Refills(s, me, op)
  {
  }

  /** Whatever was passed over in this round was, at the call of this round that drew it, this router
      or failing. */
  lemma {:induction false} PassedOverForCause<K>(ss: seq<State<K>>, hs: seq<History<K>>, ops: seq<Op<K>>, me: K,
                                                 n: nat, k: K)
    requires IsRun(ss, hs, ops, me) && n <= |ops| && k in hs[n].skipped
    ensures HadCause(ss, hs, ops, me, n, k)
    decreases n
  {
    hide Eligible, TakeNext, Draw;
    var s, h, op := ss[n - 1], hs[n - 1], ops[n - 1];
    assert (ss[n], hs[n]) == Apply(s, h, me, op);
    if op.Next? && s.nextTest <= op.now {
      NextIsEligible(s, h, me, op);
    } else {
      SkipsByDrawing(s, h, me, op);
    }
    if k in h.skipped && !Refills(s, me, op) {
      PassedOverForCause(ss, hs, ops, me, n - 1, k);
      CauseStays(ss, hs, ops, me, n, k);
    } else {
      assert PassesOver(ss, hs, ops, me, n - 1, k);
    }
  }

  /** Between two refills no node is handed out twice, and this router never tests itself. Once the
      queue is empty, every node of the list has been handed out exactly once, unless it was this router
      or failing when it was drawn in this round. */
  lemma TestedOncePerRound<K>(ss: seq<State<K>>, hs: seq<History<K>>, ops: seq<Op<K>>, me: K, n: nat, k: K)
    requires IsRun(ss, hs, ops, me) && n <= |ops|
    ensures multiset(hs[n].returned)[k] <= 1 && multiset(hs[n].returned)[me] == 0
    ensures (k in hs[n].returned ==> k !in ss[n].queue && k !in hs[n].skipped && k in hs[n].round)
    ensures (ss[n].queue == [] && k in hs[n].round && k !in hs[n].returned
             ==> k in hs[n].skipped && HadCause(ss, hs, ops, me, n, k))
  {
    hide HadCause;
    RunKeepsRound(ss, hs, ops, me, n);
    var s, h := ss[n], hs[n];
    if k in h.skipped { PassedOverForCause(ss, hs, ops, me, n, k); }
    assert multiset(h.round)[k] == multiset(s.queue)[k] + multiset(h.returned)[k] + multiset(h.skipped)[k];
    assert k in h.round <==> multiset(h.round)[k] > 0;
    assert k in h.returned <==> multiset(h.returned)[k] > 0;
    assert k in h.skipped <==> multiset(h.skipped)[k] > 0;
    assert k in s.queue <==> multiset(s.queue)[k] > 0;
  }

  // ----- no failing node is forgotten

  ghost predicate HasRetest<K>(s: State<K>, k: K) { exists e :: e in s.retests && e.pk == k }

  /** Every failing node has a test scheduled, or one handed out that has not been answered. */
  ghost predicate Scheduled<K>(s: State<K>, h: History<K>)
  {
    forall k :: k in s.failing ==> HasRetest(s, k) || k in h.out
  }

  lemma {:induction false} StillFailingKeeps<K>(popped: seq<Entry<K>>, failing: set<K>, e: Entry<K>)
    requires e in popped && e.pk in failing
    ensures e.pk in KeysOf(StillFailing(popped, failing))
    decreases |popped|
  {
    var n := |popped| - 1;
    var front := StillFailing(popped[..n], failing);
    var all := StillFailing(popped, failing);
    if popped[n] == e {
      assert KeysOf(all)[|front|] == e.pk;
    } else {
      StillFailingKeeps(popped[..n], failing, e);
      var i :| 0 <= i < |front| && KeysOf(front)[i] == e.pk;
      assert KeysOf(all)[i] == e.pk;
    }
  }

  lemma CollectKeepsScheduled<K>(s: State<K>, h: History<K>, popped: seq<Entry<K>>)
    requires Scheduled(s, h) && multiset(popped) <= s.retests
    ensures Scheduled(Collect(s, popped), h.(out := h.out + multiset(KeysOf(StillFailing(popped, s.failing)))))
  {
    var given := KeysOf(StillFailing(popped, s.failing));
    var s2 := Collect(s, popped);
    forall k | k in s.failing
      ensures HasRetest(s2, k) || k in h.out + multiset(given)
    {
      if k !in h.out {
        var e :| e in s.retests && e.pk == k;
        if e in popped {
          StillFailingKeeps(popped, s.failing, e);
        } else {
          assert multiset(popped)[e] == 0;
          assert e in s2.retests;
        }
      }
    }
  }

  lemma AnswerKeepsScheduled<K>(s: State<K>, h: History<K>, me: K, op: Op<K>)
    requires Scheduled(s, h) && (op.Failed? || op.Passed?)
    ensures var (s2, h2) := Apply(s, h, me, op); Scheduled(s2, h2)
  {
    var (s2, h2) := Apply(s, h, me, op);
    if op.Failed? {
      assert Entry(op.pk, op.at + Delay(op.previous, op.interval), if op.previous < 0 then 1 else op.previous + 1)
             in s2.retests;
    }
    forall k | k in s2.failing
      ensures HasRetest(s2, k) || k in h2.out
    {
      if k != op.pk && k !in h.out {
        var e :| e in s.retests && e.pk == k;
        assert e in s2.retests;
      }
    }
  }

  lemma NextFrame<K>(s: State<K>, h: History<K>, me: K, now: int, requeue: bool, interval: int, interval2: int,
                     shuffled: seq<K>)
    ensures var o := TakeNext(s, h, me, now, requeue, interval, interval2, shuffled);
            o.s.failing == s.failing && o.s.retests == s.retests && h.out <= o.h.out
  {
  }

  lemma {:induction false} RunKeepsScheduled<K>(ss: seq<State<K>>, hs: seq<History<K>>, ops: seq<Op<K>>, me: K, n: nat)
    requires IsRun(ss, hs, ops, me) && n <= |ops|
    ensures Scheduled(ss[n], hs[n])
    decreases n
  {
    if n > 0 {
      RunKeepsScheduled(ss, hs, ops, me, n - 1);
      var s, h, op := ss[n - 1], hs[n - 1], ops[n - 1];
      assert Legal(s, op);
      match op
      case Next(now, interval, interval2, shuffled, _) =>
        NextFrame(s, h, me, now, true, interval, interval2, shuffled);
        forall k | k in s.failing
          ensures HasRetest(ss[n], k) || k in hs[n].out
        {
          assert HasRetest(s, k) || k in h.out;
        }
      case Retest(_, popped) => CollectKeepsScheduled(s, h, popped);
      case Failed(_, _, _, _) => AnswerKeepsScheduled(s, h, me, op);
      case Passed(_) => AnswerKeepsScheduled(s, h, me, op);
    }
  }

  // ----- what becomes of a failing node

  lemma {:induction false} StillFailingAre<K>(popped: seq<Entry<K>>, failing: set<K>)
    ensures forall e :: e in StillFailing(popped, failing) <==> e in popped && e.pk in failing
    decreases |popped|
  {
    if popped != [] {
      var n := |popped| - 1;
      StillFailingAre(popped[..n], failing);
      assert popped == popped[..n] + [popped[n]];
    }
  }

  /** A node that failed is handed out for another test, with one more failure than before, by any call that
      has room for it exactly from the time of its delay on. */
  lemma FailedComesBackIff<K>(s: State<K>, pk: K, previous: int, at: int, interval: int, now: int,
                              popped: seq<Entry<K>>)
    requires var s1 := AddFailing(s, pk, previous, at, interval);
             Collected(s1, now, popped) && |StillFailing(popped, s1.failing)| < 4
    ensures var e := Entry(pk, at + Delay(previous, interval), if previous < 0 then 1 else previous + 1);
            e in StillFailing(popped, AddFailing(s, pk, previous, at, interval).failing) <==> now >= e.due
  {
    hide Delay, StillFailing;
    var s1 := AddFailing(s, pk, previous, at, interval);
    var e := Entry(pk, at + Delay(previous, interval), if previous < 0 then 1 else previous + 1);
    StillFailingAre(popped, s1.failing);
    assert s1.retests[e] > 0;
    if e.due <= now {
      assert e !in s1.retests - multiset(popped);
      assert multiset(popped)[e] > 0;
    }
  }

  /** The test that a call schedules, and the entries that it takes out. */
  function Schedules<K>(op: Op<K>): multiset<Entry<K>>
  {
    if !op.Failed? then multiset{}
    else multiset{Entry(op.pk, op.at + Delay(op.previous, op.interval), if op.previous < 0 then 1 else op.previous + 1)}
  }

  function Takes<K>(op: Op<K>): multiset<Entry<K>> { if op.Retest? then multiset(op.popped) else multiset{} }

  function ScheduledBy<K>(ops: seq<Op<K>>, n: nat): multiset<Entry<K>>
    requires n <= |ops|
  {
    if n == 0 then multiset{} else ScheduledBy(ops, n - 1) + Schedules(ops[n - 1])
  }

  function TakenBy<K>(ops: seq<Op<K>>, n: nat): multiset<Entry<K>>
    requires n <= |ops|
  {
    if n == 0 then multiset{} else TakenBy(ops, n - 1) + Takes(ops[n - 1])
  }

  lemma RetestStep<K>(s: State<K>, h: History<K>, me: K, op: Op<K>)
    requires Legal(s, op)
    ensures s.retests + Schedules(op) == Apply(s, h, me, op).0.retests + Takes(op)
  {
    hide TakeNext, StillFailing, Delay, KeysOf, AllDue, NoneDue;
    if op.Next? { NextFrame(s, h, me, op.now, true, op.interval, op.interval2, op.shuffled); }
  }

  lemma Exchange<E>(r: multiset<E>, t: multiset<E>, x: multiset<E>, r2: multiset<E>, y: multiset<E>)
    requires r + x == r2 + y
    ensures (r + t) + x == r2 + (t + y)
  {
    assert (r + t) + x == (r + x) + t;
  }

  /** In every run each scheduled test is waiting, or was taken out once: none is lost, none taken twice. */
  lemma {:induction false} RetestsConserved<K>(ss: seq<State<K>>, hs: seq<History<K>>, ops: seq<Op<K>>, me: K, n: nat)
    requires IsRun(ss, hs, ops, me) && n <= |ops|
    ensures ScheduledBy(ops, n) == ss[n].retests + TakenBy(ops, n)
    decreases n
  {
    hide Apply, Legal, Schedules, Takes;
    if n > 0 {
      RetestsConserved(ss, hs, ops, me, n - 1);
      RetestStep(ss[n - 1], hs[n - 1], me, ops[n - 1]);
      assert (ss[n], hs[n]) == Apply(ss[n - 1], hs[n - 1], me, ops[n - 1]);
      Exchange(ss[n - 1].retests, TakenBy(ops, n - 1), Schedules(ops[n - 1]), ss[n].retests, Takes(ops[n - 1]));
    }
  }

  /** A node that passed is drawn from the queue like any other, and no entry that is left of it in the
      retest queue is handed out. */
  lemma PassedIsFree<K>(s: State<K>, pk: K, me: K, popped: seq<Entry<K>>)
    ensures var s1 := RemoveFailing(s, pk);
            && (Eligible(pk, me, s1.failing) <==> pk != me)
            && (forall other :: other != pk ==> (Eligible(other, me, s1.failing) <==> Eligible(other, me, s.failing)))
            && (forall e :: e in StillFailing(popped, s1.failing) ==> e.pk != pk)
  {
    StillFailingAre(popped, RemoveFailing(s, pk).failing);
  }

  /** The last answer about k, before call n, came from call i: that it failed. */
  ghost predicate LastFailed<K>(ops: seq<Op<K>>, i: nat, n: nat, k: K)
    requires n <= |ops|
  {
    && i < n && ops[i].Failed? && ops[i].pk == k
    && forall j :: i < j < n && ops[j].Passed? ==> ops[j].pk != k
  }

  ghost predicate HasFailed<K>(ops: seq<Op<K>>, n: nat, k: K)
    requires n <= |ops|
  {
    exists i: nat :: LastFailed(ops, i, n, k)
  }

  lemma HasFailedStep<K>(ops: seq<Op<K>>, n: nat, k: K)
    requires 0 < n <= |ops|
    ensures var op := ops[n - 1];
            HasFailed(ops, n, k) <==>
              (op.Failed? && op.pk == k) || (HasFailed(ops, n - 1, k) && !(op.Passed? && op.pk == k))
  {
    var op := ops[n - 1];
    if op.Failed? && op.pk == k { assert LastFailed(ops, n - 1, n, k); }
    if HasFailed(ops, n, k) {
      var i: nat :| LastFailed(ops, i, n, k);
      if i < n - 1 { assert LastFailed(ops, i, n - 1, k); }
    }
    if HasFailed(ops, n - 1, k) && !(op.Passed? && op.pk == k) {
      var i: nat :| LastFailed(ops, i, n - 1, k);
      assert LastFailed(ops, i, n, k);
    }
  }

  /** In every run a node fails exactly if it was reported to and has not been reported to pass since. */
  lemma {:induction false} FailingIff<K>(ss: seq<State<K>>, hs: seq<History<K>>, ops: seq<Op<K>>, me: K, n: nat, k: K)
    requires IsRun(ss, hs, ops, me) && n <= |ops|
    ensures k in ss[n].failing <==> HasFailed(ops, n, k)
    decreases n
  {
    hide TakeNext, Collected, HasFailed, StillFailing;
    if n > 0 {
      FailingIff(ss, hs, ops, me, n - 1, k);
      HasFailedStep(ops, n, k);
      assert (ss[n], hs[n]) == Apply(ss[n - 1], hs[n - 1], me, ops[n - 1]);
      if ops[n - 1].Next? {
        NextFrame(ss[n - 1], hs[n - 1], me, ops[n - 1].now, true, ops[n - 1].interval, ops[n - 1].interval2,
                  ops[n - 1].shuffled);
      }
    } else {
      NeverFailed(ops, k);
    }
  }

  lemma NeverFailed<K>(ops: seq<Op<K>>, k: K)
    ensures !HasFailed(ops, 0, k)
  {
  }

  // ----- random tests keep their distance

  ghost predicate Spaced(times: seq<int>, d: int)
  {
    forall i :: 0 < i < |times| ==> times[i] >= times[i - 1] + d
  }

  ghost predicate SpacedInv<K>(s: State<K>, h: History<K>, d: int)
  {
    Spaced(h.times, d) && (h.times != [] ==> s.nextTest >= h.times[|h.times| - 1] + d)
  }

  lemma DrawKeepsSpaced<K>(s: State<K>, h: History<K>, me: K, now: int, interval: int, d: int)
    requires SpacedInv(s, h, d) && s.nextTest <= now && interval >= d > 0
    ensures var o := DrawNow(s, h, me, now, interval); SpacedInv(o.s, o.h, d) && o.s.nextTest == now + interval
  {
    hide Draw;
  }

  lemma NextKeepsSpaced<K>(s: State<K>, h: History<K>, me: K, op: Op<K>, d: int)
    requires SpacedInv(s, h, d) && op.Next? && op.interval >= d > 0
    ensures var (s2, h2) := Apply(s, h, me, op); SpacedInv(s2, h2, d)
  {
    hide Draw, Spaced;
    if s.nextTest <= op.now {
      DrawKeepsSpaced(s, h, me, op.now, op.interval, d);
      var o := DrawNow(s, h, me, op.now, op.interval);
      var (s2, h2) := Refill(o.s, o.h, op.shuffled);
      assert SpacedInv(s2, h2, d);
    }
  }

  lemma OthersKeepSpaced<K>(s: State<K>, h: History<K>, me: K, op: Op<K>, d: int)
    requires SpacedInv(s, h, d) && !op.Next?
    ensures var (s2, h2) := Apply(s, h, me, op); SpacedInv(s2, h2, d)
  {
  }

  /** If no interval drawn is below d, which is positive, random tests are at least d apart. */
  lemma {:induction false} TestsSpaced<K>(ss: seq<State<K>>, hs: seq<History<K>>, ops: seq<Op<K>>, me: K, d: int,
                                          n: nat)
    requires IsRun(ss, hs, ops, me) && n <= |ops| && d > 0
    requires forall i :: 0 <= i < |ops| && ops[i].Next? ==> ops[i].interval >= d
    ensures SpacedInv(ss[n], hs[n], d)
    decreases n
  {
    if n > 0 {
      hide Apply, SpacedInv, Legal;
      TestsSpaced(ss, hs, ops, me, d, n - 1);
      if ops[n - 1].Next? {
        NextKeepsSpaced(ss[n - 1], hs[n - 1], me, ops[n - 1], d);
      } else {
        OthersKeepSpaced(ss[n - 1], hs[n - 1], me, ops[n - 1], d);
      }
    }
  }

  // ----- the object

  ghost predicate Earliest<K>(es: multiset<Entry<K>>, e: Entry<K>)
  {
    e in es && forall f :: f in es ==> e.due <= f.due
  }

  lemma {:induction false} EarliestExists<K>(es: multiset<Entry<K>>) returns (m: Entry<K>)
    requires es != multiset{}
    ensures Earliest(es, m)
    decreases |es|
  {
    m :| m in es;
    var e, rest := m, es - multiset{m};
    if rest != multiset{} {
      var r := EarliestExists(rest);
      if r.due < e.due { m := r; }
    }
    forall f | f in es
      ensures m.due <= f.due
    {
      assert f == e || f in rest;
    }
  }

  lemma StillFailingSnoc<K>(popped: seq<Entry<K>>, failing: set<K>, e: Entry<K>)
    ensures StillFailing(popped + [e], failing)
         == StillFailing(popped, failing) + (if e.pk in failing then [e] else [])
  {
    assert (popped + [e])[..|popped|] == popped;
  }

  /** The pairs handed to the caller for some entries. */
  ghost predicate Reports<K>(result: seq<(K, int)>, es: seq<Entry<K>>)
  {
    |result| == |es| && forall i :: 0 <= i < |es| ==> result[i] == (es[i].pk, es[i].failures)
  }

  lemma ReportOneMore<K>(result: seq<(K, int)>, popped: seq<Entry<K>>, failing: set<K>, e: Entry<K>)
    requires Reports(result, StillFailing(popped, failing))
    ensures Reports(if e.pk in failing then result + [(e.pk, e.failures)] else result,
                    StillFailing(popped + [e], failing))
  {
    StillFailingSnoc(popped, failing, e);
  }

  /** The loop over the retest queue: what was taken from all, what is left, and what is reported. */
  ghost predicate Taking<K>(all: multiset<Entry<K>>, left: multiset<Entry<K>>, popped: seq<Entry<K>>, failing: set<K>,
                            now: int, result: seq<(K, int)>)
  {
    && all == left + multiset(popped)
    && AllDue(popped, now, left)
    && Reports(result, StillFailing(popped, failing))
    && |result| <= MAX_RETESTS_PER_TICK
    && (|result| == MAX_RETESTS_PER_TICK ==> popped != [] && popped[|popped| - 1].pk in failing)
  }

  lemma TakeNothing<K>(now: int, left: multiset<Entry<K>>, failing: set<K>)
    ensures Taking(left, left, [], failing, now, []) && (left == multiset{} ==> NoneDue(left, now))
  {
  }

  lemma TakeOneMore<K>(all: multiset<Entry<K>>, left: multiset<Entry<K>>, popped: seq<Entry<K>>, failing: set<K>,
                       now: int, result: seq<(K, int)>, e: Entry<K>)
    requires Taking(all, left, popped, failing, now, result) && |result| < MAX_RETESTS_PER_TICK
    requires Earliest(left, e) && e.due <= now
    ensures Taking(all, left - multiset{e}, popped + [e], failing, now,
                   if e.pk in failing then result + [(e.pk, e.failures)] else result)
    ensures |left - multiset{e}| < |left|
  {
    hide AllDue, Earliest, StillFailing, Reports;
    PopOneMore(popped, now, left, e);
    ReportOneMore(result, popped, failing, e);
    assert (popped + [e])[|popped|] == e;
  }

  lemma PopOneMore<K>(popped: seq<Entry<K>>, now: int, left: multiset<Entry<K>>, e: Entry<K>)
    requires AllDue(popped, now, left) && Earliest(left, e) && e.due <= now
    ensures AllDue(popped + [e], now, left - multiset{e})
    ensures left + multiset(popped) == (left - multiset{e}) + multiset(popped + [e])
    ensures |left - multiset{e}| < |left|
  {
  }

  class ReachabilityTesting<K(==)> {
    var testingQueue: seq<K>
    var nextGeneralTest: int
    var failing: set<K>
    var failingQueue: multiset<Entry<K>>
    ghost var h: History<K>

    ghost function View(): State<K>
      reads this
    {
      State(testingQueue, nextGeneralTest, failing, failingQueue)
    }

    constructor ()
      ensures View() == Start() && h == NoHistory()
    {
      testingQueue, nextGeneralTest, failing, failingQueue := [], TIME_MIN, {}, multiset{};
      h := NoHistory();
    }

    method NextRandom(me: K, now: int, requeue: bool, interval: int, interval2: int, shuffled: seq<K>)
      returns (found: Option<K>)
      modifies this
      ensures var o := TakeNext(old(View()), old(h), me, now, requeue, interval, interval2, shuffled);
              View() == o.s && h == o.h && found == o.found
      decreases requeue
    {
      if nextGeneralTest > now { return None; }
      found := DrawFromQueue(me, now, interval);
      if found.Some? || !requeue { return found; }
      testingQueue := shuffled;
      h := h.(round := shuffled, returned := [], skipped := []);
      found := NextRandom(me, now, false, interval2, interval2, shuffled);
    }

    method DrawFromQueue(me: K, now: int, interval: int) returns (found: Option<K>)
      modifies this
      ensures var o := DrawNow(old(View()), old(h), me, now, interval); View() == o.s && h == o.h && found == o.found
    {
      nextGeneralTest := now + interval;
      found := None;
      ghost var skipped := [];
      while testingQueue != []
        invariant failing == old(failing) && failingQueue == old(failingQueue) && h == old(h)
        invariant nextGeneralTest == now + interval && found.None?
        invariant var all, d := Draw(old(testingQueue), me, failing), Draw(testingQueue, me, failing);
                  all == Drawn(d.rest, skipped + d.skipped, d.found)
        decreases |testingQueue|
      {
        var n := |testingQueue| - 1;
        var pk := testingQueue[n];
        ghost var d := Draw(testingQueue, me, failing);
        testingQueue := testingQueue[..n];
        if pk != me && pk !in failing {
          found := Some(pk);
          break;
        }
        assert skipped + ([pk] + Draw(testingQueue, me, failing).skipped)
            == (skipped + [pk]) + Draw(testingQueue, me, failing).skipped;
        skipped := skipped + [pk];
      }
      ghost var d := Draw(old(testingQueue), me, failing);
      h := h.(returned := h.returned + Found(d.found), skipped := h.skipped + d.skipped,
              out := h.out + multiset(Found(d.found)),
              times := h.times + (if d.found.Some? then [now] else []));
    }

    method GetFailing(now: int) returns (result: seq<(K, int)>, ghost popped: seq<Entry<K>>)
      modifies this
      ensures Collected(old(View()), now, popped) && View() == Collect(old(View()), popped)
      ensures Reports(result, StillFailing(popped, failing))
      ensures h == old(h).(out := old(h).out + multiset(KeysOf(StillFailing(popped, failing))))
    {
      hide AllDue, StillFailing, KeysOf, Earliest;
      result, popped := PopDue(now);
      assert old(failingQueue) - multiset(popped) == failingQueue;
      h := h.(out := h.out + multiset(KeysOf(StillFailing(popped, failing))));
    }

    /** The top of the queue: any of the entries due first. */
    method Top(now: int) returns (top: Entry<K>)
      requires failingQueue != multiset{}
      ensures Earliest(failingQueue, top) && top in failingQueue
      ensures top.due > now ==> NoneDue(failingQueue, now)
    {
      ghost var earliest := EarliestExists(failingQueue);
      top :| top in failingQueue && forall f :: f in failingQueue ==> top.due <= f.due;
    }

    method PopDue(now: int) returns (result: seq<(K, int)>, ghost popped: seq<Entry<K>>)
      modifies this`failingQueue
      ensures Taking(old(failingQueue), failingQueue, popped, failing, now, result)
      ensures |result| < MAX_RETESTS_PER_TICK ==> NoneDue(failingQueue, now)
    {
      hide Taking, Earliest, NoneDue;
      result, popped := [], [];
      TakeNothing(now, failingQueue, failing);
      while |result| < MAX_RETESTS_PER_TICK && failingQueue != multiset{}
        invariant Taking(old(failingQueue), failingQueue, popped, failing, now, result)
        decreases |failingQueue|
      {
        var top := Top(now);
        if top.due > now { break; }
        TakeOneMore(old(failingQueue), failingQueue, popped, failing, now, result, top);
        if top.pk in failing { result := result + [(top.pk, top.failures)]; }
        failingQueue := failingQueue - multiset{top};
        popped := popped + [top];
      }
      TakeNothing(now, failingQueue, failing);
    }

    method AddFailingNode(pk: K, previousFailures: int, at: int, interval: int)
      modifies this
      ensures View() == AddFailing(old(View()), pk, previousFailures, at, interval)
      ensures h == old(h).(out := old(h).out - multiset{pk})
    {
      var previous := if previousFailures < 0 then 0 else previousFailures;
      var nextTestIn := previous * TESTING_BACKOFF + interval;
      if nextTestIn > TESTING_BACKOFF_MAX { nextTestIn := TESTING_BACKOFF_MAX; }
      failing := failing + {pk};
      failingQueue := failingQueue + multiset{Entry(pk, at + nextTestIn, previous + 1)};
      h := h.(out := h.out - multiset{pk});
    }

    method RemoveNodeFromFailing(pk: K)
      modifies this
      ensures View() == RemoveFailing(old(View()), pk) && h == old(h).(out := old(h).out - multiset{pk})
    {
      failing := failing - {pk};
      h := h.(out := h.out - multiset{pk});
    }
  }
}
