/** Pending DHT transactions: TXHolder and TX (llarp/dht/txholder.hpp, llarp/dht/tx.hpp). */
module DhtTransactions {
  import opened DhtKey

  type Time = nat

  datatype Owner = Owner(node: Key, txid: nat)

  datatype TX<K, V> = TX(target: K, whoasked: Owner, peersAsked: set<Key>, valuesFound: seq<V>)

  /** What TX::Validate says about a value, per transaction. */
  type Verdict<!V> = (Owner, V) -> bool

  /** No value needs judging. */
  function NoVerdict<V>(): Verdict<V> { (o, v) => false }

  function Nobody(): Owner { Owner(ZeroKey(), 0) }

  /** waiting, timeouts and tx are the holder's tables; started and replies record the calls of
      Start and SendReply, the latter with the values found. */
  datatype Holder<K, V> = Holder(
    waiting: map<K, seq<Owner>>,
    timeouts: map<K, Time>,
    tx: map<Owner, TX<K, V>>,
    started: set<Owner>,
    replies: map<Owner, seq<seq<V>>>)

  function Empty<K, V>(): Holder<K, V> { Holder(map[], map[], map[], {}, map[]) }

  // ----- transitions

  function NewTX<K, V>(h: Holder<K, V>, askpeer: Owner, k: K, t: TX<K, V>, deadline: Time): Holder<K, V>
  {
    var waiters := if k in h.waiting then h.waiting[k] else [];
    h.(tx := h.tx[askpeer := t],
       waiting := h.waiting[k := waiters + [askpeer]],
       timeouts := if k in h.timeouts then h.timeouts else h.timeouts[k := deadline],
       started := if waiters == [] then h.started + {askpeer} else h.started,
       replies := h.replies[askpeer := []])
  }

  /** OnFound for each value in turn. */
  function OnFoundAll<K, V>(t: TX<K, V>, owner: Owner, from: Owner, values: seq<V>, accepts: Verdict<V>): TX<K, V>
    decreases |values|
  {
    if values == [] then t
    else
      var t1 := t.(peersAsked := t.peersAsked + {from.node},
                   valuesFound := if accepts(owner, values[0]) then t.valuesFound + [values[0]] else t.valuesFound);
      OnFoundAll(t1, owner, from, values[1..], accepts)
  }

  ghost function Waiters<K(!new), V>(h: Holder<K, V>, keys: set<K>): set<Owner>
  {
    set k, o | k in keys && k in h.waiting && o in h.waiting[k] :: o
  }

  /** Everybody who waits under these keys hears of the values, replies, and is dropped. */
  ghost function Answer<K(!new), V>(h: Holder<K, V>, keys: set<K>, from: Owner, values: seq<V>,
                                    accepts: Verdict<V>): Holder<K, V>
  {
    h.(tx := h.tx - Waiters(h, keys),
       waiting := h.waiting - keys,
       timeouts := h.timeouts - keys,
       replies := AnswerReplies(h, Waiters(h, keys), from, values, accepts))
  }

  ghost function AnswerReplies<K, V>(h: Holder<K, V>, who: set<Owner>, from: Owner, values: seq<V>, accepts: Verdict<V>)
    : map<Owner, seq<seq<V>>>
  {
    map o | o in h.replies ::
      if o in who && o in h.tx
      then h.replies[o] + [OnFoundAll(h.tx[o], o, from, values, accepts).valuesFound]
      else h.replies[o]
  }

  ghost function Found<K(!new), V>(h: Holder<K, V>, from: Owner, k: K, values: seq<V>,
                                   accepts: Verdict<V>): Holder<K, V>
  {
    Answer(h, {k}, from, values, accepts)
  }

  ghost function NotFound<K(!new), V>(h: Holder<K, V>, from: Owner): Holder<K, V>
  {
    if from in h.tx then Answer(h, {h.tx[from].target}, from, [], NoVerdict()) else h
  }

  ghost function Due<K(!new), V>(h: Holder<K, V>, now: Time): set<K>
  {
    set k | k in h.timeouts && now >= h.timeouts[k]
  }

  ghost function Expire<K(!new), V>(h: Holder<K, V>, now: Time): Holder<K, V>
  {
    Answer(h, Due(h, now), Nobody(), [], NoVerdict())
  }

  // ----- the invariant

  ghost predicate NoDuplicates(s: seq<Owner>)
  {
    forall i, j :: 0 <= i < j < |s| ==> s[i] != s[j]
  }

  /** Every owner waits once, under its own target, and every waiting owner is in tx. */
  ghost predicate WaitingMatches<K(!new), V>(h: Holder<K, V>)
  {
    && (forall o :: o in h.tx ==> h.tx[o].target in h.waiting && o in h.waiting[h.tx[o].target])
    && (forall k, o :: k in h.waiting && o in h.waiting[k] ==> o in h.tx && h.tx[o].target == k)
    && (forall k :: k in h.waiting ==> h.waiting[k] != [] && NoDuplicates(h.waiting[k]))
    && (forall k :: k in h.waiting <==> k in h.timeouts)
  }

  /** A registered transaction has replied exactly once if it has left tx, else not at all. */
  ghost predicate RepliedOnce<K, V>(h: Holder<K, V>)
  {
    && (forall o :: o in h.tx ==> o in h.replies)
    && (forall o :: o in h.replies ==> |h.replies[o]| == if o in h.tx then 0 else 1)
  }

  ghost predicate Inv<K(!new), V>(h: Holder<K, V>)
  {
    WaitingMatches(h) && RepliedOnce(h)
  }

  lemma AppendWaiter(w: seq<Owner>, o: Owner)
    requires w != [] ==> NoDuplicates(w) && o !in w
    ensures NoDuplicates(w + [o]) && forall x :: x in w + [o] <==> x in w || x == o
  {
    assert (w + [o])[|w|] == o;
    forall x | x in w + [o]
      ensures x in w || x == o
    {
      var i :| 0 <= i < |w| + 1 && (w + [o])[i] == x;
    }
    forall x | x in w
      ensures x in w + [o]
    {
      var i :| 0 <= i < |w| && w[i] == x;
      assert (w + [o])[i] == x;
    }
  }

  lemma NewTXKeepsWaiting<K(!new), V>(h: Holder<K, V>, askpeer: Owner, k: K, t: TX<K, V>, deadline: Time)
    requires WaitingMatches(h) && askpeer !in h.tx && t.target == k
    ensures WaitingMatches(NewTX(h, askpeer, k, t, deadline))
  {
    hide NoDuplicates;
    AppendWaiter(if k in h.waiting then h.waiting[k] else [], askpeer);
  }

  lemma NewTXKeepsInv<K(!new), V>(h: Holder<K, V>, askpeer: Owner, k: K, t: TX<K, V>, deadline: Time)
    requires Inv(h) && askpeer !in h.replies && t.target == k
    ensures Inv(NewTX(h, askpeer, k, t, deadline))
  {
    hide WaitingMatches;
    NewTXKeepsWaiting(h, askpeer, k, t, deadline);
  }

  lemma WaitersAre<K(!new), V>(h: Holder<K, V>, keys: set<K>)
    requires WaitingMatches(h)
    ensures forall o :: o in Waiters(h, keys) <==> o in h.tx && h.tx[o].target in keys
  {
  }

  lemma AnswerKeepsWaiting<K(!new), V>(h: Holder<K, V>, keys: set<K>, from: Owner, values: seq<V>, accepts: Verdict<V>)
    requires WaitingMatches(h)
    ensures WaitingMatches(Answer(h, keys, from, values, accepts))
  {
    WaitersAre(h, keys);
    hide Waiters, AnswerReplies;
  }

  lemma AnswerKeepsReplied<K(!new), V>(h: Holder<K, V>, keys: set<K>, from: Owner, values: seq<V>, accepts: Verdict<V>)
    requires Inv(h)
    ensures RepliedOnce(Answer(h, keys, from, values, accepts))
  {
    WaitersAre(h, keys);
    hide Waiters, OnFoundAll;
  }

  lemma AnswerKeepsInv<K(!new), V>(h: Holder<K, V>, keys: set<K>, from: Owner, values: seq<V>, accepts: Verdict<V>)
    requires Inv(h)
    ensures Inv(Answer(h, keys, from, values, accepts))
  {
    AnswerKeepsWaiting(h, keys, from, values, accepts);
    AnswerKeepsReplied(h, keys, from, values, accepts);
  }

  // ----- runs

  datatype Op<K, !V> =
    | Register(askpeer: Owner, k: K, t: TX<K, V>, deadline: Time)
    | OnFound(from: Owner, key: K, values: seq<V>, accepts: Verdict<V>)
    | OnNotFound(peer: Owner)
    | OnExpire(now: Time)

  ghost function Apply<K(!new), V>(h: Holder<K, V>, op: Op<K, V>): Holder<K, V>
  {
    match op
    case Register(askpeer, k, t, deadline) => NewTX(h, askpeer, k, t, deadline)
    case OnFound(from, k, values, accepts) => Found(h, from, k, values, accepts)
    case OnNotFound(peer) => NotFound(h, peer)
    case OnExpire(now) => Expire(h, now)
  }

  /** Transactions are registered under their own target with an owner never used before. */
  ghost predicate Legal<K, V>(h: Holder<K, V>, op: Op<K, V>)
  {
    op.Register? ==> op.askpeer !in h.replies && op.t.target == op.k
  }

  ghost predicate IsRun<K(!new), V>(run: seq<Holder<K, V>>, ops: seq<Op<K, V>>)
  {
    && |run| == |ops| + 1
    && run[0] == Empty()
    && forall i :: 0 <= i < |ops| ==> Legal(run[i], ops[i]) && run[i + 1] == Apply(run[i], ops[i])
  }

  lemma ApplyKeepsInv<K(!new), V>(h: Holder<K, V>, op: Op<K, V>)
    requires Inv(h) && Legal(h, op)
    ensures Inv(Apply(h, op))
  {
    hide Inv, Answer, NewTX;
    match op
    case Register(askpeer, k, t, deadline) => NewTXKeepsInv(h, askpeer, k, t, deadline);
    case OnFound(from, k, values, accepts) => AnswerKeepsInv(h, {k}, from, values, accepts);
    case OnNotFound(peer) =>
      if peer in h.tx { AnswerKeepsInv(h, {h.tx[peer].target}, peer, [], NoVerdict()); }
    case OnExpire(now) => AnswerKeepsInv(h, Due(h, now), Nobody(), [], NoVerdict());
  }

  lemma {:induction false} RunKeepsInv<K(!new), V>(run: seq<Holder<K, V>>, ops: seq<Op<K, V>>, i: nat)
    requires IsRun(run, ops) && i < |run|
    ensures Inv(run[i])
    decreases i
  {
    hide Apply;
    if i > 0 {
      RunKeepsInv(run, ops, i - 1);
      ApplyKeepsInv(run[i - 1], ops[i - 1]);
    }
  }

  /** In every run, each registered transaction has sent its reply exactly once if it is no longer
      pending and has not sent it while it is pending; pending owners wait under exactly their own
      target; and the keys with waiters are the keys with a deadline. */
  lemma EveryTransactionRepliesOnce<K(!new), V>(run: seq<Holder<K, V>>, ops: seq<Op<K, V>>, i: nat)
    requires IsRun(run, ops) && i < |run|
    ensures forall o :: o in run[i].replies ==> |run[i].replies[o]| == if o in run[i].tx then 0 else 1
    ensures forall k, o :: k in run[i].waiting && o in run[i].waiting[k] ==> o in run[i].tx && run[i].tx[o].target == k
    ensures forall o :: o in run[i].tx ==>
              run[i].tx[o].target in run[i].waiting && o in run[i].waiting[run[i].tx[o].target]
    ensures run[i].waiting.Keys == run[i].timeouts.Keys
  {
    hide Apply;
    RunKeepsInv(run, ops, i);
  }

  /** The operation settles everybody who waits under this key. */
  ghost predicate Settles<K(!new), V>(h: Holder<K, V>, op: Op<K, V>, k: K)
  {
    match op
    case Register(_, _, _, _) => false
    case OnFound(_, key, _, _) => key == k
    case OnNotFound(peer) => peer in h.tx && h.tx[peer].target == k
    case OnExpire(now) => k in h.timeouts && now >= h.timeouts[k]
  }

  /** A pending transaction is answered by an operation exactly if that is Found or NotFound on its
      key, or an expiry at or after the deadline of its key; otherwise it stays as it was. */
  lemma AnsweredIffSettled<K(!new), V>(h: Holder<K, V>, op: Op<K, V>, o: Owner)
    requires Inv(h) && Legal(h, op) && o in h.tx
    ensures var h' := Apply(h, op);
            && o in h'.replies
            && (Settles(h, op, h.tx[o].target) <==> |h'.replies[o]| == 1)
            && (!Settles(h, op, h.tx[o].target) ==>
                  && o in h'.tx && h'.tx[o] == h.tx[o] && h'.replies[o] == []
                  && h.tx[o].target in h'.timeouts && h'.timeouts[h.tx[o].target] == h.timeouts[h.tx[o].target])
  {
    ApplyKeepsInv(h, op);
    match op
    case Register(askpeer, k, t, deadline) =>
    case OnFound(from, k, values, accepts) => WaitersAre(h, {k});
    case OnNotFound(peer) => if peer in h.tx { WaitersAre(h, {h.tx[peer].target}); }
    case OnExpire(now) => WaitersAre(h, Due(h, now));
  }

  /** The values that Validate accepts, in order. */
  function Accepted<V>(values: seq<V>, owner: Owner, accepts: Verdict<V>): seq<V>
  {
    if values == [] then []
    else (if accepts(owner, values[0]) then [values[0]] else []) + Accepted(values[1..], owner, accepts)
  }

  /** What is sent: the values found before, then those of this answer that Validate accepts, in the
      order of the answer and as often as they occur in it. */
  lemma {:induction false} ReplyCarriesAccepted<K, V>(t: TX<K, V>, owner: Owner, from: Owner, values: seq<V>,
                                                      accepts: Verdict<V>)
    ensures var t' := OnFoundAll(t, owner, from, values, accepts);
            && t'.valuesFound == t.valuesFound + Accepted(values, owner, accepts)
            && t'.target == t.target && t'.whoasked == t.whoasked
            && t'.peersAsked == t.peersAsked + (if values == [] then {} else {from.node})
    decreases |values|
  {
    if values != [] {
      var v := values[0];
      var t1 := t.(peersAsked := t.peersAsked + {from.node},
                   valuesFound := if accepts(owner, v) then t.valuesFound + [v] else t.valuesFound);
      ReplyCarriesAccepted(t1, owner, from, values[1..], accepts);
    }
  }

  /** What an answered transaction sends: what it had found, then what Validate accepts of an OnFound.
      It is no longer pending. */
  lemma AnswerCarries<K(!new), V>(h: Holder<K, V>, op: Op<K, V>, o: Owner)
    requires Inv(h) && Legal(h, op) && o in h.tx && Settles(h, op, h.tx[o].target)
    ensures var h' := Apply(h, op);
            && o !in h'.tx && o in h'.replies
            && h'.replies[o] == [h.tx[o].valuesFound + (if op.OnFound? then Accepted(op.values, o, op.accepts) else [])]
  {
    var t := h.tx[o];
    match op
    case OnFound(from, k, values, accepts) =>
      WaitersAre(h, {k});
      ReplyCarriesAccepted(t, o, from, values, accepts);
    case OnNotFound(peer) =>
      WaitersAre(h, {h.tx[peer].target});
      ReplyCarriesAccepted(t, o, peer, [], NoVerdict());
    case OnExpire(now) =>
      WaitersAre(h, Due(h, now));
      ReplyCarriesAccepted(t, o, Nobody(), [], NoVerdict());
  }

  /** A new transaction is pending as registered, has sent nothing, and starts a request exactly if no
      other is pending on its key; nothing else changes for the others. */
  lemma RegisteredIsPending<K(!new), V>(h: Holder<K, V>, op: Op<K, V>, o: Owner)
    requires Inv(h) && Legal(h, op) && op.Register?
    ensures var h' := Apply(h, op);
            && op.askpeer in h'.tx && h'.tx[op.askpeer] == op.t && h'.replies[op.askpeer] == []
            && h'.started == h.started + (if exists other :: other in h.tx && h.tx[other].target == op.k then {}
                                          else {op.askpeer})
            && (o != op.askpeer ==> (o in h'.tx <==> o in h.tx) && (o in h'.replies <==> o in h.replies))
            && (o != op.askpeer && o in h.replies ==> h'.replies[o] == h.replies[o])
  {
    if op.k in h.waiting {
      var first := h.waiting[op.k][0];
      assert first in h.waiting[op.k];
      assert first in h.tx && h.tx[first].target == op.k;
    }
  }

  // ----- one request for each key

  /** Of those who wait under a key the first has started a request, and nobody else. */
  ghost predicate OneStarted<K(!new), V>(h: Holder<K, V>)
  {
    && h.started <= h.replies.Keys
    && forall k, n :: k in h.waiting && 0 <= n < |h.waiting[k]| ==> (h.waiting[k][n] in h.started <==> n == 0)
  }

  lemma ApplyKeepsOneStarted<K(!new), V>(h: Holder<K, V>, op: Op<K, V>)
    requires Inv(h) && Legal(h, op) && OneStarted(h)
    ensures OneStarted(Apply(h, op))
  {
    hide NoDuplicates, AnswerReplies, Waiters;
    match op
    case Register(askpeer, k, t, deadline) => RegisterKeepsOneStarted(h, askpeer, k, t, deadline);
    case OnFound(from, k, values, accepts) => AnswerKeepsOneStarted(h, {k}, from, values, accepts);
    case OnNotFound(peer) =>
      if peer in h.tx { AnswerKeepsOneStarted(h, {h.tx[peer].target}, peer, [], NoVerdict()); }
    case OnExpire(now) => AnswerKeepsOneStarted(h, Due(h, now), Nobody(), [], NoVerdict());
  }

  lemma AnswerKeepsOneStarted<K(!new), V>(h: Holder<K, V>, keys: set<K>, from: Owner, values: seq<V>,
                                          accepts: Verdict<V>)
    requires OneStarted(h)
    ensures OneStarted(Answer(h, keys, from, values, accepts))
  {
    assert AnswerReplies(h, Waiters(h, keys), from, values, accepts).Keys == h.replies.Keys;
  }

  lemma RegisterKeepsOneStarted<K(!new), V>(h: Holder<K, V>, askpeer: Owner, k: K, t: TX<K, V>, deadline: Time)
    requires WaitingMatches(h) && RepliedOnce(h) && askpeer !in h.replies && OneStarted(h)
    ensures OneStarted(NewTX(h, askpeer, k, t, deadline))
  {
    hide NoDuplicates;
    var h' := NewTX(h, askpeer, k, t, deadline);
    forall key, n | key in h'.waiting && 0 <= n < |h'.waiting[key]|
      ensures h'.waiting[key][n] in h'.started <==> n == 0
    {
      if key in h.waiting && n < |h.waiting[key]| {
        var o := h.waiting[key][n];
        assert o in h.waiting[key];
        assert h'.waiting[key][n] == o && o in h.tx && o != askpeer;
      } else {
        assert key == k && h'.waiting[key][n] == askpeer;
      }
    }
  }

  /** In every run there is one request in flight for each key that is waited for: the one of the
      transaction registered first. */
  lemma {:induction false} OneRequestPerKey<K(!new), V>(run: seq<Holder<K, V>>, ops: seq<Op<K, V>>, i: nat)
    requires IsRun(run, ops) && i < |run|
    ensures OneStarted(run[i])
    decreases i
  {
    hide Apply, Inv;
    if i > 0 {
      OneRequestPerKey(run, ops, i - 1);
      RunKeepsInv(run, ops, i - 1);
      ApplyKeepsOneStarted(run[i - 1], ops[i - 1]);
    }
  }

  // ----- deadlines

  ghost predicate Registers<K, V>(op: Op<K, V>, k: K) { op.Register? && op.k == k }

  ghost predicate UnsettledFrom<K(!new), V>(run: seq<Holder<K, V>>, ops: seq<Op<K, V>>, a: nat, i: nat, k: K)
    requires |run| == |ops| + 1 && i < |run|
  {
    forall m :: a <= m < i ==> !Settles(run[m], ops[m], k)
  }

  ghost predicate UnregisteredFrom<K(!new), V>(ops: seq<Op<K, V>>, a: nat, i: nat, k: K)
    requires i <= |ops|
  {
    forall m :: a <= m < i ==> !Registers(ops[m], k)
  }

  /** Before step i the key was last settled just before step a, or never. */
  ghost predicate LastSettled<K(!new), V>(run: seq<Holder<K, V>>, ops: seq<Op<K, V>>, a: nat, i: nat, k: K)
    requires |run| == |ops| + 1 && i < |run|
  {
    && a <= i && (a == 0 || Settles(run[a - 1], ops[a - 1], k))
    && UnsettledFrom(run, ops, a, i, k)
  }

  /** Step j is the earliest registration on the key since it was last settled. */
  ghost predicate FirstSince<K(!new), V>(run: seq<Holder<K, V>>, ops: seq<Op<K, V>>, a: nat, j: nat, i: nat, k: K)
    requires |run| == |ops| + 1 && i < |run|
  {
    && LastSettled(run, ops, a, i, k) && a <= j < i
    && Registers(ops[j], k) && UnregisteredFrom(ops, a, j, k)
  }

  lemma DeadlineStep<K(!new), V>(h: Holder<K, V>, op: Op<K, V>, k: K)
    ensures var h' := Apply(h, op);
            && (k in h'.timeouts <==> (k in h.timeouts && !Settles(h, op, k)) || Registers(op, k))
            && (k in h.timeouts && !Settles(h, op, k) ==> h'.timeouts[k] == h.timeouts[k])
            && (k !in h.timeouts && Registers(op, k) ==> h'.timeouts[k] == op.deadline)
  {
    hide AnswerReplies, Waiters;
  }

  lemma {:induction false} NoDeadlineYet<K(!new), V>(run: seq<Holder<K, V>>, ops: seq<Op<K, V>>, a: nat, i: nat, k: K)
    requires IsRun(run, ops) && i < |run|
    requires LastSettled(run, ops, a, i, k) && UnregisteredFrom(ops, a, i, k)
    ensures k !in run[i].timeouts
    decreases i
  {
    hide Apply, Settles, Legal;
    if i > 0 {
      DeadlineStep(run[i - 1], ops[i - 1], k);
      if a < i {
        NoDeadlineYet(run, ops, a, i - 1, k);
      } else {
        SettlesNoRegister(run[i - 1], ops[i - 1], k);
      }
    }
  }

  lemma SettlesNoRegister<K(!new), V>(h: Holder<K, V>, op: Op<K, V>, k: K)
    ensures !(Settles(h, op, k) && Registers(op, k))
  {
  }

  lemma {:induction false} FirstSetsDeadline<K(!new), V>(run: seq<Holder<K, V>>, ops: seq<Op<K, V>>, a: nat, j: nat,
                                                         i: nat, k: K)
    requires IsRun(run, ops) && i < |run| && FirstSince(run, ops, a, j, i, k)
    ensures k in run[i].timeouts && run[i].timeouts[k] == ops[j].deadline
    decreases i
  {
    hide Apply, Settles, Legal;
    DeadlineStep(run[i - 1], ops[i - 1], k);
    if j == i - 1 {
      NoDeadlineYet(run, ops, a, j, k);
    } else {
      FirstSetsDeadline(run, ops, a, j, i - 1, k);
    }
  }

  /** How the last settlement and the earliest registration move with one more step. */
  lemma SettledOrNot<K(!new), V>(run: seq<Holder<K, V>>, ops: seq<Op<K, V>>, a: nat, i: nat, k: K)
    requires IsRun(run, ops) && 0 < i < |run| && LastSettled(run, ops, a, i - 1, k)
    ensures Settles(run[i - 1], ops[i - 1], k) ==> LastSettled(run, ops, i, i, k)
    ensures !Settles(run[i - 1], ops[i - 1], k) ==> LastSettled(run, ops, a, i, k)
  {
    hide Apply, Settles, Legal;
  }

  lemma {:induction false} DeadlineHasFirst<K(!new), V>(run: seq<Holder<K, V>>, ops: seq<Op<K, V>>, i: nat, k: K)
    returns (a: nat, j: nat)
    requires IsRun(run, ops) && i < |run|
    ensures LastSettled(run, ops, a, i, k)
    ensures k in run[i].timeouts ==> FirstSince(run, ops, a, j, i, k)
    ensures k !in run[i].timeouts ==> UnregisteredFrom(ops, a, i, k)
    decreases i
  {
    hide Apply, Settles, Legal;
    a, j := 0, 0;
    if i > 0 {
      a, j := DeadlineHasFirst(run, ops, i - 1, k);
      SettledOrNot(run, ops, a, i, k);
      DeadlineStep(run[i - 1], ops[i - 1], k);
      if Settles(run[i - 1], ops[i - 1], k) {
        SettlesNoRegister(run[i - 1], ops[i - 1], k);
        a := i;
      } else if k !in run[i - 1].timeouts {
        j := i - 1;
      }
    }
  }

  /** In every run a key has a deadline exactly if it was registered since it was last settled, and the
      deadline is that of the earliest such registration: later ones do not move it. */
  lemma DeadlineIsOfFirst<K(!new), V>(run: seq<Holder<K, V>>, ops: seq<Op<K, V>>, i: nat, k: K)
    requires IsRun(run, ops) && i < |run|
    ensures k in run[i].timeouts <==> exists a: nat, j: nat :: FirstSince(run, ops, a, j, i, k)
    ensures forall a: nat, j: nat :: FirstSince(run, ops, a, j, i, k) ==> run[i].timeouts[k] == ops[j].deadline
  {
    hide Apply, Settles, Legal;
    forall a: nat, j: nat | FirstSince(run, ops, a, j, i, k)
      ensures k in run[i].timeouts && run[i].timeouts[k] == ops[j].deadline
    {
      FirstSetsDeadline(run, ops, a, j, i, k);
    }
    var a, j := DeadlineHasFirst(run, ops, i, k);
  }

  /** An expiry answers a pending transaction exactly if it comes at or after the deadline of the
      earliest registration on its key since that was last settled. */
  lemma ExpiryAnswersIff<K(!new), V>(run: seq<Holder<K, V>>, ops: seq<Op<K, V>>, a: nat, j: nat, i: nat, o: Owner)
    requires IsRun(run, ops) && i < |ops| && ops[i].OnExpire? && o in run[i].tx
    requires FirstSince(run, ops, a, j, i, run[i].tx[o].target)
    ensures o in run[i + 1].replies
    ensures |run[i + 1].replies[o]| == 1 <==> ops[i].now >= ops[j].deadline
    ensures o in run[i + 1].tx <==> ops[i].now < ops[j].deadline
  {
    hide Apply, Inv, Legal;
    RunKeepsInv(run, ops, i);
    FirstSetsDeadline(run, ops, a, j, i, run[i].tx[o].target);
    AnsweredIffSettled(run[i], ops[i], o);
    if ops[i].now >= ops[j].deadline { AnswerCarries(run[i], ops[i], o); }
  }
}
