/** The transaction tables as objects, and the DHT context that fills them
    (llarp/dht/txholder.hpp, llarp/dht/context.cpp). Tables are visited in an arbitrary order. */
module DhtContext {
  import opened Common
  import opened DhtKey
  import opened DhtSearch
  import opened DhtLookup
  import opened DhtTransactions

  const REQUEST_TIMEOUT: Time := 15000
  const DIRECT_TIMEOUT: Time := 1000

  /** The loop of Inform, after the first i waiters of key. */
  ghost function InformSome<K(!new), V>(h: Holder<K, V>, who: set<Owner>, from: Owner, values: seq<V>,
                                        accepts: Verdict<V>): Holder<K, V>
  {
    h.(tx := h.tx - who, replies := AnswerReplies(h, who, from, values, accepts))
  }

  lemma InformNone<K(!new), V>(h: Holder<K, V>, from: Owner, values: seq<V>, accepts: Verdict<V>)
    ensures InformSome(h, {}, from, values, accepts) == h
  {
    assert AnswerReplies(h, {}, from, values, accepts) == h.replies;
    assert h.tx - {} == h.tx;
  }

  lemma InformOneMore<K(!new), V>(h: Holder<K, V>, who: set<Owner>, o: Owner, from: Owner, values: seq<V>,
                                  accepts: Verdict<V>)
    requires o !in who && (o in h.tx ==> o in h.replies)
    ensures var r := InformSome(h, who, from, values, accepts);
            && (o in r.tx <==> o in h.tx) && (o in h.tx ==> r.tx[o] == h.tx[o] && o in r.replies)
            && InformSome(h, who + {o}, from, values, accepts)
               == if o in r.tx
                  then r.(tx := r.tx - {o},
                          replies := r.replies[o := r.replies[o]
                                               + [OnFoundAll(h.tx[o], o, from, values, accepts).valuesFound]])
                  else r
  {
    hide OnFoundAll;
    var r, q := InformSome(h, who, from, values, accepts), InformSome(h, who + {o}, from, values, accepts);
    if o in h.tx {
      assert q.tx == r.tx - {o};
      assert q.replies == r.replies[o := r.replies[o] + [OnFoundAll(h.tx[o], o, from, values, accepts).valuesFound]];
    } else {
      assert q.tx == r.tx;
      assert q.replies == r.replies;
    }
  }

  lemma AnswerOne<K(!new), V>(h: Holder<K, V>, key: K, from: Owner, values: seq<V>, accepts: Verdict<V>)
    ensures var who := if key in h.waiting then Elements(h.waiting[key]) else {};
            var r := InformSome(h, who, from, values, accepts);
            Answer(h, {key}, from, values, accepts) == r.(waiting := r.waiting - {key}, timeouts := r.timeouts - {key})
  {
    hide AnswerReplies;
    var who := if key in h.waiting then Elements(h.waiting[key]) else {};
    assert who == Waiters(h, {key});
  }

  lemma NothingFound<K, V>(t: TX<K, V>, owner: Owner, from: Owner)
    ensures OnFoundAll(t, owner, from, [], NoVerdict()) == t
  {
  }

  lemma ExpiredReplies<K(!new), V>(h: Holder<K, V>, keys: set<K>, o: Owner)
    requires WaitingMatches(h) && o in h.replies
    ensures var r := Answer(h, keys, Nobody(), [], NoVerdict());
            && o in r.replies
            && r.replies[o] == (if o in h.tx && h.tx[o].target in keys then h.replies[o] + [h.tx[o].valuesFound]
                                else h.replies[o])
            && (o in r.tx <==> o in h.tx && h.tx[o].target !in keys)
            && (o in r.tx ==> r.tx[o] == h.tx[o])
  {
    WaitersAre(h, keys);
    hide Waiters, WaitingMatches, OnFoundAll;
    if o in h.tx { NothingFound(h.tx[o], o, Nobody()); }
  }

  lemma ExpiredRepliesTwice<K(!new), V>(h: Holder<K, V>, keys: set<K>, key: K)
    requires Inv(h)
    ensures var r := Answer(h, keys, Nobody(), [], NoVerdict());
            Answer(h, keys + {key}, Nobody(), [], NoVerdict()).replies
            == Answer(r, {key}, Nobody(), [], NoVerdict()).replies
  {
    hide Answer, WaitingMatches, RepliedOnce;
    var r := Answer(h, keys, Nobody(), [], NoVerdict());
    AnswerKeepsInv(h, keys, Nobody(), [], NoVerdict());
    AnswerKeys(h, keys);
    AnswerKeys(h, keys + {key});
    AnswerKeys(r, {key});
    forall o | o in h.replies
      ensures Answer(h, keys + {key}, Nobody(), [], NoVerdict()).replies[o]
           == Answer(r, {key}, Nobody(), [], NoVerdict()).replies[o]
    {
      ExpiredReplies(h, keys, o);
      ExpiredReplies(h, keys + {key}, o);
      ExpiredReplies(r, {key}, o);
    }
  }

  lemma AnswerKeys<K(!new), V>(h: Holder<K, V>, keys: set<K>)
    ensures Answer(h, keys, Nobody(), [], NoVerdict()).replies.Keys == h.replies.Keys
  {
  }

  lemma ExpiredTables<K(!new), V>(h: Holder<K, V>, keys: set<K>)
    requires WaitingMatches(h)
    ensures var r := Answer(h, keys, Nobody(), [], NoVerdict());
            && r.waiting == h.waiting - keys && r.timeouts == h.timeouts - keys && r.started == h.started
            && r.tx == map o | o in h.tx && h.tx[o].target !in keys :: h.tx[o]
  {
    WaitersAre(h, keys);
    hide Waiters, AnswerReplies, WaitingMatches;
  }

  /** Answering key by key is answering all. */
  lemma AnswerOneMore<K(!new), V>(h: Holder<K, V>, keys: set<K>, key: K)
    requires Inv(h) && key !in keys
    ensures var r := Answer(h, keys, Nobody(), [], NoVerdict());
            Answer(h, keys + {key}, Nobody(), [], NoVerdict()) == Answer(r, {key}, Nobody(), [], NoVerdict())
  {
    hide Answer, WaitingMatches, RepliedOnce;
    var r := Answer(h, keys, Nobody(), [], NoVerdict());
    AnswerKeepsInv(h, keys, Nobody(), [], NoVerdict());
    ExpiredRepliesTwice(h, keys, key);
    ExpiredTables(h, keys);
    ExpiredTables(h, keys + {key});
    ExpiredTables(r, {key});
    assert h.waiting - (keys + {key}) == (h.waiting - keys) - {key};
    assert h.timeouts - (keys + {key}) == (h.timeouts - keys) - {key};
  }

  /** One step of the loop over the deadlines. */
  lemma ExpireNext<K(!new), V>(h: Holder<K, V>, todo: set<K>, k: K, now: Time)
    requires Inv(h) && k in todo && todo <= h.timeouts.Keys
    ensures var r := Answer(h, Due(h, now) - todo, Nobody(), [], NoVerdict());
            && Inv(r) && k in r.timeouts && r.timeouts[k] == h.timeouts[k]
            && Answer(h, Due(h, now) - (todo - {k}), Nobody(), [], NoVerdict())
               == if now >= h.timeouts[k] then Answer(r, {k}, Nobody(), [], NoVerdict()) else r
  {
    hide Inv, Answer, Due;
    var due := Due(h, now);
    DueKeys(h, now);
    AnswerOneMore(h, due - todo, k);
    AnswerKeepsInv(h, due - todo, Nobody(), [], NoVerdict());
    AnswerTimeouts(h, due - todo, k);
    assert due - (todo - {k}) == if k in due then (due - todo) + {k} else due - todo;
  }

  lemma AnswerNobody<K(!new), V>(h: Holder<K, V>)
    ensures Answer(h, {}, Nobody(), [], NoVerdict()) == h
  {
    var r := Answer(h, {}, Nobody(), [], NoVerdict());
    assert Waiters(h, {}) == {};
    assert r.tx == h.tx && r.waiting == h.waiting && r.timeouts == h.timeouts && r.replies == h.replies;
  }

  /** Somebody waits under k exactly if a pending transaction has that target. */
  lemma Waited<K(!new), V>(h: Holder<K, V>, k: K)
    requires Inv(h)
    ensures k in h.waiting ==> h.waiting[k] != []
    ensures k in h.waiting <==> exists o :: o in h.tx && h.tx[o].target == k
    ensures k in h.waiting <==> k in h.timeouts
  {
    if k in h.waiting {
      var o := h.waiting[k][0];
      assert o in h.waiting[k];
      assert o in h.tx && h.tx[o].target == k;
    }
  }

  class TXHolder<K(==, !new), V> {
    var waiting: map<K, seq<Owner>>
    var timeouts: map<K, Time>
    var tx: map<Owner, TX<K, V>>
    var started: set<Owner>
    var replies: map<Owner, seq<seq<V>>>

    ghost function View(): Holder<K, V>
      reads this
    {
      Holder(waiting, timeouts, tx, started, replies)
    }

    constructor ()
      ensures View() == Empty()
    {
      waiting, timeouts, tx, started, replies := map[], map[], map[], {}, map[];
    }

    method HasLookupFor(target: K) returns (has: bool)
      requires Inv(View())
      ensures has <==> exists o :: o in tx && tx[o].target == target
    {
      Waited(View(), target);
      has := target in timeouts;
    }

    /** Only the first transaction on a key starts a request; the others wait for its answer. */
    method New(askpeer: Owner, k: K, t: TX<K, V>, now: Time, timeout: Time) returns (starts: bool)
      requires Inv(View()) && askpeer !in replies && t.target == k
      modifies this
      ensures View() == NewTX(old(View()), askpeer, k, t, now + timeout) && Inv(View())
      ensures starts <==> !exists o :: o in old(tx) && old(tx)[o].target == k
      ensures k in timeouts && timeouts[k] == if starts then now + timeout else old(timeouts)[k]
    {
      hide Inv;
      NewTXKeepsInv(View(), askpeer, k, t, now + timeout);
      Waited(View(), k);
      tx := tx[askpeer := t];
      replies := replies[askpeer := []];
      var waiters := if k in waiting then waiting[k] else [];
      starts := |waiters| == 0;
      waiting := waiting[k := waiters + [askpeer]];
      if k !in timeouts {
        timeouts := timeouts[k := now + timeout];
      }
      if starts {
        started := started + {askpeer};
      }
    }

    /** Inform with sendreply set, which is how it is always called. */
    method Inform(from: Owner, key: K, values: seq<V>, accepts: Verdict<V>, removeTimeouts: bool)
      requires RepliedOnce(View()) && (key in waiting ==> NoDuplicates(waiting[key]))
      modifies this`tx, this`replies, this`waiting, this`timeouts
      ensures View() == Answer(old(View()), {key}, from, values, accepts).(
                          timeouts := if removeTimeouts then old(timeouts) - {key} else old(timeouts))
    {
      AnswerOne(View(), key, from, values, accepts);
      var range := if key in waiting then waiting[key] else [];
      InformEach(range, from, values, accepts);
      waiting := waiting - {key};
      if removeTimeouts { timeouts := timeouts - {key}; }
      assert key !in old(waiting) ==> Elements(range) == {};
    }

    method InformEach(range: seq<Owner>, from: Owner, values: seq<V>, accepts: Verdict<V>)
      requires RepliedOnce(View()) && NoDuplicates(range)
      modifies this`tx, this`replies
      ensures View() == InformSome(old(View()), Elements(range), from, values, accepts)
    {
      hide InformSome;
      ghost var h := View();
      InformNone(h, from, values, accepts);
      assert Elements(range[..0]) == {};
      for i := 0 to |range|
        invariant View() == InformSome(h, Elements(range[..i]), from, values, accepts)
      {
        InformOneMore(h, Elements(range[..i]), range[i], from, values, accepts);
        assert Elements(range[..i + 1]) == Elements(range[..i]) + {range[i]};
        InformOne(range[i], from, values, accepts);
      }
      assert range[..|range|] == range;
    }

    method InformOne(owner: Owner, from: Owner, values: seq<V>, accepts: Verdict<V>)
      requires owner in tx ==> owner in replies
      modifies this`tx, this`replies
      ensures var r := old(View());
              View() == if owner in r.tx
                        then r.(tx := r.tx - {owner},
                                replies := r.replies[owner := r.replies[owner]
                                                     + [OnFoundAll(r.tx[owner], owner, from, values,
                                                                   accepts).valuesFound]])
                        else r
    {
      if owner in tx {
        var t := tx[owner];
        var i := 0;
        while i < |values|
          invariant 0 <= i <= |values|
          invariant OnFoundAll(t, owner, from, values[i..], accepts)
                 == OnFoundAll(old(tx)[owner], owner, from, values, accepts)
        {
          var value := values[i];
          assert values[i..][0] == value && values[i..][1..] == values[i + 1..];
          t := t.(peersAsked := t.peersAsked + {from.node},
                  valuesFound := if accepts(owner, value) then t.valuesFound + [value] else t.valuesFound);
          i := i + 1;
        }
        assert values[i..] == [];
        replies := replies[owner := replies[owner] + [t.valuesFound]];
        tx := tx - {owner};
      }
    }

    method OnFound(from: Owner, k: K, values: seq<V>, accepts: Verdict<V>)
      requires Inv(View())
      modifies this
      ensures View() == Found(old(View()), from, k, values, accepts) && Inv(View())
    {
      AnswerKeepsInv(View(), {k}, from, values, accepts);
      Inform(from, k, values, accepts, true);
    }

    method OnNotFound(from: Owner)
      requires Inv(View())
      modifies this
      ensures View() == NotFound(old(View()), from) && Inv(View())
    {
      if from in tx {
        AnswerKeepsInv(View(), {tx[from].target}, from, [], NoVerdict());
        Inform(from, tx[from].target, [], NoVerdict(), true);
      }
    }

    method ExpireAll(now: Time)
      requires Inv(View())
      modifies this
      ensures View() == Expire(old(View()), now) && Inv(View())
      ensures replies.Keys == old(replies.Keys)
    {
      AnswerKeys(View(), Due(View(), now));
      ExpireEach(timeouts.Keys, now);
      AnswerKeepsInv(old(View()), Due(old(View()), now), Nobody(), [], NoVerdict());
    }

    method ExpireEach(keys: set<K>, now: Time)
      requires Inv(View()) && keys == View().timeouts.Keys
      modifies this
      ensures View() == Answer(old(View()), Due(old(View()), now), Nobody(), [], NoVerdict())
    {
      hide Inv, Answer, View, Due;
      ghost var h := View();
      ghost var due := Due(h, now);
      DueKeys(h, now);
      AnswerNobody(h);
      var todo := keys;
      assert due - todo == {};
      while todo != {}
        invariant todo <= keys
        invariant View() == Answer(h, due - todo, Nobody(), [], NoVerdict())
        decreases |todo|
      {
        var k :| k in todo;
        ExpireNext(h, todo, k, now);
        todo := todo - {k};
        ExpireOne(k, now);
      }
      assert due - {} == due;
    }

    method ExpireOne(k: K, now: Time)
      requires Inv(View()) && k in View().timeouts
      modifies this
      ensures View() == if now >= old(View()).timeouts[k]
                        then Answer(old(View()), {k}, Nobody(), [], NoVerdict())
                        else old(View())
    {
      if now >= timeouts[k] {
        Inform(Nobody(), k, [], NoVerdict(), false);
        timeouts := timeouts - {k};
      }
    }
  }

  lemma DueKeys<K(!new), V>(h: Holder<K, V>, now: Time)
    ensures Due(h, now) <= h.timeouts.Keys
    ensures forall k :: k in h.timeouts ==> (k in Due(h, now) <==> now >= h.timeouts[k])
  {
  }

  lemma AnswerTimeouts<K(!new), V>(h: Holder<K, V>, keys: set<K>, k: K)
    requires k in h.timeouts && k !in keys
    ensures var r := Answer(h, keys, Nobody(), [], NoVerdict());
            k in r.timeouts && r.timeouts[k] == h.timeouts[k]
  {
  }

  // ----- the context

  datatype Reply = GotSelf | GotContact(rc: Key) | GotNothing | GotCloser(next: Key)

  /** Contacts and introsets stay abstract; only their transactions matter here. */
  class Context<RC, IS> {
    var ids: nat
    const router: Router
    const pendingRouterLookups: TXHolder<Key, RC>
    const pendingIntrosetLookups: TXHolder<Owner, IS>
    const pendingExploreLookups: TXHolder<Key, Key>

    /** The three tables are consistent, and no id above ids has been given out. */
    ghost predicate Valid()
      reads this, pendingRouterLookups, pendingIntrosetLookups, pendingExploreLookups
    {
      && pendingRouterLookups as object != pendingExploreLookups
      && pendingRouterLookups as object != pendingIntrosetLookups
      && pendingExploreLookups as object != pendingIntrosetLookups
      && Inv(pendingRouterLookups.View()) && Inv(pendingIntrosetLookups.View()) && Inv(pendingExploreLookups.View())
      && (forall o :: o in pendingRouterLookups.replies ==> o.txid <= ids)
      && (forall o :: o in pendingIntrosetLookups.replies ==> o.txid <= ids)
      && (forall o :: o in pendingExploreLookups.replies ==> o.txid <= ids)
    }

    constructor (router: Router, ids: nat)
      ensures Valid() && this.router == router && this.ids == ids
      ensures fresh(pendingRouterLookups) && fresh(pendingIntrosetLookups) && fresh(pendingExploreLookups)
    {
      this.router, this.ids := router, ids;
      pendingRouterLookups := new TXHolder();
      pendingIntrosetLookups := new TXHolder();
      pendingExploreLookups := new TXHolder();
    }

    method ExploreNetworkVia(askpeer: Key, now: Time)
      requires Valid()
      modifies this, pendingExploreLookups
      ensures Valid() && ids == old(ids) + 1
      ensures pendingExploreLookups.View()
           == NewTX(old(pendingExploreLookups.View()), Owner(askpeer, ids), askpeer,
                    TX(askpeer, Nobody(), {}, []), now + REQUEST_TIMEOUT)
    {
      ids := ids + 1;
      var _ := pendingExploreLookups.New(Owner(askpeer, ids), askpeer, TX(askpeer, Nobody(), {}, []), now,
                                         REQUEST_TIMEOUT);
    }

    method LookupRouterForPath(target: Key, txid: nat, askpeer: Key, now: Time)
      requires Valid()
      modifies this, pendingRouterLookups
      ensures Valid() && ids == old(ids) + 1
      ensures pendingRouterLookups.View()
           == NewTX(old(pendingRouterLookups.View()), Owner(askpeer, ids), target,
                    TX(target, Owner(router.ourKey, txid), {router.ourKey}, []), now + REQUEST_TIMEOUT)
    {
      LookupRouterRecursive(target, router.ourKey, txid, askpeer, now);
    }

    method LookupRouterRecursive(target: Key, whoasked: Key, txid: nat, askpeer: Key, now: Time)
      requires Valid()
      modifies this, pendingRouterLookups
      ensures Valid() && ids == old(ids) + 1
      ensures pendingRouterLookups.View()
           == NewTX(old(pendingRouterLookups.View()), Owner(askpeer, ids), target,
                    TX(target, Owner(whoasked, txid), {router.ourKey}, []), now + REQUEST_TIMEOUT)
    {
      ids := ids + 1;
      var _ := pendingRouterLookups.New(Owner(askpeer, ids), target,
                                        TX(target, Owner(whoasked, txid), {router.ourKey}, []), now, REQUEST_TIMEOUT);
    }

    /** Introset transactions wait under an owner: the one who asked, or for a local publish the
        peer that is told. */
    method NewIntrosetTX(peer: Key, key: Owner, asked: set<Key>, now: Time, timeout: Time)
      requires Valid()
      modifies this, pendingIntrosetLookups
      ensures Valid() && ids == old(ids) + 1
      ensures pendingIntrosetLookups.View()
           == NewTX(old(pendingIntrosetLookups.View()), Owner(peer, ids), key, TX(key, key, asked, []), now + timeout)
    {
      ids := ids + 1;
      var _ := pendingIntrosetLookups.New(Owner(peer, ids), key, TX(key, key, asked, []), now, timeout);
    }

    method LookupIntroSetForPath(txid: nat, askpeer: Key, now: Time)
      requires Valid()
      modifies this, pendingIntrosetLookups
      ensures Valid() && ids == old(ids) + 1
      ensures var asker := Owner(router.ourKey, txid);
              pendingIntrosetLookups.View()
              == NewTX(old(pendingIntrosetLookups.View()), Owner(askpeer, ids), asker,
                       TX(asker, asker, {router.ourKey}, []), now + REQUEST_TIMEOUT)
    {
      NewIntrosetTX(askpeer, Owner(router.ourKey, txid), {router.ourKey}, now, REQUEST_TIMEOUT);
    }

    method PropagateIntroSetTo(from: Key, txid: nat, tellpeer: Key, now: Time)
      requires Valid()
      modifies this, pendingIntrosetLookups
      ensures Valid() && ids == old(ids) + 1
      ensures var asker := Owner(from, txid);
              pendingIntrosetLookups.View()
              == NewTX(old(pendingIntrosetLookups.View()), Owner(tellpeer, ids), asker,
                       TX(asker, asker, {}, []), now + REQUEST_TIMEOUT)
    {
      NewIntrosetTX(tellpeer, Owner(from, txid), {}, now, REQUEST_TIMEOUT);
    }

    method PropagateLocalIntroSet(tellpeer: Key, now: Time)
      requires Valid()
      modifies this, pendingIntrosetLookups
      ensures Valid() && ids == old(ids) + 1
      ensures var peer := Owner(tellpeer, ids);
              pendingIntrosetLookups.View()
              == NewTX(old(pendingIntrosetLookups.View()), peer, peer, TX(peer, peer, {}, []), now + REQUEST_TIMEOUT)
    {
      NewIntrosetTX(tellpeer, Owner(tellpeer, ids + 1), {}, now, REQUEST_TIMEOUT);
    }

    method LookupIntroSetRelayed(whoasked: Key, txid: nat, askpeer: Key, now: Time)
      requires Valid()
      modifies this, pendingIntrosetLookups
      ensures Valid() && ids == old(ids) + 1
      ensures var asker := Owner(whoasked, txid);
              pendingIntrosetLookups.View()
              == NewTX(old(pendingIntrosetLookups.View()), Owner(askpeer, ids), asker,
                       TX(asker, asker, {router.ourKey}, []), now + REQUEST_TIMEOUT)
    {
      NewIntrosetTX(askpeer, Owner(whoasked, txid), {router.ourKey}, now, REQUEST_TIMEOUT);
    }

    method LookupIntroSetDirect(whoasked: Key, txid: nat, askpeer: Key, now: Time)
      requires Valid()
      modifies this, pendingIntrosetLookups
      ensures Valid() && ids == old(ids) + 1
      ensures var asker := Owner(whoasked, txid);
              pendingIntrosetLookups.View()
              == NewTX(old(pendingIntrosetLookups.View()), Owner(askpeer, ids), asker,
                       TX(asker, asker, {router.ourKey}, []), now + DIRECT_TIMEOUT)
    {
      NewIntrosetTX(askpeer, Owner(whoasked, txid), {router.ourKey}, now, DIRECT_TIMEOUT);
    }

    /** Either exactly one reply, or exactly one transaction that asks a router strictly closer to
        the target. */
    method LookupRouterRelayed(requester: Key, txid: nat, target: Key, recursive: bool, now: Time)
      returns (replies: seq<Reply>)
      requires Valid()
      modifies this, pendingRouterLookups
      ensures Valid()
      ensures match Relay(router, target, recursive)
              case OurContact => replies == [GotSelf]
              case Refused => replies == [GotNothing]
              case KnownContact(rc) => replies == [GotContact(rc)]
              case NotHere => replies == [GotNothing]
              case TryCloser(next) => replies == [GotCloser(next)]
              case AskNext(next) => replies == []
      ensures var answer := Relay(router, target, recursive);
              if answer.AskNext?
              then && ids == old(ids) + 1
                   && Distance(target, answer.next) < Distance(target, router.ourKey)
                   && pendingRouterLookups.View()
                      == NewTX(old(pendingRouterLookups.View()), Owner(answer.next, ids), target,
                               TX(target, Owner(requester, txid), {router.ourKey}, []), now + REQUEST_TIMEOUT)
              else ids == old(ids) && pendingRouterLookups.View() == old(pendingRouterLookups.View())
      ensures Distinct(router.database) ==>
                && (replies == [GotSelf] <==> target == router.ourKey)
                && (replies == [GotContact(target)] <==> Searched(router, target) && Finds(router.database, target)
                                                         && !router.expiresSoon(target))
    {
      hide Inv, Distance, Less, NewTX, Finds;
      if Distinct(router.database) { TargetAnswers(router, target, recursive); }
      if target == router.ourKey { return [GotSelf]; }
      if !router.allowed(target) { return [GotNothing]; }
      var next := FindClosestTo(target, router.database);
      if next == target {
        if router.expiresSoon(next) {
          RelayedCloser(router, target, recursive);
          LookupRouterRecursive(target, requester, txid, next, now);
          return [];
        }
        return [GotContact(next)];
      } else if recursive {
        if Less(Xor(next, target), Xor(router.ourKey, target)) {
          RelayedCloser(router, target, recursive);
          LookupRouterRecursive(target, requester, txid, next, now);
          return [];
        }
        return [GotNothing];
      }
      return [GotCloser(next)];
    }

    /** CleanupTX. */
    method CleanupTX(now: Time)
      requires Valid()
      modifies pendingRouterLookups, pendingIntrosetLookups, pendingExploreLookups
      ensures Valid()
      ensures pendingRouterLookups.View() == Expire(old(pendingRouterLookups.View()), now)
      ensures pendingIntrosetLookups.View() == Expire(old(pendingIntrosetLookups.View()), now)
      ensures pendingExploreLookups.View() == Expire(old(pendingExploreLookups.View()), now)
    {
      hide Inv, Expire;
      pendingRouterLookups.ExpireAll(now);
      pendingIntrosetLookups.ExpireAll(now);
      pendingExploreLookups.ExpireAll(now);
    }
  }
}
