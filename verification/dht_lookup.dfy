/** Recursive router lookup: what Context::LookupRouterRelayed (llarp/dht/context.cpp) decides at
    one router, and the chain of routers that a relayed request visits. */
module DhtLookup {
  import opened Common
  import opened DhtKey
  import opened DhtSearch

  /** A router as the lookup sees it: its key, its node database in the order in which it is
      visited, the targets it may talk to, and the contacts that expire soon. */
  datatype Router = Router(ourKey: Key, database: seq<Key>, allowed: Key -> bool, expiresSoon: Key -> bool)

  datatype Decision =
    | OurContact              // we are the target
    | Refused                 // the target is not allowed
    | KnownContact(rc: Key)   // the contact we know
    | AskNext(next: Key)      // relay to this router
    | NotHere                 // nobody we know is closer than we are
    | TryCloser(next: Key)    // iterative lookup: who is closer

  function Relay(r: Router, target: Key, recursive: bool): Decision
  {
    if target == r.ourKey then OurContact
    else if !r.allowed(target) then Refused
    else
      var next := Visited(target, r.database);
      if next == target then
        if r.expiresSoon(next) then AskNext(next) else KnownContact(next)
      else if recursive then
        if Less(Xor(next, target), Xor(r.ourKey, target)) then AskNext(next) else NotHere
      else TryCloser(next)
  }

  // ----- which answer is given when

  /** The search comes upon the target itself: it is an entry, and visited last if it is the all-zero
      key; or it is the all-zero key and there are no entries. */
  ghost predicate Finds(database: seq<Key>, target: Key)
  {
    if database == [] then target == ZeroKey()
    else target in database && (target == ZeroKey() ==> database[|database| - 1] == ZeroKey())
  }

  /** The router that the search returns: without entries the all-zero key. */
  ghost predicate IsNext(database: seq<Key>, target: Key, next: Key)
  {
    if database == [] then next == ZeroKey() else IsNearest(Contenders(target, database), target, next)
  }

  lemma NextIffVisited(database: seq<Key>, target: Key, next: Key)
    requires Distinct(database)
    ensures IsNext(database, target, next) <==> next == Visited(target, database)
  {
    hide Distance, Contenders, ZeroKey;
    if database != [] {
      VisitedIsNearest(target, database);
      if IsNext(database, target, next) {
        NearestUnique(Contenders(target, database), target, next, Visited(target, database));
      }
    }
  }

  lemma FindsIffVisited(database: seq<Key>, target: Key)
    requires Distinct(database)
    ensures Finds(database, target) <==> Visited(target, database) == target
  {
    hide Distance, ZeroKey;
    if database != [] {
      VisitedIsEntry(target, database);
      VisitedNearestIff(target, database);
      ZeroDistanceIsTarget(target, target);
      if target in database {
        assert IsNearest(Elements(database), target, target);
        ZeroDistanceIsTarget(target, ZeroKey());
        ZeroDistanceIsTarget(target, Visited(target, database));
      }
    }
  }

  lemma NextIsCloser(r: Router, target: Key, next: Key)
    ensures Less(Xor(next, target), Xor(r.ourKey, target)) <==> Distance(target, next) < Distance(target, r.ourKey)
  {
    XorSymmetric(next, target);
    XorSymmetric(r.ourKey, target);
    LessIsValueOrder(Xor(next, target), Xor(r.ourKey, target));
  }

  /** The request gets as far as the search. */
  predicate Searched(r: Router, target: Key) { target != r.ourKey && r.allowed(target) }

  /** When the target itself is the answer. Our own contact is sent exactly to who asks for us, nothing
      exactly if the target is not allowed, the known contact exactly if the search finds the target and
      it does not expire soon; and the target is asked exactly if it does. */
  lemma TargetAnswers(r: Router, target: Key, recursive: bool)
    requires Distinct(r.database)
    ensures var d := Relay(r, target, recursive);
            && (d == OurContact <==> target == r.ourKey)
            && (d == Refused <==> target != r.ourKey && !r.allowed(target))
            && (forall k :: d == KnownContact(k) <==>
                  k == target && Searched(r, k) && Finds(r.database, k) && !r.expiresSoon(k))
            && (d == AskNext(target) <==> Searched(r, target) && Finds(r.database, target) && r.expiresSoon(target))
  {
    FindsIffVisited(r.database, target);
  }

  /** When another router is the answer. In a recursive lookup the router that the search returns is
      asked exactly if the target is not found and that one is closer than we are; nothing is sent exactly
      if it is not closer. In an iterative lookup it is named exactly if the target is not found. */
  lemma OtherAnswers(r: Router, target: Key, recursive: bool, next: Key)
    requires Distinct(r.database) && next != target
    ensures var d := Relay(r, target, recursive);
            var gone := Searched(r, target) && !Finds(r.database, target) && IsNext(r.database, target, next);
            && (d == AskNext(next) <==> gone && recursive && Distance(target, next) < Distance(target, r.ourKey))
            && (d == TryCloser(next) <==> gone && !recursive)
            && (gone ==> (d == NotHere <==> recursive && Distance(target, next) >= Distance(target, r.ourKey)))
            && (d == NotHere ==> Searched(r, target) && !Finds(r.database, target))
  {
    hide Distance, Less, Xor, Finds, IsNext;
    FindsIffVisited(r.database, target);
    NextIffVisited(r.database, target, next);
    NextIsCloser(r, target, next);
  }

  /** A router relays only to one strictly closer to the target than itself, whatever its node
      database holds and in whatever order it is visited. */
  lemma RelayedCloser(r: Router, target: Key, recursive: bool)
    requires Relay(r, target, recursive).AskNext?
    ensures Distance(target, Relay(r, target, recursive).next) < Distance(target, r.ourKey)
  {
    var next := Visited(target, r.database);
    if next == target {
      ZeroDistanceIsTarget(target, next);
      ZeroDistanceIsTarget(target, r.ourKey);
    } else {
      NextIsCloser(r, target, next);
    }
  }

  /** The routers that a request visits: each relays to the next; any may change its database
      between requests. */
  ghost predicate IsChain(chain: seq<Router>, target: Key)
  {
    forall i :: 0 <= i < |chain| - 1 ==> Relay(chain[i], target, true) == AskNext(chain[i + 1].ourKey)
  }

  /** Along a chain the distance to the target strictly decreases. */
  lemma {:induction false} ChainApproaches(chain: seq<Router>, target: Key, i: nat, j: nat)
    requires IsChain(chain, target) && i < j < |chain|
    ensures Distance(target, chain[j].ourKey) < Distance(target, chain[i].ourKey)
    decreases j - i
  {
    hide Relay, Distance;
    assert Relay(chain[j - 1], target, true) == AskNext(chain[j - 1 + 1].ourKey);
    RelayedCloser(chain[j - 1], target, true);
    if i < j - 1 { ChainApproaches(chain, target, i, j - 1); }
  }

  /** No router is visited twice. */
  lemma ChainVisitsOnce(chain: seq<Router>, target: Key, i: nat, j: nat)
    requires IsChain(chain, target) && i < |chain| && j < |chain|
    requires chain[i].ourKey == chain[j].ourKey
    ensures i == j
  {
    if i < j { ChainApproaches(chain, target, i, j); }
    if j < i { ChainApproaches(chain, target, j, i); }
  }

  /** A chain is no longer than the network has routers: recursive lookups end. */
  lemma ChainBounded(chain: seq<Router>, target: Key, network: set<Key>)
    requires IsChain(chain, target)
    requires forall i :: 0 <= i < |chain| ==> chain[i].ourKey in network
    ensures |chain| <= |network|
  {
    var keys: seq<Key> := seq(|chain|, i requires 0 <= i < |chain| => chain[i].ourKey);
    forall i, j | 0 <= i < j < |keys|
      ensures keys[i] != keys[j]
    {
      if keys[i] == keys[j] { ChainVisitsOnce(chain, target, i, j); }
    }
    SizeOfKeys(keys);
    assert Elements(keys) <= network;
    SizeAtLeast(Elements(keys), network);
  }

  /** A router that gives up is at least as close as every router it knows, exactly unless the search
      overlooks the all-zero key and that one is closer. */
  lemma NotHereMeansClosestIff(r: Router, target: Key)
    requires Distinct(r.database) && Relay(r, target, true) == NotHere
    ensures (forall k :: k in Elements(r.database) ==> Distance(target, r.ourKey) <= Distance(target, k))
       <==> !(ZeroShadowed(target, r.database) && Distance(target, ZeroKey()) < Distance(target, r.ourKey))
  {
    hide Distance, Less, Xor, ZeroKey;
    if r.database != [] {
      VisitedNearestIff(target, r.database);
      NextNotCloser(r, target);
    } else {
      assert Elements(r.database) == {};
    }
  }

  lemma NextNotCloser(r: Router, target: Key)
    requires Relay(r, target, true) == NotHere
    ensures Distance(target, r.ourKey) <= Distance(target, Visited(target, r.database))
  {
    NextIsCloser(r, target, Visited(target, r.database));
  }
}
