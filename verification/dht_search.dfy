/** Nearest-node searches: Bucket (llarp/dht/bucket.hpp) over the peers of the DHT and NodeDB
    (llarp/nodedb.cpp) over all known routers. */
module DhtSearch {
  import opened Common
  import opened DhtKey

  // ----- what nearest means

  /** near is the one key of keys with the least distance. */
  ghost predicate IsNearest(keys: set<Key>, target: Key, near: Key)
  {
    near in keys && forall k :: k in keys ==> Distance(target, near) <= Distance(target, k)
  }

  /** near holds the n keys of keys with the least distances. */
  ghost predicate AreNearest(keys: set<Key>, target: Key, n: nat, near: set<Key>)
  {
    && near <= keys && |near| == n
    && forall k, other :: k in near && other in keys - near ==> Distance(target, k) < Distance(target, other)
  }

  lemma NearestUnique(keys: set<Key>, target: Key, a: Key, b: Key)
    requires IsNearest(keys, target, a) && IsNearest(keys, target, b)
    ensures a == b
  {
    CloserIsLessDistant(target, a, b);
  }

  /** Two sets of n nearest keys are the same set. */
  lemma AreNearestUnique(keys: set<Key>, target: Key, n: nat, s: set<Key>, t: set<Key>)
    requires AreNearest(keys, target, n, s) && AreNearest(keys, target, n, t)
    ensures s == t
  {
    if s != t {
      if s <= t { SubsetOfSameSize(s, t); }
      if t <= s { SubsetOfSameSize(t, s); }
      var a :| a in s && a !in t;
      var b :| b in t && b !in s;
      var near, far := Distance(target, a), Distance(target, b);
      assert false;
    }
  }

  lemma SubsetOfSameSize(s: set<Key>, t: set<Key>)
    requires s <= t && |s| == |t|
    ensures s == t
  {
    assert |t| == |s| + |t - s|;
  }

  /** Adding the nearest of the rest to the n nearest gives the n + 1 nearest. */
  lemma ExtendNearest(keys: set<Key>, target: Key, n: nat, near: set<Key>, next: Key)
    requires AreNearest(keys, target, n, near) && IsNearest(keys - near, target, next)
    ensures AreNearest(keys, target, n + 1, near + {next})
  {
    forall other | other in keys - (near + {next})
      ensures Distance(target, next) < Distance(target, other)
    {
      CloserIsLessDistant(target, next, other);
    }
  }

  // ----- Bucket

  /** The peers a bucket search considers: not excluded, and nearer than the all-ones distance
      that the search starts from. */
  ghost function Candidates(nodes: set<Key>, target: Key, exclude: set<Key>): set<Key>
  {
    set k | k in nodes && k !in exclude && Less(Xor(k, target), MaxKey())
  }

  lemma CandidatesOfNone(target: Key, exclude: set<Key>)
    ensures Candidates({}, target, exclude) == {}
  {
  }

  lemma CandidateDistance(target: Key, k: Key)
    ensures Less(Xor(k, target), MaxKey()) <==> Distance(target, k) < Value(MaxKey())
    ensures Value(Xor(k, target)) == Distance(target, k)
  {
    XorSymmetric(k, target);
    BelowMax(target, k);
  }

  /** Finds the nearest candidate; with none it says so and leaves the result alone. */
  method FindCloseExcluding(nodes: set<Key>, target: Key, result: Key, exclude: set<Key>)
    returns (found: bool, near: Key)
    ensures found <==> Candidates(nodes, target, exclude) != {}
    ensures found ==> IsNearest(Candidates(nodes, target, exclude), target, near)
    ensures !found ==> near == result
  {
    hide Less, Xor, Distance, MaxKey, Candidates;
    near := result;
    CandidatesOfNone(target, exclude);
    var mindist := MaxKey();
    var todo := nodes;
    ghost var seen: set<Key> := {};
    while todo != {}
      invariant seen + todo == nodes && seen !! todo
      invariant mindist == MaxKey() ==> near == result && Candidates(seen, target, exclude) == {}
      invariant mindist != MaxKey() ==>
                  IsNearest(Candidates(seen, target, exclude), target, near) && mindist == Xor(near, target)
      decreases |todo|
    {
      var item :| item in todo;
      SeeOneMore(seen, target, exclude, item, mindist, near);
      todo := todo - {item};
      seen := seen + {item};
      if item !in exclude {
        var curDist := Xor(item, target);
        if Less(curDist, mindist) {
          mindist := curDist;
          near := item;
        }
      }
    }
    assert seen == nodes;
    found := Less(mindist, MaxKey());
    NearestBelowMax(nodes, target, exclude, mindist, near);
  }

  lemma NearestBelowMax(nodes: set<Key>, target: Key, exclude: set<Key>, mindist: Key, near: Key)
    requires mindist != MaxKey() ==>
               IsNearest(Candidates(nodes, target, exclude), target, near) && mindist == Xor(near, target)
    ensures Less(mindist, MaxKey()) <==> mindist != MaxKey()
  {
    LessIsValueOrder(mindist, MaxKey());
    if mindist != MaxKey() { CandidateDistance(target, near); }
  }

  /** The effect of one iteration on the nearest candidate so far. */
  lemma SeeOneMore(seen: set<Key>, target: Key, exclude: set<Key>, item: Key, mindist: Key, near: Key)
    requires item !in seen
    requires mindist == MaxKey() ==> Candidates(seen, target, exclude) == {}
    requires mindist != MaxKey() ==>
               IsNearest(Candidates(seen, target, exclude), target, near) && mindist == Xor(near, target)
    ensures var cands := Candidates(seen + {item}, target, exclude);
            if item !in exclude && Less(Xor(item, target), mindist)
            then IsNearest(cands, target, item) && Xor(item, target) != MaxKey()
            else if mindist == MaxKey() then cands == {} else IsNearest(cands, target, near)
  {
    hide Less, Xor, Value, Distance, MaxKey;
    var cands := Candidates(seen + {item}, target, exclude);
    CandidateDistance(target, item);
    LessIsValueOrder(Xor(item, target), mindist);
    LessIsValueOrder(Xor(item, target), MaxKey());
    if mindist != MaxKey() {
      CandidateDistance(target, near);
    }
    assert forall k :: k in cands ==> k == item || k in Candidates(seen, target, exclude);
  }

  lemma CandidatesShrink(nodes: set<Key>, target: Key, exclude: set<Key>, taken: set<Key>)
    ensures Candidates(nodes, target, exclude + taken) == Candidates(nodes, target, exclude) - taken
  {
  }

  /** Collects the N nearest candidates; fails exactly when there are fewer, having then
      collected them all. */
  method GetManyNearExcluding(nodes: set<Key>, target: Key, result: set<Key>, N: nat, exclude: set<Key>)
    returns (ok: bool, many: set<Key>, ghost near: set<Key>)
    ensures many == result + near
    ensures ok <==> N <= |Candidates(nodes, target, exclude)|
    ensures ok ==> AreNearest(Candidates(nodes, target, exclude), target, N, near)
    ensures !ok ==> near == Candidates(nodes, target, exclude)
  {
    hide Candidates;
    ghost var cands := Candidates(nodes, target, exclude);
    many, near := result, {};
    var s := exclude;
    var peer: Key := ZeroKey();
    var n := 0;
    while n < N
      invariant 0 <= n <= N && s == exclude + near && many == result + near
      invariant AreNearest(cands, target, n, near)
    {
      CandidatesShrink(nodes, target, exclude, near);
      var found, next := FindCloseExcluding(nodes, target, peer, s);
      if !found {
        assert cands - near == {};
        assert near == cands;
        return false, many, near;
      }
      ExtendNearest(cands, target, n, near, next);
      peer := next;
      s := s + {peer};
      many := many + {peer};
      near := near + {peer};
      n := n + 1;
    }
    SizeAtLeast(near, cands);
    return true, many, near;
  }

  lemma SizeAtLeast(s: set<Key>, t: set<Key>)
    requires s <= t
    ensures |s| <= |t|
  {
    assert |t| == |s| + |t - s|;
  }

  // ----- NodeDB

  ghost predicate Distinct(order: seq<Key>)
  {
    forall i, j :: 0 <= i < j < |order| ==> order[i] != order[j]
  }

  /** The visitor of FindClosestTo, after the entries of order: a zero key counts as nothing
      found yet. */
  function Visited(location: Key, order: seq<Key>): Key
  {
    if order == [] then ZeroKey()
    else
      var best, other := Visited(location, order[..|order| - 1]), order[|order| - 1];
      if best == ZeroKey() then other
      else if Closer(location, other, best) then other
      else best
  }

  method FindClosestTo(location: Key, order: seq<Key>) returns (rc: Key)
    ensures rc == Visited(location, order)
  {
    rc := ZeroKey();
    for i := 0 to |order|
      invariant rc == Visited(location, order[..i])
    {
      var other := order[i];
      assert order[..i + 1][..i] == order[..i];
      if rc == ZeroKey() {
        rc := other;
      } else if Closer(location, other, rc) {
        rc := other;
      }
    }
    assert order[..|order|] == order;
  }

  /** The zero key is the nearest entry, but it is not visited last. */
  ghost predicate ZeroShadowed(location: Key, order: seq<Key>)
  {
    |order| > 0 && IsNearest(Elements(order), location, ZeroKey()) && order[|order| - 1] != ZeroKey()
  }

  lemma VisitedIsEntry(location: Key, order: seq<Key>)
    requires order != []
    ensures Visited(location, order) in Elements(order)
  {
    if |order| > 1 { VisitedIsEntry(location, order[..|order| - 1]); }
  }

  /** One visit: how the nearest entry and the shadowing condition develop. */
  lemma {:induction false} VisitedNearestIff(location: Key, order: seq<Key>)
    requires order != [] && Distinct(order)
    ensures IsNearest(Elements(order), location, Visited(location, order)) <==> !ZeroShadowed(location, order)
    ensures ZeroShadowed(location, order) ==> Visited(location, order) != ZeroKey()
    decreases |order|
  {
    hide Distance, Closer, ZeroKey;
    var n := |order| - 1;
    var before, other := order[..n], order[n];
    if n > 0 {
      VisitedNearestIff(location, before);
      VisitedIsEntry(location, before);
      var best := Visited(location, before);
      assert order == before + [other];
      assert Elements(order) == Elements(before) + {other};
      assert other !in Elements(before);
      VisitStep(location, before, other, best);
    } else {
      assert order == [other] && Elements(order) == {other};
      assert before == [];
    }
  }

  lemma VisitStep(location: Key, before: seq<Key>, other: Key, best: Key)
    requires before != [] && other !in Elements(before) && best in Elements(before)
    requires IsNearest(Elements(before), location, best) <==> !ZeroShadowed(location, before)
    requires ZeroShadowed(location, before) ==> best != ZeroKey()
    ensures var v := if best == ZeroKey() then other else if Closer(location, other, best) then other else best;
            var keys := Elements(before) + {other};
            var shadowed := IsNearest(keys, location, ZeroKey()) && other != ZeroKey();
            && (IsNearest(keys, location, v) <==> !shadowed)
            && (shadowed ==> v != ZeroKey())
  {
    var last := before[|before| - 1];
    assert last in Elements(before);
    CloserIsLessDistant(location, other, best);
    CloserIsLessDistant(location, other, ZeroKey());
    CloserIsLessDistant(location, best, ZeroKey());
    hide Distance, Closer;
    var keys := Elements(before) + {other};
    var v := if best == ZeroKey() then other else if Closer(location, other, best) then other else best;
    if IsNearest(keys, location, v) && IsNearest(keys, location, ZeroKey()) {
      NearestUnique(keys, location, v, ZeroKey());
    }
  }

  /** FindClosestTo returns the nearest entry, for every order in which the entries are visited,
      unless the all-zero key is the nearest entry and another one is visited after it. */
  lemma ClosestIsNearestIff(location: Key, order: seq<Key>)
    requires order != [] && Distinct(order)
    ensures IsNearest(Elements(order), location, Visited(location, order))
       <==> !(IsNearest(Elements(order), location, ZeroKey()) && order[|order| - 1] != ZeroKey())
  {
    VisitedNearestIff(location, order);
  }

  /** The keys visited after the all-zero key. */
  ghost function AfterZero(order: seq<Key>): set<Key>
  {
    set i | 0 <= i < |order| && ZeroKey() in order[..i] :: order[i]
  }

  lemma AfterZeroNext(before: seq<Key>, other: Key)
    ensures AfterZero(before + [other]) == AfterZero(before) + (if ZeroKey() in before then {other} else {})
  {
    hide ZeroKey;
    var order := before + [other];
    forall i | 0 <= i <= |before|
      ensures order[..i] == before[..i]
    {
    }
    assert before[..|before|] == before && order[|before|] == other;
    var rest: set<Key> := if ZeroKey() in before then {other} else {};
    forall k: Key
      ensures k in AfterZero(order) <==> k in AfterZero(before) + rest
    {
      if k in AfterZero(before) {
        var i :| 0 <= i < |before| && ZeroKey() in before[..i] && before[i] == k;
        assert ZeroKey() in order[..i] && order[i] == k;
      }
      if k in rest { assert ZeroKey() in order[..|before|] && order[|before|] == k; }
    }
  }

  /** What the search chooses among: all entries, or if it overlooks the all-zero key those after it. */
  ghost function Contenders(location: Key, order: seq<Key>): set<Key>
  {
    if ZeroShadowed(location, order) then AfterZero(order) else Elements(order)
  }

  lemma {:induction false} ShadowedFindsNext(location: Key, order: seq<Key>)
    requires Distinct(order) && ZeroShadowed(location, order)
    ensures IsNearest(AfterZero(order), location, Visited(location, order))
    decreases |order|
  {
    hide Distance, Closer, ZeroKey, AfterZero;
    var n := |order| - 1;
    var before, other := order[..n], order[n];
    assert order == before + [other] && Elements(order) == Elements(before) + {other};
    AfterZeroNext(before, other);
    assert ZeroKey() in before;
    VisitedNearestIff(location, before);
    var best := Visited(location, before);
    CloserIsLessDistant(location, other, best);
    if before[n - 1] == ZeroKey() {
      NearestUnique(Elements(before), location, best, ZeroKey());
      NothingAfterLast(before);
    } else {
      ShadowedFindsNext(location, before);
    }
  }

  lemma NothingAfterLast(order: seq<Key>)
    requires order != [] && Distinct(order) && order[|order| - 1] == ZeroKey()
    ensures AfterZero(order) == {}
  {
  }

  /** What FindClosestTo returns, for every order in which the entries are visited: the nearest of all
      entries, or if the all-zero key is nearest and not visited last, the nearest of those after it. */
  lemma VisitedIsNearest(location: Key, order: seq<Key>)
    requires order != [] && Distinct(order)
    ensures IsNearest(Contenders(location, order), location, Visited(location, order))
  {
    if ZeroShadowed(location, order) { ShadowedFindsNext(location, order); }
    VisitedNearestIff(location, order);
  }

  /** The failing case occurs: the zero key is asked for, and another entry is visited later. */
  lemma ZeroKeyIsMissed()
    ensures Distinct([ZeroKey(), MaxKey()]) && !IsNearest({ZeroKey(), MaxKey()}, ZeroKey(),
                                                          Visited(ZeroKey(), [ZeroKey(), MaxKey()]))
  {
    var order := [ZeroKey(), MaxKey()];
    assert ZeroKey()[0] != MaxKey()[0];
    assert Visited(ZeroKey(), order[..1]) == ZeroKey() by { assert order[..1][..0] == []; }
    assert Visited(ZeroKey(), order) == MaxKey();
    ZeroDistanceIsTarget(ZeroKey(), ZeroKey());
    ZeroDistanceIsTarget(ZeroKey(), MaxKey());
  }

  ghost predicate Nearing(location: Key, s: seq<Key>)
  {
    forall i, j :: 0 <= i < j < |s| ==> Distance(location, s[i]) < Distance(location, s[j])
  }

  lemma AppendNext(location: Key, all: set<Key>, s: seq<Key>, next: Key)
    requires Nearing(location, s) && AreNearest(all, location, |s|, Elements(s))
    requires IsNearest(all - Elements(s), location, next)
    ensures Elements(s + [next]) == Elements(s) + {next}
    ensures Nearing(location, s + [next])
    ensures AreNearest(all, location, |s| + 1, Elements(s + [next]))
  {
    hide Distance;
    ExtendNearest(all, location, |s|, Elements(s), next);
    forall i | 0 <= i < |s|
      ensures Distance(location, s[i]) < Distance(location, next)
    {
      assert s[i] in Elements(s);
    }
  }

  /** The ascending prefix that std::partial_sort establishes, by selection. */
  method FindManyClosestTo(location: Key, order: seq<Key>, numRouters: nat) returns (closest: seq<Key>)
    requires Distinct(order)
    ensures |closest| == if numRouters < |order| then numRouters else |order|
    ensures Nearing(location, closest)
    ensures AreNearest(Elements(order), location, |closest|, Elements(closest))
  {
    hide Elements, Nearing, Distance, Distinct;
    ghost var all := Elements(order);
    var mid := if numRouters < |order| then numRouters else |order|;
    closest := [];
    var rest := Elements(order);
    SizeOfKeys(order);
    NoKeys(location);
    while |closest| < mid
      invariant |closest| <= mid
      invariant Nearing(location, closest) && rest == all - Elements(closest)
      invariant AreNearest(all, location, |closest|, Elements(closest))
      decreases mid - |closest|
    {
      RestNotEmpty(all, Elements(closest));
      var next := Nearest(location, rest);
      AppendNext(location, all, closest, next);
      rest := rest - {next};
      closest := closest + [next];
    }
  }

  lemma NoKeys(location: Key)
    ensures Elements<Key>([]) == {} && Nearing(location, [])
  {
  }

  lemma RestNotEmpty(all: set<Key>, taken: set<Key>)
    requires taken <= all && |taken| < |all|
    ensures all - taken != {}
  {
    assert |all| == |taken| + |all - taken|;
  }

  method Nearest(location: Key, keys: set<Key>) returns (near: Key)
    requires keys != {}
    ensures IsNearest(keys, location, near)
  {
    near :| near in keys;
    var todo := keys - {near};
    while todo != {}
      invariant todo <= keys && near in keys - todo
      invariant IsNearest(keys - todo, location, near)
      decreases |todo|
    {
      var other :| other in todo;
      CloserIsLessDistant(location, other, near);
      if Closer(location, other, near) { near := other; }
      todo := todo - {other};
    }
    assert keys - {} == keys;
  }

  lemma {:induction false} SizeOfKeys(order: seq<Key>)
    requires Distinct(order)
    ensures |Elements(order)| == |order|
    decreases |order|
  {
    if order != [] {
      var n := |order| - 1;
      SizeOfKeys(order[..n]);
      assert order == order[..n] + [order[n]];
      assert Elements(order) == Elements(order[..n]) + {order[n]};
    }
  }

  /** With nothing excluded, a successful bucket search and NodeDB agree over the same keys. */
  lemma SearchesAgree(keys: set<Key>, target: Key, n: nat, fromBucket: set<Key>, fromDb: set<Key>)
    requires AreNearest(Candidates(keys, target, {}), target, n, fromBucket)
    requires AreNearest(keys, target, n, fromDb)
    ensures fromBucket == fromDb
  {
    var cands := Candidates(keys, target, {});
    forall k, other | k in fromBucket && other in keys - fromBucket
      ensures Distance(target, k) < Distance(target, other)
    {
      CandidateDistance(target, k);
      CandidateDistance(target, other);
    }
    AreNearestUnique(keys, target, n, fromBucket, fromDb);
  }
}
