/** The live endpoints of the exit endpoint (llarp/handlers/exit.cpp), over every run of calls: which
    there are, how many of each, and that an endpoint and its key always share an address. */
module ExitEndpoints {
  import opened ExitAllocator

  /** The endpoints whose key is one of keys, in order. */
  function Kept(exits: seq<Endpoint>, keys: set<PubKey>): seq<Endpoint>
  {
    if exits == [] then []
    else (if exits[0].pk in keys then [exits[0]] else []) + Kept(exits[1..], keys)
  }

  // ----- one call

  lemma {:induction false} KeptAll(exits: seq<Endpoint>, keys: set<PubKey>)
    requires forall e :: e in exits ==> e.pk in keys
    ensures Kept(exits, keys) == exits
  {
    if exits != [] {
      assert exits == [exits[0]] + exits[1..];
      KeptAll(exits[1..], keys);
    }
  }

  lemma {:induction false} WithoutKeeps(exits: seq<Endpoint>, pk: PubKey, keys: set<PubKey>)
    requires forall e :: e in exits ==> (e.pk in keys <==> e.pk != pk)
    ensures Without(exits, pk) == Kept(exits, keys)
  {
    if exits != [] {
      assert exits == [exits[0]] + exits[1..];
      WithoutKeeps(exits[1..], pk, keys);
    }
  }

  /** After a request for an address the ident has it, and the endpoints are those before, less the ones
      whose key has lost its address. */
  lemma AddressKeepsExits(c: Config, s: State, pk: PubKey, now: Time, found: Addr)
    requires ExitsMatch(s)
    ensures var s' := Mapped(c, s, pk, now, found);
            && pk in s'.keyToIp && s'.keyToIp[pk] == MappedAddr(c, s, pk, found)
            && s'.active == Kept(s.active, s'.keyToIp.Keys)
            && (forall other :: other in s'.keyToIp && other != pk ==>
                  other in s.keyToIp && s'.keyToIp[other] == s.keyToIp[other])
            && (pk in s.keyToIp ==> s'.keyToIp == s.keyToIp)
  {
    var s' := Mapped(c, s, pk, now, found);
    if pk in s.keyToIp || RangeLeft(c, s) {
      KeptAll(s.active, s'.keyToIp.Keys);
    } else {
      var victim := if found in s.ipToKey then s.ipToKey[found] else ZERO_KEY;
      assert s'.active == Without(s.active, victim);
      assert forall other :: other in s'.keyToIp <==> other == pk || (other in s.keyToIp && other != victim);
      WithoutKeeps(s.active, victim, s'.keyToIp.Keys);
    }
  }

  /** After a new exit the endpoints are those before, less the ones whose key has lost its address,
      followed by one with this key, path and time and the address that the key is mapped to. */
  lemma NewExitAppends(c: Config, s: State, pk: PubKey, path: PathId, now: Time, found: Addr)
    requires ExitsMatch(s)
    ensures var s' := Act(c, s, NewExit(pk, path, now, found));
            && pk in s'.keyToIp
            && s'.active == Kept(s.active, s'.keyToIp.Keys) + [Endpoint(pk, path, s'.keyToIp[pk], now)]
  {
    AddressKeepsExits(c, s, pk, now, found);
    hide Mapped, MappedAddr;
  }

  /** How many live endpoints are equal to this one. */
  function Count(s: State, e: Endpoint): nat { multiset(s.active)[e] }

  ghost predicate Allocates(c: Config, s: State, a: Action, e: Endpoint)
  {
    && a.NewExit? && e.pk == a.ident && e.path == a.path && e.createdAt == a.at
    && e.ip == MappedAddr(c, s, a.ident, a.picked)
  }

  ghost predicate Removes(s: State, a: Action, e: Endpoint)
  {
    a.RemoveExit? && a.index < |s.active| && s.active[a.index] == e
  }

  /** All endpoints like this one go: they have expired, or their key loses its address. */
  ghost predicate Wipes(c: Config, s: State, a: Action, e: Endpoint)
  {
    || (a.Expire? && e in a.dead)
    || (e.pk in s.keyToIp && e.pk !in Act(c, s, a).keyToIp)
  }

  lemma CountAppend(x: seq<Endpoint>, y: seq<Endpoint>, e: Endpoint)
    ensures multiset(x + y)[e] == multiset(x)[e] + multiset(y)[e]
  {
  }

  lemma {:induction false} CountKept(exits: seq<Endpoint>, keys: set<PubKey>, e: Endpoint)
    ensures multiset(Kept(exits, keys))[e] == if e.pk in keys then multiset(exits)[e] else 0
  {
    if exits != [] {
      CountKept(exits[1..], keys, e);
      assert exits == [exits[0]] + exits[1..];
      CountAppend([exits[0]], exits[1..], e);
      CountAppend(if exits[0].pk in keys then [exits[0]] else [], Kept(exits[1..], keys), e);
    }
  }

  lemma {:induction false} CountDropping(exits: seq<Endpoint>, dead: set<Endpoint>, e: Endpoint)
    ensures multiset(Dropping(exits, dead))[e] == if e in dead then 0 else multiset(exits)[e]
  {
    if exits != [] {
      CountDropping(exits[1..], dead, e);
      assert exits == [exits[0]] + exits[1..];
      CountAppend([exits[0]], exits[1..], e);
      CountAppend(if exits[0] in dead then [] else [exits[0]], Dropping(exits[1..], dead), e);
    }
  }

  lemma CountRemoved(exits: seq<Endpoint>, i: nat, e: Endpoint)
    requires i < |exits|
    ensures multiset(exits[..i] + exits[i + 1..])[e] == multiset(exits)[e] - (if exits[i] == e then 1 else 0)
  {
    assert exits == exits[..i] + ([exits[i]] + exits[i + 1..]);
    CountAppend(exits[..i], [exits[i]] + exits[i + 1..], e);
    CountAppend([exits[i]], exits[i + 1..], e);
    CountAppend(exits[..i], exits[i + 1..], e);
  }

  lemma UnmappedHasNone(s: State, e: Endpoint)
    requires ExitsMatch(s) && e.pk !in s.keyToIp
    ensures Count(s, e) == 0
  {
    assert e !in s.active;
  }

  /** One call: a wiped endpoint is gone with all its like, a new exit adds one, a removal takes that one
      away, and nothing else changes. */
  lemma CountStep(c: Config, s: State, a: Action, e: Endpoint)
    requires ExitsMatch(s)
    ensures Count(Act(c, s, a), e)
         == if Wipes(c, s, a, e) then 0
            else Count(s, e) + (if Allocates(c, s, a, e) then 1 else 0) - (if Removes(s, a, e) then 1 else 0)
  {
    match a
    case GetIP(pk, now, found) =>
      MappedCount(c, s, pk, now, found, e);
    case NewExit(pk, path, now, found) =>
      MappedCount(c, s, pk, now, found, e);
      hide Mapped, MappedAddr, ExitsMatch;
      CountAppend(Mapped(c, s, pk, now, found).active, [Endpoint(pk, path, MappedAddr(c, s, pk, found), now)], e);
    case RemoveExit(i) =>
      if i < |s.active| { CountRemoved(s.active, i, e); }
    case Expire(dead) => CountDropping(s.active, dead, e);
  }

  lemma MappedCount(c: Config, s: State, pk: PubKey, now: Time, found: Addr, e: Endpoint)
    requires ExitsMatch(s)
    ensures var s' := Mapped(c, s, pk, now, found);
            && multiset(s'.active)[e] == (if e.pk in s.keyToIp && e.pk !in s'.keyToIp then 0 else Count(s, e))
            && pk in s'.keyToIp
  {
    AddressKeepsExits(c, s, pk, now, found);
    var s' := Mapped(c, s, pk, now, found);
    CountKept(s.active, s'.keyToIp.Keys, e);
    if e.pk !in s.keyToIp { UnmappedHasNone(s, e); }
  }

  // ----- every run

  /** Any calls at all, and any outcome of the search for the oldest activity. */
  ghost predicate IsAnyRun(c: Config, run: seq<State>, acts: seq<Action>)
  {
    && |run| == |acts| + 1
    && run[0] == Start(c)
    && forall i :: 0 <= i < |acts| ==> run[i + 1] == Act(c, run[i], acts[i])
  }

  lemma ActKeepsExitsMatch(c: Config, s: State, a: Action)
    requires ExitsMatch(s)
    ensures ExitsMatch(Act(c, s, a))
  {
    match a
    case GetIP(pk, now, found) => MappedKeepsExitsMatch(c, s, pk, now, found);
    case NewExit(pk, path, now, found) =>
      MappedKeepsExitsMatch(c, s, pk, now, found);
      hide Mapped, MappedAddr;
    case RemoveExit(i) =>
    case Expire(dead) => DroppingIs(s.active, dead);
  }

  lemma {:induction false} KeptIs(exits: seq<Endpoint>, keys: set<PubKey>)
    ensures forall e :: e in Kept(exits, keys) <==> e in exits && e.pk in keys
  {
    if exits != [] {
      KeptIs(exits[1..], keys);
      assert exits == [exits[0]] + exits[1..];
    }
  }

  lemma MappedKeepsExitsMatch(c: Config, s: State, pk: PubKey, now: Time, found: Addr)
    requires ExitsMatch(s)
    ensures var s' := Mapped(c, s, pk, now, found);
            ExitsMatch(s') && pk in s'.keyToIp && s'.keyToIp[pk] == MappedAddr(c, s, pk, found)
  {
    AddressKeepsExits(c, s, pk, now, found);
    hide Mapped, MappedAddr;
    KeptIs(s.active, Mapped(c, s, pk, now, found).keyToIp.Keys);
  }

  /** In every run, whatever is asked in whatever order, every live endpoint carries the address that
      its key is mapped to. */
  lemma {:induction false} EndpointsMatchKeys(c: Config, run: seq<State>, acts: seq<Action>, k: nat)
    requires IsAnyRun(c, run, acts) && k < |run|
    ensures ExitsMatch(run[k])
    decreases k
  {
    hide Act;
    if k > 0 {
      EndpointsMatchKeys(c, run, acts, k - 1);
      ActKeepsExitsMatch(c, run[k - 1], acts[k - 1]);
    }
  }

  /** How often the endpoint was allocated from step a up to step k, and how often removed. */
  ghost function Allocations(c: Config, run: seq<State>, acts: seq<Action>, a: nat, k: nat, e: Endpoint): nat
    requires |run| == |acts| + 1 && a <= k <= |acts|
    decreases k
  {
    if a == k then 0
    else Allocations(c, run, acts, a, k - 1, e) + (if Allocates(c, run[k - 1], acts[k - 1], e) then 1 else 0)
  }

  ghost function Removals(run: seq<State>, acts: seq<Action>, a: nat, k: nat, e: Endpoint): nat
    requires |run| == |acts| + 1 && a <= k <= |acts|
    decreases k
  {
    if a == k then 0
    else Removals(run, acts, a, k - 1, e) + (if Removes(run[k - 1], acts[k - 1], e) then 1 else 0)
  }

  ghost predicate UnwipedFrom(c: Config, run: seq<State>, acts: seq<Action>, a: nat, k: nat, e: Endpoint)
    requires |run| == |acts| + 1 && k <= |acts|
  {
    forall j :: a <= j < k ==> !Wipes(c, run[j], acts[j], e)
  }

  /** Before step k the endpoint was last wiped just before step a, or never. */
  ghost predicate LastWiped(c: Config, run: seq<State>, acts: seq<Action>, a: nat, k: nat, e: Endpoint)
    requires |run| == |acts| + 1 && k <= |acts|
  {
    && a <= k && (a == 0 || Wipes(c, run[a - 1], acts[a - 1], e))
    && UnwipedFrom(c, run, acts, a, k, e)
  }

  /** In every run, of the endpoints equal to a given one as many are live as were allocated, less those
      removed, since one like it last expired or its key last lost its address. */
  lemma {:induction false} LiveCount(c: Config, run: seq<State>, acts: seq<Action>, a: nat, k: nat, e: Endpoint)
    requires IsAnyRun(c, run, acts) && k <= |acts| && LastWiped(c, run, acts, a, k, e)
    ensures Count(run[k], e) == Allocations(c, run, acts, a, k, e) - Removals(run, acts, a, k, e)
    decreases k
  {
    hide Act, Wipes, Removes, Allocates, ExitsMatch;
    if k > 0 {
      EndpointsMatchKeys(c, run, acts, k - 1);
      CountStep(c, run[k - 1], acts[k - 1], e);
      if a < k { LiveCount(c, run, acts, a, k - 1, e); }
    }
  }

  /** There is such a step, for every step of every run. */
  lemma {:induction false} LastWipe(c: Config, run: seq<State>, acts: seq<Action>, k: nat, e: Endpoint)
    returns (a: nat)
    requires IsAnyRun(c, run, acts) && k <= |acts|
    ensures LastWiped(c, run, acts, a, k, e)
    decreases k
  {
    hide Act, Wipes;
    a := 0;
    if k > 0 {
      if Wipes(c, run[k - 1], acts[k - 1], e) { a := k; } else { a := LastWipe(c, run, acts, k - 1, e); }
    }
  }

  // ----- endpoints that are allocated once

  ghost predicate Gone(c: Config, s: State, a: Action, e: Endpoint)
  {
    Wipes(c, s, a, e) || Removes(s, a, e)
  }

  /** Allocated at step i, and nothing has taken it away before step k. */
  ghost predicate AliveSince(c: Config, run: seq<State>, acts: seq<Action>, i: nat, k: nat, e: Endpoint)
    requires |run| == |acts| + 1 && k <= |acts|
  {
    && i < k && Allocates(c, run[i], acts[i], e)
    && forall j :: i < j < k ==> !Gone(c, run[j], acts[j], e)
  }

  ghost predicate Alive(c: Config, run: seq<State>, acts: seq<Action>, k: nat, e: Endpoint)
    requires |run| == |acts| + 1 && k <= |acts|
  {
    exists i: nat :: AliveSince(c, run, acts, i, k, e)
  }

  /** The endpoint is not allocated again. */
  ghost predicate AllocatedOnce(c: Config, run: seq<State>, acts: seq<Action>, e: Endpoint)
    requires |run| == |acts| + 1
  {
    forall i, j :: 0 <= i < j < |acts| ==>
      !(Allocates(c, run[i], acts[i], e) && Allocates(c, run[j], acts[j], e))
  }

  lemma NoneInStart(c: Config, e: Endpoint)
    ensures Count(Start(c), e) == 0
  {
  }

  lemma InIffCounted(s: State, e: Endpoint)
    ensures e in s.active <==> Count(s, e) >= 1
  {
  }

  lemma AllocatedStays(c: Config, s: State, a: Action, e: Endpoint)
    requires ExitsMatch(s) && Allocates(c, s, a, e)
    ensures !Wipes(c, s, a, e) && !Removes(s, a, e)
  {
    AddressKeepsExits(c, s, a.ident, a.at, a.picked);
    hide Mapped, MappedAddr;
  }

  /** How being alive moves with one more step. */
  lemma AliveStep(c: Config, run: seq<State>, acts: seq<Action>, k: nat, e: Endpoint)
    requires |run| == |acts| + 1 && 0 < k <= |acts|
    ensures Alive(c, run, acts, k, e) <==>
              || Allocates(c, run[k - 1], acts[k - 1], e)
              || (Alive(c, run, acts, k - 1, e) && !Gone(c, run[k - 1], acts[k - 1], e))
  {
    hide Gone, Allocates;
    if Allocates(c, run[k - 1], acts[k - 1], e) { assert AliveSince(c, run, acts, k - 1, k, e); }
    if Alive(c, run, acts, k, e) {
      var i: nat :| AliveSince(c, run, acts, i, k, e);
      if i < k - 1 { assert AliveSince(c, run, acts, i, k - 1, e); }
    }
    if Alive(c, run, acts, k - 1, e) && !Gone(c, run[k - 1], acts[k - 1], e) {
      var i: nat :| AliveSince(c, run, acts, i, k - 1, e);
      assert AliveSince(c, run, acts, i, k, e);
    }
  }

  lemma AliveWasAllocated(c: Config, run: seq<State>, acts: seq<Action>, k: nat, e: Endpoint)
    requires |run| == |acts| + 1 && k < |acts| && AllocatedOnce(c, run, acts, e) && Alive(c, run, acts, k, e)
    ensures !Allocates(c, run[k], acts[k], e)
  {
    hide Gone, Allocates;
    var i: nat :| AliveSince(c, run, acts, i, k, e);
  }

  /** In every run, an endpoint that is allocated only once is live exactly if it has been allocated and
      since then neither removed nor expired nor its key been kicked off its address. */
  lemma {:induction false} LiveIff(c: Config, run: seq<State>, acts: seq<Action>, k: nat, e: Endpoint)
    requires IsAnyRun(c, run, acts) && k <= |acts| && AllocatedOnce(c, run, acts, e)
    ensures e in run[k].active <==> Alive(c, run, acts, k, e)
    ensures Count(run[k], e) == if Alive(c, run, acts, k, e) then 1 else 0
    decreases k
  {
    hide Act, Wipes, Removes, Allocates, ExitsMatch, Count;
    InIffCounted(run[k], e);
    if k == 0 {
      NoneInStart(c, e);
    } else {
      hide AliveSince, Alive, AllocatedOnce;
      var s, a := run[k - 1], acts[k - 1];
      LiveIff(c, run, acts, k - 1, e);
      EndpointsMatchKeys(c, run, acts, k - 1);
      CountStep(c, s, a, e);
      AliveStep(c, run, acts, k, e);
      if Allocates(c, s, a, e) { AllocatedStays(c, s, a, e); }
      if Alive(c, run, acts, k - 1, e) { AliveWasAllocated(c, run, acts, k - 1, e); }
    }
  }
}
