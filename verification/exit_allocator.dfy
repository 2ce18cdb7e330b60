/** Address allocation of the exit endpoint (llarp/handlers/exit.cpp): identities are mapped to the
    addresses of the interface range; when the range is used up, the least recently active one is
    meant to be taken over. */
module ExitAllocator {

  type PubKey = nat
  type Addr = nat
  type Time = nat
  type PathId = nat

  /** A default-constructed PubKey. */
  const ZERO_KEY: PubKey := 0

  datatype Endpoint = Endpoint(pk: PubKey, path: PathId, ip: Addr, createdAt: Time)

  /** never stands for std::numeric_limits<llarp_time_t>::max(). */
  datatype Config = Config(us: PubKey, ifAddr: Addr, highest: Addr, never: Time)

  datatype State = State(
    keyToIp: map<PubKey, Addr>,
    ipToKey: map<Addr, PubKey>,
    activity: map<Addr, Time>,
    nextAddr: Addr,
    active: seq<Endpoint>)

  // ----- transitions

  function Start(c: Config): State
  {
    State(map[c.us := c.ifAddr], map[c.ifAddr := c.us], map[c.ifAddr := c.never], c.ifAddr, [])
  }

  function Without(exits: seq<Endpoint>, pk: PubKey): seq<Endpoint>
  {
    if exits == [] then []
    else (if exits[0].pk == pk then [] else [exits[0]]) + Without(exits[1..], pk)
  }

  /** operator[] of a map creates a missing entry with a default value. */
  function KickIdentOffExit(s: State, pk: PubKey): State
  {
    var ip := if pk in s.keyToIp then s.keyToIp[pk] else 0;
    s.(keyToIp := s.keyToIp - {pk}, ipToKey := s.ipToKey - {ip}, active := Without(s.active, pk))
  }

  /** What the search for the oldest activity ends with: the least one below never, or address 0. */
  ghost predicate PicksOldest(c: Config, s: State, found: Addr)
  {
    if exists ip :: ip in s.activity && s.activity[ip] < c.never
    then found in s.activity && s.activity[found] < c.never
         && forall ip :: ip in s.activity ==> s.activity[found] <= s.activity[ip]
    else found == 0
  }

  predicate RangeLeft(c: Config, s: State) { s.nextAddr < c.highest }

  /** The state after AllocateNewAddress, given what the search finds. */
  function Allocated(c: Config, s: State, found: Addr): State
  {
    if RangeLeft(c, s) then s.(nextAddr := s.nextAddr + 1)
    else if found in s.ipToKey then KickIdentOffExit(s, s.ipToKey[found])
    else KickIdentOffExit(s.(ipToKey := s.ipToKey[found := ZERO_KEY]), ZERO_KEY)
  }

  function AllocatedAddr(c: Config, s: State, found: Addr): Addr
  {
    if RangeLeft(c, s) then s.nextAddr + 1 else found
  }

  /** GetIPForIdent. */
  function Mapped(c: Config, s: State, pk: PubKey, now: Time, found: Addr): State
  {
    if pk in s.keyToIp then s.(activity := s.activity[s.keyToIp[pk] := now])
    else
      var ip, s1 := AllocatedAddr(c, s, found), Allocated(c, s, found);
      if pk in s1.keyToIp then s1
      else if ip in s1.ipToKey then s1.(keyToIp := s1.keyToIp[pk := ip])
      else s1.(keyToIp := s1.keyToIp[pk := ip], ipToKey := s1.ipToKey[ip := pk], activity := s1.activity[ip := now])
  }

  function MappedAddr(c: Config, s: State, pk: PubKey, found: Addr): Addr
  {
    if pk in s.keyToIp then s.keyToIp[pk] else AllocatedAddr(c, s, found)
  }

  datatype Action =
    | GetIP(pk: PubKey, now: Time, found: Addr)
    | NewExit(ident: PubKey, path: PathId, at: Time, picked: Addr)
    | RemoveExit(index: nat)
    | Expire(dead: set<Endpoint>)

  function Dropping(exits: seq<Endpoint>, dead: set<Endpoint>): seq<Endpoint>
  {
    if exits == [] then []
    else (if exits[0] in dead then [] else [exits[0]]) + Dropping(exits[1..], dead)
  }

  /** One call; for NewExit the checks of the request have passed. */
  function Act(c: Config, s: State, a: Action): State
  {
    match a
    case GetIP(pk, now, found) => Mapped(c, s, pk, now, found)
    case NewExit(pk, path, now, found) =>
      var s1 := Mapped(c, s, pk, now, found);
      s1.(active := s1.active + [Endpoint(pk, path, MappedAddr(c, s, pk, found), now)])
    case RemoveExit(i) => if i < |s.active| then s.(active := s.active[..i] + s.active[i + 1..]) else s
    case Expire(dead) => s.(active := Dropping(s.active, dead))
  }

  // ----- the invariant

  /** Keys and addresses are mapped one to one. */
  ghost predicate Inverse(s: State)
  {
    && (forall pk :: pk in s.keyToIp ==> s.keyToIp[pk] in s.ipToKey && s.ipToKey[s.keyToIp[pk]] == pk)
    && (forall ip :: ip in s.ipToKey ==> s.ipToKey[ip] in s.keyToIp && s.keyToIp[s.ipToKey[ip]] == ip)
  }

  /** Exactly the addresses handed out so far are mapped, and they have an activity entry. */
  ghost predicate InRange(c: Config, s: State)
  {
    && c.ifAddr <= s.nextAddr <= c.highest
    && (forall ip :: ip in s.ipToKey <==> c.ifAddr <= ip <= s.nextAddr)
    && (forall ip :: ip in s.activity <==> c.ifAddr <= ip <= s.nextAddr)
  }

  ghost predicate ExitsMatch(s: State)
  {
    forall e :: e in s.active ==> e.pk in s.keyToIp && s.keyToIp[e.pk] == e.ip
  }

  /** The tables are consistent and our own key has the interface address. */
  ghost predicate Consistent(c: Config, s: State)
  {
    && Inverse(s) && InRange(c, s) && ExitsMatch(s)
    && c.us in s.keyToIp && s.keyToIp[c.us] == c.ifAddr
  }

  /** Our own address is never the oldest. */
  ghost predicate Ages(c: Config, s: State)
  {
    && c.ifAddr in s.activity && s.activity[c.ifAddr] == c.never
    && (forall ip :: ip in s.activity && ip != c.ifAddr ==> s.activity[ip] < c.never)
  }

  ghost predicate Inv(c: Config, s: State)
  {
    Consistent(c, s) && Ages(c, s)
  }

  /** The ident is known, or an address is left, or the search finds somebody else's. */
  ghost predicate Serviceable(c: Config, s: State, pk: PubKey, found: Addr)
  {
    pk in s.keyToIp || RangeLeft(c, s) || (found in s.activity && found != c.ifAddr)
  }

  /** What the design takes for granted: the range has room for others, and a request comes from another
      ident at a time below never, a sentinel that no clock reaches. The code has zero there; see the
      section on its own sentinel. */
  ghost predicate Sound(c: Config, s: State, a: Action)
  {
    && c.ifAddr < c.highest
    && (a.GetIP? ==> a.pk != c.us && a.now < c.never && (RangeLeft(c, s) || PicksOldest(c, s, a.found)))
    && (a.NewExit? ==> a.ident != c.us && a.at < c.never && (RangeLeft(c, s) || PicksOldest(c, s, a.picked)))
  }

  lemma {:induction false} WithoutIs(exits: seq<Endpoint>, pk: PubKey)
    ensures forall e :: e in Without(exits, pk) <==> e in exits && e.pk != pk
  {
    if exits != [] {
      WithoutIs(exits[1..], pk);
      assert exits == [exits[0]] + exits[1..];
    }
  }

  lemma {:induction false} DroppingIs(exits: seq<Endpoint>, dead: set<Endpoint>)
    ensures forall e :: e in Dropping(exits, dead) <==> e in exits && e !in dead
  {
    if exits != [] {
      DroppingIs(exits[1..], dead);
      assert exits == [exits[0]] + exits[1..];
    }
  }

  /** When the range is used up, the search finds a mapped address that is not ours. */
  lemma OldestIsMapped(c: Config, s: State, found: Addr)
    requires Inv(c, s) && c.ifAddr < c.highest && !RangeLeft(c, s) && PicksOldest(c, s, found)
    ensures found in s.ipToKey && found != c.ifAddr && s.ipToKey[found] != c.us
    ensures s.activity[found] < c.never && forall ip :: ip in s.activity ==> s.activity[found] <= s.activity[ip]
  {
    assert c.highest in s.activity && s.activity[c.highest] < c.never;
  }

  lemma KickKeeps(c: Config, s: State, found: Addr)
    requires Consistent(c, s) && found in s.ipToKey
    ensures var s' := KickIdentOffExit(s, s.ipToKey[found]);
            && Inverse(s') && ExitsMatch(s')
            && s'.ipToKey == s.ipToKey - {found} && s'.keyToIp == s.keyToIp - {s.ipToKey[found]}
            && s'.activity == s.activity && s'.nextAddr == s.nextAddr
  {
    WithoutIs(s.active, s.ipToKey[found]);
    hide Without;
  }

  /** Whatever never is and whoever asks: a serviceable request keeps the tables consistent and
      maps the ident to the address it returns. */
  lemma ServiceableKeeps(c: Config, s: State, pk: PubKey, now: Time, found: Addr)
    requires Consistent(c, s) && Serviceable(c, s, pk, found)
    ensures var s' := Mapped(c, s, pk, now, found);
            && Consistent(c, s')
            && pk in s'.keyToIp && s'.keyToIp[pk] == MappedAddr(c, s, pk, found)
            && s'.activity == s.activity[MappedAddr(c, s, pk, found) := now]
  {
    hide KickIdentOffExit;
    if pk !in s.keyToIp && !RangeLeft(c, s) { KickKeeps(c, s, found); }
  }

  /** A request keeps the tables consistent exactly if it is serviceable. */
  lemma ConsistentIffServiceable(c: Config, s: State, pk: PubKey, now: Time, found: Addr)
    requires Consistent(c, s) && 0 < c.ifAddr && PicksOldest(c, s, found)
    ensures Consistent(c, Mapped(c, s, pk, now, found)) <==> Serviceable(c, s, pk, found)
  {
    if Serviceable(c, s, pk, found) {
      ServiceableKeeps(c, s, pk, now, found);
    } else if found in s.activity {
      KickKeeps(c, s, found);
      assert c.us !in Mapped(c, s, pk, now, found).keyToIp;
    } else {
      assert found == 0 && 0 !in s.ipToKey;
      assert 0 in Mapped(c, s, pk, now, found).ipToKey;
    }
  }

  /** Whether a request can be served, as the tables stand: the ident is known, or an address is
      left, or some address was last active before ours and before never. */
  ghost predicate CanServe(c: Config, s: State, pk: PubKey)
  {
    || pk in s.keyToIp
    || RangeLeft(c, s)
    || (exists ip :: ip in s.activity && c.ifAddr in s.activity
                     && s.activity[ip] < s.activity[c.ifAddr] && s.activity[ip] < c.never)
  }

  /** For every value of never: a request keeps the tables consistent, in whatever order the
      activities are visited, exactly if it can be served. */
  lemma ConsistentIffCanServe(c: Config, s: State, pk: PubKey, now: Time)
    requires Consistent(c, s) && 0 < c.ifAddr
    ensures (forall found :: PicksOldest(c, s, found) ==> Consistent(c, Mapped(c, s, pk, now, found)))
       <==> CanServe(c, s, pk)
  {
    hide Consistent, Mapped;
    forall found | PicksOldest(c, s, found)
      ensures Consistent(c, Mapped(c, s, pk, now, found)) <==> Serviceable(c, s, pk, found)
    {
      ConsistentIffServiceable(c, s, pk, now, found);
    }
    if CanServe(c, s, pk) {
      forall found | PicksOldest(c, s, found)
        ensures Serviceable(c, s, pk, found)
      {
        ServedPick(c, s, pk, found);
      }
    } else {
      var bad := UnservedPick(c, s, pk);
    }
  }

  lemma ServedPick(c: Config, s: State, pk: PubKey, found: Addr)
    requires CanServe(c, s, pk) && PicksOldest(c, s, found)
    ensures Serviceable(c, s, pk, found)
  {
  }

  /** A request that cannot be served ends at address 0 or at our own in some order. */
  lemma UnservedPick(c: Config, s: State, pk: PubKey) returns (found: Addr)
    requires Consistent(c, s) && 0 < c.ifAddr && !CanServe(c, s, pk)
    ensures PicksOldest(c, s, found) && !Serviceable(c, s, pk, found)
  {
    found := if s.activity[c.ifAddr] < c.never then c.ifAddr else 0;
  }

  lemma MappedKeeps(c: Config, s: State, pk: PubKey, now: Time, found: Addr)
    requires Inv(c, s) && c.ifAddr < c.highest && pk != c.us && now < c.never
    requires RangeLeft(c, s) || PicksOldest(c, s, found)
    ensures Inv(c, Mapped(c, s, pk, now, found))
    ensures pk in Mapped(c, s, pk, now, found).keyToIp
    ensures Mapped(c, s, pk, now, found).keyToIp[pk] == MappedAddr(c, s, pk, found)
  {
    hide Mapped, PicksOldest;
    if pk !in s.keyToIp && !RangeLeft(c, s) { OldestIsMapped(c, s, found); }
    ServiceableKeeps(c, s, pk, now, found);
  }

  lemma ActKeepsInv(c: Config, s: State, a: Action)
    requires Inv(c, s) && Sound(c, s, a)
    ensures Inv(c, Act(c, s, a))
  {
    hide Mapped, MappedAddr, PicksOldest;
    match a
    case GetIP(pk, now, found) => MappedKeeps(c, s, pk, now, found);
    case NewExit(pk, path, now, found) => MappedKeeps(c, s, pk, now, found);
    case RemoveExit(i) =>
    case Expire(dead) => DroppingIs(s.active, dead);
  }

  ghost predicate IsRun(c: Config, run: seq<State>, acts: seq<Action>)
  {
    && |run| == |acts| + 1
    && run[0] == Start(c)
    && forall i :: 0 <= i < |acts| ==> Sound(c, run[i], acts[i]) && run[i + 1] == Act(c, run[i], acts[i])
  }

  /** With a sentinel above the clock: in every run the two maps are inverse to each other, cover exactly
      the addresses from the interface's own up to the last handed out, all within the range and all with an activity
      entry; our own key keeps the interface address; and every live endpoint carries the address
      that its key is mapped to. */
  lemma {:induction false} RunKeepsInv(c: Config, run: seq<State>, acts: seq<Action>, k: nat)
    requires IsRun(c, run, acts) && c.ifAddr <= c.highest && k < |run|
    ensures Inv(c, run[k])
    decreases k
  {
    hide Act, Sound;
    if k > 0 {
      RunKeepsInv(c, run, acts, k - 1);
      ActKeepsInv(c, run[k - 1], acts[k - 1]);
    }
  }

  /** With a sentinel above the clock: a request takes an address away from another ident only when
      every address of the range is mapped, only from one whose last activity is least, and from nobody
      else. */
  lemma EvictsOldestOnly(c: Config, s: State, pk: PubKey, now: Time, found: Addr, other: PubKey)
    requires Inv(c, s) && c.ifAddr < c.highest && pk != c.us && now < c.never
    requires RangeLeft(c, s) || PicksOldest(c, s, found)
    requires other in s.keyToIp && other != pk
    ensures var s' := Mapped(c, s, pk, now, found);
            if other in s'.keyToIp then s'.keyToIp[other] == s.keyToIp[other]
            else && other != c.us && pk !in s.keyToIp && !RangeLeft(c, s)
                 && (forall ip :: c.ifAddr <= ip <= c.highest ==> ip in s.ipToKey)
                 && s.keyToIp[other] == found
                 && (forall ip :: ip in s.activity ==> s.activity[s.keyToIp[other]] <= s.activity[ip])
                 && (forall third :: third in s.keyToIp && third != other ==> third in s'.keyToIp)
  {
    if pk !in s.keyToIp && !RangeLeft(c, s) {
      OldestIsMapped(c, s, found);
      KickKeeps(c, s, found);
    }
    hide KickIdentOffExit, PicksOldest;
  }

  // ----- with the sentinel of the code

  /** Nothing was last active before time zero, so the search always ends at address 0. */
  lemma ZeroFindsNothing(c: Config, s: State, found: Addr)
    requires c.never == 0 && PicksOldest(c, s, found)
    ensures found == 0
  {
  }

  /** With the sentinel zero a request keeps the tables consistent exactly if the ident is known or an
      address is left. */
  lemma ZeroConsistentIff(c: Config, s: State, pk: PubKey, now: Time, found: Addr)
    requires c.never == 0 && Consistent(c, s) && 0 < c.ifAddr && PicksOldest(c, s, found)
    ensures Consistent(c, Mapped(c, s, pk, now, found)) <==> pk in s.keyToIp || RangeLeft(c, s)
  {
    hide Consistent, Mapped;
    ZeroFindsNothing(c, s, found);
    ConsistentIffServiceable(c, s, pk, now, found);
    assert 0 !in s.activity by { ZeroIsOutside(c, s); }
  }

  lemma ZeroIsOutside(c: Config, s: State)
    requires Consistent(c, s) && 0 < c.ifAddr
    ensures 0 !in s.activity
  {
  }

  /** The addresses handed out are mapped; with the range used up, address 0 may be, too. */
  ghost predicate ZeroRange(c: Config, s: State)
  {
    && 0 < c.ifAddr <= s.nextAddr <= c.highest
    && (forall ip :: c.ifAddr <= ip <= s.nextAddr ==> ip in s.ipToKey)
    && (forall ip :: ip in s.ipToKey ==> c.ifAddr <= ip <= s.nextAddr || (ip == 0 && !RangeLeft(c, s)))
  }

  /** What the tables keep with the sentinel zero. */
  ghost predicate ZeroInv(c: Config, s: State)
  {
    && Inverse(s) && ZeroRange(c, s) && ExitsMatch(s)
    && s.activity.Keys == s.ipToKey.Keys
    && c.us in s.keyToIp && s.keyToIp[c.us] == c.ifAddr
  }

  /** The ident is known, or an address is left, or address 0 has an owner to take it from, or the
      default-constructed key, which stands for no owner, is not itself an ident. */
  predicate ZeroSafe(c: Config, s: State, pk: PubKey)
  {
    pk in s.keyToIp || RangeLeft(c, s) || 0 in s.ipToKey || ZERO_KEY !in s.keyToIp
  }

  /** Handing out address 0 leaves every other mapping alone. */
  lemma ZeroAllocated(c: Config, s: State)
    requires ZeroInv(c, s) && !RangeLeft(c, s) && (0 in s.ipToKey || ZERO_KEY !in s.keyToIp)
    ensures var s' := Allocated(c, s, 0);
            && s'.ipToKey == s.ipToKey - {0} && 0 !in s'.ipToKey
            && (forall pk :: pk in s'.keyToIp <==> pk in s.keyToIp && s.keyToIp[pk] != 0)
            && (forall pk :: pk in s'.keyToIp ==> s'.keyToIp[pk] == s.keyToIp[pk])
            && s'.nextAddr == s.nextAddr && s'.activity == s.activity
            && (forall e :: e in s'.active <==> e in s.active && e.ip != 0)
  {
    var pk := if 0 in s.ipToKey then s.ipToKey[0] else ZERO_KEY;
    WithoutIs(s.active, pk);
    hide Without;
    assert Allocated(c, s, 0).ipToKey == s.ipToKey - {0};
  }

  lemma ZeroMappedKeeps(c: Config, s: State, pk: PubKey, now: Time)
    requires ZeroInv(c, s) && ZeroSafe(c, s, pk)
    ensures var s' := Mapped(c, s, pk, now, 0);
            ZeroInv(c, s') && pk in s'.keyToIp && s'.keyToIp[pk] == MappedAddr(c, s, pk, 0)
  {
    hide KickIdentOffExit;
    if pk !in s.keyToIp && !RangeLeft(c, s) {
      ZeroAllocated(c, s);
      hide Allocated;
    }
  }

  /** An unsafe request throws the default-constructed key out and leaves address 0 to it. */
  lemma ZeroUnsafe(c: Config, s: State, pk: PubKey, now: Time)
    requires ZeroInv(c, s) && !ZeroSafe(c, s, pk)
    ensures var s' := Mapped(c, s, pk, now, 0);
            && s'.keyToIp == (s.keyToIp - {ZERO_KEY})[pk := 0]
            && 0 in s'.ipToKey && s'.ipToKey[0] == ZERO_KEY
  {
  }

  /** With the sentinel zero a request keeps the maps inverse, and all the rest, exactly if it is safe. */
  lemma ZeroInverseIff(c: Config, s: State, pk: PubKey, now: Time)
    requires ZeroInv(c, s)
    ensures Inverse(Mapped(c, s, pk, now, 0)) <==> ZeroSafe(c, s, pk)
    ensures ZeroInv(c, Mapped(c, s, pk, now, 0)) <==> ZeroSafe(c, s, pk)
  {
    hide Mapped;
    if ZeroSafe(c, s, pk) { ZeroMappedKeeps(c, s, pk, now); } else { ZeroUnsafe(c, s, pk, now); }
  }

  /** Whose address a call asks for, if it does. */
  function Asks(a: Action): set<PubKey>
  {
    match a
    case GetIP(pk, _, _) => {pk}
    case NewExit(pk, _, _, _) => {pk}
    case RemoveExit(_) => {}
    case Expire(_) => {}
  }

  /** The search of the call ends as it does for these activities. */
  ghost predicate Searches(c: Config, s: State, a: Action)
  {
    (a.GetIP? ==> PicksOldest(c, s, a.found)) && (a.NewExit? ==> PicksOldest(c, s, a.picked))
  }

  ghost predicate AsksSafely(c: Config, s: State, a: Action)
  {
    forall pk :: pk in Asks(a) ==> ZeroSafe(c, s, pk)
  }

  lemma ZeroActKeepsIff(c: Config, s: State, a: Action)
    requires c.never == 0 && ZeroInv(c, s) && Searches(c, s, a)
    ensures ZeroInv(c, Act(c, s, a)) <==> AsksSafely(c, s, a)
    ensures Inverse(Act(c, s, a)) <==> AsksSafely(c, s, a)
  {
    hide Mapped, MappedAddr, PicksOldest, ZeroSafe;
    match a
    case GetIP(pk, now, found) =>
      ZeroFindsNothing(c, s, found);
      ZeroInverseIff(c, s, pk, now);
      assert pk in Asks(a);
    case NewExit(pk, path, now, found) =>
      ZeroFindsNothing(c, s, found);
      ZeroInverseIff(c, s, pk, now);
      if ZeroSafe(c, s, pk) { ZeroMappedKeeps(c, s, pk, now); }
      assert pk in Asks(a);
    case RemoveExit(i) =>
    case Expire(dead) => DroppingIs(s.active, dead);
  }

  /** A run of the code in which every request is safe; times and idents are any. */
  ghost predicate IsZeroRun(c: Config, run: seq<State>, acts: seq<Action>)
  {
    && c.never == 0 && 0 < c.ifAddr <= c.highest
    && |run| == |acts| + 1
    && run[0] == Start(c)
    && forall i :: 0 <= i < |acts| ==>
         Searches(c, run[i], acts[i]) && AsksSafely(c, run[i], acts[i]) && run[i + 1] == Act(c, run[i], acts[i])
  }

  lemma {:induction false} ZeroRunKeeps(c: Config, run: seq<State>, acts: seq<Action>, k: nat)
    requires IsZeroRun(c, run, acts) && k < |run|
    ensures ZeroInv(c, run[k])
    decreases k
  {
    hide Act, Searches, AsksSafely;
    if k > 0 {
      ZeroRunKeeps(c, run, acts, k - 1);
      ZeroActKeepsIff(c, run[k - 1], acts[k - 1]);
    }
  }

  /** In every run with the sentinel zero: as long as the requests are safe, the maps are inverse to each
      other, cover the addresses handed out and at most address 0 besides, with an activity for each,
      our own key keeps the interface address, and every live endpoint carries its key's address;
      and whatever call comes next keeps the maps inverse exactly if it asks safely. */
  lemma ZeroRunKeepsIff(c: Config, run: seq<State>, acts: seq<Action>, next: Action)
    requires IsZeroRun(c, run, acts) && Searches(c, run[|acts|], next)
    ensures ZeroInv(c, run[|acts|])
    ensures Inverse(Act(c, run[|acts|], next)) <==> AsksSafely(c, run[|acts|], next)
  {
    hide Act, Searches, AsksSafely;
    ZeroRunKeeps(c, run, acts, |acts|);
    ZeroActKeepsIff(c, run[|acts|], next);
  }

  /** After every such run, whatever call comes next takes an ident's address away exactly if it asks for
      a new ident, the range is used up, and the ident holds address 0, or nobody does and the ident is
      the default-constructed key; otherwise the ident keeps its address. Activity plays no part. */
  lemma ZeroEvictsIff(c: Config, run: seq<State>, acts: seq<Action>, next: Action, other: PubKey)
    requires IsZeroRun(c, run, acts) && Searches(c, run[|acts|], next) && other in run[|acts|].keyToIp
    ensures var s, s' := run[|acts|], Act(c, run[|acts|], next);
            && (other !in s'.keyToIp
                <==> && (exists pk :: pk in Asks(next) && pk !in s.keyToIp)
                     && !RangeLeft(c, s)
                     && (s.keyToIp[other] == 0 || (0 !in s.ipToKey && other == ZERO_KEY)))
            && (other in s'.keyToIp ==> s'.keyToIp[other] == s.keyToIp[other])
  {
    hide Act, Asks, PicksOldest, AsksSafely;
    ZeroRunKeeps(c, run, acts, |acts|);
    ZeroStepEvicts(c, run[|acts|], next, other);
  }

  lemma ZeroStepEvicts(c: Config, s: State, a: Action, other: PubKey)
    requires c.never == 0 && ZeroInv(c, s) && Searches(c, s, a) && other in s.keyToIp
    ensures var s' := Act(c, s, a);
            && (other !in s'.keyToIp
                <==> && (exists pk :: pk in Asks(a) && pk !in s.keyToIp)
                     && !RangeLeft(c, s)
                     && (s.keyToIp[other] == 0 || (0 !in s.ipToKey && other == ZERO_KEY)))
            && (other in s'.keyToIp ==> s'.keyToIp[other] == s.keyToIp[other])
  {
    hide Mapped, MappedAddr, PicksOldest;
    match a
    case GetIP(pk, now, found) =>
      ZeroFindsNothing(c, s, found);
      ZeroMapsOthers(c, s, pk, now, other);
      assert pk in Asks(a);
    case NewExit(pk, path, now, found) =>
      ZeroFindsNothing(c, s, found);
      ZeroMapsOthers(c, s, pk, now, other);
      assert pk in Asks(a);
    case RemoveExit(i) =>
    case Expire(dead) =>
  }

  lemma ZeroMapsOthers(c: Config, s: State, pk: PubKey, now: Time, other: PubKey)
    requires ZeroInv(c, s) && other in s.keyToIp
    ensures var s' := Mapped(c, s, pk, now, 0);
            && (other !in s'.keyToIp
                <==> && pk !in s.keyToIp && !RangeLeft(c, s)
                     && (s.keyToIp[other] == 0 || (0 !in s.ipToKey && other == ZERO_KEY)))
            && (other in s'.keyToIp ==> s'.keyToIp[other] == s.keyToIp[other])
  {
    hide KickIdentOffExit, ExitsMatch;
    if pk !in s.keyToIp && !RangeLeft(c, s) {
      if ZeroSafe(c, s, pk) {
        ZeroAllocated(c, s);
        hide Allocated;
      } else {
        ZeroUnsafe(c, s, pk, now);
        hide Mapped;
      }
    }
  }

  const SMALL := Config(7, 1, 2, 0)

  /** The two-address range after ident 8, and after ident 9. */
  function FullTables(): State { State(map[7 := 1, 8 := 2], map[1 := 7, 2 := 8], map[1 := 0, 2 := 10], 2, []) }

  function OverfullTables(): State
  {
    State(map[7 := 1, 8 := 2, 9 := 0], map[1 := 7, 2 := 8, 0 := 9], map[1 := 0, 2 := 10, 0 := 20], 2, [])
  }

  lemma SecondIdent()
    ensures Mapped(SMALL, Start(SMALL), 8, 10, 0) == FullTables()
  {
  }

  lemma ThirdIdent()
    ensures Mapped(SMALL, FullTables(), 9, 20, 0) == OverfullTables()
  {
    var s' := Mapped(SMALL, FullTables(), 9, 20, 0);
    assert s'.keyToIp == OverfullTables().keyToIp && s'.ipToKey == OverfullTables().ipToKey;
  }

  lemma FourthIdent()
    ensures Mapped(SMALL, OverfullTables(), 10, 30, 0).keyToIp == map[7 := 1, 8 := 2, 10 := 0]
  {
  }

  function SmallActs(): seq<Action> { [GetIP(8, 10, 0), GetIP(9, 20, 0), GetIP(10, 30, 0)] }

  function SmallRun(): seq<State>
  {
    [Start(SMALL), FullTables(), OverfullTables(), Mapped(SMALL, OverfullTables(), 10, 30, 0)]
  }

  /** In a two-address range ident 8 is active at time 10, ident 9 gets address 0 at time 20, and then
      ident 10 takes it from 9, not from 8, which has been inactive for longer. */
  lemma ZeroEvictsNewer()
    ensures IsZeroRun(SMALL, SmallRun(), SmallActs())
    ensures var s := OverfullTables(); s.activity[s.keyToIp[8]] < s.activity[s.keyToIp[9]]
    ensures SmallRun()[3].keyToIp == map[7 := 1, 8 := 2, 10 := 0]
  {
    hide Mapped, PicksOldest;
    SecondIdent();
    ThirdIdent();
    FourthIdent();
    SmallPicks();
  }

  lemma SmallPicks()
    ensures PicksOldest(SMALL, Start(SMALL), 0) && PicksOldest(SMALL, FullTables(), 0)
    ensures PicksOldest(SMALL, OverfullTables(), 0)
  {
  }

  /** The default-constructed key as an ident breaks the tables: it is thrown out by the search that
      finds nothing, and its address stays behind. */
  lemma ZeroKeyBreaksTables()
    ensures var s := Mapped(SMALL, Start(SMALL), ZERO_KEY, 10, 0);
            PicksOldest(SMALL, s, 0) && Consistent(SMALL, s) && !Inverse(Mapped(SMALL, s, 9, 20, 0))
  {
    hide Mapped;
    ZeroKeyGetsAddress();
    ZeroKeyThrownOut();
  }

  function ZeroKeyTables(): State
  {
    State(map[7 := 1, ZERO_KEY := 2], map[1 := 7, 2 := ZERO_KEY], map[1 := 0, 2 := 10], 2, [])
  }

  lemma ZeroKeyGetsAddress()
    ensures Mapped(SMALL, Start(SMALL), ZERO_KEY, 10, 0) == ZeroKeyTables()
  {
  }

  lemma ZeroKeyThrownOut()
    ensures var s := Mapped(SMALL, ZeroKeyTables(), 9, 20, 0);
            9 in s.keyToIp && s.keyToIp[9] == 0 && 0 in s.ipToKey && s.ipToKey[0] == ZERO_KEY
  {
  }

  // ----- when the promise fails

  ghost predicate IsServedRun(c: Config, run: seq<State>, acts: seq<Action>)
  {
    && |run| == |acts| + 1
    && run[0] == Start(c)
    && forall i :: 0 <= i < |acts| ==>
         && run[i + 1] == Act(c, run[i], acts[i])
         && (acts[i].GetIP? ==> CanServe(c, run[i], acts[i].pk) && PicksOldest(c, run[i], acts[i].found))
         && (acts[i].NewExit? ==> CanServe(c, run[i], acts[i].ident) && PicksOldest(c, run[i], acts[i].picked))
  }

  lemma ActKeepsConsistent(c: Config, s: State, a: Action)
    requires Consistent(c, s)
    requires a.GetIP? ==> CanServe(c, s, a.pk) && PicksOldest(c, s, a.found)
    requires a.NewExit? ==> CanServe(c, s, a.ident) && PicksOldest(c, s, a.picked)
    ensures Consistent(c, Act(c, s, a))
  {
    hide Mapped, MappedAddr, Serviceable, CanServe, PicksOldest;
    match a
    case GetIP(pk, now, found) =>
      ServedPick(c, s, pk, found);
      ServiceableKeeps(c, s, pk, now, found);
    case NewExit(pk, path, now, found) =>
      ServedPick(c, s, pk, found);
      ServiceableKeeps(c, s, pk, now, found);
    case RemoveExit(i) =>
    case Expire(dead) => DroppingIs(s.active, dead);
  }

  /** For every value of never, every run of requests that can be served keeps the tables consistent: in
      particular every run that fits into the range. */
  lemma {:induction false} ServedRunConsistent(c: Config, run: seq<State>, acts: seq<Action>, k: nat)
    requires IsServedRun(c, run, acts) && c.ifAddr <= c.highest && k < |run|
    ensures Consistent(c, run[k])
    decreases k
  {
    hide Act, CanServe, PicksOldest;
    if k > 0 {
      ServedRunConsistent(c, run, acts, k - 1);
      ActKeepsConsistent(c, run[k - 1], acts[k - 1]);
    }
  }

  /** With the range used up, a new ident gets an address of the range exactly if some activity is
      below never; otherwise it is given address 0. */
  lemma AddressInRangeIff(c: Config, s: State, pk: PubKey, found: Addr)
    requires Inverse(s) && InRange(c, s) && 0 < c.ifAddr
    requires pk !in s.keyToIp && !RangeLeft(c, s) && PicksOldest(c, s, found)
    ensures c.ifAddr <= MappedAddr(c, s, pk, found) <= c.highest
       <==> exists ip :: ip in s.activity && s.activity[ip] < c.never
    ensures (forall ip :: ip in s.activity ==> s.activity[ip] >= c.never) ==> MappedAddr(c, s, pk, found) == 0
  {
  }

  /** numeric_limits is not specialised for std::chrono durations, so its max() is a zero duration.
      With never == 0 a full range is never reused: the third ident of a two-address range gets
      address 0, whatever the clock says. */
  lemma ZeroLimitLeavesRange(t: Time, u: Time, found: Addr)
    requires var c := Config(7, 1, 2, 0);
             PicksOldest(c, Mapped(c, Start(c), 8, t, 0), found)
    ensures var c := Config(7, 1, 2, 0);
            var s := Mapped(c, Start(c), 8, t, 0);
            && s.keyToIp == map[7 := 1, 8 := 2]
            && MappedAddr(c, s, 9, found) == 0
            && 9 in Mapped(c, s, 9, u, found).keyToIp && Mapped(c, s, 9, u, found).keyToIp[9] == 0
  {
    var c := Config(7, 1, 2, 0);
    var s := Mapped(c, Start(c), 8, t, 0);
    assert s.keyToIp == map[7 := 1, 8 := 2];
    assert found == 0;
  }

  /** A range of one address is our own: the first other ident gets address 0. */
  lemma OneAddressRange(never: Time, t: Time, found: Addr)
    requires var c := Config(7, 1, 1, never); PicksOldest(c, Start(c), found)
    ensures var c := Config(7, 1, 1, never);
            MappedAddr(c, Start(c), 8, found) == 0
  {
  }

  /** With a sentinel above the clock, a request in our own name gives our address an ordinary activity,
      and so makes it the one that the next new ident takes over. */
  lemma OwnKeyCanBeEvicted(found: Addr)
    requires var c := Config(7, 1, 2, 1000);
             var s := Mapped(c, Mapped(c, Start(c), 8, 10, 0), 7, 5, 0);
             PicksOldest(c, s, found)
    ensures var c := Config(7, 1, 2, 1000);
            var s := Mapped(c, Mapped(c, Start(c), 8, 10, 0), 7, 5, 0);
            7 in s.keyToIp && 7 !in Mapped(c, s, 9, 20, found).keyToIp
  {
    var c := Config(7, 1, 2, 1000);
    var s1 := Mapped(c, Start(c), 8, 10, 0);
    var s := Mapped(c, s1, 7, 5, 0);
    assert s1.ipToKey == map[1 := 7, 2 := 8] && s1.activity == map[1 := 1000, 2 := 10];
    assert s.activity == map[1 := 5, 2 := 10];
    assert s.activity[1] < c.never;
    assert found == 1;
  }

  // ----- the endpoint object

  lemma Regroup(a: seq<Endpoint>, e: Endpoint, b: seq<Endpoint>)
    ensures a + ([e] + b) == (a + [e]) + b
  {
  }

  class ExitEndpoint {
    const c: Config
    var keyToIp: map<PubKey, Addr>
    var ipToKey: map<Addr, PubKey>
    var activity: map<Addr, Time>
    var nextAddr: Addr
    var active: seq<Endpoint>
    var chosen: map<PubKey, Endpoint>
    var paths: map<PathId, PubKey>
    var snodeKeys: set<PubKey>
    var permitExit: bool

    ghost function View(): State
      reads this
    {
      State(keyToIp, ipToKey, activity, nextAddr, active)
    }

    /** Configure and Start. */
    constructor (c: Config, permitExit: bool)
      ensures View() == Start(c) && this.c == c && this.permitExit == permitExit && snodeKeys == {c.us}
    {
      this.c := c;
      this.permitExit := permitExit;
      nextAddr := c.ifAddr;
      keyToIp, ipToKey, activity := map[c.us := c.ifAddr], map[c.ifAddr := c.us], map[c.ifAddr := c.never];
      active, chosen, paths, snodeKeys := [], map[], map[], {c.us};
    }

    /** The loop that looks for the oldest activity. */
    method FindOldest() returns (found: Addr)
      ensures PicksOldest(c, View(), found)
    {
      found := 0;
      var min := c.never;
      var todo := activity.Keys;
      while todo != {}
        invariant todo <= activity.Keys
        invariant min <= c.never
        invariant min == c.never ==> found == 0 && forall ip :: ip in activity.Keys - todo ==> activity[ip] >= c.never
        invariant min < c.never ==> found in activity && activity[found] == min
        invariant forall ip :: ip in activity.Keys - todo ==> min <= activity[ip] || activity[ip] >= c.never
        decreases |todo|
      {
        var ip :| ip in todo;
        if activity[ip] < min {
          found, min := ip, activity[ip];
        }
        todo := todo - {ip};
      }
    }

    method KickOff(pk: PubKey)
      modifies this`keyToIp, this`ipToKey, this`active
      ensures View() == KickIdentOffExit(old(View()), pk)
    {
      if pk !in keyToIp { keyToIp := keyToIp[pk := 0]; }
      var ip := keyToIp[pk];
      keyToIp := keyToIp - {pk};
      ipToKey := ipToKey - {ip};
      assert keyToIp == old(keyToIp) - {pk};
      DropKey(pk);
    }

    method DropKey(pk: PubKey)
      modifies this`active
      ensures active == Without(old(active), pk)
    {
      var kept: seq<Endpoint> := [];
      var i := 0;
      while i < |active|
        invariant 0 <= i <= |active| && active == old(active)
        invariant kept + Without(active[i..], pk) == Without(active, pk)
      {
        assert active[i..][0] == active[i] && active[i..][1..] == active[i + 1..];
        if active[i].pk != pk {
          Regroup(kept, active[i], Without(active[i + 1..], pk));
          kept := kept + [active[i]];
        } else {
          assert [] + Without(active[i + 1..], pk) == Without(active[i + 1..], pk);
        }
        i := i + 1;
      }
      assert active[i..] == [];
      active := kept;
    }

    method AllocateNewAddress() returns (ip: Addr, ghost found: Addr)
      modifies this`nextAddr, this`keyToIp, this`ipToKey, this`active
      ensures RangeLeft(c, old(View())) || PicksOldest(c, old(View()), found)
      ensures View() == Allocated(c, old(View()), found) && ip == AllocatedAddr(c, old(View()), found)
    {
      found := 0;
      if nextAddr < c.highest {
        nextAddr := nextAddr + 1;
        ip := nextAddr;
        return;
      }
      ip := FindOldest();
      found := ip;
      if ip !in ipToKey { ipToKey := ipToKey[ip := ZERO_KEY]; }
      KickOff(ipToKey[ip]);
    }

    method GetIPForIdent(pk: PubKey, now: Time) returns (ip: Addr, ghost found: Addr)
      modifies this
      ensures RangeLeft(c, old(View())) || pk in old(keyToIp) || PicksOldest(c, old(View()), found)
      ensures View() == Mapped(c, old(View()), pk, now, found) && ip == MappedAddr(c, old(View()), pk, found)
      ensures chosen == old(chosen) && paths == old(paths) && snodeKeys == old(snodeKeys) && permitExit
          == old(permitExit)
    {
      found := 0;
      if pk !in keyToIp {
        ip, found := AllocateNewAddress();
        if pk in keyToIp { return; }
        keyToIp := keyToIp[pk := ip];
        if ip in ipToKey { return; }
        ipToKey := ipToKey[ip := pk];
      } else {
        ip := keyToIp[pk];
      }
      activity := activity[ip := now];
    }

    /** Never hands out anything but our own address for our own key. */
    method ObtainServiceNodeIP(pk: PubKey, now: Time) returns (ip: Addr, ghost found: Addr)
      modifies this
      ensures pk == c.us ==> ip == c.ifAddr && View() == old(View()) && snodeKeys == old(snodeKeys)
      ensures pk != c.us ==>
                && View() == Mapped(c, old(View()), pk, now, found) && ip == MappedAddr(c, old(View()), pk, found)
                && (RangeLeft(c, old(View())) || pk in old(keyToIp) || PicksOldest(c, old(View()), found))
                && snodeKeys == old(snodeKeys) + {pk}
    {
      found := 0;
      if pk == c.us { return c.ifAddr, found; }
      ip, found := GetIPForIdent(pk, now);
      snodeKeys := snodeKeys + {pk};
    }

    /** hasHandler: the path is known; fromSNode: the previous hop is the router itself. */
    method AllocateNewExit(pk: PubKey, path: PathId, wantInternet: bool, hasHandler: bool, fromSNode: bool, now: Time)
      returns (ok: bool, ghost found: Addr)
      modifies this
      ensures (wantInternet && !old(permitExit)) || !hasHandler ==> !ok && View() == old(View()) && paths == old(paths)
      ensures !(wantInternet && !old(permitExit)) && hasHandler ==>
                && View() == Act(c, old(View()), NewExit(pk, path, now, found))
                && (RangeLeft(c, old(View())) || pk in old(keyToIp) || PicksOldest(c, old(View()), found))
                && paths == old(paths)[path := pk] && (ok <==> pk in keyToIp)
                && snodeKeys == old(snodeKeys) + (if fromSNode then {pk} else {}) && chosen == old(chosen)
                && ok && active != [] && active[|active| - 1] == Endpoint(pk, path, keyToIp[pk], now)
    {
      found := 0;
      if wantInternet && !permitExit { return false, found; }
      if !hasHandler { return false, found; }
      var ip;
      ip, found := GetIPForIdent(pk, now);
      if fromSNode { snodeKeys := snodeKeys + {pk}; }
      active := active + [Endpoint(pk, path, ip, now)];
      paths := paths[path := pk];
      ok := pk in keyToIp;
    }

    /** Removes the first endpoint of the same key and path, if there is one. */
    method RemoveEndpoint(ep: Endpoint) returns (ghost index: nat)
      modifies this`active
      ensures View() == Act(c, old(View()), RemoveExit(index))
      ensures index < |old(active)| ==> old(active)[index].pk == ep.pk && old(active)[index].path == ep.path
      ensures forall i :: 0 <= i < |old(active)| && i < index ==>
                !(old(active)[i].pk == ep.pk && old(active)[i].path == ep.path)
    {
      var i := 0;
      while i < |active|
        invariant 0 <= i <= |active| && active == old(active)
        invariant forall j :: 0 <= j < i ==> !(active[j].pk == ep.pk && active[j].path == ep.path)
      {
        if active[i].pk == ep.pk && active[i].path == ep.path {
          active := active[..i] + active[i + 1..];
          return i;
        }
        i := i + 1;
      }
      index := i;
    }

    /** expired and looksDead are the endpoints' own judgement of this moment. Afterwards each key
        with a live endpoint has one chosen, the newest that does not look dead. */
    method Tick(expired: set<Endpoint>, looksDead: set<Endpoint>)
      modifies this`active, this`chosen
      ensures View() == Act(c, old(View()), Expire(expired))
      ensures forall e :: e in active && e !in looksDead ==> e.pk in chosen && e.createdAt <= chosen[e.pk].createdAt
      ensures forall pk :: pk in chosen ==> chosen[pk] in active && chosen[pk] !in looksDead && chosen[pk].pk == pk
    {
      DropExpired(expired);
      PickChosen(looksDead);
    }

    method DropExpired(expired: set<Endpoint>)
      modifies this`active
      ensures active == Dropping(old(active), expired)
    {
      var kept: seq<Endpoint> := [];
      var i := 0;
      while i < |active|
        invariant 0 <= i <= |active| && active == old(active)
        invariant kept + Dropping(active[i..], expired) == Dropping(active, expired)
      {
        assert active[i..][0] == active[i] && active[i..][1..] == active[i + 1..];
        if active[i] !in expired {
          Regroup(kept, active[i], Dropping(active[i + 1..], expired));
          kept := kept + [active[i]];
        } else {
          assert [] + Dropping(active[i + 1..], expired) == Dropping(active[i + 1..], expired);
        }
        i := i + 1;
      }
      assert active[i..] == [];
      active := kept;
    }

    method PickChosen(looksDead: set<Endpoint>)
      modifies this`chosen
      ensures forall e :: e in active && e !in looksDead ==> e.pk in chosen && e.createdAt <= chosen[e.pk].createdAt
      ensures forall pk :: pk in chosen ==> chosen[pk] in active && chosen[pk] !in looksDead && chosen[pk].pk == pk
    {
      chosen := map[];
      var i := 0;
      while i < |active|
        invariant 0 <= i <= |active|
        invariant forall j :: 0 <= j < i && active[j] !in looksDead ==>
                    active[j].pk in chosen && active[j].createdAt <= chosen[active[j].pk].createdAt
        invariant forall pk :: pk in chosen ==> chosen[pk] in active && chosen[pk] !in looksDead && chosen[pk].pk == pk
      {
        var e := active[i];
        if e.pk in chosen {
          if chosen[e.pk].createdAt < e.createdAt {
            if e !in looksDead { chosen := chosen[e.pk := e]; }
          }
        } else if e !in looksDead {
          chosen := chosen[e.pk := e];
        }
        i := i + 1;
      }
    }
  }
}
