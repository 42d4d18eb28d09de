/**
  What each request and sweep comes to, after any run: the tables before and after it, in terms of their fields.
  The checks of the handlers are spelled out on the tables here, as what they are for.
*/
module RosterEffects {
  import opened Basics
  import opened Ipam
  import opened MachineStatus
  import opened NumberBits
  import opened Routes
  import opened Roster

  ghost predicate Possible(cfg: Config, run: seq<Action>) {
    cfg.pool.Valid() && forall k :: 0 <= k < |run| ==> ValidAction(run[k])
  }

  // ---- what the checks are for

  ghost predicate KeyUnused(s: State, key: Key, but: int) {
    forall other :: other in s.machines && other != but ==> s.machines[other].key != key
  }

  /** An address between the first and the last of the pool that no other machine holds. */
  ghost predicate AddressUnused(pool: Pool, s: State, address: Option<nat>, but: int) {
    && pool.bits <= 32 && address.Some?
    && pool.network < address.value < pool.network + Pow2(32 - pool.bits)
    && (pool.bits <= 30 ==> address.value + 1 < pool.network + Pow2(32 - pool.bits))
    && forall other :: other in s.machines && other != but ==> s.machines[other].address != address
  }

  /** The AllowedIPs of an endpoint, as the administrator wrote them; a blank field is everything in IPv4. */
  ghost predicate Routed(e: Endpoint, a: Address)
    requires ValidParts(e.allowed)
  {
    if e.allowed == [Blank] then !a.v6 else Written(e.allowed, a)
  }

  ghost predicate RoutedByBoth(endpoints: map<int, Endpoint>, x: int, y: int, a: Address) {
    && x in endpoints && y in endpoints && ValidAddress(a)
    && ValidParts(endpoints[x].allowed) && ValidParts(endpoints[y].allowed)
    && Routed(endpoints[x], a) && Routed(endpoints[y], a)
  }

  /** No address is routed to two of the endpoints listed. */
  ghost predicate RoutesApart(endpoints: map<int, Endpoint>, ids: seq<int>) {
    forall i, j, a: Address :: 0 <= i < j < |ids| ==> !RoutedByBoth(endpoints, ids[i], ids[j], a)
  }

  ghost predicate DistinctEndpoints(endpoints: map<int, Endpoint>, ids: seq<int>) {
    && (forall i, j :: 0 <= i < j < |ids| ==> ids[i] != ids[j])
    && forall i :: 0 <= i < |ids| ==> ids[i] in endpoints
  }

  /** The owner may have one more machine wait for review. */
  ghost predicate BelowCap(cfg: Config, s: State, owner: string) {
    cfg.maxPending == 0
    || |set id | id in s.machines && s.machines[id].owner == owner && s.machines[id].status == Pending| < cfg.maxPending
  }

  /** Exactly the endpoints listed expect the machine. */
  ghost predicate ExpectedExactlyAt(s: State, ids: seq<int>, id: int) {
    forall e :: Expected(s, e, id) <==> e in ids
  }

  /** A new row in the review queue, without address and links. */
  ghost predicate LeftPending(s: State, s': State, owner: string, key: Key, now: int) {
    var id := s.nextMachine;
    && id !in s.machines
    && s' == s.(nextMachine := id + 1,
                machines := s.machines[id := Machine(owner, key, None, Pending, now, now, [])])
  }

  // ---- the checks do that

  lemma KeyCheck(s: State, key: Key, but: int)
    ensures KeyTaken(s.machines, key, but) <==> !KeyUnused(s, key, but)
  {
  }

  lemma AddressCheck(cfg: Config, s: State, address: Option<nat>, id: int)
    requires Inv(cfg, s) && cfg.pool.Valid()
    ensures Acceptable(cfg, s, address, if id in s.machines then s.machines[id].address else None)
            <==> AddressUnused(cfg.pool, s, address, id)
  {
    hide ValidEndpoints, RoutesDisjoint, ActiveIsVetted;
    if Acceptable(cfg, s, address, if id in s.machines then s.machines[id].address else None) {
      AcceptableIsFree(cfg, s, address, id);
    }
  }

  lemma RoutedIsAllowed(e: Endpoint, a: Address)
    requires ValidEndpoint(e) && ValidAddress(a)
    ensures Routed(e, a) <==> InList(AllowedOf(e), a)
  {
    hide InList;
    ParsedCovers(OrDefault(e.allowed), a);
    if e.allowed == [Blank] {
      DefaultCovers(a);
    }
  }

  lemma DefaultCovers(a: Address)
    requires ValidAddress(a)
    ensures Written(DEFAULT_ALLOWED_IPS, a) <==> !a.v6
  {
    ShrAll(0, 32);
    if !a.v6 {
      ShrAll(a.value, 32);
      assert DEFAULT_ALLOWED_IPS[0].Network?;
    }
  }

  lemma MeetCheck(endpoints: map<int, Endpoint>, x: int, y: int)
    requires ValidEndpoints(endpoints)
    ensures Meet(endpoints, x, y) <==> exists a: Address :: RoutedByBoth(endpoints, x, y, a)
  {
    hide Routed, InList, AllowedOf;
    if x in endpoints && y in endpoints {
      forall a: Address | ValidAddress(a)
        ensures Routed(endpoints[x], a) <==> InList(AllowedOf(endpoints[x]), a)
        ensures Routed(endpoints[y], a) <==> InList(AllowedOf(endpoints[y]), a)
      {
        RoutedIsAllowed(endpoints[x], a);
        RoutedIsAllowed(endpoints[y], a);
      }
      if Meet(endpoints, x, y) {
        var a: Address :| ValidAddress(a) && InList(AllowedOf(endpoints[x]), a) && InList(AllowedOf(endpoints[y]), a);
        assert RoutedByBoth(endpoints, x, y, a);
      }
    }
  }

  lemma ClashCheck(endpoints: map<int, Endpoint>, ids: seq<int>)
    requires ValidEndpoints(endpoints)
    ensures Clash(endpoints, ids) <==> !RoutesApart(endpoints, ids)
  {
    hide Meet, RoutedByBoth, ValidEndpoint;
    forall i, j | 0 <= i < j < |ids|
      ensures Meet(endpoints, ids[i], ids[j]) <==> exists a: Address :: RoutedByBoth(endpoints, ids[i], ids[j], a)
    {
      MeetCheck(endpoints, ids[i], ids[j]);
    }
  }

  // ---- out of service and back

  /** Disabling takes the machine off the list of every endpoint, and changes nothing else about it or the others. */
  lemma DisableTakesOut(cfg: Config, run: seq<Action>, id: int)
    requires Possible(cfg, run) && id in After(cfg, run).machines
    ensures var s, s' := After(cfg, run), After(cfg, run + [Disable(id)]);
            && s' == s.(machines := s.machines[id := s.machines[id].(status := Disabled)])
            && forall e :: !Expected(s', e, id)
  {
    hide Inv, After;
    AfterOneMore(cfg, run, Disable(id));
  }

  /** No endpoint expects it again before an administrator acts. */
  lemma DisabledStaysOut(cfg: Config, run: seq<Action>, id: int, more: seq<Action>)
    requires Possible(cfg, run) && id in After(cfg, run).machines
    requires forall k :: 0 <= k < |more| ==> ValidAction(more[k]) && !AdminAct(more[k])
    ensures forall e :: !Expected(After(cfg, run + [Disable(id)] + more), e, id)
  {
    hide After, Next;
    DisableTakesOut(cfg, run, id);
    StaysOutOfService(cfg, run + [Disable(id)], more, id);
  }

  /** Enabling puts a machine back exactly if it is disabled and has an address and a link. */
  lemma EnablePutsBack(cfg: Config, run: seq<Action>, id: int, now: int)
    requires Possible(cfg, run) && id in After(cfg, run).machines
    ensures var s, s' := After(cfg, run), After(cfg, run + [Enable(id, now)]);
            var m := s.machines[id];
            if m.status == Disabled && m.address.Some? && m.links != []
            then s' == s.(machines := s.machines[id := m.(status := Active)], vetted := s.vetted[id := m.key])
                 && ExpectedExactlyAt(s', m.links, id)
            else s' == s
  {
    hide Inv, After;
    AfterOneMore(cfg, run, Enable(id, now));
  }

  /** Disabling and enabling a machine with an address and a link leaves it expected where it was linked. */
  lemma DisableThenEnable(cfg: Config, run: seq<Action>, id: int, now: int)
    requires Possible(cfg, run) && id in After(cfg, run).machines
    requires After(cfg, run).machines[id].address.Some? && After(cfg, run).machines[id].links != []
    ensures var s, s' := After(cfg, run), After(cfg, run + [Disable(id)] + [Enable(id, now)]);
            && s'.machines == s.machines[id := s.machines[id].(status := Active)] && s'.endpoints == s.endpoints
            && ExpectedExactlyAt(s', s.machines[id].links, id)
  {
    hide After, ExpectedExactlyAt;
    DisableTakesOut(cfg, run, id);
    EnablePutsBack(cfg, run + [Disable(id)], id, now);
  }

  // ---- what owners do

  /** Below the cap, and with a key of its own, a machine joins the review queue; otherwise nothing changes. */
  lemma AddJoinsTheQueue(cfg: Config, run: seq<Action>, owner: string, key: Key, wellFormed: bool, now: int)
    requires Possible(cfg, run)
    ensures var s, s' := After(cfg, run), After(cfg, run + [AddMachine(owner, key, wellFormed, now)]);
            if wellFormed && BelowCap(cfg, s, owner) && KeyUnused(s, key, 0)
            then LeftPending(s, s', owner, key, now)
            else s' == s
  {
    hide After, ValidEndpoints, RoutesDisjoint, ActiveIsVetted, AddressesUsable, UniqueColumns;
    AfterOneMore(cfg, run, AddMachine(owner, key, wellFormed, now));
    var s := After(cfg, run);
    KeyCheck(s, key, 0);
    assert PendingOf(s, owner)
           == set id | id in s.machines && s.machines[id].owner == owner && s.machines[id].status == Pending;
  }

  /**
    Self-enrolment is an entry in the review queue with the lowest unused address and the configured endpoint; it
    happens exactly when it is switched on, the endpoint is there, the owner is below the cap, the key is unused,
    and the pool has an unused address.
  */
  lemma EnrollJoinsTheQueue(cfg: Config, run: seq<Action>, owner: string, key: Key, wellFormed: bool, now: int)
    requires Possible(cfg, run)
    ensures var s, s' := After(cfg, run), After(cfg, run + [Enroll(owner, key, wellFormed, now)]);
            var id := s.nextMachine;
            if cfg.selfEnroll && wellFormed && BelowCap(cfg, s, owner) && KeyUnused(s, key, 0)
               && (exists e :: e in s.endpoints && s.endpoints[e].name == cfg.enrollEndpoint)
               && (exists a: nat :: AddressUnused(cfg.pool, s, Some(a), 0))
            then
              && id !in s.machines && id in s'.machines
              && s' == s.(nextMachine := id + 1, machines := s.machines[id := s'.machines[id]])
              && var m := s'.machines[id];
                 && m.owner == owner && m.key == key && m.status == Pending && m.created == now && m.pendingSince == now
                 && AddressUnused(cfg.pool, s, m.address, 0)
                 && (forall a: nat :: a < m.address.value ==> !AddressUnused(cfg.pool, s, Some(a), 0))
                 && |m.links| == 1 && m.links[0] in s.endpoints && s.endpoints[m.links[0]].name == cfg.enrollEndpoint
                 && !Expected(s', m.links[0], id)
            else s' == s
  {
    hide After, ValidEndpoints, RoutesDisjoint, ActiveIsVetted, AddressesUsable, UniqueColumns;
    AfterOneMore(cfg, run, Enroll(owner, key, wellFormed, now));
    var s := After(cfg, run);
    KeyCheck(s, key, 0);
    assert PendingOf(s, owner)
           == set id | id in s.machines && s.machines[id].owner == owner && s.machines[id].status == Pending;
    assert forall e :: EndpointNamed(s, cfg.enrollEndpoint, e) <==>
                       e in s.endpoints && s.endpoints[e].name == cfg.enrollEndpoint;
    FirstUnused(cfg, s);
  }

  lemma FirstUnused(cfg: Config, s: State)
    requires Inv(cfg, s) && cfg.pool.Valid()
    ensures var first := FirstFree(cfg.pool, UsedAddresses(s.machines), cfg.pool.Low());
            && (first.Some? <==> exists a: nat :: AddressUnused(cfg.pool, s, Some(a), 0))
            && (first.Some? ==> AddressUnused(cfg.pool, s, first, 0))
            && (first.Some? ==> forall a: nat :: a < first.value ==> !AddressUnused(cfg.pool, s, Some(a), 0))
  {
    hide ValidEndpoints, RoutesDisjoint, ActiveIsVetted, AddressesUsable, UniqueColumns, FirstFree;
    var used := UsedAddresses(s.machines);
    assert 0 !in s.machines;
    forall a: nat
      ensures AddressUnused(cfg.pool, s, Some(a), 0) <==> cfg.pool.Low() <= a < cfg.pool.High() && a !in used
    {
      UnusedAddress(cfg, s, a);
    }
  }

  lemma UnusedAddress(cfg: Config, s: State, a: nat)
    requires Inv(cfg, s) && cfg.pool.Valid()
    ensures AddressUnused(cfg.pool, s, Some(a), 0)
            <==> cfg.pool.Low() <= a < cfg.pool.High() && a !in UsedAddresses(s.machines)
  {
    AddressCheck(cfg, s, Some(a), 0);
    UsableIff(cfg.pool, a, []);
  }

  /** An owner's new key takes effect if nobody else has it; a machine that was in service goes back to the queue. */
  lemma OwnEditTakesEffect(cfg: Config, run: seq<Action>, id: int, key: Key, wellFormed: bool, permitted: bool,
                           now: int)
    requires Possible(cfg, run)
    ensures var s, s' := After(cfg, run), After(cfg, run + [EditOwn(id, key, wellFormed, permitted, now)]);
            if id in s.machines && permitted && wellFormed && KeyUnused(s, key, id)
            then
              var m := s.machines[id];
              s' == s.(machines := s.machines[id := if key == m.key || m.status == Pending then m.(key := key)
                                                    else m.(key := key, status := Pending, pendingSince := now)])
            else s' == s
  {
    hide Inv, After;
    AfterOneMore(cfg, run, EditOwn(id, key, wellFormed, permitted, now));
    KeyCheck(After(cfg, run), key, id);
  }

  lemma DeleteRemoves(cfg: Config, run: seq<Action>, id: int, permitted: bool)
    requires Possible(cfg, run)
    ensures var s, s' := After(cfg, run), After(cfg, run + [DeleteMachine(id, permitted)]);
            && s' == s.(machines := s'.machines)
            && (forall other :: other in s'.machines <==> other in s.machines && (other != id || !permitted))
            && forall other :: other in s'.machines ==> s'.machines[other] == s.machines[other]
  {
    hide Inv, After;
    AfterOneMore(cfg, run, DeleteMachine(id, permitted));
  }

  /** Exactly the machines that wait for review since before the cutoff go. */
  lemma ExpiryRemoves(cfg: Config, run: seq<Action>, cutoff: int)
    requires Possible(cfg, run)
    ensures var s, s' := After(cfg, run), After(cfg, run + [ExpirePending(cutoff)]);
            && s' == s.(machines := s'.machines)
            && (forall id :: id in s'.machines ==> id in s.machines && s'.machines[id] == s.machines[id])
            && forall id :: id in s.machines ==>
                 var m := s.machines[id];
                 id !in s'.machines <==>
                   && m.status == Pending
                   && (m.pendingSince > 0 ==> m.pendingSince < cutoff) && (m.pendingSince <= 0 ==> m.created < cutoff)
  {
    hide Inv, After;
    AfterOneMore(cfg, run, ExpirePending(cutoff));
  }

  // ---- what administrators do

  /** A new row in service: expected at once, and at exactly the endpoints of the form. */
  ghost predicate PutInService(s: State, s': State, owner: string, key: Key, address: Option<nat>, ids: seq<int>,
                               now: int) {
    var id := s.nextMachine;
    && id !in s.machines
    && s' == s.(nextMachine := id + 1, vetted := s.vetted[id := key],
                machines := s.machines[id := Machine(owner, key, address, Active, now, now, ids)])
    && ExpectedExactlyAt(s', ids, id)
  }

  lemma RegisterPuts(cfg: Config, s: State, owner: string, key: Key, address: nat, ids: seq<int>, now: int)
    requires Inv(cfg, s) && AddressUnused(cfg.pool, s, Some(address), s.nextMachine)
    ensures var s' := Registered(s, owner, key, address, ids, now);
            if !KeyUnused(s, key, 0) then s' == s
            else if DistinctEndpoints(s.endpoints, ids) then PutInService(s, s', owner, key, Some(address), ids, now)
            else LeftPending(s, s', owner, key, now)
  {
    hide ValidEndpoints, RoutesDisjoint, ActiveIsVetted, AddressesUsable, UniqueColumns;
    KeyCheck(s, key, 0);
    var id := s.nextMachine;
    assert id !in s.machines;
    if KeyUnused(s, key, 0) {
      var s1 := Inserted(s, owner, key, now).value;
      assert s1.machines[id] == Machine(owner, key, None, Pending, now, now, []);
      assert !AddressTaken(s1.machines, address, id);
      assert s1.machines[id := Machine(owner, key, Some(address), Active, now, now, ids)]
             == s.machines[id := Machine(owner, key, Some(address), Active, now, now, ids)];
    }
  }

  /**
    A machine an administrator registers goes into service when the form names distinct endpoints; when it names one
    that does not exist the row stays behind in the review queue; and a form that fails a check changes nothing.
  */
  lemma AdminCreatePutsInService(cfg: Config, run: seq<Action>, owner: string, key: Key, address: Option<nat>,
                                 ids: seq<int>, wellFormed: bool, now: int)
    requires Possible(cfg, run)
    ensures var s, s' := After(cfg, run), After(cfg, run + [AdminCreate(owner, key, address, ids, wellFormed, now)]);
            if wellFormed && ids != [] && RoutesApart(s.endpoints, ids) && KeyUnused(s, key, 0)
               && AddressUnused(cfg.pool, s, address, s.nextMachine)
            then
              if DistinctEndpoints(s.endpoints, ids) then PutInService(s, s', owner, key, address, ids, now)
              else LeftPending(s, s', owner, key, now)
            else s' == s
  {
    hide After, Registered, PutInService, AddressUnused, KeyUnused, RoutesApart, DistinctEndpoints, ValidEndpoints,
         Clash, RoutesDisjoint, ActiveIsVetted, AddressesUsable, UniqueColumns;
    AfterOneMore(cfg, run, AdminCreate(owner, key, address, ids, wellFormed, now));
    var s := After(cfg, run);
    assert s.nextMachine !in s.machines;
    AddressCheck(cfg, s, address, s.nextMachine);
    ClashCheck(s.endpoints, ids);
    if AddressUnused(cfg.pool, s, address, s.nextMachine) {
      RegisterPuts(cfg, s, owner, key, address.value, ids, now);
    }
  }

  /** A peer an endpoint reports becomes a machine in service at that endpoint alone. */
  lemma AdoptPutsInService(cfg: Config, run: seq<Action>, endpointId: int, key: Key, reported: bool, owner: string,
                           address: Option<nat>, wellFormed: bool, now: int)
    requires Possible(cfg, run)
    ensures var s := After(cfg, run);
            var s' := After(cfg, run + [Adopt(endpointId, key, reported, owner, address, wellFormed, now)]);
            if endpointId in s.endpoints && reported && wellFormed && KeyUnused(s, key, 0)
               && AddressUnused(cfg.pool, s, address, s.nextMachine)
            then PutInService(s, s', owner, key, address, [endpointId], now)
            else s' == s
  {
    hide After, Registered, PutInService, AddressUnused, KeyUnused, ValidEndpoints, Clash,
         RoutesDisjoint, ActiveIsVetted, AddressesUsable, UniqueColumns;
    AfterOneMore(cfg, run, Adopt(endpointId, key, reported, owner, address, wellFormed, now));
    var s := After(cfg, run);
    assert s.nextMachine !in s.machines;
    AddressCheck(cfg, s, address, s.nextMachine);
    KeyCheck(s, key, 0);
    if AddressUnused(cfg.pool, s, address, s.nextMachine) {
      RegisterPuts(cfg, s, owner, key, address.value, [endpointId], now);
    }
  }

  /**
    The form of an administrator, past its checks: key, address and links are the form's, and a machine that was not
    disabled is in service at exactly its endpoints, if these are distinct endpoints; else the new key stays behind
    alone.
  */
  lemma AdminUpdateReplaces(cfg: Config, run: seq<Action>, id: int, key: Key, address: Option<nat>, ids: seq<int>,
                            wellFormed: bool, now: int)
    requires Possible(cfg, run)
    ensures var s, s' := After(cfg, run), After(cfg, run + [AdminUpdate(id, key, address, ids, wellFormed, now)]);
            if id in s.machines && wellFormed && ids != [] && RoutesApart(s.endpoints, ids) && KeyUnused(s, key, id)
               && AddressUnused(cfg.pool, s, address, id)
            then
              var m := s.machines[id];
              var status := if m.status == Disabled then Disabled else Active;
              if DistinctEndpoints(s.endpoints, ids)
              then s' == s.(vetted := s.vetted[id := key],
                            machines := s.machines[id := m.(key := key, address := address, links := ids,
                                                            status := status)])
                   && (status == Active ==> ExpectedExactlyAt(s', ids, id))
              else s' == s.(vetted := s.vetted[id := key], machines := s.machines[id := m.(key := key)])
            else s' == s
  {
    hide After, AddressUnused, KeyUnused, RoutesApart, ValidEndpoints, Clash,
         RoutesDisjoint, ActiveIsVetted, AddressesUsable, UniqueColumns;
    AfterOneMore(cfg, run, AdminUpdate(id, key, address, ids, wellFormed, now));
    var s := After(cfg, run);
    AddressCheck(cfg, s, address, id);
    ClashCheck(s.endpoints, ids);
    KeyCheck(s, key, id);
    if id in s.machines && AddressUnused(cfg.pool, s, address, id) {
      AcceptableIsFree(cfg, s, address, id);
    }
  }

  /** The links of a machine with one more endpoint, unless it is there already. */
  function WithLink(links: seq<int>, endpointId: int): seq<int> {
    if endpointId in links then links else links + [endpointId]
  }

  /**
    A peer an endpoint reports, registered as machine `id`, goes into service there as well as where it was linked,
    whatever its status was, exactly when the address is unused and no address would be routed twice.
  */
  lemma LinkAddsEndpoint(cfg: Config, run: seq<Action>, endpointId: int, key: Key, reported: bool,
                         address: Option<nat>, now: int, id: int)
    requires Possible(cfg, run) && id in After(cfg, run).machines && After(cfg, run).machines[id].key == key
    ensures var s, s' := After(cfg, run), After(cfg, run + [Link(endpointId, key, reported, address, now)]);
            var m := s.machines[id];
            var ids := WithLink(m.links, endpointId);
            if endpointId in s.endpoints && reported && RoutesApart(s.endpoints, ids)
               && AddressUnused(cfg.pool, s, address, id)
            then s' == s.(vetted := s.vetted[id := key],
                          machines := s.machines[id := m.(address := address, links := ids, status := Active)])
                 && ExpectedExactlyAt(s', ids, id) && Expected(s', endpointId, id)
            else s' == s
  {
    hide After, AddressUnused, RoutesApart, ValidEndpoint, Clash, ActiveIsVetted, AddressesUsable;
    AfterOneMore(cfg, run, Link(endpointId, key, reported, address, now));
    var s := After(cfg, run);
    assert HasKey(s, id, key);
    assert forall other :: HasKey(s, other, key) ==> other == id;
    AddressCheck(cfg, s, address, id);
    ClashCheck(s.endpoints, WithLink(s.machines[id].links, endpointId));
    LinksOfInv(cfg, s, id);
    if AddressUnused(cfg.pool, s, address, id) {
      AcceptableIsFree(cfg, s, address, id);
    }
  }

  /** A key nobody has is linked to nothing. */
  lemma LinkNeedsMachine(cfg: Config, run: seq<Action>, endpointId: int, key: Key, reported: bool,
                         address: Option<nat>, now: int)
    requires Possible(cfg, run) && KeyUnused(After(cfg, run), key, 0)
    ensures After(cfg, run + [Link(endpointId, key, reported, address, now)]) == After(cfg, run)
  {
    hide After;
    AfterOneMore(cfg, run, Link(endpointId, key, reported, address, now));
    assert forall id :: !HasKey(After(cfg, run), id, key);
  }

  ghost predicate NameAndKeyUnused(s: State, e: Endpoint, but: int) {
    forall other :: other in s.endpoints && other != but ==>
      s.endpoints[other].name != e.name && s.endpoints[other].key != e.key
  }

  lemma CreateEndpointAdds(cfg: Config, run: seq<Action>, e: Endpoint, wellFormed: bool)
    requires Possible(cfg, run) && (wellFormed ==> ValidEndpoint(e))
    ensures var s, s' := After(cfg, run), After(cfg, run + [CreateEndpoint(e, wellFormed)]);
            var id := s.nextEndpoint;
            if wellFormed && NameAndKeyUnused(s, e, 0)
            then id !in s.endpoints && s' == s.(nextEndpoint := id + 1, endpoints := s.endpoints[id := e])
            else s' == s
  {
    hide After, ValidEndpoint, RoutesDisjoint, ActiveIsVetted, AddressesUsable, UniqueColumns;
    AfterOneMore(cfg, run, CreateEndpoint(e, wellFormed));
  }

  /**
    An endpoint is edited exactly when its name and key stay unique and the new list routes no address twice in a
    machine that combines it with another endpoint.
  */
  lemma UpdateEndpointReplaces(cfg: Config, run: seq<Action>, id: int, e: Endpoint, wellFormed: bool)
    requires Possible(cfg, run) && (wellFormed ==> ValidEndpoint(e))
    ensures var s, s' := After(cfg, run), After(cfg, run + [UpdateEndpoint(id, e, wellFormed)]);
            if id in s.endpoints && wellFormed && NameAndKeyUnused(s, e, id)
               && forall m :: m in s.machines && id in s.machines[m].links ==>
                    RoutesApart(s.endpoints[id := e], s.machines[m].links)
            then s' == s.(endpoints := s.endpoints[id := e])
            else s' == s
  {
    hide After, ValidEndpoint, Clash, RoutesApart, RoutesDisjoint, ActiveIsVetted, AddressesUsable, UniqueColumns;
    AfterOneMore(cfg, run, UpdateEndpoint(id, e, wellFormed));
    var s := After(cfg, run);
    if id in s.endpoints && wellFormed {
      forall m | m in s.machines
        ensures Clash(s.endpoints[id := e], s.machines[m].links)
                <==> !RoutesApart(s.endpoints[id := e], s.machines[m].links)
        ensures |s.machines[m].links| < 2 ==> !Clash(s.endpoints[id := e], s.machines[m].links)
      {
        ClashCheck(s.endpoints[id := e], s.machines[m].links);
        OneCannotClash(s.endpoints[id := e], s.machines[m].links);
      }
    }
  }

  lemma OneCannotClash(endpoints: map<int, Endpoint>, ids: seq<int>)
    requires ValidEndpoints(endpoints)
    ensures |ids| < 2 ==> !Clash(endpoints, ids)
  {
  }

  lemma WithoutSnoc(ids: seq<int>, last: int, id: int)
    ensures Without(ids + [last], id) == if last == id then Without(ids, id) else Without(ids, id) + [last]
  {
    assert (ids + [last])[..|ids|] == ids;
  }

  /** The links before and after that of the endpoint stay, in their order. */
  lemma {:induction false} WithoutMiddle(front: seq<int>, id: int, back: seq<int>)
    requires id !in front && id !in back
    ensures Without(front + [id] + back, id) == front + back
  {
    hide Without;
    if back == [] {
      WithoutAbsent(front, id);
      WithoutSnoc(front, id, id);
      assert front + [id] + back == front + [id] && front + back == front;
    } else {
      var some, last := back[..|back| - 1], back[|back| - 1];
      WithoutMiddle(front, id, some);
      WithoutSnoc(front + [id] + some, last, id);
      assert front + [id] + back == front + [id] + some + [last];
      assert front + back == front + some + [last];
    }
  }

  lemma {:induction false} WithoutAbsent(ids: seq<int>, id: int)
    requires id !in ids
    ensures Without(ids, id) == ids
  {
    if ids != [] {
      WithoutAbsent(ids[..|ids| - 1], id);
      assert ids == ids[..|ids| - 1] + [ids[|ids| - 1]];
    }
  }

  /** Deleting an endpoint takes its link out of every machine, and nothing else. */
  lemma DeleteEndpointUnlinks(cfg: Config, run: seq<Action>, id: int)
    requires Possible(cfg, run)
    ensures var s, s' := After(cfg, run), After(cfg, run + [DeleteEndpoint(id)]);
            && s' == s.(endpoints := s'.endpoints, machines := s'.machines)
            && (forall e :: e in s'.endpoints <==> e in s.endpoints && e != id)
            && (forall e :: e in s'.endpoints ==> s'.endpoints[e] == s.endpoints[e])
            && (forall m :: m in s'.machines <==> m in s.machines)
            && (forall m :: m in s.machines ==> s'.machines[m] == s.machines[m].(links := s'.machines[m].links))
            && (forall m :: m in s.machines && id !in s.machines[m].links ==> s'.machines[m] == s.machines[m])
            && (forall m, front, back :: m in s.machines && s.machines[m].links == front + [id] + back ==>
                  s'.machines[m].links == front + back)
            && forall m, e :: Expected(s', e, m) <==> e != id && Expected(s, e, m)
  {
    hide Inv, After, Expected;
    AfterOneMore(cfg, run, DeleteEndpoint(id));
    var s, s' := After(cfg, run), After(cfg, run + [DeleteEndpoint(id)]);
    forall m | m in s.machines && id !in s.machines[m].links ensures s'.machines[m] == s.machines[m] {
      WithoutAbsent(s.machines[m].links, id);
    }
    forall m, front, back | m in s.machines && s.machines[m].links == front + [id] + back
      ensures s'.machines[m].links == front + back
    {
      LinksOfInv(cfg, s, m);
      OnlyOnce(front, id, back);
      WithoutMiddle(front, id, back);
    }
    forall m, e ensures Expected(s', e, m) <==> e != id && Expected(s, e, m) {
      ExpectedElsewhere(cfg, s, id, e, m);
    }
  }

  lemma OnlyOnce(front: seq<int>, id: int, back: seq<int>)
    requires NoRepeats(front + [id] + back)
    ensures id !in front && id !in back
  {
    var all := front + [id] + back;
    assert all[|front|] == id;
    forall i | 0 <= i < |front| ensures front[i] != id {
      assert all[i] == front[i];
    }
    forall i | 0 <= i < |back| ensures back[i] != id {
      assert all[|front| + 1 + i] == back[i];
    }
  }

  lemma ExpectedElsewhere(cfg: Config, s: State, id: int, e: int, m: int)
    requires Inv(cfg, s)
    ensures Expected(EndpointDeleted(s, id), e, m) <==> e != id && Expected(s, e, m)
  {
    hide ValidEndpoints, ActiveIsVetted, AddressesUsable, UniqueColumns, Clash;
    if m in s.machines {
      LinksOfInv(cfg, s, m);
      WithoutMembers(s.machines[m].links, id);
    }
  }
}
