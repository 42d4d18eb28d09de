/**
  The handlers and sweeps over the stored tables, each proved to take exactly its step of the roster
  state machine. Requests are the arguments; responses are left out.
*/
module Portal {
  import opened Basics
  import opened Ipam
  import opened MachineStatus
  import opened Routes
  import opened Roster

  /** A table can be scanned by its ids, which are positive and below the counter. */
  ghost predicate Scannable(ids: set<int>, next: int) {
    next >= 1 && forall id :: id in ids ==> 0 < id < next
  }

  // ---- the overlap check

  predicate Stored(endpoints: map<int, Endpoint>, id: int) {
    id in endpoints
  }

  ghost predicate IsListOf(endpoints: map<int, Endpoint>, id: int, prefixes: seq<Prefix>)
    requires ValidEndpoints(endpoints)
  {
    id in endpoints && prefixes == AllowedOf(endpoints[id])
  }

  /** The positions in `ids` of the endpoints that are stored, and their prefixes. */
  ghost predicate Collected(endpoints: map<int, Endpoint>, ids: seq<int>, n: nat, from: seq<nat>,
                            lists: seq<seq<Prefix>>)
    requires ValidEndpoints(endpoints) && n <= |ids|
  {
    && |from| == |lists|
    && (forall k :: 0 <= k < |from| ==> from[k] < n && IsListOf(endpoints, ids[from[k]], lists[k]))
    && (forall k, l :: 0 <= k < l < |from| ==> from[k] < from[l])
    && (forall i :: 0 <= i < n && Stored(endpoints, ids[i]) ==> exists k :: 0 <= k < |from| && from[k] == i)
  }

  lemma MeetOfLists(endpoints: map<int, Endpoint>, x: int, y: int, a: seq<Prefix>, b: seq<Prefix>)
    requires ValidEndpoints(endpoints)
    ensures Meet(endpoints, x, y) ==> Stored(endpoints, x) && Stored(endpoints, y)
    ensures IsListOf(endpoints, x, a) ==> ValidList(a)
    ensures IsListOf(endpoints, x, a) && IsListOf(endpoints, y, b) ==> Meet(endpoints, x, y) == ListsMeet(a, b)
  {
  }

  ghost predicate SomeMeet(lists: seq<seq<Prefix>>)
    requires forall k :: 0 <= k < |lists| ==> ValidList(lists[k])
  {
    exists k, l :: 0 <= k < l < |lists| && ListsMeet(lists[k], lists[l])
  }

  lemma CollectedClash(endpoints: map<int, Endpoint>, ids: seq<int>, from: seq<nat>, lists: seq<seq<Prefix>>)
    requires ValidEndpoints(endpoints) && Collected(endpoints, ids, |ids|, from, lists)
    ensures forall k :: 0 <= k < |lists| ==> ValidList(lists[k])
    ensures Clash(endpoints, ids) <==> SomeMeet(lists)
  {
    hide Meet, IsListOf, Stored, ListsMeet, ValidList;
    forall k | 0 <= k < |lists| ensures ValidList(lists[k]) {
      MeetOfLists(endpoints, ids[from[k]], ids[from[k]], lists[k], lists[k]);
    }
    if Clash(endpoints, ids) {
      var i, j :| 0 <= i < j < |ids| && Meet(endpoints, ids[i], ids[j]);
      MeetOfLists(endpoints, ids[i], ids[j], [], []);
      var k :| 0 <= k < |from| && from[k] == i;
      var l :| 0 <= l < |from| && from[l] == j;
      MeetOfLists(endpoints, ids[i], ids[j], lists[k], lists[l]);
      assert ListsMeet(lists[k], lists[l]);
    }
    if SomeMeet(lists) {
      var k, l :| 0 <= k < l < |lists| && ListsMeet(lists[k], lists[l]);
      MeetOfLists(endpoints, ids[from[k]], ids[from[l]], lists[k], lists[l]);
      assert Meet(endpoints, ids[from[k]], ids[from[l]]);
    }
  }

  /** The prefixes of an endpoint; the form that stored it made sure that they parse. */
  method AllowedIPsOr(e: Endpoint) returns (prefixes: seq<Prefix>)
    requires ValidEndpoint(e)
    ensures prefixes == AllowedOf(e)
  {
    var allowed := ParseAllowedIPs(OrDefault(e.allowed));
    prefixes := allowed.value;
  }

  lemma CollectedStep(endpoints: map<int, Endpoint>, ids: seq<int>, i: nat, from: seq<nat>, lists: seq<seq<Prefix>>,
                      last: seq<Prefix>)
    requires ValidEndpoints(endpoints) && i < |ids| && Collected(endpoints, ids, i, from, lists)
    requires IsListOf(endpoints, ids[i], last)
    ensures Collected(endpoints, ids, i + 1, from + [i], lists + [last])
  {
    hide IsListOf, Stored;
    var longer := from + [i];
    assert longer[|from|] == i;
    forall j | 0 <= j < i + 1 && Stored(endpoints, ids[j]) ensures exists k :: 0 <= k < |longer| && longer[k] == j {
      if j < i {
        var k :| 0 <= k < |from| && from[k] == j;
        assert longer[k] == j;
      }
    }
  }

  method CollectAllowed(endpoints: map<int, Endpoint>, ids: seq<int>) returns (lists: seq<seq<Prefix>>)
    requires ValidEndpoints(endpoints)
    ensures exists from :: Collected(endpoints, ids, |ids|, from, lists)
  {
    hide Parsed, ListsMeet, ValidParts;
    lists := [];
    ghost var from: seq<nat> := [];
    for i := 0 to |ids|
      invariant Collected(endpoints, ids, i, from, lists)
    {
      var id := ids[i];
      if Stored(endpoints, id) {
        var allowed := AllowedIPsOr(endpoints[id]);
        CollectedStep(endpoints, ids, i, from, lists, allowed);
        lists, from := lists + [allowed], from + [i];
      }
    }
  }

  method AnyOverlap(lists: seq<seq<Prefix>>) returns (found: bool)
    requires forall k :: 0 <= k < |lists| ==> ValidList(lists[k])
    ensures found == SomeMeet(lists)
  {
    for k := 0 to |lists|
      invariant forall i, j :: 0 <= i < k && i < j < |lists| ==> !ListsMeet(lists[i], lists[j])
    {
      for l := k + 1 to |lists|
        invariant forall j :: k < j < l ==> !ListsMeet(lists[k], lists[j])
      {
        var pair := Overlap(lists[k], lists[l]);
        if pair.Some? {
          return true;
        }
      }
    }
    found := false;
  }

  /** conflictAmong; an endpoint edited but not stored yet is already in `endpoints`. */
  method ConflictAmong(endpoints: map<int, Endpoint>, ids: seq<int>) returns (conflict: bool)
    requires ValidEndpoints(endpoints)
    ensures conflict == Clash(endpoints, ids)
  {
    if |ids| < 2 {
      return false;
    }
    var lists := CollectAllowed(endpoints, ids);
    ghost var from :| Collected(endpoints, ids, |ids|, from, lists);
    CollectedClash(endpoints, ids, from, lists);
    conflict := AnyOverlap(lists);
  }

  method EndpointEditConflict(machines: map<int, Machine>, next: int, endpoints: map<int, Endpoint>, id: int,
                              e: Endpoint)
    returns (conflict: bool)
    requires Scannable(machines.Keys, next) && ValidEndpoints(endpoints) && ValidEndpoint(e)
    ensures conflict <==> exists m :: m in machines && |machines[m].links| >= 2 && id in machines[m].links &&
                                      Clash(endpoints[id := e], machines[m].links)
  {
    hide Clash, ValidEndpoint;
    var edited := endpoints[id := e];
    assert ValidEndpoints(edited);
    for m := 1 to next
      invariant forall k :: k in machines && k < m && |machines[k].links| >= 2 && id in machines[k].links ==>
                  !Clash(edited, machines[k].links)
    {
      if m in machines && |machines[m].links| >= 2 && id in machines[m].links {
        var clash := ConflictAmong(edited, machines[m].links);
        if clash {
          return true;
        }
      }
    }
    conflict := false;
  }

  // ---- queries

  method ListUsed(machines: map<int, Machine>, next: int) returns (used: seq<nat>)
    requires Scannable(machines.Keys, next)
    ensures forall a :: a in used <==> a in UsedAddresses(machines)
  {
    used := [];
    for id := 1 to next
      invariant forall k :: k in machines && k < id && machines[k].address.Some? ==> machines[k].address.value in used
      invariant forall a :: a in used ==> a in UsedAddresses(machines)
    {
      if id in machines && machines[id].address.Some? {
        used := used + [machines[id].address.value];
      }
    }
  }

  /** The used addresses without the one the machine may keep. */
  method WithoutOwn(used: seq<nat>, own: Option<nat>) returns (out: seq<nat>)
    ensures forall a :: a in out <==> a in used && Some(a) != own
  {
    out := [];
    for i := 0 to |used|
      invariant forall a :: a in out <==> a in used[..i] && Some(a) != own
    {
      assert used[..i + 1] == used[..i] + [used[i]];
      if Some(used[i]) != own {
        out := out + [used[i]];
      }
    }
    assert used[..|used|] == used;
  }

  method CheckAddress(pool: Pool, machines: map<int, Machine>, next: int, address: Option<nat>, own: Option<nat>)
    returns (ok: bool)
    requires Scannable(machines.Keys, next) && pool.Valid()
    ensures ok <==> address.Some? && pool.Assignable(address.value) &&
                    (Some(address.value) == own || address.value !in UsedAddresses(machines))
  {
    var used := ListUsed(machines, next);
    used := WithoutOwn(used, own);
    var verdict := Validate(pool, address, used);
    if address.Some? {
      UsableIff(pool, address.value, used);
    }
    ok := verdict == Usable;
  }

  ghost function PendingBelow(machines: map<int, Machine>, owner: string, n: int): set<int> {
    set id | id in machines && id < n && machines[id].owner == owner && machines[id].status == Pending
  }

  lemma PendingBelowStep(machines: map<int, Machine>, owner: string, id: int)
    ensures PendingBelow(machines, owner, id + 1)
            == PendingBelow(machines, owner, id)
               + (if id in machines && machines[id].owner == owner && machines[id].status == Pending then {id} else {})
  {
  }

  method CountPending(machines: map<int, Machine>, next: int, owner: string) returns (n: nat)
    requires Scannable(machines.Keys, next)
    ensures n == |PendingBelow(machines, owner, next)|
  {
    n := 0;
    assert PendingBelow(machines, owner, 1) == {};
    for id := 1 to next
      invariant n == |PendingBelow(machines, owner, id)|
    {
      PendingBelowStep(machines, owner, id);
      if id in machines && machines[id].owner == owner && machines[id].status == Pending {
        n := n + 1;
      }
    }
  }

  method Unlinked(links: seq<int>, id: int) returns (rest: seq<int>)
    ensures rest == Roster.Without(links, id)
  {
    rest := [];
    for i := 0 to |links|
      invariant rest == Roster.Without(links[..i], id)
    {
      assert links[..i + 1][..i] == links[..i];
      if links[i] != id {
        rest := rest + [links[i]];
      }
    }
    assert links[..|links|] == links;
  }

  // ---- the handlers

  class Server {
    const cfg: Config
    var machines: map<int, Machine>
    var endpoints: map<int, Endpoint>
    var nextMachine: int
    var nextEndpoint: int
    ghost var vetted: map<int, Key>

    ghost function State(): Roster.State
      reads this
    {
      Roster.State(machines, endpoints, nextMachine, nextEndpoint, vetted)
    }

    ghost predicate Valid()
      reads this
    {
      cfg.pool.Valid() && Inv(cfg, State())
    }

    constructor (cfg: Config)
      requires cfg.pool.Valid()
      ensures Valid() && this.cfg == cfg && State() == EMPTY
    {
      this.cfg := cfg;
      machines, endpoints, nextMachine, nextEndpoint, vetted := map[], map[], 1, 1, map[];
    }

    /** The INSERT: None when the public key is taken. */
    method CreateMachine(owner: string, key: Key, now: int) returns (id: Option<int>)
      modifies this
      ensures id.Some? <==> Inserted(old(State()), owner, key, now).Some?
      ensures State() == Inserted(old(State()), owner, key, now).GetOr(old(State()))
      ensures id.Some? ==> id.value == old(nextMachine)
    {
      if KeyTaken(machines, key, 0) {
        return None;
      }
      machines := machines[nextMachine := Machine(owner, key, None, Pending, now, now, [])];
      id := Some(nextMachine);
      nextMachine := nextMachine + 1;
    }

    /** The assignment transaction; false, and nothing changed, on a violated constraint. */
    method Assign(id: int, address: nat, ids: seq<int>, activate: bool) returns (ok: bool)
      requires id in machines
      modifies this
      ensures ok <==> Assigned(old(State()), id, address, ids, activate).Some?
      ensures State() == Assigned(old(State()), id, address, ids, activate).GetOr(old(State()))
    {
      if AddressTaken(machines, address, id) {
        return false;
      }
      if !Linkable(endpoints, ids) {
        return false;
      }
      var m := machines[id].(address := Some(address), links := ids);
      machines := machines[id := if activate then m.(status := Active) else m];
      ok := true;
    }

    method AtPendingCap(owner: string) returns (reached: bool)
      requires Scannable(machines.Keys, nextMachine)
      ensures reached == CapReached(cfg, State(), owner)
    {
      if cfg.maxPending == 0 {
        return false;
      }
      var n := CountPending(machines, nextMachine, owner);
      assert PendingBelow(machines, owner, nextMachine) == PendingOf(State(), owner);
      reached := n >= cfg.maxPending;
    }

    method HandleAddMachine(owner: string, key: Key, wellFormed: bool, now: int)
      requires Valid()
      modifies this
      ensures State() == Next(cfg, old(State()), AddMachine(owner, key, wellFormed, now)) && Valid()
    {
      StepKeepsInv(cfg, State(), AddMachine(owner, key, wellFormed, now));
      FactsOfInv(cfg, State());
      hide Inv, Inserted;
      if !wellFormed {
        return;
      }
      var capped := AtPendingCap(owner);
      if capped {
        return;
      }
      var id := CreateMachine(owner, key, now);
    }

    /** The endpoint with a name, which is unique. */
    method EndpointByName(name: string) returns (id: Option<int>)
      requires Scannable(endpoints.Keys, nextEndpoint)
      ensures id.Some? <==> exists e :: EndpointNamed(State(), name, e)
      ensures id.Some? ==> EndpointNamed(State(), name, id.value)
    {
      id := None;
      for e := 1 to nextEndpoint
        invariant forall k :: k in endpoints && k < e ==> endpoints[k].name != name
      {
        if e in endpoints && endpoints[e].name == name {
          assert EndpointNamed(State(), name, e);
          return Some(e);
        }
      }
    }

    method NextAddress() returns (address: Option<nat>)
      requires Valid()
      ensures address == FirstFree(cfg.pool, UsedAddresses(machines), cfg.pool.Low())
    {
      var used := ListUsed(machines, nextMachine);
      var inspected;
      address, inspected := NextFree(cfg.pool, used);
      SameFirstFree(cfg.pool, used, UsedAddresses(machines), address);
    }

    method HandleEnroll(owner: string, key: Key, wellFormed: bool, now: int)
      requires Valid()
      modifies this
      ensures State() == Next(cfg, old(State()), Enroll(owner, key, wellFormed, now)) && Valid()
    {
      StepKeepsInv(cfg, State(), Enroll(owner, key, wellFormed, now));
      FactsOfInv(cfg, State());
      hide Inv, EnrolledAt, FirstFree;
      if !cfg.selfEnroll || !wellFormed {
        return;
      }
      var ep := EndpointByName(cfg.enrollEndpoint);
      if ep.None? {
        return;
      }
      var capped := AtPendingCap(owner);
      if capped {
        return;
      }
      var address := NextAddress();
      if address.None? {
        return;
      }
      OneEndpointNamed(cfg, State(), ep.value);
      EnrollAt(owner, key, address.value, ep.value, now);
    }

    /** The inserts of an enrolment; the machine goes again when its address turns out to be taken. */
    method EnrollAt(owner: string, key: Key, address: nat, endpoint: int, now: int)
      requires address !in UsedAddresses(machines)
      modifies this
      ensures State() == EnrolledAt(old(State()), owner, key, address, endpoint, now)
    {
      ghost var before := State();
      var id := CreateMachine(owner, key, now);
      if id.None? {
        return;
      }
      var newId := id.value;
      var m := machines[newId];
      FreeInNext(before, State(), address, newId);
      var taken := AddressTaken(machines, address, newId);
      machines := if taken then machines - {newId} else machines[newId := m.(address := Some(address))];
      if !taken {
        machines := machines[newId := m.(address := Some(address), links := [endpoint])];
      }
    }

    method HandleEditMachine(id: int, key: Key, wellFormed: bool, permitted: bool, now: int)
      requires Valid()
      modifies this
      ensures State() == Next(cfg, old(State()), EditOwn(id, key, wellFormed, permitted, now)) && Valid()
    {
      StepKeepsInv(cfg, State(), EditOwn(id, key, wellFormed, permitted, now));
      hide Inv;
      if id !in machines || !permitted || !wellFormed {
        return;
      }
      var m := machines[id];
      var oldKey, status := m.key, m.status;
      if KeyTaken(machines, key, id) {
        return;
      }
      m := m.(key := key);
      if key != oldKey && status != Pending {
        m := m.(status := Pending, pendingSince := now);
      }
      machines := machines[id := m];
    }

    /** CreateMachine and ApproveMachine, as the admin form and the adoption of a peer do. */
    method Register(owner: string, key: Key, address: nat, ids: seq<int>, now: int)
      requires nextMachine !in machines
      modifies this
      ensures State() == Registered(old(State()), owner, key, address, ids, now)
    {
      var id := CreateMachine(owner, key, now);
      if id.None? {
        return;
      }
      var ok := Assign(id.value, address, ids, true);
      if ok {
        vetted := vetted[id.value := key];
      }
    }

    method HandleAdminCreateMachine(owner: string, key: Key, address: Option<nat>, ids: seq<int>, wellFormed: bool,
                                    now: int)
      requires Valid()
      modifies this
      ensures State() == Next(cfg, old(State()), AdminCreate(owner, key, address, ids, wellFormed, now)) && Valid()
    {
      StepKeepsInv(cfg, State(), AdminCreate(owner, key, address, ids, wellFormed, now));
      FactsOfInv(cfg, State());
      hide Inv, Registered, Clash;
      if !wellFormed || |ids| == 0 {
        return;
      }
      var conflict := ConflictAmong(endpoints, ids);
      if conflict {
        return;
      }
      var ok := CheckAddress(cfg.pool, machines, nextMachine, address, None);
      if !ok {
        return;
      }
      Register(owner, key, address.value, ids, now);
    }

    method HandleUpdateMachine(id: int, key: Key, address: Option<nat>, ids: seq<int>, wellFormed: bool, now: int)
      requires Valid()
      modifies this
      ensures State() == Next(cfg, old(State()), AdminUpdate(id, key, address, ids, wellFormed, now)) && Valid()
    {
      StepKeepsInv(cfg, State(), AdminUpdate(id, key, address, ids, wellFormed, now));
      FactsOfInv(cfg, State());
      hide Inv, Clash;
      if id !in machines || !wellFormed || |ids| == 0 {
        return;
      }
      var m := machines[id];
      var conflict := ConflictAmong(endpoints, ids);
      if conflict {
        return;
      }
      var ok := CheckAddress(cfg.pool, machines, nextMachine, address, m.address);
      if !ok || KeyTaken(machines, key, id) {
        return;
      }
      machines := machines[id := m.(key := key)];
      vetted := vetted[id := key];
      ok := Assign(id, address.value, ids, m.status != Disabled);
    }

    method HandleDisableMachine(id: int)
      requires Valid()
      modifies this
      ensures State() == Next(cfg, old(State()), Disable(id)) && Valid()
    {
      StepKeepsInv(cfg, State(), Disable(id));
      hide Inv;
      if id !in machines || machines[id].status == Disabled {
        assert id in machines ==> machines[id].(status := Disabled) == machines[id] &&
                                  machines[id := machines[id].(status := Disabled)] == machines;
        return;
      }
      machines := machines[id := machines[id].(status := Disabled)];
    }

    method HandleEnableMachine(id: int, now: int)
      requires Valid()
      modifies this
      ensures State() == Next(cfg, old(State()), Enable(id, now)) && Valid()
    {
      StepKeepsInv(cfg, State(), Enable(id, now));
      hide Inv;
      if id !in machines || machines[id].status != Disabled {
        return;
      }
      if machines[id].address.None? || |machines[id].links| == 0 {
        return;
      }
      vetted := vetted[id := machines[id].key];
      machines := machines[id := machines[id].(status := Active)];
    }

    method HandleDeleteMachine(id: int, permitted: bool)
      requires Valid()
      modifies this
      ensures State() == Next(cfg, old(State()), DeleteMachine(id, permitted)) && Valid()
    {
      StepKeepsInv(cfg, State(), DeleteMachine(id, permitted));
      hide Inv;
      if permitted {
        machines := machines - {id};
      }
    }

    method HandleCreateEndpoint(e: Endpoint, wellFormed: bool)
      requires Valid() && (wellFormed ==> ValidEndpoint(e))
      modifies this
      ensures State() == Next(cfg, old(State()), CreateEndpoint(e, wellFormed)) && Valid()
    {
      StepKeepsInv(cfg, State(), CreateEndpoint(e, wellFormed));
      hide Inv;
      if !wellFormed || EndpointClashes(endpoints, e, 0) {
        return;
      }
      endpoints := endpoints[nextEndpoint := e];
      nextEndpoint := nextEndpoint + 1;
    }

    method HandleUpdateEndpoint(id: int, e: Endpoint, wellFormed: bool)
      requires Valid() && (wellFormed ==> ValidEndpoint(e))
      modifies this
      ensures State() == Next(cfg, old(State()), UpdateEndpoint(id, e, wellFormed)) && Valid()
    {
      StepKeepsInv(cfg, State(), UpdateEndpoint(id, e, wellFormed));
      FactsOfInv(cfg, State());
      hide Inv, Clash;
      if id !in endpoints || !wellFormed {
        return;
      }
      var conflict := EndpointEditConflict(machines, nextMachine, endpoints, id, e);
      if conflict || EndpointClashes(endpoints, e, id) {
        return;
      }
      endpoints := endpoints[id := e];
    }

    method HandleDeleteEndpoint(id: int)
      requires Valid()
      modifies this
      ensures State() == Next(cfg, old(State()), DeleteEndpoint(id)) && Valid()
    {
      StepKeepsInv(cfg, State(), DeleteEndpoint(id));
      FactsOfInv(cfg, State());
      hide Inv;
      endpoints := endpoints - {id};
      var cascaded := Cascade(machines, nextMachine, id);
      machines := cascaded;
    }

    method HandleAdoptPeer(endpointId: int, key: Key, reported: bool, owner: string, address: Option<nat>,
                           wellFormed: bool, now: int)
      requires Valid()
      modifies this
      ensures State() == Next(cfg, old(State()), Adopt(endpointId, key, reported, owner, address, wellFormed, now))
      ensures Valid()
    {
      StepKeepsInv(cfg, State(), Adopt(endpointId, key, reported, owner, address, wellFormed, now));
      FactsOfInv(cfg, State());
      hide Inv, Registered;
      if endpointId !in endpoints || !reported || !wellFormed || KeyTaken(machines, key, 0) {
        return;
      }
      var ok := CheckAddress(cfg.pool, machines, nextMachine, address, None);
      if !ok {
        return;
      }
      Register(owner, key, address.value, [endpointId], now);
    }

    method MachineByKey(key: Key) returns (id: Option<int>)
      requires Scannable(machines.Keys, nextMachine)
      ensures id.Some? <==> exists m :: HasKey(State(), m, key)
      ensures id.Some? ==> HasKey(State(), id.value, key)
    {
      id := None;
      for m := 1 to nextMachine
        invariant forall k :: k in machines && k < m ==> machines[k].key != key
      {
        if m in machines && machines[m].key == key {
          assert HasKey(State(), m, key);
          return Some(m);
        }
      }
    }

    method HandleLinkPeer(endpointId: int, key: Key, reported: bool, address: Option<nat>, now: int)
      requires Valid()
      modifies this
      ensures State() == Next(cfg, old(State()), Link(endpointId, key, reported, address, now)) && Valid()
    {
      StepKeepsInv(cfg, State(), Link(endpointId, key, reported, address, now));
      FactsOfInv(cfg, State());
      if endpointId !in endpoints || !reported {
        return;
      }
      var id := MachineByKey(key);
      if id.None? {
        return;
      }
      OneMachineWithKey(cfg, State(), id.value, key);
      hide Inv, Clash;
      var ok := CheckAddress(cfg.pool, machines, nextMachine, address, machines[id.value].address);
      if !ok {
        return;
      }
      var ids := machines[id.value].links;
      if endpointId !in ids {
        ids := ids + [endpointId];
      }
      var conflict := ConflictAmong(endpoints, ids);
      if conflict {
        return;
      }
      ok := Assign(id.value, address.value, ids, true);
      if ok {
        vetted := vetted[id.value := key];
      }
    }

    method DeleteExpiredPending(cutoff: int)
      requires Valid()
      modifies this
      ensures State() == Next(cfg, old(State()), ExpirePending(cutoff)) && Valid()
    {
      StepKeepsInv(cfg, State(), ExpirePending(cutoff));
      hide Inv;
      machines := map m | m in machines && !Expired(machines[m], cutoff) :: machines[m];
    }
  }

  method Cascade(machines: map<int, Machine>, next: int, id: int) returns (out: map<int, Machine>)
    requires Scannable(machines.Keys, next)
    ensures out == map m | m in machines :: machines[m].(links := Roster.Without(machines[m].links, id))
  {
    out := map[];
    for m := 1 to next
      invariant out == map k | k in machines && k < m :: machines[k].(links := Roster.Without(machines[k].links, id))
    {
      if m in machines {
        var links := Unlinked(machines[m].links, id);
        out := out[m := machines[m].(links := links)];
      }
    }
  }

  lemma FactsOfInv(cfg: Config, s: State)
    requires Inv(cfg, s)
    ensures ValidEndpoints(s.endpoints) && s.nextMachine !in s.machines
    ensures Scannable(s.machines.Keys, s.nextMachine) && Scannable(s.endpoints.Keys, s.nextEndpoint)
  {
  }

  lemma OneEndpointNamed(cfg: Config, s: State, e: int)
    requires Inv(cfg, s) && EndpointNamed(s, cfg.enrollEndpoint, e)
    ensures forall other :: EndpointNamed(s, cfg.enrollEndpoint, other) ==> other == e
  {
  }

  lemma OneMachineWithKey(cfg: Config, s: State, id: int, key: Key)
    requires Inv(cfg, s) && HasKey(s, id, key)
    ensures forall other :: HasKey(s, other, key) ==> other == id
  {
  }

  /** NextFree finds the same address as the specification. */
  lemma SameFirstFree(pool: Pool, used: seq<nat>, taken: set<nat>, address: Option<nat>)
    requires pool.Valid() && forall a :: a in used <==> a in taken
    requires address.Some? ==> pool.ValidateAmong(address, used) == Usable
    requires address.Some? ==> forall a: nat :: a < address.value ==> pool.ValidateAmong(Some(a), used) != Usable
    requires address.None? ==> forall a: nat :: pool.ValidateAmong(Some(a), used) != Usable
    ensures address == FirstFree(pool, taken, pool.Low())
  {
    var first := FirstFree(pool, taken, pool.Low());
    if first.Some? {
      UsableIff(pool, first.value, used);
      assert pool.ValidateAmong(Some(first.value), used) == Usable;
    }
    if address.Some? {
      UsableIff(pool, address.value, used);
    }
  }

  /** A free address is still free once a row without an address is inserted. */
  lemma FreeInNext(before: State, after: State, address: nat, id: int)
    requires address !in UsedAddresses(before.machines)
    requires forall i :: i in after.machines && i != id ==>
               i in before.machines && after.machines[i] == before.machines[i]
    ensures !AddressTaken(after.machines, address, id)
  {
    forall i | i in after.machines && i != id ensures after.machines[i].address != Some(address) {
      if before.machines[i].address.Some? {
        assert before.machines[i].address.value in UsedAddresses(before.machines);
      }
    }
  }
}
