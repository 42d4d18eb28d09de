/**
  The roster as a state machine: machines, endpoints and links, the constraints of the schema, and one
  step for each handler and sweep that changes them. A handler runs as one step; its writes are not one
  transaction, so a later write may fail after an earlier one has been made.
*/
module Roster {
  import opened Basics
  import opened Ipam
  import opened MachineStatus
  import opened Routes

  type Key = string

  /** A machine row with its machine_endpoint rows; the empty address is None. */
  datatype Machine = Machine(owner: string, key: Key, address: Option<nat>, status: Status, created: int,
                             pendingSince: int, links: seq<int>)

  datatype Endpoint = Endpoint(name: string, key: Key, allowed: Parts)

  /**
    The tables, the AUTOINCREMENT counters, and the key each machine had when an administrator last
    acted on it (created, updated, enabled, adopted or linked it), which the store does not record.
  */
  datatype State = State(machines: map<int, Machine>, endpoints: map<int, Endpoint>, nextMachine: int,
                         nextEndpoint: int, vetted: map<int, Key>)

  datatype Config = Config(pool: Pool, maxPending: nat, selfEnroll: bool, enrollEndpoint: string)

  const EMPTY: State := State(map[], map[], 1, 1, map[])

  /** What a form carries; `wellFormed` says that names and keys pass their shape checks. */
  datatype Action =
    | AddMachine(owner: string, key: Key, wellFormed: bool, now: int)
    | Enroll(owner: string, key: Key, wellFormed: bool, now: int)
    | EditOwn(id: int, key: Key, wellFormed: bool, permitted: bool, now: int)
    | AdminCreate(owner: string, key: Key, address: Option<nat>, ids: seq<int>, wellFormed: bool, now: int)
    | AdminUpdate(id: int, key: Key, address: Option<nat>, ids: seq<int>, wellFormed: bool, now: int)
    | Disable(id: int)
    | Enable(id: int, now: int)
    | DeleteMachine(id: int, permitted: bool)
    | CreateEndpoint(endpoint: Endpoint, wellFormed: bool)
    | UpdateEndpoint(id: int, endpoint: Endpoint, wellFormed: bool)
    | DeleteEndpoint(id: int)
    | Adopt(endpointId: int, key: Key, reported: bool, owner: string, address: Option<nat>, wellFormed: bool, now: int)
    | Link(endpointId: int, key: Key, reported: bool, address: Option<nat>, now: int)
    | ExpirePending(cutoff: int)

  // ---- statements on the tables; None is a violated constraint

  predicate KeyTaken(machines: map<int, Machine>, key: Key, but: int) {
    exists id :: id in machines && id != but && machines[id].key == key
  }

  predicate AddressTaken(machines: map<int, Machine>, address: nat, but: int) {
    exists id :: id in machines && id != but && machines[id].address == Some(address)
  }

  /** The public key is unique. The row is pending and has neither address nor links. */
  function Inserted(s: State, owner: string, key: Key, now: int): Option<State> {
    if KeyTaken(s.machines, key, 0) then None
    else Some(s.(machines := s.machines[s.nextMachine := Machine(owner, key, None, Pending, now, now, [])],
                 nextMachine := s.nextMachine + 1))
  }

  predicate NoRepeats(ids: seq<int>) {
    forall i, j :: 0 <= i < j < |ids| ==> ids[i] != ids[j]
  }

  /** The link rows have a primary key, and refer to rows that exist. */
  predicate Linkable(endpoints: map<int, Endpoint>, ids: seq<int>) {
    NoRepeats(ids) && forall i :: 0 <= i < |ids| ==> ids[i] in endpoints
  }

  /** One transaction: address, links and, for an approval, the status. */
  function Assigned(s: State, id: int, address: nat, ids: seq<int>, activate: bool): Option<State>
    requires id in s.machines
  {
    if AddressTaken(s.machines, address, id) || !Linkable(s.endpoints, ids) then None
    else
      var m := s.machines[id];
      Some(s.(machines := s.machines[id := m.(address := Some(address), links := ids,
                                              status := if activate then Active else m.status)]))
  }

  // ---- checks of the handlers

  function UsedAddresses(machines: map<int, Machine>): set<nat> {
    set id | id in machines && machines[id].address.Some? :: machines[id].address.value
  }

  /** pool.Validate, with the address the machine holds itself left out of the used ones. */
  predicate Acceptable(cfg: Config, s: State, address: Option<nat>, own: Option<nat>) {
    && address.Some? && cfg.pool.Assignable(address.value)
    && (Some(address.value) == own || address.value !in UsedAddresses(s.machines))
  }

  ghost predicate ValidEndpoint(e: Endpoint) {
    ValidParts(e.allowed) && Parsed(OrDefault(e.allowed)).Some?
  }

  /** The prefixes of an endpoint, with the default for an empty field. */
  ghost function AllowedOf(e: Endpoint): (prefixes: seq<Prefix>)
    requires ValidEndpoint(e)
    ensures ValidList(prefixes)
  {
    ParsedCovers(OrDefault(e.allowed), Address(false, 0));
    Parsed(OrDefault(e.allowed)).value
  }

  ghost predicate ValidEndpoints(endpoints: map<int, Endpoint>) {
    forall id :: id in endpoints ==> ValidEndpoint(endpoints[id])
  }

  ghost predicate Meet(endpoints: map<int, Endpoint>, x: int, y: int)
    requires ValidEndpoints(endpoints)
  {
    x in endpoints && y in endpoints && ListsMeet(AllowedOf(endpoints[x]), AllowedOf(endpoints[y]))
  }

  /** Two of the endpoints listed route a common address. */
  ghost predicate Clash(endpoints: map<int, Endpoint>, ids: seq<int>)
    requires ValidEndpoints(endpoints)
  {
    exists i, j :: 0 <= i < j < |ids| && Meet(endpoints, ids[i], ids[j])
  }

  ghost function PendingOf(s: State, owner: string): set<int> {
    set id | id in s.machines && s.machines[id].owner == owner && s.machines[id].status == Pending
  }

  ghost predicate CapReached(cfg: Config, s: State, owner: string) {
    cfg.maxPending > 0 && |PendingOf(s, owner)| >= cfg.maxPending
  }

  ghost predicate EndpointNamed(s: State, name: string, id: int) {
    id in s.endpoints && s.endpoints[id].name == name
  }

  // ---- the steps

  ghost function Added(cfg: Config, s: State, owner: string, key: Key, wellFormed: bool, now: int): State {
    if !wellFormed || CapReached(cfg, s, owner) then s else Inserted(s, owner, key, now).GetOr(s)
  }

  /** The lowest free address of the pool at or above `from`. */
  function FirstFree(pool: Pool, used: set<nat>, from: nat): (r: Option<nat>)
    ensures r.Some? ==> from <= r.value < pool.High() && r.value !in used
    ensures r.Some? ==> forall a :: from <= a < r.value ==> a in used
    ensures r.None? ==> forall a :: from <= a < pool.High() ==> a in used
    decreases pool.High() - from
  {
    if from >= pool.High() then None
    else if from !in used then Some(from)
    else FirstFree(pool, used, from + 1)
  }

  /** Reserves the lowest free address, and links the endpoint self-enrolment is configured for. */
  ghost function Enrolled(cfg: Config, s: State, owner: string, key: Key, wellFormed: bool, now: int): State {
    if !cfg.selfEnroll || !wellFormed || !(exists e :: EndpointNamed(s, cfg.enrollEndpoint, e))
       || CapReached(cfg, s, owner) then s
    else
      var e :| EndpointNamed(s, cfg.enrollEndpoint, e);
      var address := FirstFree(cfg.pool, UsedAddresses(s.machines), cfg.pool.Low());
      if address.None? then s else EnrolledAt(s, owner, key, address.value, e, now)
  }

  /** CreateMachine, SetMachineAddress and the link to the endpoint. */
  function EnrolledAt(s: State, owner: string, key: Key, address: nat, endpoint: int, now: int): State {
    match Inserted(s, owner, key, now)
    case None => s
    case Some(s1) =>
      var m := s1.machines[s.nextMachine].(address := Some(address), links := [endpoint]);
      s1.(machines := s1.machines[s.nextMachine := m])
  }

  /** A new key sends a machine that is not pending back to pending. */
  function OwnEdited(s: State, id: int, key: Key, wellFormed: bool, permitted: bool, now: int): State {
    if id !in s.machines || !permitted || !wellFormed || KeyTaken(s.machines, key, id) then s
    else
      var m := s.machines[id];
      var requeued := key != m.key && m.status != Pending;
      var edited := m.(key := key);
      s.(machines := s.machines[id := if requeued then edited.(status := Pending, pendingSince := now) else edited])
  }

  ghost function AdminCreated(cfg: Config, s: State, owner: string, key: Key, address: Option<nat>, ids: seq<int>,
                              wellFormed: bool, now: int): State
    requires ValidEndpoints(s.endpoints)
  {
    if !wellFormed || ids == [] || Clash(s.endpoints, ids) || !Acceptable(cfg, s, address, None) then s
    else Registered(s, owner, key, address.value, ids, now)
  }

  /** CreateMachine, then ApproveMachine: when the approval fails the machine stays, pending. */
  function Registered(s: State, owner: string, key: Key, address: nat, ids: seq<int>, now: int): State {
    match Inserted(s, owner, key, now)
    case None => s
    case Some(s1) =>
      match Assigned(s1, s.nextMachine, address, ids, true)
      case None => s1
      case Some(s2) => s2.(vetted := s2.vetted[s.nextMachine := key])
  }

  /** UpdateMachineIdentity, then the assignment: when that fails the key stays changed. */
  ghost function AdminUpdated(cfg: Config, s: State, id: int, key: Key, address: Option<nat>, ids: seq<int>,
                              wellFormed: bool): State
    requires ValidEndpoints(s.endpoints)
  {
    if id !in s.machines || !wellFormed || ids == [] || Clash(s.endpoints, ids)
       || !Acceptable(cfg, s, address, s.machines[id].address) || KeyTaken(s.machines, key, id) then s
    else
      var s1 := s.(machines := s.machines[id := s.machines[id].(key := key)], vetted := s.vetted[id := key]);
      Assigned(s1, id, address.value, ids, s.machines[id].status != Disabled).GetOr(s1)
  }

  function WithStatus(s: State, id: int, status: Status): State
    requires id in s.machines
  {
    s.(machines := s.machines[id := s.machines[id].(status := status)])
  }

  function MachineDisabled(s: State, id: int): State {
    if id in s.machines then WithStatus(s, id, Disabled) else s
  }

  /** Only a disabled machine with an address and a link can be enabled. */
  function MachineEnabled(s: State, id: int): State {
    if id !in s.machines || s.machines[id].status != Disabled || s.machines[id].address.None?
       || s.machines[id].links == [] then s
    else WithStatus(s, id, Active).(vetted := s.vetted[id := s.machines[id].key])
  }

  function MachineDeleted(s: State, id: int, permitted: bool): State {
    if permitted then s.(machines := s.machines - {id}) else s
  }

  predicate EndpointClashes(endpoints: map<int, Endpoint>, e: Endpoint, but: int) {
    exists id :: id in endpoints && id != but && (endpoints[id].name == e.name || endpoints[id].key == e.key)
  }

  function EndpointCreated(s: State, e: Endpoint, wellFormed: bool): State {
    if !wellFormed || EndpointClashes(s.endpoints, e, 0) then s
    else s.(endpoints := s.endpoints[s.nextEndpoint := e], nextEndpoint := s.nextEndpoint + 1)
  }

  /** An edit is refused when it would make the links of some machine clash. */
  ghost function EndpointUpdated(s: State, id: int, e: Endpoint, wellFormed: bool): State
    requires ValidEndpoints(s.endpoints) && (wellFormed ==> ValidEndpoint(e))
  {
    if id !in s.endpoints || !wellFormed || EditClashes(s, id, e) || EndpointClashes(s.endpoints, e, id) then s
    else s.(endpoints := s.endpoints[id := e])
  }

  ghost predicate EditClashes(s: State, id: int, e: Endpoint)
    requires ValidEndpoints(s.endpoints) && ValidEndpoint(e)
  {
    exists m :: m in s.machines && |s.machines[m].links| >= 2 && id in s.machines[m].links &&
                Clash(s.endpoints[id := e], s.machines[m].links)
  }

  function Without(ids: seq<int>, id: int): seq<int> {
    if ids == [] then []
    else
      var rest, last := Without(ids[..|ids| - 1], id), ids[|ids| - 1];
      if last == id then rest else rest + [last]
  }

  /** The links to the endpoint go with it. */
  function EndpointDeleted(s: State, id: int): State {
    s.(endpoints := s.endpoints - {id},
       machines := map m | m in s.machines :: s.machines[m].(links := Without(s.machines[m].links, id)))
  }

  function Adopted(cfg: Config, s: State, endpointId: int, key: Key, reported: bool, owner: string,
                   address: Option<nat>,
                   wellFormed: bool, now: int): State {
    if endpointId !in s.endpoints || !reported || !wellFormed || KeyTaken(s.machines, key, 0)
       || !Acceptable(cfg, s, address, None) then s
    else Registered(s, owner, key, address.value, [endpointId], now)
  }

  ghost predicate HasKey(s: State, id: int, key: Key) {
    id in s.machines && s.machines[id].key == key
  }

  ghost function Linked(cfg: Config, s: State, endpointId: int, key: Key, reported: bool, address: Option<nat>): State
    requires ValidEndpoints(s.endpoints)
  {
    if endpointId !in s.endpoints || !reported || !(exists id :: HasKey(s, id, key)) then s
    else
      var id :| HasKey(s, id, key);
      var links := s.machines[id].links;
      var ids := if endpointId in links then links else links + [endpointId];
      if !Acceptable(cfg, s, address, s.machines[id].address) || Clash(s.endpoints, ids) then s
      else
        match Assigned(s, id, address.value, ids, true)
        case None => s
        case Some(s1) => s1.(vetted := s1.vetted[id := key])
  }

  predicate Expired(m: Machine, cutoff: int) {
    m.status == Pending && (if m.pendingSince > 0 then m.pendingSince else m.created) < cutoff
  }

  function PendingExpired(s: State, cutoff: int): State {
    s.(machines := map m | m in s.machines && !Expired(s.machines[m], cutoff) :: s.machines[m])
  }

  ghost predicate ValidAction(a: Action) {
    match a
    case CreateEndpoint(e, wellFormed) => wellFormed ==> ValidEndpoint(e)
    case UpdateEndpoint(_, e, wellFormed) => wellFormed ==> ValidEndpoint(e)
    case _ => true
  }

  ghost function Next(cfg: Config, s: State, a: Action): State
    requires ValidEndpoints(s.endpoints) && ValidAction(a)
  {
    match a
    case AddMachine(owner, key, ok, now) => Added(cfg, s, owner, key, ok, now)
    case Enroll(owner, key, ok, now) => Enrolled(cfg, s, owner, key, ok, now)
    case EditOwn(id, key, ok, permitted, now) => OwnEdited(s, id, key, ok, permitted, now)
    case AdminCreate(owner, key, address, ids, ok, now) => AdminCreated(cfg, s, owner, key, address, ids, ok, now)
    case AdminUpdate(id, key, address, ids, ok, now) => AdminUpdated(cfg, s, id, key, address, ids, ok)
    case Disable(id) => MachineDisabled(s, id)
    case Enable(id, now) => MachineEnabled(s, id)
    case DeleteMachine(id, permitted) => MachineDeleted(s, id, permitted)
    case CreateEndpoint(e, ok) => EndpointCreated(s, e, ok)
    case UpdateEndpoint(id, e, ok) => EndpointUpdated(s, id, e, ok)
    case DeleteEndpoint(id) => EndpointDeleted(s, id)
    case Adopt(endpointId, key, reported, owner, address, ok, now) =>
      Adopted(cfg, s, endpointId, key, reported, owner, address, ok, now)
    case Link(endpointId, key, reported, address, now) => Linked(cfg, s, endpointId, key, reported, address)
    case ExpirePending(cutoff) => PendingExpired(s, cutoff)
  }

  // ---- what every run keeps

  ghost predicate UniqueColumns(s: State) {
    && (forall i, j :: i in s.machines && j in s.machines && i != j ==> s.machines[i].key != s.machines[j].key)
    && (forall i, j :: i in s.machines && j in s.machines && i != j && s.machines[i].address.Some? ==>
          s.machines[i].address != s.machines[j].address)
    && (forall i, j :: i in s.endpoints && j in s.endpoints && i != j ==>
          s.endpoints[i].name != s.endpoints[j].name && s.endpoints[i].key != s.endpoints[j].key)
  }

  ghost predicate IdsBelowCounters(s: State) {
    && s.nextMachine > 0 && s.nextEndpoint > 0
    && (forall i :: i in s.machines ==> 0 < i < s.nextMachine)
    && (forall i :: i in s.endpoints ==> 0 < i < s.nextEndpoint)
  }

  /** A client config never has an address covered by two peers. */
  ghost predicate RoutesDisjoint(s: State)
    requires ValidEndpoints(s.endpoints)
  {
    forall i :: i in s.machines ==>
      Linkable(s.endpoints, s.machines[i].links) && !Clash(s.endpoints, s.machines[i].links)
  }

  ghost predicate AddressesUsable(cfg: Config, s: State) {
    forall i :: i in s.machines && s.machines[i].address.Some? ==> cfg.pool.Assignable(s.machines[i].address.value)
  }

  /** Only keys an administrator acted on are in service. */
  ghost predicate ActiveIsVetted(s: State) {
    forall i :: i in s.machines && s.machines[i].status == Active ==>
      s.machines[i].address.Some? && i in s.vetted && s.vetted[i] == s.machines[i].key
  }

  ghost predicate Inv(cfg: Config, s: State) {
    && ValidEndpoints(s.endpoints) && UniqueColumns(s) && IdsBelowCounters(s) && RoutesDisjoint(s)
    && AddressesUsable(cfg, s) && ActiveIsVetted(s)
  }

  // ---- every step keeps the invariant

  lemma MeetSymmetric(endpoints: map<int, Endpoint>, x: int, y: int)
    requires ValidEndpoints(endpoints)
    ensures Meet(endpoints, x, y) == Meet(endpoints, y, x)
  {
  }

  lemma SameClash(a: map<int, Endpoint>, b: map<int, Endpoint>, ids: seq<int>)
    requires ValidEndpoints(a) && ValidEndpoints(b)
    requires forall i :: 0 <= i < |ids| ==> ids[i] in a && ids[i] in b && a[ids[i]] == b[ids[i]]
    ensures Clash(a, ids) == Clash(b, ids)
  {
    assert forall i, j :: 0 <= i < j < |ids| ==> Meet(a, ids[i], ids[j]) == Meet(b, ids[i], ids[j]);
  }

  lemma {:induction false} WithoutMembers(ids: seq<int>, id: int)
    requires NoRepeats(ids)
    ensures NoRepeats(Without(ids, id))
    ensures forall x :: x in Without(ids, id) <==> x in ids && x != id
  {
    if ids != [] {
      var front, last := ids[..|ids| - 1], ids[|ids| - 1];
      WithoutMembers(front, id);
      assert ids == front + [last];
      assert last !in front;
    }
  }

  /** Endpoints that do not clash still do not once one of them is deleted. */
  lemma WithoutClash(endpoints: map<int, Endpoint>, ids: seq<int>, id: int)
    requires ValidEndpoints(endpoints) && NoRepeats(ids) && !Clash(endpoints, ids)
    ensures !Clash(endpoints - {id}, Without(ids, id))
  {
    var rest := Without(ids, id);
    WithoutMembers(ids, id);
    forall i, j | 0 <= i < j < |rest| ensures !Meet(endpoints - {id}, rest[i], rest[j]) {
      assert rest[i] in ids && rest[j] in ids;
      var p :| 0 <= p < |ids| && ids[p] == rest[i];
      var q :| 0 <= q < |ids| && ids[q] == rest[j];
      MeetSymmetric(endpoints, rest[i], rest[j]);
      assert !Meet(endpoints, ids[if p < q then p else q], ids[if p < q then q else p]);
    }
  }

  ghost predicate GoodMachine(cfg: Config, s: State, id: int, m: Machine)
    requires ValidEndpoints(s.endpoints)
  {
    && !KeyTaken(s.machines, m.key, id)
    && (m.address.Some? ==> cfg.pool.Assignable(m.address.value) && !AddressTaken(s.machines, m.address.value, id))
    && Linkable(s.endpoints, m.links) && !Clash(s.endpoints, m.links)
  }

  ghost predicate InService(vetted: map<int, Key>, id: int, m: Machine) {
    m.status == Active ==> m.address.Some? && id in vetted && vetted[id] == m.key
  }

  /** Writing one machine row. */
  lemma PutKeepsInv(cfg: Config, s: State, id: int, m: Machine, next: int, vetted: map<int, Key>)
    requires Inv(cfg, s) && GoodMachine(cfg, s, id, m) && InService(vetted, id, m)
    requires 0 < id < next && s.nextMachine <= next
    requires forall i :: i in s.vetted && i != id ==> i in vetted && vetted[i] == s.vetted[i]
    ensures Inv(cfg, State(s.machines[id := m], s.endpoints, next, s.nextEndpoint, vetted))
  {
    var s' := State(s.machines[id := m], s.endpoints, next, s.nextEndpoint, vetted);
    forall i, j | i in s'.machines && j in s'.machines && i != j
      ensures s'.machines[i].key != s'.machines[j].key
      ensures s'.machines[i].address.Some? ==> s'.machines[i].address != s'.machines[j].address
    {
    }
    forall i | i in s'.machines
      ensures Linkable(s'.endpoints, s'.machines[i].links) && !Clash(s'.endpoints, s'.machines[i].links)
    {
      assert Linkable(s.endpoints, s'.machines[i].links);
    }
  }

  lemma GoodAlready(cfg: Config, s: State, id: int)
    requires Inv(cfg, s) && id in s.machines
    ensures GoodMachine(cfg, s, id, s.machines[id]) && InService(s.vetted, id, s.machines[id])
  {
  }

  lemma NoLinks(endpoints: map<int, Endpoint>, ids: seq<int>)
    requires ValidEndpoints(endpoints) && |ids| < 2
    ensures NoRepeats(ids) && !Clash(endpoints, ids)
  {
  }

  lemma FreshRow(cfg: Config, s: State, owner: string, key: Key, now: int)
    requires Inv(cfg, s) && !KeyTaken(s.machines, key, 0)
    ensures s.nextMachine !in s.machines && !KeyTaken(s.machines, key, s.nextMachine)
    ensures Inv(cfg, Inserted(s, owner, key, now).value)
  {
    NoLinks(s.endpoints, []);
    assert !KeyTaken(s.machines, key, s.nextMachine);
    PutKeepsInv(cfg, s, s.nextMachine, Machine(owner, key, None, Pending, now, now, []), s.nextMachine + 1, s.vetted);
  }

  lemma AcceptableIsFree(cfg: Config, s: State, address: Option<nat>, id: int)
    requires Inv(cfg, s)
    requires Acceptable(cfg, s, address, if id in s.machines then s.machines[id].address else None)
    ensures address.Some? && cfg.pool.Assignable(address.value) && !AddressTaken(s.machines, address.value, id)
  {
    forall i | i in s.machines && i != id ensures s.machines[i].address != address {
      if s.machines[i].address.Some? {
        assert s.machines[i].address.value in UsedAddresses(s.machines);
      }
    }
  }

  lemma RegisteredKeepsInv(cfg: Config, s: State, owner: string, key: Key, address: nat, ids: seq<int>, now: int)
    requires Inv(cfg, s) && !Clash(s.endpoints, ids)
    requires cfg.pool.Assignable(address) && !AddressTaken(s.machines, address, s.nextMachine)
    ensures Inv(cfg, Registered(s, owner, key, address, ids, now))
  {
    if !KeyTaken(s.machines, key, 0) {
      var id := s.nextMachine;
      var s1 := Inserted(s, owner, key, now).value;
      FreshRow(cfg, s, owner, key, now);
      if Assigned(s1, id, address, ids, true).Some? {
        var m := s1.machines[id].(address := Some(address), links := ids, status := Active);
        assert GoodMachine(cfg, s1, id, m);
        PutKeepsInv(cfg, s1, id, m, s1.nextMachine, s1.vetted[id := key]);
      }
    }
  }

  lemma EnrolledKeepsInv(cfg: Config, s: State, owner: string, key: Key, wellFormed: bool, now: int)
    requires Inv(cfg, s) && cfg.pool.Valid()
    ensures Inv(cfg, Enrolled(cfg, s, owner, key, wellFormed, now))
  {
    var s' := Enrolled(cfg, s, owner, key, wellFormed, now);
    if s' != s {
      var e :| EndpointNamed(s, cfg.enrollEndpoint, e);
      var address := FirstFree(cfg.pool, UsedAddresses(s.machines), cfg.pool.Low());
      var id := s.nextMachine;
      var s1 := Inserted(s, owner, key, now).value;
      FreshRow(cfg, s, owner, key, now);
      UsableIff(cfg.pool, address.value, []);
      forall i | i in s1.machines && i != id ensures s1.machines[i].address != address {
        if s.machines[i].address.Some? {
          assert s.machines[i].address.value in UsedAddresses(s.machines);
        }
      }
      NoLinks(s.endpoints, [e]);
      var m := s1.machines[id].(address := address, links := [e]);
      assert GoodMachine(cfg, s1, id, m);
      PutKeepsInv(cfg, s1, id, m, s1.nextMachine, s1.vetted);
    }
  }

  lemma OwnEditKeepsInv(cfg: Config, s: State, id: int, key: Key, wellFormed: bool, permitted: bool, now: int)
    requires Inv(cfg, s)
    ensures Inv(cfg, OwnEdited(s, id, key, wellFormed, permitted, now))
  {
    var s' := OwnEdited(s, id, key, wellFormed, permitted, now);
    if s' != s {
      GoodAlready(cfg, s, id);
      PutKeepsInv(cfg, s, id, s'.machines[id], s.nextMachine, s.vetted);
    }
  }

  lemma AdminUpdateKeepsInv(cfg: Config, s: State, id: int, key: Key, address: Option<nat>, ids: seq<int>,
                            wellFormed: bool)
    requires Inv(cfg, s)
    ensures Inv(cfg, AdminUpdated(cfg, s, id, key, address, ids, wellFormed))
  {
    if id in s.machines && wellFormed && ids != [] && !Clash(s.endpoints, ids)
       && Acceptable(cfg, s, address, s.machines[id].address) && !KeyTaken(s.machines, key, id) {
      var vetted := s.vetted[id := key];
      var s1 := s.(machines := s.machines[id := s.machines[id].(key := key)], vetted := vetted);
      GoodAlready(cfg, s, id);
      PutKeepsInv(cfg, s, id, s.machines[id].(key := key), s.nextMachine, vetted);
      AcceptableIsFree(cfg, s, address, id);
      var r := Assigned(s1, id, address.value, ids, s.machines[id].status != Disabled);
      if r.Some? {
        assert GoodMachine(cfg, s1, id, r.value.machines[id]);
        PutKeepsInv(cfg, s1, id, r.value.machines[id], s.nextMachine, vetted);
      }
    }
  }

  lemma StatusKeepsInv(cfg: Config, s: State, id: int)
    requires Inv(cfg, s)
    ensures Inv(cfg, MachineDisabled(s, id)) && Inv(cfg, MachineEnabled(s, id))
  {
    if id in s.machines {
      GoodAlready(cfg, s, id);
      var m := s.machines[id];
      PutKeepsInv(cfg, s, id, m.(status := Disabled), s.nextMachine, s.vetted);
      if m.address.Some? {
        PutKeepsInv(cfg, s, id, m.(status := Active), s.nextMachine, s.vetted[id := m.key]);
      }
    }
  }

  lemma LinkedKeepsInv(cfg: Config, s: State, endpointId: int, key: Key, reported: bool, address: Option<nat>)
    requires Inv(cfg, s)
    ensures Inv(cfg, Linked(cfg, s, endpointId, key, reported, address))
  {
    if endpointId in s.endpoints && reported && exists id :: HasKey(s, id, key) {
      var id :| HasKey(s, id, key);
      var links := s.machines[id].links;
      var ids := if endpointId in links then links else links + [endpointId];
      if Acceptable(cfg, s, address, s.machines[id].address) && !Clash(s.endpoints, ids) {
        AcceptableIsFree(cfg, s, address, id);
        GoodAlready(cfg, s, id);
        var r := Assigned(s, id, address.value, ids, true);
        if r.Some? {
          assert GoodMachine(cfg, s, id, r.value.machines[id]);
          PutKeepsInv(cfg, s, id, r.value.machines[id], s.nextMachine, s.vetted[id := key]);
        }
      }
    }
  }

  /** Machines taken away, the others left as they are. */
  lemma FewerMachinesKeepInv(cfg: Config, s: State, machines: map<int, Machine>)
    requires Inv(cfg, s) && forall i :: i in machines ==> i in s.machines && machines[i] == s.machines[i]
    ensures Inv(cfg, s.(machines := machines))
  {
    var s' := s.(machines := machines);
    forall i | i in s'.machines
      ensures Linkable(s'.endpoints, s'.machines[i].links) && !Clash(s'.endpoints, s'.machines[i].links)
    {
      assert Linkable(s.endpoints, s.machines[i].links);
    }
  }

  lemma CreateEndpointKeepsInv(cfg: Config, s: State, e: Endpoint, wellFormed: bool)
    requires Inv(cfg, s) && (wellFormed ==> ValidEndpoint(e))
    ensures Inv(cfg, EndpointCreated(s, e, wellFormed))
  {
    var s' := EndpointCreated(s, e, wellFormed);
    if s' != s {
      forall i | i in s'.machines
        ensures Linkable(s'.endpoints, s'.machines[i].links) && !Clash(s'.endpoints, s'.machines[i].links)
      {
        assert Linkable(s.endpoints, s.machines[i].links);
        SameClash(s.endpoints, s'.endpoints, s.machines[i].links);
      }
    }
  }

  lemma UpdateEndpointKeepsInv(cfg: Config, s: State, id: int, e: Endpoint, wellFormed: bool)
    requires Inv(cfg, s) && (wellFormed ==> ValidEndpoint(e))
    ensures Inv(cfg, EndpointUpdated(s, id, e, wellFormed))
  {
    var s' := EndpointUpdated(s, id, e, wellFormed);
    if s' != s {
      forall i | i in s'.machines
        ensures Linkable(s'.endpoints, s'.machines[i].links) && !Clash(s'.endpoints, s'.machines[i].links)
      {
        var links := s.machines[i].links;
        assert Linkable(s.endpoints, links);
        if |links| < 2 {
          NoLinks(s'.endpoints, links);
        } else if id !in links {
          SameClash(s.endpoints, s'.endpoints, links);
        }
      }
    }
  }

  lemma DeleteEndpointKeepsInv(cfg: Config, s: State, id: int)
    requires Inv(cfg, s)
    ensures Inv(cfg, EndpointDeleted(s, id))
  {
    var s' := EndpointDeleted(s, id);
    forall i | i in s'.machines
      ensures Linkable(s'.endpoints, s'.machines[i].links) && !Clash(s'.endpoints, s'.machines[i].links)
    {
      var links := s.machines[i].links;
      assert Linkable(s.endpoints, links);
      WithoutMembers(links, id);
      WithoutClash(s.endpoints, links, id);
      forall k | 0 <= k < |Without(links, id)| ensures Without(links, id)[k] in s'.endpoints {
        var x := Without(links, id)[k];
        assert x in Without(links, id);
        var p :| 0 <= p < |links| && links[p] == x;
      }
    }
  }

  lemma AddKeepsInv(cfg: Config, s: State, owner: string, key: Key, wellFormed: bool, now: int)
    requires Inv(cfg, s)
    ensures Inv(cfg, Added(cfg, s, owner, key, wellFormed, now))
  {
    if !KeyTaken(s.machines, key, 0) {
      FreshRow(cfg, s, owner, key, now);
    }
  }

  lemma AdminCreateKeepsInv(cfg: Config, s: State, owner: string, key: Key, address: Option<nat>, ids: seq<int>,
                            wellFormed: bool, now: int)
    requires Inv(cfg, s)
    ensures Inv(cfg, AdminCreated(cfg, s, owner, key, address, ids, wellFormed, now))
  {
    if Acceptable(cfg, s, address, None) && !Clash(s.endpoints, ids) {
      FreshAddress(cfg, s, address);
      RegisteredKeepsInv(cfg, s, owner, key, address.value, ids, now);
    }
  }

  lemma AdoptKeepsInv(cfg: Config, s: State, endpointId: int, key: Key, reported: bool, owner: string,
                      address: Option<nat>,
                      wellFormed: bool, now: int)
    requires Inv(cfg, s)
    ensures Inv(cfg, Adopted(cfg, s, endpointId, key, reported, owner, address, wellFormed, now))
  {
    if Acceptable(cfg, s, address, None) {
      FreshAddress(cfg, s, address);
      NoLinks(s.endpoints, [endpointId]);
      RegisteredKeepsInv(cfg, s, owner, key, address.value, [endpointId], now);
    }
  }

  lemma FreshAddress(cfg: Config, s: State, address: Option<nat>)
    requires Inv(cfg, s) && Acceptable(cfg, s, address, None)
    ensures cfg.pool.Assignable(address.value) && !AddressTaken(s.machines, address.value, s.nextMachine)
  {
    AcceptableIsFree(cfg, s, address, s.nextMachine);
  }

  lemma StepKeepsInv(cfg: Config, s: State, a: Action)
    requires Inv(cfg, s) && cfg.pool.Valid() && ValidAction(a)
    ensures Inv(cfg, Next(cfg, s, a))
  {
    hide Inv, Added, AdminCreated, Adopted, Enrolled, AdminUpdated, Linked, Registered, OwnEdited;
    hide EndpointUpdated, EndpointDeleted, EndpointCreated, MachineDisabled, MachineEnabled;
    match a
    case AddMachine(owner, key, ok, now) => AddKeepsInv(cfg, s, owner, key, ok, now);
    case Enroll(owner, key, ok, now) => EnrolledKeepsInv(cfg, s, owner, key, ok, now);
    case EditOwn(id, key, ok, permitted, now) => OwnEditKeepsInv(cfg, s, id, key, ok, permitted, now);
    case AdminCreate(owner, key, address, ids, ok, now) =>
      AdminCreateKeepsInv(cfg, s, owner, key, address, ids, ok, now);
    case AdminUpdate(id, key, address, ids, ok, now) => AdminUpdateKeepsInv(cfg, s, id, key, address, ids, ok);
    case Disable(id) => StatusKeepsInv(cfg, s, id);
    case Enable(id, now) => StatusKeepsInv(cfg, s, id);
    case DeleteMachine(id, permitted) => FewerMachinesKeepInv(cfg, s, s.machines - {id});
    case CreateEndpoint(e, ok) => CreateEndpointKeepsInv(cfg, s, e, ok);
    case UpdateEndpoint(id, e, ok) => UpdateEndpointKeepsInv(cfg, s, id, e, ok);
    case DeleteEndpoint(id) => DeleteEndpointKeepsInv(cfg, s, id);
    case Adopt(endpointId, key, reported, owner, address, ok, now) =>
      AdoptKeepsInv(cfg, s, endpointId, key, reported, owner, address, ok, now);
    case Link(endpointId, key, reported, address, now) => LinkedKeepsInv(cfg, s, endpointId, key, reported, address);
    case ExpirePending(cutoff) => FewerMachinesKeepInv(cfg, s, PendingExpired(s, cutoff).machines);
  }

  // ---- listing an endpoint twice

  /** An endpoint listed twice clashes with itself, unless its list is there and covers nothing. */
  lemma ListedTwice(s: State, ids: seq<int>, i: nat, j: nat, a: Address)
    requires ValidEndpoints(s.endpoints) && i < j < |ids| && ids[i] == ids[j] && ids[i] in s.endpoints
    requires ValidAddress(a) && InList(AllowedOf(s.endpoints[ids[i]]), a)
    ensures Clash(s.endpoints, ids)
  {
    assert Meet(s.endpoints, ids[i], ids[j]);
  }

  // ---- runs

  ghost function After(cfg: Config, run: seq<Action>): (s: State)
    requires cfg.pool.Valid() && forall i :: 0 <= i < |run| ==> ValidAction(run[i])
    ensures Inv(cfg, s)
  {
    if run == [] then EMPTY
    else
      var front, a := run[..|run| - 1], run[|run| - 1];
      var s := After(cfg, front);
      StepKeepsInv(cfg, s, a);
      Next(cfg, s, a)
  }

  lemma AfterOneMore(cfg: Config, run: seq<Action>, a: Action)
    requires cfg.pool.Valid() && (forall i :: 0 <= i < |run| ==> ValidAction(run[i])) && ValidAction(a)
    ensures After(cfg, run + [a]) == Next(cfg, After(cfg, run), a)
  {
    hide Inv, Next;
    assert (run + [a])[..|run|] == run;
  }

  /** In no reachable state do the lists of two endpoints of one machine cover the same address. */
  lemma LinksShareNoAddress(cfg: Config, run: seq<Action>, id: int, x: int, y: int, a: Address)
    requires cfg.pool.Valid() && forall k :: 0 <= k < |run| ==> ValidAction(run[k])
    requires id in After(cfg, run).machines && x != y
    requires x in After(cfg, run).machines[id].links && y in After(cfg, run).machines[id].links && ValidAddress(a)
    ensures var s := After(cfg, run);
            && x in s.endpoints && y in s.endpoints && ValidEndpoints(s.endpoints)
            && !(InList(AllowedOf(s.endpoints[x]), a) && InList(AllowedOf(s.endpoints[y]), a))
  {
    hide Inv, After, AllowedOf, InList, Clash, Linkable, ValidEndpoint;
    var s := After(cfg, run);
    LinksOfInv(cfg, s, id);
    NoMeeting(s.endpoints, s.machines[id].links, x, y, a);
  }

  lemma LinksOfInv(cfg: Config, s: State, id: int)
    requires Inv(cfg, s) && id in s.machines
    ensures ValidEndpoints(s.endpoints)
    ensures Linkable(s.endpoints, s.machines[id].links) && !Clash(s.endpoints, s.machines[id].links)
  {
  }

  lemma NoMeeting(endpoints: map<int, Endpoint>, links: seq<int>, x: int, y: int, a: Address)
    requires ValidEndpoints(endpoints) && Linkable(endpoints, links) && !Clash(endpoints, links)
    requires x in links && y in links && x != y && ValidAddress(a)
    ensures x in endpoints && y in endpoints
    ensures !(InList(AllowedOf(endpoints[x]), a) && InList(AllowedOf(endpoints[y]), a))
  {
    hide ValidEndpoint, AllowedOf, InList;
    var i :| 0 <= i < |links| && links[i] == x;
    var j :| 0 <= j < |links| && links[j] == y;
    if i < j {
      assert !Meet(endpoints, links[i], links[j]);
    } else {
      assert !Meet(endpoints, links[j], links[i]);
    }
  }

  /** What an endpoint is told to expect. */
  predicate Expected(s: State, endpointId: int, id: int) {
    id in s.machines && s.machines[id].status == Active && endpointId in s.machines[id].links
  }

  /**
    In every reachable state each peer an endpoint is told to expect has the key an administrator last
    acted on, and a usable address of the pool that no other machine holds.
  */
  lemma ExpectedPeersAreVetted(cfg: Config, run: seq<Action>, endpointId: int, id: int)
    requires cfg.pool.Valid() && forall k :: 0 <= k < |run| ==> ValidAction(run[k])
    requires Expected(After(cfg, run), endpointId, id)
    ensures var s := After(cfg, run);
            && endpointId in s.endpoints
            && id in s.vetted && s.machines[id].key == s.vetted[id]
            && s.machines[id].address.Some? && cfg.pool.ValidateAmong(s.machines[id].address, []) == Usable
            && forall other :: other in s.machines && other != id ==>
                 s.machines[other].key != s.machines[id].key && s.machines[other].address != s.machines[id].address
  {
    var s := After(cfg, run);
    assert Linkable(s.endpoints, s.machines[id].links);
    UsableIff(cfg.pool, s.machines[id].address.value, []);
  }

  predicate AdminAct(a: Action) {
    a.AdminCreate? || a.AdminUpdate? || a.Enable? || a.Adopt? || a.Link?
  }

  ghost predicate OutOfService(s: State, id: int) {
    id < s.nextMachine && (id in s.machines ==> s.machines[id].status != Active)
  }

  /** Nothing but an administrator's act puts a machine into service. */
  lemma OnlyAdminsActivate(cfg: Config, s: State, a: Action, id: int)
    requires Inv(cfg, s) && ValidAction(a) && OutOfService(s, id) && !AdminAct(a)
    ensures OutOfService(Next(cfg, s, a), id)
  {
  }

  lemma {:induction false} StaysOutOfService(cfg: Config, run: seq<Action>, more: seq<Action>, id: int)
    requires cfg.pool.Valid() && (forall k :: 0 <= k < |run| ==> ValidAction(run[k]))
    requires forall k :: 0 <= k < |more| ==> ValidAction(more[k]) && !AdminAct(more[k])
    requires OutOfService(After(cfg, run), id)
    ensures OutOfService(After(cfg, run + more), id)
  {
    hide Inv, Next, OutOfService;
    if more == [] {
      assert run + more == run;
    } else {
      var front, a := more[..|more| - 1], more[|more| - 1];
      assert run + more == run + front + [a];
      StaysOutOfService(cfg, run, front, id);
      AfterOneMore(cfg, run + front, a);
      OnlyAdminsActivate(cfg, After(cfg, run + front), a, id);
    }
  }

  lemma OwnEditStep(cfg: Config, s: State, edit: Action)
    requires Inv(cfg, s) && edit.EditOwn? && edit.id in s.machines
    ensures var s' := Next(cfg, s, edit);
            && edit.id in s'.machines
            && (s'.machines[edit.id].key != s.machines[edit.id].key ==> OutOfService(s', edit.id))
            && (s.machines[edit.id].status != Pending && s'.machines[edit.id].status == Pending ==>
                  s'.machines[edit.id].pendingSince == edit.now)
  {
  }

  /**
    An owner who changes the key of a machine takes it out of service, and it stays out whatever
    happens until an administrator acts again.
  */
  lemma KeyChangeNeedsReview(cfg: Config, run: seq<Action>, edit: Action, more: seq<Action>)
    requires cfg.pool.Valid() && (forall k :: 0 <= k < |run| ==> ValidAction(run[k]))
    requires forall k :: 0 <= k < |more| ==> ValidAction(more[k]) && !AdminAct(more[k])
    requires edit.EditOwn? && edit.id in After(cfg, run).machines
    requires After(cfg, run + [edit]).machines[edit.id].key != After(cfg, run).machines[edit.id].key
    ensures OutOfService(After(cfg, run + [edit] + more), edit.id)
  {
    hide Inv, Next;
    AfterOneMore(cfg, run, edit);
    OwnEditStep(cfg, After(cfg, run), edit);
    StaysOutOfService(cfg, run + [edit], more, edit.id);
  }

  ghost predicate InReviewSince(s: State, id: int, at: int) {
    && id in s.machines && at > 0
    && (s.machines[id].status == Pending ==> s.machines[id].pendingSince >= at)
  }

  /** Steps later than `at` that neither delete the machine nor expire anything younger than `at`. */
  predicate LeavesReview(a: Action, id: int, at: int) {
    match a
    case EditOwn(_, _, _, _, now) => now >= at
    case DeleteMachine(other, permitted) => other != id || !permitted
    case ExpirePending(cutoff) => cutoff <= at
    case _ => true
  }

  /** The acts that give a machine its address and links. */
  predicate Assigns(a: Action) {
    a.Enroll? || a.AdminCreate? || a.AdminUpdate? || a.Adopt? || a.Link?
  }

  lemma ReviewGoesOnAssigned(cfg: Config, s: State, a: Action, id: int, at: int)
    requires Inv(cfg, s) && ValidAction(a) && InReviewSince(s, id, at) && Assigns(a)
    ensures InReviewSince(Next(cfg, s, a), id, at)
  {
    hide Added, OwnEdited, MachineDisabled, MachineEnabled, MachineDeleted, EndpointCreated, EndpointUpdated,
         EndpointDeleted, PendingExpired, RoutesDisjoint, UniqueColumns, Clash;
  }

  lemma ReviewGoesOn(cfg: Config, s: State, a: Action, id: int, at: int)
    requires Inv(cfg, s) && ValidAction(a) && InReviewSince(s, id, at) && LeavesReview(a, id, at)
    ensures InReviewSince(Next(cfg, s, a), id, at)
  {
    hide Enrolled, AdminCreated, AdminUpdated, Adopted, Linked, RoutesDisjoint, UniqueColumns, Clash;
    if Assigns(a) {
      ReviewGoesOnAssigned(cfg, s, a, id, at);
    }
  }

  lemma {:induction false} ReviewGoesOnFor(cfg: Config, run: seq<Action>, more: seq<Action>, id: int, at: int)
    requires cfg.pool.Valid() && (forall k :: 0 <= k < |run| ==> ValidAction(run[k]))
    requires forall k :: 0 <= k < |more| ==> ValidAction(more[k]) && LeavesReview(more[k], id, at)
    requires InReviewSince(After(cfg, run), id, at)
    ensures InReviewSince(After(cfg, run + more), id, at)
  {
    hide Inv, Next, InReviewSince;
    if more == [] {
      assert run + more == run;
    } else {
      var front, a := more[..|more| - 1], more[|more| - 1];
      assert run + more == run + front + [a];
      ReviewGoesOnFor(cfg, run, front, id, at);
      AfterOneMore(cfg, run + front, a);
      ReviewGoesOn(cfg, After(cfg, run + front), a, id, at);
    }
  }

  /**
    A machine sent back for review keeps its row for the whole retention time from then on, however
    long ago it was created: no sweep with a cutoff up to that moment removes it.
  */
  lemma RequeuedGetsFullWindow(cfg: Config, run: seq<Action>, edit: Action, more: seq<Action>)
    requires cfg.pool.Valid() && (forall k :: 0 <= k < |run| ==> ValidAction(run[k]))
    requires edit.EditOwn? && edit.now > 0 && edit.id in After(cfg, run).machines
    requires After(cfg, run).machines[edit.id].status != Pending
    requires After(cfg, run + [edit]).machines[edit.id].status == Pending
    requires forall k :: 0 <= k < |more| ==> ValidAction(more[k]) && LeavesReview(more[k], edit.id, edit.now)
    ensures edit.id in After(cfg, run + [edit] + more).machines
  {
    hide Inv, Next;
    AfterOneMore(cfg, run, edit);
    OwnEditStep(cfg, After(cfg, run), edit);
    ReviewGoesOnFor(cfg, run + [edit], more, edit.id, edit.now);
  }

  // ---- enrolment

  lemma {:induction false} RangeOfUsed(lo: nat, hi: nat, used: set<nat>)
    requires lo <= hi && forall a :: lo <= a < hi ==> a in used
    ensures hi - lo <= |used|
    decreases hi - lo
  {
    if lo < hi {
      RangeOfUsed(lo, hi - 1, used - {hi - 1});
    }
  }

  /**
    A well-formed enrolment under the cap registers the machine with the lowest free address exactly when
    its key is new and an address is free; fewer used than usable addresses suffice for that.
  */
  lemma EnrolmentSucceedsIff(cfg: Config, s: State, owner: string, key: Key, now: int)
    requires Inv(cfg, s) && cfg.pool.Valid() && cfg.selfEnroll && !CapReached(cfg, s, owner)
    requires exists e :: EndpointNamed(s, cfg.enrollEndpoint, e)
    ensures var s' := Enrolled(cfg, s, owner, key, true, now);
            var id := s.nextMachine;
            var free := exists a: nat :: cfg.pool.Assignable(a) && a !in UsedAddresses(s.machines);
            && (id in s'.machines <==> !KeyTaken(s.machines, key, 0) && free)
            && (id in s'.machines ==>
                  var m := s'.machines[id];
                  && m.key == key && m.status == Pending && m.address.Some? && |m.links| == 1
                  && m.address.value !in UsedAddresses(s.machines)
                  && forall a: nat :: a < m.address.value && cfg.pool.Assignable(a) ==> a in UsedAddresses(s.machines))
            && (|UsedAddresses(s.machines)| < cfg.pool.High() - cfg.pool.Low() ==> free)
  {
    var used := UsedAddresses(s.machines);
    var first := FirstFree(cfg.pool, used, cfg.pool.Low());
    forall a: nat ensures cfg.pool.Assignable(a) <==> cfg.pool.Low() <= a < cfg.pool.High() {
      UsableIff(cfg.pool, a, []);
    }
    if first.None? && cfg.pool.Low() <= cfg.pool.High() {
      RangeOfUsed(cfg.pool.Low(), cfg.pool.High(), used);
    }
  }
}
