/**
  The dormancy sweep: machines that have not handshaked for some days are announced, and with the
  disabling action taken out of service, unless the silence looks like an outage. Times are whole
  seconds; 0 stands for the zero time. All writes succeed.
*/
module Dormancy {
  import opened Basics
  import opened MachineStatus

  const DAY: int := 24 * 3600
  const EVIDENCE_WINDOW: int := 3600

  type Id = id: int | id > 0 witness 1

  datatype Machine = Machine(status: Status, lastSeen: int, approvedAt: Option<int>, createdAt: int,
                             dormantSince: int) {
    predicate Dormant() {
      dormantSince > 0
    }

    /** The last handshake, or, for a machine that never connected, since when it could have. */
    function SeenOrSince(): int {
      if lastSeen > 0 then lastSeen else approvedAt.GetOr(createdAt)
    }
  }

  datatype Event = Announced(id: Id) | Resolved(id: Id)

  /**
    The machines, the time of each endpoint's last report, and what was announced. Machine ids are not
    reused: those of new machines are at least `next`.
  */
  datatype State = State(machines: map<Id, Machine>, received: map<Id, int>, next: int, log: seq<Event>)

  // ---- the sweep

  predicate IsBack(m: Machine, cutoff: int) {
    m.Dormant() && m.lastSeen > 0 && m.lastSeen > cutoff
  }

  function ClearedOne(st: State, id: Id, cutoff: int): State {
    if id !in st.machines || !IsBack(st.machines[id], cutoff) then st
    else st.(machines := st.machines[id := st.machines[id].(dormantSince := 0)], log := st.log + [Resolved(id)])
  }

  function ClearedAll(st: State, order: seq<Id>, cutoff: int): State {
    if order == [] then st
    else ClearedOne(ClearedAll(st, order[..|order| - 1], cutoff), order[|order| - 1], cutoff)
  }

  predicate IsActive(machines: map<Id, Machine>, id: Id) {
    id in machines && machines[id].status == Active
  }

  predicate IsCandidate(machines: map<Id, Machine>, id: Id, cutoff: int) {
    IsActive(machines, id) && !machines[id].Dormant() && machines[id].SeenOrSince() < cutoff
  }

  function Actives(machines: map<Id, Machine>, order: seq<Id>): seq<Id> {
    if order == [] then []
    else
      var rest, id := Actives(machines, order[..|order| - 1]), order[|order| - 1];
      if IsActive(machines, id) then rest + [id] else rest
  }

  function Candidates(machines: map<Id, Machine>, order: seq<Id>, cutoff: int): seq<Id> {
    if order == [] then []
    else
      var rest, id := Candidates(machines, order[..|order| - 1], cutoff), order[|order| - 1];
      if IsCandidate(machines, id, cutoff) then rest + [id] else rest
  }

  /** Some endpoint has reported within the hour. */
  ghost predicate FreshReport(received: map<Id, int>, now: int) {
    exists e :: e in received && now - received[e] < EVIDENCE_WINDOW
  }

  /** The machines to act on; none without a fresh report, and never a majority. */
  function Decided(machines: map<Id, Machine>, order: seq<Id>, cutoff: int, evidence: bool): seq<Id> {
    var dormant := Candidates(machines, order, cutoff);
    if evidence && |dormant| * 2 <= |Actives(machines, order)| then dormant else []
  }

  function ActedOn(st: State, id: Id, disable: bool, now: int): State {
    if id !in st.machines then st
    else
      var m := st.machines[id];
      st.(machines := st.machines[id := m.(status := if disable then Disabled else m.status, dormantSince := now)],
          log := st.log + [Announced(id)])
  }

  function ActedOnAll(st: State, ids: seq<Id>, disable: bool, now: int): State {
    if ids == [] then st else ActedOn(ActedOnAll(st, ids[..|ids| - 1], disable, now), ids[|ids| - 1], disable, now)
  }

  /** The machines are listed before the flags are cleared, and the decision uses that list. */
  ghost function Swept(st: State, order: seq<Id>, now: int, days: nat, disable: bool): State {
    var cutoff := now - days * DAY;
    var ids := Decided(st.machines, order, cutoff, FreshReport(st.received, now));
    ActedOnAll(ClearedAll(st, order, cutoff), ids, disable, now)
  }

  ghost predicate IsListing(order: seq<Id>, machines: map<Id, Machine>) {
    && (forall i, j :: 0 <= i < j < |order| ==> order[i] != order[j])
    && (forall id :: id in order <==> id in machines)
  }

  // ---- the sweep as it runs

  method DormantDecision(machines: map<Id, Machine>, order: seq<Id>, cutoff: int,
                         freshReport: bool) returns (dormant: seq<Id>)
    requires forall i :: 0 <= i < |order| ==> order[i] in machines
    ensures dormant == Decided(machines, order, cutoff, freshReport)
  {
    var active := 0;
    dormant := [];
    for i := 0 to |order|
      invariant active == |Actives(machines, order[..i])| && dormant == Candidates(machines, order[..i], cutoff)
    {
      var m := machines[order[i]];
      assert order[..i + 1][..i] == order[..i];
      if m.status != Active {
        continue;
      }
      active := active + 1;
      if m.Dormant() {
        continue;
      }
      if m.SeenOrSince() < cutoff {
        dormant := dormant + [order[i]];
      }
    }
    assert order[..|order|] == order;
    if |dormant| == 0 || !freshReport || |dormant| * 2 > active {
      dormant := [];
    }
  }

  class Sweeper {
    var machines: map<Id, Machine>
    var received: map<Id, int>
    var next: int
    ghost var log: seq<Event>

    ghost function Current(): State
      reads this
    {
      State(machines, received, next, log)
    }

    constructor (machines: map<Id, Machine>, next: int)
      ensures Current() == State(machines, map[], next, [])
    {
      this.machines, this.received, this.next, this.log := machines, map[], next, [];
    }

    /** Every stored report belongs to an endpoint of the list. */
    method HasFreshReport(endpoints: seq<Id>, now: int) returns (recent: bool)
      requires forall e :: e in received ==> e in endpoints
      ensures recent == FreshReport(received, now)
    {
      for i := 0 to |endpoints|
        invariant forall j :: 0 <= j < i && endpoints[j] in received ==> now - received[endpoints[j]] >= EVIDENCE_WINDOW
      {
        if endpoints[i] in received && now - received[endpoints[i]] < EVIDENCE_WINDOW {
          return true;
        }
      }
      recent := false;
    }

    method ClearSeenAgain(listed: map<Id, Machine>, order: seq<Id>, cutoff: int)
      requires listed == machines && IsListing(order, machines)
      modifies this`machines, this`log
      ensures Current() == ClearedAll(old(Current()), order, cutoff)
    {
      for i := 0 to |order|
        invariant Current() == ClearedAll(old(Current()), order[..i], cutoff)
        invariant machines.Keys == listed.Keys
        invariant forall j :: i <= j < |order| ==> machines[order[j]] == listed[order[j]]
      {
        assert order[..i + 1][..i] == order[..i];
        var m := listed[order[i]];
        if m.Dormant() && m.lastSeen > 0 && m.lastSeen > cutoff {
          machines := machines[order[i] := machines[order[i]].(dormantSince := 0)];
          log := log + [Resolved(order[i])];
        }
      }
      assert order[..|order|] == order;
    }

    method DormantMachine(id: Id, disable: bool, now: int)
      requires id in machines
      modifies this`machines, this`log
      ensures Current() == ActedOn(old(Current()), id, disable, now)
    {
      if disable {
        machines := machines[id := machines[id].(status := Disabled)];
      }
      machines := machines[id := machines[id].(dormantSince := now)];
      log := log + [Announced(id)];
    }

    method SweepDormant(order: seq<Id>, endpoints: seq<Id>, now: int, days: nat, disable: bool)
      requires IsListing(order, machines) && forall e :: e in received ==> e in endpoints
      modifies this`machines, this`log
      ensures Current() == Swept(old(Current()), order, now, days, disable)
    {
      hide ClearedAll, Candidates, Actives, IsCandidate;
      var listed := machines;
      var cutoff := now - days * DAY;
      ClearKeepsKeys(Current(), order, cutoff);
      ClearSeenAgain(listed, order, cutoff);
      var recent := HasFreshReport(endpoints, now);
      var dormant := DormantDecision(listed, order, cutoff, recent);
      CandidatesListed(listed, order, cutoff);
      ghost var cleared := Current();
      for i := 0 to |dormant|
        invariant Current() == ActedOnAll(cleared, dormant[..i], disable, now) && machines.Keys == listed.Keys
      {
        assert dormant[..i + 1][..i] == dormant[..i];
        DormantMachine(dormant[i], disable, now);
      }
      assert dormant[..|dormant|] == dormant;
    }
  }

  lemma {:induction false} ClearKeepsKeys(st: State, order: seq<Id>, cutoff: int)
    ensures var st' := ClearedAll(st, order, cutoff);
            && st'.machines.Keys == st.machines.Keys && st'.next == st.next
            && forall id :: id in st.machines ==>
                 && st'.machines[id].(dormantSince := 0) == st.machines[id].(dormantSince := 0)
                 && (!st.machines[id].Dormant() || id !in order ==> st'.machines[id] == st.machines[id])
  {
    if order != [] {
      ClearKeepsKeys(st, order[..|order| - 1], cutoff);
    }
  }

  lemma {:induction false} CandidatesListed(machines: map<Id, Machine>, order: seq<Id>, cutoff: int)
    requires forall i, j :: 0 <= i < j < |order| ==> order[i] != order[j]
    ensures var ids := Candidates(machines, order, cutoff);
            && (forall i, j :: 0 <= i < j < |ids| ==> ids[i] != ids[j])
            && (forall id :: id in ids <==> id in order && IsCandidate(machines, id, cutoff))
  {
    if order != [] {
      var front, last := order[..|order| - 1], order[|order| - 1];
      CandidatesListed(machines, front, cutoff);
      assert order == front + [last] && last !in front;
    }
  }

  // ---- what one sweep does

  lemma {:induction false} ActAllChanges(st: State, ids: seq<Id>, disable: bool, now: int)
    requires forall i :: 0 <= i < |ids| ==> ids[i] in st.machines
    ensures var st' := ActedOnAll(st, ids, disable, now);
            && st'.machines.Keys == st.machines.Keys && st'.next == st.next
            && forall id :: id in st.machines ==>
                 st'.machines[id] ==
                   if id !in ids then st.machines[id]
                   else st.machines[id].(status := if disable then Disabled else st.machines[id].status,
                                         dormantSince := now)
  {
    if ids != [] {
      ActAllChanges(st, ids[..|ids| - 1], disable, now);
      assert ids == ids[..|ids| - 1] + [ids[|ids| - 1]];
    }
  }

  lemma {:induction false} ActivesAfter(before: map<Id, Machine>, after: map<Id, Machine>, order: seq<Id>,
                                        cutoff: int, disabled: bool)
    requires forall i :: 0 <= i < |order| ==>
               (IsActive(after, order[i]) <==>
                IsActive(before, order[i]) && !(disabled && IsCandidate(before, order[i], cutoff)))
    ensures |Actives(after, order)| ==
            |Actives(before, order)| - (if disabled then |Candidates(before, order, cutoff)| else 0)
  {
    if order != [] {
      ActivesAfter(before, after, order[..|order| - 1], cutoff, disabled);
    }
  }

  /**
    A sweep either disables nothing, or exactly the active machines not announced yet that have been
    silent since the cutoff, and these are at most half of the active ones.
  */
  lemma SweepDisablesAtMostHalf(st: State, order: seq<Id>, now: int, days: nat, disable: bool)
    requires IsListing(order, st.machines)
    ensures var st' := Swept(st, order, now, days, disable);
            var before, after := |Actives(st.machines, order)|, |Actives(st'.machines, order)|;
            && IsListing(order, st'.machines) && st'.next == st.next
            && 2 * after >= before && (before > 0 ==> after > 0)
            && forall id :: id in st.machines && st'.machines[id].status != st.machines[id].status ==>
                 disable && FreshReport(st.received, now) && IsCandidate(st.machines, id, now - days * DAY)
                 && st'.machines[id].status == Disabled
  {
    hide ClearedAll, ActedOnAll, Candidates, Actives;
    var cutoff := now - days * DAY;
    var ids := Decided(st.machines, order, cutoff, FreshReport(st.received, now));
    var cleared := ClearedAll(st, order, cutoff);
    var after := ActedOnAll(cleared, ids, disable, now).machines;
    ClearKeepsKeys(st, order, cutoff);
    CandidatesListed(st.machines, order, cutoff);
    forall i | 0 <= i < |ids| ensures ids[i] in cleared.machines {
      assert ids[i] in ids;
    }
    ActAllChanges(cleared, ids, disable, now);
    forall i | 0 <= i < |order|
      ensures IsActive(after, order[i]) <==>
              IsActive(st.machines, order[i]) && !(disable && ids != [] && IsCandidate(st.machines, order[i], cutoff))
    {
      assert order[i] in order;
      assert order[i] in Candidates(st.machines, order, cutoff) <==> IsCandidate(st.machines, order[i], cutoff);
    }
    ActivesAfter(st.machines, after, order, cutoff, disable && ids != []);
  }

  // ---- announcements and resolutions alternate

  /** The last thing said about the machine is that it is dormant. */
  function Firing(log: seq<Event>, id: Id): bool {
    if log == [] then false
    else if log[|log| - 1].id == id then log[|log| - 1].Announced?
    else Firing(log[..|log| - 1], id)
  }

  ghost predicate Alternates(log: seq<Event>) {
    forall i :: 0 <= i < |log| ==> (log[i].Announced? <==> !Firing(log[..i], log[i].id))
  }

  ghost predicate FlagsMatch(st: State) {
    && (forall id :: id in st.machines ==> id < st.next && (st.machines[id].Dormant() <==> Firing(st.log, id)))
    && (forall id: Id :: id >= st.next ==> !Firing(st.log, id))
  }

  ghost predicate Inv(st: State) {
    Alternates(st.log) && FlagsMatch(st)
  }

  lemma Logged(log: seq<Event>, e: Event)
    ensures forall id :: Firing(log + [e], id) == if id == e.id then e.Announced? else Firing(log, id)
    ensures Alternates(log) && (e.Announced? <==> !Firing(log, e.id)) ==> Alternates(log + [e])
  {
    var longer := log + [e];
    assert longer[..|log|] == log;
    if Alternates(log) && (e.Announced? <==> !Firing(log, e.id)) {
      forall i | 0 <= i < |longer| ensures longer[i].Announced? <==> !Firing(longer[..i], longer[i].id) {
        if i < |log| {
          assert longer[..i] == log[..i];
        }
      }
    }
  }

  lemma {:induction false} ClearKeepsInv(st: State, order: seq<Id>, cutoff: int)
    requires Inv(st)
    ensures Inv(ClearedAll(st, order, cutoff))
  {
    if order != [] {
      var front, id := order[..|order| - 1], order[|order| - 1];
      ClearKeepsInv(st, front, cutoff);
      Logged(ClearedAll(st, front, cutoff).log, Resolved(id));
    }
  }

  lemma ActOnOneKeepsInv(st: State, id: Id, disable: bool, now: int)
    requires Inv(st) && now > 0 && id in st.machines && !st.machines[id].Dormant()
    ensures Inv(ActedOn(st, id, disable, now))
  {
    hide Alternates, Firing;
    Logged(st.log, Announced(id));
  }

  lemma {:induction false} ActKeepsInv(st: State, ids: seq<Id>, disable: bool, now: int)
    requires Inv(st) && now > 0
    requires forall i :: 0 <= i < |ids| ==> ids[i] in st.machines && !st.machines[ids[i]].Dormant()
    requires forall i, j :: 0 <= i < j < |ids| ==> ids[i] != ids[j]
    ensures Inv(ActedOnAll(st, ids, disable, now))
  {
    if ids != [] {
      hide Inv;
      var front, id := ids[..|ids| - 1], ids[|ids| - 1];
      ActKeepsInv(st, front, disable, now);
      ActAllChanges(st, front, disable, now);
      assert id !in front;
      ActOnOneKeepsInv(ActedOnAll(st, front, disable, now), id, disable, now);
    }
  }

  lemma SweepKeepsInv(st: State, order: seq<Id>, now: int, days: nat, disable: bool)
    requires Inv(st) && IsListing(order, st.machines) && now > 0
    ensures Inv(Swept(st, order, now, days, disable))
  {
    var cutoff := now - days * DAY;
    var ids := Decided(st.machines, order, cutoff, FreshReport(st.received, now));
    ClearKeepsInv(st, order, cutoff);
    ClearKeepsKeys(st, order, cutoff);
    CandidatesListed(st.machines, order, cutoff);
    forall i | 0 <= i < |ids|
      ensures ids[i] in ClearedAll(st, order, cutoff).machines
      ensures !ClearedAll(st, order, cutoff).machines[ids[i]].Dormant()
    {
      assert ids[i] in ids;
      assert IsCandidate(st.machines, ids[i], cutoff);
    }
    ActKeepsInv(ClearedAll(st, order, cutoff), ids, disable, now);
  }

  // ---- runs

  /** A sweep, a status report, or whatever the handlers do to the machines in between. */
  datatype Step =
    | Sweep(order: seq<Id>, now: int, days: nat, disable: bool)
    | Report(endpoint: Id, at: int, reported: map<Id, Machine>)
    | Handlers(machines: map<Id, Machine>, received: map<Id, int>, next: int)

  /** A report only moves last_seen forward. */
  ghost predicate OnlySeen(before: map<Id, Machine>, after: map<Id, Machine>) {
    before.Keys == after.Keys &&
    forall id :: id in before ==>
      after[id] == before[id].(lastSeen := after[id].lastSeen) && before[id].lastSeen <= after[id].lastSeen
  }

  ghost predicate Possible(st: State, step: Step) {
    match step
    case Sweep(order, now, _, _) => IsListing(order, st.machines) && now > 0
    case Report(_, _, machines) => OnlySeen(st.machines, machines)
    case Handlers(machines, received, next) =>
      && received.Items <= st.received.Items
      && st.next <= next
      && forall id :: id in machines ==>
           && id < next
           && if id in st.machines then machines[id].dormantSince == st.machines[id].dormantSince
              else id >= st.next && machines[id].dormantSince == 0
  }

  ghost function Next(st: State, step: Step): State {
    match step
    case Sweep(order, now, days, disable) => Swept(st, order, now, days, disable)
    case Report(endpoint, at, machines) => st.(machines := machines, received := st.received[endpoint := at])
    case Handlers(machines, received, next) => st.(machines := machines, received := received, next := next)
  }

  ghost function After(st: State, run: seq<Step>): State {
    if run == [] then st else Next(After(st, run[..|run| - 1]), run[|run| - 1])
  }

  ghost predicate PossibleRun(st: State, run: seq<Step>) {
    forall i :: 0 <= i < |run| ==> Possible(After(st, run[..i]), run[i])
  }

  lemma PossibleFront(st: State, run: seq<Step>)
    requires PossibleRun(st, run) && run != []
    ensures PossibleRun(st, run[..|run| - 1]) && Possible(After(st, run[..|run| - 1]), run[|run| - 1])
  {
    var front := run[..|run| - 1];
    forall i | 0 <= i < |front| ensures Possible(After(st, front[..i]), front[i]) {
      assert front[..i] == run[..i];
    }
  }

  /** Over any run, a machine is announced only when not announced already, and resolved only after that. */
  lemma {:induction false} AnnouncementsAlternate(st: State, run: seq<Step>)
    requires Inv(st) && PossibleRun(st, run)
    ensures Inv(After(st, run)) && Alternates(After(st, run).log)
  {
    if run != [] {
      var before, step := After(st, run[..|run| - 1]), run[|run| - 1];
      PossibleFront(st, run);
      AnnouncementsAlternate(st, run[..|run| - 1]);
      if step.Sweep? {
        SweepKeepsInv(before, step.order, step.now, step.days, step.disable);
      }
    }
  }

  ghost predicate SomeActive(machines: map<Id, Machine>) {
    exists id :: IsActive(machines, id)
  }

  lemma {:induction false} ActivesAre(machines: map<Id, Machine>, order: seq<Id>)
    ensures forall id :: id in Actives(machines, order) <==> id in order && IsActive(machines, id)
  {
    if order != [] {
      ActivesAre(machines, order[..|order| - 1]);
      assert order == order[..|order| - 1] + [order[|order| - 1]];
    }
  }

  lemma SweepLeavesOne(st: State, order: seq<Id>, now: int, days: nat, disable: bool)
    requires IsListing(order, st.machines) && SomeActive(st.machines)
    ensures SomeActive(Swept(st, order, now, days, disable).machines)
  {
    var after := Swept(st, order, now, days, disable).machines;
    SweepDisablesAtMostHalf(st, order, now, days, disable);
    ActivesAre(st.machines, order);
    ActivesAre(after, order);
    var id :| IsActive(st.machines, id);
    assert id in Actives(st.machines, order);
    assert Actives(after, order)[0] in Actives(after, order);
  }

  /** Sweeps and reports never take the last active machine out of service. */
  lemma {:induction false} OneStaysActive(st: State, run: seq<Step>)
    requires PossibleRun(st, run) && SomeActive(st.machines)
    requires forall i :: 0 <= i < |run| ==> !run[i].Handlers?
    ensures SomeActive(After(st, run).machines)
  {
    if run != [] {
      var before, step := After(st, run[..|run| - 1]), run[|run| - 1];
      PossibleFront(st, run);
      OneStaysActive(st, run[..|run| - 1]);
      if step.Sweep? {
        SweepLeavesOne(before, step.order, step.now, step.days, step.disable);
      } else {
        var id :| IsActive(before.machines, id);
        assert IsActive(step.reported, id);
      }
    }
  }
}
