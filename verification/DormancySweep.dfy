/** One dormancy sweep machine by machine, in terms of the fields of the rows and the times of the reports. */
module DormancySweep {
  import opened Basics
  import opened MachineStatus
  import opened Dormancy

  /** Nothing since the cutoff: no handshake, or, of a machine that never had one, no approval, or else no creation. */
  predicate Silent(m: Machine, cutoff: int) {
    if m.lastSeen > 0 then m.lastSeen < cutoff
    else if m.approvedAt.Some? then m.approvedAt.value < cutoff
    else m.createdAt < cutoff
  }

  function ActiveIds(machines: map<Id, Machine>): set<Id> {
    set id | id in machines && machines[id].status == Active
  }

  /** The active machines that are silent and not announced yet. */
  function SilentIds(machines: map<Id, Machine>, cutoff: int): set<Id> {
    set id | id in machines && machines[id].status == Active && machines[id].dormantSince <= 0
             && Silent(machines[id], cutoff)
  }

  /** Some endpoint reported within the hour, and the silence is not that of a majority. */
  ghost predicate MayAct(st: State, now: int, cutoff: int) {
    && (exists e :: e in st.received && now - st.received[e] < 3600)
    && 2 * |SilentIds(st.machines, cutoff)| <= |ActiveIds(st.machines)|
  }

  // ---- the listing and the sets

  function Among(order: seq<Id>, ids: set<Id>): set<Id> {
    set id | id in order && id in ids
  }

  lemma AmongSnoc(front: seq<Id>, last: Id, ids: set<Id>)
    requires last !in front
    ensures |Among(front + [last], ids)| == |Among(front, ids)| + if last in ids then 1 else 0
  {
    assert Among(front + [last], ids) == Among(front, ids) + if last in ids then {last} else {};
  }

  lemma {:induction false} SizesOfLists(machines: map<Id, Machine>, order: seq<Id>, cutoff: int)
    requires forall i, j :: 0 <= i < j < |order| ==> order[i] != order[j]
    ensures |Actives(machines, order)| == |Among(order, ActiveIds(machines))|
    ensures |Candidates(machines, order, cutoff)| == |Among(order, SilentIds(machines, cutoff))|
  {
    hide Among;
    if order == [] {
      NoneAmong(ActiveIds(machines));
      NoneAmong(SilentIds(machines, cutoff));
    } else {
      var front, last := order[..|order| - 1], order[|order| - 1];
      SizesOfLists(machines, front, cutoff);
      assert order == front + [last] && last !in front;
      AmongSnoc(front, last, ActiveIds(machines));
      AmongSnoc(front, last, SilentIds(machines, cutoff));
    }
  }

  lemma NoneAmong(ids: set<Id>)
    ensures Among([], ids) == {}
  {
  }

  lemma DecidedAre(st: State, order: seq<Id>, now: int, cutoff: int)
    requires IsListing(order, st.machines)
    ensures forall id ::
              id in Decided(st.machines, order, cutoff, FreshReport(st.received, now)) <==>
              MayAct(st, now, cutoff) && id in SilentIds(st.machines, cutoff)
  {
    hide Actives, Candidates;
    SizesOfLists(st.machines, order, cutoff);
    CandidatesListed(st.machines, order, cutoff);
    assert Among(order, ActiveIds(st.machines)) == ActiveIds(st.machines);
    assert Among(order, SilentIds(st.machines, cutoff)) == SilentIds(st.machines, cutoff);
    assert FreshReport(st.received, now) <==> exists e :: e in st.received && now - st.received[e] < 3600;
  }

  lemma {:induction false} ClearedAre(st: State, order: seq<Id>, cutoff: int)
    ensures var machines := ClearedAll(st, order, cutoff).machines;
            && machines.Keys == st.machines.Keys
            && forall id :: id in st.machines ==>
                 var m := st.machines[id];
                 machines[id] == if id in order && m.dormantSince > 0 && m.lastSeen > 0 && m.lastSeen > cutoff
                                 then m.(dormantSince := 0) else m
  {
    if order != [] {
      var front, last := order[..|order| - 1], order[|order| - 1];
      ClearedAre(st, front, cutoff);
      assert order == front + [last];
    }
  }

  // ---- the sweep

  /**
    What a sweep makes of each row. When it may act, every active machine that is silent and not announced is
    announced, and disabled if so configured; an announced machine with a handshake since the cutoff is cleared
    whether the sweep may act or not; and every other row stays as it was.
  */
  lemma SweepRowByRow(st: State, order: seq<Id>, now: int, days: nat, disable: bool, id: Id)
    requires IsListing(order, st.machines)
    ensures var st', cutoff := Swept(st, order, now, days, disable), now - days * (24 * 3600);
            && st'.received == st.received && st'.next == st.next
            && (id in st'.machines <==> id in st.machines)
            && (id in st.machines ==>
                  var m := st.machines[id];
                  st'.machines[id] ==
                    if MayAct(st, now, cutoff) && m.status == Active && m.dormantSince <= 0 && Silent(m, cutoff)
                    then m.(status := if disable then Disabled else Active, dormantSince := now)
                    else if m.dormantSince > 0 && m.lastSeen > 0 && m.lastSeen > cutoff then m.(dormantSince := 0)
                    else m)
  {
    hide ClearedAll, ActedOnAll, Decided, FreshReport, MayAct;
    var cutoff := now - days * DAY;
    var ids := Decided(st.machines, order, cutoff, FreshReport(st.received, now));
    var cleared := ClearedAll(st, order, cutoff);
    DecidedAre(st, order, now, cutoff);
    ClearedAre(st, order, cutoff);
    forall i | 0 <= i < |ids| ensures ids[i] in cleared.machines {
      assert ids[i] in ids;
    }
    ActAllChanges(cleared, ids, disable, now);
    ReportsStay(st, order, now, cutoff, ids, disable);
  }

  lemma {:induction false} ReportsStay(st: State, order: seq<Id>, now: int, cutoff: int, ids: seq<Id>, disable: bool)
    ensures ClearedAll(st, order, cutoff).received == st.received && ClearedAll(st, order, cutoff).next == st.next
    ensures var st' := ActedOnAll(ClearedAll(st, order, cutoff), ids, disable, now);
            st'.received == st.received && st'.next == st.next
    decreases |ids|, |order|
  {
    if ids != [] {
      ReportsStay(st, order, now, cutoff, ids[..|ids| - 1], disable);
    } else if order != [] {
      ReportsStay(st, order[..|order| - 1], now, cutoff, [], disable);
    }
  }

  /** A machine a sweep takes out of service has been silent for the whole time, and was in service and unannounced. */
  lemma DisabledWereSilent(st: State, order: seq<Id>, now: int, days: nat, disable: bool, id: Id)
    requires IsListing(order, st.machines) && id in st.machines && id in Swept(st, order, now, days, disable).machines
    requires Swept(st, order, now, days, disable).machines[id].status != st.machines[id].status
    ensures var m := st.machines[id];
            && disable && m.status == Active && m.dormantSince <= 0
            && Swept(st, order, now, days, disable).machines[id].status == Disabled
            && (m.lastSeen > 0 ==> now - m.lastSeen > days * (24 * 3600))
            && (m.lastSeen <= 0 && m.approvedAt.Some? ==> now - m.approvedAt.value > days * (24 * 3600))
            && (m.lastSeen <= 0 && m.approvedAt.None? ==> now - m.createdAt > days * (24 * 3600))
  {
    hide Swept;
    SweepRowByRow(st, order, now, days, disable, id);
  }
}
