/**
  The offboarding sweep: the directory is asked about every machine owner once a day, and an owner is
  acted on after enough absent answers in a row, unless the round looks like a broken directory.
  Times are whole seconds; 0 stands for the zero time. All writes succeed.
*/
module Orphans {
  import opened MachineStatus

  const DAY: int := 24 * 3600

  type Uid = string

  datatype Answer = Present | Absent | Unknown

  /** A row of owner_check. */
  datatype Check = Check(misses: nat, absentSince: int, flaggedAt: int, checkedAt: int)

  datatype Owned = Owned(owner: Uid, status: Status)

  /** What happened, in order: answers of the directory, actions taken with the round's owners, rows dropped. */
  datatype Event = Answered(uid: Uid, answer: Answer) | Acted(uid: Uid, owners: seq<Uid>) | Dropped(uid: Uid)

  datatype State = State(checks: map<Uid, Check>, machines: map<int, Owned>, log: seq<Event>)

  // ---- the sweep

  function MarkedPresent(now: int): Check {
    Check(0, 0, 0, now)
  }

  function MarkedAbsent(checks: map<Uid, Check>, uid: Uid, now: int): Check {
    if uid !in checks then Check(1, now, 0, now)
    else
      var c := checks[uid];
      Check(c.misses + 1, if c.absentSince == 0 then now else c.absentSince, c.flaggedAt, now)
  }

  /** One owner of the refresh phase; a recent answer is trusted, an unknown one changes no row. */
  function Asked(st: State, uid: Uid, answer: Answer, now: int): State {
    if uid in st.checks && now - st.checks[uid].checkedAt < DAY then st
    else
      var log := st.log + [Answered(uid, answer)];
      match answer
      case Present => st.(checks := st.checks[uid := MarkedPresent(now)], log := log)
      case Absent => st.(checks := st.checks[uid := MarkedAbsent(st.checks, uid, now)], log := log)
      case Unknown => st.(log := log)
  }

  /** The directory answers for some owners only. */
  function AnswerOf(answers: map<Uid, Answer>, uid: Uid): Answer {
    if uid in answers then answers[uid] else Unknown
  }

  function Refreshed(st: State, owners: seq<Uid>, answers: map<Uid, Answer>, now: int): State {
    if owners == [] then st
    else
      var uid := owners[|owners| - 1];
      Asked(Refreshed(st, owners[..|owners| - 1], answers, now), uid, AnswerOf(answers, uid), now)
  }

  predicate IsOut(checks: map<Uid, Check>, uid: Uid, grace: nat) {
    uid in checks && checks[uid].misses >= grace
  }

  predicate IsConfirmed(checks: map<Uid, Check>, uid: Uid, grace: nat) {
    uid in checks && checks[uid].misses < grace && checks[uid].misses == 0 && checks[uid].checkedAt != 0
  }

  function Out(checks: map<Uid, Check>, owners: seq<Uid>, grace: nat): seq<Uid> {
    if owners == [] then []
    else
      var rest, uid := Out(checks, owners[..|owners| - 1], grace), owners[|owners| - 1];
      if IsOut(checks, uid, grace) then rest + [uid] else rest
  }

  /** The owners to act on, or none when the round is refused. */
  function Decided(checks: map<Uid, Check>, owners: seq<Uid>, grace: nat): seq<Uid> {
    var out := Out(checks, owners, grace);
    if (exists i :: 0 <= i < |owners| && IsConfirmed(checks, owners[i], grace)) && |out| * 2 <= |owners| then out
    else []
  }

  function DisabledOf(machines: map<int, Owned>, uid: Uid): map<int, Owned> {
    map id | id in machines ::
      if machines[id].owner == uid && machines[id].status == Active then machines[id].(status := Disabled)
      else machines[id]
  }

  /** Acts on an owner unless that has been done already. */
  function ActedOn(st: State, uid: Uid, owners: seq<Uid>, disable: bool, now: int): State {
    if uid !in st.checks || st.checks[uid].flaggedAt != 0 then st
    else State(st.checks[uid := st.checks[uid].(flaggedAt := now)],
               if disable then DisabledOf(st.machines, uid) else st.machines,
               st.log + [Acted(uid, owners)])
  }

  function ActedOnAll(st: State, orphans: seq<Uid>, owners: seq<Uid>, disable: bool, now: int): State {
    if orphans == [] then st
    else
      var front, last := orphans[..|orphans| - 1], orphans[|orphans| - 1];
      ActedOn(ActedOnAll(st, front, owners, disable, now), last, owners, disable, now)
  }

  predicate OwnsMachine(machines: map<int, Owned>, uid: Uid) {
    exists id :: id in machines && machines[id].owner == uid
  }

  /** Rows of users without machines go; `gone` lists them. */
  function Pruned(st: State, gone: seq<Uid>): State {
    State(map uid | uid in st.checks && OwnsMachine(st.machines, uid) :: st.checks[uid], st.machines,
          st.log + seq(|gone|, i requires 0 <= i < |gone| => Dropped(gone[i])))
  }

  /** `SELECT DISTINCT owner_uid` */
  ghost predicate AreOwners(owners: seq<Uid>, machines: map<int, Owned>) {
    && (forall i, j :: 0 <= i < j < |owners| ==> owners[i] != owners[j])
    && (forall uid :: uid in owners <==> uid != "" && OwnsMachine(machines, uid))
  }

  ghost predicate AreGone(gone: seq<Uid>, st: State) {
    forall uid :: uid in gone <==> uid in st.checks && !OwnsMachine(st.machines, uid)
  }

  function Acting(st: State, owners: seq<Uid>, answers: map<Uid, Answer>, now: int, grace: nat, disable: bool): State {
    var asked := Refreshed(st, owners, answers, now);
    ActedOnAll(asked, Decided(asked.checks, owners, grace), owners, disable, now)
  }

  /** sweepOrphans; rows are pruned only in a round that acts or has acted. */
  function Swept(st: State, owners: seq<Uid>, answers: map<Uid, Answer>, now: int, grace: nat, disable: bool,
                 gone: seq<Uid>): State {
    var acted := Acting(st, owners, answers, now, grace, disable);
    if Decided(Refreshed(st, owners, answers, now).checks, owners, grace) == [] then acted else Pruned(acted, gone)
  }

  // ---- the sweep as it runs

  method OrphanDecision(owners: seq<Uid>, checks: map<Uid, Check>, grace: nat) returns (orphans: seq<Uid>)
    ensures orphans == Decided(checks, owners, grace)
  {
    var confirmedPresent := 0;
    orphans := [];
    for i := 0 to |owners|
      invariant orphans == Out(checks, owners[..i], grace)
      invariant 0 <= confirmedPresent
      invariant confirmedPresent > 0 <==> exists j :: 0 <= j < i && IsConfirmed(checks, owners[j], grace)
    {
      var uid := owners[i];
      assert owners[..i + 1][..i] == owners[..i];
      if uid in checks {
        var c := checks[uid];
        if c.misses >= grace {
          orphans := orphans + [uid];
        } else if c.misses == 0 && c.checkedAt != 0 {
          assert IsConfirmed(checks, owners[i], grace);
          confirmedPresent := confirmedPresent + 1;
        }
      }
    }
    assert owners[..|owners|] == owners;
    if |orphans| == 0 || confirmedPresent == 0 || |orphans| * 2 > |owners| {
      orphans := [];
    }
  }

  class Sweeper {
    var ownerCheck: map<Uid, Check>
    var machines: map<int, Owned>
    ghost var log: seq<Event>

    ghost function Current(): State
      reads this
    {
      State(ownerCheck, machines, log)
    }

    constructor ()
      ensures Current() == State(map[], map[], [])
    {
      ownerCheck, machines, log := map[], map[], [];
    }

    method MarkOwnerPresent(uid: Uid, now: int)
      modifies this`ownerCheck
      ensures ownerCheck == old(ownerCheck)[uid := MarkedPresent(now)]
    {
      ownerCheck := ownerCheck[uid := Check(0, 0, 0, now)];
    }

    method MarkOwnerAbsent(uid: Uid, now: int) returns (c: Check)
      modifies this`ownerCheck
      ensures c == MarkedAbsent(old(ownerCheck), uid, now) && ownerCheck == old(ownerCheck)[uid := c]
      ensures c.checkedAt == now && c.misses == 1 + if uid in old(ownerCheck) then old(ownerCheck)[uid].misses else 0
      ensures uid in old(ownerCheck) && old(ownerCheck)[uid].absentSince != 0 ==>
                c.absentSince == old(ownerCheck)[uid].absentSince
      ensures uid in old(ownerCheck) ==> c.flaggedAt == old(ownerCheck)[uid].flaggedAt
    {
      if uid in ownerCheck {
        c := ownerCheck[uid];
        c := c.(misses := c.misses + 1, absentSince := if c.absentSince == 0 then now else c.absentSince,
                checkedAt := now);
      } else {
        c := Check(1, now, 0, now);
      }
      ownerCheck := ownerCheck[uid := c];
    }

    /** The first phase; the directory's answers are in the table, and missing where it gave none. */
    method Refresh(owners: seq<Uid>, answers: map<Uid, Answer>, now: int) returns (checks: map<Uid, Check>)
      modifies this`ownerCheck, this`log
      ensures Current() == Refreshed(old(Current()), owners, answers, now) && checks == ownerCheck
    {
      checks := ownerCheck;
      for i := 0 to |owners|
        invariant Current() == Refreshed(old(Current()), owners[..i], answers, now) && checks == ownerCheck
      {
        var uid := owners[i];
        assert owners[..i + 1][..i] == owners[..i];
        if uid in checks && now - checks[uid].checkedAt < DAY {
          continue;
        }
        var answer := AnswerOf(answers, uid);
        log := log + [Answered(uid, answer)];
        match answer {
          case Present =>
            MarkOwnerPresent(uid, now);
            checks := checks[uid := Check(0, 0, 0, now)];
          case Absent =>
            var c := MarkOwnerAbsent(uid, now);
            checks := checks[uid := c];
          case Unknown =>
        }
      }
      assert owners[..|owners|] == owners;
    }

    /** The active machines of the owner, by id, and then the flag. */
    method OrphanOwner(uid: Uid, owners: seq<Uid>, disable: bool, now: int, next: int)
      requires uid in ownerCheck && ownerCheck[uid].flaggedAt == 0
      requires next >= 1 && forall id :: id in machines ==> 0 < id < next
      modifies this
      ensures Current() == ActedOn(old(Current()), uid, owners, disable, now)
    {
      if disable {
        ghost var before := machines;
        for id := 1 to next
          invariant machines.Keys == before.Keys && ownerCheck == old(ownerCheck) && log == old(log)
          invariant forall k :: k in before ==> machines[k] == if k < id then DisabledOf(before, uid)[k] else before[k]
        {
          if id in machines && machines[id].owner == uid && machines[id].status == Active {
            machines := machines[id := machines[id].(status := Disabled)];
          }
        }
        assert machines == DisabledOf(before, uid);
      }
      ownerCheck := ownerCheck[uid := ownerCheck[uid].(flaggedAt := now)];
      log := log + [Acted(uid, owners)];
    }

    method ActOnAll(orphans: seq<Uid>, owners: seq<Uid>, disable: bool, now: int, next: int)
      requires next >= 1 && forall id :: id in machines ==> 0 < id < next
      requires forall i :: 0 <= i < |orphans| ==> orphans[i] in ownerCheck
      modifies this
      ensures Current() == ActedOnAll(old(Current()), orphans, owners, disable, now)
    {
      for i := 0 to |orphans|
        invariant Current() == ActedOnAll(old(Current()), orphans[..i], owners, disable, now)
        invariant machines.Keys == old(machines.Keys) && ownerCheck.Keys == old(ownerCheck.Keys)
      {
        var uid := orphans[i];
        assert orphans[..i + 1][..i] == orphans[..i];
        if ownerCheck[uid].flaggedAt != 0 {
          continue;
        }
        OrphanOwner(uid, owners, disable, now, next);
      }
      assert orphans[..|orphans|] == orphans;
    }

    method SweepOrphans(owners: seq<Uid>, answers: map<Uid, Answer>, now: int, grace: nat, disable: bool, next: int,
                        ghost gone: seq<Uid>)
      requires next >= 1 && forall id :: id in machines ==> 0 < id < next
      modifies this
      ensures Current() == Swept(old(Current()), owners, answers, now, grace, disable, gone)
    {
      if |owners| == 0 {
        return;
      }
      RefreshKeepsMachines(Current(), owners, answers, now);
      var checks := Refresh(owners, answers, now);
      var orphans := OrphanDecision(owners, checks, grace);
      if |orphans| == 0 {
        return;
      }
      OutAreRows(checks, owners, grace);
      ActOnAll(orphans, owners, disable, now, next);
      ownerCheck := map uid | uid in ownerCheck && OwnsMachine(machines, uid) :: ownerCheck[uid];
      log := log + seq(|gone|, i requires 0 <= i < |gone| => Dropped(gone[i]));
    }
  }

  lemma {:induction false} RefreshKeepsMachines(st: State, owners: seq<Uid>, answers: map<Uid, Answer>, now: int)
    ensures Refreshed(st, owners, answers, now).machines == st.machines
  {
    if owners != [] {
      RefreshKeepsMachines(st, owners[..|owners| - 1], answers, now);
    }
  }

  lemma {:induction false} OutAreRows(checks: map<Uid, Check>, owners: seq<Uid>, grace: nat)
    ensures forall i :: 0 <= i < |Out(checks, owners, grace)| ==> Out(checks, owners, grace)[i] in checks
  {
    if owners != [] {
      OutAreRows(checks, owners[..|owners| - 1], grace);
    }
  }

  // ---- what the log says

  /** Absent answers since the last present one, or since the row was dropped. */
  function Absences(log: seq<Event>, uid: Uid): nat {
    if log == [] then 0
    else
      var rest := Absences(log[..|log| - 1], uid);
      match log[|log| - 1]
      case Answered(u, Absent) => if u == uid then rest + 1 else rest
      case Answered(u, Present) => if u == uid then 0 else rest
      case Answered(_, Unknown) => rest
      case Acted(_, _) => rest
      case Dropped(u) => if u == uid then 0 else rest
  }

  /** Acted on since the last present answer, or since the row was dropped. */
  function ActedSince(log: seq<Event>, uid: Uid): bool {
    if log == [] then false
    else
      var rest := ActedSince(log[..|log| - 1], uid);
      match log[|log| - 1]
      case Answered(u, a) => rest && (u != uid || a != Present)
      case Acted(u, _) => rest || u == uid
      case Dropped(u) => rest && u != uid
  }

  /** The latest answer that was not Unknown. */
  function LatestAnswer(log: seq<Event>, uid: Uid): Answer {
    if log == [] then Unknown
    else
      var last := log[|log| - 1];
      if last.uid == uid && last.Answered? && last.answer != Unknown then last.answer
      else if last == Dropped(uid) then Unknown
      else LatestAnswer(log[..|log| - 1], uid)
  }

  function LongAbsent(log: seq<Event>, owners: seq<Uid>, grace: nat): seq<Uid> {
    if owners == [] then []
    else
      var rest, uid := LongAbsent(log, owners[..|owners| - 1], grace), owners[|owners| - 1];
      if Absences(log, uid) >= grace then rest + [uid] else rest
  }

  /**
    An action is justified by what the directory has said: enough absences in a row, not acted on in
    this absence before, another owner's latest answer present, and at most half the owners this far gone.
  */
  ghost predicate Justified(before: seq<Event>, uid: Uid, owners: seq<Uid>, grace: nat) {
    && uid in owners && Absences(before, uid) >= grace && !ActedSince(before, uid)
    && (exists i :: 0 <= i < |owners| && owners[i] != uid && LatestAnswer(before, owners[i]) == Present)
    && 2 * |LongAbsent(before, owners, grace)| <= |owners|
  }

  ghost predicate AllJustified(log: seq<Event>, grace: nat) {
    forall i :: 0 <= i < |log| && log[i].Acted? ==> Justified(log[..i], log[i].uid, log[i].owners, grace)
  }

  /** A row says what the log says about its owner. */
  ghost predicate RowMatches(checks: map<Uid, Check>, log: seq<Event>, uid: Uid) {
    if uid !in checks then Absences(log, uid) == 0 && !ActedSince(log, uid) && LatestAnswer(log, uid) == Unknown
    else
      var c := checks[uid];
      && c.misses == Absences(log, uid)
      && c.checkedAt > 0
      && (c.misses == 0 ==> c.absentSince == 0 && LatestAnswer(log, uid) == Present)
      && (c.misses > 0 ==> 0 < c.absentSince && c.checkedAt - c.absentSince >= (c.misses - 1) * DAY)
      && (c.misses > 0 ==> LatestAnswer(log, uid) == Absent)
      && (c.flaggedAt != 0 <==> ActedSince(log, uid))
  }

  ghost predicate Inv(st: State, grace: nat) {
    AllJustified(st.log, grace) && forall uid :: RowMatches(st.checks, st.log, uid)
  }

  // ---- every phase keeps the invariant

  lemma JustifiedSnoc(log: seq<Event>, e: Event, grace: nat)
    requires AllJustified(log, grace) && (e.Acted? ==> Justified(log, e.uid, e.owners, grace))
    ensures AllJustified(log + [e], grace)
  {
    var longer := log + [e];
    forall i | 0 <= i < |longer| && longer[i].Acted?
      ensures Justified(longer[..i], longer[i].uid, longer[i].owners, grace)
    {
      if i < |log| {
        assert longer[..i] == log[..i];
      } else {
        assert longer[..i] == log;
      }
    }
  }

  lemma AskedKeepsInv(st: State, uid: Uid, answer: Answer, now: int, grace: nat)
    requires Inv(st, grace) && now > 0
    ensures Inv(Asked(st, uid, answer, now), grace)
  {
    hide RowMatches, AllJustified, Justified;
    var st' := Asked(st, uid, answer, now);
    if st' != st {
      JustifiedSnoc(st.log, Answered(uid, answer), grace);
      forall u ensures RowMatches(st'.checks, st'.log, u) {
        assert RowMatches(st.checks, st.log, u) && RowMatches(st.checks, st.log, uid);
        AskedRow(st, uid, answer, now, u);
      }
    }
  }

  lemma AskedRow(st: State, uid: Uid, answer: Answer, now: int, u: Uid)
    requires now > 0 && RowMatches(st.checks, st.log, u)
    ensures RowMatches(Asked(st, uid, answer, now).checks, Asked(st, uid, answer, now).log, u)
  {
    var st' := Asked(st, uid, answer, now);
    if st' != st {
      assert st'.log[..|st.log|] == st.log;
    }
  }

  lemma {:induction false} RefreshKeepsInv(st: State, owners: seq<Uid>, answers: map<Uid, Answer>, now: int, grace: nat)
    requires Inv(st, grace) && now > 0
    ensures Inv(Refreshed(st, owners, answers, now), grace)
  {
    if owners != [] {
      var uid := owners[|owners| - 1];
      RefreshKeepsInv(st, owners[..|owners| - 1], answers, now, grace);
      AskedKeepsInv(Refreshed(st, owners[..|owners| - 1], answers, now), uid,
                    AnswerOf(answers, uid), now, grace);
    }
  }

  /** An answer within the day is not asked for again, so misses are at least a day apart. */
  lemma {:induction false} OutIsLongAbsent(checks: map<Uid, Check>, log: seq<Event>, owners: seq<Uid>, grace: nat)
    requires grace > 0 && forall uid :: RowMatches(checks, log, uid)
    ensures Out(checks, owners, grace) == LongAbsent(log, owners, grace)
    ensures forall uid :: uid in Out(checks, owners, grace) <==> uid in owners && IsOut(checks, uid, grace)
  {
    if owners != [] {
      var uid := owners[|owners| - 1];
      OutIsLongAbsent(checks, log, owners[..|owners| - 1], grace);
      assert owners == owners[..|owners| - 1] + [uid];
      assert RowMatches(checks, log, uid);
    }
  }

  lemma {:induction false} LongAbsentAfterActing(log: seq<Event>, e: Event, owners: seq<Uid>, grace: nat)
    requires e.Acted?
    ensures LongAbsent(log + [e], owners, grace) == LongAbsent(log, owners, grace)
    ensures forall uid ::
              Absences(log + [e], uid) == Absences(log, uid) && LatestAnswer(log + [e], uid) == LatestAnswer(log, uid)
  {
    assert (log + [e])[..|log|] == log;
    if owners != [] {
      LongAbsentAfterActing(log, e, owners[..|owners| - 1], grace);
    }
  }

  /** What licenses a round of actions; acting does not change it. */
  ghost predicate Licensed(log: seq<Event>, owners: seq<Uid>, grace: nat) {
    && (exists i :: 0 <= i < |owners| && LatestAnswer(log, owners[i]) == Present && Absences(log, owners[i]) == 0)
    && 2 * |LongAbsent(log, owners, grace)| <= |owners|
  }

  lemma ActKeepsInv(st: State, uid: Uid, owners: seq<Uid>, disable: bool, now: int, grace: nat)
    requires Inv(st, grace) && now > 0 && grace > 0
    requires uid in owners && Absences(st.log, uid) >= grace && Licensed(st.log, owners, grace)
    ensures var st' := ActedOn(st, uid, owners, disable, now);
            && Inv(st', grace) && Licensed(st'.log, owners, grace)
            && forall u :: Absences(st'.log, u) == Absences(st.log, u)
  {
    hide LongAbsent, AllJustified, Justified, Absences, LatestAnswer, ActedSince;
    var st', e := ActedOn(st, uid, owners, disable, now), Acted(uid, owners);
    assert RowMatches(st.checks, st.log, uid);
    if st' != st {
      LicenceJustifies(st.log, uid, owners, grace);
      JustifiedSnoc(st.log, e, grace);
      LongAbsentAfterActing(st.log, e, owners, grace);
      forall u ensures RowMatches(st'.checks, st'.log, u) {
        assert RowMatches(st.checks, st.log, u);
        ActedSinceNow(st.log, e, u);
      }
    }
  }

  lemma LicenceJustifies(log: seq<Event>, uid: Uid, owners: seq<Uid>, grace: nat)
    requires grace > 0 && uid in owners && Absences(log, uid) >= grace
    requires Licensed(log, owners, grace) && !ActedSince(log, uid)
    ensures Justified(log, uid, owners, grace)
  {
    hide LongAbsent, Absences, LatestAnswer, ActedSince;
    var i :| 0 <= i < |owners| && LatestAnswer(log, owners[i]) == Present && Absences(log, owners[i]) == 0;
    assert owners[i] != uid;
  }

  lemma ActedSinceNow(log: seq<Event>, e: Event, uid: Uid)
    requires e.Acted?
    ensures ActedSince(log + [e], uid) <==> ActedSince(log, uid) || e.uid == uid
  {
    assert (log + [e])[..|log|] == log;
  }

  lemma {:induction false} ActAllKeepsInv(st: State, orphans: seq<Uid>, owners: seq<Uid>, disable: bool, now: int,
                                          grace: nat)
    requires Inv(st, grace) && now > 0 && grace > 0 && Licensed(st.log, owners, grace)
    requires forall i :: 0 <= i < |orphans| ==> orphans[i] in owners && Absences(st.log, orphans[i]) >= grace
    ensures var st' := ActedOnAll(st, orphans, owners, disable, now);
            && Inv(st', grace) && Licensed(st'.log, owners, grace)
            && forall u :: Absences(st'.log, u) == Absences(st.log, u)
  {
    if orphans != [] {
      ActAllKeepsInv(st, orphans[..|orphans| - 1], owners, disable, now, grace);
      ActKeepsInv(ActedOnAll(st, orphans[..|orphans| - 1], owners, disable, now), orphans[|orphans| - 1], owners,
                  disable, now, grace);
    }
  }

  lemma DecisionIsLicensed(st: State, owners: seq<Uid>, grace: nat)
    requires Inv(st, grace) && grace > 0
    ensures var orphans := Decided(st.checks, owners, grace);
            && (orphans != [] ==> Licensed(st.log, owners, grace))
            && forall i :: 0 <= i < |orphans| ==> orphans[i] in owners && Absences(st.log, orphans[i]) >= grace
  {
    var orphans := Decided(st.checks, owners, grace);
    OutIsLongAbsent(st.checks, st.log, owners, grace);
    forall i | 0 <= i < |orphans| ensures orphans[i] in owners && Absences(st.log, orphans[i]) >= grace {
      assert orphans[i] in Out(st.checks, owners, grace);
      assert RowMatches(st.checks, st.log, orphans[i]);
    }
    if orphans != [] {
      var i :| 0 <= i < |owners| && IsConfirmed(st.checks, owners[i], grace);
      assert RowMatches(st.checks, st.log, owners[i]);
    }
  }

  lemma {:induction false} DroppedRows(log: seq<Event>, gone: seq<Uid>, uid: Uid, grace: nat)
    requires AllJustified(log, grace)
    ensures var longer := log + seq(|gone|, i requires 0 <= i < |gone| => Dropped(gone[i]));
            && AllJustified(longer, grace)
            && Absences(longer, uid) == (if uid in gone then 0 else Absences(log, uid))
            && (ActedSince(longer, uid) <==> uid !in gone && ActedSince(log, uid))
            && LatestAnswer(longer, uid) == (if uid in gone then Unknown else LatestAnswer(log, uid))
    decreases |gone|
  {
    var dropped := seq(|gone|, i requires 0 <= i < |gone| => Dropped(gone[i]));
    if gone == [] {
      assert log + dropped == log;
    } else {
      var front, last := gone[..|gone| - 1], gone[|gone| - 1];
      var before := log + seq(|front|, i requires 0 <= i < |front| => Dropped(front[i]));
      DroppedRows(log, front, uid, grace);
      assert log + dropped == before + [Dropped(last)];
      assert (before + [Dropped(last)])[..|before|] == before;
      JustifiedSnoc(before, Dropped(last), grace);
      assert gone == front + [last];
    }
  }

  lemma PruneKeepsInv(st: State, gone: seq<Uid>, grace: nat)
    requires Inv(st, grace) && AreGone(gone, st)
    ensures Inv(Pruned(st, gone), grace)
  {
    var st' := Pruned(st, gone);
    DroppedRows(st.log, gone, "", grace);
    forall u ensures RowMatches(st'.checks, st'.log, u) {
      assert RowMatches(st.checks, st.log, u);
      DroppedRows(st.log, gone, u, grace);
    }
  }

  lemma ActingKeepsInv(st: State, owners: seq<Uid>, answers: map<Uid, Answer>, now: int, grace: nat, disable: bool)
    requires Inv(st, grace) && now > 0 && grace > 0
    ensures Inv(Acting(st, owners, answers, now, grace, disable), grace)
  {
    var asked := Refreshed(st, owners, answers, now);
    RefreshKeepsInv(st, owners, answers, now, grace);
    DecisionIsLicensed(asked, owners, grace);
    if Decided(asked.checks, owners, grace) != [] {
      ActAllKeepsInv(asked, Decided(asked.checks, owners, grace), owners, disable, now, grace);
    }
  }

  lemma SweepKeepsInv(st: State, owners: seq<Uid>, answers: map<Uid, Answer>, now: int, grace: nat, disable: bool,
                      gone: seq<Uid>)
    requires Inv(st, grace) && now > 0 && grace > 0 && AreGone(gone, Acting(st, owners, answers, now, grace, disable))
    ensures Inv(Swept(st, owners, answers, now, grace, disable, gone), grace)
  {
    ActingKeepsInv(st, owners, answers, now, grace, disable);
    PruneKeepsInv(Acting(st, owners, answers, now, grace, disable), gone, grace);
  }

  // ---- which machines a sweep touches

  /** The events logged after `from` include an action on this owner. */
  ghost predicate ActedIn(log: seq<Event>, from: nat, uid: Uid) {
    exists i :: from <= i < |log| && log[i].Acted? && log[i].uid == uid
  }

  lemma {:induction false} ActAllTouches(st: State, orphans: seq<Uid>, owners: seq<Uid>, disable: bool, now: int)
    ensures var st' := ActedOnAll(st, orphans, owners, disable, now);
            && st.log <= st'.log && st'.machines.Keys == st.machines.Keys
            && forall id :: id in st.machines ==>
                 st'.machines[id] == if disable && st.machines[id].status == Active
                                        && ActedIn(st'.log, |st.log|, st.machines[id].owner)
                                     then st.machines[id].(status := Disabled) else st.machines[id]
  {
    if orphans != [] {
      var front, uid := orphans[..|orphans| - 1], orphans[|orphans| - 1];
      var mid := ActedOnAll(st, front, owners, disable, now);
      ActAllTouches(st, front, owners, disable, now);
      ActedInStep(mid, uid, owners, disable, now, |st.log|);
    }
  }

  lemma ActedInStep(st: State, uid: Uid, owners: seq<Uid>, disable: bool, now: int, from: nat)
    requires from <= |st.log|
    ensures var st' := ActedOn(st, uid, owners, disable, now);
            && st.log <= st'.log
            && forall u :: ActedIn(st'.log, from, u) <==> ActedIn(st.log, from, u) || (st' != st && u == uid)
  {
    var st' := ActedOn(st, uid, owners, disable, now);
    if st'.log != st.log {
      forall u | ActedIn(st.log, from, u) || u == uid ensures ActedIn(st'.log, from, u) {
        if u == uid {
          assert st'.log[|st.log|] == Acted(uid, owners);
        } else {
          var i :| from <= i < |st.log| && st.log[i].Acted? && st.log[i].uid == u;
          assert st'.log[i] == st.log[i];
        }
      }
    }
  }

  /**
    A sweep disables exactly the active machines of the owners it acts on, and only when so configured;
    every other machine is left as it was.
  */
  lemma SweepTouchesOnlyOrphans(st: State, owners: seq<Uid>, answers: map<Uid, Answer>, now: int, grace: nat,
                                disable: bool)
    ensures var st' := Acting(st, owners, answers, now, grace, disable);
            var asked := |Refreshed(st, owners, answers, now).log|;
            && st'.machines.Keys == st.machines.Keys
            && forall id :: id in st.machines ==>
                 st'.machines[id] == if disable && st.machines[id].status == Active
                                        && ActedIn(st'.log, asked, st.machines[id].owner)
                                     then st.machines[id].(status := Disabled) else st.machines[id]
  {
    var asked := Refreshed(st, owners, answers, now);
    RefreshKeepsMachines(st, owners, answers, now);
    ActAllTouches(asked, Decided(asked.checks, owners, grace), owners, disable, now);
  }

  // ---- runs

  /** A sweep, or whatever the handlers made of the machines in between. */
  datatype Step =
    | Sweep(owners: seq<Uid>, answers: map<Uid, Answer>, now: int, gone: seq<Uid>)
    | Machines(machines: map<int, Owned>)

  ghost predicate Possible(st: State, step: Step, grace: nat, disable: bool) {
    step.Sweep? ==>
      step.now > 0 && AreOwners(step.owners, st.machines)
      && AreGone(step.gone, Acting(st, step.owners, step.answers, step.now, grace, disable))
  }

  function Next(st: State, step: Step, grace: nat, disable: bool): State {
    match step
    case Sweep(owners, answers, now, gone) => Swept(st, owners, answers, now, grace, disable, gone)
    case Machines(machines) => st.(machines := machines)
  }

  function After(st: State, run: seq<Step>, grace: nat, disable: bool): State {
    if run == [] then st
    else Next(After(st, run[..|run| - 1], grace, disable), run[|run| - 1], grace, disable)
  }

  ghost predicate PossibleRun(st: State, run: seq<Step>, grace: nat, disable: bool) {
    forall i :: 0 <= i < |run| ==> Possible(After(st, run[..i], grace, disable), run[i], grace, disable)
  }

  const START: State := State(map[], map[], [])

  lemma {:induction false} RunKeepsInv(run: seq<Step>, grace: nat, disable: bool)
    requires grace > 0 && PossibleRun(START, run, grace, disable)
    ensures Inv(After(START, run, grace, disable), grace)
  {
    if run != [] {
      var front, step := run[..|run| - 1], run[|run| - 1];
      var before := After(START, front, grace, disable);
      forall i | 0 <= i < |front| ensures Possible(After(START, front[..i], grace, disable), front[i], grace, disable) {
        assert front[..i] == run[..i];
      }
      RunKeepsInv(front, grace, disable);
      assert Possible(before, step, grace, disable);
      if step.Sweep? {
        SweepKeepsInv(before, step.owners, step.answers, step.now, grace, disable, step.gone);
      }
    }
  }

  /**
    In every run: a row counts the absent answers since the last present one, these are at least a day
    apart, and every action taken was justified by the answers before it.
  */
  lemma AbsencesAreCounted(run: seq<Step>, grace: nat, disable: bool, uid: Uid)
    requires grace > 0 && PossibleRun(START, run, grace, disable)
    ensures var st := After(START, run, grace, disable);
            && AllJustified(st.log, grace)
            && (uid in st.checks ==>
                  var c := st.checks[uid];
                  && c.misses == Absences(st.log, uid)
                  && (c.misses > 0 ==> c.checkedAt - c.absentSince >= (c.misses - 1) * DAY)
                  && (c.flaggedAt != 0 <==> ActedSince(st.log, uid)))
  {
    hide After, AllJustified, Absences, ActedSince, LatestAnswer, PossibleRun;
    RunKeepsInv(run, grace, disable);
    assert RowMatches(After(START, run, grace, disable).checks, After(START, run, grace, disable).log, uid);
  }

  // ---- whether a confirmation is of the same round

  /** The sweep asks about this owner. */
  predicate Due(checks: map<Uid, Check>, uid: Uid, now: int) {
    uid !in checks || now - checks[uid].checkedAt >= DAY
  }

  /** The directory has confirmed someone since the log had `from` events. */
  ghost predicate ConfirmedSince(log: seq<Event>, from: nat) {
    exists i :: from <= i < |log| && log[i].Answered? && log[i].answer == Present
  }

  ghost predicate SomeoneDueIsPresent(checks: map<Uid, Check>, owners: seq<Uid>, answers: map<Uid, Answer>, now: int) {
    exists i :: 0 <= i < |owners| && Due(checks, owners[i], now) && AnswerOf(answers, owners[i]) == Present
  }

  lemma {:induction false} RefreshLeavesOthers(st: State, owners: seq<Uid>, answers: map<Uid, Answer>, now: int,
                                               uid: Uid)
    requires uid !in owners
    ensures var checks := Refreshed(st, owners, answers, now).checks;
            (uid in checks <==> uid in st.checks) && (uid in checks ==> checks[uid] == st.checks[uid])
  {
    if owners != [] {
      var last := owners[|owners| - 1];
      assert last in owners && forall u :: u in owners[..|owners| - 1] ==> u in owners;
      RefreshLeavesOthers(st, owners[..|owners| - 1], answers, now, uid);
    }
  }

  lemma ConfirmedSinceSnoc(log: seq<Event>, e: Event, from: nat)
    requires from <= |log|
    ensures ConfirmedSince(log + [e], from) <==> ConfirmedSince(log, from) || (e.Answered? && e.answer == Present)
  {
    var longer := log + [e];
    assert longer[|log|] == e && forall i :: 0 <= i < |log| ==> longer[i] == log[i];
    if ConfirmedSince(log, from) {
      var i :| from <= i < |log| && log[i].Answered? && log[i].answer == Present;
      assert longer[i].Answered? && longer[i].answer == Present;
    }
  }

  lemma {:induction false} RefreshConfirms(st: State, owners: seq<Uid>, answers: map<Uid, Answer>, now: int)
    requires forall i, j :: 0 <= i < j < |owners| ==> owners[i] != owners[j]
    ensures |st.log| <= |Refreshed(st, owners, answers, now).log|
    ensures ConfirmedSince(Refreshed(st, owners, answers, now).log, |st.log|) <==>
            SomeoneDueIsPresent(st.checks, owners, answers, now)
  {
    if owners != [] {
      var n := |owners| - 1;
      var front, uid := owners[..n], owners[n];
      var before := Refreshed(st, front, answers, now);
      RefreshConfirms(st, front, answers, now);
      RefreshLeavesOthers(st, front, answers, now, uid);
      assert Due(before.checks, uid, now) <==> Due(st.checks, uid, now);
      ConfirmedSinceSnoc(before.log, Answered(uid, AnswerOf(answers, uid)), |st.log|);
      if SomeoneDueIsPresent(st.checks, front, answers, now) {
        var i :| 0 <= i < |front| && Due(st.checks, front[i], now) && AnswerOf(answers, front[i]) == Present;
        assert owners[i] == front[i];
      }
      if SomeoneDueIsPresent(st.checks, owners, answers, now) {
        var i :| 0 <= i < |owners| && Due(st.checks, owners[i], now) && AnswerOf(answers, owners[i]) == Present;
        assert i < n ==> front[i] == owners[i];
      }
    }
  }

  lemma {:induction false} ActingConfirmsNobody(st: State, orphans: seq<Uid>, owners: seq<Uid>, disable: bool, now: int,
                                                from: nat)
    requires from <= |st.log|
    ensures var st' := ActedOnAll(st, orphans, owners, disable, now);
            |st.log| <= |st'.log| && (ConfirmedSince(st'.log, from) <==> ConfirmedSince(st.log, from))
  {
    if orphans != [] {
      var front, uid := orphans[..|orphans| - 1], orphans[|orphans| - 1];
      var mid := ActedOnAll(st, front, owners, disable, now);
      ActingConfirmsNobody(st, front, owners, disable, now, from);
      ConfirmedSinceSnoc(mid.log, Acted(uid, owners), from);
    }
  }

  /**
    The guard as documented asks for an owner confirmed in the same round. A round has one exactly when,
    before it, some owner was due (never asked, or not within the day) and the directory answers present.
  */
  lemma SameRoundConfirmationIff(st: State, owners: seq<Uid>, answers: map<Uid, Answer>, now: int, grace: nat,
                                 disable: bool)
    requires forall i, j :: 0 <= i < j < |owners| ==> owners[i] != owners[j]
    ensures ConfirmedSince(Acting(st, owners, answers, now, grace, disable).log, |st.log|) <==>
            SomeoneDueIsPresent(st.checks, owners, answers, now)
  {
    var asked := Refreshed(st, owners, answers, now);
    RefreshConfirms(st, owners, answers, now);
    ActingConfirmsNobody(asked, Decided(asked.checks, owners, grace), owners, disable, now, |st.log|);
  }

  // ---- a round that acts on an older confirmation

  const TWO: map<int, Owned> := map[1 := Owned("a", Active), 2 := Owned("b", Active)]
  const BOTH: seq<Uid> := ["a", "b"]
  const HOUR: int := 3600

  function Asking(uid: Uid, answer: Answer, now: int): Step {
    Sweep(BOTH, map[uid := answer], now, [])
  }

  /** Days on which "a" is found present, and an hour later "b" absent; the last of them only with "a" asked. */
  function Days(k: nat): seq<Step> {
    if k == 0 then [Machines(TWO), Asking("a", Present, 1)]
    else Days(k - 1) + [Asking("b", Absent, 1 + (k - 1) * DAY + HOUR), Asking("a", Present, 1 + k * DAY)]
  }

  /** The rows after k such days. */
  ghost predicate AfterDays(st: State, k: nat) {
    && st.machines == TWO
    && st.checks == if k == 0 then map["a" := Check(0, 0, 0, 1)]
                    else map["a" := Check(0, 0, 0, 1 + k * DAY), "b" := Check(k, 1 + HOUR, 0, 1 + (k - 1) * DAY + HOUR)]
  }

  lemma OutSnoc(checks: map<Uid, Check>, front: seq<Uid>, uid: Uid, grace: nat)
    ensures Out(checks, front + [uid], grace) ==
            Out(checks, front, grace) + (if IsOut(checks, uid, grace) then [uid] else [])
  {
    assert (front + [uid])[..|front|] == front;
  }

  lemma OutOfBoth(checks: map<Uid, Check>, grace: nat)
    ensures Out(checks, BOTH, grace)
            == (if IsOut(checks, "a", grace) then ["a"] else []) + (if IsOut(checks, "b", grace) then ["b"] else [])
  {
    OutSnoc(checks, [], "a", grace);
    OutSnoc(checks, ["a"], "b", grace);
    assert [] + ["a"] == ["a"] && ["a"] + ["b"] == BOTH;
  }

  lemma RefreshSnoc(st: State, front: seq<Uid>, uid: Uid, answers: map<Uid, Answer>, now: int)
    ensures Refreshed(st, front + [uid], answers, now)
            == Asked(Refreshed(st, front, answers, now), uid, AnswerOf(answers, uid), now)
  {
    assert (front + [uid])[..|front|] == front;
  }

  lemma RefreshBoth(st: State, answers: map<Uid, Answer>, now: int)
    ensures Refreshed(st, BOTH, answers, now)
            == Asked(Asked(st, "a", AnswerOf(answers, "a"), now), "b", AnswerOf(answers, "b"), now)
  {
    hide Asked;
    RefreshSnoc(st, [], "a", answers, now);
    RefreshSnoc(st, ["a"], "b", answers, now);
    assert [] + ["a"] == ["a"] && ["a"] + ["b"] == BOTH;
  }

  /** In the evening "b" has one more absence, and nobody else is asked. */
  lemma Evening(st: State, k: nat)
    requires AfterDays(st, k)
    ensures var st' := Refreshed(st, BOTH, map["b" := Absent], 1 + k * DAY + HOUR);
            && st'.machines == TWO && st'.log == st.log + [Answered("b", Absent)]
            && st'.checks == map["a" := Check(0, 0, 0, 1 + k * DAY),
                                 "b" := Check(k + 1, 1 + HOUR, 0, 1 + k * DAY + HOUR)]
  {
    RefreshBoth(st, map["b" := Absent], 1 + k * DAY + HOUR);
  }

  lemma Morning(st: State, k: nat)
    requires k > 0 && st.machines == TWO
    requires st.checks == map["a" := Check(0, 0, 0, 1 + (k - 1) * DAY),
                              "b" := Check(k, 1 + HOUR, 0, 1 + (k - 1) * DAY + HOUR)]
    ensures AfterDays(Refreshed(st, BOTH, map["a" := Present], 1 + k * DAY), k)
  {
    RefreshBoth(st, map["a" := Present], 1 + k * DAY);
  }

  lemma OwnersOfTwo(st: State)
    requires st.machines == TWO
    ensures AreOwners(BOTH, st.machines)
    ensures st.checks.Keys <= {"a", "b"} ==> AreGone([], st)
  {
    assert OwnsMachine(TWO, "a") by {
      assert 1 in TWO && TWO[1].owner == "a";
    }
    assert OwnsMachine(TWO, "b") by {
      assert 2 in TWO && TWO[2].owner == "b";
    }
  }

  lemma QuietSweep(st: State, answers: map<Uid, Answer>, now: int, grace: nat, disable: bool)
    requires st.machines == TWO && now > 0
    requires var checks := Refreshed(st, BOTH, answers, now).checks;
             checks.Keys <= {"a", "b"} && !IsOut(checks, "a", grace) && !IsOut(checks, "b", grace)
    ensures Possible(st, Sweep(BOTH, answers, now, []), grace, disable)
    ensures Swept(st, BOTH, answers, now, grace, disable, []) == Refreshed(st, BOTH, answers, now)
  {
    OutOfBoth(Refreshed(st, BOTH, answers, now).checks, grace);
    RefreshKeepsMachines(st, BOTH, answers, now);
    OwnersOfTwo(st);
    OwnersOfTwo(Refreshed(st, BOTH, answers, now));
  }

  lemma PossibleSnoc(st: State, run: seq<Step>, step: Step, grace: nat, disable: bool)
    requires PossibleRun(st, run, grace, disable) && Possible(After(st, run, grace, disable), step, grace, disable)
    ensures PossibleRun(st, run + [step], grace, disable)
    ensures After(st, run + [step], grace, disable) == Next(After(st, run, grace, disable), step, grace, disable)
  {
    var longer := run + [step];
    assert longer[..|run|] == run;
    forall i | 0 <= i < |longer| ensures Possible(After(st, longer[..i], grace, disable), longer[i], grace, disable) {
      if i < |run| {
        assert longer[..i] == run[..i];
      }
    }
  }

  lemma FirstDay(st: State, grace: nat, disable: bool)
    requires st == START.(machines := TWO) && grace > 0
    ensures var first := Asking("a", Present, 1);
            Possible(st, first, grace, disable) && AfterDays(Next(st, first, grace, disable), 0)
  {
    RefreshBoth(st, map["a" := Present], 1);
    QuietSweep(st, map["a" := Present], 1, grace, disable);
  }

  lemma DayPasses(st: State, k: nat, grace: nat, disable: bool)
    requires 0 < k < grace && AfterDays(st, k - 1)
    ensures var evening, morning := Asking("b", Absent, 1 + (k - 1) * DAY + HOUR), Asking("a", Present, 1 + k * DAY);
            var mid := Next(st, evening, grace, disable);
            && Possible(st, evening, grace, disable) && Possible(mid, morning, grace, disable)
            && AfterDays(Next(mid, morning, grace, disable), k)
  {
    hide Refreshed, Possible, Swept;
    var evening, morning := Asking("b", Absent, 1 + (k - 1) * DAY + HOUR), Asking("a", Present, 1 + k * DAY);
    Evening(st, k - 1);
    QuietSweep(st, map["b" := Absent], 1 + (k - 1) * DAY + HOUR, grace, disable);
    var mid := Next(st, evening, grace, disable);
    Morning(mid, k);
    QuietSweep(mid, map["a" := Present], 1 + k * DAY, grace, disable);
  }

  lemma {:induction false} DaysPass(k: nat, grace: nat, disable: bool)
    requires k < grace
    ensures PossibleRun(START, Days(k), grace, disable) && AfterDays(After(START, Days(k), grace, disable), k)
  {
    hide Possible, AfterDays, Asking, PossibleRun, After, Next;
    if k == 0 {
      NothingYet(grace, disable);
      PossibleSnoc(START, [], Machines(TWO), grace, disable);
      FirstDay(START.(machines := TWO), grace, disable);
      PossibleSnoc(START, [] + [Machines(TWO)], Asking("a", Present, 1), grace, disable);
      assert [] + [Machines(TWO)] + [Asking("a", Present, 1)] == Days(0);
    } else {
      var evening, morning := Asking("b", Absent, 1 + (k - 1) * DAY + HOUR), Asking("a", Present, 1 + k * DAY);
      DaysPass(k - 1, grace, disable);
      DayPasses(After(START, Days(k - 1), grace, disable), k, grace, disable);
      PossibleSnoc(START, Days(k - 1), evening, grace, disable);
      PossibleSnoc(START, Days(k - 1) + [evening], morning, grace, disable);
      assert Days(k - 1) + [evening] + [morning] == Days(k);
    }
  }

  lemma NothingYet(grace: nat, disable: bool)
    ensures PossibleRun(START, [], grace, disable) && After(START, [], grace, disable) == START
    ensures Possible(START, Machines(TWO), grace, disable)
    ensures Next(START, Machines(TWO), grace, disable) == START.(machines := TWO)
  {
  }

  lemma ActedOnOne(st: State, uid: Uid, owners: seq<Uid>, disable: bool, now: int)
    ensures ActedOnAll(st, [uid], owners, disable, now) == ActedOn(st, uid, owners, disable, now)
  {
    assert [uid][..0] == [];
  }

  lemma OnlyBIsOut(checks: map<Uid, Check>, grace: nat)
    requires grace > 0 && checks.Keys == {"a", "b"}
    requires checks["a"].misses == 0 && checks["a"].checkedAt > 0 && checks["b"].misses == grace
    ensures Decided(checks, BOTH, grace) == ["b"]
  {
    OutOfBoth(checks, grace);
    hide Out;
    assert BOTH[0] == "a" && IsConfirmed(checks, BOTH[0], grace);
  }

  /** On the evening of its last day of grace "b" is acted on. */
  lemma LastEvening(st: State, grace: nat, disable: bool)
    requires grace > 0 && AfterDays(st, grace - 1) && st.machines == TWO
    ensures var sweep := Asking("b", Absent, 1 + (grace - 1) * DAY + HOUR);
            && Possible(st, sweep, grace, disable)
            && Next(st, sweep, grace, disable).log == st.log + [Answered("b", Absent), Acted("b", BOTH)]
  {
    var now := 1 + (grace - 1) * DAY + HOUR;
    var answers: map<Uid, Answer> := map["b" := Absent];
    var asked := Refreshed(st, BOTH, answers, now);
    hide Refreshed, Asked, Out, Decided, AreOwners, AreGone, DisabledOf;
    Evening(st, grace - 1);
    OnlyBIsOut(asked.checks, grace);
    ActedOnOne(asked, "b", BOTH, disable, now);
    var acted := ActedOnAll(asked, ["b"], BOTH, disable, now);
    OwnersOfTwo(st);
    StillOwners(acted, disable);
    assert acted.log == st.log + [Answered("b", Absent)] + [Acted("b", BOTH)];
    assert acted.log + [] == acted.log;
  }

  /**
    The documented guard is not kept, whatever the grace period: after a possible run a sweep acts on "b"
    although it confirms nobody, on the strength of an answer about "a" an hour old.
  */
  lemma ActsOnOldConfirmation(grace: nat, disable: bool)
    requires grace > 0
    ensures var run, sweep := Days(grace - 1), Asking("b", Absent, 1 + (grace - 1) * DAY + HOUR);
            var before, after := After(START, run, grace, disable), After(START, run + [sweep], grace, disable);
            && PossibleRun(START, run + [sweep], grace, disable)
            && ActedIn(after.log, |before.log|, "b")
            && !ConfirmedSince(after.log, |before.log|)
  {
    hide Possible, Swept, PossibleRun, Asking, Days;
    var sweep := Asking("b", Absent, 1 + (grace - 1) * DAY + HOUR);
    DaysPass(grace - 1, grace, disable);
    var before := After(START, Days(grace - 1), grace, disable);
    LastEvening(before, grace, disable);
    PossibleSnoc(START, Days(grace - 1), sweep, grace, disable);
    var after := Next(before, sweep, grace, disable);
    assert after.log[|before.log| + 1] == Acted("b", BOTH) && after.log[|before.log|] == Answered("b", Absent);
  }

  lemma StillOwners(st: State, disable: bool)
    requires st.machines == (if disable then DisabledOf(TWO, "b") else TWO) && st.checks.Keys == {"a", "b"}
    ensures AreGone([], st)
  {
    assert OwnsMachine(st.machines, "a") by {
      assert 1 in st.machines && st.machines[1].owner == "a";
    }
    assert OwnsMachine(st.machines, "b") by {
      assert 2 in st.machines && st.machines[2].owner == "b";
    }
  }
}
