/**
  The offboarding sweep seen from its log: after a round that may act, nobody who has been absent for the grace
  period is left alone, and the machines that change are those of the owners acted on.
*/
module Offboarding {
  import opened MachineStatus
  import opened Orphans

  /** The owners with a grace period of absent answers in a row. */
  ghost function OutOfGrace(log: seq<Event>, owners: seq<Uid>, grace: nat): set<Uid> {
    set uid | uid in owners && Absences(log, uid) >= grace
  }

  /** A round may act: some owner's latest answer is present, and at most half of the owners are out of grace. */
  ghost predicate MayAct(log: seq<Event>, owners: seq<Uid>, grace: nat) {
    && (exists i :: 0 <= i < |owners| && LatestAnswer(log, owners[i]) == Present)
    && 2 * |OutOfGrace(log, owners, grace)| <= |owners|
  }

  lemma {:induction false} LongAbsentSize(log: seq<Event>, owners: seq<Uid>, grace: nat)
    requires forall i, j :: 0 <= i < j < |owners| ==> owners[i] != owners[j]
    ensures |LongAbsent(log, owners, grace)| == |OutOfGrace(log, owners, grace)|
  {
    hide Absences;
    if owners != [] {
      var front, uid := owners[..|owners| - 1], owners[|owners| - 1];
      LongAbsentSize(log, front, grace);
      assert owners == front + [uid];
      assert uid !in front;
      assert OutOfGrace(log, owners, grace)
             == OutOfGrace(log, front, grace) + if Absences(log, uid) >= grace then {uid} else {};
    }
  }

  // ---- the phases on the log

  lemma {:induction false} ActedAllFlagged(st: State, orphans: seq<Uid>, owners: seq<Uid>, disable: bool, now: int)
    requires now > 0 && forall i :: 0 <= i < |orphans| ==> orphans[i] in st.checks
    ensures var st' := ActedOnAll(st, orphans, owners, disable, now);
            && st'.checks.Keys == st.checks.Keys
            && (forall u :: u in st.checks && st.checks[u].flaggedAt != 0 ==> st'.checks[u].flaggedAt != 0)
            && forall i :: 0 <= i < |orphans| ==> st'.checks[orphans[i]].flaggedAt != 0
  {
    if orphans != [] {
      ActedAllFlagged(st, orphans[..|orphans| - 1], owners, disable, now);
    }
  }

  lemma {:induction false} ActingAsksNobody(st: State, orphans: seq<Uid>, owners: seq<Uid>, disable: bool, now: int,
                                            u: Uid)
    ensures var log := ActedOnAll(st, orphans, owners, disable, now).log;
            Absences(log, u) == Absences(st.log, u) && LatestAnswer(log, u) == LatestAnswer(st.log, u)
  {
    if orphans != [] {
      var front, uid := orphans[..|orphans| - 1], orphans[|orphans| - 1];
      ActingAsksNobody(st, front, owners, disable, now, u);
      LongAbsentAfterActing(ActedOnAll(st, front, owners, disable, now).log, Acted(uid, owners), [], 0);
    }
  }

  /** The rows say who is confirmed and who is out; a round that may act decides for all of them. */
  lemma MayActDecides(st: State, owners: seq<Uid>, grace: nat)
    requires Inv(st, grace) && grace > 0 && MayAct(st.log, owners, grace)
    requires forall i, j :: 0 <= i < j < |owners| ==> owners[i] != owners[j]
    ensures forall u :: u in Decided(st.checks, owners, grace) <==> u in owners && Absences(st.log, u) >= grace
    ensures forall u :: u in Decided(st.checks, owners, grace) ==> u in st.checks
  {
    hide Absences, LatestAnswer, ActedSince, AllJustified, LongAbsent, Out;
    OutIsLongAbsent(st.checks, st.log, owners, grace);
    LongAbsentSize(st.log, owners, grace);
    var i :| 0 <= i < |owners| && LatestAnswer(st.log, owners[i]) == Present;
    assert RowMatches(st.checks, st.log, owners[i]);
    assert IsConfirmed(st.checks, owners[i], grace);
    forall u | u in owners ensures IsOut(st.checks, u, grace) <==> Absences(st.log, u) >= grace {
      assert RowMatches(st.checks, st.log, u);
    }
  }

  lemma OwnersAreNotGone(st: State, owners: seq<Uid>, answers: map<Uid, Answer>, now: int, grace: nat, disable: bool,
                         gone: seq<Uid>, uid: Uid)
    requires AreOwners(owners, st.machines) && AreGone(gone, Acting(st, owners, answers, now, grace, disable))
    requires uid in owners
    ensures uid !in gone
  {
    hide Acting;
    SweepTouchesOnlyOrphans(st, owners, answers, now, grace, disable);
    var id :| id in st.machines && st.machines[id].owner == uid;
    var machines := Acting(st, owners, answers, now, grace, disable).machines;
    assert id in machines && machines[id].owner == uid;
  }

  /** Pruning changes nothing in the log about an owner. */
  lemma SweptLog(st: State, owners: seq<Uid>, answers: map<Uid, Answer>, now: int, grace: nat, disable: bool,
                 gone: seq<Uid>, uid: Uid)
    requires Inv(st, grace) && now > 0 && grace > 0 && uid in owners
    requires AreOwners(owners, st.machines) && AreGone(gone, Acting(st, owners, answers, now, grace, disable))
    ensures var asked, acted := Refreshed(st, owners, answers, now), Acting(st, owners, answers, now, grace, disable);
            var log := Swept(st, owners, answers, now, grace, disable, gone).log;
            && Absences(log, uid) == Absences(acted.log, uid) == Absences(asked.log, uid)
            && LatestAnswer(log, uid) == LatestAnswer(acted.log, uid) == LatestAnswer(asked.log, uid)
            && (ActedSince(log, uid) <==> ActedSince(acted.log, uid))
  {
    hide Inv, AreOwners, AreGone, Absences, LatestAnswer, ActedSince, Decided, AllJustified, Refreshed, ActedOnAll;
    var asked := Refreshed(st, owners, answers, now);
    var acted := Acting(st, owners, answers, now, grace, disable);
    OwnersAreNotGone(st, owners, answers, now, grace, disable, gone, uid);
    ActingAsksNobody(asked, Decided(asked.checks, owners, grace), owners, disable, now, uid);
    ActingKeepsInv(st, owners, answers, now, grace, disable);
    InvJustifies(acted, grace);
    DroppedRows(acted.log, gone, uid, grace);
  }

  lemma InvJustifies(st: State, grace: nat)
    requires Inv(st, grace)
    ensures AllJustified(st.log, grace)
  {
  }

  lemma SameLicence(log: seq<Event>, log': seq<Event>, owners: seq<Uid>, grace: nat)
    requires forall u :: u in owners ==>
               Absences(log, u) == Absences(log', u) && LatestAnswer(log, u) == LatestAnswer(log', u)
    ensures MayAct(log, owners, grace) == MayAct(log', owners, grace)
  {
    hide Absences, LatestAnswer;
    assert OutOfGrace(log, owners, grace) == OutOfGrace(log', owners, grace);
  }

  lemma RoundLeavesNobody(st: State, owners: seq<Uid>, answers: map<Uid, Answer>, now: int, grace: nat, disable: bool,
                          gone: seq<Uid>, uid: Uid)
    requires Inv(st, grace) && now > 0 && grace > 0 && uid in owners
    requires AreOwners(owners, st.machines) && AreGone(gone, Acting(st, owners, answers, now, grace, disable))
    requires var log := Swept(st, owners, answers, now, grace, disable, gone).log;
             MayAct(log, owners, grace) && Absences(log, uid) >= grace
    ensures ActedSince(Swept(st, owners, answers, now, grace, disable, gone).log, uid)
  {
    hide Inv, AreGone, Absences, LatestAnswer, ActedSince, Decided, AllJustified, MayAct, Refreshed, ActedOnAll, Swept;
    var asked := Refreshed(st, owners, answers, now);
    var acted := Acting(st, owners, answers, now, grace, disable);
    var log := Swept(st, owners, answers, now, grace, disable, gone).log;
    forall u | u in owners
      ensures Absences(log, u) == Absences(asked.log, u) && LatestAnswer(log, u) == LatestAnswer(asked.log, u)
    {
      SweptLog(st, owners, answers, now, grace, disable, gone, u);
    }
    SweptLog(st, owners, answers, now, grace, disable, gone, uid);
    SameLicence(log, asked.log, owners, grace);
    RefreshKeepsInv(st, owners, answers, now, grace);
    MayActDecides(asked, owners, grace);
    var orphans := Decided(asked.checks, owners, grace);
    assert uid in orphans;
    ActedAllFlagged(asked, orphans, owners, disable, now);
    ActingKeepsInv(st, owners, answers, now, grace, disable);
    FlaggedIsActed(acted, grace, uid);
  }

  lemma FlaggedIsActed(st: State, grace: nat, uid: Uid)
    requires Inv(st, grace) && uid in st.checks && st.checks[uid].flaggedAt != 0
    ensures ActedSince(st.log, uid)
  {
    assert RowMatches(st.checks, st.log, uid);
  }

  // ---- runs

  /**
    In every run, after a sweep whose answers allow it to act, every owner with a grace period of absent answers in a
    row has been acted on since the last present one.
  */
  lemma NobodyOutOfGraceIsLeft(run: seq<Step>, sweep: Step, grace: nat, disable: bool, uid: Uid)
    requires grace > 0 && PossibleRun(START, run + [sweep], grace, disable) && sweep.Sweep? && uid in sweep.owners
    requires var log := After(START, run + [sweep], grace, disable).log;
             MayAct(log, sweep.owners, grace) && Absences(log, uid) >= grace
    ensures ActedSince(After(START, run + [sweep], grace, disable).log, uid)
  {
    hide Absences, ActedSince, MayAct, Swept, Acting;
    LastStep(run, sweep, grace, disable);
    RunKeepsInv(run, grace, disable);
    var st := After(START, run, grace, disable);
    RoundLeavesNobody(st, sweep.owners, sweep.answers, sweep.now, grace, disable, sweep.gone, uid);
  }

  lemma LastStep(run: seq<Step>, step: Step, grace: nat, disable: bool)
    requires PossibleRun(START, run + [step], grace, disable)
    ensures PossibleRun(START, run, grace, disable) && Possible(After(START, run, grace, disable), step, grace, disable)
    ensures After(START, run + [step], grace, disable) == Next(After(START, run, grace, disable), step, grace, disable)
  {
    hide Possible, Next;
    var all := run + [step];
    assert all[..|run|] == run;
    assert Possible(After(START, all[..|run|], grace, disable), all[|run|], grace, disable);
    forall i | 0 <= i < |run| ensures Possible(After(START, run[..i], grace, disable), run[i], grace, disable) {
      assert all[..i] == run[..i];
      assert Possible(After(START, all[..i], grace, disable), all[i], grace, disable);
    }
  }

  // ---- whom a sweep asks, and which machines it changes

  ghost predicate AskedIn(log: seq<Event>, from: nat, uid: Uid, answer: Answer) {
    exists i :: from <= i < |log| && log[i] == Answered(uid, answer)
  }

  lemma AskedInSnoc(log: seq<Event>, e: Event, from: nat, uid: Uid, answer: Answer)
    requires from <= |log|
    ensures AskedIn(log + [e], from, uid, answer) <==> AskedIn(log, from, uid, answer) || e == Answered(uid, answer)
    ensures ActedIn(log + [e], from, uid) <==> ActedIn(log, from, uid) || (e.Acted? && e.uid == uid)
  {
    var longer := log + [e];
    assert longer[|log|] == e && forall i :: 0 <= i < |log| ==> longer[i] == log[i];
    if AskedIn(log, from, uid, answer) {
      var i :| from <= i < |log| && log[i] == Answered(uid, answer);
      assert longer[i] == Answered(uid, answer);
    }
    if ActedIn(log, from, uid) {
      var i :| from <= i < |log| && log[i].Acted? && log[i].uid == uid;
      assert longer[i].Acted? && longer[i].uid == uid;
    }
  }

  lemma {:induction false} RefreshAsks(st: State, owners: seq<Uid>, answers: map<Uid, Answer>, now: int, uid: Uid,
                                       answer: Answer)
    requires forall i, j :: 0 <= i < j < |owners| ==> owners[i] != owners[j]
    ensures var log := Refreshed(st, owners, answers, now).log;
            && |st.log| <= |log|
            && (AskedIn(log, |st.log|, uid, answer) <==>
                  uid in owners && Due(st.checks, uid, now) && answer == AnswerOf(answers, uid))
            && !ActedIn(log, |st.log|, uid)
  {
    hide AnswerOf;
    if owners != [] {
      var front, last := owners[..|owners| - 1], owners[|owners| - 1];
      var before := Refreshed(st, front, answers, now);
      RefreshAsks(st, front, answers, now, uid, answer);
      RefreshLeavesOthers(st, front, answers, now, last);
      assert owners == front + [last] && last !in front;
      AskedInSnoc(before.log, Answered(last, AnswerOf(answers, last)), |st.log|, uid, answer);
    }
  }

  lemma {:induction false} ActingAsksNobodyIn(st: State, orphans: seq<Uid>, owners: seq<Uid>, disable: bool, now: int,
                                              from: nat, uid: Uid, answer: Answer)
    requires from <= |st.log|
    ensures var log := ActedOnAll(st, orphans, owners, disable, now).log;
            |st.log| <= |log| && (AskedIn(log, from, uid, answer) <==> AskedIn(st.log, from, uid, answer))
  {
    if orphans != [] {
      var front, last := orphans[..|orphans| - 1], orphans[|orphans| - 1];
      ActingAsksNobodyIn(st, front, owners, disable, now, from, uid, answer);
      AskedInSnoc(ActedOnAll(st, front, owners, disable, now).log, Acted(last, owners), from, uid, answer);
    }
  }

  lemma DropsAreSilent(log: seq<Event>, gone: seq<Uid>, from: nat, uid: Uid, answer: Answer)
    requires from <= |log|
    ensures var longer := log + seq(|gone|, i requires 0 <= i < |gone| => Dropped(gone[i]));
            && (AskedIn(longer, from, uid, answer) <==> AskedIn(log, from, uid, answer))
            && (ActedIn(longer, from, uid) <==> ActedIn(log, from, uid))
  {
    var longer := log + seq(|gone|, i requires 0 <= i < |gone| => Dropped(gone[i]));
    assert forall i :: 0 <= i < |log| ==> longer[i] == log[i];
    assert forall i :: |log| <= i < |longer| ==> longer[i].Dropped?;
    if AskedIn(log, from, uid, answer) {
      var i :| from <= i < |log| && log[i] == Answered(uid, answer);
      assert longer[i] == Answered(uid, answer);
    }
    if ActedIn(log, from, uid) {
      var i :| from <= i < |log| && log[i].Acted? && log[i].uid == uid;
      assert longer[i].Acted? && longer[i].uid == uid;
    }
  }

  lemma RoundEvents(st: State, owners: seq<Uid>, answers: map<Uid, Answer>, now: int, grace: nat, disable: bool,
                    gone: seq<Uid>, uid: Uid, answer: Answer)
    requires forall i, j :: 0 <= i < j < |owners| ==> owners[i] != owners[j]
    ensures var asked := Refreshed(st, owners, answers, now);
            var log := Swept(st, owners, answers, now, grace, disable, gone).log;
            && |st.log| <= |asked.log|
            && (AskedIn(log, |st.log|, uid, answer) <==>
                  uid in owners && Due(st.checks, uid, now) && answer == AnswerOf(answers, uid))
            && (ActedIn(log, |st.log|, uid) <==>
                  ActedIn(Acting(st, owners, answers, now, grace, disable).log, |asked.log|, uid))
  {
    hide Refreshed, ActedOnAll, Decided, AskedIn, ActedIn, Due, AnswerOf;
    var asked := Refreshed(st, owners, answers, now);
    var orphans := Decided(asked.checks, owners, grace);
    var acted := ActedOnAll(asked, orphans, owners, disable, now);
    RefreshAsks(st, owners, answers, now, uid, answer);
    ActingAsksNobodyIn(asked, orphans, owners, disable, now, |st.log|, uid, answer);
    DropsAreSilent(acted.log, gone, |st.log|, uid, answer);
    ActAllTouches(asked, orphans, owners, disable, now);
    LaterActions(asked.log, acted.log, |st.log|, uid);
  }

  lemma LaterActions(log: seq<Event>, longer: seq<Event>, from: nat, uid: Uid)
    requires from <= |log| && log <= longer && !ActedIn(log, from, uid)
    ensures ActedIn(longer, from, uid) <==> ActedIn(longer, |log|, uid)
  {
    assert forall i :: 0 <= i < |log| ==> log[i] == longer[i];
    if ActedIn(longer, from, uid) {
      var i :| from <= i < |longer| && longer[i].Acted? && longer[i].uid == uid;
      assert i >= |log|;
    }
  }

  /** A sweep asks about exactly the owners without a row or with an answer a day old, and logs what it hears. */
  lemma AsksWhoIsDue(run: seq<Step>, sweep: Step, grace: nat, disable: bool, uid: Uid, answer: Answer)
    requires PossibleRun(START, run + [sweep], grace, disable) && sweep.Sweep?
    ensures var st, st' := After(START, run, grace, disable), After(START, run + [sweep], grace, disable);
            AskedIn(st'.log, |st.log|, uid, answer) <==>
              && uid in sweep.owners
              && (uid in st.checks ==> sweep.now - st.checks[uid].checkedAt >= 24 * 3600)
              && answer == if uid in sweep.answers then sweep.answers[uid] else Unknown
  {
    hide Swept, AskedIn;
    LastStep(run, sweep, grace, disable);
    RoundEvents(After(START, run, grace, disable), sweep.owners, sweep.answers, sweep.now, grace, disable, sweep.gone,
                uid, answer);
  }

  /**
    The machines a sweep changes are the active ones of the owners it acted on, all of them, and it changes nothing
    but their status; with any other setting it changes none.
  */
  lemma MachinesOfThoseActedOn(run: seq<Step>, sweep: Step, grace: nat, disable: bool, id: int)
    requires PossibleRun(START, run + [sweep], grace, disable) && sweep.Sweep?
    ensures var st, st' := After(START, run, grace, disable), After(START, run + [sweep], grace, disable);
            && (id in st'.machines <==> id in st.machines)
            && (id in st.machines ==>
                  var m := st.machines[id];
                  st'.machines[id] == if disable && m.status == Active && ActedIn(st'.log, |st.log|, m.owner)
                                      then Owned(m.owner, Disabled) else m)
  {
    hide Refreshed, ActedOnAll, Decided, ActedIn;
    LastStep(run, sweep, grace, disable);
    var st := After(START, run, grace, disable);
    SweepTouchesOnlyOrphans(st, sweep.owners, sweep.answers, sweep.now, grace, disable);
    if id in st.machines {
      RoundEvents(st, sweep.owners, sweep.answers, sweep.now, grace, disable, sweep.gone, st.machines[id].owner,
                  Present);
    }
  }

  // ---- the rows that go

  /** Somebody is out of grace, and the round may act on it. */
  ghost predicate Acts(log: seq<Event>, owners: seq<Uid>, grace: nat) {
    MayAct(log, owners, grace) && OutOfGrace(log, owners, grace) != {}
  }

  lemma DecidesIffActs(st: State, owners: seq<Uid>, grace: nat)
    requires Inv(st, grace) && grace > 0
    requires forall i, j :: 0 <= i < j < |owners| ==> owners[i] != owners[j]
    ensures Decided(st.checks, owners, grace) != [] <==> Acts(st.log, owners, grace)
    ensures var orphans := Decided(st.checks, owners, grace);
            forall i :: 0 <= i < |orphans| ==> orphans[i] in st.checks
  {
    hide Inv, Absences, LatestAnswer, Decided, LongAbsent, MayAct;
    var orphans := Decided(st.checks, owners, grace);
    if orphans != [] {
      DecisionIsLicensed(st, owners, grace);
      LicensedMayAct(st.log, owners, grace);
    }
    if MayAct(st.log, owners, grace) {
      MayActDecides(st, owners, grace);
      assert orphans != [] ==> orphans[0] in orphans && orphans[0] in OutOfGrace(st.log, owners, grace);
      assert orphans == [] ==> OutOfGrace(st.log, owners, grace) == {};
    }
    forall i | 0 <= i < |orphans| ensures orphans[i] in st.checks {
      assert orphans[i] in orphans;
    }
  }

  lemma LicensedMayAct(log: seq<Event>, owners: seq<Uid>, grace: nat)
    requires Licensed(log, owners, grace)
    requires forall i, j :: 0 <= i < j < |owners| ==> owners[i] != owners[j]
    ensures MayAct(log, owners, grace)
  {
    hide Absences, LatestAnswer, LongAbsent;
    LongAbsentSize(log, owners, grace);
  }

  lemma RoundPrunes(st: State, owners: seq<Uid>, answers: map<Uid, Answer>, now: int, grace: nat, disable: bool,
                    gone: seq<Uid>, uid: Uid)
    requires Inv(st, grace) && now > 0 && grace > 0 && !OwnsMachine(st.machines, uid)
    requires AreOwners(owners, st.machines) && AreGone(gone, Acting(st, owners, answers, now, grace, disable))
    ensures var st' := Swept(st, owners, answers, now, grace, disable, gone);
            uid in st'.checks <==> uid in st.checks && !Acts(st'.log, owners, grace)
  {
    hide Inv, AreGone, Absences, LatestAnswer, ActedSince, Decided, MayAct, Refreshed, ActedOnAll;
    var asked := Refreshed(st, owners, answers, now);
    var acted := Acting(st, owners, answers, now, grace, disable);
    var log := Swept(st, owners, answers, now, grace, disable, gone).log;
    forall u | u in owners
      ensures Absences(log, u) == Absences(asked.log, u) && LatestAnswer(log, u) == LatestAnswer(asked.log, u)
    {
      SweptLog(st, owners, answers, now, grace, disable, gone, u);
    }
    SameLicence(log, asked.log, owners, grace);
    assert OutOfGrace(log, owners, grace) == OutOfGrace(asked.log, owners, grace);
    RefreshKeepsInv(st, owners, answers, now, grace);
    DecidesIffActs(asked, owners, grace);
    RefreshLeavesOthers(st, owners, answers, now, uid);
    ActedAllFlagged(asked, Decided(asked.checks, owners, grace), owners, disable, now);
    SweepTouchesOnlyOrphans(st, owners, answers, now, grace, disable);
    assert !OwnsMachine(acted.machines, uid);
  }

  /** The row of a user without machines goes in exactly the rounds that have somebody to act on, new or old. */
  lemma PrunedWhenActing(run: seq<Step>, sweep: Step, grace: nat, disable: bool, uid: Uid)
    requires grace > 0 && PossibleRun(START, run + [sweep], grace, disable) && sweep.Sweep?
    requires !OwnsMachine(After(START, run, grace, disable).machines, uid)
    ensures var st, st' := After(START, run, grace, disable), After(START, run + [sweep], grace, disable);
            uid in st'.checks <==> uid in st.checks && !Acts(st'.log, sweep.owners, grace)
  {
    hide Acts, Swept, Acting, OwnsMachine;
    LastStep(run, sweep, grace, disable);
    RunKeepsInv(run, grace, disable);
    RoundPrunes(After(START, run, grace, disable), sweep.owners, sweep.answers, sweep.now, grace, disable, sweep.gone,
                uid);
  }
}
