/**
 Runs in which deciding recovery by evidence and replaying the log disagree: a crash cuts the sweep of a
 completed mission between save and append, and the mission is reconciled to RUNNING.
 */
module RecoveryDisagrees {
  import opened Wrappers
  import opened MissionStatus
  import opened MissionTypes
  import opened MissionProtocol
  import opened MissionRuns
  import opened MissionInvariants
  import opened RestartSweeps
  import opened Recovery
  import opened PlanHandlers
  import opened PlanRuns

  /**
   Cut a sweep of a completed mission between save and append, reconcile the mission to RUNNING, and the
   log holds its completion after the last marker but not last.
   */
  lemma CutTerminalSweepDisagrees(config: Config, turns: seq<Turn>, id: Id, now: Time, command: Command, clock: Clock)
    returns (cut: nat)
    requires Feasible(config, turns) && CrashFree(turns) && id in Run(config, turns).db.missions
    requires Run(config, turns).db.missions[id].status == Completed && HasMarker(Log(Run(config, turns).db, id))
    requires command.missionId == id && command.kind == ReconcileKind(Running) && command.expectedVersion.None?
    requires Run(config, turns).now <= now <= clock.lookup && Monotone(clock)
    ensures var longer := turns + [Turn(RecoverStep({Completed}, now), Some(cut))] + [Resume(command, clock)];
      var log := Log(Run(config, longer).db, id);
      Feasible(config, longer) && Disagrees(log)
  {
    var log := Log(Run(config, turns).db, id);
    CompletedIsEvidence(config, turns, id);
    cut := SweepIsCut(config, turns, id, now);
    var event := ResumeIsLogged(config, turns + [Turn(RecoverStep({Completed}, now), Some(cut))], id, command, clock);
    EvidenceStays(log, event);
  }

  lemma CompletedIsEvidence(config: Config, turns: seq<Turn>, id: Id)
    requires Feasible(config, turns) && CrashFree(turns) && id in Run(config, turns).db.missions
    requires Run(config, turns).db.missions[id].status == Completed && HasMarker(Log(Run(config, turns).db, id))
    ensures var log := Log(Run(config, turns).db, id);
      EndsCompleted(log)
  {
    var view := ViewOf(Run(config, turns).db, id);
    LogMirrorsStore(config, turns, id);
    OnlySweepsFollowTerminal(config, turns, id);
    OnlyRuntimeTypes(config, turns, id);
    CompletedEnd(view, id);
  }

  lemma CompletedEnd(view: View, id: Id)
    requires LogMirrors(view, id) && SweptAtTerminal(view) && RuntimeTypes(view.log) && HasMarker(view.log)
    requires view.mission.Some? && view.mission.value.status == Completed
    ensures EndsCompleted(view.log)
  {
    EvidenceIsLastEvent(view);
    assert DecidingEvent(view.log, |view.log| - 1);
  }

  function Resume(command: Command, clock: Clock): Turn {
    Turn(ApplyStep(command, Context(None, None, None), clock, None), None)
  }

  lemma SweepIsCut(config: Config, turns: seq<Turn>, id: Id, now: Time) returns (cut: nat)
    requires Feasible(config, turns) && id in Run(config, turns).db.missions && Run(config, turns).now <= now
    requires Run(config, turns).db.missions[id].status == Completed
    ensures var swept := turns + [Turn(RecoverStep({Completed}, now), Some(cut))];
      && Feasible(config, swept) && id in Run(config, swept).db.missions && Run(config, swept).now == now
      && Run(config, swept).db.missions[id].status == Unknown
      && Log(Run(config, swept).db, id) == Log(Run(config, turns).db, id)
  {
    var db := Run(config, turns).db;
    RunConsistent(config, turns);
    cut := CutAfterSave(config, db, RecoverStep({Completed}, now), id);
    var swept := turns + [Turn(RecoverStep({Completed}, now), Some(cut))];
    assert swept[..|turns|] == turns;
    assert ViewOf(Run(config, swept).db, id).mission.Some?;
  }

  lemma ResumeIsLogged(config: Config, turns: seq<Turn>, id: Id, command: Command, clock: Clock) returns (event: Event)
    requires Feasible(config, turns) && id in Run(config, turns).db.missions
    requires Run(config, turns).db.missions[id].status == Unknown
    requires command.missionId == id && command.kind == ReconcileKind(Running) && command.expectedVersion.None?
    requires Run(config, turns).now <= clock.lookup && Monotone(clock)
    ensures event.snapshot.status == Running && event.eventType == Reconciled
    ensures var resumed := turns + [Resume(command, clock)];
      Feasible(config, resumed) && Log(Run(config, resumed).db, id) == Log(Run(config, turns).db, id) + [event]
  {
    var db, step := Run(config, turns).db, Resume(command, clock).step;
    RunConsistent(config, turns);
    var adv := Advance(NextSnapshot(db.missions[id], Running, db.missions[id], clock.stamped), Reconciled);
    event := BuildEvent(adv.next, Reconciled);
    assert StepAdvances(config, db, step) == [adv];
    AdvanceHappens(config, db, step, adv);
    assert (turns + [Resume(command, clock)])[..|turns|] == turns;
  }

  /** A completion after the last marker is the last event. */
  ghost predicate EndsCompleted(log: seq<Event>) {
    log != [] && DecidingEvent(log, |log| - 1) && log[|log| - 1].snapshot.status == Completed
  }

  /** Evidence says completed, replay says RUNNING. */
  ghost predicate Disagrees(log: seq<Event>) {
    && |log| > 1 && DecidingEvent(log, |log| - 2) && log[|log| - 2].snapshot.status == Completed
    && log[|log| - 1].snapshot.status == Running
  }

  lemma EvidenceStays(log: seq<Event>, event: Event)
    requires EndsCompleted(log) && !IsUnknownMarker(event) && event.snapshot.status == Running
    ensures Disagrees(log + [event])
  {
    var i :| 0 <= i < |log| - 1 && LastMarker(log, i) && forall k :: i < k < |log| - 1 ==> !IsTerminalEvent(log[k]);
    assert LastMarker(log + [event], i);
  }

  /** A sweep can be cut so that a given mission is stored as UNKNOWN but not logged. */
  lemma CutAfterSave(config: Config, db: Db, step: Step, id: Id) returns (cut: nat)
    requires Consistent(db) && step.RecoverStep? && Swept(db, step.statuses, id)
    ensures var view, mission := ViewOf(Exec(db, Done(config, db, Turn(step, Some(cut)))), id), db.missions[id];
      view == View(Some(NextSnapshot(mission, Unknown, mission, step.now)), Log(db, id))
  {
    var mission, advances, writes := db.missions[id], StepAdvances(config, db, step), StepWrites(config, db, step);
    var adv := Advance(NextSnapshot(mission, Unknown, mission, step.now), StateTransition);
    FindByStatusComplete(db, db.order, step.statuses, id);
    RecoverAdvancesComplete(FindByStatus(db, db.order, step.statuses), step.now, mission);
    StepAdvancesFacts(config, db, step);
    AdvancesWritesLength(advances);
    IndexOfMember(advances, adv);
    cut := 2 * IndexOf(advances, id).value + 1;
    AdvancesView(db, advances, id, cut);
  }

  lemma DisagreeingEvidence(log: seq<Event>)
    requires Disagrees(log)
    ensures HasMarker(log) && !EvidenceIsFinal(log)
  {
    assert DecidingEvent(log, |log| - 2);
  }

  // --------------------------------------------- a run that gets there

  /** A crash-free run, at time 0, that has left the mission in the given state. */
  ghost predicate Reaches(config: Config, turns: seq<Turn>, id: Id, status: Status) {
    && Feasible(config, turns) && CrashFree(turns) && Run(config, turns).now == 0
    && id in Run(config, turns).db.missions && Run(config, turns).db.missions[id].status == status
  }

  /** An uncut sweep of the mission's state logs an UNKNOWN marker. */
  lemma SweepIsLogged(config: Config, turns: seq<Turn>, id: Id) returns (swept: seq<Turn>)
    requires Reaches(config, turns, id, Running)
    ensures Reaches(config, swept, id, Unknown) && HasMarker(Log(Run(config, swept).db, id))
  {
    var db := Run(config, turns).db;
    swept := turns + [Turn(RecoverStep({Running}, 0), None)];
    assert swept[..|turns|] == turns;
    RunConsistent(config, turns);
    SweepView(config, db, {Running}, 0, id);
    var log := Log(Run(config, swept).db, id);
    assert ViewOf(Run(config, swept).db, id).mission.Some?;
    assert ViewOf(Run(config, swept).db, id).log == log && IsUnknownMarker(log[|log| - 1]);
  }

  /** A reconcile command to COMPLETED keeps the marker in the log. */
  lemma CompletionIsReconciled(config: Config, turns: seq<Turn>, id: Id) returns (completed: seq<Turn>)
    requires Reaches(config, turns, id, Unknown) && HasMarker(Log(Run(config, turns).db, id))
    ensures Reaches(config, completed, id, Completed) && HasMarker(Log(Run(config, completed).db, id))
  {
    var db := Run(config, turns).db;
    completed := turns + [Turn(At(ReconcileKind(Completed), id, db.missions[id].version), None)];
    assert completed[..|turns|] == turns;
    RunConsistent(config, turns);
    ReconcileCompletes(config, db, id);
  }

  lemma ReconcileCompletes(config: Config, db: Db, id: Id)
    requires Consistent(db) && StoredAs(db, id, Unknown) && HasMarker(Log(db, id))
    ensures var db' := Exec(db, StepWrites(config, db, At(ReconcileKind(Completed), id, db.missions[id].version)));
      StoredAs(db', id, Completed) && HasMarker(Log(db', id))
  {
    var step := At(ReconcileKind(Completed), id, db.missions[id].version);
    var adv := Advance(NextSnapshot(db.missions[id], Completed, db.missions[id], 0), Reconciled);
    OutcomeOfApply(config, db, step);
    AdvanceHappens(config, db, step, adv);
    var view' := ViewOf(Exec(db, StepWrites(config, db, step)), id);
    MarkerStays(Log(db, id), BuildEvent(adv.next, adv.eventType));
    assert view'.mission == Some(adv.next) && view'.log == Log(db, id) + [BuildEvent(adv.next, adv.eventType)];
  }

  lemma MarkerStays(log: seq<Event>, event: Event)
    requires HasMarker(log)
    ensures HasMarker(log + [event])
  {
    var i :| 0 <= i < |log| && IsUnknownMarker(log[i]);
    assert IsUnknownMarker((log + [event])[i]);
  }

  /**
   For every plan with a step there is a run whose log decides otherwise than it replays: the mission
   runs, is swept, reconciled to COMPLETED, swept again by a call that a crash cuts, and resumed.
   */
  lemma DisagreementIsReachable(plans: map<Intent, IntentPlan>, hash: Command -> string, create: CreateCommand, id: Id)
    returns (turns: seq<Turn>)
    requires create.intent in plans && plans[create.intent].steps != []
    ensures Feasible(AgentConfig(plans, hash), turns)
    ensures var log := Log(Run(AgentConfig(plans, hash), turns).db, id); HasMarker(log) && !EvidenceIsFinal(log)
  {
    AgentHandles(plans, hash, create.intent);
    turns := Disagreement(AgentConfig(plans, hash), plans[create.intent], create, id);
  }

  lemma Disagreement(config: Config, plan: IntentPlan, create: CreateCommand, id: Id) returns (turns: seq<Turn>)
    requires Handles(config, create.intent, plan) && plan.steps != []
    ensures Feasible(config, turns)
    ensures var log := Log(Run(config, turns).db, id); HasMarker(log) && !EvidenceIsFinal(log)
  {
    var running := StagesAreReachable(config, plan, create, id, 2);
    var swept := SweepIsLogged(config, running, id);
    var completed := CompletionIsReconciled(config, swept, id);
    var command, clock := Command(ReconcileKind(Running), id, None, ""), Clock(0, 0, 0, 0);
    var cut := CutTerminalSweepDisagrees(config, completed, id, 0, command, clock);
    turns := completed + [Turn(RecoverStep({Completed}, 0), Some(cut))] + [Resume(command, clock)];
    DisagreeingEvidence(Log(Run(config, turns).db, id));
  }
}
