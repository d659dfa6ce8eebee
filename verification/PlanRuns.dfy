/**
 Runs of the runtime with the shipped handlers: how many executes a plan takes, and how a mission can
 come to be completed.
 */
module PlanRuns {
  import opened Wrappers
  import opened MissionStatus
  import opened MissionTypes
  import opened MissionProtocol
  import opened MissionRuns
  import opened MissionInvariants
  import opened RestartSweeps
  import opened LogGaps
  import opened PlanHandlers
  import opened PlanShapes

  lemma RejectedMovesOnlyBySweep(plans: map<Intent, IntentPlan>, hash: Command -> string, mission: Snapshot,
                                 step: Step, adv: Advance)
    requires mission.status == Rejected
    ensures Caused(AgentConfig(plans, hash), mission, step, adv) ==> step.RecoverStep? && Rejected in step.statuses
  {
    if step.ApplyStep? && mission.intent in plans {
      assert HandlerSays(AgentConfig(plans, hash), mission, step.command) == RunPlan(plans[mission.intent], mission);
    }
  }

  /**
   With the shipped handlers a turn of any run changes a stored REJECTED mission only if it is a restart
   sweep that names REJECTED, and such a sweep does change it unless a crash cuts it.
   */
  lemma RejectedIsStuck(plans: map<Intent, IntentPlan>, hash: Command -> string, turns: seq<Turn>, id: Id)
    requires turns != [] && Feasible(AgentConfig(plans, hash), turns)
    requires var before := Run(AgentConfig(plans, hash), turns[..|turns| - 1]).db;
      id in before.missions && before.missions[id].status == Rejected
    ensures var before, after := Run(AgentConfig(plans, hash), turns[..|turns| - 1]).db,
            Run(AgentConfig(plans, hash), turns).db;
      var turn := turns[|turns| - 1];
      var names := turn.step.RecoverStep? && Rejected in turn.step.statuses;
      && id in after.missions
      && (after.missions[id] != before.missions[id] ==> names)
      && (names && turn.crash.None? ==> after.missions[id].status == Unknown)
  {
    var config, front, turn := AgentConfig(plans, hash), turns[..|turns| - 1], turns[|turns| - 1];
    var world, step, at := LastTurn(config, turns, id);
    var view, view' := ViewOf(world.db, id), ViewOf(Run(config, turns).db, id);
    assert view.mission == Some(world.db.missions[id]) && view'.mission.Some?;
    if at.Some? { RejectedMovesOnlyBySweep(plans, hash, view.mission.value, step, at.value); }
    if turn.step.RecoverStep? && turn.crash.None? {
      RunConsistent(config, front);
      SweepView(config, world.db, turn.step.statuses, turn.step.now, id);
    }
  }

  // ------------------------------------------------ how many executes it takes

  /** The registry's handler for this intent is the one bound to `plan`. */
  ghost predicate Handles(config: Config, intent: Intent, plan: IntentPlan) {
    && intent in config.handlers
    && forall mission: Snapshot, command: Command :: config.handlers[intent](mission, command) == RunPlan(plan, mission)
  }

  /** A command of some kind on the mission, with any payload, expected version, key and fence token. */
  ghost predicate IsCommand(step: Step, id: Id, kind: CommandKind) {
    step.ApplyStep? && step.command.kind == kind && step.command.missionId == id
  }

  /** The call names no stale version and no stale fence token, and its key has no live record. */
  ghost predicate Admitted(db: Db, step: Step)
    requires step.ApplyStep? && step.command.missionId in db.missions
  {
    && (ExpectedVersion(step).Some? ==> ExpectedVersion(step).value == db.missions[step.command.missionId].version)
    && (step.fence.Some? && step.ctx.fenceToken.Some? ==> step.ctx.fenceToken.value >= step.fence.value)
    && (step.ctx.idempotencyKey.Some? ==> !Live(db, step.ctx.idempotencyKey.value, step.clock.lookup))
  }

  /** The call returns, and not from a record. */
  ghost predicate Succeeds(config: Config, db: Db, step: Step) {
    && step.ApplyStep?
    && var outcome := Apply(config, db, step.command, step.ctx, step.clock, step.fence).outcome;
       outcome.Returned? && !outcome.replayed
  }

  /** The stores after a list of calls, each run to its end. */
  ghost function Drive(config: Config, db: Db, steps: seq<Step>): Db {
    if steps == [] then db
    else
      var before := Drive(config, db, steps[..|steps| - 1]);
      Exec(before, StepWrites(config, before, steps[|steps| - 1]))
  }

  /** How many of the calls are commands on the mission that succeed. */
  ghost function Successes(config: Config, db: Db, id: Id, steps: seq<Step>): nat {
    if steps == [] then 0
    else
      var front, last := steps[..|steps| - 1], steps[|steps| - 1];
      Successes(config, db, id, front)
      + (if Concerns(last, id) && Succeeds(config, Drive(config, db, front), last) then 1 else 0)
  }

  /** A command on the mission, of any kind. */
  ghost predicate Concerns(step: Step, id: Id) {
    step.ApplyStep? && step.command.missionId == id
  }

  /** A call that does not restart the mission from under its plan: anything but its own start and sweeps of stages. */
  ghost predicate LeavesStages(step: Step, id: Id) {
    && (step.StartStep? ==> step.id != id)
    && (step.RecoverStep? ==> step.statuses !! STAGES + {AwaitingApproval})
  }

  /** The states on the way to the approval. */
  const STAGES: set<Status> := {Draft, Queued, Running, WaitingForEvidence}

  /** A command succeeds exactly when it is admitted and its target resolves; then, and only then, the mission moves. */
  lemma AppliedMission(config: Config, db: Db, step: Step, id: Id)
    requires Consistent(db) && id in db.missions && db.missions[id].status !in TERMINAL_STATES
    requires step.ApplyStep? && step.command.missionId == id && !step.command.kind.CreateKind?
    ensures var mission, target, db' := db.missions[id], ResolveTarget(config, db.missions[id], step.command),
                                        Exec(db, StepWrites(config, db, step));
      && (Succeeds(config, db, step) <==> Admitted(db, step) && target.Ok?)
      && Consistent(db') && id in db'.missions
      && db'.missions[id] == if Succeeds(config, db, step)
                             then NextSnapshot(mission, target.value.status, target.value.base, step.clock.stamped)
                             else mission
  {
    var mission, writes := db.missions[id], StepWrites(config, db, step);
    var db' := Exec(db, writes);
    ExecConsistent(db, writes);
    OutcomeOfApply(config, db, step);
    if Succeeds(config, db, step) {
      var target := ResolveTarget(config, mission, step.command).value;
      AdvanceHappens(config, db, step,
                     Advance(NextSnapshot(mission, target.status, target.base, step.clock.stamped), target.eventType));
    } else {
      var at := TurnEffect(config, db, Turn(step, None), id);
    }
    assert ViewOf(db', id).mission.Some?;
  }

  lemma OutcomeOfApply(config: Config, db: Db, step: Step)
    requires step.ApplyStep? && !step.command.kind.CreateKind?
    requires step.command.missionId in db.missions && db.missions[step.command.missionId].status !in TERMINAL_STATES
    ensures var mission := db.missions[step.command.missionId];
      var target := ResolveTarget(config, mission, step.command);
      && (Succeeds(config, db, step) <==> Admitted(db, step) && target.Ok?)
      && StepAdvances(config, db, step) ==
         if Succeeds(config, db, step)
         then [Advance(NextSnapshot(mission, target.value.status, target.value.base, step.clock.stamped),
                       target.value.eventType)]
         else []
  {
  }

  /** Where a mission of an `n`-step plan stands after `m` executes from its creation. */
  ghost predicate AfterExecutes(mission: Snapshot, n: nat, m: nat) {
    && mission.version == m + 1 && PlanState(mission, n)
    && mission.status == (
         if m == 0 then Draft
         else if m == 1 then Queued
         else if m == 2 * n + 1 then AwaitingApproval
         else if m % 2 == 0 then Running
         else WaitingForEvidence)
    && mission.progress == if m < 2 then 0 else (m - 1) / 2
  }

  /** A mission of the given intent stands there in these stores. */
  ghost predicate StagedMission(db: Db, id: Id, intent: Intent, n: nat, m: nat) {
    Consistent(db) && id in db.missions && db.missions[id].intent == intent && AfterExecutes(db.missions[id], n, m)
  }

  lemma ApprovalOnlyAtTheEnd(mission: Snapshot, n: nat, m: nat)
    requires AfterExecutes(mission, n, m) && n > 0 && m <= 2 * n + 1
    ensures mission.status == AwaitingApproval <==> m == 2 * n + 1
  {
  }

  lemma HandlerExecutes(plan: IntentPlan, mission: Snapshot, m: nat, now: Time)
    requires plan.steps != [] && m <= 2 * |plan.steps| && AfterExecutes(mission, |plan.steps|, m)
    ensures var r := RunPlan(plan, mission);
      && r.Proposed? && r.next.status in ValidTransitions(mission.status)
      && AfterExecutes(NextSnapshot(mission, r.next.status, r.next, now), |plan.steps|, m + 1)
  {
    HandlerKeepsPlanState(plan, mission);
    if mission.status == Running {
      ShapeCounts(mission.steps, mission.progress);
      AdvanceShapes(mission.steps, mission.progress, mission.updatedAt);
      ShapeCounts(AdvanceSteps(mission.steps, mission.updatedAt).0, mission.progress + 1);
    } else if mission.status == Queued {
      ActivateShapes(mission.steps, 0, mission.updatedAt);
      ShapeCounts(ActivateSteps(mission.steps, mission.updatedAt), 0);
    }
  }

  /** On the way to the approval, an execute succeeds exactly when it is admitted, and then takes one more step. */
  lemma ExecuteOnce(config: Config, plan: IntentPlan, db: Db, id: Id, step: Step, m: nat)
    requires Consistent(db) && id in db.missions && IsCommand(step, id, ExecuteKind)
    requires Handles(config, db.missions[id].intent, plan) && plan.steps != []
    requires m <= 2 * |plan.steps| && AfterExecutes(db.missions[id], |plan.steps|, m)
    ensures var db' := Exec(db, StepWrites(config, db, step));
      && (Succeeds(config, db, step) <==> Admitted(db, step))
      && Consistent(db') && id in db'.missions && db'.missions[id].intent == db.missions[id].intent
      && (if Succeeds(config, db, step) then AfterExecutes(db'.missions[id], |plan.steps|, m + 1)
          else db'.missions[id] == db.missions[id])
  {
    var mission := db.missions[id];
    HandlerExecutes(plan, mission, m, step.clock.stamped);
    assert HandlerSays(config, mission, step.command) == RunPlan(plan, mission);
    AppliedMission(config, db, step, id);
  }

  /** A call that advances nothing for the mission leaves it as it is. */
  lemma Unmoved(config: Config, db: Db, step: Step, id: Id)
    requires Consistent(db) && id in db.missions
    requires forall adv :: adv in StepAdvances(config, db, step) ==> adv.next.id != id
    ensures var db' := Exec(db, StepWrites(config, db, step));
      Consistent(db') && id in db'.missions && db'.missions[id] == db.missions[id]
  {
    ExecConsistent(db, StepWrites(config, db, step));
    var at := TurnEffect(config, db, Turn(step, None), id);
    assert ViewOf(Exec(db, StepWrites(config, db, step)), id).mission.Some?;
  }

  /** Calls that are not commands on the mission leave a staged one alone. */
  lemma OthersLeaveStages(config: Config, db: Db, id: Id, step: Step)
    requires Consistent(db) && id in db.missions && db.missions[id].status in STAGES + {AwaitingApproval}
    requires LeavesStages(step, id) && (Concerns(step, id) ==> step.command.kind.CreateKind?)
    ensures forall adv :: adv in StepAdvances(config, db, step) ==> adv.next.id != id
  {
    StepAdvancesFacts(config, db, step);
  }

  /** Other commands on the mission than executes fail before the approval is awaited. */
  lemma OnlyExecutesSucceed(config: Config, db: Db, id: Id, step: Step)
    requires Consistent(db) && id in db.missions && db.missions[id].status in STAGES && Concerns(step, id)
    requires !step.command.kind.ExecuteKind? && !step.command.kind.CreateKind?
    ensures !Succeeds(config, db, step)
    ensures var db' := Exec(db, StepWrites(config, db, step));
      Consistent(db') && id in db'.missions && db'.missions[id] == db.missions[id]
  {
    NoOtherTarget(config, db.missions[id], step.command);
    AppliedMission(config, db, step, id);
  }

  lemma NoOtherTarget(config: Config, mission: Snapshot, command: Command)
    requires mission.status in STAGES && !command.kind.ExecuteKind?
    ensures ResolveTarget(config, mission, command).Err?
  {
  }

  /** One more call on the way to the approval or at it: only a successful execute moves the mission. */
  lemma OneMoreCall(config: Config, plan: IntentPlan, db: Db, id: Id, intent: Intent, step: Step, m: nat)
    requires Handles(config, intent, plan) && plan.steps != [] && m <= 2 * |plan.steps| + 1
    requires StagedMission(db, id, intent, |plan.steps|, m) && LeavesStages(step, id)
    requires Concerns(step, id) && Succeeds(config, db, step) ==> m <= 2 * |plan.steps|
    ensures StagedMission(Exec(db, StepWrites(config, db, step)), id, intent, |plan.steps|,
                          if Concerns(step, id) && Succeeds(config, db, step) then m + 1 else m)
  {
    if !Concerns(step, id) || step.command.kind.CreateKind? {
      OthersLeaveStages(config, db, id, step);
      Unmoved(config, db, step, id);
    } else if m > 2 * |plan.steps| {
      AppliedMission(config, db, step, id);
    } else if step.command.kind.ExecuteKind? {
      ExecuteOnce(config, plan, db, id, step, m);
    } else {
      OnlyExecutesSucceed(config, db, id, step);
    }
  }

  /**
   Whatever calls are interleaved, on this mission and on others, whatever versions, keys and tokens
   they carry and however many of them fail: exactly `2n + 1` successful commands take a fresh mission
   of an `n`-step plan to AWAITING_APPROVAL.
   */
  lemma ExecutesReachApproval(config: Config, plan: IntentPlan, db: Db, id: Id, steps: seq<Step>)
    requires Consistent(db) && id in db.missions && AfterExecutes(db.missions[id], |plan.steps|, 0)
    requires Handles(config, db.missions[id].intent, plan) && plan.steps != []
    requires forall i :: 0 <= i < |steps| ==> LeavesStages(steps[i], id)
    requires Successes(config, db, id, steps) <= 2 * |plan.steps| + 1
    ensures var db', m := Drive(config, db, steps), Successes(config, db, id, steps);
      && Consistent(db') && id in db'.missions && db'.missions[id].intent == db.missions[id].intent
      && AfterExecutes(db'.missions[id], |plan.steps|, m)
      && (db'.missions[id].status == AwaitingApproval <==> m == 2 * |plan.steps| + 1)
  {
    DriveStages(config, plan, db, id, db.missions[id].intent, steps);
    ApprovalOnlyAtTheEnd(Drive(config, db, steps).missions[id], |plan.steps|, Successes(config, db, id, steps));
  }

  lemma {:induction false} DriveStages(config: Config, plan: IntentPlan, db: Db, id: Id, intent: Intent,
                                       steps: seq<Step>)
    requires StagedMission(db, id, intent, |plan.steps|, 0) && Handles(config, intent, plan) && plan.steps != []
    requires forall i :: 0 <= i < |steps| ==> LeavesStages(steps[i], id)
    requires Successes(config, db, id, steps) <= 2 * |plan.steps| + 1
    ensures StagedMission(Drive(config, db, steps), id, intent, |plan.steps|, Successes(config, db, id, steps))
  {
    if steps != [] {
      var front, last := steps[..|steps| - 1], steps[|steps| - 1];
      DriveStages(config, plan, db, id, intent, front);
      OneMoreCall(config, plan, Drive(config, db, front), id, intent, last, Successes(config, db, id, front));
    }
  }

  // ---------------------------------------- the version tells the stage, in runs

  /** Up to the approval, a state change that is not a sweep of a stage is the next execute. */
  lemma CausedIsNextStage(plans: map<Intent, IntentPlan>, hash: Command -> string, mission: Snapshot, step: Step,
                          adv: Advance)
    requires HasPlan(plans, mission) && Caused(AgentConfig(plans, hash), mission, step, adv)
    requires var n := |plans[mission.intent].steps|;
      1 <= mission.version <= 2 * n + 1 && AfterExecutes(mission, n, mission.version - 1)
    requires step.RecoverStep? ==> step.statuses !! STAGES
    ensures AfterExecutes(adv.next, |plans[mission.intent].steps|, mission.version)
  {
    var config, plan := AgentConfig(plans, hash), plans[mission.intent];
    OnlyExecutesMoveStages(config, mission, step, adv);
    HandlerExecutes(plan, mission, mission.version - 1, step.clock.stamped);
    assert HandlerSays(config, mission, step.command) == RunPlan(plan, mission);
  }

  lemma OnlyExecutesMoveStages(config: Config, mission: Snapshot, step: Step, adv: Advance)
    requires Caused(config, mission, step, adv) && mission.status in STAGES
    requires step.RecoverStep? ==> step.statuses !! STAGES
    ensures step.ApplyStep? && step.command.kind.ExecuteKind?
  {
  }

  /** The version of a mission that has not gone past its approval tells its stage. */
  ghost predicate VersionIsStage(plans: map<Intent, IntentPlan>, view: View) {
    view.mission.Some? && HasPlan(plans, view.mission.value) ==>
      var mission, n := view.mission.value, |plans[view.mission.value.intent].steps|;
      mission.version >= 1 && (mission.version <= 2 * n + 2 ==> AfterExecutes(mission, n, mission.version - 1))
  }

  /**
   In every run, crashed as it may be and with any other calls interleaved, whose sweeps name no stage:
   a mission at a version up to `2n + 2` has executed once per version, and is where that many executes lead.
   */
  lemma {:induction false} VersionTellsStage(plans: map<Intent, IntentPlan>, hash: Command -> string,
                                             turns: seq<Turn>, id: Id)
    requires Feasible(AgentConfig(plans, hash), turns) && SweepsAvoid(turns, STAGES)
    ensures VersionIsStage(plans, ViewOf(Run(AgentConfig(plans, hash), turns).db, id))
  {
    if turns != [] {
      assert turns[|turns| - 1] in turns;
      assert forall t :: t in turns[..|turns| - 1] ==> t in turns;
      VersionTellsStage(plans, hash, turns[..|turns| - 1], id);
      var world, step, at := LastTurn(AgentConfig(plans, hash), turns, id);
      var view := ViewOf(world.db, id);
      if at.Some? && view.mission.Some? {
        StageStep(plans, hash, view, step, at.value);
      }
    }
  }

  lemma StageStep(plans: map<Intent, IntentPlan>, hash: Command -> string, view: View, step: Step, adv: Advance)
    requires VersionIsStage(plans, view) && view.mission.Some?
    requires Caused(AgentConfig(plans, hash), view.mission.value, step, adv)
    requires step.RecoverStep? ==> step.statuses !! STAGES
    ensures VersionIsStage(plans, Stored(view, adv)) && VersionIsStage(plans, StoredAndLogged(view, adv))
  {
    var mission := view.mission.value;
    CausedKeepsIdentity(AgentConfig(plans, hash), mission, step, adv);
    CausedAdvancesByOne(AgentConfig(plans, hash), mission, step, adv);
    if HasPlan(plans, mission) && mission.version <= 2 * |plans[mission.intent].steps| + 1 {
      CausedIsNextStage(plans, hash, mission, step, adv);
    }
  }

  /** A started mission is one to which `ExecutesReachApproval` applies. */
  lemma StartedIsFresh(create: CreateCommand, id: Id, now: Time, n: nat)
    ensures AfterExecutes(StartAdvance(create, id, now).next, n, 0)
  {
  }

  /** A call leaves the records of every other key as they were. */
  lemma OtherKeysUnchanged(config: Config, db: Db, step: Step, key: Key, now: Time)
    requires step.ApplyStep? && Monotone(step.clock) && step.ctx.idempotencyKey != Some(key)
    ensures Live(Exec(db, StepWrites(config, db, step)), key, now) <==> Live(db, key, now)
  {
    var writes := StepWrites(config, db, step);
    assert writes[..|writes|] == writes;
    if step.ctx.idempotencyKey.Some? {
      KeyedApplyDiscipline(config, db, step);
      DisciplinedRecords(db, writes, step.ctx.idempotencyKey.value, step.clock.marked, |writes|);
    } else {
      OtherStepsKeepRecords(config, db, step, |writes|);
    }
  }

  /** The `i`-th of a list of calls names, where it names anything, version `i + 1` and no stale fence token. */
  ghost predicate NamesVersion(step: Step, i: nat) {
    && step.ApplyStep? && Monotone(step.clock)
    && (ExpectedVersion(step).Some? ==> ExpectedVersion(step).value == i + 1)
    && (step.fence.Some? && step.ctx.fenceToken.Some? ==> step.ctx.fenceToken.value >= step.fence.value)
  }

  ghost predicate SharesNoKey(a: Step, b: Step) {
    a.ApplyStep? && b.ApplyStep? && a.ctx.idempotencyKey.Some? ==> a.ctx.idempotencyKey != b.ctx.idempotencyKey
  }

  ghost predicate HasFreshKey(db: Db, step: Step) {
    step.ApplyStep? && step.ctx.idempotencyKey.Some? ==> !Live(db, step.ctx.idempotencyKey.value, step.clock.lookup)
  }

  /** No key of the calls is live to begin with, and no two calls share one. */
  ghost predicate FreshKeys(db: Db, steps: seq<Step>) {
    && (forall i :: 0 <= i < |steps| ==> HasFreshKey(db, steps[i]))
    && (forall i, j :: 0 <= i < j < |steps| ==> SharesNoKey(steps[i], steps[j]))
  }

  /** The calls in front leave a key they do not use as it was. */
  lemma {:induction false} KeyStaysFresh(config: Config, db: Db, steps: seq<Step>, key: Key, now: Time)
    requires forall i :: 0 <= i < |steps| ==>
      steps[i].ApplyStep? && Monotone(steps[i].clock) && steps[i].ctx.idempotencyKey != Some(key)
    ensures Live(Drive(config, db, steps), key, now) <==> Live(db, key, now)
  {
    if steps != [] {
      var front, last := steps[..|steps| - 1], steps[|steps| - 1];
      KeyStaysFresh(config, db, front, key, now);
      OtherKeysUnchanged(config, Drive(config, db, front), last, key, now);
    }
  }

  /** Executes that each name the next version, under keys of their own or none, all succeed. */
  lemma {:induction false} VersionedExecutesSucceed(config: Config, plan: IntentPlan, db: Db, id: Id, steps: seq<Step>)
    requires Consistent(db) && id in db.missions && AfterExecutes(db.missions[id], |plan.steps|, 0)
    requires Handles(config, db.missions[id].intent, plan) && plan.steps != [] && |steps| <= 2 * |plan.steps| + 1
    requires forall i :: 0 <= i < |steps| ==> IsCommand(steps[i], id, ExecuteKind) && NamesVersion(steps[i], i)
    requires FreshKeys(db, steps)
    ensures Successes(config, db, id, steps) == |steps|
  {
    if steps != [] {
      var front, last := steps[..|steps| - 1], steps[|steps| - 1];
      assert forall i :: 0 <= i < |front| ==> front[i] == steps[i];
      VersionedExecutesSucceed(config, plan, db, id, front);
      DriveStages(config, plan, db, id, db.missions[id].intent, front);
      LastKeyIsFresh(config, db, steps);
      NextVersionSucceeds(config, plan, Drive(config, db, front), id, last, |front|);
    }
  }

  /** The calls in front have not used the last call's key. */
  lemma LastKeyIsFresh(config: Config, db: Db, steps: seq<Step>)
    requires steps != [] && FreshKeys(db, steps)
    requires forall i :: 0 <= i < |steps| ==> steps[i].ApplyStep? && Monotone(steps[i].clock)
    ensures HasFreshKey(Drive(config, db, steps[..|steps| - 1]), steps[|steps| - 1])
  {
    var front, last := steps[..|steps| - 1], steps[|steps| - 1];
    if last.ctx.idempotencyKey.Some? {
      assert HasFreshKey(db, last);
      forall i | 0 <= i < |front| ensures front[i].ctx.idempotencyKey != last.ctx.idempotencyKey {
        assert SharesNoKey(steps[i], steps[|steps| - 1]);
      }
      KeyStaysFresh(config, db, front, last.ctx.idempotencyKey.value, last.clock.lookup);
    }
  }

  lemma NextVersionSucceeds(config: Config, plan: IntentPlan, db: Db, id: Id, step: Step, m: nat)
    requires id in db.missions && StagedMission(db, id, db.missions[id].intent, |plan.steps|, m)
    requires Handles(config, db.missions[id].intent, plan) && plan.steps != [] && m <= 2 * |plan.steps|
    requires IsCommand(step, id, ExecuteKind) && NamesVersion(step, m) && HasFreshKey(db, step)
    ensures Succeeds(config, db, step)
  {
    ExecuteOnce(config, plan, db, id, step, m);
  }

  /** An approval of a staged mission succeeds exactly when it is admitted, and keeps everything but its status. */
  lemma ApproveOnce(config: Config, db: Db, id: Id, step: Step, n: nat)
    requires Consistent(db) && id in db.missions && db.missions[id].status == AwaitingApproval
    requires PlanState(db.missions[id], n) && IsCommand(step, id, ApproveKind)
    ensures var mission, db' := db.missions[id], Exec(db, StepWrites(config, db, step));
      && (Succeeds(config, db, step) <==> Admitted(db, step))
      && Consistent(db') && id in db'.missions
      && db'.missions[id] == if Succeeds(config, db, step)
                             then NextSnapshot(mission, Approved, mission, step.clock.stamped) else mission
  {
    AppliedMission(config, db, step, id);
  }

  /** The last execute of an approved mission succeeds exactly when it is admitted, and completes it. */
  lemma ExecuteApproved(config: Config, plan: IntentPlan, db: Db, id: Id, execute: Step)
    requires Consistent(db) && id in db.missions && db.missions[id].status == Approved
             && PlanState(db.missions[id], |plan.steps|)
    requires Handles(config, db.missions[id].intent, plan) && plan.steps != [] && IsCommand(execute, id, ExecuteKind)
    ensures var n, db' := |plan.steps|, Exec(db, StepWrites(config, db, execute));
      && (Succeeds(config, db, execute) <==> Admitted(db, execute)) && id in db'.missions
      && (Succeeds(config, db, execute) ==>
            && db'.missions[id].status == Completed && db'.missions[id].version == db.missions[id].version + 1
            && db'.missions[id].progress == n && Shaped(db'.missions[id].steps, n, n, true))
  {
    var approved := db.missions[id];
    HandlerKeepsPlanState(plan, approved);
    FinishKeepsCompleted(approved.steps, approved.updatedAt);
    assert HandlerSays(config, approved, execute.command) == RunPlan(plan, approved);
    AppliedMission(config, db, execute, id);
  }

  /**
   From there an approval and one more execute complete the mission, at version `2n + 4`: both succeed
   exactly when each is admitted where it is made.
   */
  lemma ApprovalThenExecuteCompletes(config: Config, plan: IntentPlan, db: Db, id: Id, approve: Step, execute: Step)
    requires Consistent(db) && id in db.missions && AfterExecutes(db.missions[id], |plan.steps|, 2 * |plan.steps| + 1)
    requires Handles(config, db.missions[id].intent, plan) && plan.steps != []
    requires IsCommand(approve, id, ApproveKind) && IsCommand(execute, id, ExecuteKind)
    ensures var n, db1 := |plan.steps|, Exec(db, StepWrites(config, db, approve));
      var db2 := Exec(db1, StepWrites(config, db1, execute));
      && (Succeeds(config, db, approve) <==> Admitted(db, approve)) && id in db1.missions
      && (Succeeds(config, db, approve) ==> (Succeeds(config, db1, execute) <==> Admitted(db1, execute)))
      && (Succeeds(config, db, approve) && Succeeds(config, db1, execute) ==>
            && id in db2.missions && db2.missions[id].status == Completed && db2.missions[id].version == 2 * n + 4
            && db2.missions[id].progress == n && Shaped(db2.missions[id].steps, n, n, true))
  {
    ApproveOnce(config, db, id, approve, |plan.steps|);
    if Succeeds(config, db, approve) {
      ExecuteApproved(config, plan, Exec(db, StepWrites(config, db, approve)), id, execute);
    }
  }

  /** No crash and no sweep. */
  ghost predicate Quiet(turns: seq<Turn>) {
    CrashFree(turns) && forall t <- turns :: !t.step.RecoverStep?
  }

  /** A crash-free run without sweeps, at time 0, whose mission of an `n`-step plan has executed `m` times. */
  ghost predicate Staged(config: Config, turns: seq<Turn>, id: Id, intent: Intent, n: nat, m: nat) {
    && Feasible(config, turns) && Quiet(turns)
    && Run(config, turns).now == 0 && StagedMission(Run(config, turns).db, id, intent, n, m)
  }

  /** A command at time 0 that names the given version, with no key and no fence token. */
  function At(kind: CommandKind, id: Id, version: int): Step {
    ApplyStep(Command(kind, id, Some(version), ""), Context(None, None, None), Clock(0, 0, 0, 0), None)
  }

  /** The stages are reachable: a start and `m` executes, one after the other. */
  lemma {:induction false} StagesAreReachable(config: Config, plan: IntentPlan, create: CreateCommand, id: Id, m: nat)
    returns (turns: seq<Turn>)
    requires Handles(config, create.intent, plan) && plan.steps != [] && m <= 2 * |plan.steps| + 1
    ensures Staged(config, turns, id, create.intent, |plan.steps|, m)
  {
    if m == 0 {
      turns := [Turn(StartStep(create, id, 0), None)];
      StageZero(config, create, id, |plan.steps|);
    } else {
      var front := StagesAreReachable(config, plan, create, id, m - 1);
      turns := front + [Turn(At(ExecuteKind, id, m), None)];
      StageOneMore(config, plan, front, id, create.intent, m - 1);
    }
  }

  lemma StageZero(config: Config, create: CreateCommand, id: Id, n: nat)
    ensures Staged(config, [Turn(StartStep(create, id, 0), None)], id, create.intent, n, 0)
  {
    StartedRun(config, create, id);
    RunConsistent(config, [Turn(StartStep(create, id, 0), None)]);
    StartedIsFresh(create, id, 0, n);
  }

  lemma StageOneMore(config: Config, plan: IntentPlan, turns: seq<Turn>, id: Id, intent: Intent, m: nat)
    requires Handles(config, intent, plan) && plan.steps != [] && m <= 2 * |plan.steps|
    requires Staged(config, turns, id, intent, |plan.steps|, m)
    ensures Staged(config, turns + [Turn(At(ExecuteKind, id, m + 1), None)], id, intent, |plan.steps|, m + 1)
  {
    QuietTurn(config, turns, At(ExecuteKind, id, m + 1));
    ExecuteStage(config, plan, Run(config, turns).db, id, intent, m);
  }

  /** One more call at time 0, run to its end. */
  lemma QuietTurn(config: Config, turns: seq<Turn>, step: Step)
    requires Feasible(config, turns) && Quiet(turns) && Run(config, turns).now == 0
    requires step.ApplyStep? && step.clock == Clock(0, 0, 0, 0)
    ensures var longer, db := turns + [Turn(step, None)], Run(config, turns).db;
      && Feasible(config, longer) && Quiet(longer) && Run(config, longer).now == 0
      && Run(config, longer).db == Exec(db, StepWrites(config, db, step))
  {
    assert (turns + [Turn(step, None)])[..|turns|] == turns;
  }

  lemma ExecuteStage(config: Config, plan: IntentPlan, db: Db, id: Id, intent: Intent, m: nat)
    requires Handles(config, intent, plan) && plan.steps != [] && m <= 2 * |plan.steps|
    requires StagedMission(db, id, intent, |plan.steps|, m)
    ensures StagedMission(Exec(db, StepWrites(config, db, At(ExecuteKind, id, m + 1))), id, intent, |plan.steps|, m + 1)
  {
    ExecuteOnce(config, plan, db, id, At(ExecuteKind, id, m + 1), m);
  }

  lemma AgentHandles(plans: map<Intent, IntentPlan>, hash: Command -> string, intent: Intent)
    requires intent in plans
    ensures Handles(AgentConfig(plans, hash), intent, plans[intent])
  {
  }

  lemma StartedRun(config: Config, create: CreateCommand, id: Id)
    ensures var turns := [Turn(StartStep(create, id, 0), None)];
      && Feasible(config, turns) && Run(config, turns).now == 0
      && id in Run(config, turns).db.missions && Run(config, turns).db.missions[id] == StartAdvance(create, id, 0).next
  {
    var step, adv := StartStep(create, id, 0), StartAdvance(create, id, 0);
    var turns := [Turn(step, None)];
    assert turns[..0] == [] && Run(config, turns[..0]) == GENESIS && Feasible(config, turns[..0]);
    AdvanceHappens(config, EMPTY_DB, step, adv);
    assert ViewOf(Exec(EMPTY_DB, StepWrites(config, EMPTY_DB, step)), id).mission == Some(adv.next);
  }

  // ------------------------------------------------- completion provenance

  lemma ShippedCompletions(plans: map<Intent, IntentPlan>, hash: Command -> string, mission: Snapshot, step: Step,
                           adv: Advance)
    requires Caused(AgentConfig(plans, hash), mission, step, adv)
    ensures adv.next.status == Approved ==>
      mission.status == AwaitingApproval && IsCommand(step, mission.id, ApproveKind) && adv.eventType == ApprovalDecided
    ensures adv.next.status == Completed ==>
      || (mission.status == Approved && IsCommand(step, mission.id, ExecuteKind))
      || (mission.status == Unknown && IsCommand(step, mission.id, ReconcileKind(Completed))
          && adv.eventType == Reconciled)
  {
    var config := AgentConfig(plans, hash);
    if step.ApplyStep? && step.command.kind.ExecuteKind? {
      assert mission.intent in plans ==>
             HandlerSays(config, mission, step.command) == RunPlan(plans[mission.intent], mission);
    }
  }

  ghost predicate StoredAs(db: Db, id: Id, status: Status) {
    id in db.missions && db.missions[id].status == status
  }

  /**
   With the shipped handlers, in every run, crashed and swept as it may be: a turn makes a stored
   mission COMPLETED only by an execute on an APPROVED one, or by a reconcile command to COMPLETED on an
   UNKNOWN one; and it makes it APPROVED only by an approve command on one that awaits approval.
   */
  lemma CompletionProvenance(plans: map<Intent, IntentPlan>, hash: Command -> string, turns: seq<Turn>, id: Id)
    requires turns != [] && Feasible(AgentConfig(plans, hash), turns)
    ensures var before, after := Run(AgentConfig(plans, hash), turns[..|turns| - 1]).db,
            Run(AgentConfig(plans, hash), turns).db;
      var step := turns[|turns| - 1].step;
      && (StoredAs(after, id, Completed) && !StoredAs(before, id, Completed) ==>
            || (StoredAs(before, id, Approved) && IsCommand(step, id, ExecuteKind))
            || (StoredAs(before, id, Unknown) && IsCommand(step, id, ReconcileKind(Completed))))
      && (StoredAs(after, id, Approved) && !StoredAs(before, id, Approved) ==>
            StoredAs(before, id, AwaitingApproval) && IsCommand(step, id, ApproveKind))
  {
    var config, front := AgentConfig(plans, hash), turns[..|turns| - 1];
    var world, step, at := LastTurn(config, turns, id);
    RunConsistent(config, front);
    var view, view' := ViewOf(world.db, id), ViewOf(Run(config, turns).db, id);
    assert id in world.db.missions <==> view.mission.Some?;
    assert id in Run(config, turns).db.missions <==> view'.mission.Some?;
    if at.Some? && view.mission.Some? {
      ShippedCompletions(plans, hash, view.mission.value, step, at.value);
    }
  }

  /**
   Event `i` directly follows its decision: the logged approval, or the UNKNOWN that it reconciles, with
   no sequence number between them.
   */
  ghost predicate Decided(log: seq<Event>, i: nat)
    requires i < |log|
  {
    && i > 0 && NoGapBefore(log, i)
    && ((log[i - 1].snapshot.status == Approved && log[i - 1].eventType == ApprovalDecided)
        || (log[i - 1].snapshot.status == Unknown && log[i].eventType == Reconciled))
  }

  ghost predicate ApprovalsAreDecisions(log: seq<Event>) {
    forall i :: 0 <= i < |log| && log[i].snapshot.status == Approved ==> log[i].eventType == ApprovalDecided
  }

  lemma {:induction false} LoggedApprovalsAreDecisions(plans: map<Intent, IntentPlan>, hash: Command -> string,
                                                       turns: seq<Turn>, id: Id)
    requires Feasible(AgentConfig(plans, hash), turns)
    ensures ApprovalsAreDecisions(ViewOf(Run(AgentConfig(plans, hash), turns).db, id).log)
  {
    if turns != [] {
      LoggedApprovalsAreDecisions(plans, hash, turns[..|turns| - 1], id);
      var world, step, at := LastTurn(AgentConfig(plans, hash), turns, id);
      var view := ViewOf(world.db, id);
      if at.Some? {
        if view.mission.Some? { ShippedCompletions(plans, hash, view.mission.value, step, at.value); }
        ApprovalsStep(view, at.value);
      }
    }
  }

  lemma ApprovalsStep(view: View, adv: Advance)
    requires ApprovalsAreDecisions(view.log) && (adv.next.status == Approved ==> adv.eventType == ApprovalDecided)
    ensures ApprovalsAreDecisions(StoredAndLogged(view, adv).log)
  {
  }

  lemma CausedCompletionIsDecided(plans: map<Intent, IntentPlan>, hash: Command -> string, log: seq<Event>, i: nat)
    requires 0 < i < |log| && NoGapBefore(log, i) && log[i].snapshot.status == Completed
    requires Causes(AgentConfig(plans, hash), log[i - 1], log[i]) && ApprovalsAreDecisions(log)
    ensures Decided(log, i)
  {
    var adv := Advance(log[i].snapshot, log[i].eventType);
    var step :| Caused(AgentConfig(plans, hash), log[i - 1].snapshot, step, adv);
    ShippedCompletions(plans, hash, log[i - 1].snapshot, step, adv);
  }

  /**
   In every run, crashed and swept as it may be: a logged completion directly follows its logged decision
   exactly when no sequence number is missing before it.
   */
  lemma CompletionsDecidedExactly(plans: map<Intent, IntentPlan>, hash: Command -> string, turns: seq<Turn>, id: Id,
                                  log: seq<Event>)
    requires Feasible(AgentConfig(plans, hash), turns) && log == Log(Run(AgentConfig(plans, hash), turns).db, id)
    ensures DecidedUnlessGap(log)
  {
    GaplessEventsAreCaused(AgentConfig(plans, hash), turns, id);
    LoggedApprovalsAreDecisions(plans, hash, turns, id);
    CausalCompletions(plans, hash, log);
  }

  /** A logged completion directly follows its decision exactly when no sequence number is missing before it. */
  ghost predicate DecidedUnlessGap(log: seq<Event>) {
    forall i :: 0 <= i < |log| && log[i].snapshot.status == Completed ==>
      (Decided(log, i) <==> i > 0 && NoGapBefore(log, i))
  }

  lemma CausalCompletions(plans: map<Intent, IntentPlan>, hash: Command -> string, log: seq<Event>)
    requires CausalLog(AgentConfig(plans, hash), log) && ApprovalsAreDecisions(log)
    ensures DecidedUnlessGap(log)
  {
    forall i | 0 <= i < |log| && log[i].snapshot.status == Completed
      ensures Decided(log, i) <==> i > 0 && NoGapBefore(log, i)
    {
      if i > 0 && NoGapBefore(log, i) { CausedCompletionIsDecided(plans, hash, log, i); }
    }
  }

  /** The last event directly follows its decision. */
  ghost predicate EndsDecided(log: seq<Event>) {
    log != [] && Decided(log, |log| - 1)
  }

  lemma LastCompletion(log: seq<Event>)
    requires DecidedUnlessGap(log) && log != [] && log[|log| - 1].snapshot.status == Completed
    ensures EndsDecided(log) <==> EndsWithoutGap(log)
  {
  }

  /** A turn has logged a completion of the mission. */
  ghost predicate LogsCompletion(view: View, view': View) {
    |view'.log| > |view.log| && view'.log[|view'.log| - 1].snapshot.status == Completed
  }

  lemma GapExactly(view: View, adv: Advance)
    requires view.mission.Some? && adv.next.lastEventSequence == view.mission.value.lastEventSequence + 1
    ensures EndsWithoutGap(StoredAndLogged(view, adv).log) <==> CaughtUp(view)
  {
  }

  ghost predicate EndsWithoutGap(log: seq<Event>) {
    |log| > 1 && NoGapBefore(log, |log| - 1)
  }

  /** The mission before and after the last turn of a run. */
  ghost predicate LastViews(config: Config, turns: seq<Turn>, id: Id, view: View, view': View) {
    && turns != [] && Feasible(config, turns)
    && view == ViewOf(Run(config, turns[..|turns| - 1]).db, id) && view' == ViewOf(Run(config, turns).db, id)
  }

  ghost predicate FollowsStore(view: View, view': View) {
    view'.log != [] && (EndsWithoutGap(view'.log) <==> CaughtUp(view))
  }

  lemma CompletionFollowsStore(config: Config, turns: seq<Turn>, id: Id, view: View, view': View)
    requires LastViews(config, turns, id, view, view') && LogsCompletion(view, view')
    ensures FollowsStore(view, view')
  {
    var world, step, at := LastTurn(config, turns, id);
    if at.Some? && view.mission.Some? {
      CausedAdvancesByOne(config, view.mission.value, step, at.value);
      GapExactly(view, at.value);
    }
  }

  lemma DecidedIfCaughtUp(view: View, view': View)
    requires LogsCompletion(view, view') && FollowsStore(view, view') && DecidedUnlessGap(view'.log)
    ensures EndsDecided(view'.log) <==> CaughtUp(view)
  {
    LastCompletion(view'.log);
  }

  /**
   In every run, the call that logs a completion logs it directly after its decision exactly when the log
   had caught up with the store before the call.
   */
  lemma CompletionIsDecidedExactly(plans: map<Intent, IntentPlan>, hash: Command -> string, turns: seq<Turn>, id: Id,
                                   view: View, view': View)
    requires LastViews(AgentConfig(plans, hash), turns, id, view, view') && LogsCompletion(view, view')
    ensures EndsDecided(view'.log) <==> CaughtUp(view)
  {
    CompletionsDecidedExactly(plans, hash, turns, id, view'.log);
    CompletionFollowsStore(AgentConfig(plans, hash), turns, id, view, view');
    DecidedIfCaughtUp(view, view');
  }

  ghost predicate CompletionsAreDecided(log: seq<Event>) {
    forall i :: 0 <= i < |log| && log[i].snapshot.status == Completed ==> Decided(log, i)
  }

  lemma CompletionsStep(view: View, id: Id, adv: Advance)
    requires CompletionsAreDecided(view.log) && LogMirrors(view, id) && view.mission.Some?
    requires adv.next.lastEventSequence == view.mission.value.lastEventSequence + 1
    requires ApprovalsAreDecisions(view.log)
    requires adv.next.status == Completed ==>
      view.mission.value.status == Approved || (view.mission.value.status == Unknown && adv.eventType == Reconciled)
    ensures CompletionsAreDecided(StoredAndLogged(view, adv).log)
  {
    var log, log' := view.log, StoredAndLogged(view, adv).log;
    assert log[|log| - 1].snapshot == view.mission.value;
    forall i | 0 <= i < |log'| && log'[i].snapshot.status == Completed ensures Decided(log', i) {
      if i < |log| { assert log'[i] == log[i] && Decided(log, i); }
    }
  }

  /** Without crashes, and whatever restarts sweep, the log shows the decision directly before each completion. */
  lemma {:induction false} CompletionsAreLogged(plans: map<Intent, IntentPlan>, hash: Command -> string,
                                                turns: seq<Turn>, id: Id)
    requires Feasible(AgentConfig(plans, hash), turns) && CrashFree(turns)
    ensures CompletionsAreDecided(ViewOf(Run(AgentConfig(plans, hash), turns).db, id).log)
  {
    if turns != [] {
      var config, front := AgentConfig(plans, hash), turns[..|turns| - 1];
      assert turns[|turns| - 1] in turns;
      assert forall t :: t in front ==> t in turns;
      CompletionsAreLogged(plans, hash, front, id);
      LogMirrorsStore(config, front, id);
      LoggedApprovalsAreDecisions(plans, hash, front, id);
      var world, step, at := LastTurn(config, turns, id);
      var view := ViewOf(world.db, id);
      if at.Some? && view.mission.Some? {
        ShippedCompletions(plans, hash, view.mission.value, step, at.value);
        CausedAdvancesByOne(config, view.mission.value, step, at.value);
        CompletionsStep(view, id, at.value);
      }
    }
  }

  /** Approving and crashing between save and append stores the approval without logging it. */
  lemma ApprovalIsCut(config: Config, turns: seq<Turn>, id: Id, n: nat) returns (cut: seq<Turn>)
    requires Feasible(config, turns) && Run(config, turns).now == 0 && id in Run(config, turns).db.missions
    requires Run(config, turns).db.missions[id].status == AwaitingApproval
             && PlanState(Run(config, turns).db.missions[id], n)
    ensures cut == turns + [Turn(At(ApproveKind, id, Run(config, turns).db.missions[id].version), Some(1))]
    ensures Feasible(config, cut) && Run(config, cut).now == 0 && id in Run(config, cut).db.missions
    ensures var mission := Run(config, turns).db.missions[id];
      Run(config, cut).db.missions[id] == NextSnapshot(mission, Approved, mission, 0)
    ensures Log(Run(config, cut).db, id) == Log(Run(config, turns).db, id)
  {
    var db := Run(config, turns).db;
    var step := At(ApproveKind, id, db.missions[id].version);
    cut := turns + [Turn(step, Some(1))];
    assert cut[..|turns|] == turns;
    RunConsistent(config, turns);
    ApprovalIsSavedFirst(config, db, id, n);
  }

  /** The first write of an approval without a key is its save. */
  lemma ApprovalIsSavedFirst(config: Config, db: Db, id: Id, n: nat)
    requires Consistent(db) && id in db.missions
    requires db.missions[id].status == AwaitingApproval && PlanState(db.missions[id], n)
    ensures var mission := db.missions[id];
      var db' := Exec(db, Done(config, db, Turn(At(ApproveKind, id, mission.version), Some(1))));
      && id in db'.missions && db'.missions[id] == NextSnapshot(mission, Approved, mission, 0)
      && Log(db', id) == Log(db, id)
  {
    var step := At(ApproveKind, id, db.missions[id].version);
    var adv := Advance(NextSnapshot(db.missions[id], Approved, db.missions[id], 0), ApprovalDecided);
    OutcomeOfApply(config, db, step);
    UnkeyedWrites(config, db, step);
    OneAdvance(adv);
    assert StepWrites(config, db, step) == AdvanceWrites(adv);
    assert AdvanceWrites(adv)[..1] == [SaveSnapshot(adv.next)];
    ExecOne(db, SaveSnapshot(adv.next));
  }

  /** The execute that follows logs the completion. */
  lemma CompletionIsLogged(config: Config, plan: IntentPlan, turns: seq<Turn>, id: Id) returns (completed: seq<Turn>)
    requires Feasible(config, turns) && Run(config, turns).now == 0 && id in Run(config, turns).db.missions
    requires Run(config, turns).db.missions[id].status == Approved
             && PlanState(Run(config, turns).db.missions[id], |plan.steps|)
    requires Handles(config, Run(config, turns).db.missions[id].intent, plan) && plan.steps != []
    ensures completed == turns + [Turn(At(ExecuteKind, id, Run(config, turns).db.missions[id].version), None)]
    ensures Feasible(config, completed)
    ensures var log, log' := Log(Run(config, turns).db, id), Log(Run(config, completed).db, id);
      |log'| == |log| + 1 && log'[..|log|] == log && log'[|log|].snapshot.status == Completed
  {
    var db := Run(config, turns).db;
    var step := At(ExecuteKind, id, db.missions[id].version);
    completed := turns + [Turn(step, None)];
    assert completed[..|turns|] == turns;
    RunConsistent(config, turns);
    assert HandlerSays(config, db.missions[id], step.command) == RunPlan(plan, db.missions[id]);
    HandlerKeepsPlanState(plan, db.missions[id]);
    OutcomeOfApply(config, db, step);
    var target := ResolveTarget(config, db.missions[id], step.command).value;
    AdvanceHappens(config, db, step,
                   Advance(NextSnapshot(db.missions[id], target.status, target.base, 0), target.eventType));
  }

  lemma StoreIsLogged(config: Config, turns: seq<Turn>, id: Id)
    requires Feasible(config, turns) && CrashFree(turns) && id in Run(config, turns).db.missions
    ensures var db := Run(config, turns).db; var log := Log(db, id);
      log != [] && log[|log| - 1].snapshot == db.missions[id]
  {
    LogMirrorsStore(config, turns, id);
  }

  /** The log ends with COMPLETED directly after AWAITING_APPROVAL. */
  ghost predicate HidesApproval(log: seq<Event>) {
    |log| > 1 && log[|log| - 2].snapshot.status == AwaitingApproval && log[|log| - 1].snapshot.status == Completed
  }

  lemma HiddenIsUndecided(log: seq<Event>)
    requires HidesApproval(log)
    ensures !CompletionsAreDecided(log)
  {
    assert log[|log| - 1].snapshot.status == Completed;
  }

  /**
   A crash can hide the approval from the log: for every plan there is a run in which an approve is cut
   after its save and the next execute logs COMPLETED directly after AWAITING_APPROVAL.
   */
  lemma CrashHidesApproval(plans: map<Intent, IntentPlan>, hash: Command -> string, create: CreateCommand, id: Id)
    returns (turns: seq<Turn>)
    requires create.intent in plans && plans[create.intent].steps != []
    ensures Feasible(AgentConfig(plans, hash), turns)
    ensures var log := Log(Run(AgentConfig(plans, hash), turns).db, id);
            HidesApproval(log) && !CompletionsAreDecided(log)
  {
    AgentHandles(plans, hash, create.intent);
    turns := HiddenApproval(AgentConfig(plans, hash), plans[create.intent], create, id);
  }

  lemma HiddenApproval(config: Config, plan: IntentPlan, create: CreateCommand, id: Id) returns (turns: seq<Turn>)
    requires Handles(config, create.intent, plan) && plan.steps != []
    ensures Feasible(config, turns)
    ensures var log := Log(Run(config, turns).db, id); HidesApproval(log) && !CompletionsAreDecided(log)
  {
    var n := |plan.steps|;
    var staged := StagesAreReachable(config, plan, create, id, 2 * n + 1);
    StoreIsLogged(config, staged, id);
    ApprovalOnlyAtTheEnd(Run(config, staged).db.missions[id], n, 2 * n + 1);
    var cut := ApprovalIsCut(config, staged, id, n);
    turns := CompletionIsLogged(config, plan, cut, id);
    HiddenIsUndecided(Log(Run(config, turns).db, id));
  }
}
