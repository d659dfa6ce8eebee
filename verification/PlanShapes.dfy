/**
 The shape of a staged plan in every reachable state, whatever crashes and whatever restarts sweep, and
 what a mission says about its plan.
 */
module PlanShapes {
  import opened Wrappers
  import opened MissionStatus
  import opened MissionTypes
  import opened MissionProtocol
  import opened MissionRuns
  import opened MissionInvariants
  import opened RestartSweeps
  import opened PlanHandlers

  const APPROVAL_STATES: set<Status> := {AwaitingApproval, Approved, Rejected}

  /** The states in which an execute has nothing to propose. */
  const SETTLED: set<Status> := {AwaitingApproval, Completed, Failed, Rejected}

  /** The registry has a plan with at least one step for the mission's intent. */
  ghost predicate HasPlan(plans: map<Intent, IntentPlan>, mission: Snapshot) {
    mission.intent in plans && plans[mission.intent].steps != []
  }

  // ------------------------------------------------- the shape, in every run

  /**
   No steps or all `n`: the first `progress` completed, then one in progress or pending, then pending
   ones; and in the approval states all of them completed.
   */
  ghost predicate PlanShape(mission: Snapshot, n: nat) {
    && InShape(mission.steps, mission.progress)
    && (mission.steps == [] || |mission.steps| == n)
    && (mission.status == Draft ==> mission.steps == [])
    && (mission.status in APPROVAL_STATES ==> mission.progress == n)
  }

  lemma HandlerKeepsShape(plan: IntentPlan, mission: Snapshot)
    requires PlanShape(mission, |plan.steps|) && mission.status !in SETTLED
    ensures var r := RunPlan(plan, mission);
      && r.Proposed? && PlanShape(r.next, |plan.steps|) && r.next.progress >= mission.progress
      && r.next.status != Draft
      && (r.next.steps == [] <==> if mission.status == Draft then plan.steps == [] else mission.steps == [])
  {
    var n, k := |plan.steps|, mission.progress;
    ShapeCounts(mission.steps, k);
    match mission.status
    case Queued =>
      ActivateShapes(mission.steps, k, mission.updatedAt);
      ShapeCounts(ActivateSteps(mission.steps, mission.updatedAt), k);
    case Running =>
      AdvanceShapes(mission.steps, k, mission.updatedAt);
      if k < |mission.steps| { ShapeCounts(AdvanceSteps(mission.steps, mission.updatedAt).0, k + 1); }
    case Approved => FinishKeepsCompleted(mission.steps, mission.updatedAt);
    case _ =>
  }

  /** The mission is past DRAFT without the steps of its plan. */
  ghost predicate Planless(mission: Snapshot) {
    mission.status != Draft && mission.steps == []
  }

  /** Every state change keeps the shape, loses no completed step, and neither stages nor loses a plan past DRAFT. */
  lemma CausedKeepsShape(plans: map<Intent, IntentPlan>, hash: Command -> string, mission: Snapshot, step: Step,
                         adv: Advance)
    requires mission.intent in plans && PlanShape(mission, |plans[mission.intent].steps|)
    requires Caused(AgentConfig(plans, hash), mission, step, adv)
    ensures PlanShape(adv.next, |plans[mission.intent].steps|) && adv.next.progress >= mission.progress
    ensures adv.next.intent == mission.intent && adv.next.status != Draft
    ensures mission.status != Draft ==> (Planless(adv.next) <==> Planless(mission))
    ensures mission.status == Draft && plans[mission.intent].steps != [] ==> (Planless(adv.next) <==> step.RecoverStep?)
  {
    var config := AgentConfig(plans, hash);
    if step.ApplyStep? && step.command.kind.ExecuteKind? {
      assert HandlerSays(config, mission, step.command) == RunPlan(plans[mission.intent], mission);
      if mission.status !in SETTLED { HandlerKeepsShape(plans[mission.intent], mission); }
    }
  }

  /**
   In every reachable state, crashed and swept as the run may be, the steps are in shape, and `progress`
   is the number of completed ones.
   */
  lemma PlanKeepsShape(plans: map<Intent, IntentPlan>, hash: Command -> string, turns: seq<Turn>, id: Id)
    requires Feasible(AgentConfig(plans, hash), turns)
    ensures var db := Run(AgentConfig(plans, hash), turns).db;
      id in db.missions && db.missions[id].intent in plans ==>
        PlanShape(db.missions[id], |plans[db.missions[id].intent].steps|)
        && CompletedSteps(db.missions[id].steps) == db.missions[id].progress
  {
    EveryShape(plans, hash, turns, id);
    var db := Run(AgentConfig(plans, hash), turns).db;
    if id in db.missions && db.missions[id].intent in plans {
      assert ViewOf(db, id).mission == Some(db.missions[id]);
      ShapeCounts(db.missions[id].steps, db.missions[id].progress);
    }
  }

  ghost predicate ViewInShape(plans: map<Intent, IntentPlan>, view: View) {
    view.mission.Some? && view.mission.value.intent in plans ==>
      PlanShape(view.mission.value, |plans[view.mission.value.intent].steps|)
  }

  lemma {:induction false} EveryShape(plans: map<Intent, IntentPlan>, hash: Command -> string, turns: seq<Turn>, id: Id)
    requires Feasible(AgentConfig(plans, hash), turns)
    ensures ViewInShape(plans, ViewOf(Run(AgentConfig(plans, hash), turns).db, id))
  {
    if turns != [] {
      EveryShape(plans, hash, turns[..|turns| - 1], id);
      var world, step, at := LastTurn(AgentConfig(plans, hash), turns, id);
      if at.Some? {
        if ViewOf(world.db, id).mission.Some? {
          ShapeStep(plans, hash, ViewOf(world.db, id), step, at.value);
        } else {
          StartsInShape(plans, step.create, id, step.now);
        }
      }
    }
  }

  lemma StartsInShape(plans: map<Intent, IntentPlan>, create: CreateCommand, id: Id, now: Time)
    ensures forall view: View :: view.mission == Some(StartAdvance(create, id, now).next) ==> ViewInShape(plans, view)
  {
  }

  lemma ShapeStep(plans: map<Intent, IntentPlan>, hash: Command -> string, view: View, step: Step, adv: Advance)
    requires ViewInShape(plans, view) && view.mission.Some?
    requires Caused(AgentConfig(plans, hash), view.mission.value, step, adv)
    ensures ViewInShape(plans, Stored(view, adv)) && ViewInShape(plans, StoredAndLogged(view, adv))
  {
    CausedKeepsIdentity(AgentConfig(plans, hash), view.mission.value, step, adv);
    if view.mission.value.intent in plans {
      CausedKeepsShape(plans, hash, view.mission.value, step, adv);
    }
  }

  /** No turn of any run, crashed or not, takes a completed step back. */
  lemma ProgressNeverDrops(plans: map<Intent, IntentPlan>, hash: Command -> string, turns: seq<Turn>, id: Id)
    requires turns != [] && Feasible(AgentConfig(plans, hash), turns)
    requires var db := Run(AgentConfig(plans, hash), turns[..|turns| - 1]).db;
      id in db.missions && db.missions[id].intent in plans
    ensures var before, after := Run(AgentConfig(plans, hash), turns[..|turns| - 1]).db,
            Run(AgentConfig(plans, hash), turns).db;
      && id in after.missions && after.missions[id].intent == before.missions[id].intent
      && CompletedSteps(before.missions[id].steps) == before.missions[id].progress
      && before.missions[id].progress <= after.missions[id].progress == CompletedSteps(after.missions[id].steps)
  {
    var config, front := AgentConfig(plans, hash), turns[..|turns| - 1];
    PlanKeepsShape(plans, hash, front, id);
    PlanKeepsShape(plans, hash, turns, id);
    var world, step, at := LastTurn(config, turns, id);
    var view, view' := ViewOf(world.db, id), ViewOf(Run(config, turns).db, id);
    if at.Some? {
      CausedKeepsShape(plans, hash, view.mission.value, step, at.value);
    }
    assert view'.mission.Some?;
  }

  // ---------------------------------------------------- missions without a plan

  /** A mission comes to be past DRAFT without its plan's steps exactly when a sweep moves it from DRAFT. */
  lemma PlanIsLostExactly(plans: map<Intent, IntentPlan>, hash: Command -> string, turns: seq<Turn>, id: Id)
    requires turns != [] && Feasible(AgentConfig(plans, hash), turns)
    requires var db := Run(AgentConfig(plans, hash), turns[..|turns| - 1]).db;
      && id in db.missions && HasPlan(plans, db.missions[id])
      && !Planless(db.missions[id])
    ensures var before, after := Run(AgentConfig(plans, hash), turns[..|turns| - 1]).db,
            Run(AgentConfig(plans, hash), turns).db;
      && id in after.missions
      && (Planless(after.missions[id]) <==>
            before.missions[id].status == Draft && turns[|turns| - 1].step.RecoverStep?
            && after.missions[id] != before.missions[id])
  {
    var config := AgentConfig(plans, hash);
    PlanKeepsShape(plans, hash, turns[..|turns| - 1], id);
    var world, step, at := LastTurn(config, turns, id);
    var view, view' := ViewOf(world.db, id), ViewOf(Run(config, turns).db, id);
    if at.Some? {
      CausedKeepsShape(plans, hash, view.mission.value, step, at.value);
    }
    assert view'.mission.Some?;
  }

  /** Such a mission never gets its steps back, so it never awaits, has or is refused an approval. */
  lemma {:induction false} LostPlanStaysLost(plans: map<Intent, IntentPlan>, hash: Command -> string,
                                             turns: seq<Turn>, i: nat, id: Id)
    requires Feasible(AgentConfig(plans, hash), turns) && i <= |turns|
    requires var db := Run(AgentConfig(plans, hash), turns[..i]).db;
      && id in db.missions && HasPlan(plans, db.missions[id])
      && Planless(db.missions[id])
    ensures var db, start := Run(AgentConfig(plans, hash), turns).db, Run(AgentConfig(plans, hash), turns[..i]).db;
      && id in db.missions && db.missions[id].intent == start.missions[id].intent
      && Planless(db.missions[id]) && db.missions[id].status !in APPROVAL_STATES
  {
    var config := AgentConfig(plans, hash);
    PlanKeepsShape(plans, hash, turns, id);
    if i == |turns| {
      assert turns[..i] == turns;
    } else {
      var front := turns[..|turns| - 1];
      assert front[..i] == turns[..i];
      LostPlanStaysLost(plans, hash, front, i, id);
      PlanlessAfterTurn(plans, hash, turns, id);
    }
  }

  lemma PlanlessAfterTurn(plans: map<Intent, IntentPlan>, hash: Command -> string, turns: seq<Turn>, id: Id)
    requires turns != [] && Feasible(AgentConfig(plans, hash), turns)
    requires var db := Run(AgentConfig(plans, hash), turns[..|turns| - 1]).db;
      && id in db.missions && db.missions[id].intent in plans && Planless(db.missions[id])
    ensures var db, before := Run(AgentConfig(plans, hash), turns).db,
            Run(AgentConfig(plans, hash), turns[..|turns| - 1]).db;
      && id in db.missions && db.missions[id].intent == before.missions[id].intent && Planless(db.missions[id])
  {
    var config := AgentConfig(plans, hash);
    PlanKeepsShape(plans, hash, turns[..|turns| - 1], id);
    var world, step, at := LastTurn(config, turns, id);
    var view, view' := ViewOf(world.db, id), ViewOf(Run(config, turns).db, id);
    if at.Some? {
      CausedKeepsShape(plans, hash, view.mission.value, step, at.value);
    }
    assert view'.mission.Some?;
  }

  // ------------------------------------------- exactly one step in progress

  /** The states of a mission whose plan has not been started. */
  const UNSTARTED: set<Status> := {Draft, Queued}

  /** In shape, and with exactly one step in progress from the start of the plan to its last step. */
  ghost predicate PlanState(mission: Snapshot, n: nat) {
    match mission.status
    case Draft => mission.steps == [] && mission.progress == 0
    case Queued => mission.progress == 0 && Shaped(mission.steps, n, 0, false)
    case AwaitingApproval | Approved | Rejected => mission.progress == n && Shaped(mission.steps, n, n, true)
    case Running | WaitingForEvidence | Unknown | Completed | Failed => Shaped(mission.steps, n, mission.progress, true)
    case Blocked | RevisionRequested | Recovering | BlockedByGate | Retrying => false
  }

  lemma HandlerKeepsPlanState(plan: IntentPlan, mission: Snapshot)
    requires plan.steps != [] && PlanState(mission, |plan.steps|) && mission.status !in SETTLED
    ensures var r := RunPlan(plan, mission);
      r.Proposed? && PlanState(r.next, |plan.steps|) && r.next.progress >= mission.progress
  {
    var k := mission.progress;
    HandlerKeepsShape(plan, mission);
    ShapeCounts(mission.steps, k);
    match mission.status
    case Queued =>
      ActivateShapes(mission.steps, k, mission.updatedAt);
      ShapeCounts(ActivateSteps(mission.steps, mission.updatedAt), k);
    case Running =>
      AdvanceShapes(mission.steps, k, mission.updatedAt);
      if k < |mission.steps| { ShapeCounts(AdvanceSteps(mission.steps, mission.updatedAt).0, k + 1); }
    case Approved => FinishKeepsCompleted(mission.steps, mission.updatedAt);
    case _ =>
  }

  lemma CausedKeepsPlanState(plans: map<Intent, IntentPlan>, hash: Command -> string, mission: Snapshot, step: Step,
                             adv: Advance)
    requires HasPlan(plans, mission)
    requires PlanState(mission, |plans[mission.intent].steps|)
    requires Caused(AgentConfig(plans, hash), mission, step, adv)
    requires step.RecoverStep? ==> step.statuses !! UNSTARTED
    ensures PlanState(adv.next, |plans[mission.intent].steps|) && adv.next.intent == mission.intent
  {
    var config := AgentConfig(plans, hash);
    if step.ApplyStep? && step.command.kind.ExecuteKind? {
      assert HandlerSays(config, mission, step.command) == RunPlan(plans[mission.intent], mission);
      if mission.status !in SETTLED {
        HandlerKeepsPlanState(plans[mission.intent], mission);
      }
    }
  }

  /** As long as no sweep names DRAFT or QUEUED, a started plan has exactly one step in progress until its last. */
  lemma {:induction false} OneStepInProgress(plans: map<Intent, IntentPlan>, hash: Command -> string, turns: seq<Turn>,
                                             id: Id)
    requires Feasible(AgentConfig(plans, hash), turns) && SweepsAvoid(turns, UNSTARTED)
    ensures var db := Run(AgentConfig(plans, hash), turns).db;
      id in db.missions && HasPlan(plans, db.missions[id]) ==>
        PlanState(db.missions[id], |plans[db.missions[id].intent].steps|)
  {
    if turns != [] {
      var config := AgentConfig(plans, hash);
      assert turns[|turns| - 1] in turns;
      assert forall t :: t in turns[..|turns| - 1] ==> t in turns;
      OneStepInProgress(plans, hash, turns[..|turns| - 1], id);
      var world, step, at := LastTurn(config, turns, id);
      var view, view' := ViewOf(world.db, id), ViewOf(Run(config, turns).db, id);
      if at.Some? && view.mission.Some? && HasPlan(plans, view.mission.value) {
        CausedKeepsPlanState(plans, hash, view.mission.value, step, at.value);
      }
      assert id in Run(config, turns).db.missions ==> view'.mission == Some(Run(config, turns).db.missions[id]);
    }
  }

  lemma UnknownKeepsOneInProgress(mission: Snapshot, n: nat, now: Time)
    requires PlanState(mission, n) && n > 0 && mission.status != Unknown
    ensures PlanState(NextSnapshot(mission, Unknown, mission, now), n) <==> mission.status !in UNSTARTED
  {
    if mission.status == Queued { assert mission.steps[0].status == StepPending; }
  }

  /**
   From such a state, an uncut sweep leaves exactly one step in progress if and only if it does not
   sweep the mission before its plan is started.
   */
  lemma SweepKeepsOneInProgressExactly(config: Config, db: Db, statuses: set<Status>, now: Time, id: Id, n: nat)
    requires Consistent(db) && id in db.missions && PlanState(db.missions[id], n) && n > 0
    ensures var after := ViewOf(Exec(db, StepWrites(config, db, RecoverStep(statuses, now))), id).mission;
      after.Some?
        && (PlanState(after.value, n) <==>
            (db.missions[id].status in statuses ==> db.missions[id].status !in UNSTARTED))
  {
    SweepView(config, db, statuses, now, id);
    if Swept(db, statuses, id) { UnknownKeepsOneInProgress(db.missions[id], n, now); }
  }

  // ---------------------------------------------------- what a plan's mission says

  /** The id of the first step that is not finished, or nothing. */
  function CurrentOf(steps: seq<MissionStep>): string {
    var active := FirstActiveIndex(steps);
    if active == -1 then "" else steps[active].id
  }

  ghost predicate Labelled(steps: seq<MissionStep>, plan: IntentPlan) {
    |steps| == |plan.steps| && forall i :: 0 <= i < |steps| ==>
      steps[i].id == StepId(i + 1) && steps[i].name == plan.steps[i]
  }

  /**
   The steps, where there are any, are the plan's, `currentStep` names the first unfinished one, and an
   approval is of the plan's proposal.
   */
  ghost predicate Tells(mission: Snapshot, plan: IntentPlan) {
    && (mission.steps != [] ==> Labelled(mission.steps, plan))
    && mission.currentStep == CurrentOf(mission.steps)
    && (mission.status in APPROVAL_STATES ==>
          && mission.proposal.Some? && mission.proposal.value.missionId == mission.id
          && mission.proposal.value.version < mission.version
          && mission.proposal.value.summary == plan.proposalSummary
             && mission.proposal.value.riskLevel == plan.riskLevel)
  }

  lemma FirstStepId()
    ensures StepId(1) == "step_1"
  {
  }

  lemma HandlerTells(plan: IntentPlan, mission: Snapshot)
    requires plan.steps != [] && PlanShape(mission, |plan.steps|) && Tells(mission, plan)
    requires mission.status !in SETTLED
    ensures var next := RunPlan(plan, mission).next;
      Tells(next.(id := mission.id, version := mission.version + 1), plan)
  {
    match mission.status
    case Draft =>
      FirstStepId();
      ShapeActive(StagedSteps(plan), 0);
    case Running => RunningTells(plan, mission);
    case Approved =>
      FinishKeepsCompleted(mission.steps, mission.updatedAt);
      ShapeActive(mission.steps, mission.progress);
    case _ =>
  }

  lemma RunningTells(plan: IntentPlan, mission: Snapshot)
    requires plan.steps != [] && PlanShape(mission, |plan.steps|) && Tells(mission, plan)
    requires mission.status == Running
    ensures var next := RunPlan(plan, mission).next;
      Tells(next.(id := mission.id, version := mission.version + 1), plan)
  {
    ShapeCounts(mission.steps, mission.progress);
    ShapeActive(mission.steps, mission.progress);
    if mission.progress < |mission.steps| {
      AdvanceTells(plan, mission);
    } else {
      AdvanceShapes(mission.steps, mission.progress, mission.updatedAt);
    }
  }

  lemma AdvanceTells(plan: IntentPlan, mission: Snapshot)
    requires InShape(mission.steps, mission.progress) && mission.progress < |mission.steps|
    requires Labelled(mission.steps, plan)
    ensures var (steps, currentStep) := AdvanceSteps(mission.steps, mission.updatedAt);
      && Labelled(steps, plan) && currentStep == CurrentOf(steps)
      && CompletedSteps(steps) == mission.progress + 1
      && (mission.progress + 1 == |plan.steps| ==> currentStep == "")
  {
    var steps := AdvanceSteps(mission.steps, mission.updatedAt).0;
    AdvanceKeepsLabels(plan, mission.steps, mission.updatedAt);
    AdvanceShapes(mission.steps, mission.progress, mission.updatedAt);
    ShapeActive(steps, mission.progress + 1);
    ShapeCounts(steps, mission.progress + 1);
  }

  lemma AdvanceKeepsLabels(plan: IntentPlan, steps: seq<MissionStep>, at: Time)
    requires Labelled(steps, plan)
    ensures Labelled(AdvanceSteps(steps, at).0, plan)
  {
  }

  /** A state change that keeps the whole snapshot but its status, and does not enter an approval state. */
  lemma StatusChangeTells(plan: IntentPlan, mission: Snapshot, status: Status, now: Time)
    requires Tells(mission, plan)
    requires status in APPROVAL_STATES ==> mission.status == AwaitingApproval
    ensures Tells(NextSnapshot(mission, status, mission, now), plan)
  {
  }

  lemma ExecuteTells(plans: map<Intent, IntentPlan>, hash: Command -> string, mission: Snapshot, step: Step,
                     adv: Advance)
    requires HasPlan(plans, mission)
    requires PlanShape(mission, |plans[mission.intent].steps|) && Tells(mission, plans[mission.intent])
    requires Caused(AgentConfig(plans, hash), mission, step, adv) && step.ApplyStep? && step.command.kind.ExecuteKind?
    ensures Tells(adv.next, plans[mission.intent])
  {
    assert HandlerSays(AgentConfig(plans, hash), mission, step.command) == RunPlan(plans[mission.intent], mission);
    if mission.status in SETTLED {
      StatusChangeTells(plans[mission.intent], mission, Running, step.clock.stamped);
    } else {
      HandlerTells(plans[mission.intent], mission);
    }
  }

  lemma CausedTells(plans: map<Intent, IntentPlan>, hash: Command -> string, mission: Snapshot, step: Step,
                    adv: Advance)
    requires HasPlan(plans, mission)
    requires PlanShape(mission, |plans[mission.intent].steps|) && Tells(mission, plans[mission.intent])
    requires Caused(AgentConfig(plans, hash), mission, step, adv)
    ensures Tells(adv.next, plans[mission.intent])
  {
    if step.ApplyStep? && step.command.kind.ExecuteKind? {
      ExecuteTells(plans, hash, mission, step, adv);
    } else {
      OtherCausesKeepAll(AgentConfig(plans, hash), mission, step, adv);
      StatusChangeTells(plans[mission.intent], mission, adv.next.status, adv.next.updatedAt);
    }
  }

  /** Only an execute changes more than a mission's status, version, sequence and time. */
  lemma OtherCausesKeepAll(config: Config, mission: Snapshot, step: Step, adv: Advance)
    requires Caused(config, mission, step, adv) && !(step.ApplyStep? && step.command.kind.ExecuteKind?)
    ensures adv.next == NextSnapshot(mission, adv.next.status, mission, adv.next.updatedAt)
    ensures adv.next.status in APPROVAL_STATES ==> mission.status == AwaitingApproval
  {
  }

  /** In every reachable state, whatever is swept, a mission's steps, current step and proposal are its plan's. */
  lemma MissionTellsItsPlan(plans: map<Intent, IntentPlan>, hash: Command -> string, turns: seq<Turn>, id: Id)
    requires Feasible(AgentConfig(plans, hash), turns)
    ensures var db := Run(AgentConfig(plans, hash), turns).db;
      id in db.missions && HasPlan(plans, db.missions[id]) ==>
        Tells(db.missions[id], plans[db.missions[id].intent])
  {
    EveryViewTells(plans, hash, turns, id);
    var db := Run(AgentConfig(plans, hash), turns).db;
    assert id in db.missions ==> ViewOf(db, id).mission == Some(db.missions[id]);
  }

  ghost predicate ViewTells(plans: map<Intent, IntentPlan>, view: View) {
    view.mission.Some? && HasPlan(plans, view.mission.value) ==>
      Tells(view.mission.value, plans[view.mission.value.intent])
  }

  lemma {:induction false} EveryViewTells(plans: map<Intent, IntentPlan>, hash: Command -> string, turns: seq<Turn>,
                                          id: Id)
    requires Feasible(AgentConfig(plans, hash), turns)
    ensures ViewTells(plans, ViewOf(Run(AgentConfig(plans, hash), turns).db, id))
  {
    if turns != [] {
      EveryViewTells(plans, hash, turns[..|turns| - 1], id);
      EveryShape(plans, hash, turns[..|turns| - 1], id);
      var world, step, at := LastTurn(AgentConfig(plans, hash), turns, id);
      if at.Some? {
        if ViewOf(world.db, id).mission.Some? {
          TellsStep(plans, hash, ViewOf(world.db, id), step, at.value);
        } else {
          StartsTelling(plans, step.create, id, step.now);
        }
      }
    }
  }

  lemma StartsTelling(plans: map<Intent, IntentPlan>, create: CreateCommand, id: Id, now: Time)
    ensures forall view: View :: view.mission == Some(StartAdvance(create, id, now).next) ==> ViewTells(plans, view)
  {
  }

  lemma TellsStep(plans: map<Intent, IntentPlan>, hash: Command -> string, view: View, step: Step, adv: Advance)
    requires ViewInShape(plans, view) && ViewTells(plans, view) && view.mission.Some?
    requires Caused(AgentConfig(plans, hash), view.mission.value, step, adv)
    ensures ViewTells(plans, Stored(view, adv)) && ViewTells(plans, StoredAndLogged(view, adv))
  {
    CausedKeepsIdentity(AgentConfig(plans, hash), view.mission.value, step, adv);
    if HasPlan(plans, view.mission.value) {
      CausedTells(plans, hash, view.mission.value, step, adv);
    }
  }

  lemma CausedKeepsIdentity(config: Config, mission: Snapshot, step: Step, adv: Advance)
    requires Caused(config, mission, step, adv)
    ensures adv.next.id == mission.id && adv.next.intent == mission.intent
  {
  }

  /** As long as no sweep names DRAFT, every mission past DRAFT has all the steps of its plan. */
  lemma {:induction false} PlanIsStaged(plans: map<Intent, IntentPlan>, hash: Command -> string, turns: seq<Turn>,
                                        id: Id)
    requires Feasible(AgentConfig(plans, hash), turns) && SweepsAvoid(turns, {Draft})
    ensures var db := Run(AgentConfig(plans, hash), turns).db;
      id in db.missions && HasPlan(plans, db.missions[id]) ==>
        !Planless(db.missions[id])
  {
    if turns != [] {
      var config, front := AgentConfig(plans, hash), turns[..|turns| - 1];
      assert turns[|turns| - 1] in turns;
      assert forall t :: t in front ==> t in turns;
      PlanIsStaged(plans, hash, front, id);
      PlanKeepsShape(plans, hash, front, id);
      var world, step, at := LastTurn(config, turns, id);
      var view, view' := ViewOf(world.db, id), ViewOf(Run(config, turns).db, id);
      if at.Some? && view.mission.Some? && view.mission.value.intent in plans {
        CausedKeepsShape(plans, hash, view.mission.value, step, at.value);
      }
      assert id in Run(config, turns).db.missions ==> view'.mission == Some(Run(config, turns).db.missions[id]);
    }
  }
}
