/**
 The shipped intent handlers (`agents/handlers.ts`): pure functions of the snapshot that stage a plan,
 advance it one step per execute, and stop at the evidence and approval gates.
 */
module PlanHandlers {
  import opened Wrappers
  import opened MissionStatus
  import opened MissionTypes

  datatype IntentPlan = IntentPlan(steps: seq<string>, proposalSummary: string, riskLevel: string)

  function Digits(n: nat): string {
    var last := ['0' + (n % 10) as char];
    if n < 10 then last else Digits(n / 10) + last
  }

  function StepId(position: nat): string {
    "step_" + Digits(position)
  }

  function CompletedSteps(steps: seq<MissionStep>): nat {
    if steps == [] then 0
    else CompletedSteps(steps[..|steps| - 1]) + (if steps[|steps| - 1].status == StepCompleted then 1 else 0)
  }

  /** Index of the first step at or after `i` whose status is wanted, or -1. */
  function FindFrom(steps: seq<MissionStep>, wanted: set<StepStatus>, i: nat): (index: int)
    requires i <= |steps|
    ensures index == -1 || i <= index < |steps|
    ensures index >= 0 ==> steps[index].status in wanted && forall j :: i <= j < index ==> steps[j].status !in wanted
    ensures index == -1 ==> forall j :: i <= j < |steps| ==> steps[j].status !in wanted
    decreases |steps| - i
  {
    if i == |steps| then -1 else if steps[i].status in wanted then i else FindFrom(steps, wanted, i + 1)
  }

  function FirstActiveIndex(steps: seq<MissionStep>): int {
    FindFrom(steps, {StepInProgress, StepPending}, 0)
  }

  function StagedSteps(plan: IntentPlan): seq<MissionStep> {
    seq(|plan.steps|,
        i requires 0 <= i < |plan.steps| => MissionStep(StepId(i + 1), plan.steps[i], StepPending, None, None))
  }

  function ActivateSteps(steps: seq<MissionStep>, at: Time): seq<MissionStep> {
    var index := FirstActiveIndex(steps);
    if index == -1 then steps else steps[index := steps[index].(status := StepInProgress, startedAt := Some(at))]
  }

  /** Completes the first active step and starts the next pending one. */
  function AdvanceSteps(steps: seq<MissionStep>, at: Time): (seq<MissionStep>, string) {
    var index := FirstActiveIndex(steps);
    if index == -1 then (steps, "")
    else
      var completed := steps[index := steps[index].(status := StepCompleted, completedAt := Some(at))];
      var next := FindFrom(completed, {StepPending}, 0);
      if next == -1 then (completed, "")
      else (completed[next := completed[next].(status := StepInProgress, startedAt := Some(at))], completed[next].id)
  }

  function StageProposal(mission: Snapshot, plan: IntentPlan): Snapshot {
    mission.(status := AwaitingApproval, progress := |plan.steps|, currentStep := "",
             proposal := Some(Proposal(mission.id, mission.version, plan.proposalSummary, plan.riskLevel,
                                       mission.updatedAt)))
  }

  function FinishSteps(steps: seq<MissionStep>, at: Time): seq<MissionStep> {
    seq(|steps|, i requires 0 <= i < |steps| =>
      if steps[i].status == StepCompleted then steps[i]
      else steps[i].(status := StepCompleted, completedAt := Some(at)))
  }

  function RunPlan(plan: IntentPlan, mission: Snapshot): HandlerResult {
    var n := |plan.steps|;
    match mission.status
    case Draft =>
      Proposed(mission.(status := Queued, steps := StagedSteps(plan), currentStep := "step_1", progress := 0))
    case Queued =>
      var steps := ActivateSteps(mission.steps, mission.updatedAt);
      var active := FirstActiveIndex(steps);
      Proposed(mission.(status := Running, steps := steps, currentStep := if active == -1 then "" else steps[active].id,
                        progress := CompletedSteps(steps)))
    case Running =>
      if CompletedSteps(mission.steps) >= n then Proposed(StageProposal(mission, plan))
      else
        var (steps, currentStep) := AdvanceSteps(mission.steps, mission.updatedAt);
        var advanced := mission.(steps := steps, currentStep := currentStep);
        if CompletedSteps(steps) >= n then Proposed(StageProposal(advanced, plan))
        else Proposed(advanced.(status := WaitingForEvidence, progress := CompletedSteps(steps)))
    case WaitingForEvidence | Blocked | BlockedByGate | Retrying | Recovering | Unknown =>
      Proposed(mission.(status := Running))
    case RevisionRequested => Proposed(mission.(status := Queued))
    case Approved =>
      Proposed(mission.(status := Completed, steps := FinishSteps(mission.steps, mission.updatedAt), currentStep := "",
                        progress := n))
    case AwaitingApproval | Completed | Failed | Rejected => NoChange
  }

  /** The registry of shipped handlers: one plan per intent. */
  function AgentConfig(plans: map<Intent, IntentPlan>, hash: Command -> string): Config {
    Config(map intent | intent in plans :: (mission: Snapshot, command: Command) => RunPlan(plans[intent], mission),
           hash)
  }

  // ------------------------------------------------------------ plan shape

  /** `k` completed steps, then one in progress or pending, then pending ones. */
  ghost predicate InShape(steps: seq<MissionStep>, k: int) {
    && 0 <= k <= |steps|
    && (forall i :: 0 <= i < k ==> steps[i].status == StepCompleted)
    && (k < |steps| ==> steps[k].status in {StepInProgress, StepPending})
    && (forall i :: k < i < |steps| ==> steps[i].status == StepPending)
  }

  /** `n` steps in that shape, of which, when the plan is active and not finished, exactly one is in progress. */
  ghost predicate Shaped(steps: seq<MissionStep>, n: nat, k: int, active: bool) {
    && |steps| == n && InShape(steps, k)
    && (k < n ==> steps[k].status == if active then StepInProgress else StepPending)
  }

  lemma {:induction false} ShapeCounts(steps: seq<MissionStep>, k: int)
    requires InShape(steps, k)
    ensures CompletedSteps(steps) == k
  {
    if steps != [] {
      ShapeCounts(steps[..|steps| - 1], if k == |steps| then k - 1 else k);
    }
  }

  lemma ShapeActive(steps: seq<MissionStep>, k: int)
    requires InShape(steps, k)
    ensures FirstActiveIndex(steps) == if k < |steps| then k else -1
  {
    assert k < |steps| ==> steps[k].status in {StepInProgress, StepPending};
  }

  lemma ActivateShapes(steps: seq<MissionStep>, k: int, at: Time)
    requires InShape(steps, k)
    ensures var activated := ActivateSteps(steps, at);
      |activated| == |steps| && InShape(activated, k) && (k < |steps| ==> activated[k].status == StepInProgress)
  {
    ShapeActive(steps, k);
  }

  lemma AdvanceShapes(steps: seq<MissionStep>, k: int, at: Time)
    requires InShape(steps, k)
    ensures k == |steps| ==> AdvanceSteps(steps, at) == (steps, "")
    ensures k < |steps| ==>
      var (advanced, currentStep) := AdvanceSteps(steps, at);
      && |advanced| == |steps| && InShape(advanced, k + 1)
      && (k + 1 < |steps| ==> advanced[k + 1].status == StepInProgress && currentStep == advanced[k + 1].id)
      && (k + 1 == |steps| ==> currentStep == "")
  {
    ShapeActive(steps, k);
    if k < |steps| {
      var completed := steps[k := steps[k].(status := StepCompleted, completedAt := Some(at))];
      var next := FindFrom(completed, {StepPending}, 0);
      assert k + 1 < |steps| ==> completed[k + 1].status == StepPending;
      assert next == if k + 1 < |steps| then k + 1 else -1;
    }
  }

  lemma FinishKeepsCompleted(steps: seq<MissionStep>, at: Time)
    requires InShape(steps, |steps|)
    ensures FinishSteps(steps, at) == steps
  {
  }
}
