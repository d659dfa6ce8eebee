/**
 The fifteen mission states, their transition table and the guards over it
 (`missions/status.ts`, `missions/transitions.ts`).
 */
module MissionStatus {
  datatype Status =
    | Draft
    | Queued
    | Running
    | Blocked
    | AwaitingApproval
    | Approved
    | Rejected
    | RevisionRequested
    | Completed
    | Failed
    | Unknown
    | Recovering
    | WaitingForEvidence
    | BlockedByGate
    | Retrying

  function ValidTransitions(from: Status): set<Status> {
    match from
    case Draft => {Queued}
    case Queued => {Running, Failed}
    case Running =>
      {Blocked, AwaitingApproval, Completed, Failed, Unknown, WaitingForEvidence, BlockedByGate, Retrying}
    case Blocked => {Running, Failed}
    case WaitingForEvidence => {Running, Failed}
    case BlockedByGate => {Running, AwaitingApproval, Failed}
    case Recovering => {Running, Failed}
    case Retrying => {Running, Failed}
    case AwaitingApproval => {Approved, Rejected, Running}
    case Approved => {Status.Completed, Failed}
    case Rejected => {RevisionRequested}
    case RevisionRequested => {Queued}
    case Completed => {}
    case Failed => {}
    case Unknown => {Running, Failed, Status.Completed}
  }

  const TERMINAL_STATES: set<Status> := {Completed, Failed}

  /** Targets of a reconcile command. */
  const RECOVERY_TARGETS: set<Status> := {Running, Failed, Completed}

  /** The states a restart sweeps by default: those the table lets reach `Unknown`. */
  const DEFAULT_RECOVERABLE: set<Status> := {Running}

  /** The default sweep is derived from the table, and recovery targets are exactly the table's row for `Unknown`. */
  lemma TableFacts(s: Status)
    ensures s in DEFAULT_RECOVERABLE <==> Unknown in ValidTransitions(s)
    ensures s in TERMINAL_STATES <==> ValidTransitions(s) == {}
    ensures RECOVERY_TARGETS == ValidTransitions(Unknown)
  {
    assert s !in TERMINAL_STATES ==> exists t :: t in ValidTransitions(s) by {
      assert Queued in ValidTransitions(Draft) && Running in ValidTransitions(Queued);
      assert Running in ValidTransitions(AwaitingApproval) && Failed in ValidTransitions(Approved);
      assert RevisionRequested in ValidTransitions(Rejected) && Queued in ValidTransitions(RevisionRequested);
      assert s in {Running, Blocked, WaitingForEvidence, BlockedByGate, Recovering, Retrying, Unknown}
             ==> Failed in ValidTransitions(s);
    }
  }
}
