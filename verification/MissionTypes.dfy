/**
 Mission snapshots, events, commands, idempotency records and errors
 (`missions/types.ts`, `events.ts`, `commands.ts`, `store.ts`, `errors.ts`).
 */
module MissionTypes {
  import opened Wrappers
  import opened MissionStatus

  type Id = string
  type Key = string
  type Intent = string

  /** UNIX epoch milliseconds. */
  type Time = int

  datatype StepStatus = StepPending | StepInProgress | StepCompleted | StepFailed | StepSkipped

  datatype MissionStep = MissionStep(id: string, name: string, status: StepStatus, startedAt: Option<Time>,
                                     completedAt: Option<Time>)

  datatype Proposal = Proposal(missionId: Id, version: int, summary: string, riskLevel: string, generatedAt: Time)

  datatype Snapshot = Snapshot(
    id: Id,
    companyId: string,
    fiscalPeriod: string,
    intent: Intent,
    status: Status,
    version: int,
    progress: int,
    steps: seq<MissionStep>,
    currentStep: string,
    blockers: seq<string>,
    proposal: Option<Proposal>,
    rejection: Option<string>,
    receiptId: Option<string>,
    receiptHash: Option<string>,
    lastEventSequence: int,
    createdAt: Time,
    updatedAt: Time)

  datatype EventType =
    | StateTransition
    | ProgressUpdate
    | BlockerAdded
    | BlockerResolved
    | ProposalCreated
    | ApprovalDecided
    | CompletedEvent
    | FailedEvent
    | TimeoutEvent
    | UnknownEvent
    | Reconciled
    | Keepalive

  datatype Event = Event(missionId: Id, sequence: int, eventType: EventType, snapshot: Snapshot, createdAt: Time)

  /** The command's discriminator; `OtherKind` is a type outside the union, which the runtime rejects. */
  datatype CommandKind =
    | CreateKind
    | ExecuteKind
    | ApproveKind
    | RejectKind
    | ReconcileKind(resolution: Status)
    | OtherKind

  /** A command bound to its mission; `body` is the rest of its payload, seen only by hash and handlers. */
  datatype Command = Command(kind: CommandKind, missionId: Id, expectedVersion: Option<int>, body: string)

  datatype CreateCommand = CreateCommand(companyId: string, fiscalPeriod: string, intent: Intent)

  datatype Context = Context(idempotencyKey: Option<Key>, expectedVersion: Option<int>, fenceToken: Option<int>)

  datatype ErrorCode =
    | InvalidInput
    | MissionNotFound
    | VersionConflict
    | AlreadyExecuting
    | TerminalStateGuard
    | InvalidTransition
    | InternalError
    | HandlerError(name: string)

  /** What a runtime call may throw: a coded mission error, or one of the uncoded ones. */
  datatype Thrown =
    | MissionError(code: ErrorCode)
    | IdempotencyConflict
    | FenceConflict
    | ReconciliationError(reason: ResolverFailure)
    | OtherError

  datatype ResolverFailure = NoResolver | ExecutedWithoutEvidence | ResolverFailed

  datatype Outcome =
    | Returned(snapshot: Snapshot, event: Event, replayed: bool)
    | Threw(error: Thrown)

  datatype RecordStatus = Executing | CompletedRecord | FailedRecord

  datatype CachedResult =
    | NoResult
    | CachedApply(snapshot: Snapshot, event: Event)
    | CachedError(code: ErrorCode)

  datatype Record = Record(key: Key, payloadHash: string, status: RecordStatus, result: CachedResult, expiresAt: Time)

  /** Idempotency records are retained for 24 hours. */
  const IDEMPOTENCY_TTL: Time := 24 * 60 * 60 * 1000

  datatype HandlerResult =
    | Proposed(next: Snapshot)
    | NoChange
    | HandlerThrows(error: Thrown)

  type Handler = (Snapshot, Command) -> HandlerResult

  /** What a runtime is built with besides its stores: the handler registry and the payload hash. */
  datatype Config = Config(handlers: map<Intent, Handler>, canonicalHash: Command -> string)
}
