/**
 The mission runtime's operations on values (`missions/runtime.ts`): each one is the list of store
 writes it performs, in order, plus what it returns.  Cutting the list short is a crash.
 */
module MissionProtocol {
  import opened Ordering
  import opened Wrappers
  import opened Hex
  import opened MissionStatus
  import opened MissionTypes

  // ---------------------------------------------------------- durable state

  /** The three stores: snapshots (with insertion order), event logs, idempotency records. */
  datatype Db = Db(missions: map<Id, Snapshot>, order: seq<Id>, logs: map<Id, seq<Event>>, records: map<Key, Record>)

  const EMPTY_DB := Db(map[], [], map[], map[])

  function Log(db: Db, id: Id): seq<Event> {
    if id in db.logs then db.logs[id] else []
  }

  predicate SequenceBefore(a: Event, b: Event) {
    a.sequence < b.sequence
  }

  function Listed(events: seq<Event>): seq<Event> {
    StableSort(SequenceBefore, events)
  }

  /** The event store's `list`: a copy of the log, sorted by sequence. */
  function EventList(db: Db, id: Id): seq<Event> {
    Listed(Log(db, id))
  }

  ghost predicate InSequence(events: seq<Event>) {
    forall i, j :: 0 <= i < j < |events| ==> events[i].sequence <= events[j].sequence
  }

  /** Listing rearranges the log into sequence order, and leaves a log that is in order alone. */
  lemma ListedInSequence(events: seq<Event>)
    ensures InSequence(Listed(events)) && multiset(Listed(events)) == multiset(events)
    ensures InSequence(events) ==> Listed(events) == events
  {
    SortPermutes(SequenceBefore, events);
    SortSorted(SequenceBefore, events);
    if InSequence(events) { SortedStays(SequenceBefore, events); }
  }

  datatype Write =
    | SaveSnapshot(snapshot: Snapshot)
    | AppendEvent(event: Event)
    | PutRecord(record: Record)
    | DropRecord(key: Key)

  function Perform(db: Db, w: Write): Db {
    match w
    case SaveSnapshot(s) =>
      db.(missions := db.missions[s.id := s], order := if s.id in db.missions then db.order else db.order + [s.id])
    case AppendEvent(e) => db.(logs := db.logs[e.missionId := Log(db, e.missionId) + [e]])
    case PutRecord(r) => db.(records := db.records[r.key := r])
    case DropRecord(k) => db.(records := db.records - {k})
  }

  function Exec(db: Db, writes: seq<Write>): Db {
    if writes == [] then db else Perform(Exec(db, writes[..|writes| - 1]), writes[|writes| - 1])
  }

  lemma {:induction false} ExecConcat(db: Db, a: seq<Write>, b: seq<Write>)
    ensures Exec(db, a + b) == Exec(Exec(db, a), b)
  {
    if b == [] {
      assert a + b == a;
    } else {
      ExecConcat(db, a, b[..|b| - 1]);
      FrontOfConcat(a, b);
    }
  }

  lemma ExecSnoc(db: Db, writes: seq<Write>, w: Write)
    ensures Exec(db, writes + [w]) == Perform(Exec(db, writes), w)
  {
    assert (writes + [w])[..|writes + [w]| - 1] == writes;
  }

  lemma ExecOne(db: Db, w: Write)
    ensures Exec(db, [w]) == Perform(db, w)
  {
    assert [w][..0] == [];
  }

  // ------------------------------------------------------- one state change

  /** A saved snapshot together with the type of the event that logs it. */
  datatype Advance = Advance(next: Snapshot, eventType: EventType)

  function NextSnapshot(mission: Snapshot, status: Status, base: Snapshot, now: Time): Snapshot {
    base.(id := mission.id, companyId := mission.companyId, fiscalPeriod := mission.fiscalPeriod,
          intent := mission.intent, status := status, version := mission.version + 1,
          lastEventSequence := mission.lastEventSequence + 1, updatedAt := now)
  }

  function BuildEvent(snapshot: Snapshot, eventType: EventType): Event {
    Event(snapshot.id, snapshot.lastEventSequence, eventType, snapshot, snapshot.updatedAt)
  }

  /** Save first, then append: the two writes of one state change. */
  function AdvanceWrites(adv: Advance): seq<Write> {
    [SaveSnapshot(adv.next), AppendEvent(BuildEvent(adv.next, adv.eventType))]
  }

  // ------------------------------------------------------------------ start

  function StartAdvance(command: CreateCommand, id: Id, now: Time): Advance {
    Advance(Snapshot(id, command.companyId, command.fiscalPeriod, command.intent, Draft, 1, 0, [], "", [], None, None,
                     None, None, 1, now, now), StateTransition)
  }

  // ------------------------------------------------------------------ apply

  /** The clock readings of one apply: the lookup, the EXECUTING record, the snapshot, the last record. */
  datatype Clock = Clock(lookup: Time, marked: Time, stamped: Time, settled: Time)

  ghost predicate Monotone(clock: Clock) {
    clock.lookup <= clock.marked <= clock.stamped <= clock.settled
  }

  datatype Target = Target(status: Status, base: Snapshot, eventType: EventType)

  function TransitionTo(mission: Snapshot, status: Status, base: Snapshot,
                        eventType: EventType): Result<Target, Thrown> {
    if status in ValidTransitions(mission.status) then Ok(Target(status, base, eventType))
    else Err(MissionError(InvalidTransition))
  }

  /** What the registry's handler for the mission's intent says, if there is one. */
  function HandlerSays(config: Config, mission: Snapshot, command: Command): HandlerResult {
    if mission.intent in config.handlers then config.handlers[mission.intent](mission, command) else NoChange
  }

  function ResolveTarget(config: Config, mission: Snapshot, command: Command): Result<Target, Thrown> {
    match command.kind
    case ExecuteKind =>
      (match HandlerSays(config, mission, command)
       case Proposed(next) => TransitionTo(mission, next.status, next, StateTransition)
       case HandlerThrows(error) => Err(error)
       case NoChange => TransitionTo(mission, Running, mission, StateTransition))
    case ApproveKind => TransitionTo(mission, Approved, mission, ApprovalDecided)
    case RejectKind => TransitionTo(mission, Rejected, mission, ApprovalDecided)
    case ReconcileKind(resolution) =>
      if mission.status == Unknown && resolution in RECOVERY_TARGETS then Ok(Target(resolution, mission, Reconciled))
      else Err(MissionError(InvalidTransition))
    case _ => Err(MissionError(InvalidInput))
  }

  /** The fence store's current token for the mission, when the runtime has a fence store. */
  type Fence = Option<int>

  /** Version check, fence, terminal guard and target, in the runtime's order. */
  function Resolve(config: Config, mission: Snapshot, command: Command, ctx: Context,
                   fence: Fence): Result<Target, Thrown> {
    var expected := if ctx.expectedVersion.Some? then ctx.expectedVersion else command.expectedVersion;
    if expected.Some? && expected.value != mission.version then Err(MissionError(VersionConflict))
    else if fence.Some? && ctx.fenceToken.Some? && ctx.fenceToken.value < fence.value then Err(FenceConflict)
    else if mission.status in TERMINAL_STATES then Err(MissionError(TerminalStateGuard))
    else ResolveTarget(config, mission, command)
  }

  function ErrorRecordCode(error: Thrown): ErrorCode {
    if error.MissionError? then error.code else InternalError
  }

  predicate Live(db: Db, key: Key, now: Time) {
    key in db.records && db.records[key].expiresAt > now
  }

  /** The answer while a record has no outcome yet: the mission's snapshot and its last event. */
  function CurrentState(db: Db, id: Id): Outcome {
    var log := EventList(db, id);
    if id in db.missions && log != [] then Returned(db.missions[id], log[|log| - 1], true)
    else Threw(MissionError(AlreadyExecuting))
  }

  /** The answer to a command whose key already has a live record. */
  function Replay(config: Config, db: Db, command: Command, record: Record): Outcome {
    if record.payloadHash != config.canonicalHash(command) then Threw(IdempotencyConflict)
    else if record.result.CachedApply? then Returned(record.result.snapshot, record.result.event, true)
    else if record.status == FailedRecord && record.result.CachedError? then Threw(MissionError(record.result.code))
    else CurrentState(db, command.missionId)
  }

  /** A planned call: record writes before, the state changes, record writes after, and the result. */
  datatype Plan = Plan(before: seq<Write>, advances: seq<Advance>, after: seq<Write>, outcome: Outcome)

  function AdvancesWrites(advances: seq<Advance>): seq<Write> {
    if advances == [] then [] else AdvancesWrites(advances[..|advances| - 1]) + AdvanceWrites(advances[|advances| - 1])
  }

  lemma OneAdvance(adv: Advance)
    ensures AdvancesWrites([adv]) == AdvanceWrites(adv)
  {
    assert [adv][..0] == [] && [] + AdvanceWrites(adv) == AdvanceWrites(adv);
  }

  function PlanWrites(plan: Plan): seq<Write> {
    plan.before + AdvancesWrites(plan.advances) + plan.after
  }

  /** Writes of a plan's records alone, and of a plan with something put before it. */
  lemma PlanWritesParts(plan: Plan, first: seq<Write>)
    ensures plan.advances == [] ==> PlanWrites(plan) == plan.before + plan.after
    ensures PlanWrites(plan.(before := first + plan.before)) == first + PlanWrites(plan)
    ensures |plan.advances| == 1 ==> PlanWrites(plan) == plan.before + AdvanceWrites(plan.advances[0]) + plan.after
  {
    assert plan.before + [] == plan.before;
    var rest := AdvancesWrites(plan.advances);
    assert first + plan.before + rest + plan.after == first + (plan.before + rest + plan.after);
    if |plan.advances| == 1 {
      OneAdvance(plan.advances[0]);
      assert plan.advances == [plan.advances[0]];
    }
  }

  function RecordWrite(key: Option<Key>, hash: string, status: RecordStatus, result: CachedResult,
                       now: Time): seq<Write> {
    if key.Some? then [PutRecord(Record(key.value, hash, status, result, now + IDEMPOTENCY_TTL))] else []
  }

  /** Executing a command that is not a replay. */
  function Attempt(config: Config, db: Db, command: Command, ctx: Context, clock: Clock, fence: Fence): Plan {
    if command.missionId !in db.missions then Plan([], [], [], Threw(MissionError(MissionNotFound)))
    else
      var mission := db.missions[command.missionId];
      var hash := config.canonicalHash(command);
      var mark := RecordWrite(ctx.idempotencyKey, hash, Executing, NoResult, clock.marked);
      match Resolve(config, mission, command, ctx, fence)
      case Err(error) =>
        Plan(mark, [],
             RecordWrite(ctx.idempotencyKey, hash, FailedRecord, CachedError(ErrorRecordCode(error)), clock.settled),
             Threw(error))
      case Ok(target) =>
        var next := NextSnapshot(mission, target.status, target.base, clock.stamped);
        var event := BuildEvent(next, target.eventType);
        Plan(mark, [Advance(next, target.eventType)],
             RecordWrite(ctx.idempotencyKey, hash, CompletedRecord, CachedApply(next, event), clock.settled),
             Returned(next, event, false))
  }

  function Apply(config: Config, db: Db, command: Command, ctx: Context, clock: Clock, fence: Fence): Plan {
    if command.kind.CreateKind? then Plan([], [], [], Threw(MissionError(InvalidInput)))
    else if ctx.idempotencyKey.None? then Attempt(config, db, command, ctx, clock, fence)
    else
      var key := ctx.idempotencyKey.value;
      if Live(db, key, clock.lookup) then Plan([], [], [], Replay(config, db, command, db.records[key]))
      else
        var plan := Attempt(config, db, command, ctx, clock, fence);
        if key in db.records then plan.(before := [DropRecord(key)] + plan.before) else plan
  }

  // ----------------------------------------------------- restart recovery

  /** Missions in one of the wanted states, in insertion order. */
  function FindByStatus(db: Db, order: seq<Id>, wanted: set<Status>): seq<Snapshot> {
    if order == [] then []
    else
      var rest := FindByStatus(db, order[..|order| - 1], wanted);
      var id := order[|order| - 1];
      if id in db.missions && db.missions[id].status in wanted then rest + [db.missions[id]] else rest
  }

  function RecoverOne(mission: Snapshot, now: Time): seq<Advance> {
    if mission.status == Unknown then []
    else [Advance(NextSnapshot(mission, Unknown, mission, now), StateTransition)]
  }

  function RecoverAdvances(missions: seq<Snapshot>, now: Time): seq<Advance> {
    if missions == [] then []
    else RecoverAdvances(missions[..|missions| - 1], now) + RecoverOne(missions[|missions| - 1], now)
  }

  /** The snapshots `recoverIncomplete` returns: already-UNKNOWN ones unchanged, the others advanced. */
  function Recovered(missions: seq<Snapshot>, now: Time): seq<Snapshot> {
    if missions == [] then []
    else
      var mission := missions[|missions| - 1];
      Recovered(missions[..|missions| - 1], now)
      + [if mission.status == Unknown then mission else NextSnapshot(mission, Unknown, mission, now)]
  }

  // ------------------------------------------------- external reconciliation

  datatype ExternalOutcome = Executed | NotExecuted | Indeterminate

  datatype Evidence = Evidence(identifier: string, state: string, provenance: string, moment: string,
                               responseHash: string)

  /** What the resolver answered; `Unconfigured` is no resolver at all. */
  datatype ResolverAnswer = Unconfigured | Fails | Answers(outcome: ExternalOutcome, evidence: Option<Evidence>)

  datatype Decision = RecordResult | RetrySafely | HumanIntervention

  predicate IsVerifiable(e: Evidence) {
    e.identifier != "" && e.state != "" && e.provenance != "" && e.moment != "" && IsHex64(e.responseHash)
  }

  function ReconcileExternalCall(answer: ResolverAnswer): Result<Decision, Thrown> {
    match answer
    case Unconfigured => Err(ReconciliationError(NoResolver))
    case Fails => Err(ReconciliationError(ResolverFailed))
    case Answers(Executed, evidence) =>
      if evidence.Some? && IsVerifiable(evidence.value) then Ok(RecordResult)
      else Err(ReconciliationError(ExecutedWithoutEvidence))
    case Answers(NotExecuted, _) => Ok(RetrySafely)
    case Answers(Indeterminate, _) => Ok(HumanIntervention)
  }

  datatype Reconciliation = Reconciliation(decision: Decision, snapshot: Snapshot)

  function Reconcile(db: Db, id: Id, answer: ResolverAnswer,
                     now: Time): (seq<Advance>, Result<Reconciliation, Thrown>) {
    if id !in db.missions then ([], Err(MissionError(MissionNotFound)))
    else if db.missions[id].status != Unknown then ([], Err(MissionError(InvalidInput)))
    else
      var mission := db.missions[id];
      match ReconcileExternalCall(answer)
      case Err(error) => ([], Err(error))
      case Ok(HumanIntervention) => ([], Ok(Reconciliation(HumanIntervention, mission)))
      case Ok(decision) =>
        var next := NextSnapshot(mission, Running, mission, now);
        ([Advance(next, Reconciled)], Ok(Reconciliation(decision, next)))
  }
}
