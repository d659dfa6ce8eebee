# Verification of the drenyra-ai core

A Dafny model of the parts of drenyra-ai whose guarantees depend on loops, mutable stores or whole
runs, with proofs for all inputs, all runs and all reachable states.
`dafny verify dfyconfig.toml` checks the project.

**Missions.** `MissionStatus` and `MissionTypes` hold the fifteen-state table and the records.
`MissionProtocol` gives each runtime operation as the list of store writes it performs plus its
outcome; `MissionRuntime` holds the three in-memory stores and the runtime as classes whose methods
update them in place and are proved to perform exactly those writes. `MissionRuns` composes calls
into runs in which a crash may cut any call after any write. `MissionInvariants`, `LogGaps`,
`RestartSweeps`, `IdempotentReplay`, `Recovery`, `RecoveryDisagrees`, `PlanHandlers`, `PlanShapes` and
`PlanRuns` prove what every run keeps.

**Bank reconciliation.** `BankNormalize`, `BankCompare` and `BankReport` model normalization, the
reference pass, the greedy fallback, drafts and the report as loops proved against a specification;
`BankTheorems`, `BankPairing`, `BankOrder` and `BankFacts` prove partition, optimality, order
independence, conservation and its exact limits about that specification.

**Managed composition.** `ManagedConfig` plans upgrades and rollbacks, `ManagedTransitions` says
what they do to the disk, and `ManagedCommit` models the file system as a class and the commit with
a failure possible at any stage, rename or hook call.

**Encodings.** `CanonicalJson` is the key-sorted printer behind the idempotency hash, `TenantScope`
the length-delimited scope key; `JsText` and `Ordering` hold ECMAScript strings and `sort`.

**Validators and accounting.** `Ledger` walks an append-only chain, `SkillPins` and
`SkillPinTheorems` create and verify mission skill pins, `Closing` closes result accounts and builds
the monthly and annual reports; `FiscalScope` is their RUC and period check.

Facts about the code that the proofs bring out, each with its exact condition:

- The comment on `apply` says the event is appended before the snapshot is saved; the code saves
  first (`missions/runtime.ts:388-389`). After a crash between the two, the log is behind the store,
  never ahead (`MissionInvariants.LogsNeverOvertakeStores`), and the log can lack an approval that
  was given (`PlanRuns.CrashHidesApproval`); a completion is logged directly after its decision exactly
  when the log had caught up with the store before the call (`PlanRuns.CompletionIsDecidedExactly`).
  The stored states always show the decision (`PlanRuns.CompletionProvenance`).
- With the shipped handlers only a restart sweep that names REJECTED moves a rejected mission
  (`PlanRuns.RejectedIsStuck`).
- `recoverIncomplete` accepts any status list. The log stays a legal walk exactly when a sweep moves
  only RUNNING missions (`RestartSweeps.SweepKeepsWalkExactly`); the recovery policy asks for RETRYING
  too.
- A plan keeps its shape whatever is swept (`PlanShapes.PlanKeepsShape`), but a mission swept from DRAFT
  never gets the steps of its plan and never awaits approval (`PlanShapes.PlanIsLostExactly`,
  `PlanShapes.LostPlanStaysLost`), and one swept from QUEUED runs with its first step still pending: a
  sweep leaves exactly one step in progress if and only if it sweeps it from neither
  (`PlanShapes.SweepKeepsOneInProgressExactly`).
- A retry of a call that crashed is answered as replayed whether or not the call had executed; it had
  exactly when the crash came after its save (`IdempotentReplay.CutApplyIsAnsweredFromState`).
- Deciding recovery by evidence agrees with replay exactly when the first terminal event after the last
  UNKNOWN marker, if there is one, has the last event's status (`Recovery.DecideAgreesWithReplay`). That
  can fail only where the log misses an event directly after that one (`Recovery.GaplessEvidenceIsFinal`),
  and it does after a crash has cut a sweep of a completed mission (`RecoveryDisagrees.DisagreementIsReachable`).
- A reference match does not compare amounts, so a fully matched reconciliation may hide a difference
  in cents; all pairs agree exactly when the movements sharing a one-to-one reference do
  (`BankFacts.MatchedCentsAgreeExactly`, witness `BankFacts.MatchedMayDifferInCents`).
- The net adjustment adds bank-only and ledger-only movements with one sign; it closes the gap exactly
  when the ledger's surplus per amount, date and side among open references nets to zero
  (`BankFacts.NetAdjustmentClosesGapExactly`, witness `BankFacts.NetAdjustmentMayMissGap`).
- Upgrading and rolling back does not always restore the disk: an owned asset whose file was absent
  ends up created, and one whose file already held the upgrade's bytes ends up with the original's
  (`ManagedTransitions.RoundTripRestoresExactly` gives the exact condition).
- A pin's entry order is independent of the input order exactly when no id occurs with two
  numerically equal versions (`SkillPinTheorems.EntryOrderIsDeterministicExactly`), and two versions
  can share an identity string exactly when one ends with an `@` and the other
  (`SkillPinTheorems.KeysClashExactly`). The denial code `id-mismatch` is never reported
  (`SkillPinTheorems.DenialNames`).

## Model

| member | source | states |
|---|---|---|
| `MissionStatus.TableFacts` | missions/status.ts:63-106 | the default restart sweep is the states that may reach UNKNOWN, the terminal states are exactly those with no way out, and reconcile targets are exactly UNKNOWN's row |
| `MissionRuntime.InMemoryMissionStore.Save` | missions/store.ts:66-68 | replaces or adds one snapshot and keeps insertion order |
| `MissionRuntime.InMemoryMissionStore.FindByStatus` | missions/store.ts:74-79 | the stored snapshots in a wanted state, in insertion order |
| `MissionRuntime.InMemoryMissionEventStore.Append` | missions/store.ts:92-96 | adds the event at the end of its own mission's log and touches no other log |
| `MissionRuntime.InMemoryMissionEventStore.List` | missions/store.ts:98-101 | the list is in sequence order, is a rearrangement of the mission's log, and is the log itself when that is in order |
| `MissionRuntime.InMemoryIdempotencyStore.Get` | missions/store.ts:120-128 | a live record, or nothing; an expired record is deleted by the lookup and no other record changes |
| `MissionRuntime.MissionRuntime.Start` | missions/runtime.ts:232-265 | performs exactly the save and the append of a DRAFT mission at version 1 and sequence 1 |
| `MissionRuntime.MissionRuntime.Apply` | missions/runtime.ts:283-420 | performs exactly the protocol's writes, in order, on the three stores, and returns or throws the protocol's outcome, for every command, context and state |
| `MissionRuntime.MissionRuntime.ReplayRecord` | missions/runtime.ts:303-336 | a used key is answered from its record, by conflict, cached result, cached error or current state, without any write |
| `MissionRuntime.MissionRuntime.RecoverIncomplete` | missions/runtime.ts:434-455 | moves exactly the found missions that are not UNKNOWN yet, one save and one append each |
| `MissionRuntime.MissionRuntime.Reconcile` | missions/runtime.ts:468-500 | moves an UNKNOWN mission to RUNNING on a recorded or safely retried call, and otherwise writes nothing |
| `MissionRuns.PrefixView` | missions/runtime.ts:338-420 | cutting a call after any write leaves each mission untouched, stored but not logged, or stored and logged |
| `MissionRuns.StepAdvancesFacts` | missions/runtime.ts:232-500 | every state change of any call either starts a mission or is a legal consequence of the stored snapshot, one per mission |
| `MissionRuns.TurnEffect` | missions/runtime.ts:283-420 | the effect of one call, crashed or not, on one mission |
| `MissionInvariants.LogsNeverOvertakeStores` | missions/runtime.ts:385-389 | in every run with crashes, log sequences increase strictly, every logged snapshot was once stored, and the stored `lastEventSequence` is never below the last logged one |
| `MissionInvariants.ListingIsTheLog` | missions/store.ts:98-101 | in every run with crashes, listing a mission's events gives its log exactly as it was appended |
| `MissionInvariants.LogMirrorsStore` | missions/runtime.ts:232-500 | in every crash-free run, with arbitrary handlers and arbitrary sweeps, the log is numbered 1 to n by sequence and version and ends with the stored snapshot |
| `MissionInvariants.LogRefinesStore` | missions/runtime.ts:232-500 | in every crash-free run with arbitrary handlers whose sweeps move only RUNNING missions, the log is in addition a legal walk through the table from DRAFT |
| `MissionInvariants.WalkStopsAtTerminal` | missions/transitions.ts:66-75 | no event follows COMPLETED or FAILED in such a walk |
| `MissionInvariants.NothingFollowsTerminal` | missions/transitions.ts:66-75 | with crashes, as long as no sweep names a terminal state, a logged terminal state is the last event and the store has stopped at it |
| `MissionInvariants.OnlySweepsFollowTerminal` | missions/runtime.ts:434-455 | with crashes and sweeps of any states, unless a crash cuts a sweep that names a terminal state, a logged terminal state is last and stored or is directly followed by the UNKNOWN of a sweep |
| `RestartSweeps.SweepView` | missions/runtime.ts:434-455 | an uncut sweep moves exactly the missions stored in a swept state other than UNKNOWN, and those to UNKNOWN |
| `RestartSweeps.SecondSweepIsSilent` | missions/runtime.ts:434-455 | sweeping the same states a second time, at whatever time, performs no write, from any consistent store |
| `RestartSweeps.SweepKeepsWalkExactly` | recovery/policy.ts:62-82 | after a crash-free legal walk a sweep keeps the log a legal walk exactly when the mission is not in a swept state other than RUNNING and UNKNOWN |
| `LogGaps.CaughtUpExactly` | missions/runtime.ts:385-389 | in every run with crashes, the log's last event carries the stored snapshot exactly when it has the stored sequence number |
| `LogGaps.GaplessEventsAreCaused` | missions/runtime.ts:232-500 | in every run with crashes, sweeps and arbitrary handlers, of two logged events with consecutive sequence numbers the second is what one call makes of the first |
| `LogGaps.GaplessAfterTerminal` | missions/transitions.ts:66-75 | in every such run, an event numbered directly after a logged terminal state is UNKNOWN |
| `MissionInvariants.OnlyRuntimeTypes` | missions/runtime.ts:547-596 | every logged event has one of the three types the runtime writes |
| `MissionInvariants.StoredMissionEvolves` | missions/runtime.ts:598-615 | whatever handlers propose and wherever calls crash, a stored mission keeps its id, company, period and intent, and changes by one version and one sequence at a time, never back in time |
| `MissionInvariants.OneWinnerPerVersion` | missions/runtime.ts:361-371 | once an apply that expected version v has changed a mission, no later apply that expects v changes it again, in any run with crashes |
| `MissionInvariants.UnknownLeftOnEvidence` | missions/runtime.ts:468-500 | in every run, cut or not, reconciling changes a stored mission only if it is UNKNOWN and the call is proven executed or known not executed; uncut, it then always does |
| `MissionInvariants.KeyedApplyDiscipline` | missions/runtime.ts:349-418 | a keyed call touches only its own key's record, and puts a record before it saves any snapshot |
| `MissionInvariants.RaisedAtMostOnce` | missions/runtime.ts:303-420 | in every run with crashes, two raises under one key lie at least the 24-hour retention apart |
| `IdempotentReplay.RaiseIsOneVersion` | missions/runtime.ts:385-389 | a keyed call that changes the snapshot store changes one mission, by one version, and is counted as a raise |
| `IdempotentReplay.RecordSurvives` | missions/store.ts:117-132 | a record outlasts any calls, crashes included, that end before it expires |
| `IdempotentReplay.RetriedCommandIsReplayed` | missions/runtime.ts:303-336 | whatever runs in between, a retry before expiry writes nothing and gets the first outcome; another payload is a conflict |
| `IdempotentReplay.CachedMeansExecuted` | missions/runtime.ts:385-402 | in every run with crashes, every cached success a replay can answer from has a snapshot that was once stored |
| `IdempotentReplay.CutApplyIsAnsweredFromState` | missions/runtime.ts:303-336 | a keyed apply cut between its EXECUTING record and its last one is answered, until expiry, as replayed from the current state; it executed exactly when the crash came after its save |
| `Recovery.ReplayMission` | recovery/replay.ts:32-64 | succeeds exactly on well-formed logs with the last event's snapshot, and otherwise reports the first event out of place |
| `Recovery.DecideUnknownRecovery` | recovery/policy.ts:111-135 | decides by the first terminal event after the last UNKNOWN marker, and is running exactly when there is none |
| `Recovery.DecideAgreesWithReplay` | recovery/policy.ts:111-135 | on every log any run can produce that has an UNKNOWN marker, replay succeeds, and the decision is completed or failed as replay is COMPLETED or FAILED, else running, exactly when the first terminal event after the last marker, if there is one, has the last event's status |
| `Recovery.UncutSweepsKeepEvidence` | recovery/policy.ts:111-135 | it has, in every run in which no crash cuts a sweep that names a terminal state |
| `Recovery.GaplessEvidenceIsFinal` | recovery/policy.ts:111-135 | it has, in every run whose log misses no sequence number directly after that event |
| `RecoveryDisagrees.CutTerminalSweepDisagrees` | recovery/policy.ts:111-135 | every crash-free run with a completed mission and a marker extends to one whose log decides completed and replays RUNNING |
| `RecoveryDisagrees.DisagreementIsReachable` | recovery/policy.ts:111-135 | for every plan with a step such a run exists, from the mission's start on |
| `Recovery.EvidenceIsLastEvent` | recovery/policy.ts:85-135 | where only UNKNOWN follows a terminal state, the deciding event is the last one and exists exactly when that one is terminal |
| `Recovery.LogReplaysToStore` | recovery/replay.ts:32-64 | in every crash-free run, whatever is swept, the log replays to the stored snapshot |
| `Recovery.LogReplaysToStoreExactly` | recovery/replay.ts:32-64 | in every run with crashes, the log replays to the stored snapshot exactly when its last event has the stored sequence number |
| `Recovery.LogReplaysAfterCrashes` | recovery/replay.ts:32-64 | after any crashes a non-empty log still replays, to a snapshot that was once stored |
| `PlanShapes.PlanKeepsShape` | agents/handlers.ts:50-106 | in every state reachable with any crashes and sweeps, the steps are none or the plan's number, k completed, then one in progress or pending, then pending ones, with progress k, and all completed from AWAITING_APPROVAL on |
| `PlanShapes.OneStepInProgress` | agents/handlers.ts:50-106 | in every run with crashes whose sweeps name neither DRAFT nor QUEUED, all steps are there and, from the first to the last, exactly one is in progress |
| `PlanShapes.SweepKeepsOneInProgressExactly` | agents/handlers.ts:50-106 | a sweep keeps that exactly when it does not sweep the mission from DRAFT or QUEUED |
| `PlanShapes.PlanIsLostExactly` | agents/handlers.ts:143-223 | in every run, a mission comes to be past DRAFT without steps exactly when a sweep moves it from DRAFT |
| `PlanShapes.LostPlanStaysLost` | agents/handlers.ts:143-223 | such a mission never gets its steps and is never in an approval state, in every continuation |
| `PlanShapes.PlanIsStaged` | agents/handlers.ts:143-223 | in every run with crashes whose sweeps do not name DRAFT, a mission past DRAFT has its plan's steps |
| `PlanShapes.MissionTellsItsPlan` | agents/handlers.ts:50-132 | in every state reachable with any crashes and sweeps, the steps, if there are any, carry the plan's ids and names, `currentStep` names the first unfinished step, and an approval is of the plan's own, earlier proposal |
| `PlanShapes.ProgressNeverDrops` | agents/handlers.ts:143-223 | in every run, whatever crashes and is swept, no call takes back a completed step |
| `PlanRuns.ExecutesReachApproval` | agents/handlers.ts:143-223 | among any calls, on this mission and on others, whatever versions, keys and fence tokens they carry, exactly 2n+1 successful commands on a fresh mission take it to AWAITING_APPROVAL, unless a sweep names a state on the way |
| `PlanRuns.VersionTellsStage` | agents/handlers.ts:143-223 | in every run with crashes and interleaved calls whose sweeps name no state on the way, a mission at version v up to 2n+2 is where v-1 executes lead |
| `PlanRuns.ExecuteOnce` | missions/runtime.ts:361-383 | on that way an execute succeeds exactly when its expected version is current, its fence token is not stale and its key has no live record; a failed one changes nothing |
| `PlanRuns.VersionedExecutesSucceed` | missions/runtime.ts:361-402 | executes that each name the next version, under keys of their own or none, all succeed |
| `PlanRuns.StagesAreReachable` | agents/handlers.ts:143-223 | every stage up to the approval is reached by some crash-free run without sweeps |
| `PlanRuns.ApprovalThenExecuteCompletes` | agents/handlers.ts:200-212 | an approval and one execute, which succeed exactly when admitted, then complete the mission at version 2n+4 with every step completed |
| `PlanRuns.CompletionProvenance` | agents/handlers.ts:143-223 | in every run, with crashes and any sweeps, a turn makes a stored mission COMPLETED only by an execute on an APPROVED one or a reconcile command on an UNKNOWN one, and APPROVED only by an approve command on one awaiting approval |
| `PlanRuns.CompletionsDecidedExactly` | agents/handlers.ts:143-223 | in every run with any crashes and sweeps, a COMPLETED event directly follows its logged decision exactly when no sequence number is missing before it |
| `PlanRuns.CompletionIsDecidedExactly` | missions/runtime.ts:385-389 | in every such run, a call that logs COMPLETED logs it directly after its decision exactly when the log had caught up with the store before the call |
| `PlanRuns.CompletionsAreLogged` | agents/handlers.ts:143-223 | in every crash-free run every COMPLETED event directly follows its decision |
| `PlanRuns.CrashHidesApproval` | missions/runtime.ts:385-389 | a crash can hide it: for every plan, a run whose log has COMPLETED directly after AWAITING_APPROVAL |
| `PlanRuns.RejectedIsStuck` | agents/handlers.ts:220-222 | in every run with crashes, a turn changes a stored REJECTED mission only if it is a sweep that names REJECTED, and such an uncut sweep moves it to UNKNOWN |
| `BankNormalize.NormalizeRows` | bank-reconciliation/normalize.ts:67-153 | the accepted movements and the rejections, each in row order |
| `BankNormalize.EveryRowAccountedFor` | bank-reconciliation/normalize.ts:67-153 | every row yields exactly one movement or one rejection, and accepted source keys are distinct |
| `BankNormalize.MovementsFromRows` | bank-reconciliation/normalize.ts:67-153 | the movements are exactly those of rows that pass and repeat no earlier accepted key |
| `BankNormalize.NormalizedMovements` | bank-reconciliation/normalize.ts:67-153 | accepted movements have a positive amount, a real date, a non-empty reference and the right source |
| `BankNormalize.RowVerdict` | bank-reconciliation/normalize.ts:77-140 | exactly which rows pass; a foreign RUC is always what a row is refused for first, and an amount is blamed only when it is the amount |
| `BankNormalize.WrittenCentsParse` | bank-reconciliation/normalize.ts:182-216 | any digits with leading zeros, perhaps a point and zeros, and white space around read back as the amount; zero is refused and a sign in front is refused as negative |
| `BankNormalize.AcceptedAmountIsWhole` | bank-reconciliation/normalize.ts:182-216 | an accepted amount is digits, perhaps a point and zeros, and its value is what the digits say |
| `BankNormalize.SqueezeIsCanonical` | bank-reconciliation/normalize.ts:156-158 | the squeezed reference has single inner spaces and none at the ends, canonical ones are unchanged, and only blank references become empty |
| `BankNormalize.NormalizedReferenceIsFixed` | bank-reconciliation/normalize.ts:156-158 | normalizing a reference twice changes nothing more, for any case folding that is idempotent and keeps spacing |
| `BankNormalize.RowsArePartitioned` | bank-reconciliation/normalize.ts:47-56 | from raw rows, every accepted movement is placed in exactly one difference, once, and nothing else is |
| `BankCompare.Reconcile` | bank-reconciliation/compare.ts:60-143 | the loops over maps, sets and spliced arrays compute exactly the specified differences; an invalid scope is the only error |
| `BankCompare.ReferencePass` | bank-reconciliation/compare.ts:68-106 | conflicts, one-to-one matches and what each side has left |
| `BankCompare.FallbackPass` | bank-reconciliation/compare.ts:108-124 | pairs the first available candidate of equal amount, date and side, once each |
| `BankTheorems.ReconciliationPartitions` | bank-reconciliation/compare.ts:68-137 | with distinct source keys every bank and every ledger movement is placed exactly as often as it occurs |
| `BankPairing.PairsPerKey` | bank-reconciliation/compare.ts:108-124 | for each amount, date and side the fallback makes exactly min(bank, ledger) pairs and leaves exactly the surplus |
| `BankPairing.NothingPairableIsLeft` | bank-reconciliation/compare.ts:108-129 | no bank-only and ledger-only movement left over share amount, date and side |
| `BankPairing.GreedyIsOptimal` | bank-reconciliation/compare.ts:108-124 | no one-to-one pairing on equal keys makes more pairs |
| `BankPairing.AmbiguityIsSurfaced` | bank-reconciliation/compare.ts:84-97 | a movement is in a conflict exactly when its reference has several movements on a side, and then in that conflict |
| `BankOrder.OrderIndependence` | bank-reconciliation/compare.ts:60-143 | for any consistent key order that tells the movements of each side apart, permuting either input leaves the differences and their order unchanged, except inside a conflict's two arrays |
| `BankOrder.TotalOrderTellsApart` | bank-reconciliation/compare.ts:60-143 | a total key order tells movements apart exactly when their source keys are distinct |
| `BankReport.BuildAdjustments` | bank-reconciliation/adjust.ts:48-88 | exactly one draft per unmatched movement, numbered from 1, carrying its fields and approval rule |
| `BankReport.BuildReport` | bank-reconciliation/report.ts:32-54 | the drafts are exactly those of the unmatched movements, the net adjustment is their signed sum, and the report's identity |
| `BankReport.ReconcileAndReport` | bank-reconciliation/report.ts:48-52 | `reconciled` holds exactly when every difference is matched and the two final balances are equal |
| `BankReport.CentsAreConserved` | bank-reconciliation/compare.ts:68-137 | bank total minus ledger total is carried by reference matches, conflicts and unmatched movements alone; fallback pairs contribute zero |
| `BankReport.NetAdjustment` | bank-reconciliation/report.ts:38-42 | the net adjustment in terms of the gaps of the unmatched movements |
| `BankReport.FullyMatchedGap` | bank-reconciliation/compare.ts:90-94 | when everything is matched the totals differ by what the reference matches differ in, and nothing else |
| `BankFacts.MatchedCentsAgreeExactly` | bank-reconciliation/compare.ts:84-124 | all matched pairs agree in signed cents exactly when every two movements that share a one-to-one reference do |
| `BankFacts.MatchedMayDifferInCents` | bank-reconciliation/compare.ts:90-94 | two movements that normalization accepts, matched by reference although they differ by 150 cents |
| `BankFacts.LeftoverIsSurplus` | bank-reconciliation/compare.ts:108-129 | the ledger movements left over total the ledger's surplus over the bank per amount, date and side among movements of open references |
| `BankFacts.NetAdjustmentClosesGapExactly` | bank-reconciliation/report.ts:38-52 | the net adjustment moves the ledger by the whole unmatched gap exactly when that surplus nets to zero |
| `BankFacts.NetAdjustmentMayMissGap` | bank-reconciliation/report.ts:38-52 | one accepted ledger movement the bank lacks is adjusted in the wrong direction |
| `ManagedConfig.PlanAssetTransitions` | configurator/managed-config.ts:727-802 | the writes and results of every host and asset; the only failure is a redirected directory of a present host |
| `ManagedTransitions.PlannedWrites` | configurator/managed-config.ts:727-802 | an asset is written exactly when its host is present, both compositions own it and its file is absent or holds the recorded bytes, and then with the target's bytes |
| `ManagedTransitions.CommittedAsset` | configurator/managed-config.ts:1118-1143 | a committed plan leaves the target's bytes where it writes and every other asset alone |
| `ManagedTransitions.RollbackIsPlanned` | configurator/managed-config.ts:940-1002 | after a committed upgrade a rollback can be planned, is accepted by the commit, and restores the original composition |
| `ManagedTransitions.UpgradeIsAcceptable` | configurator/managed-config.ts:1095-1123 | the commit accepts a planned upgrade exactly when the requested version is a semantic version |
| `ManagedTransitions.RoundTripRestoresExactly` | configurator/managed-config.ts:727-1002 | an asset ends as it began exactly when the transition does not own it, or its file was there and was unreadable, held the original's bytes or did not hold the upgrade's |
| `ManagedTransitions.ForeignBytesUntouched` | configurator/managed-config.ts:752-802 | unreadable files and bytes neither composition recorded are touched by neither commit |
| `ManagedTransitions.UpgradeThenRollback` | configurator/managed-config.ts:849-1002 | original composition current again, each asset restored exactly under that condition, foreign bytes untouched, a further rollback plans zero writes |
| `ManagedCommit.FileSystem.StageWrite` | configurator/managed-config.ts:1012-1042 | stages the bytes under a fresh temporary file and remembers what the target held, or fails without touching any target |
| `ManagedCommit.FileSystem.RestoreAfterFailure` | configurator/managed-config.ts:1044-1084 | when restore writes succeed, every path is back to its original bytes or absence |
| `ManagedCommit.FileSystem.RenameAll` | configurator/managed-config.ts:1130-1134 | succeeds exactly when no rename and no hook fails, with every planned write in place; otherwise only replaced targets differ |
| `ManagedCommit.FileSystem.CommitTransition` | configurator/managed-config.ts:1095-1144 | all or nothing: succeeds exactly when nothing fails and the candidate is valid, with every write and the manifest in place; otherwise, restores succeeding, every path is as it was |
| `CanonicalJson.CanonicalTextIdentifiesMeaning` | missions/runtime.ts:58-69 | two values print alike exactly when they are equal up to object key order at every depth |
| `CanonicalJson.ValueReadsBack` | missions/runtime.ts:58-69 | a printed value can be read off the front of any text in one way only |
| `TenantScope.ScopeKeyIdentifiesScope` | tenant-core/scope.ts:91-99 | for arbitrary strings, equal keys exactly when the trimmed company ids, RUCs and periods are equal |
| `TenantScope.ValidationKeepsIdentity` | tenant-core/scope.ts:47-99 | validation keeps the key and is idempotent, and on valid scopes equal keys are equal scopes |
| `FiscalScope.PeriodChecksAgree` | close-calculations/types.ts:206-226 | the month arithmetic here and the pattern of the tenant scope accept the same RUCs and periods |
| `Ledger.ValidateLedger` | ledger/validate.ts:46-156 | valid exactly when the chain is non-empty and all stated rules hold at every entry; the reasons are all violations in order and the first divergence is the least one |
| `Ledger.RulesAreExact` | ledger/validate.ts:32-45 | an entry has a violation exactly when it fails one of the stated rules |
| `Ledger.LongestValidPrefix` | ledger/validate.ts:46-156 | a prefix is a valid chain exactly when it is non-empty and ends before the first divergence |
| `Ledger.ValidChainCounts` | ledger/validate.ts:80-106 | in a valid chain entry i has sequence i+1 and links to the payload before it |
| `Ledger.AppendExtends` | ledger/validate.ts:46-156 | exactly which entries extend a valid chain |
| `SkillPins.CreateMissionSkillPin` | skills/pinning.ts:253-307 | the pin or the canonical denial, from the loops over the packs |
| `SkillPins.VerifyMissionSkillPin` | skills/pinning.ts:313-431 | acceptance or the canonical denial, from all the checks |
| `SkillPinTheorems.DenialIsCanonical` | skills/pinning.ts:102-131 | a denial lists each reason once in code and identity order, whatever order the checks found them in |
| `SkillPinTheorems.CreatesExactly` | skills/pinning.ts:253-307 | creation succeeds exactly on sets of distinct, verified, in-force packs, and pins all of them |
| `SkillPinTheorems.VerifiesExactly` | skills/pinning.ts:313-431 | verification accepts exactly sound sets that name the pinned identities and agree on every bound field |
| `SkillPinTheorems.AcceptedPinBindsPacks` | skills/pinning.ts:313-431 | an accepted pin and its packs are in bijection by identity with equal checksum, jurisdiction and vigencia |
| `SkillPinTheorems.PinRoundTrip` | skills/pinning.ts:253-431 | a created pin verifies against any permutation of its packs at exactly the valid dates on which all are in force |
| `SkillPinTheorems.EntryOrderIsDeterministicExactly` | skills/pinning.ts:187-212 | the pin is the same for every input order exactly when no id has two numerically equal versions |
| `SkillPinTheorems.AgreementIsEquality` | skills/pinning.ts:139-141 | for all skills with two given versions agreement is equality of every pinned field exactly when neither version ends with an `@` and the other |
| `SkillPinTheorems.KeysClashExactly` | skills/pinning.ts:139-141 | two versions can share an identity string exactly when one ends with an `@` and the other |
| `SkillPinTheorems.IdentityIsAmbiguous` | skills/pinning.ts:139-141 | two different skills that share an identity string |
| `SkillPinTheorems.DenialNames` | skills/pinning.ts:371-413 | a denial names exactly the missing and the additional skills; a changed version is also missing; `id-mismatch` never occurs |
| `Closing.AssertBalanced` | close-calculations/types.ts:258-286 | accepts exactly balanced entries of well-formed lines, and otherwise reports the first malformed line or the unequal totals |
| `Closing.CloseResultAccounts` | close-calculations/close-results.ts:32-91 | the closing entries of the non-zero balances, or the first failing check |
| `Closing.ClosingConserves` | close-calculations/close-results.ts:32-91 | every source account is posted minus its summed balance, and retained earnings the net result |
| `Closing.ClosingEntriesReportable` | close-calculations/close-results.ts:32-91 | every entry is balanced, in the chart and in scope, numbered from 1 without gaps |
| `Closing.EntryIdsDistinct` | close-calculations/close-results.ts:52-59 | no two entries of one close share an id |
| `Closing.BuildCloseReport` | close-calculations/report.ts:45-88 | accepts exactly reportable entries, always with a balanced trial balance, and moves retained earnings by the posted change |
| `Closing.CloseAndReport` | close-calculations/report.ts:45-88 | an accepted close is always reportable and moves retained earnings by minus the sum of the balances |
| `Closing.CloseAnnualResults` | annual-declaration/close-results.ts:25-37 | the year's close is the December close, and only the annual check can find its scope invalid |
| `Closing.BuildAnnualReport` | annual-declaration/report.ts:49-84 | accepts exactly balanced entries and moves retained earnings by the posted change |
| `Closing.CloseYearAndReport` | annual-declaration/report.ts:49-84 | an accepted year-end close is always reportable, with the same conservation |

## Left out

- Interleaved applies on one mission and store calls that throw: one apply is one atomic step, except that a crash may cut it after any write; nothing in the code locks between awaits.
- The fence store: an apply is given the current fence token as a parameter; acquiring a fence is not part of this model.
- The Postgres store, whose idempotency upsert keeps the old payload hash and so is not the in-memory store.
- Random ids: a started mission gets an id never used before. Event ids, timestamp texts, error messages, HTTP codes and error details are dropped; the error code is kept.
- `MissionRuntime.MissionRuntime.RecoverIncomplete`: one clock reading stands for the sweep, although the source reads the clock per mission.
- Hashing and signatures: SHA-256, `verifySkillPack` and asset hashes are uninterpreted functions; only equality of what they return is used.
- `CanonicalJson.CanonicalTextIdentifiesMeaning`: numbers are integers printed in decimal digits, so fractions and magnitudes from 1e21 on, which print with an exponent, are not covered, nor are `undefined` and values that are not JSON; object keys are enumerated once each.
- `localeCompare` on source keys is any comparator; where order matters it is a strict weak order that tells each side's keys apart, so canonically equivalent keys may tie elsewhere. `toLowerCase` is any function.
- `BankNormalize.NormalizedMovements`: `Date.UTC` rollover is replaced by its effect, the real-date test, including that years below 100 are refused; side tokens are the two of each dialect, so names inherited from the object prototype are not considered.
- Option objects that have no effect, justification texts and the description fields of rows.
- Managed paths are abstract and distinct per host and asset; `normalize` and real directories are not modelled, nor are permissions, `fsync` and what temporary files remain.
- The manifest's JSON text is an encode and decode pair, assumed to round-trip where a later read matters; rendering of assets and semver syntax are parameters.
- `BankNormalize.SqueezeIsCanonical`: speaks of spacing; case folding is a parameter, treated in `BankNormalize.NormalizedReferenceIsFixed`.
- Shape checks of untyped JSON input (tenant scope records, pins that are not objects, packs that are not arrays): inputs are typed, except that skill candidates may be non-objects or lack an identity.
- Version parsing in skill pins is a parameter giving three numbers, and date parsing a predicate.
- Depreciation, provisions, provisional and annual income tax, and the rate checks: formulas on single inputs that would only add easy members.
- Routing, review lenses, policy, materiality, projection, role matrix, RUC checksum: finite or single-branch decisions.
- CLI, MCP server, frontend, audit logger, sanitizer patterns and the CDR successor: plumbing around the core.
