/**
 Event-log replay and the recovery policy (`recovery/replay.ts`, `recovery/policy.ts`), and their
 agreement on every log the runtime can produce.
 */
module Recovery {
  import opened Wrappers
  import opened MissionStatus
  import opened MissionTypes
  import opened MissionProtocol
  import opened MissionRuns
  import opened MissionInvariants
  import opened LogGaps

  datatype ReplayError = EmptyLog | ForeignEvent(at: nat) | SequenceNotIncreasing(at: nat)

  /** Event `i` belongs to the log's mission and comes after the event before it. */
  ghost predicate EventInPlace(events: seq<Event>, i: nat)
    requires i < |events|
  {
    events[i].missionId == events[0].missionId && events[i].sequence > (if i == 0 then -1 else events[i - 1].sequence)
  }

  ghost predicate Replayable(events: seq<Event>) {
    events != [] && forall i :: 0 <= i < |events| ==> EventInPlace(events, i)
  }

  /** The last event wins, provided every event is in place; otherwise the first one out of place is reported. */
  method ReplayMission(events: seq<Event>) returns (r: Result<Snapshot, ReplayError>)
    ensures r.Ok? <==> Replayable(events)
    ensures r.Ok? ==> r.value == events[|events| - 1].snapshot
    ensures r == Err(EmptyLog) <==> events == []
    ensures r.Err? && !r.error.EmptyLog? ==>
      && r.error.at < |events| && !EventInPlace(events, r.error.at)
      && (forall i :: 0 <= i < r.error.at ==> EventInPlace(events, i))
      && (r.error.ForeignEvent? <==> events[r.error.at].missionId != events[0].missionId)
  {
    if events == [] {
      return Err(EmptyLog);
    }
    var missionId := events[0].missionId;
    var previousSequence := -1;
    for i := 0 to |events|
      invariant forall k :: 0 <= k < i ==> EventInPlace(events, k)
      invariant previousSequence == if i == 0 then -1 else events[i - 1].sequence
    {
      assert events[i].missionId == missionId && events[i].sequence > previousSequence <==> EventInPlace(events, i);
      if events[i].missionId != missionId {
        return Err(ForeignEvent(i));
      }
      if events[i].sequence <= previousSequence {
        return Err(SequenceNotIncreasing(i));
      }
      previousSequence := events[i].sequence;
    }
    return Ok(events[|events| - 1].snapshot);
  }

  /** Crash-free, replaying a mission's log gives the stored snapshot, whatever restarts sweep. */
  lemma LogReplaysToStore(config: Config, turns: seq<Turn>, id: Id)
    requires Feasible(config, turns) && CrashFree(turns) && id in Run(config, turns).db.missions
    ensures ReplaysToStore(Run(config, turns).db, id)
  {
    LogMirrorsStore(config, turns, id);
    MirrorReplays(Run(config, turns).db, id);
  }

  /** In every run, crashes included, the log replays to the stored snapshot exactly when it has caught up with it. */
  lemma LogReplaysToStoreExactly(config: Config, turns: seq<Turn>, id: Id)
    requires Feasible(config, turns)
    ensures ReplaysToStore(Run(config, turns).db, id) <==> CaughtUp(ViewOf(Run(config, turns).db, id))
  {
    LogReplaysAfterCrashes(config, turns, id);
    CaughtUpExactly(config, turns, id);
    assert ViewOf(Run(config, turns).db, id).log == Log(Run(config, turns).db, id);
  }

  /** The mission's log replays, and to the stored snapshot. */
  ghost predicate ReplaysToStore(db: Db, id: Id) {
    && id in db.missions && Replayable(Log(db, id))
    && Log(db, id)[|Log(db, id)| - 1].snapshot == db.missions[id]
  }

  lemma MirrorReplays(db: Db, id: Id)
    requires LogMirrors(ViewOf(db, id), id) && id in db.missions
    ensures ReplaysToStore(db, id)
  {
    var log := Log(db, id);
    forall i | 0 <= i < |log| ensures EventInPlace(log, i) {
      assert log[i].sequence == i + 1;
      assert i > 0 ==> log[i - 1].sequence == i;
    }
  }

  /** Whatever crashed, a non-empty log still replays, to a snapshot that was once stored. */
  lemma LogReplaysAfterCrashes(config: Config, turns: seq<Turn>, id: Id)
    requires Feasible(config, turns)
    ensures var world := Run(config, turns); var log := Log(world.db, id);
      log != [] ==> Replayable(log) && log[|log| - 1].snapshot in world.saved && id in world.db.missions
                    && log[|log| - 1].sequence <= world.db.missions[id].lastEventSequence
  {
    LogsNeverOvertakeStores(config, turns, id);
    var view := ViewOf(Run(config, turns).db, id);
    forall i | 0 <= i < |view.log| ensures EventInPlace(view.log, i) {
      assert i > 0 ==> view.log[i - 1].sequence < view.log[i].sequence;
    }
  }

  // ------------------------------------------------------- recovery policy

  datatype RecoveryOutcome = CompletedOutcome | FailedOutcome | RunningOutcome

  predicate IsUnknownMarker(event: Event) {
    event.eventType == UnknownEvent || event.snapshot.status == Unknown
  }

  predicate IsTerminalEvent(event: Event) {
    || event.eventType == CompletedEvent || event.eventType == FailedEvent
    || event.snapshot.status == Completed || event.snapshot.status == Failed
  }

  ghost predicate HasMarker(log: seq<Event>) {
    exists i :: 0 <= i < |log| && IsUnknownMarker(log[i])
  }

  /** `i` is the last UNKNOWN marker. */
  ghost predicate LastMarker(events: seq<Event>, i: int) {
    0 <= i < |events| && IsUnknownMarker(events[i]) && forall k :: i < k < |events| ==> !IsUnknownMarker(events[k])
  }

  /** `j` is the first terminal event after the last UNKNOWN marker. */
  ghost predicate DecidingEvent(events: seq<Event>, j: int) {
    exists i :: 0 <= i < j && LastMarker(events, i) && j < |events| && IsTerminalEvent(events[j])
                && forall k :: i < k < j ==> !IsTerminalEvent(events[k])
  }

  method DecideUnknownRecovery(events: seq<Event>) returns (outcome: RecoveryOutcome)
    ensures outcome == RunningOutcome <==> !exists j :: DecidingEvent(events, j)
    ensures forall j :: DecidingEvent(events, j) ==>
      outcome == if events[j].snapshot.status == Completed then CompletedOutcome else FailedOutcome
  {
    var lastUnknown := -1;
    for i := 0 to |events|
      invariant -1 <= lastUnknown < i
      invariant lastUnknown >= 0 ==> IsUnknownMarker(events[lastUnknown])
      invariant forall k :: lastUnknown < k < i ==> !IsUnknownMarker(events[k])
    {
      if IsUnknownMarker(events[i]) {
        lastUnknown := i;
      }
    }
    assert forall i :: LastMarker(events, i) ==> i == lastUnknown;
    if lastUnknown >= 0 {
      for i := lastUnknown + 1 to |events|
        invariant forall k :: lastUnknown < k < i ==> !IsTerminalEvent(events[k])
      {
        if IsTerminalEvent(events[i]) {
          assert LastMarker(events, lastUnknown);
          assert DecidingEvent(events, i);
          forall j | DecidingEvent(events, j) ensures j == i {
            var m :| 0 <= m < j && LastMarker(events, m) && j < |events| && IsTerminalEvent(events[j])
                     && forall k :: m < k < j ==> !IsTerminalEvent(events[k]);
            assert m == lastUnknown;
          }
          return if events[i].snapshot.status == Completed then CompletedOutcome else FailedOutcome;
        }
      }
    }
    return RunningOutcome;
  }

  /** The outcome that deciding by evidence must have, given what replay says. */
  ghost function OutcomeOf(status: Status): RecoveryOutcome {
    if status == Completed then CompletedOutcome else if status == Failed then FailedOutcome else RunningOutcome
  }

  /** Where only UNKNOWN follows a terminal state, evidence after the last marker is exactly a terminal last event. */
  lemma EvidenceIsLastEvent(view: View)
    requires SweptAtTerminal(view) && RuntimeTypes(view.log) && HasMarker(view.log)
    ensures var log := view.log;
      forall j :: DecidingEvent(log, j) <==> 0 <= j == |log| - 1 && log[j].snapshot.status in TERMINAL_STATES
  {
    var log := view.log;
    var i :| 0 <= i < |log| && IsUnknownMarker(log[i]);
    var last := HasLastMarker(log, i);
    TerminalByStatus(log);
    forall k | last < k < |log| - 1 ensures !IsTerminalEvent(log[k]) {
      assert SweptAt(view, k) && !IsUnknownMarker(log[k + 1]);
    }
    if log[|log| - 1].snapshot.status in TERMINAL_STATES {
      assert last < |log| - 1;
      assert DecidingEvent(log, |log| - 1);
    }
  }

  lemma TerminalByStatus(log: seq<Event>)
    requires RuntimeTypes(log)
    ensures forall k :: 0 <= k < |log| ==> (IsTerminalEvent(log[k]) <==> log[k].snapshot.status in TERMINAL_STATES)
    ensures forall k :: 0 <= k < |log| && IsTerminalEvent(log[k]) ==> !IsUnknownMarker(log[k])
  {
  }

  lemma {:induction false} HasLastMarker(log: seq<Event>, i: nat) returns (last: nat)
    requires i < |log| && IsUnknownMarker(log[i])
    ensures LastMarker(log, last)
    decreases |log| - i
  {
    if j :| i < j < |log| && IsUnknownMarker(log[j]) {
      last := HasLastMarker(log, j);
    } else {
      last := i;
    }
  }

  /** What the evidence after the last UNKNOWN marker says, if there is any, is what the last event says. */
  ghost predicate EvidenceIsFinal(log: seq<Event>) {
    forall j :: DecidingEvent(log, j) ==> log[j].snapshot.status == log[|log| - 1].snapshot.status
  }

  /** In a log with a marker and no evidence after it, the last event is not terminal. */
  lemma TerminalEndHasEvidence(log: seq<Event>) returns (j: nat)
    requires RuntimeTypes(log) && HasMarker(log) && log[|log| - 1].snapshot.status in TERMINAL_STATES
    ensures DecidingEvent(log, j)
  {
    var i :| 0 <= i < |log| && IsUnknownMarker(log[i]);
    var last := HasLastMarker(log, i);
    TerminalByStatus(log);
    j := FirstTerminal(log, last, |log| - 1);
  }

  lemma {:induction false} FirstTerminal(log: seq<Event>, i: nat, j: nat) returns (first: nat)
    requires LastMarker(log, i) && i < j < |log| && IsTerminalEvent(log[j])
    ensures DecidingEvent(log, first)
    decreases j
  {
    if k :| i < k < j && IsTerminalEvent(log[k]) {
      first := FirstTerminal(log, i, k);
    } else {
      first := j;
    }
  }

  lemma EvidenceIsTerminal(log: seq<Event>, j: int)
    requires RuntimeTypes(log) && DecidingEvent(log, j)
    ensures log[j].snapshot.status in TERMINAL_STATES
  {
    TerminalByStatus(log);
  }

  /** What the evidence decides agrees with the last event exactly when the evidence is final. */
  lemma DecidesAsLastExactly(log: seq<Event>, outcome: RecoveryOutcome)
    requires RuntimeTypes(log) && HasMarker(log)
    requires outcome == RunningOutcome <==> !exists j :: DecidingEvent(log, j)
    requires forall j :: DecidingEvent(log, j) ==>
      outcome == if log[j].snapshot.status == Completed then CompletedOutcome else FailedOutcome
    ensures outcome == OutcomeOf(log[|log| - 1].snapshot.status) <==> EvidenceIsFinal(log)
  {
    if j :| DecidingEvent(log, j) {
      EvidenceIsTerminal(log, j);
      forall k | DecidingEvent(log, k) ensures log[k].snapshot.status == log[j].snapshot.status {
        EvidenceIsTerminal(log, k);
      }
    } else if log[|log| - 1].snapshot.status in TERMINAL_STATES {
      var j := TerminalEndHasEvidence(log);
    }
  }

  /**
   For every log the runtime can produce that carries an UNKNOWN marker, crashed and swept as the run
   may be, replay succeeds, and deciding by evidence agrees with it (completed or failed exactly when
   replay says so, else running) exactly when the evidence, if there is any, is final.
   */
  method DecideAgreesWithReplay(ghost config: Config, ghost turns: seq<Turn>, ghost id: Id, log: seq<Event>)
    returns (outcome: RecoveryOutcome, replayed: Result<Snapshot, ReplayError>)
    requires Feasible(config, turns) && log == Log(Run(config, turns).db, id) && HasMarker(log)
    ensures replayed.Ok? && (outcome == OutcomeOf(replayed.value.status) <==> EvidenceIsFinal(log))
  {
    ProducedLog(config, turns, id);
    outcome, replayed := DecideAndReplay(log);
  }

  method DecideAndReplay(log: seq<Event>) returns (outcome: RecoveryOutcome, replayed: Result<Snapshot, ReplayError>)
    requires Replayable(log) && RuntimeTypes(log) && HasMarker(log)
    ensures replayed.Ok? && (outcome == OutcomeOf(replayed.value.status) <==> EvidenceIsFinal(log))
  {
    outcome := DecideUnknownRecovery(log);
    DecidesAsLastExactly(log, outcome);
    replayed := ReplayMission(log);
  }

  lemma ProducedLog(config: Config, turns: seq<Turn>, id: Id)
    requires Feasible(config, turns)
    ensures var log := Log(Run(config, turns).db, id); RuntimeTypes(log) && (log != [] ==> Replayable(log))
  {
    LogReplaysAfterCrashes(config, turns, id);
    OnlyRuntimeTypes(config, turns, id);
    assert ViewOf(Run(config, turns).db, id).log == Log(Run(config, turns).db, id);
  }

  // ---------------------------------------------- when the evidence is final

  /** As long as no crash cuts a sweep that names a terminal state, the evidence is final. */
  lemma UncutSweepsKeepEvidence(config: Config, turns: seq<Turn>, id: Id)
    requires Feasible(config, turns) && CutSweepsAvoid(turns, TERMINAL_STATES)
    ensures EvidenceIsFinal(Log(Run(config, turns).db, id))
  {
    OnlySweepsFollowTerminal(config, turns, id);
    OnlyRuntimeTypes(config, turns, id);
    SweptEvidenceIsFinal(ViewOf(Run(config, turns).db, id));
  }

  lemma SweptEvidenceIsFinal(view: View)
    requires SweptAtTerminal(view) && RuntimeTypes(view.log)
    ensures EvidenceIsFinal(view.log)
  {
    if HasMarker(view.log) {
      EvidenceIsLastEvent(view);
    } else {
      NoEvidence(view.log);
    }
  }

  lemma NoEvidence(log: seq<Event>)
    requires !HasMarker(log)
    ensures forall j :: !DecidingEvent(log, j)
  {
  }

  /** So it is in every run whose log misses no event directly after its evidence. */
  lemma GaplessEvidenceIsFinal(config: Config, turns: seq<Turn>, id: Id)
    requires Feasible(config, turns) && NoGapAfterEvidence(Log(Run(config, turns).db, id))
    ensures EvidenceIsFinal(Log(Run(config, turns).db, id))
  {
    ProducedLog(config, turns, id);
    forall i | 0 < i < |Log(Run(config, turns).db, id)| ensures SweptAfterTerminal(Log(Run(config, turns).db, id), i) {
      if TerminalWithoutGap(Log(Run(config, turns).db, id), i) { GaplessAfterTerminal(config, turns, id, i); }
    }
    NoGapMeansFinal(Log(Run(config, turns).db, id));
  }

  ghost predicate NoGapAfterEvidence(log: seq<Event>) {
    forall j :: DecidingEvent(log, j) && j + 1 < |log| ==> NoGapBefore(log, j + 1)
  }

  ghost predicate TerminalWithoutGap(log: seq<Event>, i: nat)
    requires 0 < i < |log|
  {
    NoGapBefore(log, i) && log[i - 1].snapshot.status in TERMINAL_STATES
  }

  ghost predicate SweptAfterTerminal(log: seq<Event>, i: nat)
    requires 0 < i < |log|
  {
    TerminalWithoutGap(log, i) ==> log[i].snapshot.status == Unknown
  }

  lemma NoGapMeansFinal(log: seq<Event>)
    requires RuntimeTypes(log) && NoGapAfterEvidence(log)
    requires forall i :: 0 < i < |log| ==> SweptAfterTerminal(log, i)
    ensures EvidenceIsFinal(log)
  {
    forall j | DecidingEvent(log, j) ensures log[j].snapshot.status == log[|log| - 1].snapshot.status {
      EvidenceIsTerminal(log, j);
      NoMarkerAfter(log, j);
      assert j + 1 < |log| ==> NoGapBefore(log, j + 1) && SweptAfterTerminal(log, j + 1);
    }
  }

  lemma NoMarkerAfter(log: seq<Event>, j: int)
    requires DecidingEvent(log, j)
    ensures j + 1 < |log| ==> log[j + 1].snapshot.status != Unknown
  {
  }
}
