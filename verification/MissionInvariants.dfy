/**
 What holds of every mission in every reachable state: under crashes at any write, and, more
 strongly, when every call runs to its end.
 */
module MissionInvariants {
  import opened Wrappers
  import opened MissionStatus
  import opened MissionTypes
  import opened MissionProtocol
  import opened MissionRuns

  // ------------------------------------------- every run, crashes included

  /** The log is a strictly increasing record of snapshots once stored, and the store is never behind it. */
  ghost predicate LogBehindStore(view: View, saved: set<Snapshot>, id: Id) {
    && (view.log != [] ==> view.mission.Some?)
    && (view.mission.Some? ==>
          view.mission.value in saved && view.mission.value.id == id && view.mission.value.lastEventSequence >= 1)
    && (forall i :: 0 <= i < |view.log| ==>
          && view.log[i] == BuildEvent(view.log[i].snapshot, view.log[i].eventType)
          && view.log[i].missionId == id
          && view.log[i].snapshot in saved
          && 1 <= view.log[i].sequence <= view.mission.value.lastEventSequence)
    && (forall i, j :: 0 <= i < j < |view.log| ==> view.log[i].sequence < view.log[j].sequence)
  }

  lemma {:induction false} RunConsistent(config: Config, turns: seq<Turn>)
    ensures Consistent(Run(config, turns).db)
  {
    if turns != [] {
      RunConsistent(config, turns[..|turns| - 1]);
      var world := Run(config, turns[..|turns| - 1]);
      ExecConsistent(world.db, Done(config, world.db, turns[|turns| - 1]));
    }
  }

  /** The last turn of a run, seen from one mission. */
  lemma LastTurn(config: Config, turns: seq<Turn>, id: Id) returns (world: World, step: Step, at: Option<Advance>)
    requires Feasible(config, turns) && turns != []
    ensures world == Run(config, turns[..|turns| - 1]) && step == turns[|turns| - 1].step
    ensures var v, world' := ViewOf(world.db, id), Run(config, turns);
      var v' := ViewOf(world'.db, id);
      && world.saved <= world'.saved
      && (at.None? ==> v' == v)
      && (at.Some? ==> at.value.next.id == id && at.value.next in world'.saved
                       && (v' == Stored(v, at.value) || v' == StoredAndLogged(v, at.value)))
      && (at.Some? && turns[|turns| - 1].crash.None? ==> v' == StoredAndLogged(v, at.value))
      && (at.Some? && v.mission.Some? ==> Caused(config, v.mission.value, step, at.value))
      && (at.Some? && v.mission.None? ==>
            v.log == [] && step.StartStep? && at.value == StartAdvance(step.create, id, step.now))
  {
    var turn := turns[|turns| - 1];
    world, step := Run(config, turns[..|turns| - 1]), turn.step;
    RunConsistent(config, turns[..|turns| - 1]);
    at := TurnEffect(config, world.db, turn, id);
    StepAdvancesFacts(config, world.db, step);
  }

  lemma BehindStoreStep(view: View, saved: set<Snapshot>, id: Id, adv: Advance)
    requires LogBehindStore(view, saved, id)
    requires adv.next.id == id && adv.next in saved
    requires view.mission.Some? ==> adv.next.lastEventSequence == view.mission.value.lastEventSequence + 1
    requires view.mission.None? ==> adv.next.lastEventSequence == 1
    ensures LogBehindStore(Stored(view, adv), saved, id)
    ensures LogBehindStore(StoredAndLogged(view, adv), saved, id)
  {
  }

  lemma {:induction false} LogsNeverOvertakeStores(config: Config, turns: seq<Turn>, id: Id)
    requires Feasible(config, turns)
    ensures var world := Run(config, turns); LogBehindStore(ViewOf(world.db, id), world.saved, id)
  {
    if turns != [] {
      LogsNeverOvertakeStores(config, turns[..|turns| - 1], id);
      var world, step, at := LastTurn(config, turns, id);
      if at.Some? {
        BehindStoreStep(ViewOf(world.db, id), Run(config, turns).saved, id, at.value);
      }
    }
  }

  /** In every run, listing a mission's events gives its log as it was appended. */
  lemma ListingIsTheLog(config: Config, turns: seq<Turn>, id: Id)
    requires Feasible(config, turns)
    ensures EventList(Run(config, turns).db, id) == Log(Run(config, turns).db, id)
  {
    LogsNeverOvertakeStores(config, turns, id);
    var view := ViewOf(Run(config, turns).db, id);
    assert InSequence(view.log);
    ListedInSequence(view.log);
  }

  // ---------------------------------------------------------- crash-free runs

  /** The log, numbered 1 to n by sequence, version and `lastEventSequence`, ends with the stored snapshot. */
  ghost predicate LogMirrors(view: View, id: Id) {
    && (view.mission.Some? <==> view.log != [])
    && (forall i :: 0 <= i < |view.log| ==>
          && view.log[i].missionId == id && view.log[i] == BuildEvent(view.log[i].snapshot, view.log[i].eventType)
          && view.log[i].sequence == view.log[i].snapshot.version == i + 1)
    && (view.log != [] ==> view.log[|view.log| - 1].snapshot == view.mission.value)
  }

  /** A legal walk through the transition table, from DRAFT. */
  ghost predicate IsWalk(log: seq<Event>) {
    && (log != [] ==> log[0].snapshot.status == Draft)
    && (forall i :: 0 < i < |log| ==> log[i].snapshot.status in ValidTransitions(log[i - 1].snapshot.status))
  }

  lemma MirrorExtends(view: View, id: Id, adv: Advance)
    requires LogMirrors(view, id) && view.mission.Some? && adv.next.id == id
    requires adv.next.version == view.mission.value.version + 1
    requires adv.next.lastEventSequence == view.mission.value.lastEventSequence + 1
    ensures LogMirrors(StoredAndLogged(view, adv), id)
  {
    var n := |view.log|;
    assert view.log[n - 1].snapshot == view.mission.value;
    assert view.log[n - 1].sequence == n;
  }

  /** Crash-free, and whatever restarts sweep, the log tells the mission's whole story and ends at the store. */
  lemma {:induction false} LogMirrorsStore(config: Config, turns: seq<Turn>, id: Id)
    requires Feasible(config, turns) && CrashFree(turns)
    ensures LogMirrors(ViewOf(Run(config, turns).db, id), id)
  {
    if turns != [] {
      assert turns[|turns| - 1] in turns;
      assert forall t :: t in turns[..|turns| - 1] ==> t in turns;
      LogMirrorsStore(config, turns[..|turns| - 1], id);
      var world, step, at := LastTurn(config, turns, id);
      var view := ViewOf(world.db, id);
      if at.Some? && view.mission.Some? {
        CausedAdvancesByOne(config, view.mission.value, step, at.value);
        MirrorExtends(view, id, at.value);
      }
    }
  }

  lemma TargetsAreLegal(config: Config, mission: Snapshot, command: Command)
    requires ResolveTarget(config, mission, command).Ok?
    ensures ResolveTarget(config, mission, command).value.status in ValidTransitions(mission.status)
  {
  }

  lemma CausedIsLegal(config: Config, mission: Snapshot, step: Step, adv: Advance)
    requires Caused(config, mission, step, adv)
    requires step.RecoverStep? ==> step.statuses <= DEFAULT_RECOVERABLE + {Unknown}
    ensures adv.next.status in ValidTransitions(mission.status)
  {
    if step.ApplyStep? { TargetsAreLegal(config, mission, step.command); }
  }

  lemma WalkExtends(view: View, id: Id, adv: Advance)
    requires LogMirrors(view, id) && view.mission.Some?
    ensures IsWalk(StoredAndLogged(view, adv).log) <==>
            IsWalk(view.log) && adv.next.status in ValidTransitions(view.mission.value.status)
  {
    var n, log' := |view.log|, StoredAndLogged(view, adv).log;
    assert log'[n - 1].snapshot == view.mission.value && log'[n].snapshot == adv.next;
    assert log'[..n] == view.log;
    assert forall i :: 0 <= i < n ==> log'[i] == view.log[i];
  }

  /** The log refines the store: it replays to the stored snapshot along a legal, gap-free walk. */
  lemma {:induction false} LogRefinesStore(config: Config, turns: seq<Turn>, id: Id)
    requires Feasible(config, turns) && CrashFree(turns) && LegalSweeps(turns)
    ensures LogMirrors(ViewOf(Run(config, turns).db, id), id) && IsWalk(ViewOf(Run(config, turns).db, id).log)
  {
    LogMirrorsStore(config, turns, id);
    if turns != [] {
      assert turns[|turns| - 1] in turns;
      assert forall t :: t in turns[..|turns| - 1] ==> t in turns;
      LogRefinesStore(config, turns[..|turns| - 1], id);
      var world, step, at := LastTurn(config, turns, id);
      var view := ViewOf(world.db, id);
      if at.Some? && view.mission.Some? {
        CausedIsLegal(config, view.mission.value, step, at.value);
        WalkExtends(view, id, at.value);
      }
    }
  }

  /** In a walk only the last event can be terminal. */
  lemma WalkStopsAtTerminal(log: seq<Event>, i: nat)
    requires IsWalk(log) && i + 1 < |log|
    ensures log[i].snapshot.status !in TERMINAL_STATES
  {
    TableFacts(log[i].snapshot.status);
    assert log[i + 1].snapshot.status in ValidTransitions(log[i + 1 - 1].snapshot.status);
  }

  // ---------------------------------------- terminal states under crashes

  /** A logged terminal state is the last event, and the store has stopped at it. */
  ghost predicate StopsAtTerminal(view: View) {
    forall i :: 0 <= i < |view.log| && view.log[i].snapshot.status in TERMINAL_STATES ==>
      i == |view.log| - 1 && view.mission == Some(view.log[i].snapshot)
  }

  lemma StopsStep(view: View, adv: Advance)
    requires StopsAtTerminal(view)
    requires view.mission.Some? ==> view.mission.value.status !in TERMINAL_STATES
    requires view.mission.None? ==> view.log == []
    ensures StopsAtTerminal(Stored(view, adv)) && StopsAtTerminal(StoredAndLogged(view, adv))
  {
  }

  lemma {:induction false} NothingFollowsTerminal(config: Config, turns: seq<Turn>, id: Id)
    requires Feasible(config, turns) && SweepsAvoid(turns, TERMINAL_STATES)
    ensures StopsAtTerminal(ViewOf(Run(config, turns).db, id))
  {
    if turns != [] {
      assert turns[|turns| - 1] in turns;
      assert forall t :: t in turns[..|turns| - 1] ==> t in turns;
      NothingFollowsTerminal(config, turns[..|turns| - 1], id);
      var world, step, at := LastTurn(config, turns, id);
      if at.Some? { StopsStep(ViewOf(world.db, id), at.value); }
    }
  }

  /** A logged terminal state is the last event and still stored, or was swept to UNKNOWN by the next one. */
  ghost predicate SweptAtTerminal(view: View) {
    forall i :: 0 <= i < |view.log| ==> SweptAt(view, i)
  }

  ghost predicate SweptAt(view: View, i: nat)
    requires i < |view.log|
  {
    view.log[i].snapshot.status in TERMINAL_STATES ==>
      if i == |view.log| - 1 then view.mission == Some(view.log[i].snapshot)
      else view.log[i + 1].snapshot.status == Unknown
  }

  lemma SweptStep(view: View, adv: Advance)
    requires SweptAtTerminal(view)
    requires view.mission.Some? && view.mission.value.status in TERMINAL_STATES ==> adv.next.status == Unknown
    requires view.mission.None? ==> view.log == []
    ensures SweptAtTerminal(StoredAndLogged(view, adv))
    ensures (view.mission.Some? ==> view.mission.value.status !in TERMINAL_STATES) ==>
            SweptAtTerminal(Stored(view, adv))
  {
    forall i | 0 <= i < |view.log| + 1 ensures SweptAt(StoredAndLogged(view, adv), i) {
      if i < |view.log| { assert SweptAt(view, i); }
    }
    if view.mission.Some? ==> view.mission.value.status !in TERMINAL_STATES {
      forall i | 0 <= i < |view.log| ensures SweptAt(Stored(view, adv), i) {
        assert SweptAt(view, i);
      }
    }
  }

  /** Only a sweep moves a terminal mission; unless a crash cuts that very sweep, the log shows it. */
  lemma {:induction false} OnlySweepsFollowTerminal(config: Config, turns: seq<Turn>, id: Id)
    requires Feasible(config, turns) && CutSweepsAvoid(turns, TERMINAL_STATES)
    ensures SweptAtTerminal(ViewOf(Run(config, turns).db, id))
  {
    if turns != [] {
      assert turns[|turns| - 1] in turns;
      assert forall t :: t in turns[..|turns| - 1] ==> t in turns;
      OnlySweepsFollowTerminal(config, turns[..|turns| - 1], id);
      var world, step, at := LastTurn(config, turns, id);
      var view := ViewOf(world.db, id);
      if at.Some? {
        if view.mission.Some? { TerminalMovesBySweep(config, view.mission.value, step, at.value); }
        SweptStep(view, at.value);
      }
    }
  }

  lemma TerminalMovesBySweep(config: Config, mission: Snapshot, step: Step, adv: Advance)
    requires Caused(config, mission, step, adv)
    ensures mission.status in TERMINAL_STATES ==>
      step.RecoverStep? && mission.status in step.statuses && adv.next.status == Unknown
  {
  }

  /** The event types the runtime writes. */
  ghost predicate RuntimeTypes(log: seq<Event>) {
    forall i :: 0 <= i < |log| ==> log[i].eventType in {StateTransition, ApprovalDecided, Reconciled}
  }

  lemma CausedAdvancesByOne(config: Config, mission: Snapshot, step: Step, adv: Advance)
    requires Caused(config, mission, step, adv)
    ensures adv.next.id == mission.id && adv.next.version == mission.version + 1
    ensures adv.next.lastEventSequence == mission.lastEventSequence + 1
    ensures adv.eventType in {StateTransition, ApprovalDecided, Reconciled}
  {
  }

  lemma {:induction false} OnlyRuntimeTypes(config: Config, turns: seq<Turn>, id: Id)
    requires Feasible(config, turns)
    ensures RuntimeTypes(ViewOf(Run(config, turns).db, id).log)
  {
    if turns != [] {
      OnlyRuntimeTypes(config, turns[..|turns| - 1], id);
      var world, step, at := LastTurn(config, turns, id);
      var view := ViewOf(world.db, id);
      if at.Some? && view.mission.Some? {
        CausedAdvancesByOne(config, view.mission.value, step, at.value);
      }
    }
  }

  // --------------------------------------- reconciling an interrupted call

  /** The decision: record, retry, or leave the mission UNKNOWN for a human. */
  lemma NoExecutionWithoutEvidence(config: Config, db: Db, step: Step)
    requires step.ReconcileStep?
    ensures var answer, result := step.answer, Reconcile(db, step.id, step.answer, step.now).1;
      var unknown := step.id in db.missions && db.missions[step.id].status == Unknown;
      && (StepAdvances(config, db, step) != [] <==> unknown && (Proven(answer) || KnownNotExecuted(answer)))
      && (result.Ok? && result.value.decision == RecordResult <==> unknown && Proven(answer))
      && (result.Ok? <==> unknown && answer.Answers? && (answer.outcome == Executed ==> Proven(answer)))
  {
  }

  ghost predicate Proven(answer: ResolverAnswer) {
    answer.Answers? && answer.outcome == Executed && answer.evidence.Some? && IsVerifiable(answer.evidence.value)
  }

  ghost predicate KnownNotExecuted(answer: ResolverAnswer) {
    answer.Answers? && answer.outcome == NotExecuted
  }

  /**
   In every run, cut or not, reconciling changes a stored mission only if it is the named one, it is
   UNKNOWN and the call is proven executed or known not to be; uncut, it then always does.
   */
  lemma UnknownLeftOnEvidence(config: Config, turns: seq<Turn>, id: Id)
    requires turns != [] && Feasible(config, turns) && turns[|turns| - 1].step.ReconcileStep?
    requires id in Run(config, turns[..|turns| - 1]).db.missions
    ensures var before, step := Run(config, turns[..|turns| - 1]).db.missions[id], turns[|turns| - 1].step;
      var due := step.id == id && before.status == Unknown && (Proven(step.answer) || KnownNotExecuted(step.answer));
      && id in Run(config, turns).db.missions
      && (Run(config, turns).db.missions[id] != before ==> due)
      && (due && turns[|turns| - 1].crash.None? ==>
            Run(config, turns).db.missions[id] == NextSnapshot(before, Running, before, step.now))
  {
    RunConsistent(config, turns[..|turns| - 1]);
    ReconcileTurn(config, Run(config, turns[..|turns| - 1]).db, turns[|turns| - 1], id);
  }

  /** What a reconciling turn does to a stored mission. */
  lemma ReconcileTurn(config: Config, db: Db, turn: Turn, id: Id)
    requires Consistent(db) && turn.step.ReconcileStep? && id in db.missions
    ensures var before, after, step := db.missions[id], Exec(db, Done(config, db, turn)), turn.step;
      var due := step.id == id && before.status == Unknown && (Proven(step.answer) || KnownNotExecuted(step.answer));
      && id in after.missions
      && (after.missions[id] != before ==> due)
      && (due && turn.crash.None? ==> after.missions[id] == NextSnapshot(before, Running, before, step.now))
  {
    NoExecutionWithoutEvidence(config, db, turn.step);
    var at := TurnEffect(config, db, turn, id);
    assert ViewOf(Exec(db, Done(config, db, turn)), id).mission.Some?;
    var advances := StepAdvances(config, db, turn.step);
    if advances != [] && turn.step.id == id {
      AdvanceHappens(config, db, turn.step, advances[0]);
    }
  }

  /** An uncut call leaves each mission it advances at the advance's snapshot. */
  lemma AdvanceHappens(config: Config, db: Db, step: Step, adv: Advance)
    requires Consistent(db) && adv in StepAdvances(config, db, step)
    ensures ViewOf(Exec(db, StepWrites(config, db, step)), adv.next.id) == StoredAndLogged(ViewOf(db, adv.next.id), adv)
  {
    var advances := StepAdvances(config, db, step);
    StepAdvancesFacts(config, db, step);
    var before, after := StepWritesShape(config, db, step);
    AllWritesView(db, before, advances, after, adv);
  }

  lemma AllWritesView(db: Db, before: seq<Write>, advances: seq<Advance>, after: seq<Write>, adv: Advance)
    requires DistinctIds(advances) && RecordsOnly(before) && RecordsOnly(after) && adv in advances
    ensures ViewOf(Exec(db, before + AdvancesWrites(advances) + after), adv.next.id)
         == StoredAndLogged(ViewOf(db, adv.next.id), adv)
  {
    var writes := before + AdvancesWrites(advances) + after;
    AdvancesWritesLength(advances);
    assert writes[..|writes|] == writes;
    PrefixView(db, before, advances, after, |writes|, adv.next.id);
    IndexOfMember(advances, adv);
  }

  lemma IndexOfMember(advances: seq<Advance>, adv: Advance)
    requires DistinctIds(advances) && adv in advances
    ensures var i := IndexOf(advances, adv.next.id); i.Some? && i.value < |advances| && advances[i.value] == adv
  {
    var i :| 0 <= i < |advances| && advances[i] == adv;
    assert IndexOf(advances, adv.next.id) == Some(i);
  }

  // ------------------------------------------------------ at most once

  /** Two raises under one key lie at least a retention period apart. */
  ghost predicate AtMostOncePerTtl(raises: seq<Raise>) {
    forall i, j :: 0 <= i < j < |raises| && raises[i].key == raises[j].key ==>
      raises[j].at >= raises[i].at + IDEMPOTENCY_TTL
  }

  /** Each raise is either still guarded by a record that has not expired, or long enough ago. */
  ghost predicate Guarded(world: World) {
    forall r :: r in world.raises ==>
      || (r.key in world.db.records && world.db.records[r.key].expiresAt >= r.at + IDEMPOTENCY_TTL)
      || world.now >= r.at + IDEMPOTENCY_TTL
  }

  /** What the record writes of one call look like, for the key it runs under. */
  ghost predicate RecordDiscipline(writes: seq<Write>, key: Key, since: Time) {
    && (forall w :: w in writes && w.PutRecord? ==>
        w.record.key == key && w.record.expiresAt >= since + IDEMPOTENCY_TTL)
    && (forall w :: w in writes && w.DropRecord? ==> w.key == key)
    && (forall i :: 0 < i < |writes| ==> !writes[i].DropRecord?)
    && (forall i :: 0 <= i < |writes| && writes[i].SaveSnapshot? ==> exists j :: 0 <= j < i && writes[j].PutRecord?)
  }

  /** An expired record dropped, a record put, state changes, and perhaps a record put again: the discipline holds. */
  lemma ShapeDiscipline(dropped: seq<Write>, put: Write, changes: seq<Write>, after: seq<Write>, key: Key, since: Time)
    requires dropped == [] || dropped == [DropRecord(key)]
    requires put.PutRecord? && put.record.key == key && put.record.expiresAt >= since + IDEMPOTENCY_TTL
    requires forall w <- changes :: w.SaveSnapshot? || w.AppendEvent?
    requires forall w <- after :: w.PutRecord? && w.record.key == key && w.record.expiresAt >= since + IDEMPOTENCY_TTL
    ensures RecordDiscipline(dropped + [put] + changes + after, key, since)
  {
    var writes := dropped + [put] + changes + after;
    assert writes[|dropped|] == put;
    forall i | 0 < i < |writes| ensures !writes[i].DropRecord? {
      assert writes[i] in [put] + changes + after;
    }
    forall i | 0 <= i < |writes| && writes[i].SaveSnapshot? ensures exists j :: 0 <= j < i && writes[j].PutRecord? {
      assert i != |dropped| && (dropped != [] ==> writes[0] == DropRecord(key));
    }
  }

  lemma NothingDisciplined(key: Key, since: Time)
    ensures RecordDiscipline([], key, since) && RecordDiscipline([DropRecord(key)], key, since)
  {
  }

  /**
   How many of a keyed call's writes precede its state change: the expired record's deletion and the
   EXECUTING record.
   */
  ghost function Marks(db: Db, key: Key): nat {
    if key in db.records then 2 else 1
  }

  /** A keyed apply on a stored mission that no live record answers. */
  ghost predicate FreshKeyed(db: Db, step: Step) {
    && step.ApplyStep? && step.ctx.idempotencyKey.Some? && !step.command.kind.CreateKind?
    && !Live(db, step.ctx.idempotencyKey.value, step.clock.lookup) && step.command.missionId in db.missions
  }

  ghost function MarkOf(config: Config, step: Step): Record
    requires step.ApplyStep? && step.ctx.idempotencyKey.Some?
  {
    Record(step.ctx.idempotencyKey.value, config.canonicalHash(step.command), Executing, NoResult,
           step.clock.marked + IDEMPOTENCY_TTL)
  }

  /** The writes of such a call, in order. */
  lemma FreshWrites(config: Config, db: Db, step: Step) returns (dropped: seq<Write>, last: Write)
    requires FreshKeyed(db, step)
    ensures var advances := StepAdvances(config, db, step);
      && StepWrites(config, db, step) == dropped + [PutRecord(MarkOf(config, step))] + AdvancesWrites(advances) + [last]
      && |advances| <= 1 && |dropped| + 1 == Marks(db, step.ctx.idempotencyKey.value)
      && (dropped == [] || dropped == [DropRecord(step.ctx.idempotencyKey.value)])
      && last.PutRecord? && last.record.key == step.ctx.idempotencyKey.value
      && last.record.expiresAt == step.clock.settled + IDEMPOTENCY_TTL
      && (last.record.result.CachedApply? ==> |advances| == 1 && last.record.result.snapshot == advances[0].next)
  {
    var plan := Apply(config, db, step.command, step.ctx, step.clock, step.fence);
    dropped := plan.before[..|plan.before| - 1];
    last := plan.after[0];
    assert plan.before == dropped + [PutRecord(MarkOf(config, step))] && plan.after == [last];
  }

  /** A keyed apply that a live record answers, or that names no mission, at most deletes its expired record. */
  lemma StaleWrites(config: Config, db: Db, step: Step)
    requires step.ApplyStep? && step.ctx.idempotencyKey.Some? && !FreshKeyed(db, step)
    ensures var key, writes := step.ctx.idempotencyKey.value, StepWrites(config, db, step);
      (writes == [] || writes == [DropRecord(key)]) && (Live(db, key, step.clock.lookup) ==> writes == [])
  {
    PlanWritesParts(Apply(config, db, step.command, step.ctx, step.clock, step.fence), []);
  }

  /** A call's record writes touch only its own key, and a record is put before any snapshot is saved. */
  lemma KeyedApplyDiscipline(config: Config, db: Db, step: Step)
    requires step.ApplyStep? && step.ctx.idempotencyKey.Some? && Monotone(step.clock)
    ensures var writes, key := StepWrites(config, db, step), step.ctx.idempotencyKey.value;
      && (Live(db, key, step.clock.lookup) ==> writes == [])
      && RecordDiscipline(writes, key, step.clock.marked)
  {
    var key, since := step.ctx.idempotencyKey.value, step.clock.marked;
    if FreshKeyed(db, step) {
      var dropped, last := FreshWrites(config, db, step);
      ChangesOnly(StepAdvances(config, db, step));
      ShapeDiscipline(dropped, PutRecord(MarkOf(config, step)), AdvancesWrites(StepAdvances(config, db, step)), [last],
                      key, since);
    } else {
      StaleWrites(config, db, step);
      NothingDisciplined(key, since);
    }
  }

  lemma {:induction false} ChangesOnly(advances: seq<Advance>)
    ensures forall w <- AdvancesWrites(advances) :: w.SaveSnapshot? || w.AppendEvent?
  {
    if advances != [] { ChangesOnly(advances[..|advances| - 1]); }
  }

  /** A call without a key writes its state changes and nothing else. */
  lemma UnkeyedWrites(config: Config, db: Db, step: Step)
    requires step.ApplyStep? ==> step.ctx.idempotencyKey.None?
    ensures StepWrites(config, db, step) == AdvancesWrites(StepAdvances(config, db, step))
  {
    if step.ApplyStep? {
      var plan := Apply(config, db, step.command, step.ctx, step.clock, step.fence);
      assert plan.before == [] && plan.after == [];
      assert [] + AdvancesWrites(plan.advances) + [] == AdvancesWrites(plan.advances);
    }
  }

  lemma OtherStepsKeepRecords(config: Config, db: Db, step: Step, n: nat)
    requires step.ApplyStep? ==> step.ctx.idempotencyKey.None?
    requires n <= |StepWrites(config, db, step)|
    ensures Exec(db, StepWrites(config, db, step)[..n]).records == db.records
  {
    var advances, writes := StepAdvances(config, db, step), StepWrites(config, db, step);
    UnkeyedWrites(config, db, step);
    ChangesOnly(advances);
    forall i | 0 <= i < |writes| ensures writes[i].SaveSnapshot? || writes[i].AppendEvent? {
      assert writes[i] in AdvancesWrites(advances);
    }
    NoRecordWrites(db, writes, n);
  }

  lemma {:induction false} NoRecordWrites(db: Db, writes: seq<Write>, n: nat)
    requires n <= |writes| && forall i :: 0 <= i < |writes| ==> writes[i].SaveSnapshot? || writes[i].AppendEvent?
    ensures Exec(db, writes[..n]).records == db.records
  {
    if n > 0 {
      NoRecordWrites(db, writes, n - 1);
      assert writes[..n][..n - 1] == writes[..n - 1];
    }
  }

  /** Under the discipline, other keys keep their records and a put record is still there at the cut. */
  lemma {:induction false} DisciplinedRecords(db: Db, writes: seq<Write>, key: Key, since: Time, n: nat)
    requires n <= |writes| && RecordDiscipline(writes, key, since)
    ensures var db' := Exec(db, writes[..n]);
      && (forall k :: k != key ==> (k in db'.records <==> k in db.records))
      && (forall k :: k != key && k in db.records ==> db'.records[k] == db.records[k])
      && ((exists i :: 0 <= i < n && writes[i].PutRecord?) ==>
            key in db'.records && db'.records[key].expiresAt >= since + IDEMPOTENCY_TTL)
  {
    if n > 0 {
      DisciplinedRecords(db, writes, key, since, n - 1);
      assert writes[..n][..n - 1] == writes[..n - 1];
      assert writes[n - 1] in writes;
    }
  }

  /** The records after a keyed apply, cut anywhere. */
  lemma KeyedTurnRecords(config: Config, db: Db, turn: Turn)
    requires turn.step.ApplyStep? && turn.step.ctx.idempotencyKey.Some? && Monotone(turn.step.clock)
    ensures var key, done := turn.step.ctx.idempotencyKey.value, Done(config, db, turn);
      var db' := Exec(db, done);
      && (Live(db, key, turn.step.clock.lookup) ==> done == [] && db' == db)
      && (forall k :: k != key && k in db.records ==> k in db'.records && db'.records[k] == db.records[k])
      && (Saved(done) != {} ==>
          key in db'.records && db'.records[key].expiresAt >= turn.step.clock.marked + IDEMPOTENCY_TTL)
  {
    var key, writes, done := turn.step.ctx.idempotencyKey.value, StepWrites(config, db, turn.step),
      Done(config, db, turn);
    KeyedApplyDiscipline(config, db, turn.step);
    assert done == writes[..|done|];
    DisciplinedRecords(db, writes, key, turn.step.clock.marked, |done|);
    PutBeforeSave(writes, key, turn.step.clock.marked, |done|);
  }

  lemma PutBeforeSave(writes: seq<Write>, key: Key, since: Time, n: nat)
    requires n <= |writes| && RecordDiscipline(writes, key, since)
    ensures Saved(writes[..n]) != {} ==> exists i :: 0 <= i < n && writes[i].PutRecord?
  {
    if s :| s in Saved(writes[..n]) {
      var i :| 0 <= i < n && writes[i].SaveSnapshot?;
    }
  }

  lemma RaiseStep(config: Config, world: World, turn: Turn)
    requires Guarded(world) && AtMostOncePerTtl(world.raises) && Possible(world, turn.step)
    ensures Guarded(Next(config, world, turn)) && AtMostOncePerTtl(Next(config, world, turn).raises)
  {
    var step, done := turn.step, Done(config, world.db, turn);
    if step.ApplyStep? && step.ctx.idempotencyKey.Some? {
      KeyedTurnRecords(config, world.db, turn);
      if done != [] {
        forall r | r in world.raises && r.key == step.ctx.idempotencyKey.value
          ensures step.clock.lookup >= r.at + IDEMPOTENCY_TTL {
        }
      }
    } else {
      assert done == StepWrites(config, world.db, step)[..|done|];
      OtherStepsKeepRecords(config, world.db, step, |done|);
    }
  }

  /** One key raises mission versions at most once per retention period, crashes or not. */
  lemma {:induction false} RaisedAtMostOnce(config: Config, turns: seq<Turn>)
    requires Feasible(config, turns)
    ensures AtMostOncePerTtl(Run(config, turns).raises) && Guarded(Run(config, turns))
  {
    if turns != [] {
      RaisedAtMostOnce(config, turns[..|turns| - 1]);
      RaiseStep(config, Run(config, turns[..|turns| - 1]), turns[|turns| - 1]);
    }
  }

  // ------------------------------------------- how a stored mission evolves

  /** No stored mission was stamped in the future. */
  lemma {:induction false} StampedInThePast(config: Config, turns: seq<Turn>, id: Id)
    requires Feasible(config, turns) && id in Run(config, turns).db.missions
    ensures Run(config, turns).db.missions[id].updatedAt <= Run(config, turns).now
  {
    var world, step, at := LastTurn(config, turns, id);
    var view' := ViewOf(Run(config, turns).db, id);
    assert view'.mission == Some(Run(config, turns).db.missions[id]);
    if at.None? { StampedInThePast(config, turns[..|turns| - 1], id); }
  }

  /** Identity is fixed at the start, and a change is one version, one event sequence, and no step back in time. */
  ghost predicate Evolves(before: Snapshot, after: Snapshot) {
    && after.id == before.id && after.companyId == before.companyId
    && after.fiscalPeriod == before.fiscalPeriod && after.intent == before.intent
    && (after == before
        || (after.version == before.version + 1 && after.lastEventSequence == before.lastEventSequence + 1
            && after.updatedAt >= before.updatedAt))
  }

  /** Whatever the handlers propose and wherever calls crash, one call lets a stored mission only evolve. */
  lemma StoredMissionEvolves(config: Config, turns: seq<Turn>, id: Id)
    requires turns != [] && Feasible(config, turns)
    requires id in Run(config, turns[..|turns| - 1]).db.missions
    ensures id in Run(config, turns).db.missions
    ensures Evolves(Run(config, turns[..|turns| - 1]).db.missions[id], Run(config, turns).db.missions[id])
  {
    var front := turns[..|turns| - 1];
    StampedInThePast(config, front, id);
    var world, step, at := LastTurn(config, turns, id);
    var view, view' := ViewOf(world.db, id), ViewOf(Run(config, turns).db, id);
    assert view.mission == Some(world.db.missions[id]) && view'.mission.Some?;
    if at.Some? { CausedEvolves(config, view.mission.value, step, at.value, world); }
  }

  lemma CausedEvolves(config: Config, mission: Snapshot, step: Step, adv: Advance, world: World)
    requires Caused(config, mission, step, adv) && Possible(world, step) && mission.updatedAt <= world.now
    ensures Evolves(mission, adv.next) && adv.next != mission
  {
    CausedAdvancesByOne(config, mission, step, adv);
  }

  lemma {:induction false} VersionsNeverDrop(config: Config, turns: seq<Turn>, i: nat, id: Id)
    requires Feasible(config, turns) && i <= |turns| && id in Run(config, turns[..i]).db.missions
    ensures id in Run(config, turns).db.missions
    ensures Run(config, turns).db.missions[id].version >= Run(config, turns[..i]).db.missions[id].version
  {
    if i == |turns| {
      assert turns[..i] == turns;
    } else {
      assert turns[..|turns| - 1][..i] == turns[..i];
      VersionsNeverDrop(config, turns[..|turns| - 1], i, id);
      VersionAfterTurn(config, turns, id);
    }
  }

  lemma VersionAfterTurn(config: Config, turns: seq<Turn>, id: Id)
    requires turns != [] && Feasible(config, turns)
    requires id in Run(config, turns[..|turns| - 1]).db.missions
    ensures id in Run(config, turns).db.missions
    ensures Run(config, turns).db.missions[id].version >= Run(config, turns[..|turns| - 1]).db.missions[id].version
  {
    StoredMissionEvolves(config, turns, id);
    EvolvedVersion(Run(config, turns[..|turns| - 1]).db.missions[id], Run(config, turns).db.missions[id]);
  }

  lemma EvolvedVersion(before: Snapshot, after: Snapshot)
    requires Evolves(before, after)
    ensures before.version <= after.version <= before.version + 1
  {
  }

  lemma {:induction false} FeasiblePrefix(config: Config, turns: seq<Turn>, i: nat)
    requires Feasible(config, turns) && i <= |turns|
    ensures Feasible(config, turns[..i])
  {
    if i == |turns| {
      assert turns[..i] == turns;
    } else {
      assert turns[..|turns| - 1][..i] == turns[..i];
      FeasiblePrefix(config, turns[..|turns| - 1], i);
    }
  }

  function ExpectedVersion(step: Step): Option<int>
    requires step.ApplyStep?
  {
    if step.ctx.expectedVersion.Some? then step.ctx.expectedVersion else step.command.expectedVersion
  }

  /**
   Optimistic concurrency has one winner: once an apply that expected version `v` has changed the
   mission, crashed afterwards or not, no later apply that expects `v` changes it again.
   */
  lemma OneWinnerPerVersion(config: Config, turns: seq<Turn>, i: nat, id: Id, later: Step)
    requires Feasible(config, turns) && i < |turns| && turns[i].step.ApplyStep? && turns[i].step.command.missionId == id
    requires id in Run(config, turns[..i]).db.missions
    requires ViewOf(Run(config, turns[..i + 1]).db, id).mission != ViewOf(Run(config, turns[..i]).db, id).mission
    requires later.ApplyStep? && later.command.missionId == id
    requires ExpectedVersion(later).Some? && ExpectedVersion(later) == ExpectedVersion(turns[i].step)
    ensures StepAdvances(config, Run(config, turns).db, later) == []
  {
    FeasiblePrefix(config, turns, i + 1);
    assert turns[..i + 1][..i] == turns[..i] && turns[..i + 1][i] == turns[i];
    VersionIsTaken(config, turns[..i + 1], id);
    VersionsNeverDrop(config, turns, i + 1, id);
    AdvancesAtExpected(config, Run(config, turns).db, later);
  }

  /** An apply that expected a version and changed the mission has left that version behind. */
  lemma VersionIsTaken(config: Config, turns: seq<Turn>, id: Id)
    requires turns != [] && Feasible(config, turns) && id in Run(config, turns[..|turns| - 1]).db.missions
    requires var step := turns[|turns| - 1].step;
      step.ApplyStep? && step.command.missionId == id && ExpectedVersion(step).Some?
    requires ViewOf(Run(config, turns).db, id).mission != ViewOf(Run(config, turns[..|turns| - 1]).db, id).mission
    ensures id in Run(config, turns).db.missions
    ensures Run(config, turns).db.missions[id].version == ExpectedVersion(turns[|turns| - 1].step).value + 1
  {
    var before, last := Run(config, turns[..|turns| - 1]).db, turns[|turns| - 1];
    RunConsistent(config, turns[..|turns| - 1]);
    var at := TurnEffect(config, before, last, id);
    AdvancesAtExpected(config, before, last.step);
    StoredMissionEvolves(config, turns, id);
  }

  /** An apply that names an expected version changes the mission only at that version. */
  lemma AdvancesAtExpected(config: Config, db: Db, step: Step)
    requires step.ApplyStep? && ExpectedVersion(step).Some?
    ensures StepAdvances(config, db, step) != [] ==>
      step.command.missionId in db.missions
        && db.missions[step.command.missionId].version == ExpectedVersion(step).value
  {
  }
}
