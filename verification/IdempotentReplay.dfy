/**
 What an idempotency key buys: a raise under a key is exactly one version of one mission, and a
 retried command is answered from its record, in every run, until the record expires.
 */
module IdempotentReplay {
  import opened Wrappers
  import opened MissionTypes
  import opened MissionProtocol
  import opened MissionRuns
  import opened MissionInvariants

  /**
   A keyed apply changes the snapshot store exactly when it records a raise, and then by one version of
   one mission.
   */
  lemma RaiseIsOneVersion(config: Config, db: Db, turn: Turn)
    requires Consistent(db) && turn.step.ApplyStep? && turn.step.ctx.idempotencyKey.Some?
    ensures var done, id := Done(config, db, turn), turn.step.command.missionId;
      var missions := Exec(db, done).missions;
      if Raises(turn.step, done) == [] then missions == db.missions
      else id in db.missions && id in missions && missions == db.missions[id := missions[id]]
           && missions[id].version == db.missions[id].version + 1
  {
    var step, done, id := turn.step, Done(config, db, turn), turn.step.command.missionId;
    var db' := Exec(db, done);
    StepAdvancesFacts(config, db, step);
    forall x ensures x != id || Saved(done) == {} ==> ViewOf(db', x).mission == ViewOf(db, x).mission {
      var at := TurnEffect(config, db, turn, x);
    }
    forall x | x != id || Saved(done) == {}
      ensures (x in db'.missions <==> x in db.missions) && (x in db.missions ==> db'.missions[x] == db.missions[x])
    {
      assert ViewOf(db', x).mission == ViewOf(db, x).mission;
    }
    if Saved(done) != {} {
      KeyedSaveIsStored(config, db, turn);
    }
  }

  /** A saved snapshot is the next one of some state change of the call. */
  lemma {:induction false} SaveIsAnAdvance(before: seq<Write>, advances: seq<Advance>, after: seq<Write>, i: nat)
    requires RecordsOnly(before) && RecordsOnly(after) && i < |before + AdvancesWrites(advances) + after|
    requires (before + AdvancesWrites(advances) + after)[i].SaveSnapshot?
    ensures |before| <= i < |before| + 2 * |advances| && (i - |before|) % 2 == 0
    ensures (before + AdvancesWrites(advances) + after)[i] == SaveSnapshot(advances[(i - |before|) / 2].next)
  {
    AdvancesWritesLength(advances);
    WhichPart(before, AdvancesWrites(advances), after, i);
    AdvanceWritesAt(advances, (i - |before|) / 2);
  }

  lemma WhichPart<T>(a: seq<T>, b: seq<T>, c: seq<T>, i: nat)
    requires i < |a + b + c|
    ensures i < |a| ==> (a + b + c)[i] in a
    ensures |a| + |b| <= i ==> (a + b + c)[i] in c
  {
  }

  lemma KeyedSaveIsStored(config: Config, db: Db, turn: Turn)
    requires Consistent(db) && turn.step.ApplyStep? && Saved(Done(config, db, turn)) != {}
    ensures var id, db' := turn.step.command.missionId, Exec(db, Done(config, db, turn));
      id in db.missions && id in db'.missions && db'.missions[id].version == db.missions[id].version + 1
  {
    var step, done, id := turn.step, Done(config, db, turn), turn.step.command.missionId;
    var advances, all := StepAdvances(config, db, step), StepWrites(config, db, step);
    StepAdvancesFacts(config, db, step);
    var before, after := StepWritesShape(config, db, step);
    var s :| s in Saved(done);
    var w :| w in done && w.SaveSnapshot? && w.snapshot == s;
    var i :| 0 <= i < |done| && done[i] == w;
    assert done == all[..|done|];
    SaveIsAnAdvance(before, advances, after, i);
    OneAdvanceStored(config, db, step, before, after, |done|);
  }

  lemma OneAdvanceStored(config: Config, db: Db, step: Step, before: seq<Write>, after: seq<Write>, n: nat)
    requires Consistent(db) && step.ApplyStep? && RecordsOnly(before) && RecordsOnly(after)
    requires var advances := StepAdvances(config, db, step);
      && StepWrites(config, db, step) == before + AdvancesWrites(advances) + after
      && advances != [] && |before| < n <= |StepWrites(config, db, step)|
    ensures var id, db' := step.command.missionId, Exec(db, StepWrites(config, db, step)[..n]);
      id in db.missions && id in db'.missions && db'.missions[id].version == db.missions[id].version + 1
  {
    var advances, id := StepAdvances(config, db, step), step.command.missionId;
    StepAdvancesFacts(config, db, step);
    PrefixView(db, before, advances, after, n, id);
    assert advances == [advances[0]] && advances[0].next.id == id;
    assert IndexOf(advances, id) == Some(0);
    assert ViewOf(Exec(db, StepWrites(config, db, step)[..n]), id).mission == Some(advances[0].next);
  }

  /** A live record outlasts any turn that ends before it expires. */
  lemma RecordSurvivesTurn(config: Config, world: World, turn: Turn, key: Key)
    requires Possible(world, turn.step) && key in world.db.records
    requires EndTime(turn.step) < world.db.records[key].expiresAt
    ensures var db' := Next(config, world, turn).db; key in db'.records && db'.records[key] == world.db.records[key]
  {
    var done := Done(config, world.db, turn);
    if turn.step.ApplyStep? && turn.step.ctx.idempotencyKey.Some? {
      KeyedTurnRecords(config, world.db, turn);
    } else {
      assert done == StepWrites(config, world.db, turn.step)[..|done|];
      OtherStepsKeepRecords(config, world.db, turn.step, |done|);
    }
  }

  lemma {:induction false} RecordSurvives(config: Config, turns: seq<Turn>, i: nat, key: Key)
    requires Feasible(config, turns) && i <= |turns|
    requires key in Run(config, turns[..i]).db.records
    requires Run(config, turns).now < Run(config, turns[..i]).db.records[key].expiresAt
    ensures var db := Run(config, turns).db;
      key in db.records && db.records[key] == Run(config, turns[..i]).db.records[key]
  {
    if i == |turns| {
      assert turns[..i] == turns;
    } else {
      var front := turns[..|turns| - 1];
      assert front[..i] == turns[..i];
      RecordSurvives(config, front, i, key);
      RecordSurvivesTurn(config, Run(config, front), turns[|turns| - 1], key);
    }
  }

  /** The record a finished, fresh keyed apply leaves behind. */
  lemma FinishedApplyLeavesRecord(config: Config, db: Db, step: Step)
    requires step.ApplyStep? && step.ctx.idempotencyKey.Some? && !step.command.kind.CreateKind?
    requires !Live(db, step.ctx.idempotencyKey.value, step.clock.lookup) && step.command.missionId in db.missions
    ensures var key, outcome := step.ctx.idempotencyKey.value,
            Apply(config, db, step.command, step.ctx, step.clock, step.fence).outcome;
      var records := Exec(db, StepWrites(config, db, step)).records;
      && key in records
      && records[key] == Record(key, config.canonicalHash(step.command),
           if outcome.Returned? then CompletedRecord else FailedRecord,
           if outcome.Returned? then CachedApply(outcome.snapshot, outcome.event)
           else CachedError(ErrorRecordCode(outcome.error)),
           step.clock.settled + IDEMPOTENCY_TTL)
  {
    var plan := Apply(config, db, step.command, step.ctx, step.clock, step.fence);
    assert plan.after == [plan.after[0]];
    ExecSnoc(db, plan.before + AdvancesWrites(plan.advances), plan.after[0]);
  }

  /** What a retry under a used key is told. */
  ghost function RetryAnswer(first: Outcome, sameHash: bool): Outcome {
    if !sameHash then Threw(IdempotencyConflict)
    else if first.Returned? then Returned(first.snapshot, first.event, true)
    else Threw(MissionError(ErrorRecordCode(first.error)))
  }

  /** The answer a live record gives. */
  lemma AnsweredFromRecord(config: Config, db: Db, retry: Step, first: Outcome, hash: string, expiresAt: Time)
    requires retry.ApplyStep? && retry.ctx.idempotencyKey.Some? && !retry.command.kind.CreateKind?
    requires var key := retry.ctx.idempotencyKey.value;
      && Live(db, key, retry.clock.lookup)
      && db.records[key] == Record(key, hash,
           if first.Returned? then CompletedRecord else FailedRecord,
           if first.Returned? then CachedApply(first.snapshot, first.event)
           else CachedError(ErrorRecordCode(first.error)),
           expiresAt)
    ensures StepWrites(config, db, retry) == []
    ensures Apply(config, db, retry.command, retry.ctx, retry.clock, retry.fence).outcome ==
            RetryAnswer(first, config.canonicalHash(retry.command) == hash)
  {
  }

  /**
   Whatever happens in between, retrying a key before its record expires performs no write and
   answers with the first outcome; with a different payload it is a conflict.
   */
  lemma RetriedCommandIsReplayed(config: Config, turns: seq<Turn>, i: nat, retry: Step)
    requires Feasible(config, turns) && i < |turns| && turns[i].crash.None?
    requires var first := turns[i].step;
      && first.ApplyStep? && first.ctx.idempotencyKey.Some? && !first.command.kind.CreateKind?
      && !Live(Run(config, turns[..i]).db, first.ctx.idempotencyKey.value, first.clock.lookup)
      && first.command.missionId in Run(config, turns[..i]).db.missions
    requires retry.ApplyStep? && retry.ctx.idempotencyKey == turns[i].step.ctx.idempotencyKey
             && !retry.command.kind.CreateKind?
    requires Possible(Run(config, turns), retry) && retry.clock.lookup < turns[i].step.clock.settled + IDEMPOTENCY_TTL
    ensures StepWrites(config, Run(config, turns).db, retry) == []
    ensures var first := turns[i].step;
      var told := Apply(config, Run(config, turns[..i]).db, first.command, first.ctx, first.clock, first.fence).outcome;
      Apply(config, Run(config, turns).db, retry.command, retry.ctx, retry.clock, retry.fence).outcome ==
      RetryAnswer(told, config.canonicalHash(retry.command) == config.canonicalHash(first.command))
  {
    var key, first := retry.ctx.idempotencyKey.value, turns[i].step;
    var before := Run(config, turns[..i]).db;
    RunAfterOneMore(config, turns, i);
    FinishedApplyLeavesRecord(config, before, first);
    RecordSurvives(config, turns, i + 1, key);
    AnsweredFromRecord(config, Run(config, turns).db, retry,
                       Apply(config, before, first.command, first.ctx, first.clock, first.fence).outcome,
                       config.canonicalHash(first.command), first.clock.settled + IDEMPOTENCY_TTL);
  }

  lemma RunAfterOneMore(config: Config, turns: seq<Turn>, i: nat)
    requires i < |turns| && turns[i].crash.None?
    ensures var db := Run(config, turns[..i]).db;
      Run(config, turns[..i + 1]).db == Exec(db, StepWrites(config, db, turns[i].step))
  {
    assert turns[..i + 1][..i] == turns[..i];
  }

  // ------------------------------------- does a replayed answer mean execution?

  /** Where a record came from. */
  lemma {:induction false} RecordSource(db: Db, writes: seq<Write>, key: Key)
    requires key in Exec(db, writes).records
    ensures var record := Exec(db, writes).records[key];
      (key in db.records && db.records[key] == record) || PutRecord(record) in writes
  {
    if writes != [] {
      var front, last := writes[..|writes| - 1], writes[|writes| - 1];
      assert writes == front + [last];
      if key in Exec(db, front).records { RecordSource(db, front, key); }
    }
  }

  /** Any other call puts no record. */
  lemma OthersPutNothing(config: Config, db: Db, step: Step)
    requires !FreshKeyed(db, step)
    ensures forall w <- StepWrites(config, db, step) :: !w.PutRecord?
  {
    ChangesOnly(StepAdvances(config, db, step));
    if step.ApplyStep? && step.ctx.idempotencyKey.Some? {
      StaleWrites(config, db, step);
    } else {
      UnkeyedWrites(config, db, step);
    }
  }

  /** A call caches a success only after it has saved the snapshot it caches. */
  lemma CachedAfterSave(config: Config, db: Db, step: Step, i: nat) returns (j: nat)
    requires i < |StepWrites(config, db, step)| && StepWrites(config, db, step)[i].PutRecord?
    requires StepWrites(config, db, step)[i].record.result.CachedApply?
    ensures j < i
            && StepWrites(config, db, step)[j] == SaveSnapshot(StepWrites(config, db, step)[i].record.result.snapshot)
  {
    var advances := StepAdvances(config, db, step);
    if !FreshKeyed(db, step) { OthersPutNothing(config, db, step); }
    var dropped, last := FreshWrites(config, db, step);
    ChangesOnly(advances);
    CachedIsLast(dropped, MarkOf(config, step), AdvancesWrites(advances), last, i);
    AdvanceWritesAt(advances, 0);
    j := |dropped| + 1;
  }

  lemma CachedIsLast(dropped: seq<Write>, mark: Record, changes: seq<Write>, last: Write, i: nat)
    requires (forall w <- dropped :: w.DropRecord?) && !mark.result.CachedApply?
    requires forall w <- changes :: w.SaveSnapshot? || w.AppendEvent?
    requires var writes := dropped + [PutRecord(mark)] + changes + [last];
      i < |writes| && writes[i].PutRecord? && writes[i].record.result.CachedApply?
    ensures i == |dropped| + 1 + |changes|
  {
    WriteAt(dropped, mark, changes, last, i);
  }

  lemma WriteAt(dropped: seq<Write>, mark: Record, changes: seq<Write>, last: Write, i: nat)
    requires i < |dropped + [PutRecord(mark)] + changes + [last]|
    ensures var writes := dropped + [PutRecord(mark)] + changes + [last];
      && (i < |dropped| ==> writes[i] in dropped)
      && (i == |dropped| ==> writes[i] == PutRecord(mark))
      && (|dropped| < i < |dropped| + 1 + |changes| ==> writes[i] in changes)
  {
  }

  ghost predicate CachedWereSaved(world: World) {
    forall k :: k in world.db.records && world.db.records[k].result.CachedApply? ==>
      world.db.records[k].result.snapshot in world.saved
  }

  /** In every run, an answer from a cached success reports an execution that happened: its snapshot was once stored. */
  lemma {:induction false} CachedMeansExecuted(config: Config, turns: seq<Turn>)
    ensures CachedWereSaved(Run(config, turns))
  {
    if turns != [] {
      var world, turn := Run(config, turns[..|turns| - 1]), turns[|turns| - 1];
      CachedMeansExecuted(config, turns[..|turns| - 1]);
      var done, writes := Done(config, world.db, turn), StepWrites(config, world.db, turn.step);
      var db' := Exec(world.db, done);
      forall k | k in db'.records && db'.records[k].result.CachedApply?
        ensures db'.records[k].result.snapshot in world.saved + Saved(done)
      {
        RecordSource(world.db, done, k);
        if PutRecord(db'.records[k]) in done {
          var i :| 0 <= i < |done| && done[i] == PutRecord(db'.records[k]);
          assert writes[i] == done[i];
          var j := CachedAfterSave(config, world.db, turn.step, i);
          assert done[j] == writes[j] && done[j] in done;
        }
      }
    }
  }

  /** What a fresh keyed apply leaves when it is cut after its EXECUTING record and before its last one. */
  lemma CutApplyLeavesMark(config: Config, db: Db, step: Step, n: nat)
    requires FreshKeyed(db, step)
    requires Marks(db, step.ctx.idempotencyKey.value) <= n < |StepWrites(config, db, step)|
    ensures var key, done := step.ctx.idempotencyKey.value, StepWrites(config, db, step)[..n];
      var records := Exec(db, done).records;
      && key in records && records[key] == MarkOf(config, step)
      && (Saved(done) != {} <==> n > Marks(db, key))
  {
    var advances, writes := StepAdvances(config, db, step), StepWrites(config, db, step);
    var dropped, last := FreshWrites(config, db, step);
    ChangesOnly(advances);
    if advances != [] { AdvanceWritesAt(advances, 0); }
    CutShape(dropped, MarkOf(config, step), AdvancesWrites(advances), last, n);
    MarkStays(db, writes, step.ctx.idempotencyKey.value, MarkOf(config, step), |dropped| + 1, n);
  }

  lemma CutShape(dropped: seq<Write>, mark: Record, changes: seq<Write>, last: Write, n: nat)
    requires forall w <- dropped :: w.DropRecord?
    requires forall w <- changes :: w.SaveSnapshot? || w.AppendEvent?
    requires changes != [] ==> changes[0].SaveSnapshot?
    requires var writes := dropped + [PutRecord(mark)] + changes + [last]; |dropped| + 1 <= n < |writes|
    ensures var writes := dropped + [PutRecord(mark)] + changes + [last];
      && writes[|dropped|] == PutRecord(mark)
      && (forall i :: |dropped| < i < n ==> writes[i].SaveSnapshot? || writes[i].AppendEvent?)
      && (Saved(writes[..n]) != {} <==> n > |dropped| + 1)
  {
    var writes := dropped + [PutRecord(mark)] + changes + [last];
    var m := |dropped| + 1;
    forall i | m <= i < n ensures writes[i].SaveSnapshot? || writes[i].AppendEvent? {
      assert writes[i] in changes;
    }
    if n > m {
      assert writes[m] == changes[0] && writes[..n][m] == writes[m];
      assert changes[0].snapshot in Saved(writes[..n]);
    } else {
      assert writes[..n] == dropped + [PutRecord(mark)];
    }
  }

  lemma {:induction false} MarkStays(db: Db, writes: seq<Write>, key: Key, record: Record, m: nat, n: nat)
    requires 0 < m <= n <= |writes| && writes[m - 1] == PutRecord(record) && record.key == key
    requires forall i :: m <= i < n ==> writes[i].SaveSnapshot? || writes[i].AppendEvent?
    ensures key in Exec(db, writes[..n]).records && Exec(db, writes[..n]).records[key] == record
  {
    assert writes[..n][..n - 1] == writes[..n - 1];
    if n > m { MarkStays(db, writes, key, record, m, n - 1); }
  }

  /** The answer a live EXECUTING record gives to the same command. */
  lemma AnsweredFromState(config: Config, db: Db, retry: Step)
    requires retry.ApplyStep? && retry.ctx.idempotencyKey.Some? && !retry.command.kind.CreateKind?
    requires Live(db, retry.ctx.idempotencyKey.value, retry.clock.lookup)
    requires var record := db.records[retry.ctx.idempotencyKey.value];
      record.payloadHash == config.canonicalHash(retry.command) && record.status == Executing
        && record.result == NoResult
    ensures StepWrites(config, db, retry) == []
    ensures var id := retry.command.missionId;
      Apply(config, db, retry.command, retry.ctx, retry.clock, retry.fence).outcome ==
      if id in db.missions && EventList(db, id) != [] then
        Returned(db.missions[id], EventList(db, id)[|EventList(db, id)| - 1], true)
      else Threw(MissionError(AlreadyExecuting))
  {
  }

  /** Turn `i` is a fresh keyed apply that a crash cuts after its EXECUTING record and before its last one. */
  ghost predicate CutApply(config: Config, turns: seq<Turn>, i: nat)
    requires i < |turns|
  {
    var before, turn := Run(config, turns[..i]).db, turns[i];
    && FreshKeyed(before, turn.step) && turn.crash.Some?
    && Marks(before, turn.step.ctx.idempotencyKey.value) <= turn.crash.value < |StepWrites(config, before, turn.step)|
  }

  /** Until it expires, the record of a cut apply stays, and its mission stays stored. */
  lemma MarkSurvives(config: Config, turns: seq<Turn>, i: nat)
    requires Feasible(config, turns) && i < |turns| && CutApply(config, turns, i)
    requires Run(config, turns).now < turns[i].step.clock.marked + IDEMPOTENCY_TTL
    ensures var db, step := Run(config, turns).db, turns[i].step;
      && step.ctx.idempotencyKey.value in db.records
         && db.records[step.ctx.idempotencyKey.value] == MarkOf(config, step)
      && step.command.missionId in db.missions
  {
    MarkIsLeft(config, turns, i);
    RecordSurvives(config, turns, i + 1, turns[i].step.ctx.idempotencyKey.value);
    VersionsNeverDrop(config, turns, i, turns[i].step.command.missionId);
  }

  lemma MarkIsLeft(config: Config, turns: seq<Turn>, i: nat)
    requires i < |turns| && CutApply(config, turns, i)
    ensures var db, step := Run(config, turns[..i + 1]).db, turns[i].step;
      step.ctx.idempotencyKey.value in db.records && db.records[step.ctx.idempotencyKey.value] == MarkOf(config, step)
  {
    CutApplyLeavesMark(config, Run(config, turns[..i]).db, turns[i].step, turns[i].crash.value);
    assert turns[..i + 1][..i] == turns[..i];
  }

  /**
   A keyed apply cut by a crash before its last record is answered, until that record expires, from
   the mission's current state and marked as replayed; it had executed exactly when the crash came
   after its save, which the answer does not tell.
   */
  lemma CutApplyIsAnsweredFromState(config: Config, turns: seq<Turn>, i: nat, retry: Step)
    requires Feasible(config, turns) && i < |turns| && CutApply(config, turns, i)
    requires retry.ApplyStep? && retry.ctx.idempotencyKey == turns[i].step.ctx.idempotencyKey
    requires retry.command == turns[i].step.command
    requires Possible(Run(config, turns), retry) && retry.clock.lookup < turns[i].step.clock.marked + IDEMPOTENCY_TTL
    ensures StepWrites(config, Run(config, turns).db, retry) == []
    ensures var db, id := Run(config, turns).db, retry.command.missionId;
      id in db.missions
      && Apply(config, db, retry.command, retry.ctx, retry.clock, retry.fence).outcome ==
         if Log(db, id) == [] then Threw(MissionError(AlreadyExecuting))
         else Returned(db.missions[id], Log(db, id)[|Log(db, id)| - 1], true)
    ensures var before := Run(config, turns[..i]).db;
      Raises(turns[i].step, Done(config, before, turns[i])) != []
      <==> turns[i].crash.value > Marks(before, turns[i].step.ctx.idempotencyKey.value)
  {
    MarkSurvives(config, turns, i);
    ListingIsTheLog(config, turns, retry.command.missionId);
    AnsweredFromState(config, Run(config, turns).db, retry);
    CutApplyLeavesMark(config, Run(config, turns[..i]).db, turns[i].step, turns[i].crash.value);
  }
}
