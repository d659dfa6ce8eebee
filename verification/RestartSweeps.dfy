/**
 What a restart sweep does to each mission, when it keeps the log a legal walk, and why sweeping twice
 writes nothing more.
 */
module RestartSweeps {
  import opened Wrappers
  import opened MissionStatus
  import opened MissionTypes
  import opened MissionProtocol
  import opened MissionRuns
  import opened MissionInvariants

  /** The search misses no stored mission in a wanted state. */
  lemma {:induction false} FindByStatusComplete(db: Db, order: seq<Id>, wanted: set<Status>, id: Id)
    requires id in order && id in db.missions && db.missions[id].status in wanted
    ensures db.missions[id] in FindByStatus(db, order, wanted)
  {
    var front, last := order[..|order| - 1], order[|order| - 1];
    assert order == front + [last];
    if last != id { FindByStatusComplete(db, front, wanted, id); }
  }

  lemma {:induction false} RecoverAdvancesComplete(missions: seq<Snapshot>, now: Time, m: Snapshot)
    requires m in missions && m.status != Unknown
    ensures Advance(NextSnapshot(m, Unknown, m, now), StateTransition) in RecoverAdvances(missions, now)
  {
    var front, last := missions[..|missions| - 1], missions[|missions| - 1];
    assert missions == front + [last];
    if last != m { RecoverAdvancesComplete(front, now, m); }
  }

  ghost predicate Swept(db: Db, statuses: set<Status>, id: Id) {
    id in db.missions && db.missions[id].status in statuses && db.missions[id].status != Unknown
  }

  /** An uncut sweep moves exactly the missions in a swept state other than UNKNOWN, and those to UNKNOWN. */
  lemma SweepView(config: Config, db: Db, statuses: set<Status>, now: Time, id: Id)
    requires Consistent(db)
    ensures var after := ViewOf(Exec(db, StepWrites(config, db, RecoverStep(statuses, now))), id);
      if Swept(db, statuses, id) then
        after == StoredAndLogged(ViewOf(db, id),
                                 Advance(NextSnapshot(db.missions[id], Unknown, db.missions[id], now), StateTransition))
      else after == ViewOf(db, id)
  {
    var step := RecoverStep(statuses, now);
    if Swept(db, statuses, id) {
      var m := db.missions[id];
      FindByStatusComplete(db, db.order, statuses, id);
      RecoverAdvancesComplete(FindByStatus(db, db.order, statuses), now, m);
      AdvanceHappens(config, db, step, Advance(NextSnapshot(m, Unknown, m, now), StateTransition));
    } else {
      StepAdvancesFacts(config, db, step);
      var at := TurnEffect(config, db, Turn(step, None), id);
    }
  }

  lemma {:induction false} NothingToRecover(missions: seq<Snapshot>, now: Time)
    requires forall m <- missions :: m.status == Unknown
    ensures RecoverAdvances(missions, now) == []
  {
    if missions != [] { NothingToRecover(missions[..|missions| - 1], now); }
  }

  /** Sweeping the same states again, whenever, writes nothing. */
  lemma SecondSweepIsSilent(config: Config, db: Db, statuses: set<Status>, now: Time, again: Time)
    requires Consistent(db)
    ensures var swept := Exec(db, StepWrites(config, db, RecoverStep(statuses, now)));
      StepWrites(config, swept, RecoverStep(statuses, again)) == []
  {
    var swept := Exec(db, StepWrites(config, db, RecoverStep(statuses, now)));
    ExecConsistent(db, StepWrites(config, db, RecoverStep(statuses, now)));
    var found := FindByStatus(swept, swept.order, statuses);
    FindByStatusFacts(swept, swept.order, statuses);
    forall m | m in found ensures m.status == Unknown {
      SweepView(config, db, statuses, now, m.id);
      assert ViewOf(swept, m.id).mission == Some(m);
    }
    NothingToRecover(found, again);
  }

  /**
   After a crash-free legal walk, a sweep keeps the log a legal walk exactly when the mission is not
   in a swept state other than RUNNING and UNKNOWN.  The recovery policy sweeps RETRYING too.
   */
  lemma SweepKeepsWalkExactly(config: Config, turns: seq<Turn>, id: Id, statuses: set<Status>, now: Time)
    requires Feasible(config, turns) && CrashFree(turns) && id in Run(config, turns).db.missions
    requires IsWalk(ViewOf(Run(config, turns).db, id).log)
    ensures IsWalk(ViewOf(Run(config, turns + [Turn(RecoverStep(statuses, now), None)]).db, id).log) <==>
            (Run(config, turns).db.missions[id].status in statuses ==>
             Run(config, turns).db.missions[id].status in {Running, Unknown})
  {
    var db := Run(config, turns).db;
    var mission := db.missions[id];
    assert (turns + [Turn(RecoverStep(statuses, now), None)])[..|turns|] == turns;
    RunConsistent(config, turns);
    SweepView(config, db, statuses, now, id);
    LogMirrorsStore(config, turns, id);
    TableFacts(mission.status);
    if Swept(db, statuses, id) {
      WalkExtends(ViewOf(db, id), id, Advance(NextSnapshot(mission, Unknown, mission, now), StateTransition));
    }
  }
}
