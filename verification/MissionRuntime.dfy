/**
 The in-memory stores and the runtime object over them, updated in place
 (`missions/store.ts`, `missions/runtime.ts`), proved against `MissionProtocol`.
 */
module MissionRuntime {
  import opened Wrappers
  import opened MissionStatus
  import opened MissionTypes
  import opened MissionProtocol

  class InMemoryMissionStore {
    var snapshots: map<Id, Snapshot>
    var order: seq<Id>  // keys of `snapshots` in insertion order

    constructor ()
      ensures snapshots == map[] && order == []
    {
      snapshots, order := map[], [];
    }

    method Save(snapshot: Snapshot)
      modifies this
      ensures snapshots == old(snapshots)[snapshot.id := snapshot]
      ensures order == if snapshot.id in old(snapshots) then old(order) else old(order) + [snapshot.id]
    {
      if snapshot.id !in snapshots {
        order := order + [snapshot.id];
      }
      snapshots := snapshots[snapshot.id := snapshot];
    }

    method FindById(id: Id) returns (found: Option<Snapshot>)
      ensures found == if id in snapshots then Some(snapshots[id]) else None
    {
      found := if id in snapshots then Some(snapshots[id]) else None;
    }

    method FindByStatus(wanted: set<Status>) returns (found: seq<Snapshot>)
      ensures found == MissionProtocol.FindByStatus(Db(snapshots, order, map[], map[]), order, wanted)
    {
      found := [];
      ghost var db := Db(snapshots, order, map[], map[]);
      for i := 0 to |order|
        invariant found == MissionProtocol.FindByStatus(db, order[..i], wanted)
      {
        assert order[..i + 1][..i] == order[..i];
        if order[i] in snapshots && snapshots[order[i]].status in wanted {
          found := found + [snapshots[order[i]]];
        }
      }
      assert order[..|order|] == order;
    }
  }

  class InMemoryMissionEventStore {
    var events: map<Id, seq<Event>>

    constructor ()
      ensures events == map[]
    {
      events := map[];
    }

    method Append(event: Event)
      modifies this
      ensures events == old(events)[event.missionId :=
        (if event.missionId in old(events) then old(events)[event.missionId] else []) + [event]]
    {
      var existing := if event.missionId in events then events[event.missionId] else [];
      events := events[event.missionId := existing + [event]];
    }

    /** The mission's events in sequence order: a rearrangement of its log, and the log itself when that is in order. */
    method List(id: Id) returns (list: seq<Event>)
      ensures var stored := if id in events then events[id] else [];
        && InSequence(list) && multiset(list) == multiset(stored) && (InSequence(stored) ==> list == stored)
        && list == Listed(stored)
    {
      var stored := if id in events then events[id] else [];
      ListedInSequence(stored);
      list := Listed(stored);
    }
  }

  class InMemoryIdempotencyStore {
    var records: map<Key, Record>

    constructor ()
      ensures records == map[]
    {
      records := map[];
    }

    /** An expired record is deleted on the way and reported as absent. */
    method Get(key: Key, now: Time) returns (found: Option<Record>)
      modifies this
      ensures key in old(records) && old(records)[key].expiresAt > now ==>
        found == Some(old(records)[key]) && records == old(records)
      ensures key in old(records) && old(records)[key].expiresAt <= now ==>
              found == None && records == old(records) - {key}
      ensures key !in old(records) ==> found == None && records == old(records)
    {
      if key !in records {
        return None;
      }
      var record := records[key];
      if record.expiresAt <= now {
        records := records - {key};
        return None;
      }
      return Some(record);
    }

    method Put(record: Record)
      modifies this
      ensures records == old(records)[record.key := record]
    {
      records := records[record.key := record];
    }
  }

  class MissionRuntime {
    const store: InMemoryMissionStore
    const events: InMemoryMissionEventStore
    const idempotency: InMemoryIdempotencyStore
    const config: Config
    ghost var journal: seq<Write>  // every store write so far, in order

    ghost function State(): Db
      reads store, events, idempotency
    {
      Db(store.snapshots, store.order, events.events, idempotency.records)
    }

    /** The stores hold exactly what the journalled writes, in order, put there. */
    ghost predicate Valid()
      reads this, store, events, idempotency
    {
      State() == Exec(EMPTY_DB, journal)
    }

    ghost predicate Performed(before: Db, was: seq<Write>, writes: seq<Write>)
      reads this, store, events, idempotency
    {
      journal == was + writes && State() == Exec(before, writes) && Valid()
    }

    constructor (config: Config)
      ensures Valid() && State() == EMPTY_DB && this.config == config
      ensures fresh(store) && fresh(events) && fresh(idempotency)
    {
      var s := new InMemoryMissionStore();
      var e := new InMemoryMissionEventStore();
      var i := new InMemoryIdempotencyStore();
      store, events, idempotency := s, e, i;
      this.config := config;
      journal := [];
    }

    /** One more performed write. */
    static lemma Journalled(before: Db, now: Db, was: seq<Write>, writes: seq<Write>, w: Write)
      requires now == Exec(before, writes) == Exec(EMPTY_DB, was + writes)
      ensures Perform(now, w) == Exec(before, writes + [w]) == Exec(EMPTY_DB, was + (writes + [w]))
      ensures was + writes + [w] == was + (writes + [w])
    {
      ExecSnoc(before, writes, w);
      ExecSnoc(EMPTY_DB, was + writes, w);
      Associates(was, writes, [w]);
    }

    static lemma Associates(a: seq<Write>, b: seq<Write>, c: seq<Write>)
      ensures a + b + c == a + (b + c)
    {
    }

    static lemma TwoWrites(writes: seq<Write>, adv: Advance)
      ensures writes + [SaveSnapshot(adv.next)] + [AppendEvent(BuildEvent(adv.next, adv.eventType))]
              == writes + AdvanceWrites(adv)
    {
    }

    method SaveAndAppend(adv: Advance, ghost before: Db, ghost was: seq<Write>, ghost writes: seq<Write>)
      requires Performed(before, was, writes)
      modifies this, store, events
      ensures Performed(before, was, writes + AdvanceWrites(adv))
    {
      ghost var save := SaveSnapshot(adv.next);
      Journalled(before, State(), was, writes, save);
      store.Save(adv.next);
      journal := journal + [save];
      var event := BuildEvent(adv.next, adv.eventType);
      Journalled(before, State(), was, writes + [save], AppendEvent(event));
      events.Append(event);
      journal := journal + [AppendEvent(event)];
      TwoWrites(writes, adv);
    }

    method PutIfKeyed(key: Option<Key>, hash: string, status: RecordStatus, result: CachedResult, now: Time,
                      ghost before: Db, ghost was: seq<Write>, ghost writes: seq<Write>)
      requires Performed(before, was, writes)
      modifies this, idempotency
      ensures Performed(before, was, writes + RecordWrite(key, hash, status, result, now))
    {
      if key.Some? {
        var record := Record(key.value, hash, status, result, now + IDEMPOTENCY_TTL);
        Journalled(before, State(), was, writes, PutRecord(record));
        idempotency.Put(record);
        journal := journal + [PutRecord(record)];
      } else {
        assert writes + [] == writes;
      }
    }

    method Start(command: CreateCommand, id: Id, now: Time) returns (started: Snapshot)
      requires Valid()
      modifies this, store, events
      ensures started == StartAdvance(command, id, now).next
      ensures Performed(old(State()), old(journal), AdvanceWrites(StartAdvance(command, id, now)))
    {
      started := Snapshot(id, command.companyId, command.fiscalPeriod, command.intent, Draft, 1, 0, [], "", [], None,
                          None, None, None, 1, now, now);
      SaveAndAppend(Advance(started, StateTransition), State(), journal, []);
      assert [] + AdvanceWrites(StartAdvance(command, id, now)) == AdvanceWrites(StartAdvance(command, id, now));
    }

    /** Answers a command whose key has a live record, without touching any store. */
    method ReplayRecord(command: Command, record: Record) returns (outcome: Outcome)
      ensures outcome == Replay(config, State(), command, record)
    {
      if record.payloadHash != config.canonicalHash(command) {
        return Threw(IdempotencyConflict);
      }
      if record.result.CachedApply? {
        return Returned(record.result.snapshot, record.result.event, true);
      }
      if record.status == FailedRecord && record.result.CachedError? {
        return Threw(MissionError(record.result.code));
      }
      outcome := AnswerFromState(command.missionId);
    }

    /** An EXECUTING record with no outcome yet: reflect the mission's current state. */
    method AnswerFromState(id: Id) returns (outcome: Outcome)
      ensures outcome == CurrentState(State(), id)
    {
      var current := store.FindById(id);
      if current.Some? {
        var list := events.List(id);
        assert list == EventList(State(), id);
        if list != [] {
          return Returned(current.value, list[|list| - 1], true);
        }
      }
      return Threw(MissionError(AlreadyExecuting));
    }

    /** Steps 3 to 6 of `apply`, from the version check on: the body of its try block and its catch. */
    method Settle(mission: Snapshot, command: Command, ctx: Context, clock: Clock, fence: Fence,
                  ghost before: Db, ghost was: seq<Write>, ghost writes: seq<Write>) returns (outcome: Outcome)
      requires Performed(before, was, writes) && command.missionId in State().missions
      requires mission == State().missions[command.missionId]
      modifies this, store, events, idempotency
      ensures var plan := Attempt(config, old(State()), command, ctx, clock, fence);
        outcome == plan.outcome && Performed(before, was, writes + PlanWrites(plan))
    {
      ghost var plan := Attempt(config, State(), command, ctx, clock, fence);
      PlanWritesParts(plan, writes);
      var hash := config.canonicalHash(command);
      PutIfKeyed(ctx.idempotencyKey, hash, Executing, NoResult, clock.marked, before, was, writes);
      match Resolve(config, mission, command, ctx, fence)
      case Err(error) =>
        PutIfKeyed(ctx.idempotencyKey, hash, FailedRecord, CachedError(ErrorRecordCode(error)), clock.settled,
                   before, was, writes + plan.before);
        assert writes + plan.before + plan.after == writes + (plan.before + plan.after);
        outcome := Threw(error);
      case Ok(target) =>
        var next := NextSnapshot(mission, target.status, target.base, clock.stamped);
        var event := BuildEvent(next, target.eventType);
        ghost var adv := Advance(next, target.eventType);
        SaveAndAppend(Advance(next, target.eventType), before, was, writes + plan.before);
        PutIfKeyed(ctx.idempotencyKey, hash, CompletedRecord, CachedApply(next, event), clock.settled,
                   before, was, writes + plan.before + AdvanceWrites(adv));
        assert writes + plan.before + AdvanceWrites(adv) + plan.after
            == writes + (plan.before + AdvanceWrites(adv) + plan.after);
        outcome := Returned(next, event, false);
    }

    /** Steps 2 to 6 of `apply`: what happens to a command that is not a replay. */
    method Execute(command: Command, ctx: Context, clock: Clock, fence: Fence,
                   ghost before: Db, ghost was: seq<Write>, ghost writes: seq<Write>) returns (outcome: Outcome)
      requires Performed(before, was, writes)
      modifies this, store, events, idempotency
      ensures var plan := Attempt(config, old(State()), command, ctx, clock, fence);
        outcome == plan.outcome && Performed(before, was, writes + PlanWrites(plan))
    {
      var mission := store.FindById(command.missionId);
      if mission.None? {
        PlanWritesParts(Attempt(config, State(), command, ctx, clock, fence), writes);
        assert writes + ([] + []) == writes;
        return Threw(MissionError(MissionNotFound));
      }
      outcome := Settle(mission.value, command, ctx, clock, fence, before, was, writes);
    }

    /** The idempotency lookup; deleting an expired record is its only write. */
    method FindRecord(key: Key, now: Time) returns (found: Option<Record>)
      requires Valid()
      modifies this, idempotency
      ensures found == if Live(old(State()), key, now) then Some(old(State()).records[key]) else None
      ensures Performed(old(State()), old(journal),
                        if key in old(State()).records && !Live(old(State()), key, now) then [DropRecord(key)] else [])
    {
      ghost var before, was := State(), journal;
      assert was + [] == was;
      Journalled(before, before, was, [], DropRecord(key));
      found := idempotency.Get(key, now);
      if key in before.records && !Live(before, key, now) {
        journal := journal + [DropRecord(key)];
      }
    }

    method Apply(command: Command, ctx: Context, clock: Clock, fence: Fence) returns (outcome: Outcome)
      requires Valid()
      modifies this, store, events, idempotency
      ensures var plan := MissionProtocol.Apply(config, old(State()), command, ctx, clock, fence);
        outcome == plan.outcome && Performed(old(State()), old(journal), PlanWrites(plan))
    {
      ghost var before, was, writes := State(), journal, [];
      ghost var plan := MissionProtocol.Apply(config, before, command, ctx, clock, fence);
      PlanWritesParts(plan, []);
      assert was + [] == was;
      if command.kind.CreateKind? {
        return Threw(MissionError(InvalidInput));
      }
      if ctx.idempotencyKey.Some? {
        var record := FindRecord(ctx.idempotencyKey.value, clock.lookup);
        if record.Some? {
          outcome := ReplayRecord(command, record.value);
          return;
        }
        writes := if ctx.idempotencyKey.value in before.records then [DropRecord(ctx.idempotencyKey.value)] else [];
      }
      ghost var attempt := Attempt(config, State(), command, ctx, clock, fence);
      SameMissionsSameAttempt(config, before, State(), command, ctx, clock, fence);
      PlanWritesParts(attempt, writes);
      assert [] + attempt.before == attempt.before;
      outcome := Execute(command, ctx, clock, fence, before, was, writes);
    }

    static lemma SameMissionsSameAttempt(config: Config, a: Db, b: Db, command: Command, ctx: Context, clock: Clock,
                                         fence: Fence)
      requires a.missions == b.missions
      ensures Attempt(config, a, command, ctx, clock, fence) == Attempt(config, b, command, ctx, clock, fence)
    {
    }

    method RecoverIncomplete(statuses: set<Status>, now: Time) returns (recovered: seq<Snapshot>)
      requires Valid()
      modifies this, store, events
      ensures var found := MissionProtocol.FindByStatus(old(State()), old(store.order), statuses);
        && recovered == Recovered(found, now)
        && Performed(old(State()), old(journal), AdvancesWrites(RecoverAdvances(found, now)))
    {
      ghost var before, was := State(), journal;
      assert was + [] == was;
      var missions := store.FindByStatus(statuses);
      SameMissionsSameSearch(before, Db(store.snapshots, store.order, map[], map[]), store.order, statuses);
      recovered := [];
      for i := 0 to |missions|
        invariant recovered == Recovered(missions[..i], now)
        invariant Performed(before, was, AdvancesWrites(RecoverAdvances(missions[..i], now)))
      {
        RecoverOneMore(missions, i, now);
        if missions[i].status == Unknown {
          recovered := recovered + [missions[i]];
        } else {
          var next := NextSnapshot(missions[i], Unknown, missions[i], now);
          SaveAndAppend(Advance(next, StateTransition), before, was,
                        AdvancesWrites(RecoverAdvances(missions[..i], now)));
          recovered := recovered + [next];
        }
      }
      assert missions[..|missions|] == missions;
    }

    method Reconcile(id: Id, answer: ResolverAnswer, now: Time) returns (result: Result<Reconciliation, Thrown>)
      requires Valid()
      modifies this, store, events
      ensures result == MissionProtocol.Reconcile(old(State()), id, answer, now).1
      ensures Performed(old(State()), old(journal),
                        AdvancesWrites(MissionProtocol.Reconcile(old(State()), id, answer, now).0))
    {
      ghost var before, was := State(), journal;
      assert was + [] == was;
      var mission := store.FindById(id);
      if mission.None? {
        return Err(MissionError(MissionNotFound));
      }
      if mission.value.status != Unknown {
        return Err(MissionError(InvalidInput));
      }
      var decision := ReconcileExternalCall(answer);
      if decision.Err? {
        return Err(decision.error);
      }
      if decision.value == HumanIntervention {
        return Ok(Reconciliation(HumanIntervention, mission.value));
      }
      var next := NextSnapshot(mission.value, Running, mission.value, now);
      SaveAndAppend(Advance(next, Reconciled), before, was, []);
      OneAdvance(Advance(next, Reconciled));
      assert [] + AdvanceWrites(Advance(next, Reconciled)) == AdvanceWrites(Advance(next, Reconciled));
      result := Ok(Reconciliation(decision.value, next));
    }

    static lemma RecoverOneMore(missions: seq<Snapshot>, i: nat, now: Time)
      requires i < |missions|
      ensures missions[..i + 1][..i] == missions[..i] && missions[..i + 1][i] == missions[i]
      ensures var done, more := RecoverAdvances(missions[..i], now), RecoverOne(missions[i], now);
        AdvancesWrites(RecoverAdvances(missions[..i + 1], now)) ==
        if more == [] then AdvancesWrites(done) else AdvancesWrites(done) + AdvanceWrites(more[0])
    {
      assert missions[..i + 1][..i] == missions[..i];
      OneMoreAdvance(RecoverAdvances(missions[..i], now), RecoverOne(missions[i], now));
    }

    static lemma OneMoreAdvance(done: seq<Advance>, more: seq<Advance>)
      requires |more| <= 1
      ensures AdvancesWrites(done + more) ==
        if more == [] then AdvancesWrites(done) else AdvancesWrites(done) + AdvanceWrites(more[0])
    {
      assert more == [] ==> done + more == done;
      assert more != [] ==> (done + more)[..|done|] == done;
    }

    static lemma {:induction false} SameMissionsSameSearch(a: Db, b: Db, order: seq<Id>, wanted: set<Status>)
      requires a.missions == b.missions
      ensures MissionProtocol.FindByStatus(a, order, wanted) == MissionProtocol.FindByStatus(b, order, wanted)
    {
      if order != [] { SameMissionsSameSearch(a, b, order[..|order| - 1], wanted); }
    }
  }
}
