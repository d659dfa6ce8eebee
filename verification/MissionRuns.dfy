/**
 Whole runs of the mission runtime: any sequence of calls, each of which may be cut by a crash after
 any of its store writes.  The main results are invariants of every reachable state.
 */
module MissionRuns {
  import opened Ordering
  import opened Wrappers
  import opened MissionStatus
  import opened MissionTypes
  import opened MissionProtocol

  datatype Step =
    | StartStep(create: CreateCommand, id: Id, now: Time)
    | ApplyStep(command: Command, ctx: Context, clock: Clock, fence: Fence)
    | RecoverStep(statuses: set<Status>, now: Time)
    | ReconcileStep(id: Id, answer: ResolverAnswer, now: Time)

  /** One call; `crash` is the number of writes it manages before the process dies, if it does. */
  datatype Turn = Turn(step: Step, crash: Option<nat>)

  /** An apply that raised a mission version under an idempotency key. */
  datatype Raise = Raise(key: Key, missionId: Id, at: Time)

  /** The stores, with the history the theorems speak of. */
  datatype World = World(db: Db, saved: set<Snapshot>, raises: seq<Raise>, now: Time)

  const GENESIS := World(EMPTY_DB, {}, [], 0)

  // ------------------------------------------------------------ one turn

  function StepAdvances(config: Config, db: Db, step: Step): seq<Advance> {
    match step
    case StartStep(create, id, now) => [StartAdvance(create, id, now)]
    case ApplyStep(command, ctx, clock, fence) => Apply(config, db, command, ctx, clock, fence).advances
    case RecoverStep(statuses, now) => RecoverAdvances(FindByStatus(db, db.order, statuses), now)
    case ReconcileStep(id, answer, now) => Reconcile(db, id, answer, now).0
  }

  function StepWrites(config: Config, db: Db, step: Step): seq<Write> {
    match step
    case ApplyStep(command, ctx, clock, fence) => PlanWrites(Apply(config, db, command, ctx, clock, fence))
    case _ => AdvancesWrites(StepAdvances(config, db, step))
  }

  /** The writes that happen: all of them, or those before the crash. */
  function Done(config: Config, db: Db, turn: Turn): seq<Write> {
    var writes := StepWrites(config, db, turn.step);
    if turn.crash.Some? && turn.crash.value < |writes| then writes[..turn.crash.value] else writes
  }

  ghost function Saved(writes: seq<Write>): set<Snapshot> {
    set w | w in writes && w.SaveSnapshot? :: w.snapshot
  }

  ghost function Raises(step: Step, done: seq<Write>): seq<Raise> {
    if step.ApplyStep? && step.ctx.idempotencyKey.Some? && Saved(done) != {}
    then [Raise(step.ctx.idempotencyKey.value, step.command.missionId, step.clock.marked)] else []
  }

  function BeginTime(step: Step): Time {
    if step.ApplyStep? then step.clock.lookup else step.now
  }

  function EndTime(step: Step): Time {
    if step.ApplyStep? then step.clock.settled else step.now
  }

  ghost function Next(config: Config, world: World, turn: Turn): World {
    var done := Done(config, world.db, turn);
    World(Exec(world.db, done), world.saved + Saved(done), world.raises + Raises(turn.step, done), EndTime(turn.step))
  }

  ghost function Run(config: Config, turns: seq<Turn>): World {
    if turns == [] then GENESIS else Next(config, Run(config, turns[..|turns| - 1]), turns[|turns| - 1])
  }

  /** The clock does not run backwards, and a started mission gets an id never used before. */
  ghost predicate Possible(world: World, step: Step) {
    && world.now <= BeginTime(step)
    && (step.ApplyStep? ==> Monotone(step.clock))
    && (step.StartStep? ==> step.id !in world.db.missions && step.id !in world.db.logs)
  }

  ghost predicate Feasible(config: Config, turns: seq<Turn>) {
    turns == [] ||
    (Feasible(config, turns[..|turns| - 1]) && Possible(Run(config, turns[..|turns| - 1]), turns[|turns| - 1].step))
  }

  ghost predicate CrashFree(turns: seq<Turn>) {
    forall t :: t in turns ==> t.crash.None?
  }

  /** Restart sweeps name none of the given states. */
  ghost predicate SweepsAvoid(turns: seq<Turn>, avoided: set<Status>) {
    forall t :: t in turns && t.step.RecoverStep? ==> t.step.statuses !! avoided
  }

  /** No restart sweep that a crash cuts names any of the given states. */
  ghost predicate CutSweepsAvoid(turns: seq<Turn>, avoided: set<Status>) {
    forall t :: t in turns && t.step.RecoverStep? && t.crash.Some? ==> t.step.statuses !! avoided
  }

  /** Restart sweeps move only missions the table lets reach UNKNOWN; UNKNOWN ones may be listed. */
  ghost predicate LegalSweeps(turns: seq<Turn>) {
    forall t :: t in turns && t.step.RecoverStep? ==> t.step.statuses <= DEFAULT_RECOVERABLE + {Unknown}
  }

  // --------------------------------------------- what a turn does to one mission

  /** What the stores say about one mission. */
  datatype View = View(mission: Option<Snapshot>, log: seq<Event>)

  ghost function ViewOf(db: Db, id: Id): View {
    View(if id in db.missions then Some(db.missions[id]) else None, Log(db, id))
  }

  ghost predicate DistinctIds(advances: seq<Advance>) {
    forall i, j :: 0 <= i < j < |advances| ==> advances[i].next.id != advances[j].next.id
  }

  /** Snapshots are filed under their own id and `order` lists exactly the stored ids, once each. */
  ghost predicate Consistent(db: Db) {
    && (forall id :: id in db.missions ==> db.missions[id].id == id)
    && Distinct(db.order) && (forall id :: id in db.order <==> id in db.missions)
  }

  lemma {:induction false} ExecConsistent(db: Db, writes: seq<Write>)
    requires Consistent(db)
    ensures Consistent(Exec(db, writes))
  {
    if writes != [] {
      ExecConsistent(db, writes[..|writes| - 1]);
    }
  }

  ghost predicate RecordsOnly(writes: seq<Write>) {
    forall w :: w in writes ==> w.PutRecord? || w.DropRecord?
  }

  lemma {:induction false} RecordWritesKeepViews(db: Db, writes: seq<Write>, id: Id)
    requires RecordsOnly(writes)
    ensures ViewOf(Exec(db, writes), id) == ViewOf(db, id)
  {
    if writes != [] {
      RecordWritesKeepViews(db, writes[..|writes| - 1], id);
      assert writes[|writes| - 1] in writes;
    }
  }

  lemma {:induction false} AdvanceWritesAt(advances: seq<Advance>, i: nat)
    requires i < |advances|
    ensures |AdvancesWrites(advances)| == 2 * |advances|
    ensures AdvancesWrites(advances)[2 * i] == SaveSnapshot(advances[i].next)
    ensures AdvancesWrites(advances)[2 * i + 1] == AppendEvent(BuildEvent(advances[i].next, advances[i].eventType))
  {
    var n := |advances| - 1;
    if n > 0 {
      AdvanceWritesAt(advances[..n], if i < n then i else 0);
    }
  }

  lemma AdvancesWritesLength(advances: seq<Advance>)
    ensures |AdvancesWrites(advances)| == 2 * |advances|
  {
    if advances != [] { AdvanceWritesAt(advances, 0); }
  }

  /** The state change of a list that concerns one mission. */
  ghost function IndexOf(advances: seq<Advance>, id: Id): Option<nat> {
    if exists i :: 0 <= i < |advances| && advances[i].next.id == id then
      var i :| 0 <= i < |advances| && advances[i].next.id == id;
      Some(i)
    else None
  }

  ghost function Stored(view: View, adv: Advance): View {
    View(Some(adv.next), view.log)
  }

  ghost function StoredAndLogged(view: View, adv: Advance): View {
    View(Some(adv.next), view.log + [BuildEvent(adv.next, adv.eventType)])
  }

  /** Which of a mission's two writes in a list of state changes are done after `n` writes. */
  ghost function ViewAfter(view: View, advances: seq<Advance>, id: Id, n: nat): View {
    var at := IndexOf(advances, id);
    if at.None? || n <= 2 * at.value then view
    else if n == 2 * at.value + 1 then Stored(view, advances[at.value])
    else StoredAndLogged(view, advances[at.value])
  }

  lemma ViewAfterSteps(view: View, advances: seq<Advance>, id: Id, j: nat)
    requires DistinctIds(advances) && j < |advances|
    ensures var v0, v1, v2 := ViewAfter(view, advances, id, 2 * j), ViewAfter(view, advances, id, 2 * j + 1),
                              ViewAfter(view, advances, id, 2 * j + 2);
      if advances[j].next.id == id then
        v1 == Stored(v0, advances[j])
          && v2 == v1.(log := v1.log + [BuildEvent(advances[j].next, advances[j].eventType)])
      else v0 == v1 == v2
  {
    assert advances[j].next.id == id <==> IndexOf(advances, id) == Some(j);
  }

  lemma {:induction false} AdvancesView(db: Db, advances: seq<Advance>, id: Id, n: nat)
    requires DistinctIds(advances) && n <= 2 * |advances|
    ensures |AdvancesWrites(advances)| == 2 * |advances|
    ensures ViewOf(Exec(db, AdvancesWrites(advances)[..n]), id) == ViewAfter(ViewOf(db, id), advances, id, n)
  {
    AdvancesWritesLength(advances);
    var writes := AdvancesWrites(advances);
    if n > 0 {
      var j := (n - 1) / 2;
      assert n == 2 * j + 1 || n == 2 * j + 2;
      AdvancesView(db, advances, id, n - 1);
      ViewAfterSteps(ViewOf(db, id), advances, id, j);
      AdvanceWritesAt(advances, j);
      OneMoreWrite(db, writes, n - 1, id);
    }
  }

  lemma OneMoreWrite(db: Db, writes: seq<Write>, n: nat, id: Id)
    requires n < |writes|
    ensures var v, w := ViewOf(Exec(db, writes[..n]), id), writes[n];
      && (w.SaveSnapshot? ==>
            ViewOf(Exec(db, writes[..n + 1]), id) == if w.snapshot.id == id then v.(mission := Some(w.snapshot)) else v)
      && (w.AppendEvent? ==>
            ViewOf(Exec(db, writes[..n + 1]), id) == if w.event.missionId == id then v.(log := v.log + [w.event])
                                                     else v)
  {
    assert writes[..n + 1][..n] == writes[..n];
  }

  /** Cutting a call anywhere leaves each mission untouched, stored but not logged, or stored and logged. */
  lemma PrefixView(db: Db, before: seq<Write>, advances: seq<Advance>, after: seq<Write>, n: nat, id: Id)
    requires DistinctIds(advances) && RecordsOnly(before) && RecordsOnly(after)
    requires n <= |before + AdvancesWrites(advances) + after|
    ensures var m := n - |before|;
      ViewOf(Exec(db, (before + AdvancesWrites(advances) + after)[..n]), id) ==
      if m < 0 then ViewOf(db, id)
      else ViewAfter(ViewOf(db, id), advances, id, if m <= 2 * |advances| then m else 2 * |advances|)
  {
    var middle := AdvancesWrites(advances);
    AdvancesWritesLength(advances);
    var all := before + middle + after;
    RecordWritesKeepViews(db, before, id);
    if n < |before| {
      assert all[..n] == before[..n];
      RecordWritesKeepViews(db, before[..n], id);
    } else {
      var m := if n - |before| <= |middle| then n - |before| else |middle|;
      var rest := after[..n - |before| - m];
      assert all[..n] == before + middle[..m] + rest;
      var db1 := Exec(db, before);
      var db2 := Exec(db1, middle[..m]);
      ExecConcat(db, before, middle[..m]);
      ExecConcat(db, before + middle[..m], rest);
      AdvancesView(db1, advances, id, m);
      RecordWritesKeepViews(db2, rest, id);
    }
  }

  lemma {:induction false} FindByStatusFacts(db: Db, order: seq<Id>, wanted: set<Status>)
    requires forall id :: id in db.missions ==> db.missions[id].id == id
    requires Distinct(order)
    ensures var found := FindByStatus(db, order, wanted);
      && (forall m :: m in found ==>
          m.id in order && m.id in db.missions && m == db.missions[m.id] && m.status in wanted)
      && forall i, j :: 0 <= i < j < |found| ==> found[i].id != found[j].id
  {
    if order != [] {
      FindByStatusFacts(db, order[..|order| - 1], wanted);
    }
  }

  lemma {:induction false} RecoverAdvancesFacts(missions: seq<Snapshot>, now: Time)
    requires forall i, j :: 0 <= i < j < |missions| ==> missions[i].id != missions[j].id
    ensures var advances := RecoverAdvances(missions, now);
      && DistinctIds(advances)
      && forall adv :: adv in advances ==>
           exists m :: m in missions && m.status != Unknown
             && adv == Advance(NextSnapshot(m, Unknown, m, now), StateTransition)
  {
    if missions != [] {
      var front, last := missions[..|missions| - 1], missions[|missions| - 1];
      RecoverAdvancesFacts(front, now);
      forall adv | adv in RecoverAdvances(front, now) ensures adv.next.id != last.id {
        var m :| m in front && adv == Advance(NextSnapshot(m, Unknown, m, now), StateTransition);
      }
    }
  }

  /** A state change other than a start, by the call that makes it, from the snapshot it starts from. */
  ghost predicate Caused(config: Config, mission: Snapshot, step: Step, adv: Advance) {
    match step
    case StartStep(_, _, _) => false
    case ApplyStep(command, _, clock, _) =>
      && command.missionId == mission.id && mission.status !in TERMINAL_STATES
      && var target := ResolveTarget(config, mission, command);
      && target.Ok?
      && adv == Advance(NextSnapshot(mission, target.value.status, target.value.base, clock.stamped),
                        target.value.eventType)
    case RecoverStep(statuses, now) =>
      && mission.status in statuses && mission.status != Unknown
      && adv == Advance(NextSnapshot(mission, Unknown, mission, now), StateTransition)
    case ReconcileStep(id, _, now) =>
      && mission.status == Unknown && adv == Advance(NextSnapshot(mission, Running, mission, now), Reconciled)
  }

  /** Every state change a call makes either starts a mission or is caused by the stored snapshot. */
  lemma StepAdvancesFacts(config: Config, db: Db, step: Step)
    requires Consistent(db)
    ensures var advances := StepAdvances(config, db, step);
      && DistinctIds(advances)
      && forall adv :: adv in advances ==>
           if step.StartStep? then adv == StartAdvance(step.create, step.id, step.now)
           else adv.next.id in db.missions && Caused(config, db.missions[adv.next.id], step, adv)
  {
    if step.RecoverStep? {
      var found := FindByStatus(db, db.order, step.statuses);
      FindByStatusFacts(db, db.order, step.statuses);
      RecoverAdvancesFacts(found, step.now);
    }
  }

  lemma StepWritesShape(config: Config, db: Db, step: Step) returns (before: seq<Write>, after: seq<Write>)
    ensures StepWrites(config, db, step) == before + AdvancesWrites(StepAdvances(config, db, step)) + after
    ensures RecordsOnly(before) && RecordsOnly(after)
  {
    if step.ApplyStep? {
      var plan := Apply(config, db, step.command, step.ctx, step.clock, step.fence);
      before, after := plan.before, plan.after;
    } else {
      before, after := [], [];
      assert [] + StepWrites(config, db, step) + [] == StepWrites(config, db, step);
    }
  }

  /** The effect of one turn on one mission. */
  lemma TurnEffect(config: Config, db: Db, turn: Turn, id: Id) returns (at: Option<Advance>)
    requires Consistent(db)
    ensures at.Some? ==> at.value in StepAdvances(config, db, turn.step) && at.value.next.id == id
    ensures var v, v' := ViewOf(db, id), ViewOf(Exec(db, Done(config, db, turn)), id);
      && (at.None? ==> v' == v)
      && (at.Some? ==> (v' == Stored(v, at.value) || v' == StoredAndLogged(v, at.value))
                       && at.value.next in Saved(Done(config, db, turn)))
      && (at.Some? && turn.crash.None? ==> v' == StoredAndLogged(v, at.value))
  {
    var advances, done := StepAdvances(config, db, turn.step), Done(config, db, turn);
    StepAdvancesFacts(config, db, turn.step);
    var before, after := StepWritesShape(config, db, turn.step);
    var all, n := StepWrites(config, db, turn.step), |done|;
    assert done == all[..n];
    AdvancesWritesLength(advances);
    PrefixView(db, before, advances, after, n, id);
    var i := IndexOf(advances, id);
    if i.None? || n <= |before| + 2 * i.value {
      at := None;
    } else {
      at := Some(advances[i.value]);
      AdvanceWritesAt(advances, i.value);
      assert done[|before| + 2 * i.value] == SaveSnapshot(advances[i.value].next);
      assert done[|before| + 2 * i.value] in done;
    }
  }
}
