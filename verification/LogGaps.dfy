/**
 What a log says where no event is missing from it: crashes may leave gaps in the sequence numbers, but
 an event at the store's own sequence carries the stored snapshot, and two events with consecutive
 numbers are one call's cause and effect.
 */
module LogGaps {
  import opened Wrappers
  import opened MissionStatus
  import opened MissionTypes
  import opened MissionProtocol
  import opened MissionRuns
  import opened MissionInvariants

  /** An event at the stored `lastEventSequence` carries the stored snapshot. */
  ghost predicate TopIsStored(view: View) {
    view.mission.Some? ==> forall i :: 0 <= i < |view.log| ==>
      (view.log[i].sequence == view.mission.value.lastEventSequence ==> view.log[i].snapshot == view.mission.value)
  }

  /** The log's last event has the store's sequence number. */
  ghost predicate CaughtUp(view: View) {
    && view.log != [] && view.mission.Some?
    && view.log[|view.log| - 1].sequence == view.mission.value.lastEventSequence
  }

  lemma TopStep(view: View, saved: set<Snapshot>, id: Id, adv: Advance)
    requires LogBehindStore(view, saved, id)
    requires view.mission.Some? ==> adv.next.lastEventSequence == view.mission.value.lastEventSequence + 1
    ensures TopIsStored(Stored(view, adv)) && TopIsStored(StoredAndLogged(view, adv))
  {
  }

  lemma {:induction false} LoggedAtStore(config: Config, turns: seq<Turn>, id: Id)
    requires Feasible(config, turns)
    ensures TopIsStored(ViewOf(Run(config, turns).db, id))
  {
    if turns != [] {
      LoggedAtStore(config, turns[..|turns| - 1], id);
      LogsNeverOvertakeStores(config, turns[..|turns| - 1], id);
      var world, step, at := LastTurn(config, turns, id);
      var view := ViewOf(world.db, id);
      if at.Some? {
        if view.mission.Some? { CausedAdvancesByOne(config, view.mission.value, step, at.value); }
        TopStep(view, world.saved, id, at.value);
      }
    }
  }

  lemma CaughtUpMeansStored(view: View, saved: set<Snapshot>, id: Id)
    requires LogBehindStore(view, saved, id) && TopIsStored(view)
    ensures CaughtUp(view) <==>
            view.log != [] && Some(view.log[|view.log| - 1].snapshot) == view.mission
  {
  }

  /** In every run, the last event carries the stored snapshot exactly when it has the stored sequence number. */
  lemma CaughtUpExactly(config: Config, turns: seq<Turn>, id: Id)
    requires Feasible(config, turns)
    ensures var view := ViewOf(Run(config, turns).db, id);
      CaughtUp(view) <==> view.log != [] && Some(view.log[|view.log| - 1].snapshot) == view.mission
  {
    LogsNeverOvertakeStores(config, turns, id);
    LoggedAtStore(config, turns, id);
    CaughtUpMeansStored(ViewOf(Run(config, turns).db, id), Run(config, turns).saved, id);
  }

  // ------------------------------------------- consecutive events are cause and effect

  /** One call takes the mission from the state the first event logs to the second event. */
  ghost predicate Causes(config: Config, a: Event, b: Event) {
    exists step :: Caused(config, a.snapshot, step, Advance(b.snapshot, b.eventType))
  }

  /** No sequence number is missing before event `i`. */
  ghost predicate NoGapBefore(log: seq<Event>, i: nat)
    requires 0 < i < |log|
  {
    log[i].sequence == log[i - 1].sequence + 1
  }

  ghost predicate CausalLog(config: Config, log: seq<Event>) {
    forall i :: 0 < i < |log| && NoGapBefore(log, i) ==> Causes(config, log[i - 1], log[i])
  }

  lemma CausalStep(config: Config, view: View, saved: set<Snapshot>, id: Id, step: Step, adv: Advance)
    requires LogBehindStore(view, saved, id) && TopIsStored(view) && CausalLog(config, view.log)
    requires view.mission.Some? ==> Caused(config, view.mission.value, step, adv)
    ensures CausalLog(config, StoredAndLogged(view, adv).log)
  {
    var log' := StoredAndLogged(view, adv).log;
    forall i | 0 < i < |log'| && NoGapBefore(log', i) ensures Causes(config, log'[i - 1], log'[i]) {
      if i < |view.log| {
        assert NoGapBefore(view.log, i) && Causes(config, view.log[i - 1], view.log[i]);
      } else {
        CausedAdvancesByOne(config, view.mission.value, step, adv);
        assert view.log[i - 1].snapshot == view.mission.value;
        assert Caused(config, log'[i - 1].snapshot, step, Advance(log'[i].snapshot, log'[i].eventType));
      }
    }
  }

  /** In every run, crashed and swept as it may be, consecutive events are one call's cause and effect. */
  lemma {:induction false} GaplessEventsAreCaused(config: Config, turns: seq<Turn>, id: Id)
    requires Feasible(config, turns)
    ensures CausalLog(config, Log(Run(config, turns).db, id))
  {
    if turns != [] {
      GaplessEventsAreCaused(config, turns[..|turns| - 1], id);
      LogsNeverOvertakeStores(config, turns[..|turns| - 1], id);
      LoggedAtStore(config, turns[..|turns| - 1], id);
      var world, step, at := LastTurn(config, turns, id);
      if at.Some? {
        CausalStep(config, ViewOf(world.db, id), world.saved, id, step, at.value);
      }
      assert Log(Run(config, turns).db, id) == ViewOf(Run(config, turns).db, id).log;
    }
  }

  /** In every run, an event directly after a logged terminal state is the UNKNOWN of a sweep. */
  lemma GaplessAfterTerminal(config: Config, turns: seq<Turn>, id: Id, i: nat)
    requires Feasible(config, turns)
    requires var log := Log(Run(config, turns).db, id);
      0 < i < |log| && NoGapBefore(log, i) && log[i - 1].snapshot.status in TERMINAL_STATES
    ensures Log(Run(config, turns).db, id)[i].snapshot.status == Unknown
  {
    var log := Log(Run(config, turns).db, id);
    GaplessEventsAreCaused(config, turns, id);
    assert Causes(config, log[i - 1], log[i]);
    var step :| Caused(config, log[i - 1].snapshot, step, Advance(log[i].snapshot, log[i].eventType));
    TerminalMovesBySweep(config, log[i - 1].snapshot, step, Advance(log[i].snapshot, log[i].eventType));
  }
}
