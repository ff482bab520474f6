/**
 * Snapshot floors and generation numbers over whole runs: no rollback below what
 * a phone has seen, and numbers that keep rising.
 */
module LifecycleRuns {
  import opened Common
  import opened Lifecycle
  import opened LifecycleSafety

  // ---------------------------------------------------------------- snapshot floors

  /** The highest floor the events note, after a crash forgets earlier ones. */
  function HighestNoted(floor: Option<int>, events: seq<Event>): Option<int>
    decreases |events|
  {
    if events == [] then floor
    else
      HighestNoted(
        match events[0]
        case NoteFloor(sent) => RaiseFloor(floor, sent)
        case Crash => None
        case _ => floor,
        events[1..])
  }

  lemma {:induction false} FloorIsHighestNoted(s: State, events: seq<Event>)
    requires CanHappen(s, events)
    ensures After(s, events).floor == HighestNoted(s.floor, events)
    decreases |events|
  {
    if events != [] {
      FloorIsHighestNoted(Step(s, events[0]), events[1..]);
    }
  }

  /** A noted floor is at least every floor a phone sent since the last crash, up to the clamp. */
  lemma {:induction false} HighestNotedCovers(floor: Option<int>, events: seq<Event>, i: nat)
    requires i < |events| && events[i].NoteFloor?
    requires forall j :: i < j < |events| ==> !events[j].Crash?
    ensures HighestNoted(floor, events).Some?
    ensures HighestNoted(floor, events).value >= ClampFloor(events[i].sent)
    decreases |events|
  {
    if i == 0 {
      NotedOnlyRises(RaiseFloor(floor, events[0].sent), events[1..]);
    } else {
      var next := match events[0] case NoteFloor(sent) => RaiseFloor(floor, sent) case Crash => None case _ => floor;
      HighestNotedCovers(next, events[1..], i - 1);
    }
  }

  lemma {:induction false} NotedOnlyRises(floor: Option<int>, events: seq<Event>)
    requires floor.Some?
    requires forall j :: 0 <= j < |events| ==> !events[j].Crash?
    ensures HighestNoted(floor, events).Some? && HighestNoted(floor, events).value >= floor.value
    decreases |events|
  {
    if events != [] {
      var next := match events[0] case NoteFloor(sent) => RaiseFloor(floor, sent) case _ => floor;
      NotedOnlyRises(next, events[1..]);
    }
  }

  /** Past its floor check, a start keeps the floor it was checked against. */
  predicate StartUnder(pc: Pc, floor: Option<int>) {
    && !pc.Dispatch?
    && (pc.Run? ==> pc.floor == floor && !pc.running.RemovingStale? && !pc.running.Preparing?)
  }

  lemma {:induction false} StartKeepsFloor(s: State, events: seq<Event>, floor: Option<int>)
    requires CanHappen(s, events) && StartUnder(s.pc, floor)
    requires forall i :: 0 <= i < |events| ==> !events[i].Fetch?
    ensures StartUnder(After(s, events).pc, floor)
    decreases |events|
  {
    if events != [] {
      StartStepKeepsFloor(s, events[0], floor);
      StartKeepsFloor(Step(s, events[0]), events[1..], floor);
    }
  }

  lemma RunStepKeepsFloor(s: State, e: Event, floor: Option<int>)
    requires s.pc.Run? && RunEnabled(s, e) && StartUnder(s.pc, floor)
    ensures StartUnder(RunStep(s, e).pc, floor)
  {
    match s.pc.running
    case Restoring =>
    case Reporting =>
    case _ =>
  }

  lemma StartStepKeepsFloor(s: State, e: Event, floor: Option<int>)
    requires Enabled(s, e) && !e.Fetch? && StartUnder(s.pc, floor)
    ensures StartUnder(Step(s, e).pc, floor)
  {
    if s.pc.Run? && RunEnabled(s, e) {
      RunStepKeepsFloor(s, e, floor);
    }
  }

  /** The floor check: whatever follows runs under the floor noted by now. */
  lemma PrepareTakesFloor(s: State)
    requires s.pc.Run? && s.pc.running.Preparing?
    ensures Enabled(s, Advance) && StartUnder(Step(s, Advance).pc, s.floor)
  {
  }

  /** What the node would restore in state t: the primary, or the fallback once the primary failed. */
  function AboutToRestore(t: State): Option<Snapshot> {
    if !(t.pc.Run? && t.pc.runtime.manifest.Some?) then None
    else if t.pc.running.Restoring? then Some(t.pc.runtime.manifest.value.primary)
    else if t.pc.running.RestoringFallback? then t.pc.runtime.manifest.value.fallback
    else None
  }

  lemma RestoreIsAllowed(t: State)
    requires Shape(t) && AboutToRestore(t).Some?
    ensures FloorAllows(AboutToRestore(t).value, t.pc.floor)
  {
  }

  /**
   * No rollback: a start that was checked after the events in before restores, from primary or
   * fallback, only an authenticated snapshot no older than the highest floor noted by then.
   */
  lemma RestoreHonoursFloor(s: State, before: seq<Event>, during: seq<Event>)
    requires Init(s) && s.floor.None?
    requires CanHappen(s, before) && After(s, before).pc.Run? && After(s, before).pc.running.Preparing?
    requires Enabled(After(s, before), Advance) && CanHappen(Step(After(s, before), Advance), during)
    requires forall i :: 0 <= i < |during| ==> !during[i].Fetch?
    ensures var t := After(Step(After(s, before), Advance), during);
            AboutToRestore(t).Some? && HighestNoted(None, before).Some? ==>
              && AboutToRestore(t).value.version == 3
              && AboutToRestore(t).value.generation >= HighestNoted(None, before).value
  {
    var p := After(s, before);
    var q := Step(p, Advance);
    var t := After(q, during);
    FloorIsHighestNoted(s, before);
    PrepareTakesFloor(p);
    StartKeepsFloor(q, during, p.floor);
    InitHasShape(s);
    EventsKeep(s, before);
    StepKeeps(p, Advance);
    EventsKeep(q, during);
    if AboutToRestore(t).Some? { RestoreIsAllowed(t); }
  }

  lemma InitHasShape(s: State)
    requires Init(s)
    ensures Shape(s) && Good(s)
  {
  }

  // ---------------------------------------------------------------- generations

  /** A manifest stays committed throughout. */
  predicate StaysCommitted(s: State, events: seq<Event>)
    requires CanHappen(s, events)
    decreases |events|
  {
    && s.row.manifest.Some?
    && (events != [] ==> StaysCommitted(Step(s, events[0]), events[1..]))
  }

  /** A row change keeps the committed snapshot's number, moves to the next one, clears it, or starts at 1. */
  predicate Advances(now: Row, next: Row) {
    next.manifest.Some? ==>
      var b := next.manifest.value.primary;
      if now.manifest.None? then b.generation == 1
      else
        var a := now.manifest.value.primary;
        || (b.generation == a.generation + 1 && a.generation != MAX_INT64)
        || (b.generation == a.generation && b.id == a.id)
  }

  lemma RunAdvances(s: State, e: Event)
    requires s.pc.Run? && RunEnabled(s, e)
    ensures Advances(s.row, RunStep(s, e).row)
  {
  }

  lemma ReportAdvances(row: Row, report: Report, outcome: Outcome)
    requires Possible(row, report, outcome)
    ensures Advances(row, Delivered(row, report, outcome))
  {
  }

  lemma StopAdvances(s: State, e: Event)
    requires s.pc.Stop? && StopEnabled(s, e)
    ensures Advances(s.row, StopStep(s, e).row)
  {
    if e.Send? {
      ReportAdvances(s.row, StopReport(s.pc.plan, s.pc.persisted, s.pc.stopping.Acknowledging?), e.outcome);
    }
  }

  lemma RemoveAdvances(s: State, e: Event)
    requires s.pc.Remove? && RemoveEnabled(s, e)
    ensures Advances(s.row, RemoveStep(s, e).row)
  {
  }

  lemma DispatchAdvances(s: State, e: Event)
    requires s.pc.Dispatch? && DispatchEnabled(s, e)
    ensures Advances(s.row, DispatchStep(s, e).row)
  {
  }

  lemma RequestAdvances(s: State, e: Event)
    requires e.RequestStart? || e.RequestStop? || e.EndSession? || e.RequestWipe? || e.RequestDelete?
    requires ControlEnabled(s, e)
    ensures Advances(s.row, ControlStep(s, e).row)
  {
  }

  lemma StepAdvances(s: State, e: Event)
    requires Enabled(s, e)
    ensures Advances(s.row, Step(s, e).row)
  {
    if e.RequestStart? || e.RequestStop? || e.EndSession? || e.RequestWipe? || e.RequestDelete? {
      RequestAdvances(s, e);
    } else if e.GuestWrites? || e.ContainerExits? || e.Crash? || e.NoteFloor? || e.Fetch? || e.Fail? {
      assert Step(s, e).row == s.row;
    } else if s.pc.ReportError? {
      ReportAdvances(s.row, StatusReport(s.pc.runtime), e.outcome);
    } else if s.pc.Run? {
      RunAdvances(s, e);
    } else if s.pc.Stop? {
      StopAdvances(s, e);
    } else if s.pc.Remove? {
      RemoveAdvances(s, e);
    } else {
      DispatchAdvances(s, e);
    }
  }

  /** Over any run, committed generations never fall, and an equal number is the same snapshot. */
  lemma {:induction false} GenerationsRise(s: State, events: seq<Event>)
    requires CanHappen(s, events) && StaysCommitted(s, events)
    ensures After(s, events).row.manifest.Some?
    ensures var first, last := s.row.manifest.value.primary, After(s, events).row.manifest.value.primary;
            last.generation > first.generation || (last.generation == first.generation && last.id == first.id)
    decreases |events|
  {
    if events != [] {
      StepAdvances(s, events[0]);
      GenerationsRise(Step(s, events[0]), events[1..]);
    }
  }

  function GenerationOf(manifest: Option<Manifest>): int {
    if manifest.Some? then manifest.value.primary.generation else 0
  }

  /** Every noted floor leaves room for a next number. */
  lemma {:induction false} HighestNotedFits(floor: Option<int>, events: seq<Event>)
    requires floor.Some? ==> floor.value < MAX_INT64
    ensures HighestNoted(floor, events).Some? ==> HighestNoted(floor, events).value < MAX_INT64
    decreases |events|
  {
    if events != [] {
      var next := match events[0] case NoteFloor(sent) => RaiseFloor(floor, sent) case Crash => None case _ => floor;
      HighestNotedFits(next, events[1..]);
    }
  }

  /** Committed numbers never pass the last int64. */
  lemma {:induction false} GenerationsFit(s: State, events: seq<Event>)
    requires CanHappen(s, events) && GenerationOf(s.row.manifest) <= MAX_INT64
    ensures GenerationOf(After(s, events).row.manifest) <= MAX_INT64
    decreases |events|
  {
    if events != [] {
      StepAdvances(s, events[0]);
      GenerationsFit(Step(s, events[0]), events[1..]);
    }
  }

  /** In any run, the number of a new snapshot is above the committed one and the noted floor, and fits an int64. */
  lemma NextIsNewer(s: State, events: seq<Event>)
    requires Init(s) && s.floor.None? && CanHappen(s, events)
    requires GenerationOf(s.row.manifest) <= MAX_INT64
    ensures var t := After(s, events);
            var next := NextGeneration(t.row.manifest, t.floor);
            && (next.None? <==> t.row.manifest.Some? && (GenerationOf(t.row.manifest) < 0 || GenerationOf(t.row.manifest) == MAX_INT64))
            && (next.Some? ==>
                  && GenerationOf(t.row.manifest) < next.value <= MAX_INT64
                  && (t.floor.Some? ==> t.floor.value < next.value))
  {
    FloorIsHighestNoted(s, events);
    HighestNotedFits(None, events);
    GenerationsFit(s, events);
  }

  /** A beginning of a run can happen, and the rest from where it leads. */
  lemma {:induction false} RunSplits(s: State, events: seq<Event>, n: nat)
    requires CanHappen(s, events) && n <= |events|
    ensures CanHappen(s, events[..n]) && CanHappen(After(s, events[..n]), events[n..])
    ensures After(s, events) == After(After(s, events[..n]), events[n..])
    decreases n
  {
    if n == 0 {
      assert events[..0] == [] && events[0..] == events;
    } else {
      RunSplits(Step(s, events[0]), events[1..], n - 1);
      assert events[..n][1..] == events[1..][..n - 1] && events[1..][n - 1..] == events[n..];
    }
  }

  /** The number a save in state t gives. */
  function SavedNumber(t: State): Option<int> {
    if t.pc.Stop? then NextGeneration(t.pc.plan.runtime.manifest, t.floor) else None
  }

  /**
   * Numbers keep rising across wipes and lost data: once a phone has sent the newest generation g it has seen,
   * every save of the same process is numbered above g, whatever was wiped, lost or restarted in between.
   */
  lemma SavesPassWhatPhonesSaw(s: State, events: seq<Event>, k: nat, j: nat, g: int)
    requires CanHappen(s, events) && k < j < |events|
    requires events[k].NoteFloor? && events[k].sent >= g && g < MAX_INT64
    requires forall i :: k < i < j ==> !events[i].Crash?
    requires events[j].Save?
    ensures CanHappen(s, events[..j]) && CanHappen(s, events[..j + 1])
    ensures SavedNumber(After(s, events[..j])).Some? && SavedNumber(After(s, events[..j])).value > g
    ensures var u := After(s, events[..j + 1]);
            u.pc.Stop? && u.pc.persisted.Saved? && u.pc.persisted.manifest.primary.generation > g
  {
    RunSplits(s, events, j);
    RunSplits(s, events, j + 1);
    RunSplits(s, events[..j + 1], j);
    assert events[..j + 1][..j] == events[..j] && events[..j + 1][j..] == [events[j]];
    var t := After(s, events[..j]);
    assert CanHappen(t, [events[j]]) && Enabled(t, events[j]);
    FloorIsHighestNoted(s, events[..j]);
    HighestNotedCovers(s.floor, events[..j], k);
    SaveGivesNumber(t, events[j]);
  }

  lemma SaveGivesNumber(t: State, e: Event)
    requires Enabled(t, e) && e.Save?
    ensures SavedNumber(t).Some?
    ensures var u := After(t, [e]);
            u.pc.Stop? && u.pc.persisted.Saved? && u.pc.persisted.manifest.primary.generation == SavedNumber(t).value
  {
  }

  /**
   * Where node and control plane agree on numbers: the control plane takes the node's next
   * snapshot exactly when no floor is above the committed generation. After a wipe the node
   * keeps counting above what the phone saw, and the control plane expects 1 again.
   */
  lemma NumberAcceptedIff(previous: Option<Manifest>, floor: Option<int>, store: StoreKind, id: nat)
    requires previous.Some? ==> previous.value.primary.id != id
    requires NextGeneration(previous, floor).Some?
    ensures AdvanceAccepted(previous, Snapshot(store, id, 3, NextGeneration(previous, floor).value)) <==>
              floor.None? || floor.value <= GenerationOf(previous)
  {
  }

  /** A save numbered past the committed generation's successor is never committed, and stays on disk. */
  lemma SaveAboveFloorIsRefused(s: State, e: Event)
    requires Shape(s) && s.pc.Stop? && s.pc.stopping.Committing? && s.pc.persisted.Saved?
    requires s.pc.persisted.manifest.primary.generation > GenerationOf(s.row.manifest) + 1
    requires StopEnabled(s, e)
    ensures StopStep(s, e).row.manifest == s.row.manifest
    ensures !AfterCommit(StopStep(s, e).pc)
    ensures StopStep(s, e).dir == s.dir && StopStep(s, e).marker == s.marker
  {
  }
}
