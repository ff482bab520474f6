/**
 * What the lifecycle removes: a wipe, a delete, a discard and a finished stop leave no plaintext behind,
 * and after a wipe nothing of the old session ever comes back.
 */
module LifecycleErasure {
  import opened Common
  import opened Lifecycle
  import opened LifecycleSafety

  // ---------------------------------------------------------------- what is promised

  /** No session data on this machine: directory, mark and container are gone. */
  predicate Bare(s: State) {
    s.dir == [] && !s.marker && s.container.Absent?
  }

  /** The report that ends a wipe or delete, when it takes effect. */
  predicate RemovalCommits(s: State, e: Event) {
    s.pc.Remove? && (s.pc.removing.WipingObjects? || s.pc.removing.DeletingObjects?) && e.Send? && !e.outcome.Rejected?
  }

  // ---------------------------------------------------------------- the invariant

  /** How far each kind of pass has come with what it removes. */
  predicate Cleared(s: State) {
    && (s.pc.Remove? ==> RemovalCleared(s, s.pc.removing))
    && (s.pc.Stop? ==> StopCleared(s, s.pc.plan, s.pc.stopping))
    && (s.pc.Run? && (s.pc.running.TaintedDirectory? || s.pc.running.TaintedMark?) ==> s.container.Absent?)
    && (s.pc.Run? && s.pc.running.TaintedMark? ==> s.dir == [])
  }

  predicate RemovalCleared(s: State, at: RemoveAt)
    requires s.pc.Remove?
  {
    && (!(at.WipingContainer? || at.DeletingContainer?) ==> s.container.Absent?)
    && (at.WipingMark? || at.WipingObjects? || at.DeletingObjects? ==> s.dir == [])
    && (at.WipingObjects? || at.DeletingObjects? ==> !s.marker)
    && s.pc.runtime.manifest == s.row.manifest
  }

  predicate StopCleared(s: State, plan: StopPlan, at: StopAt)
    requires s.pc.Stop?
  {
    && (!plan.hadContainer || at.Committing? || AfterCommit(s.pc) ==> s.container.Absent?)
    && (at.Unmarking? || at.Cleaning? || at.Acknowledging? ==> s.dir == [])
    && (at.Cleaning? || at.Acknowledging? ==> !s.marker)
    && (at.Acknowledging? && CleansUp(plan) ==> CleanupDone(s, plan.runtime.manifest, Retained(plan, s.pc.persisted)))
  }

  lemma OutsideKeeps(s: State, e: Event)
    requires e.RequestStart? || e.RequestStop? || e.EndSession? || e.RequestWipe? || e.RequestDelete? || e.GuestWrites? ||
             e.ContainerExits? || e.Crash? || e.NoteFloor? || e.Fetch? || e.Fail?
    requires Cleared(s) && Enabled(s, e)
    ensures Cleared(Step(s, e))
  {
  }

  lemma DispatchClears(s: State, e: Event)
    requires s.pc.Dispatch? && DispatchEnabled(s, e) && s.pc.runtime.manifest == s.row.manifest
    ensures Cleared(DispatchStep(s, e))
  {
  }

  lemma RunClears(s: State, e: Event)
    requires s.pc.Run? && RunEnabled(s, e) && Cleared(s)
    ensures Cleared(RunStep(s, e))
  {
  }

  lemma StopCommitClears(s: State, e: Event)
    requires s.pc.Stop? && StopEnabled(s, e) && Cleared(s)
    requires s.pc.stopping.Removing? || s.pc.stopping.Discarding? || s.pc.stopping.Committing?
    ensures Cleared(StopStep(s, e))
  {
  }

  lemma StopCleanClears(s: State, e: Event)
    requires s.pc.Stop? && StopEnabled(s, e) && Cleared(s) && AfterCommit(s.pc)
    ensures Cleared(StopStep(s, e))
  {
  }

  lemma StopClears(s: State, e: Event)
    requires s.pc.Stop? && StopEnabled(s, e) && Cleared(s)
    ensures Cleared(StopStep(s, e))
  {
    if s.pc.stopping.Removing? || s.pc.stopping.Discarding? || s.pc.stopping.Committing? {
      StopCommitClears(s, e);
    } else if AfterCommit(s.pc) {
      StopCleanClears(s, e);
    }
  }

  lemma RemovalClears(s: State, e: Event)
    requires s.pc.Remove? && RemoveEnabled(s, e) && Cleared(s)
    ensures Cleared(RemoveStep(s, e))
  {
  }

  lemma StepClears(s: State, e: Event)
    requires Shape(s) && Cleared(s) && Enabled(s, e)
    ensures Cleared(Step(s, e))
  {
    if e.RequestStart? || e.RequestStop? || e.EndSession? || e.RequestWipe? || e.RequestDelete? || e.GuestWrites? ||
       e.ContainerExits? || e.Crash? || e.NoteFloor? || e.Fetch? || e.Fail? {
      OutsideKeeps(s, e);
    } else if s.pc.Dispatch? {
      DispatchClears(s, e);
    } else if s.pc.Run? {
      RunClears(s, e);
    } else if s.pc.Stop? {
      StopClears(s, e);
    } else if s.pc.Remove? {
      RemovalClears(s, e);
    }
  }

  lemma {:induction false} RunKeepsCleared(s: State, events: seq<Event>)
    requires Shape(s) && Cleared(s) && CanHappen(s, events)
    ensures Shape(After(s, events)) && Cleared(After(s, events))
    decreases |events|
  {
    if events != [] {
      StepKeeps(s, events[0]);
      StepClears(s, events[0]);
      RunKeepsCleared(Step(s, events[0]), events[1..]);
    }
  }

  // ---------------------------------------------------------------- over all runs

  /**
   * When the report of a wipe or delete takes effect, whatever happened before: no directory, mark, container,
   * manifest or legacy file is left, and the snapshots that were committed are gone from their stores.
   */
  lemma RemovalErases(s: State, events: seq<Event>, e: Event)
    requires Init(s) && CanHappen(s, events) && Enabled(After(s, events), e) && RemovalCommits(After(s, events), e)
    ensures var before, t := After(s, events), Step(After(s, events), e);
            && Bare(t) && t.row.manifest.None? && t.legacy.None?
            && (before.row.manifest.Some? ==>
                  var m := before.row.manifest.value;
                  KeyOf(m.primary) !in t.objects && (m.fallback.Some? ==> KeyOf(m.fallback.value) !in t.objects))
            && !t.row.wipeRequested && (t.row.deleted || t.row.status.Stopped?)
  {
    RunKeepsCleared(s, events);
  }

  /**
   * When a stop acknowledges its cleanup, whatever the answer: no plaintext, mark or container is left, and if it
   * cleaned up, neither is the legacy file nor the generation its save replaced.
   */
  lemma StopErases(s: State, events: seq<Event>, e: Event)
    requires Init(s) && CanHappen(s, events) && Enabled(After(s, events), e) && e.Send?
    requires After(s, events).pc.Stop? && After(s, events).pc.stopping.Acknowledging?
    ensures var pc, t := After(s, events).pc, Step(After(s, events), e);
            && Bare(t)
            && (CleansUp(pc.plan) ==> CleanupDone(t, pc.plan.runtime.manifest, Retained(pc.plan, pc.persisted)))
  {
    RunKeepsCleared(s, events);
  }

  /** A tainted session's directory, mark and container are gone once it is discarded. */
  lemma DiscardErases(s: State, events: seq<Event>)
    requires Init(s) && CanHappen(s, events) && After(s, events).pc.Run? && After(s, events).pc.running.TaintedMark?
    ensures Bare(RunStep(After(s, events), Advance))
  {
    RunKeepsCleared(s, events);
  }

  // ---------------------------------------------------------------- what a start begins with

  predicate Starts(s: State, e: Event) {
    s.pc.Run? && s.pc.running.Starting? && e.Advance?
  }

  predicate NothingStarts(s: State, events: seq<Event>)
    requires CanHappen(s, events)
    decreases |events|
  {
    events != [] ==> !Starts(s, events[0]) && NothingStarts(Step(s, events[0]), events[1..])
  }

  /** There is nothing a start could bring back. */
  predicate Fresh(s: State) {
    && s.dir == [] && s.row.manifest.None? && s.legacy.None? && !s.container.Running?
    && (s.pc.Stop? ==> !s.pc.persisted.Saved?)
  }

  lemma RestoreStaysFresh(s: State, e: Event)
    requires Fresh(s) && s.pc.Run? && s.pc.runtime.manifest.None? && RunEnabled(s, e)
    requires !(s.pc.running.RemovingStale? || s.pc.running.Preparing? || s.pc.running.Creating? || s.pc.running.Marking?)
    requires !(s.pc.running.Starting? || s.pc.running.Reporting?)
    ensures Fresh(RunStep(s, e))
  {
  }

  lemma RunStaysFresh(s: State, e: Event)
    requires Fresh(s) && s.pc.Run? && s.pc.runtime.manifest.None? && RunEnabled(s, e) && !Starts(s, e)
    ensures Fresh(RunStep(s, e))
  {
    if !(s.pc.running.RemovingStale? || s.pc.running.Preparing? || s.pc.running.Creating? || s.pc.running.Marking?) &&
       !(s.pc.running.Starting? || s.pc.running.Reporting?) {
      RestoreStaysFresh(s, e);
    }
  }

  lemma StopCommitStaysFresh(s: State, e: Event)
    requires Fresh(s) && s.pc.Stop? && StopEnabled(s, e)
    requires s.pc.stopping.Removing? || s.pc.stopping.Discarding? || s.pc.stopping.Committing? || s.pc.stopping.Acknowledging?
    ensures Fresh(StopStep(s, e))
  {
  }

  lemma StopStaysFresh(s: State, e: Event)
    requires Fresh(s) && s.pc.Stop? && StopEnabled(s, e)
    ensures Fresh(StopStep(s, e))
  {
    if s.pc.stopping.Removing? || s.pc.stopping.Discarding? || s.pc.stopping.Committing? || s.pc.stopping.Acknowledging? {
      StopCommitStaysFresh(s, e);
    }
  }

  lemma RemovalStaysFresh(s: State, e: Event)
    requires Fresh(s) && s.pc.Remove? && RemoveEnabled(s, e)
    ensures Fresh(RemoveStep(s, e))
  {
  }

  lemma OutsideStaysFresh(s: State, e: Event)
    requires e.RequestStart? || e.RequestStop? || e.EndSession? || e.RequestWipe? || e.RequestDelete? || e.GuestWrites? ||
             e.ContainerExits? || e.Crash? || e.NoteFloor? || e.Fetch? || e.Fail? || s.pc.ReportError?
    requires Fresh(s) && Enabled(s, e)
    ensures Fresh(Step(s, e))
  {
  }

  lemma DispatchStaysFresh(s: State, e: Event)
    requires Fresh(s) && s.pc.Dispatch? && DispatchEnabled(s, e)
    ensures Fresh(DispatchStep(s, e))
  {
  }

  lemma StepStaysFresh(s: State, e: Event)
    requires Shape(s) && Fresh(s) && Enabled(s, e) && !Starts(s, e)
    ensures Fresh(Step(s, e))
  {
    if e.RequestStart? || e.RequestStop? || e.EndSession? || e.RequestWipe? || e.RequestDelete? || e.GuestWrites? ||
       e.ContainerExits? || e.Crash? || e.NoteFloor? || e.Fetch? || e.Fail? || s.pc.ReportError? {
      OutsideStaysFresh(s, e);
    } else if s.pc.Dispatch? {
      DispatchStaysFresh(s, e);
    } else if s.pc.Run? {
      RunStaysFresh(s, e);
    } else if s.pc.Stop? {
      StopStaysFresh(s, e);
    } else {
      RemovalStaysFresh(s, e);
    }
  }

  lemma {:induction false} RunStaysFreshUntilStart(s: State, events: seq<Event>)
    requires Shape(s) && Fresh(s) && CanHappen(s, events) && NothingStarts(s, events)
    ensures Fresh(After(s, events))
    decreases |events|
  {
    if events != [] {
      StepKeeps(s, events[0]);
      StepStaysFresh(s, events[0]);
      RunStaysFreshUntilStart(Step(s, events[0]), events[1..]);
    }
  }

  lemma RemovalLeavesFresh(s: State, events: seq<Event>, e: Event)
    requires Init(s) && CanHappen(s, events) && Enabled(After(s, events), e) && RemovalCommits(After(s, events), e)
    ensures var t := Step(After(s, events), e);
            Shape(t) && Fresh(t)
  {
    RemovalErases(s, events, e);
    RunKeepsCleared(s, events);
    StepKeeps(After(s, events), e);
  }

  /** However long after a wipe and whatever fails in between, the first container started begins with an empty directory. */
  lemma WipedNeverComesBack(s: State, events: seq<Event>, e: Event, more: seq<Event>)
    requires Init(s) && CanHappen(s, events) && Enabled(After(s, events), e) && RemovalCommits(After(s, events), e)
    requires CanHappen(Step(After(s, events), e), more) && NothingStarts(Step(After(s, events), e), more)
    ensures var u := After(Step(After(s, events), e), more);
            Starts(u, Advance) ==> Step(u, Advance).container.Running? && Step(u, Advance).dir == [] == Step(u, Advance).last
  {
    RemovalLeavesFresh(s, events, e);
    RunStaysFreshUntilStart(Step(After(s, events), e), more);
  }

  /**
   * Sessions go on where they stopped: with automatic snapshots, over every run that loses nothing, a container
   * starts on exactly what the session before it held, unless only the fallback could be restored.
   */
  lemma SessionsContinue(s: State, events: seq<Event>)
    requires Init(s) && s.autoSnapshot && CanHappen(s, events) && NeverLost(s, events)
    ensures var u := After(s, events);
            Starts(u, Advance) && u.last != [] && !u.fellBack ==>
              Step(u, Advance).container.Running? && Step(u, Advance).dir == u.last
  {
    NeverLostIff(s, events);
    EventsKeep(s, events);
    AutoSnapshotStays(s, events);
  }
}
