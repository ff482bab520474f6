/**
 * Whole-run safety of the lifecycle: whatever crashes, failed calls and user
 * requests a run holds, the last session stays on disk or in the committed
 * snapshot, and the committed snapshot's objects stay in their store.
 */
module LifecycleSafety {
  import opened Common
  import opened Lifecycle

  // ---------------------------------------------------------------- what is promised

  /** The committed manifest's primary objects hold contents. */
  predicate Committed(s: State, contents: Contents) {
    && s.row.manifest.Some?
    && KeyOf(s.row.manifest.value.primary) in s.objects
    && s.objects[KeyOf(s.row.manifest.value.primary)] == contents
  }

  /** The last session is on disk under its unsaved mark, or committed. */
  predicate NothingLost(s: State) {
    || s.last == []
    || (s.marker && s.dir == s.last)
    || Committed(s, s.last)
  }

  /** The committed primary is in its store, unless a wipe or delete removed it. */
  predicate CommittedKept(s: State) {
    s.row.manifest.Some? ==>
      var key := KeyOf(s.row.manifest.value.primary);
      key in s.objects || key in s.condemned
  }

  /** A runtime no pass has touched yet: any committed manifest, legacy file and old objects. */
  predicate Init(s: State) {
    && s.pc.Idle?
    && s.row.desired.WantStopped?
    && !s.row.hosted && !s.row.cleanupPending
    && WellFormed(s.row.manifest, s.used)
    && (forall k :: k in s.objects ==> k.id in s.used && s.objects[k] != [])
    && (s.legacy.Some? ==> s.legacy.value != [])
    && (s.row.manifest.Some? ==> KeyOf(s.row.manifest.value.primary) in s.objects)
    && s.last == (if s.row.manifest.Some? then s.objects[KeyOf(s.row.manifest.value.primary)] else [])
    && s.dir == [] && !s.marker && s.container.Absent?
    && !s.fellBack && s.condemned == {}
  }

  // ---------------------------------------------------------------- the invariant

  predicate WellFormed(manifest: Option<Manifest>, used: set<nat>) {
    manifest.Some? ==>
      && manifest.value.primary.id in used
      && (manifest.value.fallback.Some? ==>
            && manifest.value.fallback.value.id in used
            && manifest.value.fallback.value.store != manifest.value.primary.store)
  }

  predicate Safe(s: State) {
    s.last == [] || Committed(s, s.last)
  }

  /** The row tells a stop pass to resume cleanup instead of saving. */
  predicate Settled(row: Row) {
    row.desired.WantStopped? && row.hosted && (row.status.Stopped? || row.cleanupPending)
  }

  predicate AfterCommit(pc: Pc) {
    pc.Stop? && (pc.stopping.DroppingDirectory? || pc.stopping.Unmarking? || pc.stopping.Cleaning? || pc.stopping.Acknowledging?)
  }

  /** Passes that have not reported a manifest yet still hold the committed one. */
  predicate BeforeCommit(pc: Pc) {
    pc.Dispatch? || pc.Run? || (pc.Stop? && !AfterCommit(pc))
  }

  /** What holds in every run, whatever was restored. */
  ghost predicate Shape(s: State) {
    && (s.row.desired.WantRunning? || (!s.row.hosted && !s.row.deleted) ==> !s.row.cleanupPending)
    && (s.row.desired.WantRunning? ==> !s.row.wipeRequested && !s.row.status.Wiping?)
    && WellFormed(s.row.manifest, s.used)
    && (forall k :: k in s.objects ==> k.id in s.used && s.objects[k] != [])
    && (s.legacy.Some? ==> s.legacy.value != [])
    && CommittedKept(s)
    && (!s.pc.Idle? ==> PassShape(s, PassRow(s.pc)))
    && (s.pc.Run? ==> RunShape(s, s.pc.runtime, s.pc.running))
    && (s.pc.Stop? ==> StopShape(s, s.pc.plan, s.pc.stopping, s.pc.persisted))
  }

  predicate PassShape(s: State, runtime: Row) {
    && runtime.hosted
    && runtime.operation <= s.row.operation
    && (runtime.operation == s.row.operation && runtime.desired.WantRunning? ==> s.row.desired.WantRunning?)
    && (runtime.desired.WantRunning? ==> !runtime.cleanupPending && !runtime.wipeRequested && !runtime.status.Wiping?)
    && (s.pc.Remove? ==> !runtime.desired.WantRunning?)
    && (BeforeCommit(s.pc) ==> runtime.manifest == s.row.manifest)
    && (s.pc.Run? || (s.pc.Dispatch? && runtime.desired.WantRunning?) ==> !Settled(s.row))
  }

  predicate RunShape(s: State, runtime: Row, at: RunAt)
    requires s.pc.Run?
  {
    && (at.Starting? ==> s.marker)
    && (at.Resetting? || at.Restoring? ==>
          runtime.manifest.Some? && FloorAllows(runtime.manifest.value.primary, s.pc.floor))
    && (at.ResettingFallback? || at.RestoringFallback? ==>
          && runtime.manifest.Some? && runtime.manifest.value.fallback.Some?
          && FloorAllows(runtime.manifest.value.fallback.value, s.pc.floor))
    && (at.ResettingLegacy? || at.RestoringLegacy? ==> runtime.manifest.None?)
  }

  predicate StopShape(s: State, plan: StopPlan, at: StopAt, persisted: Persisted) {
    && (at.MarkingUnsaved? || at.Persisting? ==> plan.persists)
    && (if at.MarkingUnsaved? || at.Quiescing? || at.Persisting? then persisted.Nothing?
        else persisted.Nothing? <==> !plan.persists)
    && (persisted.Saved? ==>
          && WellFormed(Some(persisted.manifest), s.used)
          && (!AfterCommit(s.pc) && s.row.manifest.Some? ==>
                persisted.manifest.primary.id != s.row.manifest.value.primary.id)
          && (!at.Discarding? ==> KeyOf(persisted.manifest.primary) in s.objects))
    && (AfterCommit(s.pc) ==>
          s.row.manifest == match persisted
                            case Saved(m) => Some(m)
                            case ClearExisting => None
                            case Nothing => plan.runtime.manifest)
  }

  /** What holds while snapshots are taken. Since a fallback was restored, the session is the committed one. */
  predicate Data(s: State) {
    && (if s.fellBack then Safe(s) && !s.container.Running?
        else NothingLost(s) && (s.dir != [] ==> s.dir == s.last || s.last == []))
    && (!s.container.Absent? && s.dir == [] ==> s.last == [])
    && (s.container.Running? ==> s.marker)
    && (Settled(s.row) || (s.pc.Dispatch? && Settled(s.pc.runtime)) ==> s.container.Absent? && Safe(s))
    && (s.pc.Run? ==> RunData(s, s.pc.running))
    && (s.pc.Stop? ==> StopData(s, s.pc.plan, s.pc.stopping, s.pc.persisted))
    && (s.pc.Remove? ==> RemoveData(s, s.pc.removing))
  }

  predicate RunData(s: State, at: RunAt) {
    && (!(at.RemovingStale? || at.Marking? || at.Starting? || at.Reporting?) ==> s.container.Absent?)
    && (at.Resetting? || at.Restoring? || at.ResettingFallback? || at.RestoringFallback? || at.ResettingLegacy? ||
        at.RestoringLegacy?
        ==> Safe(s))
    && (at.DroppingFallback? ==> s.dir != [])
    && (at.Creating? && s.dir == [] ==> s.last == [])
    && (at.Marking? || at.Starting? ==> !s.container.Absent?)
    && (at.TaintedMark? ==> s.last == [])
  }

  /** A stop that takes a running session for one already saved: a migration under "stopped". */
  predicate Reckless(plan: StopPlan) {
    plan.runtime.desired.WantRunning? && plan.cleanupPending
  }

  predicate StopData(s: State, plan: StopPlan, at: StopAt, persisted: Persisted) {
    && (!plan.hadContainer ==> s.container.Absent?)
    && (Reckless(plan) ==> plan.hadContainer)
    && ((plan.cleanupPending || !plan.persists) && !Reckless(plan) ==> s.container.Absent? && Safe(s))
    && (plan.persists && !plan.hadContainer && !AfterCommit(s.pc) ==> s.dir != [])
    && (!at.MarkingUnsaved? && plan.persists && !AfterCommit(s.pc) ==> s.marker)
    && (at.Persisting? || at.Removing? ==> !s.container.Running?)
    && (plan.hadContainer && (at.MarkingUnsaved? || at.Quiescing? || at.Persisting?) ==> !s.container.Absent?)
    && (at.Removing? || at.Committing? ==>
          && (persisted.Saved? ==>
                var key := KeyOf(persisted.manifest.primary);
                key in s.objects && s.objects[key] == s.dir)
          && (persisted.ClearExisting? ==> s.last == []))
    && (at.Committing? || AfterCommit(s.pc) ==> s.container.Absent?)
    && (AfterCommit(s.pc) && !(Reckless(plan) && at.DroppingDirectory?) ==> Safe(s))
  }

  predicate RemoveData(s: State, at: RemoveAt) {
    && (!(at.WipingContainer? || at.DeletingContainer?) ==> s.container.Absent?)
    && (at.WipingMark? || at.WipingObjects? || at.DeletingObjects? ==> s.last == [])
  }

  predicate Good(s: State) {
    s.autoSnapshot ==> Data(s)
  }

  // ---------------------------------------------------------------- what can cost the session

  /** A report that takes effect and commits the save of a stop. */
  predicate CommitsSave(s: State, e: Event) {
    s.pc.Stop? && s.pc.stopping.Committing? && s.pc.persisted.Saved? && e.Send? && !e.outcome.Rejected?
  }

  /** A stop that saved nothing, because its assignment said "stopped", drops the data of a session that ran. */
  predicate DropsUnsaved(s: State, e: Event) {
    s.pc.Stop? && s.pc.stopping.DroppingDirectory? && Reckless(s.pc.plan) && e.Advance?
  }

  /** Neither branch takes the last session: what is saved is that session, and what is dropped was committed. */
  predicate Guarded(s: State, e: Event) {
    && (CommitsSave(s, e) ==> s.last == [] || s.dir == s.last)
    && (DropsUnsaved(s, e) ==> Safe(s))
  }

  // ---------------------------------------------------------------- every step keeps it

  lemma RequestKeeps(s: State, e: Event)
    requires e.RequestStart? || e.RequestStop? || e.EndSession?
    requires Shape(s) && ControlEnabled(s, e)
    ensures Shape(ControlStep(s, e))
    ensures Good(s) ==> Good(ControlStep(s, e))
  {
  }

  lemma RemovalRequestKeeps(s: State, e: Event)
    requires e.RequestWipe? || e.RequestDelete?
    requires Shape(s) && ControlEnabled(s, e)
    ensures Shape(ControlStep(s, e))
    ensures Good(s) ==> Good(ControlStep(s, e))
  {
  }

  lemma MachineKeeps(s: State, e: Event)
    requires e.GuestWrites? || e.ContainerExits? || e.Crash? || e.NoteFloor?
    requires Shape(s) && MachineEnabled(s, e)
    ensures Shape(MachineStep(s, e))
    ensures Good(s) ==> Good(MachineStep(s, e))
  {
  }

  lemma RunPrepareKeeps(s: State, e: Event)
    requires s.pc.Run? && (s.pc.running.RemovingStale? || s.pc.running.Preparing?)
    requires Shape(s) && RunEnabled(s, e)
    ensures Shape(RunStep(s, e))
    ensures Good(s) ==> Good(RunStep(s, e))
  {
  }

  lemma RunResetKeeps(s: State, e: Event)
    requires s.pc.Run? && (s.pc.running.Resetting? || s.pc.running.ResettingFallback? || s.pc.running.ResettingLegacy?)
    requires Shape(s) && RunEnabled(s, e)
    ensures Shape(RunStep(s, e))
    ensures Good(s) ==> Good(RunStep(s, e))
  {
  }

  lemma RunRestoreKeeps(s: State, e: Event)
    requires s.pc.Run? && (s.pc.running.Restoring?)
    requires Shape(s) && RunEnabled(s, e)
    ensures Shape(RunStep(s, e))
    ensures Good(s) ==> Good(RunStep(s, e))
  {
  }

  lemma RunFallbackKeeps(s: State, e: Event)
    requires s.pc.Run? && (s.pc.running.RestoringFallback? || s.pc.running.RestoringLegacy?)
    requires Shape(s) && RunEnabled(s, e)
    ensures Shape(RunStep(s, e))
    ensures Good(s) ==> Good(RunStep(s, e))
  {
  }

  lemma RunDropKeeps(s: State, e: Event)
    requires s.pc.Run? && (s.pc.running.DroppingFallback?)
    requires Shape(s) && RunEnabled(s, e)
    ensures Shape(RunStep(s, e))
    ensures Good(s) ==> Good(RunStep(s, e))
  {
  }

  lemma RunCreateKeeps(s: State, e: Event)
    requires s.pc.Run? && (s.pc.running.Creating? || s.pc.running.Marking?)
    requires Shape(s) && RunEnabled(s, e)
    ensures Shape(RunStep(s, e))
    ensures Good(s) ==> Good(RunStep(s, e))
  {
  }

  lemma RunStartKeeps(s: State, e: Event)
    requires s.pc.Run? && (s.pc.running.Starting? || s.pc.running.Reporting?)
    requires Shape(s) && RunEnabled(s, e)
    ensures Shape(RunStep(s, e))
    ensures Good(s) ==> Good(RunStep(s, e))
  {
  }

  lemma RunTaintKeeps(s: State, e: Event)
    requires s.pc.Run? && (s.pc.running.TaintedDirectory? || s.pc.running.TaintedMark?)
    requires Shape(s) && RunEnabled(s, e)
    ensures Shape(RunStep(s, e))
    ensures Good(s) ==> Good(RunStep(s, e))
  {
  }

  lemma StopMarkKeeps(s: State, e: Event)
    requires s.pc.Stop? && (s.pc.stopping.MarkingUnsaved? || s.pc.stopping.Quiescing?)
    requires Shape(s) && StopEnabled(s, e)
    ensures Shape(StopStep(s, e))
    ensures Good(s) ==> Good(StopStep(s, e))
  {
  }

  lemma StopPersistKeeps(s: State, e: Event)
    requires s.pc.Stop? && (s.pc.stopping.Persisting?)
    requires Shape(s) && StopEnabled(s, e)
    ensures Shape(StopStep(s, e))
    ensures Good(s) ==> Good(StopStep(s, e))
  {
  }

  lemma StopRemoveKeeps(s: State, e: Event)
    requires s.pc.Stop? && (s.pc.stopping.Removing? || s.pc.stopping.Discarding?)
    requires Shape(s) && StopEnabled(s, e)
    ensures Shape(StopStep(s, e))
    ensures Good(s) ==> Good(StopStep(s, e))
  {
  }

  lemma StopCommitKeepsShape(s: State, e: Event)
    requires s.pc.Stop? && s.pc.stopping.Committing?
    requires Shape(s) && StopEnabled(s, e)
    ensures Shape(CommitStop(s, e))
  {
  }

  lemma StopCommitKeepsData(s: State, e: Event)
    requires s.pc.Stop? && s.pc.stopping.Committing?
    requires Shape(s) && StopEnabled(s, e)
    ensures Good(s) && Guarded(s, e) ==> Good(CommitStop(s, e))
  {
  }

  lemma StopDirectoryKeeps(s: State, e: Event)
    requires s.pc.Stop? && (s.pc.stopping.DroppingDirectory? || s.pc.stopping.Unmarking?)
    requires Shape(s) && StopEnabled(s, e)
    ensures Shape(StopStep(s, e))
    ensures Good(s) && Guarded(s, e) ==> Good(StopStep(s, e))
  {
  }

  lemma StopCleanKeepsShape(s: State, e: Event)
    requires s.pc.Stop? && s.pc.stopping.Cleaning?
    requires Shape(s) && StopEnabled(s, e)
    ensures Shape(CleanStore(s, e))
  {
  }

  lemma StopCleanKeepsData(s: State, e: Event)
    requires s.pc.Stop? && s.pc.stopping.Cleaning?
    requires Shape(s) && StopEnabled(s, e)
    ensures Good(s) ==> Good(CleanStore(s, e))
  {
  }

  lemma StopAcknowledgeKeeps(s: State, e: Event)
    requires s.pc.Stop? && (s.pc.stopping.Acknowledging?)
    requires Shape(s) && StopEnabled(s, e)
    ensures Shape(StopStep(s, e))
    ensures Good(s) ==> Good(StopStep(s, e))
  {
  }

  lemma WipeDataKeeps(s: State, e: Event)
    requires s.pc.Remove? && (s.pc.removing.WipingContainer? || s.pc.removing.WipingDirectory? || s.pc.removing.WipingMark?)
    requires Shape(s) && RemoveEnabled(s, e)
    ensures Shape(RemoveStep(s, e))
    ensures Good(s) ==> Good(RemoveStep(s, e))
  {
  }

  lemma DeleteDataKeeps(s: State, e: Event)
    requires s.pc.Remove? && (s.pc.removing.DeletingContainer? || s.pc.removing.DeletingRoot?)
    requires Shape(s) && RemoveEnabled(s, e)
    ensures Shape(RemoveStep(s, e))
    ensures Good(s) ==> Good(RemoveStep(s, e))
  {
  }

  lemma RemoveSnapshotsKeeps(s: State, e: Event)
    requires s.pc.Remove? && (s.pc.removing.WipingObjects? || s.pc.removing.DeletingObjects?)
    requires Shape(s) && RemoveEnabled(s, e)
    ensures Shape(RemoveStep(s, e))
    ensures Good(s) ==> Good(RemoveStep(s, e))
  {
  }

  lemma EnterStopKeeps(s: State, runtime: Row)
    requires s.pc == Dispatch(runtime) && Shape(s)
    requires runtime.desired.WantStopped? || (runtime.desired.WantRunning? && !s.container.Absent?)
    ensures Shape(EnterStop(s, runtime))
    ensures Good(s) ==> Good(EnterStop(s, runtime))
  {
  }

  lemma ObserveKeeps(s: State, e: Event)
    requires s.pc.Dispatch? && Shape(s) && DispatchEnabled(s, e) && (e.Observe? || e.Taint?)
    ensures Shape(DispatchStep(s, e))
    ensures Good(s) ==> Good(DispatchStep(s, e))
  {
  }

  lemma EnterRunKeeps(s: State, runtime: Row)
    requires s.pc == Dispatch(runtime) && Shape(s) && runtime.desired.WantRunning? && !s.container.Running?
    ensures var t := s.(pc := Run(runtime, if s.container.Absent? then Preparing else RemovingStale, None));
            Shape(t) && (Good(s) ==> Good(t))
  {
  }

  lemma EnterRemovalKeeps(s: State, runtime: Row, at: RemoveAt)
    requires s.pc == Dispatch(runtime) && Shape(s) && (at.WipingContainer? || at.DeletingContainer?)
    requires !runtime.desired.WantRunning?
    ensures var t := s.(pc := Remove(runtime, at));
            Shape(t) && (Good(s) ==> Good(t))
  {
  }

  lemma DispatchKeeps(s: State, e: Event)
    requires s.pc.Dispatch? && Shape(s) && DispatchEnabled(s, e)
    ensures Shape(DispatchStep(s, e))
    ensures Good(s) ==> Good(DispatchStep(s, e))
  {
    var runtime := s.pc.runtime;
    if e.Observe? || e.Taint? {
      ObserveKeeps(s, e);
    } else if e.Migrate? {
      EnterStopKeeps(s, runtime);
    } else if runtime.desired.WantDeleted? {
      EnterRemovalKeeps(s, runtime, DeletingContainer);
    } else if runtime.wipeRequested || runtime.status.Wiping? {
      EnterRemovalKeeps(s, runtime, WipingContainer);
    } else if runtime.desired.WantRunning? {
      EnterRunKeeps(s, runtime);
    } else {
      EnterStopKeeps(s, runtime);
    }
  }

  /** The steps that only move between passes. */
  lemma PassKeeps(s: State, e: Event)
    requires Shape(s) && Enabled(s, e) && (e.Fetch? || e.Fail? || e.ErrorReported?)
    ensures Shape(Step(s, e))
    ensures Good(s) ==> Good(Step(s, e))
  {
  }

  lemma RunKeeps(s: State, e: Event)
    requires s.pc.Run? && Shape(s) && RunEnabled(s, e)
    ensures Shape(RunStep(s, e))
    ensures Good(s) ==> Good(RunStep(s, e))
  {
    match s.pc.running
    case RemovingStale | Preparing => RunPrepareKeeps(s, e);
    case Resetting | ResettingFallback | ResettingLegacy => RunResetKeeps(s, e);
    case Restoring => RunRestoreKeeps(s, e);
    case RestoringFallback | RestoringLegacy => RunFallbackKeeps(s, e);
    case DroppingFallback => RunDropKeeps(s, e);
    case Creating | Marking => RunCreateKeeps(s, e);
    case Starting | Reporting => RunStartKeeps(s, e);
    case TaintedDirectory | TaintedMark => RunTaintKeeps(s, e);
  }

  lemma StopKeeps(s: State, e: Event)
    requires s.pc.Stop? && Shape(s) && StopEnabled(s, e)
    ensures Shape(StopStep(s, e))
    ensures Good(s) && Guarded(s, e) ==> Good(StopStep(s, e))
  {
    match s.pc.stopping
    case MarkingUnsaved | Quiescing => StopMarkKeeps(s, e);
    case Persisting => StopPersistKeeps(s, e);
    case Removing | Discarding => StopRemoveKeeps(s, e);
    case Committing => StopCommitKeepsShape(s, e); StopCommitKeepsData(s, e);
    case DroppingDirectory | Unmarking => StopDirectoryKeeps(s, e);
    case Cleaning => StopCleanKeepsShape(s, e); StopCleanKeepsData(s, e);
    case Acknowledging => StopAcknowledgeKeeps(s, e);
  }

  /** Every step keeps the invariant, whatever happened before it. */
  lemma StepKeeps(s: State, e: Event)
    requires Shape(s) && Enabled(s, e)
    ensures Shape(Step(s, e))
    ensures Good(s) && Guarded(s, e) ==> Good(Step(s, e))
  {
    if e.RequestStart? || e.RequestStop? || e.EndSession? {
      RequestKeeps(s, e);
    } else if e.RequestWipe? || e.RequestDelete? {
      RemovalRequestKeeps(s, e);
    } else if e.GuestWrites? || e.ContainerExits? || e.Crash? || e.NoteFloor? {
      MachineKeeps(s, e);
    } else if e.Fetch? || e.Fail? || s.pc.ReportError? {
      PassKeeps(s, e);
    } else if s.pc.Dispatch? {
      DispatchKeeps(s, e);
    } else if s.pc.Run? {
      RunKeeps(s, e);
    } else if s.pc.Stop? {
      StopKeeps(s, e);
    } else if s.pc.removing.WipingObjects? || s.pc.removing.DeletingObjects? {
      RemoveSnapshotsKeeps(s, e);
    } else if s.pc.removing.DeletingContainer? || s.pc.removing.DeletingRoot? {
      DeleteDataKeeps(s, e);
    } else {
      WipeDataKeeps(s, e);
    }
  }

  // ---------------------------------------------------------------- whole runs

  predicate AllGuarded(s: State, events: seq<Event>)
    requires CanHappen(s, events)
    decreases |events|
  {
    events != [] ==> Guarded(s, events[0]) && AllGuarded(Step(s, events[0]), events[1..])
  }

  lemma {:induction false} EventsKeep(s: State, events: seq<Event>)
    requires Shape(s) && CanHappen(s, events)
    ensures Shape(After(s, events))
    ensures Good(s) && AllGuarded(s, events) ==> Good(After(s, events))
    decreases |events|
  {
    if events != [] {
      StepKeeps(s, events[0]);
      EventsKeep(Step(s, events[0]), events[1..]);
    }
  }

  lemma {:induction false} AutoSnapshotStays(s: State, events: seq<Event>)
    requires CanHappen(s, events)
    ensures After(s, events).autoSnapshot == s.autoSnapshot
    decreases |events|
  {
    if events != [] {
      AutoSnapshotStays(Step(s, events[0]), events[1..]);
    }
  }

  /** No events at all, migrations and fallbacks included, delete the committed snapshot's objects. */
  lemma CommittedIsNeverDeleted(s: State, events: seq<Event>)
    requires Init(s) && CanHappen(s, events)
    ensures CommittedKept(After(s, events))
  {
    EventsKeep(s, events);
  }

  lemma GoodLosesNothing(s: State)
    requires Good(s) && s.autoSnapshot
    ensures NothingLost(s)
  {
  }

  lemma UnguardedLoses(s: State, e: Event)
    requires Shape(s) && Good(s) && s.autoSnapshot && Enabled(s, e) && !Guarded(s, e)
    ensures !NothingLost(Step(s, e))
  {
  }

  /** In every state of the run, its first and last included, nothing is lost. */
  predicate NeverLost(s: State, events: seq<Event>)
    requires CanHappen(s, events)
    decreases |events|
  {
    NothingLost(s) && (events != [] ==> NeverLost(Step(s, events[0]), events[1..]))
  }

  lemma {:induction false} NeverLostFrom(s: State, events: seq<Event>)
    requires Shape(s) && Good(s) && s.autoSnapshot && CanHappen(s, events)
    ensures NeverLost(s, events) <==> AllGuarded(s, events)
    decreases |events|
  {
    GoodLosesNothing(s);
    if events != [] {
      if Guarded(s, events[0]) {
        StepKeeps(s, events[0]);
        NeverLostFrom(Step(s, events[0]), events[1..]);
      } else {
        UnguardedLoses(s, events[0]);
      }
    }
  }

  /**
   * Exactly when: over any run with automatic snapshots, migrations and fallbacks included, nothing is ever
   * lost if and only if every committed save is of the last session and no migration drops an uncommitted one.
   */
  lemma NeverLostIff(s: State, events: seq<Event>)
    requires Init(s) && s.autoSnapshot && CanHappen(s, events)
    ensures NeverLost(s, events) <==> AllGuarded(s, events)
  {
    NeverLostFrom(s, events);
  }

  // ---------------------------------------------------------------- what a caller can see to

  /** A forced network migration is harmless unless the assignment still says "stopped". */
  predicate MigratesSafely(s: State, e: Event) {
    e.Migrate? && s.pc.Dispatch? ==> !s.pc.runtime.status.Stopped?
  }

  /** No save is committed between the restore of a fallback and the next container start. */
  predicate CommitsSafely(s: State, e: Event) {
    CommitsSave(s, e) ==> !s.fellBack
  }

  predicate AllSafely(s: State, events: seq<Event>)
    requires CanHappen(s, events)
    decreases |events|
  {
    events != [] ==>
      MigratesSafely(s, events[0]) && CommitsSafely(s, events[0]) && AllSafely(Step(s, events[0]), events[1..])
  }

  predicate Careful(s: State) {
    s.pc.Stop? ==> !Reckless(s.pc.plan)
  }

  lemma CarefulDispatch(s: State, e: Event)
    requires Shape(s) && s.pc.Dispatch? && DispatchEnabled(s, e) && MigratesSafely(s, e)
    ensures Careful(DispatchStep(s, e))
  {
  }

  lemma CarefulStep(s: State, e: Event)
    requires Shape(s) && Careful(s) && Enabled(s, e) && MigratesSafely(s, e)
    ensures Careful(Step(s, e))
  {
    if s.pc.Dispatch? && DispatchEnabled(s, e) { CarefulDispatch(s, e); }
  }

  lemma SafelyIsGuarded(s: State, e: Event)
    requires Shape(s) && Good(s) && s.autoSnapshot && Careful(s) && CommitsSafely(s, e) && Enabled(s, e)
    ensures Guarded(s, e)
  {
  }

  lemma {:induction false} SafeEventsAreGuarded(s: State, events: seq<Event>)
    requires Shape(s) && Good(s) && s.autoSnapshot && Careful(s)
    requires CanHappen(s, events) && AllSafely(s, events)
    ensures AllGuarded(s, events)
    decreases |events|
  {
    if events != [] {
      SafelyIsGuarded(s, events[0]);
      CarefulStep(s, events[0]);
      StepKeeps(s, events[0]);
      SafeEventsAreGuarded(Step(s, events[0]), events[1..]);
    }
  }

  /**
   * Nothing is lost: with automatic snapshots, in every state of any run the last session is on disk under its
   * mark or committed, as long as no migration acts on an assignment that says "stopped" and no save is
   * committed of a directory a fallback was restored to and no container started on.
   */
  lemma NothingIsLost(s: State, events: seq<Event>)
    requires Init(s) && s.autoSnapshot
    requires CanHappen(s, events) && AllSafely(s, events)
    ensures NeverLost(s, events) && NothingLost(After(s, events))
  {
    SafeEventsAreGuarded(s, events);
    NeverLostIff(s, events);
    EventsKeep(s, events);
    AutoSnapshotStays(s, events);
  }
}
