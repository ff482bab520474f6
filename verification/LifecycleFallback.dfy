/** The generation kept across a store switch stays in its store until the new store's snapshot has been restored once. */
module LifecycleFallback {
  import opened Common
  import opened Lifecycle
  import opened LifecycleSafety

  /** The committed manifest's fallback is in its store, unless a wipe or delete removed it. */
  predicate FallbackKept(s: State) {
    s.row.manifest.Some? && s.row.manifest.value.fallback.Some? ==>
      var key := KeyOf(s.row.manifest.value.fallback.value);
      key in s.objects || key in s.condemned
  }

  /** A save that is not committed yet: new objects, and as fallback nothing but the committed primary. */
  predicate SavedAnew(s: State) {
    s.pc.Stop? && s.pc.persisted.Saved? && !AfterCommit(s.pc) ==>
      && (s.pc.persisted.manifest.fallback.Some? ==>
            s.row.manifest.Some? && s.pc.persisted.manifest.fallback.value == s.row.manifest.value.primary)
      && (s.row.manifest.Some? && s.row.manifest.value.fallback.Some? ==>
            s.pc.persisted.manifest.primary.id != s.row.manifest.value.fallback.value.id)
  }

  predicate Kept(s: State) {
    FallbackKept(s) && SavedAnew(s)
  }

  lemma OutsideKeeps(s: State, e: Event)
    requires e.RequestStart? || e.RequestStop? || e.EndSession? || e.RequestWipe? || e.RequestDelete? || e.GuestWrites? ||
             e.ContainerExits? || e.Crash? || e.NoteFloor? || e.Fetch? || e.Fail? || s.pc.ReportError?
    requires Kept(s) && Enabled(s, e)
    ensures Kept(Step(s, e))
  {
  }

  lemma DispatchKeepsFallback(s: State, e: Event)
    requires Kept(s) && s.pc.Dispatch? && DispatchEnabled(s, e)
    ensures Kept(DispatchStep(s, e))
  {
  }

  lemma RunKeepsFallback(s: State, e: Event)
    requires Kept(s) && s.pc.Run? && RunEnabled(s, e) && !e.DeleteFallback?
    ensures Kept(RunStep(s, e))
  {
  }

  lemma SaveKeepsFallback(s: State, e: Event)
    requires Shape(s) && Kept(s) && s.pc.Stop? && StopEnabled(s, e)
    requires s.pc.stopping.MarkingUnsaved? || s.pc.stopping.Quiescing? || s.pc.stopping.Persisting? || s.pc.stopping.Removing?
    ensures Kept(StopStep(s, e))
  {
  }

  lemma CommitKeepsFallback(s: State, e: Event)
    requires Shape(s) && Kept(s) && s.pc.Stop? && StopEnabled(s, e)
    requires s.pc.stopping.Discarding? || s.pc.stopping.Committing? || s.pc.stopping.Acknowledging?
    ensures Kept(StopStep(s, e))
  {
  }

  lemma CleanKeepsFallback(s: State, e: Event)
    requires Shape(s) && Kept(s) && s.pc.Stop? && StopEnabled(s, e)
    requires s.pc.stopping.DroppingDirectory? || s.pc.stopping.Unmarking? || s.pc.stopping.Cleaning?
    ensures Kept(StopStep(s, e))
  {
  }

  lemma RemovalKeepsFallback(s: State, e: Event)
    requires Kept(s) && s.pc.Remove? && RemoveEnabled(s, e)
    ensures Kept(RemoveStep(s, e))
  {
  }

  lemma StepKeepsFallback(s: State, e: Event)
    requires Shape(s) && Kept(s) && Enabled(s, e) && !e.DeleteFallback?
    ensures Kept(Step(s, e))
  {
    if e.RequestStart? || e.RequestStop? || e.EndSession? || e.RequestWipe? || e.RequestDelete? || e.GuestWrites? ||
       e.ContainerExits? || e.Crash? || e.NoteFloor? || e.Fetch? || e.Fail? || s.pc.ReportError? {
      OutsideKeeps(s, e);
    } else if s.pc.Dispatch? {
      DispatchKeepsFallback(s, e);
    } else if s.pc.Run? {
      RunKeepsFallback(s, e);
    } else if s.pc.Stop? {
      if s.pc.stopping.Discarding? || s.pc.stopping.Committing? || s.pc.stopping.Acknowledging? {
        CommitKeepsFallback(s, e);
      } else if s.pc.stopping.DroppingDirectory? || s.pc.stopping.Unmarking? || s.pc.stopping.Cleaning? {
        CleanKeepsFallback(s, e);
      } else {
        SaveKeepsFallback(s, e);
      }
    } else {
      RemovalKeepsFallback(s, e);
    }
  }

  lemma {:induction false} RunKeeps(s: State, events: seq<Event>)
    requires Shape(s) && Kept(s) && CanHappen(s, events) && forall i :: 0 <= i < |events| ==> !events[i].DeleteFallback?
    ensures FallbackKept(After(s, events))
    decreases |events|
  {
    if events != [] {
      StepKeeps(s, events[0]);
      StepKeepsFallback(s, events[0]);
      RunKeeps(Step(s, events[0]), events[1..]);
    }
  }

  /** Only the start that has restored the primary deletes its fallback: in a run without that, it stays, whatever else happens. */
  lemma FallbackIsKept(s: State, events: seq<Event>)
    requires Init(s) && FallbackKept(s) && CanHappen(s, events)
    requires forall i :: 0 <= i < |events| ==> !events[i].DeleteFallback?
    ensures FallbackKept(After(s, events))
  {
    RunKeeps(s, events);
  }

  /** And that start has just filled the directory from the primary. */
  lemma FallbackGoesAfterRestore(s: State, e: Event)
    requires Shape(s) && s.pc.Run? && s.pc.running.Restoring? && RunEnabled(s, e)
    ensures RunStep(s, e).pc.Run? && RunStep(s, e).pc.running.DroppingFallback? ==>
              s.row.manifest.Some? && Committed(s, RunStep(s, e).dir)
  {
  }
}
