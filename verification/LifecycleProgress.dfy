/**
 * What passes achieve when nothing fails: a start runs the guest on the session's data, a stop commits it and
 * leaves nothing behind, and a session that was stopped comes back.
 */
module LifecycleProgress {
  import opened Common
  import opened Lifecycle
  import opened LifecycleSafety
  import opened LifecycleRuns
  import opened LifecycleErasure
  import opened LifecycleLimits

  // ---------------------------------------------------------------- a start

  /** A pass that is about to start the runtime, and can restore what is committed. */
  predicate CanStart(t: State) {
    && t.pc == Dispatch(t.row) && t.row.desired.WantRunning? && t.row.hosted && !t.row.deleted
    && !t.row.wipeRequested && !t.row.status.Wiping? && !t.container.Running?
    && (t.row.manifest.Some? ==>
          && KeyOf(t.row.manifest.value.primary) in t.objects
          && FloorAllows(t.row.manifest.value.primary, t.floor))
  }

  /** What the guest finds: an unsaved session, else the committed snapshot, else the legacy file. */
  function StartsWith(t: State): Contents
    requires t.row.manifest.Some? ==> KeyOf(t.row.manifest.value.primary) in t.objects
  {
    if t.marker && t.dir != [] then t.dir
    else if t.row.manifest.Some? then t.objects[KeyOf(t.row.manifest.value.primary)]
    else if t.legacy.Some? then t.legacy.value
    else t.dir
  }

  /** Once the data is in place: create, mark, start, report. */
  lemma LaunchCreated(s: State, events0: seq<Event>, t: State) returns (events: seq<Event>)
    requires Leads(Any, s, events0, t) && t.pc.Run? && t.pc.running.Creating?
    requires t.row == t.pc.runtime && t.row.hosted && !t.row.deleted && t.row.desired.WantRunning?
    ensures Leads(Any, s, events,
                  t.(row := t.row.(status := OtherStatus), container := Running, marker := true, last := t.dir,
                     fellBack := false, pc := Idle))
  {
    var runtime, floor := t.pc.runtime, t.pc.floor;
    var t1 := t.(container := Created, pc := Run(runtime, Marking, floor));
    events := OnStart(Any, s, events0, t, Advance, t1);
    var t2 := t1.(marker := true, pc := Run(runtime, Starting, floor));
    events := OnStart(Any, s, events, t1, Advance, t2);
    var t3 := t2.(container := Running, last := t.dir, fellBack := false, pc := Run(runtime, Reporting, floor));
    events := OnStart(Any, s, events, t2, Advance, t3);
    events := OnStart(Any, s, events, t3, Send(Acknowledged), t3.(row := t.row.(status := OtherStatus), pc := Idle));
  }

  /** From the choice to the first decision. */
  lemma PrepareStart(t: State) returns (events: seq<Event>, u: State)
    requires CanStart(t)
    ensures Leads(Any, t, events, u) && u == t.(container := Absent, pc := AfterPrepare(t, t.row))
  {
    var ready := t.(container := Absent, pc := Run(t.row, Preparing, None));
    assert Leads(Any, t, [], t);
    if t.container.Absent? {
      events := Chosen(Any, t, [], t, ready);
    } else {
      var stale := t.(pc := Run(t.row, RemovingStale, None));
      events := Chosen(Any, t, [], t, stale);
      events := OnStart(Any, t, events, stale, Advance, ready);
    }
    u := t.(container := Absent, pc := AfterPrepare(t, t.row));
    events := OnStart(Any, t, events, ready, Advance, u);
  }

  lemma RestoreCommitted(t: State, events0: seq<Event>, u: State) returns (events: seq<Event>)
    requires Leads(Any, t, events0, u) && u.pc.Run? && u.pc.running.Resetting? && u.pc.runtime == u.row
    requires u.row.manifest.Some? && KeyOf(u.row.manifest.value.primary) in u.objects
    ensures Leads(Any, t, events,
                  u.(dir := u.objects[KeyOf(u.row.manifest.value.primary)], pc := Run(u.row, Creating, u.pc.floor)))
  {
    var key, floor := KeyOf(u.row.manifest.value.primary), u.pc.floor;
    var v := u.(dir := [], pc := Run(u.row, Restoring, floor));
    events := OnStart(Any, t, events0, u, Advance, v);
    var w := v.(dir := u.objects[key], pc := Run(u.row, Creating, floor));
    if u.row.manifest.value.fallback.Some? {
      var dropping := w.(pc := Run(u.row, DroppingFallback, floor));
      events := OnStart(Any, t, events, v, Advance, dropping);
      events := OnStart(Any, t, events, dropping, Advance, w);
    } else {
      events := OnStart(Any, t, events, v, Advance, w);
    }
  }

  lemma RestoreLegacyFile(t: State, events0: seq<Event>, u: State) returns (events: seq<Event>)
    requires Leads(Any, t, events0, u) && u.pc.Run? && u.pc.running.ResettingLegacy? && u.legacy.Some?
    ensures Leads(Any, t, events, u.(dir := u.legacy.value, pc := Run(u.pc.runtime, Creating, u.pc.floor)))
  {
    var v := u.(dir := [], pc := Run(u.pc.runtime, RestoringLegacy, u.pc.floor));
    events := OnStart(Any, t, events0, u, Advance, v);
    events := OnStart(Any, t, events, v, Advance, v.(dir := u.legacy.value, pc := Run(u.pc.runtime, Creating, u.pc.floor)));
  }

  /** When nothing fails, a start pass ends with the guest running on the session's data, nothing else changed. */
  lemma StartSucceeds(t: State) returns (events: seq<Event>)
    requires CanStart(t)
    ensures Leads(Any, t, events,
                  t.(row := t.row.(status := OtherStatus), container := Running, marker := true,
                     dir := StartsWith(t), last := StartsWith(t), fellBack := false, pc := Idle))
  {
    var u;
    events, u := PrepareStart(t);
    if t.marker && t.dir != [] {
    } else if t.row.manifest.Some? {
      events := RestoreCommitted(t, events, u);
    } else if t.legacy.Some? {
      events := RestoreLegacyFile(t, events, u);
    }
    events := LaunchCreated(t, events, t.(container := Absent, dir := StartsWith(t), pc := Run(t.row, Creating, t.floor)));
  }

  // ---------------------------------------------------------------- a stop

  /** A pass that is about to stop a session with data, whose save the control plane will take. */
  predicate CanStop(t: State, id: nat) {
    && t.pc == Dispatch(t.row) && t.row.desired.WantStopped? && t.row.hosted && !t.row.deleted
    && !t.row.wipeRequested && t.row.status.OtherStatus? && !t.row.cleanupPending
    && t.dir != [] && t.autoSnapshot && id !in t.used
    && NextGeneration(t.row.manifest, t.floor).Some?
    && (t.floor.Some? ==> t.floor.value <= GenerationOf(t.row.manifest))
    && (t.row.manifest.Some? ==> t.row.manifest.value.primary.id in t.used && GenerationOf(t.row.manifest) >= 0)
  }

  /** The manifest it will commit: the next number, and the previous snapshot kept as fallback across a store switch. */
  function NextManifest(t: State, store: StoreKind, id: nat): Manifest
    requires NextGeneration(t.row.manifest, t.floor).Some?
  {
    Manifest(Snapshot(store, id, 3, NextGeneration(t.row.manifest, t.floor).value),
             if t.row.manifest.Some? && t.row.manifest.value.primary.store != store then Some(t.row.manifest.value.primary) else None)
  }

  function StopPlanOf(t: State): StopPlan {
    StopPlan(t.row, !t.container.Absent?, false, true)
  }

  lemma StopSaves(t: State, store: StoreKind, id: nat) returns (events: seq<Event>)
    requires CanStop(t, id)
    ensures Leads(Any, t, events,
                  t.(marker := true, container := if t.container.Running? then Created else t.container,
                     objects := t.objects[Key(store, id) := t.dir], used := t.used + {id},
                     pc := Stop(StopPlanOf(t), Removing, Saved(NextManifest(t, store, id)))))
  {
    var plan := StopPlanOf(t);
    assert Leads(Any, t, [], t);
    var t1 := t.(pc := Stop(plan, MarkingUnsaved, Nothing));
    events := Chosen(Any, t, [], t, t1);
    var t2 := t1.(marker := true, pc := Stop(plan, Quiescing, Nothing));
    events := OnStop(Any, t, events, t1, Advance, t2);
    var t3 := t2.(container := if t.container.Running? then Created else t.container, pc := Stop(plan, Persisting, Nothing));
    events := OnStop(Any, t, events, t2, Advance, t3);
    events := OnStop(Any, t, events, t3, Save(store, id),
                     t3.(objects := t.objects[Key(store, id) := t.dir], used := t.used + {id},
                         pc := Stop(plan, Removing, Saved(NextManifest(t, store, id)))));
  }

  lemma NextIsAccepted(t: State, store: StoreKind, id: nat)
    requires CanStop(t, id)
    ensures Accepts(t.row, StopReport(StopPlanOf(t), Saved(NextManifest(t, store, id)), false))
  {
    NumberAcceptedIff(t.row.manifest, t.floor, store, id);
  }

  /** The row once the save is committed, and once its cleanup is acknowledged. */
  function CommittedRow(t: State, store: StoreKind, id: nat): Row
    requires NextGeneration(t.row.manifest, t.floor).Some?
  {
    t.row.(status := Stopped, cleanupPending := true, manifest := Some(NextManifest(t, store, id)))
  }

  lemma CommitTakesEffect(t: State, u: State, store: StoreKind, id: nat)
    requires CanStop(t, id) && u.row == t.row && u.pc == Stop(StopPlanOf(t), Committing, Saved(NextManifest(t, store, id)))
    ensures StopEnabled(u, Send(Acknowledged))
    ensures StopStep(u, Send(Acknowledged)) == u.(row := CommittedRow(t, store, id), pc := u.pc.(stopping := DroppingDirectory))
  {
    NextIsAccepted(t, store, id);
  }

  lemma DropPlaintext(s: State, events0: seq<Event>, u: State) returns (events: seq<Event>)
    requires Leads(Any, s, events0, u) && u.pc.Stop? && u.pc.stopping.DroppingDirectory?
    ensures Leads(Any, s, events, u.(dir := [], marker := false, pc := u.pc.(stopping := Cleaning)))
  {
    var v := u.(dir := [], pc := u.pc.(stopping := Unmarking));
    events := OnStop(Any, s, events0, u, Advance, v);
    events := OnStop(Any, s, events, v, Advance, v.(marker := false, pc := u.pc.(stopping := Cleaning)));
  }

  lemma StopCommits(t: State, events0: seq<Event>, u: State, store: StoreKind, id: nat) returns (events: seq<Event>)
    requires CanStop(t, id) && Leads(Any, t, events0, u) && u.row == t.row
    requires u.pc == Stop(StopPlanOf(t), Removing, Saved(NextManifest(t, store, id)))
    ensures Leads(Any, t, events,
                  u.(row := CommittedRow(t, store, id), container := if t.container.Absent? then u.container else Absent,
                     dir := [], marker := false, pc := u.pc.(stopping := Cleaning)))
  {
    var u1 := u.(container := if t.container.Absent? then u.container else Absent, pc := u.pc.(stopping := Committing));
    events := OnStop(Any, t, events0, u, Advance, u1);
    CommitTakesEffect(t, u1, store, id);
    var u2 := u1.(row := CommittedRow(t, store, id), pc := u.pc.(stopping := DroppingDirectory));
    events := OnStop(Any, t, events, u1, Send(Acknowledged), u2);
    events := DropPlaintext(t, events, u2);
  }

  /** What cleanup leaves: the new snapshot, and the previous one only as its fallback. */
  function Cleaned(t: State, store: StoreKind, id: nat): map<Key, Contents> {
    var saved := t.objects[Key(store, id) := t.dir];
    if t.row.manifest.Some? && t.row.manifest.value.primary.store == store then saved - {KeyOf(t.row.manifest.value.primary)}
    else saved
  }

  lemma CleanupRuns(t: State, events0: seq<Event>, u: State, store: StoreKind, id: nat) returns (events: seq<Event>)
    requires CanStop(t, id) && Leads(Any, t, events0, u)
    requires u.pc == Stop(StopPlanOf(t), Cleaning, Saved(NextManifest(t, store, id)))
    requires u.objects == t.objects[Key(store, id) := t.dir]
    ensures Leads(Any, t, events, u.(legacy := None, objects := Cleaned(t, store, id)))
  {
    var u1 := u.(legacy := None);
    events := OnStop(Any, t, events0, u, RemoveLegacy, u1);
    if t.row.manifest.Some? && t.row.manifest.value.primary.store == store {
      events := Then(Any, t, events, u1, DeleteObject(KeyOf(t.row.manifest.value.primary)), u1.(objects := Cleaned(t, store, id)));
    }
  }

  lemma CleanupIsDone(t: State, u: State, store: StoreKind, id: nat)
    requires CanStop(t, id) && u.pc == Stop(StopPlanOf(t), Cleaning, Saved(NextManifest(t, store, id)))
    requires u.legacy.None? && u.objects == Cleaned(t, store, id)
    ensures StopEnabled(u, Advance) && StopStep(u, Advance) == u.(pc := u.pc.(stopping := Acknowledging))
  {
  }

  lemma AcknowledgeTakesEffect(t: State, u: State, store: StoreKind, id: nat)
    requires CanStop(t, id) && u.row == CommittedRow(t, store, id)
    requires u.pc == Stop(StopPlanOf(t), Acknowledging, Saved(NextManifest(t, store, id)))
    ensures StopEnabled(u, Send(Acknowledged))
    ensures StopStep(u, Send(Acknowledged)) == u.(row := u.row.(cleanupPending := false, hosted := false), pc := Idle)
  {
    AcknowledgeIsAccepted(t, u, store, id);
  }

  lemma StopCleansUp(t: State, events0: seq<Event>, u: State, store: StoreKind, id: nat) returns (events: seq<Event>)
    requires CanStop(t, id) && Leads(Any, t, events0, u) && u.row == CommittedRow(t, store, id)
    requires u.pc == Stop(StopPlanOf(t), Cleaning, Saved(NextManifest(t, store, id)))
    requires u.objects == t.objects[Key(store, id) := t.dir]
    ensures Leads(Any, t, events,
                  u.(row := u.row.(cleanupPending := false, hosted := false), legacy := None, objects := Cleaned(t, store, id), pc := Idle))
  {
    events := CleanupRuns(t, events0, u, store, id);
    var u2 := u.(legacy := None, objects := Cleaned(t, store, id));
    var u3 := u2.(pc := u.pc.(stopping := Acknowledging));
    CleanupIsDone(t, u2, store, id);
    events := OnStop(Any, t, events, u2, Advance, u3);
    AcknowledgeTakesEffect(t, u3, store, id);
    events := OnStop(Any, t, events, u3, Send(Acknowledged), u3.(row := u.row.(cleanupPending := false, hosted := false), pc := Idle));
  }

  lemma AcknowledgeIsAccepted(t: State, u: State, store: StoreKind, id: nat)
    requires CanStop(t, id) && u.row == CommittedRow(t, store, id)
    ensures Accepts(u.row, StopReport(StopPlanOf(t), Saved(NextManifest(t, store, id)), true))
  {
    NextIsAccepted(t, store, id);
  }

  /**
   * When nothing fails, a stop pass ends with the session committed to the store, its objects there, and
   * no container, plaintext, mark, legacy file or replaced generation left.
   */
  lemma StopSucceeds(t: State, store: StoreKind, id: nat) returns (events: seq<Event>)
    requires CanStop(t, id)
    ensures Leads(Any, t, events,
                  t.(row := CommittedRow(t, store, id).(cleanupPending := false, hosted := false),
                     container := Absent, dir := [], marker := false, legacy := None,
                     objects := Cleaned(t, store, id), used := t.used + {id}, pc := Idle))
  {
    events := StopSaves(t, store, id);
    var plan, saved := StopPlanOf(t), Saved(NextManifest(t, store, id));
    var u := t.(marker := true, container := if t.container.Running? then Created else t.container,
                objects := t.objects[Key(store, id) := t.dir], used := t.used + {id}, pc := Stop(plan, Removing, saved));
    events := StopCommits(t, events, u, store, id);
    var v := u.(row := CommittedRow(t, store, id), container := Absent, dir := [], marker := false, pc := Stop(plan, Cleaning, saved));
    events := StopCleansUp(t, events, v, store, id);
  }

  // ---------------------------------------------------------------- stop, then start

  lemma {:induction false} Joined(kind: Kind, s: State, first: seq<Event>, t: State, second: seq<Event>, u: State)
    requires Leads(kind, s, first, t) && Leads(kind, t, second, u)
    ensures Leads(kind, s, first + second, u)
    decreases |first|
  {
    if first == [] {
      assert first + second == second;
    } else {
      assert (first + second)[1..] == first[1..] + second;
      Joined(kind, Step(s, first[0]), first[1..], t, second, u);
    }
  }

  /** A session that is stopped and started again, with nothing failing, goes on with the contents it had, whichever store held it. */
  lemma StoppedSessionComesBack(t: State, store: StoreKind, id: nat) returns (events: seq<Event>, u: State)
    requires CanStop(t, id)
    ensures Leads(Any, t, events, u) && u.container.Running? && u.dir == u.last == t.dir
    ensures u.row.manifest == Some(NextManifest(t, store, id))
  {
    events := StopSucceeds(t, store, id);
    var row := CommittedRow(t, store, id).(cleanupPending := false, hosted := false);
    var stopped := t.(row := row, container := Absent, dir := [], marker := false, legacy := None,
                      objects := Cleaned(t, store, id), used := t.used + {id}, pc := Idle);
    events := AskStart(Any, t, events, stopped);
    var asked := stopped.(row := Started(row));
    events := BeginPass(Any, t, events, asked);
    var begun := asked.(pc := Dispatch(asked.row));
    var more := StartSucceeds(begun);
    u := begun.(row := asked.row.(status := OtherStatus), container := Running, marker := true,
                dir := StartsWith(begun), last := StartsWith(begun), fellBack := false, pc := Idle);
    Joined(Any, t, events, begun, more, u);
    events := events + more;
  }

  // ---------------------------------------------------------------- a wipe, a delete

  predicate CanRemove(t: State) {
    && t.pc == Dispatch(t.row) && t.row.hosted && !t.row.deleted
    && (t.row.desired.WantDeleted? || (t.row.desired.WantStopped? && (t.row.wipeRequested || t.row.status.Wiping?)))
  }

  function ManifestKeys(manifest: Option<Manifest>): set<Key> {
    if manifest.None? then {}
    else {KeyOf(manifest.value.primary)} + if manifest.value.fallback.Some? then {KeyOf(manifest.value.fallback.value)} else {}
  }

  /** With nothing left of it on the machine or, of what was committed, in the stores. */
  function Removed(t: State): State {
    t.(container := Absent, dir := [], last := [], marker := false, legacy := None,
       objects := t.objects - ManifestKeys(t.row.manifest), condemned := t.condemned + ManifestKeys(t.row.manifest))
  }

  lemma DeletesOne(s: State, events0: seq<Event>, u: State, key: Key) returns (events: seq<Event>)
    requires Leads(Any, s, events0, u) && u.pc.Remove? && (u.pc.removing.WipingObjects? || u.pc.removing.DeletingObjects?)
    ensures Leads(Any, s, events, u.(objects := u.objects - {key}, condemned := u.condemned + {key}))
  {
    events := Then(Any, s, events0, u, DeleteObject(key), u.(objects := u.objects - {key}, condemned := u.condemned + {key}));
  }

  lemma RemovesLegacy(s: State, events0: seq<Event>, u: State) returns (events: seq<Event>)
    requires Leads(Any, s, events0, u) && u.pc.Remove? && (u.pc.removing.WipingObjects? || u.pc.removing.DeletingObjects?)
    ensures Leads(Any, s, events, u.(legacy := None))
  {
    events := Then(Any, s, events0, u, RemoveLegacy, u.(legacy := None));
  }

  lemma TwoKeys(objects: map<Key, Contents>, condemned: set<Key>, a: Key, b: Key)
    ensures objects - {a} - {b} == objects - ({a} + {b}) && condemned + {a} + {b} == condemned + ({a} + {b})
  {
  }

  lemma DeletesManifest(s: State, events0: seq<Event>, u: State, m: Manifest) returns (events: seq<Event>)
    requires Leads(Any, s, events0, u) && u.pc.Remove? && (u.pc.removing.WipingObjects? || u.pc.removing.DeletingObjects?)
    ensures Leads(Any, s, events,
                  u.(objects := u.objects - ManifestKeys(Some(m)), condemned := u.condemned + ManifestKeys(Some(m))))
  {
    var primary := KeyOf(m.primary);
    events := DeletesOne(s, events0, u, primary);
    if m.fallback.Some? {
      var fallback := KeyOf(m.fallback.value);
      events := DeletesOne(s, events, u.(objects := u.objects - {primary}, condemned := u.condemned + {primary}), fallback);
      TwoKeys(u.objects, u.condemned, primary, fallback);
    } else {
      assert {primary} + {} == {primary};
    }
  }

  lemma DeletesSnapshots(s: State, events0: seq<Event>, u: State, manifest: Option<Manifest>) returns (events: seq<Event>)
    requires Leads(Any, s, events0, u) && u.pc.Remove? && (u.pc.removing.WipingObjects? || u.pc.removing.DeletingObjects?)
    ensures Leads(Any, s, events,
                  u.(legacy := None, objects := u.objects - ManifestKeys(manifest), condemned := u.condemned + ManifestKeys(manifest)))
  {
    events := RemovesLegacy(s, events0, u);
    if manifest.Some? {
      events := DeletesManifest(s, events, u.(legacy := None), manifest.value);
    } else {
      assert u.objects - {} == u.objects && u.condemned + {} == u.condemned;
    }
  }

  lemma RemovesData(t: State, at: RemoveAt) returns (events: seq<Event>)
    requires CanRemove(t) && at == if t.row.desired.WantDeleted? then DeletingObjects else WipingObjects
    ensures Leads(Any, t, events,
                  t.(container := Absent, dir := [], last := [], marker := false,
                     legacy := if t.row.desired.WantDeleted? then None else t.legacy, pc := Remove(t.row, at)))
  {
    assert Leads(Any, t, [], t);
    if t.row.desired.WantDeleted? {
      var t1 := t.(pc := Remove(t.row, DeletingContainer));
      events := Chosen(Any, t, [], t, t1);
      var t2 := t1.(container := Absent, pc := Remove(t.row, DeletingRoot));
      events := OnRemoval(t, events, t1, Advance, t2);
      events := OnRemoval(t, events, t2, Advance, t2.(dir := [], last := [], marker := false, legacy := None, pc := Remove(t.row, at)));
    } else {
      events := WipesData(t);
    }
  }

  lemma WipesData(t: State) returns (events: seq<Event>)
    requires CanRemove(t) && !t.row.desired.WantDeleted?
    ensures Leads(Any, t, events,
                  t.(container := Absent, dir := [], last := [], marker := false, pc := Remove(t.row, WipingObjects)))
  {
    var t1 := t.(pc := Remove(t.row, WipingContainer));
    assert Leads(Any, t, [], t);
    events := Chosen(Any, t, [], t, t1);
    var t2 := t1.(container := Absent, pc := Remove(t.row, WipingDirectory));
    events := OnRemoval(t, events, t1, Advance, t2);
    var t3 := t2.(dir := [], last := [], pc := Remove(t.row, WipingMark));
    events := OnRemoval(t, events, t2, Advance, t3);
    events := OnRemoval(t, events, t3, Advance, t3.(marker := false, pc := Remove(t.row, WipingObjects)));
  }

  function RemovedRow(row: Row): Row {
    if row.desired.WantDeleted? then row.(status := OtherStatus, wipeRequested := false, hosted := false, manifest := None, deleted := true)
    else row.(status := Stopped, wipeRequested := false, cleanupPending := false, hosted := false, manifest := None)
  }

  lemma RemovalReports(t: State, u: State, at: RemoveAt)
    requires CanRemove(t) && at == (if t.row.desired.WantDeleted? then DeletingObjects else WipingObjects)
    requires u == Removed(t).(pc := Remove(t.row, at))
    ensures RemoveEnabled(u, Send(Acknowledged)) && RemoveStep(u, Send(Acknowledged)) == u.(row := RemovedRow(t.row), pc := Idle)
  {
  }

  /** When nothing fails, a wipe or delete pass removes everything and the control plane learns it. */
  lemma RemovalSucceeds(t: State) returns (events: seq<Event>)
    requires CanRemove(t)
    ensures Leads(Any, t, events, Removed(t).(row := RemovedRow(t.row), pc := Idle))
  {
    var at := if t.row.desired.WantDeleted? then DeletingObjects else WipingObjects;
    events := RemovesData(t, at);
    var u := t.(container := Absent, dir := [], last := [], marker := false,
                legacy := if t.row.desired.WantDeleted? then None else t.legacy, pc := Remove(t.row, at));
    events := DeletesSnapshots(t, events, u, t.row.manifest);
    var v := Removed(t).(pc := Remove(t.row, at));
    RemovalReports(t, v, at);
    events := OnRemoval(t, events, v, Send(Acknowledged), v.(row := RemovedRow(t.row), pc := Idle));
  }
}
