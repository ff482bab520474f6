/**
 * The session-data lifecycle of one runtime, as a step machine over the node's
 * disk and container, the blob stores, and the control plane's row for it.
 *
 * Every durable effect is a step of its own, so a crash can fall between any
 * two of them, and every event that stands for a call carries how it went.
 */
module Lifecycle {
  import opened Common

  /** What the guest keeps in its data directory; [] is a directory without entries. */
  type Contents = seq<int>

  datatype StoreKind = LocalDisk | Renterd | SiaIndexd

  /** One saved generation, as a manifest names it. */
  datatype Snapshot = Snapshot(store: StoreKind, id: nat, version: int, generation: int)

  datatype Manifest = Manifest(primary: Snapshot, fallback: Option<Snapshot>)

  datatype Key = Key(store: StoreKind, id: nat)

  function KeyOf(snapshot: Snapshot): Key {
    Key(snapshot.store, snapshot.id)
  }

  // ---------------------------------------------------------------- control plane

  datatype Desired = WantRunning | WantStopped | WantDeleted

  /** "stopped" and "wiping" are the only statuses the node acts on. */
  datatype Status = Stopped | Wiping | OtherStatus

  /** The control plane's row; an assignment is a copy of it. */
  datatype Row = Row(
    desired: Desired,
    status: Status,
    wipeRequested: bool,
    cleanupPending: bool,
    hosted: bool,
    operation: nat,
    manifest: Option<Manifest>,
    deleted: bool)

  datatype Commit = Keep | Replace(manifest: Manifest) | Clear

  datatype Report = Report(
    operation: nat,
    status: Status,
    commit: Commit,
    cleanupComplete: bool,
    clearWipe: bool,
    deletes: bool)

  /** Whether the control plane lets incoming take the place of current. */
  predicate AdvanceAccepted(current: Option<Manifest>, incoming: Snapshot) {
    && incoming.version == 3
    && incoming.generation > 0
    && match current
       case None => incoming.generation == 1
       case Some(m) =>
         if incoming.id == m.primary.id then incoming.generation == m.primary.generation
         else m.primary.generation != MAX_INT64 && incoming.generation == m.primary.generation + 1
  }

  /** A report counts only for the operation it was sent under, from the node the row is assigned to. */
  predicate Accepts(row: Row, report: Report) {
    && !row.deleted
    && row.hosted
    && row.operation == report.operation
    && (report.commit.Replace? && !report.deletes ==> AdvanceAccepted(row.manifest, report.commit.manifest.primary))
  }

  function Apply(row: Row, report: Report): Row {
    if report.deletes then
      row.(desired := WantDeleted, status := OtherStatus, wipeRequested := false, hosted := false,
           manifest := None, deleted := true)
    else
      row.(status := report.status,
           wipeRequested := row.wipeRequested && !report.clearWipe,
           cleanupPending :=
             if report.cleanupComplete then false
             else if report.status.Stopped? && !row.desired.WantRunning? then true
             else row.cleanupPending,
           hosted := row.hosted && !(report.cleanupComplete && row.desired.WantStopped?),
           manifest := match report.commit
             case Keep => row.manifest
             case Replace(m) => Some(m)
             case Clear => None)
  }

  // ---------------------------------------------------------------- node

  datatype Container = Absent | Created | Running

  /** What a stop saved: nothing to save, an instruction to clear, or a new manifest. */
  datatype Persisted = Nothing | ClearExisting | Saved(manifest: Manifest)

  /** What ensureRuntimeStopped settles before it acts. */
  datatype StopPlan = StopPlan(runtime: Row, hadContainer: bool, cleanupPending: bool, persists: bool)

  /** Where ensureRuntimeRunning is. */
  datatype RunAt =
    | RemovingStale | Preparing | Resetting | Restoring | ResettingFallback | RestoringFallback | DroppingFallback
    | ResettingLegacy | RestoringLegacy | Creating | Marking | Starting | Reporting | TaintedDirectory | TaintedMark

  /** Where ensureRuntimeStopped is. */
  datatype StopAt =
    | MarkingUnsaved | Quiescing | Persisting | Removing | Discarding | Committing
    | DroppingDirectory | Unmarking | Cleaning | Acknowledging

  /** Where wipeRuntime or deleteRuntime is. */
  datatype RemoveAt =
    | WipingContainer | WipingDirectory | WipingMark | WipingObjects | DeletingContainer | DeletingRoot | DeletingObjects

  /** Where the node is in its current pass; floor is the one the start was checked against. */
  datatype Pc =
    | Idle
    | Dispatch(runtime: Row)
    | ReportError(runtime: Row)
    | Run(runtime: Row, running: RunAt, floor: Option<int>)
    | Stop(plan: StopPlan, stopping: StopAt, persisted: Persisted)
    | Remove(runtime: Row, removing: RemoveAt)

  datatype State = State(
    row: Row,
    dir: Contents,
    marker: bool,
    container: Container,
    objects: map<Key, Contents>,
    legacy: Option<Contents>,
    // Snapshot ids ever handed out; newSnapshotID never repeats one.
    used: set<nat>,
    // The highest floor a phone sent this process.
    floor: Option<int>,
    pc: Pc,
    autoSnapshot: bool,
    // History, not read by the node: what the last container's session holds, whether a
    // fallback was restored since that container started, and what wipes or deletes removed.
    last: Contents,
    fellBack: bool,
    condemned: set<Key>)

  /** How a status report went; a lost reply follows a report that took effect. */
  datatype Outcome = Acknowledged | ReplyLost | Rejected

  datatype Event =
    // the user, through the control plane
    | RequestStart | RequestStop | EndSession | RequestWipe(assigns: bool) | RequestDelete(assigns: bool)
    // the guest and the machine it runs on
    | GuestWrites(contents: Contents) | ContainerExits | Crash | NoteFloor(sent: int)
    // the node
    | Fetch
    | Fail
    | ErrorReported(outcome: Outcome)
    | Choose
    | Observe(outcome: Outcome)
    | Taint
    | Migrate
    | Advance
    | PrimaryFails
    | DeleteFallback
    | Save(store: StoreKind, id: nat)
    | RemoveFails
    | TooLarge
    | Send(outcome: Outcome)
    | DeleteObject(key: Key)
    | RemoveLegacy

  // ---------------------------------------------------------------- the node's pure decisions

  /** splitSnapshotFloor's clamp: a floor a phone sent, kept below the last int64. */
  function ClampFloor(sent: int): int {
    if sent > MAX_INT64 - 1 then MAX_INT64 - 1 else sent
  }

  function RaiseFloor(floor: Option<int>, sent: int): Option<int> {
    if floor.None? || ClampFloor(sent) > floor.value then Some(ClampFloor(sent)) else floor
  }

  predicate FloorAllows(snapshot: Snapshot, floor: Option<int>) {
    floor.Some? ==> snapshot.version == 3 && snapshot.generation >= floor.value
  }

  function NextGeneration(previous: Option<Manifest>, floor: Option<int>): Option<int> {
    NextSnapshotGeneration(if previous.Some? then Some(previous.value.primary.generation) else None, floor)
  }

  /** The manifest a save to store under id returns: a store switch keeps the previous generation as fallback. */
  function NewManifest(previous: Option<Manifest>, store: StoreKind, id: nat, generation: int): Manifest {
    Manifest(
      Snapshot(store, id, 3, generation),
      if previous.Some? && previous.value.primary.store != store then Some(previous.value.primary) else None)
  }

  /** The manifest cleanup keeps: the one just committed, or the assignment's when a cleanup resumes. */
  function Retained(plan: StopPlan, persisted: Persisted): Option<Manifest> {
    if persisted.Saved? then Some(persisted.manifest)
    else if plan.cleanupPending then plan.runtime.manifest
    else None
  }

  predicate CleansUp(plan: StopPlan) {
    plan.persists || plan.cleanupPending
  }

  /** What cleanupBlobStorage may delete: the previous generation, other ids in the
      retained store, and everything in a store that holds neither manifest nor fallback. */
  predicate CleanupDeletes(previous: Option<Manifest>, retained: Option<Manifest>, key: Key) {
    match retained
    case None => true
    case Some(r) =>
      || (&& previous.Some?
          && key == KeyOf(previous.value.primary)
          && !(r.fallback.Some? && KeyOf(r.fallback.value) == key)
          && key != KeyOf(r.primary))
      || (key.store == r.primary.store && key.id != r.primary.id)
      || (key.store != r.primary.store && !(r.fallback.Some? && r.fallback.value.store == key.store))
  }

  function StopReport(plan: StopPlan, persisted: Persisted, complete: bool): Report {
    Report(plan.runtime.operation, Stopped,
           match persisted
           case Nothing => Keep
           case ClearExisting => Clear
           case Saved(m) => Replace(m),
           complete, false, false)
  }

  function StatusReport(runtime: Row): Report {
    Report(runtime.operation, OtherStatus, Keep, false, false, false)
  }

  function WipeReport(runtime: Row): Report {
    Report(runtime.operation, Stopped, Clear, true, true, false)
  }

  function DeleteReport(runtime: Row): Report {
    Report(runtime.operation, OtherStatus, Keep, false, false, true)
  }

  function PlanStop(s: State, runtime: Row): StopPlan {
    var had := !s.container.Absent?;
    var pending := runtime.cleanupPending || runtime.status.Stopped?;
    StopPlan(runtime, had, pending, !pending && (had || s.dir != []))
  }

  /** The first step of a stop: mark and save when there is a session, else go straight on. */
  function EnterStop(s: State, runtime: Row): State {
    var plan := PlanStop(s, runtime);
    s.(pc := Stop(plan, if plan.persists then MarkingUnsaved else Quiescing, Nothing))
  }

  // ---------------------------------------------------------------- steps

  /** The row after a report, given how it went. */
  function Delivered(row: Row, report: Report, outcome: Outcome): Row {
    if outcome.Rejected? then row else Apply(row, report)
  }

  /** A report takes effect only when the control plane accepts it. */
  predicate Possible(row: Row, report: Report, outcome: Outcome) {
    !outcome.Rejected? ==> Accepts(row, report)
  }

  /** A pass that ends with a status report: one that failed is reported as an error next. */
  function Reported(s: State, runtime: Row, outcome: Outcome): State {
    s.(row := Delivered(s.row, StatusReport(runtime), outcome),
       pc := if outcome.Acknowledged? then Idle else ReportError(runtime))
  }

  predicate ControlEnabled(s: State, e: Event)
    requires e.RequestStart? || e.RequestStop? || e.EndSession? || e.RequestWipe? || e.RequestDelete?
  {
    && !s.row.deleted
    && match e
       case RequestStart => s.row.desired.WantStopped? && !s.row.cleanupPending
       case RequestStop => s.row.desired.WantRunning?
       case EndSession => s.row.desired.WantStopped?
       case RequestWipe(_) => !s.row.desired.WantDeleted?
       case RequestDelete(_) => true
  }

  function ControlStep(s: State, e: Event): (t: State)
    requires e.RequestStart? || e.RequestStop? || e.EndSession? || e.RequestWipe? || e.RequestDelete?
    requires ControlEnabled(s, e)
    ensures t == s.(row := t.row)
  {
    match e
    case RequestStart =>
      s.(row := s.row.(desired := WantRunning, status := OtherStatus, wipeRequested := false,
                       hosted := true, operation := s.row.operation + 1))
    case RequestStop =>
      s.(row := s.row.(desired := WantStopped, status := OtherStatus, operation := s.row.operation + 1))
    case EndSession =>
      s.(row := s.row.(status := if s.row.hosted then OtherStatus else Stopped))
    case RequestWipe(assigns) =>
      s.(row := s.row.(desired := WantStopped, status := Wiping, wipeRequested := true,
                       hosted := s.row.hosted || assigns,
                       operation := if s.row.wipeRequested || s.row.status.Wiping? then s.row.operation
                                    else s.row.operation + 1))
    case RequestDelete(assigns) =>
      s.(row := s.row.(desired := WantDeleted, status := OtherStatus,
                       hosted := s.row.hosted || assigns,
                       operation := if s.row.desired.WantDeleted? then s.row.operation else s.row.operation + 1))
  }

  predicate MachineEnabled(s: State, e: Event)
    requires e.GuestWrites? || e.ContainerExits? || e.Crash? || e.NoteFloor?
  {
    match e
    case GuestWrites(_) => s.container.Running?
    case ContainerExits => s.container.Running?
    case Crash => true
    case NoteFloor(sent) => sent >= 0
  }

  function MachineStep(s: State, e: Event): State
    requires e.GuestWrites? || e.ContainerExits? || e.Crash? || e.NoteFloor?
    requires MachineEnabled(s, e)
  {
    match e
    case GuestWrites(contents) => s.(dir := contents, last := contents)
    case ContainerExits => s.(container := Created)
    case Crash => s.(pc := Idle, floor := None)
    case NoteFloor(sent) => s.(floor := RaiseFloor(s.floor, sent))
  }

  function PassRow(pc: Pc): Row
    requires !pc.Idle?
  {
    if pc.Stop? then pc.plan.runtime else pc.runtime
  }

  /** prepareSessionData up to its first effect: an unsaved session wins over any snapshot. */
  function AfterPrepare(s: State, runtime: Row): Pc {
    if runtime.manifest.Some? && !FloorAllows(runtime.manifest.value.primary, s.floor) then ReportError(runtime)
    else if s.marker && s.dir != [] then Run(runtime, Creating, s.floor)
    else if runtime.manifest.Some? then Run(runtime, Resetting, s.floor)
    else if s.legacy.Some? then Run(runtime, ResettingLegacy, s.floor)
    else Run(runtime, Creating, s.floor)
  }

  predicate RunEnabled(s: State, e: Event)
    requires s.pc.Run?
  {
    var runtime := s.pc.runtime;
    match s.pc.running
    case Restoring =>
      && runtime.manifest.Some?
      && ((e.Advance? && KeyOf(runtime.manifest.value.primary) in s.objects) || e.PrimaryFails?)
    case RestoringFallback =>
      && runtime.manifest.Some? && runtime.manifest.value.fallback.Some?
      && e.Advance? && KeyOf(runtime.manifest.value.fallback.value) in s.objects
    case DroppingFallback =>
      && runtime.manifest.Some? && runtime.manifest.value.fallback.Some?
      && (e.Advance? || e.DeleteFallback?)
    case RestoringLegacy => e.Advance? && s.legacy.Some?
    case Reporting => e.Send? && Possible(s.row, StatusReport(runtime), e.outcome)
    case _ => e.Advance?
  }

  /** The next stage of a start. */
  function Onward(pc: Pc, at: RunAt): Pc
    requires pc.Run?
  {
    pc.(running := at)
  }

  /** restoreToDir from the primary: fills the directory, or turns to the fallback the floor allows. */
  function RestorePrimary(s: State, e: Event): State
    requires s.pc.Run? && s.pc.runtime.manifest.Some?
    requires e.Advance? ==> KeyOf(s.pc.runtime.manifest.value.primary) in s.objects
  {
    var manifest := s.pc.runtime.manifest.value;
    if e.Advance? then
      s.(dir := s.objects[KeyOf(manifest.primary)],
         pc := Onward(s.pc, if manifest.fallback.Some? then DroppingFallback else Creating))
    else
      s.(pc := if manifest.fallback.Some? && FloorAllows(manifest.fallback.value, s.pc.floor)
               then Onward(s.pc, ResettingFallback) else ReportError(s.pc.runtime))
  }

  function RestoreFallback(s: State): State
    requires s.pc.Run? && s.pc.runtime.manifest.Some? && s.pc.runtime.manifest.value.fallback.Some?
    requires KeyOf(s.pc.runtime.manifest.value.fallback.value) in s.objects
  {
    s.(dir := s.objects[KeyOf(s.pc.runtime.manifest.value.fallback.value)], fellBack := true,
       pc := Onward(s.pc, Creating))
  }

  /** A restored primary makes its fallback superfluous; deleting it may fail. */
  function DropFallback(s: State, e: Event): State
    requires s.pc.Run? && s.pc.runtime.manifest.Some? && s.pc.runtime.manifest.value.fallback.Some?
  {
    s.(objects := if e.DeleteFallback? then s.objects - {KeyOf(s.pc.runtime.manifest.value.fallback.value)} else s.objects,
       pc := Onward(s.pc, Creating))
  }

  function StartContainer(s: State): State
    requires s.pc.Run?
  {
    s.(container := Running, last := s.dir, fellBack := false, pc := Onward(s.pc, Reporting))
  }

  function RunStep(s: State, e: Event): (t: State)
    requires s.pc.Run? && RunEnabled(s, e)
    ensures t.floor == s.floor && t.autoSnapshot == s.autoSnapshot && !t.pc.Stop? && !t.pc.Remove?
    ensures t.pc.Run? && (t.pc.running.TaintedDirectory? || t.pc.running.TaintedMark?) ==> s.pc.running.TaintedDirectory?
  {
    match s.pc.running
    case RemovingStale => s.(container := Absent, pc := Onward(s.pc, Preparing))
    case Preparing => s.(pc := AfterPrepare(s, s.pc.runtime))
    case Resetting => s.(dir := [], pc := Onward(s.pc, Restoring))
    case Restoring => RestorePrimary(s, e)
    case ResettingFallback => s.(dir := [], pc := Onward(s.pc, RestoringFallback))
    case RestoringFallback => RestoreFallback(s)
    case DroppingFallback => DropFallback(s, e)
    case ResettingLegacy => s.(dir := [], pc := Onward(s.pc, RestoringLegacy))
    case RestoringLegacy => s.(dir := s.legacy.value, pc := Onward(s.pc, Creating))
    case Creating => s.(container := Created, pc := Onward(s.pc, Marking))
    case Marking => s.(marker := true, pc := Onward(s.pc, Starting))
    case Starting => StartContainer(s)
    case Reporting => Reported(s, s.pc.runtime, e.outcome)
    case TaintedDirectory => s.(dir := [], last := [], pc := Onward(s.pc, TaintedMark))
    case TaintedMark => s.(marker := false, pc := ReportError(s.pc.runtime))
  }

  /** clearManifestChunks returned without an error. */
  predicate ManifestCleared(s: State, manifest: Option<Manifest>) {
    manifest.Some? ==>
      && KeyOf(manifest.value.primary) !in s.objects
      && (manifest.value.fallback.Some? ==> KeyOf(manifest.value.fallback.value) !in s.objects)
  }

  /** cleanupBlobStorage returned without an error: the legacy file and the generation replaced are gone. */
  predicate CleanupDone(s: State, previous: Option<Manifest>, retained: Option<Manifest>) {
    && s.legacy.None?
    && match retained
       case None => ManifestCleared(s, previous)
       case Some(r) =>
         previous.Some? ==>
           var key := KeyOf(previous.value.primary);
           key == KeyOf(r.primary) || (r.fallback.Some? && key == KeyOf(r.fallback.value)) || key !in s.objects
  }

  predicate StopEnabled(s: State, e: Event)
    requires s.pc.Stop?
  {
    var plan, persisted := s.pc.plan, s.pc.persisted;
    match s.pc.stopping
    case Persisting =>
      if s.dir == [] || !s.autoSnapshot then e.Advance?
      else e.Save? && e.id !in s.used && NextGeneration(plan.runtime.manifest, s.floor).Some?
    case Removing => e.Advance? || (plan.hadContainer && e.RemoveFails?)
    case Discarding => e.Advance? || (persisted.Saved? && e == DeleteObject(KeyOf(persisted.manifest.primary)))
    case Committing =>
      || (e.TooLarge? && persisted.Saved?)
      || (e.Send? && Possible(s.row, StopReport(plan, persisted, false), e.outcome))
    case Cleaning =>
      || (e.Advance? && (CleansUp(plan) ==> CleanupDone(s, plan.runtime.manifest, Retained(plan, persisted))))
      || (e.RemoveLegacy? && CleansUp(plan))
      || (e.DeleteObject? && CleansUp(plan) && CleanupDeletes(plan.runtime.manifest, Retained(plan, persisted), e.key))
    case Acknowledging => e.Send? && Possible(s.row, StopReport(plan, persisted, true), e.outcome)
    case _ => e.Advance?
  }

  function QuiesceContainer(s: State): State
    requires s.pc.Stop?
  {
    s.(container := if s.pc.plan.hadContainer && s.container.Running? then Created else s.container,
       pc := s.pc.(stopping := if s.pc.plan.persists then Persisting else Removing))
  }

  /** persistSessionData: an empty directory clears the saved generation, any other is saved as the next one. */
  function PersistSession(s: State, e: Event): State
    requires s.pc.Stop?
    requires e.Save? ==> NextGeneration(s.pc.plan.runtime.manifest, s.floor).Some?
  {
    if e.Save? then
      var manifest := NewManifest(s.pc.plan.runtime.manifest, e.store, e.id,
                                  NextGeneration(s.pc.plan.runtime.manifest, s.floor).value);
      s.(objects := s.objects[Key(e.store, e.id) := s.dir], used := s.used + {e.id},
         pc := s.pc.(stopping := Removing, persisted := Saved(manifest)))
    else s.(pc := s.pc.(stopping := Removing, persisted := ClearExisting))
  }

  function RemoveContainer(s: State, e: Event): State
    requires s.pc.Stop?
  {
    if e.RemoveFails? then s.(pc := s.pc.(stopping := Discarding))
    else s.(container := if s.pc.plan.hadContainer then Absent else s.container, pc := s.pc.(stopping := Committing))
  }

  function DiscardUncommitted(s: State, e: Event): State
    requires s.pc.Stop?
  {
    s.(objects := if e.DeleteObject? then s.objects - {e.key} else s.objects, pc := ReportError(s.pc.plan.runtime))
  }

  /** The report that commits; only its acknowledgement lets the plaintext go. */
  function CommitStop(s: State, e: Event): State
    requires s.pc.Stop? && (e.TooLarge? || e.Send?)
  {
    if e.TooLarge? then s.(pc := s.pc.(stopping := Discarding))
    else s.(row := Delivered(s.row, StopReport(s.pc.plan, s.pc.persisted, false), e.outcome),
            pc := if e.outcome.Acknowledged? then s.pc.(stopping := DroppingDirectory)
                  else ReportError(s.pc.plan.runtime))
  }

  function CleanStore(s: State, e: Event): State
    requires s.pc.Stop?
  {
    if e.RemoveLegacy? then s.(legacy := None)
    else if e.DeleteObject? then s.(objects := s.objects - {e.key})
    else s.(pc := s.pc.(stopping := Acknowledging))
  }

  function AcknowledgeStop(s: State, outcome: Outcome): State
    requires s.pc.Stop?
  {
    s.(row := Delivered(s.row, StopReport(s.pc.plan, s.pc.persisted, true), outcome),
       pc := if outcome.Acknowledged? then Idle else ReportError(s.pc.plan.runtime))
  }

  function StopStep(s: State, e: Event): (t: State)
    requires s.pc.Stop? && StopEnabled(s, e)
    ensures t.floor == s.floor && t.autoSnapshot == s.autoSnapshot
    ensures !t.pc.Run? && !t.pc.Dispatch? && (t.pc.Stop? ==> t.pc.plan == s.pc.plan)
  {
    match s.pc.stopping
    case MarkingUnsaved => s.(marker := true, pc := s.pc.(stopping := Quiescing))
    case Quiescing => QuiesceContainer(s)
    case Persisting => PersistSession(s, e)
    case Removing => RemoveContainer(s, e)
    case Discarding => DiscardUncommitted(s, e)
    case Committing => CommitStop(s, e)
    case DroppingDirectory => s.(dir := [], pc := s.pc.(stopping := Unmarking))
    case Unmarking => s.(marker := false, pc := s.pc.(stopping := Cleaning))
    case Cleaning => CleanStore(s, e)
    case Acknowledging => AcknowledgeStop(s, e.outcome)
  }

  /** clearSnapshot returned without an error: the assigned manifest's snapshots and the legacy file are gone. */
  predicate SnapshotsCleared(s: State, manifest: Option<Manifest>) {
    s.legacy.None? && ManifestCleared(s, manifest)
  }

  predicate RemoveEnabled(s: State, e: Event)
    requires s.pc.Remove?
  {
    match s.pc.removing
    case WipingObjects =>
      || e.DeleteObject? || e.RemoveLegacy?
      || (e.Send? && SnapshotsCleared(s, s.pc.runtime.manifest) && Possible(s.row, WipeReport(s.pc.runtime), e.outcome))
    case DeletingObjects =>
      || e.DeleteObject? || e.RemoveLegacy?
      || (e.Send? && SnapshotsCleared(s, s.pc.runtime.manifest) && Possible(s.row, DeleteReport(s.pc.runtime), e.outcome))
    case _ => e.Advance?
  }

  /** clearSnapshot's deletions, then the report that ends the pass. */
  function RemoveSnapshots(s: State, report: Report, e: Event): State
    requires s.pc.Remove? && (e.DeleteObject? || e.RemoveLegacy? || e.Send?)
  {
    if e.DeleteObject? then s.(objects := s.objects - {e.key}, condemned := s.condemned + {e.key})
    else if e.RemoveLegacy? then s.(legacy := None)
    else s.(row := Delivered(s.row, report, e.outcome),
            pc := if e.outcome.Acknowledged? then Idle else ReportError(s.pc.runtime))
  }

  function RemoveStep(s: State, e: Event): (t: State)
    requires s.pc.Remove? && RemoveEnabled(s, e)
    ensures t.floor == s.floor && t.autoSnapshot == s.autoSnapshot
    ensures !t.pc.Run? && !t.pc.Dispatch? && !t.pc.Stop?
  {
    match s.pc.removing
    case WipingContainer => s.(container := Absent, pc := s.pc.(removing := WipingDirectory))
    case WipingDirectory => s.(dir := [], last := [], pc := s.pc.(removing := WipingMark))
    case WipingMark => s.(marker := false, pc := s.pc.(removing := WipingObjects))
    case WipingObjects => RemoveSnapshots(s, WipeReport(s.pc.runtime), e)
    case DeletingContainer => s.(container := Absent, pc := s.pc.(removing := DeletingRoot))
    case DeletingRoot =>
      s.(dir := [], last := [], marker := false, legacy := None, pc := s.pc.(removing := DeletingObjects))
    case DeletingObjects => RemoveSnapshots(s, DeleteReport(s.pc.runtime), e)
  }

  /** reconcileRuntime's choice, and what a running pass may turn to. */
  predicate DispatchEnabled(s: State, e: Event)
    requires s.pc.Dispatch?
  {
    var runtime := s.pc.runtime;
    var running := runtime.desired.WantRunning? && !runtime.wipeRequested && !runtime.status.Wiping?;
    || (e.Choose? && !(running && s.container.Running?))
    || (e.Observe? && running && s.container.Running? && Possible(s.row, StatusReport(runtime), e.outcome))
    || (e.Taint? && running && s.container.Running?)
    || (e.Migrate? && running && !s.container.Absent?)
  }

  function DispatchStep(s: State, e: Event): (t: State)
    requires s.pc.Dispatch? && DispatchEnabled(s, e)
    ensures t.floor == s.floor && t.autoSnapshot == s.autoSnapshot
  {
    var runtime := s.pc.runtime;
    match e
    case Observe(outcome) => Reported(s, runtime, outcome)
    case Taint => s.(container := Absent, pc := Run(runtime, TaintedDirectory, None))
    case Migrate => EnterStop(s, runtime)
    case _ =>
      if runtime.desired.WantDeleted? then s.(pc := Remove(runtime, DeletingContainer))
      else if runtime.wipeRequested || runtime.status.Wiping? then s.(pc := Remove(runtime, WipingContainer))
      else if runtime.desired.WantRunning? then
        s.(pc := Run(runtime, if s.container.Absent? then Preparing else RemovingStale, None))
      else EnterStop(s, runtime)
  }

  predicate Enabled(s: State, e: Event) {
    if e.RequestStart? || e.RequestStop? || e.EndSession? || e.RequestWipe? || e.RequestDelete? then ControlEnabled(s, e)
    else if e.GuestWrites? || e.ContainerExits? || e.Crash? || e.NoteFloor? then MachineEnabled(s, e)
    else if e.Fetch? then s.pc.Idle? && s.row.hosted && !s.row.deleted
    else if e.Fail? then !s.pc.Idle? && !s.pc.ReportError?
    else if s.pc.Idle? then false
    else if s.pc.ReportError? then e.ErrorReported? && Possible(s.row, StatusReport(s.pc.runtime), e.outcome)
    else if s.pc.Dispatch? then DispatchEnabled(s, e)
    else if s.pc.Run? then RunEnabled(s, e)
    else if s.pc.Stop? then StopEnabled(s, e)
    else RemoveEnabled(s, e)
  }

  function Step(s: State, e: Event): (t: State)
    requires Enabled(s, e)
    ensures t.autoSnapshot == s.autoSnapshot
    ensures t.floor == match e case NoteFloor(sent) => RaiseFloor(s.floor, sent) case Crash => None case _ => s.floor
  {
    if e.RequestStart? || e.RequestStop? || e.EndSession? || e.RequestWipe? || e.RequestDelete? then ControlStep(s, e)
    else if e.GuestWrites? || e.ContainerExits? || e.Crash? || e.NoteFloor? then MachineStep(s, e)
    else if e.Fetch? then s.(pc := Dispatch(s.row))
    else if e.Fail? then s.(pc := ReportError(PassRow(s.pc)))
    else if s.pc.ReportError? then s.(row := Delivered(s.row, StatusReport(s.pc.runtime), e.outcome), pc := Idle)
    else if s.pc.Dispatch? then DispatchStep(s, e)
    else if s.pc.Run? then RunStep(s, e)
    else if s.pc.Stop? then StopStep(s, e)
    else RemoveStep(s, e)
  }

  /** Whether events can happen one after another from s. */
  predicate CanHappen(s: State, events: seq<Event>)
    decreases |events|
  {
    events == [] || (Enabled(s, events[0]) && CanHappen(Step(s, events[0]), events[1..]))
  }

  /** The state those events lead to. */
  function After(s: State, events: seq<Event>): State
    requires CanHappen(s, events)
    decreases |events|
  {
    if events == [] then s else After(Step(s, events[0]), events[1..])
  }
}
