/**
 * Where the lifecycle's promise ends. Each limit is a run that loses a session
 * without any wipe, delete or discard, with the exact condition beside it.
 */
module LifecycleLimits {
  import opened Common
  import opened Lifecycle
  import opened LifecycleSafety

  /** Events that lose data on purpose. */
  predicate Deliberate(e: Event) {
    e.RequestWipe? || e.RequestDelete? || e.Taint?
  }

  lemma {:induction false} Extend(s: State, events: seq<Event>, e: Event)
    requires CanHappen(s, events) && Enabled(After(s, events), e)
    ensures CanHappen(s, events + [e])
    ensures After(s, events + [e]) == Step(After(s, events), e)
    decreases |events|
  {
    if events == [] {
      assert events + [e] == [e];
    } else {
      assert (events + [e])[1..] == events[1..] + [e];
      Extend(Step(s, events[0]), events[1..], e);
    }
  }

  // ---------------------------------------------------------------- stretches of a run

  /** Which events a stretch may hold: none that loses data on purpose, nor a migration when calm; or none that begins a pass. */
  datatype Kind = Calm | NotDeliberate | OnePass | Any

  predicate Allowed(kind: Kind, e: Event) {
    match kind
    case Calm => !Deliberate(e) && !e.Migrate?
    case NotDeliberate => !Deliberate(e)
    case OnePass => !e.Fetch?
    case Any => true
  }

  /** A run from s to t of allowed events. */
  ghost predicate Leads(kind: Kind, s: State, events: seq<Event>, t: State) {
    && CanHappen(s, events) && After(s, events) == t
    && forall i :: 0 <= i < |events| ==> Allowed(kind, events[i])
  }

  /** One more event of a run, when it leads from t to u. */
  lemma Then(kind: Kind, s: State, events: seq<Event>, t: State, e: Event, u: State) returns (longer: seq<Event>)
    requires Leads(kind, s, events, t)
    requires Enabled(t, e) && Step(t, e) == u && Allowed(kind, e)
    ensures Leads(kind, s, longer, u)
  {
    Extend(s, events, e);
    longer := events + [e];
  }

  function Started(row: Row): Row {
    row.(desired := WantRunning, status := OtherStatus, wipeRequested := false, hosted := true, operation := row.operation + 1)
  }

  function StopAsked(row: Row): Row {
    row.(desired := WantStopped, status := OtherStatus, operation := row.operation + 1)
  }

  lemma AskStart(kind: Kind, s: State, events: seq<Event>, t: State) returns (longer: seq<Event>)
    requires Leads(kind, s, events, t)
    requires t.row.desired.WantStopped? && !t.row.cleanupPending && !t.row.deleted
    ensures Leads(kind, s, longer, t.(row := Started(t.row)))
  {
    longer := Then(kind, s, events, t, RequestStart, t.(row := Started(t.row)));
  }

  lemma AskStop(kind: Kind, s: State, events: seq<Event>, t: State) returns (longer: seq<Event>)
    requires Leads(kind, s, events, t)
    requires t.row.desired.WantRunning? && !t.row.deleted
    ensures Leads(kind, s, longer, t.(row := StopAsked(t.row)))
  {
    longer := Then(kind, s, events, t, RequestStop, t.(row := StopAsked(t.row)));
  }

  lemma BeginPass(kind: Kind, s: State, events: seq<Event>, t: State) returns (longer: seq<Event>)
    requires Leads(kind, s, events, t) && !kind.OnePass?
    requires t.pc.Idle? && t.row.hosted && !t.row.deleted
    ensures Leads(kind, s, longer, t.(pc := Dispatch(t.row)))
  {
    longer := Then(kind, s, events, t, Fetch, t.(pc := Dispatch(t.row)));
  }

  lemma Chosen(kind: Kind, s: State, events: seq<Event>, t: State, u: State) returns (longer: seq<Event>)
    requires Leads(kind, s, events, t)
    requires t.pc.Dispatch? && DispatchEnabled(t, Choose) && DispatchStep(t, Choose) == u
    ensures Leads(kind, s, longer, u)
  {
    longer := Then(kind, s, events, t, Choose, u);
  }

  lemma OnStart(kind: Kind, s: State, events: seq<Event>, t: State, e: Event, u: State) returns (longer: seq<Event>)
    requires Leads(kind, s, events, t)
    requires t.pc.Run? && (e.Advance? || e.PrimaryFails? || e.Send?)
    requires RunEnabled(t, e) && RunStep(t, e) == u
    ensures Leads(kind, s, longer, u)
  {
    longer := Then(kind, s, events, t, e, u);
  }

  lemma OnStop(kind: Kind, s: State, events: seq<Event>, t: State, e: Event, u: State) returns (longer: seq<Event>)
    requires Leads(kind, s, events, t)
    requires t.pc.Stop? && (e.Advance? || e.Save? || e.Send? || e.RemoveLegacy?)
    requires StopEnabled(t, e) && StopStep(t, e) == u
    ensures Leads(kind, s, longer, u)
  {
    longer := Then(kind, s, events, t, e, u);
  }

  /** A pass that fails and whose error report does not arrive. */
  lemma GiveUp(kind: Kind, s: State, events: seq<Event>, t: State) returns (longer: seq<Event>)
    requires Leads(kind, s, events, t) && !t.pc.Idle?
    ensures Leads(kind, s, longer, t.(pc := Idle))
  {
    var u := t;
    longer := events;
    if !t.pc.ReportError? {
      u := t.(pc := ReportError(PassRow(t.pc)));
      longer := Then(kind, s, longer, t, Fail, u);
    }
    longer := Then(kind, s, longer, u, ErrorReported(Rejected), t.(pc := Idle));
  }

  // ---------------------------------------------------------------- a fallback restored, then saved

  const OLDER := Snapshot(LocalDisk, 1, 3, 4)
  const NEWER := Snapshot(SiaIndexd, 2, 3, 5)
  const SWITCHED := Some(Manifest(NEWER, Some(OLDER)))
  const RESAVED := Manifest(Snapshot(SiaIndexd, 3, 3, 6), None)

  /** Generation 5 is on Sia, with generation 4 kept on this node's disk. */
  const AFTER_SWITCH := State(
    Row(WantStopped, Stopped, false, false, false, 1, SWITCHED, false),
    [], false, Absent, map[KeyOf(OLDER) := [4], KeyOf(NEWER) := [5]], None, {1, 2}, None, Idle, true, [5], false, {})

  lemma FallbackIsRestored(events0: seq<Event>, t0: State) returns (events: seq<Event>)
    requires Leads(Calm, AFTER_SWITCH, events0, t0)
    requires t0.pc.Run? && t0.pc.running.Preparing? && t0.pc.runtime.manifest == SWITCHED && t0.floor.None?
    requires !t0.marker && t0.objects == AFTER_SWITCH.objects
    ensures Leads(Calm, AFTER_SWITCH, events, t0.(pc := Run(t0.pc.runtime, Creating, None), dir := [4], fellBack := true))
  {
    var s, runtime := AFTER_SWITCH, t0.pc.runtime;
    var t1 := t0.(pc := Run(runtime, Resetting, None));
    events := OnStart(Calm, s, events0, t0, Advance, t1);
    var t2 := t1.(pc := Run(runtime, Restoring, None), dir := []);
    events := OnStart(Calm, s, events, t1, Advance, t2);
    var t3 := t2.(pc := Run(runtime, ResettingFallback, None));
    events := OnStart(Calm, s, events, t2, PrimaryFails, t3);
    var t4 := t3.(pc := Run(runtime, RestoringFallback, None));
    events := OnStart(Calm, s, events, t3, Advance, t4);
    events := OnStart(Calm, s, events, t4, Advance, t4.(dir := [4], fellBack := true, pc := Run(runtime, Creating, None)));
  }

  lemma FallbackIsSaved(events0: seq<Event>, t0: State, plan: StopPlan) returns (events: seq<Event>, t: State)
    requires Leads(Calm, AFTER_SWITCH, events0, t0)
    requires t0.pc == Stop(plan, MarkingUnsaved, Nothing) && plan.persists && !plan.hadContainer
    requires plan.runtime == t0.row && t0.row.manifest == SWITCHED && t0.row.hosted && !t0.row.deleted
    requires t0.floor.None? && t0.used == {1, 2} && t0.dir == [4] && t0.autoSnapshot && t0.container.Absent?
    ensures Leads(Calm, AFTER_SWITCH, events, t)
    ensures t.row.manifest == Some(RESAVED) && t.last == t0.last && t.dir == [4]
    ensures KeyOf(RESAVED.primary) in t.objects && t.objects[KeyOf(RESAVED.primary)] == [4]
  {
    var s := AFTER_SWITCH;
    var t1 := t0.(marker := true, pc := Stop(plan, Quiescing, Nothing));
    events := OnStop(Calm, s, events0, t0, Advance, t1);
    var t2 := t1.(pc := Stop(plan, Persisting, Nothing));
    events := OnStop(Calm, s, events, t1, Advance, t2);
    var t3 := t2.(objects := t2.objects[KeyOf(RESAVED.primary) := [4]], used := t2.used + {3},
                  pc := Stop(plan, Removing, Saved(RESAVED)));
    events := OnStop(Calm, s, events, t2, Save(SiaIndexd, 3), t3);
    var t4 := t3.(pc := Stop(plan, Committing, Saved(RESAVED)));
    events := OnStop(Calm, s, events, t3, Advance, t4);
    t := StopStep(t4, Send(Acknowledged));
    events := OnStop(Calm, s, events, t4, Send(Acknowledged), t);
  }

  lemma FallbackStartFails() returns (events: seq<Event>)
    ensures Leads(Calm, AFTER_SWITCH, events,
                  AFTER_SWITCH.(row := Started(AFTER_SWITCH.row), dir := [4], fellBack := true))
  {
    var s := AFTER_SWITCH;
    events := AskStart(Calm, s, [], s);
    var t := s.(row := Started(s.row));
    events := BeginPass(Calm, s, events, t);
    var u := t.(pc := Run(t.row, Preparing, None));
    events := Chosen(Calm, s, events, t.(pc := Dispatch(t.row)), u);
    events := FallbackIsRestored(events, u);
    events := GiveUp(Calm, s, events, u.(dir := [4], fellBack := true, pc := Run(t.row, Creating, None)));
  }

  /**
   * A start that falls back, fails before its container starts, and is then stopped commits the
   * older generation: the last session is gone though nobody asked for that.
   */
  lemma FallbackCanLoseTheSession() returns (s: State, events: seq<Event>)
    ensures Init(s) && s.autoSnapshot && CanHappen(s, events)
    ensures forall i :: 0 <= i < |events| ==> !Deliberate(events[i]) && !events[i].Migrate?
    ensures !NothingLost(After(s, events))
  {
    s := AFTER_SWITCH;
    events := FallbackStartFails();
    var v := s.(row := Started(s.row), dir := [4], fellBack := true);
    events := AskStop(Calm, s, events, v);
    var w := v.(row := StopAsked(v.row));
    events := BeginPass(Calm, s, events, w);
    var plan := StopPlan(w.row, false, false, true);
    var x := w.(pc := Stop(plan, MarkingUnsaved, Nothing));
    events := Chosen(Calm, s, events, w.(pc := Dispatch(w.row)), x);
    var y: State;
    events, y := FallbackIsSaved(events, x, plan);
  }

  // ---------------------------------------------------------------- a migration under "stopped"

  /** A runtime nothing was ever saved for. */
  const FRESH := State(
    Row(WantStopped, Stopped, false, false, false, 1, None, false),
    [], false, Absent, map[], None, {}, None, Idle, true, [], false, {})

  /** A start that needs no restore, whose container then runs and writes. */
  lemma Launch(kind: Kind, s: State, events0: seq<Event>, t0: State, written: Contents) returns (events: seq<Event>)
    requires Leads(kind, s, events0, t0) && !kind.OnePass?
    requires t0.pc.Idle? && t0.row.desired.WantRunning? && t0.row.hosted && !t0.row.deleted
    requires !t0.row.wipeRequested && !t0.row.status.Wiping? && t0.container.Absent?
    requires (t0.row.manifest.None? && t0.legacy.None?) || (t0.floor.None? && t0.marker && t0.dir != [])
    ensures Leads(kind, s, events,
                  t0.(container := Running, marker := true, dir := written, last := written, fellBack := false))
  {
    var runtime := t0.row;
    events := BeginPass(kind, s, events0, t0);
    var t1 := t0.(pc := Run(runtime, Preparing, None));
    events := Chosen(kind, s, events, t0.(pc := Dispatch(runtime)), t1);
    events := LaunchContainer(kind, s, events, t1);
    var t2 := t1.(container := Running, marker := true, last := t1.dir, fellBack := false, pc := Run(runtime, Reporting, t0.floor));
    events := GiveUp(kind, s, events, t2);
    events := Then(kind, s, events, t2.(pc := Idle), GuestWrites(written),
                   t2.(pc := Idle, dir := written, last := written));
  }

  lemma LaunchContainer(kind: Kind, s: State, events0: seq<Event>, t1: State) returns (events: seq<Event>)
    requires Leads(kind, s, events0, t1)
    requires t1.pc.Run? && t1.pc.running.Preparing?
    requires (t1.pc.runtime.manifest.None? && t1.legacy.None?) || (t1.floor.None? && t1.marker && t1.dir != [])
    ensures Leads(kind, s, events,
                  t1.(container := Running, marker := true, last := t1.dir, fellBack := false,
                      pc := Run(t1.pc.runtime, Reporting, t1.floor)))
  {
    var runtime, floor := t1.pc.runtime, t1.floor;
    var t2 := t1.(pc := Run(runtime, Creating, floor));
    events := OnStart(kind, s, events0, t1, Advance, t2);
    var t3 := t2.(container := Created, pc := Run(runtime, Marking, floor));
    events := OnStart(kind, s, events, t2, Advance, t3);
    var t4 := t3.(marker := true, pc := Run(runtime, Starting, floor));
    events := OnStart(kind, s, events, t3, Advance, t4);
    events := OnStart(kind, s, events, t4, Advance,
                      t4.(container := Running, last := t4.dir, fellBack := false, pc := Run(runtime, Reporting, floor)));
  }

  const FIRST := Manifest(Snapshot(LocalDisk, 1, 3, 1), None)

  /** A migration stop saves the session, but neither its commit's reply nor anything later arrives. */
  lemma MigrationSaves(events0: seq<Event>, t0: State) returns (events: seq<Event>)
    requires Leads(NotDeliberate, FRESH, events0, t0)
    requires t0.pc.Idle? && t0.row == Started(FRESH.row) && t0.container.Running? && t0.dir == [7]
    requires t0.autoSnapshot && t0.used == {} && t0.floor.None? && t0.marker
    ensures Leads(NotDeliberate, FRESH, events,
                  t0.(row := t0.row.(status := Stopped, manifest := Some(FIRST)), container := Absent,
                      objects := t0.objects[KeyOf(FIRST.primary) := [7]], used := {1}))
  {
    var s, plan := FRESH, StopPlan(t0.row, true, false, true);
    events := BeginPass(NotDeliberate, s, events0, t0);
    var t1 := t0.(pc := Stop(plan, MarkingUnsaved, Nothing));
    events := Then(NotDeliberate, s, events, t0.(pc := Dispatch(t0.row)), Migrate, t1);
    var t2 := t1.(pc := Stop(plan, Quiescing, Nothing));
    events := OnStop(NotDeliberate, s, events, t1, Advance, t2);
    var t3 := t2.(container := Created, pc := Stop(plan, Persisting, Nothing));
    events := OnStop(NotDeliberate, s, events, t2, Advance, t3);
    events := MigrationCommits(events, t3, plan);
  }

  lemma MigrationCommits(events0: seq<Event>, t3: State, plan: StopPlan) returns (events: seq<Event>)
    requires Leads(NotDeliberate, FRESH, events0, t3)
    requires t3.row == Started(FRESH.row) && plan == StopPlan(t3.row, true, false, true)
    requires t3.pc == Stop(plan, Persisting, Nothing) && t3.dir == [7] && t3.container.Created?
    requires t3.autoSnapshot && t3.used == {} && t3.floor.None?
    ensures Leads(NotDeliberate, FRESH, events,
                  t3.(row := t3.row.(status := Stopped, manifest := Some(FIRST)), container := Absent, pc := Idle,
                      objects := t3.objects[KeyOf(FIRST.primary) := [7]], used := {1}))
  {
    var s := FRESH;
    var t4 := t3.(objects := t3.objects[KeyOf(FIRST.primary) := [7]], used := {1},
                  pc := Stop(plan, Removing, Saved(FIRST)));
    events := OnStop(NotDeliberate, s, events0, t3, Save(LocalDisk, 1), t4);
    var t5 := t4.(container := Absent, pc := Stop(plan, Committing, Saved(FIRST)));
    events := OnStop(NotDeliberate, s, events, t4, Advance, t5);
    var t6 := t5.(row := t5.row.(status := Stopped, manifest := Some(FIRST)), pc := ReportError(plan.runtime));
    events := OnStop(NotDeliberate, s, events, t5, Send(ReplyLost), t6);
    events := GiveUp(NotDeliberate, s, events, t6);
  }

  /** A stop that takes a session for saved, from its first step until it has dropped the directory. */
  lemma RecklessDrops(kind: Kind, s: State, events0: seq<Event>, t1: State, plan: StopPlan) returns (events: seq<Event>)
    requires Leads(kind, s, events0, t1)
    requires t1.pc == Stop(plan, Quiescing, Nothing) && plan == StopPlan(t1.row, true, true, false)
    requires t1.row.hosted && !t1.row.deleted && t1.row.status.Stopped? && t1.row.desired.WantRunning? && !t1.row.cleanupPending
    ensures Leads(kind, s, events, t1.(container := Absent, dir := [], pc := Stop(plan, Unmarking, Nothing)))
  {
    var t2 := t1.(container := if t1.container.Running? then Created else t1.container, pc := Stop(plan, Removing, Nothing));
    events := OnStop(kind, s, events0, t1, Advance, t2);
    var t3 := t2.(container := Absent, pc := Stop(plan, Committing, Nothing));
    events := OnStop(kind, s, events, t2, Advance, t3);
    var t4 := t3.(pc := Stop(plan, DroppingDirectory, Nothing));
    events := OnStop(kind, s, events, t3, Send(Acknowledged), t4);
    events := OnStop(kind, s, events, t4, Advance, t4.(dir := [], pc := Stop(plan, Unmarking, Nothing)));
  }

  /** The same migration under a row that says "stopped" takes the data for saved and drops it. */
  lemma MigrationDrops(s: State, events0: seq<Event>, t0: State) returns (events: seq<Event>)
    requires Leads(NotDeliberate, s, events0, t0)
    requires t0.pc == Dispatch(t0.row) && t0.row.hosted && !t0.row.deleted && t0.row.status.Stopped?
    requires t0.row.desired.WantRunning? && !t0.row.wipeRequested && !t0.row.cleanupPending && !t0.container.Absent?
    ensures Leads(NotDeliberate, s, events,
                  t0.(container := Absent, dir := [], pc := Stop(StopPlan(t0.row, true, true, false), Unmarking, Nothing)))
  {
    var plan := StopPlan(t0.row, true, true, false);
    var t1 := t0.(pc := Stop(plan, Quiescing, Nothing));
    events := Then(NotDeliberate, s, events0, t0, Migrate, t1);
    events := RecklessDrops(NotDeliberate, s, events, t1, plan);
  }

  /** Two migrations in one operation, with the reports between them lost, lose the second session. */
  lemma MigrationCanLoseTheSession() returns (s: State, events: seq<Event>)
    ensures Init(s) && s.autoSnapshot && CanHappen(s, events)
    ensures forall i :: 0 <= i < |events| ==> !Deliberate(events[i])
    ensures !After(s, events).fellBack && !NothingLost(After(s, events))
  {
    s := FRESH;
    events := AskStart(NotDeliberate, s, [], s);
    var t := s.(row := Started(s.row));
    events := Launch(NotDeliberate, s, events, t, [7]);
    var u := t.(container := Running, marker := true, dir := [7], last := [7]);
    events := MigrationSaves(events, u);
    var v := u.(row := u.row.(status := Stopped, manifest := Some(FIRST)), container := Absent,
                objects := u.objects[KeyOf(FIRST.primary) := [7]], used := {1});
    events := Launch(NotDeliberate, s, events, v, [8]);
    var w := v.(container := Running, dir := [8], last := [8]);
    events := BeginPass(NotDeliberate, s, events, w);
    events := MigrationDrops(s, events, w.(pc := Dispatch(w.row)));
  }

  // ---------------------------------------------------------------- when a migration is harmless

  /** From a migration under "stopped" on, until the next pass begins. */
  predicate Migrated(s: State) {
    || s.pc.Idle? || s.pc.ReportError?
    || (s.pc.Stop? && Reckless(s.pc.plan) && !s.pc.plan.persists)
  }

  ghost predicate StaysSafe(t: State) {
    Migrated(t) && Safe(t) && !t.container.Running?
  }

  lemma MigratedCleanKeepsSafe(s: State, e: Event)
    requires Shape(s) && s.pc.Stop? && s.pc.stopping.Cleaning? && StaysSafe(s) && StopEnabled(s, e)
    ensures StaysSafe(CleanStore(s, e))
  {
  }

  lemma MigratedReportKeepsSafe(s: State, e: Event)
    requires Shape(s) && s.pc.Stop? && (s.pc.stopping.Committing? || s.pc.stopping.Acknowledging?) && StaysSafe(s) && StopEnabled(s, e)
    ensures StaysSafe(StopStep(s, e))
  {
  }

  lemma MigratedStopKeepsSafe(s: State, e: Event)
    requires Shape(s) && s.pc.Stop? && StaysSafe(s) && StopEnabled(s, e)
    ensures StaysSafe(StopStep(s, e))
  {
    if s.pc.stopping.Cleaning? {
      MigratedCleanKeepsSafe(s, e);
    } else if s.pc.stopping.Committing? || s.pc.stopping.Acknowledging? {
      MigratedReportKeepsSafe(s, e);
    }
  }

  lemma MigratedRequestKeepsSafe(s: State, e: Event)
    requires e.RequestStart? || e.RequestStop? || e.EndSession? || e.RequestWipe? || e.RequestDelete?
    requires StaysSafe(s) && ControlEnabled(s, e)
    ensures StaysSafe(ControlStep(s, e))
  {
    assert ControlStep(s, e).row.manifest == s.row.manifest;
  }

  lemma MigratedMachineKeepsSafe(s: State, e: Event)
    requires e.GuestWrites? || e.ContainerExits? || e.Crash? || e.NoteFloor?
    requires StaysSafe(s) && MachineEnabled(s, e)
    ensures StaysSafe(MachineStep(s, e))
  {
  }

  lemma MigratedStepKeepsSafe(s: State, e: Event)
    requires Shape(s) && StaysSafe(s) && Enabled(s, e) && !e.Fetch?
    ensures StaysSafe(Step(s, e))
  {
    if e.RequestStart? || e.RequestStop? || e.EndSession? || e.RequestWipe? || e.RequestDelete? {
      MigratedRequestKeepsSafe(s, e);
    } else if e.GuestWrites? || e.ContainerExits? || e.Crash? || e.NoteFloor? {
      MigratedMachineKeepsSafe(s, e);
    } else if s.pc.Stop? && !e.Fail? {
      MigratedStopKeepsSafe(s, e);
    }
  }

  lemma {:induction false} MigratedRunKeeps(s: State, events: seq<Event>)
    requires Shape(s) && StaysSafe(s) && CanHappen(s, events)
    requires forall i :: 0 <= i < |events| ==> Allowed(OnePass, events[i])
    ensures NeverLost(s, events)
    decreases |events|
  {
    if events != [] {
      MigratedStepKeepsSafe(s, events[0]);
      StepKeeps(s, events[0]);
      MigratedRunKeeps(Step(s, events[0]), events[1..]);
    }
  }

  lemma {:induction false} NeverLostEnds(s: State, events: seq<Event>)
    requires CanHappen(s, events) && NeverLost(s, events)
    ensures NothingLost(After(s, events))
    decreases |events|
  {
    if events != [] { NeverLostEnds(Step(s, events[0]), events[1..]); }
  }

  /** Contents other than the committed ones. */
  function Uncommitted(s: State): (contents: Contents)
    ensures contents != [] && !Committed(s, contents)
  {
    if s.row.manifest.Some? && KeyOf(s.row.manifest.value.primary) in s.objects
    then s.objects[KeyOf(s.row.manifest.value.primary)] + [0] else [0]
  }

  /** Otherwise something can still be lost: what is there now, or what a running guest writes next. */
  lemma HarmfulMigration(t0: State) returns (events: seq<Event>)
    requires t0.pc == Dispatch(t0.row) && t0.row.hosted && !t0.row.deleted && t0.row.status.Stopped?
    requires t0.row.desired.WantRunning? && !t0.row.wipeRequested && !t0.row.cleanupPending && !t0.container.Absent?
    requires !Safe(t0) || t0.container.Running?
    ensures CanHappen(EnterStop(t0, t0.row), events) && !NothingLost(After(EnterStop(t0, t0.row), events))
    ensures forall i :: 0 <= i < |events| ==> Allowed(OnePass, events[i])
  {
    var t1, plan := EnterStop(t0, t0.row), StopPlan(t0.row, true, true, false);
    events := [];
    var t2 := t1;
    if t0.container.Running? {
      var contents := Uncommitted(t0);
      t2 := t1.(dir := contents, last := contents);
      events := Then(OnePass, t1, events, t1, GuestWrites(contents), t2);
    }
    events := RecklessDrops(OnePass, t1, events, t2, plan);
  }

  /**
   * Exactly when: a migration under "stopped" can lose nothing, whatever happens until the next pass, if and
   * only if the session was committed and its container had exited when the pass began.
   */
  lemma MigrationHarmlessIff(t0: State)
    requires Shape(t0) && t0.pc == Dispatch(t0.row) && t0.row.hosted && !t0.row.deleted
    requires t0.row.desired.WantRunning? && t0.row.status.Stopped? && !t0.container.Absent?
    ensures Enabled(t0, Migrate)
    ensures (forall events :: CanHappen(Step(t0, Migrate), events) && (forall i :: 0 <= i < |events| ==> Allowed(OnePass, events[i])) ==>
               NeverLost(Step(t0, Migrate), events))
       <==> Safe(t0) && !t0.container.Running?
  {
    var t1 := Step(t0, Migrate);
    StepKeeps(t0, Migrate);
    if Safe(t0) && !t0.container.Running? {
      forall events | CanHappen(t1, events) && (forall i :: 0 <= i < |events| ==> Allowed(OnePass, events[i]))
        ensures NeverLost(t1, events)
      {
        MigratedRunKeeps(t1, events);
      }
    } else {
      var events := HarmfulMigration(t0);
      if NeverLost(t1, events) { NeverLostEnds(t1, events); }
    }
  }

  // ---------------------------------------------------------------- a legacy file

  /** Data saved before manifests existed: only the legacy file holds it. */
  const LEGACY := FRESH.(legacy := Some([9]))

  /** A stop with nothing on disk reports "stopped" and gets as far as dropping the directory. */
  lemma StopWithNothing(events0: seq<Event>, t0: State) returns (events: seq<Event>)
    requires Leads(Calm, LEGACY, events0, t0)
    requires t0.pc.Idle? && t0.row.hosted && !t0.row.deleted && t0.row.desired.WantStopped?
    requires !t0.row.wipeRequested && !t0.row.status.Wiping? && t0.container.Absent? && t0.dir == []
    ensures Leads(Calm, LEGACY, events,
                  t0.(row := t0.row.(status := Stopped, cleanupPending := true),
                      pc := Stop(PlanStop(t0, t0.row), DroppingDirectory, Nothing)))
  {
    var s, plan := LEGACY, PlanStop(t0, t0.row);
    events := BeginPass(Calm, s, events0, t0);
    var t1 := t0.(pc := Stop(plan, Quiescing, Nothing));
    events := Chosen(Calm, s, events, t0.(pc := Dispatch(t0.row)), t1);
    var t2 := t1.(pc := Stop(plan, Removing, Nothing));
    events := OnStop(Calm, s, events, t1, Advance, t2);
    var t3 := t2.(pc := Stop(plan, Committing, Nothing));
    events := OnStop(Calm, s, events, t2, Advance, t3);
    events := OnStop(Calm, s, events, t3, Send(Acknowledged),
                     t3.(row := t3.row.(status := Stopped, cleanupPending := true),
                         pc := Stop(plan, DroppingDirectory, Nothing)));
  }

  /** A stop interrupted after its commit makes the resumed cleanup delete the only copy. */
  lemma LegacyCanBeLost() returns (s: State, events: seq<Event>)
    ensures Init(s) && s.legacy == Some([9]) && CanHappen(s, events)
    ensures forall i :: 0 <= i < |events| ==> !Deliberate(events[i]) && !events[i].Migrate?
    ensures var t := After(s, events); t.legacy.None? && t.dir == [] && t.objects == map[] && t.row.manifest.None?
  {
    s := LEGACY;
    events := AskStart(Calm, s, [], s);
    var t := s.(row := Started(s.row));
    events := AskStop(Calm, s, events, t);
    var u := t.(row := StopAsked(t.row));
    events := StopWithNothing(events, u);
    var v := u.(row := u.row.(status := Stopped, cleanupPending := true));
    events := Then(Calm, s, events, v.(pc := Stop(PlanStop(u, u.row), DroppingDirectory, Nothing)), Crash, v);
    events := StopWithNothing(events, v);
    var plan := PlanStop(v, v.row);
    events := OnStop(Calm, s, events, v.(pc := Stop(plan, DroppingDirectory, Nothing)), Advance,
                     v.(pc := Stop(plan, Unmarking, Nothing)));
    events := OnStop(Calm, s, events, v.(pc := Stop(plan, Unmarking, Nothing)), Advance,
                     v.(pc := Stop(plan, Cleaning, Nothing)));
    events := OnStop(Calm, s, events, v.(pc := Stop(plan, Cleaning, Nothing)), RemoveLegacy,
                     v.(pc := Stop(plan, Cleaning, Nothing), legacy := None));
  }

  /** Exactly when: a stop's cleanup removes the legacy file with nothing committed in its place
      if and only if it cleared the manifest or resumed without one. */
  lemma LegacyGoesUncommittedIff(s: State)
    requires Shape(s) && s.pc.Stop? && s.pc.stopping.Cleaning? && StopEnabled(s, RemoveLegacy)
    ensures s.row.manifest.None? <==>
              s.pc.persisted.ClearExisting? || (s.pc.plan.cleanupPending && !s.pc.plan.persists && s.pc.plan.runtime.manifest.None?)
  {
  }

  // ---------------------------------------------------------------- numbers after a wipe

  const FIFTH := Snapshot(LocalDisk, 1, 3, 5)
  const SIXTH := Manifest(Snapshot(LocalDisk, 2, 3, 6), None)

  /** Generation 5 is committed. */
  const NUMBERED := State(
    Row(WantStopped, Stopped, false, false, false, 1, Some(Manifest(FIFTH, None)), false),
    [], false, Absent, map[KeyOf(FIFTH) := [5]], None, {1}, None, Idle, true, [5], false, {})

  /** The row after a wipe was asked for and done. */
  const WIPED := Row(WantStopped, Stopped, false, false, false, 2, None, false)

  const AFTER_WIPE := NUMBERED.(row := WIPED, floor := Some(5), last := [], objects := map[], condemned := {KeyOf(FIFTH)})

  /** The phone has seen generation 5, and the runtime is wiped. */
  lemma WipeAfterFive() returns (events: seq<Event>)
    ensures Leads(Any, NUMBERED, events, AFTER_WIPE)
  {
    var s := NUMBERED;
    var t0 := s.(floor := Some(5));
    events := Then(Any, s, [], s, NoteFloor(5), t0);
    var asked := WIPED.(status := Wiping, wipeRequested := true, hosted := true, manifest := s.row.manifest);
    var t1 := t0.(row := asked);
    events := Then(Any, s, events, t0, RequestWipe(true), t1);
    events := BeginPass(Any, s, events, t1);
    var t2 := t1.(pc := Remove(asked, WipingContainer));
    events := Chosen(Any, s, events, t1.(pc := Dispatch(asked)), t2);
    events := WipeDone(events, t2);
  }

  lemma WipeDone(events0: seq<Event>, t2: State) returns (events: seq<Event>)
    requires Leads(Any, NUMBERED, events0, t2) && t2.pc == Remove(t2.row, WipingContainer)
    requires t2.row == WIPED.(status := Wiping, wipeRequested := true, hosted := true, manifest := NUMBERED.row.manifest)
    requires t2.container.Absent? && t2.dir == [] && !t2.marker && t2.objects == NUMBERED.objects && t2.condemned == {}
    requires t2.legacy.None?
    ensures Leads(Any, NUMBERED, events,
                  t2.(row := WIPED, last := [], objects := map[], condemned := {KeyOf(FIFTH)}, pc := Idle))
  {
    var s, row := NUMBERED, t2.row;
    var t3 := t2.(pc := Remove(row, WipingDirectory));
    events := OnRemoval(s, events0, t2, Advance, t3);
    var t4 := t3.(last := [], pc := Remove(row, WipingMark));
    events := OnRemoval(s, events, t3, Advance, t4);
    var t5 := t4.(pc := Remove(row, WipingObjects));
    events := OnRemoval(s, events, t4, Advance, t5);
    var t6 := t5.(objects := map[], condemned := {KeyOf(FIFTH)});
    assert t5.objects - {KeyOf(FIFTH)} == map[];
    events := OnRemoval(s, events, t5, DeleteObject(KeyOf(FIFTH)), t6);
    events := OnRemoval(s, events, t6, Send(Acknowledged), t6.(row := WIPED, pc := Idle));
  }

  lemma OnRemoval(s: State, events: seq<Event>, t: State, e: Event, u: State) returns (longer: seq<Event>)
    requires Leads(Any, s, events, t)
    requires t.pc.Remove? && (e.Advance? || e.DeleteObject? || e.Send?)
    requires RemoveEnabled(t, e) && RemoveStep(t, e) == u
    ensures Leads(Any, s, longer, u)
  {
    longer := Then(Any, s, events, t, e, u);
  }

  /** A new session is started, written to and stopped; its save is numbered 6. */
  lemma SaveAsSixth(events0: seq<Event>, t0: State) returns (events: seq<Event>, t: State)
    requires Leads(Any, NUMBERED, events0, t0) && t0 == AFTER_WIPE
    ensures Leads(Any, NUMBERED, events, t)
    ensures t.pc.Stop? && t.pc.stopping.Committing? && t.pc.persisted == Saved(SIXTH) && t.row.manifest.None?
    ensures t.marker && t.dir == t.last == [7]
  {
    var s := NUMBERED;
    events := AskStart(Any, s, events0, t0);
    var t1 := t0.(row := Started(t0.row));
    events := Launch(Any, s, events, t1, [7]);
    var t2 := t1.(container := Running, marker := true, dir := [7], last := [7]);
    events := AskStop(Any, s, events, t2);
    var t3 := t2.(row := StopAsked(t2.row));
    events := BeginPass(Any, s, events, t3);
    var plan := StopPlan(t3.row, true, false, true);
    var t4 := t3.(pc := Stop(plan, MarkingUnsaved, Nothing));
    events := Chosen(Any, s, events, t3.(pc := Dispatch(t3.row)), t4);
    events := SaveSixth(events, t4, plan);
    t := t4.(container := Absent, objects := t4.objects[KeyOf(SIXTH.primary) := [7]], used := {1, 2},
             pc := Stop(plan, Committing, Saved(SIXTH)));
  }

  lemma SaveSixth(events0: seq<Event>, t4: State, plan: StopPlan) returns (events: seq<Event>)
    requires Leads(Any, NUMBERED, events0, t4)
    requires t4.pc == Stop(plan, MarkingUnsaved, Nothing) && plan == StopPlan(t4.row, true, false, true)
    requires t4.row.manifest.None? && t4.floor == Some(5) && t4.container.Running? && t4.marker
    requires t4.dir == [7] && t4.autoSnapshot && t4.used == {1}
    ensures Leads(Any, NUMBERED, events,
                  t4.(container := Absent, objects := t4.objects[KeyOf(SIXTH.primary) := [7]], used := {1, 2},
                      pc := Stop(plan, Committing, Saved(SIXTH))))
  {
    var s := NUMBERED;
    var t5 := t4.(pc := Stop(plan, Quiescing, Nothing));
    events := OnStop(Any, s, events0, t4, Advance, t5);
    var t6 := t5.(container := Created, pc := Stop(plan, Persisting, Nothing));
    events := OnStop(Any, s, events, t5, Advance, t6);
    var t7 := t6.(objects := t6.objects[KeyOf(SIXTH.primary) := [7]], used := {1, 2}, pc := Stop(plan, Removing, Saved(SIXTH)));
    events := OnStop(Any, s, events, t6, Save(LocalDisk, 2), t7);
    events := OnStop(Any, s, events, t7, Advance, t7.(container := Absent, pc := Stop(plan, Committing, Saved(SIXTH))));
  }

  /** After a wipe the node saves generation 6, and the control plane, which expects 1, never commits it. */
  lemma NumberCanBeRefused() returns (s: State, events: seq<Event>)
    ensures Init(s) && s.row.manifest == Some(Manifest(FIFTH, None)) && CanHappen(s, events)
    ensures var t := After(s, events);
            && t.pc.Stop? && t.pc.stopping.Committing? && t.pc.persisted == Saved(SIXTH) && t.row.manifest.None?
            && forall e :: StopEnabled(t, e) ==> StopStep(t, e).row.manifest.None?
  {
    s := NUMBERED;
    events := WipeAfterFive();
    var t: State;
    events, t := SaveAsSixth(events, AFTER_WIPE);
  }
}
