/**
  The turnaround document, its atomic writes, and the steps of `updateTask` and `updateMilestones`:
  each call is a sequence of separate database operations between which other calls may run.
*/
module Turnaround {
  import opened Wrappers
  import opened Rounding
  import CA = CrewAssignment
  import TT = TaskTemplates

  type TaskId = CA.TaskId
  type TurnaroundId = CA.TurnaroundId
  type FlightId = CA.FlightId
  type Instant = CA.Instant

  datatype TaskStatus = Pending | InProgress | Completed | Blocked | Skipped
  datatype Task = Task(
    id: TaskId, name: string, status: TaskStatus, minutes: int, certification: Option<string>,
    equipment: Option<string>, order: int,
    crew: Option<CA.CrewId>, unit: Option<nat>, startedAt: Option<Instant>, completedAt: Option<Instant>,
    notes: Option<string>)

  datatype TurnaroundStatus =
    | TurnaroundPending | TurnaroundInProgress | TurnaroundCompleted | TurnaroundDelayed | TurnaroundCancelled
  datatype Milestones = Milestones(
    eibt: Option<Instant>, aibt: Option<Instant>, tobt: Option<Instant>, tsat: Option<Instant>,
    ardt: Option<Instant>, aobt: Option<Instant>, atot: Option<Instant>)

  datatype Doc = Doc(
    flight: FlightId, status: TurnaroundStatus, tasks: seq<Task>, startedAt: Option<Instant>,
    completedAt: Option<Instant>, progress: int, milestones: Milestones)

  /** The request body of a task update. */
  datatype Dto = Dto(status: Option<TaskStatus>, notes: Option<string>, crew: Option<CA.CrewId>, unit: Option<nat>)

  datatype Event =
    | Started(tasks: seq<CA.TaskInfo>)
    | TaskDone(task: TaskId)
    | AllTasksDone
    | MilestonesChanged

  // ---------- Progress ----------

  predicate Done(t: Task) {
    t.status == Completed || t.status == Skipped
  }

  function CountDone(tasks: seq<Task>): (c: nat)
    ensures c <= |tasks|
  {
    if tasks == [] then 0 else (if Done(tasks[0]) then 1 else 0) + CountDone(tasks[1..])
  }

  ghost predicate AllDone(tasks: seq<Task>) {
    tasks != [] && forall i :: 0 <= i < |tasks| ==> Done(tasks[i])
  }

  lemma {:induction false} CountDoneIsAll(tasks: seq<Task>)
    ensures CountDone(tasks) == |tasks| <==> forall i :: 0 <= i < |tasks| ==> Done(tasks[i])
  {
    if tasks != [] {
      CountDoneIsAll(tasks[1..]);
      assert forall i :: 1 <= i < |tasks| ==> tasks[i] == tasks[1..][i - 1];
    }
  }

  lemma CountDoneOfOne(t: Task)
    ensures CountDone([t]) == if t.status == Completed || t.status == Skipped then 1 else 0
  {
    assert [t][1..] == [];
  }

  lemma {:induction false} CountDoneAdds(front: seq<Task>, back: seq<Task>)
    ensures CountDone(front + back) == CountDone(front) + CountDone(back)
  {
    if front == [] {
      assert front + back == back;
    } else {
      CountDoneAdds(front[1..], back);
      assert (front + back)[1..] == front[1..] + back;
    }
  }

  /** The positions of the tasks that are completed or skipped. */
  function DoneAt(tasks: seq<Task>): set<nat> {
    set i: nat | i < |tasks| && (tasks[i].status == Completed || tasks[i].status == Skipped)
  }

  lemma DoneAtLonger(front: seq<Task>, last: Task)
    ensures |DoneAt(front + [last])| ==
            |DoneAt(front)| + if last.status == Completed || last.status == Skipped then 1 else 0
  {
    var n := |front|;
    assert (front + [last])[n] == last;
    if last.status == Completed || last.status == Skipped {
      assert DoneAt(front + [last]) == DoneAt(front) + {n};
    } else {
      assert DoneAt(front + [last]) == DoneAt(front);
    }
  }

  /** The count is the number of tasks that are completed or skipped, wherever they stand in the list. */
  lemma {:induction false} CountDoneMeaning(tasks: seq<Task>)
    ensures CountDone(tasks) == |DoneAt(tasks)|
  {
    if tasks == [] {
      assert DoneAt(tasks) == {};
    } else {
      var n := |tasks| - 1;
      CountDoneMeaning(tasks[..n]);
      CountDoneAdds(tasks[..n], [tasks[n]]);
      CountDoneOfOne(tasks[n]);
      DoneAtLonger(tasks[..n], tasks[n]);
      assert tasks == tasks[..n] + [tasks[n]];
    }
  }

  /** The rounded share of completed and skipped tasks; a document whose task was just written is never empty. */
  function ProgressOf(tasks: seq<Task>): int {
    if tasks == [] then 0 else Percent(CountDone(tasks), |tasks|)
  }

  /** The stored percentage is the share of completed and skipped tasks, rounded to the nearest integer. */
  lemma ProgressMeaning(tasks: seq<Task>)
    requires tasks != []
    ensures var done, p := |DoneAt(tasks)|, ProgressOf(tasks);
            2 * |tasks| * p <= 200 * done + |tasks| < 2 * |tasks| * (p + 1)
  {
    CountDoneMeaning(tasks);
    PercentMeaning(CountDone(tasks), |tasks|);
  }

  // ---------- The atomic document writes ----------

  datatype Updates = Updates(
    status: Option<TaskStatus>, startedAt: Option<Instant>, completedAt: Option<Instant>,
    notes: Option<string>, crew: Option<CA.CrewId>, unit: Option<nat>)

  function ApplyUpdates(t: Task, u: Updates): Task {
    t.(status := if u.status.Some? then u.status.value else t.status,
       startedAt := Override(t.startedAt, u.startedAt), completedAt := Override(t.completedAt, u.completedAt),
       notes := Override(t.notes, u.notes), crew := Override(t.crew, u.crew), unit := Override(t.unit, u.unit))
  }

  /** Index of the first task with the id, or the length. */
  function FindTask(tasks: seq<Task>, id: TaskId): (k: nat)
    ensures k <= |tasks|
    ensures k < |tasks| ==> tasks[k].id == id
    ensures forall i :: 0 <= i < k ==> tasks[i].id != id
  {
    if tasks == [] || tasks[0].id == id then 0 else 1 + FindTask(tasks[1..], id)
  }

  /** The positional update of one embedded task. */
  function WriteTask(doc: Doc, id: TaskId, u: Updates): Doc {
    var k := FindTask(doc.tasks, id);
    if k == |doc.tasks| then doc else doc.(tasks := doc.tasks[k := ApplyUpdates(doc.tasks[k], u)])
  }

  function WriteStatus(doc: Doc, status: TurnaroundStatus, progress: int, completedAt: Option<Instant>): Doc {
    doc.(status := status, progress := progress, completedAt := Override(doc.completedAt, completedAt))
  }

  function Merge(m: Milestones, u: Milestones): Milestones {
    Milestones(Override(m.eibt, u.eibt), Override(m.aibt, u.aibt), Override(m.tobt, u.tobt), Override(m.tsat, u.tsat),
               Override(m.ardt, u.ardt), Override(m.aobt, u.aobt), Override(m.atot, u.atot))
  }

  function WriteMilestones(doc: Doc, u: Milestones): Doc {
    doc.(milestones := Merge(doc.milestones, u))
  }

  const NO_MILESTONES := Milestones(None, None, None, None, None, None, None)

  // ---------- Building the update, and validating milestones ----------

  function UpdatesFor(seen: Task, dto: Dto, now: Instant): Updates {
    Updates(dto.status,
            if dto.status == Some(InProgress) && seen.startedAt == None then Some(now) else None,
            if dto.status == Some(Completed) then Some(now) else None,
            dto.notes, dto.crew, dto.unit)
  }

  predicate NotBefore(later: Option<Instant>, earlier: Option<Instant>) {
    later.Some? && earlier.Some? ==> later.value >= earlier.value
  }

  /** The two checks, on the new value of each milestone where there is one. */
  predicate Validates(existing: Milestones, u: Milestones) {
    && NotBefore(Override(existing.tsat, u.tsat), Override(existing.tobt, u.tobt))
    && NotBefore(Override(existing.aobt, u.aobt), Override(existing.tsat, u.tsat))
  }

  /** TOBT <= TSAT <= AOBT, as far as they are set. */
  predicate Ordered(m: Milestones) {
    NotBefore(m.tsat, m.tobt) && NotBefore(m.aobt, m.tsat)
  }

  /**
    The checks let through exactly the writes that leave the stored milestones in order, if made on what is stored at
    the write.
  */
  lemma ValidationIsExact(doc: Doc, u: Milestones)
    ensures Ordered(WriteMilestones(doc, u).milestones) <==> Validates(doc.milestones, u)
  {
  }

  // ---------- The steps of a call ----------

  datatype Failure = NotFound | OutOfOrder

  datatype Call =
    | TaskCalled(task: TaskId, dto: Dto)                       // before findById
    | Located(task: TaskId, dto: Dto, updates: Updates)        // before the task write
    | Wrote(task: TaskId, dto: Dto, image: Doc)                // holds the post-image; before the progress write
    | Progressed(task: TaskId, dto: Dto, image: Doc)           // before the task event
    | Announced(image: Doc)                                    // before the completion test and the ARDT write
    | Stamped(ardt: Instant)                                   // before the COMPLETED write
    | Closing                                                  // before the turnaround.completed event
    | MilestonesCalled(changes: Milestones)                    // before findById
    | Checked(changes: Milestones)                             // before the milestone write
    | Changed                                                  // before the milestone event
    | Returned
    | Failed(reason: Failure)

  datatype StepResult = StepResult(doc: Doc, call: Call, event: Option<Event>)

  ghost function Advance(doc: Doc, call: Call, now: Instant): StepResult {
    match call
    case TaskCalled(task, dto) =>
      var k := FindTask(doc.tasks, task);
      if k == |doc.tasks| then StepResult(doc, Failed(NotFound), None)
      else StepResult(doc, Located(task, dto, UpdatesFor(doc.tasks[k], dto, now)), None)
    case Located(task, dto, updates) =>
      if FindTask(doc.tasks, task) == |doc.tasks| then StepResult(doc, Failed(NotFound), None)
      else
        var doc' := WriteTask(doc, task, updates);
        StepResult(doc', Wrote(task, dto, doc'), None)
    case Wrote(task, dto, image) =>
      StepResult(WriteStatus(doc, image.status, ProgressOf(image.tasks), None), Progressed(task, dto, image), None)
    case Progressed(task, dto, image) =>
      StepResult(doc, Announced(image), if dto.status == Some(Completed) then Some(TaskDone(task)) else None)
    case Announced(image) =>
      if AllDone(image.tasks)
      then StepResult(WriteMilestones(doc, NO_MILESTONES.(ardt := Some(now))), Stamped(now), None)
      else StepResult(doc, Returned, None)
    case Stamped(ardt) =>
      StepResult(WriteStatus(doc, TurnaroundCompleted, 100, Some(ardt)), Closing, None)
    case Closing =>
      StepResult(doc, Returned, Some(AllTasksDone))
    case MilestonesCalled(changes) =>
      StepResult(doc, if Validates(doc.milestones, changes) then Checked(changes) else Failed(OutOfOrder), None)
    case Checked(changes) =>
      StepResult(WriteMilestones(doc, changes), Changed, None)
    case Changed =>
      StepResult(doc, Returned, Some(MilestonesChanged))
    case Returned => StepResult(doc, call, None)
    case Failed(_) => StepResult(doc, call, None)
  }

  predicate Finished(call: Call) {
    call.Returned? || call.Failed?
  }

  function StepsLeft(call: Call): nat {
    match call
    case TaskCalled(_, _) => 7
    case Located(_, _, _) => 6
    case Wrote(_, _, _) => 5
    case Progressed(_, _, _) => 4
    case Announced(_) => 3
    case Stamped(_) => 2
    case Closing => 1
    case MilestonesCalled(_) => 3
    case Checked(_) => 2
    case Changed => 1
    case Returned => 0
    case Failed(_) => 0
  }

  // ---------- Calls one at a time ----------

  datatype Outcome = Outcome(doc: Doc, call: Call, events: seq<Event>)

  function Published(event: Option<Event>): seq<Event> {
    if event.Some? then [event.value] else []
  }

  /** A call run to its end without interruption; it reads the clock once at the start and once for ARDT. */
  ghost function Serial(doc: Doc, call: Call, now: Instant, ardt: Instant): Outcome
    decreases StepsLeft(call)
  {
    if Finished(call) then Outcome(doc, call, [])
    else
      var step := Advance(doc, call, if call.Announced? then ardt else now);
      var rest := Serial(step.doc, step.call, now, ardt);
      Outcome(rest.doc, rest.call, Published(step.event) + rest.events)
  }

  /** What a finished call leaves behind when calls do not overlap. */
  ghost predicate Consistent(doc: Doc) {
    && doc.tasks != []
    && doc.progress == ProgressOf(doc.tasks)
    && (AllDone(doc.tasks) ==> doc.status == TurnaroundCompleted && doc.completedAt.Some? && doc.milestones.ardt.Some?)
    && Ordered(doc.milestones)
  }

  /** The whole effect of a task update that nothing interrupts. */
  ghost function TaskUpdated(doc: Doc, task: TaskId, dto: Dto, now: Instant, ardt: Instant): Outcome {
    var k := FindTask(doc.tasks, task);
    if k == |doc.tasks| then Outcome(doc, Failed(NotFound), [])
    else
      var written := WriteTask(doc, task, UpdatesFor(doc.tasks[k], dto, now));
      var progressed := WriteStatus(written, doc.status, ProgressOf(written.tasks), None);
      var announced := if dto.status == Some(Completed) then [TaskDone(task)] else [];
      if AllDone(written.tasks)
      then Outcome(Completing(progressed, ardt), Returned, announced + [AllTasksDone])
      else Outcome(progressed, Returned, announced)
  }

  /** ARDT is stamped, then the turnaround is stored as completed. */
  function Completing(doc: Doc, ardt: Instant): Doc {
    WriteStatus(WriteMilestones(doc, NO_MILESTONES.(ardt := Some(ardt))), TurnaroundCompleted, 100, Some(ardt))
  }

  /** The steps of an uninterrupted task update add up to that effect. */
  lemma SerialTaskUpdate(doc: Doc, task: TaskId, dto: Dto, now: Instant, ardt: Instant)
    ensures Serial(doc, TaskCalled(task, dto), now, ardt) == TaskUpdated(doc, task, dto, now, ardt)
  {
    var k := FindTask(doc.tasks, task);
    if k < |doc.tasks| {
      var written := WriteTask(doc, task, UpdatesFor(doc.tasks[k], dto, now));
      var located := Located(task, dto, UpdatesFor(doc.tasks[k], dto, now));
      var progressed := WriteStatus(written, doc.status, ProgressOf(written.tasks), None);
      assert Serial(doc, TaskCalled(task, dto), now, ardt) == Serial(doc, located, now, ardt);
      assert Serial(doc, located, now, ardt) == Serial(written, Wrote(task, dto, written), now, ardt);
      assert Serial(written, Wrote(task, dto, written), now, ardt) ==
             Serial(progressed, Progressed(task, dto, written), now, ardt);
      SerialAnnounced(progressed, written, now, ardt);
    }
  }

  lemma SerialAnnounced(doc: Doc, image: Doc, now: Instant, ardt: Instant)
    ensures Serial(doc, Announced(image), now, ardt) ==
            if AllDone(image.tasks)
            then Outcome(Completing(doc, ardt), Returned, [AllTasksDone])
            else Outcome(doc, Returned, [])
  {
    if AllDone(image.tasks) {
      var stamped := WriteMilestones(doc, NO_MILESTONES.(ardt := Some(ardt)));
      var closed := WriteStatus(stamped, TurnaroundCompleted, 100, Some(ardt));
      assert Serial(closed, Closing, now, ardt) == Outcome(closed, Returned, [AllTasksDone]);
      assert Serial(stamped, Stamped(ardt), now, ardt) == Outcome(closed, Returned, [AllTasksDone]);
    }
  }

  lemma SerialMilestoneUpdate(doc: Doc, changes: Milestones, now: Instant, ardt: Instant)
    ensures Serial(doc, MilestonesCalled(changes), now, ardt) ==
            if Validates(doc.milestones, changes)
            then Outcome(WriteMilestones(doc, changes), Returned, [MilestonesChanged])
            else Outcome(doc, Failed(OutOfOrder), [])
  {
    if Validates(doc.milestones, changes) {
      SerialChecked(doc, changes, now, ardt);
    }
  }

  lemma SerialChecked(doc: Doc, changes: Milestones, now: Instant, ardt: Instant)
    ensures Serial(doc, Checked(changes), now, ardt) ==
            Outcome(WriteMilestones(doc, changes), Returned, [MilestonesChanged])
  {
    var written := WriteMilestones(doc, changes);
    assert Advance(written, Changed, now) == StepResult(written, Returned, Some(MilestonesChanged));
    assert Serial(written, Changed, now, ardt) == Outcome(written, Returned, [MilestonesChanged]);
  }

  lemma UpdatedIsConsistent(doc: Doc, task: TaskId, dto: Dto, now: Instant, ardt: Instant)
    requires Consistent(doc)
    ensures Consistent(TaskUpdated(doc, task, dto, now, ardt).doc)
  {
    var k := FindTask(doc.tasks, task);
    if k < |doc.tasks| {
      var written := WriteTask(doc, task, UpdatesFor(doc.tasks[k], dto, now));
      CountDoneIsAll(written.tasks);
      PercentProperties(0, 0, |written.tasks|);
    }
  }

  /**
    Every uninterrupted call keeps the document consistent, and never takes it out of COMPLETED, even when a task is
    reopened.
  */
  lemma SerialLifecycle(doc: Doc, call: Call, now: Instant, ardt: Instant)
    requires call.TaskCalled? || call.MilestonesCalled?
    requires Consistent(doc)
    ensures Consistent(Serial(doc, call, now, ardt).doc)
    ensures doc.status == TurnaroundCompleted ==> Serial(doc, call, now, ardt).doc.status == TurnaroundCompleted
    ensures Serial(doc, call, now, ardt).doc.status in {doc.status, TurnaroundCompleted}
    ensures call.TaskCalled? ==>
              (AllTasksDone in Serial(doc, call, now, ardt).events <==>
               AllDone(Serial(doc, call, now, ardt).doc.tasks) && !Serial(doc, call, now, ardt).call.Failed?)
  {
    match call
    case MilestonesCalled(changes) =>
      SerialMilestoneUpdate(doc, changes, now, ardt);
      ValidationIsExact(doc, changes);
    case TaskCalled(task, dto) =>
      SerialTaskUpdate(doc, task, dto, now, ardt);
      UpdatedIsConsistent(doc, task, dto, now, ardt);
  }

  // ---------- Creation ----------

  function NewTasks(templates: seq<TT.Template>, ids: seq<TaskId>): seq<Task>
    requires |ids| == |templates|
  {
    seq(|templates|, i requires 0 <= i < |templates| =>
      Task(ids[i], templates[i].name, Pending, templates[i].minutes, templates[i].certification,
           templates[i].equipment, templates[i].order,
           None, None, None, None, None))
  }

  /** The task list for an aircraft under the given weather; None where the lookup yields no list and `map` throws. */
  function Plan(aircraftType: string, deIcing: bool, temperature: Option<real>,
                factor: real): (plan: Option<seq<TT.Template>>)
    ensures plan.Some? ==> plan.value != []
  {
    var templates := TT.TasksForAircraft(aircraftType);
    if templates == None then None
    else
      TT.LookupIsScaledTable(aircraftType);
      TT.TemplatesAreWellFormed(aircraftType);
      var scaled := TT.ScaleTasks(templates.value, factor);
      Some(if deIcing then TT.InjectDeIcing(scaled, temperature) else scaled)
  }

  function NewDoc(flight: FlightId, tasks: seq<Task>, now: Instant): Doc {
    Doc(flight, TurnaroundInProgress, tasks, Some(now), None, 0, NO_MILESTONES.(aibt := Some(now)))
  }

  function TaskInfos(tasks: seq<Task>): seq<CA.TaskInfo> {
    seq(|tasks|,
        i requires 0 <= i < |tasks| => CA.TaskInfo(tasks[i].id, tasks[i].name, tasks[i].order, tasks[i].certification))
  }

  lemma {:induction false} NoneDone(tasks: seq<Task>)
    requires forall i :: 0 <= i < |tasks| ==> !Done(tasks[i])
    ensures CountDone(tasks) == 0
  {
    if tasks != [] {
      NoneDone(tasks[1..]);
    }
  }

  /** A new turnaround is consistent, with nothing done. */
  lemma NewDocIsConsistent(flight: FlightId, templates: seq<TT.Template>, ids: seq<TaskId>, now: Instant)
    requires templates != [] && |ids| == |templates|
    ensures Consistent(NewDoc(flight, NewTasks(templates, ids), now))
    ensures !AllDone(NewTasks(templates, ids))
  {
    var tasks := NewTasks(templates, ids);
    NoneDone(tasks);
    PercentProperties(0, 0, |tasks|);
    assert !Done(tasks[0]);
  }

  lemma PlanOfList(aircraftType: string, deIcing: bool, temperature: Option<real>, factor: real,
                   templates: seq<TT.Template>)
    requires TT.TasksForAircraft(aircraftType) == Some(templates) && TT.WellFormed(templates)
    ensures Plan(aircraftType, deIcing, temperature, factor) == Some(Planned(templates, deIcing, temperature, factor))
  {
    TT.ScalingKeepsTasks(templates, factor);
    TT.InjectionIntoWellFormed(TT.ScaleTasks(templates, factor), temperature);
  }

  /** Weather changes only durations and, when icing, adds de-icing right before the final task. */
  function Planned(templates: seq<TT.Template>, deIcing: bool, temperature: Option<real>,
                   factor: real): seq<TT.Template>
    requires templates != []
  {
    var scaled := TT.ScaleTasks(templates, factor);
    var n := |scaled| - 1;
    if deIcing then TT.WithDeIcing(scaled, TT.DeIcingTask(n, temperature), n) else scaled
  }

  lemma PlannedIsNumbered(templates: seq<TT.Template>, deIcing: bool, temperature: Option<real>, factor: real)
    requires templates != [] && TT.Numbered(templates)
    ensures var plan := Planned(templates, deIcing, temperature, factor);
            plan != [] && TT.Numbered(plan) && plan[|plan| - 1].name == templates[|templates| - 1].name
  {
    var scaled := TT.ScaleTasks(templates, factor);
    if deIcing {
      TT.IcingKeepsLast(scaled, TT.DeIcingTask(|scaled| - 1, temperature));
    }
  }

  /**
    A plan exists exactly when the aircraft type is not an inherited name; it is numbered 1, 2, ..., with boarding
    last.
  */
  lemma PlanIsNumbered(aircraftType: string, deIcing: bool, temperature: Option<real>, factor: real)
    ensures Plan(aircraftType, deIcing, temperature, factor).Some? <==> !TT.Inherited(aircraftType)
    ensures Plan(aircraftType, deIcing, temperature, factor).Some? ==>
              var plan := Plan(aircraftType, deIcing, temperature, factor).value;
              && TT.Numbered(plan)
              && plan[|plan| - 1].name == "boarding"
              && plan == Planned(TT.TasksForAircraft(aircraftType).value, deIcing, temperature, factor)
  {
    TT.LookupIsScaledTable(aircraftType);
    if !TT.Inherited(aircraftType) {
      TT.TemplatesAreWellFormed(aircraftType);
      var templates := TT.TasksForAircraft(aircraftType).value;
      PlanOfList(aircraftType, deIcing, temperature, factor, templates);
      TT.LastIsBoarding(templates);
      PlannedIsNumbered(templates, deIcing, temperature, factor);
    }
  }

  // ---------- The life of a turnaround whose calls do not overlap ----------

  /** A call, with its two clock readings. */
  datatype Request = Request(call: Call, now: Instant, ardt: Instant)

  ghost predicate Requests(requests: seq<Request>) {
    forall k :: 0 <= k < |requests| ==> requests[k].call.TaskCalled? || requests[k].call.MilestonesCalled?
  }

  ghost function AfterCalls(doc: Doc, requests: seq<Request>): Doc {
    if requests == [] then doc
    else
      var last := requests[|requests| - 1];
      Serial(AfterCalls(doc, requests[..|requests| - 1]), last.call, last.now, last.ardt).doc
  }

  lemma OneMoreCall(doc: Doc, requests: seq<Request>)
    requires requests != [] && Requests(requests)
    requires Consistent(AfterCalls(doc, requests[..|requests| - 1]))
    ensures Consistent(AfterCalls(doc, requests))
    ensures AfterCalls(doc, requests).status in {AfterCalls(doc, requests[..|requests| - 1]).status,
                                                 TurnaroundCompleted}
  {
    var n := |requests| - 1;
    SerialLifecycle(AfterCalls(doc, requests[..n]), requests[n].call, requests[n].now, requests[n].ardt);
  }

  /** Any calls run one at a time keep a consistent turnaround consistent, and once COMPLETED it stays so. */
  lemma {:induction false} CallsKeepConsistent(doc: Doc, requests: seq<Request>, k: nat)
    requires Consistent(doc) && Requests(requests) && k <= |requests|
    ensures Consistent(AfterCalls(doc, requests))
    ensures AfterCalls(doc, requests).status in {AfterCalls(doc, requests[..k]).status, TurnaroundCompleted}
    decreases |requests|
  {
    if k == |requests| {
      assert requests[..k] == requests;
    }
    if requests != [] {
      var front := requests[..|requests| - 1];
      if k <= |front| {
        assert front[..k] == requests[..k];
      }
      CallsKeepConsistent(doc, front, if k <= |front| then k else |front|);
      OneMoreCall(doc, requests);
    }
  }

  /** From its creation on a turnaround is consistent, in progress until it is COMPLETED, and COMPLETED from then on. */
  lemma LifecycleAlways(flight: FlightId, templates: seq<TT.Template>, ids: seq<TaskId>, created: Instant,
                        requests: seq<Request>, k: nat)
    requires templates != [] && |ids| == |templates| && Requests(requests) && k <= |requests|
    ensures var doc := NewDoc(flight, NewTasks(templates, ids), created);
            && Consistent(AfterCalls(doc, requests))
            && AfterCalls(doc, requests).status in {TurnaroundInProgress, TurnaroundCompleted}
            && AfterCalls(doc, requests).status in {AfterCalls(doc, requests[..k]).status, TurnaroundCompleted}
  {
    var doc := NewDoc(flight, NewTasks(templates, ids), created);
    NewDocIsConsistent(flight, templates, ids, created);
    CallsKeepConsistent(doc, requests, k);
    CallsKeepConsistent(doc, requests, 0);
    assert requests[..0] == [];
  }
}
