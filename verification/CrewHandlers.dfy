/** The two message handlers of the crew service, as relations between the tables before and after. */
module CrewHandlers {
  import opened Wrappers
  import CrewAssignment
  import Equipment

  type TurnaroundId = CrewAssignment.TurnaroundId
  type FlightId = CrewAssignment.FlightId
  type TaskId = CrewAssignment.TaskId
  type Instant = CrewAssignment.Instant
  type TaskInfo = CrewAssignment.TaskInfo

  datatype Tables = Tables(crewRows: seq<CrewAssignment.Row>, equipment: Equipment.Db)

  /** One element of the result lists, and the event published for it; None means "unavailable". */
  datatype CrewEvent = CrewEvent(ta: TurnaroundId, flight: FlightId, task: TaskInfo,
                                 member: Option<CrewAssignment.Member>)
  datatype EquipmentEvent = EquipmentEvent(ta: TurnaroundId, flight: FlightId, task: Equipment.Task,
                                           kind: Equipment.Kind, unit: Option<Equipment.UnitId>)

  datatype Decisions = Decisions(crew: seq<CrewAssignment.Outcome>, equipment: seq<Equipment.Outcome>)

  function RawTask(t: TaskInfo): Equipment.Task {
    Equipment.Task(t.id, t.name)
  }

  function RawTasks(tasks: seq<TaskInfo>): seq<Equipment.Task> {
    seq(|tasks|, i requires 0 <= i < |tasks| => RawTask(tasks[i]))
  }

  /** What a decision adds to the list `auto_assign_crew` returns: an element for an assignment or a failed search. */
  function CrewElement(ta: TurnaroundId, flight: FlightId, task: TaskInfo,
                       o: CrewAssignment.Outcome): seq<CrewEvent>
  {
    match o
    case AssignedTo(m) => [CrewEvent(ta, flight, task, Some(m))]
    case Unavailable => [CrewEvent(ta, flight, task, None)]
    case _ => []
  }

  function CrewReport(ta: TurnaroundId, flight: FlightId, tasks: seq<TaskInfo>,
                      outs: seq<CrewAssignment.Outcome>): seq<CrewEvent>
    requires |outs| <= |tasks|
  {
    if outs == [] then []
    else
      var n := |outs| - 1;
      CrewReport(ta, flight, tasks, outs[..n]) + CrewElement(ta, flight, tasks[n], outs[n])
  }

  function EquipmentElement(ta: TurnaroundId, flight: FlightId, task: Equipment.Task,
                            o: Equipment.Outcome): seq<EquipmentEvent>
  {
    var kind := Equipment.RequiredKind(task.name);
    if kind == None then []
    else match o
      case Equipped(u) => [EquipmentEvent(ta, flight, task, kind.value, Some(u))]
      case NoUnit => [EquipmentEvent(ta, flight, task, kind.value, None)]
      case _ => []
  }

  function EquipmentReport(ta: TurnaroundId, flight: FlightId, tasks: seq<Equipment.Task>,
                           outs: seq<Equipment.Outcome>): seq<EquipmentEvent>
    requires |outs| <= |tasks|
  {
    if outs == [] then []
    else
      var n := |outs| - 1;
      EquipmentReport(ta, flight, tasks, outs[..n]) + EquipmentElement(ta, flight, tasks[n], outs[n])
  }

  lemma Regroup<T>(a: seq<T>, b: seq<T>, c: seq<T>)
    ensures (a + b) + c == a + (b + c)
  {
  }

  /**
    `_handle_turnaround_started`: the crew loop, its events, the equipment loop, its events.
    An exception in a loop ends the handler there, with what was committed and published so far.
  */
  ghost predicate StartedHandled(dir: CrewAssignment.Directory, pre: Tables, ta: TurnaroundId, flight: FlightId,
                                 tasks: seq<TaskInfo>, clock: seq<Instant>,
                                 d: Decisions, post: Tables, crewEvents: seq<CrewEvent>,
                                 equipmentEvents: seq<EquipmentEvent>)
    requires |clock| == |tasks|
  {
    && CrewAssignment.LegalRun(dir, pre.crewRows, ta, tasks, clock, d.crew) && CrewAssignment.Finished(tasks, d.crew)
    && post.crewRows == CrewAssignment.RunRows(pre.crewRows, ta, tasks, d.crew)
    && if CrewAssignment.Raised in d.crew
       then post.equipment == pre.equipment && crewEvents == [] && equipmentEvents == []
       else
         && crewEvents == CrewReport(ta, flight, tasks, d.crew)
         && Equipment.LegalRun(pre.equipment, ta, RawTasks(tasks), d.equipment) &&
            Equipment.Finished(RawTasks(tasks), d.equipment)
         && post.equipment == Equipment.RunDb(pre.equipment, ta, RawTasks(tasks), d.equipment)
         && equipmentEvents ==
            if Equipment.Raised in d.equipment then [] else EquipmentReport(ta, flight, RawTasks(tasks), d.equipment)
  }

  /**
    `_handle_task_completed`: free the crew member, then release the unit; an exception in the first half skips the
    second.
  */
  ghost function CompletedHandled(pre: Tables, ta: TurnaroundId, task: TaskId, now: Instant): Tables {
    if CrewAssignment.HasTwoOpen(pre.crewRows, ta, task) then pre
    else Tables(CrewAssignment.Freed(pre.crewRows, ta, task), Equipment.Complete(pre.equipment, ta, task, now))
  }

  ghost predicate Valid(t: Tables) {
    CrewAssignment.Exclusive(t.crewRows) && Equipment.Valid(t.equipment)
  }

  /** From valid tables the started handler never raises, and leaves valid tables. */
  lemma StartedKeepsValid(dir: CrewAssignment.Directory, pre: Tables, ta: TurnaroundId, flight: FlightId,
                          tasks: seq<TaskInfo>, clock: seq<Instant>,
                          d: Decisions, post: Tables, crewEvents: seq<CrewEvent>, equipmentEvents: seq<EquipmentEvent>)
    requires |clock| == |tasks| &&
             StartedHandled(dir, pre, ta, flight, tasks, clock, d, post, crewEvents, equipmentEvents)
    requires Valid(pre)
    ensures Valid(post)
    ensures CrewAssignment.Raised !in d.crew && |d.crew| == |tasks|
    ensures Equipment.Raised !in d.equipment && |d.equipment| == |tasks|
  {
    CrewAssignment.RunKeepsExclusive(dir, pre.crewRows, ta, tasks, clock, d.crew);
    Equipment.RunKeepsValid(pre.equipment, ta, RawTasks(tasks), d.equipment);
  }

  /** From valid tables the completed handler leaves valid tables in which the task holds nobody and nothing. */
  lemma CompletedKeepsValid(pre: Tables, ta: TurnaroundId, task: TaskId, now: Instant)
    requires Valid(pre)
    ensures Valid(CompletedHandled(pre, ta, task, now))
    ensures !CrewAssignment.HasOpen(CompletedHandled(pre, ta, task, now).crewRows, ta, task)
    ensures !Equipment.HasOpen(CompletedHandled(pre, ta, task, now).equipment.rows, ta, task)
  {
    var post := CompletedHandled(pre, ta, task, now);
    assert !CrewAssignment.HasTwoOpen(pre.crewRows, ta, task);
    CrewAssignment.StepKeepsExclusive(pre.crewRows, CrewAssignment.Free(ta, task), post.crewRows);
    CrewAssignment.FreeClosesExactlyTheTask(pre.crewRows, ta, task);
    Equipment.StepKeepsValid(pre.equipment, Equipment.TaskCompleted(ta, task, now), post.equipment);
    var rows := pre.equipment.rows;
    if i :| 0 <= i < |rows| && Equipment.OpenFor(rows[i], ta, task) {
      Equipment.CompletionReleasesTheRowFound(pre.equipment, ta, task, now, i);
      assert forall j :: 0 <= j < |rows| && Equipment.OpenFor(rows[j], ta, task) ==> j == i by {
        assert !Equipment.HasTwoOpen(rows, ta, task);
      }
    }
  }
}
