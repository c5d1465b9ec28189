/** The two handlers of the crew service as a whole: what they publish is what they have stored. */
module HandlerOutcomes {
  import opened Wrappers
  import opened CrewHandlers
  import CA = CrewAssignment
  import CO = CrewOutcomes
  import EQ = Equipment
  import EO = EquipmentOutcomes

  /**
    Handling turnaround.started appends to both tables exactly the rows its "assigned" events speak of, in order; every
    event carries the ids of the message, and a task of it.
  */
  lemma StartedPublishesWhatItStores(
    dir: CA.Directory, pre: Tables, ta: TurnaroundId, flight: FlightId, tasks: seq<TaskInfo>, clock: seq<Instant>,
    d: Decisions, post: Tables, crewEvents: seq<CrewEvent>, equipmentEvents: seq<EquipmentEvent>)
    requires |clock| == |tasks| &&
             StartedHandled(dir, pre, ta, flight, tasks, clock, d, post, crewEvents, equipmentEvents)
    requires Valid(pre)
    ensures post.crewRows == pre.crewRows + CO.RowsAnnounced(crewEvents)
    ensures post.equipment.rows == pre.equipment.rows + EO.RowsAnnounced(equipmentEvents)
    ensures forall e :: e in crewEvents ==> e.ta == ta && e.flight == flight && e.task in tasks
    ensures forall e :: e in equipmentEvents ==>
              e.ta == ta && e.flight == flight && exists t :: t in tasks && e.task == EQ.Task(t.id, t.name)
  {
    StartedKeepsValid(dir, pre, ta, flight, tasks, clock, d, post, crewEvents, equipmentEvents);
    CO.AnnouncedRowsAreInserted(dir, pre.crewRows, ta, flight, tasks, clock, d.crew);
    EO.AnnouncedRowsAreInserted(pre.equipment, ta, flight, RawTasks(tasks), d.equipment);
    forall e | e in crewEvents ensures e.ta == ta && e.flight == flight && e.task in tasks {
      CO.ReportHas(ta, flight, tasks, d.crew, e);
    }
    forall e | e in equipmentEvents
      ensures e.ta == ta && e.flight == flight && exists t :: t in tasks && e.task == EQ.Task(t.id, t.name)
    {
      EO.ReportHas(ta, flight, RawTasks(tasks), d.equipment, e);
      var k :| 0 <= k < |tasks| && e.task == RawTasks(tasks)[k];
      assert tasks[k] in tasks;
    }
  }

  /**
    Of a message with different tasks, the handler publishes crew.unavailable for exactly those that require a
    certification and end without an assignment, and equipment.unavailable for exactly those whose name is mapped and
    that end without a unit.
  */
  lemma StartedPublishesShortages(
    dir: CA.Directory, pre: Tables, ta: TurnaroundId, flight: FlightId, tasks: seq<TaskInfo>, clock: seq<Instant>,
    d: Decisions, post: Tables, crewEvents: seq<CrewEvent>, equipmentEvents: seq<EquipmentEvent>, k: nat, kind: EQ.Kind)
    requires |clock| == |tasks| &&
             StartedHandled(dir, pre, ta, flight, tasks, clock, d, post, crewEvents, equipmentEvents)
    requires Valid(pre) && CO.DistinctIds(tasks) && k < |tasks|
    ensures CrewEvent(ta, flight, tasks[k], None) in crewEvents <==> CO.Unstaffed(post.crewRows, ta, tasks[k])
    ensures var task := EQ.Task(tasks[k].id, tasks[k].name);
            EquipmentEvent(ta, flight, task, kind, None) in equipmentEvents <==>
            EO.Unequipped(post.equipment.rows, ta, task, kind)
  {
    StartedKeepsValid(dir, pre, ta, flight, tasks, clock, d, post, crewEvents, equipmentEvents);
    CO.UnavailableMeansUnstaffed(dir, pre.crewRows, ta, flight, tasks, clock, d.crew, k);
    EO.UnavailableMeansUnequipped(pre.equipment, ta, flight, RawTasks(tasks), d.equipment, k, kind);
  }

  /**
    When a certified task of the message has two unfinished assignments already, the handler ends without publishing
    anything and without looking at equipment.
  */
  lemma TwoAssignmentsStopTheStart(
    dir: CA.Directory, pre: Tables, ta: TurnaroundId, flight: FlightId, tasks: seq<TaskInfo>, clock: seq<Instant>,
    d: Decisions, post: Tables, crewEvents: seq<CrewEvent>, equipmentEvents: seq<EquipmentEvent>, k: nat, i: nat,
    j: nat)
    requires |clock| == |tasks| &&
             StartedHandled(dir, pre, ta, flight, tasks, clock, d, post, crewEvents, equipmentEvents)
    requires k < |tasks| && CA.NeedsCrew(tasks[k]) && i < j < |pre.crewRows|
    requires CO.Unfinished(pre.crewRows[i], ta, tasks[k].id) && CO.Unfinished(pre.crewRows[j], ta, tasks[k].id)
    ensures crewEvents == [] && equipmentEvents == [] && post.equipment == pre.equipment
  {
    if CA.Raised !in d.crew {
      CA.DecisionIsLegal(dir, pre.crewRows, ta, tasks, clock, d.crew, k);
      CA.RunAppends(pre.crewRows, ta, tasks, d.crew[..k]);
      var before := CA.RunRows(pre.crewRows, ta, tasks, d.crew[..k]);
      assert CA.OpenFor(before[i], ta, tasks[k].id) && CA.OpenFor(before[j], ta, tasks[k].id);
    }
  }

  /** The unit some unreleased row of the task names. */
  ghost predicate HeldBy(rows: seq<EQ.EquipmentRow>, ta: TurnaroundId, task: TaskId, u: EQ.UnitId) {
    exists i :: 0 <= i < |rows| && EO.Unreleased(rows[i], ta, task) && rows[i].unit == u
  }

  /**
    Handling turnaround.task.completed completes the assignment of the task, releases its unit's row and makes the unit
    available; every other row and unit stays as it was.
  */
  lemma CompletedReleasesTheTask(pre: Tables, ta: TurnaroundId, task: TaskId, now: Instant)
    requires Valid(pre)
    ensures var post := CompletedHandled(pre, ta, task, now);
            && |post.crewRows| == |pre.crewRows| && |post.equipment.rows| == |pre.equipment.rows|
            && (forall i :: 0 <= i < |pre.crewRows| ==>
                  post.crewRows[i] == if CO.Unfinished(pre.crewRows[i], ta, task)
                                      then pre.crewRows[i].(status := CA.Completed) else pre.crewRows[i])
            && (forall i :: 0 <= i < |pre.equipment.rows| ==>
                  post.equipment.rows[i] == if EO.Unreleased(pre.equipment.rows[i], ta, task)
                                            then pre.equipment.rows[i].(releasedAt := Some(now))
                                            else pre.equipment.rows[i])
            && post.equipment.units.Keys == pre.equipment.units.Keys
            && (forall u :: u in pre.equipment.units ==>
                  post.equipment.units[u] == if HeldBy(pre.equipment.rows, ta, task, u)
                                             then pre.equipment.units[u].(status := EQ.Available)
                                             else pre.equipment.units[u])
  {
    assert !CA.HasTwoOpen(pre.crewRows, ta, task);
    CompletedReleasesTheUnit(pre.equipment, ta, task, now);
  }

  lemma CompletedReleasesTheUnit(db: EQ.Db, ta: TurnaroundId, task: TaskId, now: Instant)
    requires EQ.Valid(db)
    ensures var after := EQ.Complete(db, ta, task, now);
            && |after.rows| == |db.rows| && after.units.Keys == db.units.Keys
            && (forall i :: 0 <= i < |db.rows| ==>
                  after.rows[i] == if EO.Unreleased(db.rows[i], ta, task)
                                   then db.rows[i].(releasedAt := Some(now)) else db.rows[i])
            && (forall u :: u in db.units ==>
                  after.units[u] == if HeldBy(db.rows, ta, task, u)
                                    then db.units[u].(status := EQ.Available) else db.units[u])
  {
    assert !EQ.HasTwoOpen(db.rows, ta, task);
    if i :| 0 <= i < |db.rows| && EQ.OpenFor(db.rows[i], ta, task) {
      EQ.CompletionReleasesTheRowFound(db, ta, task, now, i);
      forall j | 0 <= j < |db.rows| && EQ.OpenFor(db.rows[j], ta, task) ensures j == i {
        assert !EQ.HasTwoOpen(db.rows, ta, task);
      }
    }
  }

  /** With two unfinished assignments of the task the handler fails before it changes anything. */
  lemma TwoAssignmentsStopTheHandler(pre: Tables, ta: TurnaroundId, task: TaskId, now: Instant, i: nat, j: nat)
    requires i < j < |pre.crewRows|
    requires CO.Unfinished(pre.crewRows[i], ta, task) && CO.Unfinished(pre.crewRows[j], ta, task)
    ensures CompletedHandled(pre, ta, task, now) == pre
  {
    assert CA.OpenFor(pre.crewRows[i], ta, task) && CA.OpenFor(pre.crewRows[j], ta, task);
  }
}
