/**
  What the turnaround service stores and publishes, field by field: the outcome of each uninterrupted call in terms of
  the document and the request alone.
*/
module TurnaroundOutcomes {
  import opened Wrappers
  import opened Rounding
  import opened Turnaround
  import CA = CrewAssignment
  import TT = TaskTemplates

  // ---------- Task updates ----------

  lemma UnknownTaskIsRejected(doc: Doc, task: TaskId, dto: Dto, now: Instant, ardt: Instant)
    requires forall i :: 0 <= i < |doc.tasks| ==> doc.tasks[i].id != task
    ensures Serial(doc, TaskCalled(task, dto), now, ardt) == Outcome(doc, Failed(NotFound), [])
  {
    SerialTaskUpdate(doc, task, dto, now, ardt);
  }

  lemma FoundAt(tasks: seq<Task>, task: TaskId, k: nat)
    requires k < |tasks| && tasks[k].id == task && forall i :: 0 <= i < k ==> tasks[i].id != task
    ensures FindTask(tasks, task) == k
  {
  }

  /**
    The task gets the fields the request carries, a start time when it is put in progress for the first time, and a
    completion time whenever it is completed; all its other fields and all other tasks stay as they are.
  */
  lemma UpdatedTaskFields(doc: Doc, task: TaskId, dto: Dto, now: Instant, ardt: Instant, k: nat)
    requires k < |doc.tasks| && doc.tasks[k].id == task && forall i :: 0 <= i < k ==> doc.tasks[i].id != task
    ensures var t := doc.tasks[k];
            Serial(doc, TaskCalled(task, dto), now, ardt).doc.tasks == doc.tasks[k := Task(
              t.id, t.name,
              if dto.status.Some? then dto.status.value else t.status,
              t.minutes, t.certification, t.equipment, t.order,
              if dto.crew.Some? then dto.crew else t.crew,
              if dto.unit.Some? then dto.unit else t.unit,
              if dto.status == Some(InProgress) && t.startedAt == None then Some(now) else t.startedAt,
              if dto.status == Some(Completed) then Some(now) else t.completedAt,
              if dto.notes.Some? then dto.notes else t.notes)]
  {
    SerialTaskUpdate(doc, task, dto, now, ardt);
    FoundAt(doc.tasks, task, k);
  }

  lemma AllDoneMeansAll(tasks: seq<Task>)
    requires tasks != []
    ensures AllDone(tasks) <==> |DoneAt(tasks)| == |tasks|
    ensures AllDone(tasks) ==> ProgressOf(tasks) == 100
  {
    CountDoneMeaning(tasks);
    CountDoneIsAll(tasks);
    if AllDone(tasks) {
      PercentProperties(0, 0, |tasks|);
    }
  }

  /**
    The document then says how many of its tasks are completed or skipped, as a rounded percentage; and exactly when
    that is all of them, the turnaround is completed at the moment stamped as ARDT, and announced as completed after the
    task.
  */
  lemma UpdatedDocument(doc: Doc, task: TaskId, dto: Dto, now: Instant, ardt: Instant)
    requires exists i :: 0 <= i < |doc.tasks| && doc.tasks[i].id == task
    ensures var r := Serial(doc, TaskCalled(task, dto), now, ardt);
            var tasks, p := r.doc.tasks, r.doc.progress;
            var kept := doc.(tasks := tasks, progress := p);
            var announced := if dto.status == Some(Completed) then [TaskDone(task)] else [];
            && |tasks| == |doc.tasks|
            && 2 * |tasks| * p <= 200 * |DoneAt(tasks)| + |tasks| < 2 * |tasks| * (p + 1)
            && r == if |DoneAt(tasks)| < |tasks| then Outcome(kept, Returned, announced)
                    else Outcome(kept.(status := TurnaroundCompleted, completedAt := Some(ardt),
                                       milestones := doc.milestones.(ardt := Some(ardt))),
                                 Returned, announced + [AllTasksDone])
  {
    SerialTaskUpdate(doc, task, dto, now, ardt);
    var k := FindTask(doc.tasks, task);
    var written := WriteTask(doc, task, UpdatesFor(doc.tasks[k], dto, now)).tasks;
    AllDoneMeansAll(written);
    CountDoneMeaning(written);
    ProgressMeaning(written);
  }

  // ---------- Milestone updates ----------

  /**
    A milestone in the request takes the place of the stored one. If then TSAT would lie before TOBT, or AOBT before
    TSAT, nothing changes; otherwise the merged milestones are stored and announced.
  */
  lemma UpdatedMilestones(doc: Doc, changes: Milestones, now: Instant, ardt: Instant)
    ensures var (m, c) := (doc.milestones, changes);
            var merged := Milestones(
              if c.eibt.Some? then c.eibt else m.eibt, if c.aibt.Some? then c.aibt else m.aibt,
              if c.tobt.Some? then c.tobt else m.tobt, if c.tsat.Some? then c.tsat else m.tsat,
              if c.ardt.Some? then c.ardt else m.ardt, if c.aobt.Some? then c.aobt else m.aobt,
              if c.atot.Some? then c.atot else m.atot);
            Serial(doc, MilestonesCalled(changes), now, ardt) ==
            if || (merged.tobt.Some? && merged.tsat.Some? && merged.tsat.value < merged.tobt.value)
               || (merged.tsat.Some? && merged.aobt.Some? && merged.aobt.value < merged.tsat.value)
            then Outcome(doc, Failed(OutOfOrder), [])
            else Outcome(doc.(milestones := merged), Returned, [MilestonesChanged])
  {
    SerialMilestoneUpdate(doc, changes, now, ardt);
  }

  // ---------- Creation ----------

  /** The stored document, and what turnaround.started tells the crew service about each of its tasks. */
  lemma CreatedTurnaround(flight: FlightId, plan: seq<TT.Template>, ids: seq<TaskId>, now: Instant, i: nat)
    requires i < |plan| == |ids|
    ensures var doc := NewDoc(flight, NewTasks(plan, ids), now);
            && doc == Doc(flight, TurnaroundInProgress, doc.tasks, Some(now), None, 0,
                          Milestones(None, Some(now), None, None, None, None, None))
            && |doc.tasks| == |TaskInfos(doc.tasks)| == |plan|
            && doc.tasks[i] == Task(ids[i], plan[i].name, Pending, plan[i].minutes, plan[i].certification,
                                    plan[i].equipment, plan[i].order, None, None, None, None, None)
            && TaskInfos(doc.tasks)[i] == CA.TaskInfo(ids[i], plan[i].name, plan[i].order, plan[i].certification)
  {
  }
}
