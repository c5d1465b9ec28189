/** What a turnaround.started that is delivered again does to the tables. */
module Redelivery {
  import opened Wrappers
  import opened CrewHandlers
  import CA = CrewAssignment
  import CM = CrewMatching
  import EQ = Equipment
  import EO = EquipmentOptimal

  /** Every certified task has an open row or no free eligible crew. */
  ghost predicate NothingToAssign(dir: CA.Directory, rows: seq<CA.Row>, ta: TurnaroundId, tasks: seq<TaskInfo>,
                                  clock: seq<Instant>)
    requires |clock| == |tasks|
  {
    forall k :: 0 <= k < |tasks| && CA.NeedsCrew(tasks[k]) ==>
      || CA.HasOpen(rows, ta, tasks[k].id)
      || forall m :: CA.Eligible(dir, m, tasks[k].certification.value, clock[k]) ==> CA.Busy(rows, m.id)
  }

  /** Every mapped task has an open row or no available unit of its type. */
  ghost predicate NothingToEquip(db: EQ.Db, ta: TurnaroundId, tasks: seq<EQ.Task>) {
    forall k :: 0 <= k < |tasks| && EQ.RequiredKind(tasks[k].name).Some? ==>
      EQ.HasOpen(db.rows, ta, tasks[k].id) || forall u :: !EQ.Usable(db.units, EQ.RequiredKind(tasks[k].name).value, u)
  }

  lemma {:induction false} NothingIsAssigned(dir: CA.Directory, rows: seq<CA.Row>, ta: TurnaroundId,
                                             tasks: seq<TaskInfo>, clock: seq<Instant>,
                                             outs: seq<CA.Outcome>)
    requires |clock| == |tasks| && CA.LegalRun(dir, rows, ta, tasks, clock, outs) &&
             NothingToAssign(dir, rows, ta, tasks, clock)
    ensures CA.RunRows(rows, ta, tasks, outs) == rows
    decreases |outs|
  {
    if outs != [] {
      var n := |outs| - 1;
      NothingIsAssigned(dir, rows, ta, tasks, clock, outs[..n]);
      if outs[n].AssignedTo? {
        CA.AvailabilityQueryIsExact(dir, rows, tasks[n].certification.value, clock[n], Some(outs[n].member));
      }
    }
  }

  /** The crew loop leaves task_assignments alone exactly when there is nothing to assign. */
  lemma CrewUnchangedIff(dir: CA.Directory, rows: seq<CA.Row>, ta: TurnaroundId, tasks: seq<TaskInfo>,
                         clock: seq<Instant>,
                         outs: seq<CA.Outcome>)
    requires |clock| == |tasks| && CA.LegalRun(dir, rows, ta, tasks, clock, outs) && CA.Finished(tasks, outs) &&
             CA.Exclusive(rows)
    ensures CA.RunRows(rows, ta, tasks, outs) == rows <==> NothingToAssign(dir, rows, ta, tasks, clock)
  {
    CA.RunKeepsExclusive(dir, rows, ta, tasks, clock, outs);
    if NothingToAssign(dir, rows, ta, tasks, clock) {
      NothingIsAssigned(dir, rows, ta, tasks, clock, outs);
    } else if CA.RunRows(rows, ta, tasks, outs) == rows {
      forall k, m | 0 <= k < |tasks| && CA.NeedsCrew(tasks[k]) && !CA.HasOpen(rows, ta, tasks[k].id)
                    && CA.Eligible(dir, m, tasks[k].certification.value, clock[k])
        ensures CA.Busy(rows, m.id)
      {
        CM.UnservedHasNoCrew(dir, rows, ta, tasks, clock, outs, k, m);
      }
    }
  }

  lemma {:induction false} NothingIsEquipped(db: EQ.Db, ta: TurnaroundId, tasks: seq<EQ.Task>, outs: seq<EQ.Outcome>)
    requires EQ.LegalRun(db, ta, tasks, outs) && NothingToEquip(db, ta, tasks)
    ensures EQ.RunDb(db, ta, tasks, outs) == db
    decreases |outs|
  {
    if outs != [] {
      NothingIsEquipped(db, ta, tasks, outs[..|outs| - 1]);
    }
  }

  /** A run that equips a task changes the tables. */
  lemma {:induction false} UnchangedEquipsNobody(db: EQ.Db, ta: TurnaroundId, tasks: seq<EQ.Task>,
                                                 outs: seq<EQ.Outcome>, k: nat)
    requires EQ.LegalRun(db, ta, tasks, outs) && k < |outs| && EQ.RunDb(db, ta, tasks, outs) == db
    ensures !outs[k].Equipped? && EQ.RunDb(db, ta, tasks, outs[..k]) == db
  {
    EO.RunEffect(db, ta, tasks, outs);
    if outs[k].Equipped? {
      EO.EquippedMeaning(db, ta, tasks, outs, k);
    }
    EO.RunPrefix(db, ta, tasks, outs, k);
    EQ.DecisionIsLegal(db, ta, tasks, outs, k);
    EO.RunEffect(db, ta, tasks, outs[..k]);
    assert forall i :: 0 <= i < k ==> outs[..k][i] == outs[i];
    assert EO.Taken(outs[..k]) <= EO.Taken(outs);
  }

  /** The equipment loop leaves its tables alone exactly when there is nothing to equip. */
  lemma EquipmentUnchangedIff(db: EQ.Db, ta: TurnaroundId, tasks: seq<EQ.Task>, outs: seq<EQ.Outcome>)
    requires EQ.Valid(db) && EQ.LegalRun(db, ta, tasks, outs) && EQ.Finished(tasks, outs)
    ensures EQ.RunDb(db, ta, tasks, outs) == db <==> NothingToEquip(db, ta, tasks)
  {
    EQ.RunKeepsValid(db, ta, tasks, outs);
    if NothingToEquip(db, ta, tasks) {
      NothingIsEquipped(db, ta, tasks, outs);
    } else if EQ.RunDb(db, ta, tasks, outs) == db {
      forall k | 0 <= k < |tasks| && EQ.RequiredKind(tasks[k].name).Some? && !EQ.HasOpen(db.rows, ta, tasks[k].id)
        ensures forall u :: !EQ.Usable(db.units, EQ.RequiredKind(tasks[k].name).value, u)
      {
        UnchangedEquipsNobody(db, ta, tasks, outs, k);
        EQ.DecisionIsLegal(db, ta, tasks, outs, k);
      }
    }
  }

  /**
    Handling turnaround.started changes nothing exactly when every certified task has an open row or no free eligible
    crew, and every mapped task has an open row or no available unit. The README promises that duplicates are always
    harmless; open rows are all the code checks.
  */
  lemma RedeliveryIsHarmlessIff(dir: CA.Directory, pre: Tables, ta: TurnaroundId, flight: FlightId,
                                tasks: seq<TaskInfo>, clock: seq<Instant>,
                                d: Decisions, post: Tables, crewEvents: seq<CrewEvent>,
                                equipmentEvents: seq<EquipmentEvent>)
    requires |clock| == |tasks| &&
             StartedHandled(dir, pre, ta, flight, tasks, clock, d, post, crewEvents, equipmentEvents)
    requires Valid(pre)
    ensures post == pre <==>
            NothingToAssign(dir, pre.crewRows, ta, tasks, clock) && NothingToEquip(pre.equipment, ta, RawTasks(tasks))
  {
    StartedKeepsValid(dir, pre, ta, flight, tasks, clock, d, post, crewEvents, equipmentEvents);
    CrewUnchangedIff(dir, pre.crewRows, ta, tasks, clock, d.crew);
    EquipmentUnchangedIff(pre.equipment, ta, RawTasks(tasks), d.equipment);
  }

  /**
    Handling turnaround.task.completed, for the first or any further time, changes nothing exactly when the task holds
    nobody and nothing.
  */
  lemma CompletionIsHarmlessIff(pre: Tables, ta: TurnaroundId, task: TaskId, now: Instant)
    requires Valid(pre)
    ensures CompletedHandled(pre, ta, task, now) == pre <==>
            !CA.HasOpen(pre.crewRows, ta, task) && !EQ.HasOpen(pre.equipment.rows, ta, task)
  {
    CompletedKeepsValid(pre, ta, task, now);
    if !CA.HasOpen(pre.crewRows, ta, task) && !EQ.HasOpen(pre.equipment.rows, ta, task) {
      assert CA.Freed(pre.crewRows, ta, task) == pre.crewRows;
    }
  }

  // ---------- Two completed tasks that are served again ----------

  /** A task that was staffed and completed: delivering its turnaround.started again staffs it again. */
  lemma RedeliveryAfterCompletionLeaks(outs: seq<CA.Outcome>)
    requires CA.LegalRun(CM.SmallCrew(), [CM.FirstRow().(status := CA.Completed)], 0, [CM.TwoTasks()[0]], [5], outs)
    requires CA.Finished([CM.TwoTasks()[0]], outs)
    ensures CA.HasOpen(CA.RunRows([CM.FirstRow().(status := CA.Completed)], 0, [CM.TwoTasks()[0]], outs), 0, 1)
  {
    var rows, tasks := [CM.FirstRow().(status := CA.Completed)], [CM.TwoTasks()[0]];
    CA.RunKeepsExclusive(CM.SmallCrew(), rows, 0, tasks, [5], outs);
    if !CA.HasOpen(CA.RunRows(rows, 0, tasks, outs), 0, 1) {
      CM.SmallCrewEligibility();
      CrewUnchangedIff(CM.SmallCrew(), rows, 0, tasks, [5], outs);
      assert !CA.Busy(rows, 1);
      assert CA.NeedsCrew(tasks[0]);
      var after := CA.RunRows(rows, 0, tasks, outs);
      CA.RunAppends(rows, 0, tasks, outs);
      assert after != rows;
      assert CA.Justified(after[1], 0, tasks, outs);
      assert CA.OpenFor(after[1], 0, 1);
    }
  }

  /** Ground power was used for deboarding and is released. */
  function ReleasedGpu(): EQ.Db {
    EQ.Db(map[7 := EQ.Unit(EQ.Gpu, 0, EQ.Available, None)], [EQ.EquipmentRow(7, 0, 1, Some(3))])
  }

  /** A completed task that needs no crew at all: the event takes its unit again. */
  lemma RedeliveryTakesTheUnitAgain(outs: seq<EQ.Outcome>)
    requires EQ.LegalRun(ReleasedGpu(), 0, [EQ.Task(1, "deboarding")], outs) &&
             EQ.Finished([EQ.Task(1, "deboarding")], outs)
    ensures EQ.HasOpen(EQ.RunDb(ReleasedGpu(), 0, [EQ.Task(1, "deboarding")], outs).rows, 0, 1)
  {
    var db, task := ReleasedGpu(), EQ.Task(1, "deboarding");
    assert EQ.Usable(db.units, EQ.Gpu, 7) && EQ.RequiredKind(task.name) == Some(EQ.Gpu);
    assert outs[..0] == [] && EQ.RunDb(db, 0, [task], []) == db;
    EQ.DecisionIsLegal(db, 0, [task], outs, 0);
    assert outs == [EQ.Equipped(7)];
    EO.EquippedMeaning(db, 0, [task], outs, 0);
  }
}
