/**
  What the crew allocation does and announces, in terms of the columns of its tables alone: who counts as available,
  which decision each task gets, what the rows are afterwards, and what the events say about them.
*/
module CrewOutcomes {
  import opened Wrappers
  import opened CrewAssignment
  import opened CrewHandlers
  import Counting

  // ---------- One decision ----------

  /** An unfinished assignment of this task. */
  predicate Unfinished(row: Row, ta: TurnaroundId, task: TaskId) {
    row.turnaround == ta && row.task == task && row.status in {Assigned, Active}
  }

  /**
    An active member with a valid certificate that is still good tomorrow, on a shift of today that has begun and not
    ended, without an unfinished assignment. Days begin at midnight UTC.
  */
  ghost predicate Available(dir: Directory, rows: seq<Row>, m: Member, certType: string, now: Instant) {
    && m in dir.members && m.isActive
    && (exists i :: 0 <= i < |dir.certifications| &&
          var c := dir.certifications[i];
          c.crew == m.id && c.certType == certType && c.status == CertActive && now < 86400 * c.expiryDate)
    && (exists i :: 0 <= i < |dir.shifts| &&
          var s := dir.shifts[i];
          && s.crew == m.id && s.status in {ShiftScheduled, ShiftActive}
          && 86400 * s.shiftDate <= now < 86400 * (s.shiftDate + 1)
          && s.startTime <= now <= s.endTime)
    && (forall i :: 0 <= i < |rows| && rows[i].crew == m.id ==> rows[i].status in {Completed, Reassigned})
  }

  lemma TodayMeaning(now: Instant, day: int)
    ensures Today(now) == day <==> 86400 * day <= now < 86400 * (day + 1)
    ensures Today(now) < day <==> now < 86400 * day
  {
  }

  lemma AvailableIff(dir: Directory, rows: seq<Row>, m: Member, certType: string, now: Instant)
    ensures Available(dir, rows, m, certType, now) <==> Eligible(dir, m, certType, now) && !Busy(rows, m.id)
  {
    forall i | 0 <= i < |dir.certifications|
      ensures Certifies(dir.certifications[i], m.id, certType, now) <==>
              var c := dir.certifications[i];
              c.crew == m.id && c.certType == certType && c.status == CertActive && now < 86400 * c.expiryDate
    {
      TodayMeaning(now, dir.certifications[i].expiryDate);
    }
    forall i | 0 <= i < |dir.shifts|
      ensures OnDuty(dir.shifts[i], m.id, now) <==>
              var s := dir.shifts[i];
              && s.crew == m.id && s.status in {ShiftScheduled, ShiftActive}
              && 86400 * s.shiftDate <= now < 86400 * (s.shiftDate + 1)
              && s.startTime <= now <= s.endTime
    {
      TodayMeaning(now, dir.shifts[i].shiftDate);
    }
    assert Busy(rows, m.id) <==>
      !forall i :: 0 <= i < |rows| && rows[i].crew == m.id ==> rows[i].status in {Completed, Reassigned};
  }

  /**
    Which decision the loop takes for a task, and the row it adds: none without a required certification; an exception
    on two unfinished assignments, and nothing on one; otherwise one of the available members whose last name comes
    first, or nobody if there is none.
  */
  lemma DecisionMeaning(dir: Directory, rows: seq<Row>, ta: TurnaroundId, task: TaskInfo, now: Instant, o: Outcome)
    ensures LegalOutcome(dir, rows, ta, task, now, o) <==>
            var held := set i | 0 <= i < |rows| && Unfinished(rows[i], ta, task.id);
            if task.certification == None || task.certification == Some("") then o == Skipped
            else if |held| > 1 then o == Raised
            else if |held| == 1 then o == AlreadyAssigned
            else match o
              case AssignedTo(m) =>
                && Available(dir, rows, m, task.certification.value, now)
                && forall other :: Available(dir, rows, other, task.certification.value, now) ==>
                   m.lastName <= other.lastName
              case Unavailable => forall m :: !Available(dir, rows, m, task.certification.value, now)
              case _ => false
    ensures LegalOutcome(dir, rows, ta, task, now, o) ==>
            Apply(rows, ta, task, o) ==
            if o.AssignedTo? then rows + [Row(o.member.id, ta, task.id, task.certification.value, Assigned)] else rows
  {
    HeldCounts(rows, ta, task.id);
    if NeedsCrew(task) {
      var cert := task.certification.value;
      forall m ensures Available(dir, rows, m, cert, now) <==> Eligible(dir, m, cert, now) && !Busy(rows, m.id) {
        AvailableIff(dir, rows, m, cert, now);
      }
      if o.AssignedTo? {
        AvailabilityQueryIsExact(dir, rows, cert, now, Some(o.member));
      } else {
        AvailabilityQueryIsExact(dir, rows, cert, now, None);
      }
    }
  }

  lemma HeldCounts(rows: seq<Row>, ta: TurnaroundId, task: TaskId)
    ensures var held := set i | 0 <= i < |rows| && Unfinished(rows[i], ta, task);
            && (|held| > 1 <==> HasTwoOpen(rows, ta, task))
            && (|held| > 0 <==> HasOpen(rows, ta, task))
  {
    var held := set i | 0 <= i < |rows| && Unfinished(rows[i], ta, task);
    if i, j :| 0 <= i < j < |rows| && OpenFor(rows[i], ta, task) && OpenFor(rows[j], ta, task) {
      assert {i, j} <= held;
      Counting.SubsetBound({i, j}, held);
    } else if i :| 0 <= i < |rows| && OpenFor(rows[i], ta, task) {
      assert held == {i};
    } else {
      assert held == {};
    }
  }

  /**
    A release marks the task's one unfinished assignment as completed and changes nothing else; two stay as they are.
  */
  lemma ReleaseMeaning(rows: seq<Row>, ta: TurnaroundId, task: TaskId, i: nat)
    requires i < |rows|
    ensures |Freed(rows, ta, task)| == |rows|
    ensures var only := Unfinished(rows[i], ta, task) &&
                        forall j :: 0 <= j < |rows| && j != i ==> !Unfinished(rows[j], ta, task);
            Freed(rows, ta, task)[i] == if only then rows[i].(status := Completed) else rows[i]
  {
    if j :| 0 <= j < |rows| && j != i && Unfinished(rows[i], ta, task) && Unfinished(rows[j], ta, task) {
      assert OpenFor(rows[if i < j then i else j], ta, task) && OpenFor(rows[if i < j then j else i], ta, task);
      assert HasTwoOpen(rows, ta, task);
    }
  }

  // ---------- What is announced ----------

  /** The row an "assigned" event speaks of. */
  function RowAnnounced(e: CrewEvent): seq<Row> {
    if e.member.Some? && e.task.certification.Some?
    then [Row(e.member.value.id, e.ta, e.task.id, e.task.certification.value, Assigned)] else []
  }

  /** The rows that the events of a list speak of, in order. */
  function RowsAnnounced(events: seq<CrewEvent>): seq<Row> {
    if events == [] then [] else RowsAnnounced(events[..|events| - 1]) + RowAnnounced(events[|events| - 1])
  }

  lemma OneMoreAnnounced(events: seq<CrewEvent>, e: CrewEvent)
    ensures RowsAnnounced(events + [e]) == RowsAnnounced(events) + RowAnnounced(e)
  {
    assert (events + [e])[..|events|] == events;
  }

  /** The row a decision inserts. */
  function RowInserted(ta: TurnaroundId, task: TaskInfo, o: Outcome): seq<Row> {
    if o.AssignedTo? && NeedsCrew(task)
    then [Row(o.member.id, ta, task.id, task.certification.value, Assigned)] else []
  }

  lemma RunGrows(rows: seq<Row>, ta: TurnaroundId, tasks: seq<TaskInfo>, outs: seq<Outcome>)
    requires 0 < |outs| <= |tasks|
    ensures var n := |outs| - 1;
            RunRows(rows, ta, tasks, outs) == RunRows(rows, ta, tasks, outs[..n]) + RowInserted(ta, tasks[n], outs[n])
  {
  }

  lemma ElementAnnounces(events: seq<CrewEvent>, ta: TurnaroundId, flight: FlightId, task: TaskInfo, o: Outcome)
    requires o.AssignedTo? ==> NeedsCrew(task)
    ensures RowsAnnounced(events + CrewElement(ta, flight, task, o)) ==
            RowsAnnounced(events) + RowInserted(ta, task, o)
  {
    match o
    case AssignedTo(m) => OneMoreAnnounced(events, CrewEvent(ta, flight, task, Some(m)));
    case Unavailable => OneMoreAnnounced(events, CrewEvent(ta, flight, task, None));
    case _ => assert events + [] == events;
  }

  lemma ReportGrows(ta: TurnaroundId, flight: FlightId, tasks: seq<TaskInfo>, outs: seq<Outcome>)
    requires 0 < |outs| <= |tasks|
    requires var n := |outs| - 1; outs[n].AssignedTo? ==> NeedsCrew(tasks[n])
    ensures var n := |outs| - 1;
            RowsAnnounced(CrewReport(ta, flight, tasks, outs)) ==
            RowsAnnounced(CrewReport(ta, flight, tasks, outs[..n])) + RowInserted(ta, tasks[n], outs[n])
  {
    var n := |outs| - 1;
    ElementAnnounces(CrewReport(ta, flight, tasks, outs[..n]), ta, flight, tasks[n], outs[n]);
  }

  lemma {:induction false} AppendsWhatIsAnnounced(rows: seq<Row>, ta: TurnaroundId, flight: FlightId,
                                                  tasks: seq<TaskInfo>, outs: seq<Outcome>)
    requires |outs| <= |tasks| && forall k :: 0 <= k < |outs| && outs[k].AssignedTo? ==> NeedsCrew(tasks[k])
    ensures RunRows(rows, ta, tasks, outs) == rows + RowsAnnounced(CrewReport(ta, flight, tasks, outs))
  {
    if outs != [] {
      var n := |outs| - 1;
      AppendsWhatIsAnnounced(rows, ta, flight, tasks, outs[..n]);
      RunGrows(rows, ta, tasks, outs);
      ReportGrows(ta, flight, tasks, outs);
      Regroup(rows, RowsAnnounced(CrewReport(ta, flight, tasks, outs[..n])),
              RowInserted(ta, tasks[n], outs[n]));
    }
  }

  /** The "assigned" events speak of exactly the rows the run has inserted, member for member and in order. */
  lemma AnnouncedRowsAreInserted(dir: Directory, rows: seq<Row>, ta: TurnaroundId, flight: FlightId,
                                 tasks: seq<TaskInfo>, clock: seq<Instant>, outs: seq<Outcome>)
    requires |clock| == |tasks| && LegalRun(dir, rows, ta, tasks, clock, outs)
    ensures RunRows(rows, ta, tasks, outs) == rows + RowsAnnounced(CrewReport(ta, flight, tasks, outs))
  {
    forall k | 0 <= k < |outs| && outs[k].AssignedTo? ensures NeedsCrew(tasks[k]) {
      DecisionIsLegal(dir, rows, ta, tasks, clock, outs, k);
    }
    AppendsWhatIsAnnounced(rows, ta, flight, tasks, outs);
  }

  /** The event lists of a run: one for each search, naming its task, and the member found if any. */
  lemma {:induction false} ReportHas(ta: TurnaroundId, flight: FlightId, tasks: seq<TaskInfo>, outs: seq<Outcome>,
                                     e: CrewEvent)
    requires |outs| <= |tasks|
    ensures e in CrewReport(ta, flight, tasks, outs) <==>
            exists k :: 0 <= k < |outs| && e.ta == ta && e.flight == flight && e.task == tasks[k] &&
              outs[k] == if e.member.Some? then AssignedTo(e.member.value) else Unavailable
  {
    if outs != [] {
      var n := |outs| - 1;
      ReportHas(ta, flight, tasks, outs[..n], e);
      assert forall k :: 0 <= k < n ==> outs[..n][k] == outs[k];
    }
  }

  predicate DistinctIds(tasks: seq<TaskInfo>) {
    forall j, k :: 0 <= j < k < |tasks| ==> tasks[j].id != tasks[k].id
  }

  /** The task requires a certification and has no unfinished assignment. */
  ghost predicate Unstaffed(rows: seq<Row>, ta: TurnaroundId, task: TaskInfo) {
    && task.certification != None && task.certification != Some("")
    && forall i :: 0 <= i < |rows| ==> !Unfinished(rows[i], ta, task.id)
  }

  /**
    Of an event with different tasks, exactly those are announced as unavailable that require a certification and have
    no unfinished assignment when the loop ends.
  */
  lemma UnavailableMeansUnstaffed(dir: Directory, rows: seq<Row>, ta: TurnaroundId, flight: FlightId,
                                  tasks: seq<TaskInfo>, clock: seq<Instant>, outs: seq<Outcome>, k: nat)
    requires |clock| == |tasks| && LegalRun(dir, rows, ta, tasks, clock, outs) && Finished(tasks, outs)
    requires Exclusive(rows) && DistinctIds(tasks) && k < |tasks|
    ensures CrewEvent(ta, flight, tasks[k], None) in CrewReport(ta, flight, tasks, outs) <==>
            Unstaffed(RunRows(rows, ta, tasks, outs), ta, tasks[k])
  {
    RunKeepsExclusive(dir, rows, ta, tasks, clock, outs);
    ReportedMissing(ta, flight, tasks, outs, k);
    DecisionIsLegal(dir, rows, ta, tasks, clock, outs, k);
    UnstaffedMeaning(RunRows(rows, ta, tasks, outs), ta, tasks[k]);
    if NeedsCrew(tasks[k]) {
      HeldAtTheEnd(dir, rows, ta, tasks, clock, outs, k);
    }
  }

  lemma UnstaffedMeaning(rows: seq<Row>, ta: TurnaroundId, task: TaskInfo)
    ensures Unstaffed(rows, ta, task) <==> NeedsCrew(task) && !HasOpen(rows, ta, task.id)
  {
    assert HasOpen(rows, ta, task.id) <==> exists i :: 0 <= i < |rows| && Unfinished(rows[i], ta, task.id);
  }

  lemma ReportedMissing(ta: TurnaroundId, flight: FlightId, tasks: seq<TaskInfo>, outs: seq<Outcome>, k: nat)
    requires |outs| == |tasks| && DistinctIds(tasks) && k < |tasks|
    ensures CrewEvent(ta, flight, tasks[k], None) in CrewReport(ta, flight, tasks, outs) <==> outs[k] == Unavailable
  {
    ReportHas(ta, flight, tasks, outs, CrewEvent(ta, flight, tasks[k], None));
  }

  /** The task is held at the end exactly if it was found held or was assigned. */
  lemma HeldAtTheEnd(dir: Directory, rows: seq<Row>, ta: TurnaroundId, tasks: seq<TaskInfo>, clock: seq<Instant>,
                     outs: seq<Outcome>, k: nat)
    requires |clock| == |tasks| == |outs| && LegalRun(dir, rows, ta, tasks, clock, outs) && Raised !in outs
    requires DistinctIds(tasks) && k < |tasks| && NeedsCrew(tasks[k])
    ensures HasOpen(RunRows(rows, ta, tasks, outs), ta, tasks[k].id) <==> outs[k] != Unavailable
  {
    var before, after := RunRows(rows, ta, tasks, outs[..k]), RunRows(rows, ta, tasks, outs);
    DecisionIsLegal(dir, rows, ta, tasks, clock, outs, k);
    RunPrefix(rows, ta, tasks, outs, k);
    if outs[k].AssignedTo? {
      RunKeepsDecision(rows, ta, tasks, outs, k);
    } else if outs[k] == AlreadyAssigned {
      HasOpenGrows(before, after, ta, tasks[k].id);
    } else {
      RunAppends(rows, ta, tasks, outs);
      RunAppends(rows, ta, tasks, outs[..k]);
      assert !HasOpen(before, ta, tasks[k].id);
      forall i | 0 <= i < |after| ensures !OpenFor(after[i], ta, tasks[k].id) {
        if i < |rows| {
          assert after[i] == before[i];
        } else {
          assert Justified(after[i], ta, tasks, outs);
        }
      }
    }
  }
}
