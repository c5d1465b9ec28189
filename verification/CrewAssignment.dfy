/**
  The crew tables and the crew allocator of the crew service, as values.

  Identifiers are opaque in the source and are only compared for equality, so they are
  natural numbers here. `lastName` is the position of the name in the database's collation.
  A run of the allocation loop is described by the decision it took for each task, because
  `ORDER BY last_name LIMIT 1` leaves the choice between equal names to the database.
*/
module CrewAssignment {
  import opened Wrappers
  import opened Transitions

  type CrewId = nat
  type TurnaroundId = nat
  type FlightId = nat
  type TaskId = nat
  type Instant = int  // seconds since the epoch, UTC

  const SECONDS_PER_DAY := 86400

  datatype Member = Member(id: CrewId, lastName: nat, isActive: bool)
  datatype CertificationStatus = CertActive | CertExpired | CertSuspended
  datatype Certification = Certification(crew: CrewId, certType: string, expiryDate: int, status: CertificationStatus)
  datatype ShiftStatus = ShiftScheduled | ShiftActive | ShiftCompleted | ShiftAbsent
  datatype Shift = Shift(crew: CrewId, shiftDate: int, startTime: Instant, endTime: Instant, status: ShiftStatus)

  /** The tables the allocator only reads. */
  datatype Directory = Directory(members: seq<Member>, certifications: seq<Certification>, shifts: seq<Shift>)

  datatype RowStatus = Assigned | Active | Completed | Reassigned

  /** A row of task_assignments. */
  datatype Row = Row(crew: CrewId, turnaround: TurnaroundId, task: TaskId, taskType: string, status: RowStatus)

  datatype TaskInfo = TaskInfo(id: TaskId, name: string, order: int, certification: Option<string>)

  /** What the loop body decided for one task; `Raised` is SQLAlchemy's MultipleResultsFound. */
  datatype Outcome = Skipped | AlreadyAssigned | Unavailable | AssignedTo(member: Member) | Raised

  // ---------- The availability query ----------

  function Today(now: Instant): int {
    now / SECONDS_PER_DAY
  }

  predicate Open(row: Row) {
    row.status == Assigned || row.status == Active
  }

  predicate Busy(rows: seq<Row>, crew: CrewId) {
    exists i :: 0 <= i < |rows| && Open(rows[i]) && rows[i].crew == crew
  }

  predicate Certifies(c: Certification, crew: CrewId, certType: string, now: Instant) {
    c.crew == crew && c.certType == certType && c.status == CertActive && Today(now) < c.expiryDate
  }

  predicate OnDuty(s: Shift, crew: CrewId, now: Instant) {
    && s.crew == crew && s.shiftDate == Today(now)
    && s.startTime <= now <= s.endTime
    && (s.status == ShiftScheduled || s.status == ShiftActive)
  }

  /** The query's row for one member, once for every joined certification and shift that passes the filter. */
  function JoinShifts(m: Member, shifts: seq<Shift>, now: Instant): seq<Member> {
    if shifts == [] then []
    else (if OnDuty(shifts[0], m.id, now) then [m] else []) + JoinShifts(m, shifts[1..], now)
  }

  function JoinCertifications(m: Member, certs: seq<Certification>, shifts: seq<Shift>, certType: string,
                              now: Instant): seq<Member>
  {
    if certs == [] then []
    else (if Certifies(certs[0], m.id, certType, now) then JoinShifts(m, shifts, now) else [])
         + JoinCertifications(m, certs[1..], shifts, certType, now)
  }

  function JoinMembers(members: seq<Member>, dir: Directory, rows: seq<Row>, certType: string,
                       now: Instant): seq<Member>
  {
    if members == [] then []
    else (if members[0].isActive && !Busy(rows, members[0].id)
          then JoinCertifications(members[0], dir.certifications, dir.shifts, certType, now) else [])
         + JoinMembers(members[1..], dir, rows, certType, now)
  }

  /** `ORDER BY last_name LIMIT 1` over the joined rows. */
  ghost predicate QueryAnswer(dir: Directory, rows: seq<Row>, certType: string, now: Instant, answer: Option<Member>) {
    var joined := JoinMembers(dir.members, dir, rows, certType, now);
    match answer
    case None => joined == []
    case Some(m) => m in joined && forall other :: other in joined ==> m.lastName <= other.lastName
  }

  /** What "available" means, without the join. */
  ghost predicate Eligible(dir: Directory, m: Member, certType: string, now: Instant) {
    && m in dir.members
    && m.isActive
    && (exists c :: c in dir.certifications && Certifies(c, m.id, certType, now))
    && (exists s :: s in dir.shifts && OnDuty(s, m.id, now))
  }

  lemma {:induction false} JoinShiftsMeaning(m: Member, shifts: seq<Shift>, now: Instant, x: Member)
    ensures x in JoinShifts(m, shifts, now) <==> x == m && exists s :: s in shifts && OnDuty(s, m.id, now)
  {
    if shifts != [] {
      JoinShiftsMeaning(m, shifts[1..], now, x);
      assert shifts == [shifts[0]] + shifts[1..];
    }
  }

  lemma {:induction false} JoinCertificationsMeaning(
    m: Member, certs: seq<Certification>, shifts: seq<Shift>, certType: string, now: Instant, x: Member)
    ensures x in JoinCertifications(m, certs, shifts, certType, now) <==>
            && x == m
            && (exists c :: c in certs && Certifies(c, m.id, certType, now))
            && (exists s :: s in shifts && OnDuty(s, m.id, now))
  {
    if certs != [] {
      JoinShiftsMeaning(m, shifts, now, x);
      JoinCertificationsMeaning(m, certs[1..], shifts, certType, now, x);
      assert certs == [certs[0]] + certs[1..];
    }
  }

  lemma {:induction false} JoinMembersMeaning(
    members: seq<Member>, dir: Directory, rows: seq<Row>, certType: string, now: Instant, x: Member)
    ensures x in JoinMembers(members, dir, rows, certType, now) <==>
            && x in members && x.isActive && !Busy(rows, x.id)
            && (exists c :: c in dir.certifications && Certifies(c, x.id, certType, now))
            && (exists s :: s in dir.shifts && OnDuty(s, x.id, now))
  {
    if members != [] {
      JoinCertificationsMeaning(members[0], dir.certifications, dir.shifts, certType, now, x);
      JoinMembersMeaning(members[1..], dir, rows, certType, now, x);
      assert members == [members[0]] + members[1..];
    }
  }

  /** The three-way join, NOT IN, ORDER BY and LIMIT 1 pick exactly a first-by-name available member. */
  lemma AvailabilityQueryIsExact(dir: Directory, rows: seq<Row>, certType: string, now: Instant, answer: Option<Member>)
    ensures QueryAnswer(dir, rows, certType, now, answer) <==>
            match answer
            case None => forall m :: Eligible(dir, m, certType, now) ==> Busy(rows, m.id)
            case Some(m) =>
              && Eligible(dir, m, certType, now) && !Busy(rows, m.id)
              && forall other :: Eligible(dir, other, certType, now) && !Busy(rows, other.id) ==>
                 m.lastName <= other.lastName
  {
    var joined := JoinMembers(dir.members, dir, rows, certType, now);
    forall m ensures m in joined <==> Eligible(dir, m, certType, now) && !Busy(rows, m.id) {
      JoinMembersMeaning(dir.members, dir, rows, certType, now, m);
    }
    if answer == None && joined != [] {
      assert joined[0] in joined;
    }
  }

  // ---------- One atomic loop body, and the release ----------

  predicate NeedsCrew(task: TaskInfo) {
    task.certification.Some? && task.certification.value != ""
  }

  predicate OpenFor(row: Row, ta: TurnaroundId, task: TaskId) {
    row.turnaround == ta && row.task == task && Open(row)
  }

  predicate HasOpen(rows: seq<Row>, ta: TurnaroundId, task: TaskId) {
    exists i :: 0 <= i < |rows| && OpenFor(rows[i], ta, task)
  }

  /** `scalar_one_or_none` would raise. */
  predicate HasTwoOpen(rows: seq<Row>, ta: TurnaroundId, task: TaskId) {
    exists i, j :: 0 <= i < j < |rows| && OpenFor(rows[i], ta, task) && OpenFor(rows[j], ta, task)
  }

  ghost predicate LegalOutcome(dir: Directory, rows: seq<Row>, ta: TurnaroundId, task: TaskInfo, now: Instant,
                               o: Outcome)
  {
    if !NeedsCrew(task) then o == Skipped
    else if HasTwoOpen(rows, ta, task.id) then o == Raised
    else if HasOpen(rows, ta, task.id) then o == AlreadyAssigned
    else match o
      case Unavailable => QueryAnswer(dir, rows, task.certification.value, now, None)
      case AssignedTo(m) => QueryAnswer(dir, rows, task.certification.value, now, Some(m))
      case _ => false
  }

  function Apply(rows: seq<Row>, ta: TurnaroundId, task: TaskInfo, o: Outcome): seq<Row> {
    if o.AssignedTo? && NeedsCrew(task)
    then rows + [Row(o.member.id, ta, task.id, task.certification.value, Assigned)]
    else rows
  }

  /** `free_crew_member`: the one open row becomes completed; no row, or an exception on two, changes nothing. */
  function Freed(rows: seq<Row>, ta: TurnaroundId, task: TaskId): seq<Row> {
    if HasTwoOpen(rows, ta, task) then rows
    else seq(|rows|, i requires 0 <= i < |rows| =>
               if OpenFor(rows[i], ta, task) then rows[i].(status := Completed) else rows[i])
  }

  // ---------- A run of the loop ----------

  function RunRows(rows: seq<Row>, ta: TurnaroundId, tasks: seq<TaskInfo>, outs: seq<Outcome>): seq<Row>
    requires |outs| <= |tasks|
  {
    if outs == [] then rows
    else Apply(RunRows(rows, ta, tasks, outs[..|outs| - 1]), ta, tasks[|outs| - 1], outs[|outs| - 1])
  }

  /** Each decision is legal for the rows left by the ones before it; nothing follows an exception. */
  ghost predicate LegalRun(dir: Directory, rows: seq<Row>, ta: TurnaroundId, tasks: seq<TaskInfo>, clock: seq<Instant>,
                           outs: seq<Outcome>)
    requires |clock| == |tasks|
  {
    |outs| <= |tasks| &&
    (outs != [] ==>
       var n := |outs| - 1;
       && LegalRun(dir, rows, ta, tasks, clock, outs[..n])
       && Raised !in outs[..n]
       && LegalOutcome(dir, RunRows(rows, ta, tasks, outs[..n]), ta, tasks[n], clock[n], outs[n]))
  }

  lemma {:induction false} DecisionIsLegal(dir: Directory, rows: seq<Row>, ta: TurnaroundId, tasks: seq<TaskInfo>,
                                           clock: seq<Instant>, outs: seq<Outcome>, k: nat)
    requires |clock| == |tasks| && LegalRun(dir, rows, ta, tasks, clock, outs) && k < |outs|
    ensures LegalOutcome(dir, RunRows(rows, ta, tasks, outs[..k]), ta, tasks[k], clock[k], outs[k])
    decreases |outs|
  {
    var n := |outs| - 1;
    if k < n {
      assert outs[..n][..k] == outs[..k];
      DecisionIsLegal(dir, rows, ta, tasks, clock, outs[..n], k);
    }
  }

  predicate Finished(tasks: seq<TaskInfo>, outs: seq<Outcome>) {
    |outs| == |tasks| || (|outs| > 0 && outs[|outs| - 1] == Raised)
  }

  /** Extending a run by one body. */
  lemma RunExtends(dir: Directory, rows: seq<Row>, ta: TurnaroundId, tasks: seq<TaskInfo>, clock: seq<Instant>,
                   outs: seq<Outcome>, o: Outcome)
    requires |clock| == |tasks| && |outs| < |tasks|
    requires LegalRun(dir, rows, ta, tasks, clock, outs) && Raised !in outs
    requires LegalOutcome(dir, RunRows(rows, ta, tasks, outs), ta, tasks[|outs|], clock[|outs|], o)
    ensures LegalRun(dir, rows, ta, tasks, clock, outs + [o])
    ensures RunRows(rows, ta, tasks, outs + [o]) == Apply(RunRows(rows, ta, tasks, outs), ta, tasks[|outs|], o)
  {
  }

  /** The row comes from one of the run's assignments. */
  ghost predicate Justified(row: Row, ta: TurnaroundId, tasks: seq<TaskInfo>, outs: seq<Outcome>)
    requires |outs| <= |tasks|
  {
    exists k :: 0 <= k < |outs| && outs[k].AssignedTo? && NeedsCrew(tasks[k]) &&
      row == Row(outs[k].member.id, ta, tasks[k].id, tasks[k].certification.value, Assigned)
  }

  /** A run only appends, and each appended row comes from one decision. */
  lemma {:induction false} RunAppends(rows: seq<Row>, ta: TurnaroundId, tasks: seq<TaskInfo>, outs: seq<Outcome>)
    requires |outs| <= |tasks|
    ensures rows <= RunRows(rows, ta, tasks, outs)
    ensures forall i :: |rows| <= i < |RunRows(rows, ta, tasks, outs)| ==>
              Justified(RunRows(rows, ta, tasks, outs)[i], ta, tasks, outs)
  {
    if outs != [] {
      var last := |outs| - 1;
      var shorter := outs[..last];
      RunAppends(rows, ta, tasks, shorter);
      var before := RunRows(rows, ta, tasks, shorter);
      var after := RunRows(rows, ta, tasks, outs);
      forall i | |rows| <= i < |after|
        ensures Justified(after[i], ta, tasks, outs)
      {
        if i < |before| {
          assert Justified(before[i], ta, tasks, shorter);
          var k :| 0 <= k < |shorter| && shorter[k].AssignedTo? && NeedsCrew(tasks[k]) &&
                   before[i] == Row(shorter[k].member.id, ta, tasks[k].id, tasks[k].certification.value, Assigned);
          assert outs[k] == shorter[k];
        } else {
          assert outs[last].AssignedTo?;
        }
      }
    }
  }

  /** The rows after a prefix of the decisions are a prefix of the rows after all of them. */
  lemma {:induction false} RunPrefix(rows: seq<Row>, ta: TurnaroundId, tasks: seq<TaskInfo>, outs: seq<Outcome>, k: nat)
    requires k <= |outs| <= |tasks|
    ensures RunRows(rows, ta, tasks, outs[..k]) <= RunRows(rows, ta, tasks, outs)
    decreases |outs|
  {
    if k == |outs| {
      assert outs[..k] == outs;
    } else {
      var shorter := outs[..|outs| - 1];
      assert shorter[..k] == outs[..k];
      RunPrefix(rows, ta, tasks, shorter, k);
    }
  }

  /** Every legal assignment leaves its row in the table. */
  lemma RunKeepsDecision(rows: seq<Row>, ta: TurnaroundId, tasks: seq<TaskInfo>, outs: seq<Outcome>, k: nat)
    requires k < |outs| <= |tasks| && outs[k].AssignedTo? && NeedsCrew(tasks[k])
    ensures exists i :: |rows| <= i < |RunRows(rows, ta, tasks, outs)| &&
              RunRows(rows, ta, tasks, outs)[i] ==
              Row(outs[k].member.id, ta, tasks[k].id, tasks[k].certification.value, Assigned)
    ensures HasOpen(RunRows(rows, ta, tasks, outs), ta, tasks[k].id)
    ensures Busy(RunRows(rows, ta, tasks, outs), outs[k].member.id)
  {
    var row := Row(outs[k].member.id, ta, tasks[k].id, tasks[k].certification.value, Assigned);
    var before := RunRows(rows, ta, tasks, outs[..k]);
    RunAppends(rows, ta, tasks, outs[..k]);
    assert outs[..k + 1][..k] == outs[..k];
    assert RunRows(rows, ta, tasks, outs[..k + 1])[|before|] == row;
    RunPrefix(rows, ta, tasks, outs, k + 1);
    assert RunRows(rows, ta, tasks, outs)[|before|] == row && Open(row);
  }

  // ---------- Exclusivity over every interleaving ----------

  /** No crew member and no (turnaround, task) has two open rows. */
  ghost predicate Exclusive(rows: seq<Row>) {
    forall i, j :: 0 <= i < j < |rows| && Open(rows[i]) && Open(rows[j]) ==>
      && rows[i].crew != rows[j].crew
      && !(rows[i].turnaround == rows[j].turnaround && rows[i].task == rows[j].task)
  }

  /**
    The steps that write task_assignments: one loop body of some handler, or one release. The directory may change
    freely between steps.
  */
  datatype Step =
    | AssignBody(dir: Directory, ta: TurnaroundId, info: TaskInfo, now: Instant, outcome: Outcome)
    | Free(ta: TurnaroundId, task: TaskId)

  ghost predicate Next(rows: seq<Row>, step: Step, rows': seq<Row>) {
    match step
    case AssignBody(dir, ta, info, now, o) =>
      LegalOutcome(dir, rows, ta, info, now, o) && rows' == Apply(rows, ta, info, o)
    case Free(ta, task) => rows' == Freed(rows, ta, task)
  }

  lemma BodyKeepsExclusive(dir: Directory, rows: seq<Row>, ta: TurnaroundId, info: TaskInfo, now: Instant, o: Outcome)
    requires Exclusive(rows) && LegalOutcome(dir, rows, ta, info, now, o)
    ensures Exclusive(Apply(rows, ta, info, o)) && o != Raised
  {
    if o.AssignedTo? && NeedsCrew(info) {
      AvailabilityQueryIsExact(dir, rows, info.certification.value, now, Some(o.member));
      var rows' := Apply(rows, ta, info, o);
      forall i, j | 0 <= i < j < |rows'| && Open(rows'[i]) && Open(rows'[j])
        ensures rows'[i].crew != rows'[j].crew
        ensures !(rows'[i].turnaround == rows'[j].turnaround && rows'[i].task == rows'[j].task)
      {
        if j == |rows| {
          assert rows'[i] == rows[i];
          assert !OpenFor(rows[i], ta, info.id);
        }
      }
    }
  }

  lemma StepKeepsExclusive(rows: seq<Row>, step: Step, rows': seq<Row>)
    requires Exclusive(rows) && Next(rows, step, rows')
    ensures Exclusive(rows')
    ensures step.AssignBody? ==> step.outcome != Raised
    ensures step.Free? ==> !HasTwoOpen(rows, step.ta, step.task)
  {
    if step.AssignBody? {
      BodyKeepsExclusive(step.dir, rows, step.ta, step.info, step.now, step.outcome);
    }
  }

  /** In every interleaving of loop bodies and releases the tables stay exclusive and no lookup ever sees two rows. */
  lemma {:induction false} CrewExclusivity(states: seq<seq<Row>>, steps: seq<Step>, k: nat)
    requires Execution(Next, states, steps) && Exclusive(states[0]) && k <= |steps|
    ensures Exclusive(states[k])
    ensures forall j :: 0 <= j < k && steps[j].AssignBody? ==> steps[j].outcome != Raised
    ensures forall j :: 0 <= j < k && steps[j].Free? ==> !HasTwoOpen(states[j], steps[j].ta, steps[j].task)
  {
    if k > 0 {
      CrewExclusivity(states, steps, k - 1);
      StepKeepsExclusive(states[k - 1], steps[k - 1], states[k]);
    }
  }

  /** A whole run from exclusive tables finishes without an exception. */
  lemma {:induction false} RunKeepsExclusive(dir: Directory, rows: seq<Row>, ta: TurnaroundId, tasks: seq<TaskInfo>,
                                             clock: seq<Instant>, outs: seq<Outcome>)
    requires |clock| == |tasks| && LegalRun(dir, rows, ta, tasks, clock, outs) && Exclusive(rows)
    ensures Exclusive(RunRows(rows, ta, tasks, outs))
    ensures Raised !in outs
    decreases |outs|
  {
    if outs != [] {
      var n := |outs| - 1;
      var shorter := outs[..n];
      RunKeepsExclusive(dir, rows, ta, tasks, clock, shorter);
      BodyKeepsExclusive(dir, RunRows(rows, ta, tasks, shorter), ta, tasks[n], clock[n], outs[n]);
    }
  }

  /** Releasing a task closes its one open row and no other, and frees that crew member. */
  lemma FreeClosesExactlyTheTask(rows: seq<Row>, ta: TurnaroundId, task: TaskId)
    requires Exclusive(rows)
    ensures !HasOpen(Freed(rows, ta, task), ta, task)
    ensures forall t, x :: (t != ta || x != task) ==> (HasOpen(Freed(rows, ta, task), t, x) <==> HasOpen(rows, t, x))
    ensures forall c :: Busy(rows, c) && !Busy(Freed(rows, ta, task), c) <==>
              exists i :: 0 <= i < |rows| && OpenFor(rows[i], ta, task) && rows[i].crew == c
  {
  }

  // ---------- Idempotence ----------

  lemma BusyGrows(rows: seq<Row>, more: seq<Row>, c: CrewId)
    requires rows <= more && Busy(rows, c)
    ensures Busy(more, c)
  {
  }

  lemma HasOpenGrows(rows: seq<Row>, more: seq<Row>, ta: TurnaroundId, task: TaskId)
    requires rows <= more && HasOpen(rows, ta, task)
    ensures HasOpen(more, ta, task)
  {
  }

  /** One body of the second run, over tables that only grew since. */
  lemma SecondBodyAssignsNobody(dir: Directory, before: seq<Row>, rows1: seq<Row>, ta: TurnaroundId, task: TaskInfo,
                                now: Instant, first: Outcome, second: Outcome)
    requires before <= rows1 && Exclusive(rows1)
    requires LegalOutcome(dir, before, ta, task, now, first) && first != Raised
    requires first.AssignedTo? ==> HasOpen(rows1, ta, task.id)
    requires LegalOutcome(dir, rows1, ta, task, now, second)
    ensures second in {Skipped, AlreadyAssigned, Unavailable}
    ensures second == Unavailable ==> first == Unavailable
  {
    if NeedsCrew(task) && !HasOpen(rows1, ta, task.id) {
      if HasOpen(before, ta, task.id) {
        HasOpenGrows(before, rows1, ta, task.id);
      }
      assert first == Unavailable;
      var cert := task.certification.value;
      AvailabilityQueryIsExact(dir, before, cert, now, None);
      if second.AssignedTo? {
        AvailabilityQueryIsExact(dir, rows1, cert, now, Some(second.member));
        BusyGrows(before, rows1, second.member.id);
      }
    }
  }

  /** Running the loop again over the same event, with the same clock readings, assigns nobody. */
  lemma {:induction false} SecondRunAssignsNobody(dir: Directory, rows: seq<Row>, ta: TurnaroundId,
                                                  tasks: seq<TaskInfo>, clock: seq<Instant>,
                               first: seq<Outcome>, second: seq<Outcome>)
    requires |clock| == |tasks| && Exclusive(rows)
    requires LegalRun(dir, rows, ta, tasks, clock, first) && |first| == |tasks|
    requires LegalRun(dir, RunRows(rows, ta, tasks, first), ta, tasks, clock, second)
    ensures RunRows(RunRows(rows, ta, tasks, first), ta, tasks, second) == RunRows(rows, ta, tasks, first)
    ensures forall k :: 0 <= k < |second| ==> second[k] in {Skipped, AlreadyAssigned, Unavailable}
    ensures forall k :: 0 <= k < |second| && second[k] == Unavailable ==> first[k] == Unavailable
    decreases |second|
  {
    if second != [] {
      var n := |second| - 1;
      var shorter := second[..n];
      var rows1 := RunRows(rows, ta, tasks, first);
      SecondRunAssignsNobody(dir, rows, ta, tasks, clock, first, shorter);
      RunKeepsExclusive(dir, rows, ta, tasks, clock, first);
      RunPrefix(rows, ta, tasks, first, n);
      DecisionIsLegal(dir, rows, ta, tasks, clock, first, n);
      if first[n].AssignedTo? {
        assert NeedsCrew(tasks[n]);
        RunKeepsDecision(rows, ta, tasks, first, n);
      }
      SecondBodyAssignsNobody(dir, RunRows(rows, ta, tasks, first[..n]), rows1, ta, tasks[n], clock[n], first[n],
                              second[n]);
    }
  }
}
