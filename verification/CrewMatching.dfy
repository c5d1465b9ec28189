/** How good the greedy crew allocation is, compared with any other way to staff the same event. */
module CrewMatching {
  import opened Wrappers
  import opened CrewAssignment
  import opened Counting

  /**
    A competing plan staffs some task indexes, each task id at most once, with crew members who were free
    before the run, each used at most once and eligible at the moment the run looked for that task.
  */
  ghost predicate Feasible(dir: Directory, rows: seq<Row>, ta: TurnaroundId, tasks: seq<TaskInfo>, clock: seq<Instant>,
                           plan: map<nat, Member>)
    requires |clock| == |tasks|
  {
    && (forall k :: k in plan ==>
          && k < |tasks| && NeedsCrew(tasks[k]) && !HasOpen(rows, ta, tasks[k].id)
          && Eligible(dir, plan[k], tasks[k].certification.value, clock[k])
          && !Busy(rows, plan[k].id))
    && (forall j, k :: j in plan && k in plan && j != k ==>
          plan[j].id != plan[k].id && tasks[j].id != tasks[k].id)
  }

  function Served(outs: seq<Outcome>): set<nat> {
    set k | 0 <= k < |outs| && outs[k].AssignedTo?
  }

  /** Who the run gave to each task index. */
  function Matching(outs: seq<Outcome>): map<nat, Member> {
    map k | k in Served(outs) :: outs[k].member
  }

  function TaskIds(tasks: seq<TaskInfo>, indexes: set<nat>): map<nat, TaskId>
    requires forall k :: k in indexes ==> k < |tasks|
  {
    map k | k in indexes :: tasks[k].id
  }

  function CrewIds(staffing: map<nat, Member>): map<nat, CrewId> {
    map k | k in staffing :: staffing[k].id
  }

  lemma ServedLonger(outs: seq<Outcome>)
    requires outs != []
    ensures var n := |outs| - 1;
            Served(outs) == Served(outs[..n]) + (if outs[n].AssignedTo? then {n} else {}) && n !in Served(outs[..n])
  {
  }

  /** Each assignment of the run adds one row. */
  lemma {:induction false} ServedCountsRows(dir: Directory, rows: seq<Row>, ta: TurnaroundId, tasks: seq<TaskInfo>,
                                            clock: seq<Instant>, outs: seq<Outcome>)
    requires |clock| == |tasks| && LegalRun(dir, rows, ta, tasks, clock, outs)
    ensures |RunRows(rows, ta, tasks, outs)| == |rows| + |Served(outs)|
    decreases |outs|
  {
    if outs != [] {
      var n := |outs| - 1;
      ServedCountsRows(dir, rows, ta, tasks, clock, outs[..n]);
      ServedLonger(outs);
    }
  }

  /** A row added by the first k bodies belongs to a served index. */
  lemma NewRowIsServed(rows: seq<Row>, ta: TurnaroundId, tasks: seq<TaskInfo>, outs: seq<Outcome>, k: nat, i: nat)
    returns (g: nat)
    requires k <= |outs| <= |tasks| && |rows| <= i < |RunRows(rows, ta, tasks, outs[..k])|
    ensures g in Served(outs)
    ensures RunRows(rows, ta, tasks, outs[..k])[i].task == tasks[g].id &&
            RunRows(rows, ta, tasks, outs[..k])[i].crew == outs[g].member.id
  {
    RunAppends(rows, ta, tasks, outs[..k]);
    var row := RunRows(rows, ta, tasks, outs[..k])[i];
    assert Justified(row, ta, tasks, outs[..k]);
    g :| 0 <= g < k && outs[..k][g].AssignedTo? && NeedsCrew(tasks[g]) &&
         row == Row(outs[..k][g].member.id, ta, tasks[g].id, tasks[g].certification.value, Assigned);
  }

  /** For an index of a feasible plan, the run served either the same task id or used the same crew member. */
  lemma PlanIsCharged(dir: Directory, rows: seq<Row>, ta: TurnaroundId, tasks: seq<TaskInfo>, clock: seq<Instant>,
                      outs: seq<Outcome>,
                      plan: map<nat, Member>, k: nat)
    requires |clock| == |tasks| == |outs| && LegalRun(dir, rows, ta, tasks, clock, outs) && Exclusive(rows)
    requires Feasible(dir, rows, ta, tasks, clock, plan) && k in plan
    ensures exists g :: g in Served(outs) && (tasks[g].id == tasks[k].id || outs[g].member.id == plan[k].id)
  {
    var before := RunRows(rows, ta, tasks, outs[..k]);
    DecisionIsLegal(dir, rows, ta, tasks, clock, outs, k);
    RunKeepsExclusive(dir, rows, ta, tasks, clock, outs);
    RunAppends(rows, ta, tasks, outs[..k]);
    assert forall i :: 0 <= i < |rows| ==> before[i] == rows[i];
    if outs[k].AssignedTo? {
      assert k in Served(outs);
    } else if HasOpen(before, ta, tasks[k].id) {
      var i :| 0 <= i < |before| && OpenFor(before[i], ta, tasks[k].id);
      var g := NewRowIsServed(rows, ta, tasks, outs, k, i);
    } else {
      AvailabilityQueryIsExact(dir, before, tasks[k].certification.value, clock[k], None);
      var i :| 0 <= i < |before| && Open(before[i]) && before[i].crew == plan[k].id;
      var g := NewRowIsServed(rows, ta, tasks, outs, k, i);
    }
  }

  /**
    Greedy is half-optimal: over any event, with any clock readings and any tie-breaking,
    no plan staffs more than twice as many tasks as the loop did.
  */
  lemma GreedyIsHalfOptimal(dir: Directory, rows: seq<Row>, ta: TurnaroundId, tasks: seq<TaskInfo>,
                            clock: seq<Instant>, outs: seq<Outcome>,
                            plan: map<nat, Member>)
    requires |clock| == |tasks| && LegalRun(dir, rows, ta, tasks, clock, outs) && Finished(tasks, outs) &&
             Exclusive(rows)
    requires Feasible(dir, rows, ta, tasks, clock, plan)
    ensures |plan| <= 2 * (|RunRows(rows, ta, tasks, outs)| - |rows|)
  {
    RunKeepsExclusive(dir, rows, ta, tasks, clock, outs);
    ServedCountsRows(dir, rows, ta, tasks, clock, outs);
    var served := Served(outs);
    var planTasks, planCrew := TaskIds(tasks, plan.Keys), CrewIds(plan);
    var servedTasks, servedCrew := TaskIds(tasks, served), CrewIds(Matching(outs));
    forall k | k in plan
      ensures Charged(planTasks[k], served, servedTasks) || Charged(planCrew[k], served, servedCrew)
    {
      PlanIsCharged(dir, rows, ta, tasks, clock, outs, plan, k);
      var g :| g in served && (tasks[g].id == tasks[k].id || outs[g].member.id == plan[k].id);
      assert servedTasks[g] == planTasks[k] || servedCrew[g] == planCrew[k];
    }
    DoubleCharge(plan.Keys, served, planTasks, planCrew, servedTasks, servedCrew);
    assert |plan| == |plan.Keys|;
  }

  /**
    The assignments are a matching of eligible, previously free crew onto previously open-less tasks, and it is
    maximal: a certified task still without crew at the end has no free eligible member left.
  */
  lemma AssignmentsAreMaximalMatching(dir: Directory, rows: seq<Row>, ta: TurnaroundId, tasks: seq<TaskInfo>,
                                      clock: seq<Instant>, outs: seq<Outcome>)
    requires |clock| == |tasks| && LegalRun(dir, rows, ta, tasks, clock, outs) && Finished(tasks, outs) &&
             Exclusive(rows)
    ensures Feasible(dir, rows, ta, tasks, clock, Matching(outs))
    ensures forall k, m ::
              0 <= k < |tasks| && NeedsCrew(tasks[k]) && !HasOpen(RunRows(rows, ta, tasks, outs), ta, tasks[k].id)
              && Eligible(dir, m, tasks[k].certification.value, clock[k])
              ==> Busy(RunRows(rows, ta, tasks, outs), m.id)
  {
    var after := RunRows(rows, ta, tasks, outs);
    RunKeepsExclusive(dir, rows, ta, tasks, clock, outs);
    forall k | k in Served(outs)
      ensures NeedsCrew(tasks[k]) && !HasOpen(rows, ta, tasks[k].id)
      ensures Eligible(dir, outs[k].member, tasks[k].certification.value, clock[k]) && !Busy(rows, outs[k].member.id)
    {
      ServedIsFree(dir, rows, ta, tasks, clock, outs, k);
    }
    forall j, k | j in Served(outs) && k in Served(outs) && j != k
      ensures outs[j].member.id != outs[k].member.id && tasks[j].id != tasks[k].id
    {
      if j < k {
        ServedDiffer(dir, rows, ta, tasks, clock, outs, j, k);
      } else {
        ServedDiffer(dir, rows, ta, tasks, clock, outs, k, j);
      }
    }
    forall k, m | 0 <= k < |tasks| && NeedsCrew(tasks[k]) && !HasOpen(after, ta, tasks[k].id)
                  && Eligible(dir, m, tasks[k].certification.value, clock[k])
      ensures Busy(after, m.id)
    {
      UnservedHasNoCrew(dir, rows, ta, tasks, clock, outs, k, m);
    }
  }

  lemma ServedIsFree(dir: Directory, rows: seq<Row>, ta: TurnaroundId, tasks: seq<TaskInfo>, clock: seq<Instant>,
                     outs: seq<Outcome>, k: nat)
    requires |clock| == |tasks| && LegalRun(dir, rows, ta, tasks, clock, outs) && Exclusive(rows) && k in Served(outs)
    ensures NeedsCrew(tasks[k]) && !HasOpen(rows, ta, tasks[k].id)
    ensures Eligible(dir, outs[k].member, tasks[k].certification.value, clock[k]) && !Busy(rows, outs[k].member.id)
  {
    var before := RunRows(rows, ta, tasks, outs[..k]);
    DecisionIsLegal(dir, rows, ta, tasks, clock, outs, k);
    AvailabilityQueryIsExact(dir, before, tasks[k].certification.value, clock[k], Some(outs[k].member));
    RunAppends(rows, ta, tasks, outs[..k]);
    if Busy(rows, outs[k].member.id) {
      BusyGrows(rows, before, outs[k].member.id);
    }
    if HasOpen(rows, ta, tasks[k].id) {
      HasOpenGrows(rows, before, ta, tasks[k].id);
    }
  }

  lemma ServedDiffer(dir: Directory, rows: seq<Row>, ta: TurnaroundId, tasks: seq<TaskInfo>, clock: seq<Instant>,
                     outs: seq<Outcome>, j: nat, k: nat)
    requires |clock| == |tasks| && LegalRun(dir, rows, ta, tasks, clock, outs) && Exclusive(rows)
    requires j in Served(outs) && k in Served(outs) && j < k
    ensures outs[j].member.id != outs[k].member.id && tasks[j].id != tasks[k].id
  {
    DecisionIsLegal(dir, rows, ta, tasks, clock, outs, j);
    DecisionIsLegal(dir, rows, ta, tasks, clock, outs, k);
    var before := RunRows(rows, ta, tasks, outs[..k]);
    assert outs[..k][j] == outs[j];
    RunKeepsDecision(rows, ta, tasks, outs[..k], j);
    AvailabilityQueryIsExact(dir, before, tasks[k].certification.value, clock[k], Some(outs[k].member));
  }

  lemma UnservedHasNoCrew(dir: Directory, rows: seq<Row>, ta: TurnaroundId, tasks: seq<TaskInfo>, clock: seq<Instant>,
                          outs: seq<Outcome>, k: nat, m: Member)
    requires |clock| == |tasks| == |outs| && LegalRun(dir, rows, ta, tasks, clock, outs) && Raised !in outs
    requires k < |tasks| && NeedsCrew(tasks[k]) && !HasOpen(RunRows(rows, ta, tasks, outs), ta, tasks[k].id)
    requires Eligible(dir, m, tasks[k].certification.value, clock[k])
    ensures Busy(RunRows(rows, ta, tasks, outs), m.id)
  {
    var before := RunRows(rows, ta, tasks, outs[..k]);
    var after := RunRows(rows, ta, tasks, outs);
    DecisionIsLegal(dir, rows, ta, tasks, clock, outs, k);
    RunPrefix(rows, ta, tasks, outs, k);
    if HasOpen(before, ta, tasks[k].id) {
      HasOpenGrows(before, after, ta, tasks[k].id);
    }
    if outs[k].AssignedTo? {
      RunKeepsDecision(rows, ta, tasks, outs, k);
    }
    assert outs[k] == Unavailable;
    AvailabilityQueryIsExact(dir, before, tasks[k].certification.value, clock[k], None);
    BusyGrows(before, after, m.id);
  }

  // ---------- The bound is tight ----------

  const FUELING: string := "fueling"
  const CATERING: string := "catering"

  function Fueler(): Member { Member(2, 1, true) }
  function AllRounder(): Member { Member(1, 0, true) }

  function SmallCrew(): Directory {
    Directory([AllRounder(), Fueler()],
              [Certification(1, FUELING, 10, CertActive), Certification(1, CATERING, 10, CertActive),
               Certification(2, FUELING, 10, CertActive)],
              [Shift(1, 0, 0, 100, ShiftActive), Shift(2, 0, 0, 100, ShiftActive)])
  }

  function TwoTasks(): seq<TaskInfo> {
    [TaskInfo(1, FUELING, 1, Some(FUELING)), TaskInfo(2, CATERING, 2, Some(CATERING))]
  }

  lemma IsEligible(dir: Directory, m: Member, certType: string, now: Instant, c: nat, s: nat)
    requires m in dir.members && m.isActive && c < |dir.certifications| && s < |dir.shifts|
    requires Certifies(dir.certifications[c], m.id, certType, now) && OnDuty(dir.shifts[s], m.id, now)
    ensures Eligible(dir, m, certType, now)
  {
  }

  lemma SmallCrewEligibility()
    ensures Eligible(SmallCrew(), AllRounder(), FUELING, 5) && Eligible(SmallCrew(), AllRounder(), CATERING, 5)
    ensures Eligible(SmallCrew(), Fueler(), FUELING, 5)
  {
    var dir := SmallCrew();
    assert dir.members[0] == AllRounder() && dir.members[1] == Fueler();
    IsEligible(dir, AllRounder(), FUELING, 5, 0, 0);
    IsEligible(dir, AllRounder(), CATERING, 5, 1, 0);
    IsEligible(dir, Fueler(), FUELING, 5, 2, 1);
  }

  lemma OnlyTheAllRounderCaters(m: Member)
    requires Eligible(SmallCrew(), m, CATERING, 5)
    ensures m == AllRounder()
  {
  }

  function FirstRow(): Row { Row(1, 0, 1, FUELING, Assigned) }

  lemma FuelingGoesToTheAllRounder()
    ensures LegalOutcome(SmallCrew(), [], 0, TwoTasks()[0], 5, AssignedTo(AllRounder()))
  {
  }

  lemma CateringFindsNobody()
    ensures LegalOutcome(SmallCrew(), [FirstRow()], 0, TwoTasks()[1], 5, Unavailable)
  {
    var rows := [FirstRow()];
    assert Open(rows[0]) && !OpenFor(rows[0], 0, 2);
    forall m | Eligible(SmallCrew(), m, CATERING, 5) ensures Busy(rows, m.id) {
      OnlyTheAllRounderCaters(m);
    }
    AvailabilityQueryIsExact(SmallCrew(), rows, CATERING, 5, None);
  }

  lemma OneBody(dir: Directory, rows: seq<Row>, ta: TurnaroundId, tasks: seq<TaskInfo>, clock: seq<Instant>, o: Outcome)
    requires |tasks| == |clock| > 0 && LegalOutcome(dir, rows, ta, tasks[0], clock[0], o)
    ensures LegalRun(dir, rows, ta, tasks, clock, [o])
    ensures RunRows(rows, ta, tasks, [o]) == Apply(rows, ta, tasks[0], o)
  {
    RunExtends(dir, rows, ta, tasks, clock, [], o);
    assert [] + [o] == [o];
  }

  lemma TwoBodies(dir: Directory, rows: seq<Row>, ta: TurnaroundId, tasks: seq<TaskInfo>, clock: seq<Instant>,
                  o1: Outcome, o2: Outcome)
    requires |tasks| == |clock| == 2 && o1 != Raised
    requires LegalOutcome(dir, rows, ta, tasks[0], clock[0], o1)
    requires LegalOutcome(dir, Apply(rows, ta, tasks[0], o1), ta, tasks[1], clock[1], o2)
    ensures LegalRun(dir, rows, ta, tasks, clock, [o1, o2])
    ensures RunRows(rows, ta, tasks, [o1, o2]) == Apply(Apply(rows, ta, tasks[0], o1), ta, tasks[1], o2)
  {
    OneBody(dir, rows, ta, tasks, clock, o1);
    RunExtends(dir, rows, ta, tasks, clock, [o1], o2);
    assert [o1] + [o2] == [o1, o2];
  }

  lemma TwoStaffed(dir: Directory, ta: TurnaroundId, tasks: seq<TaskInfo>, clock: seq<Instant>, m0: Member, m1: Member)
    requires |tasks| == |clock| == 2 && NeedsCrew(tasks[0]) && NeedsCrew(tasks[1]) && tasks[0].id != tasks[1].id &&
             m0.id != m1.id
    requires Eligible(dir, m0, tasks[0].certification.value, clock[0]) &&
             Eligible(dir, m1, tasks[1].certification.value, clock[1])
    ensures Feasible(dir, [], ta, tasks, clock, map[0 := m0, 1 := m1])
  {
  }

  /** Both tasks could be staffed. */
  lemma BothCouldBeStaffed()
    ensures Feasible(SmallCrew(), [], 0, TwoTasks(), [5, 5], map[0 := Fueler(), 1 := AllRounder()])
  {
    SmallCrewEligibility();
    TwoStaffed(SmallCrew(), 0, TwoTasks(), [5, 5], Fueler(), AllRounder());
  }

  /** Greedy hands the all-rounder to fueling and leaves catering without crew, although both could be staffed. */
  lemma HalfIsTight()
    ensures LegalRun(SmallCrew(), [], 0, TwoTasks(), [5, 5], [AssignedTo(AllRounder()), Unavailable])
    ensures RunRows([], 0, TwoTasks(), [AssignedTo(AllRounder()), Unavailable]) == [FirstRow()]
    ensures Feasible(SmallCrew(), [], 0, TwoTasks(), [5, 5], map[0 := Fueler(), 1 := AllRounder()])
  {
    FuelingGoesToTheAllRounder();
    CateringFindsNobody();
    BothCouldBeStaffed();
    var first := AssignedTo(AllRounder());
    assert Apply([], 0, TwoTasks()[0], first) == [FirstRow()];
    TwoBodies(SmallCrew(), [], 0, TwoTasks(), [5, 5], first, Unavailable);
  }
}
