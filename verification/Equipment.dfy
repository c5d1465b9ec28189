/** The ground-equipment tables of the crew service, as values: assignment, release and the auto-assignment loop. */
module Equipment {
  import opened Wrappers
  import opened Transitions
  import CrewAssignment

  type UnitId = nat
  type TurnaroundId = CrewAssignment.TurnaroundId
  type TaskId = CrewAssignment.TaskId
  type Instant = CrewAssignment.Instant

  datatype Kind =
    | Gpu | PushbackTug | BeltLoader | FuelTruck | LavatoryTruck | WaterTruck | CateringTruck | AirStartUnit
    | DeIcingTruck
  datatype UnitStatus = Available | InUse | Maintenance | OutOfService

  /** `registration` is the position of the unique registration in the database's collation. */
  datatype Unit = Unit(kind: Kind, registration: nat, status: UnitStatus, terminal: Option<string>)
  datatype EquipmentRow = EquipmentRow(unit: UnitId, turnaround: TurnaroundId, task: TaskId,
                                       releasedAt: Option<Instant>)

  /** The equipment table by primary key, and equipment_assignments in insertion order. */
  datatype Db = Db(units: map<UnitId, Unit>, rows: seq<EquipmentRow>)

  datatype Task = Task(id: TaskId, name: string)

  datatype Outcome = NoMapping | AlreadyEquipped | NoUnit | Equipped(unit: UnitId) | Raised

  /** TASK_EQUIPMENT_MAP. */
  function RequiredKind(name: string): Option<Kind> {
    if name == "fueling" then Some(FuelTruck)
    else if name == "catering" then Some(CateringTruck)
    else if name == "cargo_unload" || name == "cargo_load" then Some(BeltLoader)
    else if name == "deboarding" || name == "boarding" then Some(Gpu)
    else None
  }

  // ---------- Queries ----------

  predicate OpenFor(row: EquipmentRow, ta: TurnaroundId, task: TaskId) {
    row.turnaround == ta && row.task == task && row.releasedAt == None
  }

  predicate OpenOf(row: EquipmentRow, u: UnitId) {
    row.unit == u && row.releasedAt == None
  }

  predicate HasOpen(rows: seq<EquipmentRow>, ta: TurnaroundId, task: TaskId) {
    exists i :: 0 <= i < |rows| && OpenFor(rows[i], ta, task)
  }

  predicate HasTwoOpen(rows: seq<EquipmentRow>, ta: TurnaroundId, task: TaskId) {
    exists i, j :: 0 <= i < j < |rows| && OpenFor(rows[i], ta, task) && OpenFor(rows[j], ta, task)
  }

  predicate UnitOpen(rows: seq<EquipmentRow>, u: UnitId) {
    exists i :: 0 <= i < |rows| && OpenOf(rows[i], u)
  }

  predicate UnitTwoOpen(rows: seq<EquipmentRow>, u: UnitId) {
    exists i, j :: 0 <= i < j < |rows| && OpenOf(rows[i], u) && OpenOf(rows[j], u)
  }

  predicate Usable(units: map<UnitId, Unit>, kind: Kind, u: UnitId) {
    u in units && units[u].kind == kind && units[u].status == Available
  }

  /** `ORDER BY registration LIMIT 1` over the available units of a kind. */
  ghost predicate FindAnswer(units: map<UnitId, Unit>, kind: Kind, answer: Option<UnitId>) {
    match answer
    case None => forall u :: !Usable(units, kind, u)
    case Some(u) =>
      && Usable(units, kind, u)
      && forall v :: Usable(units, kind, v) ==> units[u].registration <= units[v].registration
  }

  // ---------- Single operations ----------

  /** `assign_equipment`: nothing happens unless the unit exists and is available. */
  function Assign(db: Db, u: UnitId, ta: TurnaroundId, task: TaskId): Db {
    if u !in db.units || db.units[u].status != Available then db
    else Db(db.units[u := db.units[u].(status := InUse)], db.rows + [EquipmentRow(u, ta, task, None)])
  }

  /** `release_equipment`: an unknown unit, no open row, or an exception on two, changes nothing. */
  function Release(db: Db, u: UnitId, now: Instant): Db {
    if u !in db.units || !UnitOpen(db.rows, u) || UnitTwoOpen(db.rows, u) then db
    else Db(db.units[u := db.units[u].(status := Available)],
            seq(|db.rows|, i requires 0 <= i < |db.rows| =>
                  if OpenOf(db.rows[i], u) then db.rows[i].(releasedAt := Some(now)) else db.rows[i]))
  }

  /** The equipment half of the task-completed handler: find the open row of the task, release its unit. */
  ghost function Complete(db: Db, ta: TurnaroundId, task: TaskId, now: Instant): Db {
    if HasTwoOpen(db.rows, ta, task) || !HasOpen(db.rows, ta, task) then db
    else
      var i :| 0 <= i < |db.rows| && OpenFor(db.rows[i], ta, task);
      Release(db, db.rows[i].unit, now)
  }

  /** `update_equipment`: the two fields a request may carry are overwritten where present. */
  function Patch(db: Db, u: UnitId, status: Option<UnitStatus>, terminal: Option<string>): Db {
    if u !in db.units then db
    else
      var unit := db.units[u];
      db.(units := db.units[u := unit.(status := if status.Some? then status.value else unit.status,
                                       terminal := Override(unit.terminal, terminal))])
  }

  predicate Registered(units: map<UnitId, Unit>, registration: nat) {
    exists u :: u in units && units[u].registration == registration
  }

  /** `create_equipment`: registrations are unique, so a known one is an error that changes nothing. */
  function Create(db: Db, u: UnitId, kind: Kind, registration: nat, terminal: Option<string>): Db
    requires u !in db.units
  {
    if Registered(db.units, registration) then db
    else db.(units := db.units[u := Unit(kind, registration, Available, terminal)])
  }

  ghost predicate LegalOutcome(db: Db, ta: TurnaroundId, task: Task, o: Outcome) {
    match RequiredKind(task.name)
    case None => o == NoMapping
    case Some(kind) =>
      if HasTwoOpen(db.rows, ta, task.id) then o == Raised
      else if HasOpen(db.rows, ta, task.id) then o == AlreadyEquipped
      else match o
        case NoUnit => FindAnswer(db.units, kind, None)
        case Equipped(u) => FindAnswer(db.units, kind, Some(u))
        case _ => false
  }

  function Apply(db: Db, ta: TurnaroundId, task: Task, o: Outcome): Db {
    if o.Equipped? then Assign(db, o.unit, ta, task.id) else db
  }

  // ---------- Row/status agreement over every run ----------

  /** A unit is in use exactly when it has an open row, and then it has only one. */
  ghost predicate Agreement(db: Db) {
    && (forall i :: 0 <= i < |db.rows| ==> db.rows[i].unit in db.units)
    && (forall u :: !UnitTwoOpen(db.rows, u))
    && (forall u :: u in db.units ==> (db.units[u].status == InUse <==> UnitOpen(db.rows, u)))
  }

  /** No task holds two units. */
  ghost predicate TaskUnique(db: Db) {
    forall ta, task :: !HasTwoOpen(db.rows, ta, task)
  }

  /** Exactly when a status patch keeps the tables in agreement. */
  lemma PatchKeepsAgreementIff(db: Db, u: UnitId, status: Option<UnitStatus>, terminal: Option<string>)
    requires Agreement(db)
    ensures Agreement(Patch(db, u, status, terminal)) <==>
            u !in db.units || status == None || (status == Some(InUse) <==> db.units[u].status == InUse)
  {
  }

  /** Exactly when a successful manual assignment leaves no task with two units. */
  lemma AssignKeepsTaskUniqueIff(db: Db, u: UnitId, ta: TurnaroundId, task: TaskId)
    requires TaskUnique(db) && u in db.units && db.units[u].status == Available
    ensures TaskUnique(Assign(db, u, ta, task)) <==> !HasOpen(db.rows, ta, task)
  {
    var rows' := Assign(db, u, ta, task).rows;
    assert forall i :: 0 <= i < |db.rows| ==> rows'[i] == db.rows[i];
    if i :| 0 <= i < |db.rows| && OpenFor(db.rows[i], ta, task) {
      assert OpenFor(rows'[i], ta, task) && OpenFor(rows'[|db.rows|], ta, task);
      assert HasTwoOpen(rows', ta, task);
    } else {
      forall t, x ensures !HasTwoOpen(rows', t, x) {
        if i, j :| 0 <= i < j < |rows'| && OpenFor(rows'[i], t, x) && OpenFor(rows'[j], t, x) {
          if j < |db.rows| {
            assert HasTwoOpen(db.rows, t, x);
          }
        }
      }
    }
  }

  lemma AssignKeepsAgreement(db: Db, u: UnitId, ta: TurnaroundId, task: TaskId)
    requires Agreement(db)
    ensures Agreement(Assign(db, u, ta, task))
    ensures u in db.units && db.units[u].status == Available ==> UnitOpen(Assign(db, u, ta, task).rows, u)
  {
    var db' := Assign(db, u, ta, task);
    if db' != db {
      assert forall i :: 0 <= i < |db.rows| ==> db'.rows[i] == db.rows[i];
      assert !UnitOpen(db.rows, u);
      forall v ensures !UnitTwoOpen(db'.rows, v) && (UnitOpen(db'.rows, v) <==> v == u || UnitOpen(db.rows, v)) {
        assert OpenOf(db'.rows[|db.rows|], u);
        if i :| 0 <= i < |db.rows| && OpenOf(db.rows[i], v) {
          assert OpenOf(db'.rows[i], v);
        }
        if i, j :| 0 <= i < j < |db'.rows| && OpenOf(db'.rows[i], v) && OpenOf(db'.rows[j], v) {
          if j < |db.rows| {
            assert UnitTwoOpen(db.rows, v);
          }
        }
      }
    }
  }

  lemma ReleaseKeepsInvariants(db: Db, u: UnitId, now: Instant)
    requires Agreement(db)
    ensures Agreement(Release(db, u, now))
    ensures TaskUnique(db) ==> TaskUnique(Release(db, u, now))
  {
    var db' := Release(db, u, now);
    if db' != db {
      assert forall i :: 0 <= i < |db.rows| && !OpenOf(db.rows[i], u) ==> db'.rows[i] == db.rows[i];
      forall v ensures !UnitTwoOpen(db'.rows, v) && (UnitOpen(db'.rows, v) <==> v != u && UnitOpen(db.rows, v)) {
        assert forall i :: 0 <= i < |db.rows| ==> (OpenOf(db'.rows[i], v) <==> v != u && OpenOf(db.rows[i], v));
        if UnitTwoOpen(db'.rows, v) {
          assert UnitTwoOpen(db.rows, v);
        }
      }
      if TaskUnique(db) {
        forall ta, task ensures !HasTwoOpen(db'.rows, ta, task) {
          assert forall i :: 0 <= i < |db.rows| && OpenFor(db'.rows[i], ta, task) ==> OpenFor(db.rows[i], ta, task);
          assert !HasTwoOpen(db.rows, ta, task);
        }
      }
    }
  }

  /** Releasing by unit id closes exactly the row the handler found by (turnaround, task), and nothing else. */
  lemma CompletionReleasesTheRowFound(db: Db, ta: TurnaroundId, task: TaskId, now: Instant, i: nat)
    requires Agreement(db) && TaskUnique(db) && i < |db.rows| && OpenFor(db.rows[i], ta, task)
    ensures Complete(db, ta, task, now) == Db(
              db.units[db.rows[i].unit := db.units[db.rows[i].unit].(status := Available)],
              db.rows[i := db.rows[i].(releasedAt := Some(now))])
  {
  }

  /** Everything that writes the two tables. */
  datatype Step =
    | CreateUnit(u: UnitId, kind: Kind, registration: nat, terminal: Option<string>)
    | ManualAssign(u: UnitId, ta: TurnaroundId, task: TaskId)
    | ReleaseUnit(u: UnitId, now: Instant)
    | PatchUnit(u: UnitId, status: Option<UnitStatus>, terminal: Option<string>)
    | AutoBody(ta: TurnaroundId, info: Task, outcome: Outcome)
    | TaskCompleted(ta: TurnaroundId, task: TaskId, now: Instant)

  /** What the step does to the tables. */
  ghost predicate Effect(db: Db, step: Step, db': Db) {
    match step
    case CreateUnit(u, kind, registration, terminal) =>
      u !in db.units && db' == Create(db, u, kind, registration, terminal)
    case ManualAssign(u, ta, task) => db' == Assign(db, u, ta, task)
    case ReleaseUnit(u, now) => db' == Release(db, u, now)
    case PatchUnit(u, status, terminal) => db' == Patch(db, u, status, terminal)
    case AutoBody(ta, info, o) => LegalOutcome(db, ta, info, o) && db' == Apply(db, ta, info, o)
    case TaskCompleted(ta, task, now) => db' == Complete(db, ta, task, now)
  }

  /** Patches keep `in_use` for the allocator; a manual assignment is not made for a task that holds a unit. */
  ghost predicate Careful(db: Db, step: Step) {
    match step
    case ManualAssign(u, ta, task) => !HasOpen(db.rows, ta, task)
    case PatchUnit(u, status, terminal) =>
      u in db.units && status.Some? ==> (status == Some(InUse) <==> db.units[u].status == InUse)
    case _ => true
  }

  ghost predicate Next(db: Db, step: Step, db': Db) {
    Careful(db, step) && Effect(db, step, db')
  }

  ghost predicate Valid(db: Db) {
    Agreement(db) && TaskUnique(db)
  }

  lemma StepKeepsValid(db: Db, step: Step, db': Db)
    requires Valid(db) && Next(db, step, db')
    ensures Valid(db')
    ensures step.AutoBody? ==> step.outcome != Raised
  {
    match step
    case CreateUnit(u, _, _, _) =>
      assert !UnitOpen(db.rows, u);
    case ManualAssign(u, ta, task) =>
      AssignKeepsAgreement(db, u, ta, task);
      if u in db.units && db.units[u].status == Available {
        AssignKeepsTaskUniqueIff(db, u, ta, task);
      }
    case ReleaseUnit(u, now) =>
      ReleaseKeepsInvariants(db, u, now);
    case PatchUnit(u, status, terminal) =>
      PatchKeepsAgreementIff(db, u, status, terminal);
    case AutoBody(ta, info, o) =>
      if o.Equipped? {
        AssignKeepsAgreement(db, o.unit, ta, info.id);
        AssignKeepsTaskUniqueIff(db, o.unit, ta, info.id);
      }
    case TaskCompleted(ta, task, now) =>
      if i :| 0 <= i < |db.rows| && OpenFor(db.rows[i], ta, task) {
        CompletionReleasesTheRowFound(db, ta, task, now, i);
        ReleaseKeepsInvariants(db, db.rows[i].unit, now);
        assert OpenOf(db.rows[i], db.rows[i].unit) && !UnitTwoOpen(db.rows, db.rows[i].unit);
        assert Complete(db, ta, task, now) == Release(db, db.rows[i].unit, now);
      }
  }

  /** Over all runs a unit is in use exactly when it has its one open row, and no lookup sees two rows. */
  lemma {:induction false} RowsAgreeWithStatus(states: seq<Db>, steps: seq<Step>, k: nat)
    requires Execution(Next, states, steps) && Valid(states[0]) && k <= |steps|
    ensures Valid(states[k])
    ensures forall j :: 0 <= j < k && steps[j].AutoBody? ==> steps[j].outcome != Raised
  {
    if k > 0 {
      RowsAgreeWithStatus(states, steps, k - 1);
      StepKeepsValid(states[k - 1], steps[k - 1], states[k]);
    }
  }

  // ---------- A run of the auto-assignment loop ----------

  function RunDb(db: Db, ta: TurnaroundId, tasks: seq<Task>, outs: seq<Outcome>): Db
    requires |outs| <= |tasks|
  {
    if outs == [] then db
    else Apply(RunDb(db, ta, tasks, outs[..|outs| - 1]), ta, tasks[|outs| - 1], outs[|outs| - 1])
  }

  ghost predicate LegalRun(db: Db, ta: TurnaroundId, tasks: seq<Task>, outs: seq<Outcome>) {
    |outs| <= |tasks| &&
    (outs != [] ==>
       var n := |outs| - 1;
       && LegalRun(db, ta, tasks, outs[..n])
       && Raised !in outs[..n]
       && LegalOutcome(RunDb(db, ta, tasks, outs[..n]), ta, tasks[n], outs[n]))
  }

  predicate Finished(tasks: seq<Task>, outs: seq<Outcome>) {
    |outs| == |tasks| || (|outs| > 0 && outs[|outs| - 1] == Raised)
  }

  lemma RunExtends(db: Db, ta: TurnaroundId, tasks: seq<Task>, outs: seq<Outcome>, o: Outcome)
    requires |outs| < |tasks| && LegalRun(db, ta, tasks, outs) && Raised !in outs
    requires LegalOutcome(RunDb(db, ta, tasks, outs), ta, tasks[|outs|], o)
    ensures LegalRun(db, ta, tasks, outs + [o])
    ensures RunDb(db, ta, tasks, outs + [o]) == Apply(RunDb(db, ta, tasks, outs), ta, tasks[|outs|], o)
  {
  }

  lemma {:induction false} DecisionIsLegal(db: Db, ta: TurnaroundId, tasks: seq<Task>, outs: seq<Outcome>, k: nat)
    requires LegalRun(db, ta, tasks, outs) && k < |outs|
    ensures LegalRun(db, ta, tasks, outs[..k])
    ensures LegalOutcome(RunDb(db, ta, tasks, outs[..k]), ta, tasks[k], outs[k])
    decreases |outs|
  {
    var n := |outs| - 1;
    if k < n {
      assert outs[..n][..k] == outs[..k];
      DecisionIsLegal(db, ta, tasks, outs[..n], k);
    }
  }

  /** A run from valid tables ends in valid tables without an exception. */
  lemma {:induction false} RunKeepsValid(db: Db, ta: TurnaroundId, tasks: seq<Task>, outs: seq<Outcome>)
    requires Valid(db) && LegalRun(db, ta, tasks, outs)
    ensures Valid(RunDb(db, ta, tasks, outs)) && Raised !in outs
    decreases |outs|
  {
    if outs != [] {
      var n := |outs| - 1;
      RunKeepsValid(db, ta, tasks, outs[..n]);
      var before := RunDb(db, ta, tasks, outs[..n]);
      StepKeepsValid(before, AutoBody(ta, tasks[n], outs[n]), Apply(before, ta, tasks[n], outs[n]));
    }
  }
}
