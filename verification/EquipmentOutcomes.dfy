/**
  What the equipment operations do and announce, in terms of the columns of the two tables alone.
*/
module EquipmentOutcomes {
  import opened Wrappers
  import opened Equipment
  import opened EquipmentOptimal
  import opened CrewHandlers
  import Counting

  // ---------- Single operations ----------

  /** Only an existing available unit is assigned; it becomes in use, with one new row that has no release time. */
  lemma AssignMeaning(db: Db, u: UnitId, ta: TurnaroundId, task: TaskId, v: UnitId)
    ensures var done := u in db.units && db.units[u].status == Available;
            var after := Assign(db, u, ta, task);
            && after.rows == (if done then db.rows + [EquipmentRow(u, ta, task, None)] else db.rows)
            && after.units.Keys == db.units.Keys
            && (v in db.units ==>
                  after.units[v] == if done && v == u
                                    then Unit(db.units[u].kind, db.units[u].registration, InUse, db.units[u].terminal)
                                    else db.units[v])
  {
  }

  /** A unit with exactly one row without release time gets it stamped and becomes available; nothing else changes. */
  lemma ReleaseMeaning(db: Db, u: UnitId, now: Instant, i: nat, v: UnitId)
    requires i < |db.rows| && v in db.units
    ensures var held := set j | 0 <= j < |db.rows| && db.rows[j].unit == u && db.rows[j].releasedAt == None;
            var done := u in db.units && |held| == 1;
            var after := Release(db, u, now);
            && |after.rows| == |db.rows| && after.units.Keys == db.units.Keys
            && after.rows[i] == (if done && i in held then db.rows[i].(releasedAt := Some(now)) else db.rows[i])
            && after.units[v] == if done && v == u
                                 then Unit(db.units[v].kind, db.units[v].registration, Available, db.units[v].terminal)
                                 else db.units[v]
  {
    UnitCounts(db.rows, u);
  }

  lemma UnitCounts(rows: seq<EquipmentRow>, u: UnitId)
    ensures var held := set j | 0 <= j < |rows| && rows[j].unit == u && rows[j].releasedAt == None;
            (|held| == 1 <==> UnitOpen(rows, u) && !UnitTwoOpen(rows, u)) && (|held| > 1 <==> UnitTwoOpen(rows, u))
  {
    var held := set j | 0 <= j < |rows| && rows[j].unit == u && rows[j].releasedAt == None;
    if i, j :| 0 <= i < j < |rows| && OpenOf(rows[i], u) && OpenOf(rows[j], u) {
      Counting.SubsetBound({i, j}, held);
    } else if i :| 0 <= i < |rows| && OpenOf(rows[i], u) {
      assert held == {i};
    } else {
      assert held == {};
    }
  }

  /** A request overwrites the status and the terminal of its unit where it carries them, and nothing else. */
  lemma PatchMeaning(db: Db, u: UnitId, status: Option<UnitStatus>, terminal: Option<string>, v: UnitId)
    requires v in db.units
    ensures var after, unit := Patch(db, u, status, terminal), db.units[v];
            && after.rows == db.rows && after.units.Keys == db.units.Keys
            && after.units[v] == if v != u then unit
                                 else Unit(unit.kind, unit.registration,
                                           if status.Some? then status.value else unit.status,
                                           if terminal.Some? then terminal else unit.terminal)
  {
  }

  /** A new unit is available; a registration that some unit has already is refused. */
  lemma CreateMeaning(db: Db, u: UnitId, kind: Kind, registration: nat, terminal: Option<string>)
    requires u !in db.units
    ensures Create(db, u, kind, registration, terminal) ==
            if exists v :: v in db.units && db.units[v].registration == registration then db
            else Db(db.units[u := Unit(kind, registration, Available, terminal)], db.rows)
  {
  }

  // ---------- One decision ----------

  /** An assignment of this task that has not been released. */
  predicate Unreleased(row: EquipmentRow, ta: TurnaroundId, task: TaskId) {
    row.turnaround == ta && row.task == task && row.releasedAt == None
  }

  /** TASK_EQUIPMENT_MAP, name by name. */
  function MappedKind(name: string): Option<Kind> {
    match name
    case "fueling" => Some(FuelTruck)
    case "catering" => Some(CateringTruck)
    case "cargo_unload" => Some(BeltLoader)
    case "cargo_load" => Some(BeltLoader)
    case "deboarding" => Some(Gpu)
    case "boarding" => Some(Gpu)
    case _ => None
  }

  lemma MapIsExact(name: string)
    ensures RequiredKind(name) == MappedKind(name)
  {
  }

  /**
    Which decision the loop takes for a task: none for a name outside the map; an exception on two unreleased
    assignments, and nothing on one; otherwise a unit of the mapped type that is available and of lowest registration,
    or none if there is none.
  */
  lemma DecisionMeaning(db: Db, ta: TurnaroundId, task: Task, o: Outcome)
    ensures LegalOutcome(db, ta, task, o) <==>
            var kind := MappedKind(task.name);
            var held := set i | 0 <= i < |db.rows| && Unreleased(db.rows[i], ta, task.id);
            if kind == None then o == NoMapping
            else if |held| > 1 then o == Raised
            else if |held| == 1 then o == AlreadyEquipped
            else match o
              case Equipped(u) =>
                && u in db.units && db.units[u].kind == kind.value && db.units[u].status == Available
                && forall v :: v in db.units && db.units[v].kind == kind.value && db.units[v].status == Available ==>
                   db.units[u].registration <= db.units[v].registration
              case NoUnit =>
                forall v :: v in db.units && db.units[v].kind == kind.value ==> db.units[v].status != Available
              case _ => false
  {
    TaskCounts(db.rows, ta, task.id);
    MapIsExact(task.name);
    if RequiredKind(task.name).Some? {
      var kind := RequiredKind(task.name).value;
      assert forall v :: Usable(db.units, kind, v) <==>
        v in db.units && db.units[v].kind == kind && db.units[v].status == Available;
    }
  }

  lemma TaskCounts(rows: seq<EquipmentRow>, ta: TurnaroundId, task: TaskId)
    ensures var held := set i | 0 <= i < |rows| && Unreleased(rows[i], ta, task);
            (|held| > 1 <==> HasTwoOpen(rows, ta, task)) && (|held| > 0 <==> HasOpen(rows, ta, task))
  {
    var held := set i | 0 <= i < |rows| && Unreleased(rows[i], ta, task);
    if i, j :| 0 <= i < j < |rows| && OpenFor(rows[i], ta, task) && OpenFor(rows[j], ta, task) {
      Counting.SubsetBound({i, j}, held);
    } else if i :| 0 <= i < |rows| && OpenFor(rows[i], ta, task) {
      assert held == {i};
    } else {
      assert held == {};
    }
  }

  // ---------- What is announced ----------

  /** The row an "assigned" event speaks of. */
  function RowAnnounced(e: EquipmentEvent): seq<EquipmentRow> {
    if e.unit.Some? then [EquipmentRow(e.unit.value, e.ta, e.task.id, None)] else []
  }

  /** The rows that the events of a list speak of, in order. */
  function RowsAnnounced(events: seq<EquipmentEvent>): seq<EquipmentRow> {
    if events == [] then [] else RowsAnnounced(events[..|events| - 1]) + RowAnnounced(events[|events| - 1])
  }

  lemma OneMoreAnnounced(events: seq<EquipmentEvent>, e: EquipmentEvent)
    ensures RowsAnnounced(events + [e]) == RowsAnnounced(events) + RowAnnounced(e)
  {
    assert (events + [e])[..|events|] == events;
  }

  /** The row a decision inserts. */
  function RowInserted(ta: TurnaroundId, task: Task, o: Outcome): seq<EquipmentRow> {
    if o.Equipped? then [EquipmentRow(o.unit, ta, task.id, None)] else []
  }

  lemma RunGrows(db: Db, ta: TurnaroundId, tasks: seq<Task>, outs: seq<Outcome>)
    requires outs != [] && LegalRun(db, ta, tasks, outs)
    ensures var n := |outs| - 1;
            RunDb(db, ta, tasks, outs).rows ==
            RunDb(db, ta, tasks, outs[..n]).rows + RowInserted(ta, tasks[n], outs[n])
  {
  }

  lemma ElementAnnounces(events: seq<EquipmentEvent>, ta: TurnaroundId, flight: FlightId, task: Task, o: Outcome)
    requires o.Equipped? ==> RequiredKind(task.name).Some?
    ensures RowsAnnounced(events + EquipmentElement(ta, flight, task, o)) ==
            RowsAnnounced(events) + RowInserted(ta, task, o)
  {
    var element := EquipmentElement(ta, flight, task, o);
    if element == [] {
      assert events + element == events;
    } else {
      OneMoreAnnounced(events, element[0]);
    }
  }

  lemma ReportGrows(ta: TurnaroundId, flight: FlightId, tasks: seq<Task>, outs: seq<Outcome>)
    requires 0 < |outs| <= |tasks|
    requires var n := |outs| - 1; outs[n].Equipped? ==> RequiredKind(tasks[n].name).Some?
    ensures var n := |outs| - 1;
            RowsAnnounced(EquipmentReport(ta, flight, tasks, outs)) ==
            RowsAnnounced(EquipmentReport(ta, flight, tasks, outs[..n])) + RowInserted(ta, tasks[n], outs[n])
  {
    var n := |outs| - 1;
    ElementAnnounces(EquipmentReport(ta, flight, tasks, outs[..n]), ta, flight, tasks[n], outs[n]);
  }

  /** The "assigned" events speak of exactly the rows the run has inserted, unit for unit and in order. */
  lemma {:induction false} AnnouncedRowsAreInserted(db: Db, ta: TurnaroundId, flight: FlightId, tasks: seq<Task>,
                                                    outs: seq<Outcome>)
    requires LegalRun(db, ta, tasks, outs)
    ensures RunDb(db, ta, tasks, outs).rows == db.rows + RowsAnnounced(EquipmentReport(ta, flight, tasks, outs))
    decreases |outs|
  {
    if outs != [] {
      var n := |outs| - 1;
      AnnouncedRowsAreInserted(db, ta, flight, tasks, outs[..n]);
      RunGrows(db, ta, tasks, outs);
      ReportGrows(ta, flight, tasks, outs);
      Regroup(db.rows, RowsAnnounced(EquipmentReport(ta, flight, tasks, outs[..n])),
              RowInserted(ta, tasks[n], outs[n]));
    }
  }

  /** The event lists of a run: one for each search, naming its task, the type looked for, and the unit found if any. */
  lemma {:induction false} ReportHas(ta: TurnaroundId, flight: FlightId, tasks: seq<Task>, outs: seq<Outcome>,
                                     e: EquipmentEvent)
    requires |outs| <= |tasks|
    ensures e in EquipmentReport(ta, flight, tasks, outs) <==>
            exists k :: 0 <= k < |outs| && e.ta == ta && e.flight == flight && e.task == tasks[k] &&
              RequiredKind(tasks[k].name) == Some(e.kind) &&
              outs[k] == if e.unit.Some? then Equipped(e.unit.value) else NoUnit
  {
    if outs != [] {
      var n := |outs| - 1;
      ReportHas(ta, flight, tasks, outs[..n], e);
      assert forall k :: 0 <= k < n ==> outs[..n][k] == outs[k];
    }
  }

  /** This type of unit is mapped to the task, and the task holds none. */
  ghost predicate Unequipped(rows: seq<EquipmentRow>, ta: TurnaroundId, task: Task, kind: Kind) {
    RequiredKind(task.name) == Some(kind) && forall i :: 0 <= i < |rows| ==> !Unreleased(rows[i], ta, task.id)
  }

  /**
    Of an event with different tasks, exactly those are announced as unavailable that have a mapped type and hold no
    unit when the loop ends.
  */
  lemma UnavailableMeansUnequipped(db: Db, ta: TurnaroundId, flight: FlightId, tasks: seq<Task>, outs: seq<Outcome>,
                                   k: nat, kind: Kind)
    requires LegalRun(db, ta, tasks, outs) && Finished(tasks, outs)
    requires Equipment.Valid(db) && DistinctIds(tasks) && k < |tasks|
    ensures EquipmentEvent(ta, flight, tasks[k], kind, None) in EquipmentReport(ta, flight, tasks, outs) <==>
            Unequipped(RunDb(db, ta, tasks, outs).rows, ta, tasks[k], kind)
  {
    RunKeepsValid(db, ta, tasks, outs);
    ReportedMissing(ta, flight, tasks, outs, k, kind);
    HeldMeaning(RunDb(db, ta, tasks, outs).rows, ta, tasks[k].id);
    if RequiredKind(tasks[k].name).Some? {
      HeldAtTheEnd(db, ta, tasks, outs, k);
    }
  }

  lemma HeldMeaning(rows: seq<EquipmentRow>, ta: TurnaroundId, task: TaskId)
    ensures HasOpen(rows, ta, task) <==> exists i :: 0 <= i < |rows| && Unreleased(rows[i], ta, task)
  {
  }

  lemma ReportedMissing(ta: TurnaroundId, flight: FlightId, tasks: seq<Task>, outs: seq<Outcome>, k: nat, kind: Kind)
    requires |outs| == |tasks| && DistinctIds(tasks) && k < |tasks|
    ensures EquipmentEvent(ta, flight, tasks[k], kind, None) in EquipmentReport(ta, flight, tasks, outs) <==>
            RequiredKind(tasks[k].name) == Some(kind) && outs[k] == NoUnit
  {
    ReportHas(ta, flight, tasks, outs, EquipmentEvent(ta, flight, tasks[k], kind, None));
  }

  /** An announced unit exists, was available, and is of the announced type. */
  lemma AnnouncedUnitFits(db: Db, ta: TurnaroundId, flight: FlightId, tasks: seq<Task>, outs: seq<Outcome>,
                          e: EquipmentEvent)
    requires LegalRun(db, ta, tasks, outs) && e in EquipmentReport(ta, flight, tasks, outs) && e.unit.Some?
    ensures e.unit.value in db.units
    ensures db.units[e.unit.value].kind == e.kind && db.units[e.unit.value].status == Available
  {
    ReportHas(ta, flight, tasks, outs, e);
    var j :| 0 <= j < |outs| && RequiredKind(tasks[j].name) == Some(e.kind) && outs[j] == Equipped(e.unit.value);
    EquippedMeaning(db, ta, tasks, outs, j);
  }

  /** The task is held at the end exactly if it was found held or got a unit. */
  lemma HeldAtTheEnd(db: Db, ta: TurnaroundId, tasks: seq<Task>, outs: seq<Outcome>, k: nat)
    requires LegalRun(db, ta, tasks, outs) && |outs| == |tasks| && Raised !in outs
    requires DistinctIds(tasks) && k < |tasks| && RequiredKind(tasks[k].name).Some?
    ensures HasOpen(RunDb(db, ta, tasks, outs).rows, ta, tasks[k].id) <==> outs[k] != NoUnit
  {
    var before, after := RunDb(db, ta, tasks, outs[..k]).rows, RunDb(db, ta, tasks, outs).rows;
    DecisionIsLegal(db, ta, tasks, outs, k);
    RunPrefix(db, ta, tasks, outs, k);
    if outs[k].Equipped? {
      EquippedMeaning(db, ta, tasks, outs, k);
    } else if outs[k] == AlreadyEquipped {
      var i :| 0 <= i < |before| && OpenFor(before[i], ta, tasks[k].id);
      assert after[i] == before[i];
    } else {
      RunEffect(db, ta, tasks, outs);
      RunEffect(db, ta, tasks, outs[..k]);
      assert !HasOpen(before, ta, tasks[k].id);
      forall i | 0 <= i < |after| ensures !OpenFor(after[i], ta, tasks[k].id) {
        if i < |db.rows| {
          assert after[i] == before[i];
        } else {
          assert Justified(after[i], ta, tasks, outs);
        }
      }
    }
  }
}
