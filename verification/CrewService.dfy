/** The crew service's operations on its tables, as they run. */
module CrewService {
  import opened Wrappers
  import opened CrewHandlers
  import CA = CrewAssignment
  import EQ = Equipment

  datatype Lookup<T> = Found(value: T) | NotFound | MultipleResultsFound

  /** A filtered query followed by `scalar_one_or_none`, as a row index. */
  method ScalarOneOrNone<T>(rows: seq<T>, matches: T -> bool) returns (r: Lookup<nat>)
    ensures r == MultipleResultsFound <==> exists i, j :: 0 <= i < j < |rows| && matches(rows[i]) && matches(rows[j])
    ensures r == NotFound <==> forall i :: 0 <= i < |rows| ==> !matches(rows[i])
    ensures r.Found? ==> r.value < |rows| && matches(rows[r.value])
  {
    r := NotFound;
    for i := 0 to |rows|
      invariant r != MultipleResultsFound
      invariant r == NotFound <==> forall k :: 0 <= k < i ==> !matches(rows[k])
      invariant r.Found? ==> r.value < i && matches(rows[r.value])
      invariant r.Found? ==> forall k :: 0 <= k < i && k != r.value ==> !matches(rows[k])
    {
      if matches(rows[i]) {
        if r.Found? {
          return MultipleResultsFound;
        }
        r := Found(i);
      }
    }
  }

  class CrewService {
    var directory: CA.Directory
    var crewRows: seq<CA.Row>
    var units: map<EQ.UnitId, EQ.Unit>
    var equipmentRows: seq<EQ.EquipmentRow>
    var crewEvents: seq<CrewEvent>
    var equipmentEvents: seq<EquipmentEvent>

    function Equipment(): EQ.Db
      reads this`units, this`equipmentRows
    {
      EQ.Db(units, equipmentRows)
    }

    function AllTables(): Tables
      reads this
    {
      Tables(crewRows, Equipment())
    }

    constructor (directory: CA.Directory, units: map<EQ.UnitId, EQ.Unit>)
      ensures this.directory == directory && AllTables() == Tables([], EQ.Db(units, []))
      ensures crewEvents == [] && equipmentEvents == []
    {
      this.directory, this.units := directory, units;
      crewRows, equipmentRows := [], [];
      crewEvents, equipmentEvents := [], [];
    }

    // ---------- Crew ----------

    method FindAvailableCrew(certType: string, now: Instant) returns (r: Option<CA.Member>)
      ensures CA.QueryAnswer(directory, crewRows, certType, now, r)
    {
      var joined := CA.JoinMembers(directory.members, directory, crewRows, certType, now);
      if joined == [] {
        return None;
      }
      var best := joined[0];
      for i := 1 to |joined|
        invariant best in joined[..i]
        invariant forall k :: 0 <= k < i ==> best.lastName <= joined[k].lastName
      {
        if joined[i].lastName < best.lastName {
          best := joined[i];
        }
      }
      r := Some(best);
    }

    /** The open crew row of a task, as a row index. */
    method FindOpenCrewRow(ta: TurnaroundId, task: TaskId) returns (r: Lookup<nat>)
      ensures r == MultipleResultsFound <==> CA.HasTwoOpen(crewRows, ta, task)
      ensures r == NotFound <==> !CA.HasOpen(crewRows, ta, task)
      ensures r.Found? ==> r.value < |crewRows| && CA.OpenFor(crewRows[r.value], ta, task)
    {
      r := ScalarOneOrNone(crewRows, row => CA.OpenFor(row, ta, task));
    }

    /** The body of the crew loop; `o` records its decision. */
    method AutoAssignCrewTo(ta: TurnaroundId, flight: FlightId, task: TaskInfo, now: Instant)
      returns (result: seq<CrewEvent>, raised: bool, ghost o: CA.Outcome)
      modifies this`crewRows
      ensures CA.LegalOutcome(directory, old(crewRows), ta, task, now, o)
      ensures crewRows == CA.Apply(old(crewRows), ta, task, o)
      ensures result == CrewElement(ta, flight, task, o)
      ensures raised <==> o == CA.Raised
    {
      if !CA.NeedsCrew(task) {
        return [], false, CA.Skipped;
      }
      var existing := FindOpenCrewRow(ta, task.id);
      match existing {
        case MultipleResultsFound => return [], true, CA.Raised;
        case Found(_) => return [], false, CA.AlreadyAssigned;
        case NotFound =>
      }
      var crew := FindAvailableCrew(task.certification.value, now);
      if crew == None {
        return [CrewEvent(ta, flight, task, None)], false, CA.Unavailable;
      }
      crewRows := crewRows + [CA.Row(crew.value.id, ta, task.id, task.certification.value, CA.Assigned)];
      return [CrewEvent(ta, flight, task, crew)], false, CA.AssignedTo(crew.value);
    }

    /**
      The crew loop. `clock[i]` is what the i-th search reads as the current time; `outs` records the decisions.
      Without an exception the returned list has one element per assignment and per failed search, in order.
    */
    method AutoAssignCrew(ta: TurnaroundId, flight: FlightId, tasks: seq<TaskInfo>, clock: seq<Instant>)
      returns (results: seq<CrewEvent>, raised: bool, ghost outs: seq<CA.Outcome>)
      requires |clock| == |tasks|
      modifies this`crewRows
      ensures CA.LegalRun(directory, old(crewRows), ta, tasks, clock, outs) && CA.Finished(tasks, outs)
      ensures crewRows == CA.RunRows(old(crewRows), ta, tasks, outs)
      ensures results == CrewReport(ta, flight, tasks, outs)
      ensures raised <==> CA.Raised in outs
    {
      results, raised, outs := [], false, [];
      for i := 0 to |tasks|
        invariant |outs| == i && CA.Raised !in outs
        invariant CA.LegalRun(directory, old(crewRows), ta, tasks, clock, outs)
        invariant crewRows == CA.RunRows(old(crewRows), ta, tasks, outs)
        invariant results == CrewReport(ta, flight, tasks, outs)
      {
        var result;
        ghost var o;
        result, raised, o := AutoAssignCrewTo(ta, flight, tasks[i], clock[i]);
        CA.RunExtends(directory, old(crewRows), ta, tasks, clock, outs, o);
        assert (outs + [o])[..i] == outs;
        results, outs := results + result, outs + [o];
        if raised {
          return;
        }
      }
    }

    method FreeCrewMember(ta: TurnaroundId, task: TaskId) returns (r: Lookup<CA.Row>)
      modifies this`crewRows
      ensures crewRows == CA.Freed(old(crewRows), ta, task)
      ensures r == MultipleResultsFound <==> CA.HasTwoOpen(old(crewRows), ta, task)
      ensures r == NotFound <==> !CA.HasOpen(old(crewRows), ta, task)
      ensures r.Found? ==> r.value in old(crewRows) && CA.OpenFor(r.value, ta, task)
    {
      var found := FindOpenCrewRow(ta, task);
      match found {
        case MultipleResultsFound => r := MultipleResultsFound;
        case NotFound => r := NotFound;
        case Found(i) =>
          r := Found(crewRows[i]);
          crewRows := crewRows[i := crewRows[i].(status := CA.Completed)];
      }
    }

    // ---------- Equipment ----------

    method FindAvailableEquipment(kind: EQ.Kind) returns (r: Option<EQ.UnitId>)
      ensures EQ.FindAnswer(units, kind, r)
    {
      r := None;
      var left := units.Keys;
      while left != {}
        invariant left <= units.Keys
        invariant r.Some? ==> EQ.Usable(units, kind, r.value)
        invariant forall u :: EQ.Usable(units, kind, u) && u !in left ==>
                  r.Some? && units[r.value].registration <= units[u].registration
        decreases left
      {
        var u :| u in left;
        left := left - {u};
        if EQ.Usable(units, kind, u) && (r == None || units[u].registration < units[r.value].registration) {
          r := Some(u);
        }
      }
    }

    /** `u` is the id the database generates. */
    method CreateEquipment(u: EQ.UnitId, kind: EQ.Kind, registration: nat, terminal: Option<string>)
      returns (created: bool)
      requires u !in units
      modifies this`units
      ensures Equipment() == EQ.Create(old(Equipment()), u, kind, registration, terminal)
      ensures created <==> !EQ.Registered(old(units), registration)
    {
      created := true;
      var left := units.Keys;
      while left != {}
        invariant left <= units.Keys
        invariant created ==> forall v :: v in units && v !in left ==> units[v].registration != registration
        invariant !created ==> EQ.Registered(units, registration)
        decreases left
      {
        var v :| v in left;
        left := left - {v};
        if units[v].registration == registration {
          created := false;
        }
      }
      if created {
        units := units[u := EQ.Unit(kind, registration, EQ.Available, terminal)];
      }
    }

    method UpdateEquipment(u: EQ.UnitId, status: Option<EQ.UnitStatus>, terminal: Option<string>) returns (found: bool)
      modifies this`units
      ensures Equipment() == EQ.Patch(old(Equipment()), u, status, terminal)
      ensures found <==> u in old(units)
    {
      if u !in units {
        return false;
      }
      var unit := units[u];
      if status.Some? {
        unit := unit.(status := status.value);
      }
      if terminal.Some? {
        unit := unit.(terminal := terminal);
      }
      units := units[u := unit];
      return true;
    }

    method AssignEquipment(u: EQ.UnitId, ta: TurnaroundId, task: TaskId) returns (r: Option<EQ.EquipmentRow>)
      modifies this`units, this`equipmentRows
      ensures Equipment() == EQ.Assign(old(Equipment()), u, ta, task)
      ensures r == if u in old(units) && old(units)[u].status == EQ.Available
              then Some(EQ.EquipmentRow(u, ta, task, None)) else None
    {
      if u !in units || units[u].status != EQ.Available {
        return None;
      }
      var row := EQ.EquipmentRow(u, ta, task, None);
      units := units[u := units[u].(status := EQ.InUse)];
      equipmentRows := equipmentRows + [row];
      r := Some(row);
    }

    method FindOpenUnitRow(u: EQ.UnitId) returns (r: Lookup<nat>)
      ensures r == MultipleResultsFound <==> EQ.UnitTwoOpen(equipmentRows, u)
      ensures r == NotFound <==> !EQ.UnitOpen(equipmentRows, u)
      ensures r.Found? ==> r.value < |equipmentRows| && EQ.OpenOf(equipmentRows[r.value], u)
    {
      r := ScalarOneOrNone(equipmentRows, row => EQ.OpenOf(row, u));
    }

    method FindOpenTaskRow(ta: TurnaroundId, task: TaskId) returns (r: Lookup<nat>)
      ensures r == MultipleResultsFound <==> EQ.HasTwoOpen(equipmentRows, ta, task)
      ensures r == NotFound <==> !EQ.HasOpen(equipmentRows, ta, task)
      ensures r.Found? ==> r.value < |equipmentRows| && EQ.OpenFor(equipmentRows[r.value], ta, task)
    {
      r := ScalarOneOrNone(equipmentRows, row => EQ.OpenFor(row, ta, task));
    }

    method ReleaseEquipment(u: EQ.UnitId, now: Instant) returns (r: Lookup<EQ.EquipmentRow>)
      modifies this`units, this`equipmentRows
      ensures Equipment() == EQ.Release(old(Equipment()), u, now)
      ensures r == MultipleResultsFound <==> u in old(units) && EQ.UnitTwoOpen(old(equipmentRows), u)
      ensures r == NotFound <==> u !in old(units) || !EQ.UnitOpen(old(equipmentRows), u)
      ensures r.Found? ==> exists i :: 0 <= i < |old(equipmentRows)| && EQ.OpenOf(old(equipmentRows)[i], u)
                                       && r.value == equipmentRows[i] == old(equipmentRows)[i].(releasedAt := Some(now))
    {
      if u !in units {
        return NotFound;
      }
      var found := FindOpenUnitRow(u);
      match found {
        case MultipleResultsFound => r := MultipleResultsFound;
        case NotFound => r := NotFound;
        case Found(i) =>
          equipmentRows := equipmentRows[i := equipmentRows[i].(releasedAt := Some(now))];
          units := units[u := units[u].(status := EQ.Available)];
          r := Found(equipmentRows[i]);
      }
    }

    /** The body of the equipment loop; `o` records its decision. */
    method AutoAssignEquipmentTo(ta: TurnaroundId, flight: FlightId, task: EQ.Task)
      returns (result: seq<EquipmentEvent>, raised: bool, ghost o: EQ.Outcome)
      modifies this`units, this`equipmentRows
      ensures EQ.LegalOutcome(old(Equipment()), ta, task, o)
      ensures Equipment() == EQ.Apply(old(Equipment()), ta, task, o)
      ensures result == EquipmentElement(ta, flight, task, o)
      ensures raised <==> o == EQ.Raised
    {
      var kind := EQ.RequiredKind(task.name);
      if kind == None {
        return [], false, EQ.NoMapping;
      }
      var existing := FindOpenTaskRow(ta, task.id);
      match existing {
        case MultipleResultsFound => return [], true, EQ.Raised;
        case Found(_) => return [], false, EQ.AlreadyEquipped;
        case NotFound =>
      }
      var unit := FindAvailableEquipment(kind.value);
      if unit == None {
        return [EquipmentEvent(ta, flight, task, kind.value, None)], false, EQ.NoUnit;
      }
      var assignment := AssignEquipment(unit.value, ta, task.id);
      result, raised, o := [], false, EQ.Equipped(unit.value);
      if assignment.Some? {
        result := [EquipmentEvent(ta, flight, task, kind.value, unit)];
      }
    }

    method AutoAssignEquipment(ta: TurnaroundId, flight: FlightId, tasks: seq<EQ.Task>)
      returns (results: seq<EquipmentEvent>, raised: bool, ghost outs: seq<EQ.Outcome>)
      modifies this`units, this`equipmentRows
      ensures EQ.LegalRun(old(Equipment()), ta, tasks, outs) && EQ.Finished(tasks, outs)
      ensures Equipment() == EQ.RunDb(old(Equipment()), ta, tasks, outs)
      ensures results == EquipmentReport(ta, flight, tasks, outs)
      ensures raised <==> EQ.Raised in outs
    {
      results, raised, outs := [], false, [];
      for i := 0 to |tasks|
        invariant |outs| == i && EQ.Raised !in outs
        invariant EQ.LegalRun(old(Equipment()), ta, tasks, outs)
        invariant Equipment() == EQ.RunDb(old(Equipment()), ta, tasks, outs)
        invariant results == EquipmentReport(ta, flight, tasks, outs)
      {
        var result;
        ghost var o;
        result, raised, o := AutoAssignEquipmentTo(ta, flight, tasks[i]);
        EQ.RunExtends(old(Equipment()), ta, tasks, outs, o);
        assert (outs + [o])[..i] == outs;
        results, outs := results + result, outs + [o];
        if raised {
          return;
        }
      }
    }

    // ---------- Message handlers ----------

    method HandleTurnaroundStarted(ta: TurnaroundId, flight: FlightId, tasks: seq<TaskInfo>, clock: seq<Instant>)
      returns (ghost d: Decisions)
      requires |clock| == |tasks|
      modifies this`crewRows, this`units, this`equipmentRows, this`crewEvents, this`equipmentEvents
      ensures old(crewEvents) <= crewEvents && old(equipmentEvents) <= equipmentEvents
      ensures StartedHandled(directory, old(AllTables()), ta, flight, tasks, clock, d, AllTables(),
                             crewEvents[|old(crewEvents)|..], equipmentEvents[|old(equipmentEvents)|..])
    {
      var crewResults, crewRaised, crewOuts := AutoAssignCrew(ta, flight, tasks, clock);
      d := Decisions(crewOuts, []);
      if crewRaised {
        return;
      }
      crewEvents := crewEvents + crewResults;
      var raw := RawTasks(tasks);
      var equipmentResults, equipmentRaised, equipmentOuts := AutoAssignEquipment(ta, flight, raw);
      d := Decisions(crewOuts, equipmentOuts);
      if equipmentRaised {
        return;
      }
      equipmentEvents := equipmentEvents + equipmentResults;
    }

    method HandleTaskCompleted(ta: TurnaroundId, task: TaskId, now: Instant)
      modifies this`crewRows, this`units, this`equipmentRows
      ensures AllTables() == CompletedHandled(old(AllTables()), ta, task, now)
    {
      var freed := FreeCrewMember(ta, task);
      if freed == MultipleResultsFound {
        return;
      }
      var found := FindOpenTaskRow(ta, task);
      if found.Found? {
        var i := found.value;
        assert !EQ.HasTwoOpen(equipmentRows, ta, task) && EQ.HasOpen(equipmentRows, ta, task);
        ghost var before := Equipment();
        var released := ReleaseEquipment(equipmentRows[i].unit, now);
        assert Equipment() == EQ.Complete(before, ta, task, now);
      }
    }
  }
}
