/**
  Where `assignedCrewId` and `assignedEquipmentId` come from. Messages may be delayed, reordered, duplicated or lost,
  and handlers and document updates may interleave at every database step.
*/
module Provenance {
  import opened Wrappers
  import opened Transitions
  import CA = CrewAssignment
  import CH = CrewHandlers
  import EQ = Equipment
  import T = Turnaround
  import TO = TurnaroundOutcomes

  type TurnaroundId = CA.TurnaroundId
  type TaskId = CA.TaskId

  /** The part of crew.assigned and of equipment.assigned that the turnaround service uses. */
  datatype Message =
    | CrewAssigned(ta: TurnaroundId, task: TaskId, crew: CA.CrewId)
    | UnitAssigned(ta: TurnaroundId, task: TaskId, unit: EQ.UnitId)

  datatype InFlight = InFlight(ta: TurnaroundId, call: T.Call)

  /** `sent` holds every message that a loop body has given rise to; any of them may arrive at any time, repeatedly. */
  datatype State = State(rows: seq<CA.Row>, equipment: EQ.Db, sent: set<Message>, docs: map<TurnaroundId, T.Doc>,
                         calls: seq<InFlight>)

  datatype Action =
    | CrewStep(step: CA.Step)
    | EquipmentStep(use: EQ.Step)
    | CreateTurnaround(ta: TurnaroundId, doc: T.Doc)
    | Deliver(msg: Message)
    | Request(ta: TurnaroundId, call: T.Call)
    | Continue(i: nat, now: CA.Instant)

  function CrewMessages(step: CA.Step): set<Message> {
    if step.AssignBody? && step.outcome.AssignedTo? then {CrewAssigned(step.ta, step.info.id, step.outcome.member.id)}
    else {}
  }

  function UnitMessages(step: EQ.Step): set<Message> {
    if step.AutoBody? && step.outcome.Equipped? then {UnitAssigned(step.ta, step.info.id, step.outcome.unit)} else {}
  }

  /** The messages of a loop body are its "assigned" events, reduced to what is used of them. */
  lemma MessagesAreEvents(crew: CA.Step, use: EQ.Step, db: EQ.Db, db': EQ.Db, flight: CA.FlightId, msg: Message)
    requires crew.AssignBody? && use.AutoBody? && EQ.Effect(db, use, db')
    ensures msg in CrewMessages(crew) <==>
            exists e :: e in CH.CrewElement(crew.ta, flight, crew.info, crew.outcome) && e.member.Some? &&
              msg == CrewAssigned(e.ta, e.task.id, e.member.value.id)
    ensures msg in UnitMessages(use) <==>
            exists e :: e in CH.EquipmentElement(use.ta, flight, use.info, use.outcome) && e.unit.Some? &&
              msg == UnitAssigned(e.ta, e.task.id, e.unit.value)
  {
    if crew.outcome.AssignedTo? {
      assert CH.CrewElement(crew.ta, flight, crew.info, crew.outcome)[0].member.Some?;
    }
    if use.outcome.Equipped? {
      assert CH.EquipmentElement(use.ta, flight, use.info, use.outcome)[0].unit.Some?;
    }
  }

  /** The update that consuming a message asks for. */
  function UpdateOf(msg: Message): T.Dto {
    match msg
    case CrewAssigned(_, _, crew) => T.Dto(None, None, Some(crew), None)
    case UnitAssigned(_, _, unit) => T.Dto(None, None, None, Some(unit))
  }

  /** Every writer of the equipment tables may take part, also the steps that `EQ.Careful` leaves out. */
  ghost predicate Next(s: State, a: Action, s': State) {
    match a
    case CrewStep(step) =>
      CA.Next(s.rows, step, s'.rows) && s' == s.(rows := s'.rows, sent := s.sent + CrewMessages(step))
    case EquipmentStep(step) =>
      EQ.Effect(s.equipment, step, s'.equipment) &&
      s' == s.(equipment := s'.equipment, sent := s.sent + UnitMessages(step))
    case CreateTurnaround(ta, doc) =>
      && ta !in s.docs
      && (forall i :: 0 <= i < |doc.tasks| ==> doc.tasks[i].crew == None && doc.tasks[i].unit == None)
      && s' == s.(docs := s.docs[ta := doc])
    case Deliver(msg) =>
      && msg in s.sent
      && s' == s.(calls := s.calls + [InFlight(msg.ta, T.TaskCalled(msg.task, UpdateOf(msg)))])
    case Request(ta, call) =>
      && (call.MilestonesCalled? || (call.TaskCalled? && call.dto.crew == None && call.dto.unit == None))
      && s' == s.(calls := s.calls + [InFlight(ta, call)])
    case Continue(i, now) =>
      && i < |s.calls| && s.calls[i].ta in s.docs
      && var step := T.Advance(s.docs[s.calls[i].ta], s.calls[i].call, now);
         s' == s.(docs := s.docs[s.calls[i].ta := step.doc], calls := s.calls[i := InFlight(s.calls[i].ta, step.call)])
  }

  ghost predicate Initial(s: State) {
    s.sent == {} && s.docs == map[] && s.calls == []
  }

  /** task_assignments has, or had open, this crew member for this very turnaround and task. */
  ghost predicate HasRow(rows: seq<CA.Row>, crew: CA.CrewId, ta: TurnaroundId, task: TaskId) {
    exists i :: 0 <= i < |rows| && rows[i].crew == crew && rows[i].turnaround == ta && rows[i].task == task
  }

  /** So has equipment_assignments this unit. */
  ghost predicate HasUnitRow(rows: seq<EQ.EquipmentRow>, unit: EQ.UnitId, ta: TurnaroundId, task: TaskId) {
    exists i :: 0 <= i < |rows| && rows[i].unit == unit && rows[i].turnaround == ta && rows[i].task == task
  }

  /** What is stored for the task, or about to be stored, comes from rows of this task. */
  ghost predicate Sourced(s: State, ta: TurnaroundId, task: TaskId, crew: Option<CA.CrewId>, unit: Option<EQ.UnitId>) {
    && (crew.Some? ==> HasRow(s.rows, crew.value, ta, task))
    && (unit.Some? ==> HasUnitRow(s.equipment.rows, unit.value, ta, task))
  }

  ghost predicate MessageSourced(s: State, msg: Message) {
    Sourced(s, msg.ta, msg.task, UpdateOf(msg).crew, UpdateOf(msg).unit)
  }

  ghost predicate DocSourced(s: State, ta: TurnaroundId, doc: T.Doc) {
    forall i :: 0 <= i < |doc.tasks| ==> Sourced(s, ta, doc.tasks[i].id, doc.tasks[i].crew, doc.tasks[i].unit)
  }

  ghost predicate CallSourced(s: State, c: InFlight) {
    match c.call
    case TaskCalled(task, dto) => Sourced(s, c.ta, task, dto.crew, dto.unit)
    case Located(task, _, updates) => Sourced(s, c.ta, task, updates.crew, updates.unit)
    case _ => true
  }

  ghost predicate Inv(s: State) {
    && (forall msg :: msg in s.sent ==> MessageSourced(s, msg))
    && (forall ta :: ta in s.docs ==> DocSourced(s, ta, s.docs[ta]))
    && (forall i :: 0 <= i < |s.calls| ==> CallSourced(s, s.calls[i]))
  }

  // ---------- Rows are never taken back ----------

  lemma CrewRowsPersist(rows: seq<CA.Row>, step: CA.Step, rows': seq<CA.Row>, crew: CA.CrewId, ta: TurnaroundId,
                        task: TaskId)
    requires CA.Next(rows, step, rows') && HasRow(rows, crew, ta, task)
    ensures HasRow(rows', crew, ta, task)
  {
    var i :| 0 <= i < |rows| && rows[i].crew == crew && rows[i].turnaround == ta && rows[i].task == task;
    assert rows'[i].crew == crew && rows'[i].turnaround == ta && rows'[i].task == task;
  }

  lemma CrewMessageHasRow(rows: seq<CA.Row>, step: CA.Step, rows': seq<CA.Row>, msg: Message)
    requires CA.Next(rows, step, rows') && msg in CrewMessages(step)
    ensures HasRow(rows', msg.crew, msg.ta, msg.task)
  {
    assert rows'[|rows|].crew == msg.crew && rows'[|rows|].turnaround == msg.ta && rows'[|rows|].task == msg.task;
  }

  lemma UnitRowsPersist(db: EQ.Db, step: EQ.Step, db': EQ.Db, unit: EQ.UnitId, ta: TurnaroundId, task: TaskId)
    requires EQ.Effect(db, step, db') && HasUnitRow(db.rows, unit, ta, task)
    ensures HasUnitRow(db'.rows, unit, ta, task)
  {
    var i :| 0 <= i < |db.rows| && db.rows[i].unit == unit && db.rows[i].turnaround == ta && db.rows[i].task == task;
    assert db'.rows[i].unit == unit && db'.rows[i].turnaround == ta && db'.rows[i].task == task;
  }

  lemma UnitMessageHasRow(db: EQ.Db, step: EQ.Step, db': EQ.Db, msg: Message)
    requires EQ.Effect(db, step, db') && msg in UnitMessages(step)
    ensures HasUnitRow(db'.rows, msg.unit, msg.ta, msg.task)
  {
    var row := db'.rows[|db.rows|];
    assert row.unit == msg.unit && row.turnaround == msg.ta && row.task == msg.task;
  }

  /** With more rows, what was sourced still is. */
  lemma MoreRowsKeepInv(s: State, s': State)
    requires Inv(s) && s'.docs == s.docs && s'.calls == s.calls && s.sent <= s'.sent
    requires forall crew, ta, task :: HasRow(s.rows, crew, ta, task) ==> HasRow(s'.rows, crew, ta, task)
    requires forall unit, ta, task ::
               HasUnitRow(s.equipment.rows, unit, ta, task) ==> HasUnitRow(s'.equipment.rows, unit, ta, task)
    requires forall msg :: msg in s'.sent - s.sent ==> MessageSourced(s', msg)
    ensures Inv(s')
  {
    forall ta, task, crew, unit | Sourced(s, ta, task, crew, unit) ensures Sourced(s', ta, task, crew, unit) {
    }
    forall msg | msg in s'.sent ensures MessageSourced(s', msg) {
      if msg in s.sent {
        assert MessageSourced(s, msg);
      }
    }
    forall ta | ta in s.docs ensures DocSourced(s', ta, s.docs[ta]) {
      assert DocSourced(s, ta, s.docs[ta]);
    }
    forall i | 0 <= i < |s.calls| ensures CallSourced(s', s.calls[i]) {
      assert CallSourced(s, s.calls[i]);
    }
  }

  lemma AdvanceKeepsSourced(s: State, doc: T.Doc, c: InFlight, now: CA.Instant)
    requires DocSourced(s, c.ta, doc) && CallSourced(s, c)
    ensures DocSourced(s, c.ta, T.Advance(doc, c.call, now).doc)
    ensures CallSourced(s, InFlight(c.ta, T.Advance(doc, c.call, now).call))
  {
  }

  lemma ContinueKeepsInv(s: State, i: nat, now: CA.Instant, s': State)
    requires Inv(s) && Next(s, Continue(i, now), s')
    ensures Inv(s')
  {
    var ta := s.calls[i].ta;
    assert DocSourced(s, ta, s.docs[ta]) && CallSourced(s, s.calls[i]);
    AdvanceKeepsSourced(s, s.docs[ta], s.calls[i], now);
    forall t | t in s'.docs ensures DocSourced(s', t, s'.docs[t]) {
      assert t != ta ==> DocSourced(s, t, s.docs[t]);
    }
    forall j | 0 <= j < |s'.calls| ensures CallSourced(s', s'.calls[j]) {
      assert j != i ==> CallSourced(s, s.calls[j]);
    }
    forall msg | msg in s'.sent ensures MessageSourced(s', msg) {
      assert MessageSourced(s, msg);
    }
  }

  lemma NextKeepsInv(s: State, a: Action, s': State)
    requires Inv(s) && Next(s, a, s')
    ensures Inv(s')
  {
    match a
    case CrewStep(step) =>
      forall crew, ta, task | HasRow(s.rows, crew, ta, task) ensures HasRow(s'.rows, crew, ta, task) {
        CrewRowsPersist(s.rows, step, s'.rows, crew, ta, task);
      }
      forall msg | msg in s'.sent - s.sent ensures MessageSourced(s', msg) {
        CrewMessageHasRow(s.rows, step, s'.rows, msg);
      }
      MoreRowsKeepInv(s, s');
    case EquipmentStep(step) =>
      forall unit, ta, task | HasUnitRow(s.equipment.rows, unit, ta, task)
        ensures HasUnitRow(s'.equipment.rows, unit, ta, task)
      {
        UnitRowsPersist(s.equipment, step, s'.equipment, unit, ta, task);
      }
      forall msg | msg in s'.sent - s.sent ensures MessageSourced(s', msg) {
        UnitMessageHasRow(s.equipment, step, s'.equipment, msg);
      }
      MoreRowsKeepInv(s, s');
    case CreateTurnaround(ta, doc) =>
      assert DocSourced(s', ta, doc);
    case Deliver(msg) =>
      assert MessageSourced(s, msg);
    case Request(ta, call) =>
    case Continue(i, now) =>
      ContinueKeepsInv(s, i, now, s');
  }

  lemma InvAlways(states: seq<State>, actions: seq<Action>, k: nat)
    requires Execution(Next, states, actions) && Initial(states[0]) && k <= |actions|
    ensures Inv(states[k])
  {
    forall j | 0 <= j < k && Inv(states[j]) && Next(states[j], actions[j], states[j + 1]) ensures Inv(states[j + 1]) {
      NextKeepsInv(states[j], actions[j], states[j + 1]);
    }
    HoldsAlways(Next, Inv, states, actions, k);
  }

  /**
    In every run, each crew id stored on a task belongs to a member with an assignment row for exactly that turnaround
    and task.
  */
  lemma AssignedCrewHasARow(states: seq<State>, actions: seq<Action>, k: nat)
    requires Execution(Next, states, actions) && Initial(states[0]) && k <= |actions|
    ensures forall ta, i ::
              ta in states[k].docs && 0 <= i < |states[k].docs[ta].tasks| && states[k].docs[ta].tasks[i].crew.Some? ==>
              HasRow(states[k].rows, states[k].docs[ta].tasks[i].crew.value, ta, states[k].docs[ta].tasks[i].id)
  {
    InvAlways(states, actions, k);
    forall ta, i | ta in states[k].docs && 0 <= i < |states[k].docs[ta].tasks|
      ensures Sourced(states[k], ta, states[k].docs[ta].tasks[i].id, states[k].docs[ta].tasks[i].crew,
                      states[k].docs[ta].tasks[i].unit)
    {
      assert DocSourced(states[k], ta, states[k].docs[ta]);
    }
  }

  /** And each equipment id to a unit with an assignment row for exactly that turnaround and task. */
  lemma AssignedUnitHasARow(states: seq<State>, actions: seq<Action>, k: nat)
    requires Execution(Next, states, actions) && Initial(states[0]) && k <= |actions|
    ensures forall ta, i ::
              ta in states[k].docs && 0 <= i < |states[k].docs[ta].tasks| && states[k].docs[ta].tasks[i].unit.Some? ==>
              HasUnitRow(states[k].equipment.rows, states[k].docs[ta].tasks[i].unit.value, ta,
                         states[k].docs[ta].tasks[i].id)
  {
    InvAlways(states, actions, k);
    forall ta, i | ta in states[k].docs && 0 <= i < |states[k].docs[ta].tasks|
      ensures Sourced(states[k], ta, states[k].docs[ta].tasks[i].id, states[k].docs[ta].tasks[i].crew,
                      states[k].docs[ta].tasks[i].unit)
    {
      assert DocSourced(states[k], ta, states[k].docs[ta]);
    }
  }

  /** Consuming an assignment sets the one field it is about, on the one task it names. */
  lemma DeliveryOnlyLinks(doc: T.Doc, msg: Message, now: CA.Instant, ardt: CA.Instant, k: nat)
    requires k < |doc.tasks| && doc.tasks[k].id == msg.task && forall i :: 0 <= i < k ==> doc.tasks[i].id != msg.task
    ensures T.Serial(doc, T.TaskCalled(msg.task, UpdateOf(msg)), now, ardt).doc.tasks ==
            doc.tasks[k := match msg
                           case CrewAssigned(_, _, crew) => doc.tasks[k].(crew := Some(crew))
                           case UnitAssigned(_, _, unit) => doc.tasks[k].(unit := Some(unit))]
  {
    TO.UpdatedTaskFields(doc, msg.task, UpdateOf(msg), now, ardt, k);
  }

  /**
    Consumed while all tasks are completed or skipped, however long ago, an assignment completes the turnaround again:
    ARDT and the completion time move to the present, and turnaround.completed is published once more. Consumed earlier
    it does none of this.
  */
  lemma LateDeliveryCompletesAgainIff(doc: T.Doc, msg: Message, now: CA.Instant, ardt: CA.Instant)
    requires exists i :: 0 <= i < |doc.tasks| && doc.tasks[i].id == msg.task
    ensures var r := T.Serial(doc, T.TaskCalled(msg.task, UpdateOf(msg)), now, ardt);
            var finished := forall i :: 0 <= i < |doc.tasks| ==> doc.tasks[i].status in {T.Completed, T.Skipped};
            && r.events == (if finished then [T.AllTasksDone] else [])
            && r.doc.completedAt == (if finished then Some(ardt) else doc.completedAt)
            && r.doc.milestones == if finished then doc.milestones.(ardt := Some(ardt)) else doc.milestones
  {
    var k := T.FindTask(doc.tasks, msg.task);
    DeliveryOnlyLinks(doc, msg, now, ardt, k);
    var tasks := T.Serial(doc, T.TaskCalled(msg.task, UpdateOf(msg)), now, ardt).doc.tasks;
    TO.UpdatedDocument(doc, msg.task, UpdateOf(msg), now, ardt);
    SameStatusSameCount(doc.tasks, tasks);
  }

  lemma SameStatusSameCount(tasks: seq<T.Task>, linked: seq<T.Task>)
    requires tasks != [] && |linked| == |tasks|
    requires forall i :: 0 <= i < |tasks| ==> linked[i].status == tasks[i].status
    ensures |T.DoneAt(linked)| == |linked| <==>
            forall i :: 0 <= i < |tasks| ==> tasks[i].status in {T.Completed, T.Skipped}
    ensures |T.DoneAt(linked)| <= |linked|
  {
    TO.AllDoneMeansAll(linked);
    AtMostAll(linked);
    assert forall i :: 0 <= i < |tasks| ==> (T.Done(linked[i]) <==> tasks[i].status in {T.Completed, T.Skipped});
  }

  lemma AtMostAll(tasks: seq<T.Task>)
    ensures |T.DoneAt(tasks)| <= |tasks|
  {
    T.CountDoneMeaning(tasks);
  }
}
