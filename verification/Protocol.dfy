/**
  The turnaround service's events meeting the crew service's handlers through one FIFO queue:
  no crew member and no unit stays held for a task whose completion was announced and consumed.
*/
module Protocol {
  import opened Wrappers
  import opened CrewHandlers
  import opened Transitions
  import CA = CrewAssignment
  import EQ = Equipment
  import EO = EquipmentOptimal

  datatype Message =
    | Started(ta: TurnaroundId, flight: FlightId, tasks: seq<TaskInfo>)
    | TaskDone(ta: TurnaroundId, task: TaskId)

  /** `published` holds the (turnaround, task) pairs for which turnaround.task.completed was ever published. */
  datatype State = State(tables: Tables, queue: seq<Message>, created: set<TurnaroundId>,
                         published: set<(TurnaroundId, TaskId)>)

  datatype Action =
    | Create(ta: TurnaroundId, flight: FlightId, tasks: seq<TaskInfo>)
    | CompleteTask(ta: TurnaroundId, task: TaskId)
    | Deliver(dir: CA.Directory, clock: seq<Instant>, now: Instant, decisions: Decisions, crewEvents: seq<CrewEvent>,
              equipmentEvents: seq<EquipmentEvent>)
    | EquipmentRequest(step: EQ.Step)

  /** HTTP requests on equipment other than manual assignment. */
  predicate PlainRequest(step: EQ.Step) {
    step.CreateUnit? || step.ReleaseUnit? || step.PatchUnit?
  }

  ghost predicate Next(s: State, a: Action, s': State) {
    match a
    case Create(ta, flight, tasks) =>
      ta !in s.created && s' == s.(queue := s.queue + [Started(ta, flight, tasks)], created := s.created + {ta})
    case CompleteTask(ta, task) =>
      ta in s.created && s' == s.(queue := s.queue + [TaskDone(ta, task)], published := s.published + {(ta, task)})
    case Deliver(dir, clock, now, d, crewEvents, equipmentEvents) =>
      && s.queue != []
      && s' == s.(tables := s'.tables, queue := s.queue[1..])
      && (match s.queue[0]
          case Started(ta, flight, tasks) =>
            |clock| == |tasks| &&
            StartedHandled(dir, s.tables, ta, flight, tasks, clock, d, s'.tables, crewEvents, equipmentEvents)
          case TaskDone(ta, task) => s'.tables == CompletedHandled(s.tables, ta, task, now))
    case EquipmentRequest(step) =>
      && PlainRequest(step)
      && EQ.Next(s.tables.equipment, step, s'.tables.equipment)
      && s' == s.(tables := s.tables.(equipment := s'.tables.equipment))
  }

  ghost predicate Initial(s: State) {
    Valid(s.tables) && s.tables.crewRows == [] && s.tables.equipment.rows == [] && s.queue == [] && s.created == {} &&
    s.published == {}
  }

  /** Some row holds a crew member or a unit for the task. */
  ghost predicate Held(t: Tables, ta: TurnaroundId, task: TaskId) {
    CA.HasOpen(t.crewRows, ta, task) || EQ.HasOpen(t.equipment.rows, ta, task)
  }

  /** A completion notice for the task waits behind position k. */
  ghost predicate DoneAfter(queue: seq<Message>, k: int, ta: TurnaroundId, task: TaskId) {
    exists j :: k < j < |queue| && 0 <= j && queue[j] == TaskDone(ta, task)
  }

  ghost predicate Inv(s: State) {
    && Valid(s.tables)
    && (forall p :: p in s.published ==> p.0 in s.created)
    && (forall p :: p in s.published && Held(s.tables, p.0, p.1) ==> DoneAfter(s.queue, -1, p.0, p.1))
    && (forall k, p :: 0 <= k < |s.queue| && s.queue[k].Started? && p in s.published && p.0 == s.queue[k].ta ==>
        DoneAfter(s.queue, k, p.0, p.1))
  }

  lemma CrewLoopHolds(dir: CA.Directory, rows: seq<CA.Row>, ta: TurnaroundId, tasks: seq<TaskInfo>,
                      clock: seq<Instant>, outs: seq<CA.Outcome>, t: TurnaroundId, x: TaskId)
    requires |clock| == |tasks| && CA.LegalRun(dir, rows, ta, tasks, clock, outs)
    requires t != ta && CA.HasOpen(CA.RunRows(rows, ta, tasks, outs), t, x)
    ensures CA.HasOpen(rows, t, x)
  {
    CA.RunAppends(rows, ta, tasks, outs);
    var rows' := CA.RunRows(rows, ta, tasks, outs);
    var i :| 0 <= i < |rows'| && CA.OpenFor(rows'[i], t, x);
    assert i < |rows| && rows'[i] == rows[i];
  }

  lemma EquipmentLoopHolds(db: EQ.Db, ta: TurnaroundId, tasks: seq<EQ.Task>, outs: seq<EQ.Outcome>,
                           t: TurnaroundId, x: TaskId)
    requires EQ.LegalRun(db, ta, tasks, outs) && t != ta && EQ.HasOpen(EQ.RunDb(db, ta, tasks, outs).rows, t, x)
    ensures EQ.HasOpen(db.rows, t, x)
  {
    EO.RunEffect(db, ta, tasks, outs);
    var rows' := EQ.RunDb(db, ta, tasks, outs).rows;
    var i :| 0 <= i < |rows'| && EQ.OpenFor(rows'[i], t, x);
    assert i < |db.rows| && rows'[i] == db.rows[i];
  }

  /** A task held after the started handler was held before, or belongs to the started turnaround. */
  lemma StartedHolds(dir: CA.Directory, pre: Tables, ta: TurnaroundId, flight: FlightId, tasks: seq<TaskInfo>,
                     clock: seq<Instant>,
                     d: Decisions, post: Tables, crewEvents: seq<CrewEvent>, equipmentEvents: seq<EquipmentEvent>,
                     t: TurnaroundId, x: TaskId)
    requires |clock| == |tasks| &&
             StartedHandled(dir, pre, ta, flight, tasks, clock, d, post, crewEvents, equipmentEvents)
    requires Valid(pre) && Held(post, t, x)
    ensures Held(pre, t, x) || t == ta
  {
    StartedKeepsValid(dir, pre, ta, flight, tasks, clock, d, post, crewEvents, equipmentEvents);
    if t != ta {
      if CA.HasOpen(post.crewRows, t, x) {
        CrewLoopHolds(dir, pre.crewRows, ta, tasks, clock, d.crew, t, x);
      } else {
        EquipmentLoopHolds(pre.equipment, ta, RawTasks(tasks), d.equipment, t, x);
      }
    }
  }

  /** After the completed handler the task is not held, and nothing else became held. */
  lemma CompletedHolds(pre: Tables, ta: TurnaroundId, task: TaskId, now: Instant, t: TurnaroundId, x: TaskId)
    requires Valid(pre) && Held(CompletedHandled(pre, ta, task, now), t, x)
    ensures Held(pre, t, x) && !(t == ta && x == task)
  {
  }

  lemma RequestOpensNothing(db: EQ.Db, step: EQ.Step, db': EQ.Db, t: TurnaroundId, x: TaskId)
    requires EQ.Next(db, step, db') && PlainRequest(step) && EQ.HasOpen(db'.rows, t, x)
    ensures EQ.HasOpen(db.rows, t, x)
  {
  }

  lemma DoneInTail(queue: seq<Message>, k: int, ta: TurnaroundId, task: TaskId)
    requires queue != [] && DoneAfter(queue, k, ta, task) && (k >= 0 || queue[0] != TaskDone(ta, task))
    ensures DoneAfter(queue[1..], k - 1, ta, task)
    ensures DoneAfter(queue[1..], -1, ta, task)
  {
  }

  lemma DoneInLonger(queue: seq<Message>, m: Message, k: int, ta: TurnaroundId, task: TaskId)
    requires DoneAfter(queue, k, ta, task)
    ensures DoneAfter(queue + [m], k, ta, task)
  {
    var j :| k < j < |queue| && 0 <= j && queue[j] == TaskDone(ta, task);
    assert (queue + [m])[j] == TaskDone(ta, task);
  }

  lemma EnqueueKeepsInv(s: State, a: Action, s': State)
    requires Inv(s) && Next(s, a, s') && (a.Create? || a.CompleteTask?)
    ensures Inv(s')
  {
    var m := s'.queue[|s.queue|];
    forall p | p in s'.published && Held(s'.tables, p.0, p.1) ensures DoneAfter(s'.queue, -1, p.0, p.1) {
      if p in s.published {
        DoneInLonger(s.queue, m, -1, p.0, p.1);
      } else {
        assert s'.queue[|s.queue|] == TaskDone(p.0, p.1);
      }
    }
    forall k, p | 0 <= k < |s'.queue| && s'.queue[k].Started? && p in s'.published && p.0 == s'.queue[k].ta
      ensures DoneAfter(s'.queue, k, p.0, p.1)
    {
      if k < |s.queue| {
        assert s'.queue[k] == s.queue[k];
        if p in s.published {
          DoneInLonger(s.queue, m, k, p.0, p.1);
        } else {
          assert s'.queue[|s.queue|] == TaskDone(p.0, p.1);
        }
      }
    }
  }

  lemma DeliverKeepsInv(s: State, a: Action, s': State)
    requires Inv(s) && Next(s, a, s') && a.Deliver?
    ensures Inv(s')
  {
    var head := s.queue[0];
    match head {
      case Started(ta, flight, tasks) =>
        StartedKeepsValid(a.dir, s.tables, ta, flight, tasks, a.clock, a.decisions, s'.tables, a.crewEvents,
                          a.equipmentEvents);
      case TaskDone(ta, task) =>
        CompletedKeepsValid(s.tables, ta, task, a.now);
    }
    forall p | p in s'.published && Held(s'.tables, p.0, p.1) ensures DoneAfter(s'.queue, -1, p.0, p.1) {
      match head {
        case Started(ta, flight, tasks) =>
          StartedHolds(a.dir, s.tables, ta, flight, tasks, a.clock, a.decisions, s'.tables, a.crewEvents,
                       a.equipmentEvents, p.0, p.1);
          DoneInTail(s.queue, if p.0 == ta then 0 else -1, p.0, p.1);
        case TaskDone(ta, task) =>
          CompletedHolds(s.tables, ta, task, a.now, p.0, p.1);
          DoneInTail(s.queue, -1, p.0, p.1);
      }
    }
    forall k, p | 0 <= k < |s'.queue| && s'.queue[k].Started? && p in s'.published && p.0 == s'.queue[k].ta
      ensures DoneAfter(s'.queue, k, p.0, p.1)
    {
      assert s.queue[k + 1] == s'.queue[k];
      DoneInTail(s.queue, k + 1, p.0, p.1);
    }
  }

  lemma NextKeepsInv(s: State, a: Action, s': State)
    requires Inv(s) && Next(s, a, s')
    ensures Inv(s')
  {
    match a
    case Create(_, _, _) => EnqueueKeepsInv(s, a, s');
    case CompleteTask(_, _) => EnqueueKeepsInv(s, a, s');
    case Deliver(_, _, _, _, _, _) => DeliverKeepsInv(s, a, s');
    case EquipmentRequest(step) =>
      EQ.StepKeepsValid(s.tables.equipment, step, s'.tables.equipment);
      forall p | p in s'.published && Held(s'.tables, p.0, p.1) ensures Held(s.tables, p.0, p.1) {
        if EQ.HasOpen(s'.tables.equipment.rows, p.0, p.1) {
          RequestOpensNothing(s.tables.equipment, step, s'.tables.equipment, p.0, p.1);
        }
      }
  }

  /**
    No leak: over every run, whenever the queue is empty, each open crew row and each open equipment row belongs to a
    task that never published turnaround.task.completed.
  */
  lemma NoLeak(states: seq<State>, actions: seq<Action>, k: nat)
    requires Execution(Next, states, actions) && Initial(states[0]) && k <= |actions| && states[k].queue == []
    ensures forall i :: 0 <= i < |states[k].tables.crewRows| && CA.Open(states[k].tables.crewRows[i]) ==>
              (states[k].tables.crewRows[i].turnaround, states[k].tables.crewRows[i].task) !in states[k].published
    ensures forall i ::
              0 <= i < |states[k].tables.equipment.rows| && states[k].tables.equipment.rows[i].releasedAt == None ==>
              (states[k].tables.equipment.rows[i].turnaround,
               states[k].tables.equipment.rows[i].task) !in states[k].published
  {
    forall j | 0 <= j < k && Inv(states[j]) && Next(states[j], actions[j], states[j + 1]) ensures Inv(states[j + 1]) {
      NextKeepsInv(states[j], actions[j], states[j + 1]);
    }
    HoldsAlways(Next, Inv, states, actions, k);
    var s := states[k];
    forall i | 0 <= i < |s.tables.crewRows| && CA.Open(s.tables.crewRows[i])
      ensures (s.tables.crewRows[i].turnaround, s.tables.crewRows[i].task) !in s.published
    {
      var p := (s.tables.crewRows[i].turnaround, s.tables.crewRows[i].task);
      assert CA.OpenFor(s.tables.crewRows[i], p.0, p.1);
      assert Held(s.tables, p.0, p.1);
    }
    forall i | 0 <= i < |s.tables.equipment.rows| && s.tables.equipment.rows[i].releasedAt == None
      ensures (s.tables.equipment.rows[i].turnaround, s.tables.equipment.rows[i].task) !in s.published
    {
      var p := (s.tables.equipment.rows[i].turnaround, s.tables.equipment.rows[i].task);
      assert EQ.OpenFor(s.tables.equipment.rows[i], p.0, p.1);
      assert Held(s.tables, p.0, p.1);
    }
  }
}
